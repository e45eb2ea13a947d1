/** What happens, and when, in every run of the readiness protocol: what each look of the poller decides, and
which verdicts can come out. */
module Polling {
  import opened Orders
  import opened StreamMatcher
  import opened Readiness
  import opened Watching

  // ---------------------------------------------------------------------
  // The process and its output.

  /** Among the first `n` actions the process exited with this result. */
  ghost predicate ExitedWith(actions: seq<Action>, n: nat, result: int) {
    exists k :: 0 <= k < n && k < |actions| && actions[k] == Exit(result)
  }

  /** Among the first `n` actions is the last read of this stream. */
  ghost predicate Ended(actions: seq<Action>, n: nat, t: Stream) {
    exists k :: 0 <= k < n && k < |actions| && actions[k].ReadChunk? && actions[k].stream == t && actions[k].last
  }

  ghost predicate Closed(actions: seq<Action>, n: nat) {
    exists k :: 0 <= k < n && k < |actions| && actions[k] == CloseDone
  }

  /** A copier holds a chunk exactly between reading and observing it, and stops after its last read. */
  ghost predicate CopierKept(s: State, actions: seq<Action>, n: nat, selected: set<Stream>, t: Stream) {
    match s.copiers.Get(t)
    case Reading => t in selected && !Ended(actions, n, t)
    case Holding(chunk, last) => t in selected && chunk != [] && (last <==> Ended(actions, n, t))
    case Finished => t !in selected || Ended(actions, n, t)
  }

  ghost predicate WaiterKept(s: State, actions: seq<Action>, n: nat) {
    && (s.waiter.AwaitingExit? ==> forall e :: !ExitedWith(actions, n, e))
    && (s.waiter.AwaitingCopies? ==> ExitedWith(actions, n, s.waiter.exit))
    && (s.waitErr.Some? ==> ExitedWith(actions, n, s.waitErr.value))
    && (s.done <==> Closed(actions, n))
  }

  lemma EndedNext(actions: seq<Action>, n: nat, t: Stream)
    requires n < |actions|
    ensures Ended(actions, n + 1, t) <==>
            Ended(actions, n, t) || (actions[n].ReadChunk? && actions[n].stream == t && actions[n].last)
  {}

  lemma ExitedNext(actions: seq<Action>, n: nat)
    requires n < |actions|
    ensures forall e :: ExitedWith(actions, n + 1, e) <==> ExitedWith(actions, n, e) || actions[n] == Exit(e)
    ensures Closed(actions, n + 1) <==> Closed(actions, n) || actions[n] == CloseDone
  {}

  lemma CopierNext(s: State, actions: seq<Action>, n: nat, selected: set<Stream>, t: Stream)
    requires n < |actions| && Enabled(s, actions[n]) && CopierKept(s, actions, n, selected, t)
    ensures CopierKept(Step(s, actions[n]), actions, n + 1, selected, t)
  {
    EndedNext(actions, n, t);
  }

  lemma WaiterNext(s: State, actions: seq<Action>, n: nat)
    requires n < |actions| && Enabled(s, actions[n]) && WaiterKept(s, actions, n)
    ensures WaiterKept(Step(s, actions[n]), actions, n + 1)
  {
    ExitedNext(actions, n);
  }

  lemma {:induction false} RunKeepsCopiers(states: seq<State>, actions: seq<Action>, pattern: Bytes,
                                           selected: set<Stream>, n: nat, t: Stream)
    requires IsRun(states, actions, pattern, selected) && n <= |actions|
    ensures CopierKept(states[n], actions, n, selected, t)
  {
    if n > 0 {
      RunKeepsCopiers(states, actions, pattern, selected, n - 1, t);
      CopierNext(states[n - 1], actions, n - 1, selected, t);
    }
  }

  lemma {:induction false} RunKeepsWaiter(states: seq<State>, actions: seq<Action>, pattern: Bytes,
                                          selected: set<Stream>, n: nat)
    requires IsRun(states, actions, pattern, selected) && n <= |actions|
    ensures WaiterKept(states[n], actions, n)
  {
    if n > 0 {
      RunKeepsWaiter(states, actions, pattern, selected, n - 1);
      WaiterNext(states[n - 1], actions, n - 1);
    }
  }

  /** A copier has finished exactly if its stream is not watched, or if the stream's last read has come and all
  that was read has been observed. After the last read there is none. */
  lemma FinishedMeaning(states: seq<State>, actions: seq<Action>, pattern: Bytes, selected: set<Stream>, n: nat,
                        t: Stream)
    requires IsRun(states, actions, pattern, selected) && n <= |actions|
    ensures states[n].copiers.Get(t).Finished? <==>
            t !in selected || (Ended(actions, n, t) && states[n].read.Get(t) == Of(states[n].observed, t))
    ensures n < |actions| && actions[n].ReadChunk? && actions[n].stream == t ==>
              t in selected && !Ended(actions, n, t)
  {
    RunKeepsCopiers(states, actions, pattern, selected, n, t);
    RunKeepsInv(states, actions, pattern, selected, n);
    assert Accounted(states[n], t);
  }

  // ---------------------------------------------------------------------
  // What the poller does.

  predicate Polls(a: Action) {
    a.Check? || a.Select? || a.Recheck? || a.TestDeadline?
  }

  predicate FoundBy(s: State, pattern: Bytes) {
    Found(pattern, Merged(s.observed))
  }

  /** Every look at the matcher ends in Ready if the observed bytes hold the pattern, and only then. Between two
  looks the poller stops waiting exactly if the done channel was closed, and reports an early exit, with the
  result of the process, only after it has looked again. The deadline decides last. */
  lemma PollerDecides(states: seq<State>, actions: seq<Action>, pattern: Bytes, selected: set<Stream>, i: nat)
    requires IsRun(states, actions, pattern, selected) && i < |actions|
    ensures var s, next := states[i], states[i + 1].poller;
            match actions[i]
            case Check => next == if FoundBy(s, pattern) then Returned(Ready) else Selecting
            case Select => next == if Closed(actions, i) then Rechecking else Timing
            case Recheck =>
              if FoundBy(s, pattern) then next == Returned(Ready)
              else next.Returned? && next.verdict.ExitedEarly? && ExitedWith(actions, i, next.verdict.waitErr)
            case TestDeadline(passed) => next == if passed then Returned(TimedOut) else Checking
            case _ => next == s.poller
  {
    RunKeepsInv(states, actions, pattern, selected, i);
    RunKeepsWaiter(states, actions, pattern, selected, i);
    assert states[i + 1] == Step(states[i], actions[i]);
  }

  /** The poller's last look was action `c`, in vain, and it has done nothing since. */
  ghost predicate LookedInVain(states: seq<State>, actions: seq<Action>, pattern: Bytes, c: nat, n: nat) {
    && c < n <= |actions| < |states| && actions[c] == Check && !FoundBy(states[c], pattern)
    && forall k :: c < k < n ==> !Polls(actions[k])
  }

  /** Since that look it has only found the done channel open, in action `w`. */
  ghost predicate StillRunning(states: seq<State>, actions: seq<Action>, pattern: Bytes, c: nat, w: nat, n: nat) {
    && w < n <= |actions| && LookedInVain(states, actions, pattern, c, w)
    && actions[w] == Select && !Closed(actions, w)
    && forall k :: w < k < n ==> !Polls(actions[k])
  }

  ghost predicate RoundKept(states: seq<State>, actions: seq<Action>, pattern: Bytes, n: nat)
    requires n < |states|
  {
    && (states[n].poller.Selecting? ==> exists c: nat :: LookedInVain(states, actions, pattern, c, n))
    && (states[n].poller.Timing? ==> exists c: nat, w: nat :: StillRunning(states, actions, pattern, c, w, n))
  }

  lemma SelectingNext(states: seq<State>, actions: seq<Action>, pattern: Bytes, last: nat, n: nat)
    requires last + 1 == n <= |actions| < |states| && RoundKept(states, actions, pattern, last)
    requires (actions[last] == Check && !FoundBy(states[last], pattern)) ||
             (states[last].poller.Selecting? && !Polls(actions[last]))
    ensures exists c: nat :: LookedInVain(states, actions, pattern, c, n)
  {
    if actions[last] == Check {
      assert LookedInVain(states, actions, pattern, last, n);
    } else {
      var c: nat :| LookedInVain(states, actions, pattern, c, last);
      assert LookedInVain(states, actions, pattern, c, n);
    }
  }

  lemma TimingNext(states: seq<State>, actions: seq<Action>, pattern: Bytes, last: nat, n: nat)
    requires last + 1 == n <= |actions| < |states| && RoundKept(states, actions, pattern, last)
    requires (actions[last] == Select && !Closed(actions, last) && states[last].poller.Selecting?) ||
             (states[last].poller.Timing? && !Polls(actions[last]))
    ensures exists c: nat, w: nat :: StillRunning(states, actions, pattern, c, w, n)
  {
    if actions[last] == Select {
      var c: nat :| LookedInVain(states, actions, pattern, c, last);
      assert StillRunning(states, actions, pattern, c, last, n);
    } else {
      var c: nat, w: nat :| StillRunning(states, actions, pattern, c, w, last);
      assert StillRunning(states, actions, pattern, c, w, n);
    }
  }

  lemma {:induction false} RunKeepsRound(states: seq<State>, actions: seq<Action>, pattern: Bytes,
                                         selected: set<Stream>, n: nat)
    requires IsRun(states, actions, pattern, selected) && n <= |actions|
    ensures RoundKept(states, actions, pattern, n)
  {
    if n > 0 {
      RunKeepsRound(states, actions, pattern, selected, n - 1);
      PollerDecides(states, actions, pattern, selected, n - 1);
      assert Enabled(states[n - 1], actions[n - 1]);
      if states[n].poller.Selecting? {
        SelectingNext(states, actions, pattern, n - 1, n);
      } else if states[n].poller.Timing? {
        TimingNext(states, actions, pattern, n - 1, n);
      }
    }
  }

  /** A timeout comes out only of a round in which the deadline had passed, the done channel was open, and the
  bytes observed when the poller looked did not hold the pattern; and out of every such round. */
  lemma TimesOutExactlyWhen(states: seq<State>, actions: seq<Action>, pattern: Bytes, selected: set<Stream>, i: nat)
    requires IsRun(states, actions, pattern, selected) && i < |actions| && !states[i].poller.Returned?
    ensures states[i + 1].poller == Returned(TimedOut) <==>
            actions[i] == TestDeadline(true) &&
            exists c: nat, w: nat :: StillRunning(states, actions, pattern, c, w, i)
  {
    PollerDecides(states, actions, pattern, selected, i);
    RunKeepsRound(states, actions, pattern, selected, i);
    assert Enabled(states[i], actions[i]);
  }

  // ---------------------------------------------------------------------
  // Every verdict can come out.

  /** Whatever is looked for on a stream that is watched, Ready can be returned while the process is running. */
  lemma ReadyWhileRunning(pattern: Bytes, selected: set<Stream>, stream: Stream) returns (s: State)
    requires stream in selected
    ensures Reachable(s, pattern, selected) && s.poller == Returned(Ready) && s.waiter.AwaitingExit? && !s.done
    ensures Found(pattern, s.read.Get(stream))
  {
    var text := if pattern == [] then [0] else pattern;
    s := Start(pattern, selected);
    s := Feed(s, pattern, selected, [], [], [], stream, text);
    assert [] + text == text && OccursAt(pattern, text, 0);
    SeenIfFound(s, pattern, selected, Fed([], stream.Stdout?, text), Fed([], stream.Stderr?, text), text);
    s := Extend(s, pattern, selected, Check);
  }

  /** The first deadline can pass before anything is read. */
  lemma TimeoutIsPossible(pattern: Bytes, selected: set<Stream>) returns (s: State)
    ensures Reachable(s, pattern, selected) && s.poller == Returned(TimedOut)
  {
    s := Start(pattern, selected);
    SeenIfFound(s, pattern, selected, [], [], []);
    s := Extend(s, pattern, selected, Check);
    s := Extend(s, pattern, selected, Select);
    s := Extend(s, pattern, selected, TestDeadline(true));
  }
}
