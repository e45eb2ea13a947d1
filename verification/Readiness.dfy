/** The stdout-match readiness protocol: two pipe copiers, a waiter and a poller, interleaved.

A copier reads a chunk and later observes it; the waiter sees the process exit, waits for
the copiers, stores the exit result and closes the done channel; the poller checks the
matcher, then the channel, then the matcher again. Each action below is one atomic step. */
module Readiness {
  import opened Orders
  import opened StreamMatcher

  datatype Stream = Stdout | Stderr

  datatype PerStream<T> = PerStream(out: T, err: T) {
    function Get(stream: Stream): T {
      match stream
      case Stdout => out
      case Stderr => err
    }

    function Set(stream: Stream, value: T): PerStream<T> {
      match stream
      case Stdout => this.(out := value)
      case Stderr => this.(err := value)
    }
  }

  /** `Holding` has read a chunk that the matcher has not observed yet. A stream without a
      copier is `Finished` from the start: the wait group never counts it. */
  datatype Copier = Reading | Holding(chunk: Bytes, last: bool) | Finished

  datatype Waiter = AwaitingExit | AwaitingCopies(exit: int) | Stored | Closed

  datatype Verdict = Ready | ExitedEarly(waitErr: int) | TimedOut

  datatype Poller = Checking | Selecting | Rechecking | Timing | Returned(verdict: Verdict)

  datatype Log = Log(stream: Stream, chunk: Bytes)

  /** `observed` records the chunks in the order in which the matcher took them, and
      `read` what each copier has read so far. */
  datatype State = State(
    matcher: Matcher, copiers: PerStream<Copier>, waiter: Waiter, waitErr: Option<int>, done: bool,
    poller: Poller, observed: seq<Log>, read: PerStream<Bytes>)

  datatype Action =
    | ReadChunk(stream: Stream, chunk: Bytes, last: bool)
    | ObserveChunk(stream: Stream)
    | Exit(result: int)
    | StoreResult
    | CloseDone
    | Check
    | Select
    | Recheck
    | TestDeadline(passed: bool)

  ghost predicate Init(s: State, pattern: Bytes, selected: set<Stream>) {
    && s.matcher == Fresh(pattern)
    && s.copiers == PerStream(if Stdout in selected then Reading else Finished,
                              if Stderr in selected then Reading else Finished)
    && s.waiter == AwaitingExit && s.waitErr == None && !s.done
    && s.poller == Checking && s.observed == [] && s.read == PerStream([], [])
  }

  predicate Enabled(s: State, a: Action)
  {
    match a
    case ReadChunk(stream, chunk, last) => s.copiers.Get(stream).Reading? && |chunk| <= BUFFER_SIZE
    case ObserveChunk(stream) => s.copiers.Get(stream).Holding?
    case Exit(_) => s.waiter.AwaitingExit?
    case StoreResult => s.waiter.AwaitingCopies? && s.copiers.out.Finished? && s.copiers.err.Finished?
    case CloseDone => s.waiter.Stored?
    case Check => s.poller.Checking?
    case Select => s.poller.Selecting?
    case Recheck => s.poller.Rechecking?
    case TestDeadline(_) => s.poller.Timing?
  }

  function Step(s: State, a: Action): State
    requires Enabled(s, a)
  {
    match a
    case ReadChunk(stream, chunk, last) =>
      s.(copiers := s.copiers.Set(stream,
                                  if chunk != [] then Holding(chunk, last) else if last then Finished else Reading),
         read := s.read.Set(stream, s.read.Get(stream) + chunk))
    case ObserveChunk(stream) =>
      var held := s.copiers.Get(stream);
      s.(copiers := s.copiers.Set(stream, if held.last then Finished else Reading),
         matcher := s.matcher.Observe(held.chunk),
         observed := s.observed + [Log(stream, held.chunk)])
    case Exit(result) => s.(waiter := AwaitingCopies(result))
    case StoreResult => s.(waiter := Stored, waitErr := Some(s.waiter.exit))
    case CloseDone => s.(waiter := Closed, done := true)
    case Check => s.(poller := if s.matcher.seen then Returned(Ready) else Selecting)
    case Select => s.(poller := if s.done then Rechecking else Timing)
    case Recheck =>
      s.(poller := Returned(if s.matcher.seen then Ready
                            else ExitedEarly(match s.waitErr case Some(e) => e case None => 0)))
    case TestDeadline(passed) => s.(poller := if passed then Returned(TimedOut) else Checking)
  }

  /** A run: any interleaving of enabled actions from an initial state. */
  ghost predicate IsRun(states: seq<State>, actions: seq<Action>, pattern: Bytes, selected: set<Stream>) {
    && |states| == |actions| + 1
    && Init(states[0], pattern, selected)
    && forall i :: 0 <= i < |actions| ==>
         Enabled(states[i], actions[i]) && states[i + 1] == Step(states[i], actions[i])
  }

  // ---------------------------------------------------------------------
  // What the matcher was given.

  /** The bytes observed, in the order of observation: an interleaving of the streams. */
  function Merged(log: seq<Log>): Bytes {
    if log == [] then [] else Merged(log[..|log| - 1]) + log[|log| - 1].chunk
  }

  /** The bytes of one stream among those observed. */
  function Of(log: seq<Log>, stream: Stream): Bytes {
    if log == [] then []
    else
      var last := log[|log| - 1];
      Of(log[..|log| - 1], stream) + if last.stream == stream then last.chunk else []
  }

  function Pending(c: Copier): Bytes {
    if c.Holding? then c.chunk else []
  }

  /** The verdict a whole-text search would give. */
  predicate Found(pattern: Bytes, text: Bytes) {
    text != [] && Occurs(pattern, text)
  }

  // ---------------------------------------------------------------------
  // The invariant.

  /** What a copier has read is what the matcher took of its stream, and what the copier holds. */
  ghost predicate Accounted(s: State, t: Stream) {
    s.read.Get(t) == Of(s.observed, t) + Pending(s.copiers.Get(t))
  }

  /** A stream that is not watched is never read. */
  ghost predicate Silent(s: State, t: Stream) {
    s.copiers.Get(t).Finished? && s.read.Get(t) == []
  }

  ghost predicate BytesKept(s: State, pattern: Bytes, selected: set<Stream>) {
    && s.matcher.pattern == pattern && Tracks(s.matcher, Merged(s.observed))
    && Accounted(s, Stdout) && Accounted(s, Stderr)
    && (Stdout !in selected ==> Silent(s, Stdout)) && (Stderr !in selected ==> Silent(s, Stderr))
    && forall i :: 0 <= i < |s.observed| ==> s.observed[i].stream in selected
  }

  ghost predicate ControlKept(s: State) {
    && (s.waiter.Stored? || s.waiter.Closed? ==>
          s.waitErr.Some? && s.copiers.out.Finished? && s.copiers.err.Finished?)
    && (s.done <==> s.waiter.Closed?)
    && (s.poller.Rechecking? ==> s.done)
    && (s.poller == Returned(Ready) ==> s.matcher.seen)
    && (s.poller.Returned? && s.poller.verdict.ExitedEarly? ==>
          s.done && !s.matcher.seen && s.waitErr == Some(s.poller.verdict.waitErr))
  }

  ghost predicate Inv(s: State, pattern: Bytes, selected: set<Stream>) {
    BytesKept(s, pattern, selected) && ControlKept(s)
  }

  lemma MergedAppend(log: seq<Log>, e: Log)
    ensures Merged(log + [e]) == Merged(log) + e.chunk
  {
    assert (log + [e])[..|log|] == log;
  }

  lemma OfAppend(log: seq<Log>, e: Log, t: Stream)
    ensures Of(log + [e], t) == Of(log, t) + if e.stream == t then e.chunk else []
  {
    assert (log + [e])[..|log|] == log;
  }

  lemma OtherStream(s: State, r: State, t: Stream)
    requires Accounted(s, t) && r.observed == s.observed
    requires r.read.Get(t) == s.read.Get(t) && r.copiers.Get(t) == s.copiers.Get(t)
    ensures Accounted(r, t)
  {}

  lemma ReadAccounted(s: State, stream: Stream, chunk: Bytes, last: bool, t: Stream)
    requires Accounted(s, t) && Enabled(s, ReadChunk(stream, chunk, last))
    ensures Accounted(Step(s, ReadChunk(stream, chunk, last)), t)
  {
    var r := Step(s, ReadChunk(stream, chunk, last));
    if t == stream {
      assert Of(s.observed, t) + [] == Of(s.observed, t);
    } else {
      OtherStream(s, r, t);
    }
  }

  lemma ObserveAccounted(s: State, stream: Stream, t: Stream)
    requires Accounted(s, t) && Enabled(s, ObserveChunk(stream))
    ensures Accounted(Step(s, ObserveChunk(stream)), t)
  {
    var e := Log(stream, s.copiers.Get(stream).chunk);
    OfAppend(s.observed, e, t);
    assert Of(s.observed, t) + e.chunk + [] == Of(s.observed, t) + e.chunk;
    assert Of(s.observed, t) + [] == Of(s.observed, t);
  }

  lemma ReadKeepsInv(s: State, stream: Stream, chunk: Bytes, last: bool, pattern: Bytes, selected: set<Stream>)
    requires Inv(s, pattern, selected) && Enabled(s, ReadChunk(stream, chunk, last))
    ensures Inv(Step(s, ReadChunk(stream, chunk, last)), pattern, selected)
  {
    ReadAccounted(s, stream, chunk, last, Stdout);
    ReadAccounted(s, stream, chunk, last, Stderr);
  }

  lemma ObserveKeepsBytes(s: State, stream: Stream, pattern: Bytes, selected: set<Stream>)
    requires BytesKept(s, pattern, selected) && Enabled(s, ObserveChunk(stream))
    ensures BytesKept(Step(s, ObserveChunk(stream)), pattern, selected)
  {
    var e := Log(stream, s.copiers.Get(stream).chunk);
    MergedAppend(s.observed, e);
    ObserveTracks(s.matcher, Merged(s.observed), e.chunk);
    ObserveAccounted(s, stream, Stdout);
    ObserveAccounted(s, stream, Stderr);
  }

  lemma ObserveKeepsInv(s: State, stream: Stream, pattern: Bytes, selected: set<Stream>)
    requires Inv(s, pattern, selected) && Enabled(s, ObserveChunk(stream))
    ensures Inv(Step(s, ObserveChunk(stream)), pattern, selected)
  {
    ObserveKeepsBytes(s, stream, pattern, selected);
  }

  /** The waiter and the poller touch no bytes. */
  lemma ControlKeepsBytes(s: State, r: State, pattern: Bytes, selected: set<Stream>)
    requires BytesKept(s, pattern, selected)
    requires r.matcher == s.matcher && r.copiers == s.copiers && r.observed == s.observed && r.read == s.read
    ensures BytesKept(r, pattern, selected)
  {
    OtherStream(s, r, Stdout);
    OtherStream(s, r, Stderr);
  }

  lemma ControlKeepsInv(s: State, a: Action, pattern: Bytes, selected: set<Stream>)
    requires Inv(s, pattern, selected) && Enabled(s, a) && !a.ReadChunk? && !a.ObserveChunk?
    ensures Inv(Step(s, a), pattern, selected)
  {
    ControlKeepsBytes(s, Step(s, a), pattern, selected);
  }

  /** Every enabled action keeps the invariant. */
  lemma StepKeepsInv(s: State, a: Action, pattern: Bytes, selected: set<Stream>)
    requires Inv(s, pattern, selected) && Enabled(s, a)
    ensures Inv(Step(s, a), pattern, selected)
  {
    match a
    case ReadChunk(stream, chunk, last) => ReadKeepsInv(s, stream, chunk, last, pattern, selected);
    case ObserveChunk(stream) => ObserveKeepsInv(s, stream, pattern, selected);
    case _ => ControlKeepsInv(s, a, pattern, selected);
  }

  lemma {:induction false} RunKeepsInv(states: seq<State>, actions: seq<Action>, pattern: Bytes,
                                       selected: set<Stream>, i: nat)
    requires IsRun(states, actions, pattern, selected) && i < |states|
    ensures Inv(states[i], pattern, selected)
  {
    if i > 0 {
      RunKeepsInv(states, actions, pattern, selected, i - 1);
      StepKeepsInv(states[i - 1], actions[i - 1], pattern, selected);
    }
  }

  // ---------------------------------------------------------------------
  // Verdicts over whole runs.

  /** In every run, Ready is returned only if the pattern is in the bytes observed; an early
      exit is returned only once every byte read has been observed, if the pattern is nowhere
      in them, and with the stored exit result. */
  lemma VerdictsAreRight(states: seq<State>, actions: seq<Action>, pattern: Bytes, selected: set<Stream>)
    requires IsRun(states, actions, pattern, selected)
    ensures var s := states[|actions|];
            && (s.poller == Returned(Ready) ==> Found(pattern, Merged(s.observed)))
            && (s.poller.Returned? && s.poller.verdict.ExitedEarly? ==>
                  && !Found(pattern, Merged(s.observed))
                  && (forall t :: s.read.Get(t) == Of(s.observed, t))
                  && s.waitErr == Some(s.poller.verdict.waitErr))
  {
    RunKeepsInv(states, actions, pattern, selected, |actions|);
  }

  lemma {:induction false} SingleStreamMerged(log: seq<Log>, stream: Stream)
    requires forall i :: 0 <= i < |log| ==> log[i].stream == stream
    ensures Merged(log) == Of(log, stream)
  {
    if log != [] {
      SingleStreamMerged(log[..|log| - 1], stream);
    }
  }

  lemma FoundInLonger(pattern: Bytes, text: Bytes, more: Bytes)
    requires Found(pattern, text)
    ensures Found(pattern, text + more)
  {
    OccursInContext(pattern, [], text, more);
    assert [] + text + more == text + more;
  }

  /** Watching one stream, the verdicts are exact for the bytes read from that stream. */
  lemma SingleStreamVerdicts(states: seq<State>, actions: seq<Action>, pattern: Bytes, stream: Stream)
    requires IsRun(states, actions, pattern, {stream})
    ensures var s := states[|actions|];
            && (s.poller == Returned(Ready) ==> Found(pattern, s.read.Get(stream)))
            && (s.poller.Returned? && s.poller.verdict.ExitedEarly? ==> !Found(pattern, s.read.Get(stream)))
  {
    var s := states[|actions|];
    RunKeepsInv(states, actions, pattern, {stream}, |actions|);
    VerdictsAreRight(states, actions, pattern, {stream});
    SingleStreamMerged(s.observed, stream);
    assert Accounted(s, stream);
    if Found(pattern, Merged(s.observed)) {
      FoundInLonger(pattern, Merged(s.observed), Pending(s.copiers.Get(stream)));
    }
  }

  /** Once the done channel is closed nothing is read or observed any more. */
  lemma DoneFreezesOutput(s: State, a: Action, pattern: Bytes, selected: set<Stream>)
    requires Inv(s, pattern, selected) && Enabled(s, a) && s.done
    ensures var r := Step(s, a); r.observed == s.observed && r.read == s.read && r.matcher == s.matcher && r.done
  {}

  /** A verdict is final. */
  lemma VerdictIsFinal(s: State, a: Action)
    requires Enabled(s, a) && s.poller.Returned?
    ensures Step(s, a).poller == s.poller
  {}

  lemma {:induction false} MergedBlock(log: seq<Log>, i: nat, j: nat)
    requires i <= j <= |log|
    ensures Merged(log) == Merged(log[..i]) + Merged(log[i..j]) + Merged(log[j..])
  {
    MergedSplit(log, j);
    MergedSplit(log[..j], i);
    assert log[..j][..i] == log[..i] && log[..j][i..] == log[i..j];
  }

  lemma {:induction false} MergedSplit(log: seq<Log>, i: nat)
    requires i <= |log|
    ensures Merged(log) == Merged(log[..i]) + Merged(log[i..])
    decreases |log|
  {
    if i == |log| {
      assert log[..i] == log && log[i..] == [];
      assert Merged(log) + [] == Merged(log);
    } else {
      var last := |log| - 1;
      MergedSplit(log[..last], i);
      assert log[..last][..i] == log[..i] && log[..last][i..] == log[i..][..|log[i..]| - 1];
    }
  }

  /** Watching both streams, an early exit is never returned when the pattern lies in output
      that was observed without the other stream in between. */
  lemma NothingContiguousIsMissed(states: seq<State>, actions: seq<Action>, pattern: Bytes, selected: set<Stream>,
                                  i: nat, j: nat)
    requires IsRun(states, actions, pattern, selected)
    requires i <= j <= |states[|actions|].observed|
    requires Found(pattern, Merged(states[|actions|].observed[i..j]))
    ensures var p := states[|actions|].poller; !(p.Returned? && p.verdict.ExitedEarly?)
  {
    var log := states[|actions|].observed;
    VerdictsAreRight(states, actions, pattern, selected);
    MergedBlock(log, i, j);
    OccursInContext(pattern, Merged(log[..i]), Merged(log[i..j]), Merged(log[j..]));
  }
}
