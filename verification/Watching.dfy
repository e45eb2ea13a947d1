/** Which streams may share one matcher: when the verdicts are exact for each stream by itself. */
module Watching {
  import opened Orders
  import opened StreamMatcher
  import opened Readiness

  const BOTH := {Stdout, Stderr}

  /** The state `s` ends some run. */
  ghost predicate Reachable(s: State, pattern: Bytes, selected: set<Stream>) {
    exists states, actions :: IsRun(states, actions, pattern, selected) && states[|actions|] == s
  }

  predicate InSome(s: State, pattern: Bytes) {
    Found(pattern, s.read.out) || Found(pattern, s.read.err)
  }

  /** Ready was returned although neither stream contains the pattern. */
  predicate Mixed(s: State, pattern: Bytes) {
    s.poller == Returned(Ready) && !InSome(s, pattern)
  }

  /** An early exit was returned although a stream contains the pattern. */
  predicate Missed(s: State, pattern: Bytes) {
    s.poller.Returned? && s.poller.verdict.ExitedEarly? && InSome(s, pattern)
  }

  /** Streams can be told apart: not both are watched, or the pattern cannot span two chunks. */
  predicate Separable(pattern: Bytes, selected: set<Stream>) {
    selected != BOTH || |pattern| <= 1
  }

  // ---------------------------------------------------------------------
  // Separable streams.

  /** A pattern of at most one byte is found in a concatenation exactly if it is found in a part. */
  lemma FoundInParts(pattern: Bytes, a: Bytes, b: Bytes)
    requires |pattern| <= 1
    ensures Found(pattern, a + b) <==> Found(pattern, a) || Found(pattern, b)
  {
    if pattern == [] {
      assert OccursAt(pattern, a, 0) && OccursAt(pattern, b, 0) && OccursAt(pattern, a + b, 0);
    } else {
      OneByte(pattern, a);
      OneByte(pattern, b);
      OneByte(pattern, a + b);
    }
  }

  lemma OneByte(pattern: Bytes, text: Bytes)
    requires |pattern| == 1
    ensures Found(pattern, text) <==> pattern[0] in text
  {
    if i: nat :| i <= |text| && OccursAt(pattern, text, i) {
      assert text[i..i + 1] == [text[i]];
    }
    if i :| 0 <= i < |text| && text[i] == pattern[0] {
      assert OccursAt(pattern, text, i);
    }
  }

  lemma {:induction false} ShortPatternSeparates(pattern: Bytes, log: seq<Log>)
    requires |pattern| <= 1
    ensures Found(pattern, Merged(log)) <==> Found(pattern, Of(log, Stdout)) || Found(pattern, Of(log, Stderr))
  {
    if log != [] {
      var init, last := log[..|log| - 1], log[|log| - 1];
      ShortPatternSeparates(pattern, init);
      FoundInParts(pattern, Merged(init), last.chunk);
      FoundInParts(pattern, Of(init, last.stream), last.chunk);
      var other := if last.stream.Stdout? then Stderr else Stdout;
      assert Of(init, other) + [] == Of(init, other);
    }
  }

  lemma {:induction false} OtherStreamSilent(log: seq<Log>, stream: Stream)
    requires forall i :: 0 <= i < |log| ==> log[i].stream != stream
    ensures Of(log, stream) == []
  {
    if log != [] {
      OtherStreamSilent(log[..|log| - 1], stream);
    }
  }

  lemma OneStreamSeparates(pattern: Bytes, log: seq<Log>, stream: Stream)
    requires forall i :: 0 <= i < |log| ==> log[i].stream == stream
    ensures Found(pattern, Merged(log)) <==> Found(pattern, Of(log, Stdout)) || Found(pattern, Of(log, Stderr))
  {
    SingleStreamMerged(log, stream);
    OtherStreamSilent(log, if stream.Stdout? then Stderr else Stdout);
  }

  lemma WatchingBoth(selected: set<Stream>)
    requires Stdout in selected && Stderr in selected
    ensures selected == BOTH
  {
    forall t: Stream ensures t in selected <==> t in BOTH {
      assert t.Stdout? || t.Stderr?;
    }
  }

  lemma Separates(pattern: Bytes, selected: set<Stream>, log: seq<Log>)
    requires Separable(pattern, selected)
    requires forall i :: 0 <= i < |log| ==> log[i].stream in selected
    ensures Found(pattern, Merged(log)) <==> Found(pattern, Of(log, Stdout)) || Found(pattern, Of(log, Stderr))
  {
    if |pattern| <= 1 {
      ShortPatternSeparates(pattern, log);
    } else if Stdout !in selected {
      forall i | 0 <= i < |log| ensures log[i].stream == Stderr {}
      OneStreamSeparates(pattern, log, Stderr);
    } else {
      if Stderr in selected {
        WatchingBoth(selected);
      }
      forall i | 0 <= i < |log| ensures log[i].stream == Stdout {}
      OneStreamSeparates(pattern, log, Stdout);
    }
  }

  /** On separable streams no run mixes and none misses. */
  lemma SeparableIsExact(s: State, pattern: Bytes, selected: set<Stream>)
    requires Reachable(s, pattern, selected) && Separable(pattern, selected)
    ensures !Mixed(s, pattern) && !Missed(s, pattern)
  {
    var states, actions :| IsRun(states, actions, pattern, selected) && states[|actions|] == s;
    RunKeepsInv(states, actions, pattern, selected, |actions|);
    VerdictsAreRight(states, actions, pattern, selected);
    Separates(pattern, selected, s.observed);
    if Found(pattern, Of(s.observed, Stdout)) {
      FoundInLonger(pattern, Of(s.observed, Stdout), Pending(s.copiers.out));
    }
    if Found(pattern, Of(s.observed, Stderr)) {
      FoundInLonger(pattern, Of(s.observed, Stderr), Pending(s.copiers.err));
    }
    assert s.poller.Returned? && s.poller.verdict.ExitedEarly? ==>
        s.read.Get(Stdout) == Of(s.observed, Stdout) && s.read.Get(Stderr) == Of(s.observed, Stderr);
  }

  // ---------------------------------------------------------------------
  // Both streams, and a pattern of two bytes or more.

  lemma Extend(s: State, pattern: Bytes, selected: set<Stream>, a: Action) returns (r: State)
    requires Reachable(s, pattern, selected) && Enabled(s, a)
    ensures r == Step(s, a) && Reachable(r, pattern, selected)
  {
    var states, actions :| IsRun(states, actions, pattern, selected) && states[|actions|] == s;
    r := Step(s, a);
    var more, done := states + [r], actions + [a];
    forall i | 0 <= i < |done| ensures Enabled(more[i], done[i]) && more[i + 1] == Step(more[i], done[i]) {}
    assert IsRun(more, done, pattern, selected);
    assert more[|done|] == r;
  }

  /** The copiers of the selected streams are reading. */
  function Idle(selected: set<Stream>): PerStream<Copier> {
    PerStream(if Stdout in selected then Reading else Finished, if Stderr in selected then Reading else Finished)
  }

  /** All copiers are reading, the process runs, and the poller is about to look: `out` and `err` were read,
  and `merged` was observed. */
  ghost predicate Feeding(s: State, pattern: Bytes, selected: set<Stream>, out: Bytes, err: Bytes, merged: Bytes) {
    && Reachable(s, pattern, selected)
    && s.copiers == Idle(selected) && s.waiter == AwaitingExit && s.poller == Checking
    && s.read == PerStream(out, err) && Merged(s.observed) == merged
  }

  lemma Start(pattern: Bytes, selected: set<Stream>) returns (s: State)
    ensures Feeding(s, pattern, selected, [], [], [])
  {
    s := State(Fresh(pattern), Idle(selected), AwaitingExit, None, false, Checking, [],
               PerStream([], []));
    var none: seq<Action> := [];
    assert IsRun([s], none, pattern, selected) && [s][|none|] == s;
  }

  /** What was read of a stream after `bytes` were fed to it or to the other one. */
  function Fed(before: Bytes, own: bool, bytes: Bytes): Bytes {
    if own then before + bytes else before
  }

  lemma FedMore(before: Bytes, own: bool, bytes: Bytes, b: Byte)
    ensures Fed(Fed(before, own, bytes), own, [b]) == Fed(before, own, bytes + [b])
  {
    assert before + bytes + [b] == before + (bytes + [b]);
  }

  /** A state in which `bytes` were fed to a stream, after `out`, `err` and `merged`. */
  ghost predicate FedTo(s: State, pattern: Bytes, selected: set<Stream>, out: Bytes, err: Bytes, merged: Bytes,
                        stream: Stream, bytes: Bytes) {
    Feeding(s, pattern, selected, Fed(out, stream.Stdout?, bytes), Fed(err, stream.Stderr?, bytes),
            Fed(merged, true, bytes))
  }

  lemma FeedByte(s: State, pattern: Bytes, selected: set<Stream>, out: Bytes, err: Bytes, merged: Bytes,
                 stream: Stream, b: Byte)
    returns (r: State)
    requires Feeding(s, pattern, selected, out, err, merged) && stream in selected
    ensures FedTo(r, pattern, selected, out, err, merged, stream, [b])
  {
    r := Extend(s, pattern, selected, ReadChunk(stream, [b], false));
    r := Extend(r, pattern, selected, ObserveChunk(stream));
    MergedAppend(s.observed, Log(stream, [b]));
  }

  lemma FeedOneMore(s: State, pattern: Bytes, selected: set<Stream>, out: Bytes, err: Bytes, merged: Bytes,
                    stream: Stream, bytes: Bytes, b: Byte)
    returns (r: State)
    requires FedTo(s, pattern, selected, out, err, merged, stream, bytes) && stream in selected
    ensures FedTo(r, pattern, selected, out, err, merged, stream, bytes + [b])
  {
    var o, e := Fed(out, stream.Stdout?, bytes), Fed(err, stream.Stderr?, bytes);
    r := FeedByte(s, pattern, selected, o, e, Fed(merged, true, bytes), stream, b);
    FedMore(out, stream.Stdout?, bytes, b);
    FedMore(err, stream.Stderr?, bytes, b);
    FedMore(merged, true, bytes, b);
  }

  lemma FeedNothing(s: State, pattern: Bytes, selected: set<Stream>, out: Bytes, err: Bytes, merged: Bytes,
                    stream: Stream)
    requires Feeding(s, pattern, selected, out, err, merged)
    ensures FedTo(s, pattern, selected, out, err, merged, stream, [])
  {
    assert out + [] == out && err + [] == err && merged + [] == merged;
  }

  /** Any bytes can be fed to either stream. */
  lemma {:induction false} Feed(s: State, pattern: Bytes, selected: set<Stream>, out: Bytes, err: Bytes,
                                merged: Bytes, stream: Stream, bytes: Bytes)
    returns (r: State)
    requires Feeding(s, pattern, selected, out, err, merged) && stream in selected
    ensures FedTo(r, pattern, selected, out, err, merged, stream, bytes)
    decreases |bytes|
  {
    if bytes == [] {
      r := s;
      FeedNothing(s, pattern, selected, out, err, merged, stream);
    } else {
      var n := |bytes| - 1;
      r := Feed(s, pattern, selected, out, err, merged, stream, bytes[..n]);
      r := FeedOneMore(r, pattern, selected, out, err, merged, stream, bytes[..n], bytes[n]);
      assert bytes == bytes[..n] + [bytes[n]];
    }
  }

  lemma SeenIfFound(s: State, pattern: Bytes, selected: set<Stream>, out: Bytes, err: Bytes, merged: Bytes)
    requires Feeding(s, pattern, selected, out, err, merged)
    ensures s.matcher.seen <==> Found(pattern, merged)
    ensures !s.done
  {
    var states, actions :| IsRun(states, actions, pattern, selected) && states[|actions|] == s;
    RunKeepsInv(states, actions, pattern, selected, |actions|);
  }

  lemma FoundInItself(pattern: Bytes)
    requires pattern != []
    ensures Found(pattern, pattern)
  {
    assert OccursAt(pattern, pattern, 0);
  }

  lemma NotInShorter(pattern: Bytes, text: Bytes)
    requires |text| < |pattern|
    ensures !Found(pattern, text)
  {}

  /** Watching both streams, readiness can be reported although neither contains the pattern: its first byte
  came from stdout and the rest from stderr. */
  lemma BothStreamsCanMix(pattern: Bytes) returns (s: State)
    requires |pattern| >= 2
    ensures Reachable(s, pattern, BOTH) && Mixed(s, pattern)
  {
    var head, rest := pattern[..1], pattern[1..];
    s := Start(pattern, BOTH);
    s := Feed(s, pattern, BOTH, [], [], [], Stdout, head);
    s := Feed(s, pattern, BOTH, [] + head, [], [] + head, Stderr, rest);
    assert [] + head + rest == pattern;
    FoundInItself(pattern);
    SeenIfFound(s, pattern, BOTH, [] + head, [] + rest, pattern);
    s := Extend(s, pattern, BOTH, Check);
    NotInShorter(pattern, s.read.out);
    NotInShorter(pattern, s.read.err);
  }

  /** A byte in the way: different from the first two of the pattern. */
  function Intruder(a: Byte, b: Byte): (x: Byte)
    ensures x != a && x != b
  {
    if a != 0 && b != 0 then 0 else if a != 1 && b != 1 then 1 else 2
  }

  lemma IntruderHides(pattern: Bytes, x: Byte)
    requires |pattern| >= 2 && x != pattern[0] && x != pattern[1]
    ensures !Found(pattern, pattern[..1] + [x] + pattern[1..])
  {
    var text := pattern[..1] + [x] + pattern[1..];
    forall i: nat | i <= |text| ensures !OccursAt(pattern, text, i) {
      if i == 0 {
        assert |text| > |pattern| && text[0..|pattern|][1] == x;
      } else if i == 1 {
        assert text[1] == x;
        assert 1 + |pattern| <= |text| && text[1..1 + |pattern|][0] == x;
      }
    }
  }

  /** With both copiers idle and nothing seen, the streams end, the process exits and the poller says so. */
  lemma ExitUnready(s: State, pattern: Bytes, out: Bytes, err: Bytes, merged: Bytes) returns (r: State)
    requires Feeding(s, pattern, BOTH, out, err, merged) && !Found(pattern, merged)
    ensures Reachable(r, pattern, BOTH) && r.poller.Returned? && r.poller.verdict.ExitedEarly?
    ensures r.read == PerStream(out, err)
  {
    SeenIfFound(s, pattern, BOTH, out, err, merged);
    r := Extend(s, pattern, BOTH, ReadChunk(Stdout, [], true));
    r := Extend(r, pattern, BOTH, ReadChunk(Stderr, [], true));
    assert out + [] == out && err + [] == err;
    r := Extend(r, pattern, BOTH, Exit(0));
    r := Extend(r, pattern, BOTH, StoreResult);
    r := Extend(r, pattern, BOTH, CloseDone);
    r := Extend(r, pattern, BOTH, Check);
    r := Extend(r, pattern, BOTH, Select);
    r := Extend(r, pattern, BOTH, Recheck);
  }

  /** Watching both streams, an early exit can be returned although stdout contains the pattern: one byte of
  stderr was observed after its first byte. */
  lemma BothStreamsCanMiss(pattern: Bytes) returns (s: State)
    requires |pattern| >= 2
    ensures Reachable(s, pattern, BOTH) && Missed(s, pattern)
  {
    var head, rest, x := pattern[..1], pattern[1..], Intruder(pattern[0], pattern[1]);
    s := Start(pattern, BOTH);
    s := Feed(s, pattern, BOTH, [], [], [], Stdout, head);
    s := Feed(s, pattern, BOTH, [] + head, [], [] + head, Stderr, [x]);
    s := Feed(s, pattern, BOTH, [] + head, [] + [x], [] + head + [x], Stdout, rest);
    assert [] + head + [x] + rest == head + [x] + rest;
    assert [] + head + rest == pattern;
    IntruderHides(pattern, x);
    FoundInItself(pattern);
    s := ExitUnready(s, pattern, pattern, [] + [x], head + [x] + rest);
  }

  // ---------------------------------------------------------------------
  // The exact condition.

  /** No run returns Ready without the pattern in a stream, exactly if the streams are separable. */
  lemma NeverMixesIff(pattern: Bytes, selected: set<Stream>)
    ensures (forall s :: Reachable(s, pattern, selected) ==> !Mixed(s, pattern)) <==> Separable(pattern, selected)
  {
    if Separable(pattern, selected) {
      forall s | Reachable(s, pattern, selected) ensures !Mixed(s, pattern) {
        SeparableIsExact(s, pattern, selected);
      }
    } else {
      var s := BothStreamsCanMix(pattern);
    }
  }

  /** No run returns an early exit with the pattern in a stream, exactly if the streams are separable. */
  lemma NeverMissesIff(pattern: Bytes, selected: set<Stream>)
    ensures (forall s :: Reachable(s, pattern, selected) ==> !Missed(s, pattern)) <==> Separable(pattern, selected)
  {
    if Separable(pattern, selected) {
      forall s | Reachable(s, pattern, selected) ensures !Missed(s, pattern) {
        SeparableIsExact(s, pattern, selected);
      }
    } else {
      var s := BothStreamsCanMiss(pattern);
    }
  }
}
