/** The streaming pattern matcher behind stdout-match readiness, and the copier that feeds it. */
module StreamMatcher {
  import opened Sequences

  type Byte = b: int | 0 <= b < 256

  type Bytes = seq<Byte>

  predicate OccursAt(p: Bytes, s: Bytes, i: nat) {
    i + |p| <= |s| && s[i..i + |p|] == p
  }

  /** `p` occurs somewhere in `s`; the empty pattern occurs everywhere, as in bytes.Contains. */
  predicate Occurs(p: Bytes, s: Bytes) {
    exists i: nat :: i <= |s| && OccursAt(p, s, i)
  }

  /** The part of the history that a future occurrence of `p` may still need. */
  function TailOf(p: Bytes, history: Bytes): Bytes {
    if |p| <= 1 then []
    else if |history| <= |p| - 1 then history
    else history[|history| - (|p| - 1)..]
  }

  /** The matcher as a value. */
  datatype Matcher = Matcher(pattern: Bytes, tail: Bytes, seen: bool) {

    function Observe(chunk: Bytes): Matcher {
      if chunk == [] || seen then this
      else if Occurs(pattern, tail + chunk) then this.(seen := true)
      else this.(tail := TailOf(pattern, tail + chunk))
    }

    function ObserveAll(chunks: seq<Bytes>): Matcher {
      if chunks == [] then this else ObserveAll(chunks[..|chunks| - 1]).Observe(chunks[|chunks| - 1])
    }
  }

  function Fresh(pattern: Bytes): Matcher {
    Matcher(pattern, [], false)
  }

  function Flatten(chunks: seq<Bytes>): Bytes {
    if chunks == [] then [] else Flatten(chunks[..|chunks| - 1]) + chunks[|chunks| - 1]
  }

  /** What the matcher knows after the bytes `history`: the verdict of a whole-text search,
      and, while that is negative, exactly the last |pattern| - 1 bytes. */
  predicate Tracks(m: Matcher, history: Bytes) {
    && (m.seen <==> history != [] && Occurs(m.pattern, history))
    && (!m.seen ==> m.tail == TailOf(m.pattern, history))
  }

  lemma OccursInContext(p: Bytes, before: Bytes, s: Bytes, after: Bytes)
    requires Occurs(p, s)
    ensures Occurs(p, before + s + after)
  {
    var i: nat :| i <= |s| && OccursAt(p, s, i);
    assert OccursAt(p, before + s + after, |before| + i);
  }

  /** If `p` is not in the history, it is in history + chunk exactly when it is in tail + chunk. */
  lemma TailSuffices(p: Bytes, history: Bytes, chunk: Bytes)
    requires history != [] ==> !Occurs(p, history)
    requires p != [] && chunk != []
    ensures Occurs(p, history + chunk) <==> Occurs(p, TailOf(p, history) + chunk)
  {
    var tail := TailOf(p, history);
    var cut := |history| - |tail|;
    assert history == history[..cut] + tail;
    assert history + chunk == history[..cut] + (tail + chunk) + [];
    if Occurs(p, tail + chunk) {
      OccursInContext(p, history[..cut], tail + chunk, []);
    }
    if Occurs(p, history + chunk) {
      var i: nat :| i <= |history + chunk| && OccursAt(p, history + chunk, i);
      if i < cut {
        assert OccursAt(p, history, i);
      } else {
        assert OccursAt(p, tail + chunk, i - cut);
      }
    }
  }

  lemma TailOfTail(p: Bytes, history: Bytes, chunk: Bytes)
    ensures TailOf(p, TailOf(p, history) + chunk) == TailOf(p, history + chunk)
  {}

  /** Observing a chunk keeps the matcher in step with the whole history. */
  lemma ObserveTracks(m: Matcher, history: Bytes, chunk: Bytes)
    requires Tracks(m, history)
    ensures Tracks(m.Observe(chunk), history + chunk)
  {
    if chunk == [] {
      assert history + chunk == history;
    } else if m.seen {
      OccursInContext(m.pattern, [], history, chunk);
      assert [] + history + chunk == history + chunk;
    } else if m.pattern == [] {
      assert OccursAt(m.pattern, history + chunk, 0) && OccursAt(m.pattern, m.tail + chunk, 0);
    } else {
      TailSuffices(m.pattern, history, chunk);
      TailOfTail(m.pattern, history, chunk);
    }
  }

  /** The streaming matcher refines whole-text search, for any sequence of chunks. */
  lemma {:induction false} StreamingIsSearch(pattern: Bytes, chunks: seq<Bytes>)
    ensures Fresh(pattern).ObserveAll(chunks).pattern == pattern
    ensures Tracks(Fresh(pattern).ObserveAll(chunks), Flatten(chunks))
  {
    if chunks != [] {
      var last := |chunks| - 1;
      StreamingIsSearch(pattern, chunks[..last]);
      ObserveTracks(Fresh(pattern).ObserveAll(chunks[..last]), Flatten(chunks[..last]), chunks[last]);
    }
  }

  lemma TailIsShort(p: Bytes, history: Bytes)
    ensures (p == [] ==> TailOf(p, history) == []) && (p != [] ==> |TailOf(p, history)| < |p|)
  {}

  lemma TailIsEnd(p: Bytes, history: Bytes)
    ensures var tail := TailOf(p, history);
            && |tail| <= |history| && tail == history[|history| - |tail|..]
            && (|tail| == |history| || |tail| + 1 >= |p|)
  {}

  /** However much is observed, the matcher keeps fewer bytes than the pattern has. */
  lemma {:induction false} MemoryIsBounded(pattern: Bytes, chunks: seq<Bytes>)
    ensures var m := Fresh(pattern).ObserveAll(chunks);
            m.pattern == pattern && (pattern == [] ==> m.tail == []) && (pattern != [] ==> |m.tail| < |pattern|)
  {
    if chunks != [] {
      var last := |chunks| - 1;
      MemoryIsBounded(pattern, chunks[..last]);
      TailIsShort(pattern, Fresh(pattern).ObserveAll(chunks[..last]).tail + chunks[last]);
    }
  }

  /** While the pattern has not been seen, these are the last bytes observed, and as many as may matter. */
  lemma TailIsRecent(pattern: Bytes, chunks: seq<Bytes>)
    ensures var m, history := Fresh(pattern).ObserveAll(chunks), Flatten(chunks);
            !m.seen ==> |m.tail| <= |history| && m.tail == history[|history| - |m.tail|..] &&
                        (|m.tail| == |history| || |m.tail| + 1 >= |pattern|)
  {
    StreamingIsSearch(pattern, chunks);
    TailIsEnd(pattern, Flatten(chunks));
  }

  /** How the bytes were cut into chunks does not matter. */
  lemma ChunkingDoesNotMatter(pattern: Bytes, a: seq<Bytes>, b: seq<Bytes>)
    requires Flatten(a) == Flatten(b)
    ensures var m, n := Fresh(pattern).ObserveAll(a), Fresh(pattern).ObserveAll(b);
            m.seen == n.seen && (!m.seen ==> m == n)
  {
    StreamingIsSearch(pattern, a);
    StreamingIsSearch(pattern, b);
  }

  // ---------------------------------------------------------------------
  // The matcher as the program keeps it: a tail buffer that is overwritten in place.

  class OutputMatcher {
    const pattern: Bytes
    var buffer: array<Byte>
    var length: nat
    var seen: bool
    ghost var history: Bytes
    ghost var Repr: set<object>

    ghost predicate Valid()
      reads this, Repr
      ensures Valid() ==> this in Repr && buffer in Repr
    {
      && this in Repr && buffer in Repr
      && length <= buffer.Length
      && Tracks(Matcher(pattern, buffer[..length], seen), history)
    }

    /** The matcher's abstract value. */
    ghost function Model(): Matcher
      requires Valid()
      reads this, Repr
    {
      Matcher(pattern, buffer[..length], seen)
    }

    constructor (pattern: Bytes)
      ensures Valid() && fresh(Repr)
      ensures this.pattern == pattern && history == [] && Model() == Fresh(pattern)
    {
      this.pattern := pattern;
      var empty := new Byte[0];
      buffer, length, seen := empty, 0, false;
      history := [];
      new;
      Repr := {this, buffer};
      assert buffer[..length] == [];
    }

    /** Keeps combined[from..], reusing the buffer when it is large enough. */
    method Keep(combined: array<Byte>, from: nat)
      requires this in Repr && buffer in Repr && combined !in Repr && from <= combined.Length
      modifies this`buffer, this`length, this`Repr, buffer
      ensures length <= buffer.Length && buffer[..length] == old(combined[from..])
      ensures this in Repr && buffer in Repr && combined !in Repr
      ensures fresh(Repr - old(Repr)) && old(Repr) <= Repr
    {
      var count := combined.Length - from;
      if count > buffer.Length {
        buffer := new Byte[count];
        Repr := Repr + {buffer};
      }
      for i := 0 to count
        invariant count <= buffer.Length && combined[..] == old(combined[..])
        invariant buffer[..i] == combined[from..from + i]
        modifies buffer
      {
        buffer[i] := combined[from + i];
      }
      length := count;
    }

    /** A fresh array holding the tail followed by the chunk. */
    method Combine(chunk: array<Byte>, n: nat) returns (combined: array<Byte>)
      requires length <= buffer.Length && n <= chunk.Length
      ensures fresh(combined) && combined[..] == buffer[..length] + chunk[..n]
    {
      combined := new Byte[length + n];
      for i := 0 to length
        invariant combined[..i] == buffer[..i]
      {
        combined[i] := buffer[i];
      }
      for i := 0 to n
        invariant combined[..length + i] == buffer[..length] + chunk[..i]
      {
        combined[length + i] := chunk[i];
      }
    }

    /** Keeps what a later occurrence may still need of `combined`. */
    method Retain(combined: array<Byte>)
      requires this in Repr && buffer in Repr && combined !in Repr
      modifies this`buffer, this`length, this`Repr, buffer
      ensures length <= buffer.Length && buffer[..length] == old(TailOf(pattern, combined[..]))
      ensures this in Repr && buffer in Repr
      ensures fresh(Repr - old(Repr)) && old(Repr) <= Repr
    {
      var keep := |pattern| - 1;
      if keep <= 0 {
        buffer := new Byte[0];
        length := 0;
        Repr := Repr + {buffer};
      } else if combined.Length <= keep {
        Keep(combined, 0);
      } else {
        Keep(combined, combined.Length - keep);
      }
    }

    /** Observes the first `n` bytes of the caller's buffer. The caller's buffer stays the
        caller's: it never becomes part of the matcher. */
    method Observe(chunk: array<Byte>, n: nat)
      requires Valid() && n <= chunk.Length && chunk !in Repr
      modifies Repr
      ensures Valid() && fresh(Repr - old(Repr)) && chunk !in Repr
      ensures Model() == old(Model().Observe(chunk[..n]))
      ensures history == old(history + chunk[..n])
    {
      ghost var before, bytes := Model(), chunk[..n];
      ObserveTracks(before, history, bytes);
      history := history + bytes;
      if n == 0 || seen {
        return;
      }
      var combined := Combine(chunk, n);
      assert combined[..] == before.tail + bytes;
      if Occurs(pattern, combined[..]) {
        seen := true;
        return;
      }
      Retain(combined);
    }

    method Matched() returns (matched: bool)
      requires Valid()
      ensures matched <==> history != [] && Occurs(pattern, history)
    {
      matched := seen;
    }
  }

  // ---------------------------------------------------------------------
  // One pipe copier, run on its own.

  /** One answer of a pipe: some bytes, and whether an error or end of file came with them. */
  datatype PipeRead = PipeRead(data: Bytes, last: bool)

  const BUFFER_SIZE := 4096

  /** The bytes a copier reads: it stops at the first read that carries an error. */
  function Delivered(script: seq<PipeRead>): Bytes {
    if script == [] then []
    else script[0].data + if script[0].last then [] else Delivered(script[1..])
  }

  /** The data of the first `n` reads. */
  function DataOf(script: seq<PipeRead>, n: nat): (chunks: seq<Bytes>)
    requires n <= |script|
    ensures |chunks| == n && forall i :: 0 <= i < n ==> chunks[i] == script[i].data
  {
    seq(n, i requires 0 <= i < n => script[i].data)
  }

  lemma {:induction false} FlattenHead(chunks: seq<Bytes>)
    requires chunks != []
    ensures Flatten(chunks) == chunks[0] + Flatten(chunks[1..])
  {
    var last := |chunks| - 1;
    if last == 0 {
      assert chunks[..0] == [] && chunks[1..] == [] && chunks[0] + [] == chunks[0];
    } else {
      FlattenHead(chunks[..last]);
      assert chunks[..last][1..] == chunks[1..][..last - 1];
      assert Flatten(chunks[1..]) == Flatten(chunks[1..][..last - 1]) + chunks[last];
    }
  }

  /** The data of the reads up to and including the first that carries an error. */
  lemma {:induction false} DeliveredMeaning(script: seq<PipeRead>, n: nat)
    requires n <= |script| && forall i :: 0 <= i < n - 1 ==> !script[i].last
    requires if n < |script| then n > 0 && script[n - 1].last else true
    ensures Delivered(script) == Flatten(DataOf(script, n))
  {
    if n > 0 {
      FlattenHead(DataOf(script, n));
      assert DataOf(script, n)[1..] == DataOf(script[1..], n - 1);
      if n > 1 || !script[0].last {
        DeliveredMeaning(script[1..], n - 1);
      }
    }
  }

  /** One read: the data overwrite the shared buffer, and the matcher observes them there. */
  method ForwardRead(buffer: array<Byte>, data: Bytes, matcher: OutputMatcher)
    requires |data| <= buffer.Length && matcher.Valid() && buffer !in matcher.Repr
    modifies buffer, matcher.Repr
    ensures matcher.Valid() && fresh(matcher.Repr - old(matcher.Repr)) && buffer !in matcher.Repr
    ensures matcher.history == old(matcher.history) + data && buffer[..|data|] == data
  {
    for i := 0 to |data|
      invariant buffer[..i] == data[..i]
      modifies buffer
    {
      buffer[i] := data[i];
    }
    assert matcher.Valid();
    if |data| > 0 {
      matcher.Observe(buffer, |data|);
    }
  }

  /** What a copier has written on after `index` reads, and the matcher has observed since `before`. */
  ghost predicate Copied(script: seq<PipeRead>, index: nat, closed: bool, written: Bytes, before: Bytes,
                         history: Bytes) {
    && index <= |script|
    && Delivered(script) == written + (if closed then [] else Delivered(script[index..]))
    && history == before + written
  }

  lemma CopyStep(script: seq<PipeRead>, index: nat, written: Bytes, before: Bytes, history: Bytes)
    requires index < |script| && Copied(script, index, false, written, before, history)
    ensures var read := script[index];
            Copied(script, index + 1, read.last, written + read.data, before, history + read.data)
  {
    var read := script[index];
    assert script[index..][0] == read && script[index..][1..] == script[index + 1..];
    Regroup(written, read.data, if read.last then [] else Delivered(script[index + 1..]));
    Regroup(before, written, read.data);
  }

  /** The copier reuses one buffer for every read; what it writes on and what the matcher
      has seen are nevertheless exactly the bytes delivered. */
  method CopyOutputPipe(script: seq<PipeRead>, matcher: OutputMatcher) returns (written: Bytes)
    requires matcher.Valid() && forall i :: 0 <= i < |script| ==> |script[i].data| <= BUFFER_SIZE
    modifies matcher.Repr
    ensures matcher.Valid() && fresh(matcher.Repr - old(matcher.Repr))
    ensures written == Delivered(script)
    ensures matcher.history == old(matcher.history) + written
  {
    var buffer := new Byte[BUFFER_SIZE];
    written := [];
    var index, closed := 0, false;
    ghost var before := matcher.history;
    assert script[0..] == script;
    while index < |script| && !closed
      invariant matcher.Valid() && fresh(matcher.Repr - old(matcher.Repr)) && buffer !in matcher.Repr
      invariant Copied(script, index, closed, written, before, matcher.history)
      decreases |script| - index
    {
      var read := script[index];
      CopyStep(script, index, written, before, matcher.history);
      ForwardRead(buffer, read.data, matcher);
      written := written + read.data;
      closed := read.last;
      index := index + 1;
    }
  }
}
