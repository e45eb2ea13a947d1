/** The dependency tape: ordering, shadowing, conflicts and the effective list. */
module Tape {
  import opened Orders
  import opened Sequences
  import opened Authoring
  import opened LastWriter

  datatype TapeRef = TapeRef(position: nat, id: Text)

  datatype TapeEntry = TapeEntry(declaration: Declaration, position: nat, effective: bool, shadowedBy: Option<TapeRef>)

  datatype Outcome = Duplicate | ConstraintOverride | KindOverride | OptionalOverride | KeyCollision

  datatype Conflict = Conflict(outcome: Outcome, earlier: TapeRef, later: TapeRef, fatal: bool)

  datatype Resolution = Resolution(entries: seq<TapeEntry>, effective: seq<EffectiveDependency>,
                                   conflicts: seq<Conflict>)

  // ---------------------------------------------------------------------
  // What a resolution means, stated on the sorted declarations.

  function TapeOf(ds: seq<Declaration>): seq<Declaration> {
    StableSort(NormalizeAll(ds), Precedes)
  }

  function SlotOf(d: Declaration): Text {
    d.Slot()
  }

  function KeyOf(d: Declaration): Text {
    d.Effective().Identity()
  }

  function Slots(t: seq<Declaration>): seq<Text> {
    Mapped(t, SlotOf)
  }

  function EffectiveKeys(t: seq<Declaration>): seq<Text> {
    Mapped(t, KeyOf)
  }

  function Ref(t: seq<Declaration>, p: nat): TapeRef
    requires p < |t|
  {
    TapeRef(p, t[p].id)
  }

  /** The entry at `i` as seen by the first `n` declarations. */
  function EntryAt(t: seq<Declaration>, i: nat, n: nat): TapeEntry
    requires i < n <= |t|
  {
    match Next(Slots(t), i, n)
    case None => TapeEntry(t[i], i, true, None)
    case Some(j) => NextMeaning(Slots(t), i, n); TapeEntry(t[i], i, false, Some(Ref(t, j)))
  }

  function EntriesAt(t: seq<Declaration>, n: nat): (r: seq<TapeEntry>)
    requires n <= |t|
    ensures |r| == n && forall i :: 0 <= i < n ==> r[i] == EntryAt(t, i, n)
  {
    seq(n, i requires 0 <= i < n => EntryAt(t, i, n))
  }

  function Classify(earlier: Declaration, later: Declaration): Outcome {
    if earlier.kind != later.kind then KindOverride
    else if earlier.optional != later.optional then OptionalOverride
    else if earlier.constraint != later.constraint then ConstraintOverride
    else Duplicate
  }

  function ShadowsAt(t: seq<Declaration>, p: nat): seq<Conflict>
    requires p < |t|
  {
    match Latest(Slots(t), t[p].Slot(), p)
    case None => []
    case Some(e) => LatestMeaning(Slots(t), t[p].Slot(),
                                  p); [Conflict(Classify(t[e], t[p]), Ref(t, e), Ref(t, p), false)]
  }

  function CollisionsAt(t: seq<Declaration>, p: nat): seq<Conflict>
    requires p < |t|
  {
    match Latest(EffectiveKeys(t), t[p].Effective().Identity(), p)
    case None => []
    case Some(e) =>
      LatestMeaning(EffectiveKeys(t), t[p].Effective().Identity(), p);
      if t[e].identity != t[p].identity then [Conflict(KeyCollision, Ref(t, e), Ref(t, p), true)] else []
  }

  function RaisedAt(t: seq<Declaration>, p: nat): seq<Conflict>
    requires p < |t|
  {
    ShadowsAt(t, p) + CollisionsAt(t, p)
  }

  /** What each declaration raises, in the order in which the declarations are recorded. */
  function Raised(t: seq<Declaration>): (r: seq<seq<Conflict>>)
    ensures |r| == |t| && forall p: nat :: p < |t| ==> r[p] == RaisedAt(t, p)
  {
    seq(|t|, p requires 0 <= p < |t| => RaisedAt(t, p))
  }

  function EffectiveOf(entries: seq<TapeEntry>): seq<EffectiveDependency> {
    if entries == [] then []
    else
      var last := entries[|entries| - 1];
      EffectiveOf(entries[..|entries| - 1]) + if last.effective then [last.declaration.Effective()] else []
  }

  function Resolve(t: seq<Declaration>): Resolution {
    Resolution(EntriesAt(t, |t|), EffectiveOf(EntriesAt(t, |t|)), Concat(Raised(t), |t|))
  }

  // ---------------------------------------------------------------------
  // The builder.

  /** Writing position `p` closes the entry it shadows, if any, and leaves the others alone. */
  lemma EntryAdvances(t: seq<Declaration>, i: nat, p: nat)
    requires i < p < |t|
    ensures EntryAt(t, i, p + 1) ==
            if Latest(Slots(t), t[p].Slot(), p) == Some(i) then TapeEntry(t[i], i, false, Some(Ref(t, p)))
            else EntryAt(t, i, p)
  {
    NextAdvances(Slots(t), i, p);
  }

  /** `m` knows exactly the keys seen before `n`, each with its latest position. */
  ghost predicate TracksLatest<K(!new)>(m: map<K, nat>, keys: seq<K>, n: nat)
    requires n <= |keys|
  {
    forall k :: Latest(keys, k, n) == Lookup(m, k)
  }

  function Lookup<K(==)>(m: map<K, nat>, k: K): Option<nat> {
    if k in m then Some(m[k]) else None
  }

  lemma TrackNext<K(!new)>(m: map<K, nat>, keys: seq<K>, n: nat)
    requires n < |keys| && TracksLatest(m, keys, n)
    ensures TracksLatest(m[keys[n] := n], keys, n + 1)
  {
    var next := m[keys[n] := n];
    forall k ensures Latest(keys, k, n + 1) == Lookup(next, k) {
      assert Latest(keys, k, n) == Lookup(m, k);
    }
  }

  ghost predicate Recorded(entries: array<TapeEntry>, t: seq<Declaration>, n: nat)
    requires n <= |t|
    reads entries
  {
    entries.Length == |t| && entries[..n] == EntriesAt(t, n)
  }

  /** The fatal-conflict test scans the conflict list. */
  method HasFatalConflicts(resolution: Resolution) returns (fatal: bool)
    ensures fatal <==> exists c :: c in resolution.conflicts && c.fatal
  {
    for index := 0 to |resolution.conflicts|
      invariant forall c :: c in resolution.conflicts[..index] ==> !c.fatal
    {
      if resolution.conflicts[index].fatal {
        return true;
      }
    }
    assert resolution.conflicts[..|resolution.conflicts|] == resolution.conflicts;
    return false;
  }

  method NormalizeDeclarations(declarations: seq<Declaration>) returns (ordered: seq<Declaration>)
    ensures ordered == NormalizeAll(declarations)
  {
    ordered := declarations;
    for index := 0 to |ordered|
      invariant |ordered| == |declarations|
      invariant forall i :: 0 <= i < index ==> ordered[i] == declarations[i].Normalize(i)
      invariant forall i :: index <= i < |declarations| ==> ordered[i] == declarations[i]
    {
      ordered := ordered[index := ordered[index].Normalize(index)];
    }
  }

  /** Opens the entry at `position` and rewrites the one it shadows in place. */
  method OpenEntry(entries: array<TapeEntry>, t: seq<Declaration>, position: nat, earlier: Option<nat>)
    returns (conflicts: seq<Conflict>)
    requires position < |t| && Recorded(entries, t, position)
    requires earlier == Latest(Slots(t), t[position].Slot(), position)
    modifies entries
    ensures Recorded(entries, t, position + 1)
    ensures conflicts == ShadowsAt(t, position)
  {
    LatestMeaning(Slots(t), t[position].Slot(), position);
    ghost var before := entries[..position];
    assert forall i: nat :: i < position ==> entries[i] == before[i];
    entries[position] := TapeEntry(t[position], position, true, None);
    conflicts := [];
    if earlier.Some? {
      var e := earlier.value;
      var later := TapeRef(position, t[position].id);
      entries[e] := entries[e].(effective := false, shadowedBy := Some(later));
      conflicts := [Conflict(Classify(entries[e].declaration, t[position]), TapeRef(e, entries[e].declaration.id),
                             later, false)];
    }
    forall i: nat | i < position
      ensures entries[i] == EntryAt(t, i, position + 1)
    {
      EntryAdvances(t, i, position);
    }
    assert entries[..position + 1] == EntriesAt(t, position + 1);
  }

  /** Compares the entry at `position` with the latest earlier one of its effective key. */
  method CompareKeys(entries: array<TapeEntry>, t: seq<Declaration>, position: nat, earlier: Option<nat>)
    returns (conflicts: seq<Conflict>)
    requires position < |t| && Recorded(entries, t, position + 1)
    requires earlier == Latest(EffectiveKeys(t), t[position].Effective().Identity(), position)
    ensures conflicts == CollisionsAt(t, position)
  {
    conflicts := [];
    LatestMeaning(EffectiveKeys(t), t[position].Effective().Identity(), position);
    assert earlier.Some? ==> entries[earlier.value] == entries[..position + 1][earlier.value];
    if earlier.Some? && entries[earlier.value].declaration.identity != t[position].identity {
      var e := earlier.value;
      conflicts := [Conflict(KeyCollision, TapeRef(e, entries[e].declaration.id), TapeRef(position, t[position].id),
                             true)];
    }
  }

  /** What the builder's loop has established after `n` declarations. */
  ghost predicate InPass(entries: array<TapeEntry>, t: seq<Declaration>, n: nat, conflicts: seq<Conflict>,
                         latestBySlot: map<Text, nat>, latestByKey: map<Text, nat>)
    requires n <= |t|
    reads entries
  {
    && Recorded(entries, t, n)
    && conflicts == Concat(Raised(t), n)
    && TracksLatest(latestBySlot, Slots(t), n)
    && TracksLatest(latestByKey, EffectiveKeys(t), n)
  }

  /** One round of the loop: record the declaration at `position`, and move both
      "latest" maps on to it. */
  method RecordEntry(entries: array<TapeEntry>, t: seq<Declaration>, position: nat, conflicts: seq<Conflict>,
                     latestBySlot: map<Text, nat>, latestByKey: map<Text, nat>)
    returns (raised: seq<Conflict>, nextBySlot: map<Text, nat>, nextByKey: map<Text, nat>)
    requires position < |t| && InPass(entries, t, position, conflicts, latestBySlot, latestByKey)
    modifies entries
    ensures InPass(entries, t, position + 1, conflicts + raised, nextBySlot, nextByKey)
  {
    var slot, key := t[position].Slot(), t[position].Effective().Identity();
    var shadows := OpenEntry(entries, t, position, Lookup(latestBySlot, slot));
    var collisions := CompareKeys(entries, t, position, Lookup(latestByKey, key));
    TrackNext(latestBySlot, Slots(t), position);
    TrackNext(latestByKey, EffectiveKeys(t), position);
    nextBySlot := latestBySlot[slot := position];
    nextByKey := latestByKey[key := position];
    raised := shadows + collisions;
  }

  method RecordEntries(ordered: seq<Declaration>) returns (entries: array<TapeEntry>, conflicts: seq<Conflict>)
    ensures fresh(entries) && Recorded(entries, ordered, |ordered|)
    ensures conflicts == Concat(Raised(ordered), |ordered|)
  {
    entries := new TapeEntry[|ordered|];
    conflicts := [];
    var latestBySlot: map<Text, nat> := map[];
    var latestByKey: map<Text, nat> := map[];
    for position := 0 to |ordered|
      invariant InPass(entries, ordered, position, conflicts, latestBySlot, latestByKey)
    {
      var raised;
      raised, latestBySlot, latestByKey :=
        RecordEntry(entries, ordered, position, conflicts, latestBySlot, latestByKey);
      conflicts := conflicts + raised;
    }
  }

  method CollectEffective(entries: seq<TapeEntry>) returns (effective: seq<EffectiveDependency>)
    ensures effective == EffectiveOf(entries)
  {
    effective := [];
    for position := 0 to |entries|
      invariant effective == EffectiveOf(entries[..position])
    {
      assert entries[..position + 1][..position] == entries[..position];
      if entries[position].effective {
        effective := effective + [entries[position].declaration.Effective()];
      }
    }
    assert entries[..|entries|] == entries;
  }

  method Build(declarations: seq<Declaration>) returns (resolution: Resolution)
    ensures resolution == Resolve(TapeOf(declarations))
  {
    var normalized := NormalizeDeclarations(declarations);
    var ordered := StableSort(normalized, Precedes);
    var entries, conflicts := RecordEntries(ordered);
    assert entries[..] == EntriesAt(ordered, |ordered|);
    var effective := CollectEffective(entries[..]);
    resolution := Resolution(entries[..], effective, conflicts);
  }
}
