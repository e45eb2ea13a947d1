/** What edits do to the effective dependencies, and that their explanations are exact. */
module EditLaws {
  import opened Orders
  import opened Sequences
  import opened Authoring
  import opened LastWriter
  import opened Tape
  import opened Edits
  import TapeLaws

  // ---------------------------------------------------------------------
  // The declaration in force for a slot.

  /** The position of the declaration in force for a slot: the last one that writes it. */
  function InForce(t: seq<Declaration>, slot: Text): (r: Option<nat>)
    ensures r.Some? ==> r.value < |t|
  {
    LatestMeaning(Slots(t), slot, |t|);
    Latest(Slots(t), slot, |t|)
  }

  lemma {:induction false} EffectiveBySlotPrefix(es: seq<TapeEntry>, keys: seq<Text>, i: nat, slot: Text)
    requires i <= |es| == |keys|
    requires forall k: nat :: k < |es| ==>
               && es[k].declaration.Slot() == keys[k]
               && (es[k].effective <==> Next(keys, k, |keys|).None?)
    ensures var m, e := EffectiveBySlot(es[..i]), Latest(keys, slot, |keys|);
            if slot in m then e.Some? && e.value < i && m[slot] == es[e.value] else e.None? || e.value >= i
  {
    if i > 0 {
      EffectiveBySlotPrefix(es, keys, i - 1, slot);
      assert es[..i][..i - 1] == es[..i - 1];
      OpenIsLatest(keys, i - 1, |keys|);
      LatestMeaning(keys, slot, |keys|);
    }
  }

  /** The map that edits compare holds, for each slot, the declaration in force. */
  lemma EffectiveBySlotIsInForce(t: seq<Declaration>, slot: Text)
    ensures var m, e := EffectiveBySlot(Resolve(t).entries), InForce(t, slot);
            && (slot in m <==> e.Some?)
            && (slot in m ==> m[slot].declaration == t[e.value] && t[e.value].Slot() == slot)
  {
    var es, keys := EntriesAt(t, |t|), Slots(t);
    forall k: nat | k < |es|
      ensures es[k].declaration.Slot() == keys[k] && (es[k].effective <==> Next(keys, k, |keys|).None?)
    {
      assert es[k] == EntryAt(t, k, |t|);
    }
    EffectiveBySlotPrefix(es, keys, |t|, slot);
    assert es[..|t|] == es;
    LatestMeaning(keys, slot, |t|);
  }

  function Held(m: map<Text, TapeEntry>, slot: Text): Option<Declaration> {
    if slot in m then Some(m[slot].declaration) else None
  }

  /** The declaration in force for a slot. */
  function Current(t: seq<Declaration>, slot: Text): Option<Declaration> {
    match InForce(t, slot)
    case None => None
    case Some(e) => Some(t[e])
  }

  lemma HeldIsCurrent(t: seq<Declaration>, slot: Text)
    ensures Held(EffectiveBySlot(Resolve(t).entries), slot) == Current(t, slot)
  {
    EffectiveBySlotIsInForce(t, slot);
  }

  /** A slot is explained by comparing the declarations in force before and after. */
  function Report(before: Option<Declaration>, after: Option<Declaration>, edit: Change): seq<Change> {
    if before.None? || after.None? || before.value.id == after.value.id then []
    else if edit.kind == Removed && edit.declaration.id == before.value.id
    then [Change(Unshadowed, after.value, before)]
    else [Change(Shadowed, before.value, after)]
  }

  lemma ExplainIsReport(before: map<Text, TapeEntry>, after: map<Text, TapeEntry>, edit: Change, slot: Text)
    requires slot in before
    ensures Explain(before, after, [edit], slot) == Report(Held(before, slot), Held(after, slot), edit)
  {
    var id := before[slot].declaration.id;
    assert [edit][0] == edit;
    assert Removes([edit], id) <==> edit.kind == Removed && edit.declaration.id == id;
  }

  // ---------------------------------------------------------------------
  // At most two slots have anything to explain.

  function ExplainIn(before: map<Text, TapeEntry>, after: map<Text, TapeEntry>, edits: seq<Change>, slots: seq<Text>,
                     slot: Text): seq<Change>
    requires forall s :: s in slots ==> s in before
  {
    if slot in slots then Explain(before, after, edits, slot) else []
  }

  lemma {:induction false} ExplainOne(before: map<Text, TapeEntry>, after: map<Text, TapeEntry>, edits: seq<Change>,
                                      slots: seq<Text>, slot: Text)
    requires forall s :: s in slots ==> s in before
    requires forall i, j :: 0 <= i < j < |slots| ==> slots[i] != slots[j]
    requires forall s :: s in slots && s != slot ==> Explain(before, after, edits, s) == []
    ensures ExplainAll(before, after, edits, slots) == ExplainIn(before, after, edits, slots, slot)
  {
    if slots != [] {
      ExplainOne(before, after, edits, slots[..|slots| - 1], slot);
    }
  }

  lemma {:induction false} ExplainTwo(before: map<Text, TapeEntry>, after: map<Text, TapeEntry>, edits: seq<Change>,
                                      slots: seq<Text>, a: Text, b: Text)
    requires forall s :: s in slots ==> s in before
    requires forall i, j :: 0 <= i < j < |slots| ==> slots[i] != slots[j]
    requires a != b && forall s :: s in slots && s != a && s != b ==> Explain(before, after, edits, s) == []
    ensures var x, y := ExplainIn(before, after, edits, slots, a), ExplainIn(before, after, edits, slots, b);
            ExplainAll(before, after, edits, slots) == x + y || ExplainAll(before, after, edits, slots) == y + x
  {
    if slots != [] {
      var rest, last := slots[..|slots| - 1], slots[|slots| - 1];
      LastSlot(before, after, edits, slots, a);
      LastSlot(before, after, edits, slots, b);
      if last == a {
        ExplainOne(before, after, edits, rest, b);
      } else if last == b {
        ExplainOne(before, after, edits, rest, a);
      } else {
        ExplainTwo(before, after, edits, rest, a, b);
      }
    }
  }

  lemma LastSlot(before: map<Text, TapeEntry>, after: map<Text, TapeEntry>, edits: seq<Change>, slots: seq<Text>,
                 slot: Text)
    requires slots != [] && forall s :: s in slots ==> s in before
    requires forall i, j :: 0 <= i < j < |slots| ==> slots[i] != slots[j]
    ensures var rest, last := slots[..|slots| - 1], slots[|slots| - 1];
            ExplainIn(before, after, edits, slots, slot) ==
            if slot == last then Explain(before, after, edits, slot) else ExplainIn(before, after, edits, rest, slot)
  {
    var rest, last := slots[..|slots| - 1], slots[|slots| - 1];
    assert slot in slots <==> slot in rest || slot == last;
  }

  /** An explanation by the slots of the first tape. */
  lemma ExplanationOf(result: EditResult, edit: Change, t: seq<Declaration>, u: seq<Declaration>)
    returns (slots: seq<Text>)
    requires result.before == Resolve(t) && result.after == Resolve(u) && Explained(result, [edit])
    ensures var before, after := EffectiveBySlot(result.before.entries), EffectiveBySlot(result.after.entries);
            && Enumerates(slots, before) && result.changes == [edit] + ExplainAll(before, after, [edit], slots)
            && forall s :: ExplainIn(before, after, [edit], slots, s) == Report(Current(t, s), Current(u, s), edit)
  {
    var before, after := EffectiveBySlot(result.before.entries), EffectiveBySlot(result.after.entries);
    slots :| Enumerates(slots, before) && result.changes == [edit] + ExplainAll(before, after, [edit], slots);
    forall s ensures ExplainIn(before, after, [edit], slots, s) == Report(Current(t, s), Current(u, s), edit) {
      if s in before {
        ExplainIsReport(before, after, edit, s);
      }
      HeldIsCurrent(t, s);
      HeldIsCurrent(u, s);
    }
  }

  /** If only one slot changes hands, then whatever order the map is walked in, the changes
      are the edit followed by that slot's report. */
  lemma ChangesAre(result: EditResult, edit: Change, t: seq<Declaration>, u: seq<Declaration>, slot: Text)
    requires result.before == Resolve(t) && result.after == Resolve(u) && Explained(result, [edit])
    requires forall s :: s != slot ==> Report(Current(t, s), Current(u, s), edit) == []
    ensures result.changes == [edit] + Report(Current(t, slot), Current(u, slot), edit)
  {
    var before, after := EffectiveBySlot(result.before.entries), EffectiveBySlot(result.after.entries);
    var slots := ExplanationOf(result, edit, t, u);
    forall s | s in slots && s != slot ensures Explain(before, after, [edit], s) == [] {
      assert ExplainIn(before, after, [edit], slots, s) == [];
    }
    ExplainOne(before, after, [edit], slots, slot);
  }

  /** If only two slots change hands, their reports follow in one order or the other. */
  lemma ChangesAreTwo(result: EditResult, edit: Change, t: seq<Declaration>, u: seq<Declaration>, a: Text, b: Text)
    requires result.before == Resolve(t) && result.after == Resolve(u) && Explained(result, [edit])
    requires a != b && forall s :: s != a && s != b ==> Report(Current(t, s), Current(u, s), edit) == []
    ensures var x, y := Report(Current(t, a), Current(u, a), edit), Report(Current(t, b), Current(u, b), edit);
            result.changes == [edit] + (x + y) || result.changes == [edit] + (y + x)
  {
    var before, after := EffectiveBySlot(result.before.entries), EffectiveBySlot(result.after.entries);
    var slots := ExplanationOf(result, edit, t, u);
    forall s | s in slots && s != a && s != b ensures Explain(before, after, [edit], s) == [] {
      assert ExplainIn(before, after, [edit], slots, s) == [];
    }
    ExplainTwo(before, after, [edit], slots, a, b);
  }

  // ---------------------------------------------------------------------
  // Adding.

  lemma {:induction false} TiedAppend<T>(s: seq<T>, x: T, a: T, less: (T, T) -> bool)
    ensures TiedWith(s + [x], a, less) == TiedWith(s, a, less) + if Tied(less, x, a) then [x] else []
  {
    if s == [] {
      assert ([x])[1..] == [];
    } else {
      TiedAppend(s[1..], x, a, less);
      assert (s + [x])[1..] == s[1..] + [x];
    }
  }

  /** Sorting with a new last element puts it last exactly when it precedes nothing. */
  lemma SortAppend<T(!new)>(s: seq<T>, x: T, less: (T, T) -> bool)
    requires WeakOrder(less) && forall i :: 0 <= i < |s| ==> !less(x, s[i])
    ensures StableSort(s + [x], less) == StableSort(s, less) + [x]
  {
    var t := StableSort(s, less);
    StableSortCorrect(s, less);
    StableSortCorrect(s + [x], less);
    forall i | 0 <= i < |t| ensures !less(x, t[i]) {
      assert t[i] in multiset(s);
    }
    forall a ensures TiedWith(StableSort(s + [x], less), a, less) == TiedWith(t + [x], a, less) {
      TiedAppend(s, x, a, less);
      TiedAppend(t, x, a, less);
    }
    StableSortUnique(StableSort(s + [x], less), t + [x], less);
  }

  lemma TapeAppend(ds: seq<Declaration>, d: Declaration)
    requires d.Normal()
    requires forall i :: 0 <= i < |ds| ==> !Precedes(d, NormalizeAll(ds)[i])
    ensures TapeOf(ds + [d]) == TapeOf(ds) + [d]
  {
    PrecedesIsWeakOrder();
    NormalizeIdempotent(d, |ds|, |ds|);
    assert NormalizeAll(ds + [d]) == NormalizeAll(ds) + [d];
    SortAppend(NormalizeAll(ds), d, Precedes);
  }

  lemma LatestAppend<K>(keys: seq<K>, k: K, key: K)
    ensures Latest(keys + [k], key, |keys| + 1) == if key == k then Some(|keys|) else Latest(keys, key, |keys|)
  {
    LatestMeaning(keys, key, |keys|);
    match Latest(keys, key, |keys|)
    case None => if key != k { LatestIsNone(keys + [k], key, |keys| + 1); }
    case Some(e) => if key != k { LatestIs(keys + [k], key, |keys| + 1, e); }
  }

  lemma InForceAppend(t: seq<Declaration>, d: Declaration, slot: Text)
    ensures InForce(t + [d], slot) == if slot == d.Slot() then Some(|t|) else InForce(t, slot)
  {
    MappedAppend(t, [d], SlotOf);
    assert Mapped([d], SlotOf) == [d.Slot()];
    LatestAppend(Slots(t), d.Slot(), slot);
  }

  /** An explicit declaration added to a list where no explicit one has a greater layer
      order, and where the next order does not wrap, precedes nothing in it. */
  lemma ExplicitAddPrecedesNothing(ds: seq<Declaration>, d: Declaration, i: nat)
    requires i < |ds|
    requires var a := Prepared(ds, d);
             && a.layer == LAYER_EXPLICIT
             && (ds[i].layer == LAYER_EXPLICIT ==>
                   ds[i].layerOrder <= a.layerOrder && (ds[i].layerOrder == a.layerOrder ==> ds[i].order < a.order))
    ensures !Precedes(Prepared(ds, d), NormalizeAll(ds)[i])
  {}

  ghost predicate RoomAtTheEnd(ds: seq<Declaration>, layerOrder: Int64) {
    forall i :: 0 <= i < |ds| && ds[i].layer == LAYER_EXPLICIT ==>
                  ds[i].layerOrder <= layerOrder && (ds[i].layerOrder == layerOrder ==> ds[i].order < MAX_INT64)
  }

  lemma WithoutRoomSomethingFollows(ds: seq<Declaration>, d: Declaration) returns (i: nat)
    requires d.layer == EMPTY || d.layer == LAYER_EXPLICIT
    requires !RoomAtTheEnd(ds, d.layerOrder)
    ensures i < |ds| && Precedes(Prepared(ds, d), NormalizeAll(ds)[i])
  {
    i :| 0 <= i < |ds| && ds[i].layer == LAYER_EXPLICIT &&
         !(ds[i].layerOrder <= d.layerOrder && (ds[i].layerOrder == d.layerOrder ==> ds[i].order < MAX_INT64));
    if ds[i].layerOrder == d.layerOrder {
      assert InLayer(ds[i], LAYER_EXPLICIT, d.layerOrder);
      assert HighestOrder(ds, LAYER_EXPLICIT, d.layerOrder) == MAX_INT64;
    }
  }

  /** Adding at the explicit layer puts the declaration at the end of the tape exactly if no explicit one has a
  greater layer order and the next order does not wrap. */
  lemma AddGoesLast(ds: seq<Declaration>, d: Declaration)
    requires d.layer == EMPTY || d.layer == LAYER_EXPLICIT
    ensures TapeOf(ds + [Prepared(ds, d)]) == TapeOf(ds) + [Prepared(ds, d)] <==> RoomAtTheEnd(ds, d.layerOrder)
    ensures RoomAtTheEnd(ds, d.layerOrder) ==>
              forall slot :: InForce(TapeOf(ds + [Prepared(ds, d)]), slot) ==
                             if slot == Prepared(ds, d).Slot() then Some(|ds|) else InForce(TapeOf(ds), slot)
  {
    var t, a := TapeOf(ds), Prepared(ds, d);
    if RoomAtTheEnd(ds, d.layerOrder) {
      assert a.order == HighestOrder(ds, LAYER_EXPLICIT, d.layerOrder) + 1;
      forall i: nat | i < |ds| ensures !Precedes(a, NormalizeAll(ds)[i]) {
        ExplicitAddPrecedesNothing(ds, d, i);
      }
      NormalizeIdempotent(a, |ds|, |ds|);
      TapeAppend(ds, a);
      TapeLaws.TapeContents(ds);
      forall slot ensures InForce(t + [a], slot) == if slot == a.Slot() then Some(|ds|) else InForce(t, slot) {
        InForceAppend(t, a, slot);
      }
    } else {
      var i := WithoutRoomSomethingFollows(ds, d);
      PrecedingIsNotLast(ds, a, i);
    }
  }

  lemma PrecedingIsNotLast(ds: seq<Declaration>, a: Declaration, i: nat)
    requires i < |ds| && Precedes(a, NormalizeAll(ds)[i])
    ensures TapeOf(ds + [a]) != TapeOf(ds) + [a]
  {
    var t := TapeOf(ds);
    TapeLaws.TapeContents(ds);
    TapeLaws.TapeContents(ds + [a]);
    assert NormalizeAll(ds)[i] in multiset(t);
    var k :| 0 <= k < |t| && t[k] == NormalizeAll(ds)[i];
    assert (t + [a])[k] == t[k] && (t + [a])[|t|] == a;
  }

  /** No declaration normalises to this ID. */
  predicate FreshId(ds: seq<Declaration>, id: Text) {
    forall i :: 0 <= i < |ds| ==> NormalizeAll(ds)[i].id != id
  }

  lemma TapeIds(ds: seq<Declaration>, i: nat) returns (j: nat)
    requires i < |TapeOf(ds)|
    ensures j < |ds| && TapeOf(ds)[i] == NormalizeAll(ds)[j]
  {
    TapeLaws.TapeContents(ds);
    assert TapeOf(ds)[i] in multiset(NormalizeAll(ds));
    j :| 0 <= j < |ds| && NormalizeAll(ds)[j] == TapeOf(ds)[i];
  }

  // ---------------------------------------------------------------------
  // Removing.

  lemma {:induction false} TiedWithout<T>(s: seq<T>, i: nat, a: T, less: (T, T) -> bool)
    requires i < |s|
    ensures !Tied(less, s[i], a) ==> TiedWith(Without(s, i), a, less) == TiedWith(s, a, less)
    ensures (forall k :: 0 <= k < |s| && k != i ==> !Tied(less, s[k], a)) ==> TiedWith(Without(s, i), a, less) == []
  {
    if i == 0 {
      assert Without(s, 0) == s[1..];
      if forall k :: 0 <= k < |s| && k != i ==> !Tied(less, s[k], a) {
        NoneTied(s[1..], a, less);
      }
    } else {
      assert Without(s, i)[0] == s[0] && Without(s, i)[1..] == Without(s[1..], i - 1);
      assert s[i] == s[1..][i - 1];
      TiedWithout(s[1..], i - 1, a, less);
      if forall k :: 0 <= k < |s| && k != i ==> !Tied(less, s[k], a) {
        assert forall k :: 0 <= k < |s[1..]| && k != i - 1 ==> !Tied(less, s[1..][k], a);
      }
    }
  }

  lemma {:induction false} NoneTied<T>(s: seq<T>, a: T, less: (T, T) -> bool)
    requires forall k :: 0 <= k < |s| ==> !Tied(less, s[k], a)
    ensures TiedWith(s, a, less) == []
  {
    if s != [] {
      NoneTied(s[1..], a, less);
    }
  }

  /** Removing an element that no other is tied with commutes with sorting. */
  lemma SortWithout<T(!new)>(s: seq<T>, i: nat, p: nat, less: (T, T) -> bool)
    requires WeakOrder(less) && i < |s| && p < |s|
    requires var t := StableSort(s, less); |t| == |s| && t[p] == s[i]
    requires forall k :: 0 <= k < |s| && k != i ==> !Tied(less, s[k], s[i])
    requires var t := StableSort(s, less); forall k :: 0 <= k < |t| && k != p ==> !Tied(less, t[k], t[p])
    ensures StableSort(Without(s, i), less) == Without(StableSort(s, less), p)
  {
    var t := StableSort(s, less);
    StableSortCorrect(s, less);
    StableSortCorrect(Without(s, i), less);
    forall a ensures TiedWith(Without(s, i), a, less) == TiedWith(Without(t, p), a, less) {
      TiedWithout(s, i, a, less);
      TiedWithout(t, p, a, less);
    }
    StableSortUnique(StableSort(Without(s, i), less), Without(t, p), less);
  }

  /** The index holds the only declaration with its ID. */
  predicate SoleId(ns: seq<Declaration>, i: nat)
    requires i < |ns|
  {
    forall k :: 0 <= k < |ns| && k != i ==> ns[k].id != ns[i].id
  }

  lemma SoleInPermutation<T>(s: seq<T>, t: seq<T>, x: T, p: nat, q: nat)
    requires multiset(s) == multiset(t) && multiset(s)[x] == 1
    requires p < |t| && q < |t| && t[p] == x && t[q] == x
    ensures p == q
  {
    if p < q {
      TwoOccurrences(t, p, q);
    } else if q < p {
      TwoOccurrences(t, q, p);
    }
  }

  lemma NormalizedTwice(ds: seq<Declaration>)
    ensures NormalizeAll(NormalizeAll(ds)) == NormalizeAll(ds)
    ensures TapeOf(NormalizeAll(ds)) == TapeOf(ds)
  {
    forall i: nat | i < |ds| ensures ds[i].Normalize(i).Normalize(i) == ds[i].Normalize(i) {
      NormalizeIdempotent(ds[i], i, i);
    }
  }

  /** Taking out a declaration with an ID of its own takes one entry off the tape. */
  lemma RemoveFromTape(ds: seq<Declaration>, i: nat) returns (p: nat)
    requires i < |ds| && SoleId(NormalizeAll(ds), i)
    ensures var ns, t := NormalizeAll(ds), TapeOf(ds);
            p < |t| && t[p] == ns[i] && TapeOf(Without(ns, i)) == Without(t, p)
    ensures forall k :: 0 <= k < |TapeOf(ds)| && k != p ==> TapeOf(ds)[k].id != TapeOf(ds)[p].id
  {
    var ns, t := NormalizeAll(ds), TapeOf(ds);
    PrecedesIsWeakOrder();
    TapeLaws.TapeContents(ds);
    assert ns[i] in multiset(t);
    p :| 0 <= p < |t| && t[p] == ns[i];
    OneOccurrence(ns, i);
    forall k | 0 <= k < |t| && k != p ensures t[k].id != t[p].id {
      var j := TapeIds(ds, k);
      if j == i {
        SoleInPermutation(ns, t, ns[i], p, k);
      }
    }
    SortWithout(ns, i, p, Precedes);
    forall k: nat | k < |ns| - 1 ensures Without(ns, i)[k].Normalize(k) == Without(ns, i)[k] {
      var j := if k < i then k else k + 1;
      NormalizeIdempotent(ds[j], j, k);
    }
    assert NormalizeAll(Without(ns, i)) == Without(ns, i);
  }

  /** Where the declaration in force for a key moves when position `p` goes. */
  lemma LatestWithout<K>(keys: seq<K>, p: nat, key: K)
    requires p < |keys|
    ensures var n := |keys|;
            var e := Latest(keys, key, n);
            Latest(Without(keys, p), key, n - 1) ==
            if e.None? || e.value < p then e
            else if e.value == p then Latest(keys, key, p)
            else Some(e.value - 1)
  {
    var n, less := |keys|, Without(keys, p);
    LatestMeaning(keys, key, n);
    match Latest(keys, key, n)
    case None => LatestIsNone(less, key, n - 1);
    case Some(e) =>
      if e < p {
        LatestIs(less, key, n - 1, e);
      } else if e > p {
        LatestIs(less, key, n - 1, e - 1);
      } else {
        LatestMeaning(keys, key, p);
        match Latest(keys, key, p)
        case None => LatestIsNone(less, key, n - 1);
        case Some(f) => LatestIs(less, key, n - 1, f);
      }
  }

  /** A position on a tape from which position `p` has been taken. */
  function Moved(e: Option<nat>, p: nat): Option<nat> {
    if e.None? || e.value <= p then e else Some(e.value - 1)
  }

  lemma LatestMoves<K>(keys: seq<K>, p: nat, key: K)
    requires p < |keys|
    ensures var e := Latest(keys, key, |keys|);
            Latest(Without(keys, p), key, |keys| - 1) == if e == Some(p) then Latest(keys, key, p) else Moved(e, p)
  {
    LatestWithout(keys, p, key);
  }

  lemma InForceWithout(t: seq<Declaration>, p: nat, slot: Text)
    requires p < |t|
    ensures InForce(Without(t, p), slot) ==
            if InForce(t, slot) == Some(p) then Latest(Slots(t), slot, p) else Moved(InForce(t, slot), p)
  {
    MappedWithout(t, p, SlotOf);
    LatestMoves(Slots(t), p, slot);
  }

  /** The position of the declaration that the one at `p` shadows. */
  function Predecessor(t: seq<Declaration>, p: nat): (r: Option<nat>)
    requires p < |t|
    ensures r.Some? ==> r.value < p
  {
    LatestMeaning(Slots(t), t[p].Slot(), p);
    Latest(Slots(t), t[p].Slot(), p)
  }

  ghost predicate RemovedOne(ds: seq<Declaration>, i: nat, p: nat, result: EditResult)
    requires i < |ds|
  {
    var ns, t := NormalizeAll(ds), TapeOf(ds);
    && p < |t| && t[p] == ns[i]
    && result.before == Resolve(t) && result.after == Resolve(Without(t, p))
    && Explained(result, [Change(Removed, ns[i], None)])
  }

  /** Removal leaves every slot in which the removed declaration was not in force as it was.
      If it was in force, the declaration it shadowed comes back and is reported; otherwise
      nothing but the removal is. */
  lemma RemoveExplained(ds: seq<Declaration>, selector: Selector, i: nat, outcome: EditOutcome) returns (p: nat)
    requires i < |ds| && Matching(NormalizeAll(ds), selector) == [i] && SoleId(NormalizeAll(ds), i)
    requires RemoveSpec(ds, selector, outcome)
    ensures outcome.Edited? && RemovedOne(ds, i, p, outcome.result)
    ensures var t := TapeOf(ds);
            && (forall slot :: InForce(t, slot) != Some(p) ==>
                InForce(Without(t, p), slot) == Moved(InForce(t, slot), p))
            && (InForce(t, t[p].Slot()) == Some(p) ==> InForce(Without(t, p), t[p].Slot()) == Predecessor(t, p))
    ensures outcome.result.changes == RemovalReport(TapeOf(ds), p)
  {
    var t := TapeOf(ds);
    NormalizedTwice(ds);
    p := RemoveFromTape(ds, i);
    forall slot ensures InForce(t, slot) != Some(p) ==> InForce(Without(t, p), slot) == Moved(InForce(t, slot), p) {
      InForceWithout(t, p, slot);
    }
    InForceWithout(t, p, t[p].Slot());
    RemovalChanges(t, p, outcome.result);
  }

  function RemovalReport(t: seq<Declaration>, p: nat): seq<Change>
    requires p < |t|
  {
    [Change(Removed, t[p], None)] +
    if InForce(t, t[p].Slot()) == Some(p) && Predecessor(t, p).Some?
    then [Change(Unshadowed, t[Predecessor(t, p).value], Some(t[p]))] else []
  }

  lemma CurrentWithout(t: seq<Declaration>, p: nat, slot: Text)
    requires p < |t|
    ensures InForce(t, slot) != Some(p) ==> Current(Without(t, p), slot) == Current(t, slot)
    ensures InForce(t, slot) == Some(p) ==> slot == t[p].Slot()
    ensures slot == t[p].Slot() && InForce(t, slot) == Some(p) ==>
              var previous := Predecessor(t, p);
              Current(Without(t, p), slot) == if previous.Some? then Some(t[previous.value]) else None
  {
    InForceWithout(t, p, slot);
    LatestMeaning(Slots(t), slot, |t|);
  }

  lemma RemovalChanges(t: seq<Declaration>, p: nat, result: EditResult)
    requires p < |t|
    requires result.before == Resolve(t) && result.after == Resolve(Without(t, p))
    requires Explained(result, [Change(Removed, t[p], None)])
    requires forall k :: 0 <= k < |t| && k != p ==> t[k].id != t[p].id
    ensures result.changes == RemovalReport(t, p)
  {
    var edit, own := Change(Removed, t[p], None), t[p].Slot();
    forall s | s != own ensures Report(Current(t, s), Current(Without(t, p), s), edit) == [] {
      CurrentWithout(t, p, s);
    }
    ChangesAre(result, edit, t, Without(t, p), own);
    OwnSlotReport(t, p);
  }

  lemma OwnSlotReport(t: seq<Declaration>, p: nat)
    requires p < |t| && forall k :: 0 <= k < |t| && k != p ==> t[k].id != t[p].id
    ensures var edit, own := Change(Removed, t[p], None), t[p].Slot();
            [edit] + Report(Current(t, own), Current(Without(t, p), own), edit) == RemovalReport(t, p)
  {
    CurrentWithout(t, p, t[p].Slot());
  }

  // ---------------------------------------------------------------------
  // Removing a shadowed declaration.

  lemma NextWithout<K>(keys: seq<K>, p: nat, j: nat)
    requires p < |keys| && Next(keys, p, |keys|).Some? && j < |keys| && j != p
    ensures var k := if j < p then j else j - 1;
            Next(Without(keys, p), k, |keys| - 1).None? <==> Next(keys, j, |keys|).None?
  {
    var k := if j < p then j else j - 1;
    OpenIsLatest(keys, p, |keys|);
    OpenIsLatest(keys, j, |keys|);
    OpenIsLatest(Without(keys, p), k, |keys| - 1);
    LatestWithout(keys, p, keys[j]);
    LatestMeaning(keys, keys[j], |keys|);
  }

  /** Position `k` of one sequence is open exactly when its counterpart of the other is. */
  ghost predicate OpenAlike<K, L>(less: seq<K>, keys: seq<L>, p: nat, k: nat)
    requires |keys| == |less| + 1 && k < |less|
  {
    Next(less, k, |less|).None? <==> Next(keys, if k < p then k else k + 1, |keys|).None?
  }

  /** Dropping a position that is not open renames the open positions and nothing else. */
  lemma {:induction false} OpenWithout<K, L>(less: seq<K>, keys: seq<L>, p: nat, i: nat)
    requires |keys| == |less| + 1 && p < |keys| && Next(keys, p, |keys|).Some? && i <= |less|
    requires forall k: nat :: k < |less| ==> OpenAlike(less, keys, p, k)
    ensures Shifted(OpenPositions(less, i, |less|), p) == OpenPositions(keys, if i <= p then i else i + 1, |keys|)
  {
    if i > 0 {
      OpenWithout(less, keys, p, i - 1);
      assert OpenAlike(less, keys, p, i - 1);
      ShiftedAppend(OpenPositions(less, i - 1, |less|), i - 1, p);
    }
  }

  lemma OpenAfterRemoval<K>(keys: seq<K>, p: nat)
    requires p < |keys| && Next(keys, p, |keys|).Some?
    ensures Shifted(OpenPositions(Without(keys, p), |keys| - 1, |keys| - 1), p) == OpenPositions(keys, |keys|, |keys|)
  {
    var less := Without(keys, p);
    forall k: nat | k < |less| ensures OpenAlike(less, keys, p, k) {
      NextWithout(keys, p, if k < p then k else k + 1);
    }
    NextMeaning(keys, p, |keys|);
    OpenWithout(less, keys, p, |less|);
  }

  lemma WinningWithout(t: seq<Declaration>, p: nat)
    requires p < |t| && InForce(t, t[p].Slot()) != Some(p)
    ensures Shifted(TapeLaws.Winning(Without(t, p)), p) == TapeLaws.Winning(t)
  {
    MappedWithout(t, p, SlotOf);
    OpenIsLatest(Slots(t), p, |t|);
    OpenAfterRemoval(Slots(t), p);
  }

  /** Removing a shadowed declaration leaves the effective list exactly as it was. */
  lemma RemoveShadowed(t: seq<Declaration>, p: nat)
    requires p < |t| && InForce(t, t[p].Slot()) != Some(p)
    ensures Resolve(Without(t, p)).effective == Resolve(t).effective
  {
    var u := Without(t, p);
    TapeLaws.EffectiveIsWinners(t);
    TapeLaws.EffectiveIsWinners(u);
    WinningWithout(t, p);
    PickedShifted(t, p, TapeLaws.Winning(u));
  }

  // ---------------------------------------------------------------------
  // Add, then remove.

  lemma SelectAdded(ds: seq<Declaration>, a: Declaration)
    requires a.Normal() && FreshId(ds, a.id)
    ensures var ns := NormalizeAll(ds + [a]);
            && Matching(ns, ById(a.id)) == [|ds|]
            && Without(ns, |ds|) == NormalizeAll(ds)
  {
    NormalizeIdempotent(a, |ds|, |ds|);
    var ns := NormalizeAll(ds + [a]);
    assert ns == NormalizeAll(ds) + [a];
    OnePosition(ns, ById(a.id).Matches, |ds|);
    assert Without(ns, |ds|) == NormalizeAll(ds);
  }

  /** Removing the added declaration by its ID restores the resolution from before the addition,
      wherever the addition landed on the tape. */
  lemma AddThenRemove(ds: seq<Declaration>, d: Declaration, added: EditResult, outcome: EditOutcome)
    requires var a := Prepared(ds, d);
             && FreshId(ds, a.id)
             && added.before == Resolve(TapeOf(ds)) && added.after == Resolve(TapeOf(ds + [a]))
             && RemoveSpec(ds + [a], ById(a.id), outcome)
    ensures outcome.Edited? && outcome.result.after == added.before && outcome.result.before == added.after
  {
    var a := Prepared(ds, d);
    NormalizeIdempotent(a, |ds|, |ds|);
    SelectAdded(ds, a);
    NormalizedTwice(ds);
    NormalizedTwice(ds + [a]);
  }

  // ---------------------------------------------------------------------
  // Adding and replacing, wherever the declaration lands.

  /** The declaration in force for a slot once `x` has joined the tape `w`: `x` takes its slot unless it precedes
  the declaration in force there. */
  function Placed(w: seq<Declaration>, x: Declaration, slot: Text): Option<Declaration> {
    var held := Current(w, slot);
    if slot == x.Slot() && (held.None? || !Precedes(x, held.value)) then Some(x) else held
  }

  lemma CurrentByPlacing(t: seq<Declaration>, p: nat, slot: Text)
    requires p < |t| && Ordered(t, Precedes) && forall k :: 0 <= k < |t| && k != p ==> t[k].id != t[p].id
    ensures Current(t, slot) == Placed(Without(t, p), t[p], slot)
  {
    CurrentWithout(t, p, slot);
    LatestMeaning(Slots(t), slot, |t|);
    if InForce(t, slot) == Some(p) {
      assert forall q :: 0 <= q < p ==> !Precedes(t[p], t[q]);
    } else if slot == t[p].Slot() {
      var e := InForce(t, slot).value;
      assert p < e && !Precedes(t[e], t[p]);
      PrecedesTotal(t[p], t[e]);
    }
  }

  /** The tapes with and without the declaration at one index. */
  lemma PlacedAt(ds: seq<Declaration>, i: nat, slot: Text)
    requires i < |ds| && SoleId(NormalizeAll(ds), i)
    ensures var ns := NormalizeAll(ds);
            Current(TapeOf(ds), slot) == Placed(TapeOf(Without(ns, i)), ns[i], slot)
  {
    var p := RemoveFromTape(ds, i);
    TapeLaws.TapeContents(ds);
    CurrentByPlacing(TapeOf(ds), p, slot);
  }

  /** Adding under a fresh ID, at any layer, takes the declaration's own slot unless the declaration precedes the
  one in force there, and changes no other slot. */
  lemma AddPlaces(ds: seq<Declaration>, d: Declaration, slot: Text)
    requires FreshId(ds, Prepared(ds, d).id)
    ensures var a := Prepared(ds, d); Current(TapeOf(ds + [a]), slot) == Placed(TapeOf(ds), a, slot)
  {
    var a := Prepared(ds, d);
    NormalizeIdempotent(a, |ds|, |ds|);
    SelectAdded(ds, a);
    NormalizedTwice(ds);
    assert NormalizeAll(ds + [a]) == NormalizeAll(ds) + [a];
    PlacedAt(ds + [a], |ds|, slot);
  }

  /** What an addition to the tape `t` reports: itself, and the declaration whose slot it takes. */
  function AdditionReport(t: seq<Declaration>, a: Declaration): seq<Change> {
    var held := Current(t, a.Slot());
    [Change(Added, a, None)] +
    if held.Some? && !Precedes(a, held.value) then [Change(Shadowed, held.value, Some(a))] else []
  }

  lemma CurrentHasOtherId(ds: seq<Declaration>, id: Text, slot: Text)
    requires FreshId(ds, id)
    ensures Current(TapeOf(ds), slot).Some? ==> Current(TapeOf(ds), slot).value.id != id
  {
    if InForce(TapeOf(ds), slot).Some? {
      var j := TapeIds(ds, InForce(TapeOf(ds), slot).value);
    }
  }

  lemma OwnAdditionReport(ds: seq<Declaration>, a: Declaration)
    requires FreshId(ds, a.id)
    ensures var t, edit := TapeOf(ds), Change(Added, a, None);
            [edit] + Report(Current(t, a.Slot()), Placed(t, a, a.Slot()), edit) == AdditionReport(t, a)
  {
    CurrentHasOtherId(ds, a.id, a.Slot());
  }

  /** Adding under a fresh ID, at any layer, reports exactly that. */
  lemma AddExplained(ds: seq<Declaration>, d: Declaration, result: EditResult)
    requires var a := Prepared(ds, d);
             && FreshId(ds, a.id)
             && result.before == Resolve(TapeOf(ds)) && result.after == Resolve(TapeOf(ds + [a]))
             && Explained(result, [Change(Added, a, None)])
    ensures result.changes == AdditionReport(TapeOf(ds), Prepared(ds, d))
  {
    var a := Prepared(ds, d);
    var t, u, edit := TapeOf(ds), TapeOf(ds + [a]), Change(Added, a, None);
    OwnAdditionReport(ds, a);
    forall s ensures Current(u, s) == Placed(t, a, s) {
      AddPlaces(ds, d, s);
    }
    PlacedChanges(result, edit, t, u, a);
  }

  /** If a declaration was placed on the tape, only its slot has anything to report. */
  lemma PlacedChanges(result: EditResult, edit: Change, t: seq<Declaration>, u: seq<Declaration>, x: Declaration)
    requires result.before == Resolve(t) && result.after == Resolve(u) && Explained(result, [edit])
    requires forall s :: Current(u, s) == Placed(t, x, s)
    ensures result.changes == [edit] + Report(Current(t, x.Slot()), Placed(t, x, x.Slot()), edit)
  {
    ChangesAre(result, edit, t, u, x.Slot());
  }

  lemma NormalizeReplaced(ds: seq<Declaration>, i: nat, d: Declaration)
    requires i < |ds|
    ensures NormalizeAll(ds[i := d])[i] == d.Normalize(i)
    ensures Without(NormalizeAll(ds[i := d]), i) == Without(NormalizeAll(ds), i)
  {
    assert NormalizeAll(ds[i := d]) == NormalizeAll(ds)[i := d.Normalize(i)];
  }

  /** Replacing one declaration by another where both IDs are unique: in every slot the new one is placed as the
  old one was, over the tape of the others. At most their two slots change hands, and are reported, in one order
  or the other, after the edit itself. */
  lemma ReplacementExplained(ds: seq<Declaration>, selector: Selector, replacement: Declaration, i: nat,
                             outcome: EditOutcome)
    requires i < |ds| && Matching(ds, selector) == [i] && ReplaceSpec(ds, selector, replacement, outcome)
    requires SoleId(NormalizeAll(ds), i) && SoleId(NormalizeAll(ds[i := Carried(replacement, ds[i])]), i)
    ensures outcome.Edited?
    ensures var carried := Carried(replacement, ds[i]);
            var others, x, y := TapeOf(Without(NormalizeAll(ds), i)), NormalizeAll(ds)[i], carried.Normalize(i);
            && (forall slot :: Current(TapeOf(ds), slot) == Placed(others, x, slot))
            && (forall slot :: Current(TapeOf(ds[i := carried]), slot) == Placed(others, y, slot))
            && ReplacementReport(outcome.result.changes, Change(Changed, carried, Some(ds[i])), others, x, y)
  {
    var carried := Carried(replacement, ds[i]);
    var others, x, y := TapeOf(Without(NormalizeAll(ds), i)), NormalizeAll(ds)[i], carried.Normalize(i);
    var edit := Change(Changed, carried, Some(ds[i]));
    var t, u := TapeOf(ds), TapeOf(ds[i := carried]);
    NormalizeReplaced(ds, i, carried);
    forall slot ensures Current(t, slot) == Placed(others, x, slot) && Current(u, slot) == Placed(others, y, slot) {
      PlacedAt(ds, i, slot);
      PlacedAt(ds[i := carried], i, slot);
    }
    if x.Slot() == y.Slot() {
      ChangesAre(outcome.result, edit, t, u, x.Slot());
    } else {
      ChangesAreTwo(outcome.result, edit, t, u, x.Slot(), y.Slot());
    }
  }

  /** The replacement itself, and the reports of the slots of the old and the new declaration. */
  predicate ReplacementReport(changes: seq<Change>, edit: Change, others: seq<Declaration>, x: Declaration,
                              y: Declaration)
  {
    var a := Report(Placed(others, x, x.Slot()), Placed(others, y, x.Slot()), edit);
    var b := Report(Placed(others, x, y.Slot()), Placed(others, y, y.Slot()), edit);
    if x.Slot() == y.Slot() then changes == [edit] + a
    else changes == [edit] + (a + b) || changes == [edit] + (b + a)
  }

  // ---------------------------------------------------------------------
  // Changing a constraint.

  function Firsts<T>(z: seq<(T, T)>): (r: seq<T>)
    ensures |r| == |z| && forall i :: 0 <= i < |z| ==> r[i] == z[i].0
  {
    if z == [] then [] else [z[0].0] + Firsts(z[1..])
  }

  function Seconds<T>(z: seq<(T, T)>): (r: seq<T>)
    ensures |r| == |z| && forall i :: 0 <= i < |z| ==> r[i] == z[i].1
  {
    if z == [] then [] else [z[0].1] + Seconds(z[1..])
  }

  /** Pairs whose two components every comparison treats alike. */
  ghost predicate Twins<T(!new)>(z: seq<(T, T)>, less: (T, T) -> bool) {
    forall i, b :: 0 <= i < |z| ==> less(z[i].0, b) == less(z[i].1, b) && less(b, z[i].0) == less(b, z[i].1)
  }

  function InsertPair<T(!new)>(x: (T, T), z: seq<(T, T)>, less: (T, T) -> bool): (r: seq<(T, T)>)
    ensures forall q :: q in r <==> q == x || q in z
  {
    if z == [] then [x]
    else if less(z[0].0, x.0) then [z[0]] + InsertPair(x, z[1..], less)
    else [x] + z
  }

  function SortPairs<T(!new)>(z: seq<(T, T)>, less: (T, T) -> bool): (r: seq<(T, T)>)
    ensures forall q :: q in r <==> q in z
  {
    if z == [] then [] else InsertPair(z[0], SortPairs(z[1..], less), less)
  }

  lemma {:induction false} InsertTwins<T(!new)>(x: (T, T), z: seq<(T, T)>, less: (T, T) -> bool)
    requires Twins([x] + z, less)
    ensures Firsts(InsertPair(x, z, less)) == Insert(x.0, Firsts(z), less)
    ensures Seconds(InsertPair(x, z, less)) == Insert(x.1, Seconds(z), less)
  {
    assert ([x] + z)[0] == x;
    if z != [] {
      assert ([x] + z)[1] == z[0];
      assert Firsts(z)[1..] == Firsts(z[1..]) && Seconds(z)[1..] == Seconds(z[1..]);
      if less(z[0].0, x.0) {
        forall i | 0 <= i < |[x] + z[1..]| ensures ([x] + z[1..])[i] in [x] + z {}
        TwinsSubset([x] + z, [x] + z[1..], less);
        InsertTwins(x, z[1..], less);
      }
    }
  }

  lemma TwinsSubset<T(!new)>(z: seq<(T, T)>, y: seq<(T, T)>, less: (T, T) -> bool)
    requires Twins(z, less) && forall i :: 0 <= i < |y| ==> y[i] in z
    ensures Twins(y, less)
  {
    forall i, b | 0 <= i < |y|
      ensures less(y[i].0, b) == less(y[i].1, b) && less(b, y[i].0) == less(b, y[i].1)
    {
      var k :| 0 <= k < |z| && z[k] == y[i];
    }
  }

  /** Sorting either component of twins is sorting the pairs. */
  lemma {:induction false} SortTwins<T(!new)>(z: seq<(T, T)>, less: (T, T) -> bool)
    requires Twins(z, less)
    ensures Firsts(SortPairs(z, less)) == StableSort(Firsts(z), less)
    ensures Seconds(SortPairs(z, less)) == StableSort(Seconds(z), less)
  {
    if z != [] {
      var rest := SortPairs(z[1..], less);
      TwinsSubset(z, z[1..], less);
      SortTwins(z[1..], less);
      forall k | 0 <= k < |rest| ensures rest[k] in z {
        assert rest[k] in z[1..];
      }
      TwinsSubset(z, [z[0]] + rest, less);
      InsertTwins(z[0], rest, less);
      assert Firsts(z)[1..] == Firsts(z[1..]) && Seconds(z)[1..] == Seconds(z[1..]);
    }
  }

  /** The same declaration but for its constraint. */
  predicate SameButConstraint(a: Declaration, b: Declaration, constraint: Text) {
    a == b || b == Constrained(a, constraint)
  }

  lemma ConstrainedIsTwin(a: Declaration, b: Declaration, constraint: Text, c: Declaration)
    requires SameButConstraint(a, b, constraint)
    ensures Precedes(a, c) == Precedes(b, c) && Precedes(c, a) == Precedes(c, b)
    ensures a.Slot() == b.Slot() && a.id == b.id
  {}

  lemma NormalizeConstrained(d: Declaration, i: nat, constraint: Text)
    ensures Constrained(d, constraint).Normalize(i) == Constrained(d.Normalize(i), constraint)
    ensures Constrained(d, constraint).Effective() ==
            d.Effective().(source := d.source.(range := constraint))
  {}

  function Zip<T>(s: seq<T>, t: seq<T>): (z: seq<(T, T)>)
    requires |s| == |t|
    ensures |z| == |s| && forall i :: 0 <= i < |s| ==> z[i] == (s[i], t[i])
    ensures Firsts(z) == s && Seconds(z) == t
  {
    var z := seq(|s|, i requires 0 <= i < |s| => (s[i], t[i]));
    assert Firsts(z) == s && Seconds(z) == t;
    z
  }

  lemma SameKeyIsTwin(a: Declaration, b: Declaration, c: Declaration)
    requires SameKey(a, b)
    ensures Precedes(a, c) == Precedes(b, c) && Precedes(c, a) == Precedes(c, b)
  {}

  /** Replacing one declaration by another with its sort key keeps every declaration at its place on the tape. */
  lemma SameKeyKeepsOrder(ds: seq<Declaration>, i: nat, d: Declaration)
    requires i < |ds| && SameKey(ds[i].Normalize(i), d.Normalize(i))
    ensures var t, u := TapeOf(ds), TapeOf(ds[i := d]);
            && |t| == |u|
            && forall p :: 0 <= p < |t| ==> t[p] == u[p] || (t[p] == ds[i].Normalize(i) && u[p] == d.Normalize(i))
  {
    var ns, ms := NormalizeAll(ds), NormalizeAll(ds[i := d]);
    var z := Zip(ns, ms);
    forall k, b | 0 <= k < |z|
      ensures Precedes(z[k].0, b) == Precedes(z[k].1, b) && Precedes(b, z[k].0) == Precedes(b, z[k].1)
    {
      if k == i {
        SameKeyIsTwin(ns[k], ms[k], b);
      }
    }
    SortTwins(z, Precedes);
    var s := SortPairs(z, Precedes);
    forall p | 0 <= p < |s| ensures s[p].0 == s[p].1 || (s[p].0 == ns[i] && s[p].1 == ms[i]) {
      assert s[p] in z;
    }
  }

  /** Changing one declaration's constraint keeps every declaration at its place on the tape. */
  lemma ConstraintKeepsOrder(ds: seq<Declaration>, i: nat, constraint: Text)
    requires i < |ds|
    ensures var t, u := TapeOf(ds), TapeOf(ds[i := Constrained(ds[i], constraint)]);
            |t| == |u| && forall p :: 0 <= p < |t| ==> SameButConstraint(t[p], u[p], constraint)
  {
    NormalizeConstrained(ds[i], i, constraint);
    SameKeyKeepsOrder(ds, i, Constrained(ds[i], constraint));
  }

  /** Which declarations are in force, and what shadows what, does not depend on constraints. */
  lemma ConstraintKeepsEntries(ds: seq<Declaration>, i: nat, constraint: Text, p: nat)
    requires i < |ds| && p < |TapeOf(ds)|
    ensures var es := ds[i := Constrained(ds[i], constraint)];
            var a, b := Resolve(TapeOf(ds)).entries, Resolve(TapeOf(es)).entries;
            && |a| == |b| == |TapeOf(ds)|
            && a[p].effective == b[p].effective && a[p].shadowedBy == b[p].shadowedBy
            && SameButConstraint(a[p].declaration, b[p].declaration, constraint)
  {
    var t, u := TapeOf(ds), TapeOf(ds[i := Constrained(ds[i], constraint)]);
    ConstraintKeepsOrder(ds, i, constraint);
    SameSlots(t, u, constraint);
    assert EntriesAt(t, |t|)[p] == EntryAt(t, p, |t|) && EntriesAt(u, |u|)[p] == EntryAt(u, p, |u|);
    NextMeaning(Slots(t), p, |t|);
  }

  lemma SameSlots(t: seq<Declaration>, u: seq<Declaration>, constraint: Text)
    requires |t| == |u| && forall p :: 0 <= p < |t| ==> SameButConstraint(t[p], u[p], constraint)
    ensures Slots(t) == Slots(u)
    ensures forall p :: 0 <= p < |t| ==> t[p].id == u[p].id
  {
    forall p | 0 <= p < |t| ensures t[p].Slot() == u[p].Slot() && t[p].id == u[p].id {
      ConstrainedIsTwin(t[p], u[p], constraint, t[p]);
    }
  }

  /** A constraint change reports itself and nothing else: no slot changes hands. */
  lemma ConstraintChangeExplained(ds: seq<Declaration>, selector: Selector, constraint: Text, i: nat,
                                  outcome: EditOutcome)
    requires i < |ds| && Matching(ds, selector) == [i]
    requires ReplaceSpec(ds, selector, Constrained(ds[i], constraint), outcome)
    ensures outcome.Edited?
    ensures outcome.result.after == Resolve(TapeOf(ds[i := Constrained(ds[i], constraint)]))
    ensures outcome.result.changes == [Change(Changed, Constrained(ds[i], constraint), Some(ds[i]))]
  {
    var carried := Constrained(ds[i], constraint);
    assert Carried(carried, ds[i]) == carried;
    var t, u := TapeOf(ds), TapeOf(ds[i := carried]);
    var edit := Change(Changed, carried, Some(ds[i]));
    ConstraintKeepsOrder(ds, i, constraint);
    SameSlots(t, u, constraint);
    forall s ensures Report(Current(t, s), Current(u, s), edit) == [] {
      assert InForce(t, s) == InForce(u, s);
    }
    ChangesAre(outcome.result, edit, t, u, EMPTY);
  }
}
