/** What the tape promises: last writer wins, conflicts are complete, order does not matter. */
module TapeLaws {
  import opened Orders
  import opened Sequences
  import opened Authoring
  import opened LastWriter
  import opened Tape

  /** The positions nothing shadows, in tape order. */
  function Winning(t: seq<Declaration>): seq<nat> {
    OpenPositions(Slots(t), |t|, |t|)
  }

  /** The declarations nothing shadows, in tape order. */
  function Winners(t: seq<Declaration>): (r: seq<Declaration>)
    ensures |r| == |Winning(t)|
    ensures forall k :: 0 <= k < |r| ==> r[k] == t[Winning(t)[k]]
  {
    Picked(t, Winning(t))
  }

  function EffectiveForm(d: Declaration): EffectiveDependency {
    d.Effective()
  }

  function Project(ds: seq<Declaration>): seq<EffectiveDependency> {
    Mapped(ds, EffectiveForm)
  }

  // ---------------------------------------------------------------------
  // Last writer wins.

  /** An entry is effective exactly when no later entry writes its slot; otherwise it
      refers to the very next entry of that slot. */
  lemma EntriesMeaning(ds: seq<Declaration>, i: nat)
    requires i < |TapeOf(ds)|
    ensures var t, entries := TapeOf(ds), Resolve(TapeOf(ds)).entries;
            && |entries| == |t| && entries[i].declaration == t[i] && entries[i].position == i
            && (entries[i].effective <==> forall j :: i < j < |t| ==> t[j].Slot() != t[i].Slot())
            && (entries[i].effective <==> entries[i].shadowedBy.None?)
            && (!entries[i].effective ==>
                  var j := entries[i].shadowedBy.value.position;
                  && i < j < |t| && t[j].Slot() == t[i].Slot() && entries[i].shadowedBy.value.id == t[j].id
                  && forall k :: i < k < j ==> t[k].Slot() != t[i].Slot())
  {
    var t := TapeOf(ds);
    var slots := Slots(t);
    assert Resolve(t).entries[i] == EntryAt(t, i, |t|);
    NextMeaning(slots, i, |t|);
    forall k | 0 <= k < |t| ensures slots[k] == t[k].Slot() {}
  }

  lemma {:induction false} EffectivePrefix<K>(es: seq<TapeEntry>, keys: seq<K>, i: nat)
    requires i <= |es| == |keys|
    requires forall k :: 0 <= k < |es| ==> (es[k].effective <==> Next(keys, k, |keys|).None?)
    ensures var ps, r := OpenPositions(keys, i, |keys|), EffectiveOf(es[..i]);
            |r| == |ps| && forall k :: 0 <= k < |ps| ==> r[k] == es[ps[k]].declaration.Effective()
  {
    if i > 0 {
      EffectivePrefix(es, keys, i - 1);
      assert es[..i][..i - 1] == es[..i - 1];
      assert es[..i][i - 1] == es[i - 1];
    }
  }

  /** The effective list is the projection of the unshadowed declarations, in tape order. */
  lemma EffectiveIsWinners(t: seq<Declaration>)
    ensures Resolve(t).effective == Project(Winners(t))
  {
    var es, slots := EntriesAt(t, |t|), Slots(t);
    forall k | 0 <= k < |t|
      ensures es[k].declaration == t[k] && (es[k].effective <==> Next(slots, k, |slots|).None?)
    {
      assert es[k] == EntryAt(t, k, |t|);
    }
    EffectivePrefix(es, slots, |t|);
    assert es[..|t|] == es;
    assert Winning(t) == OpenPositions(slots, |t|, |slots|);
    var r, w := EffectiveOf(es), Project(Winners(t));
    assert |r| == |w|;
    forall k | 0 <= k < |w| ensures r[k] == w[k] {
      assert r[k] == es[Winning(t)[k]].declaration.Effective();
    }
  }

  /** Each slot on the tape has exactly one winner, and it is the slot's last declaration. */
  lemma OneWinnerPerSlot(t: seq<Declaration>, p: nat)
    requires p < |t|
    ensures exists k :: 0 <= k < |Winners(t)| && Winners(t)[k].Slot() == t[p].Slot() && p <= Winning(t)[k]
    ensures forall k, l :: 0 <= k < l < |Winners(t)| ==> Winners(t)[k].Slot() != Winners(t)[l].Slot()
  {
    var slots := Slots(t);
    var w := OpenOfKey(slots, p, |t|);
    OpenPositionsMeaning(slots, |t|, |t|);
    assert w in Winning(t);
    var k :| 0 <= k < |Winning(t)| && Winning(t)[k] == w;
    assert Winners(t)[k].Slot() == slots[w] == t[p].Slot();
    WinnersDistinct(t);
  }

  lemma WinnersDistinct(t: seq<Declaration>)
    ensures forall k, l :: 0 <= k < l < |Winners(t)| ==> Winners(t)[k].Slot() != Winners(t)[l].Slot()
  {
    var slots, ps := Slots(t), Winning(t);
    OpenPositionsMeaning(slots, |t|, |t|);
    forall k, l | 0 <= k < l < |ps| ensures Winners(t)[k].Slot() != Winners(t)[l].Slot() {
      assert ps[k] in ps;
      NextMeaning(slots, ps[k], |t|);
      assert Next(slots, ps[k], |t|).None? && ps[k] < ps[l];
      assert slots[ps[k]] != slots[ps[l]];
    }
  }

  predicate Mild(c: Conflict) {
    !c.fatal
  }

  lemma RaisedCount(t: seq<Declaration>, p: nat)
    requires p < |t|
    ensures CountsOverwrite(Raised(t), Mild, Slots(t), p)
  {
    CountAppend(ShadowsAt(t, p), CollisionsAt(t, p), Mild);
  }

  /** Every shadowed declaration is explained once: non-fatal conflicts and effective
      dependencies add up to the declarations. */
  lemma ConflictsAndEffectiveAddUp(ds: seq<Declaration>)
    ensures var r := Resolve(TapeOf(ds)); Count(r.conflicts, Mild) + |r.effective| == |ds|
  {
    var t := TapeOf(ds);
    TapeContents(ds);
    EffectiveIsWinners(t);
    forall p: nat | p < |t| {
      RaisedCount(t, p);
    }
    CountConcat(Raised(t), Mild, Slots(t), |t|);
    OpenCount(Slots(t), |t|);
    OpenPositionsMeaning(Slots(t), |t|, |t|);
  }

  // ---------------------------------------------------------------------
  // The tape itself.

  /** The tape is an ordered permutation of the normalised declarations. */
  lemma TapeContents(ds: seq<Declaration>)
    ensures |TapeOf(ds)| == |ds|
    ensures multiset(TapeOf(ds)) == multiset(NormalizeAll(ds))
    ensures Ordered(TapeOf(ds), Precedes)
    ensures forall i :: 0 <= i < |TapeOf(ds)| ==> TapeOf(ds)[i].Normal()
  {
    PrecedesIsWeakOrder();
    var ns := NormalizeAll(ds);
    StableSortCorrect(ns, Precedes);
    forall i | 0 <= i < |TapeOf(ds)| ensures TapeOf(ds)[i].Normal() {
      assert TapeOf(ds)[i] in multiset(ns);
      var j :| 0 <= j < |ns| && ns[j] == TapeOf(ds)[i];
      NormalizeIdempotent(ds[j], j, j);
    }
  }

  /** A tape that is ordered and normal is its own tape. */
  lemma TapeOfTape(t: seq<Declaration>)
    requires Ordered(t, Precedes) && forall i :: 0 <= i < |t| ==> t[i].Normal()
    ensures TapeOf(t) == t
  {
    PrecedesIsWeakOrder();
    forall i | 0 <= i < |t| ensures t[i].Normalize(i) == t[i] {
      NormalizeIdempotent(t[i], i, i);
    }
    assert NormalizeAll(t) == t;
    SortOfOrdered(t, Precedes);
  }

  lemma WinnersKeepTapeOrder(ds: seq<Declaration>)
    ensures TapeOf(Winners(TapeOf(ds))) == Winners(TapeOf(ds))
  {
    var t := TapeOf(ds);
    var w := Winners(t);
    TapeContents(ds);
    OpenPositionsMeaning(Slots(t), |t|, |t|);
    OrderedSelection(t, w, Winning(t), Precedes);
    TapeOfTape(w);
  }

  /** Rebuilding from the effective declarations gives the same effective list, with
      every entry effective: resolving is a projection. */
  lemma RebuildIsIdempotent(ds: seq<Declaration>)
    ensures var r, again := Resolve(TapeOf(ds)), Resolve(TapeOf(Winners(TapeOf(ds))));
            && again.effective == r.effective
            && |again.entries| == |r.effective|
            && (forall i :: 0 <= i < |again.entries| ==> again.entries[i].effective)
            && Count(again.conflicts, Mild) == 0
  {
    var t := TapeOf(ds);
    var w := Winners(t);
    WinnersKeepTapeOrder(ds);
    EffectiveIsWinners(t);
    WinnersDistinct(t);
    forall i: nat | i < |w| ensures EntryAt(w, i, |w|).effective {
      EntriesMeaning(w, i);
    }
    AllWinning(w);
    EffectiveIsWinners(w);
    ConflictsAndEffectiveAddUp(w);
  }

  lemma AllWinning(w: seq<Declaration>)
    requires forall i: nat :: i < |w| ==> EntryAt(w, i, |w|).effective
    ensures Winners(w) == w
  {
    forall i: nat | i < |w| ensures Next(Slots(w), i, |w|).None? {
      assert EntryAt(w, i, |w|).effective;
    }
    AllOpen(Slots(w), |w|, |w|);
  }

  // ---------------------------------------------------------------------
  // Fatal conflicts.

  ghost predicate HasFatal(r: Resolution) {
    exists c :: c in r.conflicts && c.fatal
  }

  function IdentityOf(d: Declaration): PackageIdentity {
    d.identity
  }

  /** Two declarations clash when one effective key names two packages. */
  predicate Clash(a: Declaration, b: Declaration) {
    a.Effective().Identity() == b.Effective().Identity() && a.identity != b.identity
  }

  lemma ClashIsReported(t: seq<Declaration>, i: nat, j: nat)
    requires i < j < |t| && Clash(t[i], t[j])
    ensures HasFatal(Resolve(t))
  {
    var keys := EffectiveKeys(t);
    assert keys[i] == keys[j];
    var e, p := AdjacentDiffer(keys, Mapped(t, IdentityOf), i, j);
    var c := Conflict(KeyCollision, Ref(t, e), Ref(t, p), true);
    assert CollisionsAt(t, p) == [c];
    assert c in Raised(t)[p];
    ConcatMember(Raised(t), |t|, c);
  }

  lemma FatalIsCollision(t: seq<Declaration>, p: nat, c: Conflict) returns (e: nat)
    requires p < |t| && c in RaisedAt(t, p) && c.fatal
    ensures e < p && Clash(t[e], t[p])
  {
    assert c in CollisionsAt(t, p);
    LatestMeaning(EffectiveKeys(t), t[p].Effective().Identity(), p);
    e := Latest(EffectiveKeys(t), t[p].Effective().Identity(), p).value;
  }

  lemma FatalComesFromClash(t: seq<Declaration>) returns (i: nat, j: nat)
    requires HasFatal(Resolve(t))
    ensures i < j < |t| && Clash(t[i], t[j])
  {
    var c :| c in Concat(Raised(t), |t|) && c.fatal;
    ConcatMember(Raised(t), |t|, c);
    j :| 0 <= j < |t| && c in Raised(t)[j];
    i := FatalIsCollision(t, j, c);
  }

  /** The builder compares each entry only with the latest earlier one of its key, yet
      it reports a fatal conflict exactly when any two declarations clash. */
  lemma FatalIffSomeClash(ds: seq<Declaration>)
    ensures var t := TapeOf(ds);
            HasFatal(Resolve(t)) <==> exists i, j :: 0 <= i < j < |t| && Clash(t[i], t[j])
  {
    var t := TapeOf(ds);
    if i, j :| 0 <= i < j < |t| && Clash(t[i], t[j]) {
      ClashIsReported(t, i, j);
    }
    if HasFatal(Resolve(t)) {
      var i, j := FatalComesFromClash(t);
    }
  }

  /** Without a fatal conflict every effective dependency has its own effective identity. */
  lemma NoFatalMeansDistinct(ds: seq<Declaration>)
    requires !HasFatal(Resolve(TapeOf(ds)))
    ensures var es := Resolve(TapeOf(ds)).effective;
            forall k, l :: 0 <= k < l < |es| ==> es[k].Identity() != es[l].Identity()
  {
    var t := TapeOf(ds);
    var w := Winners(t);
    EffectiveIsWinners(t);
    WinnersDistinct(t);
    FatalIffSomeClash(ds);
    OpenPositionsMeaning(Slots(t), |t|, |t|);
    forall k, l | 0 <= k < l < |w| ensures w[k].Effective().Identity() != w[l].Effective().Identity() {
      assert !Clash(t[Winning(t)[k]], t[Winning(t)[l]]);
      assert w[k].Slot() != w[l].Slot();
    }
  }
}
