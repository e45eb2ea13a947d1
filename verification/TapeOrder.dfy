/** When the order in which declarations are listed can matter to the tape. */
module TapeOrder {
  import opened Orders
  import opened Sequences
  import opened Authoring
  import opened Tape
  import TapeLaws

  predicate AllNamed(ds: seq<Declaration>) {
    forall i :: 0 <= i < |ds| ==> ds[i].id != EMPTY
  }

  /** Equal sort keys occur only between declarations with the same normal form. */
  predicate KeysDecide(ds: seq<Declaration>) {
    var ns := NormalizeAll(ds);
    forall i, j :: 0 <= i < |ns| && 0 <= j < |ns| && SameKey(ns[i], ns[j]) ==> ns[i] == ns[j]
  }

  // ---------------------------------------------------------------------
  // Tied runs of permutations.

  lemma {:induction false} TiedCount<T>(s: seq<T>, a: T, less: (T, T) -> bool, y: T)
    ensures multiset(TiedWith(s, a, less))[y] == if Tied(less, y, a) then multiset(s)[y] else 0
  {
    if s != [] {
      TiedCount(s[1..], a, less, y);
      assert s == [s[0]] + s[1..];
    }
  }

  lemma TiedOfPermutation<T(!new)>(s: seq<T>, t: seq<T>, a: T, less: (T, T) -> bool)
    requires multiset(s) == multiset(t)
    requires forall x, y :: x in s && y in s && Tied(less, x, a) && Tied(less, y, a) ==> x == y
    ensures TiedWith(s, a, less) == TiedWith(t, a, less)
  {
    var u, v := TiedWith(s, a, less), TiedWith(t, a, less);
    forall y ensures multiset(u)[y] == multiset(v)[y] {
      TiedCount(s, a, less, y);
      TiedCount(t, a, less, y);
    }
    assert multiset(u) == multiset(v);
    assert |multiset(u)| == |u| && |multiset(v)| == |v|;
    forall k | 0 <= k < |u| ensures u[k] == v[k] {
      assert v[k] in multiset(u);
      TiedWithFrom(s, a, less, u[k]);
      TiedWithFrom(s, a, less, v[k]);
    }
  }

  // ---------------------------------------------------------------------
  // Normalising named declarations does not depend on their positions.

  function Normal(d: Declaration): Declaration {
    d.Normalize(0)
  }

  lemma NamedNormalForms(ds: seq<Declaration>)
    requires AllNamed(ds)
    ensures NormalizeAll(ds) == Mapped(ds, Normal)
  {
    forall i: nat | i < |ds| ensures ds[i].Normalize(i) == Normal(ds[i]) {
      NormalizeIdempotent(ds[i], i, 0);
    }
  }

  lemma NamedPermutation(ds: seq<Declaration>, es: seq<Declaration>)
    requires AllNamed(ds) && multiset(ds) == multiset(es)
    ensures AllNamed(es)
    ensures multiset(NormalizeAll(ds)) == multiset(NormalizeAll(es))
  {
    forall i | 0 <= i < |es| ensures es[i].id != EMPTY {
      assert es[i] in multiset(ds);
    }
    NamedNormalForms(ds);
    NamedNormalForms(es);
    MappedPermutation(ds, es, Normal);
  }

  // ---------------------------------------------------------------------
  // Order independence, exactly.

  /** If sort keys decide, every permutation gives the same tape. */
  lemma OrderIndependent(ds: seq<Declaration>, es: seq<Declaration>)
    requires AllNamed(ds) && KeysDecide(ds) && multiset(ds) == multiset(es)
    ensures TapeOf(ds) == TapeOf(es)
  {
    var ns, ms := NormalizeAll(ds), NormalizeAll(es);
    NamedPermutation(ds, es);
    PrecedesIsWeakOrder();
    StableSortCorrect(ns, Precedes);
    StableSortCorrect(ms, Precedes);
    forall a ensures TiedWith(TapeOf(ds), a, Precedes) == TiedWith(TapeOf(es), a, Precedes) {
      forall x, y | x in ns && y in ns && Tied(Precedes, x, a) && Tied(Precedes, y, a) ensures x == y {
        assert SameKey(x, a) && SameKey(y, a);
      }
      TiedOfPermutation(ns, ms, a, Precedes);
    }
    StableSortUnique(TapeOf(ds), TapeOf(es), Precedes);
  }

  function MoveToFront<T>(s: seq<T>, i: nat): (r: seq<T>)
    requires i < |s|
    ensures multiset(r) == multiset(s) && r != [] && r[0] == s[i]
  {
    assert s == s[..i] + [s[i]] + s[i + 1..];
    [s[i]] + s[..i] + s[i + 1..]
  }

  /** If two declarations with one sort key differ, listing one or the other first shows on the tape. */
  lemma OrderMatters(ds: seq<Declaration>, i: nat, j: nat)
    requires AllNamed(ds) && i < |ds| && j < |ds|
    requires var ns := NormalizeAll(ds); SameKey(ns[i], ns[j]) && ns[i] != ns[j]
    ensures TapeOf(MoveToFront(ds, i)) != TapeOf(MoveToFront(ds, j))
  {
    var p, q := MoveToFront(ds, i), MoveToFront(ds, j);
    var a := NormalizeAll(ds)[i];
    NamedPermutation(ds, p);
    NamedPermutation(ds, q);
    NormalizeIdempotent(ds[i], i, 0);
    NormalizeIdempotent(ds[j], j, 0);
    NormalizeIdempotent(ds[i], 0, 0);
    PrecedesIsWeakOrder();
    StableSortCorrect(NormalizeAll(p), Precedes);
    StableSortCorrect(NormalizeAll(q), Precedes);
    assert NormalizeAll(p)[0] == NormalizeAll(ds)[i];
    assert NormalizeAll(q)[0] == NormalizeAll(ds)[j];
    assert TiedWith(NormalizeAll(p), a, Precedes)[0] == NormalizeAll(ds)[i];
    assert TiedWith(NormalizeAll(q), a, Precedes)[0] == NormalizeAll(ds)[j];
  }

  /** For declarations that all have IDs: listing them in any order gives the identical
      resolution if and only if equal sort keys occur only between identical declarations. */
  lemma OrderIndependentIff(ds: seq<Declaration>)
    requires AllNamed(ds)
    ensures KeysDecide(ds) <==>
            forall es :: multiset(es) == multiset(ds) ==> Resolve(TapeOf(es)) == Resolve(TapeOf(ds))
  {
    if KeysDecide(ds) {
      forall es | multiset(es) == multiset(ds) ensures Resolve(TapeOf(es)) == Resolve(TapeOf(ds)) {
        OrderIndependent(ds, es);
      }
    } else {
      var ns := NormalizeAll(ds);
      var i, j :| 0 <= i < |ns| && 0 <= j < |ns| && SameKey(ns[i], ns[j]) && ns[i] != ns[j];
      OrderMatters(ds, i, j);
      var p, q := MoveToFront(ds, i), MoveToFront(ds, j);
      if Resolve(TapeOf(p)) == Resolve(TapeOf(q)) {
        SameEntriesSameTape(p, q);
        assert false;
      }
      assert Resolve(TapeOf(p)) != Resolve(TapeOf(ds)) || Resolve(TapeOf(q)) != Resolve(TapeOf(ds));
    }
  }

  /** The entries carry the whole tape. */
  lemma SameEntriesSameTape(ds: seq<Declaration>, es: seq<Declaration>)
    requires Resolve(TapeOf(ds)).entries == Resolve(TapeOf(es)).entries
    ensures TapeOf(ds) == TapeOf(es)
  {
    var t, u := TapeOf(ds), TapeOf(es);
    forall i | 0 <= i < |t| ensures t[i] == u[i] {
      TapeLaws.EntriesMeaning(ds, i);
      TapeLaws.EntriesMeaning(es, i);
    }
  }

  /** Pairwise distinct sort keys are enough. */
  lemma DistinctKeysDecide(ds: seq<Declaration>)
    requires forall i, j :: 0 <= i < j < |ds| ==> !SameKey(NormalizeAll(ds)[i], NormalizeAll(ds)[j])
    ensures KeysDecide(ds)
  {}
}
