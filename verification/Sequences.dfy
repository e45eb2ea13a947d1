/** Sequence operations shared by the models. */
module Sequences {
  import opened Orders

  function Mapped<T, U>(s: seq<T>, f: T -> U): (r: seq<U>)
    ensures |r| == |s| && forall i :: 0 <= i < |s| ==> r[i] == f(s[i])
  {
    seq(|s|, i requires 0 <= i < |s| => f(s[i]))
  }

  lemma MappedAppend<T, U>(s: seq<T>, t: seq<T>, f: T -> U)
    ensures Mapped(s + t, f) == Mapped(s, f) + Mapped(t, f)
  {
    assert Mapped(s + t, f) == Mapped(s, f) + Mapped(t, f);
  }

  /** All but the element at `i`. */
  function Without<T>(s: seq<T>, i: nat): (r: seq<T>)
    requires i < |s|
    ensures |r| == |s| - 1
    ensures forall k :: 0 <= k < |r| ==> r[k] == s[if k < i then k else k + 1]
  {
    s[..i] + s[i + 1..]
  }

  lemma MappedWithout<T, U>(s: seq<T>, i: nat, f: T -> U)
    requires i < |s|
    ensures Mapped(Without(s, i), f) == Without(Mapped(s, f), i)
  {
    assert Mapped(Without(s, i), f) == Without(Mapped(s, f), i);
  }

  /** The elements at the given indexes. */
  function Picked<T>(s: seq<T>, indexes: seq<nat>): (r: seq<T>)
    requires forall k :: 0 <= k < |indexes| ==> indexes[k] < |s|
    ensures |r| == |indexes| && forall k :: 0 <= k < |r| ==> r[k] == s[indexes[k]]
  {
    seq(|indexes|, k requires 0 <= k < |indexes| => s[indexes[k]])
  }

  /** Indexes into `Without(s, p)`, renamed to indexes into `s`. */
  function Shifted(ps: seq<nat>, p: nat): (r: seq<nat>)
    ensures |r| == |ps| && forall k :: 0 <= k < |ps| ==> r[k] == if ps[k] < p then ps[k] else ps[k] + 1
  {
    seq(|ps|, k requires 0 <= k < |ps| => if ps[k] < p then ps[k] else ps[k] + 1)
  }

  lemma ShiftedAppend(ps: seq<nat>, x: nat, p: nat)
    ensures Shifted(ps + [x], p) == Shifted(ps, p) + [if x < p then x else x + 1]
  {}

  lemma PickedShifted<T>(s: seq<T>, p: nat, indexes: seq<nat>)
    requires p < |s| && forall k :: 0 <= k < |indexes| ==> indexes[k] < |s| - 1
    ensures Picked(Without(s, p), indexes) == Picked(s, Shifted(indexes, p))
  {
    assert Picked(Without(s, p), indexes) == Picked(s, Shifted(indexes, p));
  }

  lemma TakeOut<T>(t: seq<T>, k: nat)
    requires k < |t|
    ensures multiset(t) == multiset(Without(t, k)) + multiset{t[k]}
  {
    assert t == t[..k] + [t[k]] + t[k + 1..];
  }

  /** Mapping a permutation gives a permutation. */
  lemma {:induction false} MappedPermutation<T, U>(s: seq<T>, t: seq<T>, f: T -> U)
    requires multiset(s) == multiset(t)
    ensures multiset(Mapped(s, f)) == multiset(Mapped(t, f))
    decreases |s|
  {
    if s == [] {
      assert |multiset(t)| == 0;
    } else {
      var last := |s| - 1;
      assert s[last] in multiset(t);
      var k :| 0 <= k < |t| && t[k] == s[last];
      TakeOut(s, last);
      TakeOut(t, k);
      assert multiset(Without(s, last)) == multiset(s) - multiset{s[last]} == multiset(Without(t, k));
      MappedPermutation(Without(s, last), Without(t, k), f);
      MappedWithout(s, last, f);
      MappedWithout(t, k, f);
      TakeOut(Mapped(s, f), last);
      TakeOut(Mapped(t, f), k);
    }
  }

  lemma TwoOccurrences<T>(t: seq<T>, lo: nat, hi: nat)
    requires lo < hi < |t| && t[lo] == t[hi]
    ensures multiset(t)[t[lo]] >= 2
  {
    assert t == t[..lo] + [t[lo]] + t[lo + 1..hi] + [t[hi]] + t[hi + 1..];
  }

  lemma SameMembers<T>(s: seq<T>, t: seq<T>)
    requires multiset(s) == multiset(t)
    ensures forall x :: x in s <==> x in t
  {
    assert forall x :: x in s <==> x in multiset(s);
    assert forall x :: x in t <==> x in multiset(t);
  }

  predicate NoRepeats<T(==)>(s: seq<T>) {
    forall i, j :: 0 <= i < j < |s| ==> s[i] != s[j]
  }

  lemma NoRepeatsNext<T>(s: seq<T>, x: T)
    requires NoRepeats(s) && x !in s
    ensures NoRepeats(s + [x]) && forall y :: y in s + [x] <==> y in s || y == x
  {}

  lemma OneOccurrence<T>(s: seq<T>, i: nat)
    requires i < |s| && forall k :: 0 <= k < |s| && k != i ==> s[k] != s[i]
    ensures multiset(s)[s[i]] == 1
  {
    assert s == s[..i] + [s[i]] + s[i + 1..];
  }

  /** The first `n` parts, one after the other. */
  function Concat<T>(parts: seq<seq<T>>, n: nat): seq<T>
    requires n <= |parts|
  {
    if n == 0 then [] else Concat(parts, n - 1) + parts[n - 1]
  }

  lemma {:induction false} ConcatMember<T>(parts: seq<seq<T>>, n: nat, x: T)
    requires n <= |parts|
    ensures x in Concat(parts, n) <==> exists p :: 0 <= p < n && x in parts[p]
  {
    if n > 0 {
      ConcatMember(parts, n - 1, x);
    }
  }

  lemma {:induction false} ConcatSame<T>(a: seq<seq<T>>, b: seq<seq<T>>, n: nat)
    requires n <= |a| && n <= |b| && forall i :: 0 <= i < n ==> a[i] == b[i]
    ensures Concat(a, n) == Concat(b, n)
  {
    if n > 0 {
      ConcatSame(a, b, n - 1);
    }
  }

  /** Parts that each increase, and whose members say where they come from, increase together. */
  lemma {:induction false} PartsIncrease<T(!new)>(parts: seq<seq<T>>, n: nat, place: T -> nat, less: (T, T) -> bool)
    requires n <= |parts| && forall p :: 0 <= p < n ==> Increasing(parts[p], less)
    requires forall p, x :: 0 <= p < n && x in parts[p] ==> place(x) == p
    requires forall x, y :: place(x) < place(y) ==> less(x, y)
    ensures Increasing(Concat(parts, n), less)
  {
    if n > 0 {
      var init := Concat(parts, n - 1);
      PartsIncrease(parts, n - 1, place, less);
      forall x, y | x in init && y in parts[n - 1] ensures less(x, y) {
        ConcatMember(parts, n - 1, x);
      }
      IncreasingConcat(init, parts[n - 1], less);
    }
  }

  lemma ConcatNext<T, U>(s: seq<T>, x: T, f: T -> seq<U>)
    ensures Concat(Mapped(s + [x], f), |s| + 1) == Concat(Mapped(s, f), |s|) + f(x)
  {
    ConcatSame(Mapped(s + [x], f), Mapped(s, f), |s|);
  }

  lemma Regroup<T>(a: seq<T>, b: seq<T>, c: seq<T>)
    ensures a + (b + c) == (a + b) + c
  {}

  /** No two elements have the same key. */
  ghost predicate KeysDistinct<T, K>(s: seq<T>, key: T -> K) {
    forall i, j :: 0 <= i < j < |s| ==> key(s[i]) != key(s[j])
  }

  lemma KeysDistinctInPermutation<T, K>(s: seq<T>, t: seq<T>, key: T -> K)
    requires multiset(s) == multiset(t) && KeysDistinct(s, key)
    ensures KeysDistinct(t, key)
  {
    forall i, j | 0 <= i < j < |t| ensures key(t[i]) != key(t[j]) {
      assert t[i] in multiset(s) && t[j] in multiset(s);
      var k :| 0 <= k < |s| && s[k] == t[i];
      var l :| 0 <= l < |s| && s[l] == t[j];
      if k == l {
        TwoOccurrences(t, i, j);
        OneOccurrence(s, k);
      }
    }
  }

  /** Keys are distinct in a concatenation if they are in each part and across parts. */
  lemma {:induction false} ConcatKeysDistinct<T, K>(parts: seq<seq<T>>, n: nat, key: T -> K)
    requires n <= |parts|
    requires forall p :: 0 <= p < n ==> KeysDistinct(parts[p], key)
    requires forall p, q, x, y :: 0 <= p < q < n && x in parts[p] && y in parts[q] ==> key(x) != key(y)
    ensures KeysDistinct(Concat(parts, n), key)
  {
    if n > 0 {
      ConcatKeysDistinct(parts, n - 1, key);
      var init, last := Concat(parts, n - 1), parts[n - 1];
      forall i, j | 0 <= i < |init| && 0 <= j < |last| ensures key(init[i]) != key(last[j]) {
        ConcatMember(parts, n - 1, init[i]);
        assert last[j] in last;
      }
    }
  }

  function Count<T>(s: seq<T>, f: T -> bool): nat {
    if s == [] then 0 else Count(s[..|s| - 1], f) + if f(s[|s| - 1]) then 1 else 0
  }

  lemma {:induction false} CountAppend<T>(a: seq<T>, b: seq<T>, f: T -> bool)
    ensures Count(a + b, f) == Count(a, f) + Count(b, f)
  {
    if b == [] {
      assert a + b == a;
    } else {
      CountAppend(a, b[..|b| - 1], f);
      assert (a + b)[..|a + b| - 1] == a + b[..|b| - 1];
    }
  }

  /** The positions whose elements satisfy `f`, in order. */
  function Positions<T>(s: seq<T>, f: T -> bool): (r: seq<nat>)
    ensures forall k :: 0 <= k < |r| ==> r[k] < |s| && f(s[r[k]])
    ensures forall i: nat :: i < |s| && f(s[i]) ==> i in r
    ensures forall k, l :: 0 <= k < l < |r| ==> r[k] < r[l]
  {
    if s == [] then []
    else
      var last := |s| - 1;
      Positions(s[..last], f) + if f(s[last]) then [last] else []
  }

  lemma PositionsNext<T>(s: seq<T>, f: T -> bool, last: nat)
    requires |s| == last + 1
    ensures Positions(s, f) == Positions(s[..last], f) + if f(s[last]) then [last] else []
  {}

  lemma {:induction false} OnePosition<T>(s: seq<T>, f: T -> bool, i: nat)
    requires i < |s| && f(s[i]) && forall k :: 0 <= k < |s| && k != i ==> !f(s[k])
    ensures Positions(s, f) == [i]
  {
    var last := |s| - 1;
    PositionsNext(s, f, last);
    if i == last {
      NoPosition(s[..last], f);
    } else {
      OnePosition(s[..last], f, i);
    }
  }

  lemma {:induction false} NoPosition<T>(s: seq<T>, f: T -> bool)
    requires forall k :: 0 <= k < |s| ==> !f(s[k])
    ensures Positions(s, f) == []
  {
    if s != [] {
      PositionsNext(s, f, |s| - 1);
      NoPosition(s[..|s| - 1], f);
    }
  }
}
