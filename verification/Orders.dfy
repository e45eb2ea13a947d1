/** Total order on strings and the stable sort the program relies on.

Go's `sort.SliceStable` is a library routine; here it is the insertion sort
`StableSort`, and `StableSortUnique` shows that any other stable sort gives the
same sequence, so nothing depends on that choice. */
module Orders {

  datatype Option<+T> = None | Some(value: T)

  /** Lexicographic comparison of strings, as Go's `<`. */
  predicate StringLess(a: string, b: string) {
    if b == "" then false
    else if a == "" then true
    else a[0] < b[0] || (a[0] == b[0] && StringLess(a[1..], b[1..]))
  }

  lemma {:induction false} StringLessTransitive(a: string, b: string, c: string)
    requires StringLess(a, b) && StringLess(b, c)
    ensures StringLess(a, c)
  {
    if a != "" && a[0] == b[0] == c[0] {
      StringLessTransitive(a[1..], b[1..], c[1..]);
    }
  }

  lemma {:induction false} StringLessTrichotomy(a: string, b: string)
    ensures StringLess(a, b) || StringLess(b, a) || a == b
    ensures !(StringLess(a, b) && StringLess(b, a))
    ensures StringLess(a, b) ==> a != b
  {
    if a != "" && b != "" && a[0] == b[0] {
      StringLessTrichotomy(a[1..], b[1..]);
      assert a == [a[0]] + a[1..] && b == [b[0]] + b[1..];
    }
  }

  /** The strings agree up to position `k`, where `a` ends or has the smaller character. */
  predicate LessAt(a: string, b: string, k: nat) {
    k <= |a| && k < |b| && a[..k] == b[..k] && (k == |a| || a[k] < b[k])
  }

  lemma LessAtNext(a: string, b: string, k: nat)
    requires a != "" && b != ""
    ensures LessAt(a, b, k + 1) <==> a[0] == b[0] && LessAt(a[1..], b[1..], k)
  {
    if k + 1 <= |a| && k + 1 < |b| {
      assert a[..k + 1] == [a[0]] + a[1..][..k] && b[..k + 1] == [b[0]] + b[1..][..k];
    }
  }

  lemma {:induction false} StringLessMeaning(a: string, b: string)
    ensures StringLess(a, b) <==> exists k: nat :: LessAt(a, b, k)
  {
    assert LessAt(a, b, 0) <==> b != "" && (a == "" || a[0] < b[0]);
    if a != "" && b != "" {
      StringLessMeaning(a[1..], b[1..]);
      forall k: nat ensures LessAt(a, b, k + 1) <==> a[0] == b[0] && LessAt(a[1..], b[1..], k) {
        LessAtNext(a, b, k);
      }
      if k: nat :| LessAt(a, b, k) && k > 0 {
        LessAtNext(a, b, k - 1);
      }
      if k: nat :| a[0] == b[0] && LessAt(a[1..], b[1..], k) {
        assert LessAt(a, b, k + 1);
      }
    }
  }

  /** Strict weak order: what a comparator must be for sorting to make sense. */
  ghost predicate WeakOrder<T(!new)>(less: (T, T) -> bool) {
    && (forall a :: !less(a, a))
    && (forall a, b, c :: less(a, b) && less(b, c) ==> less(a, c))
    && (forall a, b, c :: less(a, c) ==> less(a, b) || less(b, c))
  }

  predicate Tied<T>(less: (T, T) -> bool, a: T, b: T) {
    !less(a, b) && !less(b, a)
  }

  ghost predicate Ordered<T>(s: seq<T>, less: (T, T) -> bool) {
    forall i, j :: 0 <= i < j < |s| ==> !less(s[j], s[i])
  }

  /** The elements tied with `a`, in the order in which they stand in `s`. */
  function TiedWith<T>(s: seq<T>, a: T, less: (T, T) -> bool): seq<T> {
    if s == [] then []
    else (if Tied(less, s[0], a) then [s[0]] else []) + TiedWith(s[1..], a, less)
  }

  function Insert<T>(x: T, s: seq<T>, less: (T, T) -> bool): seq<T> {
    if s == [] then [x]
    else if less(s[0], x) then [s[0]] + Insert(x, s[1..], less)
    else [x] + s
  }

  function StableSort<T>(s: seq<T>, less: (T, T) -> bool): seq<T> {
    if s == [] then [] else Insert(s[0], StableSort(s[1..], less), less)
  }

  lemma {:induction false} InsertContents<T>(x: T, s: seq<T>, less: (T, T) -> bool)
    ensures multiset(Insert(x, s, less)) == multiset{x} + multiset(s)
    ensures |Insert(x, s, less)| == |s| + 1
  {
    if s != [] && less(s[0], x) {
      InsertContents(x, s[1..], less);
      assert s == [s[0]] + s[1..];
    }
  }

  lemma {:induction false} InsertOrdered<T(!new)>(x: T, s: seq<T>, less: (T, T) -> bool)
    requires WeakOrder(less) && Ordered(s, less)
    ensures Ordered(Insert(x, s, less), less)
  {
    if s != [] && less(s[0], x) {
      InsertOrdered(x, s[1..], less);
      var r := Insert(x, s[1..], less);
      InsertContents(x, s[1..], less);
      forall j | 0 <= j < |r| ensures !less(r[j], s[0]) {
        assert r[j] in multiset(r);
        if r[j] != x {
          var k :| 0 <= k < |s[1..]| && s[1..][k] == r[j];
          assert s[k + 1] == r[j];
        }
      }
    }
  }

  lemma {:induction false} InsertTied<T(!new)>(x: T, s: seq<T>, a: T, less: (T, T) -> bool)
    requires WeakOrder(less)
    ensures TiedWith(Insert(x, s, less), a, less) == TiedWith([x] + s, a, less)
  {
    assert ([x] + s)[1..] == s;
    if s != [] && less(s[0], x) {
      InsertTied(x, s[1..], a, less);
      assert ([x] + s[1..])[1..] == s[1..];
      assert Insert(x, s, less)[1..] == Insert(x, s[1..], less);
      assert !(Tied(less, x, a) && Tied(less, s[0], a));
    }
  }

  /** The sort is a permutation, is ordered, and keeps tied elements in place. */
  lemma {:induction false} StableSortCorrect<T(!new)>(s: seq<T>, less: (T, T) -> bool)
    requires WeakOrder(less)
    ensures multiset(StableSort(s, less)) == multiset(s) && |StableSort(s, less)| == |s|
    ensures Ordered(StableSort(s, less), less)
    ensures forall a :: TiedWith(StableSort(s, less), a, less) == TiedWith(s, a, less)
  {
    if s != [] {
      var t := StableSort(s[1..], less);
      StableSortCorrect(s[1..], less);
      assert s == [s[0]] + s[1..];
      InsertContents(s[0], t, less);
      InsertOrdered(s[0], t, less);
      forall a ensures TiedWith(StableSort(s, less), a, less) == TiedWith(s, a, less) {
        InsertTied(s[0], t, a, less);
        assert ([s[0]] + t)[1..] == t;
      }
    }
  }

  lemma {:induction false} TiedWithMember<T>(s: seq<T>, a: T, less: (T, T) -> bool, i: nat)
    requires i < |s| && Tied(less, s[i], a)
    ensures s[i] in TiedWith(s, a, less)
  {
    if i > 0 {
      TiedWithMember(s[1..], a, less, i - 1);
    }
  }

  lemma {:induction false} TiedWithFrom<T>(s: seq<T>, a: T, less: (T, T) -> bool, x: T)
    requires x in TiedWith(s, a, less)
    ensures x in s && Tied(less, x, a)
  {
    if !(Tied(less, s[0], a) && x == s[0]) {
      TiedWithFrom(s[1..], a, less, x);
    }
  }

  /** Elements at two positions, one before the other. */
  ghost predicate Follow<T>(s: seq<T>, x: T, y: T) {
    exists i, j :: 0 <= i < j < |s| && s[i] == x && s[j] == y
  }

  lemma {:induction false} TiedFollow<T>(s: seq<T>, a: T, less: (T, T) -> bool, i: nat, j: nat)
    requires i < j < |s| && Tied(less, s[i], a) && Tied(less, s[j], a)
    ensures Follow(TiedWith(s, a, less), s[i], s[j])
  {
    var rest := TiedWith(s[1..], a, less);
    if i == 0 {
      TiedWithMember(s[1..], a, less, j - 1);
      var k :| 0 <= k < |rest| && rest[k] == s[j];
      assert TiedWith(s, a, less)[0] == s[0] && TiedWith(s, a, less)[k + 1] == s[j];
    } else {
      TiedFollow(s[1..], a, less, i - 1, j - 1);
      FollowAfter(if Tied(less, s[0], a) then [s[0]] else [], rest, s[i], s[j]);
    }
  }

  lemma FollowAfter<T>(a: seq<T>, b: seq<T>, x: T, y: T)
    requires Follow(b, x, y)
    ensures Follow(a + b, x, y)
  {
    var i, j :| 0 <= i < j < |b| && b[i] == x && b[j] == y;
    assert (a + b)[|a| + i] == x && (a + b)[|a| + j] == y;
  }

  lemma FollowLonger<T>(s: seq<T>, n: nat, x: T, y: T)
    requires n <= |s| && Follow(s[..n], x, y)
    ensures Follow(s, x, y)
  {
    var i, j :| 0 <= i < j < n && s[..n][i] == x && s[..n][j] == y;
    assert s[i] == x && s[j] == y;
  }

  lemma FollowLast<T>(s: seq<T>, n: nat, x: T)
    requires n < |s| && x in s[..n]
    ensures Follow(s, x, s[n])
  {
    var i :| 0 <= i < n && s[..n][i] == x;
    assert s[i] == x;
  }

  lemma {:induction false} FollowTied<T>(s: seq<T>, a: T, less: (T, T) -> bool, i: nat, j: nat)
    requires i < j < |TiedWith(s, a, less)|
    ensures Follow(s, TiedWith(s, a, less)[i], TiedWith(s, a, less)[j])
  {
    var tied, rest := TiedWith(s, a, less), TiedWith(s[1..], a, less);
    assert s == [s[0]] + s[1..];
    if Tied(less, s[0], a) {
      if i == 0 {
        TiedWithFrom(s[1..], a, less, tied[j]);
        var k :| 0 <= k < |s[1..]| && s[1..][k] == tied[j];
        assert s[0] == tied[0] && s[k + 1] == tied[j];
      } else {
        FollowTied(s[1..], a, less, i - 1, j - 1);
        FollowAfter([s[0]], s[1..], tied[i], tied[j]);
      }
    } else {
      FollowTied(s[1..], a, less, i, j);
      FollowAfter([s[0]], s[1..], tied[i], tied[j]);
    }
  }

  /** The sort is stable: tied elements stand in the order in which they stood before. */
  lemma StableSortKeepsTies<T(!new)>(s: seq<T>, less: (T, T) -> bool, i: nat, j: nat)
    requires WeakOrder(less) && i < j < |StableSort(s, less)|
    requires Tied(less, StableSort(s, less)[i], StableSort(s, less)[j])
    ensures Follow(s, StableSort(s, less)[i], StableSort(s, less)[j])
  {
    var t := StableSort(s, less);
    var a := t[j];
    StableSortCorrect(s, less);
    TiedFollow(t, a, less, i, j);
    var tied := TiedWith(t, a, less);
    var p, q :| 0 <= p < q < |tied| && tied[p] == t[i] && tied[q] == t[j];
    FollowTied(s, a, less, p, q);
  }

  /** In an ordered sequence the least class comes first, so its first member is the head. */
  lemma HeadOfClass<T(!new)>(s: seq<T>, t: seq<T>, less: (T, T) -> bool)
    requires WeakOrder(less) && Ordered(s, less) && Ordered(t, less) && s != [] && t != []
    requires forall a :: TiedWith(s, a, less) == TiedWith(t, a, less)
    ensures s[0] == t[0]
  {
    TiedWithMember(s, s[0], less, 0);
    TiedWithMember(t, t[0], less, 0);
    TiedWithFrom(t, s[0], less, s[0]);
    TiedWithFrom(s, t[0], less, t[0]);
    assert Tied(less, s[0], t[0]);
    assert TiedWith(s, s[0], less)[0] == s[0];
    assert TiedWith(t, s[0], less)[0] == t[0];
  }

  /** Two ordered sequences with the same tied runs are the same sequence. */
  lemma {:induction false} StableSortUnique<T(!new)>(s: seq<T>, t: seq<T>, less: (T, T) -> bool)
    requires WeakOrder(less) && Ordered(s, less) && Ordered(t, less)
    requires forall a :: TiedWith(s, a, less) == TiedWith(t, a, less)
    ensures s == t
  {
    if s == [] || t == [] {
      if s != [] {
        TiedWithMember(s, s[0], less, 0);
      } else if t != [] {
        TiedWithMember(t, t[0], less, 0);
      }
    } else {
      HeadOfClass(s, t, less);
      forall a ensures TiedWith(s[1..], a, less) == TiedWith(t[1..], a, less) {
        var one := if Tied(less, s[0], a) then [s[0]] else [];
        assert TiedWith(s, a, less) == one + TiedWith(s[1..], a, less);
        assert TiedWith(t, a, less) == one + TiedWith(t[1..], a, less);
        assert TiedWith(s, a, less)[|one|..] == TiedWith(s[1..], a, less);
        assert TiedWith(t, a, less)[|one|..] == TiedWith(t[1..], a, less);
      }
      StableSortUnique(s[1..], t[1..], less);
      assert s == [s[0]] + s[1..] && t == [t[0]] + t[1..];
    }
  }

  /** Sorting what is already ordered changes nothing. */
  lemma SortOfOrdered<T(!new)>(s: seq<T>, less: (T, T) -> bool)
    requires WeakOrder(less) && Ordered(s, less)
    ensures StableSort(s, less) == s
  {
    StableSortCorrect(s, less);
    StableSortUnique(StableSort(s, less), s, less);
  }

  /** Any selection of an ordered sequence, taken in order, is ordered. */
  lemma OrderedSelection<T>(s: seq<T>, t: seq<T>, indexes: seq<nat>, less: (T, T) -> bool)
    requires Ordered(s, less) && |t| == |indexes|
    requires forall k :: 0 <= k < |t| ==> indexes[k] < |s| && t[k] == s[indexes[k]]
    requires forall k, l :: 0 <= k < l < |indexes| ==> indexes[k] < indexes[l]
    ensures Ordered(t, less)
  {
    forall k, l | 0 <= k < l < |t| ensures !less(t[l], t[k]) {
      assert indexes[k] < indexes[l];
    }
  }

  ghost predicate Increasing<T>(s: seq<T>, less: (T, T) -> bool) {
    forall i, j :: 0 <= i < j < |s| ==> less(s[i], s[j])
  }

  lemma IncreasingConcat<T>(a: seq<T>, b: seq<T>, less: (T, T) -> bool)
    requires Increasing(a, less) && Increasing(b, less)
    requires forall x, y :: x in a && y in b ==> less(x, y)
    ensures Increasing(a + b, less)
  {}

  /** An increasing sequence is determined by its members. */
  lemma {:induction false} IncreasingUnique<T(!new)>(a: seq<T>, b: seq<T>, less: (T, T) -> bool)
    requires forall x, y :: !(less(x, y) && less(y, x))
    requires Increasing(a, less) && Increasing(b, less) && forall x :: x in a <==> x in b
    ensures a == b
  {
    assert |a| > 0 ==> a[0] in b;
    assert |b| > 0 ==> b[0] in a;
    if a != [] {
      var x, y := a[|a| - 1], b[|b| - 1];
      assert x in b && y in a;
      assert x == y || (less(x, y) && less(y, x));
      var init, rest := a[..|a| - 1], b[..|b| - 1];
      LastOnlyOnce(a, less);
      LastOnlyOnce(b, less);
      assert forall z :: z in init <==> z in rest by {
        assert forall z :: z in init <==> z in a && z != x;
        assert forall z :: z in rest <==> z in b && z != y;
      }
      IncreasingUnique(init, rest, less);
      assert a == init + [x] && b == rest + [y];
    }
  }

  lemma LastOnlyOnce<T(!new)>(a: seq<T>, less: (T, T) -> bool)
    requires forall x, y :: !(less(x, y) && less(y, x))
    requires a != [] && Increasing(a, less)
    ensures forall z :: z in a[..|a| - 1] <==> z in a && z != a[|a| - 1]
  {
    var last := a[|a| - 1];
    assert !less(last, last);
  }
}
