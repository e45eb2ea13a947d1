/** Who wrote a key last, and who overwrites a position next, in a sequence of keys.

Both "latest" maps of the tape builder and the shadow references it leaves
behind are statements about these two searches. */
module LastWriter {
  import opened Orders
  import opened Sequences

  /** The greatest position below `n` holding `key`. */
  function Latest<K(==)>(keys: seq<K>, key: K, n: nat): Option<nat>
    requires n <= |keys|
  {
    if n == 0 then None
    else if keys[n - 1] == key then Some(n - 1)
    else Latest(keys, key, n - 1)
  }

  /** The least position above `i` and below `n` that repeats the key at `i`. */
  function Next<K(==)>(keys: seq<K>, i: nat, n: nat): Option<nat>
    requires i < n <= |keys|
    decreases n
  {
    if n == i + 1 then None
    else
      var earlier := Next(keys, i, n - 1);
      if earlier.Some? then earlier
      else if keys[n - 1] == keys[i] then Some(n - 1) else None
  }

  lemma {:induction false} LatestMeaning<K>(keys: seq<K>, key: K, n: nat)
    requires n <= |keys|
    ensures match Latest(keys, key, n)
            case Some(e) => e < n && keys[e] == key && forall i :: e < i < n ==> keys[i] != key
            case None => forall i :: 0 <= i < n ==> keys[i] != key
  {
    if n > 0 && keys[n - 1] != key {
      LatestMeaning(keys, key, n - 1);
    }
  }

  lemma {:induction false} NextMeaning<K>(keys: seq<K>, i: nat, n: nat)
    requires i < n <= |keys|
    ensures match Next(keys, i, n)
            case Some(q) => i < q < n && keys[q] == keys[i] && forall j :: i < j < q ==> keys[j] != keys[i]
            case None => forall j :: i < j < n ==> keys[j] != keys[i]
    decreases n
  {
    if n > i + 1 {
      NextMeaning(keys, i, n - 1);
    }
  }

  lemma LatestIs<K>(keys: seq<K>, key: K, n: nat, e: nat)
    requires e < n <= |keys| && keys[e] == key && forall i :: e < i < n ==> keys[i] != key
    ensures Latest(keys, key, n) == Some(e)
  {
    LatestMeaning(keys, key, n);
  }

  lemma LatestIsNone<K>(keys: seq<K>, key: K, n: nat)
    requires n <= |keys| && forall i :: 0 <= i < n ==> keys[i] != key
    ensures Latest(keys, key, n) == None
  {
    LatestMeaning(keys, key, n);
  }

  /** A position is open exactly when it is the latest of its own key. */
  lemma OpenIsLatest<K>(keys: seq<K>, k: nat, n: nat)
    requires k < n <= |keys|
    ensures Next(keys, k, n).None? <==> Latest(keys, keys[k], n) == Some(k)
  {
    NextMeaning(keys, k, n);
    LatestMeaning(keys, keys[k], n);
  }

  /** Appending position `p` ends exactly one open run: the latest one of its key. */
  lemma NextAdvances<K>(keys: seq<K>, i: nat, p: nat)
    requires i < p < |keys|
    ensures Latest(keys, keys[p], p) == Some(i) ==> Next(keys, i, p).None? && Next(keys, i, p + 1) == Some(p)
    ensures Latest(keys, keys[p], p) != Some(i) ==> Next(keys, i, p + 1) == Next(keys, i, p)
  {
    LatestMeaning(keys, keys[p], p);
    NextMeaning(keys, i, p);
  }

  /** How many of the first `i` positions nothing before `n` overwrites. */
  function Open<K(==)>(keys: seq<K>, i: nat, n: nat): nat
    requires i <= n <= |keys|
  {
    if i == 0 then 0 else Open(keys, i - 1, n) + if Next(keys, i - 1, n).None? then 1 else 0
  }

  /** How many of the first `n` positions overwrite an earlier one. */
  function Overwrites<K(==)>(keys: seq<K>, n: nat): nat
    requires n <= |keys|
  {
    if n == 0 then 0 else Overwrites(keys, n - 1) + if Latest(keys, keys[n - 1], n - 1).Some? then 1 else 0
  }

  lemma {:induction false} OpenStep<K>(keys: seq<K>, i: nat, p: nat)
    requires i <= p < |keys|
    ensures var e := Latest(keys, keys[p], p);
            Open(keys, i, p) == Open(keys, i, p + 1) + if e.Some? && e.value < i then 1 else 0
  {
    if i > 0 {
      OpenStep(keys, i - 1, p);
      NextAdvances(keys, i - 1, p);
    }
  }

  /** Open positions and overwrites are together as many as positions: each overwrite closes one. */
  lemma {:induction false} OpenCount<K>(keys: seq<K>, n: nat)
    requires n <= |keys|
    ensures Open(keys, n, n) + Overwrites(keys, n) == n
  {
    if n > 0 {
      OpenCount(keys, n - 1);
      OpenStep(keys, n - 1, n - 1);
      LatestMeaning(keys, keys[n - 1], n - 1);
    }
  }

  /** Those of the first `i` positions that nothing before `n` overwrites, in order. */
  function OpenPositions<K(==)>(keys: seq<K>, i: nat, n: nat): (r: seq<nat>)
    requires i <= n <= |keys|
    ensures forall k :: 0 <= k < |r| ==> r[k] < i
  {
    if i == 0 then []
    else OpenPositions(keys, i - 1, n) + if Next(keys, i - 1, n).None? then [i - 1] else []
  }

  lemma {:induction false} OpenPositionsMeaning<K>(keys: seq<K>, i: nat, n: nat)
    requires i <= n <= |keys|
    ensures var r := OpenPositions(keys, i, n);
            && |r| == Open(keys, i, n)
            && (forall k, l :: 0 <= k < l < |r| ==> r[k] < r[l])
            && (forall p: nat :: p in r <==> p < i && Next(keys, p, n).None?)
  {
    if i > 0 {
      OpenPositionsMeaning(keys, i - 1, n);
    }
  }

  /** Following next writers from `p` ends at the last position of its key, which is open. */
  lemma {:induction false} OpenOfKey<K>(keys: seq<K>, p: nat, n: nat) returns (w: nat)
    requires p < n <= |keys|
    ensures p <= w < n && keys[w] == keys[p] && Next(keys, w, n).None?
    decreases n - p
  {
    NextMeaning(keys, p, n);
    match Next(keys, p, n)
    case None => w := p;
    case Some(q) => w := OpenOfKey(keys, q, n);
  }

  /** If two holders of a key differ in a tag, then so do two adjacent holders. */
  lemma {:induction false} AdjacentDiffer<K, V>(keys: seq<K>, tags: seq<V>, i: nat, j: nat) returns (e: nat, p: nat)
    requires |tags| == |keys| && i < j < |keys|
    requires keys[i] == keys[j] && tags[i] != tags[j]
    ensures e < p <= j && keys[p] == keys[e] == keys[j]
    ensures Latest(keys, keys[p], p) == Some(e) && tags[e] != tags[p]
    decreases j
  {
    LatestMeaning(keys, keys[j], j);
    e, p := Latest(keys, keys[j], j).value, j;
    if tags[e] == tags[j] {
      e, p := AdjacentDiffer(keys, tags, i, e);
    }
  }

  lemma {:induction false} AllOpen<K>(keys: seq<K>, i: nat, n: nat)
    requires i <= n <= |keys|
    requires forall k: nat :: k < n ==> Next(keys, k, n).None?
    ensures |OpenPositions(keys, i, n)| == i
    ensures forall k: nat :: k < i ==> OpenPositions(keys, i, n)[k] == k
  {
    if i > 0 {
      AllOpen(keys, i - 1, n);
    }
  }

  /** Part `p` holds one counted element exactly when position `p` overwrites an earlier one. */
  ghost predicate CountsOverwrite<T, K>(parts: seq<seq<T>>, f: T -> bool, keys: seq<K>, p: nat)
    requires p < |parts| == |keys|
  {
    Count(parts[p], f) == if Latest(keys, keys[p], p).Some? then 1 else 0
  }

  lemma {:induction false} CountConcat<T, K>(parts: seq<seq<T>>, f: T -> bool, keys: seq<K>, n: nat)
    requires n <= |parts| == |keys|
    requires forall p: nat :: p < n ==> CountsOverwrite(parts, f, keys, p)
    ensures Count(Concat(parts, n), f) == Overwrites(keys, n)
  {
    if n > 0 {
      CountConcat(parts, f, keys, n - 1);
      assert CountsOverwrite(parts, f, keys, n - 1);
      CountAppend(Concat(parts, n - 1), parts[n - 1], f);
    }
  }
}
