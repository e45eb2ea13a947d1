/** Reachability in a dependency graph whose nodes may be missing. */
module Dependencies {
  import opened Sequences

  /** A graph: what each declared node depends on. Undeclared nodes depend on nothing. */
  type Graph<N(==)> = map<N, seq<N>>

  function Deps<N(==)>(g: Graph<N>, n: N): seq<N> {
    if n in g then g[n] else []
  }

  predicate IsPath<N(==)>(g: Graph<N>, path: seq<N>) {
    path != [] && forall i :: 0 <= i < |path| - 1 ==> path[i + 1] in Deps(g, path[i])
  }

  ghost predicate PathFrom<N(!new)>(g: Graph<N>, path: seq<N>, a: N, b: N) {
    IsPath(g, path) && path[0] == a && path[|path| - 1] == b
  }

  ghost predicate Reaches<N(!new)>(g: Graph<N>, a: N, b: N) {
    exists path :: PathFrom(g, path, a, b)
  }

  /** A node that depends on itself, directly or through others. */
  ghost predicate Cyclic<N(!new)>(g: Graph<N>, n: N) {
    exists d :: d in Deps(g, n) && Reaches(g, d, n)
  }

  lemma ReachesSelf<N(!new)>(g: Graph<N>, a: N)
    ensures Reaches(g, a, a)
  {
    assert PathFrom(g, [a], a, a);
  }

  lemma ReachesThrough<N(!new)>(g: Graph<N>, a: N, d: N, b: N)
    requires d in Deps(g, a) && Reaches(g, d, b)
    ensures Reaches(g, a, b)
  {
    var path :| PathFrom(g, path, d, b);
    var longer := [a] + path;
    forall i | 0 <= i < |longer| - 1 ensures longer[i + 1] in Deps(g, longer[i]) {
      if i > 0 {
        assert longer[i] == path[i - 1] && longer[i + 1] == path[i];
      }
    }
    assert PathFrom(g, longer, a, b);
  }

  lemma ReachesTransitive<N(!new)>(g: Graph<N>, a: N, b: N, c: N)
    requires Reaches(g, a, b) && Reaches(g, b, c)
    ensures Reaches(g, a, c)
  {
    var p :| PathFrom(g, p, a, b);
    var q :| PathFrom(g, q, b, c);
    var r := p + q[1..];
    forall i | 0 <= i < |r| - 1 ensures r[i + 1] in Deps(g, r[i]) {
      if i >= |p| - 1 {
        assert r[i + 1] == q[i + 2 - |p|] && r[i] == q[i + 1 - |p|];
      }
    }
    assert PathFrom(g, r, a, c);
  }

  /** What a dependency-closed set contains, it contains with everything reachable. */
  lemma {:induction false} ClosedContains<N(!new)>(g: Graph<N>, s: set<N>, path: seq<N>)
    requires IsPath(g, path) && path[0] in s
    requires forall n, d :: n in s && d in Deps(g, n) ==> d in s
    ensures path[|path| - 1] in s
  {
    if |path| > 1 {
      assert path[1] in Deps(g, path[0]);
      forall i | 0 <= i < |path[1..]| - 1 ensures path[1..][i + 1] in Deps(g, path[1..][i]) {
        assert path[i + 2] in Deps(g, path[i + 1]);
      }
      ClosedContains(g, s, path[1..]);
    }
  }

  lemma ClosedReaches<N(!new)>(g: Graph<N>, s: set<N>, a: N, b: N)
    requires Reaches(g, a, b) && a in s
    requires forall n, d :: n in s && d in Deps(g, n) ==> d in s
    ensures b in s
  {
    var path :| PathFrom(g, path, a, b);
    ClosedContains(g, s, path);
  }

  // ---------------------------------------------------------------------
  // Orders in which dependencies come first.

  /** Every dependency of every member comes strictly before it. */
  predicate DependenciesFirst<N(==)>(g: Graph<N>, order: seq<N>) {
    forall i, d :: 0 <= i < |order| && d in Deps(g, order[i]) ==> d in order[..i]
  }

  /** In such an order, whatever a member reaches stands no later than the member. */
  lemma {:induction false} ReachedNoLater<N(!new)>(g: Graph<N>, order: seq<N>, path: seq<N>, i: nat) returns (j: nat)
    requires DependenciesFirst(g, order) && IsPath(g, path)
    requires i < |order| && order[i] == path[0]
    ensures j <= i && order[j] == path[|path| - 1]
    decreases |path|
  {
    if |path| == 1 {
      j := i;
    } else {
      assert path[1] in Deps(g, path[0]);
      var k :| 0 <= k < i && order[k] == path[1];
      forall m | 0 <= m < |path[1..]| - 1 ensures path[1..][m + 1] in Deps(g, path[1..][m]) {
        assert path[m + 2] in Deps(g, path[m + 1]);
      }
      j := ReachedNoLater(g, order, path[1..], k);
    }
  }

  /** So no member of such an order is on a cycle. */
  lemma OrderedIsAcyclic<N(!new)>(g: Graph<N>, order: seq<N>, i: nat)
    requires DependenciesFirst(g, order) && NoRepeats(order) && i < |order|
    ensures !Cyclic(g, order[i])
  {
    if Cyclic(g, order[i]) {
      var d :| d in Deps(g, order[i]) && Reaches(g, d, order[i]);
      var path :| PathFrom(g, path, d, order[i]);
      var k :| 0 <= k < i && order[k] == d;
      var j := ReachedNoLater(g, order, path, k);
    }
  }

  /** A chain of dependencies ending in `n` that already contains `n` shows a cycle. */
  lemma {:induction false} ChainCloses<N(!new)>(g: Graph<N>, chain: seq<N>, k: nat, n: N)
    requires IsPath(g, chain) && k < |chain| && chain[k] == n && n in Deps(g, chain[|chain| - 1])
    ensures Cyclic(g, n)
  {
    if k == |chain| - 1 {
      ReachesSelf(g, n);
    } else {
      var path := chain[k + 1..] + [n];
      forall i | 0 <= i < |path| - 1 ensures path[i + 1] in Deps(g, path[i]) {
        assert path[i] == chain[k + 1 + i];
        if i < |path| - 2 {
          assert path[i + 1] == chain[k + 2 + i];
        }
      }
      assert PathFrom(g, path, chain[k + 1], n);
      assert chain[k + 1] in Deps(g, chain[k]);
    }
  }

  /** An order with dependencies first contains, with a member, everything it reaches. */
  lemma OrderContains<N(!new)>(g: Graph<N>, order: seq<N>, a: N, b: N)
    requires DependenciesFirst(g, order) && a in order && Reaches(g, a, b)
    ensures b in order
  {
    var path :| PathFrom(g, path, a, b);
    var i :| 0 <= i < |order| && order[i] == a;
    var j := ReachedNoLater(g, order, path, i);
  }

  // ---------------------------------------------------------------------
  // Depth-first order, without a memory of visits: everything written out, and repetitions dropped.

  /** Each element where it occurs first. */
  function Firsts<N(==)>(s: seq<N>): seq<N> {
    if s == [] then []
    else
      var earlier, last := Firsts(s[..|s| - 1]), s[|s| - 1];
      if last in earlier then earlier else earlier + [last]
  }

  /** A node after its dependencies, each of them written out in the same way, for so many levels. */
  function Expansion<N(==)>(g: Graph<N>, n: N, depth: nat): seq<N>
    decreases depth, 0
  {
    (if depth == 0 then [] else Expansions(g, Deps(g, n), depth - 1)) + [n]
  }

  function Expansions<N(==)>(g: Graph<N>, ns: seq<N>, depth: nat): seq<N>
    decreases depth, |ns|
  {
    if ns == [] then [] else Expansions(g, ns[..|ns| - 1], depth) + Expansion(g, ns[|ns| - 1], depth)
  }

  lemma {:induction false} FirstsMembers<N>(s: seq<N>)
    ensures NoRepeats(Firsts(s)) && forall x :: x in Firsts(s) <==> x in s
  {
    if s != [] {
      FirstsMembers(s[..|s| - 1]);
      assert s == s[..|s| - 1] + [s[|s| - 1]];
    }
  }

  lemma {:induction false} FirstsOfDistinct<N>(s: seq<N>)
    requires NoRepeats(s)
    ensures Firsts(s) == s
  {
    if s != [] {
      FirstsOfDistinct(s[..|s| - 1]);
      assert s == s[..|s| - 1] + [s[|s| - 1]];
    }
  }

  lemma FirstsNext<N>(s: seq<N>, x: N)
    ensures Firsts(s + [x]) == if x in Firsts(s) then Firsts(s) else Firsts(s) + [x]
  {
    assert (s + [x])[..|s|] == s;
  }

  /** Repetitions may be dropped early. */
  lemma {:induction false} FirstsOfFirsts<N>(a: seq<N>, b: seq<N>)
    ensures Firsts(Firsts(a) + b) == Firsts(a + b)
  {
    if b == [] {
      FirstsMembers(a);
      FirstsOfDistinct(Firsts(a));
      assert Firsts(a) + b == Firsts(a) && a + b == a;
    } else {
      var init, last := b[..|b| - 1], b[|b| - 1];
      FirstsOfFirsts(a, init);
      assert Firsts(a) + b == Firsts(a) + init + [last] && a + b == a + init + [last];
      FirstsNext(Firsts(a) + init, last);
      FirstsNext(a + init, last);
    }
  }

  /** What adds nothing new. */
  lemma {:induction false} FirstsAddNothing<N>(a: seq<N>, b: seq<N>)
    requires NoRepeats(a) && forall x :: x in b ==> x in a
    ensures Firsts(a + b) == a
  {
    if b == [] {
      FirstsOfDistinct(a);
      assert a + b == a;
    } else {
      var init, last := b[..|b| - 1], b[|b| - 1];
      FirstsAddNothing(a, init);
      assert a + b == a + init + [last];
      FirstsNext(a + init, last);
    }
  }

  /** An expansion holds only what is reached. */
  lemma {:induction false} ExpansionIsReached<N(!new)>(g: Graph<N>, n: N, depth: nat, x: N)
    requires x in Expansion(g, n, depth)
    ensures Reaches(g, n, x)
    decreases depth, 0
  {
    ReachesSelf(g, n);
    if x != n {
      ExpansionsAreReached(g, Deps(g, n), depth - 1, x);
      var d :| d in Deps(g, n) && Reaches(g, d, x);
      ReachesThrough(g, n, d, x);
    }
  }

  lemma {:induction false} ExpansionsAreReached<N(!new)>(g: Graph<N>, ns: seq<N>, depth: nat, x: N)
    requires x in Expansions(g, ns, depth)
    ensures exists n :: n in ns && Reaches(g, n, x)
    decreases depth, |ns|
  {
    var init, last := ns[..|ns| - 1], ns[|ns| - 1];
    if x in Expansions(g, init, depth) {
      ExpansionsAreReached(g, init, depth, x);
    } else {
      ExpansionIsReached(g, last, depth, x);
    }
  }

  /** From `before` to `after`, exactly the node's expansion was appended, without what was there already. The
  expansion is deep enough if it has as many levels as there are nodes in `after`. */
  ghost predicate Expands<N(!new)>(g: Graph<N>, before: seq<N>, n: N, after: seq<N>) {
    forall depth: nat :: depth >= |after| ==> after == Firsts(before + Expansion(g, n, depth))
  }

  ghost predicate ExpandsAll<N(!new)>(g: Graph<N>, before: seq<N>, ns: seq<N>, after: seq<N>) {
    forall depth: nat :: depth >= |after| ==> after == Firsts(before + Expansions(g, ns, depth))
  }

  lemma ExpandsNothing<N(!new)>(g: Graph<N>, before: seq<N>)
    requires NoRepeats(before)
    ensures ExpandsAll(g, before, [], before)
  {
    FirstsOfDistinct(before);
    assert before + [] == before;
  }

  lemma ExpandsNext<N(!new)>(g: Graph<N>, before: seq<N>, ns: seq<N>, middle: seq<N>, n: N, after: seq<N>)
    requires ExpandsAll(g, before, ns, middle) && Expands(g, middle, n, after) && |middle| <= |after|
    ensures ExpandsAll(g, before, ns + [n], after)
  {
    assert (ns + [n])[..|ns|] == ns;
    forall depth: nat | depth >= |after| ensures after == Firsts(before + Expansions(g, ns + [n], depth)) {
      FirstsOfFirsts(before + Expansions(g, ns, depth), Expansion(g, n, depth));
      Regroup(before, Expansions(g, ns, depth), Expansion(g, n, depth));
    }
  }

  /** The node itself comes after its dependencies. */
  lemma ExpandsNode<N(!new)>(g: Graph<N>, before: seq<N>, n: N, middle: seq<N>)
    requires ExpandsAll(g, before, Deps(g, n), middle) && n !in middle
    ensures Expands(g, before, n, middle + [n])
  {
    forall depth: nat | depth >= |middle + [n]| ensures middle + [n] == Firsts(before + Expansion(g, n, depth)) {
      var dependencies := Expansions(g, Deps(g, n), depth - 1);
      Regroup(before, dependencies, [n]);
      FirstsNext(before + dependencies, n);
    }
  }

  /** A node that is there already, with all that it reaches, adds nothing. */
  lemma ExpandsKnown<N(!new)>(g: Graph<N>, before: seq<N>, n: N)
    requires NoRepeats(before) && DependenciesFirst(g, before) && n in before
    ensures Expands(g, before, n, before)
  {
    forall depth: nat ensures Firsts(before + Expansion(g, n, depth)) == before {
      forall x | x in Expansion(g, n, depth) ensures x in before {
        ExpansionIsReached(g, n, depth, x);
        OrderContains(g, before, n, x);
      }
      FirstsAddNothing(before, Expansion(g, n, depth));
    }
  }
}
