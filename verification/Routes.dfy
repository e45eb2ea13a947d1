/** Routes through an import graph, and the order in which breadth-first search finds them.

A route is the list of import positions to follow, one per file. Routes are compared by
length and then position by position, so that the least route to a file is the shortest
one that always takes the earliest import it can. */
module Routes {
  import opened Orders

  type Route = seq<nat>

  datatype ImportKind = Runtime | TypeOnly | UnknownDynamic

  /** What a specifier names; a relative one may fail to resolve. */
  datatype Specifier<F> = Relative(resolved: Option<F>) | External(package: string) | Builtin | UnknownSpecifier

  datatype Import<F> = Import(kind: ImportKind, specifier: Specifier<F>)

  /** The sorted imports of each readable file; a file that cannot be read has none. */
  type Scan<F(==)> = map<F, seq<Import<F>>>

  function Imports<F(==)>(scan: Scan<F>, file: F): seq<Import<F>> {
    if file in scan then scan[file] else []
  }

  /** Which local imports a walk follows: run-time ones, and type-only ones if asked. */
  predicate Followed<F>(imp: Import<F>, types: bool) {
    && imp.specifier.Relative?
    && imp.specifier.resolved.Some?
    && (imp.kind.Runtime? || (types && imp.kind.TypeOnly?))
  }

  /** The file that the `k`th import of `file` leads to. */
  function Target<F(==)>(scan: Scan<F>, types: bool, file: F, k: nat): Option<F> {
    var imports := Imports(scan, file);
    if k < |imports| && Followed(imports[k], types) then imports[k].specifier.resolved else None
  }

  /** One import further, if there was a file to start from. */
  function Onward<F(==)>(scan: Scan<F>, types: bool, file: Option<F>, k: nat): Option<F> {
    if file.None? then None else Target(scan, types, file.value, k)
  }

  /** Where a route from `seed` ends, if it can be followed. */
  function End<F(==)>(scan: Scan<F>, types: bool, seed: F, route: Route): Option<F> {
    if route == [] then Some(seed)
    else Onward(scan, types, End(scan, types, seed, route[..|route| - 1]), route[|route| - 1])
  }

  /** The files along a route, from the seed to its end. */
  function Along<F(==)>(scan: Scan<F>, types: bool, seed: F, route: Route): (files: seq<F>)
    requires End(scan, types, seed, route).Some?
    ensures |files| == |route| + 1
    ensures files[|route|] == End(scan, types, seed, route).value
  {
    if route == [] then [seed]
    else Along(scan, types, seed, route[..|route| - 1]) + [End(scan, types, seed, route).value]
  }

  // ---------------------------------------------------------------------
  // The order of routes.

  predicate Before(a: Route, b: Route) {
    || |a| < |b|
    || (|a| == |b| && a != [] &&
        (Before(a[..|a| - 1], b[..|b| - 1]) || (a[..|a| - 1] == b[..|b| - 1] && a[|a| - 1] < b[|b| - 1])))
  }

  predicate NotAfter(a: Route, b: Route) {
    a == b || Before(a, b)
  }

  lemma {:induction false} BeforeTransitive(a: Route, b: Route, c: Route)
    requires Before(a, b) && Before(b, c)
    ensures Before(a, c)
  {
    if |a| == |b| == |c| {
      var x, y, z := a[..|a| - 1], b[..|b| - 1], c[..|c| - 1];
      if Before(x, y) && Before(y, z) {
        BeforeTransitive(x, y, z);
      } else {
        assert x == y || y == z;
        assert Before(x, z) || (x == z && a[|a| - 1] < c[|c| - 1]);
      }
    }
  }

  lemma {:induction false} BeforeIrreflexive(a: Route)
    ensures !Before(a, a)
  {
    if a != [] {
      BeforeIrreflexive(a[..|a| - 1]);
    }
  }

  lemma {:induction false} BeforeTotal(a: Route, b: Route)
    ensures !(Before(a, b) && Before(b, a)) && !Before(a, a)
    ensures a == b || Before(a, b) || Before(b, a)
  {
    BeforeIrreflexive(a);
    if a != [] && |a| == |b| {
      BeforeTotal(a[..|a| - 1], b[..|b| - 1]);
      assert a == a[..|a| - 1] + [a[|a| - 1]] && b == b[..|b| - 1] + [b[|b| - 1]];
    }
  }

  lemma NotAfterTransitive(a: Route, b: Route, c: Route)
    requires NotAfter(a, b) && NotAfter(b, c)
    ensures NotAfter(a, c)
  {
    if Before(a, b) && Before(b, c) {
      BeforeTransitive(a, b, c);
    }
  }

  lemma NotAfterAntisymmetric(a: Route, b: Route)
    requires NotAfter(a, b) && NotAfter(b, a)
    ensures a == b
  {
    BeforeTotal(a, b);
  }

  /** Extending keeps the order, and on one route the positions decide. */
  lemma ExtendOrdered(a: Route, j: nat, b: Route, k: nat)
    requires Before(a, b) || (a == b && j < k)
    ensures Before(a + [j], b + [k])
  {
    assert (a + [j])[..|a|] == a && (b + [k])[..|b|] == b;
  }

  lemma ExtendIsLater(a: Route, k: nat)
    ensures Before(a, a + [k])
  {}

  // ---------------------------------------------------------------------
  // Least routes.

  ghost predicate Reachable<F(!new)>(scan: Scan<F>, types: bool, seed: F, file: F) {
    exists route :: End(scan, types, seed, route) == Some(file)
  }

  /** No route to `file` comes before this one. */
  ghost predicate Least<F(!new)>(scan: Scan<F>, types: bool, seed: F, file: F, route: Route) {
    && End(scan, types, seed, route) == Some(file)
    && forall other :: End(scan, types, seed, other) == Some(file) ==> NotAfter(route, other)
  }

  /** The file path of the least route. */
  ghost predicate LeastPath<F(!new)>(scan: Scan<F>, types: bool, seed: F, file: F, path: seq<F>) {
    exists route :: Least(scan, types, seed, file, route) && path == Along(scan, types, seed, route)
  }

  /** There is only one least path: any two walks that find it agree. */
  lemma LeastPathUnique<F(!new)>(scan: Scan<F>, types: bool, seed: F, file: F, p: seq<F>, q: seq<F>)
    requires LeastPath(scan, types, seed, file, p) && LeastPath(scan, types, seed, file, q)
    ensures p == q
  {
    var a :| Least(scan, types, seed, file, a) && p == Along(scan, types, seed, a);
    var b :| Least(scan, types, seed, file, b) && q == Along(scan, types, seed, b);
    NotAfterAntisymmetric(a, b);
  }

  lemma EndOfExtension<F>(scan: Scan<F>, types: bool, seed: F, route: Route, k: nat)
    ensures End(scan, types, seed, route + [k]) == Onward(scan, types, End(scan, types, seed, route), k)
    ensures End(scan, types, seed, route + [k]).Some? ==>
              Along(scan, types, seed, route + [k]) ==
              Along(scan, types, seed, route) + [End(scan, types, seed, route + [k]).value]
  {
    assert (route + [k])[..|route|] == route;
  }

  lemma {:induction false} EndOfConcat<F>(scan: Scan<F>, types: bool, seed: F, a: Route, b: Route)
    requires End(scan, types, seed, a).Some?
    ensures End(scan, types, seed, a + b) == End(scan, types, End(scan, types, seed, a).value, b)
  {
    if b == [] {
      assert a + b == a;
    } else {
      EndOfConcat(scan, types, seed, a, b[..|b| - 1]);
      assert (a + b)[..|a + b| - 1] == a + b[..|b| - 1];
    }
  }

  lemma {:induction false} AlongPrefix<F>(scan: Scan<F>, types: bool, seed: F, route: Route, i: nat)
    requires End(scan, types, seed, route).Some? && i <= |route|
    ensures End(scan, types, seed, route[..i]) == Some(Along(scan, types, seed, route)[i])
  {
    if i == |route| {
      assert route[..i] == route;
    } else {
      AlongPrefix(scan, types, seed, route[..|route| - 1], i);
      assert route[..|route| - 1][..i] == route[..i];
    }
  }

  /** A file has an import that a walk follows to the other: a run-time one, or a type-only one if asked, that is
  relative and resolves to it. */
  ghost predicate ImportsFile<F>(scan: Scan<F>, types: bool, file: F, next: F) {
    && file in scan
    && (|| Import(Runtime, Relative(Some(next))) in scan[file]
        || (types && Import(TypeOnly, Relative(Some(next))) in scan[file]))
  }

  lemma TargetMeaning<F>(scan: Scan<F>, types: bool, file: F, next: F)
    ensures (exists k: nat :: Target(scan, types, file, k) == Some(next)) <==> ImportsFile(scan, types, file, next)
  {
    if ImportsFile(scan, types, file, next) {
      var k: nat :| k < |scan[file]| && scan[file][k].specifier == Relative(Some(next)) &&
                    Followed(scan[file][k], types);
      assert Target(scan, types, file, k) == Some(next);
    }
    if k: nat :| Target(scan, types, file, k) == Some(next) {
      assert scan[file][k] == Import(scan[file][k].kind, Relative(Some(next)));
    }
  }

  /** A path starts at the seed, follows imports, and ends at the file. */
  lemma AlongFollowsImports<F>(scan: Scan<F>, types: bool, seed: F, route: Route, i: nat)
    requires End(scan, types, seed, route).Some? && i < |route|
    ensures var files := Along(scan, types, seed, route);
            && files[0] == seed && Target(scan, types, files[i], route[i]) == Some(files[i + 1])
            && ImportsFile(scan, types, files[i], files[i + 1])
  {
    TargetMeaning(scan, types, Along(scan, types, seed, route)[i], Along(scan, types, seed, route)[i + 1]);
    AlongPrefix(scan, types, seed, route, 0);
    AlongPrefix(scan, types, seed, route, i);
    AlongPrefix(scan, types, seed, route, i + 1);
    assert route[..0] == [] && route[..i + 1][..i] == route[..i];
  }

  lemma ReachableOnward<F(!new)>(scan: Scan<F>, types: bool, seed: F, file: F, next: F)
    requires Reachable(scan, types, seed, file) && ImportsFile(scan, types, file, next)
    ensures Reachable(scan, types, seed, next)
  {
    var route :| End(scan, types, seed, route) == Some(file);
    TargetMeaning(scan, types, file, next);
    var k: nat :| Target(scan, types, file, k) == Some(next);
    EndOfExtension(scan, types, seed, route, k);
  }

  /** These files include the seed and whatever they import. */
  ghost predicate Encloses<F(!new)>(scan: Scan<F>, types: bool, seed: F, inside: set<F>) {
    seed in inside && forall file, next :: file in inside && ImportsFile(scan, types, file, next) ==> next in inside
  }

  lemma {:induction false} RouteStaysInside<F(!new)>(scan: Scan<F>, types: bool, seed: F, route: Route, inside: set<F>)
    requires End(scan, types, seed, route).Some? && Encloses(scan, types, seed, inside)
    ensures End(scan, types, seed, route).value in inside
  {
    if route != [] {
      var init := route[..|route| - 1];
      RouteStaysInside(scan, types, seed, init, inside);
      TargetMeaning(scan, types, End(scan, types, seed, init).value, End(scan, types, seed, route).value);
    }
  }

  /** The reachable files are the least set that holds the seed and what its members import. */
  lemma ReachableIsClosure<F(!new)>(scan: Scan<F>, types: bool, seed: F, inside: set<F>)
    ensures Reachable(scan, types, seed, seed)
    ensures forall file, next :: Reachable(scan, types, seed, file) && ImportsFile(scan, types, file, next) ==>
                                   Reachable(scan, types, seed, next)
    ensures Encloses(scan, types, seed, inside) ==> forall file :: Reachable(scan, types, seed, file) ==> file in inside
  {
    assert End(scan, types, seed, []) == Some(seed);
    forall file, next | Reachable(scan, types, seed, file) && ImportsFile(scan, types, file, next)
      ensures Reachable(scan, types, seed, next)
    {
      ReachableOnward(scan, types, seed, file, next);
    }
    if Encloses(scan, types, seed, inside) {
      forall file | Reachable(scan, types, seed, file) ensures file in inside {
        var route :| End(scan, types, seed, route) == Some(file);
        RouteStaysInside(scan, types, seed, route, inside);
      }
    }
  }

  /** A route that visits a file twice can be cut short. */
  lemma Shortcut<F>(scan: Scan<F>, types: bool, seed: F, route: Route, i: nat, j: nat) returns (short: Route)
    requires End(scan, types, seed, route).Some? && i < j <= |route|
    requires Along(scan, types, seed, route)[i] == Along(scan, types, seed, route)[j]
    ensures |short| < |route| && End(scan, types, seed, short) == End(scan, types, seed, route)
  {
    var a, b, c := route[..i], route[..j], route[j..];
    assert route == b + c;
    AlongPrefix(scan, types, seed, route, i);
    AlongPrefix(scan, types, seed, route, j);
    assert End(scan, types, seed, a) == End(scan, types, seed, b);
    EndOfConcat(scan, types, seed, a, c);
    EndOfConcat(scan, types, seed, b, c);
    short := a + c;
  }

  /** The least route is a shortest one and visits no file twice. */
  lemma LeastIsShortestAndSimple<F(!new)>(scan: Scan<F>, types: bool, seed: F, file: F, route: Route)
    requires Least(scan, types, seed, file, route)
    ensures forall other :: End(scan, types, seed, other) == Some(file) ==> |route| <= |other|
    ensures var files := Along(scan, types, seed, route);
            forall i, j :: 0 <= i < j < |files| ==> files[i] != files[j]
  {
    var files := Along(scan, types, seed, route);
    forall i, j | 0 <= i < j < |files| ensures files[i] != files[j] {
      if files[i] == files[j] {
        var short := Shortcut(scan, types, seed, route, i, j);
      }
    }
  }
}
