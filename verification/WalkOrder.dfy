/** Least routes exist and order the files a walk scans. */
module WalkOrder {
  import opened Orders
  import opened Routes

  // ---------------------------------------------------------------------
  // A reachable file has a least route.

  /** More than any import position of the scan. */
  ghost function Width<F(!new)>(scan: Scan<F>): (width: nat)
    ensures forall u :: u in scan ==> |scan[u]| <= width
    ensures width > 0
    decreases |scan|
  {
    if scan == map[] then 1
    else
      var u :| u in scan;
      var rest := Width(scan - {u});
      assert forall v :: v in scan && v != u ==> v in scan - {u} && (scan - {u})[v] == scan[v];
      if rest < |scan[u]| then |scan[u]| else rest
  }

  /** A route read as a number in base `width`. */
  function Rank(width: nat, route: Route): nat {
    if route == [] then 0 else Rank(width, route[..|route| - 1]) * width + route[|route| - 1]
  }

  lemma Digit(x: nat, y: nat, width: nat, i: nat, j: nat)
    requires x < y && i < width
    ensures x * width + i < y * width + j
  {
    assert (x + 1) * width <= y * width;
  }

  /** Among followed routes of one length, the earlier has the smaller rank. */
  lemma {:induction false} RankDecreases<F(!new)>(scan: Scan<F>, types: bool, seed: F, a: Route, b: Route)
    requires End(scan, types, seed, a).Some? && End(scan, types, seed, b).Some?
    requires Before(a, b) && |a| == |b|
    ensures Rank(Width(scan), a) < Rank(Width(scan), b)
  {
    var x, y := a[..|a| - 1], b[..|b| - 1];
    if Before(x, y) {
      RankDecreases(scan, types, seed, x, y);
      Digit(Rank(Width(scan), x), Rank(Width(scan), y), Width(scan), a[|a| - 1], b[|b| - 1]);
    }
  }

  /** Descending from any route ends at a least one. */
  lemma {:induction false} LeastBelow<F(!new)>(scan: Scan<F>, types: bool, seed: F, file: F,
                                               route: Route) returns (least: Route)
    requires End(scan, types, seed, route) == Some(file)
    ensures Least(scan, types, seed, file, least)
    decreases |route|, Rank(Width(scan), route)
  {
    if other :| End(scan, types, seed, other) == Some(file) && !NotAfter(route, other) {
      BeforeTotal(route, other);
      if |other| == |route| {
        RankDecreases(scan, types, seed, other, route);
      }
      least := LeastBelow(scan, types, seed, file, other);
    } else {
      least := route;
    }
  }

  /** The path that witnesses that a file can be reached, if it can. */
  ghost function Witness<F(!new)>(scan: Scan<F>, types: bool, seed: F, file: F): Option<seq<F>> {
    if path :| LeastPath(scan, types, seed, file, path) then Some(path) else None
  }

  lemma WitnessMeaning<F(!new)>(scan: Scan<F>, types: bool, seed: F, file: F)
    ensures Witness(scan, types, seed, file).Some? <==> Reachable(scan, types, seed, file)
    ensures forall path :: LeastPath(scan, types, seed, file, path) ==> Witness(scan, types, seed, file) == Some(path)
  {
    if Reachable(scan, types, seed, file) {
      var route :| End(scan, types, seed, route) == Some(file);
      var least := LeastBelow(scan, types, seed, file, route);
      assert LeastPath(scan, types, seed, file, Along(scan, types, seed, least));
    }
    forall path | LeastPath(scan, types, seed, file, path)
      ensures Witness(scan, types, seed, file) == Some(path)
    {
      LeastPathUnique(scan, types, seed, file, path, Witness(scan, types, seed, file).value);
    }
  }

  /** The file at `i` imports the one after it. */
  ghost predicate Hop<F(!new)>(scan: Scan<F>, types: bool, path: seq<F>, i: nat) {
    i + 1 < |path| && ImportsFile(scan, types, path[i], path[i + 1])
  }

  /** From the seed to the file along imports, repeating no file. */
  ghost predicate SimplePath<F(!new)>(scan: Scan<F>, types: bool, seed: F, file: F, path: seq<F>) {
    && path != [] && path[0] == seed && path[|path| - 1] == file
    && (forall i: nat :: i + 1 < |path| ==> Hop(scan, types, path, i))
    && forall i, j :: 0 <= i < j < |path| ==> path[i] != path[j]
  }

  lemma LeastIsSimple<F(!new)>(scan: Scan<F>, types: bool, seed: F, file: F, route: Route)
    requires Least(scan, types, seed, file, route)
    ensures SimplePath(scan, types, seed, file, Along(scan, types, seed, route))
  {
    var path := Along(scan, types, seed, route);
    LeastIsShortestAndSimple(scan, types, seed, file, route);
    AlongPrefix(scan, types, seed, route, 0);
    assert route[..0] == [];
    forall i: nat | i + 1 < |path| ensures Hop(scan, types, path, i) {
      AlongFollowsImports(scan, types, seed, route, i);
    }
  }

  /** A witness is a simple path, and no route to the file visits fewer files. */
  lemma WitnessIsShortestPath<F(!new)>(scan: Scan<F>, types: bool, seed: F, file: F)
    requires Reachable(scan, types, seed, file)
    ensures Witness(scan, types, seed, file).Some?
    ensures SimplePath(scan, types, seed, file, Witness(scan, types, seed, file).value)
    ensures forall other :: End(scan, types, seed, other) == Some(file) ==>
                              |Witness(scan, types, seed, file).value| <= |other| + 1
  {
    WitnessMeaning(scan, types, seed, file);
    var path := Witness(scan, types, seed, file).value;
    var route :| Least(scan, types, seed, file, route) && path == Along(scan, types, seed, route);
    LeastIsSimple(scan, types, seed, file, route);
    LeastIsShortestAndSimple(scan, types, seed, file, route);
  }

  // ---------------------------------------------------------------------
  // The order of a walk.

  /** Files with their least routes, earliest first. */
  ghost predicate Listed<F(!new)>(scan: Scan<F>, types: bool, seed: F, order: seq<F>, routes: seq<Route>) {
    && |routes| == |order|
    && (forall i :: 0 <= i < |order| ==> Least(scan, types, seed, order[i], routes[i]))
    && (forall i, j :: 0 <= i < j < |routes| ==> Before(routes[i], routes[j]))
  }

  /** All reachable files in the order of their least routes. */
  ghost predicate ScanOrder<F(!new)>(scan: Scan<F>, types: bool, seed: F, order: seq<F>) {
    && (forall f :: f in order <==> Reachable(scan, types, seed, f))
    && exists routes :: Listed(scan, types, seed, order, routes)
  }

  lemma RouteOf<F(!new)>(scan: Scan<F>, types: bool, seed: F, order: seq<F>, routes: seq<Route>, f: F, route: Route)
    requires Listed(scan, types, seed, order, routes) && Least(scan, types, seed, f, route)
    ensures f in order <==> route in routes
  {
    if f in order {
      var i :| 0 <= i < |order| && order[i] == f;
      NotAfterAntisymmetric(routes[i], route);
    }
  }

  /** There is one scan order, so two walks over one graph report in one order. */
  lemma ScanOrderUnique<F(!new)>(scan: Scan<F>, types: bool, seed: F, a: seq<F>, b: seq<F>)
    requires ScanOrder(scan, types, seed, a) && ScanOrder(scan, types, seed, b)
    ensures a == b
  {
    var r :| Listed(scan, types, seed, a, r);
    var s :| Listed(scan, types, seed, b, s);
    forall route ensures route in r <==> route in s {
      if i :| 0 <= i < |r| && r[i] == route {
        RouteOf(scan, types, seed, b, s, a[i], route);
      }
      if i :| 0 <= i < |s| && s[i] == route {
        RouteOf(scan, types, seed, a, r, b[i], route);
      }
    }
    forall x, y ensures !(Before(x, y) && Before(y, x)) {
      BeforeTotal(x, y);
    }
    IncreasingUnique(r, s, Before);
    forall i | 0 <= i < |a| ensures a[i] == b[i] {
      assert Least(scan, types, seed, a[i], r[i]) && Least(scan, types, seed, b[i], s[i]);
    }
  }

  /** No file is scanned twice. */
  lemma ScanOrderDistinct<F(!new)>(scan: Scan<F>, types: bool, seed: F, order: seq<F>)
    requires ScanOrder(scan, types, seed, order)
    ensures forall i, j :: 0 <= i < j < |order| ==> order[i] != order[j]
  {
    var routes :| Listed(scan, types, seed, order, routes);
    forall i, j | 0 <= i < j < |order| ensures order[i] != order[j] {
      if order[i] == order[j] {
        NotAfterAntisymmetric(routes[i], routes[j]);
        BeforeIrreflexive(routes[i]);
      }
    }
  }
}
