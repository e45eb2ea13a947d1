/** The bookkeeping of the breadth-first import walks.

The walks share a queue with repeated entries, a parent map that the first finder writes,
and a set of scanned files. The invariant attaches to every queue entry the route by which
it was queued, and to every found file the route that found it. */
module ImportWalks {
  import opened Orders
  import opened Routes

  /** The variables of a walk, with the routes as ghost companions. */
  datatype Walk<!F> = Walk(
    queue: seq<F>, parents: map<F, F>, seen: set<F>,
    routes: seq<Route>, best: map<F, Route>)

  /** Every file a walk can meet. */
  function Universe<F(==)>(scan: Scan<F>, seed: F): set<F> {
    {seed} + set u, i | u in scan && 0 <= i < |scan[u]| && scan[u][i].specifier.Relative? &&
                        scan[u][i].specifier.resolved.Some? :: scan[u][i].specifier.resolved.value
  }

  /** How a file was found: by a route to it, one import longer than its parent's. */
  ghost predicate FoundBy<F(!new)>(scan: Scan<F>, types: bool, seed: F, w: Walk<F>, f: F)
    requires f in w.best
  {
    && End(scan, types, seed, w.best[f]) == Some(f)
    && (f != seed ==>
          && w.best[f] != [] && f in w.parents && w.parents[f] in w.best
          && w.best[w.parents[f]] == w.best[f][..|w.best[f]| - 1])
  }

  /** Facts about found files. */
  ghost predicate Tree<F(!new)>(scan: Scan<F>, types: bool, seed: F, w: Walk<F>) {
    && seed in w.best && w.best[seed] == []
    && w.best.Keys <= Universe(scan, seed)
    && (forall f {:trigger FoundBy(scan, types, seed, w, f)} :: f in w.best ==> FoundBy(scan, types, seed, w, f))
    && (forall f :: f in w.parents && f != seed ==> f in w.best)
    && w.seen <= w.best.Keys
  }

  /** The entry at `i` is a found file, queued under a route no earlier than the one that found it. */
  ghost predicate Entry<F(!new)>(w: Walk<F>, i: nat) {
    && i < |w.queue| && i < |w.routes|
    && w.queue[i] in w.best && NotAfter(w.best[w.queue[i]], w.routes[i])
  }

  /** The file waits in the queue under the route that found it. */
  ghost predicate Waits<F(!new)>(w: Walk<F>, f: F) {
    f in w.best && exists i :: 0 <= i < |w.queue| && i < |w.routes| && w.queue[i] == f && w.routes[i] == w.best[f]
  }

  ghost predicate Sorted(routes: seq<Route>) {
    forall i, j :: 0 <= i < j < |routes| ==> NotAfter(routes[i], routes[j])
  }

  /** A scanned file was found no later than any route still queued. */
  ghost predicate Past<F(!new)>(w: Walk<F>, u: F) {
    u in w.best && forall i :: 0 <= i < |w.routes| ==> NotAfter(w.best[u], w.routes[i])
  }

  /** A queue entry is the seed, or was put there by a scanned file. */
  ghost predicate QueuedFrom<F(!new)>(w: Walk<F>, route: Route) {
    route == [] || (exists u :: u in w.seen && u in w.best && w.best[u] == route[..|route| - 1])
  }

  /** Facts about the queue. */
  ghost predicate Queued<F(!new)>(w: Walk<F>) {
    && |w.routes| == |w.queue| && Sorted(w.routes)
    && (forall i: nat :: i < |w.queue| ==> Entry(w, i))
    && (forall f {:trigger Waits(w, f)} :: f in w.best && f !in w.seen ==> Waits(w, f))
    && (forall u {:trigger Past(w, u)} :: u in w.seen ==> Past(w, u))
    && (forall i: nat :: i < |w.routes| ==> QueuedFrom(w, w.routes[i]))
  }

  /** The first `k` imports of `u` lead to found files, by routes no later than through `u`. */
  ghost predicate Scanned<F(!new)>(scan: Scan<F>, types: bool, w: Walk<F>, u: F, k: nat) {
    u in w.best &&
    forall i: nat :: i < k && Target(scan, types, u, i).Some? ==>
                       var v := Target(scan, types, u, i).value;
                       v in w.best && NotAfter(w.best[v], w.best[u] + [i])
  }

  /** Between two scans. */
  ghost predicate Inv<F(!new)>(scan: Scan<F>, types: bool, seed: F, w: Walk<F>) {
    && Tree(scan, types, seed, w) && Queued(w)
    && forall u :: u in w.seen ==> Scanned(scan, types, w, u, |Imports(scan, u)|)
  }

  /** Within the scan of `cur`, before its `k`th import. */
  ghost predicate Scanning<F(!new)>(scan: Scan<F>, types: bool, seed: F, w: Walk<F>, cur: F, k: nat) {
    && Tree(scan, types, seed, w) && Queued(w)
    && InStep(scan, types, w, cur, k)
  }

  /** How far the scan of `cur` has come, and that it is the latest of the scans. */
  ghost predicate InStep<F(!new)>(scan: Scan<F>, types: bool, w: Walk<F>, cur: F, k: nat) {
    && cur in w.seen && w.seen <= w.best.Keys && k <= |Imports(scan, cur)|
    && (forall u :: u in w.seen ==> NotAfter(w.best[u], w.best[cur]))
    && (forall i :: 0 <= i < |w.routes| ==> Before(w.routes[i], w.best[cur] + [k]))
    && Scanned(scan, types, w, cur, k)
    && forall u :: u in w.seen && u != cur ==> Scanned(scan, types, w, u, |Imports(scan, u)|)
  }

  // ---------------------------------------------------------------------
  // Taking a file off the queue.

  function Start<F>(seed: F): Walk<F> {
    Walk([seed], map[], {}, [[]], map[seed := []])
  }

  lemma StartWalk<F(!new)>(scan: Scan<F>, types: bool, seed: F)
    ensures Inv(scan, types, seed, Start(seed))
  {
    var w := Start(seed);
    assert w.queue[0] == seed && w.routes[0] == [] && Waits(w, seed);
  }

  /** Drops the head of the queue. */
  function Rest<F>(w: Walk<F>): Walk<F>
    requires w.queue != [] && w.routes != []
  {
    w.(queue := w.queue[1..], routes := w.routes[1..])
  }

  lemma RestWaits<F(!new)>(w: Walk<F>, f: F)
    requires w.queue != [] && w.routes != [] && Waits(w, f) && f != w.queue[0]
    ensures Waits(Rest(w), f)
  {
    var i :| 0 <= i < |w.queue| && i < |w.routes| && w.queue[i] == f && w.routes[i] == w.best[f];
    assert Rest(w).queue[i - 1] == f && Rest(w).routes[i - 1] == w.best[f];
  }

  lemma RestQueued<F(!new)>(w: Walk<F>)
    requires Queued(w) && w.queue != [] && w.queue[0] in w.seen
    ensures Queued(Rest(w))
  {
    var r := Rest(w);
    forall f | f in r.best && f !in r.seen ensures Waits(r, f) {
      RestWaits(w, f);
    }
    forall i: nat | i < |r.queue| ensures Entry(r, i) && QueuedFrom(r, r.routes[i]) {
      assert Entry(w, i + 1) && QueuedFrom(w, w.routes[i + 1]);
    }
    forall u | u in r.seen ensures Past(r, u) {
      assert Past(w, u);
    }
  }

  lemma DropSeen<F(!new)>(scan: Scan<F>, types: bool, seed: F, w: Walk<F>)
    requires Inv(scan, types, seed, w) && w.queue != [] && w.queue[0] in w.seen
    ensures Inv(scan, types, seed, Rest(w))
  {
    RestQueued(w);
    RestTree(scan, types, seed, w, w.seen);
    forall u | u in w.seen ensures Scanned(scan, types, Rest(w), u, |Imports(scan, u)|) {
      assert Scanned(scan, types, w, u, |Imports(scan, u)|);
    }
  }

  lemma RestTree<F(!new)>(scan: Scan<F>, types: bool, seed: F, w: Walk<F>, seen: set<F>)
    requires Tree(scan, types, seed, w) && w.queue != [] && w.routes != [] && seen <= w.best.Keys
    ensures Tree(scan, types, seed, Rest(w).(seen := seen))
  {
    var r := Rest(w).(seen := seen);
    forall f | f in r.best ensures FoundBy(scan, types, seed, r, f) {
      assert FoundBy(scan, types, seed, w, f);
    }
  }

  /** The head of the queue, if not scanned before, is there under its own best route. */
  lemma HeadIsBest<F(!new)>(w: Walk<F>)
    requires Queued(w) && w.queue != [] && w.queue[0] !in w.seen
    ensures w.queue[0] in w.best && w.routes[0] == w.best[w.queue[0]]
  {
    var cur := w.queue[0];
    assert Entry(w, 0) && Waits(w, cur);
    var i :| 0 <= i < |w.queue| && i < |w.routes| && w.queue[i] == cur && w.routes[i] == w.best[cur];
    if i > 0 {
      NotAfterAntisymmetric(w.routes[0], w.best[cur]);
    }
  }

  function Opened<F>(w: Walk<F>): Walk<F>
    requires w.queue != [] && w.routes != []
  {
    Rest(w).(seen := w.seen + {w.queue[0]})
  }

  lemma SeenBefore<F(!new)>(scan: Scan<F>, types: bool, seed: F, w: Walk<F>, u: F)
    requires Tree(scan, types, seed, w) && Queued(w) && u in w.seen
    requires w.queue != [] && w.queue[0] !in w.seen
    ensures w.queue[0] in w.best && Before(w.best[u], w.best[w.queue[0]])
  {
    HeadIsBest(w);
    assert Past(w, u) && FoundBy(scan, types, seed, w, u) && FoundBy(scan, types, seed, w, w.queue[0]);
  }

  lemma ChildBefore(parent: Route, route: Route, later: Route)
    requires route != [] && parent == route[..|route| - 1] && Before(parent, later)
    ensures Before(route, later + [0])
  {
    ExtendOrdered(parent, route[|route| - 1], later, 0);
    assert route == parent + [route[|route| - 1]];
  }

  /** What is queued was found before anything the head of the queue will find. */
  lemma QueuedBeforeScan<F(!new)>(scan: Scan<F>, types: bool, seed: F, w: Walk<F>, i: nat)
    requires Tree(scan, types, seed, w) && Queued(w)
    requires w.queue != [] && w.queue[0] !in w.seen && i < |w.routes|
    ensures w.queue[0] in w.best && Before(w.routes[i], w.best[w.queue[0]] + [0])
  {
    HeadIsBest(w);
    var cur, route := w.queue[0], w.routes[i];
    assert QueuedFrom(w, route);
    if route != [] {
      var u :| u in w.seen && u in w.best && w.best[u] == route[..|route| - 1];
      SeenBefore(scan, types, seed, w, u);
      ChildBefore(w.best[u], route, w.best[cur]);
    }
  }

  lemma OpenedQueued<F(!new)>(w: Walk<F>)
    requires Queued(w) && w.queue != [] && w.queue[0] !in w.seen
    ensures Queued(Opened(w))
  {
    var r, cur := Opened(w), w.queue[0];
    HeadIsBest(w);
    forall f | f in r.best && f !in r.seen ensures Waits(r, f) {
      RestWaits(w, f);
    }
    forall u | u in r.seen ensures Past(r, u) {
      if u != cur {
        assert Past(w, u);
      }
    }
    forall i: nat | i < |r.routes| ensures Entry(r, i) && QueuedFrom(r, r.routes[i]) {
      assert Entry(w, i + 1) && QueuedFrom(w, w.routes[i + 1]);
    }
  }

  /** Taking a file off the queue for the first time opens its scan. */
  lemma BeginScan<F(!new)>(scan: Scan<F>, types: bool, seed: F, w: Walk<F>)
    requires Inv(scan, types, seed, w) && w.queue != [] && w.queue[0] !in w.seen
    ensures Scanning(scan, types, seed, Opened(w), w.queue[0], 0)
  {
    var r, cur := Opened(w), w.queue[0];
    HeadIsBest(w);
    OpenedQueued(w);
    RestTree(scan, types, seed, w, w.seen + {cur});
    forall i | 0 <= i < |r.routes| ensures Before(r.routes[i], r.best[cur] + [0]) {
      QueuedBeforeScan(scan, types, seed, w, i + 1);
    }
    forall u | u in r.seen ensures NotAfter(r.best[u], r.best[cur]) {
      if u != cur {
        assert Past(w, u);
      }
    }
    forall u | u in r.seen && u != cur ensures Scanned(scan, types, r, u, |Imports(scan, u)|) {
      assert Scanned(scan, types, w, u, |Imports(scan, u)|);
    }
  }

  // ---------------------------------------------------------------------
  // Following one import.

  /** The first finder of a file becomes its parent; a later one changes nothing. */
  predicate Adopts<F(==)>(before: map<F, F>, after: map<F, F>, seed: F, cur: F, next: F) {
    if next == seed then after - {seed} == before - {seed}
    else if next in before then after == before
    else after == before[next := cur]
  }

  function Pushed<F>(w: Walk<F>, parents: map<F, F>, cur: F, k: nat, next: F): Walk<F>
    requires cur in w.best
  {
    var route := w.best[cur] + [k];
    Walk(w.queue + [next], parents, w.seen, w.routes + [route],
         if next in w.best then w.best else w.best[next := route])
  }

  lemma TargetInUniverse<F>(scan: Scan<F>, types: bool, seed: F, u: F, k: nat)
    requires Target(scan, types, u, k).Some?
    ensures Target(scan, types, u, k).value in Universe(scan, seed)
  {
    assert u in scan && scan[u][k].specifier.resolved.value == Target(scan, types, u, k).value;
  }

  lemma KeepsParent<F>(before: map<F, F>, after: map<F, F>, seed: F, cur: F, next: F, f: F)
    requires Adopts(before, after, seed, cur, next) && f != seed && f in before
    ensures f in after && after[f] == before[f]
  {
    if next == seed {
      assert f in before - {seed} && (before - {seed})[f] == before[f];
      assert f in after - {seed} && (after - {seed})[f] == after[f];
    }
  }

  lemma NoOtherParent<F>(before: map<F, F>, after: map<F, F>, seed: F, cur: F, next: F, f: F)
    requires Adopts(before, after, seed, cur, next) && f != seed && f in after
    ensures f in before || f == next
  {
    if next == seed {
      assert f in after - {seed};
    }
  }

  lemma OldFound<F(!new)>(scan: Scan<F>, types: bool, seed: F, w: Walk<F>, parents: map<F, F>, cur: F, k: nat,
                          next: F, f: F)
    requires cur in w.best && f in w.best && FoundBy(scan, types, seed, w, f)
    requires Adopts(w.parents, parents, seed, cur, next)
    ensures FoundBy(scan, types, seed, Pushed(w, parents, cur, k, next), f)
  {
    if f != seed {
      KeepsParent(w.parents, parents, seed, cur, next, f);
    }
  }

  lemma NewFound<F(!new)>(scan: Scan<F>, types: bool, seed: F, w: Walk<F>, parents: map<F, F>, cur: F, k: nat, next: F)
    requires Tree(scan, types, seed, w) && cur in w.best && next !in w.best
    requires Target(scan, types, cur, k) == Some(next) && Adopts(w.parents, parents, seed, cur, next)
    ensures FoundBy(scan, types, seed, Pushed(w, parents, cur, k, next), next)
  {
    var route := w.best[cur] + [k];
    assert FoundBy(scan, types, seed, w, cur);
    EndOfExtension(scan, types, seed, w.best[cur], k);
    assert route[..|route| - 1] == w.best[cur];
  }

  lemma PushedTree<F(!new)>(scan: Scan<F>, types: bool, seed: F, w: Walk<F>, parents: map<F, F>, cur: F, k: nat,
                            next: F)
    requires Tree(scan, types, seed, w) && cur in w.best
    requires Target(scan, types, cur, k) == Some(next) && Adopts(w.parents, parents, seed, cur, next)
    ensures Tree(scan, types, seed, Pushed(w, parents, cur, k, next))
  {
    var r := Pushed(w, parents, cur, k, next);
    TargetInUniverse(scan, types, seed, cur, k);
    forall f | f in r.best ensures FoundBy(scan, types, seed, r, f) {
      if f in w.best {
        assert FoundBy(scan, types, seed, w, f);
        OldFound(scan, types, seed, w, parents, cur, k, next, f);
      } else {
        NewFound(scan, types, seed, w, parents, cur, k, next);
      }
    }
    forall f | f in parents && f != seed ensures f in r.best {
      NoOtherParent(w.parents, parents, seed, cur, next, f);
    }
  }

  /** What a scan knows about the route it queues next. */
  ghost predicate Fits<F(!new)>(w: Walk<F>, cur: F, route: Route, next: F) {
    && cur in w.seen && cur in w.best && route != [] && route[..|route| - 1] == w.best[cur]
    && (forall i :: 0 <= i < |w.routes| ==> Before(w.routes[i], route))
    && (forall u :: u in w.seen ==> u in w.best && NotAfter(w.best[u], route))
    && (next in w.best ==> NotAfter(w.best[next], route))
  }

  lemma PushedWaits<F(!new)>(w: Walk<F>, parents: map<F, F>, cur: F, k: nat, next: F, f: F)
    requires cur in w.best && |w.queue| == |w.routes| && f in Pushed(w, parents, cur, k, next).best
    requires f in w.best ==> Waits(w, f)
    ensures Waits(Pushed(w, parents, cur, k, next), f)
  {
    var r := Pushed(w, parents, cur, k, next);
    if f in w.best {
      var i :| 0 <= i < |w.queue| && i < |w.routes| && w.queue[i] == f && w.routes[i] == w.best[f];
      assert r.queue[i] == f && r.routes[i] == r.best[f];
    } else {
      assert r.queue[|w.queue|] == f && r.routes[|w.queue|] == r.best[f];
    }
  }

  lemma PushedEntry<F(!new)>(w: Walk<F>, parents: map<F, F>, cur: F, k: nat, next: F, i: nat)
    requires Queued(w) && cur in w.best && Fits(w, cur, w.best[cur] + [k], next)
    requires i <= |w.queue|
    ensures var r := Pushed(w, parents, cur, k, next); Entry(r, i) && QueuedFrom(r, r.routes[i])
  {
    if i < |w.queue| {
      assert Entry(w, i) && QueuedFrom(w, w.routes[i]);
    }
  }

  lemma PushedPast<F(!new)>(w: Walk<F>, parents: map<F, F>, cur: F, k: nat, next: F, u: F)
    requires cur in w.best && Fits(w, cur, w.best[cur] + [k], next) && u in w.seen && Past(w, u)
    ensures Past(Pushed(w, parents, cur, k, next), u)
  {}

  lemma PushedQueued<F(!new)>(w: Walk<F>, parents: map<F, F>, cur: F, k: nat, next: F)
    requires Queued(w) && cur in w.best && Fits(w, cur, w.best[cur] + [k], next)
    ensures Queued(Pushed(w, parents, cur, k, next))
  {
    var r := Pushed(w, parents, cur, k, next);
    forall f | f in r.best && f !in r.seen ensures Waits(r, f) {
      PushedWaits(w, parents, cur, k, next, f);
    }
    forall u | u in r.seen ensures Past(r, u) {
      PushedPast(w, parents, cur, k, next, u);
    }
    forall i: nat | i < |r.queue| ensures Entry(r, i) && QueuedFrom(r, r.routes[i]) {
      PushedEntry(w, parents, cur, k, next, i);
    }
  }

  /** Routes queued so far come before the one after next. */
  lemma RoutesAdvance(queued: seq<Route>, more: seq<Route>, route: Route, later: Route)
    requires forall i :: 0 <= i < |queued| ==> Before(queued[i], route)
    requires more == queued || more == queued + [route]
    requires Before(route, later)
    ensures forall i :: 0 <= i < |more| ==> Before(more[i], later)
  {
    forall i | 0 <= i < |more| ensures Before(more[i], later) {
      if i < |queued| {
        BeforeTransitive(queued[i], route, later);
      }
    }
  }

  /** A file found again was found by a route that is no later. */
  lemma FoundNoLater<F(!new)>(scan: Scan<F>, types: bool, seed: F, w: Walk<F>, cur: F, k: nat, next: F)
    requires Scanning(scan, types, seed, w, cur, k) && next in w.best
    ensures NotAfter(w.best[next], w.best[cur] + [k])
  {
    if next in w.seen {
      ExtendIsLater(w.best[cur], k);
      NotAfterTransitive(w.best[next], w.best[cur], w.best[cur] + [k]);
    } else {
      assert Waits(w, next);
    }
  }

  lemma ScanFits<F(!new)>(scan: Scan<F>, types: bool, seed: F, w: Walk<F>, cur: F, k: nat, next: F)
    requires Scanning(scan, types, seed, w, cur, k)
    ensures Fits(w, cur, w.best[cur] + [k], next)
  {
    forall u | u in w.seen ensures u in w.best && NotAfter(w.best[u], w.best[cur] + [k]) {
      FoundNoLater(scan, types, seed, w, cur, k, u);
    }
    if next in w.best {
      FoundNoLater(scan, types, seed, w, cur, k, next);
    }
  }

  lemma PushedScanned<F(!new)>(scan: Scan<F>, types: bool, w: Walk<F>, parents: map<F, F>, cur: F, k: nat, next: F,
                               u: F, n: nat)
    requires cur in w.best && Scanned(scan, types, w, u, n)
    ensures Scanned(scan, types, Pushed(w, parents, cur, k, next), u, n)
  {}

  lemma ScannedNext<F(!new)>(scan: Scan<F>, types: bool, w: Walk<F>, u: F, k: nat)
    requires Scanned(scan, types, w, u, k)
    requires var t := Target(scan, types, u, k);
             t.Some? ==> t.value in w.best && NotAfter(w.best[t.value], w.best[u] + [k])
    ensures Scanned(scan, types, w, u, k + 1)
  {}

  lemma PushedInStep<F(!new)>(scan: Scan<F>, types: bool, w: Walk<F>, parents: map<F, F>, cur: F, k: nat, next: F)
    requires InStep(scan, types, w, cur, k) && Target(scan, types, cur, k) == Some(next)
    requires Fits(w, cur, w.best[cur] + [k], next)
    ensures InStep(scan, types, Pushed(w, parents, cur, k, next), cur, k + 1)
  {
    var r := Pushed(w, parents, cur, k, next);
    ExtendOrdered(w.best[cur], k, w.best[cur], k + 1);
    RoutesAdvance(w.routes, r.routes, w.best[cur] + [k], w.best[cur] + [k + 1]);
    forall u | u in r.seen && u != cur ensures Scanned(scan, types, r, u, |Imports(scan, u)|) {
      PushedScanned(scan, types, w, parents, cur, k, next, u, |Imports(scan, u)|);
    }
    PushedScanned(scan, types, w, parents, cur, k, next, cur, k);
    ScannedNext(scan, types, r, cur, k);
  }

  /** Following one import keeps the scan invariant. */
  lemma FollowImport<F(!new)>(scan: Scan<F>, types: bool, seed: F, w: Walk<F>, parents: map<F, F>, cur: F, k: nat,
                              next: F)
    requires Scanning(scan, types, seed, w, cur, k) && Target(scan, types, cur, k) == Some(next)
    requires Adopts(w.parents, parents, seed, cur, next)
    ensures Scanning(scan, types, seed, Pushed(w, parents, cur, k, next), cur, k + 1)
  {
    ScanFits(scan, types, seed, w, cur, k, next);
    PushedTree(scan, types, seed, w, parents, cur, k, next);
    PushedQueued(w, parents, cur, k, next);
    PushedInStep(scan, types, w, parents, cur, k, next);
  }

  lemma SkipImport<F(!new)>(scan: Scan<F>, types: bool, seed: F, w: Walk<F>, cur: F, k: nat)
    requires Scanning(scan, types, seed, w, cur, k) && k < |Imports(scan, cur)| && Target(scan, types, cur, k).None?
    ensures Scanning(scan, types, seed, w, cur, k + 1)
  {
    ExtendOrdered(w.best[cur], k, w.best[cur], k + 1);
    RoutesAdvance(w.routes, w.routes, w.best[cur] + [k], w.best[cur] + [k + 1]);
    ScannedNext(scan, types, w, cur, k);
  }

  lemma EndScan<F(!new)>(scan: Scan<F>, types: bool, seed: F, w: Walk<F>, cur: F)
    requires Scanning(scan, types, seed, w, cur, |Imports(scan, cur)|)
    ensures Inv(scan, types, seed, w)
  {}

  // ---------------------------------------------------------------------
  // What a walk knows about routes.

  /** A queued route is no later than `route`. */
  ghost predicate Ahead<F(!new)>(w: Walk<F>, route: Route) {
    exists i :: 0 <= i < |w.routes| && NotAfter(w.routes[i], route)
  }

  /** Any route has either been matched by a best route, or something queued is ahead of it. */
  lemma {:induction false} Frontier<F(!new)>(scan: Scan<F>, types: bool, seed: F, w: Walk<F>, route: Route)
    requires Inv(scan, types, seed, w) && End(scan, types, seed, route).Some?
    ensures var f := End(scan, types, seed, route).value;
            (f in w.best && NotAfter(w.best[f], route)) || Ahead(w, route)
    decreases |route|
  {
    if route != [] {
      var init, k := route[..|route| - 1], route[|route| - 1];
      assert route == init + [k];
      Frontier(scan, types, seed, w, init);
      ExtendIsLater(init, k);
      var u := End(scan, types, seed, init).value;
      if u in w.best && NotAfter(w.best[u], init) {
        FoundOrWaiting(w, u, init);
      }
      if Ahead(w, init) {
        AheadOfLater(w, init, route);
      } else {
        assert Scanned(scan, types, w, u, |Imports(scan, u)|);
        ExtendNotAfter(w.best[u], init, k);
        var v := Target(scan, types, u, k).value;
        NotAfterTransitive(w.best[v], w.best[u] + [k], route);
      }
    }
  }

  lemma FoundOrWaiting<F(!new)>(w: Walk<F>, u: F, route: Route)
    requires Queued(w) && u in w.best && NotAfter(w.best[u], route)
    ensures u in w.seen || Ahead(w, route)
  {
    assert u in w.seen || Waits(w, u);
  }

  lemma ExtendNotAfter(a: Route, b: Route, k: nat)
    requires NotAfter(a, b)
    ensures NotAfter(a + [k], b + [k])
  {
    if a != b {
      ExtendOrdered(a, k, b, k);
    }
  }

  lemma AheadOfLater<F(!new)>(w: Walk<F>, route: Route, later: Route)
    requires Ahead(w, route) && NotAfter(route, later)
    ensures Ahead(w, later)
  {
    var i :| 0 <= i < |w.routes| && NotAfter(w.routes[i], route);
    NotAfterTransitive(w.routes[i], route, later);
  }

  /** The file about to be scanned has its least route. */
  lemma HeadIsLeast<F(!new)>(scan: Scan<F>, types: bool, seed: F, w: Walk<F>)
    requires Inv(scan, types, seed, w) && w.queue != [] && w.queue[0] !in w.seen
    ensures w.queue[0] in w.best && Least(scan, types, seed, w.queue[0], w.best[w.queue[0]])
  {
    var cur := w.queue[0];
    HeadIsBest(w);
    assert FoundBy(scan, types, seed, w, cur);
    forall other | End(scan, types, seed, other) == Some(cur) ensures NotAfter(w.best[cur], other) {
      Frontier(scan, types, seed, w, other);
      if Ahead(w, other) {
        var i :| 0 <= i < |w.routes| && NotAfter(w.routes[i], other);
        if i > 0 {
          NotAfterTransitive(w.routes[0], w.routes[i], other);
        }
      }
    }
  }

  /** When the queue is empty, exactly the reachable files have been scanned. */
  lemma DoneIsReachable<F(!new)>(scan: Scan<F>, types: bool, seed: F, w: Walk<F>, f: F)
    requires Inv(scan, types, seed, w) && w.queue == []
    ensures f in w.seen <==> Reachable(scan, types, seed, f)
  {
    if f in w.seen {
      assert FoundBy(scan, types, seed, w, f);
    }
    if Reachable(scan, types, seed, f) {
      var route :| End(scan, types, seed, route) == Some(f);
      Frontier(scan, types, seed, w, route);
      assert f in w.seen || Waits(w, f);
    }
  }
}
