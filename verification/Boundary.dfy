/** The boundary checker's walks over the import graph. */
module Boundary {
  import opened Orders
  import opened Routes
  import opened ImportWalks
  import opened WalkOrder

  /** `path` is what climbing the parent map from `file` to the seed spells out. */
  ghost predicate Spells<F>(parents: map<F, F>, seed: F, file: F, path: seq<F>)
    decreases |path|
  {
    && path != [] && path[|path| - 1] == file
    && if file == seed then |path| == 1
       else file in parents && Spells(parents, seed, parents[file], path[..|path| - 1])
  }

  /** Climbs the parent map from the target to the seed. The climb ends because the map spells a path. */
  method BuildFilePath<F(==)>(parents: map<F, F>, seed: F, target: F, ghost path: seq<F>) returns (out: seq<F>)
    requires Spells(parents, seed, target, path)
    ensures out == path
  {
    out := [target];
    var cur := target;
    ghost var rest := path;
    while cur != seed
      invariant Spells(parents, seed, cur, rest)
      invariant out != [] && out[0] == cur && path == rest + out[1..]
      decreases |rest|
    {
      if cur !in parents {
        break;
      }
      rest := rest[..|rest| - 1];
      cur := parents[cur];
      out := [cur] + out;
    }
    assert rest == [cur];
  }

  /** The walk whose queue, parents and scanned files a method holds in its variables. */
  ghost predicate Holds<F(!new)>(w: Walk<F>, queue: seq<F>, parents: map<F, F>, seen: set<F>) {
    w.queue == queue && w.parents == parents && w.seen == seen
  }

  /** The path to a found file. */
  ghost function PathTo<F(!new)>(scan: Scan<F>, types: bool, seed: F, w: Walk<F>, f: F): seq<F>
    requires Tree(scan, types, seed, w) && f in w.best
  {
    assert FoundBy(scan, types, seed, w, f);
    Along(scan, types, seed, w.best[f])
  }

  /** The parent map spells out the path that found a file. */
  lemma {:induction false} ParentsSpellPath<F(!new)>(scan: Scan<F>, types: bool, seed: F, w: Walk<F>, f: F)
    requires Tree(scan, types, seed, w) && f in w.best
    ensures Spells(w.parents, seed, f, PathTo(scan, types, seed, w, f))
    decreases |w.best[f]|
  {
    assert FoundBy(scan, types, seed, w, f);
    if f != seed {
      var parent := w.parents[f];
      assert FoundBy(scan, types, seed, w, parent);
      ParentsSpellPath(scan, types, seed, w, parent);
      var path := PathTo(scan, types, seed, w, f);
      assert path[..|path| - 1] == PathTo(scan, types, seed, w, parent);
    }
  }

  /** For every file that can be reached from the seed, the path that witnesses it. */
  ghost predicate Witnessed<F(!new)>(scan: Scan<F>, types: bool, seed: F, paths: map<F, seq<F>>, files: set<F>) {
    paths.Keys == files && forall f :: f in paths ==> Witness(scan, types, seed, f) == Some(paths[f])
  }

  lemma HeadWitness<F(!new)>(scan: Scan<F>, types: bool, seed: F, w: Walk<F>)
    requires Inv(scan, types, seed, w) && w.queue != [] && w.queue[0] !in w.seen
    ensures w.queue[0] in w.best
    ensures Witness(scan, types, seed, w.queue[0]) == Some(PathTo(scan, types, seed, w, w.queue[0]))
  {
    var cur := w.queue[0];
    HeadIsLeast(scan, types, seed, w);
    assert LeastPath(scan, types, seed, cur, Along(scan, types, seed, w.best[cur]));
    WitnessMeaning(scan, types, seed, cur);
  }

  /** Queues what the `k`th import leads to; the first finder becomes the parent, the seed keeps none. */
  method QueueImport<F(==, !new)>(scan: Scan<F>, seed: F, types: bool, cur: F, imports: seq<Import<F>>, k: nat,
                                  queue0: seq<F>, parents0: map<F, F>, ghost w0: Walk<F>)
    returns (queue: seq<F>, parents: map<F, F>, ghost w: Walk<F>)
    requires imports == Imports(scan, cur) && k < |imports|
    requires Scanning(scan, types, seed, w0, cur, k) && Holds(w0, queue0, parents0, w0.seen)
    ensures Scanning(scan, types, seed, w, cur, k + 1) && Holds(w, queue, parents, w0.seen)
  {
    queue, parents, w := queue0, parents0, w0;
    var imp := imports[k];
    if !imp.specifier.Relative? || !(imp.kind.Runtime? || (types && imp.kind.TypeOnly?)) {
      SkipImport(scan, types, seed, w, cur, k);
      return;
    }
    if imp.specifier.resolved.None? {
      SkipImport(scan, types, seed, w, cur, k);
      return;
    }
    var next := imp.specifier.resolved.value;
    if next !in parents && next != seed {
      parents := parents[next := cur];
    }
    FollowImport(scan, types, seed, w, parents, cur, k, next);
    queue, w := queue + [next], Pushed(w, parents, cur, k, next);
  }

  method ScanImports<F(==, !new)>(scan: Scan<F>, seed: F, types: bool, cur: F,
                                  queue0: seq<F>, parents0: map<F, F>, ghost w0: Walk<F>)
    returns (queue: seq<F>, parents: map<F, F>, ghost w: Walk<F>)
    requires Scanning(scan, types, seed, w0, cur, 0) && Holds(w0, queue0, parents0, w0.seen)
    ensures Inv(scan, types, seed, w) && Holds(w, queue, parents, w0.seen)
  {
    queue, parents, w := queue0, parents0, w0;
    var imports := Imports(scan, cur);
    for k := 0 to |imports|
      invariant Scanning(scan, types, seed, w, cur, k) && Holds(w, queue, parents, w0.seen)
    {
      queue, parents, w := QueueImport(scan, seed, types, cur, imports, k, queue, parents, w);
    }
    EndScan(scan, types, seed, w, cur);
  }

  /** What is known when a file comes off the queue for the first time. */
  lemma HeadOpens<F(!new)>(scan: Scan<F>, types: bool, seed: F, w: Walk<F>)
    returns (path: seq<F>)
    requires Inv(scan, types, seed, w) && w.queue != [] && w.queue[0] !in w.seen
    ensures Witness(scan, types, seed, w.queue[0]) == Some(path) && Spells(w.parents, seed, w.queue[0], path)
    ensures Scanning(scan, types, seed, Opened(w), w.queue[0], 0)
    ensures w.queue[0] in Universe(scan, seed)
  {
    HeadWitness(scan, types, seed, w);
    ParentsSpellPath(scan, types, seed, w, w.queue[0]);
    BeginScan(scan, types, seed, w);
    path := PathTo(scan, types, seed, w, w.queue[0]);
  }

  lemma FewerLeft<F>(universe: set<F>, seen: set<F>, cur: F)
    requires cur in universe && cur !in seen
    ensures universe - (seen + {cur}) < universe - seen
  {
    assert cur in universe - seen;
  }

  /** Scans the head of the queue and reports how it was reached. */
  method VisitFile<F(==, !new)>(scan: Scan<F>, seed: F, types: bool, queue0: seq<F>, parents0: map<F, F>, seen: set<F>,
                                ghost w0: Walk<F>)
    returns (path: seq<F>, queue: seq<F>, parents: map<F, F>, ghost w: Walk<F>)
    requires Inv(scan, types, seed, w0) && Holds(w0, queue0, parents0, seen)
    requires queue0 != [] && queue0[0] !in seen
    ensures Witness(scan, types, seed, queue0[0]) == Some(path)
    ensures Inv(scan, types, seed, w) && Holds(w, queue, parents, seen + {queue0[0]})
    ensures Universe(scan, seed) - (seen + {queue0[0]}) < Universe(scan, seed) - seen
  {
    ghost var spelt := HeadOpens(scan, types, seed, w0);
    path := BuildFilePath(parents0, seed, queue0[0], spelt);
    queue, parents, w := ScanImports(scan, seed, types, queue0[0], queue0[1..], parents0, Opened(w0));
    FewerLeft(Universe(scan, seed), seen, queue0[0]);
  }

  lemma DropHead<F(!new)>(scan: Scan<F>, types: bool, seed: F, w: Walk<F>, queue: seq<F>, parents: map<F, F>,
                          seen: set<F>)
    requires Inv(scan, types, seed, w) && Holds(w, queue, parents, seen) && queue != [] && queue[0] in seen
    ensures w.routes != [] && Inv(scan, types, seed, Rest(w)) && Holds(Rest(w), queue[1..], parents, seen)
  {
    DropSeen(scan, types, seed, w);
  }

  lemma WalkDone<F(!new)>(scan: Scan<F>, types: bool, seed: F, w: Walk<F>, parents: map<F, F>, seen: set<F>)
    requires Inv(scan, types, seed, w) && Holds(w, [], parents, seen)
    ensures forall f :: f in seen <==> Reachable(scan, types, seed, f)
  {
    forall f ensures f in seen <==> Reachable(scan, types, seed, f) {
      DoneIsReachable(scan, types, seed, w, f);
    }
  }

  ghost predicate Collecting<F(!new)>(scan: Scan<F>, types: bool, seed: F, w: Walk<F>,
                                      queue: seq<F>, parents: map<F, F>, seen: set<F>, paths: map<F, seq<F>>) {
    Inv(scan, types, seed, w) && Holds(w, queue, parents, seen) && Witnessed(scan, types, seed, paths, seen)
  }

  lemma WitnessAdded<F(!new)>(scan: Scan<F>, types: bool, seed: F, paths: map<F, seq<F>>, files: set<F>, f: F,
                              path: seq<F>)
    requires Witnessed(scan, types, seed, paths, files) && Witness(scan, types, seed, f) == Some(path)
    ensures Witnessed(scan, types, seed, paths[f := path], files + {f})
  {}

  method CollectNext<F(==, !new)>(scan: Scan<F>, seed: F, types: bool, queue0: seq<F>, parents0: map<F, F>,
                                  seen0: set<F>,
                                  paths0: map<F, seq<F>>, ghost w0: Walk<F>)
    returns (queue: seq<F>, parents: map<F, F>, seen: set<F>, paths: map<F, seq<F>>, ghost w: Walk<F>)
    requires queue0 != [] && Collecting(scan, types, seed, w0, queue0, parents0, seen0, paths0)
    ensures Collecting(scan, types, seed, w, queue, parents, seen, paths)
    ensures Universe(scan, seed) - seen < Universe(scan, seed) - seen0 || (seen == seen0 && |queue| < |queue0|)
  {
    queue, parents, seen, paths, w := queue0, parents0, seen0, paths0, w0;
    var cur := queue[0];
    if cur in seen {
      DropHead(scan, types, seed, w, queue, parents, seen);
      queue, w := queue[1..], Rest(w);
      return;
    }
    var path;
    path, queue, parents, w := VisitFile(scan, seed, types, queue, parents, seen, w);
    WitnessAdded(scan, types, seed, paths, seen, cur, path);
    seen := seen + {cur};
    paths := paths[cur := path];
  }

  /** Finds every file that can be reached from the seed, and a shortest simple path to each. */
  method ReachablePathsFromSeed<F(==, !new)>(scan: Scan<F>, seed: F, types: bool) returns (paths: map<F, seq<F>>)
    ensures forall f :: f in paths <==> Reachable(scan, types, seed, f)
    ensures forall f :: f in paths ==> Witness(scan, types, seed, f) == Some(paths[f])
  {
    var queue, parents, seen := [seed], map[], {};
    paths := map[];
    ghost var w := Start(seed);
    StartWalk(scan, types, seed);
    while queue != []
      invariant Collecting(scan, types, seed, w, queue, parents, seen, paths)
      decreases Universe(scan, seed) - seen, |queue|
    {
      queue, parents, seen, paths, w := CollectNext(scan, seed, types, queue, parents, seen, paths, w);
    }
    WalkDone(scan, types, seed, w, parents, seen);
  }
}
