/** The second copy of the walk: explaining how a target reaches one file. */
module Explain {
  import opened Orders
  import opened Routes
  import opened ImportWalks
  import opened WalkOrder
  import opened Boundary
  import opened TargetCheck

  /** Queues what the `k`th import leads to; the first finder becomes the parent, even of the entry. */
  method FollowImportOf<F(==, !new)>(scan: Scan<F>, entry: F, cur: F, imports: seq<Import<F>>, k: nat,
                                     queue0: seq<F>, parents0: map<F, F>, ghost w0: Walk<F>)
    returns (queue: seq<F>, parents: map<F, F>, ghost w: Walk<F>)
    requires imports == Imports(scan, cur) && k < |imports|
    requires Scanning(scan, false, entry, w0, cur, k) && Holds(w0, queue0, parents0, w0.seen)
    ensures Scanning(scan, false, entry, w, cur, k + 1) && Holds(w, queue, parents, w0.seen)
  {
    queue, parents, w := queue0, parents0, w0;
    var imp := imports[k];
    if !imp.kind.Runtime? || !imp.specifier.Relative? {
      SkipImport(scan, false, entry, w, cur, k);
      return;
    }
    if imp.specifier.resolved.None? {
      SkipImport(scan, false, entry, w, cur, k);
      return;
    }
    var next := imp.specifier.resolved.value;
    if next !in parents {
      parents := parents[next := cur];
    }
    assert parents - {next} == w.parents - {next};
    FollowImport(scan, false, entry, w, parents, cur, k, next);
    queue, w := queue + [next], Pushed(w, parents, cur, k, next);
  }

  method FollowImportsOf<F(==, !new)>(scan: Scan<F>, entry: F, cur: F, queue0: seq<F>, parents0: map<F, F>,
                                      ghost w0: Walk<F>)
    returns (queue: seq<F>, parents: map<F, F>, ghost w: Walk<F>)
    requires Scanning(scan, false, entry, w0, cur, 0) && Holds(w0, queue0, parents0, w0.seen)
    ensures Inv(scan, false, entry, w) && Holds(w, queue, parents, w0.seen)
  {
    queue, parents, w := queue0, parents0, w0;
    var imports := Imports(scan, cur);
    for k := 0 to |imports|
      invariant Scanning(scan, false, entry, w, cur, k) && Holds(w, queue, parents, w0.seen)
    {
      queue, parents, w := FollowImportOf(scan, entry, cur, imports, k, queue, parents, w);
    }
    EndScan(scan, false, entry, w, cur);
  }

  ghost predicate Searching<F(!new)>(scan: Scan<F>, entry: F, w: Walk<F>, queue: seq<F>, parents: map<F, F>,
                                     seen: set<F>) {
    Inv(scan, false, entry, w) && Holds(w, queue, parents, seen)
  }

  method SearchNext<F(==, !new)>(scan: Scan<F>, entry: F, target: F, queue0: seq<F>, parents0: map<F, F>,
                                 seen0: set<F>, ghost w0: Walk<F>)
    returns (found: Option<seq<F>>, queue: seq<F>, parents: map<F, F>, seen: set<F>, ghost w: Walk<F>)
    requires queue0 != [] && Searching(scan, entry, w0, queue0, parents0, seen0) && target !in seen0
    ensures found.Some? ==> found == Witness(scan, false, entry, target)
    ensures found.None? ==> Searching(scan, entry, w, queue, parents, seen) && target !in seen
    ensures found.None? ==>
              || Universe(scan, entry) - seen < Universe(scan, entry) - seen0
              || (seen == seen0 && |queue| < |queue0|)
  {
    found, queue, parents, seen, w := None, queue0, parents0, seen0, w0;
    var cur := queue[0];
    if cur in seen {
      DropHead(scan, false, entry, w, queue, parents, seen);
      queue, w := queue[1..], Rest(w);
      return;
    }
    ghost var path := HeadOpens(scan, false, entry, w);
    if cur == target {
      var files := BuildFilePath(parents, entry, target, path);
      found := Some(files);
      return;
    }
    FewerLeft(Universe(scan, entry), seen, cur);
    queue, parents, w := FollowImportsOf(scan, entry, cur, queue[1..], parents, Opened(w));
    seen := seen + {cur};
  }

  /** Finds a path to the target exactly when run-time imports reach it, and then the same path as the check. */
  method FirstPathTo<F(==, !new)>(scan: Scan<F>, entry: F, target: F) returns (found: Option<seq<F>>)
    ensures found.Some? <==> Reachable(scan, false, entry, target)
    ensures found == Witness(scan, false, entry, target)
  {
    WitnessMeaning(scan, false, entry, target);
    var queue, parents, seen := [entry], map[], {};
    ghost var w := Start(entry);
    StartWalk(scan, false, entry);
    while queue != []
      invariant Searching(scan, entry, w, queue, parents, seen) && target !in seen
      decreases Universe(scan, entry) - seen, |queue|
    {
      found, queue, parents, seen, w := SearchNext(scan, entry, target, queue, parents, seen, w);
      if found.Some? {
        return;
      }
    }
    WalkDone(scan, false, entry, w, parents, seen);
    found := None;
  }

  /** The explanation of a file and the check of the target agree, on every graph: an explanation is found
  exactly for the files the check scans, and it is the path in each report the check makes there. */
  lemma ExplainAgreesWithCheck<F(!new)>(scan: Scan<F>, problems: F -> seq<string>, entry: F, order: seq<F>,
                                        file: F, found: Option<seq<F>>)
    requires ScanOrder(scan, false, entry, order)
    requires found == Witness(scan, false, entry, file)
    ensures found.Some? <==> file in order
    ensures forall r :: r in TargetReports(scan, problems, entry, order) && r.Uses? && r.file == file ==>
                          found.Some? && r.path == Stops(found.value) + [Package(r.package)]
  {
    WitnessMeaning(scan, false, entry, file);
    forall r | r in TargetReports(scan, problems, entry, order) && r.Uses? && r.file == file
      ensures found.Some? && r.path == Stops(found.value) + [Package(r.package)]
    {
      ReportsAreExact(scan, problems, entry, order, r);
    }
  }
}
