/** The boundary check of one target: a walk over run-time imports that reports, in scan order,
what each file imports together with the path that reached the file. */
module TargetCheck {
  import opened Orders
  import opened Routes
  import opened Sequences
  import opened ImportWalks
  import opened WalkOrder
  import opened Boundary

  /** A step of a reported path: files, then the package they lead to. */
  datatype Stop<F> = File(file: F) | Package(name: string)

  /** `Uses` stands for the call that validates an external import, with the path handed to it. */
  datatype Report<F> =
    | Problem(file: F, message: string)
    | Unresolved(file: F, index: nat)
    | Uses(file: F, index: nat, package: string, path: seq<Stop<F>>)

  function Stops<F>(path: seq<F>): (stops: seq<Stop<F>>)
    ensures |stops| == |path| && forall i :: 0 <= i < |path| ==> stops[i] == File(path[i])
  {
    seq(|path|, i requires 0 <= i < |path| => File(path[i]))
  }

  function Problems<F>(file: F, messages: seq<string>): (out: seq<Report<F>>)
    ensures |out| == |messages| && forall i :: 0 <= i < |messages| ==> out[i] == Problem(file, messages[i])
  {
    seq(|messages|, i requires 0 <= i < |messages| => Problem(file, messages[i]))
  }

  // ---------------------------------------------------------------------
  // What a check should report.

  function ImportReports<F>(imp: Import<F>, file: F, i: nat, path: seq<F>): seq<Report<F>> {
    if !imp.kind.Runtime? then []
    else
      match imp.specifier
      case Relative(None) => [Unresolved(file, i)]
      case External(package) => [Uses(file, i, package, Stops(path) + [Package(package)])]
      case _ => []
  }

  function FileReports<F>(imports: seq<Import<F>>, file: F, path: seq<F>): seq<Report<F>> {
    if imports == [] then []
    else
      var n := |imports| - 1;
      FileReports(imports[..n], file, path) + ImportReports(imports[n], file, n, path)
  }

  ghost function PathOf<F(!new)>(scan: Scan<F>, entry: F, file: F): seq<F> {
    match Witness(scan, false, entry, file) case Some(path) => path case None => []
  }

  /** The problems and reports of one file, with its witness path. */
  ghost function ReportsOf<F(!new)>(scan: Scan<F>, problems: F -> seq<string>, entry: F, file: F): seq<Report<F>> {
    Problems(file, problems(file)) + FileReports(Imports(scan, file), file, PathOf(scan, entry, file))
  }

  /** The reports of the files in `order`, one file after the other. */
  ghost function TargetReports<F(!new)>(scan: Scan<F>, problems: F -> seq<string>, entry: F,
                                        order: seq<F>): seq<Report<F>> {
    Concat(Mapped(order, f => ReportsOf(scan, problems, entry, f)), |order|)
  }

  // ---------------------------------------------------------------------
  // The walk.

  /** Climbs from the file to the entry, in front of the package. */
  method BuildPath<F(==)>(parents: map<F, F>, entry: F, file: F, package: string, ghost path: seq<F>)
    returns (out: seq<Stop<F>>)
    requires Spells(parents, entry, file, path)
    ensures out == Stops(path) + [Package(package)]
  {
    out := [Package(package)];
    var cur := file;
    ghost var rest := path;
    while true
      invariant Spells(parents, entry, cur, rest)
      invariant Stops(path) + [Package(package)] == Stops(rest) + out
      decreases |rest|
    {
      assert Stops(rest) == Stops(rest[..|rest| - 1]) + [File(cur)];
      out := [File(cur)] + out;
      if cur == entry {
        break;
      }
      if cur !in parents {
        break;
      }
      rest := rest[..|rest| - 1];
      cur := parents[cur];
    }
  }

  /** While `cur` is scanned, its route stays the one that found it. */
  ghost predicate Steady<F(!new)>(scan: Scan<F>, entry: F, w: Walk<F>, cur: F, k: nat, route: Route) {
    Scanning(scan, false, entry, w, cur, k) && w.best[cur] == route
  }

  lemma SteadyPath<F(!new)>(scan: Scan<F>, entry: F, w: Walk<F>, cur: F, k: nat, route: Route)
    requires Steady(scan, entry, w, cur, k, route)
    ensures End(scan, false, entry, route).Some?
    ensures Spells(w.parents, entry, cur, Along(scan, false, entry, route))
  {
    assert FoundBy(scan, false, entry, w, cur);
    ParentsSpellPath(scan, false, entry, w, cur);
  }

  lemma SteadyFollow<F(!new)>(scan: Scan<F>, entry: F, w: Walk<F>, parents: map<F, F>, cur: F, k: nat, route: Route,
                              next: F)
    requires Steady(scan, entry, w, cur, k, route) && Target(scan, false, cur, k) == Some(next)
    requires parents == if next in w.parents then w.parents else w.parents[next := cur]
    ensures cur in w.best && Steady(scan, entry, Pushed(w, parents, cur, k, next), cur, k + 1, route)
  {
    assert parents - {next} == w.parents - {next};
    FollowImport(scan, false, entry, w, parents, cur, k, next);
  }

  lemma SteadySkip<F(!new)>(scan: Scan<F>, entry: F, w: Walk<F>, cur: F, k: nat, route: Route)
    requires Steady(scan, entry, w, cur, k, route) && k < |Imports(scan, cur)| && Target(scan, false, cur, k).None?
    ensures Steady(scan, entry, w, cur, k + 1, route)
  {
    SkipImport(scan, false, entry, w, cur, k);
  }

  method CheckImport<F(==, !new)>(scan: Scan<F>, entry: F, cur: F, imports: seq<Import<F>>, k: nat,
                                  out0: seq<Report<F>>,
                                  queue0: seq<F>, parents0: map<F, F>, ghost route: Route, ghost w0: Walk<F>)
    returns (out: seq<Report<F>>, queue: seq<F>, parents: map<F, F>, ghost w: Walk<F>)
    requires imports == Imports(scan, cur) && k < |imports|
    requires Steady(scan, entry, w0, cur, k, route) && Holds(w0, queue0, parents0, w0.seen)
    requires End(scan, false, entry, route).Some?
    ensures Steady(scan, entry, w, cur, k + 1, route) && Holds(w, queue, parents, w0.seen)
    ensures out == out0 + ImportReports(imports[k], cur, k, Along(scan, false, entry, route))
  {
    out, queue, parents, w := out0, queue0, parents0, w0;
    var imp := imports[k];
    if !imp.kind.Runtime? {
      SteadySkip(scan, entry, w, cur, k, route);
      return;
    }
    match imp.specifier
    case Relative(resolved) =>
      if resolved.None? {
        SteadySkip(scan, entry, w, cur, k, route);
        out := out + [Unresolved(cur, k)];
        return;
      }
      var next := resolved.value;
      if next !in parents {
        parents := parents[next := cur];
      }
      SteadyFollow(scan, entry, w, parents, cur, k, route, next);
      queue, w := queue + [next], Pushed(w, parents, cur, k, next);
    case External(package) =>
      SteadySkip(scan, entry, w, cur, k, route);
      SteadyPath(scan, entry, w, cur, k + 1, route);
      var path := BuildPath(parents, entry, cur, package, Along(scan, false, entry, route));
      out := out + [Uses(cur, k, package, path)];
    case Builtin =>
      SteadySkip(scan, entry, w, cur, k, route);
    case UnknownSpecifier =>
      SteadySkip(scan, entry, w, cur, k, route);
  }

  method CheckImports<F(==, !new)>(scan: Scan<F>, entry: F, cur: F, queue0: seq<F>, parents0: map<F, F>,
                                   ghost route: Route, ghost w0: Walk<F>)
    returns (out: seq<Report<F>>, queue: seq<F>, parents: map<F, F>, ghost w: Walk<F>)
    requires Steady(scan, entry, w0, cur, 0, route) && Holds(w0, queue0, parents0, w0.seen)
    requires End(scan, false, entry, route).Some?
    ensures Inv(scan, false, entry, w) && Holds(w, queue, parents, w0.seen)
    ensures out == FileReports(Imports(scan, cur), cur, Along(scan, false, entry, route))
  {
    out, queue, parents, w := [], queue0, parents0, w0;
    var imports := Imports(scan, cur);
    for k := 0 to |imports|
      invariant Steady(scan, entry, w, cur, k, route) && Holds(w, queue, parents, w0.seen)
      invariant out == FileReports(imports[..k], cur, Along(scan, false, entry, route))
    {
      out, queue, parents, w := CheckImport(scan, entry, cur, imports, k, out, queue, parents, route, w);
      assert imports[..k + 1][..k] == imports[..k];
    }
    EndScan(scan, false, entry, w, cur);
    assert imports[..|imports|] == imports;
  }

  // ---------------------------------------------------------------------
  // Scan order.

  /** The scanned files, in the order in which they were scanned. */
  ghost predicate Logged<F(!new)>(scan: Scan<F>, entry: F, seen: set<F>, order: seq<F>, routes: seq<Route>) {
    Listed(scan, false, entry, order, routes) && forall f :: f in order <==> f in seen
  }

  lemma LoggedBefore<F(!new)>(scan: Scan<F>, entry: F, w: Walk<F>, f: F, route: Route)
    requires Tree(scan, false, entry, w) && Queued(w) && w.queue != [] && w.queue[0] !in w.seen
    requires f in w.seen && Least(scan, false, entry, f, route)
    ensures w.queue[0] in w.best && Before(route, w.best[w.queue[0]])
  {
    SeenBefore(scan, false, entry, w, f);
    assert FoundBy(scan, false, entry, w, f);
    if route != w.best[f] {
      BeforeTransitive(route, w.best[f], w.best[w.queue[0]]);
    }
  }

  lemma LogNext<F(!new)>(scan: Scan<F>, entry: F, w: Walk<F>, order: seq<F>, routes: seq<Route>)
    requires Inv(scan, false, entry, w) && w.queue != [] && w.queue[0] !in w.seen
    requires Logged(scan, entry, w.seen, order, routes)
    ensures w.queue[0] in w.best
    ensures Logged(scan, entry, w.seen + {w.queue[0]}, order + [w.queue[0]], routes + [w.best[w.queue[0]]])
  {
    var cur := w.queue[0];
    HeadIsLeast(scan, false, entry, w);
    forall i | 0 <= i < |routes| ensures Before(routes[i], w.best[cur]) {
      assert order[i] in order;
      LoggedBefore(scan, entry, w, order[i], routes[i]);
    }
    ListedNext(scan, entry, order, routes, cur, w.best[cur]);
  }

  lemma ListedNext<F(!new)>(scan: Scan<F>, entry: F, order: seq<F>, routes: seq<Route>, f: F, route: Route)
    requires Listed(scan, false, entry, order, routes) && Least(scan, false, entry, f, route)
    requires forall i :: 0 <= i < |routes| ==> Before(routes[i], route)
    ensures Listed(scan, false, entry, order + [f], routes + [route])
  {}

  lemma PathOfLeast<F(!new)>(scan: Scan<F>, entry: F, f: F, route: Route)
    requires Least(scan, false, entry, f, route)
    ensures PathOf(scan, entry, f) == Along(scan, false, entry, route)
  {
    assert LeastPath(scan, false, entry, f, Along(scan, false, entry, route));
    WitnessMeaning(scan, false, entry, f);
  }

  lemma ReportsNext<F(!new)>(scan: Scan<F>, problems: F -> seq<string>, entry: F, order: seq<F>, f: F)
    ensures TargetReports(scan, problems, entry, order + [f]) ==
            TargetReports(scan, problems, entry, order) + ReportsOf(scan, problems, entry, f)
  {
    ConcatNext(order, f, g => ReportsOf(scan, problems, entry, g));
  }

  lemma OpenHead<F(!new)>(scan: Scan<F>, entry: F, w: Walk<F>) returns (route: Route)
    requires Inv(scan, false, entry, w) && w.queue != [] && w.queue[0] !in w.seen
    ensures w.queue[0] in w.best && w.best[w.queue[0]] == route
    ensures Least(scan, false, entry, w.queue[0], route)
    ensures Steady(scan, entry, Opened(w), w.queue[0], 0, route)
    ensures w.queue[0] in Universe(scan, entry)
  {
    HeadIsLeast(scan, false, entry, w);
    BeginScan(scan, false, entry, w);
    route := w.best[w.queue[0]];
  }

  ghost predicate Checking<F(!new)>(scan: Scan<F>, problems: F -> seq<string>, entry: F, w: Walk<F>, queue: seq<F>,
                                    parents: map<F, F>, seen: set<F>, out: seq<Report<F>>,
                                    order: seq<F>, routes: seq<Route>) {
    && Inv(scan, false, entry, w) && Holds(w, queue, parents, seen)
    && Logged(scan, entry, seen, order, routes) && out == TargetReports(scan, problems, entry, order)
  }

  method CheckFile<F(==, !new)>(scan: Scan<F>, problems: F -> seq<string>, entry: F, queue0: seq<F>, parents0: map<F,
                                F>,
                                seen: set<F>, out0: seq<Report<F>>, ghost order: seq<F>, ghost routes: seq<Route>,
                                    ghost w0: Walk<F>)
    returns (queue: seq<F>, parents: map<F, F>, out: seq<Report<F>>, ghost route: Route, ghost w: Walk<F>)
    requires queue0 != [] && queue0[0] !in seen
    requires Checking(scan, problems, entry, w0, queue0, parents0, seen, out0, order, routes)
    ensures Checking(scan, problems, entry, w, queue, parents, seen + {queue0[0]}, out, order + [queue0[0]],
                     routes + [route])
    ensures Universe(scan, entry) - (seen + {queue0[0]}) < Universe(scan, entry) - seen
  {
    var cur := queue0[0];
    route := OpenHead(scan, entry, w0);
    LogNext(scan, entry, w0, order, routes);
    ReportsNext(scan, problems, entry, order, cur);
    PathOfLeast(scan, entry, cur, route);
    FewerLeft(Universe(scan, entry), seen, cur);
    out := Problems(cur, problems(cur));
    var reports;
    reports, queue, parents, w := CheckImports(scan, entry, cur, queue0[1..], parents0, route, Opened(w0));
    out := out0 + (out + reports);
  }

  method CheckNext<F(==, !new)>(scan: Scan<F>, problems: F -> seq<string>, entry: F, queue0: seq<F>, parents0: map<F,
                                F>,
                                seen0: set<F>, out0: seq<Report<F>>, ghost order0: seq<F>, ghost routes0: seq<Route>,
                                    ghost w0: Walk<F>)
    returns (queue: seq<F>, parents: map<F, F>, seen: set<F>, out: seq<Report<F>>,
             ghost order: seq<F>, ghost routes: seq<Route>, ghost w: Walk<F>)
    requires queue0 != [] && Checking(scan, problems, entry, w0, queue0, parents0, seen0, out0, order0, routes0)
    ensures Checking(scan, problems, entry, w, queue, parents, seen, out, order, routes)
    ensures Universe(scan, entry) - seen < Universe(scan, entry) - seen0 || (seen == seen0 && |queue| < |queue0|)
  {
    queue, parents, seen, out, order, routes, w := queue0, parents0, seen0, out0, order0, routes0, w0;
    var cur := queue[0];
    if cur in seen {
      DropHead(scan, false, entry, w, queue, parents, seen);
      queue, w := queue[1..], Rest(w);
      return;
    }
    ghost var route;
    queue, parents, out, route, w := CheckFile(scan, problems, entry, queue, parents, seen, out, order, routes, w);
    seen, order, routes := seen + {cur}, order + [cur], routes + [route];
  }

  /** Scans exactly the files that run-time imports reach from the entry, in the order of their least
  routes, and reports on each. */
  method CheckTarget<F(==, !new)>(scan: Scan<F>, problems: F -> seq<string>, entry: F) returns (out: seq<Report<F>>)
    ensures forall order :: ScanOrder(scan, false, entry, order) ==> out == TargetReports(scan, problems, entry, order)
    ensures exists order :: ScanOrder(scan, false, entry, order)
  {
    var queue, parents, seen := [entry], map[], {};
    out := [];
    ghost var order: seq<F>, routes: seq<Route> := [], [];
    ghost var w := Start(entry);
    StartWalk(scan, false, entry);
    while queue != []
      invariant Checking(scan, problems, entry, w, queue, parents, seen, out, order, routes)
      decreases Universe(scan, entry) - seen, |queue|
    {
      queue, parents, seen, out, order, routes, w :=
        CheckNext(scan, problems, entry, queue, parents, seen, out, order, routes, w);
    }
    CheckDone(scan, problems, entry, w, parents, seen, out, order, routes);
  }

  lemma CheckDone<F(!new)>(scan: Scan<F>, problems: F -> seq<string>, entry: F, w: Walk<F>, parents: map<F, F>,
                           seen: set<F>,
                           out: seq<Report<F>>, order: seq<F>, routes: seq<Route>)
    requires Checking(scan, problems, entry, w, [], parents, seen, out, order, routes)
    ensures exists other :: ScanOrder(scan, false, entry, other)
    ensures forall other :: ScanOrder(scan, false, entry, other) ==> out == TargetReports(scan, problems, entry, other)
  {
    WalkDone(scan, false, entry, w, parents, seen);
    assert ScanOrder(scan, false, entry, order);
    forall other | ScanOrder(scan, false, entry, other) ensures other == order {
      ScanOrderUnique(scan, false, entry, order, other);
    }
  }

  // ---------------------------------------------------------------------
  // What the reports mean.

  lemma InTargetReports<F(!new)>(scan: Scan<F>, problems: F -> seq<string>, entry: F, order: seq<F>, r: Report<F>)
    ensures r in TargetReports(scan, problems, entry, order) <==>
            exists f :: f in order && r in ReportsOf(scan, problems, entry, f)
  {
    var parts := Mapped(order, f => ReportsOf(scan, problems, entry, f));
    ConcatMember(parts, |order|, r);
    if f :| f in order && r in ReportsOf(scan, problems, entry, f) {
      var p :| 0 <= p < |order| && order[p] == f;
      assert r in parts[p];
    }
  }

  /** What the report says was found in this file. */
  predicate Found<F(==)>(imports: seq<Import<F>>, file: F, path: seq<F>, r: Report<F>) {
    match r
    case Uses(f, i, package, p) =>
      f == file && i < |imports| && imports[i] == Import(Runtime, Specifier.External(package))
      && p == Stops(path) + [Package(package)]
    case Unresolved(f, i) => f == file && i < |imports| && imports[i] == Import(Runtime, Relative(None))
    case Problem(_, _) => false
  }

  lemma {:induction false} InFileReports<F>(imports: seq<Import<F>>, file: F, path: seq<F>, r: Report<F>)
    ensures r in FileReports(imports, file, path) <==> Found(imports, file, path, r)
  {
    if imports != [] {
      InFileReports(imports[..|imports| - 1], file, path, r);
    }
  }

  /** A check validates exactly the external run-time imports of reachable files, each with the witness
  path of its file, and reports exactly their run-time imports that do not resolve, and their problems. */
  lemma ReportsAreExact<F(!new)>(scan: Scan<F>, problems: F -> seq<string>, entry: F, order: seq<F>, r: Report<F>)
    requires ScanOrder(scan, false, entry, order)
    ensures r in TargetReports(scan, problems, entry, order)
            <==> Reachable(scan, false, entry, r.file) &&
                 if r.Problem? then r.message in problems(r.file)
                 else Found(Imports(scan, r.file), r.file, PathOf(scan, entry, r.file), r)
  {
    InTargetReports(scan, problems, entry, order, r);
    forall f ensures r in ReportsOf(scan, problems, entry, f) <==>
                     f == r.file && if r.Problem? then r.message in problems(f)
                                    else Found(Imports(scan, f), f, PathOf(scan, entry, f), r) {
      InFileReports(Imports(scan, f), f, PathOf(scan, entry, f), r);
      InProblems(f, problems(f), r);
    }
  }

  lemma InProblems<F>(file: F, messages: seq<string>, r: Report<F>)
    ensures r in Problems(file, messages) <==> r.Problem? && r.file == file && r.message in messages
  {
    if r.Problem? && r.file == file && r.message in messages {
      var i :| 0 <= i < |messages| && messages[i] == r.message;
      assert Problems(file, messages)[i] == r;
    }
  }

  // ---------------------------------------------------------------------
  // The order of the reports.

  /** The position of a file; past the end if it is not there. */
  function PlaceIn<F(==)>(order: seq<F>, file: F): (i: nat)
    ensures if file in order then i < |order| && order[i] == file && file !in order[..i] else i == |order|
  {
    if order == [] then 0
    else if order[0] == file then 0
    else
      var i := PlaceIn(order[1..], file);
      assert order[..i + 1] == [order[0]] + order[1..][..i];
      i + 1
  }

  /** Reports go by file, in scan order; a file's problems come first, and then its imports by position. */
  predicate ReportedBefore<F(==)>(order: seq<F>, a: Report<F>, b: Report<F>) {
    || PlaceIn(order, a.file) < PlaceIn(order, b.file)
    || (a.file == b.file && (a.Problem? || (!b.Problem? && a.index < b.index)))
  }

  lemma {:induction false} FileReportsInOrder<F(!new)>(order: seq<F>, imports: seq<Import<F>>, file: F, path: seq<F>)
    ensures Increasing(FileReports(imports, file, path), (a, b) => ReportedBefore(order, a, b))
  {
    if imports != [] {
      var n := |imports| - 1;
      var before := (a, b) => ReportedBefore(order, a, b);
      var init, last := FileReports(imports[..n], file, path), ImportReports(imports[n], file, n, path);
      FileReportsInOrder(order, imports[..n], file, path);
      forall x, y | x in init && y in last ensures before(x, y) {
        InFileReports(imports[..n], file, path, x);
      }
      IncreasingConcat(init, last, before);
    }
  }

  lemma ReportsOfFileInOrder<F(!new)>(scan: Scan<F>, problems: F -> seq<string>, entry: F, order: seq<F>, f: F)
    ensures Increasing(ReportsOf(scan, problems, entry, f), (a, b) => ReportedBefore(order, a, b))
    ensures forall r :: r in ReportsOf(scan, problems, entry, f) ==> r.file == f
  {
    var before := (a, b) => ReportedBefore(order, a, b);
    var first, rest := Problems(f, problems(f)), FileReports(Imports(scan, f), f, PathOf(scan, entry, f));
    FileReportsInOrder(order, Imports(scan, f), f, PathOf(scan, entry, f));
    forall x | x in rest ensures x.file == f && !x.Problem? {
      InFileReports(Imports(scan, f), f, PathOf(scan, entry, f), x);
    }
    assert Increasing(first, before);
    IncreasingConcat(first, rest, before);
  }

  /** The reports of a check are in that order. */
  lemma ReportsInOrder<F(!new)>(scan: Scan<F>, problems: F -> seq<string>, entry: F, order: seq<F>)
    requires ScanOrder(scan, false, entry, order)
    ensures Increasing(TargetReports(scan, problems, entry, order), (a, b) => ReportedBefore(order, a, b))
  {
    var before, place := (a, b) => ReportedBefore(order, a, b), (r: Report<F>) => PlaceIn(order, r.file);
    var parts := Mapped(order, f => ReportsOf(scan, problems, entry, f));
    ScanOrderDistinct(scan, false, entry, order);
    forall p | 0 <= p < |order|
      ensures Increasing(parts[p], before) && forall r :: r in parts[p] ==> place(r) == p
    {
      ReportsOfFileInOrder(scan, problems, entry, order, order[p]);
      assert order[p] in order;
    }
    PartsIncrease(parts, |parts|, place, before);
  }
}
