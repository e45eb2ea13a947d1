/** Ordering the build targets of a package: select the dependency closure of the request,
    then emit it depth first. */
module BuildOrder {
  import opened Orders
  import opened Sequences
  import opened Dependencies

  datatype Target<N> = Target(name: N, dependsOn: seq<N>)

  datatype OrderError<N> = UnknownDependency(name: N) | DependencyCycle(name: N)

  datatype Outcome<N> = Ordered(targets: seq<Target<N>>) | Failed(error: OrderError<N>)

  function NameOf<N>(t: Target<N>): N {
    t.name
  }

  function Names<N>(ts: seq<Target<N>>): seq<N> {
    Mapped(ts, NameOf<N>)
  }

  lemma NamesAppend<N>(ts: seq<Target<N>>, t: Target<N>)
    ensures Names(ts + [t]) == Names(ts) + [t.name]
  {
    MappedAppend(ts, [t], NameOf<N>);
  }

  /** The targets by name; a repeated name keeps its last declaration. */
  function ByName<N(==,!new)>(targets: seq<Target<N>>): (m: map<N, Target<N>>)
    ensures forall n :: n in m <==> exists i :: 0 <= i < |targets| && targets[i].name == n
    ensures forall n :: n in m ==> m[n].name == n && m[n] in targets
  {
    if targets == [] then map[]
    else
      var last := targets[|targets| - 1];
      var rest := ByName(targets[..|targets| - 1]);
      rest[last.name := last]
  }

  /** The target is listed at `i`, and none of its name is listed after it. */
  ghost predicate LastNamedAt<N(!new)>(targets: seq<Target<N>>, t: Target<N>, i: nat) {
    i < |targets| && targets[i] == t && forall j :: i < j < |targets| ==> targets[j].name != t.name
  }

  lemma LastNamedStill<N(!new)>(targets: seq<Target<N>>, t: Target<N>, i: nat, n: nat)
    requires |targets| == n + 1 && LastNamedAt(targets[..n], t, i) && targets[n].name != t.name
    ensures LastNamedAt(targets, t, i)
  {
    forall j | i < j < |targets| ensures targets[j].name != t.name {
      assert j < n ==> targets[..n][j] == targets[j];
    }
  }

  /** A name stands for the last target that has it. */
  lemma {:induction false} LastNameCounts<N(!new)>(targets: seq<Target<N>>, name: N) returns (i: nat)
    requires name in ByName(targets)
    ensures LastNamedAt(targets, ByName(targets)[name], i) && targets[i].name == name
  {
    var n := |targets| - 1;
    if targets[n].name == name {
      i := n;
    } else {
      i := LastNameCounts(targets[..n], name);
      LastNamedStill(targets, ByName(targets[..n])[name], i, n);
    }
  }

  function GraphOf<N(==)>(m: map<N, Target<N>>): Graph<N> {
    map n | n in m :: m[n].dependsOn
  }

  /** What the request names: one target, or all of them. */
  ghost predicate IsRoot<N(!new)>(targets: seq<Target<N>>, request: Option<N>, n: N) {
    match request
    case Some(name) => n == name
    case None => exists i :: 0 <= i < |targets| && targets[i].name == n
  }

  /** What the request reaches, declared or not. */
  ghost predicate InClosure<N(!new)>(targets: seq<Target<N>>, request: Option<N>, n: N) {
    exists root :: IsRoot(targets, request, root) && Reaches(GraphOf(ByName(targets)), root, n)
  }

  /** Reached from one of the first `k` listed targets that belong to the closure. */
  ghost predicate ReachedFromFirst<N(!new)>(targets: seq<Target<N>>, request: Option<N>, k: nat, n: N)
    requires k <= |targets|
  {
    exists i :: 0 <= i < k && InClosure(targets, request, targets[i].name) &&
                Reaches(GraphOf(ByName(targets)), targets[i].name, n)
  }

  /** The first `m` emitted are exactly what the first `k` listed targets need. */
  ghost predicate Completes<N(!new)>(targets: seq<Target<N>>, request: Option<N>, order: seq<Target<N>>, k: nat,
                                     m: nat) {
    k <= |targets| && m <= |order| &&
    forall n :: n in Names(order[..m]) <==> ReachedFromFirst(targets, request, k, n)
  }

  /** `cuts[k]` is how many had been emitted when the first `k` listed targets were done. */
  ghost predicate Listed<N(!new)>(targets: seq<Target<N>>, request: Option<N>, order: seq<Target<N>>, cuts: seq<nat>) {
    forall k :: 0 <= k < |cuts| ==> Completes(targets, request, order, k, cuts[k])
  }

  /** The listed targets that belong to the closure, among the first `k`. */
  ghost function RootsOf<N(!new)>(targets: seq<Target<N>>, request: Option<N>, k: nat): seq<N>
    requires k <= |targets|
  {
    if k == 0 then []
    else
      var name := targets[k - 1].name;
      RootsOf(targets, request, k - 1) + if InClosure(targets, request, name) then [name] else []
  }

  /** The closure of the request, each target once and after its dependencies; what the first listed targets need
      comes before everything else, for however many of them; and the order is that of writing out each listed
      target of the closure after its dependencies in turn, and keeping first occurrences. */
  ghost predicate IsBuildOrder<N(!new)>(targets: seq<Target<N>>, request: Option<N>, order: seq<Target<N>>) {
    var byName := ByName(targets);
    && (forall n :: n in Names(order) <==> InClosure(targets, request, n))
    && (forall i :: 0 <= i < |order| ==> order[i].name in byName && order[i] == byName[order[i].name])
    && NoRepeats(Names(order)) && DependenciesFirst(GraphOf(byName), Names(order))
    && (exists cuts :: |cuts| == |targets| + 1 && Listed(targets, request, order, cuts))
    && Names(order) == Firsts(Expansions(GraphOf(byName), RootsOf(targets, request, |targets|), |order|))
  }

  /** The records of the emission: finished names are those emitted, each once and after its
      dependencies; the names in progress are the chain of calls. */
  datatype Progress<!N> = Progress(byName: map<N, Target<N>>, selected: set<N>, state: map<N, int>,
                                   ordered: seq<Target<N>>)

  ghost predicate Emitting<N(!new)>(p: Progress<N>, chain: seq<N>) {
    var g := GraphOf(p.byName);
    && (forall n :: n in p.byName ==> p.byName[n].name == n)
    && p.selected <= p.byName.Keys && p.state.Keys <= p.selected
    && (forall n, d :: n in p.selected && d in Deps(g, n) ==> d in p.selected)
    && (forall n :: n in p.state ==> p.state[n] == 1 || p.state[n] == 2)
    && (forall n :: n in p.state && p.state[n] == 1 <==> n in chain)
    && (forall n :: n in p.state && p.state[n] == 2 <==> n in Names(p.ordered))
    && (forall i :: 0 <= i < |p.ordered| ==>
          p.ordered[i].name in p.byName && p.ordered[i] == p.byName[p.ordered[i].name])
    && NoRepeats(Names(p.ordered)) && DependenciesFirst(g, Names(p.ordered))
  }

  lemma BeginVisit<N(!new)>(p: Progress<N>, chain: seq<N>, name: N)
    requires Emitting(p, chain) && name in p.selected && name !in p.state
    ensures Emitting(p.(state := p.state[name := 1]), chain + [name])
  {
    var q := p.(state := p.state[name := 1]);
    assert name !in Names(p.ordered) && name !in chain;
    forall n ensures n in q.state && q.state[n] == 1 <==> n in chain + [name] {}
    forall n ensures n in q.state && q.state[n] == 2 <==> n in Names(q.ordered) {}
  }

  lemma AppendLast<N(!new)>(g: Graph<N>, order: seq<N>, name: N)
    requires NoRepeats(order) && DependenciesFirst(g, order) && name !in order
    requires forall d :: d in Deps(g, name) ==> d in order
    ensures NoRepeats(order + [name]) && DependenciesFirst(g, order + [name])
  {
    var longer := order + [name];
    forall i, d | 0 <= i < |longer| && d in Deps(g, longer[i]) ensures d in longer[..i] {
      assert longer[..i] == order[..i];
      assert order[..|order|] == order;
    }
  }

  lemma FinishVisit<N(!new)>(p: Progress<N>, chain: seq<N>, name: N)
    requires Emitting(p, chain + [name]) && name !in chain && name in p.byName
    requires forall d :: d in Deps(GraphOf(p.byName), name) ==> d in Names(p.ordered)
    ensures Emitting(p.(state := p.state[name := 2], ordered := p.ordered + [p.byName[name]]), chain)
  {
    var q := p.(state := p.state[name := 2], ordered := p.ordered + [p.byName[name]]);
    assert name in chain + [name];
    NamesAppend(p.ordered, p.byName[name]);
    AppendLast(GraphOf(p.byName), Names(p.ordered), name);
    forall n ensures n in q.state && q.state[n] == 1 <==> n in chain {
      assert n != name ==> (n in chain + [name] <==> n in chain);
    }
    forall n ensures n in q.state && q.state[n] == 2 <==> n in Names(q.ordered) {}
  }

  lemma NamesGrow<N>(a: seq<Target<N>>, b: seq<Target<N>>)
    requires a <= b
    ensures forall n :: n in Names(a) ==> n in Names(b)
  {
    forall i | 0 <= i < |a| ensures Names(a)[i] in Names(b) {
      assert Names(b)[i] == Names(a)[i];
    }
  }

  /** `q` comes after `p`: nothing is forgotten, and what was emitted in between is reachable from `name`. */
  ghost predicate After<N(!new)>(p: Progress<N>, q: Progress<N>, name: N) {
    && q.byName == p.byName && q.selected == p.selected
    && p.state.Keys <= q.state.Keys && p.ordered <= q.ordered
    && forall i :: |p.ordered| <= i < |q.ordered| ==> Reaches(GraphOf(p.byName), name, q.ordered[i].name)
  }

  /** The visit of `name` that began in `p` has dealt with its first `k` dependencies. */
  ghost predicate Visiting<N(!new)>(p: Progress<N>, q: Progress<N>, chain: seq<N>, name: N, k: nat) {
    && After(p, q, name) && Emitting(q, chain + [name])
    && name in q.state && name in q.byName
    && k <= |q.byName[name].dependsOn|
    && ExpandsAll(GraphOf(p.byName), Names(p.ordered), q.byName[name].dependsOn[..k], Names(q.ordered))
    && forall j :: 0 <= j < k ==> q.byName[name].dependsOn[j] in Names(q.ordered)
  }

  function Begun<N>(p: Progress<N>, name: N): Progress<N> {
    p.(state := p.state[name := 1])
  }

  function Finished<N>(p: Progress<N>, name: N): Progress<N>
    requires name in p.byName
  {
    p.(state := p.state[name := 2], ordered := p.ordered + [p.byName[name]])
  }

  lemma EnterVisit<N(!new)>(p: Progress<N>, chain: seq<N>, name: N)
    requires Emitting(p, chain) && name in p.selected && name !in p.state
    ensures Visiting(p, Begun(p, name), chain, name, 0)
  {
    BeginVisit(p, chain, name);
    ExpandsNothing(GraphOf(p.byName), Names(p.ordered));
  }

  lemma LeaveVisit<N(!new)>(p: Progress<N>, q: Progress<N>, chain: seq<N>, name: N)
    requires name in q.byName && Visiting(p, q, chain, name, |q.byName[name].dependsOn|) && name !in chain
    ensures After(p, Finished(q, name), name) && Emitting(Finished(q, name), chain)
    ensures name in Names(Finished(q, name).ordered)
    ensures Expands(GraphOf(p.byName), Names(p.ordered), name, Names(Finished(q, name).ordered))
  {
    var g := GraphOf(p.byName);
    assert q.byName[name].dependsOn[..|q.byName[name].dependsOn|] == Deps(g, name);
    assert name !in Names(q.ordered) by {
      assert name in chain + [name];
    }
    ExpandsNode(g, Names(p.ordered), name, Names(q.ordered));
    FinishVisit(q, chain, name);
    NamesAppend(q.ordered, q.byName[name]);
    ReachesSelf(g, name);
    assert Names(q.ordered + [q.byName[name]])[|q.ordered|] == name;
  }

  lemma NextDependency<N(!new)>(p: Progress<N>, q: Progress<N>, r: Progress<N>, chain: seq<N>, name: N, k: nat)
    requires Visiting(p, q, chain, name, k) && k < |q.byName[name].dependsOn|
    requires var d := q.byName[name].dependsOn[k];
             && After(q, r, d) && Emitting(r, chain + [name]) && d in Names(r.ordered)
             && Expands(GraphOf(p.byName), Names(q.ordered), d, Names(r.ordered))
    ensures Visiting(p, r, chain, name, k + 1)
  {
    var d, dependencies := q.byName[name].dependsOn[k], q.byName[name].dependsOn;
    assert dependencies[..k + 1] == dependencies[..k] + [d];
    ExpandsNext(GraphOf(p.byName), Names(p.ordered), dependencies[..k], Names(q.ordered), d, Names(r.ordered));
    NamesGrow(q.ordered, r.ordered);
    forall i | |p.ordered| <= i < |r.ordered| ensures Reaches(GraphOf(p.byName), name, r.ordered[i].name) {
      if i >= |q.ordered| {
        ReachesThrough(GraphOf(p.byName), name, d, r.ordered[i].name);
      }
    }
  }

  /** The first `i` listed targets, with all they reach and nothing else, make up `chosen`. */
  ghost predicate SelectedFirst<N(!new)>(targets: seq<Target<N>>, chosen: set<N>, i: nat) {
    && i <= |targets|
    && (forall n, d :: n in chosen && d in Deps(GraphOf(ByName(targets)), n) ==> d in chosen)
    && (forall j :: 0 <= j < i ==> targets[j].name in chosen)
    && (forall n :: n in chosen ==> InClosure(targets, None, n))
  }

  lemma SelectNext<N(!new)>(targets: seq<Target<N>>, before: set<N>, after: set<N>, i: nat)
    requires i < |targets| && SelectedFirst(targets, before, i)
    requires before <= after && targets[i].name in after
    requires forall n, d :: n in after - before && d in Deps(GraphOf(ByName(targets)), n) ==> d in after
    requires forall n :: n in after - before ==> Reaches(GraphOf(ByName(targets)), targets[i].name, n)
    ensures SelectedFirst(targets, after, i + 1)
  {
    assert IsRoot(targets, None, targets[i].name);
  }

  class Planner<N(==,!new)> {
    const targets: seq<Target<N>>
    const byName: map<N, Target<N>>
    ghost const graph: Graph<N>
    var selected: set<N>
    var state: map<N, int>
    var ordered: seq<Target<N>>

    constructor (targets: seq<Target<N>>)
      ensures this.targets == targets && byName == ByName(targets) && graph == GraphOf(byName)
      ensures selected == {} && state == map[] && ordered == []
    {
      this.targets := targets;
      var m := map[];
      for i := 0 to |targets|
        invariant m == ByName(targets[..i])
      {
        assert targets[..i + 1][..i] == targets[..i];
        m := m[targets[i].name := targets[i]];
      }
      assert targets[..|targets|] == targets;
      byName, graph := m, GraphOf(m);
      selected, state, ordered := {}, map[], [];
    }

    ghost predicate Linked()
      reads this
    {
      graph == GraphOf(byName) && (forall n :: n in byName ==> byName[n].name == n) && selected <= byName.Keys
    }

    // -------------------------------------------------------------------
    // Phase one: selection.

    /** Everything selected since `before`, apart from `open`, has its dependencies selected. */
    ghost predicate ClosedSince(before: set<N>, open: set<N>)
      reads this
    {
      forall n, d :: n in selected - before - open && d in Deps(graph, n) ==> d in selected
    }

    ghost predicate ReachedSince(before: set<N>, from: N)
      reads this
    {
      forall n :: n in selected - before ==> Reaches(graph, from, n)
    }

    method SelectTarget(name: N) returns (error: Option<OrderError<N>>)
      requires Linked()
      modifies this`selected
      ensures Linked() && old(selected) <= selected
      ensures ReachedSince(old(selected), name)
      ensures error.None? ==> name in selected && ClosedSince(old(selected), {})
      ensures error.Some? ==> error.value.UnknownDependency? &&
                              error.value.name !in byName && Reaches(graph, name, error.value.name)
      decreases byName.Keys - selected
    {
      error := None;
      ReachesSelf(graph, name);
      if name in selected {
        return;
      }
      if name !in byName {
        return Some(UnknownDependency(name));
      }
      var target := byName[name];
      selected := selected + {name};
      for i := 0 to |target.dependsOn|
        invariant error == None && Linked() && old(selected) + {name} <= selected
        invariant ReachedSince(old(selected), name)
        invariant ClosedSince(old(selected), {name})
        invariant forall j :: 0 <= j < i ==> target.dependsOn[j] in selected
      {
        ghost var before := selected;
        var dependency := target.dependsOn[i];
        error := SelectTarget(dependency);
        forall n | n in selected && n !in before ensures Reaches(graph, name, n) {
          ReachesThrough(graph, name, dependency, n);
        }
        if error.Some? {
          ReachesThrough(graph, name, dependency, error.value.name);
          return;
        }
      }
    }

    // -------------------------------------------------------------------
    // Phase two: depth-first emission.

    ghost function Now(): Progress<N>
      reads this
    {
      Progress(byName, selected, state, ordered)
    }

    /** `name` may be visited next: it heads the chain, or the last link depends on it. */
    ghost predicate Continues(chain: seq<N>, name: N)
      reads this
    {
      chain == [] || (IsPath(graph, chain) && name in Deps(graph, chain[|chain| - 1]))
    }

    method Visit(name: N, ghost chain: seq<N>) returns (error: Option<OrderError<N>>)
      requires Emitting(Now(), chain) && Continues(chain, name) && graph == GraphOf(byName)
      modifies this`state, this`ordered
      ensures error.None? ==> After(old(Now()), Now(), name) && Emitting(Now(), chain)
      ensures error.None? && name in selected ==>
                name in Names(ordered) && Expands(graph, old(Names(ordered)), name, Names(ordered))
      ensures name !in selected ==> error.None? && Now() == old(Now())
      ensures error.Some? ==> error.value.DependencyCycle? && error.value.name in selected
      ensures error.Some? ==> Cyclic(graph, error.value.name)
      decreases selected - state.Keys, 1
    {
      error := None;
      if (name in state && state[name] == 2) || name !in selected {
        if name in selected {
          ExpandsKnown(graph, Names(ordered), name);
        }
        return;
      }
      if name in state && state[name] == 1 {
        ghost var k :| 0 <= k < |chain| && chain[k] == name;
        ChainCloses(graph, chain, k, name);
        return Some(DependencyCycle(name));
      }
      error := Expand(name, chain);
    }

    /** The rest of a visit: the target's dependencies, then the target itself. */
    method Expand(name: N, ghost chain: seq<N>) returns (error: Option<OrderError<N>>)
      requires Emitting(Now(), chain) && Continues(chain, name) && graph == GraphOf(byName)
      requires name in selected && name !in state
      modifies this`state, this`ordered
      ensures error.None? ==> After(old(Now()), Now(), name) && Emitting(Now(), chain) && name in Names(ordered)
      ensures error.None? ==> Expands(graph, old(Names(ordered)), name, Names(ordered))
      ensures error.Some? ==> error.value.DependencyCycle? && error.value.name in selected
      ensures error.Some? ==> Cyclic(graph, error.value.name)
      decreases selected - state.Keys, 0
    {
      error := None;
      assert name !in chain;
      EnterVisit(Now(), chain, name);
      state := state[name := 1];
      assert Now() == Begun(old(Now()), name);
      error := VisitDependencies(name, chain, old(Now()));
      if error.Some? {
        return;
      }
      ghost var last := Now();
      LeaveVisit(old(Now()), last, chain, name);
      state := state[name := 2];
      ordered := ordered + [byName[name]];
      assert Now() == Finished(last, name);
    }

    /** The loop over one target's dependencies, for the visit that began in `start`. */
    method VisitDependencies(name: N, ghost chain: seq<N>, ghost start: Progress<N>)
      returns (error: Option<OrderError<N>>)
      requires Visiting(start, Now(), chain, name, 0) && Continues(chain, name) && graph == GraphOf(byName)
      modifies this`state, this`ordered
      ensures error.None? ==> name in byName && Visiting(start, Now(), chain, name, |byName[name].dependsOn|)
      ensures error.Some? ==> error.value.DependencyCycle? && error.value.name in selected
      ensures error.Some? ==> Cyclic(graph, error.value.name)
      decreases selected - state.Keys, 3
    {
      error := None;
      var dependencies := byName[name].dependsOn;
      for i := 0 to |dependencies|
        invariant old(state.Keys) <= state.Keys
        invariant error == None && Visiting(start, Now(), chain, name, i)
      {
        error := VisitDependency(name, i, chain, start);
        if error.Some? {
          return;
        }
      }
    }

    /** One round of that loop. */
    method VisitDependency(name: N, i: nat, ghost chain: seq<N>, ghost start: Progress<N>)
      returns (error: Option<OrderError<N>>)
      requires Visiting(start, Now(), chain, name, i) && Continues(chain, name) && graph == GraphOf(byName)
      requires i < |byName[name].dependsOn|
      modifies this`state, this`ordered
      ensures error.None? ==> Visiting(start, Now(), chain, name, i + 1) && old(state.Keys) <= state.Keys
      ensures error.Some? ==> error.value.DependencyCycle? && error.value.name in selected
      ensures error.Some? ==> Cyclic(graph, error.value.name)
      decreases selected - state.Keys, 2
    {
      ChainGrows(chain, name);
      error := Visit(byName[name].dependsOn[i], chain + [name]);
      if error.None? {
        NextDependency(start, old(Now()), Now(), chain, name, i);
      }
    }

    lemma ChainGrows(chain: seq<N>, name: N)
      requires Continues(chain, name)
      ensures forall d :: d in Deps(graph, name) ==> Continues(chain + [name], d)
    {
      var longer := chain + [name];
      forall i | 0 <= i < |longer| - 1 ensures longer[i + 1] in Deps(graph, longer[i]) {}
      assert IsPath(graph, longer);
    }

    // -------------------------------------------------------------------
    // The whole ordering.

    /** Selects what the request reaches. */
    method SelectRequest(request: Option<N>) returns (error: Option<OrderError<N>>)
      requires Linked() && selected == {} && byName == ByName(targets)
      modifies this`selected
      ensures Linked()
      ensures error.None? ==> forall n :: n in selected <==> InClosure(targets, request, n)
      ensures error.None? ==> forall n, d :: n in selected && d in Deps(graph, n) ==> d in selected
      ensures error.Some? ==> error.value.UnknownDependency? && error.value.name !in byName
      ensures error.Some? ==> InClosure(targets, request, error.value.name)
    {
      if request.Some? {
        assert IsRoot(targets, request, request.value);
        error := SelectTarget(request.value);
      } else {
        error := SelectAll();
      }
      if error.None? {
        SelectionIsClosure(selected, request);
      }
    }

    method SelectAll() returns (error: Option<OrderError<N>>)
      requires Linked() && selected == {} && byName == ByName(targets)
      modifies this`selected
      ensures Linked()
      ensures error.None? ==> SelectedFirst(targets, selected, |targets|)
      ensures error.Some? ==> error.value.UnknownDependency? && error.value.name !in byName &&
                              InClosure(targets, None, error.value.name)
    {
      error := None;
      for i := 0 to |targets|
        invariant error == None && Linked() && SelectedFirst(targets, selected, i)
      {
        ghost var before := selected;
        error := SelectTarget(targets[i].name);
        if error.Some? {
          assert IsRoot(targets, None, targets[i].name);
          return;
        }
        SelectNext(targets, before, selected, i);
      }
    }

    lemma SelectionIsClosure(chosen: set<N>, request: Option<N>)
      requires graph == GraphOf(ByName(targets))
      requires forall n, d :: n in chosen && d in Deps(graph, n) ==> d in chosen
      requires forall root :: IsRoot(targets, request, root) ==> root in chosen
      ensures forall n :: InClosure(targets, request, n) ==> n in chosen
    {
      forall n | InClosure(targets, request, n) ensures n in chosen {
        var root :| IsRoot(targets, request, root) && Reaches(graph, root, n);
        ClosedReaches(graph, chosen, root, n);
      }
    }

    /** Succeeds exactly when everything the request reaches is declared and acyclic; the
        result is then that closure, each target once and after all it depends on. */
    method Order(request: Option<N>) returns (outcome: Outcome<N>)
      requires byName == ByName(targets) && graph == GraphOf(byName)
      requires selected == {} && state == map[] && ordered == []
      modifies this
      ensures outcome.Ordered? <==> forall n :: InClosure(targets, request, n) ==> n in byName && !Cyclic(graph, n)
      ensures outcome.Ordered? ==> IsBuildOrder(targets, request, outcome.targets)
      ensures outcome.Failed? ==> InClosure(targets, request, outcome.error.name)
      ensures outcome.Failed? && outcome.error.UnknownDependency? ==> outcome.error.name !in byName
      ensures outcome.Failed? && outcome.error.DependencyCycle? ==>
                Cyclic(graph, outcome.error.name) && forall n :: InClosure(targets, request, n) ==> n in byName
    {
      var error := SelectRequest(request);
      if error.Some? {
        return Failed(error.value);
      }
      NothingListed(targets, request);
      ghost var cuts;
      error, cuts := EmitAll(request);
      if error.Some? {
        return Failed(error.value);
      }
      OrderComplete(targets, request, Now(), cuts);
      outcome := Ordered(ordered);
    }

    method EmitAll(request: Option<N>) returns (error: Option<OrderError<N>>, ghost cuts: seq<nat>)
      requires graph == GraphOf(byName) && Listing(targets, request, Now(), [0])
      modifies this`state, this`ordered
      ensures error.None? ==> |cuts| == |targets| + 1 && Listing(targets, request, Now(), cuts)
      ensures error.Some? ==> error.value.DependencyCycle? && error.value.name in selected
      ensures error.Some? ==> Cyclic(graph, error.value.name)
    {
      error, cuts := None, [0];
      for i := 0 to |targets|
        invariant error == None && |cuts| == i + 1 && Listing(targets, request, Now(), cuts)
      {
        error, cuts := EmitNext(i, request, cuts);
        if error.Some? {
          return;
        }
      }
    }

    method EmitNext(i: nat, ghost request: Option<N>, ghost cuts: seq<nat>)
      returns (error: Option<OrderError<N>>, ghost more: seq<nat>)
      requires graph == GraphOf(byName) && i < |targets| && |cuts| == i + 1 && Listing(targets, request, Now(), cuts)
      modifies this`state, this`ordered
      ensures error.None? ==> |more| == i + 2 && Listing(targets, request, Now(), more)
      ensures error.Some? ==> error.value.DependencyCycle? && error.value.name in selected
      ensures error.Some? ==> Cyclic(graph, error.value.name)
    {
      error := Visit(targets[i].name, []);
      more := cuts + [|ordered|];
      if error.None? {
        ListNext(targets, request, old(Now()), Now(), cuts);
      }
    }
  }

  lemma NothingListed<N(!new)>(targets: seq<Target<N>>, request: Option<N>)
    ensures Listed(targets, request, [], [0])
    ensures WrittenOut(targets, request, 0, [])
  {
    var none: seq<Target<N>> := [];
    ExpandsNothing<N>(GraphOf(ByName(targets)), []);
    assert Names(none[..0]) == [];
  }

  lemma NamesMember<N>(order: seq<Target<N>>, n: N)
    ensures n in Names(order) <==> exists i :: 0 <= i < |order| && order[i].name == n
  {
    if n in Names(order) {
      var i :| 0 <= i < |order| && Names(order)[i] == n;
    }
    if i :| 0 <= i < |order| && order[i].name == n {
      assert Names(order)[i] == n;
    }
  }

  lemma KeepCuts<N(!new)>(targets: seq<Target<N>>, request: Option<N>, a: seq<Target<N>>, b: seq<Target<N>>,
                          cuts: seq<nat>)
    requires a <= b && Listed(targets, request, a, cuts)
    ensures Listed(targets, request, b, cuts)
  {
    forall k | 0 <= k < |cuts| ensures Completes(targets, request, b, k, cuts[k]) {
      assert Completes(targets, request, a, k, cuts[k]);
      assert b[..cuts[k]] == a[..cuts[k]];
    }
  }

  lemma NewCut<N(!new)>(targets: seq<Target<N>>, request: Option<N>, order: seq<Target<N>>, cuts: seq<nat>)
    requires Listed(targets, request, order, cuts) && Completes(targets, request, order, |cuts|, |order|)
    ensures Listed(targets, request, order, cuts + [|order|])
  {}

  /** The order is what the first `k` listed targets come to. */
  ghost predicate WrittenOut<N(!new)>(targets: seq<Target<N>>, request: Option<N>, k: nat, order: seq<Target<N>>) {
    k <= |targets| && ExpandsAll(GraphOf(ByName(targets)), [], RootsOf(targets, request, k), Names(order))
  }

  /** What the top-level loop keeps after `|cuts| - 1` targets. */
  ghost predicate Listing<N(!new)>(targets: seq<Target<N>>, request: Option<N>, p: Progress<N>, cuts: seq<nat>) {
    && p.byName == ByName(targets) && Emitting(p, [])
    && (forall n :: n in p.selected <==> InClosure(targets, request, n))
    && 0 < |cuts| && cuts[|cuts| - 1] == |p.ordered| && Listed(targets, request, p.ordered, cuts)
    && WrittenOut(targets, request, |cuts| - 1, p.ordered)
  }

  /** The visit of one listed target does for the order what it should. */
  ghost predicate Visited<N(!new)>(p: Progress<N>, q: Progress<N>, name: N) {
    && After(p, q, name)
    && if name in q.selected
       then name in Names(q.ordered) && Expands(GraphOf(p.byName), Names(p.ordered), name, Names(q.ordered))
       else q == p
  }

  lemma NextCut<N(!new)>(targets: seq<Target<N>>, request: Option<N>, p: Progress<N>, q: Progress<N>, cuts: seq<nat>)
    requires Listing(targets, request, p, cuts) && |cuts| <= |targets| && Emitting(q, [])
    requires Visited(p, q, targets[|cuts| - 1].name)
    ensures Listed(targets, request, q.ordered, cuts + [|q.ordered|])
  {
    assert Completes(targets, request, p.ordered, |cuts| - 1, cuts[|cuts| - 1]);
    CutCompletes(targets, request, p, q, |cuts| - 1);
    KeepCuts(targets, request, p.ordered, q.ordered, cuts);
    NewCut(targets, request, q.ordered, cuts);
  }

  lemma NextWritten<N(!new)>(targets: seq<Target<N>>, request: Option<N>, p: Progress<N>, q: Progress<N>,
                             cuts: seq<nat>)
    requires Listing(targets, request, p, cuts) && |cuts| <= |targets|
    requires Visited(p, q, targets[|cuts| - 1].name)
    ensures WrittenOut(targets, request, |cuts|, q.ordered)
  {
    var name := targets[|cuts| - 1].name;
    assert name in q.selected <==> InClosure(targets, request, name);
    NextRoot(targets, request, |cuts| - 1, p.ordered, q.ordered);
  }

  lemma ListNext<N(!new)>(targets: seq<Target<N>>, request: Option<N>, p: Progress<N>, q: Progress<N>, cuts: seq<nat>)
    requires Listing(targets, request, p, cuts) && |cuts| <= |targets| && Emitting(q, [])
    requires Visited(p, q, targets[|cuts| - 1].name)
    ensures Listing(targets, request, q, cuts + [|q.ordered|])
  {
    NextCut(targets, request, p, q, cuts);
    NextWritten(targets, request, p, q, cuts);
  }

  lemma NextRoot<N(!new)>(targets: seq<Target<N>>, request: Option<N>, k: nat, a: seq<Target<N>>, b: seq<Target<N>>)
    requires k < |targets| && WrittenOut(targets, request, k, a) && |a| <= |b|
    requires if InClosure(targets, request, targets[k].name)
             then Expands(GraphOf(ByName(targets)), Names(a), targets[k].name, Names(b)) else a == b
    ensures WrittenOut(targets, request, k + 1, b)
  {
    var roots, name := RootsOf(targets, request, k), targets[k].name;
    if InClosure(targets, request, name) {
      ExpandsNext(GraphOf(ByName(targets)), [], roots, Names(a), name, Names(b));
    } else {
      assert roots + [] == roots;
    }
  }

  lemma CutCompletes<N(!new)>(targets: seq<Target<N>>, request: Option<N>, p: Progress<N>, q: Progress<N>, i: nat)
    requires i < |targets| && Completes(targets, request, p.ordered, i, |p.ordered|)
    requires p.byName == ByName(targets) && After(p, q, targets[i].name)
    requires DependenciesFirst(GraphOf(ByName(targets)), Names(q.ordered))
    requires InClosure(targets, request, targets[i].name) ==> targets[i].name in Names(q.ordered)
    requires q == p || InClosure(targets, request, targets[i].name)
    ensures Completes(targets, request, q.ordered, i + 1, |q.ordered|)
  {
    assert p.ordered[..|p.ordered|] == p.ordered && q.ordered[..|q.ordered|] == q.ordered;
    NamesGrow(p.ordered, q.ordered);
    forall n ensures n in Names(q.ordered) <==> ReachedFromFirst(targets, request, i + 1, n) {
      if n in Names(q.ordered) {
        EmittedIsReached(targets, request, p, q, i, n);
      }
      if ReachedFromFirst(targets, request, i + 1, n) {
        ReachedIsEmitted(targets, request, Names(q.ordered), i, n);
      }
    }
  }

  lemma EmittedIsReached<N(!new)>(targets: seq<Target<N>>, request: Option<N>, p: Progress<N>, q: Progress<N>, i: nat,
                                  n: N)
    requires i < |targets| && p.byName == ByName(targets) && After(p, q, targets[i].name)
    requires forall m :: m in Names(p.ordered) <==> ReachedFromFirst(targets, request, i, m)
    requires q == p || InClosure(targets, request, targets[i].name)
    requires n in Names(q.ordered)
    ensures ReachedFromFirst(targets, request, i + 1, n)
  {
    NamesMember(q.ordered, n);
    NamesMember(p.ordered, n);
    if n in Names(p.ordered) {
      var j :| 0 <= j < i && InClosure(targets, request, targets[j].name) &&
          Reaches(GraphOf(ByName(targets)), targets[j].name, n);
    } else {
      var k :| 0 <= k < |q.ordered| && q.ordered[k].name == n;
      assert k >= |p.ordered|;
    }
  }

  lemma ReachedIsEmitted<N(!new)>(targets: seq<Target<N>>, request: Option<N>, order: seq<N>, i: nat, n: N)
    requires i < |targets| && DependenciesFirst(GraphOf(ByName(targets)), order)
    requires ReachedFromFirst(targets, request, i, n) ==> n in order
    requires InClosure(targets, request, targets[i].name) ==> targets[i].name in order
    requires ReachedFromFirst(targets, request, i + 1, n)
    ensures n in order
  {
    var g := GraphOf(ByName(targets));
    var j :| 0 <= j < i + 1 && InClosure(targets, request, targets[j].name) && Reaches(g, targets[j].name, n);
    if j == i {
      OrderContains(g, order, targets[i].name, n);
    } else {
      assert ReachedFromFirst(targets, request, i, n);
    }
  }

  /** When all the closure is declared, it is what the listed targets in it reach. */
  lemma ClosureIsReached<N(!new)>(targets: seq<Target<N>>, request: Option<N>, n: N)
    requires InClosure(targets, request, n) ==> n in ByName(targets)
    ensures ReachedFromFirst(targets, request, |targets|, n) <==> InClosure(targets, request, n)
  {
    var g := GraphOf(ByName(targets));
    if ReachedFromFirst(targets, request, |targets|, n) {
      var i :| 0 <= i < |targets| && InClosure(targets, request, targets[i].name) && Reaches(g, targets[i].name, n);
      var root :| IsRoot(targets, request, root) && Reaches(g, root, targets[i].name);
      ReachesTransitive(g, root, targets[i].name, n);
    }
    if InClosure(targets, request, n) {
      var i :| 0 <= i < |targets| && targets[i].name == n;
      ReachesSelf(g, n);
    }
  }

  lemma ClosureIsOrdered<N(!new)>(targets: seq<Target<N>>, request: Option<N>, p: Progress<N>, cuts: seq<nat>)
    requires Listing(targets, request, p, cuts) && |cuts| == |targets| + 1
    ensures forall n :: n in Names(p.ordered) <==> InClosure(targets, request, n)
  {
    assert Completes(targets, request, p.ordered, |targets|, |p.ordered|);
    assert p.ordered[..|p.ordered|] == p.ordered;
    forall n ensures ReachedFromFirst(targets, request, |targets|, n) <==> InClosure(targets, request, n) {
      ClosureIsReached(targets, request, n);
    }
  }

  lemma OrderComplete<N(!new)>(targets: seq<Target<N>>, request: Option<N>, p: Progress<N>, cuts: seq<nat>)
    requires Listing(targets, request, p, cuts) && |cuts| == |targets| + 1
    ensures IsBuildOrder(targets, request, p.ordered)
    ensures forall n :: InClosure(targets, request, n) ==> n in p.byName && !Cyclic(GraphOf(p.byName), n)
  {
    var order := Names(p.ordered);
    ClosureIsOrdered(targets, request, p, cuts);
    var written := Expansions(GraphOf(p.byName), RootsOf(targets, request, |targets|), |order|);
    assert [] + written == written;
    forall n | InClosure(targets, request, n) ensures !Cyclic(GraphOf(p.byName), n) {
      var k :| 0 <= k < |order| && order[k] == n;
      OrderedIsAcyclic(GraphOf(p.byName), order, k);
    }
  }
}
