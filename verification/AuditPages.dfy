/** The audit's page-by-page query loop: what it collects, and for whom. */
module AuditPages {
  import opened Orders
  import opened Authoring

  datatype Package = Package(id: Text, source: Text, name: Text, version: Text)

  datatype Query = Query(name: Text, version: Text, token: Text)

  datatype Page = Page(ids: set<Text>, next: Text)

  /** The advisory service: the page it gives each query, and the batches it fails. */
  datatype Client = Client(page: Query -> Page, fails: seq<Query> -> bool)

  function FollowUp(c: Client, q: Query): Query {
    q.(token := c.page(q).next)
  }

  predicate HasMore(c: Client, q: Query) {
    c.page(q).next != EMPTY
  }

  /** Every query has finitely many pages: `rank` counts down along them. */
  ghost predicate Finite(c: Client, rank: Query -> nat) {
    forall q :: HasMore(c, q) ==> rank(FollowUp(c, q)) < rank(q)
  }

  /** The advisories on all pages from `q` on. */
  ghost function AllIds(c: Client, rank: Query -> nat, q: Query): set<Text>
    requires Finite(c, rank)
    decreases rank(q)
  {
    c.page(q).ids + if HasMore(c, q) then AllIds(c, rank, FollowUp(c, q)) else {}
  }

  /** These tokens lead from one page of a package's advisories to the next. */
  ghost predicate Leads(c: Client, name: Text, version: Text, tokens: seq<Text>) {
    && tokens != []
    && (|tokens| > 1 ==>
          && tokens[1].chars != "" && tokens[1] == c.page(Query(name, version, tokens[0])).next
          && Leads(c, name, version, tokens[1..]))
  }

  /** The advisory stands on the page that the last of these tokens leads to. */
  ghost predicate OnPageAt(c: Client, name: Text, version: Text, tokens: seq<Text>, id: Text) {
    Leads(c, name, version, tokens) && id in c.page(Query(name, version, tokens[|tokens| - 1])).ids
  }

  /** The advisory stands on a page that tokens lead to, from this one on. */
  ghost predicate OnPagesFrom(c: Client, name: Text, version: Text, token: Text, id: Text) {
    exists tokens :: OnPageAt(c, name, version, tokens, id) && tokens[0] == token
  }

  lemma OnPagesNext(c: Client, name: Text, version: Text, token: Text, id: Text)
    ensures var page := c.page(Query(name, version, token));
            OnPagesFrom(c, name, version, token, id) <==>
            id in page.ids || (page.next.chars != "" && OnPagesFrom(c, name, version, page.next, id))
  {
    var page := c.page(Query(name, version, token));
    if id in page.ids {
      assert OnPageAt(c, name, version, [token], id);
    }
    if tokens :| OnPageAt(c, name, version, tokens, id) && tokens[0] == page.next && page.next.chars != "" {
      assert ([token] + tokens)[1..] == tokens;
      assert OnPageAt(c, name, version, [token] + tokens, id);
    }
    if tokens :| OnPageAt(c, name, version, tokens, id) && tokens[0] == token && |tokens| > 1 {
      assert OnPageAt(c, name, version, tokens[1..], id);
    }
  }

  /** The advisories on all pages are those on the pages that the tokens lead to. */
  lemma {:induction false} AllIdsMeaning(c: Client, rank: Query -> nat, name: Text, version: Text, token: Text,
                                         id: Text)
    requires Finite(c, rank)
    ensures id in AllIds(c, rank, Query(name, version, token)) <==> OnPagesFrom(c, name, version, token, id)
    decreases rank(Query(name, version, token))
  {
    var q := Query(name, version, token);
    OnPagesNext(c, name, version, token, id);
    assert c.page(q).next.chars == "" <==> c.page(q).next == EMPTY;
    if HasMore(c, q) {
      assert FollowUp(c, q) == Query(name, version, c.page(q).next);
      AllIdsMeaning(c, rank, name, version, c.page(q).next, id);
    }
  }

  // ---------------------------------------------------------------------
  // Attribution of results to packages.

  /** The first package with this name and version. */
  function IndexIn(packages: seq<Package>, name: Text, version: Text): Option<nat> {
    if packages == [] then None
    else
      var last := |packages| - 1;
      var earlier := IndexIn(packages[..last], name, version);
      if earlier.Some? then earlier
      else if packages[last].name == name && packages[last].version == version then Some(last) else None
  }

  predicate Matches(package: Package, name: Text, version: Text) {
    package.name == name && package.version == version
  }

  lemma {:induction false} IndexInMeaning(packages: seq<Package>, name: Text, version: Text)
    ensures match IndexIn(packages, name, version)
            case Some(i) => i < |packages| && Matches(packages[i], name, version) &&
                            forall j :: 0 <= j < i ==> !Matches(packages[j], name, version)
            case None => forall j :: 0 <= j < |packages| ==> !Matches(packages[j], name, version)
  {
    if packages != [] {
      IndexInMeaning(packages[..|packages| - 1], name, version);
    }
  }

  /** Finds the package of a query by name and version alone; 0 if there is none. */
  method PackageIndex(packages: seq<Package>, name: Text, version: Text) returns (index: nat)
    ensures index == match IndexIn(packages, name, version) case Some(i) => i case None => 0
  {
    IndexInMeaning(packages, name, version);
    for i := 0 to |packages|
      invariant forall j :: 0 <= j < i ==> !Matches(packages[j], name, version)
    {
      if packages[i].name == name && packages[i].version == version {
        return i;
      }
    }
    return 0;
  }

  function FirstQuery(package: Package): Query {
    Query(package.name, package.version, EMPTY)
  }

  predicate For(packages: seq<Package>, q: Query, i: nat) {
    IndexIn(packages, q.name, q.version) == Some(i)
  }

  /** An advisory still to be collected for package `i` from the pages of these queries. */
  ghost predicate Pending(c: Client, rank: Query -> nat, packages: seq<Package>, queries: seq<Query>, i: nat, id: Text)
    requires Finite(c, rank)
  {
    exists k :: 0 <= k < |queries| && For(packages, queries[k], i) && id in AllIds(c, rank, queries[k])
  }

  lemma PendingNext(c: Client, rank: Query -> nat, packages: seq<Package>, queries: seq<Query>, q: Query, i: nat,
                    id: Text)
    requires Finite(c, rank)
    ensures Pending(c, rank, packages, queries + [q], i, id) <==>
            Pending(c, rank, packages, queries, i, id) || (For(packages, q, i) && id in AllIds(c, rank, q))
  {
    var more := queries + [q];
    if k :| 0 <= k < |queries| && For(packages, queries[k], i) && id in AllIds(c, rank, queries[k]) {
      assert more[k] == queries[k];
    }
    if For(packages, q, i) && id in AllIds(c, rank, q) {
      assert more[|queries|] == q;
    }
  }

  // ---------------------------------------------------------------------
  // One batch.

  /** The queries for the next pages of a batch. */
  function NextRound(c: Client, queries: seq<Query>): seq<Query> {
    if queries == [] then []
    else
      var last := queries[|queries| - 1];
      NextRound(c, queries[..|queries| - 1]) + if HasMore(c, last) then [FollowUp(c, last)] else []
  }

  /** Every query belongs to one of the packages. */
  ghost predicate Known(packages: seq<Package>, queries: seq<Query>) {
    forall k :: 0 <= k < |queries| ==> IndexIn(packages, queries[k].name, queries[k].version).Some?
  }

  /** After the first `r` results of a batch, nothing is lost and nothing is added. */
  ghost predicate Merged(c: Client, rank: Query -> nat, packages: seq<Package>, done: seq<Query>, next: seq<Query>,
                         before: seq<set<Text>>, after: seq<set<Text>>)
    requires Finite(c, rank)
  {
    && |before| == |after| == |packages| && next == NextRound(c, done) && Known(packages, next)
    && forall i: nat, id :: i < |packages| ==>
         (id in after[i] || Pending(c, rank, packages, next, i, id) <==>
          id in before[i] || Pending(c, rank, packages, done, i, id))
  }

  /** The queries for the next pages once `q` has been answered. */
  function Queued(c: Client, q: Query, next: seq<Query>): seq<Query> {
    if HasMore(c, q) then next + [FollowUp(c, q)] else next
  }

  /** An advisory on the pages of `q` is on this page or pending on the next one. */
  lemma QueuedPending(c: Client, rank: Query -> nat, packages: seq<Package>, q: Query, next: seq<Query>, i: nat,
                      id: Text)
    requires Finite(c, rank)
    ensures (For(packages, q, i) && id in c.page(q).ids) || Pending(c, rank, packages, Queued(c, q, next), i, id) <==>
            (For(packages, q, i) && id in AllIds(c, rank, q)) || Pending(c, rank, packages, next, i, id)
  {
    PendingNext(c, rank, packages, next, FollowUp(c, q), i, id);
    assert For(packages, FollowUp(c, q), i) <==> For(packages, q, i);
  }

  /** The bookkeeping of one package and one advisory. */
  lemma MergeAt(c: Client, rank: Query -> nat, packages: seq<Package>, done: seq<Query>, q: Query, next: seq<Query>,
                before: set<Text>, after: set<Text>, i: nat, id: Text)
    requires Finite(c, rank)
    requires id in after || Pending(c, rank, packages, next, i, id) <==>
             id in before || Pending(c, rank, packages, done, i, id)
    ensures var merged := if For(packages, q, i) then after + c.page(q).ids else after;
            id in merged || Pending(c, rank, packages, Queued(c, q, next), i, id) <==>
            id in before || Pending(c, rank, packages, done + [q], i, id)
  {
    QueuedPending(c, rank, packages, q, next, i, id);
    PendingNext(c, rank, packages, done, q, i, id);
  }

  lemma MergeOne(c: Client, rank: Query -> nat, packages: seq<Package>, done: seq<Query>, q: Query, next: seq<Query>,
                 before: seq<set<Text>>, after: seq<set<Text>>, index: nat)
    requires Finite(c, rank) && Merged(c, rank, packages, done, next, before, after)
    requires index < |packages| && For(packages, q, index)
    ensures Merged(c, rank, packages, done + [q], Queued(c, q, next),
                   before, after[index := after[index] + c.page(q).ids])
  {
    assert (done + [q])[..|done|] == done;
    forall i: nat, id | i < |packages|
      ensures id in after[index := after[index] + c.page(q).ids][i] ||
                Pending(c, rank, packages, Queued(c, q, next), i, id) <==>
              id in before[i] || Pending(c, rank, packages, done + [q], i, id)
    {
      MergeAt(c, rank, packages, done, q, next, before[i], after[i], i, id);
    }
  }

  /** Attributes one result of a batch. */
  method MergeResult(c: Client, packages: seq<Package>, q: Query, ids0: seq<set<Text>>, next0: seq<Query>,
                     ghost rank: Query -> nat, ghost done: seq<Query>, ghost before: seq<set<Text>>)
    returns (ids: seq<set<Text>>, nextQueries: seq<Query>)
    requires Finite(c, rank) && Merged(c, rank, packages, done, next0, before, ids0)
    requires IndexIn(packages, q.name, q.version).Some?
    ensures Merged(c, rank, packages, done + [q], nextQueries, before, ids)
  {
    var result := c.page(q);
    var originalIndex := PackageIndex(packages, q.name, q.version);
    IndexInMeaning(packages, q.name, q.version);
    MergeOne(c, rank, packages, done, q, next0, before, ids0, originalIndex);
    ids, nextQueries := ids0[originalIndex := ids0[originalIndex] + result.ids], next0;
    if result.next != EMPTY {
      nextQueries := nextQueries + [q.(token := result.next)];
    }
  }

  method MergeResults(c: Client, packages: seq<Package>, queries: seq<Query>, ids0: seq<set<Text>>,
                      ghost rank: Query -> nat)
    returns (ids: seq<set<Text>>, nextQueries: seq<Query>)
    requires Finite(c, rank) && |ids0| == |packages| && Known(packages, queries)
    ensures Merged(c, rank, packages, queries, nextQueries, ids0, ids)
  {
    ids, nextQueries := ids0, [];
    for resultIndex := 0 to |queries|
      invariant Merged(c, rank, packages, queries[..resultIndex], nextQueries, ids0, ids)
    {
      ids, nextQueries := MergeResult(c, packages, queries[resultIndex], ids, nextQueries, rank,
                                      queries[..resultIndex], ids0);
      assert queries[..resultIndex + 1] == queries[..resultIndex] + [queries[resultIndex]];
    }
    assert queries[..|queries|] == queries;
  }

  // ---------------------------------------------------------------------
  // All batches.

  ghost function Remaining(rank: Query -> nat, queries: seq<Query>): nat {
    if queries == [] then 0 else Remaining(rank, queries[..|queries| - 1]) + rank(queries[|queries| - 1]) + 1
  }

  lemma {:induction false} RoundsShrink(c: Client, rank: Query -> nat, queries: seq<Query>)
    requires Finite(c, rank)
    ensures Remaining(rank, NextRound(c, queries)) <= Remaining(rank, queries)
    ensures queries != [] ==> Remaining(rank, NextRound(c, queries)) < Remaining(rank, queries)
  {
    if queries != [] {
      var init, last := queries[..|queries| - 1], queries[|queries| - 1];
      RoundsShrink(c, rank, init);
      var next := NextRound(c, init);
      if HasMore(c, last) {
        assert (next + [FollowUp(c, last)])[..|next|] == next;
      } else {
        assert next + [] == next;
      }
    }
  }

  /** No batch fails, from this one to the last. */
  ghost predicate AllAnswered(c: Client, rank: Query -> nat, queries: seq<Query>)
    requires Finite(c, rank)
    decreases Remaining(rank, queries)
  {
    queries == [] ||
    (RoundsShrink(c, rank, queries); !c.fails(queries) && AllAnswered(c, rank, NextRound(c, queries)))
  }

  function FirstQueries(packages: seq<Package>): (queries: seq<Query>)
    ensures |queries| == |packages| && forall i :: 0 <= i < |packages| ==> queries[i] == FirstQuery(packages[i])
  {
    seq(|packages|, i requires 0 <= i < |packages| => FirstQuery(packages[i]))
  }

  /** What the loop ends up with for package `i`: all pages, if it is the first of its name and version. */
  ghost function Collected(c: Client, rank: Query -> nat, packages: seq<Package>, i: nat): set<Text>
    requires Finite(c, rank) && i < |packages|
  {
    if For(packages, FirstQuery(packages[i]), i) then AllIds(c, rank, FirstQuery(packages[i])) else {}
  }

  lemma PendingAtFirst(c: Client, rank: Query -> nat, packages: seq<Package>, i: nat, id: Text)
    requires Finite(c, rank) && i < |packages|
    ensures Pending(c, rank, packages, FirstQueries(packages), i, id) <==> id in Collected(c, rank, packages, i)
  {
    var queries := FirstQueries(packages);
    if k :| 0 <= k < |queries| && For(packages, queries[k], i) && id in AllIds(c, rank, queries[k]) {
      IndexInMeaning(packages, packages[k].name, packages[k].version);
      assert queries[k] == FirstQuery(packages[i]);
    }
    if id in Collected(c, rank, packages, i) {
      assert For(packages, queries[i], i);
    }
  }

  lemma FirstQueriesKnown(packages: seq<Package>)
    ensures Known(packages, FirstQueries(packages))
  {
    forall k | 0 <= k < |packages| ensures IndexIn(packages, packages[k].name, packages[k].version).Some? {
      IndexInMeaning(packages, packages[k].name, packages[k].version);
      assert Matches(packages[k], packages[k].name, packages[k].version);
    }
  }

  /** Between batches: collected and pending advisories together are those of the first queries. */
  ghost predicate Collecting(c: Client, rank: Query -> nat, packages: seq<Package>, queries: seq<Query>,
                             ids: seq<set<Text>>)
    requires Finite(c, rank)
  {
    && |ids| == |packages| && Known(packages, queries)
    && (AllAnswered(c, rank, queries) <==> AllAnswered(c, rank, FirstQueries(packages)))
    && forall i: nat, id :: i < |packages| ==>
         (id in ids[i] || Pending(c, rank, packages, queries, i, id) <==> id in Collected(c, rank, packages, i))
  }

  lemma CollectNext(c: Client, rank: Query -> nat, packages: seq<Package>, queries: seq<Query>, next: seq<Query>,
                    before: seq<set<Text>>, after: seq<set<Text>>)
    requires Finite(c, rank) && Collecting(c, rank, packages, queries, before)
    requires queries != [] && !c.fails(queries) && Merged(c, rank, packages, queries, next, before, after)
    ensures Collecting(c, rank, packages, next, after) && Remaining(rank, next) < Remaining(rank, queries)
  {
    RoundsShrink(c, rank, queries);
  }

  lemma CollectFirst(c: Client, rank: Query -> nat, packages: seq<Package>, ids: seq<set<Text>>)
    requires Finite(c, rank) && |ids| == |packages| && forall i :: 0 <= i < |ids| ==> ids[i] == {}
    ensures Collecting(c, rank, packages, FirstQueries(packages), ids)
  {
    FirstQueriesKnown(packages);
    forall i: nat, id | i < |packages|
      ensures Pending(c, rank, packages, FirstQueries(packages), i, id) <==> id in Collected(c, rank, packages, i)
    {
      PendingAtFirst(c, rank, packages, i, id);
    }
  }

  /** Queries until no page is left. */
  method CollectIds(c: Client, packages: seq<Package>, ghost rank: Query -> nat) returns (ids: Option<seq<set<Text>>>)
    requires Finite(c, rank)
    ensures ids.Some? <==> AllAnswered(c, rank, FirstQueries(packages))
    ensures ids.Some? ==> |ids.value| == |packages| &&
                          forall i :: 0 <= i < |packages| ==> ids.value[i] == Collected(c, rank, packages, i)
  {
    var queries := FirstQueries(packages);
    var collected: seq<set<Text>> := seq(|packages|, _ => {});
    CollectFirst(c, rank, packages, collected);
    while queries != []
      invariant Collecting(c, rank, packages, queries, collected)
      decreases Remaining(rank, queries)
    {
      if c.fails(queries) {
        return None;
      }
      ghost var before := collected;
      var nextQueries;
      collected, nextQueries := MergeResults(c, packages, queries, collected, rank);
      CollectNext(c, rank, packages, queries, nextQueries, before, collected);
      queries := nextQueries;
    }
    ids := Some(collected);
    forall i | 0 <= i < |packages| ensures collected[i] == Collected(c, rank, packages, i) {
      assert forall id :: !Pending(c, rank, packages, [], i, id);
    }
  }

  // ---------------------------------------------------------------------
  // What is lost.

  predicate NamesDistinct(packages: seq<Package>) {
    forall i, j :: 0 <= i < j < |packages| ==>
                     packages[i].name != packages[j].name || packages[i].version != packages[j].version
  }

  ghost predicate LosesNothing(c: Client, rank: Query -> nat, packages: seq<Package>)
    requires Finite(c, rank)
  {
    forall i: nat :: i < |packages| ==> Collected(c, rank, packages, i) == AllIds(c, rank, FirstQuery(packages[i]))
  }

  lemma FirstIsOwn(packages: seq<Package>, i: nat)
    requires i < |packages|
    ensures For(packages, FirstQuery(packages[i]), i) <==>
            forall j :: 0 <= j < i ==> !Matches(packages[j], packages[i].name, packages[i].version)
  {
    IndexInMeaning(packages, packages[i].name, packages[i].version);
    assert Matches(packages[i], packages[i].name, packages[i].version);
  }

  /** With distinct names and versions, every package gets the advisories of all its pages. */
  lemma DistinctLosesNothing(c: Client, rank: Query -> nat, packages: seq<Package>)
    requires Finite(c, rank) && NamesDistinct(packages)
    ensures LosesNothing(c, rank, packages)
  {
    forall i: nat | i < |packages|
      ensures Collected(c, rank, packages, i) == AllIds(c, rank, FirstQuery(packages[i]))
    {
      FirstIsOwn(packages, i);
    }
  }

  /** A service with one advisory for everything. */
  function OneAdvisory(id: Text): Client {
    Client(_ => Page({id}, EMPTY), _ => false)
  }

  /** Two lock entries with one name and version, such as a package and its patched realization: the later one is
  reported clean. */
  lemma RepeatedNamesLose(packages: seq<Package>, i: nat, j: nat, id: Text, rank: Query -> nat)
    requires i < j < |packages| && packages[i].name == packages[j].name && packages[i].version == packages[j].version
    ensures Finite(OneAdvisory(id), rank) && AllAnswered(OneAdvisory(id), rank, FirstQueries(packages))
    ensures Collected(OneAdvisory(id), rank, packages, j) == {} &&
            id in AllIds(OneAdvisory(id), rank, FirstQuery(packages[j]))
  {
    var c := OneAdvisory(id);
    assert forall q :: !HasMore(c, q);
    FirstIsOwn(packages, j);
    assert Matches(packages[i], packages[j].name, packages[j].version);
    NoNextRound(c, FirstQueries(packages));
  }

  lemma {:induction false} NoNextRound(c: Client, queries: seq<Query>)
    requires forall q :: !HasMore(c, q)
    ensures NextRound(c, queries) == []
  {
    if queries != [] {
      NoNextRound(c, queries[..|queries| - 1]);
    }
  }

  /** Exactly: the loop loses nothing from any service if and only if names and versions are distinct. */
  lemma LosesNothingIff(packages: seq<Package>)
    ensures NamesDistinct(packages) <==>
            forall c: Client, rank: Query -> nat :: Finite(c, rank) ==> LosesNothing(c, rank, packages)
  {
    forall c: Client, rank: Query -> nat | Finite(c, rank) && NamesDistinct(packages)
      ensures LosesNothing(c, rank, packages)
    {
      DistinctLosesNothing(c, rank, packages);
    }
    if !NamesDistinct(packages) {
      var i, j :| 0 <= i < j < |packages| && packages[i].name == packages[j].name &&
          packages[i].version == packages[j].version;
      var rank: Query -> nat := _ => 0;
      RepeatedNamesLose(packages, i, j, EMPTY, rank);
      assert !LosesNothing(OneAdvisory(EMPTY), rank, packages);
    }
  }
}
