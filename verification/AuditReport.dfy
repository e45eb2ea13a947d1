/** The audit's report: which packages are asked about, and the findings in order. */
module AuditReport {
  import opened Orders
  import opened Sequences
  import opened Authoring
  import opened AuditPages

  datatype Severity = Unknown | Low | Moderate | High | Critical

  /** An advisory record as fetched; the record's own ID need not be the one asked for. */
  datatype Record = Record(id: Text, contents: Text)

  /** How the dependency graph reaches a lock entry. */
  type Paths = seq<seq<Text>>

  datatype Finding = Finding(
    id: Text, severity: Severity, package: Text, version: Text, paths: Paths, contents: Text)

  /** What a finding looks up: the severity of a record for a package name, and the paths to a lock entry. */
  datatype Details = Details(severity: (Record, Text) -> Severity, paths: Text -> Paths)

  /** What identifies a finding to its reader: advisory, package and version. */
  function RowOf(f: Finding): (Text, Text, Text) {
    (f.id, f.package, f.version)
  }

  function SeverityRank(severity: Severity): nat {
    match severity
    case Unknown => 0
    case Low => 1
    case Moderate => 2
    case High => 3
    case Critical => 4
  }

  predicate TextLess(a: Text, b: Text) {
    StringLess(a.chars, b.chars)
  }

  predicate ById(a: Package, b: Package) {
    TextLess(a.id, b.id)
  }

  /** Worse findings first, then by package, then by advisory. */
  predicate Worse(a: Finding, b: Finding) {
    if a.severity != b.severity then SeverityRank(a.severity) > SeverityRank(b.severity)
    else if a.package != b.package then TextLess(a.package, b.package)
    else TextLess(a.id, b.id)
  }

  lemma TextOrder(a: Text, b: Text, c: Text)
    ensures TextLess(a, b) || TextLess(b, a) || a == b
    ensures !(TextLess(a, b) && TextLess(b, a)) && !TextLess(a, a)
    ensures TextLess(a, b) && TextLess(b, c) ==> TextLess(a, c)
  {
    StringLessTrichotomy(a.chars, b.chars);
    StringLessTrichotomy(a.chars, a.chars);
    if TextLess(a, b) && TextLess(b, c) {
      StringLessTransitive(a.chars, b.chars, c.chars);
    }
  }

  /** Any linear comparison gives a weak order. */
  lemma LinearIsWeak<T(!new)>(less: (T, T) -> bool)
    requires forall a, b :: !(less(a, b) && less(b, a))
    requires forall a, b, c :: less(a, b) && less(b, c) ==> less(a, c)
    requires forall a, b, c :: Tied(less, a, b) && less(a, c) ==> less(b, c)
    ensures WeakOrder(less)
  {
    forall a, b, c | less(a, c) ensures less(a, b) || less(b, c) {
      assert Tied(less, a, b) || less(a, b) || less(b, a);
    }
  }

  lemma TextIsWeakOrder()
    ensures WeakOrder(TextLess) && forall a, b :: Tied(TextLess, a, b) ==> a == b
  {
    forall a, b, c
      ensures !(TextLess(a, b) && TextLess(b, a)) && (TextLess(a, b) && TextLess(b, c) ==> TextLess(a, c))
      ensures Tied(TextLess, a, b) ==> a == b
    {
      TextOrder(a, b, c);
    }
    LinearIsWeak(TextLess);
  }

  lemma TextIsAsymmetric()
    ensures forall a, b :: !(TextLess(a, b) && TextLess(b, a))
  {
    forall a, b ensures !(TextLess(a, b) && TextLess(b, a)) {
      TextOrder(a, b, b);
    }
  }

  lemma ByIdIsWeakOrder()
    ensures WeakOrder(ById)
  {
    TextIsWeakOrder();
    forall a: Package, b: Package, c: Package
      ensures !(ById(a, b) && ById(b, a)) && (ById(a, b) && ById(b, c) ==> ById(a, c))
    {
      TextOrder(a.id, b.id, c.id);
    }
    LinearIsWeak(ById);
  }

  lemma RankDecides(a: Severity, b: Severity)
    ensures a == b <==> SeverityRank(a) == SeverityRank(b)
  {}

  lemma WorseIsWeakOrder()
    ensures WeakOrder(Worse)
  {
    TextIsWeakOrder();
    forall a, b, c
      ensures !(Worse(a, b) && Worse(b, a))
      ensures Worse(a, b) && Worse(b, c) ==> Worse(a, c)
      ensures Tied(Worse, a, b) && Worse(a, c) ==> Worse(b, c)
    {
      RankDecides(a.severity, b.severity);
      RankDecides(b.severity, c.severity);
      TextOrder(a.package, b.package, c.package);
      TextOrder(a.id, b.id, c.id);
    }
    LinearIsWeak(Worse);
  }

  // ---------------------------------------------------------------------
  // The packages asked about.

  predicate Auditable(p: Package) {
    p.source == SOURCE_NPM && p.name != EMPTY && p.version != EMPTY
  }

  function Ids(packages: seq<Package>): set<Text> {
    set p | p in packages :: p.id
  }

  /** The auditable entries, the first of each ID, in lock order. */
  function Auditables(entries: seq<Package>): seq<Package> {
    if entries == [] then []
    else
      var earlier, last := Auditables(entries[..|entries| - 1]), entries[|entries| - 1];
      if Auditable(last) && last.id !in Ids(earlier) then earlier + [last] else earlier
  }

  method NpmPackages(entries: seq<Package>) returns (packages: seq<Package>)
    ensures packages == StableSort(Auditables(entries), ById)
  {
    packages := [];
    var seen: set<Text> := {};
    for i := 0 to |entries|
      invariant packages == Auditables(entries[..i]) && seen == Ids(packages)
    {
      assert entries[..i + 1][..i] == entries[..i];
      if !Auditable(entries[i]) || entries[i].id in seen {
        continue;
      }
      seen := seen + {entries[i].id};
      packages := packages + [entries[i]];
    }
    assert entries[..|entries|] == entries;
    packages := StableSort(packages, ById);
  }

  lemma {:induction false} AuditablesMeaning(entries: seq<Package>)
    ensures forall p :: p in Auditables(entries) ==> p in entries && Auditable(p)
    ensures forall p :: p in entries && Auditable(p) ==> p.id in Ids(Auditables(entries))
    ensures forall i, j :: 0 <= i < j < |Auditables(entries)| ==> Auditables(entries)[i].id != Auditables(entries)[j].id
  {
    if entries != [] {
      var init, last := entries[..|entries| - 1], entries[|entries| - 1];
      AuditablesMeaning(init);
      var earlier := Auditables(init);
      assert forall p :: p in entries <==> p in init || p == last;
      forall i | 0 <= i < |earlier| ensures earlier[i].id in Ids(earlier) {
        assert earlier[i] in earlier;
      }
    }
  }

  /** The entries an audit is about: packages from npm with a name and a version. */
  predicate IsNpm(p: Package) {
    p.source.chars == "npm" && p.name.chars != "" && p.version.chars != ""
  }

  lemma AuditableIsNpm(p: Package)
    ensures Auditable(p) <==> IsNpm(p)
  {
    assert p.source == SOURCE_NPM <==> p.source.chars == "npm";
  }

  /** Every such entry's ID is asked about exactly once, in the order of the IDs. */
  lemma AuditedOnce(entries: seq<Package>)
    ensures var packages := StableSort(Auditables(entries), ById);
            && (forall p :: p in packages ==> p in entries && IsNpm(p))
            && (forall p :: p in entries && IsNpm(p) ==> exists q :: q in packages && q.id == p.id)
            && (forall i, j :: 0 <= i < j < |packages| ==> TextLess(packages[i].id, packages[j].id))
  {
    var before, packages := Auditables(entries), StableSort(Auditables(entries), ById);
    AuditablesMeaning(entries);
    ByIdIsWeakOrder();
    StableSortCorrect(before, ById);
    SameMembers(before, packages);
    KeysDistinctInPermutation(before, packages, IdOf);
    forall p: Package ensures Auditable(p) <==> IsNpm(p) {
      AuditableIsNpm(p);
    }
    forall p | p in entries && IsNpm(p) ensures exists q :: q in packages && q.id == p.id {
      assert p.id in Ids(before);
    }
    forall i, j | 0 <= i < j < |packages| ensures TextLess(packages[i].id, packages[j].id) {
      TextOrder(packages[i].id, packages[j].id, packages[j].id);
      assert IdOf(packages[i]) != IdOf(packages[j]);
    }
  }

  function IdOf(package: Package): Text {
    package.id
  }

  // ---------------------------------------------------------------------
  // The records.

  /** These records are on file, and are the service's. */
  ghost predicate OnFile(get: Text -> Option<Record>, records: map<Text, Record>) {
    forall id :: id in records ==> get(id) == Some(records[id])
  }

  ghost predicate Fetchable(get: Text -> Option<Record>, ids: seq<set<Text>>, n: nat)
    requires n <= |ids|
  {
    forall i: nat, id :: i < n && id in ids[i] ==> get(id).Some?
  }

  /** What was fetched is what the service holds under that ID. */
  ghost predicate Fetched(get: Text -> Option<Record>, records: map<Text, Record>, ids: seq<set<Text>>, n: nat)
    requires n <= |ids|
  {
    && OnFile(get, records)
    && forall i: nat, id :: i < n && id in ids[i] ==> id in records
  }

  method FetchAll(get: Text -> Option<Record>, ids: set<Text>, records0: map<Text, Record>)
    returns (records: Option<map<Text, Record>>)
    requires OnFile(get, records0)
    ensures records.Some? <==> forall id :: id in ids ==> get(id).Some?
    ensures records.Some? ==> OnFile(get, records.value) && records0.Keys + ids <= records.value.Keys
  {
    var found, rest := records0, ids;
    while rest != {}
      invariant rest <= ids && records0.Keys <= found.Keys && ids - rest <= found.Keys
      invariant OnFile(get, found)
      decreases |rest|
    {
      var id :| id in rest;
      rest := rest - {id};
      if id in found {
        continue;
      }
      var record := get(id);
      if record.None? {
        return None;
      }
      found := found[id := record.value];
    }
    forall id | id in ids ensures get(id).Some? {
      assert id in found.Keys;
    }
    return Some(found);
  }

  method FetchRecords(get: Text -> Option<Record>, ids: seq<set<Text>>) returns (records: Option<map<Text, Record>>)
    ensures records.Some? <==> Fetchable(get, ids, |ids|)
    ensures records.Some? ==> Fetched(get, records.value, ids, |ids|)
  {
    var found: map<Text, Record> := map[];
    for i := 0 to |ids|
      invariant Fetchable(get, ids, i) && Fetched(get, found, ids, i)
    {
      var more := FetchAll(get, ids[i], found);
      if more.None? {
        return None;
      }
      found := more.value;
    }
    return Some(found);
  }

  // ---------------------------------------------------------------------
  // The findings.

  /** The set's members in increasing order. */
  ghost predicate ListsSet(list: seq<Text>, ids: set<Text>) {
    Increasing(list, TextLess) && forall id :: id in list <==> id in ids
  }

  ghost function ListOf(ids: set<Text>): seq<Text> {
    if list :| ListsSet(list, ids) then list else []
  }

  /** There is only one such list. */
  lemma OnlyList(list: seq<Text>, ids: set<Text>)
    requires ListsSet(list, ids)
    ensures ListOf(ids) == list
  {
    TextIsAsymmetric();
    IncreasingUnique(ListOf(ids), list, TextLess);
  }

  /** And there is one. */
  lemma {:induction false} SomeList(ids: set<Text>) returns (list: seq<Text>)
    ensures NoRepeats(list) && forall id :: id in list <==> id in ids
  {
    if ids == {} {
      list := [];
    } else {
      var id :| id in ids;
      var rest := SomeList(ids - {id});
      NoRepeatsNext(rest, id);
      list := rest + [id];
    }
  }

  lemma ListOfMeaning(ids: set<Text>)
    ensures ListsSet(ListOf(ids), ids)
  {
    var list := SomeList(ids);
    IncreasingSort(list);
    OnlyList(StableSort(list, TextLess), ids);
  }

  method Sorted(ids: set<Text>) returns (list: seq<Text>)
    ensures list == ListOf(ids) && ListsSet(list, ids)
  {
    list := [];
    var rest := ids;
    while rest != {}
      invariant rest <= ids && (forall id :: id in list <==> id in ids && id !in rest)
      invariant NoRepeats(list)
      decreases |rest|
    {
      var id :| id in rest;
      NoRepeatsNext(list, id);
      rest := rest - {id};
      list := list + [id];
    }
    IncreasingSort(list);
    list := StableSort(list, TextLess);
    OnlyList(list, ids);
  }

  lemma IncreasingSort(list: seq<Text>)
    requires NoRepeats(list)
    ensures Increasing(StableSort(list, TextLess), TextLess)
    ensures forall id :: id in StableSort(list, TextLess) <==> id in list
  {
    var sorted := StableSort(list, TextLess);
    TextIsWeakOrder();
    StableSortCorrect(list, TextLess);
    SameMembers(list, sorted);
    forall i, j | 0 <= i < j < |sorted| ensures TextLess(sorted[i], sorted[j]) {
      TextOrder(sorted[i], sorted[j], sorted[j]);
      if sorted[i] == sorted[j] {
        TwoOccurrences(sorted, i, j);
        assert sorted[i] in sorted;
        var k :| 0 <= k < |list| && list[k] == sorted[i];
        OneOccurrence(list, k);
      }
    }
  }

  function FindingOf(details: Details, package: Package, record: Record): Finding {
    Finding(record.id, details.severity(record, package.name), package.name, package.version,
            details.paths(package.id), record.contents)
  }

  function RecordOf(get: Text -> Option<Record>, id: Text): Record {
    match get(id) case Some(record) => record case None => Record(id, EMPTY)
  }

  function FindingsFor(details: Details, get: Text -> Option<Record>, package: Package,
                       ids: seq<Text>): (findings: seq<Finding>)
    ensures |findings| == |ids|
    ensures forall k :: 0 <= k < |ids| ==> findings[k] == FindingOf(details, package, RecordOf(get, ids[k]))
  {
    seq(|ids|, k requires 0 <= k < |ids| => FindingOf(details, package, RecordOf(get, ids[k])))
  }

  ghost function Parts(details: Details, get: Text -> Option<Record>, packages: seq<Package>,
                       ids: seq<set<Text>>): (parts: seq<seq<Finding>>)
    requires |ids| == |packages|
    ensures |parts| == |packages|
    ensures forall i :: 0 <= i < |parts| ==> parts[i] == FindingsFor(details, get, packages[i], ListOf(ids[i]))
  {
    seq(|packages|, i requires 0 <= i < |packages| => FindingsFor(details, get, packages[i], ListOf(ids[i])))
  }

  /** The findings package by package, each package's in the order of the advisories. */
  ghost function Found(details: Details, get: Text -> Option<Record>, packages: seq<Package>,
                       ids: seq<set<Text>>): seq<Finding>
    requires |ids| == |packages|
  {
    Concat(Parts(details, get, packages, ids), |packages|)
  }

  method AddFindings(details: Details, ghost get: Text -> Option<Record>, records: map<Text, Record>,
                     package: Package, ids: seq<Text>)
    returns (findings: seq<Finding>)
    requires OnFile(get, records)
    requires forall id :: id in ids ==> id in records
    ensures findings == FindingsFor(details, get, package, ids)
  {
    findings := [];
    for k := 0 to |ids|
      invariant findings == FindingsFor(details, get, package, ids)[..k]
    {
      assert ids[k] in ids;
      findings := findings + [FindingOf(details, package, records[ids[k]])];
    }
  }

  method Assemble(details: Details, ghost get: Text -> Option<Record>, records: map<Text, Record>,
                  packages: seq<Package>, ids: seq<set<Text>>)
    returns (findings: seq<Finding>)
    requires |ids| == |packages| && Fetched(get, records, ids, |ids|)
    ensures findings == Found(details, get, packages, ids)
  {
    findings := [];
    for i := 0 to |packages|
      invariant findings == Found(details, get, packages[..i], ids[..i])
    {
      var list := Sorted(ids[i]);
      var more := AddFindings(details, get, records, packages[i], list);
      FoundNext(details, get, packages, i, ids);
      findings := findings + more;
    }
    assert packages[..|packages|] == packages && ids[..|ids|] == ids;
  }

  lemma FoundNext(details: Details, get: Text -> Option<Record>, packages: seq<Package>, i: nat,
                  ids: seq<set<Text>>)
    requires i < |packages| && |ids| == |packages|
    ensures Found(details, get, packages[..i + 1], ids[..i + 1]) ==
            Found(details, get, packages[..i], ids[..i]) + FindingsFor(details, get, packages[i], ListOf(ids[i]))
  {
    ConcatSame(Parts(details, get, packages[..i + 1], ids[..i + 1]), Parts(details, get, packages[..i], ids[..i]), i);
  }

  /** What the paging loop collects, package by package. */
  ghost function CollectedIds(c: Client, rank: Query -> nat, packages: seq<Package>): (ids: seq<set<Text>>)
    requires Finite(c, rank)
    ensures |ids| == |packages| && forall i :: 0 <= i < |packages| ==> ids[i] == Collected(c, rank, packages, i)
  {
    seq(|packages|, i requires 0 <= i < |packages| => Collected(c, rank, packages, i))
  }

  /** The report on these packages. */
  ghost function Report(c: Client, rank: Query -> nat, packages: seq<Package>, get: Text -> Option<Record>,
                        details: Details): seq<Finding>
    requires Finite(c, rank)
  {
    StableSort(Found(details, get, packages, CollectedIds(c, rank, packages)), Worse)
  }

  ghost predicate CanFetch(c: Client, rank: Query -> nat, packages: seq<Package>, get: Text -> Option<Record>)
    requires Finite(c, rank)
  {
    forall i: nat, id :: i < |packages| && id in Collected(c, rank, packages, i) ==> get(id).Some?
  }

  lemma FetchableIsCanFetch(c: Client, rank: Query -> nat, packages: seq<Package>, get: Text -> Option<Record>)
    requires Finite(c, rank)
    ensures Fetchable(get, CollectedIds(c, rank, packages), |packages|) <==> CanFetch(c, rank, packages, get)
  {}

  lemma NothingToAsk(c: Client, rank: Query -> nat, get: Text -> Option<Record>, details: Details)
    requires Finite(c, rank)
    ensures AllAnswered(c, rank, FirstQueries([])) && CanFetch(c, rank, [], get) &&
            Report(c, rank, [], get, details) == []
  {}

  /** Scans a lock file: no report if a batch or a record cannot be had; else the sorted findings. */
  method ScanLock(entries: seq<Package>, c: Client, get: Text -> Option<Record>, details: Details,
                  ghost rank: Query -> nat)
    returns (report: Option<seq<Finding>>)
    requires Finite(c, rank)
    ensures var packages := StableSort(Auditables(entries), ById);
            && (report.Some? <==> AllAnswered(c, rank, FirstQueries(packages)) && CanFetch(c, rank, packages, get))
            && (report.Some? ==> report.value == Report(c, rank, packages, get, details))
  {
    var packages := NpmPackages(entries);
    if |packages| == 0 {
      NothingToAsk(c, rank, get, details);
      return Some([]);
    }
    var ids := CollectIds(c, packages, rank);
    if ids.None? {
      return None;
    }
    assert ids.value == CollectedIds(c, rank, packages);
    FetchableIsCanFetch(c, rank, packages, get);
    var records := FetchRecords(get, ids.value);
    if records.None? {
      return None;
    }
    var findings := Assemble(details, get, records.value, packages, ids.value);
    report := Some(StableSort(findings, Worse));
  }

  // ---------------------------------------------------------------------
  // What a report says.

  ghost predicate Reported(c: Client, rank: Query -> nat, packages: seq<Package>, get: Text -> Option<Record>,
                           details: Details, f: Finding)
    requires Finite(c, rank)
  {
    exists i: nat, id :: i < |packages| && id in Collected(c, rank, packages, i) &&
        var package, record := packages[i], RecordOf(get, id);
        f == Finding(record.id, details.severity(record, package.name), package.name, package.version,
                     details.paths(package.id), record.contents)
  }

  lemma InFound(details: Details, get: Text -> Option<Record>, packages: seq<Package>, ids: seq<set<Text>>,
                f: Finding)
    requires |ids| == |packages|
    ensures f in Found(details, get, packages, ids) <==>
            exists i: nat, id :: i < |packages| && id in ids[i] &&
                f == FindingOf(details, packages[i], RecordOf(get, id))
  {
    var parts := Parts(details, get, packages, ids);
    ConcatMember(parts, |packages|, f);
    if i: nat, id :| i < |packages| && id in ids[i] && f == FindingOf(details, packages[i], RecordOf(get, id)) {
      ListOfMeaning(ids[i]);
      var k :| 0 <= k < |ListOf(ids[i])| && ListOf(ids[i])[k] == id;
      assert parts[i][k] == f;
    }
    if p :| 0 <= p < |packages| && f in parts[p] {
      ListOfMeaning(ids[p]);
      var k :| 0 <= k < |parts[p]| && parts[p][k] == f;
      assert ListOf(ids[p])[k] in ListOf(ids[p]);
    }
  }

  /** The findings are exactly the pairs of a package and an advisory collected for it, worst first. */
  lemma FindingsAreExact(c: Client, rank: Query -> nat, packages: seq<Package>, get: Text -> Option<Record>,
                         details: Details, f: Finding)
    requires Finite(c, rank)
    ensures Ordered(Report(c, rank, packages, get, details), Worse)
    ensures f in Report(c, rank, packages, get, details) <==> Reported(c, rank, packages, get, details, f)
  {
    var ids := CollectedIds(c, rank, packages);
    var found := Found(details, get, packages, ids);
    WorseIsWeakOrder();
    StableSortCorrect(found, Worse);
    SameMembers(found, StableSort(found, Worse));
    InFound(details, get, packages, ids, f);
  }

  const WORST_FIRST := [Critical, High, Moderate, Low, Unknown]

  /** Worse findings come first; equally bad ones by the name of the package, and those by the advisory. */
  lemma WorstComeFirst(c: Client, rank: Query -> nat, packages: seq<Package>, get: Text -> Option<Record>,
                       details: Details, i: nat, j: nat, m: nat, n: nat)
    requires Finite(c, rank) && i < j < |Report(c, rank, packages, get, details)|
    requires m < 5 && n < 5 && Report(c, rank, packages, get, details)[i].severity == WORST_FIRST[m] &&
             Report(c, rank, packages, get, details)[j].severity == WORST_FIRST[n]
    ensures var a, b := Report(c, rank, packages, get, details)[i], Report(c, rank, packages, get, details)[j];
            || m < n
            || (m == n && (StringLess(a.package.chars, b.package.chars) ||
                           (a.package == b.package && (a.id == b.id || StringLess(a.id.chars, b.id.chars)))))
  {
    var a, b := Report(c, rank, packages, get, details)[i], Report(c, rank, packages, get, details)[j];
    FindingsAreExact(c, rank, packages, get, details, a);
    assert !Worse(b, a);
    StringLessTrichotomy(a.package.chars, b.package.chars);
    StringLessTrichotomy(a.id.chars, b.id.chars);
  }

  /** If the service returns the records it is asked for, no two findings have the same advisory, package and
  version: two packages of one name and version do not both get advisories. */
  lemma FindingsListedOnce(c: Client, rank: Query -> nat, packages: seq<Package>, get: Text -> Option<Record>,
                           details: Details)
    requires Finite(c, rank)
    requires forall id :: RecordOf(get, id).id == id
    ensures KeysDistinct(Report(c, rank, packages, get, details), RowOf)
  {
    var ids := CollectedIds(c, rank, packages);
    var found := Found(details, get, packages, ids);
    forall p | 0 <= p < |packages| ensures KeysDistinct(Parts(details, get, packages, ids)[p], RowOf) {
      RowsWithinPackage(details, get, packages[p], ids[p]);
    }
    forall p, q, x, y | 0 <= p < q < |packages| && x in Parts(details, get, packages, ids)[p] &&
                        y in Parts(details, get, packages, ids)[q]
      ensures RowOf(x) != RowOf(y)
    {
      RowsAcrossPackages(c, rank, packages, get, details, p, q, x, y);
    }
    ConcatKeysDistinct(Parts(details, get, packages, ids), |packages|, RowOf);
    WorseIsWeakOrder();
    StableSortCorrect(found, Worse);
    KeysDistinctInPermutation(found, StableSort(found, Worse), RowOf);
  }

  lemma RowsWithinPackage(details: Details, get: Text -> Option<Record>, package: Package, ids: set<Text>)
    requires forall id :: RecordOf(get, id).id == id
    ensures KeysDistinct(FindingsFor(details, get, package, ListOf(ids)), RowOf)
  {
    var list := ListOf(ids);
    ListOfMeaning(ids);
    forall k, l | 0 <= k < l < |list|
      ensures RowOf(FindingsFor(details, get, package, list)[k]) != RowOf(FindingsFor(details, get, package, list)[l])
    {
      TextOrder(list[k], list[l], list[l]);
      assert TextLess(list[k], list[l]);
    }
  }

  lemma RowsAcrossPackages(c: Client, rank: Query -> nat, packages: seq<Package>, get: Text -> Option<Record>,
                           details: Details, p: nat, q: nat, x: Finding, y: Finding)
    requires Finite(c, rank) && p < q < |packages|
    requires x in Parts(details, get, packages, CollectedIds(c, rank, packages))[p]
    requires y in Parts(details, get, packages, CollectedIds(c, rank, packages))[q]
    ensures RowOf(x) != RowOf(y)
  {
    var ids := CollectedIds(c, rank, packages);
    var k :| 0 <= k < |ListOf(ids[q])| && y == FindingsFor(details, get, packages[q], ListOf(ids[q]))[k];
    ListOfMeaning(ids[q]);
    assert ListOf(ids[q])[k] in Collected(c, rank, packages, q);
    FirstIsOwn(packages, q);
    assert !Matches(packages[p], packages[q].name, packages[q].version);
  }

  /** An advisory that the service has for a package, as a reader identifies it. */
  ghost predicate Affected(c: Client, packages: seq<Package>, row: (Text, Text, Text)) {
    exists i: nat :: i < |packages| && row.1 == packages[i].name && row.2 == packages[i].version &&
                     OnPagesFrom(c, packages[i].name, packages[i].version, Text(""), row.0)
  }

  lemma RowIsAffected(c: Client, rank: Query -> nat, packages: seq<Package>, get: Text -> Option<Record>,
                      details: Details, row: (Text, Text, Text))
    requires Finite(c, rank) && LosesNothing(c, rank, packages)
    requires forall id :: RecordOf(get, id).id == id
    ensures (exists f :: f in Report(c, rank, packages, get, details) && RowOf(f) == row) <==>
            Affected(c, packages, row)
  {
    if f :| f in Report(c, rank, packages, get, details) && RowOf(f) == row {
      FindingsAreExact(c, rank, packages, get, details, f);
      var i: nat, id :| i < |packages| && id in Collected(c, rank, packages, i) &&
                        RowOf(f) == (id, packages[i].name, packages[i].version);
      AllIdsMeaning(c, rank, packages[i].name, packages[i].version, EMPTY, id);
    }
    if i: nat :| i < |packages| && row.1 == packages[i].name && row.2 == packages[i].version &&
                 OnPagesFrom(c, packages[i].name, packages[i].version, Text(""), row.0) {
      AllIdsMeaning(c, rank, packages[i].name, packages[i].version, EMPTY, row.0);
      var f := FindingOf(details, packages[i], RecordOf(get, row.0));
      assert row.0 in Collected(c, rank, packages, i);
      FindingsAreExact(c, rank, packages, get, details, f);
      assert RowOf(f) == row;
    }
  }

  /** The audit's promise: if no two packages share name and version and the service returns the records it is asked
  for, the report has exactly one finding for each package and advisory on any of its pages, and is in order. */
  lemma ReportIsComplete(c: Client, rank: Query -> nat, packages: seq<Package>, get: Text -> Option<Record>,
                         details: Details)
    requires Finite(c, rank) && NamesDistinct(packages)
    requires forall id :: RecordOf(get, id).id == id
    ensures var report := Report(c, rank, packages, get, details);
            && Ordered(report, Worse) && KeysDistinct(report, RowOf)
            && forall row :: (exists f :: f in report && RowOf(f) == row) <==> Affected(c, packages, row)
  {
    WorseIsWeakOrder();
    StableSortCorrect(Found(details, get, packages, CollectedIds(c, rank, packages)), Worse);
    FindingsListedOnce(c, rank, packages, get, details);
    DistinctLosesNothing(c, rank, packages);
    forall row
      ensures (exists f :: f in Report(c, rank, packages, get, details) && RowOf(f) == row) <==>
              Affected(c, packages, row)
    {
      RowIsAffected(c, rank, packages, get, details, row);
    }
  }

  // ---------------------------------------------------------------------
  // A package beside its patched self.

  /** The lock entry of an npm package. */
  function Raw(name: Text, version: Text): Package {
    Package(Text("npm:" + name.chars + "@" + version.chars), SOURCE_NPM, name, version)
  }

  /** The lock entry of its patched realization. */
  function Patched(name: Text, version: Text, patch: string): Package {
    Package(Text(Raw(name, version).id.chars + "#patch=" + patch), SOURCE_NPM, name, version)
  }

  lemma {:induction false} PrefixIsLess(a: string, b: string)
    requires b != ""
    ensures StringLess(a, a + b)
  {
    if a != "" {
      PrefixIsLess(a[1..], b);
      assert (a + b)[1..] == a[1..] + b;
    }
  }

  /** A lock file may hold a package and its patched realization, under different IDs but with one name and
  version. Then the patched one is reported clean, whatever the service has for it. */
  lemma PatchedIsReportedClean(name: Text, version: Text, patch: string, id: Text, rank: Query -> nat)
    requires name != EMPTY && version != EMPTY
    ensures var packages := StableSort(Auditables([Raw(name, version), Patched(name, version, patch)]), ById);
            && packages == [Raw(name, version), Patched(name, version, patch)]
            && Finite(OneAdvisory(id), rank)
            && Collected(OneAdvisory(id), rank, packages, 1) == {}
            && id in AllIds(OneAdvisory(id), rank, FirstQuery(packages[1]))
  {
    var raw, patched := Raw(name, version), Patched(name, version, patch);
    var packages := [raw, patched];
    PrefixIsLess(raw.id.chars, "#patch=" + patch);
    assert raw.id.chars + ("#patch=" + patch) == patched.id.chars;
    TextOrder(raw.id, patched.id, patched.id);
    assert [raw, patched][..1] == [raw] && [raw][..0] == [];
    assert Auditables([raw]) == [raw];
    assert patched.id !in Ids([raw]);
    assert Auditables(packages) == packages;
    ByIdIsWeakOrder();
    assert Ordered(packages, ById);
    SortOfOrdered(packages, ById);
    RepeatedNamesLose(packages, 0, 1, id, rank);
  }
}
