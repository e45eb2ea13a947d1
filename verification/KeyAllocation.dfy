/** How a migration gives each dependency a key of its own. */
module KeyAllocation {
  import opened Orders
  import opened Sequences
  import opened Authoring
  import opened Decimals

  /** Which package holds each key. */
  type Used = map<Text, Text>

  const FALLBACK := Text("dependency")

  /** The key a package would like. How a name becomes an identifier is a parameter. */
  function Base(identifier: Text -> Text, name: Text): Text {
    if identifier(name) == EMPTY then FALLBACK else identifier(name)
  }

  function Candidate(base: Text, n: nat): Text {
    Text(base.chars + Decimal(n))
  }

  // ---------------------------------------------------------------------
  // The suffix search.

  lemma CandidatesDiffer(base: Text, m: nat, n: nat)
    ensures Candidate(base, m) != base
    ensures Candidate(base, m) == Candidate(base, n) ==> m == n
  {
    assert |Candidate(base, m).chars| > |base.chars|;
    if Candidate(base, m) == Candidate(base, n) {
      assert (base.chars + Decimal(m))[|base.chars|..] == Decimal(m);
      assert (base.chars + Decimal(n))[|base.chars|..] == Decimal(n);
      DecimalInjective(m, n);
    }
  }

  /** The key and its candidates with suffixes 2 to `n - 1` are all taken. */
  ghost predicate TakenBelow(used: Used, base: Text, n: nat) {
    n >= 2 && base in used && forall m: nat :: 2 <= m < n ==> Candidate(base, m) in used
  }

  /** Distinct taken candidates are no more than there are keys. */
  lemma {:induction false} TakenAtMost(used: Used, base: Text, n: nat)
    requires TakenBelow(used, base, n)
    ensures n <= |used| + 1
  {
    if n == 2 {
      assert base in used.Keys;
    } else {
      var last := Candidate(base, n - 1);
      var fewer := used - {last};
      CandidatesDiffer(base, n - 1, n - 1);
      forall m: nat | 2 <= m < n - 1 ensures Candidate(base, m) in fewer {
        CandidatesDiffer(base, m, n - 1);
      }
      TakenAtMost(fewer, base, n - 1);
      assert fewer.Keys == used.Keys - {last};
    }
  }

  /** The first free suffix from `n` on; the search is finite because only finitely many keys are taken. */
  function Suffix(used: Used, base: Text, n: nat): (suffix: nat)
    requires TakenBelow(used, base, n)
    decreases |used| + 2 - n
  {
    TakenAtMost(used, base, n);
    if Candidate(base, n) !in used then n
    else
      Suffix(used, base, n + 1)
  }

  lemma {:induction false} SuffixIsFirstFree(used: Used, base: Text, n: nat)
    requires TakenBelow(used, base, n)
    ensures var suffix := Suffix(used, base, n);
            TakenBelow(used, base, suffix) && Candidate(base, suffix) !in used && n <= suffix <= |used| + 1
    decreases |used| + 2 - n
  {
    TakenAtMost(used, base, n);
    if Candidate(base, n) in used {
      SuffixIsFirstFree(used, base, n + 1);
    }
  }

  /** The key for a package: its base unless another package holds that, else the first free candidate. */
  function KeyFor(used: Used, base: Text, name: Text): Text {
    if base !in used || used[base] == name then base else Candidate(base, Suffix(used, base, 2))
  }

  /** A key is never taken from the package that holds it. */
  lemma KeyIsOwn(used: Used, base: Text, name: Text)
    ensures var key := KeyFor(used, base, name); key in used ==> key == base && used[key] == name
    ensures KeyFor(used, base, name) == base <==> base !in used || used[base] == name
  {
    if base in used && used[base] != name {
      SuffixIsFirstFree(used, base, 2);
      CandidatesDiffer(base, Suffix(used, base, 2), 0);
    }
  }

  /** The key is the package's identifier, or `dependency` if it has none; where another package holds that, it is
  followed by the least number from 2 on that makes a free key. */
  lemma KeyMeaning(identifier: Text -> Text, used: Used, name: Text)
    ensures var wish := if identifier(name).chars == "" then Text("dependency") else identifier(name);
            var key := KeyFor(used, Base(identifier, name), name);
            if wish !in used || used[wish] == name then key == wish
            else
              && key !in used
              && exists n: nat :: n >= 2 && key.chars == wish.chars + Decimal(n) && Value(Decimal(n)) == n &&
                                  forall m: nat :: 2 <= m < n ==> Text(wish.chars + Decimal(m)) in used
  {
    assert identifier(name).chars == "" <==> identifier(name) == EMPTY;
    var base := Base(identifier, name);
    if base in used && used[base] != name {
      var n := Suffix(used, base, 2);
      SuffixIsFirstFree(used, base, 2);
      DecimalMeaning(n);
      forall m: nat | 2 <= m < n ensures Text(base.chars + Decimal(m)) in used {
        assert Candidate(base, m) in used;
      }
    }
  }

  // ---------------------------------------------------------------------
  // Runs of allocations.

  /** Who holds which key after the given packages were allocated keys in order. */
  function UsedAfter(identifier: Text -> Text, names: seq<Text>): Used {
    if names == [] then map[]
    else
      var used, name := UsedAfter(identifier, names[..|names| - 1]), names[|names| - 1];
      used[KeyFor(used, Base(identifier, name), name) := name]
  }

  /** The key that the `i`th package gets. */
  function KeyAt(identifier: Text -> Text, names: seq<Text>, i: nat): Text
    requires i < |names|
  {
    KeyFor(UsedAfter(identifier, names[..i]), Base(identifier, names[i]), names[i])
  }

  /** The key of an allocation depends only on it and those before it. */
  lemma KeyOfPrefix(identifier: Text -> Text, names: seq<Text>, n: nat, i: nat)
    requires i < n <= |names|
    ensures KeyAt(identifier, names[..n], i) == KeyAt(identifier, names, i)
  {
    assert names[..n][..i] == names[..i];
  }

  /** The map of used keys is write-once: what is in it stays. */
  lemma {:induction false} WriteOnce(identifier: Text -> Text, names: seq<Text>, i: nat, key: Text)
    requires i <= |names| && key in UsedAfter(identifier, names[..i])
    ensures key in UsedAfter(identifier, names)
    ensures UsedAfter(identifier, names)[key] == UsedAfter(identifier, names[..i])[key]
  {
    if i == |names| {
      assert names[..i] == names;
    } else {
      var n := |names| - 1;
      assert names[..n][..i] == names[..i];
      WriteOnce(identifier, names[..n], i, key);
      KeyIsOwn(UsedAfter(identifier, names[..n]), Base(identifier, names[n]), names[n]);
    }
  }

  lemma HoldsAfter(identifier: Text -> Text, names: seq<Text>, i: nat, n: nat)
    requires i < n <= |names|
    ensures var used := UsedAfter(identifier, names[..n]);
            KeyAt(identifier, names, i) in used && used[KeyAt(identifier, names, i)] == names[i]
  {
    assert names[..i + 1][..i] == names[..i];
    assert names[..n][..i + 1] == names[..i + 1];
    WriteOnce(identifier, names[..n], i + 1, KeyAt(identifier, names, i));
  }

  /** Keys never alias: one key means one package. */
  lemma KeysNeverAlias(identifier: Text -> Text, names: seq<Text>, i: nat, j: nat)
    requires i < |names| && j < |names| && KeyAt(identifier, names, i) == KeyAt(identifier, names, j)
    ensures names[i] == names[j]
  {
    HoldsAfter(identifier, names, i, |names|);
    HoldsAfter(identifier, names, j, |names|);
  }

  /** A package allocated twice keeps its key exactly if the first time it got its base. */
  lemma SameKeyAgain(identifier: Text -> Text, names: seq<Text>, i: nat, j: nat)
    requires i < j < |names| && names[i] == names[j]
    ensures KeyAt(identifier, names, i) == KeyAt(identifier, names, j)
            <==> KeyAt(identifier, names, i) == Base(identifier, names[i])
  {
    var base := Base(identifier, names[i]);
    var atFirst, later := UsedAfter(identifier, names[..i]), UsedAfter(identifier, names[..j]);
    HoldsAfter(identifier, names, i, j);
    KeyIsOwn(atFirst, base, names[i]);
    KeyIsOwn(later, base, names[j]);
  }

  /** That is, unless an earlier package was given that very key. */
  lemma BaseIsGiven(identifier: Text -> Text, names: seq<Text>, i: nat)
    requires i < |names|
    ensures KeyAt(identifier, names, i) == Base(identifier, names[i])
            <==> forall h: nat :: h < i && KeyAt(identifier, names, h) == Base(identifier, names[i]) ==>
                names[h] == names[i]
  {
    var used, base := UsedAfter(identifier, names[..i]), Base(identifier, names[i]);
    KeyIsOwn(used, base, names[i]);
    forall h: nat | h < i && KeyAt(identifier, names, h) == base ensures base in used && used[base] == names[h] {
      HoldsAfter(identifier, names, h, i);
    }
    if base in used {
      GivenBefore(identifier, names, i, base);
    }
  }

  lemma {:induction false} GivenBefore(identifier: Text -> Text, names: seq<Text>, n: nat, key: Text)
    requires n <= |names| && key in UsedAfter(identifier, names[..n])
    ensures exists h: nat :: h < n && KeyAt(identifier, names, h) == key
  {
    assert names[..n][..n - 1] == names[..n - 1];
    if key != KeyAt(identifier, names, n - 1) {
      GivenBefore(identifier, names, n - 1, key);
    }
  }

  /** Two packages that would like one key: the second, listed again, gets a second key. */
  lemma ListedTwiceUnderTwoKeys(identifier: Text -> Text, p: Text, q: Text)
    requires p != q && Base(identifier, p) == Base(identifier, q)
    ensures KeyAt(identifier, [p, q, q], 1) != KeyAt(identifier, [p, q, q], 2)
  {
    var names := [p, q, q];
    assert names[..0] == [] && names[..1][..0] == [];
    assert KeyAt(identifier, names, 0) == Base(identifier, p);
    BaseIsGiven(identifier, names, 1);
    SameKeyAgain(identifier, names, 1, 2);
  }

  // ---------------------------------------------------------------------
  // The allocator.

  /** The draft's record of collisions: which package got which candidate. */
  datatype Collision = Collision(package: Text, candidate: Text)

  class Draft {
    var duplicatePeerDeps: seq<Text>
    var identifierCollisions: seq<Collision>

    constructor ()
      ensures duplicatePeerDeps == [] && identifierCollisions == []
    {
      duplicatePeerDeps, identifierCollisions := [], [];
    }
  }

  function CollisionOf(base: Text, name: Text, key: Text): seq<Collision> {
    if key == base then [] else [Collision(name, key)]
  }

  /** Tries suffixes from 2 on; it stops within as many tries as there are keys. */
  method FreeCandidate(used: Used, key: Text) returns (candidate: Text)
    requires key in used
    ensures candidate == Candidate(key, Suffix(used, key, 2))
  {
    var suffix := 2;
    while true
      invariant TakenBelow(used, key, suffix) && Suffix(used, key, 2) == Suffix(used, key, suffix)
      decreases |used| + 2 - suffix
    {
      TakenAtMost(used, key, suffix);
      candidate := Candidate(key, suffix);
      if candidate !in used {
        return;
      }
      suffix := suffix + 1;
    }
  }

  method MigrationIdentifierForPackage(identifier: Text -> Text, packageName: Text, used0: Used, draft: Draft)
    returns (key: Text, used: Used)
    modifies draft`identifierCollisions
    ensures key == KeyFor(used0, Base(identifier, packageName), packageName)
    ensures used == used0[key := packageName]
    ensures draft.identifierCollisions ==
            old(draft.identifierCollisions) + CollisionOf(Base(identifier, packageName), packageName, key)
  {
    used := used0;
    key := identifier(packageName);
    if key == EMPTY {
      key := FALLBACK;
    }
    if key !in used {
      used := used[key := packageName];
      return;
    } else if used[key] == packageName {
      assert used[key := packageName] == used;
      return;
    }
    KeyIsOwn(used0, key, packageName);
    var candidate := FreeCandidate(used, key);
    used := used[candidate := packageName];
    draft.identifierCollisions := draft.identifierCollisions + [Collision(packageName, candidate)];
    key := candidate;
  }

  // ---------------------------------------------------------------------
  // The migration of the four dependency sections.

  /** A dependency section: its entries in the order of their names. */
  datatype Entry = Entry(name: Text, range: Text, optional: bool)

  datatype Package = Package(peers: seq<Entry>, dependencies: seq<Entry>, optionals: seq<Entry>, dev: seq<Entry>)

  datatype Kind = Peer | Dep | OptionalDep | Tool

  datatype Wanted = Wanted(entry: Entry, kind: Kind, knownTool: bool, needsTodo: bool)

  datatype Migrated = Migrated(key: Text, wanted: Wanted)

  function Names(entries: seq<Entry>): (names: seq<Text>)
    ensures |names| == |entries| && forall i :: 0 <= i < |entries| ==> names[i] == entries[i].name
  {
    seq(|entries|, i requires 0 <= i < |entries| => entries[i].name)
  }

  function Want(entry: Entry, kind: Kind, known: Text -> bool): Wanted {
    match kind
    case Peer => Wanted(entry, kind, false, false)
    case Tool => Wanted(entry, kind, known(entry.name), !known(entry.name))
    case _ => Wanted(entry, kind, false, true)
  }

  /** A section without the packages that are peers. */
  function Kept(entries: seq<Entry>, kind: Kind, known: Text -> bool, peers: seq<Text>): seq<Wanted> {
    if entries == [] then []
    else
      var last := entries[|entries| - 1];
      Kept(entries[..|entries| - 1], kind, known, peers) + if last.name in peers then [] else [Want(last, kind, known)]
  }

  function Dropped(entries: seq<Entry>, peers: seq<Text>): seq<Text> {
    if entries == [] then []
    else
      var last := entries[|entries| - 1];
      Dropped(entries[..|entries| - 1], peers) + if last.name in peers then [last.name] else []
  }

  /** Everything the migration emits, in order. */
  function AllWanted(pkg: Package, known: Text -> bool): seq<Wanted> {
    var peers := Names(pkg.peers);
    Kept(pkg.peers, Peer, known, [])
    + Kept(pkg.dependencies, Dep, known, peers)
    + Kept(pkg.optionals, OptionalDep, known, peers)
    + Kept(pkg.dev, Tool, known, peers)
  }

  function WantedNames(wanted: seq<Wanted>): (names: seq<Text>)
    ensures |names| == |wanted| && forall i :: 0 <= i < |wanted| ==> names[i] == wanted[i].entry.name
  {
    seq(|wanted|, i requires 0 <= i < |wanted| => wanted[i].entry.name)
  }

  /** The wanted dependencies with the keys that allocation in order gives them. */
  function Keyed(identifier: Text -> Text, wanted: seq<Wanted>): (deps: seq<Migrated>)
    ensures |deps| == |wanted|
    ensures forall i :: 0 <= i < |wanted| ==>
                          deps[i] == Migrated(KeyAt(identifier, WantedNames(wanted), i), wanted[i])
  {
    seq(|wanted|, i requires 0 <= i < |wanted| => Migrated(KeyAt(identifier, WantedNames(wanted), i), wanted[i]))
  }

  function Collisions(identifier: Text -> Text, names: seq<Text>): seq<Collision> {
    if names == [] then []
    else
      var n := |names| - 1;
      Collisions(identifier, names[..n])
      + CollisionOf(Base(identifier, names[n]), names[n], KeyAt(identifier, names, n))
  }

  /** The migration's variables after emitting `wanted`. */
  ghost predicate Emitted(identifier: Text -> Text, wanted: seq<Wanted>, deps: seq<Migrated>, used: Used,
                          collisions: seq<Collision>, before: seq<Collision>) {
    && deps == Keyed(identifier, wanted) && used == UsedAfter(identifier, WantedNames(wanted))
    && collisions == before + Collisions(identifier, WantedNames(wanted))
  }

  lemma Snoc<T>(s: seq<T>, x: T)
    ensures (s + [x])[..|s|] == s && (s + [x])[|s|] == x && |s + [x]| == |s| + 1
  {}

  lemma NamesAppend(wanted: seq<Wanted>, more: Wanted)
    ensures WantedNames(wanted + [more]) == WantedNames(wanted) + [more.entry.name]
  {}

  lemma KeyNext(identifier: Text -> Text, names: seq<Text>, name: Text)
    ensures KeyAt(identifier, names + [name], |names|) ==
            KeyFor(UsedAfter(identifier, names), Base(identifier, name), name)
  {
    Snoc(names, name);
  }

  lemma UsedNext(identifier: Text -> Text, names: seq<Text>, name: Text)
    ensures UsedAfter(identifier, names + [name]) ==
            UsedAfter(identifier, names)[KeyFor(UsedAfter(identifier, names), Base(identifier, name), name) := name]
  {
    Snoc(names, name);
  }

  lemma CollisionsNext(identifier: Text -> Text, names: seq<Text>, name: Text)
    ensures Collisions(identifier, names + [name]) ==
            Collisions(identifier, names)
            + CollisionOf(Base(identifier, name), name, KeyAt(identifier, names + [name], |names|))
  {
    Snoc(names, name);
  }

  lemma KeyedNext(identifier: Text -> Text, wanted: seq<Wanted>, more: Wanted)
    ensures Keyed(identifier, wanted + [more]) ==
            Keyed(identifier, wanted) + [Migrated(KeyAt(identifier, WantedNames(wanted + [more]), |wanted|), more)]
  {
    var names := WantedNames(wanted + [more]);
    assert names[..|wanted|] == WantedNames(wanted);
    forall i | 0 <= i < |wanted| ensures KeyAt(identifier, WantedNames(wanted), i) == KeyAt(identifier, names, i) {
      KeyOfPrefix(identifier, names, |wanted|, i);
    }
  }

  lemma EmitNext(identifier: Text -> Text, wanted: seq<Wanted>, more: Wanted, deps: seq<Migrated>, used: Used,
                 collisions: seq<Collision>, before: seq<Collision>)
    requires Emitted(identifier, wanted, deps, used, collisions, before)
    ensures var base, name := Base(identifier, more.entry.name), more.entry.name;
            var key := KeyFor(used, base, name);
            Emitted(identifier, wanted + [more], deps + [Migrated(key, more)], used[key := name],
                    collisions + CollisionOf(base, name, key), before)
  {
    var names, name := WantedNames(wanted), more.entry.name;
    var base := Base(identifier, name);
    NamesAppend(wanted, more);
    KeyNext(identifier, names, name);
    UsedNext(identifier, names, name);
    CollisionsNext(identifier, names, name);
    KeyedNext(identifier, wanted, more);
    Regroup(before, Collisions(identifier, names), CollisionOf(base, name, KeyFor(used, base, name)));
  }

  method EmitDependency(identifier: Text -> Text, more: Wanted, deps0: seq<Migrated>, used0: Used, draft: Draft,
                        ghost wanted: seq<Wanted>, ghost before: seq<Collision>)
    returns (deps: seq<Migrated>, used: Used)
    requires Emitted(identifier, wanted, deps0, used0, draft.identifierCollisions, before)
    modifies draft`identifierCollisions
    ensures Emitted(identifier, wanted + [more], deps, used, draft.identifierCollisions, before)
  {
    EmitNext(identifier, wanted, more, deps0, used0, draft.identifierCollisions, before);
    var key;
    key, used := MigrationIdentifierForPackage(identifier, more.entry.name, used0, draft);
    deps := deps0 + [Migrated(key, more)];
  }

  /** The effect of the section's `i`th entry. */
  lemma SectionNext(section: seq<Entry>, i: nat, kind: Kind, known: Text -> bool, peers: seq<Text>, wanted: seq<Wanted>)
    requires i < |section|
    ensures section[i].name in peers ==>
              && Kept(section[..i + 1], kind, known, peers) == Kept(section[..i], kind, known, peers)
              && Dropped(section[..i + 1], peers) == Dropped(section[..i], peers) + [section[i].name]
    ensures section[i].name !in peers ==>
              && wanted + Kept(section[..i + 1], kind, known, peers)
                 == (wanted + Kept(section[..i], kind, known, peers)) + [Want(section[i], kind, known)]
              && Dropped(section[..i + 1], peers) == Dropped(section[..i], peers)
  {
    assert section[..i + 1][..i] == section[..i];
    Regroup(wanted, Kept(section[..i], kind, known, peers), [Want(section[i], kind, known)]);
  }

  ghost predicate InSection(identifier: Text -> Text, known: Text -> bool, section: seq<Entry>, i: nat, kind: Kind,
                            peers: seq<Text>,
                            wanted: seq<Wanted>, deps: seq<Migrated>, used: Used,
                            collisions: seq<Collision>, before: seq<Collision>, dropped: seq<Text>,
                                droppedBefore: seq<Text>)
    requires i <= |section|
  {
    && Emitted(identifier, wanted + Kept(section[..i], kind, known, peers), deps, used, collisions, before)
    && dropped == droppedBefore + Dropped(section[..i], peers)
  }

  method MigrateEntry(identifier: Text -> Text, known: Text -> bool, section: seq<Entry>, i: nat, kind: Kind,
                      peerNames: set<Text>,
                      deps0: seq<Migrated>, used0: Used, draft: Draft,
                      ghost peers: seq<Text>, ghost wanted: seq<Wanted>, ghost before: seq<Collision>,
                          ghost droppedBefore: seq<Text>)
    returns (deps: seq<Migrated>, used: Used)
    requires (forall n :: n in peerNames <==> n in peers) && i < |section|
    requires InSection(identifier, known, section, i, kind, peers, wanted, deps0, used0, draft.identifierCollisions,
                       before,
                       draft.duplicatePeerDeps, droppedBefore)
    modifies draft
    ensures InSection(identifier, known, section, i + 1, kind, peers, wanted, deps, used, draft.identifierCollisions,
                      before,
                      draft.duplicatePeerDeps, droppedBefore)
  {
    var entry := section[i];
    SectionNext(section, i, kind, known, peers, wanted);
    if entry.name in peerNames {
      Regroup(droppedBefore, Dropped(section[..i], peers), [entry.name]);
      draft.duplicatePeerDeps := draft.duplicatePeerDeps + [entry.name];
      return deps0, used0;
    }
    deps, used := EmitDependency(identifier, Want(entry, kind, known), deps0, used0, draft,
                                 wanted + Kept(section[..i], kind, known, peers), before);
  }

  /** One section after the peers: peers are noted as duplicates, the rest are emitted. */
  method MigrateSection(identifier: Text -> Text, known: Text -> bool, section: seq<Entry>, kind: Kind,
                        peerNames: set<Text>,
                        deps0: seq<Migrated>, used0: Used, draft: Draft,
                        ghost peers: seq<Text>, ghost wanted: seq<Wanted>, ghost before: seq<Collision>)
    returns (deps: seq<Migrated>, used: Used)
    requires forall n :: n in peerNames <==> n in peers
    requires Emitted(identifier, wanted, deps0, used0, draft.identifierCollisions, before)
    modifies draft
    ensures Emitted(identifier, wanted + Kept(section, kind, known, peers), deps, used, draft.identifierCollisions,
                    before)
    ensures draft.duplicatePeerDeps == old(draft.duplicatePeerDeps) + Dropped(section, peers)
  {
    deps, used := deps0, used0;
    assert wanted + Kept(section[..0], kind, known, peers) == wanted;
    for i := 0 to |section|
      invariant InSection(identifier, known, section, i, kind, peers, wanted, deps, used, draft.identifierCollisions,
                          before,
                          draft.duplicatePeerDeps, old(draft.duplicatePeerDeps))
    {
      deps, used := MigrateEntry(identifier, known, section, i, kind, peerNames, deps, used, draft,
                                 peers, wanted, before, old(draft.duplicatePeerDeps));
    }
    assert section[..|section|] == section;
  }

  lemma PeersNext(peers: seq<Entry>, i: nat, known: Text -> bool)
    requires i < |peers|
    ensures Kept(peers[..i + 1], Peer, known, []) == Kept(peers[..i], Peer, known, []) + [Want(peers[i], Peer, known)]
    ensures Names(peers[..i + 1]) == Names(peers[..i]) + [peers[i].name]
  {
    assert peers[..i + 1][..i] == peers[..i];
    assert peers[i].name !in [];
  }

  /** The peers come first; their names are remembered. */
  method MigratePeers(identifier: Text -> Text, known: Text -> bool, peers: seq<Entry>, draft: Draft)
    returns (deps: seq<Migrated>, used: Used, peerNames: set<Text>)
    modifies draft`identifierCollisions
    ensures Emitted(identifier, Kept(peers, Peer, known, []), deps, used, draft.identifierCollisions,
                    old(draft.identifierCollisions))
    ensures forall n :: n in peerNames <==> n in Names(peers)
  {
    deps, used, peerNames := [], map[], {};
    for i := 0 to |peers|
      invariant Emitted(identifier, Kept(peers[..i], Peer, known, []), deps, used,
                        draft.identifierCollisions, old(draft.identifierCollisions))
      invariant forall n :: n in peerNames <==> n in Names(peers[..i])
    {
      PeersNext(peers, i, known);
      peerNames := peerNames + {peers[i].name};
      deps, used := EmitDependency(identifier, Want(peers[i], Peer, known), deps, used, draft,
                                   Kept(peers[..i], Peer, known, []), old(draft.identifierCollisions));
    }
    assert peers[..|peers|] == peers;
  }

  method MigrateDependencies(identifier: Text -> Text, known: Text -> bool, pkg: Package, draft: Draft)
    returns (deps: seq<Migrated>)
    modifies draft
    ensures deps == Keyed(identifier, AllWanted(pkg, known))
    ensures draft.identifierCollisions ==
            old(draft.identifierCollisions) + Collisions(identifier, WantedNames(AllWanted(pkg, known)))
    ensures var peers := Names(pkg.peers);
            draft.duplicatePeerDeps == old(draft.duplicatePeerDeps) + Dropped(pkg.dependencies, peers)
                                       + Dropped(pkg.optionals, peers) + Dropped(pkg.dev, peers)
  {
    ghost var before, peers := draft.identifierCollisions, Names(pkg.peers);
    var used, peerNames;
    deps, used, peerNames := MigratePeers(identifier, known, pkg.peers, draft);
    ghost var wanted := Kept(pkg.peers, Peer, known, []);
    deps, used := MigrateSection(identifier, known, pkg.dependencies, Dep, peerNames, deps, used, draft, peers,
                                 wanted, before);
    wanted := wanted + Kept(pkg.dependencies, Dep, known, peers);
    deps, used := MigrateSection(identifier, known, pkg.optionals, OptionalDep, peerNames, deps, used, draft, peers,
                                 wanted, before);
    wanted := wanted + Kept(pkg.optionals, OptionalDep, known, peers);
    deps, used := MigrateSection(identifier, known, pkg.dev, Tool, peerNames, deps, used, draft, peers, wanted, before);
  }

  // ---------------------------------------------------------------------
  // What a migration promises.

  /** Emitted dependencies with one key name one package. */
  lemma MigratedKeysNeverAlias(identifier: Text -> Text, wanted: seq<Wanted>, i: nat, j: nat)
    requires i < |wanted| && j < |wanted|
    ensures |Keyed(identifier, wanted)| == |wanted|
    ensures Keyed(identifier, wanted)[i].key == Keyed(identifier, wanted)[j].key ==>
              Keyed(identifier, wanted)[i].wanted.entry.name == Keyed(identifier, wanted)[j].wanted.entry.name
  {
    if Keyed(identifier, wanted)[i].key == Keyed(identifier, wanted)[j].key {
      KeysNeverAlias(identifier, WantedNames(wanted), i, j);
    }
  }

  /** A package is emitted from a section exactly if the section lists it and it is no peer; otherwise it is noted. */
  lemma {:induction false} KeptOrDropped(entries: seq<Entry>, kind: Kind, known: Text -> bool, peers: seq<Text>,
                                         entry: Entry)
    ensures Want(entry, kind, known) in Kept(entries, kind, known, peers) <==> entry in entries && entry.name !in peers
    ensures entry in entries && entry.name in peers ==> entry.name in Dropped(entries, peers)
    ensures |Kept(entries, kind, known, peers)| + |Dropped(entries, peers)| == |entries|
  {
    if entries != [] {
      var n := |entries| - 1;
      KeptOrDropped(entries[..n], kind, known, peers, entry);
      assert entry in entries <==> entry in entries[..n] || entry == entries[n];
      assert Want(entry, kind, known) == Want(entries[n], kind, known) <==> entry == entries[n];
    }
  }

  /** The `i`th allocation did not give the key the package would like, and this is its record. */
  predicate RecordedAt(identifier: Text -> Text, names: seq<Text>, i: nat, c: Collision) {
    && i < |names| && KeyAt(identifier, names, i) != Base(identifier, names[i])
    && c.package == names[i] && c.candidate == KeyAt(identifier, names, i)
  }

  /** What each allocation adds to the record. */
  function Additions(identifier: Text -> Text, names: seq<Text>): (parts: seq<seq<Collision>>)
    ensures |parts| == |names|
    ensures forall i :: 0 <= i < |names| ==>
                          parts[i] == CollisionOf(Base(identifier, names[i]), names[i], KeyAt(identifier, names, i))
  {
    seq(|names|, i requires 0 <= i < |names| =>
        CollisionOf(Base(identifier, names[i]), names[i], KeyAt(identifier, names, i)))
  }

  lemma {:induction false} CollisionsAreAdditions(identifier: Text -> Text, names: seq<Text>, n: nat)
    requires n <= |names|
    ensures Collisions(identifier, names[..n]) == Concat(Additions(identifier, names), n)
  {
    if n > 0 {
      CollisionsAreAdditions(identifier, names, n - 1);
      assert names[..n][..n - 1] == names[..n - 1];
      KeyOfPrefix(identifier, names, n, n - 1);
    }
  }

  lemma AdditionIsRecorded(identifier: Text -> Text, names: seq<Text>, i: nat, c: Collision)
    requires i < |names|
    ensures c in Additions(identifier, names)[i] <==> RecordedAt(identifier, names, i, c)
  {}

  /** Every such allocation is recorded, and no other. */
  lemma CollisionsAreExact(identifier: Text -> Text, names: seq<Text>, c: Collision)
    ensures c in Collisions(identifier, names) <==> exists i: nat :: RecordedAt(identifier, names, i, c)
  {
    var parts := Additions(identifier, names);
    CollisionsAreAdditions(identifier, names, |names|);
    assert names[..|names|] == names;
    ConcatMember(parts, |parts|, c);
    if p: nat :| p < |parts| && c in parts[p] {
      AdditionIsRecorded(identifier, names, p, c);
    }
    if i: nat :| RecordedAt(identifier, names, i, c) {
      AdditionIsRecorded(identifier, names, i, c);
    }
  }

  /** The peers of a package, and its other sections. */
  function Listed(pkg: Package, kind: Kind): seq<Entry> {
    match kind
    case Peer => pkg.peers
    case Dep => pkg.dependencies
    case OptionalDep => pkg.optionals
    case Tool => pkg.dev
  }

  predicate IsPeer(pkg: Package, name: Text) {
    exists i :: 0 <= i < |pkg.peers| && pkg.peers[i].name == name
  }

  lemma {:induction false} KeptOnly(entries: seq<Entry>, kind: Kind, known: Text -> bool, peers: seq<Text>, w: Wanted)
    ensures w in Kept(entries, kind, known, peers) <==>
            w.entry in entries && w.entry.name !in peers && w == Want(w.entry, kind, known)
  {
    if entries != [] {
      var n := |entries| - 1;
      KeptOnly(entries[..n], kind, known, peers, w);
      assert w.entry in entries <==> w.entry in entries[..n] || w.entry == entries[n];
    }
  }

  /** The migration emits every peer, and of the other three sections what is no peer. A peer needs no attention,
  a development dependency does unless it is a known tool, and the others do. */
  lemma EmitsExactly(pkg: Package, known: Text -> bool, w: Wanted)
    ensures w in AllWanted(pkg, known) <==>
            && w.entry in Listed(pkg, w.kind)
            && (w.kind.Peer? || !IsPeer(pkg, w.entry.name))
            && w.knownTool == (w.kind.Tool? && known(w.entry.name))
            && w.needsTodo == (w.kind.Dep? || w.kind.OptionalDep? || (w.kind.Tool? && !known(w.entry.name)))
  {
    var peers := Names(pkg.peers);
    assert w.entry.name in peers <==> IsPeer(pkg, w.entry.name) by {
      if i :| 0 <= i < |pkg.peers| && pkg.peers[i].name == w.entry.name {
        assert peers[i] == w.entry.name;
      }
    }
    KeptOnly(pkg.peers, Peer, known, [], w);
    KeptOnly(pkg.dependencies, Dep, known, peers, w);
    KeptOnly(pkg.optionals, OptionalDep, known, peers, w);
    KeptOnly(pkg.dev, Tool, known, peers, w);
  }

  const EMITTED := [Peer, Dep, OptionalDep, Tool]

  /** Emitted earlier: from an earlier section, or listed earlier in the same one. */
  predicate EmittedBefore(pkg: Package, a: Wanted, b: Wanted) {
    || (exists m, n :: 0 <= m < n < 4 && EMITTED[m] == a.kind && EMITTED[n] == b.kind)
    || (a.kind == b.kind &&
        exists i, j :: 0 <= i < j < |Listed(pkg, a.kind)| && Listed(pkg, a.kind)[i] == a.entry &&
                       Listed(pkg, a.kind)[j] == b.entry)
  }

  lemma {:induction false} KeptInOrder(entries: seq<Entry>, kind: Kind, known: Text -> bool, peers: seq<Text>, i: nat,
                                       j: nat)
    requires i < j < |Kept(entries, kind, known, peers)|
    ensures var kept := Kept(entries, kind, known, peers);
            exists a, b :: 0 <= a < b < |entries| && entries[a] == kept[i].entry && entries[b] == kept[j].entry
  {
    var n := |entries| - 1;
    var init, kept := Kept(entries[..n], kind, known, peers), Kept(entries, kind, known, peers);
    if j < |init| {
      KeptInOrder(entries[..n], kind, known, peers, i, j);
    } else {
      KeptOnly(entries[..n], kind, known, peers, init[i]);
      var a :| 0 <= a < n && entries[..n][a] == init[i].entry;
      assert entries[a] == kept[i].entry && entries[n] == kept[j].entry;
    }
  }

  lemma SectionInOrder(pkg: Package, kind: Kind, known: Text -> bool, peers: seq<Text>)
    ensures var kept := Kept(Listed(pkg, kind), kind, known, peers);
            Increasing(kept, (a, b) => EmittedBefore(pkg, a, b)) && forall w :: w in kept ==> w.kind == kind
  {
    var kept := Kept(Listed(pkg, kind), kind, known, peers);
    forall w | w in kept ensures w.kind == kind {
      KeptOnly(Listed(pkg, kind), kind, known, peers, w);
    }
    forall i, j | 0 <= i < j < |kept| ensures EmittedBefore(pkg, kept[i], kept[j]) {
      KeptInOrder(Listed(pkg, kind), kind, known, peers, i, j);
      assert kept[i] in kept && kept[j] in kept;
    }
  }

  lemma EarlierSection(pkg: Package, a: Wanted, b: Wanted, m: nat, n: nat)
    requires m < n < 4 && EMITTED[m] == a.kind && EMITTED[n] == b.kind
    ensures EmittedBefore(pkg, a, b)
  {}

  /** Peers are emitted first, then dependencies, optional ones and development ones, each in the order listed. */
  lemma EmitsInOrder(pkg: Package, known: Text -> bool)
    ensures Increasing(AllWanted(pkg, known), (a, b) => EmittedBefore(pkg, a, b))
  {
    var before := (a, b) => EmittedBefore(pkg, a, b);
    var peers := Names(pkg.peers);
    var p, d := Kept(pkg.peers, Peer, known, []), Kept(pkg.dependencies, Dep, known, peers);
    var o, t := Kept(pkg.optionals, OptionalDep, known, peers), Kept(pkg.dev, Tool, known, peers);
    SectionInOrder(pkg, Peer, known, []);
    SectionInOrder(pkg, Dep, known, peers);
    SectionInOrder(pkg, OptionalDep, known, peers);
    SectionInOrder(pkg, Tool, known, peers);
    forall a, b | a in p && b in d ensures before(a, b) { EarlierSection(pkg, a, b, 0, 1); }
    IncreasingConcat(p, d, before);
    forall a, b | a in p + d && b in o ensures before(a, b) { EarlierSection(pkg, a, b, if a in p then 0 else 1, 2); }
    IncreasingConcat(p + d, o, before);
    forall a, b | a in p + d + o && b in t ensures before(a, b) {
      EarlierSection(pkg, a, b, if a in p then 0 else if a in d then 1 else 2, 3);
    }
    IncreasingConcat(p + d + o, t, before);
  }

  /** So a package in two sections can be emitted under two keys: here one of two packages that would like the same
  key is listed among the dependencies, after the other, and again among the development dependencies. */
  lemma OnePackageTwoKeys(identifier: Text -> Text, known: Text -> bool, p: Entry, q: Entry)
    requires p.name != q.name && Base(identifier, p.name) == Base(identifier, q.name)
    ensures var keyed := Keyed(identifier, AllWanted(Package([], [p, q], [], [q]), known));
            |keyed| == 3 && keyed[1].wanted.entry == q == keyed[2].wanted.entry && keyed[1].key != keyed[2].key
  {
    var wanted := [Want(p, Dep, known), Want(q, Dep, known), Want(q, Tool, known)];
    assert [p, q][..1] == [p] && [p][..0] == [] && [q][..0] == [];
    assert Kept([p], Dep, known, []) == [Want(p, Dep, known)];
    assert Kept([p, q], Dep, known, []) == [Want(p, Dep, known), Want(q, Dep, known)];
    assert Kept([q], Tool, known, []) == [Want(q, Tool, known)];
    assert Names([]) == [];
    assert AllWanted(Package([], [p, q], [], [q]), known) == wanted;
    assert WantedNames(wanted) == [p.name, q.name, q.name];
    ListedTwiceUnderTwoKeys(identifier, p.name, q.name);
  }
}
