/** Which transitive boundary rules apply to which files, and by which path. */
module RuleMatches {
  import opened Orders
  import opened Authoring
  import opened Routes
  import opened WalkOrder
  import opened Boundary

  /** A boundary rule; it is transitive if it names the seeds it starts from. */
  datatype Rule = Rule(transitiveFrom: Text, contents: Text)

  datatype Match = Match(rule: Rule, seed: Text, path: seq<Text>)

  /** A rule with one of its seeds. */
  datatype Source = Source(rule: Rule, seed: Text)

  predicate Sooner(a: Match, b: Match) {
    if a.rule.transitiveFrom != b.rule.transitiveFrom
    then StringLess(a.rule.transitiveFrom.chars, b.rule.transitiveFrom.chars)
    else StringLess(a.seed.chars, b.seed.chars)
  }

  // ---------------------------------------------------------------------
  // What should match.

  function Sources(rule: Rule, seeds: seq<Text>): (sources: seq<Source>)
    ensures |sources| == |seeds| && forall i :: 0 <= i < |seeds| ==> sources[i] == Source(rule, seeds[i])
  {
    seq(|seeds|, i requires 0 <= i < |seeds| => Source(rule, seeds[i]))
  }

  /** The transitive rules with their seeds, in order. */
  function AllSources(rules: seq<Rule>, seedsOf: Text -> seq<Text>): seq<Source> {
    if rules == [] then []
    else
      var rule := rules[|rules| - 1];
      AllSources(rules[..|rules| - 1], seedsOf)
      + if rule.transitiveFrom == EMPTY then [] else Sources(rule, seedsOf(rule.transitiveFrom))
  }

  /** The matches that one source gives one file. */
  ghost function MatchOf(scan: Scan<Text>, types: bool, source: Source, file: Text): seq<Match> {
    match Witness(scan, types, source.seed, file)
    case Some(path) => [Match(source.rule, source.seed, path)]
    case None => []
  }

  ghost function MatchesOf(scan: Scan<Text>, types: bool, sources: seq<Source>, file: Text): seq<Match> {
    if sources == [] then []
    else MatchesOf(scan, types, sources[..|sources| - 1], file) + MatchOf(scan, types, sources[|sources| - 1], file)
  }

  // ---------------------------------------------------------------------
  // Collecting the matches.

  function ListAt<K, V>(matches: map<K, seq<V>>, file: K): seq<V> {
    if file in matches then matches[file] else []
  }

  /** The map holds each file's matches; a file without any is not in it. */
  ghost predicate Tabulates(matches: map<Text, seq<Match>>, expected: Text -> seq<Match>) {
    && (forall file :: ListAt(matches, file) == expected(file))
    && forall file :: file in matches ==> matches[file] != []
  }

  lemma MatchesNext(scan: Scan<Text>, types: bool, sources: seq<Source>, source: Source, file: Text)
    ensures MatchesOf(scan, types, sources + [source], file) ==
            MatchesOf(scan, types, sources, file) + MatchOf(scan, types, source, file)
  {
    assert (sources + [source])[..|sources|] == sources;
  }

  /** The map holds `base`, and `extra` after it for all keys but those in `rest`. */
  ghost predicate Extended<K(!new), V>(matches: map<K, seq<V>>, base: K -> seq<V>, extra: K -> seq<V>, rest: set<K>) {
    && (forall k :: k in matches ==> matches[k] != [])
    && forall k :: ListAt(matches, k) == base(k) + if k in rest then [] else extra(k)
  }

  lemma ExtendOne<K(!new),
      V>(matches: map<K, seq<V>>, base: K -> seq<V>, extra: K -> seq<V>, rest: set<K>, key: K, x: V)
    requires Extended(matches, base, extra, rest) && key in rest && extra(key) == [x]
    ensures Extended(matches[key := ListAt(matches, key) + [x]], base, extra, rest - {key})
  {}

  /** Within the loop over one source's paths: the files in `rest` are still to come. */
  ghost predicate Adding(scan: Scan<Text>, types: bool, sources: seq<Source>, source: Source,
                         rest: set<Text>, matches: map<Text, seq<Match>>) {
    Extended(matches, file => MatchesOf(scan, types, sources, file), file => MatchOf(scan, types, source, file), rest)
  }

  lemma AddStart(scan: Scan<Text>, types: bool, sources: seq<Source>, source: Source, paths: map<Text, seq<Text>>,
                 matches: map<Text, seq<Match>>)
    requires forall file :: file in paths <==> Witness(scan, types, source.seed, file).Some?
    requires Tabulates(matches, file => MatchesOf(scan, types, sources, file))
    ensures Adding(scan, types, sources, source, paths.Keys, matches)
  {
    forall file
      ensures ListAt(matches, file) ==
              MatchesOf(scan, types, sources, file)
              + if file in paths.Keys then [] else MatchOf(scan, types, source, file)
    {
      assert ListAt(matches, file) == (file => MatchesOf(scan, types, sources, file))(file);
    }
  }

  lemma AddOne(scan: Scan<Text>, types: bool, sources: seq<Source>, source: Source, rest: set<Text>,
               matches: map<Text, seq<Match>>,
               file: Text, path: seq<Text>)
    requires Adding(scan, types, sources, source, rest, matches) && file in rest
    requires Witness(scan, types, source.seed, file) == Some(path)
    ensures Adding(scan, types, sources, source, rest - {file},
                   matches[file := ListAt(matches, file) + [Match(source.rule, source.seed, path)]])
  {
    ExtendOne(matches, f => MatchesOf(scan, types, sources, f), f => MatchOf(scan, types, source, f), rest,
              file, Match(source.rule, source.seed, path));
  }

  lemma AddEnd(scan: Scan<Text>, types: bool, sources: seq<Source>, source: Source, matches: map<Text, seq<Match>>)
    requires Adding(scan, types, sources, source, {}, matches)
    ensures Tabulates(matches, file => MatchesOf(scan, types, sources + [source], file))
  {
    forall file ensures ListAt(matches, file) == MatchesOf(scan, types, sources + [source], file) {
      MatchesNext(scan, types, sources, source, file);
    }
  }

  method AddSource(scan: Scan<Text>, types: bool, source: Source, matches0: map<Text, seq<Match>>,
                   ghost sources: seq<Source>)
    returns (matches: map<Text, seq<Match>>)
    requires Tabulates(matches0, file => MatchesOf(scan, types, sources, file))
    ensures Tabulates(matches, file => MatchesOf(scan, types, sources + [source], file))
  {
    matches := matches0;
    var paths := ReachablePathsFromSeed(scan, source.seed, types);
    forall file ensures file in paths <==> Witness(scan, types, source.seed, file).Some? {
      WitnessMeaning(scan, types, source.seed, file);
    }
    AddStart(scan, types, sources, source, paths, matches);
    var rest := paths.Keys;
    while rest != {}
      invariant rest <= paths.Keys && Adding(scan, types, sources, source, rest, matches)
      decreases |rest|
    {
      var file :| file in rest;
      AddOne(scan, types, sources, source, rest, matches, file, paths[file]);
      matches := matches[file := ListAt(matches, file) + [Match(source.rule, source.seed, paths[file])]];
      rest := rest - {file};
    }
    AddEnd(scan, types, sources, source, matches);
  }

  method AddRule(scan: Scan<Text>, types: bool, rule: Rule, seeds: seq<Text>, matches0: map<Text, seq<Match>>,
                 ghost sources: seq<Source>)
    returns (matches: map<Text, seq<Match>>)
    requires Tabulates(matches0, file => MatchesOf(scan, types, sources, file))
    ensures Tabulates(matches, file => MatchesOf(scan, types, sources + Sources(rule, seeds), file))
  {
    matches := matches0;
    assert sources + Sources(rule, seeds)[..0] == sources;
    for i := 0 to |seeds|
      invariant Tabulates(matches, file => MatchesOf(scan, types, sources + Sources(rule, seeds)[..i], file))
    {
      matches := AddSource(scan, types, Source(rule, seeds[i]), matches, sources + Sources(rule, seeds)[..i]);
      assert sources + Sources(rule, seeds)[..i] + [Source(rule, seeds[i])] == sources + Sources(rule, seeds)[..i + 1];
    }
    assert Sources(rule, seeds)[..|seeds|] == Sources(rule, seeds);
  }

  method SortMatches(matches0: map<Text, seq<Match>>) returns (matches: map<Text, seq<Match>>)
    ensures matches.Keys == matches0.Keys && forall file :: file in matches ==>
            matches[file] == StableSort(matches0[file], Sooner)
  {
    matches := matches0;
    var rest := matches0.Keys;
    while rest != {}
      invariant rest <= matches0.Keys && matches.Keys == matches0.Keys
      invariant forall file :: file in matches ==>
                                 matches[file] ==
                                     if file in rest then matches0[file] else StableSort(matches0[file], Sooner)
      decreases |rest|
    {
      var file :| file in rest;
      matches := matches[file := StableSort(matches[file], Sooner)];
      rest := rest - {file};
    }
  }

  /** Finds every transitive rule that applies to every file, with the path from each of its seeds. */
  method BuildTransitiveRuleMatches(scan: Scan<Text>, types: bool, rules: seq<Rule>, seedsOf: Text -> seq<Text>)
    returns (matches: map<Text, seq<Match>>)
    ensures forall file :: file in matches <==> MatchesOf(scan, types, AllSources(rules, seedsOf), file) != []
    ensures forall file :: file in matches ==>
                             matches[file] ==
                                 StableSort(MatchesOf(scan, types, AllSources(rules, seedsOf), file), Sooner)
  {
    matches := map[];
    for i := 0 to |rules|
      invariant Tabulates(matches, file => MatchesOf(scan, types, AllSources(rules[..i], seedsOf), file))
    {
      assert rules[..i + 1][..i] == rules[..i];
      if rules[i].transitiveFrom == EMPTY {
        assert AllSources(rules[..i + 1], seedsOf) == AllSources(rules[..i], seedsOf);
        continue;
      }
      matches := AddRule(scan, types, rules[i], seedsOf(rules[i].transitiveFrom), matches,
                         AllSources(rules[..i], seedsOf));
    }
    assert rules[..|rules|] == rules;
    TabulatesEach(matches, file => MatchesOf(scan, types, AllSources(rules, seedsOf), file));
    matches := SortMatches(matches);
  }

  lemma TabulatesEach(matches: map<Text, seq<Match>>, expected: Text -> seq<Match>)
    requires Tabulates(matches, expected)
    ensures forall file :: file in matches <==> expected(file) != []
    ensures forall file :: file in matches ==> matches[file] == expected(file)
  {
    forall file
      ensures file in matches <==> expected(file) != []
      ensures file in matches ==> matches[file] == expected(file)
    {
      assert ListAt(matches, file) == expected(file);
    }
  }

  // ---------------------------------------------------------------------
  // What the matches mean.

  lemma {:induction false} InSources(rules: seq<Rule>, seedsOf: Text -> seq<Text>, source: Source)
    ensures source in AllSources(rules, seedsOf) <==>
            && source.rule in rules && source.rule.transitiveFrom != EMPTY
            && source.seed in seedsOf(source.rule.transitiveFrom)
  {
    if rules != [] {
      var init, rule := rules[..|rules| - 1], rules[|rules| - 1];
      InSources(init, seedsOf, source);
      assert source.rule in rules <==> source.rule in init || source.rule == rule;
      InRuleSources(rule, seedsOf(rule.transitiveFrom), source);
    }
  }

  lemma InRuleSources(rule: Rule, seeds: seq<Text>, source: Source)
    ensures source in Sources(rule, seeds) <==> source.rule == rule && source.seed in seeds
  {
    if source.rule == rule && source.seed in seeds {
      var i :| 0 <= i < |seeds| && seeds[i] == source.seed;
      assert Sources(rule, seeds)[i] == source;
    }
  }

  lemma {:induction false} InMatches(scan: Scan<Text>, types: bool, sources: seq<Source>, file: Text, m: Match)
    ensures m in MatchesOf(scan, types, sources, file) <==>
            Source(m.rule, m.seed) in sources && Witness(scan, types, m.seed, file) == Some(m.path)
  {
    if sources != [] {
      var init, last := sources[..|sources| - 1], sources[|sources| - 1];
      InMatches(scan, types, init, file, m);
      assert Source(m.rule, m.seed) in sources <==> Source(m.rule, m.seed) in init || Source(m.rule, m.seed) == last;
    }
  }

  lemma SoonerTransitive(a: Match, b: Match, c: Match)
    ensures !(Sooner(a, b) && Sooner(b, a)) && !Sooner(a, a)
    ensures Sooner(a, b) && Sooner(b, c) ==> Sooner(a, c)
    ensures !Sooner(a, b) && !Sooner(b, a) <==> a.rule.transitiveFrom == b.rule.transitiveFrom && a.seed == b.seed
  {
    StringLessTrichotomy(a.seed.chars, a.seed.chars);
    StringLessTrichotomy(a.seed.chars, b.seed.chars);
    StringLessTrichotomy(a.rule.transitiveFrom.chars, b.rule.transitiveFrom.chars);
    if StringLess(a.seed.chars, b.seed.chars) && StringLess(b.seed.chars, c.seed.chars) {
      StringLessTransitive(a.seed.chars, b.seed.chars, c.seed.chars);
    }
    var x, y, z := a.rule.transitiveFrom.chars, b.rule.transitiveFrom.chars, c.rule.transitiveFrom.chars;
    if StringLess(x, y) && StringLess(y, z) {
      StringLessTransitive(x, y, z);
      StringLessTrichotomy(x, z);
    }
  }

  lemma SoonerIsWeakOrder()
    ensures WeakOrder(Sooner)
  {
    forall a, b, c
      ensures !Sooner(a, a) && (Sooner(a, b) && Sooner(b, c) ==> Sooner(a, c))
      ensures Sooner(a, c) ==> Sooner(a, b) || Sooner(b, c)
    {
      SoonerTransitive(a, b, c);
      SoonerTransitive(b, a, c);
    }
  }

  /** Matches are listed by the rule's pattern and then by the seed. */
  predicate ListedBefore(a: Match, b: Match) {
    || StringLess(a.rule.transitiveFrom.chars, b.rule.transitiveFrom.chars)
    || (a.rule.transitiveFrom == b.rule.transitiveFrom &&
        (a.seed == b.seed || StringLess(a.seed.chars, b.seed.chars)))
  }

  lemma SoonerIsListed(a: Match, b: Match)
    ensures ListedBefore(a, b) <==> !Sooner(b, a)
  {
    StringLessTrichotomy(a.seed.chars, b.seed.chars);
    StringLessTrichotomy(a.rule.transitiveFrom.chars, b.rule.transitiveFrom.chars);
  }

  /** A file is matched by exactly the transitive rules that reach it from one of their seeds, with the
  witness path from that seed, in the order of rule pattern and seed. */
  lemma MatchesAreExact(scan: Scan<Text>, types: bool, rules: seq<Rule>, seedsOf: Text -> seq<Text>, file: Text,
                        m: Match)
    ensures var sorted := StableSort(MatchesOf(scan, types, AllSources(rules, seedsOf), file), Sooner);
            && (forall i, j :: 0 <= i < j < |sorted| ==> ListedBefore(sorted[i], sorted[j]))
            && (m in sorted <==>
                  && m.rule in rules && m.rule.transitiveFrom.chars != "" && m.seed in seedsOf(m.rule.transitiveFrom)
                  && Reachable(scan, types, m.seed, file) && Witness(scan, types, m.seed, file) == Some(m.path))
  {
    var found := MatchesOf(scan, types, AllSources(rules, seedsOf), file);
    SoonerIsWeakOrder();
    StableSortCorrect(found, Sooner);
    var sorted := StableSort(found, Sooner);
    forall i, j | 0 <= i < j < |sorted| ensures ListedBefore(sorted[i], sorted[j]) {
      SoonerIsListed(sorted[i], sorted[j]);
    }
    assert m.rule.transitiveFrom.chars == "" <==> m.rule.transitiveFrom == EMPTY;
    assert m in StableSort(found, Sooner) <==> m in multiset(StableSort(found, Sooner));
    assert m in found <==> m in multiset(found);
    InMatches(scan, types, AllSources(rules, seedsOf), file, m);
    InSources(rules, seedsOf, Source(m.rule, m.seed));
    WitnessMeaning(scan, types, m.seed, file);
  }

  lemma {:induction false} MatchesFollowSources(scan: Scan<Text>, types: bool, sources: seq<Source>, file: Text,
                                                a: Match, b: Match)
    requires Follow(MatchesOf(scan, types, sources, file), a, b)
    ensures Follow(sources, Source(a.rule, a.seed), Source(b.rule, b.seed))
  {
    var n := |sources| - 1;
    var init, found := MatchesOf(scan, types, sources[..n], file), MatchesOf(scan, types, sources, file);
    var i, j :| 0 <= i < j < |found| && found[i] == a && found[j] == b;
    if j < |init| {
      MatchesFollowSources(scan, types, sources[..n], file, a, b);
      FollowLonger(sources, n, Source(a.rule, a.seed), Source(b.rule, b.seed));
    } else {
      assert init[i] == a;
      InMatches(scan, types, sources[..n], file, a);
      FollowLast(sources, n, Source(a.rule, a.seed));
    }
  }

  /** Two rules, or one rule twice, in the order in which they are listed. */
  ghost predicate ListedInOrder(rules: seq<Rule>, a: Rule, b: Rule) {
    exists i, j :: 0 <= i <= j < |rules| && rules[i] == a && rules[j] == b
  }

  lemma {:induction false} SourcesFollowRules(rules: seq<Rule>, seedsOf: Text -> seq<Text>, a: Source, b: Source)
    requires Follow(AllSources(rules, seedsOf), a, b)
    ensures ListedInOrder(rules, a.rule, b.rule)
  {
    var n := |rules| - 1;
    var init, all := AllSources(rules[..n], seedsOf), AllSources(rules, seedsOf);
    var i, j :| 0 <= i < j < |all| && all[i] == a && all[j] == b;
    if j < |init| {
      SourcesFollowRules(rules[..n], seedsOf, a, b);
      var p, q :| 0 <= p <= q < n && rules[..n][p] == a.rule && rules[..n][q] == b.rule;
      assert rules[p] == a.rule && rules[q] == b.rule;
    } else {
      assert rules[n] == b.rule;
      if i < |init| {
        assert init[i] == a;
        InSources(rules[..n], seedsOf, a);
        var p :| 0 <= p < n && rules[..n][p] == a.rule;
        assert rules[p] == a.rule;
      } else {
        assert rules[n] == a.rule;
      }
    }
  }

  /** Matches of one pattern and one seed keep the order of their rules. */
  lemma MatchesKeepRuleOrder(scan: Scan<Text>, types: bool, rules: seq<Rule>, seedsOf: Text -> seq<Text>, file: Text,
                             i: nat, j: nat)
    requires i < j < |StableSort(MatchesOf(scan, types, AllSources(rules, seedsOf), file), Sooner)|
    ensures var sorted := StableSort(MatchesOf(scan, types, AllSources(rules, seedsOf), file), Sooner);
            sorted[i].rule.transitiveFrom == sorted[j].rule.transitiveFrom && sorted[i].seed == sorted[j].seed ==>
              ListedInOrder(rules, sorted[i].rule, sorted[j].rule)
  {
    var sources := AllSources(rules, seedsOf);
    var found := MatchesOf(scan, types, sources, file);
    var sorted := StableSort(found, Sooner);
    SoonerIsWeakOrder();
    SoonerTransitive(sorted[i], sorted[j], sorted[j]);
    if Tied(Sooner, sorted[i], sorted[j]) {
      StableSortKeepsTies(found, Sooner, i, j);
      MatchesFollowSources(scan, types, sources, file, sorted[i], sorted[j]);
      SourcesFollowRules(rules, seedsOf, Source(sorted[i].rule, sorted[i].seed),
                         Source(sorted[j].rule, sorted[j].seed));
    }
  }
}
