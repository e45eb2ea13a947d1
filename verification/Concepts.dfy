/** Lowering concept fragments to declarations: the first listed fragment has the highest priority. */
module Concepts {
  import opened Orders
  import opened LastWriter
  import opened Authoring
  import opened Tape
  import opened EditLaws
  import Decimals
  import TapeLaws

  datatype Contribution = Contribution(name: Text, range: Text, source: Text)

  datatype Fragment = Fragment(name: Text, dependencies: seq<Contribution>, tools: seq<Contribution>,
                               peers: seq<Contribution>) {
    function Section(section: nat): seq<Contribution>
      requires section < 3
    {
      if section == 0 then dependencies else if section == 1 then tools else peers
    }

    /** How many contributions come before a section. */
    function Before(section: nat): nat
      requires section <= 3
    {
      if section == 0 then 0
      else if section == 1 then |dependencies|
      else if section == 2 then |dependencies| + |tools|
      else |dependencies| + |tools| + |peers|
    }
  }

  function KindOfSection(section: nat): Text
    requires section < 3
  {
    if section == 0 then KIND_RUNTIME else if section == 1 then KIND_TOOL else KIND_PEER
  }

  /** How many contributions the first `i` fragments make. */
  function Offset(fragments: seq<Fragment>, i: nat): nat
    requires i <= |fragments|
  {
    if i == 0 then 0 else Offset(fragments, i - 1) + fragments[i - 1].Before(3)
  }

  /** Lengths are machine integers. */
  predicate Fits(fragments: seq<Fragment>) {
    |fragments| <= MAX_INT64 && Offset(fragments, |fragments|) <= MAX_INT64
  }

  function DeclarationId(concept: Text, kind: Text, name: Text, index: nat): Text {
    Text(concept.chars + ":" + kind.chars + ":" + name.chars + ":" + Decimals.Decimal(index))
  }

  function SourceOf(c: Contribution): PackageSource {
    PackageSource(if c.source == EMPTY then SOURCE_NPM else c.source, c.name, c.range,
                  EMPTY, EMPTY, EMPTY, EMPTY, EMPTY, EMPTY, EMPTY)
  }

  function Lower(concept: Text, c: Contribution, kind: Text, index: nat, layerOrder: Int64, order: Int64): Declaration {
    Declaration(DeclarationId(concept, kind, c.name, index), EMPTY, SourceOf(c).Identity(), SourceOf(c), c.range,
                kind, false, Origin(ORIGIN_CONCEPT, concept, EMPTY, EMPTY), LAYER_CONCEPT, layerOrder, order,
                AUTHORITY_GENERATED, EDITABILITY_CONCEPT, None)
  }

  // ---------------------------------------------------------------------
  // Where each declaration comes from.

  /** One contribution of one section of one fragment. */
  datatype Site = Site(fragment: nat, section: nat, index: nat)

  predicate At(fragments: seq<Fragment>, s: Site) {
    s.fragment < |fragments| && s.section < 3 && s.index < |fragments[s.fragment].Section(s.section)|
  }

  function ContributionAt(fragments: seq<Fragment>, s: Site): Contribution
    requires At(fragments, s)
  {
    fragments[s.fragment].Section(s.section)[s.index]
  }

  function Rank(fragments: seq<Fragment>, s: Site): nat
    requires At(fragments, s)
  {
    Offset(fragments, s.fragment) + fragments[s.fragment].Before(s.section) + s.index
  }

  lemma {:induction false} OffsetMonotone(fragments: seq<Fragment>, i: nat, j: nat)
    requires i <= j <= |fragments|
    ensures Offset(fragments, i) <= Offset(fragments, j)
    decreases j
  {
    if i < j {
      OffsetMonotone(fragments, i, j - 1);
    }
  }

  lemma RankBounds(fragments: seq<Fragment>, s: Site)
    requires At(fragments, s)
    ensures Offset(fragments, s.fragment) <= Rank(fragments, s)
            < Offset(fragments, s.fragment + 1) <= Offset(fragments, |fragments|)
  {
    OffsetMonotone(fragments, s.fragment + 1, |fragments|);
  }

  function DeclarationAt(fragments: seq<Fragment>, s: Site): Declaration
    requires Fits(fragments) && At(fragments, s)
  {
    RankBounds(fragments, s);
    Lower(fragments[s.fragment].name, ContributionAt(fragments, s), KindOfSection(s.section), s.index,
          |fragments| - s.fragment, Rank(fragments, s))
  }

  /** `ds` holds the declarations of the first `|ds|` sites. */
  ghost predicate Lowers(fragments: seq<Fragment>, ds: seq<Declaration>)
    requires Fits(fragments)
  {
    forall s :: At(fragments, s) && Rank(fragments, s) < |ds| ==> ds[Rank(fragments, s)] == DeclarationAt(fragments, s)
  }

  // ---------------------------------------------------------------------
  // The lowering.

  method AppendConceptDependencies(declarations: seq<Declaration>, ghost fragments: seq<Fragment>, fragment: Fragment,
                                   section: nat, layerOrder: Int64, order: Int64, ghost at: nat)
    returns (extended: seq<Declaration>, next: Int64)
    requires Fits(fragments) && at < |fragments| && fragments[at] == fragment && section < 3
    requires layerOrder == |fragments| - at
    requires order == |declarations| == Offset(fragments, at) + fragment.Before(section)
    requires Lowers(fragments, declarations)
    ensures next == |extended| == Offset(fragments, at) + fragment.Before(section + 1)
    ensures Lowers(fragments, extended)
  {
    var kind, dependencies := KindOfSection(section), fragment.Section(section);
    extended, next := declarations, order;
    for index := 0 to |dependencies|
      invariant next == |extended| == Offset(fragments, at) + fragment.Before(section) + index
      invariant Lowers(fragments, extended)
    {
      var s := Site(at, section, index);
      RankBounds(fragments, s);
      RankUnique(fragments, s);
      extended := extended + [Lower(fragment.name, dependencies[index], kind, index, layerOrder, next)];
      next := Increment(next);
    }
  }

  /** Sites with the same rank are the same. */
  lemma RankUnique(fragments: seq<Fragment>, s: Site)
    requires At(fragments, s)
    ensures forall r :: At(fragments, r) && Rank(fragments, r) == Rank(fragments, s) ==> r == s
  {
    forall r | At(fragments, r) && Rank(fragments, r) == Rank(fragments, s) ensures r == s {
      if r != s {
        if SiteBefore(r, s) {
          RankMonotone(fragments, r, s);
        } else {
          RankMonotone(fragments, s, r);
        }
      }
    }
  }

  /** Tape order of the lowering: fragments as listed, then sections, then contributions. */
  predicate SiteBefore(r: Site, s: Site) {
    r.fragment < s.fragment ||
    (r.fragment == s.fragment && (r.section < s.section || (r.section == s.section && r.index < s.index)))
  }

  lemma RankMonotone(fragments: seq<Fragment>, r: Site, s: Site)
    requires At(fragments, r) && At(fragments, s) && SiteBefore(r, s)
    ensures Rank(fragments, r) < Rank(fragments, s)
  {
    RankBounds(fragments, r);
    RankBounds(fragments, s);
    if r.fragment < s.fragment {
      OffsetMonotone(fragments, r.fragment + 1, s.fragment);
    }
  }

  method DependencyDeclarations(fragments: seq<Fragment>) returns (declarations: seq<Declaration>)
    requires Fits(fragments)
    ensures |declarations| == Offset(fragments, |fragments|) && Lowers(fragments, declarations)
  {
    declarations := [];
    var order: Int64 := 0;
    for fragmentIndex := 0 to |fragments|
      invariant order == |declarations| == Offset(fragments, fragmentIndex)
      invariant Lowers(fragments, declarations)
    {
      var fragment := fragments[fragmentIndex];
      var layerOrder: Int64 := |fragments| - fragmentIndex;
      declarations,
          order := AppendConceptDependencies(declarations, fragments, fragment, 0, layerOrder, order, fragmentIndex);
      declarations,
          order := AppendConceptDependencies(declarations, fragments, fragment, 1, layerOrder, order, fragmentIndex);
      declarations,
          order := AppendConceptDependencies(declarations, fragments, fragment, 2, layerOrder, order, fragmentIndex);
    }
  }

  /** What the lowering says of the contribution at `index` of a section. */
  ghost predicate Says(d: Declaration, concept: Text, c: Contribution, kind: string, index: nat) {
    && (exists digits :: d.id.chars == concept.chars + ":" + kind + ":" + c.name.chars + ":" + digits &&
                    Decimals.AllDigits(digits) && Decimals.Value(digits) == index)
    && d.kind.chars == kind && d.constraint == c.range && !d.optional && d.key.chars == "" && d.patch.None?
    && d.source.kind.chars == (if c.source.chars == "" then "npm" else c.source.chars)
    && d.source.package == c.name && d.source.range == c.range
    && d.identity == PackageIdentity(d.source.kind, c.name)
    && d.origin == Origin(Text("concept"), concept, Text(""), Text("")) && d.layer.chars == "concept"
    && d.authority.chars == "generated" && d.editability.chars == "concept-owned"
  }

  lemma LowerSays(concept: Text, c: Contribution, kind: Text, index: nat, layerOrder: Int64, order: Int64)
    ensures Says(Lower(concept, c, kind, index, layerOrder, order), concept, c, kind.chars, index)
  {
    var d := Lower(concept, c, kind, index, layerOrder, order);
    Decimals.DecimalMeaning(index);
    assert c.source.chars == "" <==> c.source == EMPTY;
    assert d.id.chars == concept.chars + ":" + kind.chars + ":" + c.name.chars + ":" + Decimals.Decimal(index);
  }

  /** The lowered list, fragment by fragment: its dependencies, then its tools, then its peers, each in the order
  given; the fragments count down in their layer, and the declarations count up. */
  lemma LoweringSays(fragments: seq<Fragment>, ds: seq<Declaration>, f: nat, k: nat)
    requires Fits(fragments) && |ds| == Offset(fragments, |fragments|) && Lowers(fragments, ds)
    requires f < |fragments| && k < fragments[f].Before(3)
    ensures var fragment, at := fragments[f], Offset(fragments, f) + k;
            var tools, peers := |fragment.dependencies|, |fragment.dependencies| + |fragment.tools|;
            && at < |ds| && ds[at].layerOrder == |fragments| - f && ds[at].order == at
            && if k < tools then Says(ds[at], fragment.name, fragment.dependencies[k], "dep", k)
               else if k < peers then Says(ds[at], fragment.name, fragment.tools[k - tools], "tool", k - tools)
               else Says(ds[at], fragment.name, fragment.peers[k - peers], "peer", k - peers)
  {
    var fragment := fragments[f];
    var tools, peers := |fragment.dependencies|, |fragment.dependencies| + |fragment.tools|;
    var s := if k < tools then Site(f, 0, k) else if k < peers then Site(f, 1, k - tools) else Site(f, 2, k - peers);
    RankBounds(fragments, s);
    LowerSays(fragment.name, ContributionAt(fragments, s), KindOfSection(s.section), s.index, |fragments| - f,
              Rank(fragments, s));
  }

  // ---------------------------------------------------------------------
  // Who wins.

  lemma SiteOf(fragments: seq<Fragment>, g: nat, n: nat) returns (s: Site)
    requires n <= |fragments| && g < Offset(fragments, n)
    ensures At(fragments, s) && Rank(fragments, s) == g
    decreases n
  {
    if g < Offset(fragments, n - 1) {
      s := SiteOf(fragments, g, n - 1);
    } else {
      var f, k := fragments[n - 1], g - Offset(fragments, n - 1);
      s := if k < f.Before(1) then Site(n - 1, 0, k)
           else if k < f.Before(2) then Site(n - 1, 1, k - f.Before(1))
           else Site(n - 1, 2, k - f.Before(2));
    }
  }

  lemma LoweredIsNormal(concept: Text, c: Contribution, kind: Text, index: nat, layerOrder: Int64, order: Int64)
    ensures Lower(concept, c, kind, index, layerOrder, order).Normal()
  {
    assert ':' in DeclarationId(concept, kind, c.name, index).chars by {
      var s := DeclarationId(concept, kind, c.name, index).chars;
      assert s[|concept.chars|] == ':';
    }
  }

  lemma LoweringIsNormal(fragments: seq<Fragment>, ds: seq<Declaration>)
    requires Fits(fragments) && |ds| == Offset(fragments, |fragments|) && Lowers(fragments, ds)
    ensures NormalizeAll(ds) == ds
  {
    forall g: nat | g < |ds| ensures ds[g].Normalize(g) == ds[g] {
      var s := SiteOf(fragments, g, |fragments|);
      RankBounds(fragments, s);
      LoweredIsNormal(fragments[s.fragment].name, ContributionAt(fragments, s), KindOfSection(s.section), s.index,
                      |fragments| - s.fragment, Rank(fragments, s));
      NormalizeIdempotent(ds[g], g, g);
    }
  }

  /** The declaration in force for a slot precedes no declaration of that slot. */
  lemma InForceIsMaximal(t: seq<Declaration>, slot: Text, j: nat)
    requires Ordered(t, Precedes) && j < |t| && t[j].Slot() == slot
    ensures InForce(t, slot).Some?
    ensures var e := InForce(t, slot).value; t[e].Slot() == slot && !Precedes(t[e], t[j])
  {
    LatestMeaning(Slots(t), slot, |t|);
    assert Slots(t)[j] == slot;
    PrecedesTotal(t[j], t[j]);
  }

  /** The slot a contribution writes. */
  function SlotAt(fragments: seq<Fragment>, s: Site): Text
    requires At(fragments, s)
  {
    var identity := SourceOf(ContributionAt(fragments, s)).Identity();
    Text(identity.Key().chars + "|" + identity.name.chars)
  }

  /** `w` beats `s`: an earlier fragment wins, and within one fragment the later contribution. */
  predicate Beats(w: Site, s: Site) {
    w.fragment < s.fragment || (w.fragment == s.fragment && (w == s || SiteBefore(s, w)))
  }

  /** `w` supplies the effective declaration of the slot, and beats all others that declare it. */
  ghost predicate Supplies(fragments: seq<Fragment>, ds: seq<Declaration>, slot: Text, w: Site)
    requires Fits(fragments)
  {
    && At(fragments, w) && SlotAt(fragments, w) == slot
    && Current(TapeOf(ds), slot) == Some(DeclarationAt(fragments, w))
    && forall r :: At(fragments, r) && SlotAt(fragments, r) == slot ==> Beats(w, r)
  }

  lemma InForceSite(fragments: seq<Fragment>, ds: seq<Declaration>, s: Site) returns (w: Site)
    requires Fits(fragments) && |ds| == Offset(fragments, |fragments|) && Lowers(fragments, ds)
    requires At(fragments, s)
    ensures At(fragments, w) && SlotAt(fragments, w) == SlotAt(fragments, s)
    ensures Current(TapeOf(ds), SlotAt(fragments, s)) == Some(DeclarationAt(fragments, w))
    ensures forall r :: At(fragments, r) && SlotAt(fragments, r) == SlotAt(fragments, s) ==> Beats(w, r)
  {
    var t, slot := TapeOf(ds), SlotAt(fragments, s);
    LoweringIsNormal(fragments, ds);
    TapeLaws.TapeContents(ds);
    var p := OnTape(fragments, ds, s);
    InForceIsMaximal(t, slot, p);
    var e := InForce(t, slot).value;
    var g := TapeIds(ds, e);
    w := SiteOf(fragments, g, |fragments|);
    assert t[e] == DeclarationAt(fragments, w);
    forall r | At(fragments, r) && SlotAt(fragments, r) == slot ensures Beats(w, r) {
      var q := OnTape(fragments, ds, r);
      InForceIsMaximal(t, slot, q);
      MaximalBeats(fragments, w, r);
    }
  }

  /** Although the tape is last-writer-wins, the first listed fragment that declares a slot
      supplies its effective declaration, and within it the last one in the order
      dependencies, tools, peers. */
  lemma FirstFragmentWins(fragments: seq<Fragment>, ds: seq<Declaration>, s: Site)
    requires Fits(fragments) && |ds| == Offset(fragments, |fragments|) && Lowers(fragments, ds)
    requires At(fragments, s)
    ensures exists w :: Supplies(fragments, ds, SlotAt(fragments, s), w)
  {
    var w := InForceSite(fragments, ds, s);
    assert Supplies(fragments, ds, SlotAt(fragments, s), w);
  }

  lemma OnTape(fragments: seq<Fragment>, ds: seq<Declaration>, s: Site) returns (p: nat)
    requires Fits(fragments) && |ds| == Offset(fragments, |fragments|) && Lowers(fragments, ds)
    requires At(fragments, s) && NormalizeAll(ds) == ds
    ensures p < |TapeOf(ds)| && TapeOf(ds)[p] == DeclarationAt(fragments, s)
    ensures TapeOf(ds)[p].Slot() == SlotAt(fragments, s)
  {
    TapeLaws.TapeContents(ds);
    RankBounds(fragments, s);
    assert ds[Rank(fragments, s)] in multiset(TapeOf(ds));
    p :| 0 <= p < |TapeOf(ds)| && TapeOf(ds)[p] == DeclarationAt(fragments, s);
  }

  lemma MaximalBeats(fragments: seq<Fragment>, w: Site, r: Site)
    requires Fits(fragments) && At(fragments, w) && At(fragments, r)
    requires !Precedes(DeclarationAt(fragments, w), DeclarationAt(fragments, r))
    ensures Beats(w, r)
  {
    if w.fragment == r.fragment && SiteBefore(w, r) {
      RankMonotone(fragments, w, r);
    }
  }
}
