/** What a declaration says, in the names the program uses: its defaults, its package and its slot. */
module DeclarationLaws {
  import opened Orders
  import opened Authoring
  import Decimals

  /** The first of these that is not empty. */
  ghost predicate FirstGiven(names: seq<Text>, name: Text) {
    if forall i :: 0 <= i < |names| ==> names[i] == Text("") then name == Text("")
    else exists i :: 0 <= i < |names| && names[i] != Text("") && name == names[i] &&
                     forall j :: 0 <= j < i ==> names[j] == Text("")
  }

  /** A source is identified by its kind and the first name it gives. */
  lemma SourceIsNamed(s: PackageSource)
    ensures s.Identity().source == s.kind
    ensures FirstGiven([s.package, s.name, s.ref, s.path, s.repo], s.Identity().name)
  {
    var names := [s.package, s.name, s.ref, s.path, s.repo];
    assert names[0] == s.package && names[1] == s.name && names[2] == s.ref && names[3] == s.path && names[4] == s.repo;
    if s.package == EMPTY && s.name == EMPTY && s.ref == EMPTY && s.path == EMPTY && s.repo == EMPTY {
      assert forall i :: 0 <= i < |names| ==> names[i] == Text("");
    }
  }

  /** The white space that trimming removes. */
  const WHITE_SPACE :=
    "\U{9}\U{A}\U{B}\U{C}\U{D}\U{20}\U{85}\U{A0}\U{1680}" +
    "\U{2000}\U{2001}\U{2002}\U{2003}\U{2004}\U{2005}\U{2006}\U{2007}\U{2008}\U{2009}\U{200A}" +
    "\U{2028}\U{2029}\U{202F}\U{205F}\U{3000}"

  lemma WhiteSpaceIs(c: char)
    ensures c in WHITE_SPACE <==> IsSpace(c)
  {}

  /** An identity is valid if its source and its name hold more than white space. */
  lemma ValidIdentities(identity: PackageIdentity)
    ensures identity.Valid() <==>
            && (exists c :: c in identity.source.chars && c !in WHITE_SPACE)
            && (exists c :: c in identity.name.chars && c !in WHITE_SPACE)
  {
    forall c ensures c in WHITE_SPACE <==> IsSpace(c) {
      WhiteSpaceIs(c);
    }
  }

  /** Normalising sets only what is not set: the layer is base, the authority owned, the editability derived, the
  constraint the source's range, the ID a number of at least four digits, and the identity the source's. */
  lemma DefaultsAre(d: Declaration, i: nat)
    ensures var n := d.Normalize(i);
            && n == d.(identity := n.identity, constraint := n.constraint, layer := n.layer,
                       authority := n.authority, editability := n.editability, id := n.id)
            && n.layer.chars == (if d.layer.chars == "" then "base" else d.layer.chars)
            && n.authority.chars == (if d.authority.chars == "" then "owned" else d.authority.chars)
            && n.editability.chars == (if d.editability.chars == "" then "derived" else d.editability.chars)
            && n.constraint == (if d.constraint.chars == "" then d.source.range else d.constraint)
    ensures d.id.chars != "" ==> d.Normalize(i).id == d.id
    ensures d.id.chars == "" ==>
              exists digits :: d.Normalize(i).id.chars == "declaration-" + digits && Decimals.AllDigits(digits) &&
                          |digits| >= 4 && Decimals.Value(digits) == i
    ensures d.identity.Valid() ==> d.Normalize(i).identity == d.identity
    ensures !d.identity.Valid() ==> d.Normalize(i).identity == d.source.Identity()
  {
    Decimals.PaddedMeaning(i, 4);
    assert d.id.chars == "" ==> d.id == EMPTY && d.Normalize(i).id.chars == "declaration-" + Decimals.Padded(i, 4);
    assert d.layer.chars == "" ==> d.layer == EMPTY;
    assert d.authority.chars == "" ==> d.authority == EMPTY;
    assert d.editability.chars == "" ==> d.editability == EMPTY;
    assert d.constraint.chars == "" ==> d.constraint == EMPTY;
  }

  /** A normal declaration asks for exactly its constraint of its source, and otherwise passes on what it says. */
  lemma EffectiveAsksConstraint(d: Declaration)
    requires d.Normal()
    ensures d.Effective() ==
            EffectiveDependency(d.key, d.kind, d.source.(range := d.constraint), d.optional, d.patch)
  {}

  /** The name a declaration goes by among the effective dependencies: its key, or else its source's name. */
  lemma EffectiveName(d: Declaration)
    ensures d.key.chars != "" ==> d.Effective().Identity() == d.key
    ensures d.key.chars == "" ==> d.Effective().Identity() == d.source.Identity().name
  {
    assert d.key.chars == "" ==> d.key == EMPTY;
  }

  /** No colon in the source, no bar in the name. */
  predicate Separable(identity: PackageIdentity) {
    ':' !in identity.source.chars && '|' !in identity.name.chars
  }

  lemma FirstAt(a: string, c: char, x: string, s: string)
    requires s == a + [c] + x && c !in a
    ensures |a| < |s| && s[|a|] == c && (forall i :: 0 <= i < |a| ==> s[i] != c)
    ensures a == s[..|a|] && x == s[|a| + 1..]
  {
    assert forall i :: 0 <= i < |a| ==> s[i] == a[i];
  }

  lemma SplitUnique(a: string, b: string, x: string, y: string, c: char)
    requires a + [c] + x == b + [c] + y && c !in a && c !in b
    ensures a == b && x == y
  {
    FirstAt(a, c, x, a + [c] + x);
    FirstAt(b, c, y, a + [c] + x);
  }

  lemma SlotText(d: Declaration)
    ensures d.Slot().chars == d.identity.source.chars + ":" +
                              (d.identity.name.chars + "|" + d.Effective().Identity().chars)
  {
    var source, name, key := d.identity.source.chars, d.identity.name.chars, d.Effective().Identity().chars;
    assert source + ":" + name + "|" + key == source + ":" + (name + "|" + key);
  }

  /** Two declarations write one slot exactly if they have one identity and one effective name. */
  lemma SlotsIdentify(a: Declaration, b: Declaration)
    requires Separable(a.identity) && Separable(b.identity)
    ensures a.Slot() == b.Slot() <==> a.identity == b.identity && a.Effective().Identity() == b.Effective().Identity()
  {
    SlotText(a);
    SlotText(b);
    if a.Slot() == b.Slot() {
      var x := a.identity.name.chars + "|" + a.Effective().Identity().chars;
      var y := b.identity.name.chars + "|" + b.Effective().Identity().chars;
      SplitUnique(a.identity.source.chars, b.identity.source.chars, x, y, ':');
      SplitUnique(a.identity.name.chars, b.identity.name.chars, a.Effective().Identity().chars,
                  b.Effective().Identity().chars, '|');
    }
  }

  /** With a bar in a name, declarations of two packages can write one slot. */
  lemma SlotsCanCollide(d: Declaration)
    ensures var a := d.(identity := PackageIdentity(Text("npm"), Text("x|y")), key := Text("z"));
            var b := d.(identity := PackageIdentity(Text("npm"), Text("x")), key := Text("y|z"));
            a.identity != b.identity && a.Slot() == b.Slot()
  {
    var a := d.(identity := PackageIdentity(Text("npm"), Text("x|y")), key := Text("z"));
    var b := d.(identity := PackageIdentity(Text("npm"), Text("x")), key := Text("y|z"));
    EffectiveName(a);
    EffectiveName(b);
    assert a.Slot().chars == "npm:x|y|z" && b.Slot().chars == "npm:x|y|z";
    assert a.identity.name.chars != b.identity.name.chars by {
      assert |a.identity.name.chars| == 3 && |b.identity.name.chars| == 1;
    }
  }
}
