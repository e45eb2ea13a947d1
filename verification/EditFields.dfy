/** What edits read and fill in, field by field. */
module EditFields {
  import opened Orders
  import opened Sequences
  import opened Authoring
  import opened Tape
  import opened Edits
  import opened EditLaws
  import TapeLaws

  // ---------------------------------------------------------------------
  // Selectors.

  const ANY := Selector(Text(""), None, Text(""), Text(""), Text(""), Text(""), false)

  /** A selector with one field set selects by that field; the empty one selects everything. */
  lemma SelectsByField(d: Declaration, text: Text, identity: PackageIdentity)
    requires text.chars != ""
    ensures ANY.Matches(d)
    ensures ANY.(id := text).Matches(d) <==> d.id == text
    ensures ANY.(kind := text).Matches(d) <==> d.kind == text
    ensures ANY.(originKind := text).Matches(d) <==> d.origin.kind == text
    ensures ANY.(originName := text).Matches(d) <==> d.origin.name == text
    ensures ANY.(sourcePath := text).Matches(d) <==> d.origin.sourcePath == text
    ensures ANY.(editableOnly := true).Matches(d) <==> d.editability.chars == "editable"
    ensures ANY.(identity := Some(identity)).Matches(d) <==>
            if d.identity.Valid() then d.identity == identity else d.source.Identity() == identity
  {
    assert text != EMPTY;
    assert d.editability == EDITABILITY_EDITABLE <==> d.editability.chars == "editable";
  }

  /** With several fields set, a selector selects what each of them selects. */
  lemma SelectsByAllFields(s: Selector, d: Declaration)
    ensures s.Matches(d) <==>
            && ANY.(id := s.id).Matches(d) && ANY.(identity := s.identity).Matches(d)
            && ANY.(kind := s.kind).Matches(d) && ANY.(originKind := s.originKind).Matches(d)
            && ANY.(originName := s.originName).Matches(d) && ANY.(sourcePath := s.sourcePath).Matches(d)
            && ANY.(editableOnly := s.editableOnly).Matches(d)
  {}

  // ---------------------------------------------------------------------
  // Additions.

  /** An addition is an explicit, owned and editable declaration by the user unless it says otherwise, and comes
  next in its layer. */
  lemma AdditionFillsIn(ds: seq<Declaration>, d: Declaration)
    ensures var a := Prepared(ds, d);
            && a.layer.chars == (if d.layer.chars == "" then "explicit" else d.layer.chars)
            && a.authority.chars == (if d.authority.chars == "" then "owned" else d.authority.chars)
            && a.editability.chars == (if d.editability.chars == "" then "editable" else d.editability.chars)
            && (d.origin.kind.chars != "" ==> a.origin == d.origin)
            && (d.origin.kind.chars == "" ==>
                  a.origin == Origin(Text("explicit-user-operation"), Text("dependency edit"), Text(""), Text("")))
            && a.layerOrder == d.layerOrder
            && (forall i :: 0 <= i < |ds| && ds[i].layer == a.layer && ds[i].layerOrder == a.layerOrder ==>
                  || ds[i].order < a.order
                  || (a.order == MIN_INT64 && exists k :: 0 <= k < |ds| && ds[k].order == MAX_INT64))
  {
    assert d.layer.chars == "" ==> d.layer == EMPTY;
    assert d.authority.chars == "" ==> d.authority == EMPTY;
    assert d.editability.chars == "" ==> d.editability == EMPTY;
    assert d.origin.kind.chars == "" ==> d.origin.kind == EMPTY;
  }

  // ---------------------------------------------------------------------
  // Replacements.

  /** A replacement in the same layer, without an ID and an order of its own, takes over those of the replaced
  declaration and stands at its place; no other declaration moves. */
  lemma ReplacementTakesPlace(ds: seq<Declaration>, i: nat, d: Declaration)
    requires i < |ds| && d.id.chars == "" && d.order == 0
    requires d.layer == ds[i].layer && d.layerOrder == ds[i].layerOrder
    ensures var t, u := TapeOf(ds), TapeOf(ds[i := Carried(d, ds[i])]);
            && |t| == |u|
            && forall p :: 0 <= p < |t| ==>
                 || t[p] == u[p]
                 || (t[p] == ds[i].Normalize(i) && u[p] == d.(id := ds[i].id, order := ds[i].order).Normalize(i))
  {
    assert d.id == EMPTY;
    SameKeyKeepsOrder(ds, i, Carried(d, ds[i]));
  }

  /** What a replacement says itself stays. */
  lemma ReplacementKeeps(d: Declaration, previous: Declaration)
    ensures Carried(d, previous) == d.(id := Carried(d, previous).id, order := Carried(d, previous).order)
    ensures d.id.chars != "" ==> Carried(d, previous).id == d.id
    ensures d.order != 0 ==> Carried(d, previous).order == d.order
  {
    assert d.id.chars != "" ==> d.id != EMPTY;
  }

  /** A changed constraint is asked for: the changed declaration is on the tape, asks its source for that range, and
  says the same as before otherwise. */
  lemma ConstraintTakesEffect(ds: seq<Declaration>, i: nat, constraint: Text)
    requires i < |ds|
    ensures var x, y := ds[i].Normalize(i), Constrained(ds[i], constraint).Normalize(i);
            && y in TapeOf(ds[i := Constrained(ds[i], constraint)])
            && y.Effective() == x.Effective().(source := x.source.(range := constraint))
            && x.id == y.id && x.layer == y.layer && x.layerOrder == y.layerOrder && x.order == y.order
  {
    var es := ds[i := Constrained(ds[i], constraint)];
    TapeLaws.TapeContents(es);
    SameMembers(TapeOf(es), NormalizeAll(es));
    assert NormalizeAll(es)[i] in NormalizeAll(es);
    NormalizeConstrained(ds[i], i, constraint);
  }
}
