/** Where declarations stand on the tape, and what is reported about them, in the names the program uses. */
module TapePlaces {
  import opened Orders
  import opened Sequences
  import opened Authoring
  import opened LastWriter
  import opened Tape
  import TapeLaws

  // ---------------------------------------------------------------------
  // Layers, and places within a layer.

  /** The layers by name, in the order in which they are applied; any other name comes after templates. */
  predicate InStage(layer: Text, stage: nat) {
    match stage
    case 0 => layer.chars == "base"
    case 1 => layer.chars == "concept"
    case 2 => layer.chars == "template"
    case 3 => layer.chars !in {"base", "concept", "template", "project", "package", "compatibility", "explicit"}
    case 4 => layer.chars == "project"
    case 5 => layer.chars == "package"
    case 6 => layer.chars == "compatibility"
    case 7 => layer.chars == "explicit"
    case _ => false
  }

  /** No declaration stands before one of the same layer that has a smaller layer order, or the same and a smaller
  order, or both the same and a smaller ID. */
  predicate InPlace(a: Declaration, b: Declaration) {
    || a.layerOrder < b.layerOrder
    || (a.layerOrder == b.layerOrder &&
        (a.order < b.order || (a.order == b.order && (a.id == b.id || StringLess(a.id.chars, b.id.chars)))))
  }

  lemma StageIsRank(layer: Text, stage: nat)
    ensures InStage(layer, stage) <==> stage < 8 && LayerRank(layer) == [0, 10, 20, 25, 30, 40, 50, 60][stage]
  {
    SameText(layer, LAYER_BASE);
    SameText(layer, LAYER_CONCEPT);
    SameText(layer, LAYER_TEMPLATE);
    SameText(layer, LAYER_PROJECT);
    SameText(layer, LAYER_PACKAGE);
    SameText(layer, LAYER_COMPATIBILITY);
    SameText(layer, LAYER_EXPLICIT);
  }

  lemma SameText(a: Text, b: Text)
    ensures a == b <==> a.chars == b.chars
  {}

  lemma OneStage(layer: Text)
    ensures exists stage :: InStage(layer, stage)
    ensures forall m, n :: InStage(layer, m) && InStage(layer, n) ==> m == n
  {
    forall stage: nat
      ensures InStage(layer, stage) <==>
              stage < 8 && LayerRank(layer) == [0, 10, 20, 25, 30, 40, 50, 60][stage]
    {
      StageIsRank(layer, stage);
    }
    var stage := if layer == LAYER_BASE then 0 else if layer == LAYER_CONCEPT then 1
                 else if layer == LAYER_TEMPLATE then 2 else if layer == LAYER_PROJECT then 4
                 else if layer == LAYER_PACKAGE then 5 else if layer == LAYER_COMPATIBILITY then 6
                 else if layer == LAYER_EXPLICIT then 7 else 3;
    assert InStage(layer, stage);
  }

  /** On every tape, declarations stand by layer, and within a layer by layer order, order and ID. */
  lemma TapeFollowsLayers(ds: seq<Declaration>, i: nat, j: nat, m: nat, n: nat)
    requires i < |TapeOf(ds)| && j < |TapeOf(ds)|
    requires InStage(TapeOf(ds)[i].layer, m) && InStage(TapeOf(ds)[j].layer, n)
    ensures m < n ==> i < j
    ensures m == n && i < j ==> InPlace(TapeOf(ds)[i], TapeOf(ds)[j])
  {
    var t := TapeOf(ds);
    TapeLaws.TapeContents(ds);
    StageIsRank(t[i].layer, m);
    StageIsRank(t[j].layer, n);
    StringLessTrichotomy(t[i].id.chars, t[j].id.chars);
    assert j < i ==> !Precedes(t[i], t[j]);
    assert i < j ==> !Precedes(t[j], t[i]);
  }

  /** So where two declarations write one slot, the one of the earlier layer is shadowed, by a later declaration
  of that slot. */
  lemma LaterLayerWins(ds: seq<Declaration>, i: nat, j: nat, m: nat, n: nat)
    requires i < |TapeOf(ds)| && j < |TapeOf(ds)|
    requires InStage(TapeOf(ds)[i].layer, m) && InStage(TapeOf(ds)[j].layer, n) && m < n
    requires TapeOf(ds)[i].Slot() == TapeOf(ds)[j].Slot()
    ensures var entry := Resolve(TapeOf(ds)).entries[i];
            !entry.effective && entry.shadowedBy.Some? && i < entry.shadowedBy.value.position <= j
  {
    TapeFollowsLayers(ds, i, j, m, n);
    TapeLaws.EntriesMeaning(ds, i);
  }

  // ---------------------------------------------------------------------
  // Conflicts.

  /** What is said of two declarations that write one slot: the first of kind, optionality and constraint in which
  they differ. */
  predicate Told(outcome: Outcome, a: Declaration, b: Declaration) {
    match outcome
    case KindOverride => a.kind != b.kind
    case OptionalOverride => a.kind == b.kind && a.optional != b.optional
    case ConstraintOverride => a.kind == b.kind && a.optional == b.optional && a.constraint != b.constraint
    case Duplicate => a.kind == b.kind && a.optional == b.optional && a.constraint == b.constraint
    case KeyCollision => false
  }

  /** Positions `e` and `p` hold one key, and none between them does. */
  ghost predicate Neighbours<K>(keys: seq<K>, e: nat, p: nat) {
    e < p < |keys| && keys[e] == keys[p] && forall k :: e < k < p ==> keys[k] != keys[p]
  }

  lemma NeighboursAre<K>(keys: seq<K>, e: nat, p: nat)
    requires p < |keys|
    ensures Neighbours(keys, e, p) <==> Latest(keys, keys[p], p) == Some(e)
  {
    LatestMeaning(keys, keys[p], p);
    if Neighbours(keys, e, p) {
      LatestIs(keys, keys[p], p, e);
    }
  }

  /** A shadowing: the declarations at two neighbouring positions of one slot, and what is said of them. */
  ghost predicate Shadows(t: seq<Declaration>, c: Conflict, e: nat, p: nat) {
    && Neighbours(Slots(t), e, p) && e < |t| && p < |t| && !c.fatal && Told(c.outcome, t[e], t[p])
    && c.earlier == TapeRef(e, t[e].id) && c.later == TapeRef(p, t[p].id)
  }

  /** A collision: two packages at neighbouring positions of one effective name. */
  ghost predicate Collides(t: seq<Declaration>, c: Conflict, e: nat, p: nat) {
    && Neighbours(EffectiveKeys(t), e, p) && e < |t| && p < |t| && c.fatal && c.outcome == KeyCollision
    && t[e].identity != t[p].identity && c.earlier == TapeRef(e, t[e].id) && c.later == TapeRef(p, t[p].id)
  }

  lemma ToldOnce(outcome: Outcome, a: Declaration, b: Declaration)
    ensures Told(outcome, a, b) <==> outcome == Classify(a, b)
  {}

  lemma ShadowsAre(t: seq<Declaration>, p: nat, c: Conflict)
    requires p < |t|
    ensures c in ShadowsAt(t, p) <==> exists e: nat :: Shadows(t, c, e, p)
  {
    var slots := Slots(t);
    assert slots[p] == t[p].Slot();
    LatestMeaning(slots, slots[p], p);
    if Latest(slots, slots[p], p).Some? {
      var e := Latest(slots, slots[p], p).value;
      NeighboursAre(slots, e, p);
      ToldOnce(c.outcome, t[e], t[p]);
      assert c in ShadowsAt(t, p) <==> Shadows(t, c, e, p);
    }
    if e: nat :| Shadows(t, c, e, p) {
      NeighboursAre(slots, e, p);
    }
  }

  lemma CollisionsAre(t: seq<Declaration>, p: nat, c: Conflict)
    requires p < |t|
    ensures c in CollisionsAt(t, p) <==> exists e: nat :: Collides(t, c, e, p)
  {
    var keys := EffectiveKeys(t);
    assert keys[p] == t[p].Effective().Identity();
    LatestMeaning(keys, keys[p], p);
    if Latest(keys, keys[p], p).Some? {
      var e := Latest(keys, keys[p], p).value;
      NeighboursAre(keys, e, p);
      assert c in CollisionsAt(t, p) <==> Collides(t, c, e, p);
    }
    if e: nat :| Collides(t, c, e, p) {
      NeighboursAre(keys, e, p);
    }
  }

  /** The conflicts are exactly the shadowings and collisions of neighbouring declarations. */
  lemma ConflictsAreExact(t: seq<Declaration>, c: Conflict)
    ensures c in Resolve(t).conflicts <==> exists e: nat, p: nat :: Shadows(t, c, e, p) || Collides(t, c, e, p)
  {
    ConcatMember(Raised(t), |t|, c);
    if c in Resolve(t).conflicts {
      var p: nat :| p < |t| && c in Raised(t)[p];
      assert c in ShadowsAt(t, p) || c in CollisionsAt(t, p);
      ShadowsAre(t, p, c);
      CollisionsAre(t, p, c);
    }
    if e: nat, p: nat :| Shadows(t, c, e, p) || Collides(t, c, e, p) {
      ShadowsAre(t, p, c);
      CollisionsAre(t, p, c);
      assert c in Raised(t)[p];
    }
  }

  /** Conflicts are listed by the position of the later declaration, a shadowing before a collision. */
  predicate ListedBefore(a: Conflict, b: Conflict) {
    a.later.position < b.later.position || (a.later.position == b.later.position && !a.fatal && b.fatal)
  }

  lemma RaisedOrdered(t: seq<Declaration>, p: nat)
    requires p < |t|
    ensures Increasing(RaisedAt(t, p), ListedBefore)
    ensures forall c :: c in RaisedAt(t, p) ==> c.later.position == p
  {
    forall c | c in RaisedAt(t, p) ensures c.later.position == p {
      ShadowsAre(t, p, c);
      CollisionsAre(t, p, c);
    }
    var shadows, collisions := ShadowsAt(t, p), CollisionsAt(t, p);
    assert |shadows| <= 1 && |collisions| <= 1;
    forall x, y | x in shadows && y in collisions ensures ListedBefore(x, y) {
      ShadowsAre(t, p, x);
      CollisionsAre(t, p, y);
    }
    IncreasingConcat(shadows, collisions, ListedBefore);
  }

  lemma ConflictsInOrder(t: seq<Declaration>)
    ensures Increasing(Resolve(t).conflicts, ListedBefore)
  {
    forall p | 0 <= p < |t|
      ensures Increasing(Raised(t)[p], ListedBefore) && forall c :: c in Raised(t)[p] ==> c.later.position == p
    {
      RaisedOrdered(t, p);
    }
    PartsIncrease(Raised(t), |t|, (c: Conflict) => c.later.position, ListedBefore);
  }
}
