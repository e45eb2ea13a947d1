/** Edits of the declaration list, and the changes they report. */
module Edits {
  import opened Orders
  import opened Sequences
  import opened Authoring
  import opened Tape

  datatype Selector = Selector(
    id: Text, identity: Option<PackageIdentity>, kind: Text, originKind: Text,
    originName: Text, sourcePath: Text, editableOnly: bool)
  {
    /** An empty selector field matches everything. */
    predicate Matches(d: Declaration) {
      && (id == EMPTY || d.id == id)
      && (identity.None? || (if d.identity.Valid() then d.identity else d.source.Identity()) == identity.value)
      && (kind == EMPTY || d.kind == kind)
      && (originKind == EMPTY || d.origin.kind == originKind)
      && (originName == EMPTY || d.origin.name == originName)
      && (sourcePath == EMPTY || d.origin.sourcePath == sourcePath)
      && (editableOnly ==> d.editability == EDITABILITY_EDITABLE)
    }
  }

  function ById(id: Text): Selector {
    Selector(id, None, EMPTY, EMPTY, EMPTY, EMPTY, false)
  }

  datatype ChangeKind = Added | Removed | Changed | Shadowed | Unshadowed

  datatype Change = Change(kind: ChangeKind, declaration: Declaration, previous: Option<Declaration>)

  datatype EditResult = EditResult(before: Resolution, after: Resolution, changes: seq<Change>)

  datatype EditOutcome = Edited(result: EditResult) | NotFound | Ambiguous(matches: seq<Declaration>)

  // ---------------------------------------------------------------------
  // Selecting declarations.

  /** Indices of the matching declarations, in list order. */
  function Matching(ds: seq<Declaration>, selector: Selector): (r: seq<nat>)
    ensures forall k :: 0 <= k < |r| ==> r[k] < |ds| && selector.Matches(ds[r[k]])
  {
    Positions(ds, selector.Matches)
  }

  method MatchingDeclarationIndexes(declarations: seq<Declaration>, selector: Selector) returns (matches: seq<nat>)
    ensures matches == Matching(declarations, selector)
  {
    matches := [];
    for index := 0 to |declarations|
      invariant matches == Matching(declarations[..index], selector)
    {
      assert declarations[..index + 1][..index] == declarations[..index];
      if selector.Matches(declarations[index]) {
        matches := matches + [index];
      }
    }
    assert declarations[..|declarations|] == declarations;
  }

  predicate InLayer(d: Declaration, layer: Text, layerOrder: Int64) {
    d.layer == layer && d.layerOrder == layerOrder
  }

  /** The greatest order in a layer, at least -1. */
  function HighestOrder(ds: seq<Declaration>, layer: Text, layerOrder: Int64): (r: Int64)
    ensures r >= -1
    ensures forall i :: 0 <= i < |ds| && InLayer(ds[i], layer, layerOrder) ==> ds[i].order <= r
    ensures r == -1 || exists i :: 0 <= i < |ds| && InLayer(ds[i], layer, layerOrder) && ds[i].order == r
  {
    if ds == [] then -1
    else
      var last, rest := ds[|ds| - 1], ds[..|ds| - 1];
      var r := HighestOrder(rest, layer, layerOrder);
      if InLayer(last, layer, layerOrder) && last.order > r then last.order
      else
        assert r == -1 || exists i :: 0 <= i < |rest| && InLayer(ds[i], layer, layerOrder) && rest[i].order == r;
        r
  }

  method NextOrder(declarations: seq<Declaration>, layer: Text, layerOrder: Int64) returns (order: Int64)
    ensures order == Increment(HighestOrder(declarations, layer, layerOrder))
  {
    order := -1;
    for index := 0 to |declarations|
      invariant order == HighestOrder(declarations[..index], layer, layerOrder)
    {
      assert declarations[..index + 1][..index] == declarations[..index];
      var declaration := declarations[index];
      if declaration.layer == layer && declaration.layerOrder == layerOrder && declaration.order > order {
        order := declaration.order;
      }
    }
    assert declarations[..|declarations|] == declarations;
    order := Increment(order);
  }

  // ---------------------------------------------------------------------
  // Explaining an edit.

  /** The effective entries by slot, later ones replacing earlier ones. */
  function EffectiveBySlot(entries: seq<TapeEntry>): map<Text, TapeEntry> {
    if entries == [] then map[]
    else
      var last := entries[|entries| - 1];
      var m := EffectiveBySlot(entries[..|entries| - 1]);
      if last.effective then m[last.declaration.Slot() := last] else m
  }

  method EffectiveEntriesByIdentity(resolution: Resolution) returns (out: map<Text, TapeEntry>)
    ensures out == EffectiveBySlot(resolution.entries)
  {
    var entries := resolution.entries;
    out := map[];
    for index := 0 to |entries|
      invariant out == EffectiveBySlot(entries[..index])
    {
      assert entries[..index + 1][..index] == entries[..index];
      if entries[index].effective {
        out := out[entries[index].declaration.Slot() := entries[index]];
      }
    }
    assert entries[..|entries|] == entries;
  }

  predicate Removes(changes: seq<Change>, id: Text) {
    exists i :: 0 <= i < |changes| && changes[i].kind == Removed && changes[i].declaration.id == id
  }

  /** What one slot contributes to the explanation: nothing unless its effective declaration
      was replaced by one with another ID. */
  function Explain(before: map<Text, TapeEntry>, after: map<Text, TapeEntry>, edits: seq<Change>,
                   slot: Text): seq<Change>
    requires slot in before
  {
    if slot !in after || before[slot].declaration.id == after[slot].declaration.id then []
    else if Removes(edits, before[slot].declaration.id)
    then [Change(Unshadowed, after[slot].declaration, Some(before[slot].declaration))]
    else [Change(Shadowed, before[slot].declaration, Some(after[slot].declaration))]
  }

  function ExplainAll(before: map<Text, TapeEntry>, after: map<Text, TapeEntry>, edits: seq<Change>,
                      slots: seq<Text>): seq<Change>
    requires forall s :: s in slots ==> s in before
  {
    if slots == [] then []
    else ExplainAll(before, after, edits, slots[..|slots| - 1]) + Explain(before, after, edits, slots[|slots| - 1])
  }

  /** The slots of a map in some order: map iteration promises no particular one. */
  ghost predicate Enumerates(slots: seq<Text>, m: map<Text, TapeEntry>) {
    && (forall s :: s in slots <==> s in m)
    && (forall i, j :: 0 <= i < j < |slots| ==> slots[i] != slots[j])
  }

  ghost predicate Explained(result: EditResult, edits: seq<Change>) {
    var before, after := EffectiveBySlot(result.before.entries), EffectiveBySlot(result.after.entries);
    exists slots :: Enumerates(slots, before) && result.changes == edits + ExplainAll(before, after, edits, slots)
  }

  lemma ExplanationsRemoveNothing(before: map<Text, TapeEntry>, after: map<Text, TapeEntry>, edits: seq<Change>,
                                  slots: seq<Text>, id: Text)
    requires forall s :: s in slots ==> s in before
    ensures Removes(edits + ExplainAll(before, after, edits, slots), id) <==> Removes(edits, id)
  {
    var changes := edits + ExplainAll(before, after, edits, slots);
    OnlyShadowing(before, after, edits, slots);
    forall i | |edits| <= i < |changes| ensures changes[i].kind != Removed {
      assert changes[i] == ExplainAll(before, after, edits, slots)[i - |edits|];
    }
    forall i | 0 <= i < |edits| ensures changes[i] == edits[i] {}
  }

  lemma {:induction false} OnlyShadowing(before: map<Text, TapeEntry>, after: map<Text, TapeEntry>, edits: seq<Change>,
                                         slots: seq<Text>)
    requires forall s :: s in slots ==> s in before
    ensures forall c :: c in ExplainAll(before, after, edits, slots) ==> c.kind == Shadowed || c.kind == Unshadowed
  {
    if slots != [] {
      OnlyShadowing(before, after, edits, slots[..|slots| - 1]);
    }
  }

  /** The state of the explanation loop: the slots visited so far, and what they contributed. */
  ghost predicate Explaining(before: map<Text, TapeEntry>, after: map<Text, TapeEntry>, edits: seq<Change>,
                             remaining: set<Text>, visited: seq<Text>, changes: seq<Change>)
  {
    && remaining <= before.Keys
    && (forall s :: s in visited <==> s in before && s !in remaining)
    && (forall i, j :: 0 <= i < j < |visited| ==> visited[i] != visited[j])
    && changes == edits + ExplainAll(before, after, edits, visited)
  }

  lemma ExplainNext(before: map<Text, TapeEntry>, after: map<Text, TapeEntry>, edits: seq<Change>, visited: seq<Text>,
                    slot: Text)
    requires slot in before && forall s :: s in visited ==> s in before
    ensures edits + ExplainAll(before, after, edits, visited + [slot]) ==
            edits + ExplainAll(before, after, edits, visited) + Explain(before, after, edits, slot)
  {
    assert (visited + [slot])[..|visited|] == visited;
    Regroup(edits, ExplainAll(before, after, edits, visited), Explain(before, after, edits, slot));
  }

  lemma VisitSlot(before: map<Text, TapeEntry>, after: map<Text, TapeEntry>, edits: seq<Change>,
                  remaining: set<Text>, visited: seq<Text>, changes: seq<Change>, slot: Text)
    requires Explaining(before, after, edits, remaining, visited, changes) && slot in remaining
    ensures Explaining(before, after, edits, remaining - {slot}, visited + [slot],
                       changes + Explain(before, after, edits, slot))
    ensures Removes(changes, before[slot].declaration.id) <==> Removes(edits, before[slot].declaration.id)
  {
    ExplanationsRemoveNothing(before, after, edits, visited, before[slot].declaration.id);
    ExplainNext(before, after, edits, visited, slot);
  }

  method BuildEditResult(before: Resolution, after: Resolution, edits: seq<Change>) returns (result: EditResult)
    ensures result.before == before && result.after == after
    ensures Explained(result, edits)
  {
    var beforeEffective := EffectiveEntriesByIdentity(before);
    var afterEffective := EffectiveEntriesByIdentity(after);
    var changes := edits;
    var remaining := beforeEffective.Keys;
    assert edits + [] == edits;
    ghost var visited: seq<Text> := [];
    while remaining != {}
      invariant Explaining(beforeEffective, afterEffective, edits, remaining, visited, changes)
      decreases remaining
    {
      var slot :| slot in remaining;
      VisitSlot(beforeEffective, afterEffective, edits, remaining, visited, changes, slot);
      remaining := remaining - {slot};
      visited := visited + [slot];
      var beforeEntry := beforeEffective[slot];
      if slot in afterEffective && beforeEntry.declaration.id != afterEffective[slot].declaration.id {
        var afterEntry := afterEffective[slot];
        if Removes(changes, beforeEntry.declaration.id) {
          changes := changes + [Change(Unshadowed, afterEntry.declaration, Some(beforeEntry.declaration))];
        } else {
          changes := changes + [Change(Shadowed, beforeEntry.declaration, Some(afterEntry.declaration))];
        }
      }
    }
    assert Enumerates(visited, beforeEffective);
    result := EditResult(before, after, changes);
  }

  // ---------------------------------------------------------------------
  // The edits.

  /** The declaration that Add appends: defaults for an explicit edit, then the next order. */
  function Prepared(ds: seq<Declaration>, d: Declaration): Declaration {
    var layer := if d.layer == EMPTY then LAYER_EXPLICIT else d.layer;
    d.(layer := layer,
       origin := if d.origin.kind ==
           EMPTY then Origin(ORIGIN_EXPLICIT, Text("dependency edit"), EMPTY, EMPTY) else d.origin,
       authority := if d.authority == EMPTY then AUTHORITY_OWNED else d.authority,
       editability := if d.editability == EMPTY then EDITABILITY_EDITABLE else d.editability,
       order := Increment(HighestOrder(ds, layer, d.layerOrder))).Normalize(|ds|)
  }

  method Add(declarations: seq<Declaration>, declaration: Declaration) returns (result: EditResult)
    ensures var added := Prepared(declarations, declaration);
            && result.before == Resolve(TapeOf(declarations))
            && result.after == Resolve(TapeOf(declarations + [added]))
            && Explained(result, [Change(Added, added, None)])
  {
    var before := Build(declarations);
    var added := declaration;
    if added.layer == EMPTY {
      added := added.(layer := LAYER_EXPLICIT);
    }
    if added.origin.kind == EMPTY {
      added := added.(origin := Origin(ORIGIN_EXPLICIT, Text("dependency edit"), EMPTY, EMPTY));
    }
    if added.authority == EMPTY {
      added := added.(authority := AUTHORITY_OWNED);
    }
    if added.editability == EMPTY {
      added := added.(editability := EDITABILITY_EDITABLE);
    }
    var order := NextOrder(declarations, added.layer, added.layerOrder);
    added := added.(order := order).Normalize(|declarations|);
    var after := Build(declarations + [added]);
    result := BuildEditResult(before, after, [Change(Added, added, None)]);
  }

  /** What Remove may answer: it works on the normalised declarations. */
  ghost predicate RemoveSpec(ds: seq<Declaration>, selector: Selector, outcome: EditOutcome) {
    var ns := NormalizeAll(ds);
    var matches := Matching(ns, selector);
    if |matches| == 0 then outcome == NotFound
    else if |matches| > 1 then outcome == Ambiguous(Picked(ns, matches))
    else
      && outcome.Edited?
      && outcome.result.before == Resolve(TapeOf(ns))
      && outcome.result.after == Resolve(TapeOf(Without(ns, matches[0])))
      && Explained(outcome.result, [Change(Removed, ns[matches[0]], None)])
  }

  method Remove(declarations: seq<Declaration>, selector: Selector) returns (outcome: EditOutcome)
    ensures RemoveSpec(declarations, selector, outcome)
  {
    var normalized := NormalizeDeclarations(declarations);
    var before := Build(normalized);
    var matches := MatchingDeclarationIndexes(normalized, selector);
    if |matches| == 0 {
      return NotFound;
    }
    if |matches| > 1 {
      return Ambiguous(Picked(normalized, matches));
    }
    var index := matches[0];
    var after := Build(normalized[..index] + normalized[index + 1..]);
    var result := BuildEditResult(before, after, [Change(Removed, normalized[index], None)]);
    outcome := Edited(result);
  }

  /** The declaration that replaces `previous`: its ID and order carry over when unset. */
  function Carried(replacement: Declaration, previous: Declaration): Declaration {
    replacement.(id := if replacement.id == EMPTY then previous.id else replacement.id,
                 order := if replacement.order == 0 then previous.order else replacement.order)
  }

  /** What Replace may answer: it works on the declarations as they are. */
  ghost predicate ReplaceSpec(ds: seq<Declaration>, selector: Selector, replacement: Declaration,
                              outcome: EditOutcome) {
    var matches := Matching(ds, selector);
    if |matches| == 0 then outcome == NotFound
    else if |matches| > 1 then outcome == Ambiguous(Picked(ds, matches))
    else
      var previous := ds[matches[0]];
      var carried := Carried(replacement, previous);
      && outcome.Edited?
      && outcome.result.before == Resolve(TapeOf(ds))
      && outcome.result.after == Resolve(TapeOf(ds[matches[0] := carried]))
      && Explained(outcome.result, [Change(Changed, carried, Some(previous))])
  }

  method Replace(declarations: seq<Declaration>, selector: Selector,
                 replacement: Declaration) returns (outcome: EditOutcome)
    ensures ReplaceSpec(declarations, selector, replacement, outcome)
  {
    var matches := MatchingDeclarationIndexes(declarations, selector);
    if |matches| == 0 {
      return NotFound;
    }
    if |matches| > 1 {
      return Ambiguous(Picked(declarations, matches));
    }
    var before := Build(declarations);
    var previous := declarations[matches[0]];
    var carried := replacement;
    if carried.id == EMPTY {
      carried := carried.(id := previous.id);
    }
    if carried.order == 0 {
      carried := carried.(order := previous.order);
    }
    var after := Build(declarations[matches[0] := carried]);
    var result := BuildEditResult(before, after, [Change(Changed, carried, Some(previous))]);
    outcome := Edited(result);
  }

  function Constrained(d: Declaration, constraint: Text): Declaration {
    d.(constraint := constraint, source := d.source.(range := constraint))
  }

  method ChangeConstraint(declarations: seq<Declaration>, selector: Selector,
                          constraint: Text) returns (outcome: EditOutcome)
    ensures var matches := Matching(declarations, selector);
            if |matches| == 0 then outcome == NotFound
            else if |matches| > 1 then outcome == Ambiguous(Picked(declarations, matches))
            else ReplaceSpec(declarations, selector, Constrained(declarations[matches[0]], constraint), outcome)
  {
    var matches := MatchingDeclarationIndexes(declarations, selector);
    if |matches| == 0 {
      return NotFound;
    }
    if |matches| > 1 {
      return Ambiguous(Picked(declarations, matches));
    }
    outcome := Replace(declarations, selector, Constrained(declarations[matches[0]], constraint));
  }
}
