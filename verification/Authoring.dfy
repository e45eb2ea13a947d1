/** Dependency declarations, their identities, and the form the tape works on. */
module Authoring {
  import opened Orders
  import Decimals

  /** A string the model compares, concatenates and orders, but never searches. Wrapping it
      keeps the declaration's fields atoms for the verifier. */
  datatype Text = Text(chars: string)

  const EMPTY := Text("")

  const LAYER_BASE := Text("base")
  const LAYER_CONCEPT := Text("concept")
  const LAYER_TEMPLATE := Text("template")
  const LAYER_PROJECT := Text("project")
  const LAYER_PACKAGE := Text("package")
  const LAYER_COMPATIBILITY := Text("compatibility")
  const LAYER_EXPLICIT := Text("explicit")

  const KIND_RUNTIME := Text("dep")
  const KIND_TOOL := Text("tool")
  const KIND_PEER := Text("peer")

  const ORIGIN_CONCEPT := Text("concept")
  const ORIGIN_EXPLICIT := Text("explicit-user-operation")
  const AUTHORITY_OWNED := Text("owned")
  const AUTHORITY_GENERATED := Text("generated")
  const EDITABILITY_EDITABLE := Text("editable")
  const EDITABILITY_DERIVED := Text("derived")
  const EDITABILITY_CONCEPT := Text("concept-owned")
  const SOURCE_NPM := Text("npm")

  const MIN_INT64: int := -0x8000_0000_0000_0000
  const MAX_INT64: int := 0x7fff_ffff_ffff_ffff
  type Int64 = n: int | MIN_INT64 <= n <= MAX_INT64

  /** Two's-complement successor: the greatest value wraps to the least. */
  function Increment(n: Int64): Int64 {
    if n == MAX_INT64 then MIN_INT64 else n + 1
  }

  /** Unicode white space, as strings.TrimSpace strips it. */
  predicate IsSpace(c: char) {
    var u := c as int;
    || 9 <= u <= 13 || u == 0x20 || u == 0x85 || u == 0xA0 || u == 0x1680
    || 0x2000 <= u <= 0x200A || u == 0x2028 || u == 0x2029 || u == 0x202F || u == 0x205F || u == 0x3000
  }

  predicate Blank(s: Text) {
    forall c :: c in s.chars ==> IsSpace(c)
  }

  datatype PackageIdentity = PackageIdentity(source: Text, name: Text) {
    function Key(): Text {
      Text(source.chars + ":" + name.chars)
    }

    predicate Valid() {
      !Blank(source) && !Blank(name)
    }
  }

  datatype PackageSource = PackageSource(
    kind: Text, package: Text, range: Text, ref: Text, repo: Text,
    tag: Text, rev: Text, branch: Text, path: Text, name: Text)
  {
    function Identity(): PackageIdentity {
      PackageIdentity(kind,
                      if package != EMPTY then package
                      else if name != EMPTY then name
                      else if ref != EMPTY then ref
                      else if path != EMPTY then path
                      else repo)
    }
  }

  datatype Origin = Origin(kind: Text, name: Text, sourcePath: Text, ref: Text)

  datatype Patch = Patch(path: Text, version: Text)

  datatype Declaration = Declaration(
    id: Text, key: Text, identity: PackageIdentity, source: PackageSource, constraint: Text,
    kind: Text, optional: bool, origin: Origin, layer: Text, layerOrder: Int64, order: Int64,
    authority: Text, editability: Text, patch: Option<Patch>)
  {
    /** The projection that package resolution consumes. */
    function Effective(): EffectiveDependency {
      EffectiveDependency(
        key, kind,
        if constraint != EMPTY then source.(range := constraint) else source,
        optional, patch)
    }

    /** Two declarations write the same slot when this string agrees. */
    function Slot(): Text {
      Text(identity.Key().chars + "|" + Effective().Identity().chars)
    }

    /** Fills every defaulted field; `fallback` numbers a declaration without an ID. */
    function Normalize(fallback: nat): Declaration {
      this.(identity := if identity.Valid() then identity else source.Identity(),
            constraint := if constraint == EMPTY then source.range else constraint,
            layer := if layer == EMPTY then LAYER_BASE else layer,
            authority := if authority == EMPTY then AUTHORITY_OWNED else authority,
            editability := if editability == EMPTY then EDITABILITY_DERIVED else editability,
            id := if id == EMPTY then Text("declaration-" + Decimals.Padded(fallback, 4)) else id)
    }

    /** What normalisation establishes and leaves alone from then on. */
    predicate Normal() {
      && (identity.Valid() || identity == source.Identity())
      && (constraint == EMPTY ==> source.range == EMPTY)
      && layer != EMPTY && authority != EMPTY && editability != EMPTY && id != EMPTY
    }
  }

  datatype EffectiveDependency = EffectiveDependency(
    key: Text, kind: Text, source: PackageSource, optional: bool, patch: Option<Patch>)
  {
    function Identity(): Text {
      if key != EMPTY then key else source.Identity().name
    }
  }

  /** Normal form is reached at once, and a declaration in normal form is a fixed point
      whatever its position. */
  lemma NormalizeIdempotent(d: Declaration, i: nat, j: nat)
    ensures d.Normalize(i).Normal()
    ensures d.Normalize(i).Normalize(j) == d.Normalize(i)
    ensures d.Normal() ==> d.Normalize(j) == d
    ensures d.id != EMPTY ==> d.Normalize(i) == d.Normalize(j)
  {}

  /** Each declaration normalised at its own index. */
  function NormalizeAll(ds: seq<Declaration>): (r: seq<Declaration>)
    ensures |r| == |ds|
    ensures forall i :: 0 <= i < |ds| ==> r[i] == ds[i].Normalize(i)
  {
    seq(|ds|, i requires 0 <= i < |ds| => ds[i].Normalize(i))
  }

  function LayerRank(layer: Text): int {
    if layer == LAYER_BASE then 0
    else if layer == LAYER_CONCEPT then 10
    else if layer == LAYER_TEMPLATE then 20
    else if layer == LAYER_PROJECT then 30
    else if layer == LAYER_PACKAGE then 40
    else if layer == LAYER_COMPATIBILITY then 50
    else if layer == LAYER_EXPLICIT then 60
    else 25
  }

  /** The tape order: layer rank, then layer order, then order, then ID. */
  predicate Precedes(a: Declaration, b: Declaration) {
    if LayerRank(a.layer) != LayerRank(b.layer) then LayerRank(a.layer) < LayerRank(b.layer)
    else if a.layerOrder != b.layerOrder then a.layerOrder < b.layerOrder
    else if a.order != b.order then a.order < b.order
    else StringLess(a.id.chars, b.id.chars)
  }

  predicate SameKey(a: Declaration, b: Declaration) {
    LayerRank(a.layer) == LayerRank(b.layer) && a.layerOrder == b.layerOrder && a.order == b.order && a.id == b.id
  }

  lemma PrecedesTransitive(a: Declaration, b: Declaration, c: Declaration)
    requires Precedes(a, b) && Precedes(b, c)
    ensures Precedes(a, c)
  {
    if a.id != b.id && b.id != c.id && StringLess(a.id.chars, b.id.chars) && StringLess(b.id.chars, c.id.chars) {
      StringLessTransitive(a.id.chars, b.id.chars, c.id.chars);
    }
    StringLessTrichotomy(a.id.chars, b.id.chars);
    StringLessTrichotomy(b.id.chars, c.id.chars);
  }

  lemma PrecedesTotal(a: Declaration, b: Declaration)
    ensures Tied(Precedes, a, b) <==> SameKey(a, b)
    ensures !(Precedes(a, b) && Precedes(b, a))
  {
    StringLessTrichotomy(a.id.chars, b.id.chars);
  }

  /** The comparator is a strict weak order whose ties are exactly equal keys. */
  lemma PrecedesIsWeakOrder()
    ensures WeakOrder(Precedes)
    ensures forall a, b :: Tied(Precedes, a, b) <==> SameKey(a, b)
  {
    forall a, b ensures Tied(Precedes, a, b) <==> SameKey(a, b) {
      PrecedesTotal(a, b);
    }
    forall a ensures !Precedes(a, a) {
      PrecedesTotal(a, a);
    }
    forall a, b, c | Precedes(a, b) && Precedes(b, c) ensures Precedes(a, c) {
      PrecedesTransitive(a, b, c);
    }
    forall a, b, c | Precedes(a, c) ensures Precedes(a, b) || Precedes(b, c) {
      PrecedesTotal(a, b);
      PrecedesTotal(b, c);
      if Precedes(b, a) {
        PrecedesTransitive(b, a, c);
      }
    }
  }
}
