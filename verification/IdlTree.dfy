/** Values as the walk and the encoder both see them: typed trees, the bytes they
    encode to, and the fields a walk of those bytes should report. */
module IdlTree {
  import opened Bytes
  import opened Idl
  import opened IdlWalk
  import opened Wrappers

  datatype Tree =
    | Leaf(kind: Kind, bytes: seq<byte>, shown: string)
    | Words(text: string, utf8: seq<byte>)
    | Absent
    | Present(inner: Tree)
    | Many(items: seq<Tree>)
    | Record(fields: seq<Tree>)
    | Rows(rows: seq<Tree>)
    | Variant(tag: byte, hasPayload: bool, payload: seq<Tree>)

  // ---------------------------------------------------------------------------
  // Bytes

  function Encode(t: Tree): seq<byte>
    decreases t
  {
    match t
    case Leaf(_, bytes, _) => bytes
    case Words(_, utf8) => LE32(TruncateU32(|utf8|)) + utf8
    case Absent => [0]
    case Present(inner) => [1] + Encode(inner)
    case Many(items) => LE32(TruncateU32(|items|)) + EncodeAll(items)
    case Record(fields) => EncodeAll(fields)
    case Rows(rows) => EncodeAll(rows)
    case Variant(tag, _, payload) => [tag] + EncodeAll(payload)
  }

  function EncodeAll(ts: seq<Tree>): seq<byte>
    decreases ts
  {
    if ts == [] then [] else Encode(ts[0]) + EncodeAll(ts[1..])
  }

  // ---------------------------------------------------------------------------
  // What a walk needs

  /** Visits a field of this value makes beyond its own. */
  function Inner(t: Tree): nat
    decreases t
  {
    match t
    case Present(inner) => 1 + Inner(inner)
    case Many(items) => Visits(items)
    case Record(fields) => Visits(fields)
    case Rows(rows) => RowVisits(rows)
    case Variant(_, _, payload) => Visits(payload)
    case _ => 0
  }

  function Visits(ts: seq<Tree>): nat
    decreases ts
  {
    if ts == [] then 0 else 1 + Inner(ts[0]) + Visits(ts[1..])
  }

  function RowVisits(ts: seq<Tree>): nat
    decreases ts
  {
    if ts == [] then 0 else Inner(ts[0]) + RowVisits(ts[1..])
  }

  function Max(a: nat, b: nat): nat { if a > b then a else b }

  /** How many calls deep a field of this value goes. */
  function Depth(t: Tree): nat
    decreases t
  {
    match t
    case Present(inner) => 1 + Depth(inner)
    case Many(items) => if items == [] then 0 else 1 + DepthAll(items)
    case Record(fields) => 1 + DepthAll(fields)
    case Rows(rows) => DepthAll(rows)
    case Variant(_, hasPayload, payload) => if hasPayload then 1 + DepthAll(payload) else 0
    case _ => 0
  }

  function DepthAll(ts: seq<Tree>): nat
    decreases ts
  {
    if ts == [] then 0 else Max(Depth(ts[0]), DepthAll(ts[1..]))
  }

  // ---------------------------------------------------------------------------
  // Typing

  /** The value is of the type, in the part of the type language both sides share;
      and what each leaf's bytes read as is what the value shows. */
  predicate Fits(g: Texts, model: Model, ty: IdlType, t: Tree)
    decreases t
  {
    match t
    case Leaf(kind, bytes, shown) =>
      && ResolveFixed(ty) == Some(kind) && (ty.Array? ==> !ty.inner.Defined?)
      && |bytes| == Size(kind) && ReadValue(g, bytes, kind) == shown
    case Words(text, utf8) => ty.Str? && |utf8| < U32_LIMIT && g.decodeLossy(utf8) == text
    case Absent => ty.Optional?
    case Present(inner) => ty.Optional? && Fits(g, model, ty.inner, inner)
    case Many(items) => ty.Vec? && |items| <= MAX_ELEMS && AllFit(g, model, ty.inner, items)
    case Record(fields) =>
      && ty.Defined? && StructFields(model, ty.name).Some?
      && FieldsFit(g, model, StructFields(model, ty.name).value, fields)
    case Rows(rows) =>
      && ty.Array? && ty.inner.Defined? && StructFields(model, ty.inner.name).Some?
      && |rows| == ty.len && ty.len <= MAX_ARRAY_ELEMS
      && RowsFit(g, model, ty.inner, rows)
    case Variant(tag, hasPayload, payload) =>
      && ty.Defined? && StructFields(model, ty.name).None? && EnumVariants(model, ty.name).Some?
      && var variants := EnumVariants(model, ty.name).value;
         && tag < |variants| && hasPayload == variants[tag].fields.Some?
         && (if hasPayload then FieldsFit(g, model, PayloadFields(variants[tag].fields.value), payload)
             else payload == [])
  }

  predicate AllFit(g: Texts, model: Model, ty: IdlType, ts: seq<Tree>)
    decreases ts
  {
    ts != [] ==> Fits(g, model, ty, ts[0]) && AllFit(g, model, ty, ts[1..])
  }

  predicate RowsFit(g: Texts, model: Model, ty: IdlType, ts: seq<Tree>)
    decreases ts
  {
    ts != [] ==> ts[0].Record? && Fits(g, model, ty, ts[0]) && RowsFit(g, model, ty, ts[1..])
  }

  predicate FieldsFit(g: Texts, model: Model, defs: seq<FieldDef>, ts: seq<Tree>)
    decreases ts
  {
    && |defs| == |ts|
    && (ts != [] ==>
          && defs[0].name.Some? && defs[0].ty.Some?
          && Fits(g, model, defs[0].ty.value, ts[0])
          && FieldsFit(g, model, defs[1..], ts[1..]))
  }

  // ---------------------------------------------------------------------------
  // Fields

  /** What a walk should report for a value under `name` at `at`. */
  function Shown(model: Model, ty: IdlType, t: Tree, name: string, at: nat): seq<Field>
    decreases t
  {
    match t
    case Leaf(kind, bytes, shown) => [Field(name, at, Label(kind), |bytes|, shown, !kind.KindBytes?, None)]
    case Words(text, utf8) => [Field(name, at, "string", 4 + |utf8|, text, false, None)]
    case Absent => [Field(name, at, "option", 1, "none", false, None)]
    case Present(inner) => if ty.Optional? then Shown(model, ty.inner, inner, name, at + 1) else []
    case Many(items) =>
      if ty.Vec? then
        [Field(name + ".len", at, "u32", 4, Decimal(|items|), false, None)]
        + ShownItems(model, ty.inner, items, name, 0, at + 4)
      else []
    case Record(fields) =>
      if ty.Defined? && StructFields(model, ty.name).Some? then
        ShownFields(model, StructFields(model, ty.name).value, fields, name + ".", at)
      else []
    case Rows(rows) =>
      if ty.Array? && ty.inner.Defined? then ShownRows(model, ty.inner, rows, name, 0, at) else []
    case Variant(tag, hasPayload, payload) =>
      if ty.Defined? && EnumVariants(model, ty.name).Some? then
        var variants := EnumVariants(model, ty.name).value;
        [TagField(ty.name, variants, tag, name, at)]
        + (if tag < |variants| && variants[tag].fields.Some? then
             ShownFields(model, PayloadFields(variants[tag].fields.value), payload, name + ".", at + 1)
           else [])
      else []
  }

  function ShownFields(model: Model, defs: seq<FieldDef>, ts: seq<Tree>, prefix: string, at: nat): seq<Field>
    decreases ts
  {
    if ts == [] || defs == [] || defs[0].name.None? || defs[0].ty.None? then []
    else
      Shown(model, defs[0].ty.value, ts[0], prefix + defs[0].name.value, at)
      + ShownFields(model, defs[1..], ts[1..], prefix, at + |Encode(ts[0])|)
  }

  function ShownItems(model: Model, ty: IdlType, ts: seq<Tree>, name: string, i: nat, at: nat): seq<Field>
    decreases ts
  {
    if ts == [] then []
    else
      Shown(model, ty, ts[0], ItemName(name, i), at)
      + ShownItems(model, ty, ts[1..], name, i + 1, at + |Encode(ts[0])|)
  }

  function ShownRows(model: Model, ty: IdlType, ts: seq<Tree>, name: string, i: nat, at: nat): seq<Field>
    decreases ts
  {
    if ts == [] then []
    else
      Shown(model, ty, ts[0], ItemName(name, i), at)
      + ShownRows(model, ty, ts[1..], name, i + 1, at + |Encode(ts[0])|)
  }
}
