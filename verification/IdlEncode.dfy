/** Borsh encoding of JSON argument values by their IDL types (src/idl_encode.rs). */
module IdlEncode {
  import opened Bytes
  import opened Idl
  import opened Wrappers

  // ---------------------------------------------------------------------------
  // Integers

  /** Little-endian bytes of an unsigned integer that fits `width` bytes. */
  function IntBytesU(value: nat, width: Width): (r: Option<seq<byte>>)
    requires value < Pow256(16)
    ensures r.Some? <==> value < Pow256(width)
    ensures r.Some? ==> |r.value| == width
  {
    if width < 16 && value >= Pow256(width) then None
    else Some(LittleEndian(value, width))
  }

  /** Two's complement in `w` bytes. */
  function TwosComplement(value: int, w: nat): nat
    requires -(Pow256(w) as int) <= value < Pow256(w)
  {
    if value < 0 then value + Pow256(w) else value
  }

  /** Little-endian two's-complement bytes of a signed integer that fits. */
  function IntBytesI(value: int, width: Width): (r: Option<seq<byte>>)
    requires -(Pow256(16) as int) <= 2 * value < Pow256(16)
    ensures r.Some? <==> -(Pow256(width) as int) <= 2 * value < Pow256(width)
    ensures r.Some? ==> |r.value| == width
  {
    if width < 16 && !(-(Pow256(width) as int) <= 2 * value < Pow256(width)) then None
    else Some(LittleEndian(TwosComplement(value, width), width))
  }

  function ParseU128(g: Texts, v: Json): (r: Option<nat>)
    requires Faithful(g)
    ensures r.Some? ==> r.value < Pow256(16)
  {
    match v
    case Num(n) => if 0 <= n < U64_LIMIT then Fits64(); Some(n) else None
    case Text(s) => g.parseU128(s)
    case _ => None
  }

  function ParseI128(g: Texts, v: Json): (r: Option<int>)
    requires Faithful(g)
    ensures r.Some? ==> -(Pow256(16) as int) <= 2 * r.value < Pow256(16)
  {
    match v
    case Num(n) => if -0x8000_0000_0000_0000 <= n < U64_LIMIT then Fits64(); Some(n) else None
    case Text(s) => g.parseI128(s)
    case _ => None
  }

  lemma Fits64()
    ensures Pow256(16) >= 2 * U64_LIMIT
  {
    Pow256Values();
    assert Pow256(9) == 256 * Pow256(8);
    Pow256Grows(9, 16);
  }

  lemma {:induction false} Pow256Grows(a: nat, b: nat)
    requires a <= b
    ensures Pow256(a) <= Pow256(b)
  {
    if a < b {
      Pow256Grows(a, b - 1);
    }
  }

  // ---------------------------------------------------------------------------
  // Values

  /** A Borsh length, refused past 32 bits. */
  function WriteLen(n: nat): Option<seq<byte>> {
    if n < U32_LIMIT then Some(LE32(n)) else None
  }

  /** The type of a tuple variant's field: its `type`, or the value itself. */
  function TupleType(f: VariantField): IdlType {
    if f.ty.Some? then f.ty.value else f.whole
  }

  /** Blobs and floats, whose JSON readings are not part of this model. */
  datatype Opaque = Opaque(blob: Json -> Option<seq<byte>>, f32: Json -> Option<seq<byte>>,
                           f64: Json -> Option<seq<byte>>)

  function Nesting(ty: IdlType): nat {
    match ty
    case Vec(inner) => 1 + Nesting(inner)
    case Optional(inner) => 1 + Nesting(inner)
    case Array(inner, _) => 1 + Nesting(inner)
    case _ => 0
  }

  function EncodeValue(g: Texts, o: Opaque, model: Model, ty: IdlType, v: Json): Option<seq<byte>>
    requires Faithful(g)
    decreases v, 3 + Nesting(ty)
  {
    match ty
    case Bool => if v.Truth? then Some([if v.b then 1 else 0]) else None
    case U(width) =>
      var n :- ParseU128(g, v);
      IntBytesU(n, width)
    case I(width) =>
      var n :- ParseI128(g, v);
      IntBytesI(n, width)
    case F32 => o.f32(v)
    case F64 => o.f64(v)
    case Pubkey => if v.Text? then g.parseKey(v.s) else None
    case Str =>
      if !v.Text? then None
      else
        var bytes := g.encode(v.s);
        var len :- WriteLen(|bytes|);
        Some(len + bytes)
    case Blob =>
      var bytes :- o.blob(v);
      var len :- WriteLen(|bytes|);
      Some(len + bytes)
    case Vec(inner) =>
      if !v.List? then None
      else
        var len :- WriteLen(|v.items|);
        var body :- EncodeItems(g, o, model, inner, v, 0);
        Some(len + body)
    case Optional(inner) =>
      if v.Null? then Some([0])
      else
        var body :- EncodeValue(g, o, model, inner, v);
        Some([1] + body)
    case Array(inner, len) =>
      if !v.List? || |v.items| != len then None else EncodeItems(g, o, model, inner, v, 0)
    case ArrayMalformed => None
    case Defined(name) => EncodeDefined(g, o, model, name, v)
    case Unknown => None
  }

  /** The list's items from number `i` on. */
  function EncodeItems(g: Texts, o: Opaque, model: Model, ty: IdlType, v: Json, i: nat): Option<seq<byte>>
    requires Faithful(g) && v.List? && i <= |v.items|
    decreases v, 0, |v.items| - i
  {
    if i == |v.items| then Some([])
    else
      var head :- EncodeValue(g, o, model, ty, v.items[i]);
      var tail :- EncodeItems(g, o, model, ty, v, i + 1);
      Some(head + tail)
  }

  function EncodeDefined(g: Texts, o: Opaque, model: Model, name: string, v: Json): Option<seq<byte>>
    requires Faithful(g)
    decreases v, 2
  {
    var definition :- FindType(model.types, name);
    match definition.body
    case Struct(fields) =>
      if !v.Obj? then None
      else EncodeFields(g, o, model, if fields.Some? then fields.value else [], v)
    case Enum(variants) => EncodeEnum(g, o, model, variants, v)
    case _ => None
  }

  /** Every declared field, in declaration order, looked up by name. */
  function EncodeFields(g: Texts, o: Opaque, model: Model, fields: seq<FieldDef>, v: Json): Option<seq<byte>>
    requires Faithful(g) && v.Obj?
    decreases v, 0, |fields|
  {
    if fields == [] then Some([])
    else
      var f := fields[0];
      var name :- f.name;
      var ty :- f.ty;
      var value :- Get(v.members, name);
      var head :- EncodeValue(g, o, model, ty, value);
      var tail :- EncodeFields(g, o, model, fields[1..], v);
      Some(head + tail)
  }

  /** The number of the first variant of that name. */
  function FindVariant(variants: seq<VariantDef>, name: string): (r: Option<nat>)
    ensures r.Some? ==> r.value < |variants| && variants[r.value].name == Some(name)
    ensures r.Some? ==> forall i :: 0 <= i < r.value ==> variants[i].name != Some(name)
    ensures r.None? ==> forall i :: 0 <= i < |variants| ==> variants[i].name != Some(name)
  {
    if variants == [] then None
    else if variants[0].name == Some(name) then Some(0)
    else
      var rest :- FindVariant(variants[1..], name);
      Some(rest + 1)
  }

  function VariantName(v: Json): Option<string> {
    match v
    case Text(s) => Some(s)
    case Obj(members) => if |members| == 1 then Some(members[0].key) else None
    case _ => None
  }

  function EncodeEnum(g: Texts, o: Opaque, model: Model, variants: Option<seq<VariantDef>>, v: Json): Option<seq<byte>>
    requires Faithful(g)
    decreases v, 1
  {
    var name :- VariantName(v);
    var vs :- variants;
    var index :- FindVariant(vs, name);
    if index >= 256 then None
    else
      var fields := vs[index].fields;
      if fields.None? || fields.value == [] then Some([index])
      else if !v.Obj? then None
      else
        var body :- EncodePayload(g, o, model, fields.value, v.members[0].value);
        Some([index] + body)
  }

  predicate AllNamed(fields: seq<VariantField>) {
    forall i :: 0 <= i < |fields| ==> fields[i].nameKey
  }

  function NamedField(f: VariantField): FieldDef { FieldDef(f.name, f.ty) }

  function NamedFields(fields: seq<VariantField>): (r: seq<FieldDef>)
    ensures |r| == |fields|
    ensures forall i :: 0 <= i < |fields| ==> r[i] == NamedField(fields[i])
  {
    seq(|fields|, i requires 0 <= i < |fields| => NamedField(fields[i]))
  }

  /** A variant's payload: an object when every field is named, else a tuple. */
  function EncodePayload(g: Texts, o: Opaque, model: Model, fields: seq<VariantField>, payload: Json): Option<seq<byte>>
    requires Faithful(g)
    decreases payload, 2
  {
    if AllNamed(fields) then
      if payload.Obj? then EncodeFields(g, o, model, NamedFields(fields), payload) else None
    else if payload.List? && |payload.items| == |fields| then
      EncodeTuple(g, o, model, fields, payload, 0)
    else None
  }

  function EncodeTuple(g: Texts, o: Opaque, model: Model, fields: seq<VariantField>, payload: Json, i: nat)
    : Option<seq<byte>>
    requires Faithful(g) && payload.List? && i <= |payload.items| == |fields|
    decreases payload, 0, |fields| - i
  {
    if i == |fields| then Some([])
    else
      var head :- EncodeValue(g, o, model, TupleType(fields[i]), payload.items[i]);
      var tail :- EncodeTuple(g, o, model, fields, payload, i + 1);
      Some(head + tail)
  }
}
