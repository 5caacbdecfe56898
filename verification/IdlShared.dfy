/** The part of the type language the encoder and the walk share: which values it
    holds, and the typed trees they stand for (src/idl_encode.rs, src/idl.rs). */
module IdlShared {
  import opened Bytes
  import opened Idl
  import opened IdlEncode
  import opened IdlNumbers
  import opened IdlTree
  import opened IdlWalk
  import opened Wrappers

  // ---------------------------------------------------------------------------
  // Values both sides share

  function BoolTree(b: bool): Tree {
    Leaf(KindBool, [if b then 1 else 0], if b then "true" else "false")
  }

  /** The typed tree of a value, when its type and shape are ones a walk can follow;
      what each leaf shows is taken from the value, not from its bytes. */
  function Elaborate(g: Texts, o: Opaque, model: Model, ty: IdlType, v: Json): Option<Tree>
    requires Faithful(g)
    decreases v, 3 + Nesting(ty)
  {
    match ty
    case Bool => if v.Truth? then Some(BoolTree(v.b)) else None
    case U(w) =>
      var n :- ParseU128(g, v);
      var b :- IntBytesU(n, w);
      Some(Leaf(KindU(w), b, ShowInt(n)))
    case I(w) =>
      var n :- ParseI128(g, v);
      var b :- IntBytesI(n, w);
      Some(Leaf(KindI(w), b, ShowInt(n)))
    case Pubkey =>
      if !v.Text? then None
      else
        var key :- g.parseKey(v.s);
        Some(Leaf(KindKey, key, v.s))
    case Str =>
      if v.Text? && |g.encode(v.s)| < U32_LIMIT then Some(Words(v.s, g.encode(v.s))) else None
    case Vec(inner) =>
      if !v.List? || |v.items| > MAX_ELEMS then None
      else
        var items :- ElaborateItems(g, o, model, inner, v, 0);
        Some(Many(items))
    case Optional(inner) =>
      if v.Null? then Some(Absent)
      else
        var t :- Elaborate(g, o, model, inner, v);
        Some(Present(t))
    case Array(inner, len) =>
      if !v.List? || |v.items| != len then None
      else if inner.Defined? then
        if StructFields(model, inner.name).None? || len > MAX_ARRAY_ELEMS then None
        else
          var rows :- ElaborateItems(g, o, model, inner, v, 0);
          Some(Rows(rows))
      else
        var k :- ResolveFixed(ty);
        var b :- EncodeItems(g, o, model, inner, v, 0);
        Some(Leaf(k, b, Hex(b)))
    case Defined(name) =>
      if StructFields(model, name).Some? then
        if !v.Obj? then None
        else
          var fields :- ElaborateFields(g, o, model, StructFields(model, name).value, v);
          Some(Record(fields))
      else if EnumVariants(model, name).Some? then
        ElaborateEnum(g, o, model, EnumVariants(model, name).value, v)
      else None
    case _ => None
  }

  function ElaborateItems(g: Texts, o: Opaque, model: Model, ty: IdlType, v: Json, i: nat): (r: Option<seq<Tree>>)
    requires Faithful(g) && v.List? && i <= |v.items|
    ensures r.Some? ==> |r.value| == |v.items| - i
    decreases v, 0, |v.items| - i
  {
    if i == |v.items| then Some([])
    else
      var head :- Elaborate(g, o, model, ty, v.items[i]);
      var tail :- ElaborateItems(g, o, model, ty, v, i + 1);
      Some([head] + tail)
  }

  function ElaborateFields(g: Texts, o: Opaque, model: Model, fields: seq<FieldDef>, v: Json): Option<seq<Tree>>
    requires Faithful(g) && v.Obj?
    decreases v, 0, |fields|
  {
    if fields == [] then Some([])
    else
      var name :- fields[0].name;
      var ty :- fields[0].ty;
      var value :- Get(v.members, name);
      var head :- Elaborate(g, o, model, ty, value);
      var tail :- ElaborateFields(g, o, model, fields[1..], v);
      Some([head] + tail)
  }

  /** The encoder and the walk agree on a variant field's type. */
  predicate Coherent(f: VariantField, i: nat) {
    PayloadField(f, i).name.Some? && PayloadField(f, i).ty == Some(TupleType(f))
  }

  predicate AllCoherent(fields: seq<VariantField>) {
    forall i :: 0 <= i < |fields| ==> Coherent(fields[i], i)
  }

  function ElaborateEnum(g: Texts, o: Opaque, model: Model, variants: seq<VariantDef>, v: Json): Option<Tree>
    requires Faithful(g)
    decreases v, 1
  {
    var name :- VariantName(v);
    var index :- FindVariant(variants, name);
    if index >= 256 then None
    else
      var fields := variants[index].fields;
      if fields.None? then Some(Variant(index, false, []))
      else if fields.value == [] then Some(Variant(index, true, []))
      else if !v.Obj? || !AllCoherent(fields.value) then None
      else
        var payload :- ElaboratePayload(g, o, model, fields.value, v.members[0].value);
        Some(Variant(index, true, payload))
  }

  function ElaboratePayload(g: Texts, o: Opaque, model: Model, fields: seq<VariantField>, payload: Json)
    : Option<seq<Tree>>
    requires Faithful(g)
    decreases payload, 2
  {
    if AllNamed(fields) then
      if payload.Obj? then ElaborateFields(g, o, model, NamedFields(fields), payload) else None
    else if payload.List? && |payload.items| == |fields| then
      ElaborateTuple(g, o, model, fields, payload, 0)
    else None
  }

  function ElaborateTuple(g: Texts, o: Opaque, model: Model, fields: seq<VariantField>, payload: Json, i: nat)
    : (r: Option<seq<Tree>>)
    requires Faithful(g) && payload.List? && i <= |payload.items| == |fields|
    ensures r.Some? ==> |r.value| == |fields| - i
    decreases payload, 0, |fields| - i
  {
    if i == |fields| then Some([])
    else
      var head :- Elaborate(g, o, model, TupleType(fields[i]), payload.items[i]);
      var tail :- ElaborateTuple(g, o, model, fields, payload, i + 1);
      Some([head] + tail)
  }

  // ---------------------------------------------------------------------------
  // A shared value's tree is typed, and encodes as the value does

  lemma {:induction false} FixedLength(g: Texts, o: Opaque, model: Model, ty: IdlType, v: Json)
    requires Faithful(g) && ResolveFixed(ty).Some? && EncodeValue(g, o, model, ty, v).Some?
    ensures |EncodeValue(g, o, model, ty, v).value| == Size(ResolveFixed(ty).value)
    decreases v, 3 + Nesting(ty)
  {
    if ty.Array? {
      FixedItemsLength(g, o, model, ty.inner, v, 0);
    }
  }

  lemma {:induction false} FixedItemsLength(g: Texts, o: Opaque, model: Model, ty: IdlType, v: Json, i: nat)
    requires Faithful(g) && ResolveFixed(ty).Some? && v.List? && i <= |v.items|
    requires EncodeItems(g, o, model, ty, v, i).Some?
    ensures |EncodeItems(g, o, model, ty, v, i).value| == Size(ResolveFixed(ty).value) * (|v.items| - i)
    decreases v, 0, |v.items| - i
  {
    hide EncodeValue, ResolveFixed, Size;
    var s, n := Size(ResolveFixed(ty).value), |v.items| - i;
    if i < |v.items| {
      FixedLength(g, o, model, ty, v.items[i]);
      FixedItemsLength(g, o, model, ty, v, i + 1);
      OneMore(s, n);
    } else {
      Vanishes(s);
    }
  }

  lemma OneMore(s: nat, n: nat)
    ensures s + s * (n - 1) == s * n
  {
  }

  /** What it means for a tree to stand for a value. */
  predicate Stands(g: Texts, o: Opaque, model: Model, ty: IdlType, v: Json, t: Tree)
    requires Faithful(g)
  {
    Fits(g, model, ty, t) && EncodeValue(g, o, model, ty, v) == Some(Encode(t))
  }

  lemma UnsignedStands(g: Texts, o: Opaque, model: Model, w: Width, v: Json)
    requires Faithful(g) && Elaborate(g, o, model, U(w), v).Some?
    ensures Stands(g, o, model, U(w), v, Elaborate(g, o, model, U(w), v).value)
  {
    hide ParseU128, LittleEndian, FromLittleEndian, Pow256, ShowInt;
    LittleEndianRoundTrip(ParseU128(g, v).value, w);
  }

  lemma SignedStands(g: Texts, o: Opaque, model: Model, w: Width, v: Json)
    requires Faithful(g) && Elaborate(g, o, model, I(w), v).Some?
    ensures Stands(g, o, model, I(w), v, Elaborate(g, o, model, I(w), v).value)
  {
    hide ParseI128, ReadSigned, SignFill, TwosComplement, LittleEndian, Pow256, ShowInt;
    SignExtends(ParseI128(g, v).value, w);
  }

  lemma {:induction false} ElaborateStands(g: Texts, o: Opaque, model: Model, ty: IdlType, v: Json)
    requires Faithful(g) && Elaborate(g, o, model, ty, v).Some?
    ensures Stands(g, o, model, ty, v, Elaborate(g, o, model, ty, v).value)
    decreases v, 3 + Nesting(ty)
  {
    hide Elaborate, EncodeValue, Fits, Encode, Stands;
    match ty
    case Vec(inner) => VecStands(g, o, model, inner, v);
    case Optional(inner) => OptionalStands(g, o, model, inner, v);
    case Array(inner, len) => ArrayStands(g, o, model, inner, len, v);
    case Defined(name) => DefinedStands(g, o, model, name, v);
    case _ => ScalarStands(g, o, model, ty, v);
  }

  lemma ScalarStands(g: Texts, o: Opaque, model: Model, ty: IdlType, v: Json)
    requires Faithful(g) && Elaborate(g, o, model, ty, v).Some?
    requires !ty.Vec? && !ty.Optional? && !ty.Array? && !ty.Defined?
    ensures Stands(g, o, model, ty, v, Elaborate(g, o, model, ty, v).value)
  {
    match ty
    case U(w) => UnsignedStands(g, o, model, w, v);
    case I(w) => SignedStands(g, o, model, w, v);
    case _ =>
  }

  lemma {:induction false} VecStands(g: Texts, o: Opaque, model: Model, inner: IdlType, v: Json)
    requires Faithful(g) && Elaborate(g, o, model, Vec(inner), v).Some?
    ensures Stands(g, o, model, Vec(inner), v, Elaborate(g, o, model, Vec(inner), v).value)
    decreases v, 1
  {
    ItemsStand(g, o, model, inner, v, 0);
  }

  lemma {:induction false} OptionalStands(g: Texts, o: Opaque, model: Model, inner: IdlType, v: Json)
    requires Faithful(g) && Elaborate(g, o, model, Optional(inner), v).Some?
    ensures Stands(g, o, model, Optional(inner), v, Elaborate(g, o, model, Optional(inner), v).value)
    decreases v, 4 + Nesting(inner), 0
  {
    if !v.Null? {
      ElaborateStands(g, o, model, inner, v);
    }
  }

  lemma {:induction false} ArrayStands(g: Texts, o: Opaque, model: Model, inner: IdlType, len: u64, v: Json)
    requires Faithful(g) && Elaborate(g, o, model, Array(inner, len), v).Some?
    ensures Stands(g, o, model, Array(inner, len), v, Elaborate(g, o, model, Array(inner, len), v).value)
    decreases v, 1
  {
    var ty := Array(inner, len);
    if inner.Defined? {
      ItemsStand(g, o, model, inner, v, 0);
      ItemsAreRows(g, o, model, inner, v, 0);
      RowsFromItems(g, model, inner, Elaborate(g, o, model, ty, v).value.rows);
    } else {
      FixedLength(g, o, model, ty, v);
    }
  }

  lemma {:induction false} DefinedStands(g: Texts, o: Opaque, model: Model, name: string, v: Json)
    requires Faithful(g) && Elaborate(g, o, model, Defined(name), v).Some?
    ensures Stands(g, o, model, Defined(name), v, Elaborate(g, o, model, Defined(name), v).value)
    decreases v, 2
  {
    if StructFields(model, name).Some? {
      FieldsStand(g, o, model, StructFields(model, name).value, v);
    } else {
      EnumStands(g, o, model, name, EnumVariants(model, name).value, v);
    }
  }

  lemma {:induction false} ItemsStand(g: Texts, o: Opaque, model: Model, ty: IdlType, v: Json, i: nat)
    requires Faithful(g) && v.List? && i <= |v.items| && ElaborateItems(g, o, model, ty, v, i).Some?
    ensures AllFit(g, model, ty, ElaborateItems(g, o, model, ty, v, i).value)
    ensures EncodeItems(g, o, model, ty, v, i) == Some(EncodeAll(ElaborateItems(g, o, model, ty, v, i).value))
    decreases v, 0, |v.items| - i
  {
    if i < |v.items| {
      hide Elaborate, EncodeValue, Fits, Encode;
      ElaborateStands(g, o, model, ty, v.items[i]);
      ItemsStand(g, o, model, ty, v, i + 1);
      var head, tail := Elaborate(g, o, model, ty, v.items[i]).value, ElaborateItems(g, o, model, ty, v, i + 1).value;
      assert ([head] + tail)[1..] == tail;
    }
  }

  lemma {:induction false} ItemsAreRows(g: Texts, o: Opaque, model: Model, ty: IdlType, v: Json, i: nat)
    requires Faithful(g) && v.List? && i <= |v.items| && ElaborateItems(g, o, model, ty, v, i).Some?
    requires ty.Defined? && StructFields(model, ty.name).Some?
    ensures forall k :: 0 <= k < |v.items| - i ==> ElaborateItems(g, o, model, ty, v, i).value[k].Record?
    decreases |v.items| - i
  {
    if i < |v.items| {
      ItemsAreRows(g, o, model, ty, v, i + 1);
    }
  }

  lemma {:induction false} RowsFromItems(g: Texts, model: Model, ty: IdlType, ts: seq<Tree>)
    requires AllFit(g, model, ty, ts) && forall k :: 0 <= k < |ts| ==> ts[k].Record?
    ensures RowsFit(g, model, ty, ts)
  {
    if ts != [] {
      hide Fits;
      RowsFromItems(g, model, ty, ts[1..]);
    }
  }

  lemma {:induction false} FieldsStand(g: Texts, o: Opaque, model: Model, fields: seq<FieldDef>, v: Json)
    requires Faithful(g) && v.Obj? && ElaborateFields(g, o, model, fields, v).Some?
    ensures FieldsFit(g, model, fields, ElaborateFields(g, o, model, fields, v).value)
    ensures EncodeFields(g, o, model, fields, v) == Some(EncodeAll(ElaborateFields(g, o, model, fields, v).value))
    decreases v, 0, |fields|
  {
    if fields != [] {
      hide Elaborate, EncodeValue, Fits, Encode, Get;
      var value := Get(v.members, fields[0].name.value).value;
      var ty := fields[0].ty.value;
      ElaborateStands(g, o, model, ty, value);
      FieldsStand(g, o, model, fields[1..], v);
      var head, tail := Elaborate(g, o, model, ty, value).value, ElaborateFields(g, o, model, fields[1..], v).value;
      assert ([head] + tail)[1..] == tail;
    }
  }

  lemma {:induction false} EnumStands(g: Texts, o: Opaque, model: Model, name: string, variants: seq<VariantDef>,
                                      v: Json)
    requires Faithful(g) && EnumVariants(model, name) == Some(variants) && StructFields(model, name).None?
    requires ElaborateEnum(g, o, model, variants, v).Some?
    ensures Fits(g, model, Defined(name), ElaborateEnum(g, o, model, variants, v).value)
    ensures EncodeEnum(g, o, model, Some(variants), v) == Some(Encode(ElaborateEnum(g, o, model, variants, v).value))
    decreases v, 1
  {
    hide ElaboratePayload, EncodePayload, EnumVariants, StructFields, FieldsFit, AllCoherent;
    var t := ElaborateEnum(g, o, model, variants, v).value;
    var fields := variants[t.tag].fields;
    if fields.Some? && fields.value != [] {
      PayloadStands(g, o, model, fields.value, v.members[0].value);
    } else {
      NoPayloadStands(g, model, fields);
      assert [t.tag] + [] == [t.tag];
    }
  }

  lemma NoPayloadStands(g: Texts, model: Model, fields: Option<seq<VariantField>>)
    requires fields.None? || fields.value == []
    ensures EncodeAll([]) == []
    ensures fields.Some? ==> FieldsFit(g, model, PayloadFields(fields.value), [])
  {
  }

  lemma {:induction false} PayloadStands(g: Texts, o: Opaque, model: Model, fields: seq<VariantField>, payload: Json)
    requires Faithful(g) && AllCoherent(fields) && ElaboratePayload(g, o, model, fields, payload).Some?
    ensures var ts := ElaboratePayload(g, o, model, fields, payload).value;
            && FieldsFit(g, model, PayloadFields(fields), ts)
            && EncodePayload(g, o, model, fields, payload) == Some(EncodeAll(ts))
    decreases payload, 2
  {
    if AllNamed(fields) {
      FieldsStand(g, o, model, NamedFields(fields), payload);
      assert PayloadFields(fields) == NamedFields(fields);
    } else {
      TupleStands(g, o, model, fields, payload, 0);
      assert PayloadFields(fields)[0..] == PayloadFields(fields);
    }
  }

  lemma {:induction false} TupleStands(g: Texts, o: Opaque, model: Model, fields: seq<VariantField>, payload: Json,
                                       i: nat)
    requires Faithful(g) && AllCoherent(fields) && payload.List? && i <= |payload.items| == |fields|
    requires ElaborateTuple(g, o, model, fields, payload, i).Some?
    ensures FieldsFit(g, model, PayloadFields(fields)[i..], ElaborateTuple(g, o, model, fields, payload, i).value)
    ensures EncodeTuple(g, o, model, fields, payload, i)
         == Some(EncodeAll(ElaborateTuple(g, o, model, fields, payload, i).value))
    decreases payload, 0, |fields| - i
  {
    if i < |fields| {
      hide Elaborate, EncodeValue, Fits, Encode;
      var ty := TupleType(fields[i]);
      ElaborateStands(g, o, model, ty, payload.items[i]);
      TupleStands(g, o, model, fields, payload, i + 1);
      var head := Elaborate(g, o, model, ty, payload.items[i]).value;
      var tail := ElaborateTuple(g, o, model, fields, payload, i + 1).value;
      var defs := PayloadFields(fields)[i..];
      assert ([head] + tail)[1..] == tail;
      assert Coherent(fields[i], i);
      assert defs[0] == PayloadField(fields[i], i);
      assert defs[1..] == PayloadFields(fields)[i + 1..];
    }
  }
}
