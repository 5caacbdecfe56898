/** The encoder as the original runs it: one output buffer, appended to in place
    (src/idl_encode.rs). */
module IdlEncoder {
  import opened Bytes
  import opened Idl
  import opened IdlEncode
  import opened Wrappers

  /** The buffer grew by just these bytes, or the value was refused; what was there
      before stands either way. */
  predicate Appended(was: seq<byte>, now: seq<byte>, ok: bool, r: Option<seq<byte>>) {
    was <= now && ok == r.Some? && (ok ==> now == was + r.value)
  }

  /** A type with no type inside. */
  predicate IsScalar(ty: IdlType) { !ty.Vec? && !ty.Optional? && !ty.Array? && !ty.Defined? }

  /** A length, and then the bytes. */
  function Sized(bytes: Option<seq<byte>>): Option<seq<byte>> {
    if bytes.None? || WriteLen(|bytes.value|).None? then None
    else Some(WriteLen(|bytes.value|).value + bytes.value)
  }

  /** Bytes already written, before the rest. */
  function Then(written: seq<byte>, rest: Option<seq<byte>>): Option<seq<byte>> {
    if rest.None? then None else Some(written + rest.value)
  }

  lemma ThenMore(written: seq<byte>, head: seq<byte>, tail: Option<seq<byte>>, rest: Option<seq<byte>>)
    requires rest == if tail.None? then None else Some(head + tail.value)
    ensures Then(written, rest) == Then(written + head, tail)
  {
    if tail.Some? {
      assert written + (head + tail.value) == written + head + tail.value;
    }
  }

  lemma ThenFirst(rest: Option<seq<byte>>)
    ensures Then([], rest) == rest
  {
    if rest.Some? {
      assert [] + rest.value == rest.value;
    }
  }

  lemma Regroup(was: seq<byte>, written: seq<byte>, head: seq<byte>)
    ensures was + (written + head) == was + written + head
  {
  }

  class Encoder {
    const g: Texts
    const o: Opaque
    const model: Model
    var output: seq<byte>

    constructor (g: Texts, o: Opaque, model: Model)
      ensures this.g == g && this.o == o && this.model == model && output == []
    {
      this.g, this.o, this.model, output := g, o, model, [];
    }

    method WriteLength(n: nat) returns (ok: bool)
      modifies this
      ensures Appended(old(output), output, ok, WriteLen(n))
    {
      var len := WriteLen(n);
      ok := len.Some?;
      if ok {
        output := output + len.value;
      }
    }

    method Put(bytes: Option<seq<byte>>) returns (ok: bool)
      modifies this
      ensures Appended(old(output), output, ok, bytes)
    {
      ok := bytes.Some?;
      if ok {
        output := output + bytes.value;
      }
    }

    /** A length and then the bytes themselves. */
    method PutSized(bytes: Option<seq<byte>>) returns (ok: bool)
      modifies this
      ensures Appended(old(output), output, ok, Sized(bytes))
    {
      hide WriteLen;
      ok := bytes.Some?;
      if ok {
        ok := WriteLength(|bytes.value|);
        if ok {
          output := output + bytes.value;
        }
      }
    }

    /** A list as its length and its items. */
    method Vector(inner: IdlType, v: Json) returns (ok: bool)
      requires Faithful(g)
      modifies this
      ensures Appended(old(output), output, ok, EncodeValue(g, o, model, Vec(inner), v))
      decreases v, 1
    {
      hide EncodeItems, WriteLen, Faithful;
      ok := v.List?;
      if ok {
        ok := WriteLength(|v.items|);
        if ok {
          ok := Items(inner, v);
        }
      }
    }

    /** One value of a type, appended as Borsh has it. */
    method Value(ty: IdlType, v: Json) returns (ok: bool)
      requires Faithful(g)
      modifies this
      ensures Appended(old(output), output, ok, EncodeValue(g, o, model, ty, v))
      decreases v, 3 + Nesting(ty), 0
    {
      if ty.Vec? {
        ok := Vector(ty.inner, v);
      } else if ty.Optional? {
        ok := OptionOf(ty.inner, v);
      } else if ty.Array? {
        hide EncodeItems, Faithful;
        ok := v.List? && |v.items| == ty.len;
        if ok {
          ok := Items(ty.inner, v);
        }
      } else if ty.Defined? {
        hide EncodeDefined, Faithful;
        ok := DefinedType(ty.name, v);
      } else {
        ok := Scalar(ty, v);
      }
    }

    method OptionOf(inner: IdlType, v: Json) returns (ok: bool)
      requires Faithful(g)
      modifies this
      ensures Appended(old(output), output, ok, EncodeValue(g, o, model, Optional(inner), v))
      decreases v, 3 + Nesting(inner), 1
    {
      if v.Null? {
        output, ok := output + [0], true;
      } else {
        output := output + [1];
        ok := Value(inner, v);
      }
    }

    /** A value of a type with no type inside. */
    method Scalar(ty: IdlType, v: Json) returns (ok: bool)
      requires Faithful(g) && IsScalar(ty)
      modifies this
      ensures Appended(old(output), output, ok, EncodeValue(g, o, model, ty, v))
    {
      hide EncodeValue, Sized, Appended, Faithful;
      var bytes := ScalarBytes(ty, v);
      if ty.Str? || ty.Blob? {
        ok := PutSized(bytes);
      } else {
        ok := Put(bytes);
      }
    }

    method ScalarBytes(ty: IdlType, v: Json) returns (bytes: Option<seq<byte>>)
      requires Faithful(g) && IsScalar(ty)
      ensures EncodeValue(g, o, model, ty, v) == if ty.Str? || ty.Blob? then Sized(bytes) else bytes
    {
      hide IntBytesU, IntBytesI, ParseU128, ParseI128, WriteLen, Faithful, EncodeItems, EncodeDefined, Nesting;
      bytes := None;
      match ty {
        case Bool => bytes := if v.Truth? then Some([if v.b then 1 else 0]) else None;
        case U(width) =>
          var n := ParseU128(g, v);
          bytes := if n.Some? then IntBytesU(n.value, width) else None;
        case I(width) =>
          var n := ParseI128(g, v);
          bytes := if n.Some? then IntBytesI(n.value, width) else None;
        case F32 => bytes := o.f32(v);
        case F64 => bytes := o.f64(v);
        case Pubkey => bytes := if v.Text? then g.parseKey(v.s) else None;
        case Str => bytes := if v.Text? then Some(g.encode(v.s)) else None;
        case Blob => bytes := o.blob(v);
        case _ =>
      }
    }

    method Items(ty: IdlType, v: Json) returns (ok: bool)
      requires Faithful(g) && v.List?
      modifies this
      ensures Appended(old(output), output, ok, EncodeItems(g, o, model, ty, v, 0))
      decreases v, 0
    {
      hide EncodeValue, Faithful;
      ghost var was, written := output, [];
      ThenFirst(EncodeItems(g, o, model, ty, v, 0));
      ok := true;
      var i := 0;
      while i < |v.items| && ok
        invariant i <= |v.items| && was <= output
        invariant ok ==> output == was + written
        invariant ok ==> EncodeItems(g, o, model, ty, v, 0) == Then(written, EncodeItems(g, o, model, ty, v, i))
        invariant !ok ==> EncodeItems(g, o, model, ty, v, 0) == None
        decreases |v.items| - i, ok
      {
        ghost var head := EncodeValue(g, o, model, ty, v.items[i]);
        ok := Value(ty, v.items[i]);
        if ok {
          Regroup(was, written, head.value);
          ThenMore(written, head.value, EncodeItems(g, o, model, ty, v, i + 1), EncodeItems(g, o, model, ty, v, i));
          written := written + head.value;
          i := i + 1;
        }
      }
    }

    method DefinedType(name: string, v: Json) returns (ok: bool)
      requires Faithful(g)
      modifies this
      ensures Appended(old(output), output, ok, EncodeDefined(g, o, model, name, v))
      decreases v, 2
    {
      hide EncodeFields, EncodeEnum, FindType, Faithful;
      var definition := FindType(model.types, name);
      if definition.None? {
        ok := false;
      } else {
        match definition.value.body
        case Struct(fields) =>
          if v.Obj? {
            ok := Fields(if fields.Some? then fields.value else [], v);
          } else {
            ok := false;
          }
        case Enum(variants) => ok := Variant(variants, v);
        case _ => ok := false;
      }
    }

    /** Every declared field in turn: a struct's, a named variant's, or an
        instruction's arguments. */
    method Fields(fields: seq<FieldDef>, v: Json) returns (ok: bool)
      requires Faithful(g) && v.Obj?
      modifies this
      ensures Appended(old(output), output, ok, EncodeFields(g, o, model, fields, v))
      decreases v, 0
    {
      hide EncodeValue, Faithful, Get;
      ghost var was, written := output, [];
      ThenFirst(EncodeFields(g, o, model, fields, v));
      ok := true;
      var i := 0;
      assert fields[0..] == fields;
      while i < |fields| && ok
        invariant i <= |fields| && was <= output
        invariant ok ==> output == was + written
        invariant ok ==>
                    EncodeFields(g, o, model, fields, v)
                    == Then(written, EncodeFields(g, o, model, fields[i..], v))
        invariant !ok ==> EncodeFields(g, o, model, fields, v) == None
        decreases |fields| - i, ok
      {
        var f := fields[i];
        assert fields[i..][1..] == fields[i + 1..];
        if f.name.None? || f.ty.None? || Get(v.members, f.name.value).None? {
          ok := false;
        } else {
          var value := Get(v.members, f.name.value).value;
          ghost var head := EncodeValue(g, o, model, f.ty.value, value);
          ok := Value(f.ty.value, value);
          if ok {
            Regroup(was, written, head.value);
            ThenMore(written, head.value,
                     EncodeFields(g, o, model, fields[i + 1..], v), EncodeFields(g, o, model, fields[i..], v));
            written := written + head.value;
            i := i + 1;
          }
        }
      }
    }

    method Variant(variants: Option<seq<VariantDef>>, v: Json) returns (ok: bool)
      requires Faithful(g)
      modifies this
      ensures Appended(old(output), output, ok, EncodeEnum(g, o, model, variants, v))
      decreases v, 1
    {
      hide EncodePayload, Faithful, FindVariant;
      var name := VariantName(v);
      ok := false;
      if name.Some? && variants.Some? {
        var index := FindVariant(variants.value, name.value);
        if index.Some? && index.value < 256 {
          output := output + [index.value];
          var fields := variants.value[index.value].fields;
          if fields.None? || fields.value == [] {
            ok := true;
          } else if v.Obj? {
            ok := Payload(fields.value, v.members[0].value);
          }
        }
      }
    }

    method Payload(fields: seq<VariantField>, payload: Json) returns (ok: bool)
      requires Faithful(g)
      modifies this
      ensures Appended(old(output), output, ok, EncodePayload(g, o, model, fields, payload))
      decreases payload, 2
    {
      hide EncodeFields, EncodeTuple, Faithful;
      if AllNamed(fields) {
        if payload.Obj? {
          ok := Fields(NamedFields(fields), payload);
        } else {
          ok := false;
        }
      } else if payload.List? && |payload.items| == |fields| {
        ok := Tuple(fields, payload);
      } else {
        ok := false;
      }
    }

    method Tuple(fields: seq<VariantField>, payload: Json) returns (ok: bool)
      requires Faithful(g) && payload.List? && |payload.items| == |fields|
      modifies this
      ensures Appended(old(output), output, ok, EncodeTuple(g, o, model, fields, payload, 0))
      decreases payload, 0
    {
      hide EncodeValue, Faithful;
      ghost var was, written := output, [];
      ThenFirst(EncodeTuple(g, o, model, fields, payload, 0));
      ok := true;
      var i := 0;
      while i < |fields| && ok
        invariant i <= |fields| && was <= output
        invariant ok ==> output == was + written
        invariant ok ==>
                    EncodeTuple(g, o, model, fields, payload, 0)
                    == Then(written, EncodeTuple(g, o, model, fields, payload, i))
        invariant !ok ==> EncodeTuple(g, o, model, fields, payload, 0) == None
        decreases |fields| - i, ok
      {
        var ty := TupleType(fields[i]);
        ghost var head := EncodeValue(g, o, model, ty, payload.items[i]);
        ok := Value(ty, payload.items[i]);
        if ok {
          Regroup(was, written, head.value);
          ThenMore(written, head.value, EncodeTuple(g, o, model, fields, payload, i + 1),
                   EncodeTuple(g, o, model, fields, payload, i));
          written := written + head.value;
          i := i + 1;
        }
      }
    }
  }
}
