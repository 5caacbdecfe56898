/** Turning raw account bytes into named fields by walking an IDL type
    (src/idl.rs). */
module IdlWalk {
  import opened Bytes
  import opened Idl
  import opened Wrappers

  /** Deepest struct, enum and array nesting walked. */
  const MAX_WALK_DEPTH := 32
  /** Most elements of a fixed array of structs. */
  const MAX_ARRAY_ELEMS := 1024
  /** Most elements of a vec. */
  const MAX_ELEMS := 32
  /** Field visits one decode may make. */
  const MAX_WALK_VISITS := 20_000

  /** A fixed-size type. */
  datatype Kind = KindU(width: Width) | KindI(width: Width) | KindBool | KindKey | KindBytes(n: nat)

  function Size(k: Kind): nat {
    match k
    case KindU(w) => w
    case KindI(w) => w
    case KindBool => 1
    case KindKey => 32
    case KindBytes(n) => n
  }

  function Label(k: Kind): string {
    match k
    case KindU(w) => "u" + Decimal(w * 8)
    case KindI(w) => "i" + Decimal(w * 8)
    case KindBool => "bool"
    case KindKey => "pubkey"
    case KindBytes(n) => "[u8; " + Decimal(n) + "]"
  }

  function ResolveFixed(ty: IdlType): Option<Kind> {
    match ty
    case Bool => Some(KindBool)
    case U(w) => Some(KindU(w))
    case I(w) => Some(KindI(w))
    case Pubkey => Some(KindKey)
    case Array(inner, len) =>
      var k :- ResolveFixed(inner);
      if Size(k) * len < U64_LIMIT then Some(KindBytes(Size(k) * len)) else None
    case _ => None
  }

  /** The bytes above a signed value's own: copies of its sign. */
  function SignFill(bytes: seq<byte>): (fill: seq<byte>)
    requires 1 <= |bytes| <= 16
    ensures |fill| == 16 - |bytes|
  {
    seq(16 - |bytes|, _ => if bytes[|bytes| - 1] >= 128 then 255 else 0)
  }

  /** Sixteen bytes read as two's complement. */
  function ReadSigned(b: seq<byte>): int
    requires |b| == 16
  {
    var n := FromLittleEndian(b);
    if 2 * n >= Pow256(16) then n - Pow256(16) else n
  }

  function ReadValue(g: Texts, bytes: seq<byte>, k: Kind): string
    requires |bytes| == Size(k)
  {
    match k
    case KindU(_) => ShowInt(FromLittleEndian(bytes))
    case KindI(_) => ShowInt(ReadSigned(bytes + SignFill(bytes)))
    case KindBool => if bytes[0] != 0 then "true" else "false"
    case KindKey => g.showKey(bytes)
    case KindBytes(_) => Hex(bytes)
  }

  function ReadU32At(data: seq<byte>, offset: nat): (r: Option<u32>)
    ensures r.Some? <==> offset + 4 <= |data|
  {
    if offset + 4 <= |data| then Some(ReadU32(data[offset..offset + 4])) else None
  }

  datatype Field = Field(name: string, offset: nat, ty: string, size: nat, value: string,
                         editable: bool, note: Option<string>)

  /** The walk's moving parts: the cursor, the fields so far, the visits left. */
  datatype Cursor = Cursor(offset: nat, out: seq<Field>, budget: nat)

  function Emit(c: Cursor, f: Field, offset: nat): Cursor {
    c.(out := c.out + [f], offset := offset)
  }

  // ---------------------------------------------------------------------------
  // The walk as a function of the cursor

  function Fuel(depth: nat): nat { if depth > MAX_WALK_DEPTH then 0 else MAX_WALK_DEPTH + 1 - depth }

  /** One call: too deep, or every field in turn. */
  function Walk(g: Texts, model: Model, data: seq<byte>, fields: seq<FieldDef>, prefix: string, depth: nat, c: Cursor)
    : (bool, Cursor)
    decreases Fuel(depth), 3
  {
    if depth > MAX_WALK_DEPTH then (false, c) else WalkList(g, model, data, fields, prefix, depth, c)
  }

  function WalkList(g: Texts, model: Model, data: seq<byte>, fields: seq<FieldDef>, prefix: string, depth: nat,
                    c: Cursor)
    : (bool, Cursor)
    requires depth <= MAX_WALK_DEPTH
    decreases Fuel(depth), 2, |fields|
  {
    if fields == [] then (true, c)
    else if c.budget == 0 then (false, c)
    else
      var (ok, next) := WalkOne(g, model, data, fields[0], prefix, depth, c.(budget := c.budget - 1));
      if ok then WalkList(g, model, data, fields[1..], prefix, depth, next) else (false, next)
  }

  function WalkOne(g: Texts, model: Model, data: seq<byte>, f: FieldDef, prefix: string, depth: nat, c: Cursor)
    : (bool, Cursor)
    requires depth <= MAX_WALK_DEPTH
    decreases Fuel(depth), 1
  {
    if f.name.None? || f.ty.None? then (false, c)
    else
      var name := prefix + f.name.value;
      match f.ty.value
      case Defined(tname) =>
        if StructFields(model, tname).Some? then
          Walk(g, model, data, StructFields(model, tname).value, name + ".", depth + 1, c)
        else if EnumVariants(model, tname).Some? then
          WalkEnum(g, model, data, tname, EnumVariants(model, tname).value, name, depth, c)
        else (false, c)
      case Array(inner, len) =>
        if !inner.Defined? then WalkFixed(g, data, f.ty.value, name, c)
        else if StructFields(model, inner.name).None? || len > MAX_ARRAY_ELEMS then (false, c)
        else WalkRows(g, model, data, StructFields(model, inner.name).value, name, 0, len, depth, c)
      case Str => WalkText(g, data, name, c)
      case Optional(inner) =>
        if c.offset >= |data| then (false, c)
        else
          var past := c.(offset := c.offset + 1);
          if data[c.offset] == 0 then
            (true, Emit(past, Field(name, c.offset, "option", 1, "none", false, None), c.offset + 1))
          else Walk(g, model, data, [FieldDef(Some(name), Some(inner))], "", depth + 1, past)
      case Vec(inner) =>
        var count := ReadU32At(data, c.offset);
        if count.None? then (false, c)
        else
          var past := Emit(c, Field(name + ".len", c.offset, "u32", 4, Decimal(count.value), false, None),
                c.offset + 4);
          if count.value > MAX_ELEMS then (false, past)
          else WalkItems(g, model, data, inner, name, 0, count.value, depth, past)
      case _ => WalkFixed(g, data, f.ty.value, name, c)
  }

  function ItemName(name: string, i: nat): string { name + "[" + Decimal(i) + "]" }

  /** The rows `[i, n)` of a fixed array of structs. */
  function WalkRows(g: Texts, model: Model, data: seq<byte>, fields: seq<FieldDef>, name: string, i: nat, n: nat,
                    depth: nat, c: Cursor): (bool, Cursor)
    requires depth <= MAX_WALK_DEPTH && i <= n
    decreases Fuel(depth), 0, n - i
  {
    if i == n then (true, c)
    else
      var (ok, next) := Walk(g, model, data, fields, ItemName(name, i) + ".", depth + 1, c);
      if ok then WalkRows(g, model, data, fields, name, i + 1, n, depth, next) else (false, next)
  }

  /** The elements `[i, n)` of a vec. */
  function WalkItems(g: Texts, model: Model, data: seq<byte>, inner: IdlType, name: string, i: nat, n: nat,
                     depth: nat, c: Cursor): (bool, Cursor)
    requires depth <= MAX_WALK_DEPTH && i <= n
    decreases Fuel(depth), 0, n - i
  {
    if i == n then (true, c)
    else
      var (ok, next) := Walk(g, model, data, [FieldDef(Some(ItemName(name, i)), Some(inner))], "", depth + 1, c);
      if ok then WalkItems(g, model, data, inner, name, i + 1, n, depth, next) else (false, next)
  }

  /** A variant's fields as the walk names them: by name, or by position. */
  function PayloadField(f: VariantField, i: nat): FieldDef {
    if f.nameKey then FieldDef(f.name, f.ty) else FieldDef(Some(Decimal(i)), Some(f.whole))
  }

  function PayloadFields(fields: seq<VariantField>): (r: seq<FieldDef>)
    ensures |r| == |fields|
    ensures forall i :: 0 <= i < |fields| ==> r[i] == PayloadField(fields[i], i)
  {
    seq(|fields|, i requires 0 <= i < |fields| => PayloadField(fields[i], i))
  }

  function VariantLabel(variants: seq<VariantDef>, tag: nat): string {
    if tag < |variants| && variants[tag].name.Some? then variants[tag].name.value else "unknown"
  }

  function TagField(tname: string, variants: seq<VariantDef>, tag: nat, name: string, offset: nat): Field {
    Field(name, offset, "enum " + tname, 1, VariantLabel(variants, tag), false, Some("variant " + Decimal(tag)))
  }

  /** A one-byte tag, then that variant's payload if it has one. */
  function WalkEnum(g: Texts, model: Model, data: seq<byte>, tname: string, variants: seq<VariantDef>, name: string,
                    depth: nat, c: Cursor): (bool, Cursor)
    requires depth <= MAX_WALK_DEPTH
    decreases Fuel(depth), 0
  {
    if c.offset >= |data| then (false, c)
    else
      var tag := data[c.offset];
      var past := Emit(c, TagField(tname, variants, tag, name, c.offset), c.offset + 1);
      if tag < |variants| && variants[tag].fields.Some? then
        Walk(g, model, data, PayloadFields(variants[tag].fields.value), name + ".", depth + 1, past)
      else (true, past)
  }

  function StringField(g: Texts, data: seq<byte>, name: string, offset: nat, end: nat): Field
    requires offset + 4 <= end <= |data|
  {
    Field(name, offset, "string", end - offset, g.decodeLossy(data[offset + 4..end]), false, None)
  }

  function WalkText(g: Texts, data: seq<byte>, name: string, c: Cursor): (bool, Cursor) {
    var len := ReadU32At(data, c.offset);
    if len.None? || c.offset + 4 + len.value > |data| then (false, c)
    else
      var end := c.offset + 4 + len.value;
      (true, Emit(c, StringField(g, data, name, c.offset, end), end))
  }

  function FixedField(g: Texts, bytes: seq<byte>, k: Kind, name: string, offset: nat): Field
    requires |bytes| == Size(k)
  {
    Field(name, offset, Label(k), Size(k), ReadValue(g, bytes, k), !k.KindBytes?, None)
  }

  function WalkFixed(g: Texts, data: seq<byte>, ty: IdlType, name: string, c: Cursor): (bool, Cursor) {
    var k := ResolveFixed(ty);
    if k.None? || c.offset + Size(k.value) > |data| then (false, c)
    else
      var end := c.offset + Size(k.value);
      (true, Emit(c, FixedField(g, data[c.offset..end], k.value, name, c.offset), end))
  }

  // ---------------------------------------------------------------------------
  // The walk as the original runs it

  /** The cursor, the fields and the budget, changed in place. */
  class Walker {
    const g: Texts
    const model: Model
    const data: seq<byte>
    var offset: nat
    var out: seq<Field>
    var budget: nat

    constructor (g: Texts, model: Model, data: seq<byte>, offset: nat)
      ensures this.g == g && this.model == model && this.data == data
      ensures Now() == Cursor(offset, [], MAX_WALK_VISITS)
    {
      this.g, this.model, this.data := g, model, data;
      this.offset, this.out, this.budget := offset, [], MAX_WALK_VISITS;
    }

    function Now(): Cursor
      reads this
    {
      Cursor(offset, out, budget)
    }

    method Push(f: Field, next: nat)
      modifies this
      ensures Now() == Emit(old(Now()), f, next)
    {
      out := out + [f];
      offset := next;
    }

    /** Walk the fields in turn; false the moment one cannot be read. */
    method WalkFields(fields: seq<FieldDef>, prefix: string, depth: nat) returns (ok: bool)
      modifies this
      ensures (ok, Now()) == Walk(g, model, data, fields, prefix, depth, old(Now()))
      decreases Fuel(depth), 3
    {
      hide WalkOne;
      if depth > MAX_WALK_DEPTH {
        return false;
      }
      assert fields[0..] == fields;
      for i := 0 to |fields|
        invariant WalkList(g, model, data, fields[i..], prefix, depth, Now())
               == WalkList(g, model, data, fields, prefix, depth, old(Now()))
      {
        assert fields[i..][1..] == fields[i + 1..];
        if budget == 0 {
          return false;
        }
        budget := budget - 1;
        var walked := WalkField(fields[i], prefix, depth);
        if !walked {
          return false;
        }
      }
      return true;
    }

    method WalkField(f: FieldDef, prefix: string, depth: nat) returns (ok: bool)
      requires depth <= MAX_WALK_DEPTH
      modifies this
      ensures (ok, Now()) == WalkOne(g, model, data, f, prefix, depth, old(Now()))
      decreases Fuel(depth), 1
    {
      hide Walk, WalkItems, WalkRows, WalkEnum, WalkFixed, WalkText, ReadU32At;
      if f.name.None? || f.ty.None? {
        return false;
      }
      var name := prefix + f.name.value;
      match f.ty.value
      case Defined(tname) =>
        if StructFields(model, tname).Some? {
          ok := WalkFields(StructFields(model, tname).value, name + ".", depth + 1);
        } else if EnumVariants(model, tname).Some? {
          ok := EnumField(tname, EnumVariants(model, tname).value, name, depth);
        } else {
          ok := false;
        }
      case Array(inner, len) =>
        if !inner.Defined? {
          ok := FixedSize(f.ty.value, name);
        } else if StructFields(model, inner.name).None? || len > MAX_ARRAY_ELEMS {
          ok := false;
        } else {
          ok := Rows(StructFields(model, inner.name).value, name, len, depth);
        }
      case Str =>
        ok := TextField(name);
      case Optional(inner) =>
        if offset >= |data| {
          return false;
        }
        var tag := data[offset];
        offset := offset + 1;
        if tag == 0 {
          Push(Field(name, offset - 1, "option", 1, "none", false, None), offset);
          return true;
        }
        ok := WalkFields([FieldDef(Some(name), Some(inner))], "", depth + 1);
      case Vec(inner) =>
        var count := ReadU32At(data, offset);
        if count.None? {
          return false;
        }
        Push(Field(name + ".len", offset, "u32", 4, Decimal(count.value), false, None), offset + 4);
        if count.value > MAX_ELEMS {
          return false;
        }
        ok := Items(inner, name, count.value, depth);
      case _ =>
        ok := FixedSize(f.ty.value, name);
    }

    method Rows(fields: seq<FieldDef>, name: string, n: nat, depth: nat) returns (ok: bool)
      requires depth <= MAX_WALK_DEPTH
      modifies this
      ensures (ok, Now()) == WalkRows(g, model, data, fields, name, 0, n, depth, old(Now()))
      decreases Fuel(depth), 0
    {
      hide Walk;
      for i := 0 to n
        invariant WalkRows(g, model, data, fields, name, i, n, depth, Now())
               == WalkRows(g, model, data, fields, name, 0, n, depth, old(Now()))
      {
        var walked := WalkFields(fields, ItemName(name, i) + ".", depth + 1);
        if !walked {
          return false;
        }
      }
      return true;
    }

    method Items(inner: IdlType, name: string, n: nat, depth: nat) returns (ok: bool)
      requires depth <= MAX_WALK_DEPTH
      modifies this
      ensures (ok, Now()) == WalkItems(g, model, data, inner, name, 0, n, depth, old(Now()))
      decreases Fuel(depth), 0
    {
      hide Walk;
      for i := 0 to n
        invariant WalkItems(g, model, data, inner, name, i, n, depth, Now())
               == WalkItems(g, model, data, inner, name, 0, n, depth, old(Now()))
      {
        var walked := WalkFields([FieldDef(Some(ItemName(name, i)), Some(inner))], "", depth + 1);
        if !walked {
          return false;
        }
      }
      return true;
    }

    method EnumField(tname: string, variants: seq<VariantDef>, name: string, depth: nat) returns (ok: bool)
      requires depth <= MAX_WALK_DEPTH
      modifies this
      ensures (ok, Now()) == WalkEnum(g, model, data, tname, variants, name, depth, old(Now()))
      decreases Fuel(depth), 0
    {
      hide Walk;
      if offset >= |data| {
        return false;
      }
      var tag := data[offset];
      Push(TagField(tname, variants, tag, name, offset), offset + 1);
      if tag < |variants| && variants[tag].fields.Some? {
        ok := WalkFields(PayloadFields(variants[tag].fields.value), name + ".", depth + 1);
      } else {
        ok := true;
      }
    }

    method TextField(name: string) returns (ok: bool)
      modifies this
      ensures (ok, Now()) == WalkText(g, data, name, old(Now()))
    {
      hide StringField, ReadU32At;
      var len := ReadU32At(data, offset);
      if len.None? {
        return false;
      }
      var start := offset + 4;
      var end := start + len.value;
      if end > |data| {
        return false;
      }
      Push(StringField(g, data, name, offset, end), end);
      return true;
    }

    method FixedSize(ty: IdlType, name: string) returns (ok: bool)
      modifies this
      ensures (ok, Now()) == WalkFixed(g, data, ty, name, old(Now()))
    {
      hide FixedField, ResolveFixed, Size;
      var k := ResolveFixed(ty);
      if k.None? {
        return false;
      }
      var end := offset + Size(k.value);
      if end > |data| {
        return false;
      }
      Push(FixedField(g, data[offset..end], k.value, name, offset), end);
      return true;
    }
  }
}
