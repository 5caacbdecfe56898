/** The typed model of an Anchor IDL, argument values as JSON, and the text calls
    whose code is not part of this model (src/idl_model.rs). */
module Idl {
  import opened Bytes
  import opened Wrappers

  /** Integer widths in bytes. */
  type Width = w: nat | w == 1 || w == 2 || w == 4 || w == 8 || w == 16 witness 1

  datatype IdlType =
    | Bool
    | U(width: Width)
    | I(width: Width)
    | F32
    | F64
    | Pubkey
    | Str
    | Blob
    | Vec(inner: IdlType)
    | Optional(inner: IdlType)
    | Array(inner: IdlType, len: u64)
    | ArrayMalformed
    | Defined(name: string)
    | Unknown

  datatype FieldDef = FieldDef(name: Option<string>, ty: Option<IdlType>)

  /** A variant's field: `{name, type}`, or a bare type kept in `whole`. */
  datatype VariantField = VariantField(nameKey: bool, name: Option<string>, ty: Option<IdlType>, whole: IdlType)

  datatype VariantDef = VariantDef(name: Option<string>, fields: Option<seq<VariantField>>)

  datatype TypeBody =
    | NoBody
    | Struct(fields: Option<seq<FieldDef>>)
    | Enum(variants: Option<seq<VariantDef>>)
    | Other

  datatype TypeDef = TypeDef(name: Option<string>, body: TypeBody)

  datatype Model = Model(types: seq<TypeDef>)

  /** The first definition of that name. */
  function FindType(types: seq<TypeDef>, name: string): Option<TypeDef> {
    if types == [] then None
    else if types[0].name == Some(name) then Some(types[0])
    else FindType(types[1..], name)
  }

  function StructFields(model: Model, name: string): Option<seq<FieldDef>> {
    match FindType(model.types, name)
    case Some(TypeDef(_, Struct(fields))) => fields
    case _ => None
  }

  function EnumVariants(model: Model, name: string): Option<seq<VariantDef>> {
    match FindType(model.types, name)
    case Some(TypeDef(_, Enum(variants))) => variants
    case _ => None
  }

  // ---------------------------------------------------------------------------
  // Values and text

  datatype Json =
    | Null
    | Truth(b: bool)
    | Num(n: int)
    | Text(s: string)
    | List(items: seq<Json>)
    | Obj(members: seq<Member>)

  datatype Member = Member(key: string, value: Json)

  function Get(members: seq<Member>, key: string): (r: Option<Json>)
    ensures r.Some? ==> exists i :: 0 <= i < |members| && r.value == members[i].value
  {
    if members == [] then None
    else if members[0].key == key then Some(members[0].value)
    else
      assert forall i :: 0 <= i < |members[1..]| ==> members[1..][i] == members[i + 1];
      Get(members[1..], key)
  }

  /** Text encoding, base58 keys and number parsing. */
  datatype Texts = Texts(
    encode: string -> seq<byte>,
    decodeLossy: seq<byte> -> string,
    parseKey: string -> Option<seq<byte>>,
    showKey: seq<byte> -> string,
    parseU128: string -> Option<nat>,
    parseI128: string -> Option<int>)

  /** UTF-8 and base58 undo themselves, keys are thirty-two bytes, and numbers fit
      their type. */
  ghost predicate Faithful(g: Texts) {
    && (forall s :: g.decodeLossy(g.encode(s)) == s)
    && (forall s :: g.parseKey(s).Some? ==>
          |g.parseKey(s).value| == 32 && g.showKey(g.parseKey(s).value) == s)
    && (forall s :: g.parseU128(s).Some? ==> g.parseU128(s).value < Pow256(16))
    && (forall s :: g.parseI128(s).Some? ==>
          -(Pow256(16) as int) <= 2 * g.parseI128(s).value < Pow256(16))
  }

  /** A text as three bytes a character. */
  function Spell(s: string): seq<byte> {
    if s == [] then [] else LittleEndian(s[0] as int, 3) + Spell(s[1..])
  }

  function CharOf(n: nat): char { if n < 0xD800 || 0xE000 <= n < 0x11_0000 then n as char else '?' }

  function Unspell(b: seq<byte>): string {
    if |b| < 3 then [] else [CharOf(FromLittleEndian(b[..3]))] + Unspell(b[3..])
  }

  lemma {:induction false} SpellsBack(s: string)
    ensures Unspell(Spell(s)) == s
  {
    if s != [] {
      SpellsBack(s[1..]);
      var first, rest := LittleEndian(s[0] as int, 3), Spell(s[1..]);
      assert Pow256(3) == 0x100_0000 by {
        assert Pow256(2) == 0x1_0000;
      }
      LittleEndianRoundTrip(s[0] as int, 3);
      assert (first + rest)[..3] == first && (first + rest)[3..] == rest;
    }
  }

  function ShowKey(b: seq<byte>): string { seq(|b|, i requires 0 <= i < |b| => b[i] as char) }

  function ParseKey(s: string): (r: Option<seq<byte>>)
    ensures r.Some? ==> |r.value| == 32 && ShowKey(r.value) == s
  {
    if |s| == 32 && forall i :: 0 <= i < |s| ==> (s[i] as int) < 256 then
      var key: seq<byte> := seq(32, i requires 0 <= i < 32 => s[i] as int);
      Some(key)
    else None
  }

  function ParseDigit(s: string): (r: Option<nat>)
    ensures r.Some? ==> r.value < 10
  {
    if |s| == 1 && '0' <= s[0] <= '9' then Some(s[0] as int - '0' as int) else None
  }

  function ParseSigned(s: string): (r: Option<int>)
    ensures r.Some? ==> 0 <= r.value < 10
  {
    if ParseDigit(s).Some? then Some(ParseDigit(s).value) else None
  }

  /** What is asked of texts can be met. */
  lemma FaithfulIsPossible()
    ensures exists g :: Faithful(g)
  {
    hide Spell, Unspell, ParseKey, ShowKey, ParseDigit, ParseSigned, Pow256;
    var g := Texts(Spell, Unspell, ParseKey, ShowKey, ParseDigit, ParseSigned);
    forall s ensures g.decodeLossy(g.encode(s)) == s {
      SpellsBack(s);
    }
    WideEnough();
    assert Faithful(g);
  }

  lemma WideEnough()
    ensures Pow256(16) >= 256
  {
    assert Pow256(15) >= 1;
  }

  function Digit(d: nat): char
    requires d < 10
  {
    "0123456789"[d]
  }

  function Decimal(n: nat): string {
    if n < 10 then [Digit(n)] else Decimal(n / 10) + [Digit(n % 10)]
  }

  function ShowInt(n: int): string {
    if n < 0 then "-" + Decimal(-n) else Decimal(n)
  }

  function HexDigit(d: nat): char
    requires d < 16
  {
    "0123456789abcdef"[d]
  }

  function Hex(bytes: seq<byte>): string {
    if bytes == [] then "" else [HexDigit(bytes[0] / 16), HexDigit(bytes[0] % 16)] + Hex(bytes[1..])
  }
}
