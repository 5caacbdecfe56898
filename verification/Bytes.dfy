/** Bytes, machine integers and little-endian encoding. */
module Bytes {

  type byte = x: int | 0 <= x < 256
  type u32 = x: int | 0 <= x < U32_LIMIT
  type u64 = x: int | 0 <= x < U64_LIMIT

  const U32_LIMIT := 0x1_0000_0000
  const U64_LIMIT := 0x1_0000_0000_0000_0000
  const U64_MAX: u64 := U64_LIMIT - 1

  /** How many values `w` bytes can hold. */
  function Pow256(w: nat): (p: nat)
    ensures p > 0
  {
    if w == 0 then 1 else 256 * Pow256(w - 1)
  }

  lemma Pow256Values()
    ensures Pow256(4) == U32_LIMIT
    ensures Pow256(8) == U64_LIMIT
  {
    assert Pow256(2) == 0x1_0000;
    assert Pow256(4) == 256 * (256 * Pow256(2));
    assert Pow256(6) == 256 * (256 * Pow256(4));
    assert Pow256(8) == 256 * (256 * Pow256(6));
  }

  /** The low `w` bytes of `n`, least significant first. */
  function LittleEndian(n: nat, w: nat): (b: seq<byte>)
    ensures |b| == w
  {
    if w == 0 then [] else [n % 256] + LittleEndian(n / 256, w - 1)
  }

  function FromLittleEndian(b: seq<byte>): (n: nat)
    ensures n < Pow256(|b|)
  {
    if b == [] then 0 else b[0] + 256 * FromLittleEndian(b[1..])
  }

  /** Reading back what was written gives the number, when it fits. */
  lemma {:induction false} LittleEndianRoundTrip(n: nat, w: nat)
    requires n < Pow256(w)
    ensures FromLittleEndian(LittleEndian(n, w)) == n
  {
    if w > 0 {
      LittleEndianRoundTrip(n / 256, w - 1);
      assert LittleEndian(n, w)[1..] == LittleEndian(n / 256, w - 1);
    }
  }

  /** Writing back what was read gives the bytes: no two byte strings of one
      width stand for the same number. */
  lemma {:induction false} FromLittleEndianRoundTrip(b: seq<byte>)
    ensures LittleEndian(FromLittleEndian(b), |b|) == b
  {
    if b != [] {
      FromLittleEndianRoundTrip(b[1..]);
      var n := FromLittleEndian(b);
      assert n / 256 == FromLittleEndian(b[1..]) && n % 256 == b[0];
      assert b == [b[0]] + b[1..];
    }
  }

  function LE32(n: u32): (b: seq<byte>)
    ensures |b| == 4 && FromLittleEndian(b) == n
  {
    Pow256Values();
    LittleEndianRoundTrip(n, 4);
    LittleEndian(n, 4)
  }

  function LE64(n: u64): (b: seq<byte>)
    ensures |b| == 8 && FromLittleEndian(b) == n
  {
    Pow256Values();
    LittleEndianRoundTrip(n, 8);
    LittleEndian(n, 8)
  }

  function ReadU32(b: seq<byte>): (n: u32)
    requires |b| == 4
    ensures n == FromLittleEndian(b)
  {
    Pow256Values();
    FromLittleEndian(b)
  }

  function ReadU64(b: seq<byte>): (n: u64)
    requires |b| == 8
    ensures n == FromLittleEndian(b)
  {
    Pow256Values();
    FromLittleEndian(b)
  }

  /** Rust's `as u32`: only the low 32 bits survive. */
  function TruncateU32(n: nat): (r: u32)
    ensures n < U32_LIMIT ==> r == n
  {
    n % U32_LIMIT
  }

  /** What lies at `at`, when the bytes from there on are `b` and then `rest`. */
  lemma Reads(raw: seq<byte>, at: nat, b: seq<byte>, rest: seq<byte>)
    requires at <= |raw| && raw[at..] == b + rest
    ensures at + |b| <= |raw| && raw[at..at + |b|] == b && raw[at + |b|..] == rest
  {
    assert raw[at..at + |b|] == raw[at..][..|b|];
    assert raw[at + |b|..] == raw[at..][|b|..];
  }
}
