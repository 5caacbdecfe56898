/** Sign extension undoes two's complement (src/idl.rs, src/idl_encode.rs). */
module IdlNumbers {
  import opened Bytes
  import opened Idl
  import opened IdlEncode
  import opened IdlWalk

  lemma {:induction false} FromLittleEndianConcat(a: seq<byte>, b: seq<byte>)
    ensures FromLittleEndian(a + b) == FromLittleEndian(a) + Pow256(|a|) * FromLittleEndian(b)
  {
    if a == [] {
      assert a + b == b;
    } else {
      FromLittleEndianConcat(a[1..], b);
      FirstByte(a, b);
      FirstByteStep(a[0], FromLittleEndian(a[1..]), Pow256(|a| - 1), FromLittleEndian(b));
    }
  }

  lemma FirstByte(a: seq<byte>, b: seq<byte>)
    requires a != []
    ensures FromLittleEndian(a + b) == a[0] + 256 * FromLittleEndian(a[1..] + b)
  {
    assert (a + b)[1..] == a[1..] + b;
  }

  lemma FirstByteStep(first: nat, low: nat, p: nat, high: nat)
    ensures first + 256 * (low + p * high) == (first + 256 * low) + (256 * p) * high
  {
  }

  lemma {:induction false} AllOnes(b: seq<byte>)
    requires forall i :: 0 <= i < |b| ==> b[i] == 255
    ensures FromLittleEndian(b) == Pow256(|b|) - 1
  {
    if b != [] {
      AllOnes(b[1..]);
    }
  }

  lemma {:induction false} AllZeros(b: seq<byte>)
    requires forall i :: 0 <= i < |b| ==> b[i] == 0
    ensures FromLittleEndian(b) == 0
  {
    if b != [] {
      AllZeros(b[1..]);
    }
  }

  lemma {:induction false} Pow256Adds(a: nat, b: nat)
    ensures Pow256(a + b) == Pow256(a) * Pow256(b)
  {
    if a > 0 {
      Pow256Adds(a - 1, b);
      var p, q := Pow256(a - 1), Pow256(b);
      assert 256 * (p * q) == (256 * p) * q;
    }
  }

  /** The top byte holds the sign: it is 128 or more exactly for the upper half. */
  lemma {:induction false} TopByte(b: seq<byte>)
    requires b != []
    ensures b[|b| - 1] >= 128 <==> 2 * FromLittleEndian(b) >= Pow256(|b|)
  {
    if |b| == 1 {
      assert FromLittleEndian(b[1..]) == 0;
      assert Pow256(1) == 256;
    } else {
      TopByte(b[1..]);
      var n, p := FromLittleEndian(b[1..]), Pow256(|b| - 1);
      assert p % 2 == 0 by {
        assert p == 256 * Pow256(|b| - 2);
      }
      assert FromLittleEndian(b) == b[0] + 256 * n;
      if 2 * n >= p {
        assert 2 * (b[0] + 256 * n) >= 256 * p;
      } else {
        assert 2 * n <= p - 2;
      }
    }
  }

  /** Sign extension gives the number back from its two's complement. */
  lemma SignExtends(value: int, w: Width)
    requires -(Pow256(w) as int) <= 2 * value < Pow256(w)
    ensures ReadSigned(LittleEndian(TwosComplement(value, w), w)
          + SignFill(LittleEndian(TwosComplement(value, w), w))) == value
  {
    hide Pow256, LittleEndian, FromLittleEndian, SignFill;
    var n := TwosComplement(value, w);
    var b := LittleEndian(n, w);
    LittleEndianRoundTrip(n, w);
    SignedFill(b);
    var p, q := Pow256(w), Pow256(16 - w);
    FromLittleEndianConcat(b, SignFill(b));
    Pow256Adds(w, 16 - w);
    if value < 0 {
      MinusOne(p, q);
      HalfBelow(p, q, n);
    } else {
      MulAtLeast(p, q);
      Vanishes(p);
    }
  }

  lemma Vanishes(p: nat)
    ensures p * 0 == 0
  {
  }

  lemma MinusOne(p: nat, q: nat)
    ensures p * (q - 1) == p * q - p
  {
  }

  lemma FillBytes(b: seq<byte>)
    requires 1 <= |b| <= 16
    ensures forall i :: 0 <= i < 16 - |b| ==> SignFill(b)[i] == if b[|b| - 1] >= 128 then 255 else 0
  {
  }

  /** The fill reads as all ones above a negative number, as zero above another. */
  lemma SignedFill(b: seq<byte>)
    requires 1 <= |b| <= 16
    ensures FromLittleEndian(SignFill(b))
         == if 2 * FromLittleEndian(b) >= Pow256(|b|) then Pow256(16 - |b|) - 1 else 0
  {
    hide Pow256, FromLittleEndian, SignFill;
    TopByte(b);
    FillBytes(b);
    if b[|b| - 1] >= 128 {
      AllOnes(SignFill(b));
    } else {
      AllZeros(SignFill(b));
    }
  }

  lemma MulAtLeast(p: nat, q: nat)
    requires q >= 1
    ensures p * q >= p
  {
    assert p * q == p + p * (q - 1);
  }

  lemma HalfBelow(p: nat, q: nat, n: nat)
    requires q >= 1 && 2 * n >= p
    ensures 2 * (n + p * q - p) >= p * q
  {
    MulAtLeast(p, q);
  }
}
