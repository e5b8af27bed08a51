/** The Poly1305 tag as a polynomial in r, and r bit by bit. */
module Poly1305Form {
  import opened Limbs
  import opened ModArith
  import opened Machine
  import opened Poly1305

  /** Block j of a message: sixteen bytes, or what is left. */
  function BlockOf(msg: seq<byte>, j: nat): seq<byte>
    requires 16 * j < |msg|
  {
    msg[16 * j..Min(16 * j + 16, |msg|)]
  }

  /** The number of a block: its bytes, low one first, with a one byte behind them. */
  ghost function Coefficient(msg: seq<byte>, j: nat): int
    requires 16 * j < |msg|
  {
    var b := BlockOf(msg, j);
    Val(b, 256, |b|) + Pow(256, |b|)
  }

  /** The sum of the first n coefficients, that of block j times r to the power e - j. */
  ghost function Polynomial(msg: seq<byte>, r: int, n: nat, e: nat): int
    requires n <= e && 16 * n < |msg| + 16
  {
    if n == 0 then 0 else Polynomial(msg, r, n - 1, e) + Coefficient(msg, n - 1) * Pow(r, e - (n - 1))
  }

  lemma MoreTerm(p: int, p1: int, c: int, r: int, w: int, w1: int)
    requires p1 == r * p && w1 == r * w
    ensures p1 + c * w1 == r * (p + c * w)
  {
    assert c * (r * w) == r * (c * w);
  }

  lemma {:induction false} OneMorePower(msg: seq<byte>, r: int, n: nat, e: nat)
    requires n <= e && 16 * n < |msg| + 16
    ensures Polynomial(msg, r, n, e + 1) == r * Polynomial(msg, r, n, e)
    decreases n
  {
    if n > 0 {
      OneMorePower(msg, r, n - 1, e);
      MoreTerm(Polynomial(msg, r, n - 1, e), Polynomial(msg, r, n - 1, e + 1), Coefficient(msg, n - 1), r,
               Pow(r, e - (n - 1)), Pow(r, e + 1 - (n - 1)));
    }
  }

  lemma BlockIs(msg: seq<byte>, j: nat)
    requires 16 * j < |msg|
    ensures BlockNum(BlockOf(msg, j)) == Coefficient(msg, j)
  {
    var b := BlockOf(msg, j);
    ValSame(b + [1], b, 256, |b|);
  }

  lemma Factored(p: int, c: int, r: int)
    ensures (p + c) * r == r * p + c * r
  {
  }

  lemma PolynomialStep(msg: seq<byte>, r: int, n: nat)
    requires n > 0 && 16 * n < |msg| + 16
    ensures Polynomial(msg, r, n, n) == (Polynomial(msg, r, n - 1, n - 1) + Coefficient(msg, n - 1)) * r
  {
    var p, c := Polynomial(msg, r, n - 1, n - 1), Coefficient(msg, n - 1);
    OneMorePower(msg, r, n - 1, n - 1);
    assert Pow(r, 1) == r * Pow(r, 0) == r;
    Factored(p, c, r);
  }

  lemma AbsorbNext(msg: seq<byte>, r: int, n: nat, p: int)
    requires n > 0 && 16 * n < |msg| + 16 && Absorb(msg[..16 * (n - 1)], r) == p % P
    ensures Absorb(msg[..Min(16 * n, |msg|)], r) == ((p + Coefficient(msg, n - 1)) * r) % P
  {
    AbsorbBlock(msg, r, 16 * (n - 1));
    BlockIs(msg, n - 1);
    MulAddCongruent(p, p % P, Coefficient(msg, n - 1), r);
  }

  /** After n blocks the accumulator is the polynomial of those blocks. */
  lemma {:induction false} AbsorbIs(msg: seq<byte>, r: int, n: nat)
    requires 16 * n < |msg| + 16
    ensures Absorb(msg[..Min(16 * n, |msg|)], r) == Polynomial(msg, r, n, n) % P
    decreases n
  {
    if n == 0 {
      assert msg[..0] == [];
      ModUnique(0, 0, 0, P);
    } else {
      AbsorbIs(msg, r, n - 1);
      AbsorbNext(msg, r, n, Polynomial(msg, r, n - 1, n - 1));
      PolynomialStep(msg, r, n);
    }
  }

  // ---- the clamp --------------------------------------------------------------------------

  lemma {:induction false} OnesBits(n: nat, i: nat)
    ensures Bit(Pow(2, n) - 1, i) == if i < n then 1 else 0
    decreases i
  {
    PowPositive(2, n);
    if n == 0 {
      ZeroBit(i);
    } else {
      HalfOfTwice(Pow(2, n - 1) - 1, 1);
      if i > 0 {
        OnesBits(n - 1, i - 1);
      }
    }
  }

  lemma {:induction false} ZeroBit(i: nat)
    ensures Bit(0, i) == 0
  {
    if i > 0 {
      ZeroBit(i - 1);
    }
  }

  /** The bits of a number above s bits of another. */
  lemma {:induction false} BitJoin(lo: int, hi: int, s: nat, i: nat)
    requires 0 <= lo < Pow(2, s)
    ensures Bit(lo + hi * Pow(2, s), i) == if i < s then Bit(lo, i) else Bit(hi, i - s)
    decreases s
  {
    if s > 0 {
      var w := hi * Pow(2, s - 1);
      assert hi * Pow(2, s) == 2 * w;
      HalfOfTwice(lo / 2 + w, lo % 2);
      if i > 0 {
        BitJoin(lo / 2, hi, s - 1, i - 1);
      }
    }
  }

  /** Bits 2 to 27 of a word. */
  lemma MiddleBits(n: nat, i: nat)
    requires n == 26
    ensures Bit(0x0FFFFFFC, i) == if 2 <= i < n + 2 then 1 else 0
  {
    PowerOf26(n);
    assert Pow(2, 2) == 4;
    BitJoin(0, Pow(2, n) - 1, 2, i);
    OnesBits(n, if i < 2 then 0 else i - 2);
    ZeroBit(i);
  }

  lemma PowerOf26(n: nat)
    requires n == 26
    ensures Pow(2, n) == 0x4000000 && Pow(2, n + 2) == 0x10000000 && Pow(2, n + 6) == 0x1_0000_0000
  {
    assert Pow(2, 13) == 8192;
    PowAdd(2, 13, n - 13);
    PowAdd(2, n, 2);
    PowAdd(2, n, 6);
    assert Pow(2, 2) == 4 && Pow(2, 6) == 64;
  }

  lemma MaskBits(i: nat, s: nat)
    requires i < 128 && s == 32
    ensures Bit(0x0FFFFFFC_0FFFFFFC_0FFFFFFC_0FFFFFFF, i) == if i % 32 >= 28 || (i >= 32 && i % 32 < 2) then 0 else 1
  {
    PowerOf26(26);
    var w := 0x0FFFFFFC;
    var two := w + w * Pow(2, s);
    var three := w + two * Pow(2, s);
    assert 0x0FFFFFFC_0FFFFFFC_0FFFFFFC_0FFFFFFF == 0x0FFFFFFF + three * Pow(2, s);
    BitJoin(0x0FFFFFFF, three, s, i);
    if i < 32 {
      OnesBits(28, i);
    } else {
      BitJoin(w, two, s, i - 32);
      MiddleBits(26, i % 32);
      if i >= 64 {
        BitJoin(w, w, s, i - 64);
      }
    }
  }

  /** r bit by bit: the first half of the key without the top four bits of every 32 and
      the low two bits of all but the first. */
  lemma ClampBits(key: seq<byte>, i: nat)
    requires |key| == 32 && i < 128
    ensures Bit(ClampR(key), i) == if i % 32 >= 28 || (i >= 32 && i % 32 < 2) then 0 else Bit(Val(key, 256, 16), i)
  {
    AndBitwise(Val(key, 256, 16), 0x0FFFFFFC_0FFFFFFC_0FFFFFFC_0FFFFFFF, 128, i);
    MaskBits(i, 32);
    BitQuotient(Val(key, 256, 16), i);
  }

  lemma BlockCount(n: nat, len: nat)
    requires n == (len + 15) / 16
    ensures 16 * n < len + 16 && Min(16 * n, len) == len
  {
  }

  lemma AllAbsorbed(msg: seq<byte>, r: int, n: nat)
    requires n == (|msg| + 15) / 16
    ensures 16 * n < |msg| + 16 && Absorb(msg, r) == Polynomial(msg, r, n, n) % P
  {
    BlockCount(n, |msg|);
    AbsorbIs(msg, r, n);
    assert msg[..|msg|] == msg;
  }

  /** The tag holds the polynomial of the message at r mod 2^130 - 5, plus the second half of
      the key, mod 2^128. */
  lemma TagIsPolynomial(msg: seq<byte>, key: seq<byte>, n: nat)
    requires |key| == 32 && n == (|msg| + 15) / 16
    ensures 16 * n < |msg| + 16
    ensures Val(Tag(msg, key), 256, 16)
            == (Polynomial(msg, ClampR(key), n, n) % P + Val(key[16..], 256, 16)) % 0x1_00000000_00000000_00000000_00000000
  {
    AllAbsorbed(msg, ClampR(key), n);
    var sum := Absorb(msg, ClampR(key)) + Val(key[16..], 256, 16);
    Below128(sum);
    TagHolds(msg, key, sum % TWO128);
  }

  lemma TagHolds(msg: seq<byte>, key: seq<byte>, x: int)
    requires |key| == 32 && x == TagNum(msg, key) && 0 <= x < TWO128
    ensures Val(Tag(msg, key), 256, 16) == x
  {
    BytesHold(x, 16);
  }

  lemma Below128(x: int)
    ensures 0 <= x % TWO128 < TWO128
  {
  }

  lemma BytesHold(x: nat, n: nat)
    requires n == 16 && x < TWO128
    ensures Val(ToBytes(x, n), 256, n) == x
  {
    Pow256To16();
    ToBytesVal(x, n);
  }

  /** The modulus is 2^130 - 5. */
  lemma PrimeIs(n: nat)
    requires n == 26
    ensures P == Pow(2, 5 * n) - 5
  {
    PowerOf26(n);
    PowAdd(2, n, n);
    PowAdd(2, 2 * n, 2 * n);
    PowAdd(2, 4 * n, n);
  }
}
