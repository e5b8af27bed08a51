/** CRC32c: the bit-at-a-time register, the table form, and burst detection. Most of
    the reasoning is about any one-bit step with two laws; Castagnoli's has them. */
module Crc32c {
  import opened Limbs
  import opened ModArith
  import opened Machine

  /** The reflected Castagnoli polynomial. */
  const POLY: u32 := 0x82F6_3B78
  const ONES: u32 := 0xFFFF_FFFF

  type StepFn = u32 -> u32

  /** x ^ y on 32-bit words */
  function X(x: u32, y: u32): u32 {
    Two32(32);
    XorRange(x, y, 32);
    Xor(x, y, 32)
  }

  /** One bit through the reflected register. */
  function OneBit(c: u32): u32 {
    if c % 2 == 1 then X(POLY, c as int / 2) else c as int / 2
  }

  function Castagnoli(): StepFn {
    c => OneBit(c)
  }

  function Steps(f: StepFn, c: u32, n: nat): u32
    decreases n, c
  {
    if n == 0 then c else Steps(f, f(c), n - 1)
  }

  /** The register after the bytes of s, eight bits each, lowest bit first. */
  function Register(f: StepFn, c: u32, s: seq<byte>): u32
    decreases |s|
  {
    if s == [] then c else Register(f, Steps(f, X(c, s[0]), 8), s[1..])
  }

  /** Appendix B of RFC 4960, without its final byte swap. */
  function Crc(s: seq<byte>): u32 {
    X(Register(Castagnoli(), ONES, s), ONES)
  }

  // ---- xor on words ----------------------------------------------------------------------------

  lemma Bottom(x: int, y: int, n: nat)
    requires n > 0
    ensures Xor(x, y, n) / 2 == Xor(x / 2, y / 2, n - 1) && Xor(x, y, n) % 2 == (x % 2 + y % 2) % 2
  {
    var h, b := Xor(x / 2, y / 2, n - 1), (x % 2 + y % 2) % 2;
    assert Xor(x, y, n) == 2 * h + b;
  }

  lemma Parity(x: int, y: int, z: int)
    ensures ((x % 2 + y % 2) % 2 + z % 2) % 2 == (x + y + z) % 2 == (x % 2 + (y % 2 + z % 2) % 2) % 2
  {
  }

  /** Half and lowest bit of an xor of three numbers. */
  lemma XorLeft(x: int, y: int, z: int, n: nat, xy: int)
    requires n > 0 && xy == Xor(x, y, n)
    ensures Xor(xy, z, n) == 2 * Xor(Xor(x / 2, y / 2, n - 1), z / 2, n - 1) + (x + y + z) % 2
  {
    Bottom(x, y, n);
    Parity(x, y, z);
  }

  lemma XorRight(x: int, y: int, z: int, n: nat, yz: int)
    requires n > 0 && yz == Xor(y, z, n)
    ensures Xor(x, yz, n) == 2 * Xor(x / 2, Xor(y / 2, z / 2, n - 1), n - 1) + (x + y + z) % 2
  {
    Bottom(y, z, n);
    Parity(x, y, z);
  }

  lemma SignAssoc(x: int, y: int, z: int, xy: int, yz: int)
    requires Bits(x, 0) && Bits(y, 0) && Bits(z, 0) && xy == Xor(x, y, 0) && yz == Xor(y, z, 0)
    ensures Xor(xy, z, 0) == Xor(x, yz, 0)
  {
  }

  lemma {:induction false} XorAssoc(x: int, y: int, z: int, n: nat, xy: int, yz: int)
    requires Bits(x, n) && Bits(y, n) && Bits(z, n) && xy == Xor(x, y, n) && yz == Xor(y, z, n)
    ensures Xor(xy, z, n) == Xor(x, yz, n)
    decreases n
  {
    if n == 0 {
      SignAssoc(x, y, z, xy, yz);
    } else {
      XorAssoc(x / 2, y / 2, z / 2, n - 1, Xor(x / 2, y / 2, n - 1), Xor(y / 2, z / 2, n - 1));
      XorLeft(x, y, z, n, xy);
      XorRight(x, y, z, n, yz);
    }
  }

  /** One more bit of width makes no difference to numbers that fit. */
  lemma {:induction false} XorWiden(x: int, y: int, n: nat)
    requires 0 <= x < Pow(2, n) && 0 <= y < Pow(2, n)
    ensures Xor(x, y, n + 1) == Xor(x, y, n)
    decreases n
  {
    if n > 0 {
      XorWiden(x / 2, y / 2, n - 1);
    } else {
      assert Xor(0, 0, 1) == 2 * Xor(0, 0, 0) + 0;
    }
  }

  lemma WordBits(x: u32)
    ensures Bits(x, 32)
  {
    Two32(32);
    BitsRange(x, 32);
  }

  lemma XAssoc(x: u32, y: u32, z: u32)
    ensures X(X(x, y), z) == X(x, X(y, z))
  {
    WordBits(x);
    WordBits(y);
    WordBits(z);
    XorAssoc(x, y, z, 32, X(x, y), X(y, z));
  }

  lemma XCommutes(x: u32, y: u32)
    ensures X(x, y) == X(y, x)
  {
    XorCommutes(x, y, 32);
  }

  lemma XZero(x: u32)
    ensures X(x, 0) == x
  {
    WordBits(x);
    XorZero(x, 32);
  }

  lemma XCancels(x: u32, y: u32, b: u32)
    ensures X(b, x) == X(b, y) ==> x == y
    ensures X(x, b) == X(y, b) ==> x == y
  {
    WordBits(x);
    WordBits(y);
    WordBits(b);
    XorCancel(b, x, 32);
    XorCancel(b, y, 32);
    XCommutes(x, b);
    XCommutes(y, b);
  }

  /** Shifting right works on the operands. */
  lemma XHalf(x: u32, y: u32)
    ensures X(x, y) as int / 2 == X(x as int / 2, y as int / 2) && X(x, y) % 2 == (x % 2 + y % 2) % 2
  {
    var a, b := x as int / 2, y as int / 2;
    HalfRange(31);
    XorWiden(a, b, 31);
    assert Xor(x, y, 32) == 2 * Xor(a, b, 31) + (x as int % 2 + y as int % 2) % 2;
  }

  lemma HalfRange(n: nat)
    requires n == 31
    ensures Pow(2, n) == 0x8000_0000
  {
    Two32(n + 1);
  }

  lemma {:induction false} XShift(x: u32, y: u32, k: nat)
    ensures Pow(2, k) > 0
    ensures x as int / Pow(2, k) <= x && y as int / Pow(2, k) <= y
    ensures X(x, y) as int / Pow(2, k) == X(x as int / Pow(2, k), y as int / Pow(2, k))
    decreases k
  {
    PowPositive(2, k);
    if k > 0 {
      XHalf(x, y);
      XShift(x as int / 2, y as int / 2, k - 1);
      DivDiv(x, 2, Pow(2, k - 1));
      DivDiv(y, 2, Pow(2, k - 1));
      DivDiv(X(x, y), 2, Pow(2, k - 1));
    } else {
      assert Pow(2, 0) == 1;
    }
  }

  /** Bits that do not overlap add up. */
  lemma {:induction false} XorDisjoint(b: int, w: int, k: nat, n: nat)
    requires 0 <= b < Pow(2, k) && k <= n && 0 <= w * Pow(2, k) < Pow(2, n)
    ensures Xor(b, w * Pow(2, k), n) == b + w * Pow(2, k)
    decreases n
  {
    if k == 0 {
      assert b == 0 && w * Pow(2, 0) == w;
      BitsRange(w, n);
      XorZero(w, n);
      XorCommutes(0, w, n);
    } else {
      HalfShift(w, k);
      XorDisjoint(b / 2, w, k - 1, n - 1);
      assert Xor(b, w * Pow(2, k), n) == 2 * Xor(b / 2, w * Pow(2, k - 1), n - 1) + (b % 2 + 0) % 2;
    }
  }

  lemma HalfShift(w: int, k: nat)
    requires k > 0
    ensures w * Pow(2, k) == 2 * (w * Pow(2, k - 1))
    ensures (w * Pow(2, k)) / 2 == w * Pow(2, k - 1) && (w * Pow(2, k)) % 2 == 0
  {
    var v := w * Pow(2, k - 1);
    assert w * (2 * Pow(2, k - 1)) == 2 * v;
  }

  lemma XAdds(b: byte, w: int)
    requires 0 <= w < 0x100_0000
    ensures X(b, 256 * w) == b as int + 256 * w
  {
    Two32(32);
    assert Pow(2, 8) == 256;
    XorDisjoint(b, w, 8, 32);
  }

  lemma ByteBelow(c: u32, b: byte)
    ensures X(c, b) as int / 256 == c as int / 256
  {
    assert Pow(2, 8) == 256;
    XShift(c, b, 8);
    XZero(c as int / 256);
  }

  // ---- the two laws ------------------------------------------------------------------------

  /** Bits above the lowest only move down. */
  ghost predicate HighMoves(f: StepFn) {
    forall x: u32, y: u32 :: HighMovesAt(f, x, y)
  }

  ghost predicate HighMovesAt(f: StepFn, x: u32, y: u32) {
    y % 2 == 0 ==> f(X(x, y)) == X(f(x), y as int / 2)
  }

  ghost predicate Reversible(f: StepFn) {
    forall x: u32, y: u32 :: f(x) == f(y) ==> x == y
  }

  lemma BitHigh(x: u32, y: u32)
    requires y % 2 == 0
    ensures OneBit(X(x, y)) == X(OneBit(x), y as int / 2)
  {
    XHalf(x, y);
    if x % 2 == 1 {
      XAssoc(POLY, x as int / 2, y as int / 2);
    }
  }

  /** The register's top bit tells whether the polynomial went in. */
  lemma TopBit(q: u32)
    requires q < 0x8000_0000
    ensures X(POLY, q) >= 0x8000_0000
  {
    HalfRange(31);
    XShift(POLY, q, 31);
    XZero(1);
  }

  lemma BitBack(x: u32, y: u32)
    requires OneBit(x) == OneBit(y)
    ensures x == y
  {
    TopBit(x as int / 2);
    TopBit(y as int / 2);
    XCancels(x as int / 2, y as int / 2, POLY);
  }

  lemma CastagnoliLaws()
    ensures HighMoves(Castagnoli()) && Reversible(Castagnoli())
  {
    forall x: u32, y: u32
      ensures HighMovesAt(Castagnoli(), x, y)
    {
      if y % 2 == 0 {
        BitHigh(x, y);
      }
    }
    forall x: u32, y: u32 | Castagnoli()(x) == Castagnoli()(y)
      ensures x == y
    {
      BitBack(x, y);
    }
  }

  // ---- the table -----------------------------------------------------------------------------

  /** What lies n bits up comes down in n steps, and otherwise waits. */
  lemma {:induction false} StepsHigh(f: StepFn, x: u32, w: int, n: nat)
    requires HighMoves(f) && 0 <= w && w * Pow(2, n) < 0x1_0000_0000
    ensures 0 <= w * Pow(2, n) && w < 0x1_0000_0000
    ensures Steps(f, X(x, w * Pow(2, n)), n) == X(Steps(f, x, n), w)
    decreases n
  {
    PowPositive(2, n);
    MulMonotone(1, Pow(2, n), w);
    if n > 0 {
      HalfShift(w, n);
      assert HighMovesAt(f, x, w * Pow(2, n));
      StepsHigh(f, f(x), w, n - 1);
    }
  }

  lemma EightHigh(f: StepFn, x: u32, w: int)
    requires HighMoves(f) && 0 <= w < 0x100_0000
    ensures Steps(f, X(x, 256 * w), 8) == X(Steps(f, x, 8), w)
  {
    assert Pow(2, 8) == 256;
    StepsHigh(f, x, w, 8);
  }

  lemma TakeApart(f: StepFn, lo: byte, hi: int)
    requires HighMoves(f) && 0 <= hi < 0x100_0000
    ensures Steps(f, lo as int + 256 * hi, 8) == X(Steps(f, lo, 8), hi)
  {
    XAdds(lo, hi);
    EightHigh(f, lo, hi);
  }

  /** Eight steps are one table look-up for the low byte, xored with the other bytes moved down. */
  lemma TableStep(f: StepFn, c: u32)
    requires HighMoves(f)
    ensures Steps(f, c, 8) == X(Steps(f, c as int % 256, 8), c as int / 256)
  {
    DivModDef(c, 256);
    TakeApart(f, c as int % 256, c as int / 256);
  }

  /** The inner loop of crc_init. */
  method EightBits(i: u32) returns (c: u32)
    ensures c == Steps(Castagnoli(), i, 8)
  {
    c := i;
    for k := 8 downto 0
      invariant Steps(Castagnoli(), c, k) == Steps(Castagnoli(), i, 8)
    {
      c := if c % 2 == 1 then X(POLY, c as int / 2) else c as int / 2;
    }
  }

  /** The table holds eight steps of every byte value. */
  ghost predicate Filled(f: StepFn, table: seq<u32>) {
    |table| == 256 && forall j :: 0 <= j < 256 ==> table[j] == Steps(f, j, 8)
  }

  /** crc_init */
  method CrcInit() returns (table: array<u32>)
    ensures fresh(table) && Filled(Castagnoli(), table[..])
  {
    table := new u32[256];
    for i := 0 to 256
      invariant forall j :: 0 <= j < i ==> table[j] == Steps(Castagnoli(), j, 8)
    {
      var c := EightBits(i);
      table[i] := c;
    }
  }

  lemma {:induction false} RegisterLast(f: StepFn, c: u32, s: seq<byte>, n: nat)
    requires n < |s|
    ensures Register(f, c, s[..n + 1]) == Steps(f, X(Register(f, c, s[..n]), s[n]), 8)
    decreases n
  {
    if n > 0 {
      var t := s[1..];
      assert s[..n + 1][1..] == t[..n] && s[..n][1..] == t[..n - 1];
      RegisterLast(f, Steps(f, X(c, s[0]), 8), t, n - 1);
    } else {
      assert s[..1][1..] == [] && s[..0] == [];
      assert Register(f, Steps(f, X(c, s[0]), 8), []) == Steps(f, X(c, s[0]), 8);
    }
  }

  /** icsp_crc32c: the table form computes the bit-at-a-time checksum. */
  method IcspCrc32c(data: array<byte>, len: nat) returns (r: u32)
    requires len <= data.Length
    ensures r == Crc(data[..len])
  {
    var table := CrcInit();
    CastagnoliLaws();
    var c := TableLoop(Castagnoli(), table, data, len);
    r := X(c, ONES);
  }

  /** The register after one more byte, by look-up. */
  lemma LookUp(f: StepFn, table: seq<u32>, c: u32, b: byte)
    requires HighMoves(f) && Filled(f, table)
    ensures X(table[X(c, b) as int % 256], c as int / 256) == Steps(f, X(c, b), 8)
  {
    TableStep(f, X(c, b));
    ByteBelow(c, b);
  }

  /** The loop over the bytes. */
  method TableLoop(ghost f: StepFn, table: array<u32>, data: array<byte>, len: nat) returns (c: u32)
    requires len <= data.Length && HighMoves(f) && Filled(f, table[..])
    ensures c == Register(f, ONES, data[..len])
  {
    c := ONES;
    for i := 0 to len
      invariant c == Register(f, ONES, data[..i])
    {
      RegisterLast(f, ONES, data[..], i);
      assert data[..][..i + 1] == data[..i + 1] && data[..][..i] == data[..i];
      LookUp(f, table[..], c, data[i]);
      c := X(table[X(c, data[i]) as int % 256], c as int / 256);
    }
  }

  // ---- bursts -----------------------------------------------------------------------------------

  lemma {:induction false} StepsBack(f: StepFn, x: u32, y: u32, n: nat)
    requires Reversible(f) && Steps(f, x, n) == Steps(f, y, n)
    ensures x == y
    decreases n
  {
    if n > 0 {
      StepsBack(f, f(x), f(y), n - 1);
      assert f(x) == f(y);
    }
  }

  lemma {:induction false} RegisterAppend(f: StepFn, c: u32, s: seq<byte>, t: seq<byte>)
    ensures Register(f, c, s + t) == Register(f, Register(f, c, s), t)
    decreases |s|
  {
    if s == [] {
      assert s + t == t;
    } else {
      assert (s + t)[1..] == s[1..] + t && (s + t)[0] == s[0];
      RegisterAppend(f, Steps(f, X(c, s[0]), 8), s[1..], t);
    }
  }

  /** Equal bytes never bring two different registers together. */
  lemma {:induction false} RegisterBack(f: StepFn, c: u32, d: u32, s: seq<byte>)
    requires Reversible(f) && Register(f, c, s) == Register(f, d, s)
    ensures c == d
    decreases |s|
  {
    if s != [] {
      RegisterBack(f, Steps(f, X(c, s[0]), 8), Steps(f, X(d, s[0]), 8), s[1..]);
      StepsBack(f, X(c, s[0]), X(d, s[0]), 8);
      XCancels(c, d, s[0]);
    }
  }

  /** Four bytes, first byte lowest. */
  function Word(b0: byte, b1: byte, b2: byte, b3: byte): u32 {
    b0 as int + 256 * (b1 as int + 256 * (b2 as int + 256 * b3 as int))
  }

  lemma WordBack(a0: byte, a1: byte, a2: byte, a3: byte, b0: byte, b1: byte, b2: byte, b3: byte)
    requires Word(a0, a1, a2, a3) == Word(b0, b1, b2, b3)
    ensures a0 == b0 && a1 == b1 && a2 == b2 && a3 == b3
  {
    LowByte(a0, a1 as int + 256 * (a2 as int + 256 * a3 as int), b0, b1 as int + 256 * (b2 as int + 256 * b3 as int));
    LowByte(a1, a2 as int + 256 * a3 as int, b1, b2 as int + 256 * b3 as int);
    LowByte(a2, a3, b2, b3);
  }

  lemma LowByte(a: byte, x: int, b: byte, y: int)
    requires a as int + 256 * x == b as int + 256 * y
    ensures a == b && x == y
  {
  }

  /** A word above a byte waits while the byte is taken in. */
  lemma ByteIn(f: StepFn, c: u32, b: byte, w: int)
    requires HighMoves(f) && 0 <= w < 0x100_0000
    ensures Steps(f, X(c, b as int + 256 * w), 8) == X(Steps(f, X(c, b), 8), w)
  {
    XAdds(b, w);
    XAssoc(c, b, 256 * w);
    EightHigh(f, X(c, b), w);
  }

  lemma {:induction false} StepsAdd(f: StepFn, c: u32, m: nat, n: nat)
    ensures Steps(f, c, m + n) == Steps(f, Steps(f, c, m), n)
    decreases m
  {
    if m > 0 {
      StepsAdd(f, f(c), m - 1, n);
    }
  }

  /** Four bytes enter the register like one word. */
  lemma FourBytes(f: StepFn, c: u32, b0: byte, b1: byte, b2: byte, b3: byte)
    requires HighMoves(f)
    ensures Register(f, c, [b0, b1, b2, b3]) == Steps(f, X(c, Word(b0, b1, b2, b3)), 32)
  {
    var w3: int := b3 as int;
    var w2 := b2 as int + 256 * w3;
    var w1 := b1 as int + 256 * w2;
    var c1 := Steps(f, X(c, b0), 8);
    var c2 := Steps(f, X(c1, b1), 8);
    var c3 := Steps(f, X(c2, b2), 8);
    ByteIn(f, c, b0, w1);
    ByteIn(f, c1, b1, w2);
    ByteIn(f, c2, b2, w3);
    ThirtyTwo(f, X(c, Word(b0, b1, b2, b3)));
    RegisterFour(f, c, b0, b1, b2, b3);
  }

  lemma ThirtyTwo(f: StepFn, x: u32)
    ensures Steps(f, x, 32) == Steps(f, Steps(f, Steps(f, Steps(f, x, 8), 8), 8), 8)
  {
    StepsAdd(f, x, 8, 24);
    StepsAdd(f, Steps(f, x, 8), 8, 16);
    StepsAdd(f, Steps(f, Steps(f, x, 8), 8), 8, 8);
  }

  lemma RegisterFour(f: StepFn, c: u32, b0: byte, b1: byte, b2: byte, b3: byte)
    ensures Register(f, c, [b0, b1, b2, b3])
            == Steps(f, X(Steps(f, X(Steps(f, X(Steps(f, X(c, b0), 8), b1), 8), b2), 8), b3), 8)
  {
    assert [b0, b1, b2, b3][1..] == [b1, b2, b3] && [b1, b2, b3][1..] == [b2, b3] && [b2, b3][1..] == [b3] && [b3][1..] == [];
    var c1 := Steps(f, X(c, b0), 8);
    var c2 := Steps(f, X(c1, b1), 8);
    var c3 := Steps(f, X(c2, b2), 8);
    assert Register(f, c, [b0, b1, b2, b3]) == Register(f, c1, [b1, b2, b3]);
    assert Register(f, c1, [b1, b2, b3]) == Register(f, c2, [b2, b3]);
    assert Register(f, c2, [b2, b3]) == Register(f, c3, [b3]);
  }

  lemma FourBack(f: StepFn, c: u32, u: seq<byte>, v: seq<byte>)
    requires HighMoves(f) && Reversible(f) && |u| == |v| == 4 && Register(f, c, u) == Register(f, c, v)
    ensures u == v
  {
    assert u == [u[0], u[1], u[2], u[3]] && v == [v[0], v[1], v[2], v[3]];
    FourBytes(f, c, u[0], u[1], u[2], u[3]);
    FourBytes(f, c, v[0], v[1], v[2], v[3]);
    StepsBack(f, X(c, Word(u[0], u[1], u[2], u[3])), X(c, Word(v[0], v[1], v[2], v[3])), 32);
    XCancels(Word(u[0], u[1], u[2], u[3]), Word(v[0], v[1], v[2], v[3]), c);
    WordBack(u[0], u[1], u[2], u[3], v[0], v[1], v[2], v[3]);
  }

  /** Shorter windows, by going on with zero bytes. */
  lemma WindowBack(f: StepFn, c: u32, u: seq<byte>, v: seq<byte>)
    requires HighMoves(f) && Reversible(f) && |u| == |v| <= 4 && Register(f, c, u) == Register(f, c, v)
    ensures u == v
  {
    var zeros := seq(4 - |u|, i => 0);
    RegisterAppend(f, c, u, zeros);
    RegisterAppend(f, c, v, zeros);
    FourBack(f, c, u + zeros, v + zeros);
    assert u == (u + zeros)[..|u|] && v == (v + zeros)[..|u|];
  }

  /** A burst of up to four bytes at p is the only difference. */
  ghost predicate DifferWithin(x: seq<byte>, y: seq<byte>, p: nat) {
    |x| == |y| && forall i :: 0 <= i < |x| && !(p <= i < p + 4) ==> x[i] == y[i]
  }

  lemma WindowDetected(f: StepFn, c: u32, a: seq<byte>, u: seq<byte>, v: seq<byte>, z: seq<byte>)
    requires HighMoves(f) && Reversible(f) && |u| == |v| <= 4
    requires Register(f, c, a + (u + z)) == Register(f, c, a + (v + z))
    ensures u == v
  {
    RegisterAppend(f, c, a, u + z);
    RegisterAppend(f, c, a, v + z);
    var d := Register(f, c, a);
    RegisterAppend(f, d, u, z);
    RegisterAppend(f, d, v, z);
    RegisterBack(f, Register(f, d, u), Register(f, d, v), z);
    WindowBack(f, d, u, v);
  }

  /** Two inputs of equal length that differ only within four consecutive bytes
      always have different checksums. */
  lemma BurstDetected(x: seq<byte>, y: seq<byte>, p: nat)
    requires DifferWithin(x, y, p) && x != y
    ensures Crc(x) != Crc(y)
  {
    var lo := if p < |x| then p else |x|;
    var hi := if p + 4 < |x| then p + 4 else |x|;
    var a, z, u, v := x[..lo], x[hi..], x[lo..hi], y[lo..hi];
    assert y[..lo] == a && y[hi..] == z;
    assert x == a + (u + z) && y == a + (v + z);
    if Crc(x) == Crc(y) {
      CastagnoliLaws();
      XCancels(Register(Castagnoli(), ONES, x), Register(Castagnoli(), ONES, y), ONES);
      WindowDetected(Castagnoli(), ONES, a, u, v, z);
      assert false;
    }
  }

  // ---- which polynomial --------------------------------------------------------------------------

  lemma EightUp(k: int, t: nat)
    ensures Bit(k, t + 8) == Bit(k / 256, t)
  {
    assert Bit(k, t + 8) == Bit(k / 2, t + 7) == Bit(k / 4, t + 6) == Bit(k / 8, t + 5);
    assert Bit(k / 8, t + 5) == Bit(k / 16, t + 4) == Bit(k / 32, t + 3) == Bit(k / 64, t + 2) == Bit(k / 128, t + 1);
  }

  lemma UpToByte(k: int, a: nat, t: nat)
    requires a < 4
    ensures Bit(k, 8 * a + t) == Bit(k / (if a == 0 then 1 else if a == 1 then 0x100 else if a == 2 then 0x1_0000 else 0x100_0000), t)
  {
    if a > 0 {
      EightUp(k, 8 * (a - 1) + t);
    }
    if a > 1 {
      EightUp(k / 0x100, 8 * (a - 2) + t);
    }
    if a > 2 {
      EightUp(k / 0x1_0000, t);
    }
  }

  lemma MirroredByte0(i: nat)
    requires i < 8
    ensures Bit(0x82F63B78, i) == Bit(0x1E, 7 - i)
  {
    assert Bit(0x82F63B78, 0) == Bit(0x1E, 7) && Bit(0x82F63B78, 1) == Bit(0x1E, 6) && Bit(0x82F63B78, 2) == Bit(0x1E, 5) && Bit(0x82F63B78, 3) == Bit(0x1E, 4);
    assert Bit(0x82F63B78, 4) == Bit(0x1E, 3) && Bit(0x82F63B78, 5) == Bit(0x1E, 2) && Bit(0x82F63B78, 6) == Bit(0x1E, 1) && Bit(0x82F63B78, 7) == Bit(0x1E, 0);
  }

  lemma MirroredByte1(i: nat)
    requires i < 8
    ensures Bit(0x82F63B, i) == Bit(0x1EDC, 7 - i)
  {
    assert Bit(0x82F63B, 0) == Bit(0x1EDC, 7) && Bit(0x82F63B, 1) == Bit(0x1EDC, 6) && Bit(0x82F63B, 2) == Bit(0x1EDC, 5) && Bit(0x82F63B, 3) == Bit(0x1EDC, 4);
    assert Bit(0x82F63B, 4) == Bit(0x1EDC, 3) && Bit(0x82F63B, 5) == Bit(0x1EDC, 2) && Bit(0x82F63B, 6) == Bit(0x1EDC, 1) && Bit(0x82F63B, 7) == Bit(0x1EDC, 0);
  }

  lemma MirroredByte2(i: nat)
    requires i < 8
    ensures Bit(0x82F6, i) == Bit(0x1EDC6F, 7 - i)
  {
    assert Bit(0x82F6, 0) == Bit(0x1EDC6F, 7) && Bit(0x82F6, 1) == Bit(0x1EDC6F, 6) && Bit(0x82F6, 2) == Bit(0x1EDC6F, 5) && Bit(0x82F6, 3) == Bit(0x1EDC6F, 4);
    assert Bit(0x82F6, 4) == Bit(0x1EDC6F, 3) && Bit(0x82F6, 5) == Bit(0x1EDC6F, 2) && Bit(0x82F6, 6) == Bit(0x1EDC6F, 1) && Bit(0x82F6, 7) == Bit(0x1EDC6F, 0);
  }

  lemma MirroredByte3(i: nat)
    requires i < 8
    ensures Bit(0x82, i) == Bit(0x1EDC6F41, 7 - i)
  {
    assert Bit(0x82, 0) == Bit(0x1EDC6F41, 7) && Bit(0x82, 1) == Bit(0x1EDC6F41, 6) && Bit(0x82, 2) == Bit(0x1EDC6F41, 5) && Bit(0x82, 3) == Bit(0x1EDC6F41, 4);
    assert Bit(0x82, 4) == Bit(0x1EDC6F41, 3) && Bit(0x82, 5) == Bit(0x1EDC6F41, 2) && Bit(0x82, 6) == Bit(0x1EDC6F41, 1) && Bit(0x82, 7) == Bit(0x1EDC6F41, 0);
  }

  /** The polynomial is 0x1EDC6F41, lowest bit first. */
  lemma PolynomialMirrored(i: nat)
    requires i < 32
    ensures Bit(POLY, i) == Bit(0x1EDC6F41, 31 - i)
  {
    var a, t := i / 8, i % 8;
    UpToByte(POLY, a, t);
    UpToByte(0x1EDC6F41, 3 - a, 7 - t);
    if a == 0 {
      MirroredByte0(t);
    } else if a == 1 {
      MirroredByte1(t);
    } else if a == 2 {
      MirroredByte2(t);
    } else {
      MirroredByte3(t);
    }
  }

  /** One step, bit by bit: every bit moves down, and where the polynomial has a one the lowest
      bit is added to it. */
  lemma OneBitExactly(c: u32, i: nat)
    requires i < 32
    ensures Bit(OneBit(c), i) == (Bit(c, i + 1) + if c % 2 == 1 then Bit(0x1EDC6F41, 31 - i) else 0) % 2
  {
    BitRange(c as int / 2, i);
    if c % 2 == 1 {
      XorBitwise(POLY, c as int / 2, 32, i);
      PolynomialMirrored(i);
    }
  }

  // ---- a check value -------------------------------------------------------------------------------

  lemma {:induction false} ComplementIs(x: int, n: nat)
    requires 0 <= x < Pow(2, n)
    ensures Xor(x, Pow(2, n) - 1, n) == Pow(2, n) - 1 - x
    decreases n
  {
    if n > 0 {
      ComplementIs(x / 2, n - 1);
      var p := Pow(2, n - 1);
      assert (2 * p - 1) / 2 == p - 1 && (2 * p - 1) % 2 == 1;
    }
  }

  lemma WithOnes(x: u32, n: nat)
    requires n == 32
    ensures X(x, ONES) == 0xFFFF_FFFF - x as int
  {
    Two32(n);
    ComplementIs(x, n);
  }

  lemma {:induction false} ZeroStays(n: nat)
    ensures Steps(Castagnoli(), 0, n) == 0
  {
    if n > 0 {
      ZeroStays(n - 1);
    }
  }

  lemma StepsToPolynomial()
    ensures Steps(Castagnoli(), 128, 8) == POLY
  {
    var f := Castagnoli();
    assert f(128) == 64 && f(64) == 32 && f(32) == 16 && f(16) == 8 && f(8) == 4 && f(4) == 2 && f(2) == 1;
    XZero(POLY);
    assert f(1) == POLY;
    assert Steps(f, 128, 8) == Steps(f, 64, 7) == Steps(f, 32, 6) == Steps(f, 16, 5) == Steps(f, 8, 4);
    assert Steps(f, 8, 4) == Steps(f, 4, 3) == Steps(f, 2, 2) == Steps(f, 1, 1) == POLY;
  }

  lemma OnesEmpty()
    ensures Register(Castagnoli(), ONES, [0xFF, 0xFF, 0xFF, 0xFF]) == 0
  {
    CastagnoliLaws();
    FourBytes(Castagnoli(), ONES, 0xFF, 0xFF, 0xFF, 0xFF);
    WithOnes(ONES, 32);
    ZeroStays(32);
  }

  lemma LastByte()
    ensures Register(Castagnoli(), 0, [0x80]) == POLY
  {
    XZero(0x80);
    XCommutes(0, 0x80);
    StepsToPolynomial();
  }

  /** Four bytes of ones empty the register, and the next byte brings the polynomial in. */
  lemma CheckValue(s: seq<byte>)
    requires s == [0xFF, 0xFF, 0xFF, 0xFF, 0x80]
    ensures Crc(s) == 0x7D09_C487
  {
    OnesEmpty();
    LastByte();
    assert s == s[..4] + s[4..] && s[..4] == [0xFF, 0xFF, 0xFF, 0xFF] && s[4..] == [0x80];
    RegisterAppend(Castagnoli(), ONES, s[..4], s[4..]);
    WithOnes(POLY, 32);
  }
}
