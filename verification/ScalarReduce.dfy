/** Reduction modulo the order L of the Ed25519 base point (section 5.1 of
    RFC 8032) in signed radix-2^8 limbs with rounded carries. */
module ScalarReduce {
  import opened Limbs
  import opened ModArith
  import opened Machine

  const ORDER: int := 0x10000000_00000000_00000000_00000000_14def9de_a2f79cd6_5812631a_5cf5d3ed
  const ORDER_LOW: int := 0x14def9de_a2f79cd6_5812631a_5cf5d3ed
  const TWO256: int := 0x1_00000000_00000000_00000000_00000000_00000000_00000000_00000000_00000000

  const TWO248: int := 0x1_000000_00000000_00000000_00000000_00000000_00000000_00000000_00000000

  const L: seq<int> := [0xed, 0xd3, 0xf5, 0x5c, 0x1a, 0x63, 0x12, 0x58, 0xd6, 0x9c, 0xf7, 0xa2, 0xde, 0xf9, 0xde, 0x14,
                        0, 0, 0, 0, 0, 0, 0, 0, 0, 0, 0, 0, 0, 0, 0, 0x10]

  lemma SmallPowers()
    ensures Pow(256, 0) == 1 && Pow(256, 1) == 256 && Pow(256, 2) == 65536 && Pow(256, 3) == 0x100_0000
    ensures Pow(256, 4) == 0x1_0000_0000 && Pow(256, 5) == 0x100_0000_0000
    ensures Pow(256, 6) == 0x1_0000_0000_0000 && Pow(256, 7) == 0x100_0000_0000_0000
    ensures Pow(256, 8) == 0x1_0000_0000_0000_0000
  {
  }

  lemma EightBytes(s: seq<int>)
    requires |s| >= 8
    ensures Val(s, 256, 8) == s[0] + 0x100 * s[1] + 0x1_0000 * s[2] + 0x100_0000 * s[3] + 0x1_0000_0000 * s[4]
                              + 0x100_0000_0000 * s[5] + 0x1_0000_0000_0000 * s[6] + 0x100_0000_0000_0000 * s[7]
  {
    SmallPowers();
    assert Val(s, 256, 1) == Val(s, 256, 0) + s[0];
    assert Val(s, 256, 2) == Val(s, 256, 1) + 0x100 * s[1];
    assert Val(s, 256, 3) == Val(s, 256, 2) + 0x1_0000 * s[2];
    assert Val(s, 256, 4) == Val(s, 256, 3) + 0x100_0000 * s[3];
    assert Val(s, 256, 5) == Val(s, 256, 4) + 0x1_0000_0000 * s[4];
    assert Val(s, 256, 6) == Val(s, 256, 5) + 0x100_0000_0000 * s[5];
    assert Val(s, 256, 7) == Val(s, 256, 6) + 0x1_0000_0000_0000 * s[6];
  }

  ghost predicate OrderTable(l: seq<int>) {
    && |l| == 32 && l[0] == 0xed && l[1] == 0xd3 && l[2] == 0xf5 && l[3] == 0x5c
    && l[4] == 0x1a && l[5] == 0x63 && l[6] == 0x12 && l[7] == 0x58
    && l[8] == 0xd6 && l[9] == 0x9c && l[10] == 0xf7 && l[11] == 0xa2
    && l[12] == 0xde && l[13] == 0xf9 && l[14] == 0xde && l[15] == 0x14
    && (forall i :: 16 <= i < 31 ==> l[i] == 0) && l[31] == 0x10
  }

  /** All the inner loop needs to know of the table. */
  ghost predicate SparseBytes(l: seq<int>) {
    |l| == 32 && forall i :: 0 <= i < 32 ==> 0 <= l[i] < 256 && (16 <= i < 31 ==> l[i] == 0)
  }

  lemma OrderSparse(l: seq<int>)
    requires OrderTable(l)
    ensures SparseBytes(l)
  {
  }

  lemma OrderLow(l: seq<int>)
    requires OrderTable(l)
    ensures Val(l, 256, 16) == ORDER_LOW
  {
    EightBytes(l);
    EightBytes(l[8..]);
    ValSplit(l, 256, 8, 8);
    SmallPowers();
  }

  /** The byte table is the order, and its top is one bit at 2^252. */
  lemma OrderBytes(l: seq<int>)
    requires OrderTable(l)
    ensures Val(l, 256, 20) == ORDER_LOW && Val(l, 256, 31) == ORDER_LOW && Val(l, 256, 32) == ORDER
  {
    OrderLow(l);
    ValTail(l, 256, 16, 20);
    ValTail(l, 256, 16, 31);
    TopPowers();
  }

  lemma TopPowers()
    ensures Pow(256, 31) == TWO248 && 16 * TWO248 == ORDER - ORDER_LOW && Pow(256, 32) == TWO256 == 256 * TWO248
  {
    SmallPowers();
    PowAdd(256, 8, 8);
    PowAdd(256, 16, 16);
    assert Pow(256, 32) == 256 * Pow(256, 31);
  }

  /** The order of the base point: 2^252 and a number of 125 bits. */
  lemma OrderIs(n: nat)
    requires n == 31
    ensures ORDER == 16 * Pow(256, n) + 27742317777372353535851937790883648493
  {
    TopPowers();
  }

  // ---- one limb from the top ---------------------------------------------------

  /** The number goal minus m * (first t bytes of l) * 256^base, with carry c
      still to be added at limb base + t. */
  ghost predicate Running(y: seq<int>, l: seq<int>, base: nat, t: nat, c: int, m: int, goal: int)
    requires |y| == 64 && |l| == 32 && t <= 20
  {
    Val(y, 256, 64) + c * Pow(256, base + t) == goal - m * (Val(l, 256, t) * Pow(256, base))
  }

  lemma RunStart(y: seq<int>, l: seq<int>, base: nat, m: int)
    requires |y| == 64 && |l| == 32
    ensures Running(y, l, base, 0, 0, m, Val(y, 256, 64))
  {
    assert m * (0 * Pow(256, base)) == 0;
  }

  /** A limb takes the carry in and gives up m times a byte of the order; the rounded carry is
      then taken out of it. */
  lemma FoldStep(s: seq<int>, l: seq<int>, base: nat, t: nat, c: int, c': int, m: int, v: int, goal: int)
    requires |s| == 64 && |l| == 32 && t < 20 && base + t < 64
    requires v == s[base + t] + c - m * l[t] - 256 * c'
    requires Running(s, l, base, t, c, m, goal)
    ensures Running(s[base + t := v], l, base, t + 1, c', m, goal)
  {
    ValUpdate(s, 256, 64, base + t, v);
    PowAdd(256, base, t);
    FoldTerm(Val(s, 256, 64), c, c', m, l[t], Pow(256, base), Pow(256, t), Val(l, 256, t));
  }

  lemma FoldTerm(v: int, c: int, c': int, m: int, d: int, p: int, q: int, lo: int)
    ensures v + (c - m * d - 256 * c') * (p * q) + c' * (256 * (p * q)) + m * ((lo + d * q) * p)
            == v + c * (p * q) + m * (lo * p)
  {
    assert (c - m * d - 256 * c') * (p * q) == c * (p * q) - (m * d) * (p * q) - 256 * (c' * (p * q));
    assert (m * d) * (p * q) == m * ((d * q) * p);
    assert m * ((lo + d * q) * p) == m * (lo * p) + m * ((d * q) * p);
  }

  /** What is known about the running carry after t limbs. */
  predicate CarryWithin(c: int, t: int, small: bool) {
    && -0x800_0000 <= c <= 0x800_0000
    && (t == 17 ==> -0x10_0000 <= c <= 0x10_0000)
    && (t >= 18 ==> -0x4000 <= c <= 0x4000)
    && (t == 18 && small ==> -4200 <= c <= 4200)
    && (t == 19 && small ==> -18 <= c <= 18)
    && (t >= 20 && small ==> -1 <= c <= 1)
  }

  lemma CarryNext(x: int, c: int, m: int, d: int, t: int, small: bool)
    requires 0 <= t < 20 && CarryWithin(c, t, small) && -0x20_0000 <= x <= 0x20_0000
    requires -0x400_0000 <= m <= 0x400_0000 && 0 <= d < 256 && (t >= 16 ==> d == 0)
    requires t >= 16 && small ==> -128 <= x <= 128
    ensures var y := x + c - m * d;
            -0x10_0000_0000 <= m * d <= 0x10_0000_0000 && CarryWithin((y + 128) / 256, t + 1, small)
  {
    MulMonotone(-0x400_0000, m, d);
    MulMonotone(m, 0x400_0000, d);
    assert -0x400_0000 * 255 <= m * d <= 0x400_0000 * 255;
  }

  /** The body of the inner loop, for m = 16 x[i] and d = L[t]. */
  method FoldOne(x: array<i64>, j: nat, m: i64, d: int, carry: i64, ghost small: bool, ghost t: nat) returns (next: i64)
    requires x.Length == 64 && j < 64 && t < 20 && CarryWithin(carry, t, small) && -0x20_0000 <= x[j] <= 0x20_0000
    requires -0x400_0000 <= m <= 0x400_0000 && 0 <= d < 256 && (t >= 16 ==> d == 0)
    requires t >= 16 && small ==> -128 <= x[j] <= 128
    modifies x
    ensures x[..] == old(x[..])[j := x[j]] && -128 <= x[j] <= 127
    ensures x[j] as int == old(x[j]) as int + carry as int - m * d - 256 * next as int
    ensures CarryWithin(next, t + 1, small)
  {
    CarryNext(x[j], carry, m, d, t, small);
    x[j] := x[j] + (carry - m * d);
    next := (x[j] + 128) / 256;
    x[j] := x[j] - next * 256;
  }

  /** The inner loop over j = base .. base + 19, with m = 16 x[i]: twenty limbs
      lose m times the low bytes of the order, with rounded carries. */
  method FoldRun(x: array<i64>, base: nat, m: i64, l: seq<int>) returns (carry: i64)
    requires x.Length == 64 && base + 32 < 64 && SparseBytes(l)
    requires -0x400_0000 <= m <= 0x400_0000
    requires forall k :: base <= k < base + 20 ==> -0x20_0000 <= x[k] <= 0x20_0000
    modifies x
    ensures forall k :: 0 <= k < 64 && (k < base || base + 20 <= k) ==> x[k] == old(x[k])
    ensures forall k :: base <= k < base + 20 ==> -128 <= x[k] <= 127
    ensures CarryWithin(carry, 20, old(Small(x[..], base)))
    ensures Running(x[..], l, base, 20, carry, m, old(Val(x[..], 256, 64)))
  {
    ghost var s: seq<int> := x[..];
    ghost var small, v := Small(s, base), Val(s, 256, 64);
    carry := 0;
    RunStart(s, l, base, m);
    for t := 0 to 20
      invariant forall k :: 0 <= k < 64 && (k < base || base + t <= k) ==> x[k] == s[k]
      invariant forall k :: base <= k < base + t ==> -128 <= x[k] <= 127
      invariant CarryWithin(carry, t, small)
      invariant Running(x[..], l, base, t, carry, m, v)
    {
      ghost var before: seq<int>, c := x[..], carry;
      carry := FoldOne(x, base + t, m, l[t], carry, small, t);
      FoldStep(before, l, base, t, c, carry, m, x[base + t], v);
    }
  }

  /** The limbs that meet the zero bytes of the order are already small. */
  ghost predicate Small(s: seq<int>, base: nat)
    requires |s| == 64 && base + 20 <= 64
  {
    forall k :: base + 16 <= k < base + 20 ==> -128 <= s[k] <= 128
  }

  /** Limb i times 256^i is exchanged for a multiple of the order: the body of
      the first loop of modL. */
  method FoldLimb(x: array<i64>, i: nat, l: seq<int>)
    requires x.Length == 64 && 32 <= i < 64 && OrderTable(l)
    requires -0x40_0000 <= x[i] <= 0x40_0000
    requires forall k :: i - 32 <= k <= i - 12 ==> -0x20_0000 <= x[k] <= 0x20_0000
    modifies x
    ensures x[i] == 0
    ensures forall k :: 0 <= k < 64 && (k < i - 32 || (i - 12 < k && k != i)) ==> x[k] == old(x[k])
    ensures forall k :: i - 32 <= k < i - 12 ==> -128 <= x[k] <= 127
    ensures -0x4000 <= x[i - 12] as int - old(x[i - 12]) as int <= 0x4000
    ensures old(Small(x[..], i - 32)) ==> -1 <= x[i - 12] as int - old(x[i - 12]) as int <= 1
    ensures Val(x[..], 256, 64) % ORDER == old(Val(x[..], 256, 64)) % ORDER
  {
    ghost var s: seq<int> := x[..];
    OrderSparse(l);
    var carry := FoldRun(x, i - 32, 16 * x[i], l);
    ghost var y: seq<int> := x[..];
    x[i - 12] := x[i - 12] + carry;
    x[i] := 0;
    assert x[..] == y[i - 12 := s[i - 12] + carry][i := 0];
    FoldEnd(y, s[i], carry, l, i, Val(s, 256, 64));
    FoldResidue(Val(s, 256, 64), Val(x[..], 256, 64), 16 * s[i], Pow(256, i - 32));
  }

  lemma FoldEnd(y: seq<int>, d: int, carry: int, l: seq<int>, i: nat, v: int)
    requires |y| == 64 && 32 <= i < 64 && OrderTable(l) && y[i] == d
    requires Running(y, l, i - 32, 20, carry, 16 * d, v)
    ensures Val(y[i - 12 := y[i - 12] + carry][i := 0], 256, 64) == v - (16 * d) * (ORDER * Pow(256, i - 32))
  {
    var z := y[i - 12 := y[i - 12] + carry];
    ValUpdate(y, 256, 64, i - 12, y[i - 12] + carry);
    ValUpdate(z, 256, 64, i, 0);
    FoldTop(d, l, i);
  }

  lemma FoldResidue(v: int, v': int, m: int, w: int)
    requires v' == v - m * (ORDER * w)
    ensures v' % ORDER == v % ORDER
  {
    assert m * (ORDER * w) == (m * w) * ORDER;
    ModShift(v, -(m * w), ORDER);
  }

  lemma FoldTop(d: int, l: seq<int>, i: nat)
    requires OrderTable(l) && i >= 32
    ensures (16 * d) * (Val(l, 256, 20) * Pow(256, i - 32)) + d * Pow(256, i) == (16 * d) * (ORDER * Pow(256, i - 32))
  {
    OrderBytes(l);
    TopPowers();
    PowAdd(256, 32, i - 32);
    var w := Pow(256, i - 32);
    assert TWO256 == 16 * (ORDER - ORDER_LOW);
    assert d * (TWO256 * w) == (16 * d) * ((ORDER - ORDER_LOW) * w);
    assert (16 * d) * (ORDER_LOW * w) + (16 * d) * ((ORDER - ORDER_LOW) * w) == (16 * d) * (ORDER * w);
  }

  // ---- all the high limbs ------------------------------------------------------

  ghost predicate Between(s: seq<int>, lo: int, hi: int, bound: int)
    requires |s| == 64 && 0 <= lo && hi <= 64
  {
    forall k :: lo <= k < hi ==> -bound <= s[k] <= bound
  }

  /** The shape of the limbs before limb i - 1 is folded. */
  ghost predicate Shape(s: seq<int>, i: nat)
    requires |s| == 64 && 32 <= i <= 64
  {
    && Between(s, 0, i - 12, 0x20_0000) && Between(s, 0, 64, 0x20_4000)
    && (i < 64 ==> Between(s, i - 32, i - 12, 128))
    && Between(s, i - 12, 51, 129)
    && forall k :: i <= k < 64 ==> s[k] == 0
  }

  lemma ShapeNext(s: seq<int>, t: seq<int>, i: nat)
    requires |s| == |t| == 64 && 32 <= i < 64 && Shape(s, i + 1)
    requires t[i] == 0
    requires forall k :: 0 <= k < 64 && (k < i - 32 || (i - 12 < k && k != i)) ==> t[k] == s[k]
    requires forall k :: i - 32 <= k < i - 12 ==> -128 <= t[k] <= 127
    requires -0x4000 <= t[i - 12] - s[i - 12] <= 0x4000
    requires Small(s, i - 32) ==> -1 <= t[i - 12] - s[i - 12] <= 1
    ensures Shape(t, i)
  {
    if i < 63 {
      assert Small(s, i - 32);
      assert -128 <= s[i - 12] <= 128;
    }
    assert -0x20_0000 <= s[i - 12] <= 0x20_0000;
  }

  /** The first loop of modL: the number keeps its residue and moves into the
      low 32 limbs, each at most 129 in magnitude. */
  method FoldAll(x: array<i64>, l: seq<int>)
    requires x.Length == 64 && OrderTable(l) && Between(x[..], 0, 64, 0x20_0000)
    modifies x
    ensures Between(x[..], 0, 32, 129) && forall k :: 32 <= k < 64 ==> x[k] == 0
    ensures Val(x[..], 256, 64) % ORDER == old(Val(x[..], 256, 64)) % ORDER
  {
    for i := 64 downto 32
      invariant Shape(x[..], i)
      invariant Val(x[..], 256, 64) % ORDER == old(Val(x[..], 256, 64)) % ORDER
    {
      ghost var s: seq<int> := x[..];
      assert -0x20_4000 <= s[i] <= 0x20_4000;
      assert forall k :: i - 32 <= k <= i - 12 ==> -0x20_0000 <= s[k] <= 0x20_0000;
      FoldLimb(x, i, l);
      ShapeNext(s, x[..], i);
    }
  }

  // ---- the last multiple of the order --------------------------------------------

  /** A number minus its top quotient times L lies strictly between -L and L. */
  lemma TopQuotient(s: seq<int>, l: seq<int>)
    requires |s| == 64 && OrderTable(l) && Between(s, 0, 32, 129)
    ensures -ORDER < Val(s, 256, 32) - (s[31] / 16) * ORDER < ORDER
  {
    SmallDigits(s, 31);
    TopPowers();
    TopBound(Val(s, 256, 31), s[31]);
    assert Val(s, 256, 32) == Val(s, 256, 31) + s[31] * Pow(256, 31);
  }

  lemma TopBound(low: int, d: int)
    requires -129 <= d <= 129 && -129 * (TWO248 - 1) <= 255 * low <= 129 * (TWO248 - 1)
    ensures -ORDER < low + d * TWO248 - (d / 16) * ORDER < ORDER
  {
  }

  lemma {:induction false} SmallDigits(s: seq<int>, n: nat)
    requires |s| == 64 && n <= 32 && Between(s, 0, 32, 129)
    ensures -129 * (Pow(256, n) - 1) <= 255 * Val(s, 256, n) <= 129 * (Pow(256, n) - 1)
  {
    if n > 0 {
      SmallDigits(s, n - 1);
      PowPositive(256, n - 1);
      var w := Pow(256, n - 1);
      MulMonotone(-129, s[n - 1], w);
      MulMonotone(s[n - 1], 129, w);
    }
  }

  /** carry, q * L and digits: x minus q * L in proper bytes and a sign. */
  method SubtractTop(x: array<i64>, l: seq<int>) returns (carry: i64)
    requires x.Length == 64 && OrderTable(l) && Between(x[..], 0, 32, 129)
    modifies x
    ensures carry == 0 || carry == -1
    ensures Digits(x[..], 256, 32) && forall k :: 32 <= k < 64 ==> x[k] == old(x[k])
    ensures Val(x[..], 256, 32) + carry * TWO256 == old(Val(x[..], 256, 32) - (x[31] / 16) * ORDER)
  {
    ghost var s: seq<int>, q := x[..], x[31] / 16;
    assert -129 <= s[31] <= 129;
    OrderSparse(l);
    carry := 0;
    for j := 0 to 32
      invariant -16 <= carry <= 16
      invariant forall k :: j <= k < 64 ==> x[k] == s[k]
      invariant forall k :: 0 <= k < j ==> 0 <= x[k] < 256
      invariant Val(x[..], 256, j) + carry * Pow(256, j) == Val(s, 256, j) - q * Val(l, 256, j)
    {
      ghost var before: seq<int>, c := x[..], carry;
      assert x[31] == s[31] && -129 <= s[j] <= 129 && 0 <= l[j] < 256;
      MulMonotone(-9, q, l[j]);
      MulMonotone(q, 8, l[j]);
      x[j] := x[j] + (carry - (x[31] / 16) * l[j]);
      ghost var u: int := x[j];
      carry := x[j] / 256;
      x[j] := x[j] % 256;
      assert x[..] == before[j := u % 256];
      ByteOut(before, s, l, j, c, q, u);
    }
    OrderBytes(l);
    TopPowers();
    TopQuotient(s, l);
    ValBound(x[..], 256, 32);
  }

  lemma ByteOut(y: seq<int>, s: seq<int>, l: seq<int>, j: nat, c: int, q: int, u: int)
    requires j < |y| && j < |s| && j < |l| && u == s[j] + c - q * l[j]
    requires Val(y, 256, j) + c * Pow(256, j) == Val(s, 256, j) - q * Val(l, 256, j)
    ensures Val(y[j := u % 256], 256, j + 1) + (u / 256) * Pow(256, j + 1) == Val(s, 256, j + 1) - q * Val(l, 256, j + 1)
  {
    ValSame(y, y[j := u % 256], 256, j);
    ByteTerm(Val(y, 256, j), Val(s, 256, j), Val(l, 256, j), s[j], c, q, l[j], Pow(256, j));
  }

  lemma ByteTerm(v: int, a: int, b: int, d: int, c: int, q: int, e: int, w: int)
    requires v + c * w == a - q * b
    ensures var u := d + c - q * e;
            v + (u % 256) * w + (u / 256) * (256 * w) == a + d * w - q * (b + e * w)
  {
    var u := d + c - q * e;
    assert (u % 256) * w + (u / 256) * (256 * w) == u * w;
    assert u * w == d * w + c * w - (q * e) * w;
    assert q * (b + e * w) == q * b + (q * e) * w;
  }

  // ---- the result ------------------------------------------------------------------

  /** Add the order back when the carry is -1. */
  method AddBack(x: array<i64>, l: seq<int>, carry: i64)
    requires x.Length == 64 && OrderTable(l) && (carry == 0 || carry == -1) && Digits(x[..], 256, 32)
    modifies x
    ensures forall k :: 0 <= k < 32 ==> 0 <= x[k] <= 510
    ensures forall k :: 32 <= k < 64 ==> x[k] == old(x[k])
    ensures Val(x[..], 256, 32) == old(Val(x[..], 256, 32)) - carry * ORDER
  {
    ghost var s: seq<int> := x[..];
    OrderSparse(l);
    for j := 0 to 32
      invariant forall k :: 0 <= k < j ==> x[k] == (if carry == 0 then s[k] else s[k] + l[k]) && 0 <= x[k] <= 510
      invariant forall k :: j <= k < 64 ==> x[k] == s[k]
    {
      assert 0 <= s[j] < 256 && 0 <= l[j] < 256;
      assert carry * l[j] == if carry == 0 then 0 else -l[j];
      x[j] := x[j] - carry * l[j];
    }
    if carry == 0 {
      ValSame(x[..], s, 256, 32);
    } else {
      ValLinear(x[..], s, l, 1, 256, 32);
      OrderBytes(l);
    }
  }

  /** The last loop: carry once more and store the low bytes. */
  method StoreReduced(r: array<byte>, at: nat, x: array<i64>)
    requires x.Length == 64 && at + 32 <= r.Length && x[32] == 0
    requires forall k :: 0 <= k < 32 ==> 0 <= x[k] <= 510
    modifies r, x
    ensures r[..at] == old(r[..at]) && r[at + 32..] == old(r[at + 32..])
    ensures Val(r[at..at + 32], 256, 32) == old(Val(x[..], 256, 32)) % TWO256
  {
    ghost var z: seq<int>, d: seq<int> := x[..], [];
    for i := 0 to 32
      invariant |d| == i && Digits(d, 256, i)
      invariant r[..at] == old(r[..at]) && r[at + 32..] == old(r[at + 32..])
      invariant forall k :: 0 <= k < i ==> r[at + k] == d[k]
      invariant forall k :: i < k <= 32 ==> x[k] == z[k]
      invariant 0 <= x[i] - z[i] as int <= 2
      invariant Val(d, 256, i) + (x[i] - z[i] as int) * Pow(256, i) == Val(z, 256, i)
    {
      ghost var u, c: int := x[i], x[i] - z[i] as int;
      x[i + 1] := x[i + 1] + x[i] / 256;
      r[at + i] := x[i] % 256;
      StoreStep(d, z, i, u, c);
      d := d + [u % 256];
    }
    TopPowers();
    ValSame(r[at..at + 32], d, 256, 32);
    ValBound(d, 256, 32);
    ModUnique(Val(z, 256, 32), x[32], Val(d, 256, 32), TWO256);
  }

  lemma StoreStep(d: seq<int>, z: seq<int>, i: nat, u: int, c: int)
    requires |d| == i && i < |z| && u == z[i] + c
    requires Val(d, 256, i) + c * Pow(256, i) == Val(z, 256, i)
    ensures Val(d + [u % 256], 256, i + 1) + (u / 256) * Pow(256, i + 1) == Val(z, 256, i + 1)
  {
    var w := Pow(256, i);
    ValSame(d, d + [u % 256], 256, i);
    assert (u % 256) * w + (u / 256) * (256 * w) == u * w;
    assert u * w == z[i] * w + c * w;
  }

  lemma FinalResidue(v: int, q: int, d: int, carry: int)
    requires carry == 0 || carry == -1
    requires 0 <= d < TWO256 && d + carry * TWO256 == v - q * ORDER && -ORDER < v - q * ORDER < ORDER
    ensures (d - carry * ORDER) % TWO256 == v % ORDER
  {
    if carry == 0 {
      ModUnique(v, q, d, ORDER);
      ModUnique(d, 0, d, TWO256);
    } else {
      var y := v - q * ORDER;
      ModUnique(v, q - 1, y + ORDER, ORDER);
      ModUnique(d + ORDER, 1, y + ORDER, TWO256);
    }
  }

  /** modL: 32 bytes holding the residue in [0, L) of the number in x. */
  method ModL(r: array<byte>, at: nat, x: array<i64>)
    requires x.Length == 64 && at + 32 <= r.Length && Between(x[..], 0, 64, 0x20_0000)
    modifies r, x
    ensures r[..at] == old(r[..at]) && r[at + 32..] == old(r[at + 32..])
    ensures Val(r[at..at + 32], 256, 32) == old(Val(x[..], 256, 64)) % ORDER
  {
    assert OrderTable(L);
    FoldAll(x, L);
    ghost var s: seq<int> := x[..];
    ValTail(s, 256, 32, 64);
    TopQuotient(s, L);
    var carry := SubtractTop(x, L);
    ghost var d := Val(x[..], 256, 32);
    ValBound(x[..], 256, 32);
    TopPowers();
    FinalResidue(Val(s, 256, 64), s[31] / 16, d, carry);
    AddBack(x, L, carry);
    StoreReduced(r, at, x);
  }

  /** reduce: a 64-byte digest becomes its residue, followed by zeros. */
  method Reduce(r: array<byte>)
    requires r.Length == 64
    modifies r
    ensures Val(r[..32], 256, 32) == old(Val(r[..], 256, 64)) % ORDER
    ensures forall k :: 32 <= k < 64 ==> r[k] == 0
  {
    var x := new i64[64];
    for i := 0 to 64
      invariant r[..] == old(r[..])
      invariant forall k :: 0 <= k < i ==> x[k] == r[k]
    {
      x[i] := r[i];
    }
    ghost var s: seq<int> := x[..];
    ValSame(s, r[..], 256, 64);
    for i := 0 to 64
      invariant x[..] == s
      invariant forall k :: 0 <= k < i ==> r[k] == 0
    {
      r[i] := 0;
    }
    ModL(r, 0, x);
    assert r[0..32] == r[..32];
    assert r[32..][0] == 0 by { assert r[32..] == r[0 + 32..]; }
  }

  lemma ByteProduct(x: byte, y: byte)
    ensures 0 <= x * y <= 65025
  {
    MulMonotone(x, 255, y);
    MulMonotone(0, x, y);
  }

  /** x := r + h * d in unreduced limbs, as crypto_sign accumulates it. */
  method MulAccumulate(r: array<byte>, h: array<byte>, d: array<byte>) returns (x: array<i64>)
    requires r.Length == h.Length == d.Length == 64
    ensures fresh(x) && x.Length == 64 && Between(x[..], 0, 64, 0x20_0000)
    ensures Val(x[..], 256, 64) == Val(r[..32], 256, 32) + Val(h[..32], 256, 32) * Val(d[..32], 256, 32)
  {
    ghost var hs: seq<int>, ds: seq<int>, start := h[..32], d[..32], Val(r[..32], 256, 32);
    x := StartSum(r);
    for i := 0 to 32
      invariant forall k :: 0 <= k < 64 ==> 0 <= x[k] <= 255 + 65025 * i
      invariant Val(x[..], 256, 64) == start + Val(hs, 256, i) * Val(ds, 256, 32)
    {
      for j := 0 to 32
        invariant forall k :: 0 <= k < i + j ==> 0 <= x[k] <= 255 + 65025 * (i + 1)
        invariant forall k :: i + j <= k < 64 ==> 0 <= x[k] <= 255 + 65025 * i
        invariant ProductAt(x[..], hs, ds, 256, i, j, start)
      {
        ByteProduct(h[i], d[j]);
        assert h[i] == hs[i] && d[j] == ds[j];
        ghost var before: seq<int> := x[..];
        ProductStep(before, hs, ds, 256, i, j, start);
        x[i + j] := x[i + j] + h[i] as int * d[j] as int;
        assert x[..] == before[i + j := before[i + j] + hs[i] * ds[j]];
      }
      ProductRow(x[..], hs, ds, 256, i, start);
    }
  }

  method StartSum(r: array<byte>) returns (x: array<i64>)
    requires r.Length == 64
    ensures fresh(x) && x.Length == 64 && forall k :: 0 <= k < 64 ==> 0 <= x[k] <= 255
    ensures Val(x[..], 256, 64) == Val(r[..32], 256, 32)
  {
    x := new i64[64];
    for i := 0 to 64
      invariant forall k :: 0 <= k < i ==> x[k] == 0
    {
      x[i] := 0;
    }
    for i := 0 to 32
      invariant forall k :: 32 <= k < 64 ==> x[k] == 0
      invariant forall k :: 0 <= k < i ==> x[k] == r[k] && 0 <= x[k] <= 255
    {
      x[i] := r[i];
    }
    ValSame(x[..], r[..32], 256, 32);
    ValTail(x[..], 256, 32, 64);
  }

  /** The second half of a signature: (r + h * d) mod L in 32 bytes. */
  method SignScalar(sm: array<byte>, at: nat, r: array<byte>, h: array<byte>, d: array<byte>)
    requires at + 32 <= sm.Length && r.Length == h.Length == d.Length == 64
    modifies sm
    ensures sm[..at] == old(sm[..at]) && sm[at + 32..] == old(sm[at + 32..])
    ensures Val(sm[at..at + 32], 256, 32)
            == old((Val(r[..32], 256, 32) + Val(h[..32], 256, 32) * Val(d[..32], 256, 32)) % ORDER)
  {
    var x := MulAccumulate(r, h, d);
    ModL(sm, at, x);
  }
}
