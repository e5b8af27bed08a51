/** Poly1305 (section 2.5 of RFC 8439): the bignum accumulator, and the
    17-limb radix-2^8 form with lazy carries that computes the same tag. */
module Poly1305 {
  import opened Limbs
  import opened ModArith
  import opened Machine
  import opened Octets

  const P: int := 0x3_FFFFFFFF_FFFFFFFF_FFFFFFFF_FFFFFFFB
  const TWO128: int := 0x1_00000000_00000000_00000000_00000000

  // ---- the tag ------------------------------------------------------------

  /** A block with its final 1 byte, as a number. */
  ghost function BlockNum(block: seq<byte>): int {
    Val(block + [1], 256, |block| + 1)
  }

  function MulAdd(acc: int, block: int, r: int): (n: nat) {
    ((acc + block) * r) % P
  }

  /** The accumulator after all of msg. */
  ghost function Absorb(msg: seq<byte>, r: int): int {
    if msg == [] then 0
    else
      var full := (|msg| - 1) / 16 * 16;
      MulAdd(Absorb(msg[..full], r), BlockNum(msg[full..]), r)
  }

  ghost function ClampR(key: seq<byte>): int
    requires |key| == 32
  {
    And(Val(key, 256, 16), 0x0FFFFFFC_0FFFFFFC_0FFFFFFC_0FFFFFFF, 128)
  }

  /** The number whose 16 little-endian bytes are the tag. */
  ghost function TagNum(msg: seq<byte>, key: seq<byte>): int
    requires |key| == 32
  {
    (Absorb(msg, ClampR(key)) + Val(key[16..], 256, 16)) % TWO128
  }

  /** The tag itself. */
  ghost function Tag(msg: seq<byte>, key: seq<byte>): (t: seq<byte>)
    requires |key| == 32
    ensures |t| == 16
  {
    ToBytes(TagNum(msg, key), 16)
  }

  // ---- the bignum form ------------------------------------------------------

  function ToBytes(x: nat, n: nat): (r: seq<byte>)
    ensures |r| == n
    decreases n, x
  {
    if n == 0 then [] else [x % 256] + ToBytes(x / 256, n - 1)
  }

  lemma {:induction false} ToBytesVal(x: nat, n: nat)
    requires x < Pow(256, n)
    ensures Val(ToBytes(x, n), 256, n) == x
  {
    if n > 0 {
      var rest := ToBytes(x / 256, n - 1);
      ToBytesVal(x / 256, n - 1);
      var s: seq<int> := ToBytes(x, n);
      ValSplit(s, 256, 1, n - 1);
      assert s[1..] == rest;
      assert Val(s, 256, 1) == Val(s, 256, 0) + s[0] * Pow(256, 0);
      assert Pow(256, 1) == 256;
    }
  }

  function FromBytes(s: seq<byte>): (r: nat)
    ensures r == Val(s, 256, |s|)
  {
    if s == [] then 0
    else
      var lo: int := FromBytes(s[..|s| - 1]);
      ValSame(s[..|s| - 1], s, 256, |s| - 1);
      PowPositive(256, |s| - 1);
      lo + s[|s| - 1] as int * Pow(256, |s| - 1)
  }

  function Min(x: int, y: int): int { if x < y then x else y }

  /** Absorbing the block that starts at i. */
  lemma AbsorbBlock(msg: seq<byte>, r: int, i: nat)
    requires i < |msg| && i % 16 == 0
    ensures var end := Min(i + 16, |msg|);
            Absorb(msg[..end], r) == MulAdd(Absorb(msg[..i], r), BlockNum(msg[i..end]), r)
  {
    var end := Min(i + 16, |msg|);
    var part := msg[..end];
    assert (|part| - 1) / 16 * 16 == i;
    assert part[..i] == msg[..i] && part[i..] == msg[i..end];
  }

  /** One pass of the loop over 16-byte slices. */
  method AbsorbSlice(msg: seq<byte>, r: nat, i: nat, acc: nat) returns (next: nat)
    requires i < |msg| && i % 16 == 0 && acc == Absorb(msg[..i], r)
    ensures next == Absorb(msg[..Min(i + 16, |msg|)], r)
  {
    AbsorbBlock(msg, r, i);
    var block := FromBytes(msg[i..Min(i + 16, |msg|)] + [1]);
    next := MulAdd(acc, block, r);
  }

  /** The loop over 16-byte slices with unbounded integers. */
  method AbsorbBignum(msg: seq<byte>, r: nat) returns (acc: nat)
    ensures acc == Absorb(msg, r)
  {
    acc := 0;
    var i := 0;
    while i < |msg|
      invariant 0 <= i && i % 16 == 0
      invariant acc == Absorb(msg[..Min(i, |msg|)], r)
      decreases |msg| - i
    {
      acc := AbsorbSlice(msg, r, i, acc);
      i := i + 16;
    }
    assert msg[..|msg|] == msg;
  }

  method Poly1305Bignum(msg: seq<byte>, key: seq<byte>) returns (tag: seq<byte>)
    requires |key| == 32
    ensures tag == Tag(msg, key)
  {
    AndNat(FromBytes(key[..16]), 0x0FFFFFFC_0FFFFFFC_0FFFFFFC_0FFFFFFF, 128);
    var r := And(FromBytes(key[..16]), 0x0FFFFFFC_0FFFFFFC_0FFFFFFC_0FFFFFFF, 128);
    ValSame(key[..16], key, 256, 16);
    var s := FromBytes(key[16..]);
    var acc := AbsorbBignum(msg, r);
    var sum := (acc + s) % TWO128;
    tag := ToBytes(sum, 16);
  }

  lemma {:induction false} AndNat(x: nat, y: nat, n: nat)
    ensures And(x, y, n) >= 0
    decreases n, x, y
  {
    if n > 0 {
      AndNat(x / 2, y / 2, n - 1);
    }
  }

  lemma Pow256To16()
    ensures Pow(256, 16) == TWO128 && Pow(256, 17) == 256 * TWO128
  {
    assert Pow(256, 4) == 0x1_0000_0000;
    PowAdd(256, 4, 4);
    PowAdd(256, 8, 8);
  }

  // ---- the 17-limb form -------------------------------------------------------

  /** The sum of two numbers in limbs; a carry out of limb 16 is dropped. */
  method Add1305(h: array<u32>, c: array<u32>)
    requires h.Length == c.Length == 17 && h != c
    requires Digits(h[..], 256, 17) && Digits(c[..], 256, 17)
    modifies h
    ensures Digits(h[..], 256, 17)
    ensures Val(h[..], 256, 17) == (old(Val(h[..], 256, 17)) + Val(c[..], 256, 17)) % (256 * TWO128)
  {
    ghost var x: seq<int>, y: seq<int> := h[..], c[..];
    var u: u32 := 0;
    for j := 0 to 17
      invariant c[..] == y && u <= 1
      invariant forall k :: 0 <= k < j ==> 0 <= h[k] < 256
      invariant forall k :: j <= k < 17 ==> h[k] == x[k]
      invariant Val(h[..], 256, j) + u * Pow(256, j) == Val(x, 256, j) + Val(y, 256, j)
    {
      assert 0 <= x[j] < 256 && 0 <= y[j] < 256;
      ghost var before: seq<int> := h[..];
      u := u + h[j] + c[j];
      CarryOut(before, u, j);
      h[j] := u % 256;
      assert h[..] == before[j := u % 256];
      AddLimb(x, y, j, u - x[j] - y[j], u);
      u := u / 256;
    }
    Pow256To16();
    ValBound(h[..], 256, 17);
    ModUnique(Val(x, 256, 17) + Val(y, 256, 17), u, Val(h[..], 256, 17), 256 * TWO128);
  }

  /** Writing u mod 256 into limb j and carrying u / 256 keeps the number. */
  lemma CarryOut(h: seq<int>, u: int, j: nat)
    requires j < |h|
    ensures Val(h[j := u % 256], 256, j + 1) + (u / 256) * Pow(256, j + 1) == Val(h, 256, j) + u * Pow(256, j)
  {
    var w := Pow(256, j);
    ValSame(h, h[j := u % 256], 256, j);
    assert Pow(256, j + 1) == 256 * w;
    assert u * w == (u % 256) * w + (u / 256) * (256 * w) by {
      assert u == u % 256 + (u / 256) * 256;
    }
  }

  lemma AddLimb(x: seq<int>, y: seq<int>, j: nat, c: int, u: int)
    requires j < |x| && j < |y| && u == c + x[j] + y[j]
    ensures Val(x, 256, j) + Val(y, 256, j) + u * Pow(256, j) == Val(x, 256, j + 1) + Val(y, 256, j + 1) + c * Pow(256, j)
  {
    var w := Pow(256, j);
    assert u * w == c * w + x[j] * w + y[j] * w;
  }

  // ---- multiplication by r ---------------------------------------------------

  /** The factor of h[j] in limb i: r shifted up by j, its top limbs folded
      back with weight 320 = 2^136 mod P. */
  function Factor(r: seq<int>, i: nat, j: nat): int
    requires |r| == 17 && i < 17 && j < 17
  {
    if j <= i then r[i - j] else 320 * r[i + 17 - j]
  }

  ghost function Row(h: seq<int>, r: seq<int>, i: nat, n: nat): int
    requires |h| == |r| == 17 && i < 17 && n <= 17
  {
    if n == 0 then 0 else Row(h, r, i, n - 1) + h[n - 1] * Factor(r, i, n - 1)
  }

  lemma Pow17()
    ensures Pow(256, 17) == 64 * P + 320
  {
    Pow256To16();
  }

  /** r shifted up by j limbs differs from its folded form by a multiple of P. */
  lemma FactorNum(r: seq<int>, f: seq<int>, j: nat) returns (k: int)
    requires |r| == |f| == 17 && j < 17
    requires forall i :: 0 <= i < 17 ==> f[i] == Factor(r, i, j)
    ensures Val(f, 256, 17) + k * P == Pow(256, j) * Val(r, 256, 17)
  {
    var hi := r[17 - j..];
    var a, b := Val(hi, 256, j), Val(r, 256, 17 - j);
    FactorParts(r, f, hi, j);
    PowAdd(256, j, 17 - j);
    Pow17();
    k := 64 * a;
    FoldTop(a, b, Pow(256, j), Pow(256, 17 - j));
  }

  lemma FactorParts(r: seq<int>, f: seq<int>, hi: seq<int>, j: nat)
    requires |r| == |f| == 17 && j < 17 && hi == r[17 - j..]
    requires forall i :: 0 <= i < 17 ==> f[i] == Factor(r, i, j)
    ensures Val(f, 256, 17) == 320 * Val(hi, 256, j) + Pow(256, j) * Val(r, 256, 17 - j)
    ensures Val(r, 256, 17) == Val(r, 256, 17 - j) + Pow(256, 17 - j) * Val(hi, 256, j)
  {
    ValSplit(f, 256, j, 17 - j);
    ValSplit(r, 256, 17 - j, j);
    var z := seq(17, i => 0);
    ValZero(z, 256, j);
    ValLinear(f, z, hi, 320, 256, j);
    ValSame(f[j..], r, 256, 17 - j);
  }

  lemma FoldTop(a: int, b: int, w: int, v: int)
    requires w * v == 64 * P + 320
    ensures 320 * a + w * b + (64 * a) * P == w * (b + v * a)
  {
    assert w * (b + v * a) == w * b + (w * v) * a;
    assert (w * v) * a == (64 * a) * P + 320 * a;
  }

  /** The limbs x[i] = sum h[j] * factor hold h * r up to multiples of P. */
  lemma {:induction false} RowsNum(h: seq<int>, r: seq<int>, x: seq<int>, n: nat) returns (k: int)
    requires |h| == |r| == |x| == 17 && n <= 17
    requires forall i :: 0 <= i < 17 ==> x[i] == Row(h, r, i, n)
    ensures Val(x, 256, 17) + k * P == Val(h, 256, n) * Val(r, 256, 17)
    decreases n
  {
    if n == 0 {
      ValZero(x, 256, 17);
      k := 0;
    } else {
      var x' := seq(17, i requires 0 <= i < 17 => Row(h, r, i, n - 1));
      var f := seq(17, i requires 0 <= i < 17 => Factor(r, i, n - 1));
      var k' := RowsNum(h, r, x', n - 1);
      var l := FactorNum(r, f, n - 1);
      ValLinear(x, x', f, h[n - 1], 256, 17);
      k := k' + h[n - 1] * l;
      RowTerm(Val(x', 256, 17), Val(f, 256, 17), h[n - 1], k', l, P, Val(h, 256, n - 1), Pow(256, n - 1), Val(r, 256, 17));
    }
  }

  lemma RowTerm(x: int, f: int, d: int, k: int, l: int, p: int, h: int, w: int, r: int)
    requires x + k * p == h * r && f + l * p == w * r
    ensures x + d * f + (k + d * l) * p == (h + d * w) * r
  {
    assert d * (f + l * p) == d * f + (d * l) * p;
    assert d * (w * r) == (d * w) * r;
  }

  lemma FactorBound(r: seq<int>, i: nat, j: nat, d: int)
    requires |r| == 17 && i < 17 && j < 17 && Digits(r, 256, 17) && 0 <= d < 256
    ensures 0 <= d * Factor(r, i, j) <= 20_808_000
  {
    var f := Factor(r, i, j);
    assert 0 <= f <= 81600;
    MulMonotone(0, d, f);
    MulMonotone(d, 255, f);
  }

  /** The two nested loops and the copy back: h := h * r, limbs unreduced. */
  method MulR(h: array<u32>, r: array<u32>)
    requires h.Length == r.Length == 17 && h != r
    requires Digits(h[..], 256, 17) && Digits(r[..], 256, 17)
    modifies h
    ensures forall k :: 0 <= k < 17 ==> h[k] <= 353_736_000
    ensures Val(h[..], 256, 17) % P == old(Val(h[..], 256, 17) * Val(r[..], 256, 17)) % P
  {
    ghost var hs: seq<int>, rs: seq<int> := h[..], r[..];
    var x := new u32[17];
    for i := 0 to 17
      invariant h[..] == hs && r[..] == rs
      invariant forall k :: 0 <= k < i ==> x[k] == Row(hs, rs, k, 17) <= 353_736_000
    {
      x[i] := 0;
      for j := 0 to 17
        invariant h[..] == hs && r[..] == rs
        invariant forall k :: 0 <= k < i ==> x[k] == Row(hs, rs, k, 17) <= 353_736_000
        invariant x[i] == Row(hs, rs, i, j) <= 20_808_000 * j
      {
        FactorBound(rs, i, j, hs[j]);
        x[i] := x[i] + h[j] * if j <= i then r[i - j] else 320 * r[i + 17 - j];
      }
    }
    ghost var xs: seq<int> := x[..];
    ghost var k := RowsNum(hs, rs, xs, 17);
    ModShift(Val(xs, 256, 17), k, P);
    for i := 0 to 17
      invariant x[..] == xs
      invariant forall k :: 0 <= k < i ==> h[k] == x[k]
    {
      h[i] := x[i];
    }
    assert h[..] == xs;
  }

  // ---- carrying after a multiplication -----------------------------------------

  /** One run of carries through the low sixteen limbs, starting from u0. */
  method CarryRun(h: array<u32>, u0: u32) returns (u: u32)
    requires h.Length == 17 && u0 <= 0x2000_0000
    requires forall k :: 0 <= k < 16 ==> h[k] <= 353_736_000
    modifies h
    ensures Digits(h[..], 256, 16) && h[16] == old(h[16])
    ensures Val(h[..], 256, 16) + u * Pow(256, 16) == old(Val(h[..], 256, 16)) + u0
    ensures u <= 0x40_0000
    ensures old(forall k :: 0 <= k < 16 ==> h[k] <= 255) ==> u <= 1
  {
    ghost var x: seq<int> := h[..];
    ghost var small := forall k :: 0 <= k < 16 ==> h[k] <= 255;
    u := u0;
    for j := 0 to 16
      invariant h[16] == x[16]
      invariant forall k :: 0 <= k < j ==> 0 <= h[k] < 256
      invariant forall k :: j <= k < 17 ==> h[k] == x[k]
      invariant Val(h[..], 256, j) + u * Pow(256, j) == Val(x, 256, j) + u0
      invariant u <= if j == 0 then 0x2000_0000 else 0x40_0000
      invariant small ==> u <= if j == 0 then 0x2000_0000 else if j == 1 then 0x20_0000
                               else if j == 2 then 0x2000 else if j == 3 then 0x20 else 1
    {
      assert 0 <= x[j] <= 353_736_000 && (small ==> x[j] <= 255);
      ghost var before: seq<int> := h[..];
      ghost var c := u;
      u := u + h[j];
      CarryOut(before, u, j);
      h[j] := u % 256;
      assert h[..] == before[j := u % 256];
      CarryLimb(x, j, c, u);
      u := u / 256;
    }
  }

  lemma CarryLimb(x: seq<int>, j: nat, c: int, u: int)
    requires j < |x| && u == c + x[j]
    ensures Val(x, 256, j) + u * Pow(256, j) == Val(x, 256, j + 1) + c * Pow(256, j)
  {
    var w := Pow(256, j);
    assert u * w == c * w + x[j] * w;
  }

  /** The lazy reduction that follows the multiplication: limb 16 keeps two
      bits, the rest of it comes back with weight 5 = 2^130 mod P. */
  method Squeeze(h: array<u32>)
    requires h.Length == 17 && forall k :: 0 <= k < 17 ==> h[k] <= 353_736_000
    modifies h
    ensures Digits(h[..], 256, 16) && h[16] <= 4
    ensures Val(h[..], 256, 17) % P == old(Val(h[..], 256, 17)) % P
  {
    ghost var x: seq<int> := h[..];
    var u := CarryRun(h, 0);
    ghost var x1: seq<int> := h[..];
    u := u + h[16];
    ghost var top := u;
    h[16] := u % 4;
    ghost var x2: seq<int> := h[..];
    ValSame(x1, x2, 256, 16);
    u := 5 * (u / 4);
    u := CarryRun(h, u);
    ghost var x3: seq<int> := h[..];
    u := u + h[16];
    h[16] := u;
    ghost var x4: seq<int> := h[..];
    ValSame(x3, x4, 256, 16);
    LastLimb(x);
    LastLimb(x4);
    Pow256To16();
    SqueezeNum(Val(x, 256, 16), x[16], Val(x1, 256, 16), top, Val(x3, 256, 16), u);
  }

  /** Dropping top / 4 times 2^130 and adding it back five-fold. */
  lemma SqueezeNum(v: int, v16: int, v1: int, top: int, v3: int, u: int)
    requires v1 + (top - v16) * TWO128 == v
    requires v3 + (u - top % 4) * TWO128 == v1 + 5 * (top / 4)
    ensures (v3 + u * TWO128) % P == (v + v16 * TWO128) % P
  {
    ModShift(v3 + u * TWO128, top / 4, P);
  }

  lemma LastLimb(x: seq<int>)
    requires |x| == 17
    ensures Val(x, 256, 17) == Val(x, 256, 16) + x[16] * TWO128
  {
    Pow256To16();
  }

  // ---- clamping -------------------------------------------------------------

  /** & of byte strings, byte by byte. */
  lemma {:induction false} AndBytes(x: seq<int>, y: seq<int>, z: seq<int>, n: nat)
    requires n <= |x| && n <= |y| && n <= |z| && Digits(x, 256, n) && Digits(y, 256, n)
    requires forall k :: 0 <= k < n ==> z[k] == And(x[k], y[k], 8)
    ensures And(Val(x, 256, n), Val(y, 256, n), 8 * n) == Val(z, 256, n)
  {
    if n > 0 {
      AndBytes(x, y, z, n - 1);
      ValBound(x, 256, n - 1);
      ValBound(y, 256, n - 1);
      PowOfBytes(n - 1);
      AndSplit(Val(x, 256, n - 1), Val(y, 256, n - 1), x[n - 1], y[n - 1], 8 * (n - 1), 8);
      ShiftMul(x[n - 1], 8 * (n - 1));
      ShiftMul(y[n - 1], 8 * (n - 1));
      ShiftMul(z[n - 1], 8 * (n - 1));
      assert 8 * (n - 1) + 8 == 8 * n;
    }
  }

  ghost const CLAMP_BYTES: seq<int> :=
    [255, 255, 255, 15, 252, 255, 255, 15, 252, 255, 255, 15, 252, 255, 255, 15]

  lemma ClampMask(s: seq<int>)
    requires s == CLAMP_BYTES
    ensures Val(s, 256, 16) == 0x0FFFFFFC_0FFFFFFC_0FFFFFFC_0FFFFFFF
  {
    ValSplit(s, 256, 8, 8);
    ClampHalf(s);
    ClampHalf(s[8..]);
    assert Pow(256, 4) == 0x1_0000_0000;
    PowAdd(256, 4, 4);
  }

  lemma ClampHalf(s: seq<int>)
    requires |s| >= 8 && s[1] == s[2] == s[5] == s[6] == 255 && s[3] == s[7] == 15 && s[4] == 252
    ensures Val(s, 256, 8) == s[0] + 0x0FFFFFFC_0FFFFF00
  {
    assert Pow(256, 1) == 256 && Pow(256, 2) == 65536 && Pow(256, 3) == 0x100_0000;
    assert Pow(256, 4) == 0x1_0000_0000 && Pow(256, 5) == 0x100_0000_0000;
    assert Pow(256, 6) == 0x1_0000_0000_0000 && Pow(256, 7) == 0x100_0000_0000_0000;
    assert Val(s, 256, 1) == Val(s, 256, 0) + s[0];
    assert Val(s, 256, 2) == s[0] + 0xFF00;
    assert Val(s, 256, 3) == s[0] + 0xFFFF00;
    assert Val(s, 256, 4) == s[0] + 0x0FFFFF00;
    assert Val(s, 256, 5) == s[0] + 0xFC_0FFFFF00;
    assert Val(s, 256, 6) == s[0] + 0xFFFC_0FFFFF00;
    assert Val(s, 256, 7) == s[0] + 0xFFFFFC_0FFFFF00;
  }

  lemma ByteMask(x: byte)
    ensures And(x, 255, 8) == x
  {
    assert Pow(2, 8) == 256;
    AndMask(x, 8);
    AndCommutes(255, x, 8);
  }

  /** One limb of the key loses the bits the clamp clears. */
  method MaskByte(r: array<u32>, i: nat, mask: byte)
    requires r.Length == 17 && i < 17 && r[i] < 256
    modifies r
    ensures r[..] == old(r[..])[i := And(old(r[i]), mask, 8)]
    ensures 0 <= r[i] < 256
  {
    assert Pow(2, 8) == 256;
    AndRange(r[i], mask, 8);
    r[i] := And(r[i], mask, 8);
  }

  /** The seven byte masks of r. */
  method MaskR(r: array<u32>)
    requires r.Length == 17 && Digits(r[..], 256, 17)
    modifies r
    ensures Digits(r[..], 256, 17) && r[16] == old(r[16])
    ensures forall i :: 0 <= i < 16 ==> r[i] == if CLAMP_BYTES[i] == 255 then old(r[i]) else And(old(r[i]), CLAMP_BYTES[i], 8)
  {
    MaskByte(r, 3, 15);
    MaskByte(r, 4, 252);
    MaskByte(r, 7, 15);
    MaskByte(r, 8, 252);
    MaskByte(r, 11, 15);
    MaskByte(r, 12, 252);
    MaskByte(r, 15, 15);
  }

  /** r from the first half of the key, clamped. */
  method LoadR(k: array<byte>, at: nat) returns (r: array<u32>)
    requires at + 32 <= k.Length
    ensures fresh(r) && r.Length == 17 && Digits(r[..], 256, 17)
    ensures Val(r[..], 256, 17) == ClampR(k[at..at + 32])
  {
    ghost var key: seq<byte> := k[at..at + 32];
    r := new u32[17];
    for j := 0 to 17
      invariant forall i :: 0 <= i < j ==> r[i] == 0
    {
      r[j] := 0;
    }
    for j := 0 to 16
      invariant r[16] == 0
      invariant forall i :: 0 <= i < j ==> r[i] == key[i]
      invariant forall i :: 0 <= i < j ==> r[i] < 256
    {
      r[j] := k[at + j];
    }
    MaskR(r);
    ClampedVal(key, r[..]);
  }

  lemma ClampedVal(key: seq<byte>, r: seq<int>)
    requires |key| == 32 && |r| == 17 && r[16] == 0
    requires forall i :: 0 <= i < 16 ==> r[i] == if CLAMP_BYTES[i] == 255 then key[i] else And(key[i], CLAMP_BYTES[i], 8)
    ensures Val(r, 256, 17) == ClampR(key)
  {
    forall i | 0 <= i < 16 ensures r[i] == And(key[i], CLAMP_BYTES[i], 8) {
      ByteMask(key[i]);
    }
    AndBytes(key, CLAMP_BYTES, r, 16);
    ClampMask(CLAMP_BYTES);
  }

  // ---- the end of the tag ------------------------------------------------------

  lemma WordRange()
    ensures Pow(2, 32) == 0x1_0000_0000
  {
    assert Pow(2, 8) == 256;
    PowAdd(2, 8, 8);
    PowAdd(2, 16, 16);
  }

  lemma WordMask(x: u32, y: u32)
    ensures And(0xFFFF_FFFF, Xor(x, y, 32), 32) == Xor(x, y, 32)
    ensures And(0, Xor(x, y, 32), 32) == 0
    ensures Xor(x, Xor(y, x, 32), 32) == y && Xor(x, 0, 32) == x
  {
    WordRange();
    BitsRange(x, 32);
    BitsRange(y, 32);
    XorRange(x, y, 32);
    AndMask(Xor(x, y, 32), 32);
    AndZero(Xor(x, y, 32), 32);
    XorCommutes(y, x, 32);
    XorCancel(x, y, 32);
    XorZero(x, 32);
  }

  lemma MinusP(m: seq<int>)
    requires |m| == 17 && forall k :: 0 <= k < 17 ==> m[k] == if k == 0 then 5 else if k == 16 then 252 else 0
    ensures Val(m, 256, 17) == 256 * TWO128 - P
  {
    var z := seq(17, i => 0);
    ValZero(z, 256, 17);
    ValUpdate(z, 256, 17, 0, 5);
    ValUpdate(z[0 := 5], 256, 17, 16, 252);
    assert m == z[0 := 5][16 := 252];
    Pow256To16();
  }

  /** Bit 7 of limb 16 of h - P mod 2^136 tells h < P. */
  lemma SubtractDecides(x: seq<int>, y: seq<int>)
    requires |x| == |y| == 17 && Digits(x, 256, 17) && x[16] <= 4 && Digits(y, 256, 17)
    requires Val(y, 256, 17) == (Val(x, 256, 17) + 256 * TWO128 - P) % (256 * TWO128)
    ensures (if y[16] / 128 == 0 then Val(y, 256, 17) else Val(x, 256, 17)) == Val(x, 256, 17) % P
  {
    LastLimb(x);
    LastLimb(y);
    Pow256To16();
    ValBound(x, 256, 16);
    ValBound(y, 256, 16);
    var v := Val(x, 256, 17);
    if v < P {
      ModUnique(v + 256 * TWO128 - P, 0, v + 256 * TWO128 - P, 256 * TWO128);
      ModUnique(v, 0, v, P);
    } else {
      ModUnique(v + 256 * TWO128 - P, 1, v - P, 256 * TWO128);
      ModUnique(v, 1, v - P, P);
    }
  }

  /** On every limb: keep h, or take g when the mask is all ones. */
  method MaskedTake(h: array<u32>, g: array<u32>, s: u32)
    requires h.Length == g.Length == 17 && h != g && (s == 0 || s == 0xFFFF_FFFF)
    modifies h
    ensures h[..] == if s == 0 then old(h[..]) else g[..]
  {
    for j := 0 to 17
      invariant g[..] == old(g[..])
      invariant forall k :: 0 <= k < j ==> h[k] == if s == 0 then old(h[k]) else g[k]
      invariant forall k :: j <= k < 17 ==> h[k] == old(h[k])
    {
      WordMask(h[j], g[j]);
      XorCommutes(g[j], h[j], 32);
      WordMask(g[j], h[j]);
      h[j] := Xor(h[j], And(s, Xor(g[j], h[j], 32), 32), 32);
    }
  }

  /** The branch-free final subtraction: h becomes its residue mod P. */
  method FinalReduce(h: array<u32>)
    requires h.Length == 17 && Digits(h[..], 256, 16) && h[16] <= 4
    modifies h
    ensures Digits(h[..], 256, 17) && Val(h[..], 256, 17) == old(Val(h[..], 256, 17)) % P
  {
    ghost var x: seq<int> := h[..];
    var minusp := new u32[17](i => if i == 0 then 5 else if i == 16 then 252 else 0);
    MinusP(minusp[..]);
    ghost var mp := minusp[..];
    var g := new u32[17];
    for j := 0 to 17
      invariant h[..] == x && minusp[..] == mp
      invariant forall k :: 0 <= k < j ==> g[k] == h[k]
    {
      g[j] := h[j];
    }
    assert g[..] == x;
    Add1305(h, minusp);
    ghost var y: seq<int> := h[..];
    SubtractDecides(x, y);
    var s: u32 := (0x1_0000_0000 - h[16] as int / 128) % 0x1_0000_0000;
    MaskedTake(h, g, s);
  }

  // ---- the whole function ------------------------------------------------------

  /** Up to sixteen message bytes and the final 1. */
  method LoadBlock(c: array<u32>, m: array<byte>, at: nat, n: nat) returns (j: nat)
    requires c.Length == 17 && at + n <= m.Length
    modifies c
    ensures j == Min(16, n) && Digits(c[..], 256, 17)
    ensures Val(c[..], 256, 17) == BlockNum(m[at..at + j])
    ensures Val(c[..], 256, 17) <= 2 * TWO128
  {
    for i := 0 to 17
      invariant forall l :: 0 <= l < i ==> c[l] == 0
    {
      c[i] := 0;
    }
    j := 0;
    while j < 16 && j < n
      invariant j <= Min(16, n)
      invariant forall l :: 0 <= l < j ==> c[l] == m[at + l]
      invariant forall l :: j <= l < 17 ==> c[l] == 0
    {
      c[j] := m[at + j];
      j := j + 1;
    }
    c[j] := 1;
    ghost var cs: seq<int> := c[..];
    ghost var block := m[at..at + j];
    ValTail(cs, 256, j + 1, 17);
    ValSame(cs, block + [1], 256, j + 1);
    LastLimb(cs);
    ValBound(cs, 256, 16);
    Pow256To16();
  }

  lemma MulAddCongruent(v: int, acc: int, b: int, r: int)
    requires v % P == acc
    ensures ((v + b) * r) % P == MulAdd(acc, b, r)
  {
    AddMod(v, b, P);
    AddMod(acc, b, P);
    ModUnique(acc, 0, acc, P);
    MulMod(v + b, r, P);
    MulMod(acc + b, r, P);
  }

  lemma LowBytes(h: seq<int>, v: int)
    requires |h| == 17 && Digits(h, 256, 17) && Val(h, 256, 17) == v
    ensures Val(h, 256, 16) == v % TWO128
  {
    LastLimb(h);
    ValBound(h, 256, 16);
    Pow256To16();
    ModUnique(v, h[16], Val(h, 256, 16), TWO128);
  }

  lemma TagBytes(t: seq<byte>, x: nat)
    requires |t| == 16 && Val(t, 256, 16) == x < TWO128
    ensures t == ToBytes(x, 16)
  {
    Pow256To16();
    ToBytesVal(x, 16);
    ValInjective(t, ToBytes(x, 16), 256, 16);
  }

  /** The limbs are below 5 * 2^128 and congruent to the accumulator. */
  ghost predicate Absorbed(h: seq<int>, msg: seq<byte>, r: int) {
    && |h| == 17 && Digits(h, 256, 16) && 0 <= h[16] <= 4
    && Val(h, 256, 17) % P == Absorb(msg, r)
  }

  method ZeroLimbs() returns (h: array<u32>)
    ensures fresh(h) && h.Length == 17 && Digits(h[..], 256, 17) && h[16] == 0 && Val(h[..], 256, 17) == 0
  {
    h := new u32[17];
    for j := 0 to 17
      invariant forall k :: 0 <= k < j ==> h[k] == 0
    {
      h[j] := 0;
    }
    ValZero(h[..], 256, 17);
  }

  lemma NothingAbsorbed(h: seq<int>, r: int)
    requires |h| == 17 && Digits(h, 256, 17) && h[16] == 0 && Val(h, 256, 17) == 0
    ensures Absorbed(h, [], r)
  {
    ModUnique(0, 0, 0, P);
  }

  lemma NextSixteen(pos: nat, n: nat)
    requires pos % 16 == 0 && pos < n
    ensures Min(pos + 16, n) == n || Min(pos + 16, n) % 16 == 0
  {
  }

  /** The loop over the blocks of m[at..at + n]. */
  method AbsorbLimbs(m: array<byte>, at: nat, n: nat, r: array<u32>) returns (h: array<u32>)
    requires at + n <= m.Length && r.Length == 17 && Digits(r[..], 256, 17)
    ensures fresh(h) && h.Length == 17 && Absorbed(h[..], m[at..at + n], Val(r[..], 256, 17))
  {
    ghost var msg: seq<byte>, rv := m[at..at + n], Val(r[..], 256, 17);
    h := ZeroLimbs();
    var c := new u32[17];
    var pos := 0;
    assert msg[..0] == [];
    NothingAbsorbed(h[..], rv);
    while pos < n
      invariant 0 <= pos <= n && (pos == n || pos % 16 == 0)
      invariant Absorbed(h[..], msg[..pos], rv)
      modifies h, c
    {
      NextSixteen(pos, n);
      pos := AbsorbOne(m, at, n, r, h, c, pos, msg, rv);
    }
    assert msg[..n] == msg;
  }

  method AbsorbOne(m: array<byte>, at: nat, n: nat, r: array<u32>, h: array<u32>, c: array<u32>, pos: nat,
                   ghost msg: seq<byte>, ghost rv: int)
    returns (next: nat)
    requires at + n <= m.Length && r.Length == h.Length == c.Length == 17 && h != c && h != r && c != r
    requires pos < n && pos % 16 == 0
    requires Digits(r[..], 256, 17)
    requires msg == m[at..at + n] && rv == Val(r[..], 256, 17)
    requires Absorbed(h[..], msg[..pos], rv)
    modifies h, c
    ensures next == Min(pos + 16, n)
    ensures Absorbed(h[..], msg[..next], rv)
  {
    ghost var v := Val(h[..], 256, 17);
    LastLimb(h[..]);
    ValBound(h[..], 256, 16);
    Pow256To16();
    var j := LoadBlock(c, m, at + pos, n - pos);
    next := pos + j;
    ghost var b := Val(c[..], 256, 17);
    SliceOfSlice(m[..], at, n, pos, next);
    AbsorbBlock(msg, rv, pos);
    MulAddCongruent(v, v % P, b, rv);
    ValBound(c[..], 256, 17);
    ModUnique(v + b, 0, v + b, 256 * TWO128);
    Add1305(h, c);
    MulR(h, r);
    Squeeze(h);
  }

  /** crypto_onetimeauth; out, m and k may be parts of one buffer. */
  method CryptoOneTimeAuth(out: array<byte>, oo: nat, m: array<byte>, mo: nat, n: nat, k: array<byte>, ko: nat)
    requires oo + 16 <= out.Length && mo + n <= m.Length && ko + 32 <= k.Length
    modifies out
    ensures out[oo..oo + 16] == old(Tag(m[mo..mo + n], k[ko..ko + 32]))
    ensures out[..oo] == old(out[..oo]) && out[oo + 16..] == old(out[oo + 16..])
  {
    ghost var msg: seq<byte>, key: seq<byte>, before := m[mo..mo + n], k[ko..ko + 32], out[..];
    var r := LoadR(k, ko);
    var h := AbsorbLimbs(m, mo, n, r);
    FinalReduce(h);
    var sum := AddPad(h, k, ko);
    ghost var hs: seq<int> := sum[..];
    LowBytes(hs, Val(hs, 256, 17));
    for j := 0 to 16
      invariant sum[..] == hs
      invariant forall i :: 0 <= i < j ==> out[oo + i] == hs[i]
      invariant out[..oo] == before[..oo] && out[oo + 16..] == before[oo + 16..]
    {
      assert 0 <= hs[j] < 256;
      out[oo + j] := sum[j];
    }
    ghost var t: seq<byte> := out[oo..oo + 16];
    ValSame(t, hs, 256, 16);
    TagBytes(t, TagNum(msg, key));
  }

  /** h plus the second half of the key. */
  method AddPad(h: array<u32>, k: array<byte>, ko: nat) returns (sum: array<u32>)
    requires ko + 32 <= k.Length && h.Length == 17 && Digits(h[..], 256, 17) && Val(h[..], 256, 17) < P
    modifies h
    ensures sum == h && Digits(h[..], 256, 17)
    ensures Val(h[..], 256, 17) == old(Val(h[..], 256, 17)) + Val(k[ko..ko + 32][16..], 256, 16)
  {
    ghost var pad: seq<byte>, hs := k[ko..ko + 32][16..], h[..];
    var c := new u32[17];
    for j := 0 to 16
      invariant h[..] == hs
      invariant forall i :: 0 <= i < j ==> c[i] == pad[i]
    {
      c[j] := k[ko + j + 16];
    }
    c[16] := 0;
    ghost var cs: seq<int> := c[..];
    ValSame(cs, pad, 256, 16);
    ValBound(pad, 256, 16);
    ValBound(hs, 256, 17);
    Pow256To16();
    ModUnique(Val(hs, 256, 17) + Val(cs, 256, 17), 0, Val(hs, 256, 17) + Val(cs, 256, 17), 256 * TWO128);
    Add1305(h, c);
    sum := h;
  }
}
