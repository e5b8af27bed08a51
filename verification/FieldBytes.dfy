/** Canonical byte strings of field elements, and the branch-free swap. */
module FieldBytes {
  import opened Limbs
  import opened ModArith
  import opened Machine
  import opened Field25519

  /** Swap p and q when b is 1, by masked exclusive ors. */
  method Sel25519(p: array<i64>, q: array<i64>, b: int)
    requires p.Length == q.Length == 16 && p != q && (b == 0 || b == 1)
    modifies p, q
    ensures p[..] == old(if b == 1 then q[..] else p[..])
    ensures q[..] == old(if b == 1 then p[..] else q[..])
  {
    var c := -(b - 1) - 1;
    for i := 0 to 16
      invariant forall k :: 0 <= k < i ==> p[k] == old(if b == 1 then q[k] else p[k])
      invariant forall k :: 0 <= k < i ==> q[k] == old(if b == 1 then p[k] else q[k])
      invariant forall k :: i <= k < 16 ==> p[k] == old(p[k]) && q[k] == old(q[k])
    {
      MaskedSwap(p[i], q[i], b);
      var t := And(c, Xor(p[i], q[i], 63), 63);
      p[i] := Xor(p[i], t, 63);
      q[i] := Xor(q[i], t, 63);
    }
  }

  lemma I64Bits(x: i64)
    ensures Bits(x, 63)
  {
    BitsRange(x, 63);
    Pow2_63();
  }

  lemma MaskedSwap(x: i64, y: i64, b: int)
    requires b == 0 || b == 1
    ensures var t := And(-b, Xor(x, y, 63), 63);
            && Xor(x, t, 63) == (if b == 1 then y else x)
            && Xor(y, t, 63) == (if b == 1 then x else y)
  {
    I64Bits(x);
    I64Bits(y);
    XorBits(x, y, 63);
    if b == 1 {
      AndOnes(Xor(x, y, 63), 63);
      XorCancel(x, y, 63);
      XorCommutes(x, y, 63);
      XorCancel(y, x, 63);
    } else {
      AndZero(Xor(x, y, 63), 63);
      XorZero(x, 63);
      XorZero(y, 63);
    }
  }

  // ---- one conditional subtraction of P ---------------------------------

  ghost function PLimb(i: nat): int {
    if i == 0 then 0xFFED else if i < 15 then 0xFFFF else 0x7FFF
  }

  ghost function Raw(t: seq<int>, i: nat): int
    requires i < |t|
    decreases i, 1
  {
    t[i] - PLimb(i) - if i == 0 then 0 else Borrow(t, i - 1)
  }

  /** The borrow out of limb i of t - P. */
  ghost function Borrow(t: seq<int>, i: nat): int
    requires i < |t|
    decreases i, 0
  {
    if t[i] - PLimb(i) - (if i == 0 then 0 else Borrow(t, i - 1)) < 0 then 1 else 0
  }

  lemma PVal(s: seq<int>)
    requires |s| == 16 && forall k :: 0 <= k < 16 ==> s[k] == PLimb(k)
    ensures Val(s, RADIX, 16) == P
  {
    Pow256();
    assert Pow(RADIX, 16) == RADIX * Pow(RADIX, 15);
    AllOnes(s, 15);
  }

  lemma {:induction false} AllOnes(s: seq<int>, n: nat)
    requires |s| == 16 && 1 <= n <= 15 && forall k :: 0 <= k < 16 ==> s[k] == PLimb(k)
    ensures Val(s, RADIX, n) == Pow(RADIX, n) - 19
  {
    if n > 1 {
      AllOnes(s, n - 1);
    } else {
      assert Pow(RADIX, 1) == RADIX;
      assert Val(s, RADIX, 1) == s[0];
    }
  }

  lemma {:induction false} BorrowPrefix(m: seq<int>, t: seq<int>, p: seq<int>, n: nat)
    requires |m| == |t| == |p| == 16 && 0 < n <= 16 && Digits(t, RADIX, 16)
    requires forall k :: 0 <= k < 16 ==> p[k] == PLimb(k)
    requires forall k :: 0 <= k < n ==> m[k] == Raw(t, k) % 65536
    ensures Val(m, RADIX, n) == Val(t, RADIX, n) - Val(p, RADIX, n) + Borrow(t, n - 1) * Pow(RADIX, n)
  {
    var w := Pow(RADIX, n - 1);
    var c := if n == 1 then 0 else Borrow(t, n - 2);
    if n > 1 {
      BorrowPrefix(m, t, p, n - 1);
    }
    assert m[n - 1] == t[n - 1] - p[n - 1] - c + 65536 * Borrow(t, n - 1);
    assert Pow(RADIX, n) == 65536 * w;
    BorrowTerm(t[n - 1], p[n - 1], c, Borrow(t, n - 1), w);
  }

  lemma BorrowTerm(t: int, p: int, c: int, b: int, w: int)
    ensures (t - p - c + 65536 * b) * w == t * w - p * w - c * w + b * (65536 * w)
  {
  }

  /** Without a final borrow the difference is exact. */
  lemma BorrowExact(m: seq<int>, t: seq<int>)
    requires |m| == |t| == 16 && Digits(t, RADIX, 16)
    requires forall k :: 0 <= k < 16 ==> m[k] == Raw(t, k) % 65536
    ensures Num(m) == Num(t) - P + Borrow(t, 15) * (2 * P + 38)
    ensures 0 <= Num(m) < 2 * P + 38
  {
    var p := seq(16, i requires 0 <= i < 16 => PLimb(i));
    PVal(p);
    BorrowPrefix(m, t, p, 16);
    ValBound(m, RADIX, 16);
    Pow256();
  }

  /** The final borrow decides t < P. */
  lemma BorrowDecides(t: seq<int>)
    requires |t| == 16 && Digits(t, RADIX, 16)
    ensures Borrow(t, 15) == if Num(t) < P then 1 else 0
  {
    var m := seq(16, i requires 0 <= i < 16 => Raw(t, i) % 65536);
    BorrowExact(m, t);
    ValBound(t, RADIX, 16);
    Pow256();
  }

  /** m := t - P with borrows, as the body of the freezing loop does it. */
  method SubtractP(m: array<i64>, t: array<i64>) returns (b: int)
    requires m.Length == t.Length == 16 && m != t && Digits(t[..], RADIX, 16)
    modifies m
    ensures b == if Num(t[..]) < P then 1 else 0
    ensures b == 0 ==> Digits(m[..], RADIX, 16) && Num(m[..]) == Num(t[..]) - P
  {
    ghost var s: seq<int> := t[..];
    BorrowChain(m, t);
    b := (m[15] / 65536) % 2;
    m[14] := m[14] % 65536;
    BorrowBit(s, 15);
    BorrowDecides(s);
    if b == 0 {
      BorrowExact(m[..], s);
    }
  }

  /** The chain of raw differences; the top two limbs are not cut yet. */
  method BorrowChain(m: array<i64>, t: array<i64>)
    requires m.Length == t.Length == 16 && m != t && Digits(t[..], RADIX, 16)
    modifies m
    ensures m[15] == Raw(t[..], 15) && m[14] == Raw(t[..], 14)
    ensures forall k :: 0 <= k < 14 ==> m[k] == Raw(t[..], k) % 65536
  {
    ghost var s: seq<int> := t[..];
    m[0] := t[0] - 0xFFED;
    for i := 1 to 15
      invariant t[..] == s && m[i - 1] == Raw(s, i - 1)
      invariant forall k :: 0 <= k < i - 1 ==> m[k] == Raw(s, k) % 65536
    {
      BorrowBit(s, i - 1);
      m[i] := t[i] - 0xFFFF - (m[i - 1] / 65536) % 2;
      m[i - 1] := m[i - 1] % 65536;
    }
    BorrowBit(s, 14);
    m[15] := t[15] - 0x7FFF - (m[14] / 65536) % 2;
  }

  /** Bit 16 of a raw difference is its sign. */
  lemma BorrowBit(t: seq<int>, i: nat)
    requires |t| == 16 && i < 16 && Digits(t, RADIX, 16)
    ensures -65536 <= Raw(t, i) < 65536
    ensures (Raw(t, i) / 65536) % 2 == Borrow(t, i)
  {
  }

  // ---- packing -----------------------------------------------------------

  lemma {:induction false} PowBytes(n: nat)
    ensures Pow(256, 2 * n) == Pow(RADIX, n)
  {
    if n > 0 {
      PowBytes(n - 1);
      assert Pow(256, 2 * n) == 256 * (256 * Pow(256, 2 * n - 2));
    }
  }

  /** Splitting every limb in two bytes keeps the number. */
  lemma {:induction false} BytesOfLimbs(o: seq<int>, t: seq<int>, n: nat)
    requires 2 * n <= |o| && n <= |t|
    requires forall k :: 0 <= k < n ==> o[2 * k] + 256 * o[2 * k + 1] == t[k]
    ensures Val(o, 256, 2 * n) == Val(t, RADIX, n)
  {
    if n > 0 {
      BytesOfLimbs(o, t, n - 1);
      PowBytes(n - 1);
      var w := Pow(RADIX, n - 1);
      assert Pow(256, 2 * n - 1) == 256 * w;
      assert Val(o, 256, 2 * n) == Val(o, 256, 2 * n - 1) + o[2 * n - 1] * Pow(256, 2 * n - 1);
      assert Val(o, 256, 2 * n - 1) == Val(o, 256, 2 * n - 2) + o[2 * n - 2] * Pow(256, 2 * n - 2);
      assert t[n - 1] == o[2 * (n - 1)] + 256 * o[2 * (n - 1) + 1];
      assert t[n - 1] * w == o[2 * n - 2] * w + o[2 * n - 1] * (256 * w);
    }
  }

  /** The two conditional subtractions: the canonical residue, in place. */
  method Freeze(t: array<i64>)
    requires t.Length == 16 && Digits(t[..], RADIX, 16)
    modifies t
    ensures Digits(t[..], RADIX, 16) && Num(t[..]) == old(Elem(t[..]))
  {
    ghost var x: seq<int> := t[..];
    var m := new i64[16];
    ValBound(x, RADIX, 16);
    Pow256();
    for j := 0 to 2
      invariant Digits(t[..], RADIX, 16)
      invariant Num(t[..]) == Num(x) || (j >= 1 && Num(t[..]) == Num(x) - P) || (j >= 2 && Num(t[..]) == Num(x) - 2 * P)
      invariant 0 <= Num(t[..]) < if j == 0 then 2 * P + 38 else if j == 1 then P + 38 else P
    {
      var b := SubtractP(m, t);
      Sel25519(t, m, 1 - b);
    }
    ResidueOf(Num(x), Num(t[..]));
  }

  lemma ResidueOf(x: int, r: int)
    requires 0 <= r < P && (r == x || r == x - P || r == x - 2 * P)
    ensures x % P == r
  {
    ModUnique(x, if r == x then 0 else if r == x - P then 1 else 2, r, P);
  }

  /** The last loop of pack25519: two bytes per limb. */
  method StoreBytes(o: array<byte>, t: array<i64>)
    requires o.Length == 32 && t.Length == 16 && Digits(t[..], RADIX, 16)
    modifies o
    ensures Val(o[..], 256, 32) == Num(t[..])
  {
    ghost var s: seq<int> := t[..];
    for i := 0 to 16
      invariant forall k :: 0 <= k < i ==> o[2 * k] as int + 256 * o[2 * k + 1] as int == s[k]
    {
      assert 0 <= s[i] < 65536;
      o[2 * i] := t[i] % 256;
      o[2 * i + 1] := t[i] / 256;
    }
    BytesOfLimbs(o[..], s, 16);
  }

  /** Any gf with limbs below 2^62 packs to its canonical residue. */
  method Pack25519(o: array<byte>, n: array<i64>)
    requires o.Length == 32 && n.Length == 16 && Within(n[..], 0x4000_0000_0000_0000)
    modifies o
    ensures Val(o[..], 256, 32) == old(Elem(n[..]))
  {
    ghost var x: seq<int> := n[..];
    var t := new i64[16];
    for i := 0 to 16
      invariant forall k :: 0 <= k < i ==> t[k] == n[k]
    {
      t[i] := n[i];
    }
    assert t[..] == x;
    CarWide(x);
    CarTwice(x);
    Car25519(t);
    Car25519(t);
    Car25519(t);
    CarThrice(x);
    Freeze(t);
    StoreBytes(o, t);
  }

  /** Packed strings are equal exactly for congruent numbers. */
  lemma PackedAlike(r: seq<byte>, s: seq<byte>, a: seq<int>, b: seq<int>)
    requires |r| == |s| == 32 && Gf(a) && Gf(b)
    requires Val(r, 256, 32) == Elem(a) && Val(s, 256, 32) == Elem(b)
    ensures r == s <==> (Num(a) - Num(b)) % P == 0
  {
    SubMod(Num(a), Num(b), P);
    if Elem(a) == Elem(b) {
      ValInjective(r, s, 256, 32);
    } else if Elem(a) > Elem(b) {
      ModUnique(Elem(a) - Elem(b), 0, Elem(a) - Elem(b), P);
    } else {
      ModUnique(Elem(a) - Elem(b), -1, Elem(a) - Elem(b) + P, P);
    }
  }

  method Unpack25519(o: array<i64>, n: array<byte>)
    requires o.Length == 16 && n.Length == 32
    modifies o
    ensures Digits(o[..], RADIX, 16)
    ensures Num(o[..]) == Val(n[..], 256, 32) % TWO255
  {
    for i := 0 to 16
      invariant forall k :: 0 <= k < i ==> o[k] == n[2 * k] as int + 256 * n[2 * k + 1] as int
    {
      var hi: i64 := n[2 * i + 1];
      o[i] := n[2 * i] as int + hi * 256;
    }
    ghost var full: seq<int> := o[..];
    BytesOfLimbs(n[..], full, 16);
    o[15] := o[15] % 0x8000;
    MaskTop(full);
    assert o[..] == full[15 := full[15] % 0x8000];
  }

  const TWO255: int := P + 19

  lemma MaskTop(s: seq<int>)
    requires |s| == 16 && Digits(s, RADIX, 16)
    ensures Num(s[15 := s[15] % 0x8000]) == Num(s) % TWO255
  {
    var w := Pow(RADIX, 15);
    var r := s[15 := s[15] % 0x8000];
    ValUpdate(s, RADIX, 16, 15, s[15] % 0x8000);
    Pow256();
    assert RADIX * w == 2 * P + 38;
    var h := s[15] / 0x8000;
    assert s[15] % 0x8000 - s[15] == -(h * 0x8000);
    assert -(h * 0x8000) * w == -(h * (0x8000 * w));
    ValBound(s, RADIX, 15);
    ValSame(s, r, RADIX, 15);
    MulMonotone(0, s[15] % 0x8000, w);
    MulMonotone(s[15] % 0x8000, 0x7FFF, w);
    ModUnique(Num(s), h, Num(r), TWO255);
  }
}
