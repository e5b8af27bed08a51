/** The X25519 function of section 5 of RFC 7748 on residues, and the limb
    ladder that computes it. */
module X25519 {
  import opened Limbs
  import opened ModArith
  import opened Machine
  import opened Field25519
  import opened FieldBytes

  // ---- section 5 of RFC 7748 ---------------------------------------------

  /** The four coordinates and the pending swap. */
  datatype Ladder = Ladder(x2: int, z2: int, x3: int, z3: int, swap: int)

  ghost function CSwap(l: Ladder, b: int): Ladder {
    if b == 1 then Ladder(l.x3, l.z3, l.x2, l.z2, l.swap) else l
  }

  /** The differential double-and-add of the ladder. */
  ghost function DoubleAdd(l: Ladder, x1: int): Ladder {
    var a := Add(l.x2, l.z2);
    var aa := Mul(a, a);
    var b := Sub(l.x2, l.z2);
    var bb := Mul(b, b);
    var e := Sub(aa, bb);
    var c := Add(l.x3, l.z3);
    var d := Sub(l.x3, l.z3);
    var da := Mul(d, a);
    var cb := Mul(c, b);
    var sum := Add(da, cb);
    var diff := Sub(da, cb);
    Ladder(Mul(aa, bb), Mul(e, Add(aa, Mul(121665, e))), Mul(sum, sum), Mul(x1, Mul(diff, diff)), l.swap)
  }

  /** One rung for bit kt: swap when the bit changed, then double and add. */
  ghost function RungStep(l: Ladder, kt: int, u: int): Ladder {
    DoubleAdd(CSwap(l, if l.swap == kt then 0 else 1).(swap := kt), u)
  }

  /** The ladder after its first n bits, from bit 254 downwards. */
  ghost function Rungs(k: int, u: int, n: nat): Ladder
    requires n <= 255
  {
    if n == 0 then Ladder(1, 0, u, 1, 0)
    else
      var l := Rungs(k, u, n - 1);
      var kt := Bit(k, 255 - n);
      RungStep(l, kt, u)
  }

  ghost function Power(x: int, n: nat): int {
    Pow(x, n) % P
  }

  /** decodeScalar25519: clear the low three bits, clear bit 255, set bit 254. */
  ghost function Clamp(n: seq<byte>): seq<byte>
    requires |n| == 32
  {
    n[0 := n[0] as int - n[0] as int % 8][31 := n[31] as int % 64 + 64]
  }

  lemma ClampedParts(v: int, lower: int, top: int, u: int)
    requires u > 0 && 0 <= lower < 8 * u && v == lower + top * (8 * u)
    ensures 8 * ((v / 8) % (64 * u)) == lower - lower % 8 + (top % 64) * (8 * u)
  {
    var q, r := top / 64, top % 64;
    assert v == lower % 8 + 8 * (lower / 8 + top * u) by {
      assert top * (8 * u) == 8 * (top * u);
    }
    assert v / 8 == lower / 8 + top * u;
    assert top * u == r * u + q * (64 * u) by {
      assert top * u == (64 * q + r) * u == (64 * q) * u + r * u;
      assert (64 * q) * u == q * (64 * u);
    }
    MulMonotone(r, 63, u);
    ModUnique(v / 8, q, lower / 8 + r * u, 64 * u);
    assert r * (8 * u) == 8 * (r * u);
  }

  lemma PowersForClamp(n: nat)
    requires n == 31
    ensures Pow(2, 8 * n - 3) > 0 && Pow(256, n) == 8 * Pow(2, 8 * n - 3)
    ensures Pow(2, 8 * n + 3) == 64 * Pow(2, 8 * n - 3) && Pow(2, 8 * n + 6) == 64 * Pow(256, n)
  {
    PowPositive(2, 8 * n - 3);
    PowOfBytes(n);
    assert Pow(2, 3) == 8 && Pow(2, 6) == 64;
    PowAdd(2, 8 * n - 3, 3);
    PowAdd(2, 8 * n - 3, 6);
    PowAdd(2, 8 * n, 6);
  }

  /** Clamping on bytes leaves 2^254 and the bits 3 to 253 of the number. */
  lemma ClampNumber(n: seq<byte>)
    requires |n| == 32
    ensures Pow(2, 251) > 0 && Val(Clamp(n), 256, 32) == Pow(2, 254) + 8 * ((Val(n, 256, 32) / 8) % Pow(2, 251))
  {
    var m := n[0 := n[0] as int - n[0] as int % 8];
    var lower, top, w := Val(n, 256, 31), n[31] as int, Pow(256, 31);
    ValUpdate(n, 256, 32, 0, n[0] as int - n[0] as int % 8);
    ValUpdate(m, 256, 32, 31, n[31] as int % 64 + 64);
    var hi := LowByte(n, 31);
    ValBound(n, 256, 31);
    PowersForClamp(31);
    ClampedParts(Val(n, 256, 32), lower, top, Pow(2, 245));
    ClampSum(Val(n, 256, 32), lower, top, w, n[0], hi);
  }

  lemma ClampSum(v: int, lower: int, top: int, w: int, low: int, hi: int)
    requires v == lower + top * w && lower == low + 256 * hi
    ensures v - low % 8 + (top % 64 + 64 - top) * w == 64 * w + (lower - lower % 8 + (top % 64) * w)
  {
    assert lower % 8 == low % 8;
    assert (top % 64 + 64 - top) * w == (top % 64) * w + 64 * w - top * w;
  }

  /** X25519(n, p) as the residue whose 32 bytes are the output. */
  ghost function Rfc7748(n: seq<byte>, p: seq<byte>): int
    requires |n| == 32 && |p| == 32
  {
    var k := Val(Clamp(n), 256, 32);
    var u := (Val(p, 256, 32) % TWO255) % P;
    var l := Rungs(k, u, 255);
    var r := CSwap(l, l.swap);
    Mul(r.x2, Power(r.z2, P - 2))
  }

  // ---- bits of the scalar ------------------------------------------------

  /** Shifting a byte string down by whole bytes leaves byte j lowest. */
  lemma ByteAt(z: seq<byte>, j: nat) returns (hi: int)
    requires |z| == 32 && j < 32
    ensures Pow(256, j) > 0
    ensures Val(z, 256, 32) / Pow(256, j) == z[j] as int + 256 * hi
  {
    ValSplit(z, 256, j, 32 - j);
    hi := LowByte(z[j..], 32 - j);
    ValBound(z, 256, j);
    ModUnique(Val(z, 256, 32), Val(z[j..], 256, 32 - j), Val(z, 256, j), Pow(256, j));
  }

  lemma LowByte(s: seq<int>, n: nat) returns (hi: int)
    requires 0 < n <= |s|
    ensures Val(s, 256, n) == s[0] + 256 * hi
  {
    ValSplit(s, 256, 1, n - 1);
    assert Val(s, 256, 1) == Val(s, 256, 0) + s[0] * Pow(256, 0);
    assert Pow(256, 1) == 256;
    hi := Val(s[1..], 256, n - 1);
  }

  /** Bit t of a byte string is bit t mod 8 of byte t / 8. */
  lemma BitOfByte(z: seq<byte>, t: nat)
    requires |z| == 32 && t < 256
    ensures Bit(Val(z, 256, 32), t) == Bit(z[t / 8], t % 8)
  {
    var j, r := t / 8, t % 8;
    var hi := ByteAt(z, j);
    PowOfBytes(j);
    PowAdd(2, 8 * j, r);
    PowPositive(2, r);
    DivDiv(Val(z, 256, 32), Pow(2, 8 * j), Pow(2, r));
    BitQuotient(Val(z, 256, 32), t);
    BitQuotient(z[j] + 256 * hi, r);
    LowBit(z[j], hi, r);
  }

  lemma Spread128(w: int, v: int, hi: int)
    requires w * v == 128
    ensures 256 * hi == (2 * (v * hi)) * w
  {
    assert (w * v) * hi == w * (v * hi);
  }

  /** The bits of a byte do not depend on what lies above it. */
  lemma LowBit(d: int, hi: int, r: nat)
    requires r < 8
    ensures Bit(d + 256 * hi, r) == Bit(d, r)
  {
    var w, v := Pow(2, r), Pow(2, 7 - r);
    PowPositive(2, r);
    PowAdd(2, r, 7 - r);
    assert Pow(2, 7) == 128;
    var k := v * hi;
    Spread128(w, v, hi);
    ModShift(d, 2 * k, w);
    assert (d / w + 2 * k) % 2 == (d / w) % 2;
    BitQuotient(d, r);
    BitQuotient(d + 256 * hi, r);
  }

  // ---- inversion ---------------------------------------------------------

  lemma PowerStep(x: int, m: nat, n: nat)
    ensures Mul(Power(x, m), Power(x, n)) == Power(x, m + n)
  {
    MulMod(Pow(x, m), Pow(x, n), P);
    PowAdd(x, m, n);
  }

  /** The exponent reached when bits 253..a have been processed. */
  ghost function InvExp(a: nat): nat
    requires a <= 254
    decreases 254 - a
  {
    if a == 254 then 1 else 2 * InvExp(a + 1) + if a != 2 && a != 4 then 1 else 0
  }

  lemma {:induction false} InvExpRun(a: nat)
    requires 5 <= a <= 254
    ensures InvExp(a) == Pow(2, 255 - a) - 1
    decreases 254 - a
  {
    if a < 254 {
      InvExpRun(a + 1);
    } else {
      assert Pow(2, 1) == 2;
    }
  }

  /** The square-and-multiply run of inv25519 reaches exactly P - 2. */
  lemma InvExpFinal()
    ensures InvExp(0) == P - 2
  {
    InvExpRun(5);
    assert InvExp(0) == 32 * InvExp(5) + 11;
    Pow2_250();
  }

  lemma Pow2_250()
    ensures 64 * Pow(2, 250) == 2 * P + 38
  {
    Pow256();
    PowBytes(16);
    PowOfBytes(32);
    PowAdd(2, 250, 6);
    assert Pow(2, 6) == 64;
  }

  /** One round of the run, on residues. */
  lemma InvStep(v: int, a: nat)
    requires 0 <= v < P && a < 254
    ensures var x := Power(v, InvExp(a + 1));
            Power(v, InvExp(a)) == if a != 2 && a != 4 then Mul(Mul(x, x), v) else Mul(x, x)
  {
    var e := InvExp(a + 1);
    PowerStep(v, e, e);
    PowerStep(v, 2 * e, 1);
    PowerOne(v);
  }

  lemma PowerOne(v: int)
    requires 0 <= v < P
    ensures Power(v, 1) == v
  {
    assert Pow(v, 1) == v * Pow(v, 0);
    ModUnique(v, 0, v, P);
  }

  method Inv25519(o: array<i64>, i: array<i64>)
    requires o.Length == i.Length == 16 && Within(i[..], 0x40000)
    modifies o
    ensures Within(o[..], 0x40000)
    ensures Elem(o[..]) == Power(old(Elem(i[..])), P - 2)
  {
    ghost var v := Elem(i[..]);
    var c := new i64[16];
    CopyLimbs(c, i);
    PowerOne(v);
    for a := 254 downto 0
      invariant Within(c[..], 0x40000) && i[..] == old(i[..])
      invariant Elem(c[..]) == Power(v, InvExp(a))
      modifies c
    {
      InvStep(v, a);
      S(c, c);
      if a != 2 && a != 4 {
        M(c, c, i);
      }
    }
    InvExpFinal();
    CopyLimbs(o, c);
  }

  /** Copies the sixteen limbs. */
  method CopyLimbs(o: array<i64>, c: array<i64>)
    requires o.Length == c.Length == 16
    modifies o
    ensures o[..] == old(c[..])
  {
    for a := 0 to 16
      invariant forall k :: 0 <= k < 16 ==> c[k] == old(c[k])
      invariant forall k :: 0 <= k < a ==> o[k] == old(c[k])
    {
      o[a] := c[a];
    }
  }

  // ---- the ladder on limbs -----------------------------------------------

  lemma SquareSign(x: int, y: int)
    ensures Mul(Sub(x, y), Sub(x, y)) == Mul(Sub(y, x), Sub(y, x))
  {
    MulMod(x - y, x - y, P);
    MulMod(y - x, y - x, P);
    assert (x - y) * (x - y) == (y - x) * (y - x);
  }

  /** The working registers of the ladder: eight separate arrays of limbs. */
  ghost predicate Separate(a: array<i64>, b: array<i64>, c: array<i64>, d: array<i64>,
                           e: array<i64>, f: array<i64>, x: array<i64>, small: array<i64>)
  {
    && a.Length == b.Length == c.Length == d.Length == e.Length == f.Length == x.Length == small.Length == 16
    && a != b && a != c && a != d && a != e && a != f && a != x && a != small
    && b != c && b != d && b != e && b != f && b != x && b != small
    && c != d && c != e && c != f && c != x && c != small
    && d != e && d != f && d != x && d != small
    && e != f && e != x && e != small
    && f != x && f != small
  }

  /** First third of the loop body: AA, BB, CB and DA from the coordinates. */
  method RungProducts(a: array<i64>, b: array<i64>, c: array<i64>, d: array<i64>,
                      e: array<i64>, f: array<i64>, x: array<i64>, small: array<i64>)
    requires Separate(a, b, c, d, e, f, x, small)
    requires Within(a[..], 65573) && Within(b[..], 65573) && Within(c[..], 65573) && Within(d[..], 65573)
    modifies a, b, c, d, e, f
    ensures Within(a[..], 65573) && Within(c[..], 65573) && Within(d[..], 65573) && Within(f[..], 65573)
    ensures var s, t := old(Add(Elem(a[..]), Elem(c[..]))), old(Sub(Elem(a[..]), Elem(c[..])));
            var u, v := old(Add(Elem(b[..]), Elem(d[..]))), old(Sub(Elem(b[..]), Elem(d[..])));
            && Elem(d[..]) == Mul(s, s) && Elem(f[..]) == Mul(t, t)
            && Elem(a[..]) == Mul(u, t) && Elem(c[..]) == Mul(v, s)
  {
    A(e, a, c);
    Z(a, a, c);
    A(c, b, d);
    Z(b, b, d);
    S(d, e);
    S(f, a);
    M(a, c, a);
    M(c, b, e);
  }

  /** The rest of the loop body, from AA in d, BB in f, CB in a and DA in c. */
  method RungCombine(a: array<i64>, b: array<i64>, c: array<i64>, d: array<i64>,
                     e: array<i64>, f: array<i64>, x: array<i64>, small: array<i64>)
    requires Separate(a, b, c, d, e, f, x, small)
    requires Within(a[..], 65573) && Within(c[..], 65573) && Within(d[..], 65573) && Within(f[..], 65573)
    requires Within(x[..], 65573) && Within(small[..], 65573)
    modifies a, b, c, d, e, f
    ensures Within(a[..], 65573) && Within(b[..], 65573) && Within(c[..], 65573) && Within(d[..], 65573)
    ensures var aa, bb, cb, da := old(Elem(d[..])), old(Elem(f[..])), old(Elem(a[..])), old(Elem(c[..]));
            var g := Sub(aa, bb);
            && Elem(a[..]) == Mul(aa, bb)
            && Elem(b[..]) == Mul(Add(cb, da), Add(cb, da))
            && Elem(c[..]) == Mul(g, Add(Mul(g, Elem(small[..])), aa))
            && Elem(d[..]) == Mul(Mul(Sub(cb, da), Sub(cb, da)), Elem(x[..]))
  {
    A(e, a, c);
    Z(a, a, c);
    S(b, a);
    Z(c, d, f);
    M(a, c, small);
    A(a, a, d);
    M(c, c, a);
    M(a, d, f);
    M(d, b, x);
    S(b, e);
  }

  /** The registers hold the coordinates with the pending swap carried out. */
  ghost predicate Holds(l: Ladder, a: seq<int>, b: seq<int>, c: seq<int>, d: seq<int>)
    requires Gf(a) && Gf(b) && Gf(c) && Gf(d)
  {
    var r := CSwap(l, l.swap);
    && Within(a, 65573) && Within(b, 65573) && Within(c, 65573) && Within(d, 65573)
    && Elem(a) == r.x2 && Elem(c) == r.z2 && Elem(b) == r.x3 && Elem(d) == r.z3
  }

  /** The limb code's order of operands gives the same residues. */
  lemma RungAgrees(l: Ladder, x1: int)
    ensures var a, b, c, d := Add(l.x2, l.z2), Sub(l.x2, l.z2), Add(l.x3, l.z3), Sub(l.x3, l.z3);
            var aa, bb, cb, da := Mul(a, a), Mul(b, b), Mul(c, b), Mul(d, a);
            var g := Sub(aa, bb);
            DoubleAdd(l, x1) == Ladder(Mul(aa, bb), Mul(g, Add(Mul(g, 121665), aa)),
                                       Mul(Add(cb, da), Add(cb, da)), Mul(Mul(Sub(cb, da), Sub(cb, da)), x1), l.swap)
  {
    var cb, da := Mul(Add(l.x3, l.z3), Sub(l.x2, l.z2)), Mul(Sub(l.x3, l.z3), Add(l.x2, l.z2));
    SquareSign(cb, da);
  }

  /** One pass of the ladder loop for scalar bit r. */
  method Rung(a: array<i64>, b: array<i64>, c: array<i64>, d: array<i64>,
              e: array<i64>, f: array<i64>, x: array<i64>, small: array<i64>, r: int, ghost l: Ladder)
    requires Separate(a, b, c, d, e, f, x, small) && (r == 0 || r == 1) && (l.swap == 0 || l.swap == 1)
    requires Holds(l, a[..], b[..], c[..], d[..])
    requires Within(x[..], 65573) && Within(small[..], 65573) && Elem(small[..]) == 121665
    modifies a, b, c, d, e, f
    ensures Holds(RungStep(l, r, Elem(x[..])), a[..], b[..], c[..], d[..])
    ensures RungStep(l, r, Elem(x[..])).swap == r
  {
    ghost var m := CSwap(l, if l.swap == r then 0 else 1).(swap := r);
    RungAgrees(m, Elem(x[..]));
    Sel25519(a, b, r);
    Sel25519(c, d, r);
    RungProducts(a, b, c, d, e, f, x, small);
    RungCombine(a, b, c, d, e, f, x, small);
    Sel25519(a, b, r);
    Sel25519(c, d, r);
  }

  lemma UnitElems(one: seq<int>, zero: seq<int>, small: seq<int>)
    requires Gf(one) && Gf(zero) && Gf(small)
    requires forall k :: 0 <= k < 16 ==> zero[k] == 0
    requires one == zero[0 := 1] && small == zero[0 := 0xDB41][1 := 1]
    ensures Elem(one) == 1 && Elem(zero) == 0 && Elem(small) == 121665
  {
    ValZero(zero, RADIX, 16);
    ValUpdate(zero, RADIX, 16, 0, 1);
    ValUpdate(zero, RADIX, 16, 0, 0xDB41);
    ValUpdate(zero[0 := 0xDB41], RADIX, 16, 1, 1);
    assert Pow(RADIX, 1) == RADIX * Pow(RADIX, 0);
    ModUnique(1, 0, 1, P);
    ModUnique(0, 0, 0, P);
    ModUnique(121665, 0, 121665, P);
  }

  method ClampScalar(n: array<byte>) returns (z: array<byte>)
    requires n.Length == 32
    ensures fresh(z) && z.Length == 32 && z[..] == Clamp(n[..])
    ensures Pow(2, 251) > 0 && Val(z[..], 256, 32) == Pow(2, 254) + 8 * ((Val(n[..], 256, 32) / 8) % Pow(2, 251))
  {
    z := new byte[32];
    for i := 0 to 31
      invariant forall k :: 0 <= k < i ==> z[k] == n[k]
    {
      z[i] := n[i];
    }
    z[31] := n[31] as int % 64 + 64;
    z[0] := z[0] as int - z[0] as int % 8;
    assert z[..] == Clamp(n[..]);
    ClampNumber(n[..]);
  }

  /** The constant (A - 2) / 4 of the curve as a gf. */
  method Const121665() returns (small: array<i64>)
    ensures fresh(small) && small.Length == 16
    ensures Within(small[..], 65573) && Elem(small[..]) == 121665
  {
    small := new i64[16](i => if i == 0 then 0xDB41 else if i == 1 then 1 else 0);
    ghost var zero: seq<int> := seq(16, i => 0);
    assert small[..] == zero[0 := 0xDB41][1 := 1];
    UnitElems(zero[0 := 1], zero, small[..]);
  }

  /** x2 = 1, z2 = 0, x3 = u, z3 = 1. */
  method InitRegisters(a: array<i64>, b: array<i64>, c: array<i64>, d: array<i64>, x: array<i64>)
    requires a.Length == b.Length == c.Length == d.Length == x.Length == 16
    requires a != b && a != c && a != d && a != x && b != c && b != d && b != x && c != d && c != x && d != x
    requires Digits(x[..], RADIX, 16)
    modifies a, b, c, d
    ensures Holds(Ladder(1, 0, Elem(x[..]), 1, 0), a[..], b[..], c[..], d[..])
  {
    ghost var xs: seq<int> := x[..];
    for i := 0 to 16
      invariant x[..] == xs
      invariant forall k :: 0 <= k < i ==> b[k] == x[k] && a[k] == c[k] == d[k] == 0
    {
      b[i] := x[i];
      d[i], a[i], c[i] := 0, 0, 0;
    }
    ghost var zero: seq<int> := a[..];
    assert c[..] == zero && d[..] == zero && b[..] == xs;
    a[0], d[0] := 1, 1;
    UnitElems(a[..], zero, zero[0 := 0xDB41][1 := 1]);
  }

  /** The registers hold rung n of the ladder. */
  ghost predicate Aloft(k: int, u: int, n: nat, l: Ladder, a: seq<int>, b: seq<int>, c: seq<int>, d: seq<int>)
    requires n <= 255 && Gf(a) && Gf(b) && Gf(c) && Gf(d)
  {
    l == Rungs(k, u, n) && (l.swap == 0 || l.swap == 1) && Holds(l, a, b, c, d)
  }

  /** What the ladder works with but does not change. */
  ghost predicate Given(u: int, x: seq<int>, small: seq<int>)
    requires Gf(x) && Gf(small)
  {
    Within(x, 65573) && Elem(x) == u && Within(small, 65573) && Elem(small) == 121665
  }

  /** The ladder loop, from the initial registers to the last rung. */
  method Climb(a: array<i64>, c: array<i64>, x: array<i64>, z: array<byte>)
    requires a.Length == c.Length == x.Length == 16 && z.Length == 32
    requires a != c && a != x && c != x && Digits(x[..], RADIX, 16)
    modifies a, c
    ensures var l := Rungs(Val(z[..], 256, 32), Elem(x[..]), 255);
            var r := CSwap(l, l.swap);
            Within(a[..], 65573) && Within(c[..], 65573) && Elem(a[..]) == r.x2 && Elem(c[..]) == r.z2
  {
    var b, d, e, f := new i64[16], new i64[16], new i64[16], new i64[16];
    var small := Const121665();
    InitRegisters(a, b, c, d, x);
    ghost var k, u := Val(z[..], 256, 32), Elem(x[..]);
    ghost var l := Ladder(1, 0, u, 1, 0);
    assert Within(x[..], 65573) && Separate(a, b, c, d, e, f, x, small);
    for i := 255 downto 0
      invariant Given(u, x[..], small[..]) && Aloft(k, u, 255 - i, l, a[..], b[..], c[..], d[..])
      modifies a, b, c, d, e, f
    {
      l := ClimbOne(a, b, c, d, e, f, x, small, z, i, l, k, u);
    }
  }

  /** One pass: the scalar's bit, then a rung. */
  method ClimbOne(a: array<i64>, b: array<i64>, c: array<i64>, d: array<i64>, e: array<i64>, f: array<i64>, x: array<i64>,
                  small: array<i64>, z: array<byte>, i: nat, ghost l: Ladder, ghost k: int, ghost u: int)
    returns (ghost up: Ladder)
    requires Separate(a, b, c, d, e, f, x, small) && z.Length == 32 && i < 255 && k == Val(z[..], 256, 32)
    requires Given(u, x[..], small[..]) && Aloft(k, u, 254 - i, l, a[..], b[..], c[..], d[..])
    modifies a, b, c, d, e, f
    ensures Aloft(k, u, 255 - i, up, a[..], b[..], c[..], d[..])
  {
    var r := ReadBit(z, i);
    Rung(a, b, c, d, e, f, x, small, r, l);
    up := RungStep(l, r, u);
  }

  /** Reads bit i of the scalar out of its byte. */
  method ReadBit(z: array<byte>, i: nat) returns (r: int)
    requires z.Length == 32 && i < 256
    ensures r == Bit(Val(z[..], 256, 32), i) && (r == 0 || r == 1)
  {
    BitQuotient(z[i / 8], i % 8);
    r := (z[i / 8] as int / Pow(2, i % 8)) % 2;
    BitOfByte(z[..], i);
  }

  /** X25519 for every scalar and every point string. */
  method CryptoScalarmult(q: array<byte>, n: array<byte>, p: array<byte>)
    requires q.Length == n.Length == p.Length == 32
    modifies q
    ensures Val(q[..], 256, 32) == old(Rfc7748(n[..], p[..]))
  {
    var z := ClampScalar(n);
    var x, a, c := new i64[16], new i64[16], new i64[16];
    Unpack25519(x, p);
    Climb(a, c, x, z);
    Inv25519(c, c);
    M(a, a, c);
    Pack25519(q, a);
  }
}
