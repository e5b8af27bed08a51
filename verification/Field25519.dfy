/** The field of integers mod 2^255 - 19 in sixteen signed 64-bit limbs of
    radix 2^16: lazy carrying, addition, subtraction and multiplication. */
module Field25519 {
  import opened Limbs
  import opened ModArith
  import opened Machine

  const RADIX: int := 65536
  const P: int := 0x7FFFFFFF_FFFFFFFF_FFFFFFFF_FFFFFFFF_FFFFFFFF_FFFFFFFF_FFFFFFFF_FFFFFFED

  /** A gf: sixteen limbs. */
  ghost predicate Gf(s: seq<int>) { |s| == 16 }

  ghost predicate Within(s: seq<int>, bound: int) {
    forall k :: 0 <= k < |s| ==> -bound <= s[k] <= bound
  }

  /** The integer and the field element that sixteen limbs stand for. */
  ghost function Num(s: seq<int>): int
    requires Gf(s)
  {
    Val(s, RADIX, |s|)
  }

  ghost function Elem(s: seq<int>): int
    requires Gf(s)
  {
    Num(s) % P
  }

  // The field operations on residues.
  ghost function Add(x: int, y: int): int { (x + y) % P }
  ghost function Sub(x: int, y: int): int { (x - y) % P }
  ghost function Mul(x: int, y: int): int { (x * y) % P }

  /** What every multiplication leaves behind. */
  ghost predicate Reduced(s: seq<int>) {
    Gf(s) && -38 <= s[0] <= 65573 && forall k :: 1 <= k < 16 ==> 0 <= s[k] < 65536
  }

  // ---- one carry pass as a function -------------------------------------

  /** The carry out of limb i; / rounds down, as >> does. */
  ghost function Carry(s: seq<int>, i: nat): int
    requires i < |s|
  {
    (s[i] + (if i == 0 then 0 else Carry(s, i - 1))) / 65536
  }

  ghost function CarLimb(s: seq<int>, i: nat): int
    requires i < |s|
  {
    (s[i] + (if i == 0 then 0 else Carry(s, i - 1))) % 65536
  }

  ghost function Car(s: seq<int>): (r: seq<int>)
    requires Gf(s)
    ensures Gf(r)
  {
    seq(16, i requires 0 <= i < 16 => CarLimb(s, i) + if i == 0 then 38 * Carry(s, 15) else 0)
  }

  lemma DigitWeight(vd: int, vs: int, d: int, x: int, c: int, q: int, w: int)
    requires vd == vs - c * w && d == x + c - 65536 * q
    ensures vd + d * w == vs + x * w - q * (65536 * w)
  {
    assert d * w == x * w + c * w - (65536 * q) * w;
    assert (65536 * q) * w == q * (65536 * w);
  }

  lemma {:induction false} CarPrefix(s: seq<int>, d: seq<int>, n: nat)
    requires 0 < n <= |s| && n <= |d|
    requires forall k :: 0 <= k < n ==> d[k] == CarLimb(s, k)
    ensures Val(d, RADIX, n) == Val(s, RADIX, n) - Carry(s, n - 1) * Pow(RADIX, n)
  {
    var w := Pow(RADIX, n - 1);
    var q := Carry(s, n - 1);
    var c := if n == 1 then 0 else Carry(s, n - 2);
    if n > 1 {
      CarPrefix(s, d, n - 1);
    }
    assert d[n - 1] == s[n - 1] + c - 65536 * q;
    DigitWeight(Val(d, RADIX, n - 1), Val(s, RADIX, n - 1), d[n - 1], s[n - 1], c, q, w);
  }

  lemma Pow256()
    ensures Pow(RADIX, 16) == 2 * P + 38
  {
    assert Pow(65536, 4) == 0x1_0000_0000_0000_0000;
    PowAdd(65536, 4, 4);
    PowAdd(65536, 8, 8);
  }

  /** A pass only subtracts a multiple of 2^256 - 38 = 2 (2^255 - 19). */
  lemma CarNum(s: seq<int>)
    requires Gf(s)
    ensures Num(Car(s)) == Num(s) - Carry(s, 15) * (2 * P)
  {
    var d := seq(16, i requires 0 <= i < 16 => CarLimb(s, i));
    CarPrefix(s, d, 16);
    Pow256();
    var q := Carry(s, 15);
    assert Car(s) == d[0 := d[0] + 38 * q];
    ValUpdate(d, RADIX, 16, 0, d[0] + 38 * q);
    assert q * (2 * P + 38) == q * (2 * P) + 38 * q;
  }

  lemma CarElem(s: seq<int>)
    requires Gf(s)
    ensures Elem(Car(s)) == Elem(s)
  {
    CarNum(s);
    ModShift(Num(s), -2 * Carry(s, 15), P);
  }

  // ---- how fast the limbs shrink ----------------------------------------

  lemma {:induction false} CarryBound(s: seq<int>, i: nat, bound: int)
    requires i < |s| && Within(s, bound) && bound >= 0
    ensures -bound / 32768 - 2 <= Carry(s, i) <= bound / 32768 + 2
  {
    if i > 0 {
      CarryBound(s, i - 1, bound);
    }
  }

  /** After one pass all limbs but the lowest are digits. */
  lemma CarWide(s: seq<int>)
    requires Gf(s) && Within(s, 0x4000_0000_0000_0000)
    ensures forall k :: 1 <= k < 16 ==> 0 <= Car(s)[k] < 65536
    ensures -0x20_0000_0000_0000 <= Car(s)[0] <= 0x20_0000_0000_0000
  {
    CarryBound(s, 15, 0x4000_0000_0000_0000);
  }

  lemma {:induction false} CarrySmall(s: seq<int>, i: nat)
    requires Gf(s) && 3 <= i < 16
    requires forall k :: 1 <= k < 16 ==> 0 <= s[k] < 65536
    requires -0x20_0000_0000_0000 <= s[0] <= 0x20_0000_0000_0000
    ensures -1 <= Carry(s, i) <= 1
  {
    if i > 3 {
      CarrySmall(s, i - 1);
    } else {
      assert -0x20_0000_0000 <= Carry(s, 0) <= 0x20_0000_0000;
      assert -0x20_0001 <= Carry(s, 1) <= 0x20_0001;
      assert -0x22 <= Carry(s, 2) <= 0x22;
    }
  }

  lemma CarTwice(s: seq<int>)
    requires Gf(s) && Within(s, 0x4000_0000_0000_0000)
    ensures Reduced(Car(Car(s)))
    ensures Elem(Car(Car(s))) == Elem(s)
  {
    CarWide(s);
    CarrySmall(Car(s), 15);
    CarElem(s);
    CarElem(Car(s));
  }

  lemma {:induction false} CarrySign(s: seq<int>, i: nat)
    requires Reduced(s) && i < 16
    ensures Carry(s, 0) == 0 ==> Carry(s, i) == 0
    ensures Carry(s, 0) == 1 ==> 0 <= Carry(s, i) <= 1
    ensures Carry(s, 0) == -1 ==> -1 <= Carry(s, i) <= 0
  {
    if i > 0 {
      CarrySign(s, i - 1);
    }
  }

  /** Three passes leave nothing but digits. */
  lemma CarThrice(s: seq<int>)
    requires Gf(s) && Within(s, 0x4000_0000_0000_0000)
    ensures Gf(Car(Car(Car(s)))) && Digits(Car(Car(Car(s))), RADIX, 16)
    ensures Elem(Car(Car(Car(s)))) == Elem(s)
  {
    CarTwice(s);
    var t := Car(Car(s));
    CarElem(t);
    CarrySign(t, 15);
    assert -1 <= Carry(t, 0) <= 1;
  }

  /** The limbs below i are digits, limb i has taken its carry in, the rest stand. */
  ghost predicate Carried(s: seq<int>, o: seq<int>, i: nat)
    requires |s| == 16
  {
    && |o| == 16 && i <= 16
    && (forall k :: 0 < k < i ==> o[k] == CarLimb(s, k))
    && (i > 0 ==> o[0] == CarLimb(s, 0) + if i == 16 then 38 * Carry(s, 15) else 0)
    && (i < 16 ==> o[i] == s[i] + if i == 0 then 0 else Carry(s, i - 1))
    && (forall k :: i < k < 16 ==> o[k] == s[k])
  }

  lemma LimbSplit(v: int, q: int, d: int)
    requires q == v / 65536 && d == v % 65536
    ensures (v + 65536) / 65536 == q + 1 && v + 65536 - (q + 1) * 65536 == d
  {
  }

  /** The body of the loop: limb i gives its carry to the next, the last one to limb 0. */
  method CarryOn(o: array<i64>, i: nat, ghost s: seq<int>)
    requires o.Length == |s| == 16 && i < 16 && Within(s, 0x4000_0000_0000_0000) && Carried(s, o[..], i)
    modifies o
    ensures Carried(s, o[..], i + 1)
  {
    CarryBound(s, i, 0x4000_0000_0000_0000);
    if i > 0 {
      CarryBound(s, i - 1, 0x4000_0000_0000_0000);
    }
    ghost var q := Carry(s, i);
    assert -0x4000_0000_0000_0000 <= s[i] <= 0x4000_0000_0000_0000;
    LimbSplit(o[i], q, CarLimb(s, i));
    o[i] := o[i] + 65536;
    var c: i64 := o[i] / 65536;
    assert c == q + 1;
    var next := if i < 15 then i + 1 else 0;
    assert -0x4000_0000_0000_0000 <= s[next] <= 0x4000_0000_0000_0000;
    o[next] := o[next] + (c - 1 + if i == 15 then 37 * (c - 1) else 0);
    o[i] := o[i] - c * 65536;
  }

  method Car25519(o: array<i64>)
    requires o.Length == 16 && Within(o[..], 0x4000_0000_0000_0000)
    modifies o
    ensures o[..] == Car(old(o[..]))
  {
    ghost var s: seq<int> := o[..];
    for i := 0 to 16
      invariant Carried(s, o[..], i)
    {
      CarryOn(o, i, s);
    }
    CarriedAll(s, o[..]);
  }

  lemma CarriedAll(s: seq<int>, o: seq<int>)
    requires Gf(s) && Carried(s, o, 16)
    ensures o == Car(s)
  {
    var r := Car(s);
    forall k | 0 <= k < 16
      ensures o[k] == r[k]
    {
    }
  }

  // ---- addition, subtraction --------------------------------------------

  lemma SumElem(r: seq<int>, x: seq<int>, y: seq<int>, c: int)
    requires Gf(r) && Gf(x) && Gf(y) && (c == 1 || c == -1)
    requires forall k :: 0 <= k < 16 ==> r[k] == x[k] + c * y[k]
    ensures Elem(r) == if c == 1 then Add(Elem(x), Elem(y)) else Sub(Elem(x), Elem(y))
  {
    if c == 1 {
      ValLinear(r, x, y, 1, RADIX, 16);
      AddMod(Num(x), Num(y), P);
    } else {
      ValLinear(r, x, y, -1, RADIX, 16);
      SubMod(Num(x), Num(y), P);
    }
  }

  method A(o: array<i64>, a: array<i64>, b: array<i64>)
    requires o.Length == a.Length == b.Length == 16
    requires Within(a[..], 0x2000_0000_0000_0000) && Within(b[..], 0x2000_0000_0000_0000)
    modifies o
    ensures forall k :: 0 <= k < 16 ==> o[k] == old(a[k]) + old(b[k])
    ensures Elem(o[..]) == Add(old(Elem(a[..])), old(Elem(b[..])))
    ensures old(Within(a[..], 65573) && Within(b[..], 65573)) ==> Within(o[..], 131146)
  {
    ghost var x: seq<int>, y: seq<int> := a[..], b[..];
    for i := 0 to 16
      invariant forall k :: 0 <= k < i ==> o[k] == x[k] + y[k]
      invariant forall k :: i <= k < 16 ==> a[k] == x[k] && b[k] == y[k]
    {
      o[i] := a[i] + b[i];
    }
    assert Within(x, 65573) && Within(y, 65573) ==> Within(o[..], 131146);
    SumElem(o[..], x, y, 1);
  }

  method Z(o: array<i64>, a: array<i64>, b: array<i64>)
    requires o.Length == a.Length == b.Length == 16
    requires Within(a[..], 0x2000_0000_0000_0000) && Within(b[..], 0x2000_0000_0000_0000)
    modifies o
    ensures forall k :: 0 <= k < 16 ==> o[k] == old(a[k]) - old(b[k])
    ensures Elem(o[..]) == Sub(old(Elem(a[..])), old(Elem(b[..])))
    ensures old(Within(a[..], 65573) && Within(b[..], 65573)) ==> Within(o[..], 131146)
  {
    ghost var x: seq<int>, y: seq<int> := a[..], b[..];
    for i := 0 to 16
      invariant forall k :: 0 <= k < i ==> o[k] == x[k] - y[k]
      invariant forall k :: i <= k < 16 ==> a[k] == x[k] && b[k] == y[k]
    {
      o[i] := a[i] - b[i];
    }
    assert Within(x, 65573) && Within(y, 65573) ==> Within(o[..], 131146);
    SumElem(o[..], x, y, -1);
  }

  // ---- multiplication ---------------------------------------------------

  lemma SmallProduct(x: int, y: int)
    requires -0x40000 <= x <= 0x40000 && -0x40000 <= y <= 0x40000
    ensures -0x10_0000_0000 <= x * y <= 0x10_0000_0000
  {
    if x >= 0 {
      AbsProduct(x, y, 0x40000);
    } else {
      AbsProduct(-x, y, 0x40000);
      assert (-x) * y == -(x * y);
    }
  }

  lemma AbsProduct(x: int, y: int, bound: int)
    requires x >= 0 && -bound <= y <= bound
    ensures -(bound * x) <= x * y <= bound * x
  {
    MulMonotone(-bound, y, x);
    MulMonotone(y, bound, x);
  }

  /** Folding limbs 16..30 back with weight 38 = 2^256 mod P. */
  lemma Fold(t: seq<int>, o: seq<int>)
    requires |t| == 31 && Gf(o)
    requires forall k :: 0 <= k < 15 ==> o[k] == t[k] + 38 * t[k + 16]
    requires o[15] == t[15]
    ensures Elem(o) == Val(t, RADIX, 31) % P
  {
    var hi := t[16..];
    ValSplit(t, RADIX, 16, 15);
    ValLinear(o, t, hi, 38, RADIX, 15);
    Pow256();
    var h := Val(hi, RADIX, 15);
    assert Num(o) == Val(t, RADIX, 16) + 38 * h;
    assert (2 * P + 38) * h == 2 * h * P + 38 * h;
    ModShift(Num(o), 2 * h, P);
  }

  /** The first two loops of M: the 31 limbs of the schoolbook product. */
  method Product(a: array<i64>, b: array<i64>) returns (t: array<i64>)
    requires a.Length == b.Length == 16
    requires Within(a[..], 0x40000) && Within(b[..], 0x40000)
    ensures fresh(t) && t.Length == 31 && Within(t[..], 0x100_0000_0000)
    ensures Val(t[..], RADIX, 31) == Num(a[..]) * Num(b[..])
  {
    ghost var x: seq<int>, y: seq<int> := a[..], b[..];
    t := new i64[31];
    for i := 0 to 31
      invariant forall k :: 0 <= k < i ==> t[k] == 0
    {
      t[i] := 0;
    }
    ValZero(t[..], RADIX, 31);
    for i := 0 to 16
      invariant Within(t[..], 0x10_0000_0000 * i)
      invariant Val(t[..], RADIX, 31) == 0 + Val(x, RADIX, i) * Val(y, RADIX, 16)
    {
      for j := 0 to 16
        invariant forall k :: 0 <= k < i + j ==> -0x10_0000_0000 * (i + 1) <= t[k] <= 0x10_0000_0000 * (i + 1)
        invariant forall k :: i + j <= k < 31 ==> -0x10_0000_0000 * i <= t[k] <= 0x10_0000_0000 * i
        invariant ProductAt(t[..], x, y, RADIX, i, j, 0)
      {
        assert a[i] == x[i] && b[j] == y[j];
        SmallProduct(x[i], y[j]);
        var p: i64 := a[i] * b[j];
        ghost var before: seq<int> := t[..];
        ProductStep(before, x, y, RADIX, i, j, 0);
        t[i + j] := t[i + j] + p;
        assert t[..] == before[i + j := before[i + j] + x[i] * y[j]];
      }
      ProductRow(t[..], x, y, RADIX, i, 0);
    }
  }

  /** The next two loops of M: fold limbs 16..30 into the low ones. */
  method FoldInto(o: array<i64>, t: array<i64>)
    requires o.Length == 16 && t.Length == 31 && o != t && Within(t[..], 0x100_0000_0000)
    modifies o, t
    ensures Within(o[..], 0x2700_0000_0000)
    ensures forall k :: 0 <= k < 15 ==> o[k] == old(t[k]) + 38 * old(t[k + 16])
    ensures o[15] == old(t[15])
  {
    ghost var full: seq<int> := t[..];
    for i := 0 to 15
      invariant forall k :: 0 <= k < i ==> t[k] == full[k] + 38 * full[k + 16]
      invariant forall k :: i <= k < 31 ==> t[k] == full[k]
      invariant forall k :: 0 <= k < 16 ==> -0x2700_0000_0000 <= t[k] <= 0x2700_0000_0000
    {
      assert -0x100_0000_0000 <= full[i] <= 0x100_0000_0000;
      assert -0x100_0000_0000 <= full[i + 16] <= 0x100_0000_0000;
      t[i] := t[i] + 38 * t[i + 16];
    }
    ghost var sums: seq<int> := t[..];
    assert Within(sums[..16], 0x2700_0000_0000);
    for i := 0 to 16
      invariant forall k :: 0 <= k < i ==> o[k] == t[k]
      invariant t[..] == sums
    {
      o[i] := t[i];
    }
    assert o[..] == sums[..16];
  }

  lemma ProductElem(x: seq<int>, y: seq<int>, v: int)
    requires Gf(x) && Gf(y) && v == Num(x) * Num(y)
    ensures v % P == Mul(Elem(x), Elem(y))
  {
    MulMod(Num(x), Num(y), P);
  }

  method M(o: array<i64>, a: array<i64>, b: array<i64>)
    requires o.Length == a.Length == b.Length == 16
    requires Within(a[..], 0x40000) && Within(b[..], 0x40000)
    modifies o
    ensures Reduced(o[..]) && Within(o[..], 65573)
    ensures Elem(o[..]) == Mul(old(Elem(a[..])), old(Elem(b[..])))
  {
    ghost var x: seq<int>, y: seq<int> := a[..], b[..];
    var t := Product(a, b);
    ghost var full: seq<int> := t[..];
    ProductElem(x, y, Val(full, RADIX, 31));
    FoldInto(o, t);
    ghost var folded: seq<int> := o[..];
    Fold(full, folded);
    Car25519(o);
    CarWide(folded);
    Car25519(o);
    CarTwice(folded);
  }

  method S(o: array<i64>, a: array<i64>)
    requires o.Length == a.Length == 16
    requires Within(a[..], 0x40000)
    modifies o
    ensures Reduced(o[..]) && Within(o[..], 65573)
    ensures Elem(o[..]) == Mul(old(Elem(a[..])), old(Elem(a[..])))
  {
    M(o, a, a);
  }
}
