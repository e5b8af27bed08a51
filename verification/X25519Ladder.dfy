/** What the ladder of section 5 of RFC 7748 computes: its rung is doubling and differential
    addition on the Montgomery curve, and its control structure multiplies by the scalar. */
module X25519Ladder {
  import opened Limbs
  import opened ModArith
  import opened Machine
  import opened BitMask
  import opened Field25519
  import opened X25519
  import FieldBytes

  // ---- the curve formulas ----------------------------------------------------------------

  /** The coefficient of the curve v^2 = u^3 + A u^2 + u. */
  const CURVE_A: int := 486662

  ghost function DoubleX(x: int, z: int): int {
    (x * x - z * z) * (x * x - z * z)
  }

  ghost function DoubleZ(x: int, z: int): int {
    (4 * (x * z)) * (x * x + CURVE_A * (x * z) + z * z)
  }

  /** Differential addition, where the difference of the two points has u-coordinate u. */
  ghost function AddX(x2: int, z2: int, x3: int, z3: int): int {
    (2 * (x2 * x3 - z2 * z3)) * (2 * (x2 * x3 - z2 * z3))
  }

  ghost function AddZ(u: int, x2: int, z2: int, x3: int, z3: int): int {
    u * ((2 * (x2 * z3 - z2 * x3)) * (2 * (x2 * z3 - z2 * x3)))
  }

  lemma Products(a: int, b: int, c: int, d: int)
    ensures (a * b) * (c * d) == (a * c) * (b * d)
  {
    assert (a * b) * (c * d) == a * (b * (c * d));
    assert b * (c * d) == c * (b * d);
    assert a * (c * (b * d)) == (a * c) * (b * d);
  }

  lemma SumAndDifference(x: int, z: int)
    ensures (x + z) * (x + z) == x * x + 2 * (x * z) + z * z
    ensures (x - z) * (x - z) == x * x - 2 * (x * z) + z * z
    ensures (x + z) * (x - z) == x * x - z * z
  {
  }

  lemma DoubleFormulas(x: int, z: int)
    ensures var aa, bb := (x + z) * (x + z), (x - z) * (x - z);
            aa * bb == DoubleX(x, z) && (aa - bb) * (aa + 121665 * (aa - bb)) == DoubleZ(x, z)
  {
    SumAndDifference(x, z);
    Products(x + z, x + z, x - z, x - z);
  }

  lemma CrossProducts(x2: int, z2: int, x3: int, z3: int)
    ensures var da, cb := (x3 - z3) * (x2 + z2), (x3 + z3) * (x2 - z2);
            da + cb == 2 * (x2 * x3 - z2 * z3) && da - cb == -(2 * (x2 * z3 - z2 * x3))
  {
    assert (x3 - z3) * (x2 + z2) == x3 * x2 + x3 * z2 - z3 * x2 - z3 * z2;
    assert (x3 + z3) * (x2 - z2) == x3 * x2 - x3 * z2 + z3 * x2 - z3 * z2;
  }

  lemma Negated(a: int)
    ensures (-a) * (-a) == a * a
  {
  }

  lemma AddFormulas(u: int, x2: int, z2: int, x3: int, z3: int)
    ensures var da, cb := (x3 - z3) * (x2 + z2), (x3 + z3) * (x2 - z2);
            && (da + cb) * (da + cb) == AddX(x2, z2, x3, z3)
            && u * ((da - cb) * (da - cb)) == AddZ(u, x2, z2, x3, z3)
  {
    CrossProducts(x2, z2, x3, z3);
    Negated(2 * (x2 * z3 - z2 * x3));
  }

  // Residues of integer expressions.

  lemma AddResidue(x: int, y: int)
    ensures Add(x % P, y % P) == (x + y) % P
  {
    AddMod(x, y, P);
  }

  lemma SubResidue(x: int, y: int)
    ensures Sub(x % P, y % P) == (x - y) % P
  {
    SubMod(x, y, P);
  }

  lemma MulResidue(x: int, y: int)
    ensures Mul(x % P, y % P) == (x * y) % P
  {
    MulMod(x, y, P);
  }

  ghost predicate Residue(x: int) { 0 <= x < P }

  /** A rung doubles the first point and adds the two, by the formulas of the curve. */
  lemma RungIsMontgomery(l: Ladder, u: int)
    requires Residue(u)
    ensures DoubleAdd(l, u) == Ladder(DoubleX(l.x2, l.z2) % P, DoubleZ(l.x2, l.z2) % P,
                                      AddX(l.x2, l.z2, l.x3, l.z3) % P, AddZ(u, l.x2, l.z2, l.x3, l.z3) % P, l.swap)
  {
    var x2, z2, x3, z3 := l.x2, l.z2, l.x3, l.z3;
    var aa, bb := (x2 + z2) * (x2 + z2), (x2 - z2) * (x2 - z2);
    MulResidue(x2 + z2, x2 + z2);
    MulResidue(x2 - z2, x2 - z2);
    MulResidue(aa, bb);
    SubResidue(aa, bb);
    ModUnique(121665, 0, 121665, P);
    MulResidue(121665, aa - bb);
    AddResidue(aa, 121665 * (aa - bb));
    MulResidue(aa - bb, aa + 121665 * (aa - bb));
    DoubleFormulas(x2, z2);
    var da, cb := (x3 - z3) * (x2 + z2), (x3 + z3) * (x2 - z2);
    MulResidue(x3 - z3, x2 + z2);
    MulResidue(x3 + z3, x2 - z2);
    AddResidue(da, cb);
    SubResidue(da, cb);
    MulResidue(da + cb, da + cb);
    MulResidue(da - cb, da - cb);
    ModUnique(u, 0, u, P);
    MulResidue(u, (da - cb) * (da - cb));
    AddFormulas(u, x2, z2, x3, z3);
  }

  // ---- multiplication by the scalar --------------------------------------------------------

  /** What it can mean that (x : z) is the m-th multiple of a point. */
  type Multiple = (nat, int, int) -> bool

  ghost predicate Doubles(r: Multiple, m: nat, x: int, z: int) {
    r(m, x, z) ==> r(2 * m, DoubleX(x, z) % P, DoubleZ(x, z) % P)
  }

  ghost predicate Adds(r: Multiple, u: int, m: nat, x2: int, z2: int, x3: int, z3: int) {
    r(m, x2, z2) && r(m + 1, x3, z3) ==> r(2 * m + 1, AddX(x2, z2, x3, z3) % P, AddZ(u, x2, z2, x3, z3) % P)
  }

  /** r holds of the point at infinity and of u, and follows doubling and differential addition. */
  ghost predicate MultiplesOf(r: Multiple, u: int) {
    && r(0, 1, 0) && r(1, u, 1)
    && (forall m: nat, x, z :: Doubles(r, m, x, z))
    && (forall m: nat, x2, z2, x3, z3 :: Adds(r, u, m, x2, z2, x3, z3))
  }

  /** The number in the bits 254 .. 255 - n of k. */
  ghost function Top(k: int, n: nat): (m: int)
    requires n <= 255
    ensures m >= 0
  {
    if n == 0 then 0
    else
      BitIs(k, 255 - n);
      2 * Top(k, n - 1) + Bit(k, 255 - n)
  }

  lemma BitIs(k: int, t: nat)
    ensures Bit(k, t) == 0 || Bit(k, t) == 1
  {
    BitQuotient(k, t);
  }

  lemma {:induction false} TopIs(k: int, n: nat, e: nat)
    requires n + e == 255
    ensures Pow(2, e) > 0 && Pow(2, n) > 0 && Top(k, n) == (k / Pow(2, e)) % Pow(2, n)
    decreases n
  {
    PowPositive(2, e);
    PowPositive(2, n);
    if n == 0 {
      assert Pow(2, n) == 1;
    } else {
      TopIs(k, n - 1, e + 1);
      BitQuotient(k, e);
      DivDiv(k, Pow(2, e), 2);
      assert Pow(2, e + 1) == Pow(2, e) * 2;
      TruncateHalf(k / Pow(2, e), n);
    }
  }

  /** Differential addition does not care which point comes first. */
  lemma AddSymmetric(u: int, x2: int, z2: int, x3: int, z3: int)
    ensures AddX(x2, z2, x3, z3) == AddX(x3, z3, x2, z2) && AddZ(u, x2, z2, x3, z3) == AddZ(u, x3, z3, x2, z2)
  {
    assert x2 * x3 == x3 * x2 && z2 * z3 == z3 * z2 && x2 * z3 == z3 * x2 && z2 * x3 == x3 * z2;
    Negated(2 * (x2 * z3 - z2 * x3));
  }

  /** The two points of the ladder, its pending swap carried out. */
  ghost predicate HoldsMultiples(r: Multiple, l: Ladder, m: nat) {
    var c := CSwap(l, l.swap);
    (l.swap == 0 || l.swap == 1) && r(m, c.x2, c.z2) && r(m + 1, c.x3, c.z3)
  }

  /** One rung takes multiples m and m + 1 to 2 m + kt and its successor. */
  lemma RungMultiplies(r: Multiple, u: int, l: Ladder, m: nat, kt: int)
    requires Residue(u) && MultiplesOf(r, u) && HoldsMultiples(r, l, m) && (kt == 0 || kt == 1)
    ensures HoldsMultiples(r, RungStep(l, kt, u), 2 * m + kt)
  {
    var c := CSwap(l, l.swap);
    var s := CSwap(l, if l.swap == kt then 0 else 1).(swap := kt);
    RungIsMontgomery(s, u);
    assert Adds(r, u, m, c.x2, c.z2, c.x3, c.z3);
    if kt == 0 {
      assert s == c.(swap := 0);
      assert Doubles(r, m, c.x2, c.z2);
    } else {
      assert s == Ladder(c.x3, c.z3, c.x2, c.z2, 1);
      AddSymmetric(u, c.x2, c.z2, c.x3, c.z3);
      assert Doubles(r, m + 1, c.x3, c.z3);
    }
  }

  lemma {:induction false} LadderMultiplies(r: Multiple, k: int, u: int, n: nat)
    requires Residue(u) && MultiplesOf(r, u) && n <= 255
    ensures HoldsMultiples(r, Rungs(k, u, n), Top(k, n))
    decreases n
  {
    if n > 0 {
      LadderMultiplies(r, k, u, n - 1);
      BitIs(k, 255 - n);
      RungMultiplies(r, u, Rungs(k, u, n - 1), Top(k, n - 1), Bit(k, 255 - n));
    }
  }

  lemma ScalarFits(v: int)
    requires v >= 0
    ensures Pow(2, 251) > 0 && Pow(2, 255) > 0 && 0 <= Pow(2, 254) + 8 * ((v / 8) % Pow(2, 251)) < Pow(2, 255)
  {
    PowPositive(2, 251);
    PowPositive(2, 255);
    assert Pow(2, 3) == 8;
    PowAdd(2, 251, 3);
    DivModDef(v / 8, Pow(2, 251));
    assert Pow(2, 255) == 2 * Pow(2, 254);
  }

  /** X25519 of a scalar string and a point string is x / z of the multiple of the point by the
      clamped scalar, for every meaning of multiple that follows the curve formulas. */
  lemma X25519Multiplies(r: Multiple, n: seq<byte>, p: seq<byte>) returns (x: int, z: int)
    requires |n| == 32 && |p| == 32 && MultiplesOf(r, (Val(p, 256, 32) % FieldBytes.TWO255) % P)
    ensures Pow(2, 251) > 0 && Pow(2, 254) + 8 * ((Val(n, 256, 32) / 8) % Pow(2, 251)) >= 0
    ensures r(Pow(2, 254) + 8 * ((Val(n, 256, 32) / 8) % Pow(2, 251)), x, z)
    ensures Rfc7748(n, p) == (x * (Pow(z, P - 2) % P)) % P
  {
    var u := (Val(p, 256, 32) % FieldBytes.TWO255) % P;
    var k := Val(Clamp(n), 256, 32);
    ClampNumber(n);
    ValBound(n, 256, 32);
    ScalarFits(Val(n, 256, 32));
    LadderMultiplies(r, k, u, 255);
    TopIs(k, 255, 0);
    ModUnique(k, 0, k, Pow(2, 255));
    var c := CSwap(Rungs(k, u, 255), Rungs(k, u, 255).swap);
    x, z := c.x2, c.z2;
  }
}
