/** Residues: the few facts about % that the limb code needs, for any modulus. */
module ModArith {
  import opened Limbs

  lemma DivModDef(x: int, m: int)
    requires m > 0
    ensures x == x % m + (x / m) * m && 0 <= x % m < m
  {
  }

  lemma ModUnique(x: int, q: int, r: int, m: int)
    requires 0 <= r < m && x == r + q * m
    ensures x % m == r && x / m == q
  {
    DivModDef(x, m);
    QuotientUnique(q, x / m, r, x % m, m);
  }

  lemma ModShift(x: int, k: int, m: int)
    requires m > 0
    ensures (x + k * m) % m == x % m && (x + k * m) / m == x / m + k
  {
    DivModDef(x, m);
    assert (x / m + k) * m == (x / m) * m + k * m;
    ModUnique(x + k * m, x / m + k, x % m, m);
  }

  lemma AddMod(x: int, y: int, m: int)
    requires m > 0
    ensures (x % m + y % m) % m == (x + y) % m
  {
    DivModDef(x, m);
    DivModDef(y, m);
    var a, b := x / m, y / m;
    assert x + y == (x % m + y % m) + (a + b) * m by {
      assert (a + b) * m == a * m + b * m;
    }
    ModShift(x % m + y % m, a + b, m);
  }

  lemma SubMod(x: int, y: int, m: int)
    requires m > 0
    ensures (x % m - y % m) % m == (x - y) % m
  {
    DivModDef(x, m);
    DivModDef(y, m);
    var a, b := x / m, y / m;
    assert x - y == (x % m - y % m) + (a - b) * m by {
      assert (a - b) * m == a * m - b * m;
    }
    ModShift(x % m - y % m, a - b, m);
  }

  lemma MulMod(x: int, y: int, m: int)
    requires m > 0
    ensures ((x % m) * (y % m)) % m == (x * y) % m
  {
    DivModDef(x, m);
    DivModDef(y, m);
    MulResidues(x, y, x % m, x / m, y % m, y / m, m);
  }

  lemma MulResidues(x: int, y: int, r: int, a: int, s: int, b: int, m: int)
    requires m > 0 && x == r + a * m && y == s + b * m
    ensures (r * s) % m == (x * y) % m
  {
    var k := r * b + a * s + a * b * m;
    MulExpand(r, a, s, b, m);
    ModShift(r * s, k, m);
  }

  lemma MulExpand(r: int, a: int, s: int, b: int, m: int)
    ensures (r + a * m) * (s + b * m) == r * s + (r * b + a * s + a * b * m) * m
  {
    assert (r + a * m) * (s + b * m) == r * s + r * (b * m) + (a * m) * s + (a * m) * (b * m);
    assert r * (b * m) == (r * b) * m;
    assert (a * m) * s == (a * s) * m;
    assert (a * m) * (b * m) == (a * b * m) * m;
  }

  lemma DivDiv(x: int, m: int, n: int)
    requires m > 0 && n > 0
    ensures m * n > 0 && x / (m * n) == (x / m) / n
  {
    DivModDef(x, m);
    DivModDef(x / m, n);
    var q, r, s := (x / m) / n, x % m, (x / m) % n;
    assert (s + q * n) * m == s * m + q * (m * n);
    MulMonotone(s, n - 1, m);
    MulMonotone(0, s, m);
    assert (n - 1) * m + m == m * n;
    ModUnique(x, q, r + s * m, m * n);
  }
}
