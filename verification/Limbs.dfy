/** Numbers held in limbs: the value of a little-endian sequence of digits,
    whatever the sign or size of the digits, and how it reacts to the steps
    the limb code takes (store one limb, add two sequences, compare). */
module Limbs {

  function Pow(b: int, n: nat): int {
    if n == 0 then 1 else b * Pow(b, n - 1)
  }

  /** The number held by the first n limbs of s in radix b. */
  function Val(s: seq<int>, b: int, n: nat): int
    requires n <= |s|
    decreases n, s
  {
    if n == 0 then 0 else Val(s, b, n - 1) + s[n - 1] * Pow(b, n - 1)
  }

  lemma {:induction false} PowPositive(b: int, n: nat)
    requires b > 0
    ensures Pow(b, n) > 0
  {
    if n > 0 {
      PowPositive(b, n - 1);
    }
  }

  lemma {:induction false} PowAdd(b: int, m: nat, n: nat)
    ensures Pow(b, m + n) == Pow(b, m) * Pow(b, n)
  {
    if m == 0 {
    } else {
      PowAdd(b, m - 1, n);
      assert b * (Pow(b, m - 1) * Pow(b, n)) == (b * Pow(b, m - 1)) * Pow(b, n);
    }
  }

  /** n bytes are 8 n bits. */
  lemma {:induction false} PowOfBytes(n: nat)
    ensures Pow(256, n) == Pow(2, 8 * n)
  {
    if n > 0 {
      PowOfBytes(n - 1);
      PowAdd(2, 8, 8 * n - 8);
      assert Pow(2, 8) == 256;
    }
  }

  /** Storing v in limb i moves the value by the change times the weight of i. */
  lemma {:induction false} ValUpdate(s: seq<int>, b: int, n: nat, i: nat, v: int)
    requires n <= |s| && i < |s|
    ensures Val(s[i := v], b, n) == Val(s, b, n) + (if i < n then (v - s[i]) * Pow(b, i) else 0)
  {
    if n == 0 {
    } else {
      ValUpdate(s, b, n - 1, i, v);
      if i == n - 1 {
        assert v * Pow(b, i) == s[i] * Pow(b, i) + (v - s[i]) * Pow(b, i);
      }
    }
  }

  /** Only the first n limbs matter. */
  lemma {:induction false} ValSame(s: seq<int>, t: seq<int>, b: int, n: nat)
    requires n <= |s| && n <= |t|
    requires forall k :: 0 <= k < n ==> s[k] == t[k]
    ensures Val(s, b, n) == Val(t, b, n)
  {
    if n > 0 {
      ValSame(s, t, b, n - 1);
    }
  }

  lemma {:induction false} ValZero(s: seq<int>, b: int, n: nat)
    requires n <= |s|
    requires forall k :: 0 <= k < n ==> s[k] == 0
    ensures Val(s, b, n) == 0
  {
    if n > 0 {
      ValZero(s, b, n - 1);
    }
  }

  /** Limb-wise s + c * t. */
  lemma {:induction false} ValLinear(r: seq<int>, s: seq<int>, t: seq<int>, c: int, b: int, n: nat)
    requires n <= |r| && n <= |s| && n <= |t|
    requires forall k :: 0 <= k < n ==> r[k] == s[k] + c * t[k]
    ensures Val(r, b, n) == Val(s, b, n) + c * Val(t, b, n)
  {
    if n > 0 {
      ValLinear(r, s, t, c, b, n - 1);
      LinearTerm(Val(s, b, n - 1), Val(t, b, n - 1), s[n - 1], t[n - 1], c, Pow(b, n - 1));
    }
  }

  lemma LinearTerm(x: int, y: int, d: int, e: int, c: int, w: int)
    ensures x + c * y + (d + c * e) * w == x + d * w + c * (y + e * w)
  {
    assert (d + c * e) * w == d * w + (c * e) * w;
    assert (c * e) * w == c * (e * w);
    assert c * (y + e * w) == c * y + c * (e * w);
  }

  /** A number is its low k limbs plus the rest shifted up by k. */
  lemma {:induction false} ValSplit(s: seq<int>, b: int, k: nat, n: nat)
    requires k + n <= |s|
    ensures Val(s, b, k + n) == Val(s, b, k) + Pow(b, k) * Val(s[k..], b, n)
  {
    if n > 0 {
      ValSplit(s, b, k, n - 1);
      PowAdd(b, k, n - 1);
      SplitTerm(Val(s[k..], b, n - 1), s[k + n - 1], Pow(b, k), Pow(b, n - 1));
    }
  }

  lemma SplitTerm(hi: int, d: int, p: int, q: int)
    ensures p * hi + d * (p * q) == p * (hi + d * q)
  {
    assert d * (p * q) == p * (d * q);
  }

  /** Zero limbs on top do not count. */
  lemma {:induction false} ValTail(s: seq<int>, b: int, n: nat, k: nat)
    requires n <= k <= |s| && forall i :: n <= i < k ==> s[i] == 0
    ensures Val(s, b, k) == Val(s, b, n)
  {
    if n < k {
      ValTail(s, b, n, k - 1);
    }
  }

  ghost predicate Digits(s: seq<int>, b: int, n: nat)
    requires n <= |s|
  {
    forall k :: 0 <= k < n ==> 0 <= s[k] < b
  }

  lemma {:induction false} ValBound(s: seq<int>, b: int, n: nat)
    requires b > 0 && n <= |s| && Digits(s, b, n)
    ensures 0 <= Val(s, b, n) < Pow(b, n)
  {
    if n > 0 {
      ValBound(s, b, n - 1);
      PowPositive(b, n - 1);
      var w := Pow(b, n - 1);
      MulMonotone(0, s[n - 1], w);
      MulMonotone(s[n - 1], b - 1, w);
      assert (b - 1) * w + w == b * w;
    }
  }

  lemma MulMonotone(x: int, y: int, w: int)
    requires x <= y && w >= 0
    ensures x * w <= y * w
  {
  }

  lemma QuotientUnique(x: int, y: int, lo: int, lo': int, w: int)
    requires 0 <= lo < w && 0 <= lo' < w
    requires lo + x * w == lo' + y * w
    ensures x == y && lo == lo'
  {
    if x < y {
      MulMonotone(x + 1, y, w);
    } else if y < x {
      MulMonotone(y + 1, x, w);
    }
  }

  /** Proper digits are determined by the value. */
  lemma {:induction false} ValInjective(s: seq<int>, t: seq<int>, b: int, n: nat)
    requires b > 0 && n <= |s| && n <= |t| && Digits(s, b, n) && Digits(t, b, n)
    requires Val(s, b, n) == Val(t, b, n)
    ensures forall k :: 0 <= k < n ==> s[k] == t[k]
  {
    if n > 0 {
      ValBound(s, b, n - 1);
      ValBound(t, b, n - 1);
      QuotientUnique(s[n - 1], t[n - 1], Val(s, b, n - 1), Val(t, b, n - 1), Pow(b, n - 1));
      ValInjective(s, t, b, n - 1);
    }
  }

  /** Where a schoolbook product stands after i full rows and j columns. */
  ghost predicate ProductAt(t: seq<int>, x: seq<int>, y: seq<int>, b: int, i: nat, j: nat, start: int)
    requires i < |x| && j <= |y|
  {
    Val(t, b, |t|) == start + Val(x, b, i) * Val(y, b, |y|) + (x[i] * Pow(b, i)) * Val(y, b, j)
  }

  /** One step of it: a product of two limbs goes to the limb of their joint weight. */
  lemma ProductStep(t: seq<int>, x: seq<int>, y: seq<int>, b: int, i: nat, j: nat, start: int)
    requires i < |x| && j < |y| && i + j < |t|
    requires ProductAt(t, x, y, b, i, j, start)
    ensures ProductAt(t[i + j := t[i + j] + x[i] * y[j]], x, y, b, i, j + 1, start)
  {
    ValUpdate(t, b, |t|, i + j, t[i + j] + x[i] * y[j]);
    PowAdd(b, i, j);
    ProductTerm(x[i], y[j], Pow(b, i), Pow(b, j), Val(y, b, j));
  }

  lemma ProductTerm(x: int, y: int, p: int, q: int, lo: int)
    ensures (x * p) * (lo + y * q) == (x * p) * lo + (x * y) * (p * q)
  {
    assert (x * p) * (y * q) == (x * y) * (p * q);
  }

  lemma ProductRow(t: seq<int>, x: seq<int>, y: seq<int>, b: int, i: nat, start: int)
    requires i < |x| && ProductAt(t, x, y, b, i, |y|, start)
    ensures Val(t, b, |t|) == start + Val(x, b, i + 1) * Val(y, b, |y|)
  {
  }
}
