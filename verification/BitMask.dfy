/** Bits of a mask under shifting, truncation and setting. */
module BitMask {
  import opened Limbs
  import opened ModArith
  import opened Machine

  lemma LowTermHalf(m: int, s: nat, n: nat)
    requires s > 0 && n > 0
    ensures Pow(2, n) > 0 && Pow(2, n - 1) > 0
    ensures (m * Pow(2, s)) % Pow(2, n) == 2 * ((m * Pow(2, s - 1)) % Pow(2, n - 1))
  {
    PowPositive(2, n);
    PowPositive(2, n - 1);
    var x, w := m * Pow(2, s - 1), Pow(2, n - 1);
    assert m * Pow(2, s) == 2 * x;
    DivModDef(x, w);
    assert 2 * x == 2 * (x % w) + (x / w) * (2 * w);
    ModUnique(2 * x, x / w, 2 * (x % w), 2 * w);
  }

  /** The bits below n of a mask moved up by s. */
  lemma {:induction false} ShiftBits(m: int, s: nat, n: nat, i: nat)
    requires i < n
    ensures Pow(2, n) > 0
    ensures Bit((m * Pow(2, s)) % Pow(2, n), i) == if i < s then 0 else Bit(m, i - s)
    decreases n
  {
    PowPositive(2, n);
    if s > 0 {
      LowTermHalf(m, s, n);
      var y := (m * Pow(2, s - 1)) % Pow(2, n - 1);
      assert (2 * y) / 2 == y && (2 * y) % 2 == 0;
      if i > 0 {
        ShiftBits(m, s - 1, n - 1, i - 1);
      }
    } else {
      TruncateBits(m, n, i);
    }
  }

  lemma TruncateHalf(m: int, n: nat)
    requires n > 0
    ensures Pow(2, n) > 0 && Pow(2, n - 1) > 0
    ensures m % Pow(2, n) == 2 * ((m / 2) % Pow(2, n - 1)) + m % 2
  {
    PowPositive(2, n);
    PowPositive(2, n - 1);
    var w := Pow(2, n - 1);
    DivModDef(m / 2, w);
    var r := 2 * ((m / 2) % w) + m % 2;
    assert m == r + ((m / 2) / w) * (2 * w);
    ModUnique(m, (m / 2) / w, r, 2 * w);
  }

  lemma {:induction false} TruncateBits(m: int, n: nat, i: nat)
    requires i < n
    ensures Pow(2, n) > 0 && Bit(m % Pow(2, n), i) == Bit(m, i)
    decreases n
  {
    TruncateHalf(m, n);
    if i > 0 {
      TruncateBits(m / 2, n - 1, i - 1);
    }
  }

  /** Setting bit d, when it is clear. */
  lemma {:induction false} SetBits(m: int, d: nat, i: nat)
    requires Bit(m, d) == 0
    ensures Bit(m + Pow(2, d), i) == if i == d then 1 else Bit(m, i)
    decreases d
  {
    if d > 0 {
      HalfPlus(m, Pow(2, d - 1));
      if i > 0 {
        SetBits(m / 2, d - 1, i - 1);
      }
    }
  }

  lemma HalfPlus(m: int, w: int)
    ensures (m + 2 * w) / 2 == m / 2 + w && (m + 2 * w) % 2 == m % 2
  {
  }

  /** Setting a clear bit stays within n bits. */
  lemma {:induction false} SetFits(m: int, d: nat, n: nat)
    requires 0 <= m < Pow(2, n) && d < n && Bit(m, d) == 0
    ensures m + Pow(2, d) < Pow(2, n)
    decreases d
  {
    if d > 0 {
      SetFits(m / 2, d - 1, n - 1);
    }
  }
}
