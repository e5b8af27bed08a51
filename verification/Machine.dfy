/** The C integer types and bit operators. A store into an array of one of
    these types is checked to fit, so a method that verifies never overflows. */
module Machine {
  import opened Limbs
  import opened ModArith

  type byte = x: int | 0 <= x < 0x100
  type u32 = x: int | 0 <= x < 0x1_0000_0000
  type i64 = x: int | -0x8000_0000_0000_0000 <= x < 0x8000_0000_0000_0000

  /** A two's complement number of n bits and a sign. */
  ghost predicate Bits(x: int, n: nat)
    decreases n, x
  {
    if n == 0 then x == 0 || x == -1 else Bits(x / 2, n - 1)
  }

  /** x ^ y on two's complement numbers of n bits and a sign. */
  function Xor(x: int, y: int, n: nat): int
    decreases n, x, y
  {
    if n == 0 then (if x == y then 0 else -1) else 2 * Xor(x / 2, y / 2, n - 1) + (x % 2 + y % 2) % 2
  }

  /** x & y on two's complement numbers of n bits and a sign. */
  function And(x: int, y: int, n: nat): int
    decreases n, x, y
  {
    if n == 0 then (if x == y then x else 0) else 2 * And(x / 2, y / 2, n - 1) + if x % 2 == 1 && y % 2 == 1 then 1 else 0
  }

  lemma {:induction false} XorBits(x: int, y: int, n: nat)
    ensures Bits(Xor(x, y, n), n)
    decreases n, x, y
  {
    if n > 0 {
      XorBits(x / 2, y / 2, n - 1);
      assert Xor(x, y, n) / 2 == Xor(x / 2, y / 2, n - 1);
    }
  }

  lemma {:induction false} XorZero(x: int, n: nat)
    requires Bits(x, n)
    ensures Xor(x, 0, n) == x
    decreases n, x
  {
    if n > 0 {
      XorZero(x / 2, n - 1);
    }
  }

  lemma {:induction false} XorSelf(x: int, n: nat)
    ensures Xor(x, x, n) == 0
    decreases n, x
  {
    if n > 0 {
      XorSelf(x / 2, n - 1);
    }
  }

  lemma {:induction false} XorCommutes(x: int, y: int, n: nat)
    ensures Xor(x, y, n) == Xor(y, x, n)
    decreases n, x, y
  {
    if n > 0 {
      XorCommutes(x / 2, y / 2, n - 1);
    }
  }

  lemma BitCancel(a: int, b: int)
    requires 0 <= a < 2 && 0 <= b < 2
    ensures (a + (a + b) % 2) % 2 == b
  {
  }

  lemma {:induction false} XorCancel(x: int, y: int, n: nat)
    requires Bits(x, n) && Bits(y, n)
    ensures Xor(x, Xor(x, y, n), n) == y
    decreases n, x, y
  {
    if n > 0 {
      XorCancel(x / 2, y / 2, n - 1);
      BitCancel(x % 2, y % 2);
      var h, b := Xor(x / 2, y / 2, n - 1), (x % 2 + y % 2) % 2;
      var z := Xor(x, y, n);
      assert z == 2 * h + b;
      assert z / 2 == h && z % 2 == b;
      assert Xor(x, z, n) == 2 * Xor(x / 2, h, n - 1) + (x % 2 + b) % 2;
    }
  }

  lemma {:induction false} AndZero(x: int, n: nat)
    ensures And(0, x, n) == 0
    decreases n, x
  {
    if n > 0 {
      AndZero(x / 2, n - 1);
    } else {
    }
  }

  lemma {:induction false} AndOnes(x: int, n: nat)
    requires Bits(x, n)
    ensures And(-1, x, n) == x
    decreases n, x
  {
    if n > 0 {
      AndOnes(x / 2, n - 1);
      assert (-1) / 2 == -1 && (-1) % 2 == 1;
    }
  }

  /** A mask of n ones changes nothing below 2^n. */
  lemma {:induction false} AndMask(x: int, n: nat)
    requires 0 <= x < Pow(2, n)
    ensures And(Pow(2, n) - 1, x, n) == x
    decreases n
  {
    if n > 0 {
      AndMask(x / 2, n - 1);
      var m := Pow(2, n) - 1;
      assert m / 2 == Pow(2, n - 1) - 1 && m % 2 == 1;
    }
  }

  lemma {:induction false} AndCommutes(x: int, y: int, n: nat)
    ensures And(x, y, n) == And(y, x, n)
    decreases n, x, y
  {
    if n > 0 {
      AndCommutes(x / 2, y / 2, n - 1);
    }
  }

  lemma {:induction false} XorRange(x: int, y: int, n: nat)
    requires 0 <= x < Pow(2, n) && 0 <= y < Pow(2, n)
    ensures 0 <= Xor(x, y, n) < Pow(2, n)
    decreases n, x, y
  {
    if n > 0 {
      XorRange(x / 2, y / 2, n - 1);
    }
  }

  /** x & y fits wherever x fits. */
  lemma {:induction false} AndRange(x: int, y: int, n: nat)
    requires 0 <= x < Pow(2, n)
    ensures 0 <= And(x, y, n) < Pow(2, n) && And(x, y, n) <= x
    decreases n, x, y
  {
    if n > 0 {
      AndRange(x / 2, y / 2, n - 1);
    }
  }

  lemma {:induction false} BitsRange(x: int, n: nat)
    ensures Bits(x, n) <==> -Pow(2, n) <= x < Pow(2, n)
    decreases n, x
  {
    if n > 0 {
      BitsRange(x / 2, n - 1);
    }
  }

  lemma Pow2_63()
    ensures Pow(2, 63) == 0x8000_0000_0000_0000
  {
    assert Pow(2, 4) == 16;
    PowAdd(2, 4, 4);
    PowAdd(2, 8, 8);
    PowAdd(2, 16, 16);
    PowAdd(2, 32, 32);
    assert Pow(2, 64) == 2 * Pow(2, 63);
  }

  /** x moved up by j bits. */
  ghost function Shift(x: int, j: nat): int {
    if j == 0 then x else 2 * Shift(x, j - 1)
  }

  lemma {:induction false} ShiftMul(x: int, j: nat)
    ensures Shift(x, j) == Pow(2, j) * x
  {
    if j > 0 {
      ShiftMul(x, j - 1);
      assert (2 * Pow(2, j - 1)) * x == 2 * (Pow(2, j - 1) * x);
    }
  }

  /** & works on low and high parts separately. */
  lemma {:induction false} AndSplit(a: int, b: int, x: int, y: int, j: nat, n: nat)
    requires 0 <= a < Pow(2, j) && 0 <= b < Pow(2, j)
    ensures And(a + Shift(x, j), b + Shift(y, j), j + n) == And(a, b, j) + Shift(And(x, y, n), j)
    decreases j
  {
    if j > 0 {
      AndSplit(a / 2, b / 2, x, y, j - 1, n);
      var p, q := a + Shift(x, j), b + Shift(y, j);
      assert p / 2 == a / 2 + Shift(x, j - 1) && p % 2 == a % 2;
      assert q / 2 == b / 2 + Shift(y, j - 1) && q % 2 == b % 2;
      assert And(p, q, j + n) == 2 * And(p / 2, q / 2, j + n - 1) + if p % 2 == 1 && q % 2 == 1 then 1 else 0;
    }
  }

  /** Bit t of k. */
  function Bit(k: int, t: nat): int
    decreases t, k
  {
    if t == 0 then k % 2 else Bit(k / 2, t - 1)
  }

  lemma {:induction false} BitRange(k: int, t: nat)
    ensures Bit(k, t) == 0 || Bit(k, t) == 1
    decreases t
  {
    if t > 0 {
      BitRange(k / 2, t - 1);
    }
  }

  lemma {:induction false} BitQuotient(k: int, t: nat)
    ensures Pow(2, t) > 0 && Bit(k, t) == (k / Pow(2, t)) % 2
    decreases t, k
  {
    PowPositive(2, t);
    if t > 0 {
      BitQuotient(k / 2, t - 1);
      DivDiv(k, 2, Pow(2, t - 1));
    }
  }

  lemma HalfOfTwice(h: int, b: int)
    requires 0 <= b < 2
    ensures (2 * h + b) / 2 == h && (2 * h + b) % 2 == b
  {
  }

  /** Exclusive or, bit by bit. */
  lemma {:induction false} XorBitwise(x: int, y: int, n: nat, i: nat)
    requires i < n
    ensures Bit(Xor(x, y, n), i) == (Bit(x, i) + Bit(y, i)) % 2
    decreases i
  {
    HalfOfTwice(Xor(x / 2, y / 2, n - 1), (x % 2 + y % 2) % 2);
    if i > 0 {
      XorBitwise(x / 2, y / 2, n - 1, i - 1);
    }
  }

  /** And, bit by bit. */
  lemma {:induction false} AndBitwise(x: int, y: int, n: nat, i: nat)
    requires i < n
    ensures Bit(And(x, y, n), i) == if Bit(x, i) == 1 && Bit(y, i) == 1 then 1 else 0
    decreases i
  {
    HalfOfTwice(And(x / 2, y / 2, n - 1), if x % 2 == 1 && y % 2 == 1 then 1 else 0);
    if i > 0 {
      AndBitwise(x / 2, y / 2, n - 1, i - 1);
    }
  }

  /** The length is a variable so that the power is not unfolded 32 times. */
  lemma Two32(n: nat)
    requires n == 32
    ensures Pow(2, n) == 0x1_0000_0000
  {
    assert Pow(2, 8) == 256;
    PowAdd(2, 8, 8);
    PowAdd(2, 16, 16);
  }
}
