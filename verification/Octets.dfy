/** Byte strings and the big-endian numbers in them. */
module Octets {
  import opened Limbs
  import opened Machine

  type Bytes = seq<byte>

  const WRAP64: int := 0x1_0000_0000_0000_0000

  function Zeros(n: nat): seq<byte> {
    seq(n, i => 0)
  }

  function BigEndian(s: seq<byte>): nat {
    if s == [] then 0 else BigEndian(s[..|s| - 1]) * 256 + s[|s| - 1]
  }

  function ToBigEndian(x: nat, n: nat): (s: seq<byte>)
    ensures |s| == n
    decreases n, x
  {
    if n == 0 then [] else ToBigEndian(x / 256, n - 1) + [x % 256]
  }

  lemma Pow256To8()
    ensures Pow(256, 8) == WRAP64
  {
    assert Pow(256, 2) == 65536;
    PowAdd(256, 2, 2);
    PowAdd(256, 4, 4);
  }

  lemma {:induction false} BigEndianBound(s: seq<byte>)
    ensures BigEndian(s) < Pow(256, |s|)
  {
    if s != [] {
      BigEndianBound(s[..|s| - 1]);
    }
  }

  lemma {:induction false} BigEndianBack(x: nat, n: nat)
    requires x < Pow(256, n)
    ensures BigEndian(ToBigEndian(x, n)) == x
    decreases n
  {
    if n > 0 {
      var s := ToBigEndian(x, n);
      assert s[..|s| - 1] == ToBigEndian(x / 256, n - 1);
      BigEndianBack(x / 256, n - 1);
    }
  }

  lemma {:induction false} ToBigEndianBack(s: seq<byte>)
    ensures ToBigEndian(BigEndian(s), |s|) == s
  {
    if s != [] {
      ToBigEndianBack(s[..|s| - 1]);
      assert s == s[..|s| - 1] + [s[|s| - 1]];
    }
  }

  lemma {:induction false} PowMonotone(m: nat, n: nat)
    requires m <= n
    ensures Pow(256, m) <= Pow(256, n)
  {
    PowPositive(256, m);
    if m < n {
      PowMonotone(m, n - 1);
    }
  }

  lemma ZerosAdd(a: nat, b: nat)
    ensures Zeros(a + b) == Zeros(a) + Zeros(b)
  {
  }

  lemma {:induction false} SmallBigEndian(x: nat, n: nat)
    requires n > 0 && x < 256
    ensures ToBigEndian(x, n) == Zeros(n - 1) + [x]
    decreases n
  {
    if n > 1 {
      SmallBigEndian(0, n - 1);
      assert Zeros(n - 2) + [0] == Zeros(n - 1);
    }
  }

  lemma SliceOfSlice(s: Bytes, at: nat, n: nat, i: nat, j: nat)
    requires at + n <= |s| && i <= j <= n
    ensures s[at..at + n][i..j] == s[at + i..at + j]
  {
    var l, r := s[at..at + n][i..j], s[at + i..at + j];
    assert forall k :: 0 <= k < j - i ==> l[k] == s[at + i + k] == r[k];
    assert l == r;
  }
}
