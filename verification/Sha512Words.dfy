/** The word functions, round constants and initial value of SHA-512. */
module Sha512Words {
  import opened Machine
  import opened Octets
  import opened Sha512

  /** Rotation, as two shifts. */
  function R(x: bv64, c: nat): bv64
    requires 0 < c < 64
  {
    (x >> c) | (x << (64 - c))
  }

  /** The two shifts rotate, for every distance the functions below use. */
  lemma ShiftsRotate(x: bv64)
    ensures R(x, 28) == x.RotateRight(28) && R(x, 34) == x.RotateRight(34) && R(x, 39) == x.RotateRight(39)
    ensures R(x, 14) == x.RotateRight(14) && R(x, 18) == x.RotateRight(18) && R(x, 41) == x.RotateRight(41)
    ensures R(x, 1) == x.RotateRight(1) && R(x, 8) == x.RotateRight(8)
    ensures R(x, 19) == x.RotateRight(19) && R(x, 61) == x.RotateRight(61)
  {
  }

  function Ch(x: bv64, y: bv64, z: bv64): bv64 { (x & y) ^ (!x & z) }

  function Xor3(x: bv64, y: bv64, z: bv64): bv64 { x ^ y ^ z }

  function Maj(x: bv64, y: bv64, z: bv64): bv64 { Xor3(x & y, x & z, y & z) }

  function BigSigma0(x: bv64): bv64 { Xor3(R(x, 28), R(x, 34), R(x, 39)) }

  function BigSigma1(x: bv64): bv64 { Xor3(R(x, 14), R(x, 18), R(x, 41)) }

  function SmallSigma0(x: bv64): bv64 { Xor3(R(x, 1), R(x, 8), x >> 7) }

  function SmallSigma1(x: bv64): bv64 { Xor3(R(x, 19), R(x, 61), x >> 6) }

  const K: seq<u64> :=
    [0x428a2f98d728ae22, 0x7137449123ef65cd, 0xb5c0fbcfec4d3b2f, 0xe9b5dba58189dbbc,
     0x3956c25bf348b538, 0x59f111f1b605d019, 0x923f82a4af194f9b, 0xab1c5ed5da6d8118] +
    [0xd807aa98a3030242, 0x12835b0145706fbe, 0x243185be4ee4b28c, 0x550c7dc3d5ffb4e2,
     0x72be5d74f27b896f, 0x80deb1fe3b1696b1, 0x9bdc06a725c71235, 0xc19bf174cf692694] +
    [0xe49b69c19ef14ad2, 0xefbe4786384f25e3, 0x0fc19dc68b8cd5b5, 0x240ca1cc77ac9c65,
     0x2de92c6f592b0275, 0x4a7484aa6ea6e483, 0x5cb0a9dcbd41fbd4, 0x76f988da831153b5] +
    [0x983e5152ee66dfab, 0xa831c66d2db43210, 0xb00327c898fb213f, 0xbf597fc7beef0ee4,
     0xc6e00bf33da88fc2, 0xd5a79147930aa725, 0x06ca6351e003826f, 0x142929670a0e6e70] +
    [0x27b70a8546d22ffc, 0x2e1b21385c26c926, 0x4d2c6dfc5ac42aed, 0x53380d139d95b3df,
     0x650a73548baf63de, 0x766a0abb3c77b2a8, 0x81c2c92e47edaee6, 0x92722c851482353b] +
    [0xa2bfe8a14cf10364, 0xa81a664bbc423001, 0xc24b8b70d0f89791, 0xc76c51a30654be30,
     0xd192e819d6ef5218, 0xd69906245565a910, 0xf40e35855771202a, 0x106aa07032bbd1b8] +
    [0x19a4c116b8d2d0c8, 0x1e376c085141ab53, 0x2748774cdf8eeb99, 0x34b0bcb5e19b48a8,
     0x391c0cb3c5c95a63, 0x4ed8aa4ae3418acb, 0x5b9cca4f7763e373, 0x682e6ff3d6b2b8a3] +
    [0x748f82ee5defb2fc, 0x78a5636f43172f60, 0x84c87814a1f0ab72, 0x8cc702081a6439ec,
     0x90befffa23631e28, 0xa4506cebde82bde9, 0xbef9a3f7b2c67915, 0xc67178f2e372532b] +
    [0xca273eceea26619c, 0xd186b8c721c0c207, 0xeada7dd6cde0eb1e, 0xf57d4f7fee6ed178,
     0x06f067aa72176fba, 0x0a637dc5a2c898a6, 0x113f9804bef90dae, 0x1b710b35131c471b] +
    [0x28db77f523047d84, 0x32caab7b40c72493, 0x3c9ebe0a15c9bebc, 0x431d67c49c100d4c,
     0x4cc5d4becb3e42b6, 0x597f299cfc657e2a, 0x5fcb6fab3ad6faec, 0x6c44198c4a475817]

  const IV: seq<byte> :=
    [0x6a, 0x09, 0xe6, 0x67, 0xf3, 0xbc, 0xc9, 0x08] +
    [0xbb, 0x67, 0xae, 0x85, 0x84, 0xca, 0xa7, 0x3b] +
    [0x3c, 0x6e, 0xf3, 0x72, 0xfe, 0x94, 0xf8, 0x2b] +
    [0xa5, 0x4f, 0xf5, 0x3a, 0x5f, 0x1d, 0x36, 0xf1] +
    [0x51, 0x0e, 0x52, 0x7f, 0xad, 0xe6, 0x82, 0xd1] +
    [0x9b, 0x05, 0x68, 0x8c, 0x2b, 0x3e, 0x6c, 0x1f] +
    [0x1f, 0x83, 0xd9, 0xab, 0xfb, 0x41, 0xbd, 0x6b] +
    [0x5b, 0xe0, 0xcd, 0x19, 0x13, 0x7e, 0x21, 0x79]

  function Word(x: u64): bv64 { x as bv64 }

  function Number(x: bv64): u64 { x as int }

  function Standard(): Mix {
    Mix(x => Number(BigSigma0(Word(x))), x => Number(BigSigma1(Word(x))),
        x => Number(SmallSigma0(Word(x))), x => Number(SmallSigma1(Word(x))),
        (x, y, z) => Number(Ch(Word(x), Word(y), Word(z))), (x, y, z) => Number(Maj(Word(x), Word(y), Word(z))),
        (i: nat) => if i < |K| then K[i] else 0)
  }

  // ---- what they are ----------------------------------------------------------------------

  /** Wherever the mask m has ones, w is y if x is one and z if x is zero. */
  predicate Choice(w: bv64, x: bv64, y: bv64, z: bv64, m: bv64) {
    && (x & m == m ==> w & m == y & m)
    && (x & m == 0 ==> w & m == z & m)
  }

  /** Wherever x and y are alike, w is like them. */
  predicate Follows(w: bv64, x: bv64, y: bv64, m: bv64) {
    x & m == y & m ==> w & m == x & m
  }

  lemma AndOverXor(x: bv64, y: bv64, m: bv64)
    ensures (x ^ y) & m == (x & m) ^ (y & m)
  {
  }

  lemma AndOverAnd(x: bv64, y: bv64, m: bv64)
    ensures (x & y) & m == (x & m) & (y & m)
  {
  }

  lemma NotMasked(x: bv64, m: bv64)
    ensures x & m == m ==> !x & m == 0
    ensures x & m == 0 ==> !x & m == m
  {
  }

  lemma AllOrNone(y: bv64, z: bv64, m: bv64)
    ensures (m & (y & m)) ^ (0 & (z & m)) == y & m
    ensures (0 & (y & m)) ^ (m & (z & m)) == z & m
  {
  }

  lemma ChMasked(x: bv64, y: bv64, z: bv64, m: bv64)
    ensures Ch(x, y, z) & m == ((x & m) & (y & m)) ^ ((!x & m) & (z & m))
  {
    AndOverXor(x & y, !x & z, m);
    AndOverAnd(x, y, m);
    AndOverAnd(!x, z, m);
  }

  lemma ChTakesFirst(x: bv64, y: bv64, z: bv64, m: bv64)
    requires x & m == m
    ensures Ch(x, y, z) & m == y & m
  {
    ChMasked(x, y, z, m);
    NotMasked(x, m);
    AllOrNone(y, z, m);
  }

  lemma ChTakesSecond(x: bv64, y: bv64, z: bv64, m: bv64)
    requires x & m == 0
    ensures Ch(x, y, z) & m == z & m
  {
    ChMasked(x, y, z, m);
    NotMasked(x, m);
    AllOrNone(y, z, m);
  }

  lemma Chooses(x: bv64, y: bv64, z: bv64, m: bv64)
    ensures Choice(Ch(x, y, z), x, y, z, m)
  {
    if x & m == m {
      ChTakesFirst(x, y, z, m);
    }
    if x & m == 0 {
      ChTakesSecond(x, y, z, m);
    }
  }

  lemma PairCancels(x: bv64, y: bv64)
    ensures (x & x) ^ (x & y) ^ (x & y) == x
    ensures (x & y) ^ (x & x) ^ (y & x) == x
    ensures (y & x) ^ (y & x) ^ (x & x) == x
  {
  }

  lemma MajFollowsFirst(x: bv64, y: bv64, z: bv64, m: bv64)
    ensures Follows(Maj(x, y, z), x, y, m)
  {
    if x & m == y & m {
      AndOverXor((x & y) ^ (x & z), y & z, m);
      AndOverXor(x & y, x & z, m);
      AndOverAnd(x, y, m);
      AndOverAnd(x, z, m);
      AndOverAnd(y, z, m);
      PairCancels(x & m, z & m);
    }
  }

  lemma MajFollowsOuter(x: bv64, y: bv64, z: bv64, m: bv64)
    ensures Follows(Maj(x, y, z), x, z, m)
  {
    if x & m == z & m {
      AndOverXor((x & y) ^ (x & z), y & z, m);
      AndOverXor(x & y, x & z, m);
      AndOverAnd(x, y, m);
      AndOverAnd(x, z, m);
      AndOverAnd(y, z, m);
      PairCancels(x & m, y & m);
    }
  }

  lemma MajFollowsLast(x: bv64, y: bv64, z: bv64, m: bv64)
    ensures Follows(Maj(x, y, z), y, z, m)
  {
    if y & m == z & m {
      AndOverXor((x & y) ^ (x & z), y & z, m);
      AndOverXor(x & y, x & z, m);
      AndOverAnd(x, y, m);
      AndOverAnd(x, z, m);
      AndOverAnd(y, z, m);
      PairCancels(y & m, x & m);
    }
  }

  lemma Xor3Is(x: bv64, y: bv64, z: bv64, a: bv64, b: bv64, c: bv64)
    requires x == a && y == b && z == c
    ensures Xor3(x, y, z) == a ^ b ^ c
  {
  }

  lemma SigmasRotate(x: bv64)
    ensures BigSigma0(x) == x.RotateRight(28) ^ x.RotateRight(34) ^ x.RotateRight(39)
    ensures BigSigma1(x) == x.RotateRight(14) ^ x.RotateRight(18) ^ x.RotateRight(41)
    ensures SmallSigma0(x) == x.RotateRight(1) ^ x.RotateRight(8) ^ (x >> 7)
    ensures SmallSigma1(x) == x.RotateRight(19) ^ x.RotateRight(61) ^ (x >> 6)
  {
    ShiftsRotate(x);
    Xor3Is(R(x, 28), R(x, 34), R(x, 39), x.RotateRight(28), x.RotateRight(34), x.RotateRight(39));
    Xor3Is(R(x, 14), R(x, 18), R(x, 41), x.RotateRight(14), x.RotateRight(18), x.RotateRight(41));
    Xor3Is(R(x, 1), R(x, 8), x >> 7, x.RotateRight(1), x.RotateRight(8), x >> 7);
    Xor3Is(R(x, 19), R(x, 61), x >> 6, x.RotateRight(19), x.RotateRight(61), x >> 6);
  }

  lemma WordOfNumber(x: bv64)
    ensures Word(Number(x)) == x
  {
  }

  /** The four functions of one word that the hash is computed with. */
  lemma StandardSigmas(n: u64, x: bv64)
    requires x == Word(n)
    ensures Word(Standard().bigSigma0(n)) == x.RotateRight(28) ^ x.RotateRight(34) ^ x.RotateRight(39)
    ensures Word(Standard().bigSigma1(n)) == x.RotateRight(14) ^ x.RotateRight(18) ^ x.RotateRight(41)
    ensures Word(Standard().smallSigma0(n)) == x.RotateRight(1) ^ x.RotateRight(8) ^ (x >> 7)
    ensures Word(Standard().smallSigma1(n)) == x.RotateRight(19) ^ x.RotateRight(61) ^ (x >> 6)
  {
    SigmasRotate(x);
    WordOfNumber(BigSigma0(x));
    WordOfNumber(BigSigma1(x));
    WordOfNumber(SmallSigma0(x));
    WordOfNumber(SmallSigma1(x));
  }

  /** The choice and the majority that the hash is computed with. */
  lemma StandardChoices(i: u64, j: u64, k: u64, x: bv64, y: bv64, z: bv64, m: bv64)
    requires x == Word(i) && y == Word(j) && z == Word(k)
    ensures Choice(Word(Standard().ch(i, j, k)), x, y, z, m)
    ensures var w := Word(Standard().maj(i, j, k)); Follows(w, x, y, m) && Follows(w, x, z, m) && Follows(w, y, z, m)
  {
    Chooses(x, y, z, m);
    MajFollowsFirst(x, y, z, m);
    MajFollowsOuter(x, y, z, m);
    MajFollowsLast(x, y, z, m);
    WordOfNumber(Ch(x, y, z));
    WordOfNumber(Maj(x, y, z));
  }

  /** crypto_hash with its own functions and tables. */
  method Hash512(out: array<byte>, m: array<byte>, n: nat)
    requires out.Length == 64 && n <= m.Length && n < WRAP64
    modifies out
    ensures WordsOf(out[..]) == old(Hash(Standard(), IV, m[..n]))
  {
    CryptoHash(Standard(), IV, out, m, n);
  }
}
