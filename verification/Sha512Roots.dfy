/** The two tables of SHA-512 from the primes: section 4.2.3 of FIPS 180-4 takes the round constants
    from cube roots, section 5.3.5 the initial hash value from square roots. */
module Sha512Roots {
  import opened Limbs
  import opened Machine
  import opened Octets
  import opened Sha512
  import opened Sha512Words

  const WRAP128: int := 0x1_0000_0000_0000_0000_0000_0000_0000_0000
  const WRAP192: int := 0x1_0000_0000_0000_0000_0000_0000_0000_0000_0000_0000_0000_0000

  /** The first eighty primes. */
  const PRIMES: seq<nat> :=
    [2, 3, 5, 7, 11, 13, 17, 19] +
    [23, 29, 31, 37, 41, 43, 47, 53] +
    [59, 61, 67, 71, 73, 79, 83, 89] +
    [97, 101, 103, 107, 109, 113, 127, 131] +
    [137, 139, 149, 151, 157, 163, 167, 173] +
    [179, 181, 191, 193, 197, 199, 211, 223] +
    [227, 229, 233, 239, 241, 251, 257, 263] +
    [269, 271, 277, 281, 283, 293, 307, 311] +
    [313, 317, 331, 337, 347, 349, 353, 359] +
    [367, 373, 379, 383, 389, 397, 401, 409]

  /** r and after it the 64 bits of k are the cube root of p, cut there. */
  ghost predicate CubeRoot(p: nat, r: nat, k: nat) {
    var n := r * WRAP64 + k;
    k < WRAP64 && n * n * n <= p * WRAP192 < (n + 1) * (n + 1) * (n + 1)
  }

  ghost predicate SquareRoot(p: nat, r: nat, k: nat) {
    var n := r * WRAP64 + k;
    k < WRAP64 && n * n <= p * WRAP128 < (n + 1) * (n + 1)
  }

  /** k is the first 64 bits of the fractional part of the root. */
  ghost predicate CubeFraction(p: nat, k: nat) { exists r: nat :: CubeRoot(p, r, k) }

  ghost predicate SquareFraction(p: nat, k: nat) { exists r: nat :: SquareRoot(p, r, k) }

  lemma Entries0()
    ensures K[0] == 0x428a2f98d728ae22
    ensures K[1] == 0x7137449123ef65cd
    ensures K[2] == 0xb5c0fbcfec4d3b2f
    ensures K[3] == 0xe9b5dba58189dbbc
    ensures K[4] == 0x3956c25bf348b538
    ensures K[5] == 0x59f111f1b605d019
    ensures K[6] == 0x923f82a4af194f9b
    ensures K[7] == 0xab1c5ed5da6d8118
  {
  }

  lemma Primes0()
    ensures PRIMES[0] == 2
    ensures PRIMES[1] == 3
    ensures PRIMES[2] == 5
    ensures PRIMES[3] == 7
    ensures PRIMES[4] == 11
    ensures PRIMES[5] == 13
    ensures PRIMES[6] == 17
    ensures PRIMES[7] == 19
  {
  }

  lemma Entries8()
    ensures K[8] == 0xd807aa98a3030242
    ensures K[9] == 0x12835b0145706fbe
    ensures K[10] == 0x243185be4ee4b28c
    ensures K[11] == 0x550c7dc3d5ffb4e2
    ensures K[12] == 0x72be5d74f27b896f
    ensures K[13] == 0x80deb1fe3b1696b1
    ensures K[14] == 0x9bdc06a725c71235
    ensures K[15] == 0xc19bf174cf692694
  {
  }

  lemma Primes8()
    ensures PRIMES[8] == 23
    ensures PRIMES[9] == 29
    ensures PRIMES[10] == 31
    ensures PRIMES[11] == 37
    ensures PRIMES[12] == 41
    ensures PRIMES[13] == 43
    ensures PRIMES[14] == 47
    ensures PRIMES[15] == 53
  {
  }

  lemma Entries16()
    ensures K[16] == 0xe49b69c19ef14ad2
    ensures K[17] == 0xefbe4786384f25e3
    ensures K[18] == 0x0fc19dc68b8cd5b5
    ensures K[19] == 0x240ca1cc77ac9c65
    ensures K[20] == 0x2de92c6f592b0275
    ensures K[21] == 0x4a7484aa6ea6e483
    ensures K[22] == 0x5cb0a9dcbd41fbd4
    ensures K[23] == 0x76f988da831153b5
  {
  }

  lemma Primes16()
    ensures PRIMES[16] == 59
    ensures PRIMES[17] == 61
    ensures PRIMES[18] == 67
    ensures PRIMES[19] == 71
    ensures PRIMES[20] == 73
    ensures PRIMES[21] == 79
    ensures PRIMES[22] == 83
    ensures PRIMES[23] == 89
  {
  }

  lemma Entries24()
    ensures K[24] == 0x983e5152ee66dfab
    ensures K[25] == 0xa831c66d2db43210
    ensures K[26] == 0xb00327c898fb213f
    ensures K[27] == 0xbf597fc7beef0ee4
    ensures K[28] == 0xc6e00bf33da88fc2
    ensures K[29] == 0xd5a79147930aa725
    ensures K[30] == 0x06ca6351e003826f
    ensures K[31] == 0x142929670a0e6e70
  {
  }

  lemma Primes24()
    ensures PRIMES[24] == 97
    ensures PRIMES[25] == 101
    ensures PRIMES[26] == 103
    ensures PRIMES[27] == 107
    ensures PRIMES[28] == 109
    ensures PRIMES[29] == 113
    ensures PRIMES[30] == 127
    ensures PRIMES[31] == 131
  {
  }

  lemma Entries32()
    ensures K[32] == 0x27b70a8546d22ffc
    ensures K[33] == 0x2e1b21385c26c926
    ensures K[34] == 0x4d2c6dfc5ac42aed
    ensures K[35] == 0x53380d139d95b3df
    ensures K[36] == 0x650a73548baf63de
    ensures K[37] == 0x766a0abb3c77b2a8
    ensures K[38] == 0x81c2c92e47edaee6
    ensures K[39] == 0x92722c851482353b
  {
  }

  lemma Primes32()
    ensures PRIMES[32] == 137
    ensures PRIMES[33] == 139
    ensures PRIMES[34] == 149
    ensures PRIMES[35] == 151
    ensures PRIMES[36] == 157
    ensures PRIMES[37] == 163
    ensures PRIMES[38] == 167
    ensures PRIMES[39] == 173
  {
  }

  lemma Entries40()
    ensures K[40] == 0xa2bfe8a14cf10364
    ensures K[41] == 0xa81a664bbc423001
    ensures K[42] == 0xc24b8b70d0f89791
    ensures K[43] == 0xc76c51a30654be30
    ensures K[44] == 0xd192e819d6ef5218
    ensures K[45] == 0xd69906245565a910
    ensures K[46] == 0xf40e35855771202a
    ensures K[47] == 0x106aa07032bbd1b8
  {
  }

  lemma Primes40()
    ensures PRIMES[40] == 179
    ensures PRIMES[41] == 181
    ensures PRIMES[42] == 191
    ensures PRIMES[43] == 193
    ensures PRIMES[44] == 197
    ensures PRIMES[45] == 199
    ensures PRIMES[46] == 211
    ensures PRIMES[47] == 223
  {
  }

  lemma Entries48()
    ensures K[48] == 0x19a4c116b8d2d0c8
    ensures K[49] == 0x1e376c085141ab53
    ensures K[50] == 0x2748774cdf8eeb99
    ensures K[51] == 0x34b0bcb5e19b48a8
    ensures K[52] == 0x391c0cb3c5c95a63
    ensures K[53] == 0x4ed8aa4ae3418acb
    ensures K[54] == 0x5b9cca4f7763e373
    ensures K[55] == 0x682e6ff3d6b2b8a3
  {
  }

  lemma Primes48()
    ensures PRIMES[48] == 227
    ensures PRIMES[49] == 229
    ensures PRIMES[50] == 233
    ensures PRIMES[51] == 239
    ensures PRIMES[52] == 241
    ensures PRIMES[53] == 251
    ensures PRIMES[54] == 257
    ensures PRIMES[55] == 263
  {
  }

  lemma Entries56()
    ensures K[56] == 0x748f82ee5defb2fc
    ensures K[57] == 0x78a5636f43172f60
    ensures K[58] == 0x84c87814a1f0ab72
    ensures K[59] == 0x8cc702081a6439ec
    ensures K[60] == 0x90befffa23631e28
    ensures K[61] == 0xa4506cebde82bde9
    ensures K[62] == 0xbef9a3f7b2c67915
    ensures K[63] == 0xc67178f2e372532b
  {
  }

  lemma Primes56()
    ensures PRIMES[56] == 269
    ensures PRIMES[57] == 271
    ensures PRIMES[58] == 277
    ensures PRIMES[59] == 281
    ensures PRIMES[60] == 283
    ensures PRIMES[61] == 293
    ensures PRIMES[62] == 307
    ensures PRIMES[63] == 311
  {
  }

  lemma Entries64()
    ensures K[64] == 0xca273eceea26619c
    ensures K[65] == 0xd186b8c721c0c207
    ensures K[66] == 0xeada7dd6cde0eb1e
    ensures K[67] == 0xf57d4f7fee6ed178
    ensures K[68] == 0x06f067aa72176fba
    ensures K[69] == 0x0a637dc5a2c898a6
    ensures K[70] == 0x113f9804bef90dae
    ensures K[71] == 0x1b710b35131c471b
  {
  }

  lemma Primes64()
    ensures PRIMES[64] == 313
    ensures PRIMES[65] == 317
    ensures PRIMES[66] == 331
    ensures PRIMES[67] == 337
    ensures PRIMES[68] == 347
    ensures PRIMES[69] == 349
    ensures PRIMES[70] == 353
    ensures PRIMES[71] == 359
  {
  }

  lemma Entries72()
    ensures K[72] == 0x28db77f523047d84
    ensures K[73] == 0x32caab7b40c72493
    ensures K[74] == 0x3c9ebe0a15c9bebc
    ensures K[75] == 0x431d67c49c100d4c
    ensures K[76] == 0x4cc5d4becb3e42b6
    ensures K[77] == 0x597f299cfc657e2a
    ensures K[78] == 0x5fcb6fab3ad6faec
    ensures K[79] == 0x6c44198c4a475817
  {
  }

  lemma Primes72()
    ensures PRIMES[72] == 367
    ensures PRIMES[73] == 373
    ensures PRIMES[74] == 379
    ensures PRIMES[75] == 383
    ensures PRIMES[76] == 389
    ensures PRIMES[77] == 397
    ensures PRIMES[78] == 401
    ensures PRIMES[79] == 409
  {
  }

  lemma IsFraction(p: nat, r: nat, k: nat)
    requires CubeRoot(p, r, k)
    ensures CubeFraction(p, k)
  {
  }

  lemma Row0(t: nat)
    requires 0 <= t < 8
    ensures CubeFraction(PRIMES[t], K[t])
  {
    Entries0();
    Primes0();
    if t == 0 {
      IsFraction(2, 1, 0x428a2f98d728ae22);
    } else if t == 1 {
      IsFraction(3, 1, 0x7137449123ef65cd);
    } else if t == 2 {
      IsFraction(5, 1, 0xb5c0fbcfec4d3b2f);
    } else if t == 3 {
      IsFraction(7, 1, 0xe9b5dba58189dbbc);
    } else if t == 4 {
      IsFraction(11, 2, 0x3956c25bf348b538);
    } else if t == 5 {
      IsFraction(13, 2, 0x59f111f1b605d019);
    } else if t == 6 {
      IsFraction(17, 2, 0x923f82a4af194f9b);
    } else {
      IsFraction(19, 2, 0xab1c5ed5da6d8118);
    }
  }

  lemma Row8(t: nat)
    requires 8 <= t < 16
    ensures CubeFraction(PRIMES[t], K[t])
  {
    Entries8();
    Primes8();
    if t == 8 {
      IsFraction(23, 2, 0xd807aa98a3030242);
    } else if t == 9 {
      IsFraction(29, 3, 0x12835b0145706fbe);
    } else if t == 10 {
      IsFraction(31, 3, 0x243185be4ee4b28c);
    } else if t == 11 {
      IsFraction(37, 3, 0x550c7dc3d5ffb4e2);
    } else if t == 12 {
      IsFraction(41, 3, 0x72be5d74f27b896f);
    } else if t == 13 {
      IsFraction(43, 3, 0x80deb1fe3b1696b1);
    } else if t == 14 {
      IsFraction(47, 3, 0x9bdc06a725c71235);
    } else {
      IsFraction(53, 3, 0xc19bf174cf692694);
    }
  }

  lemma Row16(t: nat)
    requires 16 <= t < 24
    ensures CubeFraction(PRIMES[t], K[t])
  {
    Entries16();
    Primes16();
    if t == 16 {
      IsFraction(59, 3, 0xe49b69c19ef14ad2);
    } else if t == 17 {
      IsFraction(61, 3, 0xefbe4786384f25e3);
    } else if t == 18 {
      IsFraction(67, 4, 0x0fc19dc68b8cd5b5);
    } else if t == 19 {
      IsFraction(71, 4, 0x240ca1cc77ac9c65);
    } else if t == 20 {
      IsFraction(73, 4, 0x2de92c6f592b0275);
    } else if t == 21 {
      IsFraction(79, 4, 0x4a7484aa6ea6e483);
    } else if t == 22 {
      IsFraction(83, 4, 0x5cb0a9dcbd41fbd4);
    } else {
      IsFraction(89, 4, 0x76f988da831153b5);
    }
  }

  lemma Row24(t: nat)
    requires 24 <= t < 32
    ensures CubeFraction(PRIMES[t], K[t])
  {
    Entries24();
    Primes24();
    if t == 24 {
      IsFraction(97, 4, 0x983e5152ee66dfab);
    } else if t == 25 {
      IsFraction(101, 4, 0xa831c66d2db43210);
    } else if t == 26 {
      IsFraction(103, 4, 0xb00327c898fb213f);
    } else if t == 27 {
      IsFraction(107, 4, 0xbf597fc7beef0ee4);
    } else if t == 28 {
      IsFraction(109, 4, 0xc6e00bf33da88fc2);
    } else if t == 29 {
      IsFraction(113, 4, 0xd5a79147930aa725);
    } else if t == 30 {
      IsFraction(127, 5, 0x06ca6351e003826f);
    } else {
      IsFraction(131, 5, 0x142929670a0e6e70);
    }
  }

  lemma Row32(t: nat)
    requires 32 <= t < 40
    ensures CubeFraction(PRIMES[t], K[t])
  {
    Entries32();
    Primes32();
    if t == 32 {
      IsFraction(137, 5, 0x27b70a8546d22ffc);
    } else if t == 33 {
      IsFraction(139, 5, 0x2e1b21385c26c926);
    } else if t == 34 {
      IsFraction(149, 5, 0x4d2c6dfc5ac42aed);
    } else if t == 35 {
      IsFraction(151, 5, 0x53380d139d95b3df);
    } else if t == 36 {
      IsFraction(157, 5, 0x650a73548baf63de);
    } else if t == 37 {
      IsFraction(163, 5, 0x766a0abb3c77b2a8);
    } else if t == 38 {
      IsFraction(167, 5, 0x81c2c92e47edaee6);
    } else {
      IsFraction(173, 5, 0x92722c851482353b);
    }
  }

  lemma Row40(t: nat)
    requires 40 <= t < 48
    ensures CubeFraction(PRIMES[t], K[t])
  {
    Entries40();
    Primes40();
    if t == 40 {
      IsFraction(179, 5, 0xa2bfe8a14cf10364);
    } else if t == 41 {
      IsFraction(181, 5, 0xa81a664bbc423001);
    } else if t == 42 {
      IsFraction(191, 5, 0xc24b8b70d0f89791);
    } else if t == 43 {
      IsFraction(193, 5, 0xc76c51a30654be30);
    } else if t == 44 {
      IsFraction(197, 5, 0xd192e819d6ef5218);
    } else if t == 45 {
      IsFraction(199, 5, 0xd69906245565a910);
    } else if t == 46 {
      IsFraction(211, 5, 0xf40e35855771202a);
    } else {
      IsFraction(223, 6, 0x106aa07032bbd1b8);
    }
  }

  lemma Row48(t: nat)
    requires 48 <= t < 56
    ensures CubeFraction(PRIMES[t], K[t])
  {
    Entries48();
    Primes48();
    if t == 48 {
      IsFraction(227, 6, 0x19a4c116b8d2d0c8);
    } else if t == 49 {
      IsFraction(229, 6, 0x1e376c085141ab53);
    } else if t == 50 {
      IsFraction(233, 6, 0x2748774cdf8eeb99);
    } else if t == 51 {
      IsFraction(239, 6, 0x34b0bcb5e19b48a8);
    } else if t == 52 {
      IsFraction(241, 6, 0x391c0cb3c5c95a63);
    } else if t == 53 {
      IsFraction(251, 6, 0x4ed8aa4ae3418acb);
    } else if t == 54 {
      IsFraction(257, 6, 0x5b9cca4f7763e373);
    } else {
      IsFraction(263, 6, 0x682e6ff3d6b2b8a3);
    }
  }

  lemma Row56(t: nat)
    requires 56 <= t < 64
    ensures CubeFraction(PRIMES[t], K[t])
  {
    Entries56();
    Primes56();
    if t == 56 {
      IsFraction(269, 6, 0x748f82ee5defb2fc);
    } else if t == 57 {
      IsFraction(271, 6, 0x78a5636f43172f60);
    } else if t == 58 {
      IsFraction(277, 6, 0x84c87814a1f0ab72);
    } else if t == 59 {
      IsFraction(281, 6, 0x8cc702081a6439ec);
    } else if t == 60 {
      IsFraction(283, 6, 0x90befffa23631e28);
    } else if t == 61 {
      IsFraction(293, 6, 0xa4506cebde82bde9);
    } else if t == 62 {
      IsFraction(307, 6, 0xbef9a3f7b2c67915);
    } else {
      IsFraction(311, 6, 0xc67178f2e372532b);
    }
  }

  lemma Row64(t: nat)
    requires 64 <= t < 72
    ensures CubeFraction(PRIMES[t], K[t])
  {
    Entries64();
    Primes64();
    if t == 64 {
      IsFraction(313, 6, 0xca273eceea26619c);
    } else if t == 65 {
      IsFraction(317, 6, 0xd186b8c721c0c207);
    } else if t == 66 {
      IsFraction(331, 6, 0xeada7dd6cde0eb1e);
    } else if t == 67 {
      IsFraction(337, 6, 0xf57d4f7fee6ed178);
    } else if t == 68 {
      IsFraction(347, 7, 0x06f067aa72176fba);
    } else if t == 69 {
      IsFraction(349, 7, 0x0a637dc5a2c898a6);
    } else if t == 70 {
      IsFraction(353, 7, 0x113f9804bef90dae);
    } else {
      IsFraction(359, 7, 0x1b710b35131c471b);
    }
  }

  lemma Row72(t: nat)
    requires 72 <= t < 80
    ensures CubeFraction(PRIMES[t], K[t])
  {
    Entries72();
    Primes72();
    if t == 72 {
      IsFraction(367, 7, 0x28db77f523047d84);
    } else if t == 73 {
      IsFraction(373, 7, 0x32caab7b40c72493);
    } else if t == 74 {
      IsFraction(379, 7, 0x3c9ebe0a15c9bebc);
    } else if t == 75 {
      IsFraction(383, 7, 0x431d67c49c100d4c);
    } else if t == 76 {
      IsFraction(389, 7, 0x4cc5d4becb3e42b6);
    } else if t == 77 {
      IsFraction(397, 7, 0x597f299cfc657e2a);
    } else if t == 78 {
      IsFraction(401, 7, 0x5fcb6fab3ad6faec);
    } else {
      IsFraction(409, 7, 0x6c44198c4a475817);
    }
  }

  /** The round constants are taken from the cube roots of the first eighty primes. */
  lemma ConstantsAreCubeRoots(t: nat)
    requires t < 80
    ensures CubeFraction(PRIMES[t], Standard().k(t))
  {
    assert |K| == 80;
    if t < 8 {
      Row0(t);
    } else if t < 16 {
      Row8(t);
    } else if t < 24 {
      Row16(t);
    } else if t < 32 {
      Row24(t);
    } else if t < 40 {
      Row32(t);
    } else if t < 48 {
      Row40(t);
    } else if t < 56 {
      Row48(t);
    } else if t < 64 {
      Row56(t);
    } else if t < 72 {
      Row64(t);
    } else {
      Row72(t);
    }
  }

  function Grow(x: nat, b: byte): nat { x * 256 + b }

  lemma EightBytes(b: seq<byte>)
    requires |b| == 8
    ensures BigEndian(b) == Grow(Grow(Grow(Grow(Grow(Grow(Grow(Grow(0, b[0]), b[1]), b[2]), b[3]), b[4]), b[5]), b[6]), b[7])
  {
    assert b[..7][..6] == b[..6] && b[..6][..5] == b[..5] && b[..5][..4] == b[..4];
    assert b[..4][..3] == b[..3] && b[..3][..2] == b[..2] && b[..2][..1] == b[..1] && b[..1][..0] == [];
    var x := Grow(Grow(Grow(Grow(0, b[0]), b[1]), b[2]), b[3]);
    assert BigEndian(b[..1]) == Grow(0, b[0]);
    assert BigEndian(b[..2]) == Grow(Grow(0, b[0]), b[1]);
    assert BigEndian(b[..4]) == x;
    assert BigEndian(b[..6]) == Grow(Grow(x, b[4]), b[5]);
  }

  lemma Start0()
    ensures SquareFraction(2, BigEndian(IV[0..8]))
  {
    var b: seq<byte> := [0x6a, 0x09, 0xe6, 0x67, 0xf3, 0xbc, 0xc9, 0x08];
    assert IV[0..8] == b;
    EightBytes(b);
    assert SquareRoot(2, 1, 0x6a09e667f3bcc908);
  }

  lemma Start1()
    ensures SquareFraction(3, BigEndian(IV[8..16]))
  {
    var b: seq<byte> := [0xbb, 0x67, 0xae, 0x85, 0x84, 0xca, 0xa7, 0x3b];
    assert IV[8..16] == b;
    EightBytes(b);
    assert SquareRoot(3, 1, 0xbb67ae8584caa73b);
  }

  lemma Start2()
    ensures SquareFraction(5, BigEndian(IV[16..24]))
  {
    var b: seq<byte> := [0x3c, 0x6e, 0xf3, 0x72, 0xfe, 0x94, 0xf8, 0x2b];
    assert IV[16..24] == b;
    EightBytes(b);
    assert SquareRoot(5, 2, 0x3c6ef372fe94f82b);
  }

  lemma Start3()
    ensures SquareFraction(7, BigEndian(IV[24..32]))
  {
    var b: seq<byte> := [0xa5, 0x4f, 0xf5, 0x3a, 0x5f, 0x1d, 0x36, 0xf1];
    assert IV[24..32] == b;
    EightBytes(b);
    assert SquareRoot(7, 2, 0xa54ff53a5f1d36f1);
  }

  lemma Start4()
    ensures SquareFraction(11, BigEndian(IV[32..40]))
  {
    var b: seq<byte> := [0x51, 0x0e, 0x52, 0x7f, 0xad, 0xe6, 0x82, 0xd1];
    assert IV[32..40] == b;
    EightBytes(b);
    assert SquareRoot(11, 3, 0x510e527fade682d1);
  }

  lemma Start5()
    ensures SquareFraction(13, BigEndian(IV[40..48]))
  {
    var b: seq<byte> := [0x9b, 0x05, 0x68, 0x8c, 0x2b, 0x3e, 0x6c, 0x1f];
    assert IV[40..48] == b;
    EightBytes(b);
    assert SquareRoot(13, 3, 0x9b05688c2b3e6c1f);
  }

  lemma Start6()
    ensures SquareFraction(17, BigEndian(IV[48..56]))
  {
    var b: seq<byte> := [0x1f, 0x83, 0xd9, 0xab, 0xfb, 0x41, 0xbd, 0x6b];
    assert IV[48..56] == b;
    EightBytes(b);
    assert SquareRoot(17, 4, 0x1f83d9abfb41bd6b);
  }

  lemma Start7()
    ensures SquareFraction(19, BigEndian(IV[56..64]))
  {
    var b: seq<byte> := [0x5b, 0xe0, 0xcd, 0x19, 0x13, 0x7e, 0x21, 0x79];
    assert IV[56..64] == b;
    EightBytes(b);
    assert SquareRoot(19, 4, 0x5be0cd19137e2179);
  }

  /** The initial hash value is taken from the square roots of the first eight. */
  lemma StartIsSquareRoots(j: nat)
    requires j < 8
    ensures SquareFraction(PRIMES[j], BigEndian(IV[8 * j..8 * j + 8]))
  {
    Primes0();
    if j == 0 {
      Start0();
    } else if j == 1 {
      Start1();
    } else if j == 2 {
      Start2();
    } else if j == 3 {
      Start3();
    } else if j == 4 {
      Start4();
    } else if j == 5 {
      Start5();
    } else if j == 6 {
      Start6();
    } else {
      Start7();
    }
  }
}
