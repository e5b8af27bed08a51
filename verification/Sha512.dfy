/** SHA-512 of section 6.4 of FIPS 180-4, and the code that keeps only sixteen
    words of the message schedule and pads in one or two blocks. */
module Sha512 {
  import opened Limbs
  import opened ModArith
  import opened Machine
  import opened Octets

  type u64 = x: int | 0 <= x < 0x1_0000_0000_0000_0000

  /** Eight working variables, sixteen message words, one 1024-bit block. */
  type Eight = s: seq<u64> | |s| == 8 witness seq(8, i => 0)
  type Sixteen = s: seq<u64> | |s| == 16 witness seq(16, i => 0)
  type Chunk = s: seq<byte> | |s| == 128 witness seq(128, i => 0)

  /** The word functions and the table of section 4; nothing below depends on
      which functions they are. */
  datatype Mix = Mix(bigSigma0: u64 -> u64, bigSigma1: u64 -> u64, smallSigma0: u64 -> u64, smallSigma1: u64 -> u64,
                     ch: (u64, u64, u64) -> u64, maj: (u64, u64, u64) -> u64, k: nat -> u64)

  // ---- the standard -----------------------------------------------------------------

  /** Word t of the expanded message, 0 <= t < 80. */
  ghost function W(mix: Mix, m: Sixteen, t: nat): u64
    decreases t, m
  {
    if t < 16 then m[t]
    else (mix.smallSigma1(W(mix, m, t - 2)) as int + W(mix, m, t - 7) + mix.smallSigma0(W(mix, m, t - 15)) + W(mix, m, t - 16)) % WRAP64
  }

  /** One step of the compression loop on the working variables a .. h. */
  ghost function Round(mix: Mix, s: Eight, k: u64, w: u64): Eight {
    var t1 := (s[7] as int + mix.bigSigma1(s[4]) + mix.ch(s[4], s[5], s[6]) + k + w) % WRAP64;
    var t2 := (mix.bigSigma0(s[0]) as int + mix.maj(s[0], s[1], s[2])) % WRAP64;
    [(t1 + t2) % WRAP64, s[0], s[1], s[2], (s[3] as int + t1) % WRAP64, s[4], s[5], s[6]]
  }

  /** Step t of the compression, over the expanded words f. */
  ghost function RoundAt(mix: Mix, f: nat -> u64): (Eight, nat) -> Eight {
    (s, t) => Round(mix, s, mix.k(t), f(t))
  }

  /** The first t steps. */
  ghost function Rounds(g: (Eight, nat) -> Eight, s: Eight, t: nat): Eight
    decreases t, s
  {
    if t == 0 then s else g(Rounds(g, s, t - 1), t - 1)
  }

  ghost function Plus(s: Eight, t: Eight): Eight {
    seq(8, i requires 0 <= i < 8 => (s[i] as int + t[i]) % WRAP64)
  }

  ghost function Compress(mix: Mix, s: Eight, m: Sixteen): Eight {
    Plus(Rounds(RoundAt(mix, t => W(mix, m, t)), s, 80), s)
  }

  /** The 64-bit big-endian words of a byte string. */
  ghost function WordsOf(s: seq<byte>): (w: seq<u64>)
    requires |s| % 8 == 0
    ensures |w| == |s| / 8
  {
    seq(|s| / 8, i requires 0 <= i < |s| / 8 => WordAt(s, i))
  }

  ghost function WordAt(s: seq<byte>, i: nat): u64
    requires 8 * i + 8 <= |s|
  {
    BigEndianBound(s[8 * i..8 * i + 8]);
    Pow256To8();
    BigEndian(s[8 * i..8 * i + 8])
  }

  /** What one block of bytes does to the hash value. */
  ghost function Step(mix: Mix): (Eight, Chunk) -> Eight {
    (s, b) => Compress(mix, s, WordsOf(b))
  }

  /** The hash value after the first n blocks, block by block under f. */
  ghost function Blocks(f: (Eight, Chunk) -> Eight, h: Eight, m: seq<byte>, n: nat): Eight
    requires 128 * n <= |m|
    decreases n, h
  {
    if n == 0 then h else f(Blocks(f, h, m, n - 1), m[128 * (n - 1)..128 * n])
  }

  /** Section 5.1.2: a one bit, zeros to 896 bits modulo 1024, the bit length in 128 bits. */
  function Pad(m: seq<byte>): (p: seq<byte>)
    ensures |p| % 128 == 0 && m <= p
  {
    m + [128] + Zeros((111 - |m|) % 128) + ToBigEndian(8 * |m|, 16)
  }

  ghost function Hash(mix: Mix, iv: seq<byte>, m: seq<byte>): Eight
    requires |iv| == 64
  {
    Blocks(Step(mix), WordsOf(iv), Pad(m), |Pad(m)| / 128)
  }

  // ---- bytes and words ----------------------------------------------------------------

  /** A byte string of whole words is determined by its words. */
  lemma WordsDetermine(s: seq<byte>, t: seq<byte>)
    requires |s| == |t| && |s| % 8 == 0 && WordsOf(s) == WordsOf(t)
    ensures s == t
  {
    forall j | 0 <= j < |s|
      ensures s[j] == t[j]
    {
      var i := j / 8;
      assert WordsOf(s)[i] == WordsOf(t)[i];
      ToBigEndianBack(s[8 * i..8 * i + 8]);
      ToBigEndianBack(t[8 * i..8 * i + 8]);
      assert s[j] == s[8 * i..8 * i + 8][j - 8 * i] == t[8 * i..8 * i + 8][j - 8 * i];
    }
  }

  /** dl64 */
  method LoadWord(x: array<byte>, o: nat) returns (u: u64)
    requires o + 8 <= x.Length
    ensures u == BigEndian(x[o..o + 8])
  {
    u := 0;
    Pow256To8();
    for i := 0 to 8
      invariant u == BigEndian(x[o..o + i])
    {
      assert x[o..o + i + 1][..i] == x[o..o + i];
      BigEndianBound(x[o..o + i + 1]);
      PowMonotone(i + 1, 8);
      u := u as int * 256 + x[o + i];
    }
  }

  /** ts64 */
  method StoreWord(x: array<byte>, o: nat, w: u64)
    requires o + 8 <= x.Length
    modifies x
    ensures x[o..o + 8] == ToBigEndian(w, 8)
    ensures x[..o] == old(x[..o]) && x[o + 8..] == old(x[o + 8..])
  {
    var u := w;
    for i := 8 downto 0
      invariant ToBigEndian(u, i) + x[o + i..o + 8] == ToBigEndian(w, 8)
      invariant x[..o] == old(x[..o]) && x[o + 8..] == old(x[o + 8..])
    {
      ghost var done := x[o + i + 1..o + 8];
      x[o + i] := u as int % 256;
      assert x[o + i..o + 8] == [u as int % 256] + done;
      assert ToBigEndian(u, i + 1) == ToBigEndian(u / 256, i) + [u as int % 256];
      u := u / 256;
    }
  }

  // ---- the rounds ------------------------------------------------------------------------

  method CopyEight(b: array<u64>, a: array<u64>)
    requires a.Length == b.Length == 8
    modifies b
    ensures b[..] == old(a[..])
  {
    for j := 0 to 8
      invariant forall i :: 0 <= i < 8 ==> a[i] == old(a[i])
      invariant forall i :: 0 <= i < j ==> b[i] == old(a[i])
    {
      b[j] := a[j];
    }
  }

  /** The eight words move one place up, the last to the front. */
  method RotateInto(a: array<u64>, b: array<u64>)
    requires a.Length == b.Length == 8 && a != b
    modifies a
    ensures a[..] == [b[7]] + b[..7]
  {
    for j := 0 to 8
      invariant forall i :: 1 <= i <= j && i < 8 ==> a[i] == b[i - 1]
      invariant j == 8 ==> a[0] == b[7]
    {
      a[(j + 1) % 8] := b[j];
    }
  }

  /** The code adds in one sum what the standard adds in two. */
  lemma RoundIs(mix: Mix, s: Eight, k: u64, w: u64, t: u64, top: u64, mid: u64)
    requires t == (s[7] as int + mix.bigSigma1(s[4]) + mix.ch(s[4], s[5], s[6]) + k + w) % WRAP64
    requires top == (t as int + mix.bigSigma0(s[0]) + mix.maj(s[0], s[1], s[2])) % WRAP64
    requires mid == (s[3] as int + t) % WRAP64
    ensures var b := s[7 := top][3 := mid];
            [b[7]] + b[..7] == Round(mix, s, k, w)
  {
    RoundSums(t, mix.bigSigma0(s[0]), mix.maj(s[0], s[1], s[2]));
  }

  lemma RoundSums(t: int, y: int, z: int)
    requires 0 <= t < WRAP64
    ensures (t + (y + z) % WRAP64) % WRAP64 == (t + y + z) % WRAP64
  {
  }

  /** The body of the round loop, without the schedule update. */
  method RoundStep(mix: Mix, a: array<u64>, b: array<u64>, k: u64, w: u64)
    requires a.Length == b.Length == 8 && a != b
    modifies a, b
    ensures a[..] == Round(mix, old(a[..]), k, w)
  {
    ghost var s: seq<u64> := a[..];
    CopyEight(b, a);
    assert a[..] == s && b[..] == s;
    var t: u64 := (a[7] as int + mix.bigSigma1(a[4]) + mix.ch(a[4], a[5], a[6]) + k + w) % WRAP64;
    var top: u64 := (t as int + mix.bigSigma0(a[0]) + mix.maj(a[0], a[1], a[2])) % WRAP64;
    var mid: u64 := (b[3] as int + t) % WRAP64;
    b[7] := top;
    b[3] := mid;
    assert b[..] == s[7 := top][3 := mid];
    RoundIs(mix, s, k, w, t, top, mid);
    RotateInto(a, b);
  }

  // ---- the schedule ----------------------------------------------------------------------

  /** f is an expanded message: from word 16 on it follows the recurrence. */
  ghost predicate Expands(mix: Mix, f: nat -> u64) {
    forall t: nat :: t >= 16 ==> ExpandsAt(mix, f, t)
  }

  ghost predicate ExpandsAt(mix: Mix, f: nat -> u64, t: nat)
    requires t >= 16
  {
    f(t) == (mix.smallSigma1(f(t - 2)) as int + f(t - 7) + mix.smallSigma0(f(t - 15)) + f(t - 16)) % WRAP64
  }

  /** Sixteen expanded words from word t, of which the first j have moved on by sixteen. */
  ghost predicate Window(f: nat -> u64, w: Sixteen, t: nat, j: nat)
    requires j <= 16
  {
    && (forall i :: 0 <= i < j ==> w[i] == f(t + 16 + i))
    && (forall i :: j <= i < 16 ==> w[i] == f(t + i))
  }

  /** Looking d places ahead, around the end, finds expanded word t + j + d. */
  lemma Ahead(f: nat -> u64, w: Sixteen, t: nat, j: nat, d: nat)
    requires j < 16 && d < 16 && Window(f, w, t, j)
    ensures w[(j + d) % 16] == f(t + j + d)
  {
    var i := (j + d) % 16;
    if j + d < 16 {
      assert i == j + d;
      assert w[i] == f(t + i);
    } else {
      assert i == j + d - 16;
      assert w[i] == f(t + 16 + i);
    }
  }

  /** The word the code puts in place j. */
  function Moved(mix: Mix, w: Sixteen, j: nat): u64
    requires j < 16
  {
    (w[j] as int + (w[(j + 9) % 16] as int + mix.smallSigma0(w[(j + 1) % 16]) + mix.smallSigma1(w[(j + 14) % 16]))) % WRAP64
  }

  lemma FourAhead(f: nat -> u64, w: Sixteen, t: nat, j: nat, n: nat)
    requires j < 16 && Window(f, w, t, j) && n == t + 16 + j
    ensures w[j] == f(n - 16) && w[(j + 9) % 16] == f(n - 7) && w[(j + 1) % 16] == f(n - 15) && w[(j + 14) % 16] == f(n - 2)
  {
    Ahead(f, w, t, j, 0);
    Ahead(f, w, t, j, 9);
    Ahead(f, w, t, j, 1);
    Ahead(f, w, t, j, 14);
  }

  lemma MovedIs(mix: Mix, f: nat -> u64, w: Sixteen, j: nat, n: nat)
    requires j < 16 && n >= 16 && ExpandsAt(mix, f, n)
    requires w[j] == f(n - 16) && w[(j + 9) % 16] == f(n - 7) && w[(j + 1) % 16] == f(n - 15) && w[(j + 14) % 16] == f(n - 2)
    ensures Moved(mix, w, j) == f(n)
  {
    NextWord(mix, f, n, w[j], w[(j + 9) % 16], w[(j + 1) % 16], w[(j + 14) % 16]);
  }

  lemma NextWord(mix: Mix, f: nat -> u64, n: nat, w0: u64, w9: u64, w1: u64, w14: u64)
    requires n >= 16 && ExpandsAt(mix, f, n)
    requires w0 == f(n - 16) && w9 == f(n - 7) && w1 == f(n - 15) && w14 == f(n - 2)
    ensures f(n) == (w0 as int + (w9 as int + mix.smallSigma0(w1) + mix.smallSigma1(w14))) % WRAP64
  {
  }

  lemma WindowStep(f: nat -> u64, w: Sixteen, t: nat, j: nat, v: u64)
    requires j < 16 && Window(f, w, t, j) && v == f(t + 16 + j)
    ensures Window(f, w[j := v], t, j + 1)
  {
  }

  lemma WindowDone(f: nat -> u64, w: Sixteen, t: nat)
    requires Window(f, w, t, 16)
    ensures Window(f, w, t + 16, 0)
  {
  }

  /** Word j of the window gives way to the expanded word 16 places on. */
  method MoveWord(mix: Mix, w: array<u64>, j: nat, ghost f: nat -> u64, ghost t: nat)
    requires w.Length == 16 && j < 16 && Expands(mix, f) && Window(f, w[..], t, j)
    modifies w
    ensures Window(f, w[..], t, j + 1)
  {
    ghost var was: seq<u64> := w[..];
    FourAhead(f, was, t, j, t + 16 + j);
    MovedIs(mix, f, was, j, t + 16 + j);
    w[j] := (w[j] as int + (w[(j + 9) % 16] as int + mix.smallSigma0(w[(j + 1) % 16]) + mix.smallSigma1(w[(j + 14) % 16]))) % WRAP64;
    assert w[..] == was[j := Moved(mix, was, j)];
    WindowStep(f, was, t, j, Moved(mix, was, j));
  }

  /** In place: each word moves sixteen places on, reading some old and some new words. */
  method Schedule(mix: Mix, w: array<u64>, ghost f: nat -> u64, ghost t: nat)
    requires w.Length == 16 && Expands(mix, f) && Window(f, w[..], t, 0)
    modifies w
    ensures Window(f, w[..], t + 16, 0)
  {
    for j := 0 to 16
      invariant Window(f, w[..], t, j)
    {
      MoveWord(mix, w, j, f, t);
    }
    WindowDone(f, w[..], t);
  }

  lemma WindowAt(f: nat -> u64, w: Sixteen, t: nat, i: nat)
    requires Window(f, w, t, 0) && t == i - i % 16
    ensures w[i % 16] == f(i)
  {
    assert w[i % 16] == f(t + i % 16);
  }

  /** Round i, with the schedule moved on after every sixteenth. */
  method OneRound(mix: Mix, a: array<u64>, b: array<u64>, w: array<u64>, i: nat, ghost f: nat -> u64, ghost s: Eight, ghost t: nat)
    returns (ghost next: nat)
    requires a.Length == b.Length == 8 && w.Length == 16 && a != b && a != w && b != w
    requires a[..] == s && Expands(mix, f) && Window(f, w[..], t, 0) && t == i - i % 16
    modifies a, b, w
    ensures a[..] == RoundAt(mix, f)(s, i)
    ensures Window(f, w[..], next, 0) && next == i + 1 - (i + 1) % 16
  {
    ghost var now: seq<u64> := w[..];
    WindowAt(f, now, t, i);
    RoundStep(mix, a, b, mix.k(i), w[i % 16]);
    assert w[..] == now;
    next := t;
    if i % 16 == 15 {
      Schedule(mix, w, f, t);
      next := t + 16;
    }
  }

  lemma MessageExpands(mix: Mix, m: Sixteen)
    ensures Expands(mix, t => W(mix, m, t)) && Window(t => W(mix, m, t), m, 0, 0)
  {
  }

  /** The 80 rounds over one block, the schedule kept in sixteen words. */
  method RoundLoop(mix: Mix, a: array<u64>, b: array<u64>, w: array<u64>, ghost f: nat -> u64)
    requires a.Length == b.Length == 8 && w.Length == 16 && a != b && a != w && b != w
    requires Expands(mix, f) && Window(f, w[..], 0, 0)
    modifies a, b, w
    ensures a[..] == Rounds(RoundAt(mix, f), old(a[..]), 80)
  {
    ghost var s: Eight, g, now: Eight, t: nat := a[..], RoundAt(mix, f), a[..], 0;
    for i := 0 to 80
      invariant a[..] == now && now == Rounds(g, s, i)
      invariant Window(f, w[..], t, 0) && t == i - i % 16
      modifies a, b, w
    {
      t := OneRound(mix, a, b, w, i, f, now, t);
      now := g(now, i);
    }
  }

  // ---- crypto_hashblocks ---------------------------------------------------------------

  method LoadWords(w: array<u64>, x: array<byte>, o: nat, n: nat)
    requires w.Length == n && o + 8 * n <= x.Length
    modifies w
    ensures w[..] == WordsOf(x[o..o + 8 * n])
  {
    for i := 0 to n
      invariant forall j :: 0 <= j < i ==> w[j] == WordAt(x[o..o + 8 * n], j)
    {
      assert x[o..o + 8 * n][8 * i..8 * i + 8] == x[o + 8 * i..o + 8 * i + 8];
      w[i] := LoadWord(x, o + 8 * i);
    }
  }

  method StoreWords(x: array<byte>, w: array<u64>)
    requires x.Length == 64 && w.Length == 8
    modifies x
    ensures WordsOf(x[..]) == w[..]
  {
    Pow256To8();
    for i := 0 to 8
      invariant forall j :: 0 <= j < i ==> x[8 * j..8 * j + 8] == ToBigEndian(w[j], 8)
    {
      ghost var was: seq<byte> := x[..];
      StoreWord(x, 8 * i, w[i]);
      forall j | 0 <= j < i
        ensures x[8 * j..8 * j + 8] == was[8 * j..8 * j + 8]
      {
        assert x[..8 * i] == was[..8 * i];
        assert x[8 * j..8 * j + 8] == x[..8 * i][8 * j..8 * j + 8];
      }
    }
    forall j | 0 <= j < 8
      ensures WordAt(x[..], j) == w[j]
    {
      BigEndianBack(w[j], 8);
      assert x[..][8 * j..8 * j + 8] == x[8 * j..8 * j + 8];
    }
  }

  /** The hash value before the block is added to the working words, word by word. */
  method FeedForward(a: array<u64>, z: array<u64>)
    requires a.Length == z.Length == 8 && a != z
    modifies a, z
    ensures a[..] == z[..] == Plus(old(a[..]), old(z[..]))
  {
    for i := 0 to 8
      invariant forall j :: 0 <= j < i ==> a[j] == z[j] == (old(a[j]) as int + old(z[j])) % WRAP64
      invariant forall j :: i <= j < 8 ==> a[j] == old(a[j]) && z[j] == old(z[j])
    {
      a[i] := (a[i] as int + z[i]) % WRAP64;
      z[i] := a[i];
    }
  }

  /** One block: a and z hold the hash value before and after. */
  method OneBlock(mix: Mix, a: array<u64>, b: array<u64>, z: array<u64>, w: array<u64>, m: array<byte>, o: nat,
                  ghost s: Eight, ghost chunk: Chunk)
    requires a.Length == b.Length == z.Length == 8 && w.Length == 16 && o + 128 <= m.Length
    requires a != b && a != z && a != w && b != z && b != w && z != w
    requires a[..] == z[..] == s && chunk == m[o..o + 128]
    modifies a, b, z, w
    ensures a[..] == z[..] == Compress(mix, s, WordsOf(chunk))
  {
    LoadWords(w, m, o, 16);
    ghost var words: Sixteen := WordsOf(chunk);
    assert a[..] == s && w[..] == words;
    MessageExpands(mix, words);
    RoundLoop(mix, a, b, w, t => W(mix, words, t));
    assert z[..] == s;
    FeedForward(a, z);
  }

  /** z is the hash value after i blocks of m[mo .. mo + n). */
  ghost predicate Hashed(f: (Eight, Chunk) -> Eight, h: Eight, m: seq<byte>, mo: nat, n: nat, i: nat, z: seq<u64>) {
    mo + n <= |m| && 128 * i <= n && z == Blocks(f, h, m[mo..mo + n], i)
  }

  /** Block i + 1 of the message, found at at = 128 * i in it. */
  lemma HashedNext(f: (Eight, Chunk) -> Eight, h: Eight, m: seq<byte>, mo: nat, n: nat, i: nat, at: nat, now: Eight)
    requires mo + n <= |m| && at == 128 * i && at + 128 <= n
    requires Hashed(f, h, m, mo, n, i, now)
    ensures Hashed(f, h, m, mo, n, i + 1, f(now, m[mo + at..mo + at + 128]))
  {
    SliceOfSlice(m, mo, n, at, at + 128);
    assert 128 * (i + 1 - 1) == at && 128 * (i + 1) == at + 128;
  }

  /** The working words, their copy, the hash value and the window are different arrays. */
  ghost predicate Apart(a: array<u64>, b: array<u64>, z: array<u64>, w: array<u64>) {
    && a.Length == b.Length == z.Length == 8 && w.Length == 16
    && a != b && a != z && a != w && b != z && b != w && z != w
  }

  /** One pass of the block loop. */
  method NextBlock(mix: Mix, a: array<u64>, b: array<u64>, z: array<u64>, w: array<u64>, m: array<byte>, mo: nat, at: nat,
                   ghost h: Eight, ghost bytes: seq<byte>, ghost n: nat, ghost i: nat, ghost now: Eight)
    returns (ghost next: Eight)
    requires Apart(a, b, z, w)
    requires m[..] == bytes && mo + n <= |bytes| && at == 128 * i && at + 128 <= n
    requires a[..] == z[..] == now && Hashed(Step(mix), h, bytes, mo, n, i, now)
    modifies a, b, z, w
    ensures a[..] == z[..] == next && Hashed(Step(mix), h, bytes, mo, n, i + 1, next)
  {
    ghost var chunk: Chunk := bytes[mo + at..mo + at + 128];
    HashedNext(Step(mix), h, bytes, mo, n, i, at, now);
    OneBlock(mix, a, b, z, w, m, mo + at, now, chunk);
    next := Compress(mix, now, WordsOf(chunk));
    assert next == Step(mix)(now, chunk);
  }

  /** The loop over whole blocks, from the hash value h in a and z. */
  method AllBlocks(mix: Mix, a: array<u64>, b: array<u64>, z: array<u64>, w: array<u64>, m: array<byte>, mo: nat, n: nat,
                   ghost h: Eight, ghost bytes: seq<byte>)
    returns (left: nat)
    requires Apart(a, b, z, w) && m[..] == bytes && mo + n <= |bytes| && a[..] == z[..] == h
    modifies a, b, z, w
    ensures left == n % 128 && Hashed(Step(mix), h, bytes, mo, n, n / 128, z[..])
  {
    ghost var now: Eight := h;
    var at := 0;
    ghost var i := 0;
    while n - at >= 128
      invariant at == 128 * i && at <= n
      invariant a[..] == z[..] == now && Hashed(Step(mix), h, bytes, mo, n, i, now)
    {
      now := NextBlock(mix, a, b, z, w, m, mo, at, h, bytes, n, i, now);
      at, i := at + 128, i + 1;
    }
    ModUnique(n, i, n - at, 128);
    return n - at;
  }

  method BlockLoop(mix: Mix, z: array<u64>, m: array<byte>, mo: nat, n: nat) returns (left: nat)
    requires z.Length == 8 && mo + n <= m.Length
    modifies z
    ensures left == n % 128
    ensures Hashed(Step(mix), old(z[..]), m[..], mo, n, n / 128, z[..])
  {
    var a, b, w := new u64[8], new u64[8], new u64[16];
    ghost var h: Eight, bytes: seq<byte> := z[..], m[..];
    CopyEight(a, z);
    left := AllBlocks(mix, a, b, z, w, m, mo, n, h, bytes);
  }

  /** crypto_hashblocks: the state x moves over the whole blocks of m[mo .. mo + n);
      what is left is the result. */
  method CryptoHashblocks(mix: Mix, x: array<byte>, m: array<byte>, mo: nat, n: nat) returns (left: nat)
    requires x.Length == 64 && mo + n <= m.Length && x != m
    modifies x
    ensures left == n % 128
    ensures WordsOf(x[..]) == Blocks(Step(mix), old(WordsOf(x[..])), m[mo..mo + n], n / 128)
  {
    var z := new u64[8];
    LoadWords(z, x, 0, 8);
    assert x[0..0 + 8 * 8] == x[..];
    assert m[..][mo..mo + n] == m[mo..mo + n];
    left := BlockLoop(mix, z, m, mo, n);
    StoreWords(x, z);
  }

  // ---- crypto_hash -------------------------------------------------------------------------

  lemma {:induction false} BlocksSplit(f: (Eight, Chunk) -> Eight, h: Eight, m: seq<byte>, q: nat, at: nat, n: nat)
    requires at == 128 * q && at + 128 * n <= |m|
    ensures Blocks(f, h, m, q + n) == Blocks(f, Blocks(f, h, m, q), m[at..], n)
  {
    if n > 0 {
      BlocksSplit(f, h, m, q, at, n - 1);
      SliceOfSlice(m, at, |m| - at, 128 * (n - 1), 128 * n);
      assert m[at..|m|] == m[at..] && 128 * (q + n - 1) == at + 128 * (n - 1) && 128 * (q + n) == at + 128 * n;
    }
  }

  /** Only the bytes of the first n blocks matter. */
  lemma {:induction false} BlocksSame(f: (Eight, Chunk) -> Eight, h: Eight, m: seq<byte>, t: seq<byte>, n: nat)
    requires 128 * n <= |m| && 128 * n <= |t| && m[..128 * n] == t[..128 * n]
    ensures Blocks(f, h, m, n) == Blocks(f, h, t, n)
  {
    if n > 0 {
      assert m[..128 * (n - 1)] == m[..128 * n][..128 * (n - 1)] == t[..128 * (n - 1)];
      BlocksSame(f, h, m, t, n - 1);
      assert m[128 * (n - 1)..128 * n] == m[..128 * n][128 * (n - 1)..] == t[128 * (n - 1)..128 * n];
    }
  }

  /** What the last one or two blocks hold: the rest of the message, 128, zeros, the
      top bits of the length in x[n-9], the other bits by ts64. */
  ghost predicate TailBytes(m: seq<byte>, x: seq<byte>, r: nat, n: nat)
    requires |x| == 256 && r == |m| % 128 && n == (if r < 112 then 128 else 256)
  {
    && x[..r] == m[|m| - r..] && x[r] == 128
    && (forall j :: r < j < n - 9 ==> x[j] == 0)
    && x[n - 9] == |m| / 0x2000_0000_0000_0000
    && x[n - 8..n] == ToBigEndian(|m| * 8 % WRAP64, 8)
  }

  /** Dropping the last byte commutes with cutting at w. */
  lemma LastByte(x: nat, w: nat)
    requires w > 0
    ensures x / (256 * w) == (x / 256) / w
    ensures x % (256 * w) / 256 == (x / 256) % w && x % (256 * w) % 256 == x % 256
  {
    DivDiv(x, 256, w);
    DivModDef(x / 256, w);
    var q, r := (x / 256) / w, (x / 256) % w;
    assert x == 256 * (r + q * w) + x % 256 == (256 * r + x % 256) + q * (256 * w);
    MulMonotone(r, w - 1, 256);
    ModUnique(x, q, 256 * r + x % 256, 256 * w);
  }

  lemma {:induction false} ToBigEndianSplit(x: nat, n: nat, k: nat)
    ensures Pow(256, n) > 0
    ensures ToBigEndian(x, k + n) == ToBigEndian(x / Pow(256, n), k) + ToBigEndian(x % Pow(256, n), n)
    decreases n
  {
    PowPositive(256, n);
    if n > 0 {
      PowPositive(256, n - 1);
      ToBigEndianSplit(x / 256, n - 1, k);
      LastByte(x, Pow(256, n - 1));
      var y := x % Pow(256, n);
      assert ToBigEndian(y, n) == ToBigEndian(y / 256, n - 1) + [y % 256];
    }
  }

  lemma ZeroCount(len: nat, r: nat, n: nat)
    requires r == len % 128 && n == (if r < 112 then 128 else 256)
    ensures (111 - len) % 128 == n - 17 - r
  {
    ModUnique(111 - len, (if r < 112 then 0 else -1) - len / 128, n - 17 - r, 128);
  }

  lemma TopBits(len: nat, w: int)
    requires w > 0 && len < 256 * w
    ensures (8 * len) / (8 * w) == len / w < 256
  {
    DivDiv(8 * len, 8, w);
    DivModDef(len, w);
    if len / w >= 256 {
      MulMonotone(256, len / w, w);
    }
  }

  lemma CutLength(x: nat, top: nat, low: nat)
    requires x == top * WRAP64 + low && top < 256 && low < WRAP64
    ensures ToBigEndian(x, 16) == (Zeros(7) + [top]) + ToBigEndian(low, 8)
  {
    Pow256To8();
    ToBigEndianSplit(x, 8, 8);
    ModUnique(x, top, low, WRAP64);
    SmallBigEndian(top, 8);
  }

  /** The 128-bit length field: seven zero bytes, the top bits, the low 64 bits. */
  lemma LengthField(len: nat)
    requires len < WRAP64
    ensures len / 0x2000_0000_0000_0000 < 256
    ensures ToBigEndian(8 * len, 16) == (Zeros(7) + [len / 0x2000_0000_0000_0000]) + ToBigEndian(len * 8 % WRAP64, 8)
  {
    TopBits(len, 0x2000_0000_0000_0000);
    DivModDef(8 * len, WRAP64);
    CutLength(8 * len, len / 0x2000_0000_0000_0000, len * 8 % WRAP64);
  }

  /** The padding with its length field cut where the code cuts it. */
  lemma PadShape(m: seq<byte>, zeros: nat)
    requires |m| < WRAP64 && (111 - |m|) % 128 == zeros
    ensures |m| / 0x2000_0000_0000_0000 < 256
    ensures Pad(m) == m + ([128] + Zeros(zeros + 7) + [|m| / 0x2000_0000_0000_0000] + ToBigEndian(|m| * 8 % WRAP64, 8))
  {
    LengthField(|m|);
    ZerosAdd(zeros, 7);
    Regroup(m, [128], Zeros(zeros), Zeros(7), [|m| / 0x2000_0000_0000_0000], ToBigEndian(|m| * 8 % WRAP64, 8));
  }

  lemma Regroup(m: seq<byte>, a: seq<byte>, y: seq<byte>, z: seq<byte>, t: seq<byte>, e: seq<byte>)
    ensures m + a + y + ((z + t) + e) == m + (a + (y + z) + t + e)
  {
  }

  lemma FivePieces(x: seq<byte>, r: nat, n: nat)
    requires r < n - 9 && n <= |x|
    ensures x[..n] == x[..r] + ([x[r]] + x[r + 1..n - 9] + [x[n - 9]] + x[n - 8..n])
  {
  }

  lemma DropInside(m: seq<byte>, e: seq<byte>, k: nat)
    requires k <= |m|
    ensures (m + e)[k..] == m[k..] + e
  {
  }

  /** The tail the code builds is the end of the padded message. */
  lemma TailIsPad(m: seq<byte>, x: seq<byte>, r: nat, n: nat)
    requires |m| < WRAP64 && |x| == 256 && r == |m| % 128 && r <= |m| && n == (if r < 112 then 128 else 256)
    requires TailBytes(m, x, r, n)
    ensures |Pad(m)| == |m| - r + n && Pad(m)[|m| - r..] == x[..n]
  {
    assert r + 17 <= n;
    ZeroCount(|m|, r, n);
    var zeros := n - 17 - r;
    PadShape(m, zeros);
    EndOf(Pad(m), m, x, r, n, zeros, x[n - 9], x[n - 8..n]);
  }

  lemma EndOf(p: seq<byte>, m: seq<byte>, x: seq<byte>, r: nat, n: nat, zeros: nat, top: byte, low: seq<byte>)
    requires r <= |m| && n == r + zeros + 17 <= |x| && |low| == 8
    requires p == m + ([128] + Zeros(zeros + 7) + [top] + low)
    requires x[..r] == m[|m| - r..] && x[r] == 128 && x[n - 9] == top && x[n - 8..n] == low
    requires forall j :: r < j < n - 9 ==> x[j] == 0
    ensures |p| == |m| - r + n && p[|m| - r..] == x[..n]
  {
    var end := [128] + Zeros(zeros + 7) + [top] + low;
    TailEnd(x, r, n, end);
    DropInside(m, end, |m| - r);
  }

  lemma TailEnd(x: seq<byte>, r: nat, n: nat, end: seq<byte>)
    requires r < n - 9 && n <= |x| && x[r] == 128 && forall j :: r < j < n - 9 ==> x[j] == 0
    requires end == [128] + Zeros(n - 10 - r) + [x[n - 9]] + x[n - 8..n]
    ensures x[..n] == x[..r] + end
  {
    FivePieces(x, r, n);
    ZeroMiddle(x, r + 1, n - 9);
  }

  lemma ZeroMiddle(x: seq<byte>, lo: nat, hi: nat)
    requires lo <= hi <= |x| && forall j :: lo <= j < hi ==> x[j] == 0
    ensures x[lo..hi] == Zeros(hi - lo)
  {
  }

  /** Copies n bytes of the message from mo on. */
  method CopyBytes(x: array<byte>, m: array<byte>, mo: nat, n: nat)
    requires n <= x.Length && mo + n <= m.Length && x != m
    modifies x
    ensures x[..n] == m[mo..mo + n] && x[n..] == old(x[n..])
  {
    for i := 0 to n
      invariant forall j :: 0 <= j < i ==> x[j] == m[mo + j]
      invariant x[n..] == old(x[n..])
    {
      x[i] := m[mo + i];
    }
  }

  /** The 256-byte tail buffer for a message whose last r bytes are left over. */
  method BuildTail(m: array<byte>, len: nat, r: nat) returns (x: array<byte>, n: nat)
    requires len <= m.Length && len < WRAP64 && r == len % 128
    ensures fresh(x) && x.Length == 256 && n == (if r < 112 then 128 else 256)
    ensures TailBytes(m[..len], x[..], r, n)
  {
    x := new byte[256](i => 0);
    CopyBytes(x, m, len - r, r);
    assert forall j :: r <= j < 256 ==> x[j] == x[r..][j - r] == 0;
    x[r] := 128;
    n := 256 - if r < 112 then 128 else 0;
    x[n - 9] := len / 0x2000_0000_0000_0000;
    ghost var was: seq<byte> := x[..];
    assert was[..r] == m[..len][len - r..];
    StoreWord(x, n - 8, len * 8 % WRAP64);
    assert x[..][..n - 8] == x[..n - 8] && x[..][n - 8..n] == x[n - 8..n];
    TailBuilt(m[..len], was, x[..], r, n);
  }

  /** Storing the low length word last completes the tail. */
  lemma TailBuilt(m: seq<byte>, was: seq<byte>, x: seq<byte>, r: nat, n: nat)
    requires |x| == |was| == 256 && r == |m| % 128 && n == (if r < 112 then 128 else 256)
    requires was[..r] == m[|m| - r..] && was[r] == 128 && forall j :: r < j < n - 9 ==> was[j] == 0
    requires was[n - 9] == |m| / 0x2000_0000_0000_0000
    requires x[..n - 8] == was[..n - 8] && x[n - 8..n] == ToBigEndian(|m| * 8 % WRAP64, 8)
    ensures TailBytes(m, x, r, n)
  {
    KeptHead(was, x, n - 8);
    assert x[..r] == was[..r];
  }

  lemma KeptHead(was: seq<byte>, x: seq<byte>, n: nat)
    requires n <= |was| && n <= |x| && x[..n] == was[..n]
    ensures forall j :: 0 <= j < n ==> x[j] == was[j]
  {
    assert forall j :: 0 <= j < n ==> x[j] == x[..n][j] && was[j] == was[..n][j];
  }

  /** crypto_hash: SHA-512 of every message. */
  method CryptoHash(mix: Mix, iv: seq<byte>, out: array<byte>, m: array<byte>, n: nat)
    requires |iv| == 64 && out.Length == 64 && n <= m.Length && n < WRAP64
    modifies out
    ensures WordsOf(out[..]) == old(Hash(mix, iv, m[..n]))
  {
    var h := new byte[64](i requires 0 <= i < 64 => iv[i]);
    assert h[..] == iv;
    HashInto(mix, h, m, n);
    CopyBytes(out, h, 0, 64);
    assert out[..] == out[..64] == h[0..64] == h[..];
  }

  method HashInto(mix: Mix, h: array<byte>, m: array<byte>, n: nat)
    requires h.Length == 64 && n <= m.Length && n < WRAP64 && h != m
    modifies h
    ensures WordsOf(h[..]) == Hash(mix, old(h[..]), m[..n])
  {
    ghost var start: Eight := WordsOf(h[..]);
    assert m[0..0 + n] == m[..n];
    var r := CryptoHashblocks(mix, h, m, 0, n);
    HashTail(mix, h, m, n, r, start);
  }

  /** The blocks of the tail, after the whole blocks of the message. */
  method HashTail(mix: Mix, h: array<byte>, m: array<byte>, n: nat, r: nat, ghost start: Eight)
    requires h.Length == 64 && n <= m.Length && n < WRAP64 && h != m && r == n % 128
    requires WordsOf(h[..]) == Blocks(Step(mix), start, m[..n], n / 128)
    modifies h
    ensures WordsOf(h[..]) == Blocks(Step(mix), start, Pad(m[..n]), |Pad(m[..n])| / 128)
  {
    ghost var msg: seq<byte>, mid: Eight := m[..n], WordsOf(h[..]);
    var x, tail := BuildTail(m, n, r);
    ghost var end: seq<byte> := x[..];
    ghost var last: seq<byte> := end[..tail];
    assert x[0..0 + tail] == last && m[..n] == msg;
    WholeHash(Step(mix), start, mid, msg, end, last, r, tail);
    var left := CryptoHashblocks(mix, h, x, 0, tail);
  }

  lemma WholeHash(f: (Eight, Chunk) -> Eight, h: Eight, mid: Eight, m: seq<byte>, x: seq<byte>, last: seq<byte>, r: nat, n: nat)
    requires |m| < WRAP64 && |x| == 256 && r == |m| % 128 && n == (if r < 112 then 128 else 256)
    requires TailBytes(m, x, r, n) && last == x[..n] && mid == Blocks(f, h, m, |m| / 128)
    ensures Blocks(f, mid, last, n / 128) == Blocks(f, h, Pad(m), |Pad(m)| / 128)
  {
    var q, p := |m| / 128, Pad(m);
    DivModDef(|m|, 128);
    TailIsPad(m, x, r, n);
    BlockCount(|m|, q, r, n);
    BlocksSame(f, h, m, p, q);
    BlocksSplit(f, h, p, q, 128 * q, n / 128);
  }

  lemma BlockCount(len: nat, q: nat, r: nat, n: nat)
    requires len == r + q * 128 && (n == 128 || n == 256)
    ensures (len - r + n) / 128 == q + n / 128
  {
    ModUnique(len - r + n, q + n / 128, 0, 128);
  }
}
