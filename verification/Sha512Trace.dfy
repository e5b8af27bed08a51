/** SHA-512 as equations: any words, working variables and hash values that satisfy those of
    section 6.4 of FIPS 180-4 over the padded message end in the value of the function Hash. */
module Sha512Trace {
  import opened Limbs
  import opened ModArith
  import opened Machine
  import opened Octets
  import opened Sha512

  /** Section 5.1.2: a one bit, the fewest zeros, and the length in bits as 128 bits. */
  ghost predicate Padded(m: seq<byte>, p: seq<byte>) {
    && |p| % 128 == 0 && |m| + 17 <= |p| < |m| + 17 + 128
    && p[..|m|] == m && p[|m|] == 128
    && (forall j :: |m| < j < |p| - 16 ==> p[j] == 0)
    && BigEndian(p[|p| - 16..]) == 8 * |m|
  }

  /** Step 1 of section 6.4.2: word t is read from the block b or follows from four before it. */
  ghost predicate WordFollows(mix: Mix, b: Chunk, w: nat -> u64, t: nat)
    requires t < 80
  {
    if t < 16 then w(t) == BigEndian(b[8 * t..8 * t + 8])
    else w(t) == (mix.smallSigma1(w(t - 2)) as int + w(t - 7) + mix.smallSigma0(w(t - 15)) + w(t - 16)) % WRAP64
  }

  /** Step 3: round t takes the working variables s to u. */
  ghost predicate RoundFollows(mix: Mix, s: Eight, w: u64, t: nat, u: Eight) {
    var t1 := (s[7] as int + mix.bigSigma1(s[4]) + mix.ch(s[4], s[5], s[6]) + mix.k(t) + w) % WRAP64;
    var t2 := (mix.bigSigma0(s[0]) as int + mix.maj(s[0], s[1], s[2])) % WRAP64;
    && u[7] == s[6] && u[6] == s[5] && u[5] == s[4] && u[4] == (s[3] as int + t1) % WRAP64
    && u[3] == s[2] && u[2] == s[1] && u[1] == s[0] && u[0] == (t1 + t2) % WRAP64
  }

  /** Step 4: the last working variables are added to the hash value before the block. */
  ghost predicate SumFollows(h: Eight, s: Eight, next: Eight) {
    forall j :: 0 <= j < 8 ==> next[j] == (s[j] as int + h[j]) % WRAP64
  }

  ghost predicate WordsFollow(mix: Mix, b: Chunk, w: nat -> u64) {
    forall t: nat :: t < 80 ==> WordFollows(mix, b, w, t)
  }

  ghost predicate RoundsFollow(mix: Mix, w: nat -> u64, v: nat -> Eight) {
    forall t: nat :: t < 80 ==> RoundFollows(mix, v(t), w(t), t, v(t + 1))
  }

  /** All steps of the block b, from the hash value h to the next. */
  ghost predicate BlockFollows(mix: Mix, b: Chunk, h: Eight, w: nat -> u64, v: nat -> Eight, next: Eight) {
    WordsFollow(mix, b, w) && v(0) == h && RoundsFollow(mix, w, v) && SumFollows(h, v(80), next)
  }

  /** Hash value before block i, words of block i, working variables in block i. */
  datatype Trace = Trace(h: nat -> Eight, w: nat -> (nat -> u64), v: nat -> (nat -> Eight))

  ghost predicate BlocksFollow(mix: Mix, p: seq<byte>, r: Trace, n: nat)
    requires 128 * n <= |p|
  {
    forall i: nat :: i < n ==> BlockFollows(mix, p[128 * i..128 * i + 128], r.h(i), r.w(i), r.v(i), r.h(i + 1))
  }

  /** The initial hash value is read from the 64 bytes iv. */
  ghost predicate StartsAt(iv: seq<byte>, h: Eight)
    requires |iv| == 64
  {
    forall j :: 0 <= j < 8 ==> h[j] == BigEndian(iv[8 * j..8 * j + 8])
  }

  // ---- one block ----------------------------------------------------------------------

  lemma FirstWord(b: Chunk, m: Sixteen, t: nat)
    requires m == WordsOf(b) && t < 16
    ensures m[t] == BigEndian(b[8 * t..8 * t + 8])
  {
  }

  lemma WordAgrees(mix: Mix, m: Sixteen, w: nat -> u64, t: nat, a: u64, b: u64, c: u64, d: u64)
    requires t >= 16 && a == W(mix, m, t - 2) && b == W(mix, m, t - 7) && c == W(mix, m, t - 15) && d == W(mix, m, t - 16)
    requires w(t) == (mix.smallSigma1(a) as int + b + mix.smallSigma0(c) + d) % WRAP64
    ensures W(mix, m, t) == w(t)
  {
  }

  lemma {:induction false} WordsAgree(mix: Mix, b: Chunk, m: Sixteen, w: nat -> u64, t: nat)
    requires m == WordsOf(b) && WordsFollow(mix, b, w) && t < 80
    ensures W(mix, m, t) == w(t)
    decreases t
  {
    assert WordFollows(mix, b, w, t);
    if t < 16 {
      FirstWord(b, m, t);
    } else {
      WordsAgree(mix, b, m, w, t - 2);
      WordsAgree(mix, b, m, w, t - 7);
      WordsAgree(mix, b, m, w, t - 15);
      WordsAgree(mix, b, m, w, t - 16);
      WordAgrees(mix, m, w, t, w(t - 2), w(t - 7), w(t - 15), w(t - 16));
    }
  }

  lemma RoundAgrees(mix: Mix, s: Eight, w: u64, t: nat, u: Eight)
    requires RoundFollows(mix, s, w, t, u)
    ensures Round(mix, s, mix.k(t), w) == u
  {
    var x := Round(mix, s, mix.k(t), w);
    assert x[0] == u[0] && x[1] == u[1] && x[2] == u[2] && x[3] == u[3];
    assert x[4] == u[4] && x[5] == u[5] && x[6] == u[6] && x[7] == u[7];
    assert x == u;
  }

  lemma {:induction false} RoundsAgree(mix: Mix, f: nat -> u64, w: nat -> u64, v: nat -> Eight, t: nat)
    requires t <= 80 && RoundsFollow(mix, w, v)
    requires forall t: nat :: t < 80 ==> f(t) == w(t)
    ensures Rounds(RoundAt(mix, f), v(0), t) == v(t)
    decreases t
  {
    if t > 0 {
      RoundsAgree(mix, f, w, v, t - 1);
      RoundAgrees(mix, v(t - 1), w(t - 1), t - 1, v(t));
    }
  }

  lemma SumAgrees(h: Eight, s: Eight, next: Eight)
    requires SumFollows(h, s, next)
    ensures Plus(s, h) == next
  {
  }

  lemma BlockAgrees(mix: Mix, b: Chunk, h: Eight, w: nat -> u64, v: nat -> Eight, next: Eight)
    requires BlockFollows(mix, b, h, w, v, next)
    ensures Step(mix)(h, b) == next
  {
    var m: Sixteen := WordsOf(b);
    var f: nat -> u64 := t => W(mix, m, t);
    forall t: nat | t < 80
      ensures f(t) == w(t)
    {
      WordsAgree(mix, b, m, w, t);
    }
    RoundsAgree(mix, f, w, v, 80);
    SumAgrees(h, v(80), next);
    assert Compress(mix, h, m) == next;
  }

  // ---- all blocks ---------------------------------------------------------------------

  lemma StartAgrees(iv: seq<byte>, h: Eight)
    requires |iv| == 64 && StartsAt(iv, h)
    ensures WordsOf(iv) == h
  {
    assert forall j :: 0 <= j < 8 ==> WordsOf(iv)[j] == h[j];
  }

  lemma OneMoreBlock(f: (Eight, Chunk) -> Eight, h: Eight, p: seq<byte>, n: nat, last: Eight, b: Chunk)
    requires 128 * (n + 1) <= |p| && last == Blocks(f, h, p, n) && b == p[128 * n..128 * n + 128]
    ensures Blocks(f, h, p, n + 1) == f(last, b)
  {
    assert 128 * (n + 1) == 128 * n + 128;
    assert (n + 1) - 1 == n;
  }

  lemma {:induction false} BlocksAgree(mix: Mix, p: seq<byte>, r: Trace, n: nat)
    requires 128 * n <= |p| && BlocksFollow(mix, p, r, n)
    ensures Blocks(Step(mix), r.h(0), p, n) == r.h(n)
    decreases n
  {
    if n > 0 {
      var i := n - 1;
      var b: Chunk := p[128 * i..128 * i + 128];
      BlocksAgree(mix, p, r, i);
      assert BlockFollows(mix, b, r.h(i), r.w(i), r.v(i), r.h(i + 1));
      BlockAgrees(mix, b, r.h(i), r.w(i), r.v(i), r.h(i + 1));
      OneMoreBlock(Step(mix), r.h(0), p, i, r.h(i), b);
    }
  }

  lemma PaddedLength(m: int, p: int)
    requires p % 128 == 0 && m + 17 <= p < m + 17 + 128
    ensures (111 - m) % 128 == p - m - 17
  {
    DivModDef(p, 128);
    ModUnique(111 - m, 1 - p / 128, p - m - 17, 128);
  }

  /** There is one padded message. */
  lemma PaddedIsPad(m: seq<byte>, p: seq<byte>)
    requires Padded(m, p)
    ensures p == Pad(m)
  {
    PaddedLength(|m|, |p|);
    var z := |p| - |m| - 17;
    ToBigEndianBack(p[|p| - 16..]);
    assert p[|m| + 1..|p| - 16] == Zeros(z);
    assert p == p[..|m|] + [p[|m|]] + p[|m| + 1..|p| - 16] + p[|p| - 16..];
  }

  lemma HashOfBlocks(mix: Mix, iv: seq<byte>, m: seq<byte>, p: seq<byte>, n: nat, h: Eight)
    requires |iv| == 64 && p == Pad(m) && |p| == 128 * n && WordsOf(iv) == h
    ensures Hash(mix, iv, m) == Blocks(Step(mix), h, p, n)
  {
  }

  /** Whatever satisfies the equations of the standard ends in the hash. */
  lemma HashIsTrace(mix: Mix, iv: seq<byte>, m: seq<byte>, p: seq<byte>, r: Trace, n: nat)
    requires |iv| == 64 && Padded(m, p) && |p| == 128 * n
    requires StartsAt(iv, r.h(0)) && BlocksFollow(mix, p, r, n)
    ensures Hash(mix, iv, m) == r.h(n)
  {
    PaddedIsPad(m, p);
    StartAgrees(iv, r.h(0));
    BlocksAgree(mix, p, r, n);
    HashOfBlocks(mix, iv, m, p, n, r.h(0));
  }

  // ---- such a trace exists --------------------------------------------------------------

  ghost function HashAt(mix: Mix, iv: seq<byte>, p: seq<byte>, i: nat): Eight
    requires |iv| == 64
  {
    if 128 * i <= |p| then Blocks(Step(mix), WordsOf(iv), p, i) else WordsOf(iv)
  }

  ghost function ChunkAt(p: seq<byte>, i: nat): Chunk {
    if 128 * i + 128 <= |p| then p[128 * i..128 * i + 128] else seq(128, j => 0)
  }

  ghost function WordsFrom(mix: Mix, b: Chunk): nat -> u64 { t => W(mix, WordsOf(b), t) }

  ghost function StatesFrom(mix: Mix, s: Eight, b: Chunk): nat -> Eight {
    t => Rounds(RoundAt(mix, WordsFrom(mix, b)), s, t)
  }

  lemma WordsDoFollow(mix: Mix, b: Chunk)
    ensures WordsFollow(mix, b, WordsFrom(mix, b))
  {
    forall t: nat | t < 80
      ensures WordFollows(mix, b, WordsFrom(mix, b), t)
    {
      if t < 16 {
        FirstWord(b, WordsOf(b), t);
      }
    }
  }

  lemma RoundDoesFollow(mix: Mix, s: Eight, w: u64, t: nat, u: Eight)
    requires u == Round(mix, s, mix.k(t), w)
    ensures RoundFollows(mix, s, w, t, u)
  {
  }

  lemma RoundsDoFollow(mix: Mix, s: Eight, w: nat -> u64, v: nat -> Eight)
    requires forall t: nat :: v(t) == Rounds(RoundAt(mix, w), s, t)
    ensures v(0) == s && RoundsFollow(mix, w, v)
  {
    forall t: nat | t < 80
      ensures RoundFollows(mix, v(t), w(t), t, v(t + 1))
    {
      assert v(t + 1) == RoundAt(mix, w)(v(t), t);
      RoundDoesFollow(mix, v(t), w(t), t, v(t + 1));
    }
  }

  lemma SumDoesFollow(h: Eight, s: Eight)
    ensures SumFollows(h, s, Plus(s, h))
  {
  }

  lemma BlockDoesFollow(mix: Mix, b: Chunk, h: Eight)
    ensures BlockFollows(mix, b, h, WordsFrom(mix, b), StatesFrom(mix, h, b), Step(mix)(h, b))
  {
    var w, v := WordsFrom(mix, b), StatesFrom(mix, h, b);
    WordsDoFollow(mix, b);
    RoundsDoFollow(mix, h, w, v);
    SumDoesFollow(h, v(80));
    BlockAgrees(mix, b, h, w, v, Plus(v(80), h));
  }

  lemma PadIsPadded(m: seq<byte>)
    requires 8 * |m| < Pow(256, 16)
    ensures Padded(m, Pad(m))
  {
    BigEndianBack(8 * |m|, 16);
    assert Pad(m)[|Pad(m)| - 16..] == ToBigEndian(8 * |m|, 16);
  }

  ghost function TraceOf(mix: Mix, iv: seq<byte>, p: seq<byte>): Trace
    requires |iv| == 64
  {
    Trace(i => HashAt(mix, iv, p, i), i => WordsFrom(mix, ChunkAt(p, i)),
          i => StatesFrom(mix, HashAt(mix, iv, p, i), ChunkAt(p, i)))
  }

  lemma OneBlockFollows(mix: Mix, iv: seq<byte>, p: seq<byte>, i: nat, b: Chunk, h: Eight, next: Eight)
    requires |iv| == 64 && 128 * i + 128 <= |p| && b == p[128 * i..128 * i + 128]
    requires h == HashAt(mix, iv, p, i) && next == HashAt(mix, iv, p, i + 1)
    ensures BlockFollows(mix, b, h, WordsFrom(mix, b), StatesFrom(mix, h, b), next)
  {
    OneMoreBlock(Step(mix), WordsOf(iv), p, i, h, b);
    BlockDoesFollow(mix, b, h);
  }

  lemma TraceStep(mix: Mix, iv: seq<byte>, p: seq<byte>, n: nat, i: nat, r: Trace)
    requires |iv| == 64 && |p| == 128 * n && i < n && r == TraceOf(mix, iv, p)
    ensures BlockFollows(mix, p[128 * i..128 * i + 128], r.h(i), r.w(i), r.v(i), r.h(i + 1))
  {
    var b := ChunkAt(p, i);
    assert b == p[128 * i..128 * i + 128];
    OneBlockFollows(mix, iv, p, i, b, r.h(i), r.h(i + 1));
  }

  lemma TraceFollows(mix: Mix, iv: seq<byte>, p: seq<byte>, n: nat, r: Trace)
    requires |iv| == 64 && |p| == 128 * n && r == TraceOf(mix, iv, p)
    ensures BlocksFollow(mix, p, r, n)
  {
    forall i: nat | i < n
      ensures BlockFollows(mix, p[128 * i..128 * i + 128], r.h(i), r.w(i), r.v(i), r.h(i + 1))
    {
      TraceStep(mix, iv, p, n, i, r);
    }
  }

  lemma StartFollows(mix: Mix, iv: seq<byte>, p: seq<byte>)
    requires |iv| == 64
    ensures StartsAt(iv, HashAt(mix, iv, p, 0))
  {
    assert HashAt(mix, iv, p, 0) == WordsOf(iv);
  }

  /** Every message up to the length the standard allows has a trace, so the hash is exactly the
      value its equations end in. */
  lemma TraceExists(mix: Mix, iv: seq<byte>, m: seq<byte>) returns (p: seq<byte>, r: Trace, n: nat)
    requires |iv| == 64 && 8 * |m| < Pow(256, 16)
    ensures Padded(m, p) && |p| == 128 * n
    ensures StartsAt(iv, r.h(0)) && BlocksFollow(mix, p, r, n)
  {
    p := Pad(m);
    n := |p| / 128;
    PadIsPadded(m);
    r := TraceOf(mix, iv, p);
    StartFollows(mix, iv, p);
    TraceFollows(mix, iv, p, n, r);
  }
}
