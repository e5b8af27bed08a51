/** The Salsa20 stream, crypto_secretbox and crypto_secretbox_open, over an
    arbitrary core function. */
module SecretBox {
  import opened Limbs
  import opened ModArith
  import opened Machine
  import opened Octets
  import opened Wrappers
  import opened Poly1305

  type Block = s: seq<byte> | |s| == 64 witness seq(64, i => 0)
  type Key = s: seq<byte> | |s| == 32 witness seq(32, i => 0)

  /** The two uses of the core: a 64-byte block, and a 32-byte subkey. */
  datatype Salsa = Salsa(block: (seq<byte>, Key) -> Block, subkey: (seq<byte>, Key) -> Key)

  function XorByte(x: byte, y: byte): byte {
    XorRange(x, y, 8);
    Pow256();
    Xor(x, y, 8)
  }

  lemma Pow256()
    ensures Pow(2, 8) == 256
  {
  }

  // ---- the specification ------------------------------------------------------------

  /** The core's input for block i: eight nonce bytes and a 64-bit counter. */
  function CounterBlock(n8: seq<byte>, i: nat): seq<byte> {
    n8 + ToBytes(i % WRAP64, 8)
  }

  function KeyByte(s: Salsa, n8: seq<byte>, k: Key, j: nat): byte {
    s.block(CounterBlock(n8, j / 64), k)[j % 64]
  }

  /** The nonce bytes in front, the block number mod 2^64 in the last eight, low byte first. */
  lemma CounterParts(n8: seq<byte>, i: nat)
    ensures var z := CounterBlock(n8, i);
            |z| == |n8| + 8 && z[..|n8|] == n8 && Val(z[|n8|..], 256, 8) == i % WRAP64
  {
    Pow256To8();
    ToBytesVal(i % WRAP64, 8);
    assert CounterBlock(n8, i)[|n8|..] == ToBytes(i % WRAP64, 8);
  }

  /** No two blocks of one nonce share the core's input. */
  lemma CountersDiffer(n8: seq<byte>, i: nat, j: nat)
    requires i < j < WRAP64
    ensures CounterBlock(n8, i) != CounterBlock(n8, j)
  {
    CounterParts(n8, i);
    CounterParts(n8, j);
    ModUnique(i, 0, i, WRAP64);
    ModUnique(j, 0, j, WRAP64);
  }

  /** Bit by bit, a byte of a sum is a sum of bits. */
  lemma XorByteBits(x: byte, y: byte, i: nat)
    requires i < 8
    ensures Bit(XorByte(x, y), i) == (Bit(x, i) + Bit(y, i)) % 2
  {
    XorBitwise(x, y, 8, i);
  }

  /** m xor the keystream of the nonce. */
  function Keyed(s: Salsa, nonce: seq<byte>, k: Key, m: seq<byte>): (c: seq<byte>)
    requires |nonce| == 24
    ensures |c| == |m|
  {
    var sub := s.subkey(nonce[..16], k);
    seq(|m|, j requires 0 <= j < |m| => XorByte(m[j], KeyByte(s, nonce[16..], sub, j)))
  }

  ghost function Seal(s: Salsa, nonce: seq<byte>, k: Key, m: seq<byte>): (c: seq<byte>)
    requires |nonce| == 24 && |m| >= 32
    ensures |c| == |m|
  {
    var x := Keyed(s, nonce, k, m);
    Zeros(16) + Tag(x[32..], x[..32]) + x[32..]
  }

  ghost function Open(s: Salsa, nonce: seq<byte>, k: Key, c: seq<byte>): Option<seq<byte>>
    requires |nonce| == 24
  {
    if |c| < 32 || Tag(c[32..], Keyed(s, nonce, k, Zeros(32))) != c[16..32] then None
    else Some(Zeros(32) + Keyed(s, nonce, k, c)[32..])
  }

  /** The core's input is b for block i when b holds the nonce half and i, low byte first. */
  ghost predicate InputFor(b: seq<byte>, nonce: seq<byte>, i: nat)
    requires |nonce| == 24
  {
    |b| == 16 && b[..8] == nonce[16..] && Val(b[8..], 256, 8) == i
  }

  lemma InputIs(b: seq<byte>, nonce: seq<byte>, i: nat)
    requires |nonce| == 24 && i < WRAP64 && InputFor(b, nonce, i)
    ensures b == CounterBlock(nonce[16..], i)
  {
    var z := CounterBlock(nonce[16..], i);
    CounterParts(nonce[16..], i);
    ModUnique(i, 0, i, WRAP64);
    ValInjective(b[8..], z[8..], 256, 8);
    assert b == b[..8] + b[8..] && z == z[..8] + z[8..];
  }

  /** Block i of the stream is the message's block xored with the core on the nonce half
      and i, under the subkey of the other nonce half. */
  lemma StreamOfBlock(s: Salsa, nonce: seq<byte>, k: Key, m: seq<byte>, b: seq<byte>, i: nat, j: nat)
    requires |nonce| == 24 && i < WRAP64 && InputFor(b, nonce, i) && j < 64 && 64 * i + j < |m|
    ensures Keyed(s, nonce, k, m)[64 * i + j] == XorByte(m[64 * i + j], s.block(b, s.subkey(nonce[..16], k))[j])
  {
    InputIs(b, nonce, i);
    ModUnique(64 * i + j, i, j, 64);
  }

  lemma XorWithZero(y: byte)
    ensures XorByte(0, y) == y
  {
    Pow256();
    BitsRange(y, 8);
    BitsRange(0, 8);
    XorZero(y, 8);
    XorCommutes(0, y, 8);
  }

  /** Over zeros it is the core itself. */
  lemma KeystreamBlock(s: Salsa, nonce: seq<byte>, k: Key, n: nat, b: seq<byte>, i: nat)
    requires |nonce| == 24 && i < WRAP64 && InputFor(b, nonce, i) && 64 * i + 64 <= n
    ensures Keyed(s, nonce, k, Zeros(n))[64 * i..64 * i + 64] == s.block(b, s.subkey(nonce[..16], k))
  {
    var x, y := Keyed(s, nonce, k, Zeros(n))[64 * i..64 * i + 64], s.block(b, s.subkey(nonce[..16], k));
    forall j | 0 <= j < 64
      ensures x[j] == y[j]
    {
      StreamOfBlock(s, nonce, k, Zeros(n), b, i, j);
      XorWithZero(y[j]);
    }
  }

  /** A box: sixteen zeros; the tag of what follows it, under the first half of the core's
      block 0; then the message from byte 32 on, xored with the stream. */
  lemma BoxIs(s: Salsa, nonce: seq<byte>, k: Key, m: seq<byte>, b: seq<byte>)
    requires |nonce| == 24 && |m| >= 32 && m[..32] == Zeros(32) && InputFor(b, nonce, 0)
    ensures var c := Seal(s, nonce, k, m);
            && c[..16] == Zeros(16)
            && c[16..32] == Tag(c[32..], s.block(b, s.subkey(nonce[..16], k))[..32])
            && c[32..] == Keyed(s, nonce, k, m)[32..]
  {
    var x, c := Keyed(s, nonce, k, m), Seal(s, nonce, k, m);
    var y := s.block(b, s.subkey(nonce[..16], k));
    forall j | 0 <= j < 32
      ensures x[..32][j] == y[..32][j]
    {
      StreamOfBlock(s, nonce, k, m, b, 0, j);
      assert m[j] == m[..32][j] == 0;
      XorWithZero(y[j]);
    }
    assert x[..32] == y[..32];
    assert c[32..] == x[32..] && c[16..32] == Tag(x[32..], x[..32]);
  }

  lemma KeyedTwice(s: Salsa, nonce: seq<byte>, k: Key, m: seq<byte>)
    requires |nonce| == 24
    ensures Keyed(s, nonce, k, Keyed(s, nonce, k, m)) == m
  {
    var sub := s.subkey(nonce[..16], k);
    forall j | 0 <= j < |m|
      ensures Keyed(s, nonce, k, Keyed(s, nonce, k, m))[j] == m[j]
    {
      XorTwice(m[j], KeyByte(s, nonce[16..], sub, j));
    }
  }

  lemma XorTwice(x: byte, y: byte)
    ensures XorByte(XorByte(x, y), y) == x
  {
    Pow256();
    BitsRange(x, 8);
    BitsRange(y, 8);
    XorCommutes(x, y, 8);
    XorCommutes(Xor(y, x, 8), y, 8);
    XorCancel(y, x, 8);
  }

  /** The stream is bytewise: equal bytes at equal places. */
  lemma KeyedAgree(s: Salsa, nonce: seq<byte>, k: Key, m: seq<byte>, t: seq<byte>, lo: nat, hi: nat)
    requires |nonce| == 24 && lo <= hi <= |m| && hi <= |t| && m[lo..hi] == t[lo..hi]
    ensures Keyed(s, nonce, k, m)[lo..hi] == Keyed(s, nonce, k, t)[lo..hi]
  {
    forall j | lo <= j < hi
      ensures Keyed(s, nonce, k, m)[j] == Keyed(s, nonce, k, t)[j]
    {
      assert m[j] == m[lo..hi][j - lo] == t[lo..hi][j - lo] == t[j];
    }
  }

  /** Opening undoes sealing for every padded message of at least 32 bytes, and
      opens nothing but what sealing makes from the message it returns. */
  lemma OpenExactly(s: Salsa, nonce: seq<byte>, k: Key, c: seq<byte>, m: seq<byte>)
    requires |nonce| == 24 && |m| >= 32 && m[..32] == Zeros(32)
    ensures Open(s, nonce, k, c) == Some(m) <==> |c| == |m| && c[16..] == Seal(s, nonce, k, m)[16..]
  {
    if |c| == |m| {
      var x := Keyed(s, nonce, k, m);
      KeyedAgree(s, nonce, k, m, Zeros(32), 0, 32);
      assert x[..32] == Keyed(s, nonce, k, Zeros(32));
      assert Seal(s, nonce, k, m)[16..] == Tag(x[32..], x[..32]) + x[32..];
      assert c[16..] == c[16..32] + c[32..];
      BodyBack(s, nonce, k, c, m);
    }
  }

  /** The body decrypts to the message's exactly when it is the message's encryption. */
  lemma BodyBack(s: Salsa, nonce: seq<byte>, k: Key, c: seq<byte>, m: seq<byte>)
    requires |nonce| == 24 && |c| == |m| >= 32 && m[..32] == Zeros(32)
    ensures Zeros(32) + Keyed(s, nonce, k, c)[32..] == m <==> c[32..] == Keyed(s, nonce, k, m)[32..]
  {
    var x, y := Keyed(s, nonce, k, m), Keyed(s, nonce, k, c);
    KeyedTwice(s, nonce, k, m);
    KeyedTwice(s, nonce, k, c);
    if c[32..] == x[32..] {
      KeyedAgree(s, nonce, k, c, x, 32, |c|);
      assert m == Zeros(32) + m[32..];
    }
    if Zeros(32) + y[32..] == m {
      assert (Zeros(32) + y[32..])[32..] == m[32..];
      KeyedAgree(s, nonce, k, y, m, 32, |m|);
    }
  }

  lemma OpenUndoesSeal(s: Salsa, nonce: seq<byte>, k: Key, m: seq<byte>)
    requires |nonce| == 24 && |m| >= 32 && m[..32] == Zeros(32)
    ensures Open(s, nonce, k, Seal(s, nonce, k, m)) == Some(m)
  {
    OpenExactly(s, nonce, k, Seal(s, nonce, k, m), m);
  }

  // ---- the library wrappers --------------------------------------------------------------

  /** ed25519_secretbox: pads, and writes zeros when the message does not fit its buffer. */
  ghost function WrapSeal(s: Salsa, nonce: seq<byte>, k: Key, m: seq<byte>): seq<byte>
    requires |nonce| == 24
  {
    if |m| > 2048 then Zeros(|m| + 32) else Seal(s, nonce, k, Zeros(32) + m)
  }

  /** ed25519_secretbox_open: its own buffer is smaller. */
  ghost function WrapOpen(s: Salsa, nonce: seq<byte>, k: Key, c: seq<byte>): Option<seq<byte>>
    requires |nonce| == 24 && |c| >= 32
  {
    if |c| - 32 > 1024 then None
    else match Open(s, nonce, k, c) case None => None case Some(m) => Some(m[32..])
  }

  /** The wrappers round-trip exactly the messages of at most 1024 bytes. */
  lemma WrapperRoundTrip(s: Salsa, nonce: seq<byte>, k: Key, m: seq<byte>)
    requires |nonce| == 24
    ensures WrapOpen(s, nonce, k, WrapSeal(s, nonce, k, m)) == Some(m) <==> |m| <= 1024
  {
    var padded := Zeros(32) + m;
    if |m| <= 1024 {
      assert padded[..32] == Zeros(32);
      OpenUndoesSeal(s, nonce, k, padded);
    }
  }

  // ---- the stream loops -----------------------------------------------------------------

  lemma {:induction false} ToBytesOf(t: seq<byte>, x: nat, n: nat)
    requires |t| == n && Val(t, 256, n) == x
    ensures t == ToBytes(x, n)
  {
    ValBound(t, 256, n);
    ToBytesVal(x, n);
    ToBytesDigits(x, n);
    ValInjective(t, ToBytes(x, n), 256, n);
  }

  lemma ToBytesDigits(x: nat, n: nat)
    ensures Digits(ToBytes(x, n), 256, n)
  {
  }

  lemma CarryStep(v: int, d: int, w: int, u: int, o: int, z: int, c: int)
    requires v + u * w == o + 1 && z + c * 256 == u + d
    ensures (v + z * w) + c * (256 * w) == (o + d * w) + 1
  {
    assert z * w + c * (256 * w) == (z + c * 256) * w == u * w + d * w;
  }

  /** The carry loop over z[8..16) adds one to the block counter. */
  method NextCounter(z: array<byte>)
    requires z.Length == 16
    modifies z
    ensures z[..8] == old(z[..8])
    ensures Val(z[8..], 256, 8) == (old(Val(z[8..], 256, 8)) + 1) % WRAP64
  {
    var u: u32 := 1;
    ghost var nonce: seq<byte>, was: seq<byte> := z[..8], z[8..];
    for j := 8 to 16
      invariant z[..8] == nonce && u <= 1
      invariant forall k :: j <= k < 16 ==> z[k] == was[k - 8]
      invariant Val(z[8..], 256, j - 8) + u as int * Pow(256, j - 8) == Val(was, 256, j - 8) + 1
    {
      ghost var before: seq<byte> := z[8..];
      u := u as int + z[j];
      var d := u as int % 256;
      z[j] := d;
      CarryStep(Val(before, 256, j - 8), was[j - 8], Pow(256, j - 8), u as int - was[j - 8], Val(was, 256, j - 8), d, u as int / 256);
      u := u as int / 256;
      assert z[8..] == before[j - 8 := d as byte];
      ValSame(z[8..], before, 256, j - 8);
    }
    ValBound(z[8..], 256, 8);
    Pow256To8();
    ModUnique(Val(was, 256, 8) + 1, u, Val(z[8..], 256, 8), WRAP64);
  }

  lemma Successor(i: nat, m: int)
    requires m > 0
    ensures (i % m + 1) % m == (i + 1) % m
  {
    AddMod(i % m, 1, m);
    AddMod(i, 1, m);
    ModUnique(i % m, 0, i % m, m);
  }

  /** A counter one higher is the input of the next block. */
  lemma CounterMoves(z: seq<byte>, z2: seq<byte>, n8: seq<byte>, i: nat)
    requires |z| == |z2| == 16 && |n8| == 8 && z == CounterBlock(n8, i) && z2[..8] == z[..8]
    requires Val(z2[8..], 256, 8) == (Val(z[8..], 256, 8) + 1) % WRAP64
    ensures z2 == CounterBlock(n8, i + 1)
  {
    CounterParts(n8, i);
    assert z[..8] == n8;
    Successor(i, WRAP64);
    ToBytesOf(z2[8..], (i + 1) % WRAP64, 8);
    assert z2 == z2[..8] + z2[8..];
  }

  /** crypto_core_salsa20(x, z, k, sigma) */
  method CoreSalsa20(s: Salsa, x: array<byte>, z: array<byte>, k: array<byte>)
    requires x.Length == 64 && z.Length == 16 && k.Length == 32 && z != x && k != x
    modifies x
    ensures x[..] == s.block(z[..], k[..])
  {
    var b: seq<byte> := s.block(z[..], k[..]);
    for i := 0 to 64
      invariant x[..i] == b[..i]
    {
      x[i] := b[i];
    }
  }

  /** n bytes of the keystream block x go out from at on, xored with the message if there is one. */
  method XorInto(c: array<byte>, m: array?<byte>, at: nat, x: array<byte>, n: nat)
    requires at + n <= c.Length && (m != null ==> at + n <= m.Length) && n <= x.Length && x != c
    modifies c
    ensures forall j :: 0 <= j < c.Length && !(at <= j < at + n) ==> c[j] == old(c[j])
    ensures forall j :: at <= j < at + n ==> c[j] == XorByte(if m == null then 0 else old(m[j]), x[j - at])
  {
    for i := 0 to n
      invariant forall j :: 0 <= j < c.Length && !(at <= j < at + i) ==> c[j] == old(c[j])
      invariant forall j :: at <= j < at + i ==> c[j] == XorByte(if m == null then 0 else old(m[j]), x[j - at])
    {
      c[at + i] := XorByte(if m == null then 0 else m[at + i], x[i]);
    }
  }

  /** The bytes below n are done. */
  ghost predicate Streamed(s: Salsa, n8: seq<byte>, k: Key, m: seq<byte>, c: seq<byte>, n: nat)
    requires n <= |m| && n <= |c|
  {
    forall j :: 0 <= j < n ==> c[j] == XorByte(m[j], KeyByte(s, n8, k, j))
  }

  /** One block, whole or partial: n bytes from at = 64 * i. */
  method StreamBlock(s: Salsa, c: array<byte>, m: array?<byte>, at: nat, n: nat, z: array<byte>, k: array<byte>,
                     ghost n8: seq<byte>, ghost text: seq<byte>, ghost i: nat)
    requires n <= 64 && at == 64 * i && at + n <= c.Length && at + n <= |text| && (m != null ==> at + n <= m.Length)
    requires z.Length == 16 && k.Length == 32 && z != c && z[..] == CounterBlock(n8, i)
    requires Streamed(s, n8, k[..], text, c[..], at)
    requires forall j :: at <= j < at + n ==> text[j] == if m == null then 0 else m[j]
    modifies c
    ensures Streamed(s, n8, old(k[..]), text, c[..], at + n)
    ensures forall j :: at + n <= j < c.Length ==> c[j] == old(c[j])
  {
    var x := new byte[64];
    ghost var key: Key := k[..];
    CoreSalsa20(s, x, z, k);
    XorInto(c, m, at, x, n);
    BlockDone(s, n8, key, text, c[..], x[..], i, n);
  }

  /** at bytes of i whole blocks are done; the rest of the buffer and of the message stands. */
  ghost predicate Running(s: Salsa, n8: seq<byte>, k: Key, text: seq<byte>, rest: seq<byte>, c: seq<byte>, z: seq<byte>,
                          i: nat, at: nat)
  {
    && at == 64 * i && at <= |text| <= |c| == |rest| && z == CounterBlock(n8, i)
    && Streamed(s, n8, k, text, c, at)
    && forall j :: at <= j < |c| ==> c[j] == rest[j]
  }

  /** What is left of the message is as it was; without one it is zeros. */
  ghost predicate Ahead(m: array?<byte>, text: seq<byte>, at: nat)
    reads m
  {
    if m == null then forall j :: at <= j < |text| ==> text[j] == 0
    else |text| <= m.Length && forall j :: at <= j < |text| ==> m[j] == text[j]
  }

  /** One pass of the loop: a whole block, then the counter. */
  method StreamPass(s: Salsa, c: array<byte>, m: array?<byte>, at: nat, z: array<byte>, k: array<byte>,
                    ghost n8: seq<byte>, ghost text: seq<byte>, ghost rest: seq<byte>, ghost i: nat)
    requires z.Length == 16 && k.Length == 32 && z != c && k != c && z != k && z != m
    requires Running(s, n8, k[..], text, rest, c[..], z[..], i, at) && at + 64 <= |text| && Ahead(m, text, at)
    modifies c, z
    ensures Running(s, n8, k[..], text, rest, c[..], z[..], i + 1, at + 64) && Ahead(m, text, at + 64)
  {
    assert Ahead(m, text, at + 64);
    StreamBlock(s, c, m, at, 64, z, k, n8, text, i);
    assert Ahead(m, text, at + 64);
    ghost var before: seq<byte> := z[..];
    assert before[8..] == z[8..] && before[..8] == z[..8];
    NextCounter(z);
    assert z[..][8..] == z[8..] && z[..][..8] == z[..8];
    CounterMoves(before, z[..], n8, i);
  }

  /** crypto_stream_salsa20_xor, with m null for the bare stream; c may be m. */
  method StreamXor(s: Salsa, c: array<byte>, m: array?<byte>, b: nat, n8: seq<byte>, k: array<byte>)
    requires b <= c.Length && (m != null ==> b <= m.Length) && |n8| == 8 && k.Length == 32 && k != c
    modifies c
    ensures Streamed(s, n8, k[..], if m == null then Zeros(b) else old(m[..b]), c[..], b)
    ensures c[b..] == old(c[b..])
  {
    ghost var text: seq<byte>, rest := if m == null then Zeros(b) else m[..b], c[..];
    var z := new byte[16](i requires 0 <= i < 16 => if i < 8 then n8[i] else 0);
    ghost var i := 0;
    FreshCounter(z[..], n8);
    assert Ahead(m, text, 0);
    var at := 0;
    while b - at >= 64
      invariant at <= b && Running(s, n8, k[..], text, rest, c[..], z[..], i, at) && Ahead(m, text, at)
      modifies c, z
    {
      StreamPass(s, c, m, at, z, k, n8, text, rest, i);
      i, at := i + 1, at + 64;
    }
    StreamRest(s, c, m, at, b, z, k, n8, text, rest, i);
  }

  /** What is left after the whole blocks. */
  method StreamRest(s: Salsa, c: array<byte>, m: array?<byte>, at: nat, b: nat, z: array<byte>, k: array<byte>,
                    ghost n8: seq<byte>, ghost text: seq<byte>, ghost rest: seq<byte>, ghost i: nat)
    requires z.Length == 16 && k.Length == 32 && z != c && k != c && z != k && z != m && |text| == b
    requires Running(s, n8, k[..], text, rest, c[..], z[..], i, at) && b - at < 64 && Ahead(m, text, at)
    modifies c
    ensures Streamed(s, n8, k[..], text, c[..], b) && c[b..] == rest[b..]
  {
    if b > at {
      StreamBlock(s, c, m, at, b - at, z, k, n8, text, i);
    }
  }

  lemma FreshCounter(z: seq<byte>, n8: seq<byte>)
    requires |z| == 16 && |n8| == 8 && z[..8] == n8 && forall k :: 8 <= k < 16 ==> z[k] == 0
    ensures z == CounterBlock(n8, 0)
  {
    ValZero(z[8..], 256, 8);
    ToBytesOf(z[8..], 0, 8);
    assert z == z[..8] + z[8..];
  }

  lemma BlockDone(s: Salsa, n8: seq<byte>, k: Key, m: seq<byte>, c: seq<byte>, x: seq<byte>, i: nat, n: nat)
    requires n <= 64 && 64 * i + n <= |m| && 64 * i + n <= |c| && |x| == 64
    requires Streamed(s, n8, k, m, c, 64 * i) && x == s.block(CounterBlock(n8, i), k)
    requires forall j :: 64 * i <= j < 64 * i + n ==> c[j] == XorByte(m[j], x[j - 64 * i])
    ensures Streamed(s, n8, k, m, c, 64 * i + n)
  {
    forall j | 64 * i <= j < 64 * i + n
      ensures c[j] == XorByte(m[j], KeyByte(s, n8, k, j))
    {
      assert j / 64 == i && j % 64 == j - 64 * i;
    }
  }

  /** crypto_stream_xor and, with m null, crypto_stream. */
  method CryptoStreamXor(s: Salsa, c: array<byte>, m: array?<byte>, d: nat, n: array<byte>, k: array<byte>)
    requires d <= c.Length && (m != null ==> d <= m.Length) && n.Length == 24 && k.Length == 32
    modifies c
    ensures c[..d] == old(Keyed(s, n[..], k[..], if m == null then Zeros(d) else m[..d]))
    ensures c[d..] == old(c[d..])
  {
    var sub: seq<byte> := s.subkey(n[..16], k[..]);
    var key := new byte[32](i requires 0 <= i < 32 => sub[i]);
    assert key[..] == sub && n[..][16..] == n[16..] && n[..][..16] == n[..16];
    StreamXor(s, c, m, d, n[16..], key);
  }

  // ---- secretbox ----------------------------------------------------------------------

  /** crypto_verify_16: 0 when equal, -1 when not, without branching on a byte. */
  method CryptoVerify16(x: array<byte>, xo: nat, y: array<byte>, yo: nat) returns (r: int)
    requires xo + 16 <= x.Length && yo + 16 <= y.Length
    ensures r == if x[xo..xo + 16] == y[yo..yo + 16] then 0 else -1
  {
    var d: u32 := 0;
    ghost var a, b := x[xo..xo + 16], y[yo..yo + 16];
    for i := 0 to 16
      invariant d < 256 && (d == 0 <==> forall k :: 0 <= k < i ==> a[k] == b[k])
    {
      var e := XorByte(x[xo + i], y[yo + i]);
      assert x[xo + i] == a[i] && y[yo + i] == b[i];
      SameIffZero(x[xo + i], y[yo + i]);
      Pow256();
      OrFacts(d, e, 8);
      d := Or(d, e, 8);
    }
    // bit 8 of the wrapped d - 1 is set only for d = 0
    r := ((d as int - 1) % 0x1_0000_0000) / 256 % 2 - 1;
    assert a == b <==> d == 0;
  }

  /** x | y on n bits */
  function Or(x: int, y: int, n: nat): int
    decreases n, x, y
  {
    if n == 0 then 0 else 2 * Or(x / 2, y / 2, n - 1) + if x % 2 == 1 || y % 2 == 1 then 1 else 0
  }

  lemma {:induction false} OrFacts(x: int, y: int, n: nat)
    requires 0 <= x < Pow(2, n) && 0 <= y < Pow(2, n)
    ensures 0 <= Or(x, y, n) < Pow(2, n)
    ensures Or(x, y, n) == 0 <==> x == 0 && y == 0
    decreases n, x, y
  {
    if n > 0 {
      OrFacts(x / 2, y / 2, n - 1);
    }
  }

  lemma SameIffZero(x: byte, y: byte)
    ensures XorByte(x, y) == 0 <==> x == y
  {
    Pow256();
    BitsRange(y, 8);
    XorTwice(x, y);
    XorSelf(x, 8);
    XorZero(y, 8);
    XorCommutes(0, y, 8);
  }

  /** crypto_secretbox: stream, tag over the stream's own first 32 bytes, then zeros. */
  method CryptoSecretbox(s: Salsa, c: array<byte>, m: array<byte>, d: nat, n: array<byte>, k: array<byte>) returns (r: int)
    requires d <= c.Length && d <= m.Length && n.Length == 24 && k.Length == 32
    modifies c
    ensures r == if d < 32 then -1 else 0
    ensures d < 32 ==> c[..] == old(c[..])
    ensures d >= 32 ==> c[..d] == old(Seal(s, n[..], k[..], m[..d])) && c[d..] == old(c[d..])
  {
    if d < 32 {
      return -1;
    }
    ghost var rest := c[d..];
    CryptoStreamXor(s, c, m, d, n, k);
    ghost var x := c[..d];
    assert c[32..d] == x[32..] && c[0..32] == x[..32];
    TagInPlace(c, d);
    return 0;
  }

  /** The tag goes over c[16..32), which the key in c[0..32) covers: it is read first. */
  method TagInPlace(c: array<byte>, d: nat)
    requires 32 <= d <= c.Length
    modifies c
    ensures c[..d] == Zeros(16) + old(Tag(c[32..d], c[0..32])) + old(c[32..d])
    ensures c[d..] == old(c[d..])
  {
    ghost var was: seq<byte> := c[..];
    CryptoOneTimeAuth(c, 16, c, 32, d - 32, c, 0);
    assert c[32..] == was[32..];
    ghost var tagged: seq<byte> := c[..];
    ZeroFirst(c, 16);
    ClearedHead(was, tagged, c[..], d);
  }

  lemma ClearedHead(was: seq<byte>, tagged: seq<byte>, c: seq<byte>, d: nat)
    requires |was| == |tagged| == |c| && 32 <= d <= |c|
    requires tagged[32..] == was[32..] && c[16..] == tagged[16..] && c[..16] == Zeros(16)
    ensures c[..d] == Zeros(16) + tagged[16..32] + was[32..d] && c[d..] == was[d..]
  {
    assert forall j :: 32 <= j < |c| ==> c[j] == c[16..][j - 16] == tagged[j] == tagged[32..][j - 32] == was[j];
    assert forall j :: 16 <= j < 32 ==> c[j] == c[16..][j - 16] == tagged[j];
    assert forall j :: 0 <= j < 16 ==> c[j] == c[..16][j];
  }

  method ZeroFirst(c: array<byte>, n: nat)
    requires n <= c.Length
    modifies c
    ensures c[..n] == Zeros(n) && c[n..] == old(c[n..])
  {
    for i := 0 to n
      invariant forall k :: 0 <= k < i ==> c[k] == 0
      invariant c[n..] == old(c[n..])
    {
      c[i] := 0;
    }
  }

  /** crypto_secretbox_open: the tag is checked before the stream is applied. */
  method CryptoSecretboxOpen(s: Salsa, m: array<byte>, c: array<byte>, d: nat, n: array<byte>, k: array<byte>) returns (r: int)
    requires d <= m.Length && d <= c.Length && n.Length == 24 && k.Length == 32
    modifies m
    ensures var plain := old(Open(s, n[..], k[..], c[..d]));
            && r == (if plain.Some? then 0 else -1)
            && (plain.None? ==> m[..] == old(m[..]))
            && (plain.Some? ==> m[..d] == plain.value && m[d..] == old(m[d..]))
  {
    if d < 32 {
      return -1;
    }
    ghost var box := c[..d];
    assert c[32..d] == box[32..] && c[16..32] == box[16..32];
    var x := new byte[32];
    CryptoStreamXor(s, x, null, 32, n, k);
    assert x[0..32] == x[..32];
    var same := CryptoOneTimeAuthVerify(c, 16, c, 32, d - 32, x, 0);
    if same != 0 {
      return -1;
    }
    Unseal(s, m, c, d, n, k);
    return 0;
  }

  method CryptoOneTimeAuthVerify(h: array<byte>, ho: nat, m: array<byte>, mo: nat, n: nat, k: array<byte>, ko: nat) returns (r: int)
    requires ho + 16 <= h.Length && mo + n <= m.Length && ko + 32 <= k.Length
    ensures r == if Tag(m[mo..mo + n], k[ko..ko + 32]) == h[ho..ho + 16] then 0 else -1
  {
    var x := new byte[16];
    CryptoOneTimeAuth(x, 0, m, mo, n, k, ko);
    r := CryptoVerify16(h, ho, x, 0);
  }

  method Unseal(s: Salsa, m: array<byte>, c: array<byte>, d: nat, n: array<byte>, k: array<byte>)
    requires 32 <= d <= m.Length && d <= c.Length && n.Length == 24 && k.Length == 32
    modifies m
    ensures m[..d] == old(Zeros(32) + Keyed(s, n[..], k[..], c[..d])[32..])
    ensures m[d..] == old(m[d..])
  {
    CryptoStreamXor(s, m, c, d, n, k);
    ghost var streamed: seq<byte> := m[..];
    assert streamed[..d] == m[..d] && streamed[d..] == m[d..];
    ZeroFirst(m, 32);
    ZeroedHead(streamed, m[..], d);
  }

  lemma ZeroedHead(was: seq<byte>, m: seq<byte>, d: nat)
    requires |was| == |m| && 32 <= d <= |m|
    requires m[32..] == was[32..] && m[..32] == Zeros(32)
    ensures m[..d] == Zeros(32) + was[..d][32..] && m[d..] == was[d..]
  {
    assert forall j :: 32 <= j < |m| ==> m[j] == m[32..][j - 32] == was[j];
    assert forall j :: 0 <= j < 32 ==> m[j] == m[..32][j];
  }
}
