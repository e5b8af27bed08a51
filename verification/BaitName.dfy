/** .bait labels: base32 of a digest, and the address a label stands for. */
module BaitName {
  import opened Limbs
  import opened ModArith
  import opened Machine
  import opened Octets
  import opened Wrappers

  const ALPHABET: string := "abcdefghijklmnopqrstuvwxyz234567"
  const LABEL_LEN: nat := 32
  const WRAP32: int := 0x1_0000_0000

  // ---- what labels and addresses are ------------------------------------------------

  /** Character k stands for bits 5k .. 5k + 4 of the first 160 digest bits. */
  function LabelOf(d: Bytes): (text: string)
    requires |d| >= 20
    ensures |text| == LABEL_LEN
  {
    seq(LABEL_LEN, k requires 0 <= k < LABEL_LEN => ALPHABET[Quintet(BigEndian(d[..20]), 155 - 5 * k)])
  }

  /** The five bits of x from bit e up. */
  function Quintet(x: nat, e: nat): (q: nat)
    ensures q < 32
  {
    Shr(x, e) % 32
  }

  /** x without its e low bits. */
  function Shr(x: nat, e: nat): nat
    decreases e, x
  {
    if e == 0 then x else Shr(x / 2, e - 1)
  }

  /** derive_addr for class C: two class bits, six digest bits, four digest bytes. */
  function DeriveAddr(d: Bytes): int
    requires |d| >= 5
  {
    (0x80 + d[0] as int % 64) * WRAP32 + BigEndian(d[1..5])
  }

  /** The value of a base32 character of either case, or -1; one byte a character, as C reads it. */
  function AsciiValue(c: char): int {
    if 'a' <= c <= 'z' then c as int - 'a' as int
    else if 'A' <= c <= 'Z' then c as int - 'A' as int
    else if '2' <= c <= '7' then c as int - '2' as int + 26
    else -1
  }

  const KELVIN_SIGN: char := '\U{212A}'

  /** The same for Unicode text: lower-casing the Kelvin sign gives k too. */
  function Value(c: char): (v: int)
    ensures v == AsciiValue(c) <==> c != KELVIN_SIGN
  {
    if c == KELVIN_SIGN then 10 else AsciiValue(c)
  }

  predicate LabelValid(text: string) {
    |text| == LABEL_LEN && forall i :: 0 <= i < |text| ==> Value(text[i]) >= 0
  }

  /** The number in the first n characters. */
  function Number(text: string, n: nat): int
    requires n <= |text|
  {
    if n == 0 then 0 else Number(text, n - 1) * 32 + Value(text[n - 1])
  }

  function LabelToAddr(text: string): Option<int> {
    if !LabelValid(text) then None
    else
      NumberPositive(text, 8);
      Some(DeriveAddr(ToBigEndian(Number(text, 8), 5)))
  }

  lemma {:induction false} NumberPositive(text: string, n: nat)
    requires n <= |text| && forall i :: 0 <= i < n ==> Value(text[i]) >= 0
    ensures 0 <= Number(text, n)
  {
    if n > 0 {
      NumberPositive(text, n - 1);
    }
  }

  // ---- a key's label names the key's address -------------------------------------------

  lemma ValueOfAlphabet(v: nat)
    requires v < 32
    ensures Value(ALPHABET[v]) == v
  {
  }

  lemma {:induction false} ShrQuotient(x: nat, e: nat)
    ensures Pow(2, e) > 0 && Shr(x, e) == x / Pow(2, e)
    decreases e, x
  {
    PowPositive(2, e);
    if e > 0 {
      ShrQuotient(x / 2, e - 1);
      DivDiv(x, 2, Pow(2, e - 1));
    }
  }

  lemma {:induction false} ShrShr(x: nat, a: nat, b: nat)
    ensures Shr(x, a + b) == Shr(Shr(x, a), b)
    decreases a, x
  {
    if a > 0 {
      ShrShr(x / 2, a - 1, b);
    }
  }

  /** Dropping e bits, then five more. */
  lemma FiveBits(x: nat, e: nat)
    ensures Shr(x, e) == 32 * Shr(x, e + 5) + Quintet(x, e)
  {
    ShrShr(x, e, 5);
    var y := Shr(x, e);
    ShrQuotient(y, 5);
    assert Pow(2, 5) == 32;
  }

  /** The characters are the leading quintets of the number x of so many bits. */
  ghost predicate Spells(text: string, x: nat, n: nat, bits: nat) {
    n <= |text| && 5 * n <= bits && forall k :: 0 <= k < n ==> Value(text[k]) == QuintetAt(x, bits, k)
  }

  function QuintetAt(x: nat, bits: nat, k: nat): (q: nat)
    ensures q < 32
  {
    if 5 * k + 5 <= bits then Quintet(x, bits - 5 * k - 5) else 0
  }

  lemma SpelledAt(text: string, x: nat, n: nat, bits: nat, e: nat)
    requires Spells(text, x, n, bits) && e + 5 * n == bits && n > 0
    ensures Value(text[n - 1]) == Quintet(x, e)
  {
    assert Value(text[n - 1]) == QuintetAt(x, bits, n - 1);
    assert bits - 5 * (n - 1) - 5 == e;
  }

  lemma {:induction false} NumberOfLabel(text: string, x: nat, n: nat, bits: nat, e: nat)
    requires Spells(text, x, n, bits) && Shr(x, bits) == 0 && e + 5 * n == bits
    ensures Number(text, n) == Shr(x, e)
    decreases n
  {
    if n > 0 {
      NumberOfLabel(text, x, n - 1, bits, e + 5);
      FiveBits(x, e);
      SpelledAt(text, x, n, bits, e);
    }
  }

  lemma {:induction false} BigEndianSplit(s: Bytes, k: nat)
    requires k <= |s|
    ensures Pow(256, |s| - k) > 0
    ensures BigEndian(s) == BigEndian(s[..k]) * Pow(256, |s| - k) + BigEndian(s[k..])
  {
    PowPositive(256, |s| - k);
    if k == |s| {
      assert s[..k] == s;
    } else {
      var t := s[..|s| - 1];
      BigEndianSplit(t, k);
      assert t[..k] == s[..k] && t[k..] == s[k..][..|s[k..]| - 1];
      var hi, w := BigEndian(s[..k]), Pow(256, |t| - k);
      assert (hi * w) * 256 == hi * (256 * w);
    }
  }

  lemma LeadingBytes(s: Bytes, k: nat, bits: nat, e: nat)
    requires k <= |s| && bits == 8 * |s| && e == bits - 8 * k
    ensures Shr(BigEndian(s), bits) == 0 && Shr(BigEndian(s), e) == BigEndian(s[..k])
  {
    PowOfBytes(|s|);
    BigEndianBound(s);
    ShrQuotient(BigEndian(s), bits);
    ModUnique(BigEndian(s), 0, BigEndian(s), Pow(256, |s|));
    PowOfBytes(|s| - k);
    BigEndianSplit(s, k);
    BigEndianBound(s[k..]);
    ModUnique(BigEndian(s), BigEndian(s[..k]), BigEndian(s[k..]), Pow(256, |s| - k));
    ShrQuotient(BigEndian(s), e);
  }

  /** The first n characters over s hold its first k bytes when the bits agree. */
  lemma LeadingChars(text: string, s: Bytes, n: nat, k: nat, bits: nat)
    requires 5 * n == 8 * k && k <= |s| && bits == 8 * |s| && Spells(text, BigEndian(s), n, bits)
    ensures Number(text, n) == BigEndian(s[..k])
  {
    var e := bits - 8 * k;
    LeadingBytes(s, k, bits, e);
    NumberOfLabel(text, BigEndian(s), n, bits, e);
  }

  lemma LabelIsValid(d: Bytes)
    requires |d| >= 20
    ensures LabelValid(LabelOf(d)) && Spells(LabelOf(d), BigEndian(d[..20]), 8, 8 * |d[..20]|)
  {
    var text, x := LabelOf(d), BigEndian(d[..20]);
    forall i | 0 <= i < 32
      ensures Value(text[i]) >= 0
    {
      ValueOfAlphabet(Quintet(x, 155 - 5 * i));
    }
    forall k | 0 <= k < 8
      ensures Value(text[k]) == QuintetAt(x, 8 * |d[..20]|, k)
    {
      ValueOfAlphabet(Quintet(x, 155 - 5 * k));
      assert 8 * |d[..20]| - 5 * k - 5 == 155 - 5 * k;
    }
  }

  /** The label of a digest stands for the address derived from that digest. */
  lemma LabelNamesAddress(d: Bytes)
    requires |d| >= 20
    ensures LabelToAddr(LabelOf(d)) == Some(DeriveAddr(d))
  {
    LabelIsValid(d);
    LeadingChars(LabelOf(d), d[..20], 8, 5, 8 * |d[..20]|);
    assert d[..20][..5] == d[..5];
    ToBigEndianBack(d[..5]);
    assert d[..5][1..5] == d[1..5];
  }

  /** The alphabet of RFC 4648, section 6: a to z are 0 to 25, 2 to 7 are 26 to 31. */
  lemma AlphabetIs(v: nat)
    requires v < 32
    ensures ALPHABET[v] as int == if v < 26 then 97 + v else 24 + v
    ensures Value(ALPHABET[v]) == v
  {
    ValueOfAlphabet(v);
  }

  /** The whole label spells the first twenty bytes of the digest. */
  lemma LabelSpellsDigest(d: Bytes)
    requires |d| >= 20
    ensures Number(LabelOf(d), 32) == BigEndian(d[..20])
  {
    var text, s := LabelOf(d), d[..20];
    forall k | 0 <= k < 32
      ensures Value(text[k]) == QuintetAt(BigEndian(s), 160, k)
    {
      ValueOfAlphabet(Quintet(BigEndian(s), 155 - 5 * k));
      assert 160 - 5 * k - 5 == 155 - 5 * k;
    }
    LeadingChars(text, s, 32, 20, 160);
    assert s[..20] == s;
  }

  /** The address is of class C, and its low 38 bits are those of the first five digest bytes. */
  lemma AddressIsClassC(d: Bytes)
    requires |d| >= 5
    ensures 0x80_0000_0000 <= DeriveAddr(d) < 0xC0_0000_0000
    ensures DeriveAddr(d) % 0x40_0000_0000 == BigEndian(d[..5]) % 0x40_0000_0000
  {
    var s := d[..5];
    BigEndianSplit(s, 1);
    assert s[1..] == d[1..5] && s[..1] == [d[0]] && [d[0]][..0] == [];
    BigEndianBound(s[1..]);
    Bytes32(4);
    assert BigEndian([d[0]]) == d[0] as int;
    LowBits38(d[0] as int, BigEndian(s[1..]));
  }

  lemma Bytes32(n: nat)
    requires n == 4
    ensures Pow(256, n) == 0x1_0000_0000
  {
    assert Pow(256, 2) == 65536;
    PowAdd(256, 2, 2);
  }

  lemma LowBits38(b: int, r: int)
    requires 0 <= b < 256 && 0 <= r < 0x1_0000_0000
    ensures ((0x80 + b % 64) * 0x1_0000_0000 + r) % 0x40_0000_0000 == (b * 0x1_0000_0000 + r) % 0x40_0000_0000
  {
    var low := (b % 64) * 0x1_0000_0000 + r;
    ModUnique((0x80 + b % 64) * 0x1_0000_0000 + r, 2, low, 0x40_0000_0000);
    ModUnique(b * 0x1_0000_0000 + r, b / 64, low, 0x40_0000_0000);
  }

  // ---- the bit accumulators ----------------------------------------------------------------

  /** out holds every whole quintet of the leading bits of x; nbits bits are left over. */
  ghost predicate Encoded(x: nat, bits: nat, nbits: nat, out: string) {
    && 5 * |out| + nbits == bits
    && forall k :: 0 <= k < |out| ==> 5 * k + 5 <= bits && out[k] == ALPHABET[Quintet(x, bits - 5 * k - 5)]
  }

  /** A byte shifted in below does not change the bits above. */
  lemma ShiftIn(x: nat, y: nat, e: nat)
    requires y < 256
    ensures Quintet(x * 256 + y, e + 8) == Quintet(x, e)
  {
    ShrShr(x * 256 + y, 8, e);
    ShrQuotient(x * 256 + y, 8);
    assert Pow(2, 8) == 256;
  }

  lemma EncodeByte(x: nat, y: nat, bits: nat, nbits: nat, out: string, x2: nat, bits2: nat, nbits2: nat)
    requires y < 256 && Encoded(x, bits, nbits, out)
    requires x2 == x * 256 + y && bits2 == bits + 8 && nbits2 == nbits + 8
    ensures Encoded(x2, bits2, nbits2, out)
  {
    forall k | 0 <= k < |out|
      ensures 5 * k + 5 <= bits2 && out[k] == ALPHABET[Quintet(x2, bits2 - 5 * k - 5)]
    {
      ShiftIn(x, y, bits - 5 * k - 5);
    }
  }

  lemma EncodeQuintet(x: nat, bits: nat, nbits: nat, out: string)
    requires nbits >= 5 && Encoded(x, bits, nbits, out)
    ensures Encoded(x, bits, nbits - 5, out + [ALPHABET[Quintet(x, nbits - 5)]])
  {
  }

  lemma Regroup(a: int, b: int, c: int)
    ensures a * (b * c) == (a * b) * c
  {
  }

  lemma RaisedBy(q: int, w: int, v: int, c: int)
    ensures q * ((w * v) * c) == ((q * v) * c) * w
  {
    var vc := v * c;
    Regroup(w, v, c);
    Regroup(q, w, vc);
    Regroup(w, q, vc);
    Regroup(q, v, c);
    assert q * w == w * q;
  }

  lemma HighBitsGone(x: int, r: int, q: int, w: int, v: int, c: int)
    requires w > 0 && c > 0 && x == r + q * ((w * v) * c)
    ensures (x / w) % c == (r / w) % c
  {
    RaisedBy(q, w, v, c);
    var k := q * v;
    ModShift(r, k * c, w);
    ModShift(r / w, k, c);
  }

  /** Bits below 32 do not feel the wrap of a 32-bit accumulator. */
  lemma WrapKeeps(x: nat, e: nat, b: nat)
    requires e + b <= 32
    ensures Pow(2, b) > 0 && Shr(x % WRAP32, e) % Pow(2, b) == Shr(x, e) % Pow(2, b)
  {
    PowPositive(2, e);
    PowPositive(2, b);
    var v := 32 - e - b;
    PowAdd(2, e, v);
    PowAdd(2, e + v, b);
    Two32(e + v + b);
    DivModDef(x, WRAP32);
    HighBitsGone(x, x % WRAP32, x / WRAP32, Pow(2, e), Pow(2, v), Pow(2, b));
    ShrQuotient(x, e);
    ShrQuotient(x % WRAP32, e);
  }

  lemma WrapKeepsBits(x: nat, e: nat)
    requires e + 5 <= 32
    ensures Quintet(x % WRAP32, e) == Quintet(x, e)
  {
    WrapKeeps(x, e, 5);
    assert Pow(2, 5) == 32;
  }

  lemma LabelIsSpelled(d: Bytes, nbits: nat, out: string)
    requires |d| >= 20 && nbits < 5 && Encoded(BigEndian(d[..20]), 160, nbits, out)
    ensures out == LabelOf(d)
  {
    assert |out| == 32;
    forall k | 0 <= k < 32
      ensures out[k] == LabelOf(d)[k]
    {
      assert 160 - 5 * k - 5 == 155 - 5 * k;
    }
  }

  lemma NextByte(d: Bytes, i: nat)
    requires i < |d|
    ensures BigEndian(d[..i + 1]) == BigEndian(d[..i]) * 256 + d[i]
  {
    assert d[..i + 1][..i] == d[..i];
  }

  /** The inner loop of label_from_pub: spell every whole quintet. */
  method Emit(acc: nat, nbits: nat, out: string, ghost bits: nat) returns (left: nat, text: string)
    requires Encoded(acc, bits, nbits, out)
    ensures left < 5 && Encoded(acc, bits, left, text)
  {
    left, text := nbits, out;
    while left >= 5
      invariant Encoded(acc, bits, left, text)
    {
      EncodeQuintet(acc, bits, left, text);
      left := left - 5;
      text := text + [ALPHABET[Quintet(acc, left)]];
    }
  }

  /** label_from_pub, from the digest: an accumulator that never wraps. */
  method LabelFromDigest(d: Bytes) returns (out: string)
    requires |d| >= 20
    ensures out == LabelOf(d)
  {
    var acc, nbits := 0, 0;
    out := "";
    for i := 0 to 20
      invariant acc == BigEndian(d[..i]) && nbits < 5 && Encoded(acc, 8 * i, nbits, out)
    {
      NextByte(d, i);
      ghost var before, left := acc, nbits;
      acc, nbits := acc * 256 + d[i] as int, nbits + 8;
      EncodeByte(before, d[i], 8 * i, left, out, acc, 8 * (i + 1), nbits);
      nbits, out := Emit(acc, nbits, out, 8 * (i + 1));
    }
    LabelIsSpelled(d, nbits, out);
  }

  /** The inner loop of bait_label_from_pub. */
  method Emit32(acc: u32, nbits: nat, out: string, ghost x: nat, ghost bits: nat) returns (left: nat, text: string)
    requires acc == x % WRAP32 && nbits < 13 && Encoded(x, bits, nbits, out)
    ensures left < 5 && Encoded(x, bits, left, text)
  {
    left, text := nbits, out;
    while left >= 5
      invariant left < 13 && Encoded(x, bits, left, text)
    {
      EncodeQuintet(x, bits, left, text);
      left := left - 5;
      WrapKeepsBits(x, left);
      text := text + [ALPHABET[Quintet(acc, left)]];
    }
  }

  /** bait_label_from_pub: the same, with a 32-bit accumulator that wraps. */
  method LabelFromDigest32(d: Bytes) returns (out: string)
    requires |d| >= 20
    ensures out == LabelOf(d)
  {
    var acc: u32, nbits := 0, 0;
    out := "";
    for i := 0 to 20
      invariant acc == BigEndian(d[..i]) % WRAP32 && nbits < 5 && Encoded(BigEndian(d[..i]), 8 * i, nbits, out)
    {
      NextByte(d, i);
      ghost var x, left := BigEndian(d[..i + 1]), nbits;
      WrapStep(BigEndian(d[..i]), 256, d[i]);
      acc, nbits := (acc as int * 256 + d[i]) % WRAP32, nbits + 8;
      EncodeByte(BigEndian(d[..i]), d[i], 8 * i, left, out, x, 8 * (i + 1), nbits);
      nbits, out := Emit32(acc, nbits, out, x, 8 * (i + 1));
    }
    LabelIsSpelled(d, nbits, out);
  }

  lemma WrapStep(x: int, b: int, y: int)
    ensures ((x % WRAP32) * b + y) % WRAP32 == (x * b + y) % WRAP32
  {
    DivModDef(x, WRAP32);
    var q := x / WRAP32;
    assert x * b + y == (x % WRAP32) * b + y + (q * b) * WRAP32 by {
      assert x * b == (x % WRAP32) * b + (q * WRAP32) * b;
      assert (q * WRAP32) * b == (q * b) * WRAP32;
    }
    ModShift((x % WRAP32) * b + y, q * b, WRAP32);
  }

  /** out holds every whole byte of the leading bits of x; nbits bits are left over. */
  ghost predicate Decoded(x: nat, bits: nat, nbits: nat, out: Bytes) {
    && 8 * |out| + nbits == bits
    && forall k :: 0 <= k < |out| ==> 8 * k + 8 <= bits && out[k] == Shr(x, bits - 8 * k - 8) % 256
  }

  lemma CharIn(x: nat, v: nat, e: nat)
    requires v < 32
    ensures Shr(x * 32 + v, e + 5) == Shr(x, e)
  {
    ShrShr(x * 32 + v, 5, e);
    ShrQuotient(x * 32 + v, 5);
    assert Pow(2, 5) == 32;
  }

  lemma ValueRange(c: char)
    ensures Value(c) < 32
  {
  }

  lemma DecodeChar(x: nat, v: nat, bits: nat, nbits: nat, out: Bytes, x2: nat, bits2: nat, nbits2: nat)
    requires v < 32 && Decoded(x, bits, nbits, out)
    requires x2 == x * 32 + v && bits2 == bits + 5 && nbits2 == nbits + 5
    ensures Decoded(x2, bits2, nbits2, out)
  {
    forall k | 0 <= k < |out|
      ensures 8 * k + 8 <= bits2 && out[k] == Shr(x2, bits2 - 8 * k - 8) % 256
    {
      CharIn(x, v, bits - 8 * k - 8);
    }
  }

  lemma DecodeByte(x: nat, bits: nat, nbits: nat, out: Bytes)
    requires nbits >= 8 && Decoded(x, bits, nbits, out)
    ensures Decoded(x, bits, nbits - 8, out + [Shr(x, nbits - 8) % 256])
  {
  }

  /** The five decoded bytes are the 40-bit number, big-endian. */
  lemma {:induction false} BytesOfShr(x: nat, n: nat, out: Bytes)
    requires |out| == n && forall k :: 0 <= k < n ==> out[k] == Shr(x, 8 * (n - 1 - k)) % 256
    ensures out == ToBigEndian(x, n)
    decreases n
  {
    if n > 0 {
      assert out[n - 1] == Shr(x, 8 * (n - 1 - (n - 1))) % 256;
      forall k | 0 <= k < n - 1
        ensures out[k] == Shr(x / 256, 8 * (n - 2 - k)) % 256
      {
        ShrShr(x, 8, 8 * (n - 2 - k));
        ShrQuotient(x, 8);
        assert Pow(2, 8) == 256 && 8 + 8 * (n - 2 - k) == 8 * (n - 1 - k);
      }
      BytesOfShr(x / 256, n - 1, out[..n - 1]);
      assert out == out[..n - 1] + [out[n - 1]];
    }
  }

  lemma DecodedFive(x: nat, nbits: nat, out: Bytes)
    requires nbits < 8 && Decoded(x, 40, nbits, out)
    ensures |out| == 5 && out == ToBigEndian(x, 5)
  {
    assert |out| == 5;
    BytesOfShr(x, 5, out);
  }

  /** The inner loop of label_to_addr: take every whole byte. */
  method Take(acc: nat, nbits: nat, out: Bytes, ghost bits: nat) returns (left: nat, bytes: Bytes)
    requires Decoded(acc, bits, nbits, out)
    ensures left < 8 && Decoded(acc, bits, left, bytes)
  {
    left, bytes := nbits, out;
    while left >= 8
      invariant Decoded(acc, bits, left, bytes)
    {
      DecodeByte(acc, bits, left, bytes);
      left := left - 8;
      bytes := bytes + [Shr(acc, left) % 256];
    }
  }

  /** label_to_addr: eight characters into five bytes. */
  method DecodeLabel(text: string) returns (r: Option<int>)
    ensures r == LabelToAddr(text)
  {
    if !LabelValid(text) {
      return None;
    }
    var acc: nat, nbits := 0, 0;
    var out: Bytes := [];
    for i := 0 to 8
      invariant acc == Number(text, i) && nbits < 8 && Decoded(acc, 5 * i, nbits, out)
    {
      ValueRange(text[i]);
      ghost var before, left := acc, nbits;
      acc, nbits := acc * 32 + Value(text[i]), nbits + 5;
      DecodeChar(before, Value(text[i]), 5 * i, left, out, acc, 5 * (i + 1), nbits);
      nbits, out := Take(acc, nbits, out, 5 * (i + 1));
    }
    DecodedFive(acc, nbits, out);
    return Some(DeriveAddr(out));
  }

  /** The inner loop of bait_label_to_addr. */
  method Take32(acc: u32, nbits: nat, out: Bytes, ghost x: nat, ghost bits: nat) returns (left: nat, bytes: Bytes)
    requires acc == x % WRAP32 && nbits < 13 && Decoded(x, bits, nbits, out)
    ensures left < 8 && Decoded(x, bits, left, bytes)
  {
    left, bytes := nbits, out;
    while left >= 8
      invariant left < 13 && Decoded(x, bits, left, bytes)
    {
      DecodeByte(x, bits, left, bytes);
      left := left - 8;
      WrapKeeps(x, left, 8);
      assert Pow(2, 8) == 256;
      bytes := bytes + [Shr(acc, left) % 256];
    }
  }

  /** bait_label_to_addr: one byte a character, a wrapping accumulator, and only eight
      characters checked. */
  method DecodeLabel32(text: string) returns (r: Option<int>)
    requires |text| == LABEL_LEN && forall i :: 0 <= i < |text| ==> text[i] as int < 256
    ensures r.None? <==> exists i :: 0 <= i < 8 && AsciiValue(text[i]) < 0
    ensures LabelValid(text) ==> r == LabelToAddr(text)
  {
    var acc: u32, nbits := 0, 0;
    var out: Bytes := [];
    for i := 0 to 8
      invariant forall k :: 0 <= k < i ==> AsciiValue(text[k]) >= 0
      invariant nbits < 8 && Number(text, i) >= 0 && Decoded(Number(text, i), 5 * i, nbits, out)
      invariant acc == Number(text, i) % WRAP32
    {
      var v := AsciiValue(text[i]);
      if v < 0 {
        return None;
      }
      assert v == Value(text[i]);
      ValueRange(text[i]);
      ghost var x, left := Number(text, i + 1), nbits;
      WrapStep(Number(text, i), 32, v);
      acc, nbits := (acc as int * 32 + v) % WRAP32, nbits + 5;
      DecodeChar(Number(text, i), v, 5 * i, left, out, x, 5 * (i + 1), nbits);
      nbits, out := Take32(acc, nbits, out, x, 5 * (i + 1));
    }
    DecodedFive(Number(text, 8), nbits, out);
    return Some(DeriveAddr(out));
  }
}
