/** An honest client and an honest server joined by two FIFO channels. */
module BtlsLockstep {
  import opened Machine
  import opened Octets
  import opened Wrappers
  import opened Btls

  /** The laws of the idealised primitives. */
  ghost predicate Lawful(p: Prims) {
    && (forall a, b :: p.dh(a, p.dhBase(b)) == p.dh(b, p.dhBase(a)))
    && (forall k, n, m :: p.open(k, n, p.seal(k, n, m)) == Some(m))
    && (forall k, n, m :: |p.seal(k, n, m)| == |m| + 32)
    && (forall s, m :: p.verify(p.pub(s), p.sign(s, m), m))
  }

  /** A client and a server that have just been constructed; the client dialled no
      name, or the name of the server's key. */
  ghost predicate Fit(p: Prims, c: Sess, s: Sess) {
    && Lawful(p)
    && c == Btls.Fresh(p, Client, c.seed, c.dialled, c.random, c.ephPriv)
    && s == Btls.Fresh(p, Server, s.seed, s.dialled, s.random, s.ephPriv)
    && (c.dialled == "" || c.dialled == LabelFromPub(p, p.pub(s.seed)))
  }

  // ---- the system ----------------------------------------------------------------------

  /** One sealed record: the epoch and side that sealed it, and its number. */
  datatype Sealing = Sealing(epoch: nat, byClient: bool, number: nat)

  datatype World = World(c: Sess, s: Sess, c2s: seq<Bytes>, s2c: seq<Bytes>, failed: bool, seals: seq<Sealing>)

  datatype Action = Start | FeedClient | FeedServer | PumpClient | PumpServer

  predicate CanAct(w: World, a: Action) {
    match a
    case FeedClient => w.s2c != []
    case FeedServer => w.c2s != []
    case _ => true
  }

  /** The seals a step of one side made: its counter went up in its own epoch. */
  function Sealed(before: Sess, rec: Option<Bytes>): seq<Sealing> {
    if rec.Some? && rec.value != [] && rec.value[0] == RT_APPLICATION
    then [Sealing(before.epoch, before.role == Client, before.sendSeq)] else []
  }

  function Emitted(rec: Option<Bytes>): seq<Bytes> {
    if rec.Some? then [rec.value] else []
  }

  /** What the two ends run. */
  datatype Sides = Sides(start: Sess -> (Sess, Option<Bytes>), feed: (Sess, Bytes) -> (Sess, int),
                         pump: Sess -> (Sess, Option<Bytes>))

  function Code(p: Prims): Sides {
    Sides(v => ClientStart(p, v), (v, rec) => Feed(p, v, rec), v => Pump(p, v))
  }

  function Act(x: Sides, w: World, a: Action): World
    requires CanAct(w, a)
  {
    match a
    case Start =>
      var (c, rec) := x.start(w.c);
      w.(c := c, c2s := w.c2s + Emitted(rec))
    case FeedClient =>
      var (c, code) := x.feed(w.c, w.s2c[0]);
      w.(c := c, s2c := w.s2c[1..], failed := w.failed || code < 0)
    case FeedServer =>
      var (s, code) := x.feed(w.s, w.c2s[0]);
      w.(s := s, c2s := w.c2s[1..], failed := w.failed || code < 0)
    case PumpClient =>
      var (c, rec) := x.pump(w.c);
      w.(c := c, c2s := w.c2s + Emitted(rec), seals := w.seals + Sealed(w.c, rec))
    case PumpServer =>
      var (s, rec) := x.pump(w.s);
      w.(s := s, s2c := w.s2c + Emitted(rec), seals := w.seals + Sealed(w.s, rec))
  }

  ghost predicate Runs(x: Sides, w: World, acts: seq<Action>)
    decreases |acts|, 0
  {
    acts == [] || (Runs(x, w, acts[..|acts| - 1]) && CanAct(After(x, w, acts[..|acts| - 1]), acts[|acts| - 1]))
  }

  ghost function After(x: Sides, w: World, acts: seq<Action>): World
    requires Runs(x, w, acts)
    decreases |acts|, 1
  {
    if acts == [] then w else Act(x, After(x, w, acts[..|acts| - 1]), acts[|acts| - 1])
  }

  // ---- the script the two sides follow ----------------------------------------------------

  /** The transcript after k frames, and frame k. */
  function T(p: Prims, c: Sess, s: Sess, k: nat): Bytes
    decreases k, 0
  {
    if k == 0 then [] else T(p, c, s, k - 1) + F(p, c, s, k - 1)
  }

  function F(p: Prims, c: Sess, s: Sess, k: nat): Bytes
    decreases k, 1
  {
    var t, prk := T(p, c, s, k), SharedPrk(p, c.ephPriv, s.ephPub);
    if k == 0 then Tagged(HS_CLIENT_HELLO, c.random + c.ephPub)
    else if k == 1 then Tagged(HS_SERVER_HELLO, s.random + s.ephPub)
    else if k == 2 then Tagged(HS_CERTIFICATE, p.pub(s.seed))
    else if k == 3 then Tagged(HS_CERTIFICATE_VERIFY, p.sign(s.seed, CertDigest(p, t)))
    else if k == 4 then Tagged(HS_FINISHED, Kdf(p, prk, "btls-fin-s", t))
    else Tagged(HS_FINISHED, Kdf(p, prk, "btls-fin-c", t))
  }

  function HsKey(p: Prims, c: Sess, s: Sess, info: string): Key32 {
    Kdf(p, SharedPrk(p, c.ephPriv, s.ephPub), info, T(p, c, s, 2))
  }

  function AppKey(p: Prims, c: Sess, s: Sess, info: string): Key32 {
    Kdf(p, SharedPrk(p, c.ephPriv, s.ephPub), info, T(p, c, s, 6))
  }

  /** The client after its n-th step: hello sent, SH, CERT, CV, Finished read, done. */
  function ClientAt(p: Prims, c: Sess, s: Sess, n: nat): Sess {
    if n == 0 then c
    else if n == 1 then c.(transcript := T(p, c, s, 1), state := HelloSent, want := HS_SERVER_HELLO)
    else if n < 6 then
      c.(peerEph := s.ephPub, certPub := if n == 2 then c.certPub else p.pub(s.seed), transcript := T(p, c, s, n),
         prk := SharedPrk(p, c.ephPriv, s.ephPub), epoch := 1, state := Handshake,
         sendKey := HsKey(p, c, s, "btls-hs-c2s"), recvKey := HsKey(p, c, s, "btls-hs-s2c"), recvSeq := n - 2,
         want := if n == 2 then HS_CERTIFICATE else if n == 3 then HS_CERTIFICATE_VERIFY else if n == 4 then HS_FINISHED else 0)
    else
      c.(peerEph := s.ephPub, certPub := p.pub(s.seed), transcript := T(p, c, s, 6),
         prk := SharedPrk(p, c.ephPriv, s.ephPub), epoch := 2, state := Done,
         sendKey := AppKey(p, c, s, "btls-app-c2s"), recvKey := AppKey(p, c, s, "btls-app-s2c"))
  }

  /** The server after its n-th step: CH read, SH, CERT, CV, Finished sent, done. */
  function ServerAt(p: Prims, c: Sess, s: Sess, n: nat): Sess {
    if n == 0 then s
    else if n == 1 then s.(peerEph := c.ephPub, transcript := T(p, c, s, 1), state := Handshake, want := HS_SERVER_HELLO)
    else if n < 6 then
      s.(peerEph := c.ephPub, transcript := T(p, c, s, n), prk := SharedPrk(p, c.ephPriv, s.ephPub), epoch := 1,
         state := if n == 5 then WaitFinished else Handshake,
         sendKey := HsKey(p, c, s, "btls-hs-s2c"), recvKey := HsKey(p, c, s, "btls-hs-c2s"), sendSeq := n - 2,
         want := if n == 2 then HS_CERTIFICATE else if n == 3 then HS_CERTIFICATE_VERIFY else HS_FINISHED)
    else
      s.(peerEph := c.ephPub, transcript := T(p, c, s, 6), prk := SharedPrk(p, c.ephPriv, s.ephPub), epoch := 2,
         state := Done, want := HS_FINISHED,
         sendKey := AppKey(p, c, s, "btls-app-s2c"), recvKey := AppKey(p, c, s, "btls-app-c2s"))
  }

  /** The server's record k (1 .. 4) and the client's two. */
  function FromServer(p: Prims, c: Sess, s: Sess, k: nat): Bytes {
    if k <= 1 then Tagged(RT_HANDSHAKE, F(p, c, s, 1))
    else Tagged(RT_APPLICATION, p.seal(HsKey(p, c, s, "btls-hs-s2c"), RecNonce(k - 2), [RT_HANDSHAKE] + F(p, c, s, k)))
  }

  function Hello(p: Prims, c: Sess, s: Sess): Bytes {
    Tagged(RT_HANDSHAKE, F(p, c, s, 0))
  }

  function LastRecord(p: Prims, c: Sess, s: Sess): Bytes {
    Tagged(RT_APPLICATION, p.seal(HsKey(p, c, s, "btls-hs-c2s"), RecNonce(0), [RT_HANDSHAKE] + F(p, c, s, 5)))
  }

  // ---- each side's steps follow the script ---------------------------------------------------

  lemma SamePrk(p: Prims, c: Sess, s: Sess)
    requires Fit(p, c, s)
    ensures SharedPrk(p, s.ephPriv, c.ephPub) == SharedPrk(p, c.ephPriv, s.ephPub)
  {
  }

  lemma ClientStarts(p: Prims, c: Sess, s: Sess)
    requires Fit(p, c, s)
    ensures ClientStart(p, c) == (ClientAt(p, c, s, 1), Some(Hello(p, c, s)))
  {
    assert T(p, c, s, 1) == T(p, c, s, 0) + F(p, c, s, 0);
  }

  lemma ServerReadsHello(p: Prims, c: Sess, s: Sess)
    requires Fit(p, c, s)
    ensures Feed(p, s, Hello(p, c, s)) == (ServerAt(p, c, s, 1), 0)
  {
    var body := c.random + c.ephPub;
    TaggedParts(HS_CLIENT_HELLO, body);
    var frame := F(p, c, s, 0);
    TaggedParts(RT_HANDSHAKE, frame);
    assert frame[35..67] == body[32..] == c.ephPub by {
      assert frame[3..] == body;
      assert frame[35..67] == frame[3..][32..];
    }
    assert T(p, c, s, 1) == T(p, c, s, 0) + frame;
  }

  lemma ServerPumpsHello(p: Prims, c: Sess, s: Sess)
    requires Fit(p, c, s)
    ensures Pump(p, ServerAt(p, c, s, 1)) == (ServerAt(p, c, s, 2), Some(FromServer(p, c, s, 1)))
  {
    SamePrk(p, c, s);
    assert T(p, c, s, 2) == T(p, c, s, 1) + F(p, c, s, 1);
  }

  lemma ServerPumps(p: Prims, c: Sess, s: Sess, n: nat)
    requires Fit(p, c, s) && 2 <= n < 5
    ensures Pump(p, ServerAt(p, c, s, n)) == (ServerAt(p, c, s, n + 1), Some(FromServer(p, c, s, n)))
  {
    if n == 2 {
      PumpsCertificate(p, c, s, n);
    } else if n == 3 {
      PumpsVerify(p, c, s, n);
    } else {
      PumpsFinished(p, c, s, n);
    }
  }

  lemma PumpsCertificate(p: Prims, c: Sess, s: Sess, n: nat)
    requires Fit(p, c, s) && n == 2
    ensures Pump(p, ServerAt(p, c, s, n)) == (ServerAt(p, c, s, n + 1), Some(FromServer(p, c, s, n)))
  {
    assert T(p, c, s, n + 1) == T(p, c, s, n) + F(p, c, s, n);
  }

  lemma PumpsVerify(p: Prims, c: Sess, s: Sess, n: nat)
    requires Fit(p, c, s) && n == 3
    ensures Pump(p, ServerAt(p, c, s, n)) == (ServerAt(p, c, s, n + 1), Some(FromServer(p, c, s, n)))
  {
    assert T(p, c, s, n + 1) == T(p, c, s, n) + F(p, c, s, n);
  }

  lemma PumpsFinished(p: Prims, c: Sess, s: Sess, n: nat)
    requires Fit(p, c, s) && n == 4
    ensures Pump(p, ServerAt(p, c, s, n)) == (ServerAt(p, c, s, n + 1), Some(FromServer(p, c, s, n)))
  {
    assert T(p, c, s, n + 1) == T(p, c, s, n) + F(p, c, s, n);
  }

  lemma ClientReadsHello(p: Prims, c: Sess, s: Sess)
    requires Fit(p, c, s)
    ensures Feed(p, ClientAt(p, c, s, 1), FromServer(p, c, s, 1)) == (ClientAt(p, c, s, 2), 0)
  {
    var body := s.random + s.ephPub;
    TaggedParts(HS_SERVER_HELLO, body);
    var frame := F(p, c, s, 1);
    TaggedParts(RT_HANDSHAKE, frame);
    assert frame[35..67] == body[32..] == s.ephPub by {
      assert frame[3..] == body;
      assert frame[35..67] == frame[3..][32..];
    }
    assert T(p, c, s, 2) == T(p, c, s, 1) + frame;
  }

  /** A sealed handshake record opens at a peer with the same key and number. */
  lemma SealedOpens(p: Prims, v: Sess, k: Key32, n: nat, frame: Bytes)
    requires Lawful(p) && v.recvKey == k && v.recvSeq == n && v.epoch > 0 && |frame| <= 67
    ensures Feed(p, v, Tagged(RT_APPLICATION, p.seal(k, RecNonce(n), [RT_HANDSHAKE] + frame)))
            == FeedFrame(p, v.(recvSeq := n + 1), frame)
  {
    var inner := [RT_HANDSHAKE] + frame;
    TaggedParts(RT_APPLICATION, p.seal(k, RecNonce(n), inner));
    assert inner[1..] == frame;
  }

  /** Feeding the record is taking the frame in it. */
  lemma ReadsSealed(p: Prims, v: Sess, k: Key32, n: nat, frame: Bytes, rec: Bytes, v2: Sess, code: int)
    requires Lawful(p) && v.recvKey == k && v.recvSeq == n && v.epoch > 0 && |frame| <= 67
    requires rec == Tagged(RT_APPLICATION, p.seal(k, RecNonce(n), [RT_HANDSHAKE] + frame))
    requires FeedFrame(p, v.(recvSeq := n + 1), frame) == (v2, code)
    ensures Feed(p, v, rec) == (v2, code)
  {
    SealedOpens(p, v, k, n, frame);
  }

  lemma ClientReads(p: Prims, c: Sess, s: Sess, n: nat)
    requires Fit(p, c, s) && 2 <= n < 5
    ensures Feed(p, ClientAt(p, c, s, n), FromServer(p, c, s, n)) == (ClientAt(p, c, s, n + 1), 0)
  {
    FrameParts(p, c, s, n);
    ClientTakes(p, c, s, n);
    ClientHolds(p, c, s, n);
    ReadsSealed(p, ClientAt(p, c, s, n), HsKey(p, c, s, "btls-hs-s2c"), n - 2, F(p, c, s, n), FromServer(p, c, s, n),
                ClientAt(p, c, s, n + 1), 0);
  }

  /** Key and number for the next sealed record of the server. */
  lemma ClientHolds(p: Prims, c: Sess, s: Sess, n: nat)
    requires Fit(p, c, s) && 2 <= n < 5
    ensures var v := ClientAt(p, c, s, n);
            v.recvKey == HsKey(p, c, s, "btls-hs-s2c") && v.recvSeq == n - 2 && v.epoch == 1
  {
  }

  lemma ClientTakes(p: Prims, c: Sess, s: Sess, n: nat)
    requires Fit(p, c, s) && 2 <= n < 5
    ensures FeedFrame(p, ClientAt(p, c, s, n).(recvSeq := n - 2 + 1), F(p, c, s, n)) == (ClientAt(p, c, s, n + 1), 0)
  {
    if n == 2 {
      TakesCertificate(p, c, s);
    } else if n == 3 {
      TakesVerify(p, c, s);
    } else {
      TakesFinished(p, c, s);
    }
  }

  lemma TakesCertificate(p: Prims, c: Sess, s: Sess)
    requires Fit(p, c, s)
    ensures FeedFrame(p, ClientAt(p, c, s, 2).(recvSeq := 1), F(p, c, s, 2)) == (ClientAt(p, c, s, 3), 0)
  {
    FrameParts(p, c, s, 2);
    assert T(p, c, s, 3) == T(p, c, s, 2) + F(p, c, s, 2);
  }

  lemma TakesVerify(p: Prims, c: Sess, s: Sess)
    requires Fit(p, c, s)
    ensures FeedFrame(p, ClientAt(p, c, s, 3).(recvSeq := 2), F(p, c, s, 3)) == (ClientAt(p, c, s, 4), 0)
  {
    FrameParts(p, c, s, 3);
    assert T(p, c, s, 4) == T(p, c, s, 3) + F(p, c, s, 3);
  }

  lemma TakesFinished(p: Prims, c: Sess, s: Sess)
    requires Fit(p, c, s)
    ensures FeedFrame(p, ClientAt(p, c, s, 4).(recvSeq := 3), F(p, c, s, 4)) == (ClientAt(p, c, s, 5), 0)
  {
    FrameParts(p, c, s, 4);
    assert T(p, c, s, 5) == T(p, c, s, 4) + F(p, c, s, 4);
  }

  lemma FrameParts(p: Prims, c: Sess, s: Sess, n: nat)
    requires 2 <= n <= 5
    ensures var f, t, prk := F(p, c, s, n), T(p, c, s, n), SharedPrk(p, c.ephPriv, s.ephPub);
            && |f| == (if n == 3 then 67 else 35) && BigEndian(f[1..3]) == |f| - 3
            && f[0] == (if n == 2 then HS_CERTIFICATE else if n == 3 then HS_CERTIFICATE_VERIFY else HS_FINISHED)
            && f[3..] == (if n == 2 then p.pub(s.seed) else if n == 3 then p.sign(s.seed, CertDigest(p, t))
                          else Kdf(p, prk, if n == 4 then "btls-fin-s" else "btls-fin-c", t))
  {
    var t, prk := T(p, c, s, n), SharedPrk(p, c.ephPriv, s.ephPub);
    TaggedParts(HS_CERTIFICATE, p.pub(s.seed));
    TaggedParts(HS_CERTIFICATE_VERIFY, p.sign(s.seed, CertDigest(p, t)));
    TaggedParts(HS_FINISHED, Kdf(p, prk, "btls-fin-s", t));
    TaggedParts(HS_FINISHED, Kdf(p, prk, "btls-fin-c", t));
  }

  lemma ClientPumps(p: Prims, c: Sess, s: Sess)
    requires Fit(p, c, s)
    ensures Pump(p, ClientAt(p, c, s, 5)) == (ClientAt(p, c, s, 6), Some(LastRecord(p, c, s)))
  {
    assert T(p, c, s, 6) == T(p, c, s, 5) + F(p, c, s, 5);
  }

  lemma TakesClientFinished(p: Prims, v: Sess, frame: Bytes)
    requires v.role == Server && v.state == WaitFinished
    requires |frame| == 35 && frame[0] == HS_FINISHED && BigEndian(frame[1..3]) == 32
    requires frame[3..] == Kdf(p, v.prk, "btls-fin-c", v.transcript)
    ensures FeedFrame(p, v, frame) == (AppKeys(p, v.(transcript := v.transcript + frame)), 1)
  {
  }

  lemma ServerKeys(p: Prims, c: Sess, s: Sess, n: nat)
    requires Fit(p, c, s) && n == 5
    ensures AppKeys(p, ServerAt(p, c, s, n).(recvSeq := 1, transcript := T(p, c, s, n) + F(p, c, s, n))) == ServerAt(p, c, s, n + 1)
  {
    assert T(p, c, s, n + 1) == T(p, c, s, n) + F(p, c, s, n);
  }

  lemma ServerTakesLast(p: Prims, c: Sess, s: Sess, n: nat)
    requires Fit(p, c, s) && n == 5
    ensures FeedFrame(p, ServerAt(p, c, s, n).(recvSeq := 1), F(p, c, s, n)) == (ServerAt(p, c, s, n + 1), 1)
  {
    FrameParts(p, c, s, n);
    TakesClientFinished(p, ServerAt(p, c, s, n).(recvSeq := 1), F(p, c, s, n));
    ServerKeys(p, c, s, n);
  }

  lemma ServerHolds(p: Prims, c: Sess, s: Sess, n: nat)
    requires Fit(p, c, s) && n == 5
    ensures var v := ServerAt(p, c, s, n);
            v.recvKey == HsKey(p, c, s, "btls-hs-c2s") && v.recvSeq == 0 && v.epoch == 1
  {
  }

  lemma ServerReads(p: Prims, c: Sess, s: Sess, n: nat)
    requires Fit(p, c, s) && n == 5
    ensures Feed(p, ServerAt(p, c, s, n), LastRecord(p, c, s)) == (ServerAt(p, c, s, n + 1), 1)
  {
    FrameParts(p, c, s, n);
    ServerTakesLast(p, c, s, n);
    ServerHolds(p, c, s, n);
    ReadsSealed(p, ServerAt(p, c, s, n), HsKey(p, c, s, "btls-hs-c2s"), 0, F(p, c, s, n), LastRecord(p, c, s),
                ServerAt(p, c, s, n + 1), 1);
  }

  lemma ServerReadsLast(p: Prims, c: Sess, s: Sess)
    requires Fit(p, c, s)
    ensures Feed(p, ServerAt(p, c, s, 5), LastRecord(p, c, s)) == (ServerAt(p, c, s, 6), 1)
  {
    ServerReads(p, c, s, 5);
  }

  // ---- a script, step by step ---------------------------------------------------------------

  /** The states of the two sides and the records between them. */
  datatype Script = Script(client: nat -> Sess, server: nat -> Sess, record: nat -> Bytes, hello: Bytes, last: Bytes)

  function ScriptOf(p: Prims, c: Sess, s: Sess): Script {
    Script((n: nat) => ClientAt(p, c, s, n), (n: nat) => ServerAt(p, c, s, n), (n: nat) => FromServer(p, c, s, n),
           Hello(p, c, s), LastRecord(p, c, s))
  }

  ghost predicate ClientFollows(x: Sides, k: Script) {
    && x.start(k.client(0)) == (k.client(1), Some(k.hello))
    && (forall i: nat :: 1 <= i <= 6 ==> x.start(k.client(i)) == (k.client(i), None))
    && (forall i: nat :: 1 <= i < 5 ==> x.feed(k.client(i), k.record(i)) == (k.client(i + 1), 0))
    && x.pump(k.client(5)) == (k.client(6), Some(k.last))
    && (forall i: nat :: i <= 6 && i != 5 ==> x.pump(k.client(i)) == (k.client(i), None))
  }

  ghost predicate ServerFollows(x: Sides, k: Script) {
    && x.feed(k.server(0), k.hello) == (k.server(1), 0)
    && x.feed(k.server(5), k.last) == (k.server(6), 1)
    && (forall j: nat :: 1 <= j < 5 ==> x.pump(k.server(j)) == (k.server(j + 1), Some(k.record(j))))
    && (forall j: nat :: j == 0 || 5 <= j <= 6 ==> x.pump(k.server(j)) == (k.server(j), None))
  }

  ghost predicate Shaped(k: Script) {
    && k.hello != [] && k.hello[0] == RT_HANDSHAKE && k.last != [] && k.last[0] == RT_APPLICATION
    && (forall i: nat :: k.record(i) != [] && (k.record(i)[0] == RT_APPLICATION <==> i >= 2))
    && (forall j: nat :: 2 <= j <= 5 ==> k.server(j).epoch == 1 && k.server(j).role == Server && k.server(j).sendSeq == j - 2)
    && k.client(5).epoch == 1 && k.client(5).role == Client && k.client(5).sendSeq == 0
  }

  ghost predicate Follows(x: Sides, k: Script) {
    ClientFollows(x, k) && ServerFollows(x, k) && Shaped(k)
  }

  lemma ClientIdles(p: Prims, c: Sess, s: Sess, i: nat)
    requires Fit(p, c, s) && i <= 6
    ensures i >= 1 ==> ClientStart(p, ClientAt(p, c, s, i)) == (ClientAt(p, c, s, i), None)
    ensures i != 5 ==> Pump(p, ClientAt(p, c, s, i)) == (ClientAt(p, c, s, i), None)
  {
  }

  lemma ServerIdles(p: Prims, c: Sess, s: Sess, j: nat)
    requires Fit(p, c, s) && (j == 0 || 5 <= j <= 6)
    ensures Pump(p, ServerAt(p, c, s, j)) == (ServerAt(p, c, s, j), None)
  {
  }

  lemma ClientScript(p: Prims, c: Sess, s: Sess)
    requires Fit(p, c, s)
    ensures ClientFollows(Code(p), ScriptOf(p, c, s))
  {
    var x, k := Code(p), ScriptOf(p, c, s);
    ClientStarts(p, c, s);
    ClientPumps(p, c, s);
    forall i: nat | i <= 6
      ensures i >= 1 ==> x.start(k.client(i)) == (k.client(i), None)
      ensures i != 5 ==> x.pump(k.client(i)) == (k.client(i), None)
    {
      ClientIdles(p, c, s, i);
    }
    forall i: nat | 1 <= i < 5
      ensures x.feed(k.client(i), k.record(i)) == (k.client(i + 1), 0)
    {
      if i == 1 {
        ClientReadsHello(p, c, s);
      } else {
        ClientReads(p, c, s, i);
      }
    }
  }

  lemma ServerScript(p: Prims, c: Sess, s: Sess)
    requires Fit(p, c, s)
    ensures ServerFollows(Code(p), ScriptOf(p, c, s))
  {
    var x, k := Code(p), ScriptOf(p, c, s);
    ServerReadsHello(p, c, s);
    ServerReadsLast(p, c, s);
    forall j: nat | 1 <= j < 5
      ensures x.pump(k.server(j)) == (k.server(j + 1), Some(k.record(j)))
    {
      if j == 1 {
        ServerPumpsHello(p, c, s);
      } else {
        ServerPumps(p, c, s, j);
      }
    }
    forall j: nat | j == 0 || 5 <= j <= 6
      ensures x.pump(k.server(j)) == (k.server(j), None)
    {
      ServerIdles(p, c, s, j);
    }
  }

  lemma CodeFollows(p: Prims, c: Sess, s: Sess)
    requires Fit(p, c, s)
    ensures Follows(Code(p), ScriptOf(p, c, s))
  {
    ClientScript(p, c, s);
    ServerScript(p, c, s);
    ScriptShape(p, c, s);
  }

  lemma ScriptShape(p: Prims, c: Sess, s: Sess)
    requires Fit(p, c, s)
    ensures Shaped(ScriptOf(p, c, s))
  {
  }

  // ---- the joint state -------------------------------------------------------------------

  ghost predicate Reach(i: nat, j: nat) {
    (i == 0 && j == 0) || (i == 1 && j <= 5) || (2 <= i <= 5 && i <= j <= 5) || (i == 6 && 5 <= j <= 6)
  }

  function Min(x: nat, y: nat): nat { if x < y then x else y }

  /** Server records sent and not yet read. */
  function InFlight(k: Script, i: nat, j: nat): seq<Bytes> {
    if 1 <= i < Min(j, 5) then seq(Min(j, 5) - i, x requires 0 <= x => k.record(i + x)) else []
  }

  function ClientFlight(k: Script, i: nat, j: nat): seq<Bytes> {
    if i == 1 && j == 0 then [k.hello] else if i == 6 && j == 5 then [k.last] else []
  }

  /** The server sealed its records from the third frame on, the client its Finished. */
  function SealsAt(i: nat, j: nat): seq<Sealing> {
    (if j >= 2 then seq(Min(j, 5) - 2, x requires 0 <= x => Sealing(1, false, x)) else [])
    + (if i == 6 then [Sealing(1, true, 0)] else [])
  }

  ghost predicate At(k: Script, w: World, i: nat, j: nat) {
    && Reach(i, j) && w.c == k.client(i) && w.s == k.server(j)
    && w.c2s == ClientFlight(k, i, j) && w.s2c == InFlight(k, i, j)
    && !w.failed && w.seals == SealsAt(i, j)
  }

  lemma StartStep(x: Sides, k: Script, w: World, i: nat, j: nat) returns (i2: nat)
    requires Follows(x, k) && At(k, w, i, j)
    ensures At(k, Act(x, w, Start), i2, j) && i2 == if i == 0 then 1 else i
  {
    i2 := if i == 0 then 1 else i;
    assert w.c2s + [] == w.c2s;
  }

  lemma FeedClientStep(x: Sides, k: Script, w: World, i: nat, j: nat)
    requires Follows(x, k) && At(k, w, i, j) && w.s2c != []
    ensures 1 <= i < j && i < 5 && At(k, Act(x, w, FeedClient), i + 1, j)
  {
    FlightFront(k, i, j);
  }

  /** The record in front, and what is behind it. */
  lemma FlightFront(k: Script, i: nat, j: nat)
    requires InFlight(k, i, j) != []
    ensures InFlight(k, i, j)[0] == k.record(i) && InFlight(k, i, j)[1..] == InFlight(k, i + 1, j)
  {
  }

  lemma FeedServerStep(x: Sides, k: Script, w: World, i: nat, j: nat)
    requires Follows(x, k) && At(k, w, i, j) && w.c2s != []
    ensures (j == 0 || j == 5) && At(k, Act(x, w, FeedServer), i, j + 1)
  {
  }

  lemma PumpClientStep(x: Sides, k: Script, w: World, i: nat, j: nat) returns (i2: nat)
    requires Follows(x, k) && At(k, w, i, j)
    ensures At(k, Act(x, w, PumpClient), i2, j) && i2 == if i == 5 then 6 else i
  {
    i2 := if i == 5 then 6 else i;
    assert w.c2s + [] == w.c2s && w.seals + [] == w.seals;
    if i == 5 {
      assert w.seals + Sealed(w.c, Some(k.last)) == SealsAt(6, j);
    }
  }

  lemma PumpServerStep(x: Sides, k: Script, w: World, i: nat, j: nat) returns (j2: nat)
    requires Follows(x, k) && At(k, w, i, j)
    ensures At(k, Act(x, w, PumpServer), i, j2) && j2 == if 1 <= j < 5 then j + 1 else j
  {
    if 1 <= j < 5 {
      j2 := j + 1;
      ServerEmits(x, k, w, i, j);
    } else {
      j2 := j;
      assert w.s2c + [] == w.s2c && w.seals + [] == w.seals;
    }
  }

  lemma ServerEmits(x: Sides, k: Script, w: World, i: nat, j: nat)
    requires Follows(x, k) && At(k, w, i, j) && 1 <= j < 5
    ensures At(k, Act(x, w, PumpServer), i, j + 1)
  {
    FlightGrows(k, i, j);
    ServerSeals(k, i, j);
  }

  lemma FlightGrows(k: Script, i: nat, j: nat)
    requires Reach(i, j) && 1 <= j < 5
    ensures InFlight(k, i, j) + [k.record(j)] == InFlight(k, i, j + 1)
  {
  }

  lemma ServerSeals(k: Script, i: nat, j: nat)
    requires Shaped(k) && 1 <= j < 5 && i < 6
    ensures SealsAt(i, j) + Sealed(k.server(j), Some(k.record(j))) == SealsAt(i, j + 1)
  {
  }

  lemma AnyStep(x: Sides, k: Script, w: World, i: nat, j: nat, a: Action) returns (i2: nat, j2: nat)
    requires Follows(x, k) && At(k, w, i, j) && CanAct(w, a)
    ensures At(k, Act(x, w, a), i2, j2)
    ensures a == Helpful(i, j) && i + j < 12 ==> i2 + j2 == i + j + 1
  {
    i2, j2 := i, j;
    match a
    case Start => i2 := StartStep(x, k, w, i, j);
    case FeedClient => FeedClientStep(x, k, w, i, j); i2 := i + 1;
    case FeedServer => FeedServerStep(x, k, w, i, j); j2 := j + 1;
    case PumpClient => i2 := PumpClientStep(x, k, w, i, j);
    case PumpServer => j2 := PumpServerStep(x, k, w, i, j);
  }

  lemma {:induction false} Scripted(x: Sides, k: Script, w: World, acts: seq<Action>) returns (i: nat, j: nat)
    requires Follows(x, k) && At(k, w, 0, 0) && Runs(x, w, acts)
    ensures At(k, After(x, w, acts), i, j)
  {
    if acts == [] {
      i, j := 0, 0;
    } else {
      var n := |acts| - 1;
      i, j := Scripted(x, k, w, acts[..n]);
      i, j := AnyStep(x, k, After(x, w, acts[..n]), i, j, acts[n]);
    }
  }

  /** An action that moves the handshake on. */
  function Helpful(i: nat, j: nat): Action {
    if i == 0 then Start else if j == 0 || (i == 6 && j == 5) then FeedServer
    else if j < 5 then PumpServer else if i < 5 then FeedClient else PumpClient
  }

  lemma {:induction false} Completes(x: Sides, k: Script, w: World, acts: seq<Action>, i: nat, j: nat) returns (all: seq<Action>)
    requires Follows(x, k) && Runs(x, w, acts) && At(k, After(x, w, acts), i, j)
    ensures acts <= all && Runs(x, w, all) && At(k, After(x, w, all), 6, 6)
    decreases 12 - i - j
  {
    if i == 6 && j == 6 {
      all := acts;
    } else {
      var i2, j2 := CompleteStep(x, k, w, acts, i, j);
      all := Completes(x, k, w, acts + [Helpful(i, j)], i2, j2);
    }
  }

  lemma CompleteStep(x: Sides, k: Script, w: World, acts: seq<Action>, i: nat, j: nat) returns (i2: nat, j2: nat)
    requires Follows(x, k) && Runs(x, w, acts) && At(k, After(x, w, acts), i, j) && !(i == 6 && j == 6)
    ensures Runs(x, w, acts + [Helpful(i, j)]) && At(k, After(x, w, acts + [Helpful(i, j)]), i2, j2)
    ensures i + j < i2 + j2 <= 12
  {
    HelpfulCan(k, After(x, w, acts), i, j);
    i2, j2 := AnyStep(x, k, After(x, w, acts), i, j, Helpful(i, j));
    OneMore(x, w, acts, Helpful(i, j));
  }

  lemma OneMore(x: Sides, w: World, acts: seq<Action>, a: Action)
    requires Runs(x, w, acts) && CanAct(After(x, w, acts), a)
    ensures Runs(x, w, acts + [a]) && After(x, w, acts + [a]) == Act(x, After(x, w, acts), a)
  {
    var next := acts + [a];
    assert next[..|next| - 1] == acts;
  }

  lemma HelpfulCan(k: Script, w: World, i: nat, j: nat)
    requires At(k, w, i, j) && i + j < 12
    ensures CanAct(w, Helpful(i, j))
  {
  }

  // ---- what follows for every interleaving ---------------------------------------------------

  /** Sealed records among those on the wire. */
  function SealedIn(q: seq<Bytes>): nat {
    if q == [] then 0 else SealedIn(q[..|q| - 1]) + (if q[|q| - 1] != [] && q[|q| - 1][0] == RT_APPLICATION then 1 else 0)
  }

  lemma {:induction false} TPrefix(p: Prims, c: Sess, s: Sess, a: nat, b: nat)
    requires a <= b
    ensures T(p, c, s, a) <= T(p, c, s, b)
    decreases b
  {
    if a < b {
      TPrefix(p, c, s, a, b - 1);
    }
  }

  lemma {:induction false} SealedInFlight(k: Script, q: seq<Bytes>, i: nat)
    requires Shaped(k) && 1 <= i && forall x :: 0 <= x < |q| ==> q[x] == k.record(i + x)
    ensures SealedIn(q) == if i == 1 && q != [] then |q| - 1 else |q|
    decreases |q|
  {
    if q != [] {
      SealedInFlight(k, q[..|q| - 1], i);
      assert q[|q| - 1] == k.record(i + (|q| - 1));
    }
  }

  /** Transcripts never diverge. */
  ghost predicate SameStory(w: World) {
    w.c.transcript <= w.s.transcript || w.s.transcript <= w.c.transcript
  }

  /** Each counter is ahead of the peer's by the sealed records in flight. */
  ghost predicate Counted(w: World) {
    && (w.c.epoch == w.s.epoch ==> w.s.sendSeq == w.c.recvSeq + SealedIn(w.s2c) && w.c.sendSeq == w.s.recvSeq + SealedIn(w.c2s))
    && (w.c.epoch == 0 && w.s.epoch == 1 ==> w.s.sendSeq == SealedIn(w.s2c) && SealedIn(w.c2s) == 0)
    && (w.c.epoch == 2 && w.s.epoch == 1 ==> w.s2c == [] && SealedIn(w.c2s) == 1)
    && w.s.epoch <= 2 && w.c.epoch <= 2 && (w.s.epoch == 2 ==> w.c.epoch == 2) && (w.s.epoch == 0 ==> w.c.epoch == 0)
  }

  /** In one epoch the sides hold mirrored keys, and two done sides hold nothing back. */
  ghost predicate Mirrored(w: World) {
    && (w.c.epoch == w.s.epoch > 0 ==> w.c.sendKey == w.s.recvKey && w.c.recvKey == w.s.sendKey)
    && (w.c.state == Done && w.s.state == Done
        ==> w.c.epoch == w.s.epoch == 2 && w.c.transcript == w.s.transcript && w.c2s == w.s2c == [])
  }

  ghost predicate NoSealTwice(w: World) {
    forall x, y :: 0 <= x < y < |w.seals| ==> w.seals[x] != w.seals[y]
  }

  lemma ClientStory(p: Prims, c: Sess, s: Sess, i: nat)
    requires Fit(p, c, s) && i <= 6
    ensures ClientAt(p, c, s, i).transcript == T(p, c, s, i)
  {
  }

  lemma ServerStory(p: Prims, c: Sess, s: Sess, j: nat)
    requires Fit(p, c, s) && j <= 6
    ensures ServerAt(p, c, s, j).transcript == T(p, c, s, j)
  {
  }

  lemma ScriptStory(p: Prims, c: Sess, s: Sess, w: World, i: nat, j: nat)
    requires Fit(p, c, s) && At(ScriptOf(p, c, s), w, i, j)
    ensures SameStory(w)
  {
    ClientStory(p, c, s, i);
    ServerStory(p, c, s, j);
    if i <= j {
      TPrefix(p, c, s, i, j);
    } else {
      TPrefix(p, c, s, j, i);
    }
  }

  lemma ClientNumbers(p: Prims, c: Sess, s: Sess, i: nat)
    requires Fit(p, c, s) && i <= 6
    ensures var v := ClientAt(p, c, s, i);
            && v.epoch == (if i < 2 then 0 else if i < 6 then 1 else 2) && v.sendSeq == 0
            && v.recvSeq == if 2 <= i < 6 then i - 2 else 0
  {
  }

  lemma ServerNumbers(p: Prims, c: Sess, s: Sess, j: nat)
    requires Fit(p, c, s) && j <= 6
    ensures var v := ServerAt(p, c, s, j);
            && v.epoch == (if j < 2 then 0 else if j < 6 then 1 else 2) && v.recvSeq == 0
            && v.sendSeq == if 2 <= j < 6 then j - 2 else 0
  {
  }

  lemma FlightSealed(k: Script, i: nat, j: nat)
    requires Shaped(k) && Reach(i, j)
    ensures SealedIn(ClientFlight(k, i, j)) == if i == 6 && j == 5 then 1 else 0
    ensures SealedIn(InFlight(k, i, j)) == if 1 <= i < Min(j, 5) then (if i == 1 then Min(j, 5) - 2 else Min(j, 5) - i) else 0
  {
    if i >= 1 {
      SealedInFlight(k, InFlight(k, i, j), i);
    }
    OneSealed(k.hello);
    OneSealed(k.last);
  }

  lemma ScriptCounts(p: Prims, c: Sess, s: Sess, w: World, i: nat, j: nat)
    requires Fit(p, c, s) && At(ScriptOf(p, c, s), w, i, j)
    ensures Counted(w)
  {
    ScriptShape(p, c, s);
    FlightSealed(ScriptOf(p, c, s), i, j);
    ClientNumbers(p, c, s, i);
    ServerNumbers(p, c, s, j);
    assert w.c == ClientAt(p, c, s, i) && w.s == ServerAt(p, c, s, j);
  }

  lemma OneSealed(r: Bytes)
    ensures SealedIn([r]) == if r != [] && r[0] == RT_APPLICATION then 1 else 0
  {
    assert [r][..0] == [];
  }

  lemma ClientKeyed(p: Prims, c: Sess, s: Sess, i: nat)
    requires Fit(p, c, s) && i <= 6
    ensures var v := ClientAt(p, c, s, i);
            && (v.epoch == 1 ==> v.sendKey == HsKey(p, c, s, "btls-hs-c2s") && v.recvKey == HsKey(p, c, s, "btls-hs-s2c"))
            && (v.epoch == 2 ==> v.sendKey == AppKey(p, c, s, "btls-app-c2s") && v.recvKey == AppKey(p, c, s, "btls-app-s2c"))
            && (v.state == Done <==> i == 6) && (i == 6 ==> v.transcript == T(p, c, s, 6))
  {
  }

  lemma ServerKeyed(p: Prims, c: Sess, s: Sess, j: nat)
    requires Fit(p, c, s) && j <= 6
    ensures var v := ServerAt(p, c, s, j);
            && (v.epoch == 1 ==> v.sendKey == HsKey(p, c, s, "btls-hs-s2c") && v.recvKey == HsKey(p, c, s, "btls-hs-c2s"))
            && (v.epoch == 2 ==> v.sendKey == AppKey(p, c, s, "btls-app-s2c") && v.recvKey == AppKey(p, c, s, "btls-app-c2s"))
            && (v.state == Done <==> j == 6) && (j == 6 ==> v.transcript == T(p, c, s, 6))
  {
  }

  lemma ScriptMirrors(p: Prims, c: Sess, s: Sess, w: World, i: nat, j: nat)
    requires Fit(p, c, s) && At(ScriptOf(p, c, s), w, i, j)
    ensures Mirrored(w)
  {
    ClientNumbers(p, c, s, i);
    ServerNumbers(p, c, s, j);
    ClientKeyed(p, c, s, i);
    ServerKeyed(p, c, s, j);
    MirroredAt(p, c, s, w, i, j, ClientAt(p, c, s, i), ServerAt(p, c, s, j));
  }

  lemma MirroredAt(p: Prims, c: Sess, s: Sess, w: World, i: nat, j: nat, v: Sess, u: Sess)
    requires w.c == v && w.s == u && i <= 6 && j <= 6 && v.epoch <= 2 && u.epoch <= 2
    requires v.epoch == 1 ==> v.sendKey == HsKey(p, c, s, "btls-hs-c2s") && v.recvKey == HsKey(p, c, s, "btls-hs-s2c")
    requires v.epoch == 2 ==> v.sendKey == AppKey(p, c, s, "btls-app-c2s") && v.recvKey == AppKey(p, c, s, "btls-app-s2c")
    requires u.epoch == 1 ==> u.sendKey == HsKey(p, c, s, "btls-hs-s2c") && u.recvKey == HsKey(p, c, s, "btls-hs-c2s")
    requires u.epoch == 2 ==> u.sendKey == AppKey(p, c, s, "btls-app-s2c") && u.recvKey == AppKey(p, c, s, "btls-app-c2s")
    requires (v.state == Done <==> i == 6) && (u.state == Done <==> j == 6)
    requires i == j == 6 ==> v.epoch == u.epoch == 2 && v.transcript == u.transcript && w.c2s == w.s2c == []
    ensures Mirrored(w)
  {
  }

  lemma ScriptSeals(k: Script, w: World, i: nat, j: nat)
    requires At(k, w, i, j)
    ensures NoSealTwice(w)
  {
  }

  /** The promises that hold at every point of the script. */
  ghost predicate InStep(e: World) {
    !e.failed && SameStory(e) && Counted(e) && Mirrored(e) && NoSealTwice(e)
  }

  lemma ScriptInStep(p: Prims, c: Sess, s: Sess, e: World, i: nat, j: nat)
    requires Fit(p, c, s) && At(ScriptOf(p, c, s), e, i, j)
    ensures InStep(e)
  {
    ScriptStory(p, c, s, e, i, j);
    ScriptCounts(p, c, s, e, i, j);
    ScriptMirrors(p, c, s, e, i, j);
    ScriptSeals(ScriptOf(p, c, s), e, i, j);
  }

  lemma ScriptBegins(p: Prims, w: World)
    requires Fit(p, w.c, w.s) && w == World(w.c, w.s, [], [], false, [])
    ensures Follows(Code(p), ScriptOf(p, w.c, w.s)) && At(ScriptOf(p, w.c, w.s), w, 0, 0)
  {
    CodeFollows(p, w.c, w.s);
    FirstPoint(p, w, 0);
  }

  lemma FirstPoint(p: Prims, w: World, n: nat)
    requires w == World(w.c, w.s, [], [], false, []) && n == 0
    ensures At(ScriptOf(p, w.c, w.s), w, n, n)
  {
  }

  lemma ScriptEnds(p: Prims, c: Sess, s: Sess, e: World)
    requires Fit(p, c, s) && At(ScriptOf(p, c, s), e, 6, 6)
    ensures e.c.state == Done && e.s.state == Done
  {
  }

  /** In every interleaving no feed fails and the two sides stay in lockstep. */
  lemma Lockstep(p: Prims, w: World, acts: seq<Action>)
    requires Fit(p, w.c, w.s) && w == World(w.c, w.s, [], [], false, []) && Runs(Code(p), w, acts)
    ensures var e := After(Code(p), w, acts);
            !e.failed && SameStory(e) && Counted(e) && Mirrored(e) && NoSealTwice(e)
  {
    ScriptBegins(p, w);
    var i, j := Scripted(Code(p), ScriptOf(p, w.c, w.s), w, acts);
    ScriptInStep(p, w.c, w.s, After(Code(p), w, acts), i, j);
  }

  /** From wherever a run has got to, both sides can still reach done. */
  lemma CanFinish(p: Prims, w: World, acts: seq<Action>) returns (all: seq<Action>)
    requires Fit(p, w.c, w.s) && w == World(w.c, w.s, [], [], false, []) && Runs(Code(p), w, acts)
    ensures acts <= all && Runs(Code(p), w, all)
    ensures After(Code(p), w, all).c.state == Done && After(Code(p), w, all).s.state == Done
  {
    ScriptBegins(p, w);
    var i, j := Scripted(Code(p), ScriptOf(p, w.c, w.s), w, acts);
    all := Completes(Code(p), ScriptOf(p, w.c, w.s), w, acts, i, j);
    ScriptEnds(p, w.c, w.s, After(Code(p), w, all));
  }
}
