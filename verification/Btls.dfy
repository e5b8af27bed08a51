/** One bTLS session: handshake states, key epochs and records. */
module Btls {
  import opened Limbs
  import opened Machine
  import opened Octets
  import opened Wrappers
  import opened BaitName

  type Key32 = s: Bytes | |s| == 32 witness Zeros(32)
  type Digest = s: Bytes | |s| == 64 witness Zeros(64)

  /** The primitives; nothing but their lengths is known here. */
  datatype Prims = Prims(dhBase: Key32 -> Key32, dh: (Key32, Key32) -> Key32,
                         hmac: (Bytes, Bytes) -> Digest, sha: Bytes -> Digest,
                         pub: Key32 -> Key32, sign: (Key32, Bytes) -> Digest, verify: (Key32, Bytes, Bytes) -> bool,
                         seal: (Key32, Bytes, Bytes) -> Bytes, open: (Key32, Bytes, Bytes) -> Option<Bytes>)

  const RT_HANDSHAKE: byte := 0
  const RT_APPLICATION: byte := 1
  const HS_CLIENT_HELLO: byte := 1
  const HS_SERVER_HELLO: byte := 2
  const HS_CERTIFICATE: byte := 11
  const HS_CERTIFICATE_VERIFY: byte := 15
  const HS_FINISHED: byte := 20
  const MAX_REC: nat := 1400
  const MAX_PAYLOAD: nat := 1290
  const MAX_MSG: nat := 262144

  datatype Role = Client | Server
  datatype Stage = Init | HelloSent | Handshake | WaitFinished | Done

  /** The fields of a session. The first six never change. */
  datatype Sess = Sess(role: Role, seed: Key32, random: Key32, ephPriv: Key32, ephPub: Key32, dialled: string,
                       state: Stage, epoch: nat, want: byte, peerEph: Key32, certPub: Key32, transcript: Bytes, prk: Bytes,
                       sendKey: Key32, recvKey: Key32, sendSeq: nat, recvSeq: nat, rx: Bytes)

  function Fresh(p: Prims, role: Role, seed: Key32, dialled: string, random: Key32, ephPriv: Key32): Sess {
    Sess(role, seed, random, ephPriv, p.dhBase(ephPriv), dialled, Init, 0, 0, Zeros(32), Zeros(32), [], [],
         Zeros(32), Zeros(32), 0, 0, [])
  }

  function Text(s: string): Bytes {
    seq(|s|, i requires 0 <= i < |s| => s[i] as int % 256)
  }

  // ---- transcript and keys ---------------------------------------------------------------

  function Kdf(p: Prims, prk: Bytes, info: string, extra: Bytes): Key32 {
    p.hmac(prk, Text(info) + extra + [1])[..32]
  }

  function CertDigest(p: Prims, transcript: Bytes): Digest {
    p.sha(Text("btls/1.0-cert-verify") + transcript)
  }

  function SharedPrk(p: Prims, priv: Key32, peer: Key32): Bytes {
    p.hmac(Text("btls-v1"), p.dh(priv, peer))
  }

  function LabelFromPub(p: Prims, pub: Key32): string {
    LabelOf(p.sha(pub))
  }

  /** _install_epoch: the client sends with the first key, the server with the second. */
  function InstallEpoch(p: Prims, v: Sess, c2s: string, s2c: string): Sess {
    var kc, ks := Kdf(p, v.prk, c2s, v.transcript), Kdf(p, v.prk, s2c, v.transcript);
    if v.role == Client then v.(sendKey := kc, recvKey := ks, sendSeq := 0, recvSeq := 0)
    else v.(sendKey := ks, recvKey := kc, sendSeq := 0, recvSeq := 0)
  }

  function HandshakeKeys(p: Prims, v: Sess): Sess {
    InstallEpoch(p, v.(prk := SharedPrk(p, v.ephPriv, v.peerEph)), "btls-hs-c2s", "btls-hs-s2c").(epoch := 1)
  }

  function AppKeys(p: Prims, v: Sess): Sess {
    InstallEpoch(p, v, "btls-app-c2s", "btls-app-s2c").(epoch := 2, state := Done)
  }

  // ---- records ---------------------------------------------------------------------------

  /** A record or a handshake frame: a type, a 16-bit length, a body. */
  function Tagged(t: byte, body: Bytes): Bytes {
    [t] + ToBigEndian(|body|, 2) + body
  }

  function RecNonce(n: nat): Bytes {
    ToBigEndian(n, 8) + Zeros(16)
  }

  function Seal(p: Prims, v: Sess, inner: Bytes): (Sess, Bytes) {
    (v.(sendSeq := v.sendSeq + 1), Tagged(RT_APPLICATION, p.seal(v.sendKey, RecNonce(v.sendSeq), inner)))
  }

  /** A box that does not open leaves the counter alone. */
  function Open(p: Prims, v: Sess, rec: Bytes): Option<(Sess, Bytes)> {
    if |rec| < 3 || rec[0] != RT_APPLICATION then None
    else
      var blen := BigEndian(rec[1..3]);
      if blen < 33 || blen > 34 + MAX_PAYLOAD || |rec| != 3 + blen then None
      else
        match p.open(v.recvKey, RecNonce(v.recvSeq), rec[3..])
        case None => None
        case Some(inner) => Some((v.(recvSeq := v.recvSeq + 1), inner))
  }

  // ---- handshake -------------------------------------------------------------------------

  /** client_start; None is the exception. */
  function ClientStart(p: Prims, v: Sess): (Sess, Option<Bytes>) {
    if v.role != Client || v.state != Init then (v, None)
    else
      var frame := Tagged(HS_CLIENT_HELLO, v.random + v.ephPub);
      (v.(transcript := v.transcript + frame, state := HelloSent, want := HS_SERVER_HELLO), Some(Tagged(RT_HANDSHAKE, frame)))
  }

  /** feed: 1 done, 0 progress, -1 failure. */
  function Feed(p: Prims, v: Sess, rec: Bytes): (Sess, int) {
    if |rec| < 3 then (v, -1)
    else
      var blen := BigEndian(rec[1..3]);
      if blen > MAX_REC - 3 || |rec| != 3 + blen then (v, -1)
      else if v.epoch == 0 then FeedPlain(p, v, rec)
      else
        match Open(p, v, rec)
        case None => (v, -1)
        case Some((v1, inner)) =>
          if inner == [] || inner[0] != RT_HANDSHAKE then (v1, -1) else FeedFrame(p, v1, inner[1..])
  }

  /** The two hellos travel in the clear. */
  function FeedPlain(p: Prims, v: Sess, rec: Bytes): (Sess, int)
    requires |rec| >= 3
  {
    var body := rec[3..];
    if rec[0] != RT_HANDSHAKE || |body| < 3 || BigEndian(body[1..3]) != |body| - 3 then (v, -1)
    else if v.role == Server && v.state == Init then
      if body[0] != HS_CLIENT_HELLO || |body| != 67 then (v, -1)
      else (v.(peerEph := body[35..67], transcript := v.transcript + body, state := Handshake, want := HS_SERVER_HELLO), 0)
    else if v.role == Client && v.state == HelloSent && v.want == HS_SERVER_HELLO then
      if body[0] != HS_SERVER_HELLO || |body| != 67 then (v, -1)
      else
        var v1 := HandshakeKeys(p, v.(peerEph := body[35..67], transcript := v.transcript + body));
        (v1.(state := Handshake, want := HS_CERTIFICATE), 0)
    else (v, -1)
  }

  /** _feed_hs: one encrypted handshake frame. */
  function FeedFrame(p: Prims, v: Sess, frame: Bytes): (Sess, int) {
    if |frame| < 3 || 3 + BigEndian(frame[1..3]) != |frame| then (v, -1)
    else if v.role == Server then FeedServer(p, v, frame)
    else if v.want == HS_CERTIFICATE then FeedCertificate(p, v, frame)
    else if v.want == HS_CERTIFICATE_VERIFY then FeedVerify(p, v, frame)
    else if v.want == HS_FINISHED then FeedFinished(p, v, frame)
    else (v, -1)
  }

  function FeedServer(p: Prims, v: Sess, frame: Bytes): (Sess, int)
    requires |frame| >= 3
  {
    if v.state != WaitFinished || frame[0] != HS_FINISHED || |frame| != 35 then (v, -1)
    else if Kdf(p, v.prk, "btls-fin-c", v.transcript) != frame[3..] then (v, -1)
    else (AppKeys(p, v.(transcript := v.transcript + frame)), 1)
  }

  /** The key is kept even when the label does not match. */
  function FeedCertificate(p: Prims, v: Sess, frame: Bytes): (Sess, int)
    requires |frame| >= 3
  {
    if frame[0] != HS_CERTIFICATE || |frame| != 35 then (v, -1)
    else
      var v1 := v.(certPub := frame[3..]);
      if v.dialled != "" && LabelFromPub(p, v1.certPub) != v.dialled then (v1, -1)
      else (v1.(transcript := v.transcript + frame, want := HS_CERTIFICATE_VERIFY), 0)
  }

  function FeedVerify(p: Prims, v: Sess, frame: Bytes): (Sess, int)
    requires |frame| >= 3
  {
    if frame[0] != HS_CERTIFICATE_VERIFY || |frame| != 67 then (v, -1)
    else if !p.verify(v.certPub, frame[3..], CertDigest(p, v.transcript)) then (v, -1)
    else (v.(transcript := v.transcript + frame, want := HS_FINISHED), 0)
  }

  function FeedFinished(p: Prims, v: Sess, frame: Bytes): (Sess, int)
    requires |frame| >= 3
  {
    if frame[0] != HS_FINISHED || |frame| != 35 then (v, -1)
    else if Kdf(p, v.prk, "btls-fin-s", v.transcript) != frame[3..] then (v, -1)
    else (v.(transcript := v.transcript + frame, want := 0), 0)
  }

  /** pump: the next record of the server flight, or the client Finished. */
  function Pump(p: Prims, v: Sess): (Sess, Option<Bytes>) {
    if v.role == Server && v.state == Handshake then
      if v.want == HS_SERVER_HELLO then PumpHello(p, v)
      else if v.want == HS_CERTIFICATE then PumpSealed(p, v.(want := HS_CERTIFICATE_VERIFY), Tagged(HS_CERTIFICATE, p.pub(v.seed)))
      else if v.want == HS_CERTIFICATE_VERIFY then
        PumpSealed(p, v.(want := HS_FINISHED), Tagged(HS_CERTIFICATE_VERIFY, p.sign(v.seed, CertDigest(p, v.transcript))))
      else if v.want == HS_FINISHED then
        PumpSealed(p, v.(state := WaitFinished), Tagged(HS_FINISHED, Kdf(p, v.prk, "btls-fin-s", v.transcript)))
      else (v, None)
    else if v.role == Client && v.state == Handshake && v.want == 0 then
      var (v1, rec) := PumpSealed(p, v, Tagged(HS_FINISHED, Kdf(p, v.prk, "btls-fin-c", v.transcript)));
      (AppKeys(p, v1), rec)
    else (v, None)
  }

  function PumpHello(p: Prims, v: Sess): (Sess, Option<Bytes>) {
    var frame := Tagged(HS_SERVER_HELLO, v.random + v.ephPub);
    (HandshakeKeys(p, v.(transcript := v.transcript + frame)).(want := HS_CERTIFICATE), Some(Tagged(RT_HANDSHAKE, frame)))
  }

  function PumpSealed(p: Prims, v: Sess, frame: Bytes): (Sess, Option<Bytes>) {
    var (v1, rec) := Seal(p, v.(transcript := v.transcript + frame), [RT_HANDSHAKE] + frame);
    (v1, Some(rec))
  }

  // ---- application messages ----------------------------------------------------------------

  /** The records of a message from here on. */
  function SendPieces(p: Prims, v: Sess, msg: Bytes): (Sess, seq<Bytes>)
    decreases |msg|
  {
    if |msg| <= MAX_PAYLOAD then
      var (v1, rec) := Seal(p, v, [RT_APPLICATION, 0] + msg);
      (v1, [rec])
    else
      var (v1, rec) := Seal(p, v, [RT_APPLICATION, 1] + msg[..MAX_PAYLOAD]);
      var (v2, recs) := SendPieces(p, v1, msg[MAX_PAYLOAD..]);
      (v2, [rec] + recs)
  }

  function SendApp(p: Prims, v: Sess, msg: Bytes): (Sess, Option<seq<Bytes>>) {
    if v.state != Done || !(0 < |msg| <= MAX_MSG) then (v, None)
    else
      var (v1, recs) := SendPieces(p, v, msg);
      (v1, Some(recs))
  }

  datatype Received = Fragment | Message(msg: Bytes) | Failed

  function RecvApp(p: Prims, v: Sess, rec: Bytes): (Sess, Received) {
    if v.state != Done then (v, Failed)
    else
      match Open(p, v, rec)
      case None => (v, Failed)
      case Some((v1, inner)) =>
        if |inner| < 2 || inner[0] != RT_APPLICATION then (v1, Failed)
        else if |v.rx| + |inner| - 2 > MAX_MSG then (v1, Failed)
        else if inner[1] % 2 == 1 then (v1.(rx := v.rx + inner[2..]), Fragment)
        else (v1.(rx := []), Message(v.rx + inner[2..]))
  }

  /** What a receiver reads from a tagged string. */
  lemma TaggedParts(t: byte, body: Bytes)
    requires |body| < 0x1_0000
    ensures var r := Tagged(t, body);
            |r| == 3 + |body| && r[0] == t && BigEndian(r[1..3]) == |body| && r[3..] == body
  {
    assert Tagged(t, body)[1..3] == ToBigEndian(|body|, 2);
    assert Pow(256, 2) == 65536;
    BigEndianBack(|body|, 2);
  }
}
