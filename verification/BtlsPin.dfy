/** What a session guarantees whatever records it is fed. */
module BtlsPin {
  import opened Limbs
  import opened Machine
  import opened Octets
  import opened Wrappers
  import opened BaitName
  import opened Btls

  /** Calls on one session, in any order, with any records. */
  datatype Call = CallStart | CallFeed(rec: Bytes) | CallPump

  function Called(p: Prims, v: Sess, call: Call): Sess {
    match call
    case CallStart => ClientStart(p, v).0
    case CallFeed(rec) => Feed(p, v, rec).0
    case CallPump => Pump(p, v).0
  }

  function After(p: Prims, v: Sess, calls: seq<Call>): Sess
    decreases |calls|
  {
    if calls == [] then v else Called(p, After(p, v, calls[..|calls| - 1]), calls[|calls| - 1])
  }

  ghost predicate New(p: Prims, v: Sess) {
    v == Btls.Fresh(p, v.role, v.seed, v.dialled, v.random, v.ephPriv)
  }

  // ---- what the transcript of a client records ------------------------------------------------

  /** CH, then an SH whose key made the session secret. */
  ghost predicate Begun(p: Prims, v: Sess) {
    && |v.transcript| >= 134
    && v.transcript[..67] == Tagged(HS_CLIENT_HELLO, v.random + v.ephPub)
    && v.transcript[67] == HS_SERVER_HELLO
    && v.prk == SharedPrk(p, v.ephPriv, v.transcript[102..134])
  }

  /** The certificate is the key, and the key carries the dialled label. */
  ghost predicate Certified(p: Prims, v: Sess) {
    && |v.transcript| >= 169
    && v.transcript[134..169] == Tagged(HS_CERTIFICATE, v.certPub)
    && (v.dialled != "" ==> LabelFromPub(p, v.certPub) == v.dialled)
  }

  /** The key signed CH, SH and CERT. */
  ghost predicate Signed(p: Prims, v: Sess) {
    && |v.transcript| >= 236
    && v.transcript[169] == HS_CERTIFICATE_VERIFY
    && p.verify(v.certPub, v.transcript[172..236], CertDigest(p, v.transcript[..169]))
  }

  /** The server Finished covers CH, SH, CERT and CV. */
  ghost predicate Confirmed(p: Prims, v: Sess) {
    && |v.transcript| >= 271
    && v.transcript[236] == HS_FINISHED
    && v.transcript[239..271] == Kdf(p, v.prk, "btls-fin-s", v.transcript[..236])
  }

  ghost predicate ClientInv(p: Prims, v: Sess) {
    v.role == Client &&
    match v.state
    case Init => v.transcript == [] && v.epoch == 0
    case HelloSent => v.epoch == 0 && v.want == HS_SERVER_HELLO && v.transcript == Tagged(HS_CLIENT_HELLO, v.random + v.ephPub)
    case Handshake =>
      && v.epoch == 1 && Begun(p, v)
      && (|| (v.want == HS_CERTIFICATE && |v.transcript| == 134)
          || (v.want == HS_CERTIFICATE_VERIFY && |v.transcript| == 169 && Certified(p, v))
          || (v.want == HS_FINISHED && |v.transcript| == 236 && Certified(p, v) && Signed(p, v))
          || (v.want == 0 && |v.transcript| == 271 && Certified(p, v) && Signed(p, v) && Confirmed(p, v)))
    case Done => v.epoch == 2 && v.want == 0 && |v.transcript| == 306 && Pinned(p, v)
    case WaitFinished => false
  }

  ghost predicate Pinned(p: Prims, v: Sess) {
    Begun(p, v) && Certified(p, v) && Signed(p, v) && Confirmed(p, v)
  }

  lemma StartKeeps(p: Prims, v: Sess)
    requires ClientInv(p, v)
    ensures ClientInv(p, ClientStart(p, v).0)
  {
  }

  lemma HelloKeeps(p: Prims, v: Sess, rec: Bytes)
    requires ClientInv(p, v) && |rec| >= 3 && v.epoch == 0
    ensures ClientInv(p, FeedPlain(p, v, rec).0)
  {
    var v2 := FeedPlain(p, v, rec).0;
    if v2 != v {
      var body := rec[3..];
      assert v2.transcript == v.transcript + body && |v.transcript| == 67;
      assert v2.transcript[..67] == v.transcript;
      assert v2.transcript[102..134] == body[35..67];
    }
  }

  /** A well-formed frame is its tag, its length and its body. */
  lemma FrameIsTagged(frame: Bytes)
    requires |frame| >= 3 && 3 + BigEndian(frame[1..3]) == |frame|
    ensures frame == Tagged(frame[0], frame[3..])
  {
    ToBigEndianBack(frame[1..3]);
    assert frame == [frame[0]] + frame[1..3] + frame[3..];
  }

  lemma GrownKeeps(p: Prims, v: Sess, v2: Sess, frame: Bytes)
    requires v2.transcript == v.transcript + frame
    requires v2.random == v.random && v2.ephPub == v.ephPub && v2.ephPriv == v.ephPriv && v2.prk == v.prk
    requires v2.certPub == v.certPub && v2.dialled == v.dialled
    ensures Begun(p, v) ==> Begun(p, v2)
    ensures Certified(p, v) ==> Certified(p, v2)
    ensures Signed(p, v) ==> Signed(p, v2)
    ensures Confirmed(p, v) ==> Confirmed(p, v2)
  {
    var t, u := v.transcript, v2.transcript;
    assert forall a, b :: 0 <= a <= b <= |t| ==> u[a..b] == t[a..b];
    assert forall b :: 0 <= b <= |t| ==> u[..b] == t[..b];
  }

  lemma CertificateKeeps(p: Prims, v: Sess, frame: Bytes)
    requires ClientInv(p, v) && v.state == Handshake && v.want == HS_CERTIFICATE
    requires |frame| >= 3 && 3 + BigEndian(frame[1..3]) == |frame|
    ensures ClientInv(p, FeedCertificate(p, v, frame).0)
  {
    var (v2, code) := FeedCertificate(p, v, frame);
    if code == 0 {
      FrameIsTagged(frame);
      GrownKeeps(p, v.(certPub := v2.certPub), v2, frame);
      assert v2.transcript[134..169] == frame;
    }
  }

  lemma VerifyKeeps(p: Prims, v: Sess, frame: Bytes)
    requires ClientInv(p, v) && v.state == Handshake && v.want == HS_CERTIFICATE_VERIFY
    requires |frame| >= 3 && 3 + BigEndian(frame[1..3]) == |frame|
    ensures ClientInv(p, FeedVerify(p, v, frame).0)
  {
    var (v2, code) := FeedVerify(p, v, frame);
    if code == 0 {
      GrownKeeps(p, v, v2, frame);
      assert v2.transcript[172..236] == frame[3..] && v2.transcript[..169] == v.transcript;
    }
  }

  lemma FinishedKeeps(p: Prims, v: Sess, frame: Bytes)
    requires ClientInv(p, v) && v.state == Handshake && v.want == HS_FINISHED
    requires |frame| >= 3 && 3 + BigEndian(frame[1..3]) == |frame|
    ensures ClientInv(p, FeedFinished(p, v, frame).0)
  {
    var (v2, code) := FeedFinished(p, v, frame);
    if code == 0 {
      GrownKeeps(p, v, v2, frame);
      assert v2.transcript[239..271] == frame[3..] && v2.transcript[..236] == v.transcript;
    }
  }

  lemma PumpKeeps(p: Prims, v: Sess)
    requires ClientInv(p, v)
    ensures ClientInv(p, Pump(p, v).0)
  {
    if v.state == Handshake && v.want == 0 {
      var frame := Tagged(HS_FINISHED, Kdf(p, v.prk, "btls-fin-c", v.transcript));
      GrownKeeps(p, v, Pump(p, v).0, frame);
    }
  }

  /** Advancing the receive counter keeps everything. */
  lemma CounterKeeps(p: Prims, v: Sess, n: nat)
    requires ClientInv(p, v)
    ensures ClientInv(p, v.(recvSeq := n))
  {
  }

  lemma FrameKeeps(p: Prims, v: Sess, frame: Bytes)
    requires ClientInv(p, v) && v.epoch > 0
    ensures ClientInv(p, FeedFrame(p, v, frame).0)
  {
    if |frame| >= 3 && 3 + BigEndian(frame[1..3]) == |frame| && v.state == Handshake {
      if v.want == HS_CERTIFICATE {
        CertificateKeeps(p, v, frame);
      } else if v.want == HS_CERTIFICATE_VERIFY {
        VerifyKeeps(p, v, frame);
      } else if v.want == HS_FINISHED {
        FinishedKeeps(p, v, frame);
      }
    }
  }

  lemma FeedKeeps(p: Prims, v: Sess, rec: Bytes)
    requires ClientInv(p, v)
    ensures ClientInv(p, Feed(p, v, rec).0)
  {
    if |rec| >= 3 && v.epoch == 0 {
      HelloKeeps(p, v, rec);
    } else {
      match Open(p, v, rec)
      case None =>
      case Some((v1, inner)) =>
        CounterKeeps(p, v, v.recvSeq + 1);
        if inner != [] {
          FrameKeeps(p, v1, inner[1..]);
        }
    }
  }

  lemma {:induction false} ClientKeeps(p: Prims, v: Sess, calls: seq<Call>)
    requires New(p, v) && v.role == Client
    ensures ClientInv(p, After(p, v, calls)) && After(p, v, calls).dialled == v.dialled
  {
    if calls != [] {
      var before, call := After(p, v, calls[..|calls| - 1]), calls[|calls| - 1];
      ClientKeeps(p, v, calls[..|calls| - 1]);
      NameKept(p, before, call);
      match call
      case CallStart => StartKeeps(p, before);
      case CallFeed(rec) => FeedKeeps(p, before, rec);
      case CallPump => PumpKeeps(p, before);
    }
  }

  lemma NameKept(p: Prims, v: Sess, call: Call)
    ensures Called(p, v, call).dialled == v.dialled
  {
  }

  /** Whatever is fed: a client that is done holds a server key that signed CH, SH and
      CERT and confirmed them in a Finished; if a name was dialled, the key has that
      label and the label decodes to the class C address of the key. */
  lemma NamePin(p: Prims, v: Sess, calls: seq<Call>)
    requires New(p, v) && v.role == Client
    ensures var e := After(p, v, calls);
            e.state == Done ==>
              && Pinned(p, e)
              && (v.dialled != "" ==> LabelFromPub(p, e.certPub) == v.dialled &&
                                      LabelToAddr(v.dialled) == Some(DeriveAddr(p.sha(e.certPub))))
  {
    ClientKeeps(p, v, calls);
    LabelNamesAddress(p.sha(After(p, v, calls).certPub));
  }

  // ---- the server side ---------------------------------------------------------------------------

  /** A CH whose key made the session secret, and the server's own frames after it. */
  ghost predicate Served(p: Prims, v: Sess) {
    && |v.transcript| >= 134
    && v.transcript[0] == HS_CLIENT_HELLO
    && v.transcript[67..134] == Tagged(HS_SERVER_HELLO, v.random + v.ephPub)
    && v.prk == SharedPrk(p, v.ephPriv, v.transcript[35..67])
  }

  ghost predicate ServerInv(p: Prims, v: Sess) {
    v.role == Server &&
    match v.state
    case Init => v.transcript == [] && v.epoch == 0
    case HelloSent => false
    case Handshake =>
      || (v.want == HS_SERVER_HELLO && v.epoch == 0 && |v.transcript| == 67 && v.transcript[0] == HS_CLIENT_HELLO
          && v.transcript[35..67] == v.peerEph)
      || (v.epoch == 1 && Served(p, v) && ((v.want == HS_CERTIFICATE && |v.transcript| == 134) ||
                                           (v.want == HS_CERTIFICATE_VERIFY && |v.transcript| == 169) ||
                                           (v.want == HS_FINISHED && |v.transcript| == 236)))
    case WaitFinished => v.epoch == 1 && Served(p, v) && |v.transcript| == 271
    case Done => v.epoch == 2 && |v.transcript| == 306 && Acknowledged(p, v)
  }

  /** The client Finished covers everything before it. */
  ghost predicate Acknowledged(p: Prims, v: Sess) {
    && |v.transcript| == 306 && Served(p, v)
    && v.transcript[271] == HS_FINISHED
    && v.transcript[274..306] == Kdf(p, v.prk, "btls-fin-c", v.transcript[..271])
  }

  lemma ServedGrows(p: Prims, v: Sess, v2: Sess, frame: Bytes)
    requires v2.transcript == v.transcript + frame && Served(p, v)
    requires v2.random == v.random && v2.ephPub == v.ephPub && v2.ephPriv == v.ephPriv && v2.prk == v.prk
    ensures Served(p, v2)
  {
    assert forall a, b :: 0 <= a <= b <= |v.transcript| ==> v2.transcript[a..b] == v.transcript[a..b];
  }

  lemma ServerHello(p: Prims, v: Sess, rec: Bytes)
    requires ServerInv(p, v) && |rec| >= 3 && v.epoch == 0
    ensures ServerInv(p, FeedPlain(p, v, rec).0)
  {
    var v2 := FeedPlain(p, v, rec).0;
    if v2 != v {
      assert v2.transcript == [] + rec[3..] == rec[3..];
    }
  }

  lemma ServerFinishes(p: Prims, v: Sess, frame: Bytes)
    requires ServerInv(p, v) && |frame| >= 3
    ensures ServerInv(p, FeedServer(p, v, frame).0)
  {
    var (v2, code) := FeedServer(p, v, frame);
    if code == 1 {
      ServedGrows(p, v, v2, frame);
      assert v2.transcript[274..306] == frame[3..] && v2.transcript[..271] == v.transcript;
    }
  }

  lemma ServerFeed(p: Prims, v: Sess, rec: Bytes)
    requires ServerInv(p, v)
    ensures ServerInv(p, Feed(p, v, rec).0)
  {
    if |rec| >= 3 && v.epoch == 0 {
      ServerHello(p, v, rec);
    } else {
      match Open(p, v, rec)
      case None =>
      case Some((v1, inner)) =>
        assert ServerInv(p, v1);
        if |inner| >= 4 {
          ServerFinishes(p, v1, inner[1..]);
        }
    }
  }

  lemma ServerPump(p: Prims, v: Sess)
    requires ServerInv(p, v)
    ensures ServerInv(p, Pump(p, v).0)
  {
    var v2 := Pump(p, v).0;
    if v.state == Handshake && v.epoch == 1 {
      var frame := v2.transcript[|v.transcript|..];
      assert v2.transcript == v.transcript + frame;
      ServedGrows(p, v, v2, frame);
    } else if v.state == Handshake {
      var frame := Tagged(HS_SERVER_HELLO, v.random + v.ephPub);
      assert v2.transcript == v.transcript + frame;
      assert v2.transcript[67..134] == frame && v2.transcript[35..67] == v.transcript[35..67];
    }
  }

  lemma {:induction false} ServerKeeps(p: Prims, v: Sess, calls: seq<Call>)
    requires New(p, v) && v.role == Server
    ensures ServerInv(p, After(p, v, calls))
  {
    if calls != [] {
      var before, call := After(p, v, calls[..|calls| - 1]), calls[|calls| - 1];
      ServerKeeps(p, v, calls[..|calls| - 1]);
      match call
      case CallStart =>
      case CallFeed(rec) => ServerFeed(p, before, rec);
      case CallPump => ServerPump(p, before);
    }
  }

  /** Whatever is fed: a server that is done got a client Finished over its whole
      transcript, made with the secret shared with the key in the CH. */
  lemma ServerPin(p: Prims, v: Sess, calls: seq<Call>)
    requires New(p, v) && v.role == Server
    ensures var e := After(p, v, calls);
            e.state == Done ==> Acknowledged(p, e)
  {
    ServerKeeps(p, v, calls);
  }
}
