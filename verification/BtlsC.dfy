/** The C session: the rules of the Python one with a fixed transcript buffer, a counter
    that moves before a box is opened, and the limit of the library's opening wrapper. */
module BtlsC {
  import opened Limbs
  import opened Machine
  import ModArith
  import opened Octets
  import opened Wrappers
  import opened Btls
  import opened BtlsPin
  import opened BtlsLockstep
  import opened BtlsMessages

  const TH_BUF: nat := 512
  const OPEN_MAX: nat := 1024

  /** th_append: a frame that does not fit a buffer of room bytes is dropped in silence. */
  function ThAppend(th: Bytes, frame: Bytes, room: nat): Bytes {
    if |th| + |frame| <= room then th + frame else th
  }

  function Th(v: Sess, frame: Bytes, room: nat): Sess {
    v.(transcript := ThAppend(v.transcript, frame, room))
  }

  // ---- records ---------------------------------------------------------------------------

  /** The length checks of open_rec. */
  predicate Shaped(rec: Bytes) {
    && |rec| >= 3 && rec[0] == RT_APPLICATION
    && var blen := BigEndian(rec[1..3]); 33 <= blen <= 34 + MAX_PAYLOAD && |rec| == 3 + blen
  }

  /** The counter has moved even when the box does not open, and a plaintext of more than
      1024 bytes is not opened at all. */
  function OpenC(p: Prims, v: Sess, rec: Bytes): (Sess, Option<Bytes>) {
    if !Shaped(rec) then (v, None)
    else
      var v1 := v.(recvSeq := v.recvSeq + 1);
      if |rec| - 35 > OPEN_MAX then (v1, None)
      else (v1, p.open(v.recvKey, RecNonce(v.recvSeq), rec[3..]))
  }

  // ---- handshake -------------------------------------------------------------------------

  function StartC(p: Prims, room: nat, v: Sess): (Sess, Option<Bytes>) {
    if v.role != Client || v.state != Init then (v, None)
    else
      var frame := Tagged(HS_CLIENT_HELLO, v.random + v.ephPub);
      (Th(v, frame, room).(state := HelloSent, want := HS_SERVER_HELLO), Some(Tagged(RT_HANDSHAKE, frame)))
  }

  function FeedC(p: Prims, room: nat, v: Sess, rec: Bytes): (Sess, int) {
    if |rec| < 3 then (v, -1)
    else
      var blen := BigEndian(rec[1..3]);
      if blen > MAX_REC - 3 || |rec| != 3 + blen then (v, -1)
      else if v.epoch == 0 then FeedPlainC(p, room, v, rec)
      else
        var (v1, inner) := OpenC(p, v, rec);
        if inner.None? || inner.value == [] || inner.value[0] != RT_HANDSHAKE then (v1, -1)
        else FeedFrameC(p, room, v1, inner.value[1..])
  }

  /** Of the length inside a hello only the low byte is read. */
  function FeedPlainC(p: Prims, room: nat, v: Sess, rec: Bytes): (Sess, int)
    requires |rec| >= 3
  {
    var body := rec[3..];
    if rec[0] != RT_HANDSHAKE || |body| < 3 then (v, -1)
    else if v.role == Server && v.state == Init then
      if body[0] != HS_CLIENT_HELLO || |body| != 67 || body[2] != 64 then (v, -1)
      else (Th(v, body, room).(peerEph := body[35..67], state := Handshake, want := HS_SERVER_HELLO), 0)
    else if v.role == Client && v.state == HelloSent && v.want == HS_SERVER_HELLO then
      if body[0] != HS_SERVER_HELLO || |body| != 67 || body[2] != 64 then (v, -1)
      else
        var v1 := HandshakeKeys(p, Th(v, body, room).(peerEph := body[35..67]));
        (v1.(state := Handshake, want := HS_CERTIFICATE), 0)
    else (v, -1)
  }

  /** feed_hs: bytes after the frame are ignored. */
  function FeedFrameC(p: Prims, room: nat, v: Sess, bytes: Bytes): (Sess, int) {
    if |bytes| < 3 || 3 + BigEndian(bytes[1..3]) > |bytes| then (v, -1)
    else
      var frame := bytes[..3 + BigEndian(bytes[1..3])];
      if v.role == Server then FeedServerC(p, room, v, frame)
      else if v.want == HS_CERTIFICATE then FeedCertificateC(p, room, v, frame)
      else if v.want == HS_CERTIFICATE_VERIFY then FeedVerifyC(p, room, v, frame)
      else if v.want == HS_FINISHED then FeedFinishedC(p, room, v, frame)
      else (v, -1)
  }

  function FeedServerC(p: Prims, room: nat, v: Sess, frame: Bytes): (Sess, int)
    requires |frame| >= 3
  {
    if v.state != WaitFinished || frame[0] != HS_FINISHED || |frame| != 35 then (v, -1)
    else if Kdf(p, v.prk, "btls-fin-c", v.transcript) != frame[3..] then (v, -1)
    else (AppKeys(p, Th(v, frame, room)), 1)
  }

  function FeedCertificateC(p: Prims, room: nat, v: Sess, frame: Bytes): (Sess, int)
    requires |frame| >= 3
  {
    if frame[0] != HS_CERTIFICATE || |frame| != 35 then (v, -1)
    else
      var v1 := v.(certPub := frame[3..]);
      if v.dialled != "" && LabelFromPub(p, v1.certPub) != v.dialled then (v1, -1)
      else (Th(v1, frame, room).(want := HS_CERTIFICATE_VERIFY), 0)
  }

  function FeedVerifyC(p: Prims, room: nat, v: Sess, frame: Bytes): (Sess, int)
    requires |frame| >= 3
  {
    if frame[0] != HS_CERTIFICATE_VERIFY || |frame| != 67 then (v, -1)
    else if !p.verify(v.certPub, frame[3..], CertDigest(p, v.transcript)) then (v, -1)
    else (Th(v, frame, room).(want := HS_FINISHED), 0)
  }

  function FeedFinishedC(p: Prims, room: nat, v: Sess, frame: Bytes): (Sess, int)
    requires |frame| >= 3
  {
    if frame[0] != HS_FINISHED || |frame| != 35 then (v, -1)
    else if Kdf(p, v.prk, "btls-fin-s", v.transcript) != frame[3..] then (v, -1)
    else (Th(v, frame, room).(want := 0), 0)
  }

  function PumpC(p: Prims, room: nat, v: Sess): (Sess, Option<Bytes>) {
    if v.role == Server && v.state == Handshake then
      if v.want == HS_SERVER_HELLO then
        var frame := Tagged(HS_SERVER_HELLO, v.random + v.ephPub);
        (HandshakeKeys(p, Th(v, frame, room)).(want := HS_CERTIFICATE), Some(Tagged(RT_HANDSHAKE, frame)))
      else if v.want == HS_CERTIFICATE then
        SealFrameC(p, room, v.(want := HS_CERTIFICATE_VERIFY), Tagged(HS_CERTIFICATE, p.pub(v.seed)))
      else if v.want == HS_CERTIFICATE_VERIFY then
        SealFrameC(p, room, v.(want := HS_FINISHED),
                   Tagged(HS_CERTIFICATE_VERIFY, p.sign(v.seed, CertDigest(p, v.transcript))))
      else if v.want == HS_FINISHED then
        SealFrameC(p, room, v.(state := WaitFinished), Tagged(HS_FINISHED, Kdf(p, v.prk, "btls-fin-s", v.transcript)))
      else (v, None)
    else if v.role == Client && v.state == Handshake && v.want == 0 then
      var (v1, rec) := SealFrameC(p, room, v, Tagged(HS_FINISHED, Kdf(p, v.prk, "btls-fin-c", v.transcript)));
      (AppKeys(p, v1), rec)
    else (v, None)
  }

  function SealFrameC(p: Prims, room: nat, v: Sess, frame: Bytes): (Sess, Option<Bytes>) {
    var (v1, rec) := Seal(p, Th(v, frame, room), [RT_HANDSHAKE] + frame);
    (v1, Some(rec))
  }

  function CalledC(p: Prims, room: nat, v: Sess, call: Call): Sess {
    match call
    case CallStart => StartC(p, room, v).0
    case CallFeed(rec) => FeedC(p, room, v, rec).0
    case CallPump => PumpC(p, room, v).0
  }

  function AfterC(p: Prims, room: nat, v: Sess, calls: seq<Call>): Sess
    decreases |calls|
  {
    if calls == [] then v else CalledC(p, room, AfterC(p, room, v, calls[..|calls| - 1]), calls[|calls| - 1])
  }

  // ---- the fixed transcript buffer -------------------------------------------------------------

  /** The length of the transcript in each state. */
  ghost predicate Measured(v: Sess) {
    match v.state
    case Init => |v.transcript| == 0 && v.epoch == 0
    case HelloSent => v.role == Client && |v.transcript| == 67 && v.epoch == 0 && v.want == HS_SERVER_HELLO
    case Handshake =>
      || (v.role == Server && v.want == HS_SERVER_HELLO && v.epoch == 0 && |v.transcript| == 67)
      || (v.epoch == 1 && ((v.want == HS_CERTIFICATE && |v.transcript| == 134) ||
                           (v.want == HS_CERTIFICATE_VERIFY && |v.transcript| == 169) ||
                           (v.want == HS_FINISHED && |v.transcript| == 236) ||
                           (v.role == Client && v.want == 0 && |v.transcript| == 271)))
    case WaitFinished => v.role == Server && v.epoch == 1 && |v.transcript| == 271
    case Done => v.epoch == 2 && |v.transcript| == 306 && (v.role == Client ==> v.want == 0)
  }

  lemma MeasuredPlain(p: Prims, room: nat, v: Sess, rec: Bytes)
    requires Measured(v) && room >= 306 && |rec| >= 3 && v.epoch == 0
    ensures Measured(FeedPlainC(p, room, v, rec).0)
    ensures FeedPlainC(p, room, v, rec) == FeedPlainC(p, TH_BUF, v, rec)
  {
  }

  lemma MeasuredFrame(p: Prims, room: nat, v: Sess, bytes: Bytes)
    requires Measured(v) && room >= 306 && v.epoch > 0
    ensures Measured(FeedFrameC(p, room, v, bytes).0)
    ensures FeedFrameC(p, room, v, bytes) == FeedFrameC(p, TH_BUF, v, bytes)
  {
  }

  lemma MeasuredFeed(p: Prims, room: nat, v: Sess, rec: Bytes)
    requires Measured(v) && room >= 306
    ensures Measured(FeedC(p, room, v, rec).0)
    ensures FeedC(p, room, v, rec) == FeedC(p, TH_BUF, v, rec)
  {
    if |rec| >= 3 && v.epoch == 0 {
      MeasuredPlain(p, room, v, rec);
    } else if |rec| >= 3 {
      var (v1, inner) := OpenC(p, v, rec);
      if inner.Some? && inner.value != [] {
        MeasuredFrame(p, room, v1, inner.value[1..]);
      }
    }
  }

  lemma MeasuredPump(p: Prims, room: nat, v: Sess)
    requires Measured(v) && room >= 306
    ensures Measured(PumpC(p, room, v).0)
    ensures PumpC(p, room, v) == PumpC(p, TH_BUF, v)
  {
  }

  lemma {:induction false} MeasuredRun(p: Prims, room: nat, v: Sess, calls: seq<Call>)
    requires New(p, v) && room >= 306
    ensures Measured(AfterC(p, room, v, calls))
    ensures AfterC(p, room, v, calls) == AfterC(p, TH_BUF, v, calls)
    decreases |calls|
  {
    if calls != [] {
      var before, call := AfterC(p, room, v, calls[..|calls| - 1]), calls[|calls| - 1];
      MeasuredRun(p, room, v, calls[..|calls| - 1]);
      match call
      case CallStart =>
      case CallFeed(rec) => MeasuredFeed(p, room, before, rec);
      case CallPump => MeasuredPump(p, room, before);
    }
  }

  /** Whatever is fed, in either role, the 512-byte buffer never drops a frame: the session
      is the same with a buffer of any size from 306 bytes on, which is all it ever holds. */
  lemma BufferNeverTruncates(p: Prims, room: nat, v: Sess, calls: seq<Call>)
    requires New(p, v) && room >= 306
    ensures AfterC(p, TH_BUF, v, calls) == AfterC(p, room, v, calls)
    ensures |AfterC(p, TH_BUF, v, calls).transcript| <= 306
  {
    MeasuredRun(p, room, v, calls);
  }

  // ---- where the two sessions differ --------------------------------------------------------------

  /** A hello whose inner length has a zero high byte, and a box whose plaintext the library
      opens and which holds nothing after its frame. */
  ghost predicate Plain(p: Prims, v: Sess, rec: Bytes) {
    if v.epoch == 0 then |rec| >= 6 ==> rec[4] == 0
    else |rec| - 35 <= OPEN_MAX &&
         match p.open(v.recvKey, RecNonce(v.recvSeq), if |rec| >= 3 then rec[3..] else [])
         case None => true
         case Some(inner) => |inner| >= 4 ==> 3 + BigEndian(inner[2..4]) >= |inner| - 1
  }

  lemma SmallLength(body: Bytes)
    requires |body| >= 3 && body[1] == 0
    ensures BigEndian(body[1..3]) == body[2] as int
  {
    var two := body[1..3];
    var one := two[..|two| - 1];
    assert one == [body[1]] && two[|two| - 1] == body[2];
    assert one[..|one| - 1] == [] && BigEndian(one) == 0;
  }

  lemma SamePlain(p: Prims, v: Sess, rec: Bytes)
    requires Measured(v) && v.epoch == 0 && |rec| >= 3 && (|rec| >= 6 ==> rec[4] == 0)
    ensures FeedPlainC(p, TH_BUF, v, rec) == FeedPlain(p, v, rec)
  {
    var body := rec[3..];
    if |body| >= 3 {
      SmallLength(body);
    }
  }

  /** The C rule for a frame with bytes behind it is the Python rule for the frame alone. */
  lemma CutFrame(p: Prims, v: Sess, bytes: Bytes)
    requires Measured(v) && v.epoch > 0 && |bytes| >= 3 && 3 + BigEndian(bytes[1..3]) <= |bytes|
    ensures FeedFrameC(p, TH_BUF, v, bytes) == FeedFrame(p, v, bytes[..3 + BigEndian(bytes[1..3])])
  {
    var frame := bytes[..3 + BigEndian(bytes[1..3])];
    assert frame[1..3] == bytes[1..3];
  }

  lemma SameFrame(p: Prims, v: Sess, frame: Bytes)
    requires Measured(v) && v.epoch > 0
    requires |frame| >= 3 ==> 3 + BigEndian(frame[1..3]) >= |frame|
    ensures FeedFrameC(p, TH_BUF, v, frame) == FeedFrame(p, v, frame)
  {
    if |frame| >= 3 && 3 + BigEndian(frame[1..3]) == |frame| {
      CutFrame(p, v, frame);
      assert frame[..|frame|] == frame;
    }
  }

  /** On such records the two sessions act alike exactly when the record is not one that
      passes the length checks and does not open: that one leaves the Python session as it
      was and moves the counter of the C session. */
  lemma SameExactly(p: Prims, v: Sess, rec: Bytes)
    requires Measured(v) && Plain(p, v, rec)
    ensures FeedC(p, TH_BUF, v, rec) == Feed(p, v, rec)
            <==> v.epoch == 0 || !Shaped(rec) || p.open(v.recvKey, RecNonce(v.recvSeq), rec[3..]).Some?
  {
    if |rec| >= 3 && v.epoch == 0 {
      SamePlain(p, v, rec);
    } else if Shaped(rec) {
      match p.open(v.recvKey, RecNonce(v.recvSeq), rec[3..])
      case None =>
        assert Feed(p, v, rec).0.recvSeq == v.recvSeq;
        assert FeedC(p, TH_BUF, v, rec) == (v.(recvSeq := v.recvSeq + 1), -1);
      case Some(inner) =>
        if inner != [] {
          assert |inner| >= 4 ==> inner[1..][1..3] == inner[2..4];
          SameFrame(p, v.(recvSeq := v.recvSeq + 1), inner[1..]);
        }
    }
  }

  // ---- the pins hold for the C session too ---------------------------------------------------------

  lemma SamePump(p: Prims, v: Sess)
    requires Measured(v)
    ensures PumpC(p, TH_BUF, v) == Pump(p, v)
  {
  }

  lemma HelloKeepsC(p: Prims, v: Sess, rec: Bytes)
    requires ClientInv(p, v) && Measured(v) && |rec| >= 3 && v.epoch == 0
    ensures ClientInv(p, FeedPlainC(p, TH_BUF, v, rec).0)
  {
    var v2 := FeedPlainC(p, TH_BUF, v, rec).0;
    if v2 != v {
      var body := rec[3..];
      assert v2.transcript == v.transcript + body && |v.transcript| == 67;
      assert v2.transcript[..67] == v.transcript;
      assert v2.transcript[102..134] == body[35..67];
    }
  }

  lemma FrameKeepsC(p: Prims, v: Sess, bytes: Bytes)
    requires ClientInv(p, v) && Measured(v) && v.epoch > 0
    ensures ClientInv(p, FeedFrameC(p, TH_BUF, v, bytes).0)
  {
    if |bytes| >= 3 && 3 + BigEndian(bytes[1..3]) <= |bytes| {
      CutFrame(p, v, bytes);
      FrameKeeps(p, v, bytes[..3 + BigEndian(bytes[1..3])]);
    }
  }

  lemma FeedKeepsC(p: Prims, v: Sess, rec: Bytes)
    requires ClientInv(p, v) && Measured(v)
    ensures ClientInv(p, FeedC(p, TH_BUF, v, rec).0)
  {
    if |rec| >= 3 && v.epoch == 0 {
      HelloKeepsC(p, v, rec);
    } else {
      var (v1, inner) := OpenC(p, v, rec);
      CounterKeeps(p, v, v1.recvSeq);
      if inner.Some? && inner.value != [] && v.epoch > 0 {
        FrameKeepsC(p, v1, inner.value[1..]);
      }
    }
  }

  lemma {:induction false} ClientKeepsC(p: Prims, v: Sess, calls: seq<Call>)
    requires New(p, v) && v.role == Client
    ensures ClientInv(p, AfterC(p, TH_BUF, v, calls)) && AfterC(p, TH_BUF, v, calls).dialled == v.dialled
    decreases |calls|
  {
    if calls != [] {
      var before, call := AfterC(p, TH_BUF, v, calls[..|calls| - 1]), calls[|calls| - 1];
      ClientKeepsC(p, v, calls[..|calls| - 1]);
      MeasuredRun(p, TH_BUF, v, calls[..|calls| - 1]);
      NameKeptC(p, before, call);
      match call
      case CallStart =>
        assert StartC(p, TH_BUF, before) == ClientStart(p, before);
        StartKeeps(p, before);
      case CallFeed(rec) => FeedKeepsC(p, before, rec);
      case CallPump =>
        SamePump(p, before);
        PumpKeeps(p, before);
    }
  }

  lemma NameKeptC(p: Prims, v: Sess, call: Call)
    ensures CalledC(p, TH_BUF, v, call).dialled == v.dialled
  {
  }

  /** Trailing bytes, unread length bytes and lost counters notwithstanding: a done C client
      holds a key that signed CH, SH and CERT, confirmed them, and carries the kept name. */
  lemma NamePinC(p: Prims, v: Sess, calls: seq<Call>)
    requires New(p, v) && v.role == Client
    ensures var e := AfterC(p, TH_BUF, v, calls);
            e.state == Done ==> Pinned(p, e) && (v.dialled != "" ==> LabelFromPub(p, e.certPub) == v.dialled)
  {
    ClientKeepsC(p, v, calls);
  }

  lemma ServerHelloC(p: Prims, v: Sess, rec: Bytes)
    requires ServerInv(p, v) && Measured(v) && |rec| >= 3 && v.epoch == 0
    ensures ServerInv(p, FeedPlainC(p, TH_BUF, v, rec).0)
  {
    var v2 := FeedPlainC(p, TH_BUF, v, rec).0;
    if v2 != v {
      assert v2.transcript == [] + rec[3..] == rec[3..];
    }
  }

  lemma ServerFrameC(p: Prims, v: Sess, bytes: Bytes)
    requires ServerInv(p, v) && Measured(v) && v.epoch > 0
    ensures ServerInv(p, FeedFrameC(p, TH_BUF, v, bytes).0)
  {
    if |bytes| >= 3 && 3 + BigEndian(bytes[1..3]) <= |bytes| {
      CutFrame(p, v, bytes);
      ServerFinishes(p, v, bytes[..3 + BigEndian(bytes[1..3])]);
    }
  }

  lemma ServerFeedC(p: Prims, v: Sess, rec: Bytes)
    requires ServerInv(p, v) && Measured(v)
    ensures ServerInv(p, FeedC(p, TH_BUF, v, rec).0)
  {
    if |rec| >= 3 && v.epoch == 0 {
      ServerHelloC(p, v, rec);
    } else {
      var (v1, inner) := OpenC(p, v, rec);
      ServerCounts(p, v, v1.recvSeq);
      if inner.Some? && inner.value != [] && v.epoch > 0 {
        ServerFrameC(p, v1, inner.value[1..]);
      }
    }
  }

  lemma ServerCounts(p: Prims, v: Sess, n: nat)
    requires ServerInv(p, v)
    ensures ServerInv(p, v.(recvSeq := n))
  {
  }

  lemma {:induction false} ServerKeepsC(p: Prims, v: Sess, calls: seq<Call>)
    requires New(p, v) && v.role == Server
    ensures ServerInv(p, AfterC(p, TH_BUF, v, calls))
    decreases |calls|
  {
    if calls != [] {
      var before, call := AfterC(p, TH_BUF, v, calls[..|calls| - 1]), calls[|calls| - 1];
      ServerKeepsC(p, v, calls[..|calls| - 1]);
      MeasuredRun(p, TH_BUF, v, calls[..|calls| - 1]);
      match call
      case CallStart =>
      case CallFeed(rec) => ServerFeedC(p, before, rec);
      case CallPump =>
        SamePump(p, before);
        ServerPump(p, before);
    }
  }

  /** A done C server got a client Finished over its whole transcript. */
  lemma ServerPinC(p: Prims, v: Sess, calls: seq<Call>)
    requires New(p, v) && v.role == Server
    ensures var e := AfterC(p, TH_BUF, v, calls);
            e.state == Done ==> Acknowledged(p, e)
  {
    ServerKeepsC(p, v, calls);
  }

  // ---- application messages ---------------------------------------------------------------------

  /** btls_recv_app with room for cap bytes: any failure drops what was reassembled. */
  function RecvAppC(p: Prims, v: Sess, rec: Bytes, cap: nat): (Sess, Received) {
    if v.state != Done || v.epoch != 2 then (v, Failed)
    else
      var (v1, inner) := OpenC(p, v, rec);
      if inner.None? || |inner.value| < 2 || inner.value[0] != RT_APPLICATION || inner.value[1] > 1 then (v1.(rx := []), Failed)
      else
        var data := inner.value[2..];
        if |data| > (cap - |v1.rx|) % WRAP64 then (v1.(rx := []), Failed)
        else if inner.value[1] == 1 then (v1.(rx := v1.rx + data), Fragment)
        else (v1.(rx := []), Message(v1.rx + data))
  }

  function ReceiverC(p: Prims, cap: nat): (Sess, Bytes) -> (Sess, Received) {
    (v, rec) => RecvAppC(p, v, rec, cap)
  }

  /** c receives from a and has counted d records more than a has sealed. */
  ghost predicate Ahead(a: Sess, c: Sess, d: nat) {
    c.state == Done && c.epoch == 2 && a.sendKey == c.recvKey && c.recvSeq == a.sendSeq + d
  }

  lemma SealedShape(p: Prims, a: Sess, inner: Bytes)
    requires Lawful(p) && 1 <= |inner| <= 2 + MAX_PAYLOAD
    ensures var rec := Seal(p, a, inner).1;
            Shaped(rec) && |rec| - 35 == |inner| && rec[3..] == p.seal(a.sendKey, RecNonce(a.sendSeq), inner)
  {
    TaggedParts(RT_APPLICATION, p.seal(a.sendKey, RecNonce(a.sendSeq), inner));
  }

  /** In step: a fragment gets through exactly when its plaintext has at most 1024 bytes. */
  lemma FragmentC(p: Prims, a: Sess, c: Sess, flags: byte, piece: Bytes, cap: nat)
    requires Lawful(p) && Ahead(a, c, 0) && c.rx == [] && flags <= 1 && |piece| <= MAX_PAYLOAD
    requires |piece| <= cap < WRAP64
    ensures var (a1, rec) := Seal(p, a, [RT_APPLICATION, flags] + piece);
            var (c1, got) := RecvAppC(p, c, rec, cap);
            && Ahead(a1, c1, 0)
            && got == (if |piece| > 1022 then Failed else if flags == 1 then Fragment else Message(piece))
            && (got != Fragment ==> c1.rx == [])
  {
    var inner := [RT_APPLICATION, flags] + piece;
    SealedShape(p, a, inner);
    assert inner[2..] == piece;
    assert [] + piece == piece;
  }

  /** The last piece a message is cut into. */
  function Tail(msg: Bytes): (t: Bytes)
    ensures |t| <= |msg| && (t == msg || (|msg| > MAX_PAYLOAD && |t| < |msg|))
    decreases |msg|
  {
    if |msg| <= MAX_PAYLOAD then msg else Tail(msg[MAX_PAYLOAD..])
  }

  function TailHeard(msg: Bytes): seq<Bytes> {
    if |Tail(msg)| <= 1022 then [Tail(msg)] else []
  }

  lemma RecvOne(recv: (Sess, Bytes) -> (Sess, Received), v: Sess, rec: Bytes)
    ensures var (v1, got) := recv(v, rec);
            RecvAll(recv, v, [rec]) == Outcome(v1, Whole(got), !got.Failed?)
  {
    RecvFront(recv, v, rec, []);
    assert [rec] + [] == [rec];
    assert Whole(recv(v, rec).1) + [] == Whole(recv(v, rec).1);
  }

  /** A full fragment never opens, so only the last piece of a message can be handed up. */
  lemma {:induction false} PiecesC(p: Prims, a: Sess, c: Sess, msg: Bytes, cap: nat)
    requires Lawful(p) && Ahead(a, c, 0) && c.rx == [] && |msg| <= cap < WRAP64
    ensures var (a2, recs) := SendPieces(p, a, msg);
            var got := RecvAll(ReceiverC(p, cap), c, recs);
            && Ahead(a2, got.sess, 0) && got.sess.rx == []
            && got.msgs == TailHeard(msg) && (got.ok <==> |msg| <= 1022)
    decreases |msg|
  {
    if |msg| <= MAX_PAYLOAD {
      FragmentC(p, a, c, 0, msg, cap);
      RecvOne(ReceiverC(p, cap), c, Seal(p, a, [RT_APPLICATION, 0] + msg).1);
    } else {
      var piece, rest := msg[..MAX_PAYLOAD], msg[MAX_PAYLOAD..];
      FragmentC(p, a, c, 1, piece, cap);
      var (a1, rec) := Seal(p, a, [RT_APPLICATION, 1] + piece);
      var c1 := RecvAppC(p, c, rec, cap).0;
      PiecesC(p, a1, c1, rest, cap);
      SendPiecesFront(p, a, msg);
      RecvFront(ReceiverC(p, cap), c, rec, SendPieces(p, a1, rest).1);
      assert [] + TailHeard(rest) == TailHeard(rest);
    }
  }

  /** A C receiver hands a message up exactly when it has at most 1022 bytes. */
  lemma ReceivesExactly(p: Prims, a: Sess, c: Sess, msg: Bytes, cap: nat)
    requires Lawful(p) && Ahead(a, c, 0) && c.rx == [] && a.state == Done
    requires 0 < |msg| <= MAX_MSG && |msg| <= cap < WRAP64
    ensures var got := RecvAll(ReceiverC(p, cap), c, SendApp(p, a, msg).1.value);
            (got.msgs == [msg] <==> |msg| <= 1022) && (got.ok <==> |msg| <= 1022)
  {
    PiecesC(p, a, c, msg, cap);
    assert TailHeard(msg) == [msg] ==> Tail(msg) == msg by {
      if TailHeard(msg) == [msg] {
        assert TailHeard(msg)[0] == msg;
      }
    }
  }

  /** What is heard of a list of messages: the last pieces that are short enough. */
  function Heard(msgs: seq<Bytes>): seq<Bytes> {
    if msgs == [] then [] else TailHeard(msgs[0]) + Heard(msgs[1..])
  }

  ghost predicate AllShort(msgs: seq<Bytes>) {
    forall i :: 0 <= i < |msgs| ==> |msgs[i]| <= 1022
  }

  /** For every list of messages, what a C receiver hands up; no failure exactly when all
      have at most 1022 bytes, and then it is that list. */
  lemma {:induction false} MessagesArriveC(p: Prims, a: Sess, c: Sess, msgs: seq<Bytes>, cap: nat)
    requires Lawful(p) && Ahead(a, c, 0) && c.rx == [] && a.state == Done && cap < WRAP64
    requires forall m :: m in msgs ==> 0 < |m| <= MAX_MSG && |m| <= cap
    ensures var got := RecvAll(ReceiverC(p, cap), c, SendAll(p, a, msgs).1);
            && Ahead(SendAll(p, a, msgs).0, got.sess, 0) && got.sess.rx == []
            && got.msgs == Heard(msgs) && (got.ok <==> AllShort(msgs)) && (got.ok ==> got.msgs == msgs)
    decreases |msgs|
  {
    if msgs != [] {
      var m, more := msgs[0], msgs[1..];
      assert m in msgs && msgs == [m] + more;
      PiecesC(p, a, c, m, cap);
      PiecesKeepDone(p, a, m);
      var (a1, recs) := SendPieces(p, a, m);
      var c1 := RecvAll(ReceiverC(p, cap), c, recs).sess;
      MessagesArriveC(p, a1, c1, more, cap);
      SendAllFront(p, a, msgs);
      RecvAppend(ReceiverC(p, cap), c, recs, SendAll(p, a1, more).1);
      AllShortFront(m, more);
    }
  }

  lemma AllShortFront(m: Bytes, more: seq<Bytes>)
    ensures AllShort([m] + more) <==> |m| <= 1022 && AllShort(more)
  {
    if AllShort([m] + more) {
      assert ([m] + more)[0] == m;
      assert forall i :: 0 <= i < |more| ==> more[i] == ([m] + more)[i + 1];
    }
  }

  // ---- one forged record ---------------------------------------------------------------------------

  /** A box opens under no nonce of 24 bytes but its own. */
  ghost predicate Binding(p: Prims) {
    forall k, n, m, n2 :: |n| == |n2| == 24 && n != n2 ==> p.open(k, n2, p.seal(k, n, m)) == None
  }

  function NonceFirst(n: Bytes, m: Bytes): (box: Bytes)
    ensures |box| == |m| + 32 && box[32..] == m && (|n| == 24 ==> box[..24] == n)
  {
    if |n| == 24 then n + Zeros(8) + m else Zeros(32) + m
  }

  /** Primitives that keep the laws and hide nothing. */
  function Transparent(): Prims {
    Prims(k => Zeros(32), (a, b) => Zeros(32), (a, b) => Zeros(64), a => Zeros(64), k => k, (k, m) => Zeros(64),
          (k, m, g) => true, (k: Key32, n: Bytes, m: Bytes) => NonceFirst(n, m),
          (k: Key32, n: Bytes, box: Bytes) =>
            if |box| < 32 || (|n| == 24 && box[..24] != n) then None else Some(box[32..]))
  }

  /** The laws do not contradict each other. */
  lemma LawsTogether()
    ensures Lawful(Transparent()) && Binding(Transparent())
  {
  }

  lemma {:induction false} DigitsDetermine(x: nat, y: nat, n: nat)
    requires ToBigEndian(x, n) == ToBigEndian(y, n)
    ensures Pow(256, n) > 0 && x % Pow(256, n) == y % Pow(256, n)
    decreases n
  {
    PowPositive(256, n);
    if n > 0 {
      var s, t := ToBigEndian(x, n), ToBigEndian(y, n);
      assert s[..n - 1] == ToBigEndian(x / 256, n - 1) && t[..n - 1] == ToBigEndian(y / 256, n - 1);
      assert s[n - 1] == x % 256 && t[n - 1] == y % 256;
      DigitsDetermine(x / 256, y / 256, n - 1);
      PowPositive(256, n - 1);
      SplitMod(x, Pow(256, n - 1));
      SplitMod(y, Pow(256, n - 1));
    }
  }

  lemma SplitMod(x: nat, w: int)
    requires w > 0
    ensures x % (256 * w) == 256 * ((x / 256) % w) + x % 256
  {
    var q, r := (x / 256) / w, (x / 256) % w;
    assert x / 256 == q * w + r;
    assert x == q * (256 * w) + (256 * r + x % 256) by {
      assert 256 * (q * w) == q * (256 * w);
    }
    ModArith.ModUnique(x, q, 256 * r + x % 256, 256 * w);
  }

  lemma NoncesDiffer(n: nat, d: nat)
    requires 0 < d < WRAP64
    ensures RecNonce(n) != RecNonce(n + d)
  {
    if RecNonce(n) == RecNonce(n + d) {
      assert RecNonce(n)[..8] == ToBigEndian(n, 8) && RecNonce(n + d)[..8] == ToBigEndian(n + d, 8);
      DigitsDetermine(n, n + d, 8);
      Pow256To8();
      assert false;
    }
  }

  /** Out of step, a genuine record fails and leaves the receiver as far ahead as before. */
  lemma Missed(p: Prims, a: Sess, c: Sess, d: nat, inner: Bytes, cap: nat)
    requires Lawful(p) && Binding(p) && Ahead(a, c, d) && 0 < d < WRAP64 && 1 <= |inner| <= 2 + MAX_PAYLOAD
    ensures var (a1, rec) := Seal(p, a, inner);
            var (c1, got) := RecvAppC(p, c, rec, cap);
            got == Failed && Ahead(a1, c1, d)
  {
    SealedShape(p, a, inner);
    NoncesDiffer(a.sendSeq, d);
  }

  /** Nothing gets through any more. */
  ghost predicate Deaf(a: Sess, got: Outcome, d: nat, some: bool) {
    got.msgs == [] && Ahead(a, got.sess, d) && (some ==> !got.ok)
  }

  lemma {:induction false} MissedPieces(p: Prims, a: Sess, c: Sess, d: nat, msg: Bytes, cap: nat)
    requires Lawful(p) && Binding(p) && Ahead(a, c, d) && 0 < d < WRAP64
    ensures Deaf(SendPieces(p, a, msg).0, RecvAll(ReceiverC(p, cap), c, SendPieces(p, a, msg).1), d, true)
    decreases |msg|
  {
    if |msg| <= MAX_PAYLOAD {
      Missed(p, a, c, d, [RT_APPLICATION, 0] + msg, cap);
      RecvOne(ReceiverC(p, cap), c, Seal(p, a, [RT_APPLICATION, 0] + msg).1);
    } else {
      var inner := [RT_APPLICATION, 1] + msg[..MAX_PAYLOAD];
      Missed(p, a, c, d, inner, cap);
      var (a1, rec) := Seal(p, a, inner);
      MissedPieces(p, a1, RecvAppC(p, c, rec, cap).0, d, msg[MAX_PAYLOAD..], cap);
      SendPiecesFront(p, a, msg);
      RecvFront(ReceiverC(p, cap), c, rec, SendPieces(p, a1, msg[MAX_PAYLOAD..]).1);
    }
  }

  lemma {:induction false} MissedAll(p: Prims, a: Sess, c: Sess, d: nat, msgs: seq<Bytes>, cap: nat)
    requires Lawful(p) && Binding(p) && Ahead(a, c, d) && 0 < d < WRAP64 && a.state == Done
    requires forall m :: m in msgs ==> 0 < |m| <= MAX_MSG
    ensures Deaf(SendAll(p, a, msgs).0, RecvAll(ReceiverC(p, cap), c, SendAll(p, a, msgs).1), d, msgs != [])
    decreases |msgs|
  {
    if msgs != [] {
      var m, more := msgs[0], msgs[1..];
      assert m in msgs;
      MissedPieces(p, a, c, d, m, cap);
      PiecesKeepDone(p, a, m);
      var (a1, recs) := SendPieces(p, a, m);
      var c1 := RecvAll(ReceiverC(p, cap), c, recs).sess;
      MissedAll(p, a1, c1, d, more, cap);
      SendAllFront(p, a, msgs);
      RecvAppend(ReceiverC(p, cap), c, recs, SendAll(p, a1, more).1);
    }
  }

  lemma {:induction false} PiecesKeepDone(p: Prims, a: Sess, msg: Bytes)
    ensures SendPieces(p, a, msg).0.state == a.state
    decreases |msg|
  {
    if |msg| > MAX_PAYLOAD {
      PiecesKeepDone(p, Seal(p, a, [RT_APPLICATION, 1] + msg[..MAX_PAYLOAD]).0, msg[MAX_PAYLOAD..]);
    }
  }

  /** One forged record that passes the length checks: the Python receiver still gets every
      later message, the C receiver none, ever. */
  lemma OneForgedRecord(p: Prims, a: Sess, b: Sess, forged: Bytes, msgs: seq<Bytes>, cap: nat)
    requires Lawful(p) && Binding(p) && Joined(a, b) && b.rx == [] && b.epoch == 2
    requires Shaped(forged) && p.open(b.recvKey, RecNonce(b.recvSeq), forged[3..]) == None
    requires forall m :: m in msgs ==> 0 < |m| <= MAX_MSG
    ensures RecvApp(p, b, forged) == (b, Failed)
    ensures Arrived(SendAll(p, a, msgs).0, RecvAll(Receiver(p), RecvApp(p, b, forged).0, SendAll(p, a, msgs).1), msgs)
    ensures RecvAll(ReceiverC(p, cap), RecvAppC(p, b, forged, cap).0, SendAll(p, a, msgs).1).msgs == []
  {
    MessagesArrive(p, a, b, msgs);
    var c := RecvAppC(p, b, forged, cap).0;
    assert Ahead(a, c, 1);
    MissedAll(p, a, c, 1, msgs, cap);
  }
}
