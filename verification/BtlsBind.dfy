/** What keys, Finished messages and signatures bind: equal values mean equal transcripts, or
    two different inputs on which the hash function collides, and those are returned. */
module BtlsBind {
  import opened Limbs
  import opened ModArith
  import opened Machine
  import opened Octets
  import opened Wrappers
  import opened Btls
  import opened BtlsPin
  import opened BtlsC

  // ---- what a derived key binds -----------------------------------------------------------

  /** Two inputs with one truncated MAC under prk. */
  ghost predicate Collide(p: Prims, prk: Bytes, a: Bytes, b: Bytes) {
    a != b && p.hmac(prk, a)[..32] == p.hmac(prk, b)[..32]
  }

  const LABELS: seq<string> := ["btls-hs-c2s", "btls-hs-s2c", "btls-app-c2s", "btls-app-s2c", "btls-fin-c", "btls-fin-s"]

  /** No label is the beginning of another. */
  lemma LabelsApart(i: nat, j: nat) returns (k: nat)
    requires i < |LABELS| && j < |LABELS| && i != j
    ensures k < |LABELS[i]| && k < |LABELS[j]| && Text(LABELS[i])[k] != Text(LABELS[j])[k]
  {
    if i / 2 != j / 2 {
      k := 5;
    } else if i < 2 {
      k := 8;
    } else {
      k := 9;
    }
  }

  lemma LabelledApart(i: nat, t: Bytes, j: nat, u: Bytes)
    requires i < |LABELS| && j < |LABELS| && i != j
    ensures Text(LABELS[i]) + t + [1] != Text(LABELS[j]) + u + [1]
  {
    var k := LabelsApart(i, j);
    assert (Text(LABELS[i]) + t + [1])[k] == Text(LABELS[i])[k];
    assert (Text(LABELS[j]) + u + [1])[k] == Text(LABELS[j])[k];
  }

  /** Equal keys of one secret: the same label over the same bytes, or a collision. */
  lemma KdfBinds(p: Prims, prk: Bytes, i: nat, t: Bytes, j: nat, u: Bytes) returns (a: Bytes, b: Bytes)
    requires i < |LABELS| && j < |LABELS| && Kdf(p, prk, LABELS[i], t) == Kdf(p, prk, LABELS[j], u)
    ensures (i == j && t == u) || Collide(p, prk, a, b)
  {
    a, b := Text(LABELS[i]) + t + [1], Text(LABELS[j]) + u + [1];
    if a == b {
      if i != j {
        LabelledApart(i, t, j, u);
        assert false;
      }
      var n := |LABELS[i]|;
      assert a[n..|a| - 1] == t && b[n..|b| - 1] == u;
    }
  }

  /** Equal digests to be signed: the same transcript, or a collision of the hash. */
  lemma CertDigestBinds(p: Prims, t: Bytes, u: Bytes) returns (a: Bytes, b: Bytes)
    requires CertDigest(p, t) == CertDigest(p, u)
    ensures a == Text("btls/1.0-cert-verify") + t && b == Text("btls/1.0-cert-verify") + u
    ensures p.sha(a) == p.sha(b) && (t == u || a != b)
  {
    var context := Text("btls/1.0-cert-verify");
    a, b := context + t, context + u;
    assert a[|context|..] == t && b[|context|..] == u;
  }

  /** Equal session secrets: the same Diffie-Hellman value, or a collision. */
  lemma PrkBinds(p: Prims, priv: Key32, peer: Key32, priv2: Key32, peer2: Key32) returns (a: Bytes, b: Bytes)
    requires SharedPrk(p, priv, peer) == SharedPrk(p, priv2, peer2)
    ensures p.dh(priv, peer) == p.dh(priv2, peer2) || (a != b && p.hmac(Text("btls-v1"), a) == p.hmac(Text("btls-v1"), b))
  {
    a, b := p.dh(priv, peer), p.dh(priv2, peer2);
  }

  /** A sealed record: type, length, and the box under the sending key and a nonce that
      starts with the counter and ends with zeros. */
  lemma SealedRecord(p: Prims, v: Sess, inner: Bytes) returns (nonce: Bytes)
    requires |p.seal(v.sendKey, RecNonce(v.sendSeq), inner)| < 0x1_0000
    ensures var (v2, rec) := Seal(p, v, inner);
            && v2 == v.(sendSeq := v.sendSeq + 1)
            && |nonce| == 24 && BigEndian(nonce[..8]) == v.sendSeq % WRAP64 && (forall k :: 8 <= k < 24 ==> nonce[k] == 0)
            && |rec| >= 3 && rec[0] == 1 && BigEndian(rec[1..3]) == |rec| - 3 && rec[3..] == p.seal(v.sendKey, nonce, inner)
  {
    nonce := RecNonce(v.sendSeq);
    TaggedParts(RT_APPLICATION, p.seal(v.sendKey, nonce, inner));
    assert nonce[..8] == ToBigEndian(v.sendSeq, 8);
    LowBytesOf(v.sendSeq, 8);
    Pow256To8();
  }

  lemma {:induction false} LowBytesOf(x: nat, n: nat)
    ensures Pow(256, n) > 0 && BigEndian(ToBigEndian(x, n)) == x % Pow(256, n)
    decreases n
  {
    PowPositive(256, n);
    if n > 0 {
      var s := ToBigEndian(x, n);
      assert s[..|s| - 1] == ToBigEndian(x / 256, n - 1);
      LowBytesOf(x / 256, n - 1);
      SplitMod(x, Pow(256, n - 1));
    }
  }

  // ---- what a session holds ---------------------------------------------------------------

  /** The keys are the first 32 bytes of the MAC of label, transcript and a one byte; the client
      sends with the first, the server with the second. */
  ghost predicate KeysFrom(p: Prims, v: Sess, c2s: string, s2c: string, t: Bytes) {
    var kc, ks := p.hmac(v.prk, Text(c2s) + t + [1])[..32], p.hmac(v.prk, Text(s2c) + t + [1])[..32];
    if v.role == Client then v.sendKey == kc && v.recvKey == ks else v.sendKey == ks && v.recvKey == kc
  }

  /** The frame at at holds such a MAC of everything before it. */
  ghost predicate MacAt(p: Prims, v: Sess, fin: string, at: nat)
    requires at + 35 <= |v.transcript|
  {
    v.transcript[at + 3..at + 35] == p.hmac(v.prk, Text(fin) + v.transcript[..at] + [1])[..32]
  }

  /** Keys of the epoch, and what the session itself put into its Finished. */
  ghost predicate Traced(p: Prims, v: Sess) {
    && Measured(v)
    && (v.epoch == 1 ==> |v.transcript| >= 134 && KeysFrom(p, v, "btls-hs-c2s", "btls-hs-s2c", v.transcript[..134]))
    && (v.epoch == 2 ==> KeysFrom(p, v, "btls-app-c2s", "btls-app-s2c", v.transcript))
    && (v.role == Server && |v.transcript| >= 271 ==> MacAt(p, v, "btls-fin-s", 236))
    && (v.role == Client && |v.transcript| >= 306 ==> MacAt(p, v, "btls-fin-c", 271))
  }

  /** A frame more, the secret and the role the same. */
  lemma MacStays(p: Prims, v: Sess, v2: Sess, frame: Bytes, fin: string, at: nat)
    requires v2.transcript == v.transcript + frame && v2.prk == v.prk && at + 35 <= |v.transcript|
    ensures MacAt(p, v2, fin, at) <==> MacAt(p, v, fin, at)
  {
    assert v2.transcript[at + 3..at + 35] == v.transcript[at + 3..at + 35] && v2.transcript[..at] == v.transcript[..at];
  }

  lemma MacMade(p: Prims, v: Sess, v2: Sess, fin: string)
    requires v2.transcript == v.transcript + Tagged(HS_FINISHED, Kdf(p, v.prk, fin, v.transcript)) && v2.prk == v.prk
    ensures |v2.transcript| == |v.transcript| + 35 && MacAt(p, v2, fin, |v.transcript|)
  {
    var t, mac := v.transcript, Kdf(p, v.prk, fin, v.transcript);
    var frame := Tagged(HS_FINISHED, mac);
    TaggedParts(HS_FINISHED, mac);
    assert v2.transcript[..|t|] == t;
    assert v2.transcript[|t| + 3..|t| + 35] == frame[3..];
  }

  /** A frame taken in during the handshake. */
  lemma FrameTraced(p: Prims, v: Sess, v2: Sess, frame: Bytes)
    requires Traced(p, v) && v.epoch == 1 && v2.epoch == 1 && Measured(v2) && v.role == Client == v2.role
    requires v2.transcript == v.transcript + frame && v2.prk == v.prk && v2.sendKey == v.sendKey && v2.recvKey == v.recvKey
    ensures Traced(p, v2)
  {
    assert v2.transcript[..134] == v.transcript[..134];
  }

  lemma ClientFrameTraced(p: Prims, v: Sess, frame: Bytes)
    requires Traced(p, v) && v.role == Client && v.epoch > 0
    ensures Traced(p, FeedFrame(p, v, frame).0)
  {
    var v2 := FeedFrame(p, v, frame).0;
    MeasuredFrame(p, TH_BUF, v, frame);
    if v2.transcript != v.transcript {
      CutWhole(p, v, frame);
      FrameTraced(p, v, v2, frame);
    }
  }

  lemma CutWhole(p: Prims, v: Sess, frame: Bytes)
    requires Measured(v) && v.epoch > 0
    ensures Measured(FeedFrame(p, v, frame).0)
  {
    if |frame| >= 3 && 3 + BigEndian(frame[1..3]) == |frame| {
      SameFrame(p, v, frame);
      MeasuredFrame(p, TH_BUF, v, frame);
    }
  }

  lemma ServerFrameTraced(p: Prims, v: Sess, frame: Bytes)
    requires Traced(p, v) && v.role == Server && v.epoch > 0
    ensures Traced(p, FeedFrame(p, v, frame).0)
  {
    var v2 := FeedFrame(p, v, frame).0;
    if v2 != v {
      MacStays(p, v, v2, frame, "btls-fin-s", 236);
    }
  }

  lemma FrameKeepsTrace(p: Prims, v: Sess, frame: Bytes)
    requires Traced(p, v) && v.epoch > 0
    ensures Traced(p, FeedFrame(p, v, frame).0)
  {
    if v.role == Client {
      ClientFrameTraced(p, v, frame);
    } else {
      ServerFrameTraced(p, v, frame);
    }
  }

  lemma PlainKeepsTrace(p: Prims, v: Sess, rec: Bytes)
    requires Traced(p, v) && |rec| >= 3 && v.epoch == 0
    ensures Traced(p, FeedPlain(p, v, rec).0)
  {
    var v2 := FeedPlain(p, v, rec).0;
    if v2.epoch == 1 {
      assert v2.transcript[..134] == v2.transcript;
    }
  }

  lemma PlainKeepsTraceC(p: Prims, v: Sess, rec: Bytes)
    requires Traced(p, v) && |rec| >= 3 && v.epoch == 0
    ensures Traced(p, FeedPlainC(p, TH_BUF, v, rec).0)
  {
    var v2 := FeedPlainC(p, TH_BUF, v, rec).0;
    if v2.epoch == 1 {
      assert v2.transcript[..134] == v2.transcript;
    }
  }

  lemma ServerPumpTraced(p: Prims, v: Sess)
    requires Traced(p, v) && v.role == Server
    ensures Traced(p, Pump(p, v).0)
  {
    var v2 := Pump(p, v).0;
    if v.state == Handshake && v.epoch == 0 {
      assert v2.transcript[..134] == v2.transcript;
    } else if v.state == Handshake && v.want == HS_FINISHED {
      MacMade(p, v, v2, "btls-fin-s");
      assert v2.transcript[..134] == v.transcript[..134];
    } else if v.state == Handshake {
      assert v2.transcript[..134] == v.transcript[..134];
    }
  }

  lemma ClientPumpTraced(p: Prims, v: Sess)
    requires Traced(p, v) && v.role == Client
    ensures Traced(p, Pump(p, v).0)
  {
    if v.state == Handshake && v.want == 0 {
      MacMade(p, v, Pump(p, v).0, "btls-fin-c");
    }
  }

  lemma PumpKeepsTrace(p: Prims, v: Sess)
    requires Traced(p, v)
    ensures Traced(p, Pump(p, v).0)
  {
    if v.role == Client {
      ClientPumpTraced(p, v);
    } else {
      ServerPumpTraced(p, v);
    }
  }

  lemma CounterTraced(p: Prims, v: Sess, n: nat)
    requires Traced(p, v)
    ensures Traced(p, v.(recvSeq := n))
  {
  }

  lemma FeedKeepsTrace(p: Prims, v: Sess, rec: Bytes)
    requires Traced(p, v)
    ensures Traced(p, Feed(p, v, rec).0)
  {
    if |rec| >= 3 && v.epoch == 0 {
      PlainKeepsTrace(p, v, rec);
    } else if |rec| >= 3 {
      match Btls.Open(p, v, rec)
      case None =>
      case Some((v1, inner)) =>
        CounterTraced(p, v, v.recvSeq + 1);
        if inner != [] {
          FrameKeepsTrace(p, v1, inner[1..]);
        }
    }
  }

  lemma BytesKeepTrace(p: Prims, v: Sess, bytes: Bytes)
    requires Traced(p, v) && v.epoch > 0
    ensures Traced(p, FeedFrameC(p, TH_BUF, v, bytes).0)
  {
    if |bytes| >= 3 && 3 + BigEndian(bytes[1..3]) <= |bytes| {
      CutFrame(p, v, bytes);
      FrameKeepsTrace(p, v, bytes[..3 + BigEndian(bytes[1..3])]);
    }
  }

  lemma FeedKeepsTraceC(p: Prims, v: Sess, rec: Bytes)
    requires Traced(p, v)
    ensures Traced(p, FeedC(p, TH_BUF, v, rec).0)
  {
    if |rec| >= 3 && v.epoch == 0 {
      PlainKeepsTraceC(p, v, rec);
    } else if |rec| >= 3 {
      var (v1, inner) := OpenC(p, v, rec);
      CounterTraced(p, v, v1.recvSeq);
      if inner.Some? && inner.value != [] {
        BytesKeepTrace(p, v1, inner.value[1..]);
      }
    }
  }

  lemma StartTraced(p: Prims, v: Sess)
    requires Traced(p, v)
    ensures Traced(p, ClientStart(p, v).0)
  {
  }

  lemma {:induction false} RunTraced(p: Prims, v: Sess, calls: seq<Call>)
    requires New(p, v)
    ensures Traced(p, BtlsPin.After(p, v, calls))
    decreases |calls|
  {
    if calls != [] {
      var before, call := BtlsPin.After(p, v, calls[..|calls| - 1]), calls[|calls| - 1];
      RunTraced(p, v, calls[..|calls| - 1]);
      match call
      case CallStart => StartTraced(p, before);
      case CallFeed(rec) => FeedKeepsTrace(p, before, rec);
      case CallPump => PumpKeepsTrace(p, before);
    }
  }

  lemma {:induction false} RunTracedC(p: Prims, v: Sess, calls: seq<Call>)
    requires New(p, v)
    ensures Traced(p, AfterC(p, TH_BUF, v, calls))
    decreases |calls|
  {
    if calls != [] {
      var before, call := AfterC(p, TH_BUF, v, calls[..|calls| - 1]), calls[|calls| - 1];
      RunTracedC(p, v, calls[..|calls| - 1]);
      match call
      case CallStart =>
        assert StartC(p, TH_BUF, before) == ClientStart(p, before);
        StartTraced(p, before);
      case CallFeed(rec) => FeedKeepsTraceC(p, before, rec);
      case CallPump =>
        SamePump(p, before);
        PumpKeepsTrace(p, before);
    }
  }

  // ---- agreement ----------------------------------------------------------------------------

  /** e is what some calls make of v, under the Python rules or the C rules. */
  ghost predicate Reached(p: Prims, v: Sess, e: Sess) {
    exists calls: seq<Call> :: e == BtlsPin.After(p, v, calls) || e == AfterC(p, TH_BUF, v, calls)
  }

  /** Whatever was fed: the keys and the own Finished of a session are those MACs. */
  lemma ReachedTraced(p: Prims, v: Sess, e: Sess)
    requires New(p, v) && Reached(p, v, e)
    ensures Traced(p, e)
  {
    var calls: seq<Call> :| e == BtlsPin.After(p, v, calls) || e == AfterC(p, TH_BUF, v, calls);
    RunTraced(p, v, calls);
    RunTracedC(p, v, calls);
  }

  lemma ReachedClient(p: Prims, v: Sess, e: Sess)
    requires New(p, v) && v.role == Client && Reached(p, v, e)
    ensures ClientInv(p, e)
  {
    var calls: seq<Call> :| e == BtlsPin.After(p, v, calls) || e == AfterC(p, TH_BUF, v, calls);
    ClientKeeps(p, v, calls);
    ClientKeepsC(p, v, calls);
  }

  lemma ReachedServer(p: Prims, v: Sess, e: Sess)
    requires New(p, v) && v.role == Server && Reached(p, v, e)
    ensures ServerInv(p, e)
  {
    var calls: seq<Call> :| e == BtlsPin.After(p, v, calls) || e == AfterC(p, TH_BUF, v, calls);
    ServerKeeps(p, v, calls);
    ServerKeepsC(p, v, calls);
  }

  /** A client that is done and a server that has sent its Finished, with one secret: if the
      Finished that the client accepted is the one the server sent, they agree on CH, SH, CERT
      and CV, or the MAC collides. */
  lemma ServerFinishedAgrees(p: Prims, c: Sess, s: Sess, e: Sess, f: Sess) returns (a: Bytes, b: Bytes)
    requires New(p, c) && c.role == Client && Reached(p, c, e) && e.state == Done
    requires New(p, s) && s.role == Server && Reached(p, s, f) && (f.state == WaitFinished || f.state == Done)
    requires e.prk == f.prk
    ensures |e.transcript| >= 271 && |f.transcript| >= 271
    ensures e.transcript[239..271] == f.transcript[239..271]
            ==> e.transcript[..236] == f.transcript[..236] || Collide(p, e.prk, a, b)
  {
    ReachedClient(p, c, e);
    ReachedServer(p, s, f);
    ReachedTraced(p, s, f);
    a, b := [], [];
    if e.transcript[239..271] == f.transcript[239..271] {
      assert MacAt(p, f, LABELS[5], 236);
      a, b := KdfBinds(p, e.prk, 5, e.transcript[..236], 5, f.transcript[..236]);
    }
  }

  /** Both done, with one secret: if the Finished that the server accepted is the one the client
      sent, they agree on everything before it, or the MAC collides. */
  lemma ClientFinishedAgrees(p: Prims, c: Sess, s: Sess, e: Sess, f: Sess) returns (a: Bytes, b: Bytes)
    requires New(p, c) && c.role == Client && Reached(p, c, e) && e.state == Done
    requires New(p, s) && s.role == Server && Reached(p, s, f) && f.state == Done
    requires e.prk == f.prk
    ensures |e.transcript| == |f.transcript| == 306
    ensures e.transcript[274..306] == f.transcript[274..306]
            ==> e.transcript[..271] == f.transcript[..271] || Collide(p, e.prk, a, b)
  {
    ReachedClient(p, c, e);
    ReachedTraced(p, c, e);
    ReachedServer(p, s, f);
    a, b := [], [];
    if e.transcript[274..306] == f.transcript[274..306] {
      assert MacAt(p, e, LABELS[4], 271);
      a, b := KdfBinds(p, e.prk, 4, e.transcript[..271], 4, f.transcript[..271]);
    }
  }

  /** What the keys of a session were derived over. */
  function KeyText(v: Sess): Bytes {
    if v.epoch == 1 && |v.transcript| >= 134 then v.transcript[..134] else v.transcript
  }

  /** The label of a direction in an epoch. */
  function Direction(epoch: nat, fromClient: bool): (i: nat)
    ensures i < |LABELS|
  {
    (if epoch == 1 then 0 else 2) + if fromClient then 0 else 1
  }

  lemma SendLabel(p: Prims, v: Sess)
    requires Traced(p, v) && (v.epoch == 1 || v.epoch == 2)
    ensures v.sendKey == Kdf(p, v.prk, LABELS[Direction(v.epoch, v.role == Client)], KeyText(v))
    ensures v.recvKey == Kdf(p, v.prk, LABELS[Direction(v.epoch, v.role != Client)], KeyText(v))
  {
  }

  /** Two sessions with keys and one secret, however they got there: if one sends with the key the
      other receives with, they are in one epoch, in opposite roles, with keys over the same
      transcript, or the MAC collides. */
  lemma KeysAgree(p: Prims, c: Sess, s: Sess, e: Sess, f: Sess) returns (a: Bytes, b: Bytes)
    requires New(p, c) && Reached(p, c, e) && New(p, s) && Reached(p, s, f)
    requires e.epoch > 0 && f.epoch > 0 && e.prk == f.prk
    ensures e.sendKey == f.recvKey
            ==> (e.epoch == f.epoch && e.role != f.role && KeyText(e) == KeyText(f)) || Collide(p, e.prk, a, b)
  {
    ReachedTraced(p, c, e);
    ReachedTraced(p, s, f);
    SendLabel(p, e);
    SendLabel(p, f);
    a, b := [], [];
    if e.sendKey == f.recvKey {
      a, b := KdfBinds(p, e.prk, Direction(e.epoch, e.role == Client), KeyText(e), Direction(f.epoch, f.role != Client), KeyText(f));
    }
  }
}
