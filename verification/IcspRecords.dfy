/** bTLS records over an ICSP stream: what one delivery hands to the session. */
module IcspRecords {
  import opened Machine
  import opened Octets
  import opened Wrappers
  import opened IcspSession
  import opened IcspRun
  import opened IcspComplete
  import Btls
  import BtlsC
  import BtlsLockstep
  import BtlsMessages

  // ---- what a delivery hands up ------------------------------------------------------------

  /** The messages that the chunk c delivers when it arrives at q. */
  function Batch(p: Peer, q: Peer, sid: StreamId): seq<Bytes>
    requires RecvSeq(q, sid) as int + RunLength(q.view, sid) <= |SentOn(p, sid)|
  {
    SentOn(p, sid)[RecvSeq(q, sid)..RecvSeq(q, sid) as int + RunLength(q.view, sid)]
  }

  lemma BatchIsRun(p: Peer, q: Peer, sid: StreamId)
    requires Flow(p, q, sid) && RecvSeq(q, sid) as int < |SentOn(p, sid)|
    ensures RecvSeq(q, sid) as int + RunLength(q.view, sid) <= |SentOn(p, sid)|
    ensures var r := RecvSeq(q, sid) as int;
            Batch(p, q, sid) == [SentOn(p, sid)[r]] + Drained(BufOf(q.view, sid), r + 1)
  {
    RunIsStretch(SentOn(p, sid), RecvSeq(q, sid), BufOf(q.view, sid));
  }

  /** A delivery hands up the join of the next message and of all that waited behind it. */
  lemma HandsUp(p: Peer, q: Peer, assoc: int, c: Chunk)
    requires c.Data? && q.recvKey == p.sendKey && Flow(p, q, c.sid)
    requires c.box.Junk? || c.box.key != q.recvKey || Honest(p, c.box)
    requires Receive(q.view, q.recvKey, assoc, c).1.Delivered?
    ensures RecvSeq(q, c.sid) as int + RunLength(q.view, c.sid) <= |SentOn(p, c.sid)|
    ensures Receive(q.view, q.recvKey, assoc, c).1 == Delivered(c.sid, Concat(Batch(p, q, c.sid)))
  {
    DeliverShape(q.view, q.recvKey, assoc, c);
    BatchIsRun(p, q, c.sid);
  }

  lemma {:induction false} JoinGrows(m: Bytes, more: seq<Bytes>)
    requires forall i :: 0 <= i < |more| ==> more[i] != []
    ensures m <= Concat([m] + more) && (Concat([m] + more) == m <==> more == [])
    decreases |more|
  {
    if more == [] {
      assert [m] + more == [m] && [m][..0] == [];
      assert Concat([m]) == Concat([]) + m;
    } else {
      var n := |more| - 1;
      JoinGrows(m, more[..n]);
      assert ([m] + more)[..|[m] + more| - 1] == [m] + more[..n];
      assert |Concat([m] + more)| == |Concat([m] + more[..n])| + |more[n]|;
    }
  }

  /** The stretch a delivery hands up is one message exactly when nothing waits behind it. */
  lemma BatchIsOne(p: Peer, q: Peer, sid: StreamId)
    requires RecvSeq(q, sid) as int + RunLength(q.view, sid) <= |SentOn(p, sid)|
    requires forall i :: 0 <= i < |SentOn(p, sid)| ==> SentOn(p, sid)[i] != []
    ensures var m := SentOn(p, sid)[RecvSeq(q, sid)];
            m <= Concat(Batch(p, q, sid)) && (Concat(Batch(p, q, sid)) == m <==> RunLength(q.view, sid) == 1)
  {
    var batch := Batch(p, q, sid);
    assert batch == [batch[0]] + batch[1..];
    JoinGrows(batch[0], batch[1..]);
  }

  /** Nothing waits behind the next message exactly when the one after it has not been accepted. */
  lemma AloneExactly(q: Peer, sid: StreamId, seen: set<(StreamId, StreamSeq)>)
    requires Accounted(q, sid, seen) && RecvSeq(q, sid) < 0xFFFF
    ensures RunLength(q.view, sid) == 1 <==> (sid, (RecvSeq(q, sid) as int + 1) as StreamSeq) !in seen
  {
    var next: StreamSeq := RecvSeq(q, sid) as int + 1;
    assert (sid, next) in seen <==> next < RecvSeq(q, sid) || next as int in BufOf(q.view, sid);
  }

  /** What one delivery hands up, given what was accepted before it. */
  lemma DeliveryHandsUp(p: Peer, q: Peer, assoc: int, c: Chunk, seen: set<(StreamId, StreamSeq)>)
    requires c.Data? && q.recvKey == p.sendKey && Flow(p, q, c.sid) && Accounted(q, c.sid, seen)
    requires c.box.Junk? || c.box.key != q.recvKey || Honest(p, c.box)
    requires forall i :: 0 <= i < |SentOn(p, c.sid)| ==> SentOn(p, c.sid)[i] != []
    requires Receive(q.view, q.recvKey, assoc, c).1.Delivered?
    ensures var r, sent := RecvSeq(q, c.sid) as int, SentOn(p, c.sid);
            && r + RunLength(q.view, c.sid) <= |sent| < 0x1_0000
            && Receive(q.view, q.recvKey, assoc, c).1 == Delivered(c.sid, Concat(Batch(p, q, c.sid)))
            && sent[r] <= Concat(Batch(p, q, c.sid))
            && (Concat(Batch(p, q, c.sid)) == sent[r] <==> (c.sid, (r + 1) as StreamSeq) !in seen)
  {
    HandsUp(p, q, assoc, c);
    BatchIsOne(p, q, c.sid);
    AloneExactly(q, c.sid, seen);
  }

  /** In every run, when a chunk delivers: the payload handed up is the next message alone if
      and only if the message after it was not accepted before; otherwise it is a join. */
  lemma OneMessageExactly(w: World, steps: seq<Step>, c: Chunk)
    requires Start(w) && Runs(w, steps) && c.Data? && Known(After(w, steps), c.box)
    requires forall i :: 0 <= i < |SentOn(After(w, steps).a, c.sid)| ==> SentOn(After(w, steps).a, c.sid)[i] != []
    requires Receive(After(w, steps).b.view, w.b.recvKey, w.assoc, c).1.Delivered?
    ensures var e := After(w, steps);
            var r, sent := RecvSeq(e.b, c.sid) as int, SentOn(e.a, c.sid);
            && r + RunLength(e.b.view, c.sid) <= |sent| < 0x1_0000
            && Receive(e.b.view, w.b.recvKey, w.assoc, c).1 == Delivered(c.sid, Concat(Batch(e.a, e.b, c.sid)))
            && sent[r] <= Concat(Batch(e.a, e.b, c.sid))
            && (Concat(Batch(e.a, e.b, c.sid)) == sent[r] <==> (c.sid, (r + 1) as StreamSeq) !in Seen(w, steps))
  {
    var e := After(w, steps);
    RunKeeps(w, steps);
    KeysKept(w, steps);
    RunAccounts(w, steps, c.sid);
    assert Flow(e.a, e.b, c.sid);
    DeliveryHandsUp(e.a, e.b, w.assoc, c, Seen(w, steps));
  }

  lemma {:induction false} KeysKept(w: World, steps: seq<Step>)
    requires Runs(w, steps)
    ensures After(w, steps).b.recvKey == w.b.recvKey
    decreases |steps|
  {
    if steps != [] {
      KeysKept(w, steps[..|steps| - 1]);
    }
  }

  // ---- records ---------------------------------------------------------------------------

  /** The length field of a record covers exactly what follows it. */
  predicate Framed(m: Bytes) {
    |m| >= 3 && |m| == 3 + BigEndian(m[1..3])
  }

  /** Everything a session sends is framed. */
  lemma {:induction false} PiecesFramed(p: Btls.Prims, v: Btls.Sess, msg: Bytes)
    requires BtlsLockstep.Lawful(p)
    ensures forall r :: r in Btls.SendPieces(p, v, msg).1 ==> Framed(r)
    decreases |msg|
  {
    if |msg| <= Btls.MAX_PAYLOAD {
      SealFramed(p, v, [Btls.RT_APPLICATION, 0] + msg);
    } else {
      var inner := [Btls.RT_APPLICATION, 1] + msg[..Btls.MAX_PAYLOAD];
      SealFramed(p, v, inner);
      PiecesFramed(p, Btls.Seal(p, v, inner).0, msg[Btls.MAX_PAYLOAD..]);
    }
  }

  lemma SealFramed(p: Btls.Prims, v: Btls.Sess, inner: Bytes)
    requires BtlsLockstep.Lawful(p) && |inner| <= 2 + Btls.MAX_PAYLOAD
    ensures Framed(Btls.Seal(p, v, inner).1)
  {
    Btls.TaggedParts(Btls.RT_APPLICATION, p.seal(v.sendKey, Btls.RecNonce(v.sendSeq), inner));
  }

  /** The hellos and the sealed handshake frames are framed too. */
  lemma HandshakeFramed(p: Btls.Prims, v: Btls.Sess)
    requires BtlsLockstep.Lawful(p)
    ensures Btls.ClientStart(p, v).1.Some? ==> Framed(Btls.ClientStart(p, v).1.value)
    ensures Btls.Pump(p, v).1.Some? ==> Framed(Btls.Pump(p, v).1.value)
  {
    Btls.TaggedParts(Btls.RT_HANDSHAKE, Btls.Tagged(Btls.HS_CLIENT_HELLO, v.random + v.ephPub));
    Btls.TaggedParts(Btls.RT_HANDSHAKE, Btls.Tagged(Btls.HS_SERVER_HELLO, v.random + v.ephPub));
    SealFramed(p, v, [Btls.RT_HANDSHAKE] + Btls.Tagged(Btls.HS_CERTIFICATE, p.pub(v.seed)));
    var digest := Btls.CertDigest(p, v.transcript);
    SealFramed(p, v, [Btls.RT_HANDSHAKE] + Btls.Tagged(Btls.HS_CERTIFICATE_VERIFY, p.sign(v.seed, digest)));
    SealFramed(p, v, [Btls.RT_HANDSHAKE] + Btls.Tagged(Btls.HS_FINISHED, Btls.Kdf(p, v.prk, "btls-fin-s", v.transcript)));
    SealFramed(p, v, [Btls.RT_HANDSHAKE] + Btls.Tagged(Btls.HS_FINISHED, Btls.Kdf(p, v.prk, "btls-fin-c", v.transcript)));
  }

  /** A session refuses a string that is not one framed record, and is left as it was. */
  lemma UnframedRefused(p: Btls.Prims, v: Btls.Sess, rec: Bytes)
    requires !Framed(rec)
    ensures Btls.Feed(p, v, rec) == (v, -1) && Btls.RecvApp(p, v, rec) == (v, Btls.Failed)
  {
  }

  /** Records over a run: what a delivery hands up is one record, the next one, if and only if
      the record after it was not accepted before; otherwise any session refuses it. */
  lemma RecordExactly(w: World, steps: seq<Step>, c: Chunk, p: Btls.Prims, v: Btls.Sess)
    requires Start(w) && Runs(w, steps) && c.Data? && Known(After(w, steps), c.box)
    requires forall i :: 0 <= i < |SentOn(After(w, steps).a, c.sid)| ==> Framed(SentOn(After(w, steps).a, c.sid)[i])
    requires Receive(After(w, steps).b.view, w.b.recvKey, w.assoc, c).1.Delivered?
    ensures var e := After(w, steps);
            var data := Receive(e.b.view, w.b.recvKey, w.assoc, c).1.data;
            var r := RecvSeq(e.b, c.sid) as int;
            && r < |SentOn(e.a, c.sid)| && r < 0xFFFF
            && (Framed(data) <==> (c.sid, (r + 1) as StreamSeq) !in Seen(w, steps))
            && (Framed(data) ==> data == SentOn(e.a, c.sid)[r])
            && (!Framed(data) ==> Btls.Feed(p, v, data) == (v, -1) && Btls.RecvApp(p, v, data) == (v, Btls.Failed))
  {
    var e := After(w, steps);
    var s := SentOn(e.a, c.sid);
    forall i | 0 <= i < |s|
      ensures s[i] != []
    {
      assert Framed(s[i]);
    }
    OneMessageExactly(w, steps, c);
    var data := Receive(e.b.view, w.b.recvKey, w.assoc, c).1.data;
    LongerUnframed(s[RecvSeq(e.b, c.sid)], data);
    if !Framed(data) {
      UnframedRefused(p, v, data);
    }
  }

  lemma LongerUnframed(m: Bytes, data: Bytes)
    requires Framed(m) && m <= data
    ensures Framed(data) <==> data == m
  {
    assert data[1..3] == m[1..3];
  }

  // ---- a lost record is never made up for -----------------------------------------------------------

  /** b receives from a and d records were sealed that it never opened. */
  ghost predicate Behind(a: Btls.Sess, b: Btls.Sess, d: nat) {
    a.state == b.state == Btls.Done && a.sendKey == b.recvKey && a.sendSeq == b.recvSeq + d
  }

  lemma Unheard(p: Btls.Prims, a: Btls.Sess, b: Btls.Sess, d: nat, inner: Bytes)
    requires BtlsLockstep.Lawful(p) && BtlsC.Binding(p) && Behind(a, b, d) && 0 < d < WRAP64
    requires 1 <= |inner| <= 2 + Btls.MAX_PAYLOAD
    ensures var (a1, rec) := Btls.Seal(p, a, inner);
            Btls.RecvApp(p, b, rec) == (b, Btls.Failed) && Behind(a1, b, d + 1)
  {
    BtlsC.SealedShape(p, a, inner);
    BtlsC.NoncesDiffer(b.recvSeq, d);
  }

  ghost predicate Stuck(got: BtlsMessages.Outcome, b: Btls.Sess) {
    got.msgs == [] && got.sess == b
  }

  lemma {:induction false} UnheardPieces(p: Btls.Prims, a: Btls.Sess, b: Btls.Sess, d: nat, msg: Bytes)
    requires BtlsLockstep.Lawful(p) && BtlsC.Binding(p) && Behind(a, b, d) && 0 < d
    requires d + |Btls.SendPieces(p, a, msg).1| <= WRAP64
    ensures var (a2, recs) := Btls.SendPieces(p, a, msg);
            Behind(a2, b, d + |recs|) && Stuck(BtlsMessages.RecvAll(BtlsMessages.Receiver(p), b, recs), b)
    decreases |msg|
  {
    if |msg| <= Btls.MAX_PAYLOAD {
      var inner := [Btls.RT_APPLICATION, 0] + msg;
      Unheard(p, a, b, d, inner);
      BtlsC.RecvOne(BtlsMessages.Receiver(p), b, Btls.Seal(p, a, inner).1);
    } else {
      var inner := [Btls.RT_APPLICATION, 1] + msg[..Btls.MAX_PAYLOAD];
      BtlsMessages.SendPiecesFront(p, a, msg);
      Unheard(p, a, b, d, inner);
      var (a1, rec) := Btls.Seal(p, a, inner);
      UnheardPieces(p, a1, b, d + 1, msg[Btls.MAX_PAYLOAD..]);
      BtlsMessages.RecvFront(BtlsMessages.Receiver(p), b, rec, Btls.SendPieces(p, a1, msg[Btls.MAX_PAYLOAD..]).1);
    }
  }

  /** Once a record was refused in a join, no later message gets through: every list of
      messages, up to 2^64 records, ends with nothing received. */
  lemma {:induction false} LostForGood(p: Btls.Prims, a: Btls.Sess, b: Btls.Sess, d: nat, msgs: seq<Bytes>)
    requires BtlsLockstep.Lawful(p) && BtlsC.Binding(p) && Behind(a, b, d) && 0 < d
    requires forall m :: m in msgs ==> 0 < |m| <= Btls.MAX_MSG
    requires d + |BtlsMessages.SendAll(p, a, msgs).1| <= WRAP64
    ensures var (a2, recs) := BtlsMessages.SendAll(p, a, msgs);
            Behind(a2, b, d + |recs|) && Stuck(BtlsMessages.RecvAll(BtlsMessages.Receiver(p), b, recs), b)
    decreases |msgs|
  {
    if msgs != [] {
      var m, more := msgs[0], msgs[1..];
      assert m in msgs;
      BtlsMessages.SendAllFront(p, a, msgs);
      UnheardPieces(p, a, b, d, m);
      var (a1, recs) := Btls.SendPieces(p, a, m);
      LostForGood(p, a1, b, d + |recs|, more);
      BtlsMessages.RecvAppend(BtlsMessages.Receiver(p), b, recs, BtlsMessages.SendAll(p, a1, more).1);
    }
  }
}
