/** Application messages over bTLS records, and records over ICSP packets. */
module BtlsMessages {
  import opened Machine
  import opened Octets
  import opened Wrappers
  import opened Btls
  import opened BtlsLockstep
  import IcspSession

  /** a sends to b: done, one key, counters in step. */
  ghost predicate Joined(a: Sess, b: Sess) {
    a.state == b.state == Done && a.sendKey == b.recvKey && a.sendSeq == b.recvSeq
  }

  /** The records of messages sent one after another. */
  function SendAll(p: Prims, v: Sess, msgs: seq<Bytes>): (Sess, seq<Bytes>)
    decreases |msgs|
  {
    if msgs == [] then (v, [])
    else
      var (v1, recs) := SendApp(p, v, msgs[0]);
      if recs.None? then (v1, []) else
      var (v2, more) := SendAll(p, v1, msgs[1..]);
      (v2, recs.value + more)
  }

  /** What a receiver yields over records: the messages, and whether none failed. */
  datatype Outcome = Outcome(sess: Sess, msgs: seq<Bytes>, ok: bool)

  function Whole(got: Received): seq<Bytes> {
    if got.Message? then [got.msg] else []
  }

  function RecvAll(recv: (Sess, Bytes) -> (Sess, Received), v: Sess, recs: seq<Bytes>): Outcome
    decreases |recs|
  {
    if recs == [] then Outcome(v, [], true)
    else
      var (v1, got) := recv(v, recs[0]);
      var rest := RecvAll(recv, v1, recs[1..]);
      Outcome(rest.sess, Whole(got) + rest.msgs, rest.ok && !got.Failed?)
  }

  function Receiver(p: Prims): (Sess, Bytes) -> (Sess, Received) {
    (v, rec) => RecvApp(p, v, rec)
  }

  lemma {:induction false} RecvAppend(recv: (Sess, Bytes) -> (Sess, Received), v: Sess, xs: seq<Bytes>, ys: seq<Bytes>)
    ensures var x := RecvAll(recv, v, xs);
            var y := RecvAll(recv, x.sess, ys);
            RecvAll(recv, v, xs + ys) == Outcome(y.sess, x.msgs + y.msgs, x.ok && y.ok)
    decreases |xs|
  {
    if xs == [] {
      assert xs + ys == ys;
      assert [] + RecvAll(recv, v, ys).msgs == RecvAll(recv, v, ys).msgs;
    } else {
      assert (xs + ys)[1..] == xs[1..] + ys && (xs + ys)[0] == xs[0];
      var (v1, got) := recv(v, xs[0]);
      RecvAppend(recv, v1, xs[1..], ys);
      var x, y := RecvAll(recv, v1, xs[1..]), RecvAll(recv, RecvAll(recv, v1, xs[1..]).sess, ys);
      assert (Whole(got) + x.msgs) + y.msgs == Whole(got) + (x.msgs + y.msgs);
    }
  }

  /** A record in front of the others. */
  lemma RecvFront(recv: (Sess, Bytes) -> (Sess, Received), v: Sess, rec: Bytes, recs: seq<Bytes>)
    ensures var (v1, got) := recv(v, rec);
            var rest := RecvAll(recv, v1, recs);
            RecvAll(recv, v, [rec] + recs) == Outcome(rest.sess, Whole(got) + rest.msgs, rest.ok && !got.Failed?)
  {
    assert ([rec] + recs)[1..] == recs;
  }

  /** One fragment: it arrives, or completes what was buffered. */
  lemma FragmentArrives(p: Prims, a: Sess, b: Sess, flags: byte, piece: Bytes)
    requires Lawful(p) && Joined(a, b) && flags <= 1 && |piece| <= MAX_PAYLOAD && |b.rx| + |piece| <= MAX_MSG
    ensures var (a1, rec) := Seal(p, a, [RT_APPLICATION, flags] + piece);
            var (b1, got) := RecvApp(p, b, rec);
            && Joined(a1, b1) && |rec| == 37 + |piece|
            && b1.rx == (if flags == 1 then b.rx + piece else [])
            && got == if flags == 1 then Fragment else Message(b.rx + piece)
  {
    var inner := [RT_APPLICATION, flags] + piece;
    TaggedParts(RT_APPLICATION, p.seal(a.sendKey, RecNonce(a.sendSeq), inner));
    assert inner[2..] == piece;
  }

  ghost predicate Arrived(a: Sess, got: Outcome, msgs: seq<Bytes>) {
    got.ok && got.msgs == msgs && Joined(a, got.sess) && got.sess.rx == []
  }

  lemma ArriveFront(recv: (Sess, Bytes) -> (Sess, Received), a: Sess, b: Sess, b1: Sess, rec: Bytes, recs: seq<Bytes>, msgs: seq<Bytes>)
    requires recv(b, rec) == (b1, Fragment) && Arrived(a, RecvAll(recv, b1, recs), msgs)
    ensures Arrived(a, RecvAll(recv, b, [rec] + recs), msgs)
  {
    RecvFront(recv, b, rec, recs);
    assert [] + msgs == msgs;
  }

  lemma ArriveLast(recv: (Sess, Bytes) -> (Sess, Received), a: Sess, b: Sess, b1: Sess, rec: Bytes, msg: Bytes)
    requires recv(b, rec) == (b1, Message(msg)) && Joined(a, b1) && b1.rx == []
    ensures Arrived(a, RecvAll(recv, b, [rec]), [msg])
  {
    RecvFront(recv, b, rec, []);
    assert [rec] + [] == [rec] && [msg] + [] == [msg];
  }

  lemma ArriveThen(recv: (Sess, Bytes) -> (Sess, Received), a1: Sess, a2: Sess, b: Sess, xs: seq<Bytes>, ys: seq<Bytes>,
                   m: Bytes, msgs: seq<Bytes>)
    requires Arrived(a1, RecvAll(recv, b, xs), [m])
    requires Arrived(a2, RecvAll(recv, RecvAll(recv, b, xs).sess, ys), msgs)
    ensures Arrived(a2, RecvAll(recv, b, xs + ys), [m] + msgs)
  {
    RecvAppend(recv, b, xs, ys);
  }

  lemma LastPiece(p: Prims, a: Sess, b: Sess, msg: Bytes)
    requires Lawful(p) && Joined(a, b) && |msg| <= MAX_PAYLOAD && |b.rx| + |msg| <= MAX_MSG
    ensures Arrived(SendPieces(p, a, msg).0, RecvAll(Receiver(p), b, SendPieces(p, a, msg).1), [b.rx + msg])
  {
    FragmentArrives(p, a, b, 0, msg);
    var (a1, rec) := Seal(p, a, [RT_APPLICATION, 0] + msg);
    ArriveLast(Receiver(p), a1, b, RecvApp(p, b, rec).0, rec, b.rx + msg);
  }

  lemma SendPiecesFront(p: Prims, v: Sess, msg: Bytes)
    requires |msg| > MAX_PAYLOAD
    ensures var (v1, rec) := Seal(p, v, [RT_APPLICATION, 1] + msg[..MAX_PAYLOAD]);
            var (v2, recs) := SendPieces(p, v1, msg[MAX_PAYLOAD..]);
            SendPieces(p, v, msg) == (v2, [rec] + recs)
  {
  }

  /** The rest of a message, fragment by fragment. */
  lemma {:induction false} PiecesArrive(p: Prims, a: Sess, b: Sess, msg: Bytes)
    requires Lawful(p) && Joined(a, b) && |b.rx| + |msg| <= MAX_MSG
    ensures Arrived(SendPieces(p, a, msg).0, RecvAll(Receiver(p), b, SendPieces(p, a, msg).1), [b.rx + msg])
    decreases |msg|
  {
    if |msg| <= MAX_PAYLOAD {
      LastPiece(p, a, b, msg);
    } else {
      var piece, rest := msg[..MAX_PAYLOAD], msg[MAX_PAYLOAD..];
      FragmentArrives(p, a, b, 1, piece);
      var (a1, rec) := Seal(p, a, [RT_APPLICATION, 1] + piece);
      var b1 := RecvApp(p, b, rec).0;
      assert b1.rx + rest == b.rx + msg;
      PiecesArrive(p, a1, b1, rest);
      var (a2, recs) := SendPieces(p, a1, rest);
      ArriveFront(Receiver(p), a2, b, b1, rec, recs, [b.rx + msg]);
      SendPiecesFront(p, a, msg);
    }
  }

  /** For every list of messages of 1 to 262144 bytes, feeding the records in order
      gives back exactly that list. */
  lemma {:induction false} MessagesArrive(p: Prims, a: Sess, b: Sess, msgs: seq<Bytes>)
    requires Lawful(p) && Joined(a, b) && b.rx == []
    requires forall m :: m in msgs ==> 0 < |m| <= MAX_MSG
    ensures Arrived(SendAll(p, a, msgs).0, RecvAll(Receiver(p), b, SendAll(p, a, msgs).1), msgs)
    decreases |msgs|
  {
    if msgs != [] {
      var m, more := msgs[0], msgs[1..];
      assert m in msgs && msgs == [m] + more && [] + m == m;
      PiecesArrive(p, a, b, m);
      var (a1, recs) := SendPieces(p, a, m);
      var b1 := RecvAll(Receiver(p), b, recs).sess;
      MessagesArrive(p, a1, b1, more);
      ArriveThen(Receiver(p), a1, SendAll(p, a1, more).0, b, recs, SendAll(p, a1, more).1, m, more);
      SendAllFront(p, a, msgs);
    }
  }

  lemma SendAllFront(p: Prims, v: Sess, msgs: seq<Bytes>)
    requires msgs != [] && v.state == Done && 0 < |msgs[0]| <= MAX_MSG
    ensures var (v1, recs) := SendPieces(p, v, msgs[0]);
            SendAll(p, v, msgs) == (SendAll(p, v1, msgs[1..]).0, recs + SendAll(p, v1, msgs[1..]).1)
  {
  }

  /** No record is longer than 1327 bytes. */
  lemma {:induction false} RecordsShort(p: Prims, v: Sess, msg: Bytes)
    requires Lawful(p)
    ensures forall r :: r in SendPieces(p, v, msg).1 ==> |r| <= 1327
    decreases |msg|
  {
    if |msg| <= MAX_PAYLOAD {
      TaggedParts(RT_APPLICATION, p.seal(v.sendKey, RecNonce(v.sendSeq), [RT_APPLICATION, 0] + msg));
    } else {
      var inner := [RT_APPLICATION, 1] + msg[..MAX_PAYLOAD];
      TaggedParts(RT_APPLICATION, p.seal(v.sendKey, RecNonce(v.sendSeq), inner));
      RecordsShort(p, Seal(p, v, inner).0, msg[MAX_PAYLOAD..]);
    }
  }

  /** Every record fits one ICSP packet: data_send takes it, whatever its state. */
  lemma RecordsFit(p: Prims, v: Sess, msg: Bytes, r: Bytes,
                   view: IcspSession.View, key: nat, assoc: int, sid: IcspSession.StreamId)
    requires Lawful(p) && r in SendPieces(p, v, msg).1
    ensures IcspSession.Send(view, Some(key), assoc, sid, r).1.Sent?
  {
    RecordsShort(p, v, msg);
    IcspSession.SendLimit(view, Some(key), assoc, sid, r);
  }
}
