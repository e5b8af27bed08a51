/** When an acknowledged ICSP message has really been delivered. */
module IcspAck {
  import opened Wrappers
  import opened IcspSession
  import opened Octets
  import opened IcspRun

  /** Endpoint a submits to the given streams only, its TSN does not wrap, and the
      SACKs that reach it were sent by b. Everything at b is unrestricted. */
  ghost predicate Fair(w: World, streams: set<StreamId>, s: Step) {
    && (s.atA && s.event.Submit? ==> s.event.sid in streams && w.a.view.nextTsn as int + 1 < WRAP32)
    && (s.atA && s.event.ArriveSack? ==> Sack(s.event.cum) in w.b.out)
  }

  ghost predicate FairRun(w: World, streams: set<StreamId>, steps: seq<Step>) {
    && Runs(w, steps)
    && (steps == [] ||
        (FairRun(w, streams, steps[..|steps| - 1]) &&
         Fair(After(w, steps[..|steps| - 1]), streams, steps[|steps| - 1])))
  }

  /** Every entry of a's send queue marked acked was delivered, in order, at b. */
  ghost predicate AckSound(w: World) {
    forall i :: 0 <= i < |w.a.view.sendq| && w.a.view.sendq[i].acked
                ==> w.a.view.sendq[i].seqNo < RecvSeq(w.b, w.a.view.sendq[i].sid)
  }

  // ---- the invariant ---------------------------------------------------------------

  /** Entry i of the queue is message i of the stream, in TSN order. */
  ghost predicate Numbered(v: View, sid: StreamId) {
    && |v.sendq| == StreamOf(v, sid).sendSeq
    && (forall i :: 0 <= i < |v.sendq| ==> v.sendq[i].sid == sid && v.sendq[i].seqNo == i && v.sendq[i].tsn < v.nextTsn)
    && (forall i, j :: 0 <= i < j < |v.sendq| ==> v.sendq[i].tsn < v.sendq[j].tsn)
  }

  ghost predicate Boxed(v: View, sid: StreamId, b: Box) {
    b.Sealed? && b.clear.sid == sid && b.clear.seqNo < |v.sendq| && v.sendq[b.clear.seqNo].tsn == b.clear.tsn
  }

  /** Every message up to TSN c was delivered. */
  ghost predicate Covered(v: View, r: nat, c: Tsn) {
    c < v.nextTsn && forall i :: 0 <= i < |v.sendq| && v.sendq[i].tsn <= c ==> i < r
  }

  ghost predicate AckInv(w: World, sid: StreamId) {
    && Numbered(w.a.view, sid)
    && (forall c :: c in w.a.out && c.Data? ==> Boxed(w.a.view, sid, c.box))
    && Answered(w.a.view, RecvSeq(w.b, sid), w.b)
  }

  /** What b has acknowledged, and what a took from it. */
  ghost predicate Answered(v: View, r: nat, q: Peer) {
    && Covered(v, r, q.view.cumTsn)
    && (forall c :: c in q.out && c.Sack? ==> Covered(v, r, c.cum))
    && (forall i :: 0 <= i < |v.sendq| && v.sendq[i].acked ==> i < r)
  }

  /** The queue grew by one entry, under the next TSN. */
  ghost predicate Grew(v: View, v2: View, sid: StreamId) {
    && |v2.sendq| == |v.sendq| + 1 && v2.sendq[..|v.sendq|] == v.sendq
    && v2.sendq[|v.sendq|].tsn == v.nextTsn && v2.sendq[|v.sendq|].sid == sid && v2.sendq[|v.sendq|].seqNo == |v.sendq|
    && !v2.sendq[|v.sendq|].acked
    && v2.nextTsn == v.nextTsn as int + 1
    && StreamOf(v2, sid).sendSeq == |v2.sendq|
  }

  lemma GrewKeeps(v: View, v2: View, sid: StreamId)
    requires Numbered(v, sid) && Grew(v, v2, sid)
    ensures Numbered(v2, sid)
    ensures forall b :: Boxed(v, sid, b) ==> Boxed(v2, sid, b)
    ensures forall r: nat, q: Peer :: Answered(v, r, q) ==> Answered(v2, r, q)
  {
    assert forall i :: 0 <= i < |v.sendq| ==> v2.sendq[i] == v.sendq[i];
    assert forall r: nat, c: Tsn :: Covered(v, r, c) ==> Covered(v2, r, c);
  }

  lemma SubmitGrows(p: Peer, assoc: int, sid: StreamId, data: Bytes)
    requires Numbered(p.view, sid) && StreamOf(p.view, sid).sendSeq < 0xFFFF && p.view.nextTsn as int + 1 < WRAP32
    ensures var v2 := DoSubmit(p, assoc, sid, data).view;
            || (&& v2.sendq == p.view.sendq && p.view.nextTsn <= v2.nextTsn
                && StreamOf(v2, sid) == StreamOf(p.view, sid) && DoSubmit(p, assoc, sid, data).out == p.out)
            || (&& Grew(p.view, v2, sid)
                && exists c: Chunk :: c.Data? && Boxed(v2, sid, c.box) && DoSubmit(p, assoc, sid, data).out == p.out + {c})
  {
    var (v2, r) := Send(p.view, Some(p.sendKey), assoc, sid, data);
    assert StreamOf(v2, sid).sendSeq == StreamOf(p.view, sid).sendSeq as int + (if r.Sent? then 1 else 0);
    if r.Sent? {
      assert v2.sendq[..|p.view.sendq|] == p.view.sendq;
      assert Boxed(v2, sid, r.chunk.box);
    }
  }

  lemma SubmitAck(w: World, sid: StreamId, data: Bytes)
    requires Inv(w) && AckInv(w, sid)
    requires |SentOn(w.a, sid)| < 0xFFFF && w.a.view.nextTsn as int + 1 < WRAP32
    ensures AckInv(w.(a := DoSubmit(w.a, w.assoc, sid, data)), sid)
  {
    var v, v2 := w.a.view, DoSubmit(w.a, w.assoc, sid, data).view;
    assert StreamOf(v, sid).sendSeq == |SentOn(w.a, sid)|;
    SubmitGrows(w.a, w.assoc, sid, data);
    if Grew(v, v2, sid) {
      GrewKeeps(v, v2, sid);
    } else {
      assert forall c: Tsn :: Covered(v, RecvSeq(w.b, sid), c) ==> Covered(v2, RecvSeq(w.b, sid), c);
      assert forall b :: Boxed(v, sid, b) ==> Boxed(v2, sid, b);
    }
  }

  lemma SackAck(w: World, sid: StreamId, cum: Tsn)
    requires AckInv(w, sid) && Sack(cum) in w.b.out
    ensures AckInv(w.(a := w.a.(view := Acknowledge(w.a.view, cum))), sid)
  {
    var v, v2 := w.a.view, Acknowledge(w.a.view, cum);
    assert Covered(v, RecvSeq(w.b, sid), cum);
    assert forall c: Tsn :: Covered(v, RecvSeq(w.b, sid), c) ==> Covered(v2, RecvSeq(w.b, sid), c);
    assert forall b :: Boxed(v, sid, b) ==> Boxed(v2, sid, b);
  }

  /** b's cumulative TSN moves only past the message it delivers. */
  lemma DataAck(w: World, sid: StreamId, c: Chunk)
    requires Inv(w) && AckInv(w, sid)
    requires c.Data? && Known(w, c.box)
    ensures AckInv(w.(b := DoData(w.b, w.assoc, c)), sid)
  {
    var v, q2 := w.a.view, DoData(w.b, w.assoc, c);
    var r, r2 := RecvSeq(w.b, sid), RecvSeq(q2, sid);
    assert c.box.Junk? || c.box.key != w.b.recvKey || Honest(w.a, c.box);
    ReceiveFlow(w.a, w.b, w.assoc, c);
    assert r <= r2;
    assert forall k: Tsn :: Covered(v, r, k) ==> Covered(v, r2, k);
    if Receive(w.b.view, w.b.recvKey, w.assoc, c).1.Delivered? {
      assert Boxed(v, sid, c.box);
      assert Flow(w.a, w.b, sid);
      DeliverFlow(w.a, w.b, w.assoc, c);
      CumDelivered(w.b.view, w.b.recvKey, w.assoc, c);
      assert Covered(v, r2, c.tsn);
    } else {
      CumWaiting(w.b.view, w.b.recvKey, w.assoc, c);
    }
    DataView(w.b, w.assoc, c);
  }

  lemma CumDelivered(v: View, key: nat, assoc: int, c: Chunk)
    requires c.Data? && Receive(v, key, assoc, c).1.Delivered?
    ensures Receive(v, key, assoc, c).0.cumTsn == if c.tsn > v.cumTsn then c.tsn else v.cumTsn
    ensures c.seqNo == StreamOf(v, c.sid).recvSeq && c.box.Sealed? && c.box.key == key
    ensures c.box.clear.tsn == c.tsn && c.box.clear.sid == c.sid && c.box.clear.seqNo == c.seqNo
  {
  }

  lemma CumWaiting(v: View, key: nat, assoc: int, c: Chunk)
    requires c.Data? && !Receive(v, key, assoc, c).1.Delivered?
    ensures Receive(v, key, assoc, c).0.cumTsn == v.cumTsn
  {
  }

  lemma StepAck(w: World, sid: StreamId, s: Step)
    requires Inv(w) && AckInv(w, sid) && CanStep(w, s) && Fair(w, {sid}, s)
    ensures AckInv(Next(w, s), sid)
  {
    if s.atA {
      match s.event
      case Submit(id, data) => SubmitAck(w, sid, data);
      case ArriveSack(cum) => SackAck(w, sid, cum);
      case ArriveData(c) =>
        DataView(w.a, w.assoc, c);
      case Retransmit(due) =>
        ResentOld(w.a.view.sendq, due, w.a.out);
        assert Next(w, s).a.out == w.a.out;
    } else {
      match s.event
      case Submit(id, data) => SubmitView(w.b, w.assoc, id, data, sid);
      case ArriveSack(cum) =>
      case ArriveData(c) => DataAck(w, sid, c);
      case Retransmit(due) =>
        ResentOld(w.b.view.sendq, due, w.b.out);
        assert Next(w, s).b.out == w.b.out;
    }
  }

  lemma {:induction false} RunAck(w: World, sid: StreamId, steps: seq<Step>)
    requires Start(w) && w.a.view.nextTsn > 0 && FairRun(w, {sid}, steps)
    ensures AckInv(After(w, steps), sid)
  {
    if steps != [] {
      RunAck(w, sid, steps[..|steps| - 1]);
      RunKeeps(w, steps[..|steps| - 1]);
      StepAck(After(w, steps[..|steps| - 1]), sid, steps[|steps| - 1]);
    }
  }

  /** One stream, a first TSN above 0: an acked message has been delivered, with
      everything before it, whatever happened to the SACKs. */
  lemma AckedIsDelivered(w: World, sid: StreamId, steps: seq<Step>, i: nat)
    requires Start(w) && w.a.view.nextTsn > 0 && FairRun(w, {sid}, steps)
    requires i < |After(w, steps).a.view.sendq| && After(w, steps).a.view.sendq[i].acked
    ensures var e := After(w, steps);
            i < RecvSeq(e.b, sid) <= |SentOn(e.a, sid)| && Concat(SentOn(e.a, sid)[..i + 1]) <= GotOn(e.b, sid)
  {
    RunAck(w, sid, steps);
    DeliveryIsPrefix(w, steps, sid);
    var e := After(w, steps);
    AckedPrefix(SentOn(e.a, sid), i, RecvSeq(e.b, sid));
  }

  lemma AckedPrefix(sent: seq<Bytes>, i: nat, r: nat)
    requires i < r <= |sent|
    ensures Concat(sent[..i + 1]) <= Concat(sent[..r])
  {
    var delivered := sent[..r];
    assert delivered[..i + 1] == sent[..i + 1];
    ConcatPrefix(delivered, i + 1);
  }

  // ---- exactly when it holds ---------------------------------------------------------

  lemma Extend(w: World, streams: set<StreamId>, steps: seq<Step>, s: Step) returns (longer: seq<Step>)
    requires FairRun(w, streams, steps) && CanStep(After(w, steps), s) && Fair(After(w, steps), streams, s)
    ensures longer == steps + [s]
    ensures FairRun(w, streams, longer) && After(w, longer) == Next(After(w, steps), s)
  {
    longer := steps + [s];
    assert longer[..|longer| - 1] == steps;
  }

  /** The chunk of the second message when p submits an empty one to sid and one to other. */
  function SecondChunk(p: Peer, assoc: int, sid: StreamId, other: StreamId): Chunk
    requires p.view.nextTsn as int + 1 < WRAP32
  {
    var tsn: Tsn := p.view.nextTsn as int + 1;
    var seqNo := if other == sid then 1 else 0;
    Data(tsn, other, seqNo, Sealed(p.sendKey, assoc, tsn, Clear(tsn, other, seqNo, [])))
  }

  lemma TwoSubmits(p: Peer, assoc: int, sid: StreamId, other: StreamId)
    requires p.view == Fresh(p.view.nextTsn) && p.view.nextTsn as int + 2 < WRAP32
    ensures var p1 := DoSubmit(p, assoc, sid, []);
            var p2 := DoSubmit(p1, assoc, other, []);
            && p1.view.nextTsn == p.view.nextTsn as int + 1
            && |p2.view.sendq| == 2 && SecondChunk(p, assoc, sid, other) in p2.out
            && p2.view.sendq[0].sid == sid && p2.view.sendq[0].tsn == p.view.nextTsn && p2.view.sendq[0].seqNo == 0
  {
    var p1 := DoSubmit(p, assoc, sid, []);
    assert p1.view.sendq[0].tsn == p.view.nextTsn && |p1.view.sendq| == 1;
    assert StreamOf(p1.view, other) == Stream(if other == sid then 1 else 0, 0);
  }

  /** a submits an empty message to sid and one to other; only the second gets through. */
  lemma SecondArrives(w: World, sid: StreamId, other: StreamId) returns (steps: seq<Step>)
    requires Start(w) && w.a.view.nextTsn as int + 2 < WRAP32
    ensures FairRun(w, {sid, other}, steps)
    ensures var e := After(w, steps);
            && e.b == DoData(w.b, w.assoc, SecondChunk(w.a, w.assoc, sid, other))
            && |e.a.view.sendq| == 2 && e.a.view.sendq[0].sid == sid && e.a.view.sendq[0].tsn == w.a.view.nextTsn
            && e.a.view.sendq[0].seqNo == 0
  {
    TwoSubmits(w.a, w.assoc, sid, other);
    steps := Extend(w, {sid, other}, [], Step(true, Submit(sid, [])));
    steps := Extend(w, {sid, other}, steps, Step(true, Submit(other, [])));
    var c := SecondChunk(w.a, w.assoc, sid, other);
    assert Known(After(w, steps), c.box);
    steps := Extend(w, {sid, other}, steps, Step(false, ArriveData(c)));
  }

  /** The run that shows the unsound cases: b's SACK covers the message that was lost. */
  lemma AckTooEarly(w: World, sid: StreamId, other: StreamId) returns (steps: seq<Step>)
    requires Start(w) && w.a.view.nextTsn as int + 2 < WRAP32
    requires w.a.view.nextTsn == 0 || other != sid
    ensures FairRun(w, {sid, other}, steps) && !AckSound(After(w, steps))
  {
    steps := SecondArrives(w, sid, other);
    var c := SecondChunk(w.a, w.assoc, sid, other);
    var e := After(w, steps);
    var cum := if other == sid then 0 else c.tsn;
    FirstReceipt(w.b, w.assoc, c, sid);
    assert e.b.view.cumTsn == cum && Sack(cum) in e.b.out && RecvSeq(e.b, sid) == 0;
    var s := Step(true, ArriveSack(cum));
    steps := Extend(w, {sid, other}, steps, s);
    var last := After(w, steps);
    assert last.a.view.sendq[0].acked && last.a.view.sendq[0].seqNo == 0;
  }

  /** A fresh endpoint's answer to its first message. */
  lemma FirstReceipt(q: Peer, assoc: int, c: Chunk, sid: StreamId)
    requires q.view == Fresh(q.view.nextTsn)
    requires c.Data? && c.tsn > 0
    requires c.box == Sealed(q.recvKey, assoc, c.tsn, Clear(c.tsn, c.sid, c.seqNo, []))
    requires c.seqNo == if c.sid == sid then 1 else 0
    ensures var q2 := DoData(q, assoc, c);
            && q2.view.cumTsn == (if c.sid == sid then 0 else c.tsn)
            && Sack(q2.view.cumTsn) in q2.out && RecvSeq(q2, sid) == 0
  {
  }

  /** Acknowledgement means delivery in every fair run exactly when the first TSN
      is above 0 and one stream is used. */
  lemma AckSoundExactly(w: World, sid: StreamId, streams: set<StreamId>)
    requires Start(w) && w.a.view.nextTsn as int + 2 < WRAP32 && sid in streams
    ensures (forall steps :: FairRun(w, streams, steps) ==> AckSound(After(w, steps)))
            <==> w.a.view.nextTsn > 0 && streams == {sid}
  {
    if w.a.view.nextTsn > 0 && streams == {sid} {
      forall steps | FairRun(w, streams, steps)
        ensures AckSound(After(w, steps))
      {
        RunAck(w, sid, steps);
      }
    } else {
      var other := if streams == {sid} then sid else Another(streams, sid);
      var steps := AckTooEarly(w, sid, other);
      MoreStreams(w, {sid, other}, streams, steps);
    }
  }

  ghost function Another(streams: set<StreamId>, sid: StreamId): (other: StreamId)
    requires sid in streams && streams != {sid}
    ensures other in streams && other != sid
  {
    assert streams == {sid} + (streams - {sid});
    var o :| o in streams - {sid};
    o
  }

  lemma {:induction false} MoreStreams(w: World, some: set<StreamId>, all: set<StreamId>, steps: seq<Step>)
    requires FairRun(w, some, steps) && some <= all
    ensures FairRun(w, all, steps)
  {
    if steps != [] {
      MoreStreams(w, some, all, steps[..|steps| - 1]);
    }
  }
}
