/** What a receiver delivers is everything that has arrived without a gap. */
module IcspComplete {
  import opened Octets
  import opened Wrappers
  import opened IcspSession
  import opened IcspRun

  /** The chunk passes the window, opens, and its clear header is true. */
  predicate Accepts(q: Peer, assoc: int, c: Chunk)
    requires c.Data?
  {
    && BoxLen(c.box) >= 32 && Admit(q.view, c.tsn).Some?
    && Open(q.recvKey, assoc, c.tsn, c.box) == Some(Clear(c.tsn, c.sid, c.seqNo, ClearData(c.box)))
  }

  function ClearData(b: Box): Bytes {
    if b.Sealed? then b.clear.data else []
  }

  /** The (stream, number) pairs that b accepted in a run. */
  ghost function Seen(w: World, steps: seq<Step>): set<(StreamId, StreamSeq)>
    requires Runs(w, steps)
    decreases |steps|
  {
    if steps == [] then {}
    else
      var before, s := After(w, steps[..|steps| - 1]), steps[|steps| - 1];
      Seen(w, steps[..|steps| - 1]) +
      if !s.atA && s.event.ArriveData? && Accepts(before.b, w.assoc, s.event.chunk)
      then {(s.event.chunk.sid, s.event.chunk.seqNo)} else {}
  }

  /** Seen is delivered or waiting, and what is waited for is not waiting. */
  ghost predicate Accounted(q: Peer, sid: StreamId, seen: set<(StreamId, StreamSeq)>) {
    && RecvSeq(q, sid) as int !in BufOf(q.view, sid)
    && forall k: StreamSeq :: (sid, k) in seen <==> k < RecvSeq(q, sid) || k as int in BufOf(q.view, sid)
  }

  /** Draining stops at the first message that is missing. */
  lemma {:induction false} DrainedStops(buf: map<int, Bytes>, next: int)
    ensures next + |Drained(buf, next)| !in buf
    ensures forall k :: next <= k < next + |Drained(buf, next)| ==> k in buf
    decreases |buf|
  {
    if next in buf {
      var rest := Drained(buf - {next}, next + 1);
      DrainedStops(buf - {next}, next + 1);
      assert Drained(buf, next) == [buf[next]] + rest;
      assert next + 1 + |rest| !in buf by {
        assert next + 1 + |rest| !in buf - {next} && next + 1 + |rest| != next;
      }
      forall k | next <= k < next + 1 + |rest|
        ensures k in buf
      {
        assert k != next ==> k in buf - {next};
      }
    }
  }

  /** Delivering r and the run behind it, on numbers alone. */
  lemma DrainAccounts(sid: StreamId, r: StreamSeq, buf: map<int, Bytes>, seen: set<(StreamId, StreamSeq)>)
    requires forall k: StreamSeq :: (sid, k) in seen <==> k < r || k as int in buf
    ensures var next := r as int + 1 + |Drained(buf, r as int + 1)|;
            && next !in Without(buf, r as int + 1, next)
            && forall k: StreamSeq :: (sid, k) in seen + {(sid, r)} <==> k < next || k as int in Without(buf, r as int + 1, next)
  {
    DrainedStops(buf, r as int + 1);
    var next := r as int + 1 + |Drained(buf, r as int + 1)|;
    forall k: StreamSeq
      ensures (sid, k) in seen + {(sid, r)} <==> k < next || k as int in Without(buf, r as int + 1, next)
    {
      assert (sid, k) in seen <==> k < r || k as int in buf;
    }
  }

  lemma DeliveredAccounts(q: Peer, q2: Peer, sid: StreamId, r: StreamSeq, data: Bytes, seen: set<(StreamId, StreamSeq)>)
    requires DeliversTo(q, q2, sid, data) && Accounted(q, sid, seen) && r == RecvSeq(q, sid)
    requires r as int + RunLength(q.view, sid) < 0x1_0000
    ensures Accounted(q2, sid, seen + {(sid, r)})
  {
    DrainAccounts(sid, r, BufOf(q.view, sid), seen);
  }

  lemma DeliverAccounts(p: Peer, q: Peer, assoc: int, c: Chunk, seen: set<(StreamId, StreamSeq)>)
    requires c.Data? && q.recvKey == p.sendKey && Flow(p, q, c.sid)
    requires c.box.Junk? || c.box.key != q.recvKey || Honest(p, c.box)
    requires Receive(q.view, q.recvKey, assoc, c).1.Delivered? && Accounted(q, c.sid, seen)
    ensures Accounted(DoData(q, assoc, c), c.sid, seen + {(c.sid, c.seqNo)})
  {
    DeliverStep(q, assoc, c);
    DeliverFlow(p, q, assoc, c);
    DeliveredAccounts(q, DoData(q, assoc, c), c.sid, c.seqNo, c.box.clear.data, seen);
  }

  /** No delivery on the stream: accepted means buffered, or that it was there already. */
  lemma WaitAccounts(q: Peer, assoc: int, c: Chunk, sid: StreamId, seen: set<(StreamId, StreamSeq)>)
    requires c.Data? && Accounted(q, sid, seen)
    requires sid == c.sid ==> !Receive(q.view, q.recvKey, assoc, c).1.Delivered?
    ensures Accounted(DoData(q, assoc, c), sid, if Accepts(q, assoc, c) then seen + {(c.sid, c.seqNo)} else seen)
  {
    var q2 := DoData(q, assoc, c);
    BufferView(q, assoc, c, sid);
    if Accepts(q, assoc, c) {
      forall k: StreamSeq
        ensures (sid, k) in seen + {(c.sid, c.seqNo)} <==> k < RecvSeq(q2, sid) || k as int in BufOf(q2.view, sid)
      {
        assert (sid, k) in seen <==> k < RecvSeq(q, sid) || k as int in BufOf(q.view, sid);
      }
    }
  }

  lemma BufferView(q: Peer, assoc: int, c: Chunk, sid: StreamId)
    requires c.Data? && (sid == c.sid ==> !Receive(q.view, q.recvKey, assoc, c).1.Delivered?)
    ensures var q2 := DoData(q, assoc, c);
            && RecvSeq(q2, sid) == RecvSeq(q, sid)
            && (!Accepts(q, assoc, c) || sid != c.sid ==> BufOf(q2.view, sid) == BufOf(q.view, sid))
            && (Accepts(q, assoc, c) && sid == c.sid ==> c.seqNo != RecvSeq(q, sid))
            && (Accepts(q, assoc, c) && sid == c.sid ==>
                  forall k :: k in BufOf(q2.view, sid) <==> k in BufOf(q.view, sid) || k == c.seqNo as int)
  {
    if BoxLen(c.box) >= 32 && Admit(q.view, c.tsn).Some? {
      var v1 := Admit(q.view, c.tsn).value;
      assert v1.streams == q.view.streams && v1.rcvbuf == q.view.rcvbuf;
      var plain := Open(q.recvKey, assoc, c.tsn, c.box);
      if plain.Some? && plain.value.tsn == c.tsn && plain.value.sid == c.sid && plain.value.seqNo == c.seqNo {
        GateBuffer(v1, c, plain.value, sid);
      }
    }
  }

  lemma GateBuffer(v: View, c: Chunk, clear: Clear, sid: StreamId)
    requires c.Data? && (sid == c.sid ==> !Accept(v, c, clear).1.Delivered?)
    ensures var v2 := Accept(v, c, clear).0;
            && StreamOf(v2, sid) == StreamOf(v, sid)
            && (sid != c.sid ==> BufOf(v2, sid) == BufOf(v, sid))
            && (sid == c.sid ==> c.seqNo != StreamOf(v, sid).recvSeq)
            && (sid == c.sid ==> forall k :: k in BufOf(v2, sid) <==> k in BufOf(v, sid) || k == c.seqNo as int)
  {
  }

  lemma ReceiveAccounts(p: Peer, q: Peer, assoc: int, c: Chunk, sid: StreamId, seen: set<(StreamId, StreamSeq)>)
    requires c.Data? && q.recvKey == p.sendKey && Flows(p, q) && Accounted(q, sid, seen)
    requires c.box.Junk? || c.box.key != q.recvKey || Honest(p, c.box)
    ensures Accounted(DoData(q, assoc, c), sid, if Accepts(q, assoc, c) then seen + {(c.sid, c.seqNo)} else seen)
  {
    if sid == c.sid && Receive(q.view, q.recvKey, assoc, c).1.Delivered? {
      assert Flow(p, q, c.sid);
      DeliverAccounts(p, q, assoc, c, seen);
    } else {
      WaitAccounts(q, assoc, c, sid, seen);
    }
  }

  lemma StepAccounts(w: World, s: Step, sid: StreamId, seen: set<(StreamId, StreamSeq)>)
    requires Inv(w) && CanStep(w, s) && Accounted(w.b, sid, seen)
    ensures var more := if !s.atA && s.event.ArriveData? && Accepts(w.b, w.assoc, s.event.chunk)
                        then seen + {(s.event.chunk.sid, s.event.chunk.seqNo)} else seen;
            Accounted(Next(w, s).b, sid, more)
  {
    if !s.atA {
      match s.event
      case ArriveData(c) => ReceiveAccounts(w.a, w.b, w.assoc, c, sid, seen);
      case Submit(id, data) => SubmitReceives(w.b, w.assoc, id, data, sid);
      case ArriveSack(cum) =>
      case Retransmit(due) =>
    }
  }

  lemma SubmitReceives(p: Peer, assoc: int, id: StreamId, data: Bytes, sid: StreamId)
    ensures var p2 := DoSubmit(p, assoc, id, data);
            RecvSeq(p2, sid) == RecvSeq(p, sid) && BufOf(p2.view, sid) == BufOf(p.view, sid)
  {
  }

  lemma {:induction false} RunAccounts(w: World, steps: seq<Step>, sid: StreamId)
    requires Start(w) && Runs(w, steps)
    ensures Accounted(After(w, steps).b, sid, Seen(w, steps))
    decreases |steps|
  {
    if steps != [] {
      var n := |steps| - 1;
      RunAccounts(w, steps[..n], sid);
      RunKeeps(w, steps[..n]);
      StepAccounts(After(w, steps[..n]), steps[n], sid, Seen(w, steps[..n]));
      assert Seen(w, steps[..n]) + {} == Seen(w, steps[..n]);
    }
  }

  /** In every run, what has been delivered on a stream is exactly the messages before
      the first one that has not been accepted. */
  lemma DeliversAllWithoutGap(w: World, steps: seq<Step>, sid: StreamId)
    requires Start(w) && Runs(w, steps)
    ensures var e, seen := After(w, steps), Seen(w, steps);
            var r := RecvSeq(e.b, sid);
            && (forall k: StreamSeq :: k < r ==> (sid, k) in seen) && (sid, r) !in seen
            && r <= |SentOn(e.a, sid)| && GotOn(e.b, sid) == Concat(SentOn(e.a, sid)[..r])
  {
    RunAccounts(w, steps, sid);
    DeliveryIsPrefix(w, steps, sid);
  }
}
