/** Runs of two ICSP endpoints over a network that loses, duplicates and
    reorders, rewrites clear headers, injects junk and replays anything. */
module IcspRun {
  import opened IcspSession
  import opened Octets
  import opened Wrappers

  /** One endpoint: its data plane, the chunks it ever put on the wire, and two
      histories by stream: messages accepted for sending, bytes delivered. */
  datatype Peer = Peer(view: View, sendKey: nat, recvKey: nat, out: set<Chunk>,
                       sent: map<StreamId, seq<Bytes>>, got: map<StreamId, Bytes>)

  datatype World = World(a: Peer, b: Peer, assoc: int)

  datatype Event =
    | Submit(sid: StreamId, data: Bytes)
    | ArriveData(chunk: Chunk)
    | ArriveSack(cum: Tsn)
    | Retransmit(due: seq<bool>)

  /** An event, and whether it happens at endpoint a. */
  datatype Step = Step(atA: bool, event: Event)

  function SentOn(p: Peer, sid: StreamId): seq<Bytes> {
    if sid in p.sent then p.sent[sid] else []
  }

  function GotOn(p: Peer, sid: StreamId): Bytes {
    if sid in p.got then p.got[sid] else []
  }

  function RecvSeq(p: Peer, sid: StreamId): StreamSeq {
    StreamOf(p.view, sid).recvSeq
  }

  // ---- what one event does -----------------------------------------------------

  function DoSubmit(p: Peer, assoc: int, sid: StreamId, data: Bytes): Peer {
    var (v, r) := Send(p.view, Some(p.sendKey), assoc, sid, data);
    if r.Sent? then p.(view := v, out := p.out + {r.chunk}, sent := p.sent[sid := SentOn(p, sid) + [data]])
    else p.(view := v)
  }

  /** Every DATA chunk is answered by a SACK, unless its header lied. */
  function DoData(p: Peer, assoc: int, c: Chunk): Peer
    requires c.Data?
  {
    var (v, r) := Receive(p.view, p.recvKey, assoc, c);
    match r
    case Mismatch => p.(view := v)
    case Nothing => p.(view := v, out := p.out + {Sack(v.cumTsn)})
    case Delivered(sid, data) =>
      p.(view := v, out := p.out + {Sack(v.cumTsn)}, got := p.got[sid := GotOn(p, sid) + data])
  }

  function Do(p: Peer, assoc: int, e: Event): Peer
    requires e.ArriveData? ==> e.chunk.Data?
    requires e.Retransmit? ==> |e.due| == |p.view.sendq|
  {
    match e
    case Submit(sid, data) => DoSubmit(p, assoc, sid, data)
    case ArriveData(c) => DoData(p, assoc, c)
    case ArriveSack(cum) => p.(view := Acknowledge(p.view, cum))
    case Retransmit(due) => p.(out := p.out + set c | c in Resent(p.view.sendq, due))
  }

  /** Boxes that open were sealed by one of the two endpoints. */
  ghost predicate Known(w: World, b: Box) {
    b.Junk? || exists c :: c in w.a.out + w.b.out && c.Data? && c.box == b
  }

  /** What the network and the callers may do at endpoint p: fewer than 2^16
      messages go out on a stream; clear headers and SACKs are unprotected. */
  ghost predicate Enabled(w: World, p: Peer, e: Event) {
    match e
    case Submit(sid, _) => |SentOn(p, sid)| < 0xFFFF
    case ArriveData(c) => c.Data? && Known(w, c.box)
    case ArriveSack(_) => true
    case Retransmit(due) => |due| == |p.view.sendq|
  }

  ghost predicate CanStep(w: World, s: Step) {
    Enabled(w, if s.atA then w.a else w.b, s.event)
  }

  ghost function Next(w: World, s: Step): World
    requires CanStep(w, s)
  {
    if s.atA then w.(a := Do(w.a, w.assoc, s.event)) else w.(b := Do(w.b, w.assoc, s.event))
  }

  ghost predicate Runs(w: World, steps: seq<Step>)
    decreases |steps|, 0
  {
    steps == [] ||
    (Runs(w, steps[..|steps| - 1]) && CanStep(After(w, steps[..|steps| - 1]), steps[|steps| - 1]))
  }

  ghost function After(w: World, steps: seq<Step>): World
    requires Runs(w, steps)
    decreases |steps|, 1
  {
    if steps == [] then w else Next(After(w, steps[..|steps| - 1]), steps[|steps| - 1])
  }

  /** Two endpoints with mirrored keys that have just reset their data planes. */
  ghost predicate Start(w: World) {
    && w.a.sendKey == w.b.recvKey != w.a.recvKey == w.b.sendKey
    && w.a == Peer(Fresh(w.a.view.nextTsn), w.a.sendKey, w.a.recvKey, {}, map[], map[])
    && w.b == Peer(Fresh(w.b.view.nextTsn), w.b.sendKey, w.b.recvKey, {}, map[], map[])
  }

  // ---- concatenation -------------------------------------------------------------

  lemma {:induction false} ConcatAppend(xs: seq<Bytes>, ys: seq<Bytes>)
    ensures Concat(xs + ys) == Concat(xs) + Concat(ys)
  {
    if ys == [] {
      assert xs + ys == xs;
    } else {
      var n := |ys| - 1;
      assert (xs + ys)[..|xs + ys| - 1] == xs + ys[..n];
      ConcatAppend(xs, ys[..n]);
    }
  }

  /** Draining a buffer that holds messages of s yields a stretch of s. */
  lemma {:induction false} DrainedIs(buf: map<int, Bytes>, next: nat, s: seq<Bytes>)
    requires next <= |s|
    requires forall q :: q in buf ==> 0 <= q < |s| && buf[q] == s[q]
    ensures next + |Drained(buf, next)| <= |s|
    ensures Drained(buf, next) == s[next..next + |Drained(buf, next)|]
    decreases |buf|
  {
    if next in buf {
      var rest := Drained(buf - {next}, next + 1);
      DrainedIs(buf - {next}, next + 1, s);
      assert Drained(buf, next) == [s[next]] + rest;
      assert s[next..next + 1 + |rest|] == [s[next]] + s[next + 1..next + 1 + |rest|];
    }
  }

  // ---- one direction: from p to q ------------------------------------------------

  /** A box sealed by p carries the message its own header names. */
  ghost predicate Honest(p: Peer, b: Box) {
    b.Sealed? && b.key == p.sendKey &&
    b.clear.seqNo < |SentOn(p, b.clear.sid)| && b.clear.data == SentOn(p, b.clear.sid)[b.clear.seqNo]
  }

  ghost predicate Sender(p: Peer) {
    && (forall sid :: StreamOf(p.view, sid).sendSeq == |SentOn(p, sid)|)
    && (forall c :: c in p.out && c.Data? ==> Honest(p, c.box))
    && (forall i :: 0 <= i < |p.view.sendq| ==> p.view.sendq[i].chunk in p.out)
  }

  /** q's buffer and deliveries on one stream against what p sent on it. */
  ghost predicate InOrder(s: seq<Bytes>, r: nat, got: Bytes, buf: map<int, Bytes>) {
    && r <= |s| < 0x1_0000
    && got == Concat(s[..r])
    && (forall k :: k in buf ==> 0 <= k < |s| && buf[k] == s[k])
  }

  ghost predicate Flow(p: Peer, q: Peer, sid: StreamId) {
    InOrder(SentOn(p, sid), RecvSeq(q, sid), GotOn(q, sid), BufOf(q.view, sid))
  }

  ghost predicate Flows(p: Peer, q: Peer) {
    forall sid :: Flow(p, q, sid)
  }

  ghost predicate Inv(w: World) {
    && w.a.sendKey == w.b.recvKey != w.a.recvKey == w.b.sendKey
    && Sender(w.a) && Sender(w.b)
    && Flows(w.a, w.b) && Flows(w.b, w.a)
  }

  /** The receiver's step on one message: p is the peer that sealed the box. */
  lemma ReceiveFlow(p: Peer, q: Peer, assoc: int, c: Chunk)
    requires c.Data? && q.recvKey == p.sendKey
    requires c.box.Junk? || c.box.key != q.recvKey || Honest(p, c.box)
    requires Flows(p, q)
    ensures Flows(p, DoData(q, assoc, c))
    ensures forall sid :: RecvSeq(q, sid) <= RecvSeq(DoData(q, assoc, c), sid)
  {
    var q2 := DoData(q, assoc, c);
    forall sid
      ensures Flow(p, q2, sid) && RecvSeq(q, sid) <= RecvSeq(q2, sid)
    {
      assert Flow(p, q, sid);
      if sid == c.sid && Receive(q.view, q.recvKey, assoc, c).1.Delivered? {
        DeliverFlow(p, q, assoc, c);
      } else {
        WaitView(q, assoc, c, sid);
      }
    }
  }

  /** A stream that gets no delivery gains at most one buffered message. */
  lemma WaitView(q: Peer, assoc: int, c: Chunk, sid: StreamId)
    requires c.Data?
    requires sid == c.sid ==> !Receive(q.view, q.recvKey, assoc, c).1.Delivered?
    ensures var q2 := DoData(q, assoc, c);
            && RecvSeq(q2, sid) == RecvSeq(q, sid) && GotOn(q2, sid) == GotOn(q, sid)
            && (|| BufOf(q2.view, sid) == BufOf(q.view, sid)
                || (&& c.box.Sealed? && c.box.key == q.recvKey && c.box.clear.sid == sid
                    && BufOf(q2.view, sid) == BufOf(q.view, sid)[c.box.clear.seqNo as int := c.box.clear.data]))
  {
    if BoxLen(c.box) >= 32 && Admit(q.view, c.tsn).Some? {
      var v1 := Admit(q.view, c.tsn).value;
      assert v1.streams == q.view.streams && v1.rcvbuf == q.view.rcvbuf;
      var plain := Open(q.recvKey, assoc, c.tsn, c.box);
      if plain.Some? && plain.value.tsn == c.tsn && plain.value.sid == c.sid && plain.value.seqNo == c.seqNo {
        GateView(v1, c, plain.value, sid);
      }
    }
  }

  lemma GateView(v: View, c: Chunk, clear: Clear, sid: StreamId)
    requires c.Data?
    requires sid == c.sid ==> !Accept(v, c, clear).1.Delivered?
    ensures var v2 := Accept(v, c, clear).0;
            && StreamOf(v2, sid) == StreamOf(v, sid)
            && (BufOf(v2, sid) == BufOf(v, sid) || (c.sid == sid && BufOf(v2, sid) == BufOf(v, sid)[c.seqNo as int := clear.data]))
  {
  }

  /** The next message and the buffered run behind it are a stretch of what was sent. */
  lemma RunIsStretch(s: seq<Bytes>, r: nat, buf: map<int, Bytes>)
    requires r < |s| && forall k :: k in buf ==> 0 <= k < |s| && buf[k] == s[k]
    ensures var run := Drained(buf, r + 1);
            r + 1 + |run| <= |s| && [s[r]] + run == s[r..r + 1 + |run|]
  {
    DrainedIs(buf, r + 1, s);
  }

  /** Delivering them: n messages, the next one among them. */
  lemma InOrderAdvance(s: seq<Bytes>, r: nat, got: Bytes, buf: map<int, Bytes>, n: nat)
    requires InOrder(s, r, got, buf) && r < |s| && n == 1 + |Drained(buf, r + 1)|
    ensures InOrder(s, r + n, got + Concat([s[r]] + Drained(buf, r + 1)), Without(buf, r + 1, r + n))
  {
    RunIsStretch(s, r, buf);
    var stretch := [s[r]] + Drained(buf, r + 1);
    assert stretch == s[r..r + n];
    assert s[..r] + stretch == s[..r + n];
    ConcatAppend(s[..r], stretch);
  }

  /** A delivery: the box opened, told the truth, and held the next message. */
  lemma DeliverShape(v: View, key: nat, assoc: int, c: Chunk)
    requires c.Data? && Receive(v, key, assoc, c).1.Delivered?
    ensures Admit(v, c.tsn).Some? && Admit(v, c.tsn).value.streams == v.streams && Admit(v, c.tsn).value.rcvbuf == v.rcvbuf
    ensures c.box.Sealed? && c.box.key == key && c.box.clear == Clear(c.tsn, c.sid, c.seqNo, c.box.clear.data)
    ensures c.seqNo == StreamOf(v, c.sid).recvSeq
    ensures Receive(v, key, assoc, c) ==
            (Advanced(Admit(v, c.tsn).value, c.sid, c.tsn),
             Delivered(c.sid, Concat([c.box.clear.data] + Drained(BufOf(v, c.sid), c.seqNo as int + 1))))
  {
  }

  /** The stream after a delivery: past everything in order, which is handed up with data in front. */
  ghost predicate DeliversTo(q: Peer, q2: Peer, sid: StreamId, data: Bytes) {
    var r, n := RecvSeq(q, sid) as int, RunLength(q.view, sid);
    && RecvSeq(q2, sid) == (r + n) % 0x1_0000
    && BufOf(q2.view, sid) == Without(BufOf(q.view, sid), r + 1, r + n)
    && GotOn(q2, sid) == GotOn(q, sid) + Concat([data] + Drained(BufOf(q.view, sid), r + 1))
  }

  lemma AdvancedView(v: View, v1: View, sid: StreamId, tsn: Tsn)
    requires v1.streams == v.streams && v1.rcvbuf == v.rcvbuf
    ensures var r, v2 := StreamOf(v, sid).recvSeq as int, Advanced(v1, sid, tsn);
            && StreamOf(v2, sid).recvSeq == (r + RunLength(v, sid)) % 0x1_0000
            && BufOf(v2, sid) == Without(BufOf(v, sid), r + 1, r + RunLength(v, sid))
  {
    assert BufOf(v1, sid) == BufOf(v, sid) && RunLength(v1, sid) == RunLength(v, sid);
  }

  /** Every delivery is one. */
  lemma DeliverStep(q: Peer, assoc: int, c: Chunk)
    requires c.Data? && Receive(q.view, q.recvKey, assoc, c).1.Delivered?
    ensures c.box.Sealed? && c.box.key == q.recvKey && c.seqNo == RecvSeq(q, c.sid)
    ensures c.box.clear == Clear(c.tsn, c.sid, c.seqNo, c.box.clear.data)
    ensures DeliversTo(q, DoData(q, assoc, c), c.sid, c.box.clear.data)
  {
    DeliverShape(q.view, q.recvKey, assoc, c);
    AdvancedView(q.view, Admit(q.view, c.tsn).value, c.sid, c.tsn);
  }

  lemma DeliveredFlow(p: Peer, q: Peer, q2: Peer, sid: StreamId)
    requires Flow(p, q, sid) && RecvSeq(q, sid) as int < |SentOn(p, sid)|
    requires DeliversTo(q, q2, sid, SentOn(p, sid)[RecvSeq(q, sid)])
    ensures Flow(p, q2, sid) && RecvSeq(q2, sid) == RecvSeq(q, sid) as int + RunLength(q.view, sid)
  {
    var r, n := RecvSeq(q, sid) as int, RunLength(q.view, sid);
    InOrderAdvance(SentOn(p, sid), r, GotOn(q, sid), BufOf(q.view, sid), n);
    Below16(r + n);
  }

  lemma Below16(x: int)
    requires 0 <= x < 0x1_0000
    ensures x % 0x1_0000 == x
  {
  }

  lemma DeliverFlow(p: Peer, q: Peer, assoc: int, c: Chunk)
    requires c.Data? && q.recvKey == p.sendKey
    requires c.box.Junk? || c.box.key != q.recvKey || Honest(p, c.box)
    requires Flow(p, q, c.sid)
    requires Receive(q.view, q.recvKey, assoc, c).1.Delivered?
    ensures Flow(p, DoData(q, assoc, c), c.sid)
    ensures RecvSeq(DoData(q, assoc, c), c.sid) == RecvSeq(q, c.sid) as int + RunLength(q.view, c.sid)
  {
    DeliverStep(q, assoc, c);
    DeliveredFlow(p, q, DoData(q, assoc, c), c.sid);
  }

  /** What a submission does to the two halves of an endpoint. */
  lemma SubmitView(p: Peer, assoc: int, sid: StreamId, data: Bytes, s: StreamId)
    requires StreamOf(p.view, s).sendSeq == |SentOn(p, s)|
    requires |SentOn(p, sid)| < 0xFFFF
    ensures var p2 := DoSubmit(p, assoc, sid, data);
            && StreamOf(p2.view, s).sendSeq == |SentOn(p2, s)|
            && SentOn(p, s) <= SentOn(p2, s)
            && |SentOn(p2, s)| <= |SentOn(p, s)| + (if s == sid then 1 else 0)
            && RecvSeq(p2, s) == RecvSeq(p, s) && GotOn(p2, s) == GotOn(p, s)
            && BufOf(p2.view, s) == BufOf(p.view, s)
  {
  }

  lemma InOrderGrows(s: seq<Bytes>, t: seq<Bytes>, r: nat, got: Bytes, buf: map<int, Bytes>)
    requires InOrder(s, r, got, buf) && s <= t && |t| < 0x1_0000
    ensures InOrder(t, r, got, buf)
  {
    assert t[..r] == s[..r];
  }

  /** Submitting leaves the receiving half of the same endpoint alone. */
  lemma SubmitKeeps(p: Peer, q: Peer, assoc: int, sid: StreamId, data: Bytes)
    requires |SentOn(p, sid)| < 0xFFFF
    requires Sender(p) && Flows(p, q) && Flows(q, p)
    ensures var p2 := DoSubmit(p, assoc, sid, data);
            Sender(p2) && Flows(p2, q) && Flows(q, p2)
  {
    var p2 := DoSubmit(p, assoc, sid, data);
    forall s
      ensures StreamOf(p2.view, s).sendSeq == |SentOn(p2, s)|
      ensures Flow(p2, q, s) && Flow(q, p2, s)
      ensures SentOn(p, s) <= SentOn(p2, s)
    {
      assert Flow(p, q, s) && Flow(q, p, s);
      SubmitView(p, assoc, sid, data, s);
      InOrderGrows(SentOn(p, s), SentOn(p2, s), RecvSeq(q, s), GotOn(q, s), BufOf(q.view, s));
    }
    SubmitOut(p, assoc, sid, data);
  }

  lemma SubmitOut(p: Peer, assoc: int, sid: StreamId, data: Bytes)
    requires Sender(p)
    requires forall s :: SentOn(p, s) <= SentOn(DoSubmit(p, assoc, sid, data), s)
    ensures var p2 := DoSubmit(p, assoc, sid, data);
            && (forall c :: c in p2.out && c.Data? ==> Honest(p2, c.box))
            && (forall i :: 0 <= i < |p2.view.sendq| ==> p2.view.sendq[i].chunk in p2.out)
  {
    var p2 := DoSubmit(p, assoc, sid, data);
    assert StreamOf(p.view, sid).sendSeq == |SentOn(p, sid)|;
    forall c | c in p2.out && c.Data?
      ensures Honest(p2, c.box)
    {
      if c in p.out {
        assert SentOn(p, c.box.clear.sid) <= SentOn(p2, c.box.clear.sid);
      }
    }
  }

  lemma {:induction false} ResentOld(q: seq<Item>, due: seq<bool>, out: set<Chunk>)
    requires |due| == |q|
    requires forall i :: 0 <= i < |q| ==> q[i].chunk in out
    ensures forall c :: c in Resent(q, due) ==> c in out
  {
    if q != [] {
      ResentOld(q[..|q| - 1], due[..|q| - 1], out);
    }
  }

  /** Endpoint p takes any enabled step; q is its peer. */
  lemma StepKeeps(w: World, p: Peer, q: Peer, e: Event)
    requires p.sendKey == q.recvKey != p.recvKey == q.sendKey
    requires Sender(p) && Sender(q) && Flows(p, q) && Flows(q, p)
    requires Enabled(w, p, e) && w.a.out + w.b.out == p.out + q.out
    ensures var p2 := Do(p, w.assoc, e);
            Sender(p2) && Flows(p2, q) && Flows(q, p2) && p2.sendKey == p.sendKey && p2.recvKey == p.recvKey
  {
    match e
    case Submit(sid, data) => SubmitKeeps(p, q, w.assoc, sid, data);
    case ArriveData(c) =>
      ReceiveFlow(q, p, w.assoc, c);
      DataKeepsSending(p, q, w.assoc, c);
    case ArriveSack(cum) => AckKeeps(p, q, cum);
    case Retransmit(due) =>
      ResentOld(p.view.sendq, due, p.out);
      assert Do(p, w.assoc, e).out == p.out;
      assert Do(p, w.assoc, e) == p;
  }

  lemma AckKeeps(p: Peer, q: Peer, cum: Tsn)
    requires Sender(p) && Flows(p, q) && Flows(q, p)
    ensures var p2 := p.(view := Acknowledge(p.view, cum));
            Sender(p2) && Flows(p2, q) && Flows(q, p2)
  {
    var p2 := p.(view := Acknowledge(p.view, cum));
    forall s
      ensures StreamOf(p2.view, s).sendSeq == |SentOn(p2, s)| && Flow(p2, q, s) && Flow(q, p2, s)
    {
      assert Flow(p, q, s) && Flow(q, p, s);
      assert SentOn(p2, s) == SentOn(p, s);
    }
    assert forall c :: c in p2.out && c.Data? ==> SentOn(p2, c.box.clear.sid) == SentOn(p, c.box.clear.sid);
  }

  lemma DataKeepsSending(p: Peer, q: Peer, assoc: int, c: Chunk)
    requires c.Data? && Sender(p) && Flows(p, q)
    ensures Sender(DoData(p, assoc, c)) && Flows(DoData(p, assoc, c), q)
  {
    var p2 := DoData(p, assoc, c);
    DataView(p, assoc, c);
    forall s
      ensures StreamOf(p2.view, s).sendSeq == |SentOn(p2, s)| && Flow(p2, q, s)
    {
      assert Flow(p, q, s);
      assert SentOn(p2, s) == SentOn(p, s);
    }
    assert forall d :: d in p2.out && d.Data? ==> d in p.out && SentOn(p2, d.box.clear.sid) == SentOn(p, d.box.clear.sid);
  }

  /** Receiving DATA leaves the sending half alone. */
  lemma DataView(p: Peer, assoc: int, c: Chunk)
    requires c.Data?
    ensures var p2 := DoData(p, assoc, c);
            && p2.sent == p.sent && p2.view.sendq == p.view.sendq && p2.view.nextTsn == p.view.nextTsn
            && (p2.out == p.out || p2.out == p.out + {Sack(p2.view.cumTsn)})
            && forall s :: StreamOf(p2.view, s).sendSeq == StreamOf(p.view, s).sendSeq
  {
  }

  lemma {:induction false} RunKeeps(w: World, steps: seq<Step>)
    requires Start(w) && Runs(w, steps)
    ensures Inv(After(w, steps)) && After(w, steps).assoc == w.assoc
  {
    if steps == [] {
      assert forall s: seq<Bytes> :: s[..0] == [];
    } else {
      var before, s := After(w, steps[..|steps| - 1]), steps[|steps| - 1];
      RunKeeps(w, steps[..|steps| - 1]);
      if s.atA {
        StepKeeps(before, before.a, before.b, s.event);
      } else {
        StepKeeps(before, before.b, before.a, s.event);
      }
    }
  }

  lemma ConcatPrefix(s: seq<Bytes>, r: nat)
    requires r <= |s|
    ensures Concat(s[..r]) <= Concat(s)
  {
    assert s == s[..r] + s[r..];
    ConcatAppend(s[..r], s[r..]);
  }

  /** In every run, the bytes delivered on each stream are the concatenation of
      the first recv_seq messages submitted to that stream at the other end. */
  lemma DeliveryIsPrefix(w: World, steps: seq<Step>, sid: StreamId)
    requires Start(w) && Runs(w, steps)
    ensures var e := After(w, steps);
            && RecvSeq(e.b, sid) <= |SentOn(e.a, sid)|
            && GotOn(e.b, sid) == Concat(SentOn(e.a, sid)[..RecvSeq(e.b, sid)]) <= Concat(SentOn(e.a, sid))
            && RecvSeq(e.a, sid) <= |SentOn(e.b, sid)|
            && GotOn(e.a, sid) == Concat(SentOn(e.b, sid)[..RecvSeq(e.a, sid)]) <= Concat(SentOn(e.b, sid))
  {
    RunKeeps(w, steps);
    var e := After(w, steps);
    assert Flow(e.a, e.b, sid) && Flow(e.b, e.a, sid);
    ConcatPrefix(SentOn(e.a, sid), RecvSeq(e.b, sid));
    ConcatPrefix(SentOn(e.b, sid), RecvSeq(e.a, sid));
  }
}
