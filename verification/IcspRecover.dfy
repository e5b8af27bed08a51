/** Recovery: which retransmitted chunks a receiver still takes, and when a retransmission
    pass delivers everything. */
module IcspRecover {
  import opened Machine
  import opened Octets
  import opened Wrappers
  import opened IcspSession
  import opened IcspRun
  import opened IcspComplete
  import IcspReplay
  import IcspWindow

  // ---- the TSNs that have passed the receiver's window ------------------------------------------

  /** The chunk is long enough and its TSN passes: the window is marked, whatever the box holds. */
  predicate Marks(q: Peer, c: Chunk)
    requires c.Data?
  {
    BoxLen(c.box) >= 32 && Admit(q.view, c.tsn).Some?
  }

  ghost function Passed(w: World, steps: seq<Step>): set<int>
    requires Runs(w, steps)
    decreases |steps|
  {
    if steps == [] then {}
    else
      var before, s := After(w, steps[..|steps| - 1]), steps[|steps| - 1];
      Passed(w, steps[..|steps| - 1]) +
      if !s.atA && s.event.ArriveData? && Marks(before.b, s.event.chunk) then {s.event.chunk.tsn as int} else {}
  }

  lemma WindowAfter(q: Peer, assoc: int, c: Chunk)
    requires c.Data?
    ensures var v2 := DoData(q, assoc, c).view;
            var v1 := if Marks(q, c) then Admit(q.view, c.tsn).value else q.view;
            v2.rwTsn == v1.rwTsn && v2.rwMask == v1.rwMask
  {
  }

  lemma MarkRecords(q: Peer, assoc: int, c: Chunk, passed: set<int>)
    requires c.Data? && IcspReplay.Records(IcspWindow.Cut(q.view), passed)
    ensures Admit(q.view, c.tsn).Some? <==> c.tsn as int !in passed && c.tsn as int + 32 > q.view.rwTsn as int
    ensures IcspReplay.Records(IcspWindow.Cut(DoData(q, assoc, c).view),
                               passed + if Marks(q, c) then {c.tsn as int} else {})
  {
    WindowAfter(q, assoc, c);
    IcspWindow.WindowsAgree(q.view, c.tsn);
    IcspReplay.AdmitKeeps(IcspWindow.Cut(q.view), c.tsn, passed);
    assert passed + {} == passed;
  }

  lemma OtherWindow(p: Peer, assoc: int, e: Event)
    requires !e.ArriveData? && (e.Retransmit? ==> |e.due| == |p.view.sendq|)
    ensures Do(p, assoc, e).view.rwTsn == p.view.rwTsn && Do(p, assoc, e).view.rwMask == p.view.rwMask
  {
  }

  /** In every run the receiver's window is exactly the record of the TSNs that passed. */
  lemma {:induction false} RunRecords(w: World, steps: seq<Step>)
    requires Start(w) && Runs(w, steps)
    ensures IcspReplay.Records(IcspWindow.Cut(After(w, steps).b.view), Passed(w, steps))
    ensures After(w, steps).assoc == w.assoc
    decreases |steps|
  {
    if steps == [] {
      IcspReplay.EmptyWindow();
    } else {
      var n := |steps| - 1;
      var before, s := After(w, steps[..n]), steps[n];
      RunRecords(w, steps[..n]);
      if !s.atA && s.event.ArriveData? {
        MarkRecords(before.b, w.assoc, s.event.chunk, Passed(w, steps[..n]));
      } else {
        assert Passed(w, steps[..n]) + {} == Passed(w, steps[..n]);
        if !s.atA {
          OtherWindow(before.b, w.assoc, s.event);
        }
      }
    }
  }

  // ---- the sender's log ------------------------------------------------------------------------

  /** The entry holds the chunk that was sealed for it. */
  predicate Genuine(key: nat, assoc: int, x: Item) {
    && x.chunk.Data? && x.chunk.box.Sealed?
    && x.chunk == Data(x.tsn, x.sid, x.seqNo, Sealed(key, assoc, x.tsn, Clear(x.tsn, x.sid, x.seqNo, x.chunk.box.clear.data)))
  }

  predicate EntryFor(q: seq<Item>, sid: StreamId, k: int, i: nat) {
    i < |q| && q[i].sid == sid && q[i].seqNo as int == k
  }

  ghost predicate HasEntry(q: seq<Item>, sid: StreamId, k: int) {
    exists i: nat :: EntryFor(q, sid, k, i)
  }

  ghost predicate HoldsChunk(q: seq<Item>, c: Chunk) {
    exists i: nat :: i < |q| && q[i].chunk == c
  }

  /** No two entries are for one message. */
  ghost predicate Unique(q: seq<Item>) {
    forall i, j :: 0 <= i < j < |q| && q[i].sid == q[j].sid ==> q[i].seqNo != q[j].seqNo
  }

  /** Every message that was sent has exactly one entry, and every sealed chunk is in one. */
  ghost predicate Logged(p: Peer, assoc: int) {
    && (forall i :: 0 <= i < |p.view.sendq| ==> Genuine(p.sendKey, assoc, p.view.sendq[i]))
    && (forall i :: 0 <= i < |p.view.sendq| ==> p.view.sendq[i].seqNo < |SentOn(p, p.view.sendq[i].sid)|)
    && (forall c :: c in p.out && c.Data? ==> HoldsChunk(p.view.sendq, c))
    && (forall sid: StreamId, k: int :: 0 <= k < |SentOn(p, sid)| ==> HasEntry(p.view.sendq, sid, k))
    && Unique(p.view.sendq)
  }

  lemma EntriesStay(q: seq<Item>, x: Item)
    ensures forall sid, k :: HasEntry(q, sid, k) ==> HasEntry(q + [x], sid, k)
    ensures forall c :: HoldsChunk(q, c) ==> HoldsChunk(q + [x], c)
    ensures HasEntry(q + [x], x.sid, x.seqNo as int) && HoldsChunk(q + [x], x.chunk)
  {
    var q2 := q + [x];
    forall sid, k | HasEntry(q, sid, k)
      ensures HasEntry(q2, sid, k)
    {
      var i: nat :| EntryFor(q, sid, k, i);
      assert EntryFor(q2, sid, k, i);
    }
    forall c | HoldsChunk(q, c)
      ensures HoldsChunk(q2, c)
    {
      var i: nat :| i < |q| && q[i].chunk == c;
      assert q2[i].chunk == c;
    }
    assert q2[|q|] == x;
    assert EntryFor(q2, x.sid, x.seqNo as int, |q|);
  }

  /** The log after a message was accepted. */
  lemma LogGrows(p: Peer, p2: Peer, assoc: int, x: Item)
    requires Logged(p, assoc) && Genuine(p.sendKey, assoc, x) && x.seqNo == |SentOn(p, x.sid)|
    requires p2.sendKey == p.sendKey && p2.view.sendq == p.view.sendq + [x] && p2.out == p.out + {x.chunk}
    requires forall s :: SentOn(p, s) <= SentOn(p2, s) && |SentOn(p2, s)| == |SentOn(p, s)| + if s == x.sid then 1 else 0
    ensures Logged(p2, assoc)
  {
    var q, q2 := p.view.sendq, p2.view.sendq;
    EntriesStay(q, x);
    assert forall i :: 0 <= i < |q| ==> q2[i] == q[i];
    assert q2[|q|] == x;
    forall sid: StreamId, k: int | 0 <= k < |SentOn(p2, sid)|
      ensures HasEntry(q2, sid, k)
    {
      assert k < |SentOn(p, sid)| ==> HasEntry(q, sid, k);
    }
  }

  lemma SubmitLogs(p: Peer, assoc: int, sid: StreamId, data: Bytes)
    requires Sender(p) && Logged(p, assoc) && |SentOn(p, sid)| < 0xFFFF
    ensures Logged(DoSubmit(p, assoc, sid, data), assoc)
  {
    var (v, r) := Send(p.view, Some(p.sendKey), assoc, sid, data);
    assert StreamOf(p.view, sid).sendSeq == |SentOn(p, sid)|;
    var p2 := DoSubmit(p, assoc, sid, data);
    if r.Sent? {
      LogGrows(p, p2, assoc, v.sendq[|v.sendq| - 1]);
    } else {
      SameLog(p, p2, assoc);
    }
  }

  /** The log does not look at the acked flags, nor at anything received. */
  lemma SameLog(p: Peer, p2: Peer, assoc: int)
    requires Logged(p, assoc) && p2.sendKey == p.sendKey && p2.sent == p.sent && |p2.view.sendq| == |p.view.sendq|
    requires forall i :: 0 <= i < |p.view.sendq| ==> p2.view.sendq[i] == p.view.sendq[i].(acked := p2.view.sendq[i].acked)
    requires forall c :: c in p2.out && c.Data? ==> c in p.out
    ensures Logged(p2, assoc)
  {
    var q, q2 := p.view.sendq, p2.view.sendq;
    assert forall s :: SentOn(p2, s) == SentOn(p, s);
    forall sid, k | HasEntry(q, sid, k)
      ensures HasEntry(q2, sid, k)
    {
      var i: nat :| EntryFor(q, sid, k, i);
      assert EntryFor(q2, sid, k, i);
    }
    forall c | HoldsChunk(q, c)
      ensures HoldsChunk(q2, c)
    {
      var i: nat :| i < |q| && q[i].chunk == c;
      assert q2[i].chunk == c;
    }
  }

  lemma StepLogs(p: Peer, assoc: int, e: Event)
    requires Sender(p) && Logged(p, assoc)
    requires e.Submit? ==> |SentOn(p, e.sid)| < 0xFFFF
    requires e.ArriveData? ==> e.chunk.Data?
    requires e.Retransmit? ==> |e.due| == |p.view.sendq|
    ensures Logged(Do(p, assoc, e), assoc)
  {
    match e
    case Submit(sid, data) => SubmitLogs(p, assoc, sid, data);
    case ArriveData(c) =>
      DataView(p, assoc, c);
      SameLog(p, Do(p, assoc, e), assoc);
    case ArriveSack(cum) => SameLog(p, Do(p, assoc, e), assoc);
    case Retransmit(due) =>
      ResentOld(p.view.sendq, due, p.out);
      SameLog(p, Do(p, assoc, e), assoc);
  }

  lemma {:induction false} RunLogs(w: World, steps: seq<Step>)
    requires Start(w) && Runs(w, steps)
    ensures Inv(After(w, steps)) && After(w, steps).assoc == w.assoc && Logged(After(w, steps).a, w.assoc)
    decreases |steps|
  {
    RunKeeps(w, steps);
    if steps != [] {
      var n := |steps| - 1;
      RunLogs(w, steps[..n]);
      if steps[n].atA {
        StepLogs(After(w, steps[..n]).a, w.assoc, steps[n].event);
      }
    }
  }

  // ---- which entries are still taken --------------------------------------------------------------

  /** The TSN has not passed, genuine or junk, and is less than 32 behind the newest. */
  ghost predicate StillOpen(q: Peer, passed: set<int>, tsn: Tsn) {
    tsn as int !in passed && tsn as int + 32 > q.view.rwTsn as int
  }

  lemma GenuineAccepted(q: Peer, key: nat, assoc: int, x: Item)
    requires Genuine(key, assoc, x) && q.recvKey == key
    ensures Accepts(q, assoc, x.chunk) <==> Admit(q.view, x.tsn).Some?
    ensures Marks(q, x.chunk) <==> Admit(q.view, x.tsn).Some?
  {
  }

  /** In every run: the chunk of a queue entry is accepted if it arrives now exactly when its
      TSN has not passed the window yet and is less than 32 behind. */
  lemma ResentTakenExactly(w: World, steps: seq<Step>, i: nat)
    requires Start(w) && Runs(w, steps) && i < |After(w, steps).a.view.sendq|
    ensures var e := After(w, steps);
            var x := e.a.view.sendq[i];
            x.chunk.Data? && (Accepts(e.b, w.assoc, x.chunk) <==> StillOpen(e.b, Passed(w, steps), x.tsn))
  {
    var e := After(w, steps);
    RunLogs(w, steps);
    RunRecords(w, steps);
    var x := e.a.view.sendq[i];
    assert Genuine(e.a.sendKey, w.assoc, x);
    GenuineAccepted(e.b, e.a.sendKey, w.assoc, x);
    MarkRecords(e.b, w.assoc, x.chunk, Passed(w, steps));
  }

  /** Whatever is accepted is the chunk of an entry, and its TSN was open. */
  lemma AcceptedIsEntry(w: World, steps: seq<Step>, c: Chunk) returns (j: nat)
    requires Start(w) && Runs(w, steps) && c.Data? && Known(After(w, steps), c.box)
    requires Accepts(After(w, steps).b, w.assoc, c)
    ensures StillOpen(After(w, steps).b, Passed(w, steps), c.tsn)
    ensures var q := After(w, steps).a.view.sendq;
            j < |q| && q[j].chunk == c && q[j].tsn == c.tsn && q[j].sid == c.sid && q[j].seqNo == c.seqNo
  {
    var e := After(w, steps);
    RunLogs(w, steps);
    RunRecords(w, steps);
    MarkRecords(e.b, w.assoc, c, Passed(w, steps));
    j := SealedIsEntry(e, c);
  }

  lemma SealedIsEntry(w: World, c: Chunk) returns (j: nat)
    requires Inv(w) && Logged(w.a, w.assoc) && c.Data? && Known(w, c.box) && Accepts(w.b, w.assoc, c)
    ensures var q := w.a.view.sendq;
            j < |q| && q[j].chunk == c && q[j].tsn == c.tsn && q[j].sid == c.sid && q[j].seqNo == c.seqNo
  {
    var d :| d in w.a.out + w.b.out && d.Data? && d.box == c.box;
    assert forall x :: x in w.b.out && x.Data? ==> x.box.Sealed? && x.box.key == w.b.sendKey;
    assert HoldsChunk(w.a.view.sendq, d);
    j :| j < |w.a.view.sendq| && w.a.view.sendq[j].chunk == d;
    assert Genuine(w.a.sendKey, w.assoc, w.a.view.sendq[j]);
  }

  // ---- what is barred stays barred -----------------------------------------------------------------

  /** One more step. */
  lemma Snoc(w: World, steps: seq<Step>, s: Step)
    requires Runs(w, steps) && CanStep(After(w, steps), s)
    ensures Runs(w, steps + [s]) && After(w, steps + [s]) == Next(After(w, steps), s)
    ensures var before := After(w, steps);
            && Seen(w, steps + [s]) == Seen(w, steps) +
               (if !s.atA && s.event.ArriveData? && Accepts(before.b, w.assoc, s.event.chunk)
                then {(s.event.chunk.sid, s.event.chunk.seqNo)} else {})
            && Passed(w, steps + [s]) == Passed(w, steps) +
               (if !s.atA && s.event.ArriveData? && Marks(before.b, s.event.chunk) then {s.event.chunk.tsn as int} else {})
  {
    assert (steps + [s])[..|steps + [s]| - 1] == steps;
  }

  /** The entry as it was, but for the acked flag, is still entry i. */
  lemma {:induction false} EntryStays(w: World, steps: seq<Step>, more: seq<Step>, i: nat)
    requires Runs(w, steps) && Runs(w, steps + more) && i < |After(w, steps).a.view.sendq|
    ensures var q, q2 := After(w, steps).a.view.sendq, After(w, steps + more).a.view.sendq;
            i < |q2| && q2[i] == q[i].(acked := q2[i].acked)
    decreases |more|
  {
    if more == [] {
      assert steps + more == steps;
    } else {
      var n := |more| - 1;
      assert (steps + more)[..|steps + more| - 1] == steps + more[..n];
      EntryStays(w, steps, more[..n], i);
      QueueGrows(After(w, steps + more[..n]), (steps + more)[|steps + more| - 1], i);
    }
  }

  lemma QueueGrows(w: World, s: Step, i: nat)
    requires CanStep(w, s) && i < |w.a.view.sendq|
    ensures var q2 := Next(w, s).a.view.sendq;
            i < |q2| && q2[i] == w.a.view.sendq[i].(acked := q2[i].acked)
  {
    if s.atA && s.event.ArriveData? {
      DataView(w.a, w.assoc, s.event.chunk);
    }
  }

  /** The window only moves forward. */
  lemma WindowForward(w: World, s: Step)
    requires CanStep(w, s)
    ensures w.b.view.rwTsn <= Next(w, s).b.view.rwTsn
  {
    if !s.atA {
      if s.event.ArriveData? {
        WindowAfter(w.b, w.assoc, s.event.chunk);
      } else {
        OtherWindow(w.b, w.assoc, s.event);
      }
    }
  }

  /** A message that was not accepted and whose TSN has passed, or is 32 behind, is never
      accepted in any continuation: its stream stops before it for good. */
  lemma {:induction false} BarredForGood(w: World, steps: seq<Step>, more: seq<Step>, i: nat)
    requires Start(w) && Runs(w, steps) && Runs(w, steps + more) && i < |After(w, steps).a.view.sendq|
    requires var e := After(w, steps);
             var x := e.a.view.sendq[i];
             (x.sid, x.seqNo) !in Seen(w, steps) && !StillOpen(e.b, Passed(w, steps), x.tsn)
    ensures var e, e2 := After(w, steps), After(w, steps + more);
            var x := e.a.view.sendq[i];
            && !StillOpen(e2.b, Passed(w, steps + more), x.tsn)
            && (x.sid, x.seqNo) !in Seen(w, steps + more) && RecvSeq(e2.b, x.sid) <= x.seqNo
    decreases |more|
  {
    if more == [] {
      assert steps + more == steps;
    } else {
      var n := |more| - 1;
      var before, s := steps + more[..n], more[n];
      assert (steps + more)[..|steps + more| - 1] == before && steps + more == before + [s];
      BarredForGood(w, steps, more[..n], i);
      Snoc(w, before, s);
      WindowForward(After(w, before), s);
      EntryStays(w, steps, more[..n], i);
      StillBarred(w, before, s, i);
    }
    DeliversAllWithoutGap(w, steps + more, After(w, steps).a.view.sendq[i].sid);
  }

  /** The step itself does not accept the message of a barred entry. */
  lemma StillBarred(w: World, steps: seq<Step>, s: Step, i: nat)
    requires Start(w) && Runs(w, steps) && CanStep(After(w, steps), s) && i < |After(w, steps).a.view.sendq|
    requires !StillOpen(After(w, steps).b, Passed(w, steps), After(w, steps).a.view.sendq[i].tsn)
    ensures var e := After(w, steps);
            var x := e.a.view.sendq[i];
            !s.atA && s.event.ArriveData? && Accepts(e.b, w.assoc, s.event.chunk)
            ==> (s.event.chunk.sid, s.event.chunk.seqNo) != (x.sid, x.seqNo)
  {
    var e := After(w, steps);
    if !s.atA && s.event.ArriveData? && Accepts(e.b, w.assoc, s.event.chunk) {
      RunLogs(w, steps);
      var j := AcceptedIsEntry(w, steps, s.event.chunk);
      assert Unique(e.a.view.sendq);
      assert j != i;
    }
  }

  /** Any 32 bytes of junk under an open TSN are enough: the message of that TSN is then never
      delivered, nor is any after it on its stream, however often its chunk is sent again. */
  lemma JunkBars(w: World, steps: seq<Step>, i: nat, len: nat) returns (s: Step)
    requires Start(w) && Runs(w, steps) && i < |After(w, steps).a.view.sendq| && len >= 32
    requires var x := After(w, steps).a.view.sendq[i];
             StillOpen(After(w, steps).b, Passed(w, steps), x.tsn) && (x.sid, x.seqNo) !in Seen(w, steps)
    ensures var x := After(w, steps).a.view.sendq[i];
            && s == Step(false, ArriveData(Data(x.tsn, x.sid, x.seqNo, Junk(len)))) && Runs(w, steps + [s])
            && forall more :: Runs(w, (steps + [s]) + more) ==> RecvSeq(After(w, (steps + [s]) + more).b, x.sid) <= x.seqNo
  {
    var e := After(w, steps);
    var x := e.a.view.sendq[i];
    var c := Data(x.tsn, x.sid, x.seqNo, Junk(len));
    s := Step(false, ArriveData(c));
    assert CanStep(e, s);
    Snoc(w, steps, s);
    RunRecords(w, steps);
    MarkRecords(e.b, w.assoc, c, Passed(w, steps));
    forall more | Runs(w, (steps + [s]) + more)
      ensures RecvSeq(After(w, (steps + [s]) + more).b, x.sid) <= x.seqNo
    {
      BarredForGood(w, steps + [s], more, i);
    }
  }

  // ---- one retransmission pass ------------------------------------------------------------------------

  /** Endpoint a's TSN does not wrap. */
  ghost predicate NoWrap(w: World, steps: seq<Step>)
    requires Runs(w, steps)
    decreases |steps|
  {
    steps == [] ||
    var before, s := After(w, steps[..|steps| - 1]), steps[|steps| - 1];
    NoWrap(w, steps[..|steps| - 1]) && (s.atA && s.event.Submit? ==> before.a.view.nextTsn as int + 1 < WRAP32)
  }

  /** TSNs ascend along the queue. */
  ghost predicate Ascends(v: View) {
    && (forall i :: 0 <= i < |v.sendq| ==> v.sendq[i].tsn < v.nextTsn)
    && (forall i, j :: 0 <= i < j < |v.sendq| ==> v.sendq[i].tsn < v.sendq[j].tsn)
  }

  lemma PushAscends(v: View, v2: View, x: Item)
    requires Ascends(v) && x.tsn == v.nextTsn && v2.nextTsn == v.nextTsn as int + 1 && v2.sendq == v.sendq + [x]
    ensures Ascends(v2)
  {
  }

  lemma SubmitAscends(p: Peer, assoc: int, sid: StreamId, data: Bytes)
    requires Ascends(p.view) && p.view.nextTsn as int + 1 < WRAP32
    ensures Ascends(DoSubmit(p, assoc, sid, data).view)
  {
    var (v2, r) := Send(p.view, Some(p.sendKey), assoc, sid, data);
    if r.Sent? {
      PushAscends(p.view, v2, v2.sendq[|v2.sendq| - 1]);
    } else {
      assert v2.sendq == p.view.sendq && v2.nextTsn >= p.view.nextTsn;
    }
  }

  lemma {:induction false} RunAscends(w: World, steps: seq<Step>)
    requires Start(w) && Runs(w, steps) && NoWrap(w, steps)
    ensures Ascends(After(w, steps).a.view)
    decreases |steps|
  {
    if steps != [] {
      var n := |steps| - 1;
      var before, s := After(w, steps[..n]), steps[n];
      RunAscends(w, steps[..n]);
      if s.atA {
        match s.event
        case Submit(sid, data) => SubmitAscends(before.a, before.assoc, sid, data);
        case ArriveData(c) => DataView(before.a, before.assoc, c);
        case ArriveSack(cum) =>
        case Retransmit(due) =>
      }
    }
  }

  function AllDue(n: nat): (due: seq<bool>)
    ensures |due| == n && forall i :: 0 <= i < n ==> due[i]
  {
    seq(n, i => true)
  }

  /** The chunks arrive at b, in order. */
  function Arrivals(cs: seq<Chunk>): (steps: seq<Step>)
    ensures |steps| == |cs|
  {
    seq(|cs|, i requires 0 <= i < |cs| => Step(false, ArriveData(cs[i])))
  }

  /** Retransmit everything that is not acked; all of it arrives. */
  function Pass(q: seq<Item>): seq<Step> {
    [Step(true, Retransmit(AllDue(|q|)))] + Arrivals(Resent(q, AllDue(|q|)))
  }

  /** Which entries a pass resends with a TSN that is still open. */
  ghost function OpenFlags(w: World, steps: seq<Step>): (flags: seq<bool>)
    requires Runs(w, steps)
    ensures |flags| == |After(w, steps).a.view.sendq|
    ensures forall i :: 0 <= i < |flags| ==> (flags[i] <==> Opens(After(w, steps), Passed(w, steps), i))
  {
    seq(|After(w, steps).a.view.sendq|,
        i requires 0 <= i < |After(w, steps).a.view.sendq| => Opens(After(w, steps), Passed(w, steps), i))
  }

  ghost predicate Opens(e: World, passed: set<int>, i: nat)
    requires i < |e.a.view.sendq|
  {
    !e.a.view.sendq[i].acked && StillOpen(e.b, passed, e.a.view.sendq[i].tsn)
  }

  /** The message of entry i was accepted, or its chunk is resent and still taken. */
  ghost predicate Recoverable(w: World, steps: seq<Step>, i: nat)
    requires Runs(w, steps) && i < |After(w, steps).a.view.sendq|
  {
    var x := After(w, steps).a.view.sendq[i];
    (x.sid, x.seqNo) in Seen(w, steps) || Opens(After(w, steps), Passed(w, steps), i)
  }

  /** (sid, k) is one of the first n entries, and flagged. */
  predicate Counted(q: seq<Item>, flags: seq<bool>, n: nat, sid: StreamId, k: StreamSeq)
    requires n <= |q| == |flags|
  {
    n > 0 && (Counted(q, flags, n - 1, sid, k) || (flags[n - 1] && q[n - 1].sid == sid && q[n - 1].seqNo == k))
  }

  lemma {:induction false} CountedExactly(q: seq<Item>, flags: seq<bool>, n: nat, i: nat)
    requires n <= |q| == |flags| && Unique(q) && i < |q|
    ensures Counted(q, flags, n, q[i].sid, q[i].seqNo) <==> i < n && flags[i]
    decreases n
  {
    if n > 0 {
      CountedExactly(q, flags, n - 1, i);
    }
  }

  /** What b has seen after the first n entries were gone through. */
  ghost predicate SawOpen(before: set<(StreamId, StreamSeq)>, now: set<(StreamId, StreamSeq)>, q: seq<Item>, flags: seq<bool>, n: nat)
    requires n <= |q| == |flags|
  {
    forall sid: StreamId, k: StreamSeq :: (sid, k) in now <==> (sid, k) in before || Counted(q, flags, n, sid, k)
  }

  lemma SawNext(before: set<(StreamId, StreamSeq)>, now: set<(StreamId, StreamSeq)>, later: set<(StreamId, StreamSeq)>,
                q: seq<Item>, flags: seq<bool>, n: nat)
    requires n < |q| == |flags| && SawOpen(before, now, q, flags, n)
    requires later == now + if flags[n] then {(q[n].sid, q[n].seqNo)} else {}
    ensures SawOpen(before, later, q, flags, n + 1)
  {
  }

  /** The TSNs of the entries from n on are open as they were. */
  ghost predicate Stand(b: Peer, passed: set<int>, b2: Peer, passed2: set<int>, q: seq<Item>, n: nat) {
    forall i :: n <= i < |q| ==> (StillOpen(b2, passed2, q[i].tsn) <==> StillOpen(b, passed, q[i].tsn))
  }

  /** The first n entries have been gone through: their open ones are accepted now, and the
      others stand as they did. */
  ghost predicate Through(w: World, steps: seq<Step>, now: seq<Step>, n: nat)
    requires Runs(w, steps)
  {
    && Runs(w, now) && After(w, now).a == After(w, steps).a
    && n <= |After(w, steps).a.view.sendq|
    && Stand(After(w, steps).b, Passed(w, steps), After(w, now).b, Passed(w, now), After(w, steps).a.view.sendq, n)
    && SawOpen(Seen(w, steps), Seen(w, now), After(w, steps).a.view.sendq, OpenFlags(w, steps), n)
  }

  lemma PassBegins(w: World, steps: seq<Step>)
    requires Start(w) && Runs(w, steps)
    ensures Through(w, steps, steps + [Step(true, Retransmit(AllDue(|After(w, steps).a.view.sendq|)))], 0)
  {
    var e := After(w, steps);
    RunKeeps(w, steps);
    var due := AllDue(|e.a.view.sendq|);
    var s := Step(true, Retransmit(due));
    assert CanStep(e, s);
    ResentOld(e.a.view.sendq, due, e.a.out);
    assert Next(e, s).a.out == e.a.out;
    assert Next(e, s) == e;
    Snoc(w, steps, s);
    assert Seen(w, steps) + {} == Seen(w, steps) && Passed(w, steps) + {} == Passed(w, steps);
  }

  /** What the chunk of a genuine entry does when it arrives. */
  lemma EntryArrives(w: World, now: seq<Step>, x: Item) returns (s: Step)
    requires Start(w) && Runs(w, now) && x in After(w, now).a.view.sendq
    ensures x.chunk.Data? && s == Step(false, ArriveData(x.chunk))
    ensures Runs(w, now + [s]) && After(w, now + [s]).a == After(w, now).a
    ensures var b, b2, taken := After(w, now).b, After(w, now + [s]).b, StillOpen(After(w, now).b, Passed(w, now), x.tsn);
            && Seen(w, now + [s]) == Seen(w, now) + (if taken then {(x.sid, x.seqNo)} else {})
            && Passed(w, now) <= Passed(w, now + [s]) <= Passed(w, now) + {x.tsn as int}
            && b2.view.rwTsn == if taken && x.tsn > b.view.rwTsn then x.tsn else b.view.rwTsn
  {
    var e := After(w, now);
    RunLogs(w, now);
    RunRecords(w, now);
    assert Genuine(e.a.sendKey, w.assoc, x);
    assert x.chunk in e.a.out && Known(e, x.chunk.box);
    s := Step(false, ArriveData(x.chunk));
    assert CanStep(e, s);
    Snoc(w, now, s);
    GenuineAccepted(e.b, e.a.sendKey, w.assoc, x);
    MarkRecords(e.b, w.assoc, x.chunk, Passed(w, now));
    WindowAfter(e.b, w.assoc, x.chunk);
  }

  /** A TSN that passes changes nothing for the larger ones. */
  lemma OthersStand(b: Peer, passed: set<int>, b1: Peer, passed1: set<int>, b2: Peer, passed2: set<int>, q: seq<Item>, n: nat)
    requires n < |q| && forall i :: n < i < |q| ==> q[n].tsn < q[i].tsn
    requires Stand(b, passed, b1, passed1, q, n) && passed1 <= passed2 <= passed1 + {q[n].tsn as int}
    requires b2.view.rwTsn == b1.view.rwTsn || (b2.view.rwTsn == q[n].tsn && b1.view.rwTsn <= q[n].tsn)
    ensures Stand(b, passed, b2, passed2, q, n + 1)
  {
  }

  /** The step that a pass makes for an entry. */
  function StepFor(x: Item): seq<Step> {
    if x.acked then [] else [Step(false, ArriveData(x.chunk))]
  }

  lemma PassChunk(w: World, steps: seq<Step>, now: seq<Step>, n: nat)
    requires Start(w) && Runs(w, steps) && Ascends(After(w, steps).a.view)
    requires Through(w, steps, now, n) && n < |After(w, steps).a.view.sendq|
    ensures Through(w, steps, now + StepFor(After(w, steps).a.view.sendq[n]), n + 1)
  {
    var e, q, flags := After(w, steps), After(w, steps).a.view.sendq, OpenFlags(w, steps);
    var later := now;
    if q[n].acked {
      assert now + StepFor(q[n]) == now && Seen(w, now) + {} == Seen(w, now);
    } else {
      var s := EntryArrives(w, now, q[n]);
      later := now + [s];
    }
    OthersStand(e.b, Passed(w, steps), After(w, now).b, Passed(w, now), After(w, later).b, Passed(w, later), q, n);
    SawNext(Seen(w, steps), Seen(w, now), Seen(w, later), q, flags, n);
  }

  /** The pass over the first n entries. */
  function PassOver(q: seq<Item>, n: nat): seq<Step>
    requires n <= |q|
  {
    [Step(true, Retransmit(AllDue(|q|)))] + Arrivals(Resent(q[..n], AllDue(n)))
  }

  lemma PassOverNext(q: seq<Item>, n: nat)
    requires n < |q|
    ensures PassOver(q, n + 1) == PassOver(q, n) + StepFor(q[n])
  {
    assert q[..n + 1][..n] == q[..n] && AllDue(n + 1)[..n] == AllDue(n);
    var cs, cs2 := Resent(q[..n], AllDue(n)), Resent(q[..n + 1], AllDue(n + 1));
    assert cs2 == cs + if q[n].acked then [] else [q[n].chunk];
    assert Arrivals(cs2) == Arrivals(cs) + StepFor(q[n]);
  }

  lemma JoinSteps(a: seq<Step>, b: seq<Step>, c: seq<Step>)
    ensures a + (b + c) == (a + b) + c
  {
  }

  lemma {:induction false} PassGoesThrough(w: World, steps: seq<Step>, n: nat)
    requires Start(w) && Runs(w, steps) && Ascends(After(w, steps).a.view) && n <= |After(w, steps).a.view.sendq|
    ensures Through(w, steps, steps + PassOver(After(w, steps).a.view.sendq, n), n)
    decreases n
  {
    var q := After(w, steps).a.view.sendq;
    if n == 0 {
      PassBegins(w, steps);
      assert PassOver(q, 0) == [Step(true, Retransmit(AllDue(|q|)))];
    } else {
      PassGoesThrough(w, steps, n - 1);
      PassOverNext(q, n - 1);
      JoinSteps(steps, PassOver(q, n - 1), StepFor(q[n - 1]));
      PassChunk(w, steps, steps + PassOver(q, n - 1), n - 1);
    }
  }

  /** Every message sent on the stream was delivered. */
  ghost predicate Complete(e: World, sid: StreamId) {
    RecvSeq(e.b, sid) as int == |SentOn(e.a, sid)|
  }

  ghost predicate AllComplete(e: World) {
    forall sid :: Complete(e, sid)
  }

  ghost predicate AllRecoverable(w: World, steps: seq<Step>)
    requires Runs(w, steps)
  {
    forall i: nat :: i < |After(w, steps).a.view.sendq| ==> Recoverable(w, steps, i)
  }

  /** In every run in which the sender's TSN does not wrap: retransmitting everything not acked,
      and all of it arriving, delivers every message ever sent if and only if each was accepted
      before or is not acked, has a TSN that has not passed, and is less than 32 behind. */
  lemma RecoversExactly(w: World, steps: seq<Step>)
    requires Start(w) && Runs(w, steps) && NoWrap(w, steps)
    ensures var all := steps + Pass(After(w, steps).a.view.sendq);
            && Runs(w, all) && After(w, all).a == After(w, steps).a
            && (AllComplete(After(w, all)) <==> AllRecoverable(w, steps))
  {
    var q := After(w, steps).a.view.sendq;
    RunAscends(w, steps);
    PassGoesThrough(w, steps, |q|);
    assert q[..|q|] == q;
    RunLogs(w, steps);
    PassOutcome(w, steps, steps + Pass(q));
  }

  /** What a pass through all entries has achieved. */
  lemma PassOutcome(w: World, steps: seq<Step>, all: seq<Step>)
    requires Start(w) && Runs(w, steps) && Logged(After(w, steps).a, w.assoc)
    requires Through(w, steps, all, |After(w, steps).a.view.sendq|)
    ensures AllComplete(After(w, all)) <==> AllRecoverable(w, steps)
  {
    var q, e := After(w, steps).a.view.sendq, After(w, all);
    if AllRecoverable(w, steps) {
      forall sid
        ensures Complete(e, sid)
      {
        AllRecovered(w, steps, all, sid);
      }
    }
    if AllComplete(e) {
      forall i: nat | i < |q|
        ensures Recoverable(w, steps, i)
      {
        assert Complete(e, q[i].sid);
        WasRecoverable(w, steps, all, i);
      }
    }
  }

  lemma AllRecovered(w: World, steps: seq<Step>, all: seq<Step>, sid: StreamId)
    requires Start(w) && Runs(w, steps) && Logged(After(w, steps).a, w.assoc)
    requires Through(w, steps, all, |After(w, steps).a.view.sendq|)
    requires AllRecoverable(w, steps)
    ensures Complete(After(w, all), sid)
  {
    var q, r := After(w, steps).a.view.sendq, RecvSeq(After(w, all).b, sid);
    DeliversAllWithoutGap(w, all, sid);
    if r as int < |SentOn(After(w, steps).a, sid)| {
      assert HasEntry(q, sid, r as int);
      var i: nat :| EntryFor(q, sid, r as int, i);
      assert Recoverable(w, steps, i);
      CountedExactly(q, OpenFlags(w, steps), |q|, i);
      assert false;
    }
  }

  lemma WasRecoverable(w: World, steps: seq<Step>, all: seq<Step>, i: nat)
    requires Start(w) && Runs(w, steps) && Logged(After(w, steps).a, w.assoc) && i < |After(w, steps).a.view.sendq|
    requires Through(w, steps, all, |After(w, steps).a.view.sendq|)
    requires Complete(After(w, all), After(w, steps).a.view.sendq[i].sid)
    ensures Recoverable(w, steps, i)
  {
    var q := After(w, steps).a.view.sendq;
    var sid, k := q[i].sid, q[i].seqNo;
    DeliversAllWithoutGap(w, all, sid);
    assert (sid, k) in Seen(w, all);
    CountedExactly(q, OpenFlags(w, steps), |q|, i);
  }
}
