/** What b's acknowledgements settle: which entries they mark, and when they mark all. */
module IcspSettle {
  import opened Octets
  import opened Wrappers
  import opened IcspSession
  import opened IcspRun
  import opened IcspComplete
  import opened IcspAck
  import opened IcspRecover

  // ---- the cumulative TSN -------------------------------------------------------------------

  /** The chunk was the next of its stream when it arrived at q, and was delivered at once. */
  predicate Delivers(q: Peer, assoc: int, c: Chunk)
    requires c.Data?
  {
    Receive(q.view, q.recvKey, assoc, c).1.Delivered?
  }

  /** The TSNs that arrived at b as the next of their stream. */
  ghost function Direct(w: World, steps: seq<Step>): set<int>
    requires Runs(w, steps)
    decreases |steps|
  {
    if steps == [] then {}
    else
      var before, s := After(w, steps[..|steps| - 1]), steps[|steps| - 1];
      Direct(w, steps[..|steps| - 1]) +
      if !s.atA && s.event.ArriveData? && Delivers(before.b, w.assoc, s.event.chunk) then {s.event.chunk.tsn as int} else {}
  }

  /** The largest of a set, or 0. */
  ghost predicate Highest(top: int, s: set<int>) {
    (top == 0 || top in s) && forall t :: t in s ==> t <= top
  }

  lemma CumMoves(q: Peer, assoc: int, c: Chunk, direct: set<int>)
    requires c.Data? && Highest(q.view.cumTsn as int, direct)
    ensures Highest(DoData(q, assoc, c).view.cumTsn as int,
                    direct + if Delivers(q, assoc, c) then {c.tsn as int} else {})
  {
    if Delivers(q, assoc, c) {
      CumDelivered(q.view, q.recvKey, assoc, c);
    } else {
      CumWaiting(q.view, q.recvKey, assoc, c);
      assert direct + {} == direct;
    }
  }

  /** In every run b's cumulative TSN is the largest that arrived as the next of its stream. */
  lemma {:induction false} CumIsHighest(w: World, steps: seq<Step>)
    requires Start(w) && Runs(w, steps)
    ensures Highest(After(w, steps).b.view.cumTsn as int, Direct(w, steps)) && After(w, steps).assoc == w.assoc
    decreases |steps|
  {
    if steps != [] {
      var n := |steps| - 1;
      var before, s := After(w, steps[..n]), steps[n];
      CumIsHighest(w, steps[..n]);
      if !s.atA && s.event.ArriveData? {
        CumMoves(before.b, w.assoc, s.event.chunk, Direct(w, steps[..n]));
      } else {
        assert Direct(w, steps[..n]) + {} == Direct(w, steps[..n]);
        if !s.atA {
          CumStays(before.b, w.assoc, s.event);
        }
      }
    }
  }

  lemma CumStays(p: Peer, assoc: int, e: Event)
    requires !e.ArriveData? && (e.Retransmit? ==> |e.due| == |p.view.sendq|)
    ensures Do(p, assoc, e).view.cumTsn == p.view.cumTsn
  {
  }

  // ---- what b's latest SACK marks -------------------------------------------------------------

  /** b's SACK reaches a. */
  ghost function Settled(e: World): World {
    e.(a := e.a.(view := Acknowledge(e.a.view, e.b.view.cumTsn)))
  }

  ghost predicate Reached(s: set<int>, tsn: int) {
    exists t :: t in s && tsn <= t
  }

  /** An entry is marked exactly when it was, or its TSN is 0, or one at least as large arrived
      as the next of its stream. */
  lemma MarkedExactly(w: World, steps: seq<Step>, i: nat)
    requires Start(w) && Runs(w, steps) && i < |After(w, steps).a.view.sendq|
    ensures var e := After(w, steps);
            var x := e.a.view.sendq[i];
            |Settled(e).a.view.sendq| == |e.a.view.sendq| &&
            (Settled(e).a.view.sendq[i].acked
             <==> x.acked || x.tsn == 0 || Reached(Direct(w, steps), x.tsn as int))
  {
    CumIsHighest(w, steps);
    var e := After(w, steps);
    SackMarks(e.a.view, e.b.view.cumTsn, i);
    Covers(e.b.view.cumTsn as int, Direct(w, steps), e.a.view.sendq[i].tsn as int);
  }

  lemma SackMarks(v: View, cum: Tsn, i: nat)
    requires i < |v.sendq|
    ensures var q2 := Acknowledge(v, cum).sendq;
            |q2| == |v.sendq| && (q2[i].acked <==> v.sendq[i].acked || v.sendq[i].tsn <= cum)
  {
  }

  lemma Covers(top: int, direct: set<int>, tsn: int)
    requires Highest(top, direct) && tsn >= 0 && top >= 0
    ensures tsn <= top <==> tsn == 0 || Reached(direct, tsn)
  {
    if tsn <= top && tsn != 0 {
      assert top in direct;
    }
  }

  // ---- when everything is marked ---------------------------------------------------------------

  /** Every chunk b accepted was the next of its stream. */
  ghost predicate InSendOrder(w: World, steps: seq<Step>)
    requires Runs(w, steps)
    decreases |steps|
  {
    steps == [] ||
    var before, s := After(w, steps[..|steps| - 1]), steps[|steps| - 1];
    InSendOrder(w, steps[..|steps| - 1]) &&
    (!s.atA && s.event.ArriveData? && Accepts(before.b, w.assoc, s.event.chunk) ==> Delivers(before.b, w.assoc, s.event.chunk))
  }

  /** Then the TSN of an accepted message arrived as the next of its stream. */
  lemma {:induction false} SeenIsDirect(w: World, steps: seq<Step>, i: nat)
    requires Start(w) && Runs(w, steps) && InSendOrder(w, steps) && i < |After(w, steps).a.view.sendq|
    requires (After(w, steps).a.view.sendq[i].sid, After(w, steps).a.view.sendq[i].seqNo) in Seen(w, steps)
    ensures After(w, steps).a.view.sendq[i].tsn as int in Direct(w, steps)
    decreases |steps|
  {
    if steps != [] {
      var n := |steps| - 1;
      var prefix, s := steps[..n], steps[n];
      var before, x := After(w, prefix), After(w, steps).a.view.sendq[i];
      RunLogs(w, steps);
      if !s.atA && s.event.ArriveData? && Accepts(before.b, w.assoc, s.event.chunk)
         && (s.event.chunk.sid, s.event.chunk.seqNo) == (x.sid, x.seqNo) {
        var j := AcceptedIsEntry(w, prefix, s.event.chunk);
        SameEntry(After(w, steps).a.view.sendq, i, j);
      } else {
        EarlierEntry(w, steps, i);
        SeenIsDirect(w, prefix, i);
      }
    }
  }

  lemma SameEntry(q: seq<Item>, i: nat, j: nat)
    requires Unique(q) && i < |q| && j < |q| && q[i].sid == q[j].sid && q[i].seqNo == q[j].seqNo
    ensures i == j
  {
  }

  lemma QueueUnique(w: World, steps: seq<Step>)
    requires Start(w) && Runs(w, steps)
    ensures Unique(After(w, steps).a.view.sendq)
  {
    RunLogs(w, steps);
  }

  lemma StaysOneStep(w: World, steps: seq<Step>, j: nat)
    requires Start(w) && Runs(w, steps) && steps != [] && j < |After(w, steps[..|steps| - 1]).a.view.sendq|
    ensures var q, q2 := After(w, steps[..|steps| - 1]).a.view.sendq, After(w, steps).a.view.sendq;
            j < |q2| && q2[j] == q[j].(acked := q2[j].acked)
  {
    var prefix, last := steps[..|steps| - 1], [steps[|steps| - 1]];
    assert prefix + last == steps;
    EntryStays(w, prefix, last, j);
  }

  lemma IsThatEntry(q: seq<Item>, q2: seq<Item>, i: nat, j: nat)
    requires Unique(q2) && i < |q2| && j < |q| && j < |q2| && q2[j] == q[j].(acked := q2[j].acked)
    requires EntryFor(q, q2[i].sid, q2[i].seqNo as int, j)
    ensures i == j
  {
    SameEntry(q2, i, j);
  }

  /** A message seen before the last step had its entry before it. */
  lemma EarlierEntry(w: World, steps: seq<Step>, i: nat)
    requires Start(w) && Runs(w, steps) && steps != [] && i < |After(w, steps).a.view.sendq|
    requires var x := After(w, steps).a.view.sendq[i];
             (x.sid, x.seqNo) in Seen(w, steps[..|steps| - 1])
    ensures var q, q2 := After(w, steps[..|steps| - 1]).a.view.sendq, After(w, steps).a.view.sendq;
            i < |q| && q2[i] == q[i].(acked := q2[i].acked)
  {
    var q, q2 := After(w, steps[..|steps| - 1]).a.view.sendq, After(w, steps).a.view.sendq;
    var j := SeenHasEntry(w, steps[..|steps| - 1], q2[i].sid, q2[i].seqNo);
    QueueUnique(w, steps);
    StaysOneStep(w, steps, j);
    IsThatEntry(q, q2, i, j);
  }

  lemma SeenHasEntry(w: World, steps: seq<Step>, sid: StreamId, k: StreamSeq) returns (j: nat)
    requires Start(w) && Runs(w, steps) && (sid, k) in Seen(w, steps)
    ensures EntryFor(After(w, steps).a.view.sendq, sid, k as int, j)
  {
    var e := After(w, steps);
    RunLogs(w, steps);
    RunAccounts(w, steps, sid);
    assert Flow(e.a, e.b, sid);
    assert (k < RecvSeq(e.b, sid) || k as int in BufOf(e.b.view, sid));
    assert HasEntry(e.a.view.sendq, sid, k as int);
    j :| EntryFor(e.a.view.sendq, sid, k as int, j);
  }

  /** The converse of soundness, for any number of streams: once everything sent has been
      delivered, each chunk accepted as the next of its stream, b's latest SACK leaves no
      entry unacked. */
  lemma EverythingAcked(w: World, steps: seq<Step>, i: nat)
    requires Start(w) && Runs(w, steps) && InSendOrder(w, steps) && AllComplete(After(w, steps))
    requires i < |After(w, steps).a.view.sendq|
    ensures |Settled(After(w, steps)).a.view.sendq| == |After(w, steps).a.view.sendq|
    ensures Settled(After(w, steps)).a.view.sendq[i].acked
  {
    var e := After(w, steps);
    var x := e.a.view.sendq[i];
    RunLogs(w, steps);
    assert Complete(e, x.sid);
    DeliversAllWithoutGap(w, steps, x.sid);
    SeenIsDirect(w, steps, i);
    MarkedExactly(w, steps, i);
  }

  ghost predicate AllMarked(q: seq<Item>) {
    forall i :: 0 <= i < |q| ==> q[i].acked
  }

  lemma NewestFirst(v: View, i: nat, n: nat)
    requires Ascends(v) && i <= n < |v.sendq|
    ensures v.sendq[i].tsn <= v.sendq[n].tsn
  {
    assert i < n ==> v.sendq[i].tsn < v.sendq[n].tsn;
  }

  /** Nothing that arrived is newer than the newest entry. */
  lemma NewestDirect(w: World, steps: seq<Step>, n: nat, t: int)
    requires Start(w) && Runs(w, steps) && NoWrap(w, steps) && t in Direct(w, steps)
    requires n + 1 == |After(w, steps).a.view.sendq|
    ensures t <= After(w, steps).a.view.sendq[n].tsn as int
  {
    var v := After(w, steps).a.view;
    DirectSent(w, steps);
    RunAscends(w, steps);
    assert HasTsn(v.sendq, t);
    var i: nat :| i < |v.sendq| && v.sendq[i].tsn as int == t;
    NewestFirst(v, i, n);
  }

  /** A SACK that covers the newest entry marks all. */
  lemma NewestCarries(v: View, cum: Tsn, n: nat)
    requires Ascends(v) && n + 1 == |v.sendq| && v.sendq[n].tsn <= cum
    ensures AllMarked(Acknowledge(v, cum).sendq)
  {
    forall i | 0 <= i < |v.sendq|
      ensures Acknowledge(v, cum).sendq[i].acked
    {
      NewestFirst(v, i, n);
      SackMarks(v, cum, i);
    }
  }

  /** b's cumulative TSN covers the newest entry exactly when that has TSN 0 or arrived as next. */
  lemma NewestCovered(w: World, steps: seq<Step>, n: nat)
    requires Start(w) && Runs(w, steps) && NoWrap(w, steps) && n + 1 == |After(w, steps).a.view.sendq|
    ensures var tsn := After(w, steps).a.view.sendq[n].tsn;
            tsn <= After(w, steps).b.view.cumTsn <==> tsn == 0 || tsn as int in Direct(w, steps)
  {
    var top, tsn := After(w, steps).b.view.cumTsn as int, After(w, steps).a.view.sendq[n].tsn as int;
    CumIsHighest(w, steps);
    forall t | t in Direct(w, steps)
      ensures t <= tsn
    {
      NewestDirect(w, steps, n, t);
    }
    CoversTop(top, Direct(w, steps), tsn);
  }

  lemma CoversTop(top: int, direct: set<int>, tsn: int)
    requires Highest(top, direct) && tsn >= 0 && top >= 0 && forall t :: t in direct ==> t <= tsn
    ensures tsn <= top <==> tsn == 0 || tsn in direct
  {
  }

  /** In every run without a TSN wrap, in whatever order chunks arrive: while the newest entry is
      unacked, b's latest SACK leaves nothing unacked exactly when that entry has TSN 0 or its
      chunk was the next of its stream when it arrived. */
  lemma NewestDecides(w: World, steps: seq<Step>, n: nat)
    requires Start(w) && Runs(w, steps) && NoWrap(w, steps) && n + 1 == |After(w, steps).a.view.sendq|
    requires !After(w, steps).a.view.sendq[n].acked
    ensures var tsn := After(w, steps).a.view.sendq[n].tsn;
            AllMarked(Settled(After(w, steps)).a.view.sendq) <==> tsn == 0 || tsn as int in Direct(w, steps)
  {
    var v, cum := After(w, steps).a.view, After(w, steps).b.view.cumTsn;
    NewestCovered(w, steps, n);
    SackMarks(v, cum, n);
    if v.sendq[n].tsn <= cum {
      RunAscends(w, steps);
      NewestCarries(v, cum, n);
    }
  }

  /** A TSN that arrived as the next of its stream is that of an entry. */
  lemma {:induction false} DirectSent(w: World, steps: seq<Step>)
    requires Start(w) && Runs(w, steps)
    ensures forall t :: t in Direct(w, steps) ==> HasTsn(After(w, steps).a.view.sendq, t)
    decreases |steps|
  {
    if steps != [] {
      var n := |steps| - 1;
      var prefix, s := steps[..n], steps[n];
      var before := After(w, prefix);
      DirectSent(w, prefix);
      RunLogs(w, prefix);
      TsnsStay(before, s);
      if !s.atA && s.event.ArriveData? && Delivers(before.b, w.assoc, s.event.chunk) {
        DeliverStep(before.b, w.assoc, s.event.chunk);
        assert Accepts(before.b, w.assoc, s.event.chunk);
        var j := AcceptedIsEntry(w, prefix, s.event.chunk);
        assert HasTsn(before.a.view.sendq, s.event.chunk.tsn as int);
      }
    }
  }

  ghost predicate HasTsn(q: seq<Item>, t: int) {
    exists i: nat :: i < |q| && q[i].tsn as int == t
  }

  lemma TsnsStay(w: World, s: Step)
    requires CanStep(w, s)
    ensures forall t :: HasTsn(w.a.view.sendq, t) ==> HasTsn(Next(w, s).a.view.sendq, t)
  {
    forall t | HasTsn(w.a.view.sendq, t)
      ensures HasTsn(Next(w, s).a.view.sendq, t)
    {
      var i: nat :| i < |w.a.view.sendq| && w.a.view.sendq[i].tsn as int == t;
      QueueGrows(w, s, i);
      assert Next(w, s).a.view.sendq[i].tsn as int == t;
    }
  }
}
