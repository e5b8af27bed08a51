/** Whole runs of one C endpoint: the cumulative TSN, the two queues, and what a SACK says. */
module IcspCum {
  import opened Machine
  import opened Octets
  import opened Wrappers
  import opened IcspReplay
  import opened IcspGate

  /** What can happen at an endpoint. */
  datatype Act =
    | Submit(sid: u16, len: nat)
    | Arrive(h: Header, b: Box, cap: nat)
    | Sack(cum: u32)

  function Do(s: State, a: Act): State {
    match a
    case Submit(sid, len) => Send(s, sid, len).0
    case Arrive(h, b, cap) => Receive(s, h, b, cap).0
    case Sack(cum) => s.(sendq := Marked(s.sendq, cum))
  }

  function DoAll(s: State, acts: seq<Act>): State {
    if acts == [] then s else Do(DoAll(s, acts[..|acts| - 1]), acts[|acts| - 1])
  }

  /** The chunks that were read, in order. */
  ghost function Read(s: State, acts: seq<Act>): seq<Header> {
    if acts == [] then []
    else
      var n := |acts| - 1;
      var a := acts[n];
      Read(s, acts[..n]) + if a.Arrive? && Reads(DoAll(s, acts[..n]), a.h, a.b) then [a.h] else []
  }

  /** The headers that went out, in order. */
  ghost function Sent(s: State, acts: seq<Act>): seq<Header> {
    if acts == [] then []
    else
      var n := |acts| - 1;
      var a := acts[n];
      Sent(s, acts[..n]) + if a.Submit? && Send(DoAll(s, acts[..n]), a.sid, a.len).1.Some?
                           then [Send(DoAll(s, acts[..n]), a.sid, a.len).1.value] else []
  }

  ghost predicate AtMost(hs: seq<Header>, cum: int) {
    forall i :: 0 <= i < |hs| ==> hs[i].tsn <= cum
  }

  ghost predicate Among(hs: seq<Header>, cum: int) {
    exists i :: 0 <= i < |hs| && hs[i].tsn == cum
  }

  /** cum is the highest of these and of the value before. */
  ghost predicate IsHighest(hs: seq<Header>, before: int, cum: int) {
    before <= cum && AtMost(hs, cum) && (cum == before || Among(hs, cum))
  }

  lemma HighestGrows(hs: seq<Header>, before: int, cum: int, h: Header, next: int)
    requires IsHighest(hs, before, cum) && next == if h.tsn > cum then h.tsn else cum
    ensures IsHighest(hs + [h], before, next)
  {
    var more := hs + [h];
    if h.tsn > cum {
      assert more[|hs|].tsn == next;
    } else if cum != before {
      var i :| 0 <= i < |hs| && hs[i].tsn == cum;
      assert more[i].tsn == next;
    }
  }

  /** The cumulative TSN is the highest TSN ever read, in order or not: a lost chunk does not
      hold it back. */
  lemma {:induction false} CumIsHighest(s: State, acts: seq<Act>)
    ensures IsHighest(Read(s, acts), s.cumTsn, DoAll(s, acts).cumTsn)
  {
    if acts != [] {
      var n := |acts| - 1;
      CumIsHighest(s, acts[..n]);
      var t, a, was := DoAll(s, acts[..n]), acts[n], Read(s, acts[..n]);
      assert was + [] == was;
      match a
      case Arrive(h, b, cap) =>
        ReceivesExactly(t, h, b, cap);
        if Reads(t, h, b) {
          HighestGrows(was, s.cumTsn, t.cumTsn, h, DoAll(s, acts).cumTsn);
        }
      case Submit(sid, len) => SendsExactly(t, sid, len);
      case Sack(_) =>
    }
  }

  /** The first sixteen headers sent are remembered, in order, and no others. */
  lemma {:induction false} RemembersFirst(s: State, acts: seq<Act>)
    requires s.sendq == []
    ensures var q, hs := DoAll(s, acts).sendq, Sent(s, acts);
            && |q| == (if |hs| < 16 then |hs| else 16)
            && forall i :: 0 <= i < |q| ==> q[i].h == hs[i]
  {
    if acts != [] {
      var n := |acts| - 1;
      RemembersFirst(s, acts[..n]);
      var t, a := DoAll(s, acts[..n]), acts[n];
      match a
      case Submit(sid, len) => SentHeader(t, sid, len);
      case Arrive(h, b, cap) => ReceivesExactly(t, h, b, cap);
      case Sack(_) =>
    }
  }

  lemma SentHeader(s: State, sid: u16, len: nat)
    ensures var (t, h) := Send(s, sid, len);
            t.sendq == if h.Some? && |s.sendq| < 16 then s.sendq + [Entry(h.value, len, false)] else s.sendq
  {
  }

  /** A SACK for at least tsn came when entry i was already there. */
  ghost predicate SackedBy(s: State, acts: seq<Act>, i: nat, tsn: int, j: nat) {
    j < |acts| && acts[j].Sack? && i < |DoAll(s, acts[..j]).sendq| && tsn <= acts[j].cum
  }

  /** An entry is acked exactly when such a SACK came. */
  lemma {:induction false} AckedExactly(s: State, acts: seq<Act>, i: nat)
    requires s.sendq == [] && i < |DoAll(s, acts).sendq|
    ensures var e := DoAll(s, acts).sendq[i];
            e.acked <==> exists j: nat :: SackedBy(s, acts, i, e.h.tsn, j)
  {
    var n := |acts| - 1;
    var t, a, e := DoAll(s, acts[..n]), acts[n], DoAll(s, acts).sendq[i];
    if i < |t.sendq| {
      AckedExactly(s, acts[..n], i);
      EntryStays(t, a, i);
      SacksSoFar(s, acts, acts[..n], i, e.h.tsn);
    } else {
      EntryNew(t, a, i);
      forall j: nat | SackedBy(s, acts, i, e.h.tsn, j)
        ensures false
      {
        NoneYet(s, acts, i, j);
      }
    }
  }

  /** Entries are never dropped. */
  lemma {:induction false} QueueGrows(s: State, acts: seq<Act>, j: nat, n: nat)
    requires j <= n <= |acts|
    ensures |DoAll(s, acts[..j]).sendq| <= |DoAll(s, acts[..n]).sendq|
    decreases n
  {
    if j < n {
      QueueGrows(s, acts, j, n - 1);
      assert acts[..n][..n - 1] == acts[..n - 1];
      OneGrows(DoAll(s, acts[..n - 1]), acts[n - 1]);
    }
  }

  lemma OneGrows(s: State, a: Act)
    ensures |s.sendq| <= |Do(s, a).sendq|
  {
    match a
    case Submit(sid, len) => SentHeader(s, sid, len);
    case Arrive(h, b, cap) => ReceivesExactly(s, h, b, cap);
    case Sack(_) =>
  }

  lemma EntryStays(s: State, a: Act, i: nat)
    requires i < |s.sendq|
    ensures i < |Do(s, a).sendq| && Do(s, a).sendq[i].h == s.sendq[i].h
    ensures Do(s, a).sendq[i].acked <==> s.sendq[i].acked || (a.Sack? && s.sendq[i].h.tsn <= a.cum)
  {
    match a
    case Submit(sid, len) => SentHeader(s, sid, len);
    case Arrive(h, b, cap) => ReceivesExactly(s, h, b, cap);
    case Sack(_) =>
  }

  lemma EntryNew(s: State, a: Act, i: nat)
    requires |s.sendq| <= i < |Do(s, a).sendq|
    ensures a.Submit? && !Do(s, a).sendq[i].acked
  {
    match a
    case Submit(sid, len) => SentHeader(s, sid, len);
    case Arrive(h, b, cap) => ReceivesExactly(s, h, b, cap);
    case Sack(_) =>
  }

  lemma SacksSoFar(s: State, acts: seq<Act>, was: seq<Act>, i: nat, tsn: int)
    requires acts != [] && was == acts[..|acts| - 1] && i < |DoAll(s, was).sendq|
    ensures (exists j: nat :: SackedBy(s, acts, i, tsn, j))
            <==> (exists j: nat :: SackedBy(s, was, i, tsn, j)) || (acts[|was|].Sack? && tsn <= acts[|was|].cum)
  {
    var n := |was|;
    forall j: nat | j < n
      ensures SackedBy(s, acts, i, tsn, j) <==> SackedBy(s, was, i, tsn, j)
    {
      assert acts[..j] == was[..j];
    }
    if acts[n].Sack? && tsn <= acts[n].cum {
      assert SackedBy(s, acts, i, tsn, n);
    }
    if j: nat :| SackedBy(s, was, i, tsn, j) {
      assert SackedBy(s, acts, i, tsn, j);
    }
    if j: nat :| SackedBy(s, acts, i, tsn, j) {
      assert j < n ==> SackedBy(s, was, i, tsn, j);
    }
  }

  /** Nothing acks an entry that only the last act put there. */
  lemma NoneYet(s: State, acts: seq<Act>, i: nat, j: nat)
    requires acts != [] && acts[|acts| - 1].Submit? && j < |acts| && |DoAll(s, acts[..|acts| - 1]).sendq| <= i
    ensures acts[j].Sack? ==> |DoAll(s, acts[..j]).sendq| <= i
  {
    QueueGrows(s, acts, j, |acts| - 1);
  }
}
