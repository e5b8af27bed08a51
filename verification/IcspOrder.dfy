/** Runs of two C endpoints: on each stream, deliveries follow send order. */
module IcspOrder {
  import opened ModArith
  import opened Machine
  import opened Octets
  import opened Wrappers
  import opened IcspReplay
  import opened IcspGate

  /** p sends, q delivers. sends, texts: every header p sealed and its message, in
      order; passed: every TSN q's window let through; delivered, got: every header q
      delivered and the bytes it handed out, in order. */
  datatype Net = Net(p: State, q: State, sends: seq<Header>, texts: seq<Bytes>, passed: set<int>,
                     delivered: seq<Header>, got: seq<Bytes>)

  datatype Event =
    | SubmitAtP(sid: u16, msg: Bytes)
    | SubmitAtQ(sid: u16, len: nat)
    | ArriveAtP(h: Header, b: Box, cap: nat)
    | ArriveAtQ(h: Header, b: Box, cap: nat)

  /** p sealed this. */
  ghost predicate Sealed(n: Net, c: Clear) {
    exists k :: 0 <= k < |n.sends| && k < |n.texts| && n.sends[k] == c.h && n.texts[k] == c.msg
  }

  /** p's TSN does not wrap; a box that opens at q was sealed by p under that TSN. */
  ghost predicate CanStep(n: Net, e: Event) {
    match e
    case SubmitAtP(_, _) => n.p.nextTsn as int + 1 < WRAP32
    case ArriveAtQ(h, b, _) => b.plain.Some? ==> Sealed(n, b.plain.value) && b.plain.value.h.tsn == h.tsn
    case _ => true
  }

  function Next(n: Net, e: Event): Net {
    match e
    case SubmitAtP(sid, msg) =>
      var (s, h) := Send(n.p, sid, |msg|);
      n.(p := s, sends := WithSent(n.sends, h), texts := if h.Some? then n.texts + [msg] else n.texts)
    case SubmitAtQ(sid, len) => n.(q := Send(n.q, sid, len).0)
    case ArriveAtP(h, b, cap) => n.(p := Receive(n.p, h, b, cap).0)
    case ArriveAtQ(h, b, cap) =>
      var (s, out) := Receive(n.q, h, b, cap);
      n.(q := s,
         passed := if Admit(n.q.window, h.tsn).1 then n.passed + {h.tsn as int} else n.passed,
         delivered := if out.Delivered? then n.delivered + [out.h] else n.delivered,
         got := if out.Delivered? then n.got + [out.data] else n.got)
  }

  /** The headers sent once this message went out, or did not. */
  function WithSent(hs: seq<Header>, h: Option<Header>): seq<Header> {
    if h.Some? then hs + [h.value] else hs
  }

  ghost predicate Runs(n: Net, es: seq<Event>)
    decreases |es|, 0
  {
    es == [] || (Runs(n, es[..|es| - 1]) && CanStep(After(n, es[..|es| - 1]), es[|es| - 1]))
  }

  ghost function After(n: Net, es: seq<Event>): Net
    requires Runs(n, es)
    decreases |es|, 1
  {
    if es == [] then n else Next(After(n, es[..|es| - 1]), es[|es| - 1])
  }

  /** An endpoint that has its keys and nothing else yet. */
  function Fresh(firstTsn: u32): State {
    State([], firstTsn, 0, Window(0, 0), [], [], true)
  }

  function Start(first: u32, other: u32): Net {
    Net(Fresh(first), Fresh(other), [], [], {}, [], [])
  }

  // ---- numbering ------------------------------------------------------------------

  function Count(hs: seq<Header>, sid: u16): nat {
    if hs == [] then 0 else Count(hs[..|hs| - 1], sid) + if hs[|hs| - 1].sid == sid then 1 else 0
  }

  lemma {:induction false} CountBetween(hs: seq<Header>, sid: u16, a: nat, b: nat)
    requires a <= b <= |hs|
    ensures 0 <= Count(hs[..b], sid) - Count(hs[..a], sid) <= b - a
    ensures a < b && hs[a].sid == sid ==> Count(hs[..b], sid) > Count(hs[..a], sid)
    decreases b
  {
    if a < b {
      assert hs[..b][..b - 1] == hs[..b - 1];
      CountBetween(hs, sid, a, b - 1);
    }
  }

  /** Message k went out under TSN first + k and its own stream's next number. */
  ghost predicate NumberedAt(hs: seq<Header>, first: int, k: nat)
    requires k < |hs|
  {
    hs[k].tsn == first + k && hs[k].seqNo == Count(hs[..k], hs[k].sid) % 0x1_0000
  }

  ghost predicate Numbered(p: State, hs: seq<Header>, first: int) {
    && p.nextTsn == first + |hs|
    && (forall k :: 0 <= k < |hs| ==> NumberedAt(hs, first, k))
    && (forall sid :: SendSeq(p.table, sid) == Count(hs, sid) % 0x1_0000)
  }

  /** The number the gate waits for after these deliveries. */
  function Expected(delivered: seq<Header>, sid: u16): u16 {
    if delivered == [] then 0
    else
      var last := delivered[|delivered| - 1];
      if last.sid == sid then Bump(last.seqNo) else Expected(delivered[..|delivered| - 1], sid)
  }

  ghost predicate Increasing(delivered: seq<Header>) {
    forall i, j :: 0 <= i < j < |delivered| && delivered[i].sid == delivered[j].sid ==> delivered[i].tsn < delivered[j].tsn
  }

  /** Delivery j handed out a message p sent, cut to the caller's buffer. */
  ghost predicate HandedOut(n: Net, j: nat)
    requires j < |n.delivered| && j < |n.got|
  {
    exists k :: 0 <= k < |n.sends| && k < |n.texts| && n.sends[k] == n.delivered[j] && n.got[j] <= n.texts[k]
  }

  ghost predicate Gated(n: Net) {
    && n.q.keyed && Records(n.q.window, n.passed)
    && (forall h :: h in n.delivered ==> h in n.sends && h.tsn as int in n.passed)
    && (forall sid :: RecvSeq(n.q.table, sid) == Expected(n.delivered, sid))
    && Increasing(n.delivered)
  }

  ghost predicate Told(n: Net) {
    && |n.texts| == |n.sends| && |n.got| == |n.delivered|
    && forall j :: 0 <= j < |n.delivered| ==> HandedOut(n, j)
  }

  ghost predicate Inv(n: Net, first: int) {
    Numbered(n.p, n.sends, first) && Gated(n) && Told(n)
  }

  // ---- tables ---------------------------------------------------------------------

  /** Making room for one stream changes no counter. */
  lemma WithStreamSame(table: seq<Slot>, id: u16, other: u16)
    ensures SendSeq(WithStream(table, id), other) == SendSeq(table, other)
    ensures RecvSeq(WithStream(table, id), other) == RecvSeq(table, other)
  {
    var t, i := WithStream(table, id), Find(table, other);
    if i < |table| {
      FindFrom(t, other, i);
    } else if t != table {
      var j := Find(t, other);
      assert forall k :: 0 <= k < |table| ==> t[k].id != other;
    }
  }

  /** A store into one slot keeps every other stream's counters. */
  lemma SlotStored(table: seq<Slot>, id: u16, slot: Slot, other: u16)
    requires Find(table, id) < |table| && slot.id == id
    ensures var t := table[Find(table, id) := slot];
            && SendSeq(t, other) == (if other == id then slot.sendSeq else SendSeq(table, other))
            && RecvSeq(t, other) == (if other == id then slot.recvSeq else RecvSeq(table, other))
  {
    var t, i := table[Find(table, id) := slot], Find(table, other);
    assert forall k :: 0 <= k < |table| ==> t[k].id == table[k].id;
    if i < |table| {
      FindFrom(t, other, i);
    } else {
      var j := Find(t, other);
    }
  }

  lemma SendCounters(s: State, sid: u16, len: nat, other: u16)
    ensures var (s2, h) := Send(s, sid, len);
            && s2.window == s.window && s2.keyed == s.keyed && RecvSeq(s2.table, other) == RecvSeq(s.table, other)
            && (h.None? ==> s2.nextTsn == s.nextTsn && SendSeq(s2.table, other) == SendSeq(s.table, other))
            && (h.Some? ==> h.value == Header(s.nextTsn, sid, SendSeq(s.table, sid)) &&
                            s2.nextTsn == (s.nextTsn as int + 1) % WRAP32 &&
                            SendSeq(s2.table, other) == if other == sid then Bump(SendSeq(s.table, sid)) else SendSeq(s.table, other))
  {
    var table := WithStream(s.table, sid);
    var i := Find(table, sid);
    WithStreamSame(s.table, sid, other);
    WithStreamSame(s.table, sid, sid);
    if i < |table| {
      SlotStored(table, sid, table[i].(sendSeq := Bump(table[i].sendSeq)), other);
    }
  }

  /** The gate moves only the counter of the stream it delivers on. */
  lemma GateCounters(s: State, c: Clear, cap: nat, other: u16)
    ensures var (s2, out) := Gate(s, c, cap);
            && s2.window == s.window && s2.keyed == s.keyed && s2.nextTsn == s.nextTsn
            && SendSeq(s2.table, other) == SendSeq(s.table, other)
            && (out.Delivered? ==> out.h == c.h && out.data == FirstOf(c.msg, cap) && RecvSeq(s.table, c.h.sid) == c.h.seqNo)
            && RecvSeq(s2.table, other) == if out.Delivered? && other == c.h.sid then Bump(c.h.seqNo) else RecvSeq(s.table, other)
  {
    var table := WithStream(s.table, c.h.sid);
    var i := Find(table, c.h.sid);
    WithStreamSame(s.table, c.h.sid, other);
    WithStreamSame(s.table, c.h.sid, c.h.sid);
    if i < |table| {
      SlotStored(table, c.h.sid, table[i].(recvSeq := Bump(c.h.seqNo)), other);
    }
  }

  lemma ReceiveCounters(s: State, h: Header, b: Box, cap: nat, other: u16)
    ensures var (s2, out) := Receive(s, h, b, cap);
            && s2.window == (if s.keyed then Admit(s.window, h.tsn).0 else s.window) && s2.keyed == s.keyed
            && SendSeq(s2.table, other) == SendSeq(s.table, other) && s2.nextTsn == s.nextTsn
            && (out.Delivered? ==> b.plain.Some? && b.plain.value.h == h == out.h && out.data == FirstOf(b.plain.value.msg, cap)
                                   && Admit(s.window, h.tsn).1 && RecvSeq(s.table, h.sid) == h.seqNo)
            && RecvSeq(s2.table, other) == if out.Delivered? && other == h.sid then Bump(h.seqNo) else RecvSeq(s.table, other)
  {
    var s1 := s.(window := Admit(s.window, h.tsn).0);
    if b.plain.Some? {
      GateCounters(s1, b.plain.value, cap, other);
      GateCounters(s1, b.plain.value, cap, h.sid);
    }
  }

  // ---- the argument ---------------------------------------------------------------

  lemma {:induction false} LastOn(delivered: seq<Header>, sid: u16) returns (at: nat)
    requires exists i :: 0 <= i < |delivered| && delivered[i].sid == sid
    ensures at < |delivered| && delivered[at].sid == sid && Expected(delivered, sid) == Bump(delivered[at].seqNo)
    ensures forall i :: at < i < |delivered| ==> delivered[i].sid != sid
  {
    var n := |delivered| - 1;
    if delivered[n].sid == sid {
      at := n;
    } else {
      at := LastOn(delivered[..n], sid);
    }
  }

  /** A number 2^16 - 1 behind on the stream is that far behind in TSNs. */
  lemma WrapIsFar(hs: seq<Header>, first: int, k: nat, l: nat)
    requires k < l < |hs| && NumberedAt(hs, first, k) && NumberedAt(hs, first, l)
    requires hs[k].sid == hs[l].sid && hs[k].seqNo == Bump(hs[l].seqNo)
    ensures hs[k].tsn as int + 0xFFFF <= hs[l].tsn
  {
    var a, b := Count(hs[..k], hs[k].sid), Count(hs[..l], hs[k].sid);
    CountBetween(hs, hs[k].sid, k, l);
    Congruent(a, b);
  }

  lemma Congruent(a: nat, b: nat)
    requires a < b && a % 0x1_0000 == (b % 0x1_0000 + 1) % 0x1_0000
    ensures b - a >= 0xFFFF
  {
  }

  /** What the gate lets through is newer than everything delivered on its stream. */
  lemma NewestOnStream(n: Net, first: int, h: Header)
    requires Inv(n, first) && h in n.sends
    requires Admit(n.q.window, h.tsn).1 && RecvSeq(n.q.table, h.sid) == h.seqNo
    ensures forall i :: 0 <= i < |n.delivered| && n.delivered[i].sid == h.sid ==> n.delivered[i].tsn < h.tsn
  {
    AdmitKeeps(n.q.window, h.tsn, n.passed);
    if exists i :: 0 <= i < |n.delivered| && n.delivered[i].sid == h.sid {
      var at := LastOn(n.delivered, h.sid);
      var last := n.delivered[at];
      assert last in n.delivered;
      var k :| 0 <= k < |n.sends| && n.sends[k] == h;
      var l :| 0 <= l < |n.sends| && n.sends[l] == last;
      assert NumberedAt(n.sends, first, k) && NumberedAt(n.sends, first, l);
      if k < l {
        WrapIsFar(n.sends, first, k, l);
        assert false;
      }
    }
  }

  lemma SubmitStep(n: Net, first: int, sid: u16, msg: Bytes)
    requires Inv(n, first) && n.p.nextTsn as int + 1 < WRAP32
    ensures Inv(Next(n, SubmitAtP(sid, msg)), first)
  {
    var m := Next(n, SubmitAtP(sid, msg));
    SendCounters(n.p, sid, |msg|, sid);
    SubmitNumbered(n.p, n.sends, first, sid, |msg|);
    ToldGrows(n, m);
  }

  /** More sent, nothing more delivered. */
  lemma ToldGrows(n: Net, m: Net)
    requires Told(n) && n.sends <= m.sends && n.texts <= m.texts && |m.texts| == |m.sends|
    requires m.delivered == n.delivered && m.got == n.got
    ensures Told(m)
  {
    forall j | 0 <= j < |m.delivered|
      ensures HandedOut(m, j)
    {
      assert HandedOut(n, j);
      var k :| 0 <= k < |n.sends| && k < |n.texts| && n.sends[k] == n.delivered[j] && n.got[j] <= n.texts[k];
      assert m.sends[k] == m.delivered[j] && m.got[j] <= m.texts[k];
    }
  }

  lemma BumpCount(n: nat)
    ensures Bump(n % 0x1_0000) == (n + 1) % 0x1_0000
  {
  }

  lemma CountOneMore(hs: seq<Header>, h: Header, other: u16)
    ensures Count(hs + [h], other) == Count(hs, other) + if h.sid == other then 1 else 0
  {
    assert (hs + [h])[..|hs|] == hs;
  }

  lemma SubmitCounted(p: State, hs: seq<Header>, sid: u16, len: nat, other: u16)
    requires SendSeq(p.table, other) == Count(hs, other) % 0x1_0000
    ensures SendSeq(Send(p, sid, len).0.table, other) == Count(WithSent(hs, Send(p, sid, len).1), other) % 0x1_0000
  {
    SendCounters(p, sid, len, other);
    BumpCount(Count(hs, other));
    var h := Send(p, sid, len).1;
    if h.Some? {
      CountOneMore(hs, h.value, other);
    }
  }

  lemma SubmitNumbered(p: State, hs: seq<Header>, first: int, sid: u16, len: nat)
    requires Numbered(p, hs, first) && p.nextTsn as int + 1 < WRAP32
    ensures var (p2, h) := Send(p, sid, len);
            Numbered(p2, WithSent(hs, h), first)
  {
    var (p2, h) := Send(p, sid, len);
    forall other
      ensures SendSeq(p2.table, other) == Count(WithSent(hs, h), other) % 0x1_0000
    {
      SubmitCounted(p, hs, sid, len, other);
    }
    SendCounters(p, sid, len, sid);
    if h.Some? {
      NumberedGrows(hs, first, h.value);
    }
  }

  lemma NumberedGrows(hs: seq<Header>, first: int, h: Header)
    requires forall k :: 0 <= k < |hs| ==> NumberedAt(hs, first, k)
    requires h.tsn == first + |hs| && h.seqNo == Count(hs, h.sid) % 0x1_0000
    ensures forall k :: 0 <= k < |hs| + 1 ==> NumberedAt(hs + [h], first, k)
  {
    forall k | 0 <= k < |hs| + 1
      ensures NumberedAt(hs + [h], first, k)
    {
      assert k < |hs| ==> NumberedAt(hs, first, k);
      assert (hs + [h])[..k] == hs[..k];
      assert hs[..|hs|] == hs;
    }
  }

  lemma ArriveStep(n: Net, first: int, h: Header, b: Box, cap: nat)
    requires Inv(n, first) && CanStep(n, ArriveAtQ(h, b, cap))
    ensures Inv(Next(n, ArriveAtQ(h, b, cap)), first)
  {
    var m := Next(n, ArriveAtQ(h, b, cap));
    AdmitKeeps(n.q.window, h.tsn, n.passed);
    var out := Receive(n.q, h, b, cap).1;
    ReceiveCounters(n.q, h, b, cap, h.sid);
    if out.Delivered? {
      NewestOnStream(n, first, h);
      assert m.delivered[..|m.delivered| - 1] == n.delivered;
    }
    forall sid
      ensures RecvSeq(m.q.table, sid) == Expected(m.delivered, sid)
    {
      ReceiveCounters(n.q, h, b, cap, sid);
    }
    ToldOnce(n, h, b, cap);
  }

  lemma ToldOnce(n: Net, h: Header, b: Box, cap: nat)
    requires Told(n) && CanStep(n, ArriveAtQ(h, b, cap))
    ensures Told(Next(n, ArriveAtQ(h, b, cap)))
  {
    var m, out := Next(n, ArriveAtQ(h, b, cap)), Receive(n.q, h, b, cap).1;
    ReceiveCounters(n.q, h, b, cap, h.sid);
    forall j | 0 <= j < |m.delivered|
      ensures HandedOut(m, j)
    {
      if j < |n.delivered| {
        assert HandedOut(n, j);
        var k :| 0 <= k < |n.sends| && k < |n.texts| && n.sends[k] == n.delivered[j] && n.got[j] <= n.texts[k];
        assert m.sends[k] == m.delivered[j] && m.got[j] <= m.texts[k];
      } else {
        var k :| 0 <= k < |n.sends| && k < |n.texts| && n.sends[k] == b.plain.value.h && n.texts[k] == b.plain.value.msg;
        assert m.sends[k] == m.delivered[j] && m.got[j] <= m.texts[k];
      }
    }
  }

  lemma StepKeeps(n: Net, first: int, e: Event)
    requires Inv(n, first) && CanStep(n, e)
    ensures Inv(Next(n, e), first)
  {
    match e
    case SubmitAtP(sid, msg) => SubmitStep(n, first, sid, msg);
    case ArriveAtQ(h, b, cap) => ArriveStep(n, first, h, b, cap);
    case SubmitAtQ(sid, len) =>
      forall other {
        SendCounters(n.q, sid, len, other);
      }
      SendCounters(n.q, sid, len, sid);
      ToldGrows(n, Next(n, e));
    case ArriveAtP(h, b, cap) =>
      forall other {
        ReceiveCounters(n.p, h, b, cap, other);
      }
      ReceiveCounters(n.p, h, b, cap, h.sid);
      ToldGrows(n, Next(n, e));
  }

  lemma {:induction false} RunKeeps(first: u32, other: u32, es: seq<Event>)
    requires Runs(Start(first, other), es)
    ensures Inv(After(Start(first, other), es), first)
  {
    if es == [] {
      EmptyWindow();
    } else {
      RunKeeps(first, other, es[..|es| - 1]);
      StepKeeps(After(Start(first, other), es[..|es| - 1]), first, es[|es| - 1]);
    }
  }

  lemma InvPromises(e: Net, first: int)
    requires Inv(e, first)
    ensures forall k :: 0 <= k < |e.sends| ==> e.sends[k].tsn == first + k
    ensures forall h :: h in e.delivered ==> h in e.sends
    ensures Increasing(e.delivered) && Told(e)
  {
    forall k | 0 <= k < |e.sends|
      ensures e.sends[k].tsn == first + k
    {
      assert NumberedAt(e.sends, first, k);
    }
  }

  /** In every run, each stream's deliveries are messages sent on it, in strictly
      increasing send order, across any number of wraps of the 16-bit number; what is
      handed out is the message, as far as the caller's buffer reaches. */
  lemma DeliveredInSendOrder(first: u32, other: u32, es: seq<Event>)
    requires Runs(Start(first, other), es)
    ensures var e := After(Start(first, other), es);
            && (forall k :: 0 <= k < |e.sends| ==> e.sends[k].tsn == first as int + k)
            && (forall h :: h in e.delivered ==> h in e.sends)
            && Increasing(e.delivered) && Told(e)
  {
    RunKeeps(first, other, es);
    InvPromises(After(Start(first, other), es), first);
  }

  // ---- the gate opens for the next message -----------------------------------------------------------

  /** The headers of one stream. */
  function On(hs: seq<Header>, sid: u16): seq<Header> {
    if hs == [] then []
    else On(hs[..|hs| - 1], sid) + if hs[|hs| - 1].sid == sid then [hs[|hs| - 1]] else []
  }

  lemma {:induction false} ExpectedOn(hs: seq<Header>, sid: u16)
    ensures Expected(On(hs, sid), sid) == Expected(hs, sid)
    ensures forall h :: h in On(hs, sid) ==> h.sid == sid
    decreases |hs|
  {
    if hs != [] {
      var n := |hs| - 1;
      var before := On(hs[..n], sid);
      ExpectedOn(hs[..n], sid);
      if hs[n].sid == sid {
        assert On(hs, sid) == before + [hs[n]];
        assert (before + [hs[n]])[..|before + [hs[n]]| - 1] == before;
      } else {
        assert On(hs, sid) == before;
      }
    }
  }

  lemma OnAppend(hs: seq<Header>, h: Header, sid: u16)
    ensures On(hs + [h], sid) == On(hs, sid) + if h.sid == sid then [h] else []
  {
    assert (hs + [h])[..|hs|] == hs;
  }

  lemma {:induction false} ExpectedCount(hs: seq<Header>, first: int, n: nat, sid: u16)
    requires n <= |hs| && forall k :: 0 <= k < n ==> NumberedAt(hs, first, k)
    ensures Expected(hs[..n], sid) == Count(hs[..n], sid) % 0x1_0000
    decreases n
  {
    if n > 0 {
      ExpectedCount(hs, first, n - 1, sid);
      assert hs[..n][..n - 1] == hs[..n - 1] && hs[..n][n - 1] == hs[n - 1];
      assert NumberedAt(hs, first, n - 1);
      if hs[n - 1].sid == sid {
        BumpCount(Count(hs[..n - 1], sid));
      }
    } else {
      assert hs[..0] == [];
    }
  }

  /** One stream never blocks another: when every earlier message of the k-th message's
      own stream was delivered, whatever is missing elsewhere, the k-th is delivered as
      soon as it arrives, if the window lets it through, its stream has a slot or can
      get one, and the box is readable. */
  lemma GateOpens(n: Net, first: int, k: nat, b: Box, cap: nat)
    requires Inv(n, first) && k < |n.sends| && k < |n.texts|
    requires On(n.delivered, n.sends[k].sid) == On(n.sends[..k], n.sends[k].sid)
    requires Admit(n.q.window, n.sends[k].tsn).1
    requires Find(WithStream(n.q.table, n.sends[k].sid), n.sends[k].sid) < |WithStream(n.q.table, n.sends[k].sid)|
    requires Readable(b) && b.plain == Some(Clear(n.sends[k], n.texts[k]))
    ensures Receive(n.q, n.sends[k], b, cap).1 == Delivered(n.sends[k], FirstOf(n.texts[k], cap))
    ensures On(Next(n, ArriveAtQ(n.sends[k], b, cap)).delivered, n.sends[k].sid) == On(n.sends[..k + 1], n.sends[k].sid)
  {
    var h := n.sends[k];
    NextIsExpected(n, first, k);
    GateTakes(n, Clear(h, n.texts[k]), b, cap);
    OnNext(n.sends, k);
  }

  lemma OnNext(hs: seq<Header>, k: nat)
    requires k < |hs|
    ensures On(hs[..k + 1], hs[k].sid) == On(hs[..k], hs[k].sid) + [hs[k]]
  {
    assert hs[..k + 1] == hs[..k] + [hs[k]];
    OnAppend(hs[..k], hs[k], hs[k].sid);
  }

  /** Arrival of the message its stream waits for. */
  lemma GateTakes(n: Net, c: Clear, b: Box, cap: nat)
    requires n.q.keyed && Admit(n.q.window, c.h.tsn).1 && Readable(b) && b.plain == Some(c)
    requires Find(WithStream(n.q.table, c.h.sid), c.h.sid) < |WithStream(n.q.table, c.h.sid)|
    requires RecvSeq(n.q.table, c.h.sid) == c.h.seqNo
    ensures Receive(n.q, c.h, b, cap).1 == Delivered(c.h, FirstOf(c.msg, cap))
    ensures On(Next(n, ArriveAtQ(c.h, b, cap)).delivered, c.h.sid) == On(n.delivered, c.h.sid) + [c.h]
  {
    DeliversExpected(n.q, c, b, cap);
    DeliveredOneMore(n, c.h, b, cap);
    OnAppend(n.delivered, c.h, c.h.sid);
  }

  /** The message its stream waits for is delivered. */
  lemma DeliversExpected(s: State, c: Clear, b: Box, cap: nat)
    requires s.keyed && Admit(s.window, c.h.tsn).1 && Readable(b) && b.plain == Some(c)
    requires Find(WithStream(s.table, c.h.sid), c.h.sid) < |WithStream(s.table, c.h.sid)|
    requires RecvSeq(s.table, c.h.sid) == c.h.seqNo
    ensures Receive(s, c.h, b, cap).1 == Delivered(c.h, FirstOf(c.msg, cap))
  {
    WithStreamSame(s.table, c.h.sid, c.h.sid);
  }

  lemma DeliveredOneMore(n: Net, h: Header, b: Box, cap: nat)
    requires Receive(n.q, h, b, cap).1.Delivered? && Receive(n.q, h, b, cap).1.h == h
    ensures Next(n, ArriveAtQ(h, b, cap)).delivered == n.delivered + [h]
  {
  }

  /** The number of the next message of a stream is the one its receiver waits for. */
  lemma NextIsExpected(n: Net, first: int, k: nat)
    requires Inv(n, first) && k < |n.sends|
    requires On(n.delivered, n.sends[k].sid) == On(n.sends[..k], n.sends[k].sid)
    ensures RecvSeq(n.q.table, n.sends[k].sid) == n.sends[k].seqNo
  {
    var sid := n.sends[k].sid;
    assert NumberedAt(n.sends, first, k);
    forall j | 0 <= j < k
      ensures NumberedAt(n.sends, first, j)
    {
    }
    ExpectedCount(n.sends, first, k, sid);
    ExpectedOn(n.delivered, sid);
    ExpectedOn(n.sends[..k], sid);
    assert RecvSeq(n.q.table, sid) == Expected(n.delivered, sid);
  }
}
