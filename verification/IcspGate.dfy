/** The C data plane around the replay window: TSN and stream numbering on the
    way out, the order gate on the way in. */
module IcspGate {
  import opened Machine
  import opened Octets
  import opened Wrappers
  import opened IcspReplay

  /** struct icsp_stream */
  datatype Slot = Slot(id: u16, sendSeq: u16, recvSeq: u16)

  /** A clear header: the plaintext of a genuine box starts with one. */
  datatype Header = Header(tsn: u32, sid: u16, seqNo: u16)

  datatype Clear = Clear(h: Header, msg: Bytes)

  /** A box: its length, and what it opens to under the receiving key and the nonce
      of the TSN it came with, if it opens. */
  datatype Box = Box(len: nat, plain: Option<Clear>)

  datatype Entry = Entry(h: Header, len: nat, acked: bool)

  const MAX_PAYLOAD: nat := 1400
  const SENDQ: nat := 16
  /** What the library wrapper of crypto_secretbox_open can hold. */
  const OPEN_MAX: nat := 1024

  /** The fields of struct icsp_assoc the data plane uses. */
  datatype State = State(table: seq<Slot>, nextTsn: u32, cumTsn: u32, window: Window,
                         sendq: seq<Entry>, rcvq: seq<Clear>, keyed: bool)

  function Find(table: seq<Slot>, id: u16): (i: nat)
    ensures i <= |table|
    ensures i < |table| ==> table[i].id == id
    ensures forall k :: 0 <= k < i ==> table[k].id != id
  {
    if table == [] then 0 else if table[0].id == id then 0 else 1 + Find(table[1..], id)
  }

  /** get_stream: the table with a slot for id, unless all eight are taken. */
  function WithStream(table: seq<Slot>, id: u16): (t: seq<Slot>)
    ensures table <= t
    ensures |table| <= MAX_STREAMS ==> |t| <= MAX_STREAMS
    ensures Find(t, id) == |t| ==> t == table
  {
    if Find(table, id) == |table| && |table| < MAX_STREAMS then
      var t := table + [Slot(id, 0, 0)];
      assert t[|table|].id == id;
      t
    else table
  }

  function SendSeq(table: seq<Slot>, id: u16): u16 {
    var i := Find(table, id);
    if i < |table| then table[i].sendSeq else 0
  }

  function RecvSeq(table: seq<Slot>, id: u16): u16 {
    var i := Find(table, id);
    if i < |table| then table[i].recvSeq else 0
  }

  function Bump(x: u16): u16 {
    (x as int + 1) % 0x1_0000
  }

  lemma {:induction false} FindFrom(table: seq<Slot>, id: u16, i: nat)
    requires i < |table| && table[i].id == id && forall k :: 0 <= k < i ==> table[k].id != id
    ensures Find(table, id) == i
  {
    if i > 0 {
      FindFrom(table[1..], id, i - 1);
    }
  }

  lemma {:induction false} FindNone(table: seq<Slot>, id: u16)
    requires forall k :: 0 <= k < |table| ==> table[k].id != id
    ensures Find(table, id) == |table|
  {
    if table != [] {
      FindNone(table[1..], id);
    }
  }

  /** icsp_data_send: the state after, and the header the message goes out under. The
      stream gets its slot before the length is looked at. */
  function Send(s: State, sid: u16, len: nat): (State, Option<Header>) {
    if !s.keyed then (s, None)
    else
      var table := WithStream(s.table, sid);
      var i := Find(table, sid);
      if i == |table| || len > MAX_PAYLOAD then (s.(table := table), None)
      else
        var slot := table[i];
        var h := Header(s.nextTsn, sid, slot.sendSeq);
        (s.(table := table[i := slot.(sendSeq := Bump(slot.sendSeq))], nextTsn := (s.nextTsn as int + 1) % WRAP32,
            sendq := if |s.sendq| < SENDQ then s.sendq + [Entry(h, len, false)] else s.sendq),
         Some(h))
  }

  datatype Outcome = Dropped | Tampered | Queued | Delivered(h: Header, data: Bytes)

  /** The box passes the length limits of the data path and of the library, and opens. */
  predicate Readable(b: Box) {
    32 <= b.len <= MAX_PAYLOAD + 40 && b.len - 32 <= OPEN_MAX && b.plain.Some?
  }

  /** The box of a message is 40 bytes longer than the message. */
  function BoxOf(c: Clear): Box {
    Box(40 + |c.msg|, Some(c))
  }

  /** The library's limit is the one that holds: messages of at most 1016 bytes are read. */
  lemma ReadableExactly(c: Clear)
    ensures Readable(BoxOf(c)) <==> |c.msg| <= 1016
  {
  }

  /** icsp_data_handle on one DATA chunk; the caller's buffer holds cap bytes. The window
      is marked before the box is looked at. */
  function Receive(s: State, h: Header, b: Box, cap: nat): (State, Outcome) {
    if !s.keyed then (s, Dropped)
    else
      var (w, ok) := Admit(s.window, h.tsn);
      if !ok then (s, Dropped)
      else
        var s1 := s.(window := w);
        if !Readable(b) then (s1, Dropped)
        else if b.plain.value.h != h then (s1, Tampered)
        else Gate(s1, b.plain.value, cap)
  }

  function FirstOf(msg: Bytes, cap: nat): Bytes {
    if |msg| > cap then msg[..cap] else msg
  }

  /** Both branches of the gate raise the cumulative TSN. */
  function Gate(s: State, c: Clear, cap: nat): (State, Outcome) {
    var table := WithStream(s.table, c.h.sid);
    var i := Find(table, c.h.sid);
    var cum := if c.h.tsn > s.cumTsn then c.h.tsn else s.cumTsn;
    if i < |table| && table[i].recvSeq == c.h.seqNo then
      (s.(table := table[i := table[i].(recvSeq := Bump(c.h.seqNo))], cumTsn := cum), Delivered(c.h, FirstOf(c.msg, cap)))
    else
      (s.(table := table, cumTsn := cum, rcvq := if |s.rcvq| < RCVQ && i < |table| then s.rcvq + [c] else s.rcvq), Queued)
  }

  /** What a SACK marks. */
  function Marked(q: seq<Entry>, cum: u32): (r: seq<Entry>)
    ensures |r| == |q|
  {
    seq(|q|, i requires 0 <= i < |q| => if q[i].h.tsn <= cum then q[i].(acked := true) else q[i])
  }

  // ---- what a call does ------------------------------------------------------------------

  /** Slot i is the first of the stream. */
  ghost predicate IsSlot(table: seq<Slot>, sid: u16, i: nat) {
    i < |table| && table[i].id == sid && forall k :: 0 <= k < i ==> table[k].id != sid
  }

  ghost predicate Absent(table: seq<Slot>, sid: u16) {
    forall k :: 0 <= k < |table| ==> table[k].id != sid
  }

  /** The stream has one of the eight slots or can get one. */
  ghost predicate HasRoom(table: seq<Slot>, sid: u16) {
    (exists i :: 0 <= i < |table| && table[i].id == sid) || |table| < 8
  }

  /** A message goes out exactly with a key, room for its stream and at most 1400 bytes; a
      message that does not go out takes no TSN. */
  lemma SendsExactly(s: State, sid: u16, len: nat)
    ensures var (t, h) := Send(s, sid, len);
            && (h.Some? <==> s.keyed && HasRoom(s.table, sid) && len <= 1400)
            && (h.None? ==> t == s.(table := t.table))
            && t == s.(table := t.table, nextTsn := t.nextTsn, sendq := t.sendq)
  {
    var i := Find(s.table, sid);
    if !HasRoom(s.table, sid) {
      FindNone(s.table, sid);
    } else if i == |s.table| {
      FindFrom(WithStream(s.table, sid), sid, |s.table|);
    } else {
      FindFrom(WithStream(s.table, sid), sid, i);
    }
  }

  /** On a stream that has a slot the header carries the next TSN and the slot's number; both
      move on by one, and sixteen messages are remembered. */
  lemma SentOnSlot(s: State, sid: u16, len: nat, i: nat)
    requires s.keyed && len <= 1400 && IsSlot(s.table, sid, i)
    ensures var (t, h) := Send(s, sid, len);
            && h == Some(Header(s.nextTsn, sid, s.table[i].sendSeq))
            && t.nextTsn == (s.nextTsn as int + 1) % 0x1_0000_0000
            && t.table == s.table[i := Slot(sid, (s.table[i].sendSeq as int + 1) % 0x1_0000, s.table[i].recvSeq)]
            && t.sendq == if |s.sendq| < 16 then s.sendq + [Entry(h.value, len, false)] else s.sendq
  {
    FindFrom(s.table, sid, i);
  }

  /** A new stream gets the slot behind the others and starts at number 0. */
  lemma SentOnNew(s: State, sid: u16, len: nat)
    requires s.keyed && len <= 1400 && Absent(s.table, sid) && |s.table| < 8
    ensures var (t, h) := Send(s, sid, len);
            && h == Some(Header(s.nextTsn, sid, 0))
            && t.nextTsn == (s.nextTsn as int + 1) % 0x1_0000_0000
            && t.table == s.table + [Slot(sid, 1, 0)]
            && t.sendq == if |s.sendq| < 16 then s.sendq + [Entry(h.value, len, false)] else s.sendq
  {
    FindNone(s.table, sid);
    FindFrom(s.table + [Slot(sid, 0, 0)], sid, |s.table|);
    assert (s.table + [Slot(sid, 0, 0)])[|s.table| := Slot(sid, 1, 0)] == s.table + [Slot(sid, 1, 0)];
  }

  /** The chunk is read: its TSN passes the window, its box can be opened, and the header in
      clear is the one inside. */
  ghost predicate Reads(s: State, h: Header, b: Box) {
    s.keyed && Admit(s.window, h.tsn).1 && Readable(b) && b.plain.value.h == h
  }

  /** The number its stream waits for. */
  ghost predicate Awaited(table: seq<Slot>, h: Header) {
    || (exists i: nat :: IsSlot(table, h.sid, i) && table[i].recvSeq == h.seqNo)
    || (Absent(table, h.sid) && |table| < 8 && h.seqNo == 0)
  }

  /** A chunk that is read is delivered exactly when its stream waits for it, and otherwise kept
      while there is room; the cumulative TSN becomes the larger of the two. A chunk that is not
      read changes nothing but the window. */
  lemma ReceivesExactly(s: State, h: Header, b: Box, cap: nat)
    ensures var (t, out) := Receive(s, h, b, cap);
            && (out.Delivered? || out.Queued? <==> Reads(s, h, b))
            && (out.Delivered? <==> Reads(s, h, b) && Awaited(s.table, h))
            && (out.Tampered? <==> s.keyed && Admit(s.window, h.tsn).1 && Readable(b) && b.plain.value.h != h)
            && t.window == (if s.keyed then Admit(s.window, h.tsn).0 else s.window)
            && t.cumTsn == (if Reads(s, h, b) && h.tsn > s.cumTsn then h.tsn else s.cumTsn)
            && t.rcvq == (if out.Queued? && |s.rcvq| < 16 && HasRoom(s.table, h.sid) then s.rcvq + [b.plain.value] else s.rcvq)
            && (!Reads(s, h, b) ==> t.table == s.table)
            && t == s.(window := t.window, table := t.table, cumTsn := t.cumTsn, rcvq := t.rcvq)
  {
    var i := Find(s.table, h.sid);
    if i < |s.table| {
      FindFrom(WithStream(s.table, h.sid), h.sid, i);
      AwaitedAt(s.table, h, i);
    } else if |s.table| < 8 {
      FindFrom(WithStream(s.table, h.sid), h.sid, |s.table|);
    }
  }

  lemma AwaitedAt(table: seq<Slot>, h: Header, i: nat)
    requires IsSlot(table, h.sid, i)
    ensures Awaited(table, h) <==> table[i].recvSeq == h.seqNo
    ensures HasRoom(table, h.sid)
  {
    if Awaited(table, h) {
      var j: nat :| IsSlot(table, h.sid, j) && table[j].recvSeq == h.seqNo;
      assert j == i;
    }
  }

  /** Delivery moves the stream's number on by one, and no other slot changes. */
  lemma DeliveredOnSlot(s: State, h: Header, b: Box, cap: nat, i: nat)
    requires IsSlot(s.table, h.sid, i) && Receive(s, h, b, cap).1.Delivered?
    ensures var (t, out) := Receive(s, h, b, cap);
            && out == Delivered(h, if |b.plain.value.msg| > cap then b.plain.value.msg[..cap] else b.plain.value.msg)
            && t.table == s.table[i := Slot(h.sid, s.table[i].sendSeq, (h.seqNo as int + 1) % 0x1_0000)]
  {
    FindFrom(s.table, h.sid, i);
  }

  lemma DeliveredOnNew(s: State, h: Header, b: Box, cap: nat)
    requires Absent(s.table, h.sid) && Receive(s, h, b, cap).1.Delivered?
    ensures Receive(s, h, b, cap).0.table == s.table + [Slot(h.sid, 0, 1)]
  {
    FindNone(s.table, h.sid);
    FindFrom(s.table + [Slot(h.sid, 0, 0)], h.sid, |s.table|);
    assert (s.table + [Slot(h.sid, 0, 0)])[|s.table| := Slot(h.sid, 0, 1)] == s.table + [Slot(h.sid, 0, 1)];
  }

  /** A chunk that is not delivered moves no number. */
  lemma QueuedKeepsNumbers(s: State, h: Header, b: Box, cap: nat)
    requires !Receive(s, h, b, cap).1.Delivered?
    ensures Receive(s, h, b, cap).0.table == s.table || Receive(s, h, b, cap).0.table == s.table + [Slot(h.sid, 0, 0)]
  {
  }

  class Assoc {
    const streams: array<Slot>
    var count: nat
    var nextTsn: u32
    var cumTsn: u32
    var rwTsn: u32
    var rwMask: u32
    var sendq: seq<Entry>
    var rcvq: seq<Clear>
    var hasKey: bool

    ghost predicate Valid()
      reads this
    {
      streams.Length == MAX_STREAMS && count <= MAX_STREAMS
    }

    ghost function Abstract(): State
      reads this, streams
      requires Valid()
    {
      State(streams[..count], nextTsn, cumTsn, Window(rwTsn, rwMask), sendq, rcvq, hasKey)
    }

    /** The index of the stream's slot, or None when the table is full. */
    method GetStream(id: u16) returns (r: Option<nat>)
      requires Valid()
      modifies this`count, streams
      ensures Valid() && Abstract() == old(Abstract()).(table := WithStream(old(streams[..count]), id))
      ensures var i := Find(streams[..count], id);
              r == if i == count then None else Some(i)
    {
      ghost var table := streams[..count];
      for i := 0 to count
        invariant forall k :: 0 <= k < i ==> streams[k].id != id
        modifies {}
      {
        if streams[i].id == id {
          FindFrom(table, id, i);
          return Some(i);
        }
      }
      FindNone(table, id);
      if count >= MAX_STREAMS {
        return None;
      }
      AddStream(id);
      FindFrom(streams[..count], id, count - 1);
      return Some(count - 1);
    }

    method AddStream(id: u16)
      requires Valid() && count < MAX_STREAMS
      modifies this`count, streams
      ensures Valid() && streams[..count] == old(streams[..count]) + [Slot(id, 0, 0)]
    {
      ghost var table := streams[..count];
      streams[count] := Slot(id, 0, 0);
      count := count + 1;
      assert streams[..count] == table + [Slot(id, 0, 0)];
    }

    method DataSend(sid: u16, len: nat) returns (r: Option<Header>)
      requires Valid()
      modifies this, streams
      ensures Valid() && (Abstract(), r) == Send(old(Abstract()), sid, len)
    {
      if !hasKey {
        return None;
      }
      var at := GetStream(sid);
      if at.None? || len > MAX_PAYLOAD {
        return None;
      }
      r := Number(at.value, len);
    }

    /** The header for the next message of the stream in slot i. */
    method Number(i: nat, len: nat) returns (r: Option<Header>)
      requires Valid() && i < count
      modifies this`nextTsn, this`sendq, streams
      ensures Valid() && r == Some(Header(old(nextTsn), old(streams[i]).id, old(streams[i]).sendSeq))
      ensures nextTsn == (old(nextTsn) as int + 1) % WRAP32
      ensures sendq == if |old(sendq)| < SENDQ then old(sendq) + [Entry(r.value, len, false)] else old(sendq)
      ensures streams[..count] == old(streams[..count])[i := old(streams[i]).(sendSeq := Bump(old(streams[i]).sendSeq))]
    {
      var tsn, slot := nextTsn, streams[i];
      nextTsn := (tsn as int + 1) % WRAP32;
      var h := Header(tsn, slot.id, slot.sendSeq);
      if |sendq| < SENDQ {
        sendq := sendq + [Entry(h, len, false)];
      }
      streams[i] := slot.(sendSeq := Bump(slot.sendSeq));
      return Some(h);
    }

    /** The sliding window of icsp_data_handle. */
    method Pass(tsn: u32) returns (ok: bool)
      modifies this`rwTsn, this`rwMask
      ensures (Window(rwTsn, rwMask), ok) == Admit(old(Window(rwTsn, rwMask)), tsn)
    {
      if tsn > rwTsn {
        var shift := tsn as int - rwTsn;
        rwMask := if shift < 32 then Shifted(rwMask, shift) else 1;
        rwTsn := tsn;
        return true;
      }
      var d := rwTsn as int - tsn;
      if d >= 32 {
        return false;
      }
      BitRange(rwMask, d);
      if Bit(rwMask, d) == 1 {
        return false;
      }
      rwMask := WithBit(rwMask, d);
      return true;
    }

    method DataHandle(h: Header, b: Box, cap: nat) returns (r: Outcome)
      requires Valid()
      modifies this, streams
      ensures Valid() && (Abstract(), r) == Receive(old(Abstract()), h, b, cap)
    {
      if !hasKey {
        return Dropped;
      }
      var ok := Pass(h.tsn);
      assert streams[..count] == old(streams[..count]);
      if !ok || b.len < 32 || b.len > MAX_PAYLOAD + 40 {
        return Dropped;
      }
      if b.len - 32 > OPEN_MAX || b.plain.None? {
        return Dropped;
      }
      if b.plain.value.h != h {
        return Tampered;
      }
      r := Deliver(b.plain.value, cap);
    }

    method Deliver(c: Clear, cap: nat) returns (r: Outcome)
      requires Valid()
      modifies this, streams
      ensures Valid() && (Abstract(), r) == Gate(old(Abstract()), c, cap)
    {
      var at := GetStream(c.h.sid);
      if c.h.tsn > cumTsn {
        cumTsn := c.h.tsn;
      }
      if at.Some? && streams[at.value].recvSeq == c.h.seqNo {
        Advance(at.value);
        return Delivered(c.h, if |c.msg| > cap then c.msg[..cap] else c.msg);
      }
      if |rcvq| < RCVQ && at.Some? {
        rcvq := rcvq + [c];
      }
      return Queued;
    }

    method Advance(i: nat)
      requires Valid() && i < count
      modifies streams
      ensures streams[..count] == old(streams[..count])[i := old(streams[i]).(recvSeq := Bump(old(streams[i]).recvSeq))]
    {
      streams[i] := streams[i].(recvSeq := Bump(streams[i].recvSeq));
    }

    method HandleSack(cum: u32)
      modifies this`sendq
      ensures sendq == Marked(old(sendq), cum)
      ensures |sendq| == |old(sendq)|
      ensures forall i :: 0 <= i < |sendq| ==> sendq[i].h == old(sendq)[i].h && sendq[i].len == old(sendq)[i].len
      ensures forall i :: 0 <= i < |sendq| ==> (sendq[i].acked <==> old(sendq)[i].acked || old(sendq)[i].h.tsn <= cum)
    {
      for i := 0 to |sendq|
        invariant |sendq| == |old(sendq)|
        invariant forall k :: 0 <= k < i ==> sendq[k] == Marked(old(sendq), cum)[k]
        invariant forall k :: i <= k < |sendq| ==> sendq[k] == old(sendq)[k]
      {
        if !sendq[i].acked && sendq[i].h.tsn <= cum {
          sendq := sendq[i := sendq[i].(acked := true)];
        }
      }
    }
  }
}
