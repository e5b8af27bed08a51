/** The ICSP data plane of one association: TSN and stream numbering on the
    way out; replay window, order gate and reorder buffer on the way in. */
module IcspSession {
  import opened Limbs
  import opened Machine
  import opened Octets
  import opened Wrappers

  type Tsn = x: int | 0 <= x < 0x1_0000_0000
  type StreamId = x: int | 0 <= x < 0x1_0000
  type StreamSeq = x: int | 0 <= x < 0x1_0000

  const WRAP32: int := 0x1_0000_0000
  const MAX_PAYLOAD: int := 1400
  const HEADER_LEN: int := 12

  // ---- idealised sealing ---------------------------------------------------

  /** The clear text of a DATA chunk: its own header, then the message. */
  datatype Clear = Clear(tsn: Tsn, sid: StreamId, seqNo: StreamSeq, data: Bytes)

  /** A box is either sealed under a key and the nonce of (association, TSN),
      or bytes that nobody sealed. */
  datatype Box = Sealed(key: nat, assoc: int, nonceTsn: Tsn, clear: Clear) | Junk(len: nat)

  function BoxLen(b: Box): nat {
    match b
    case Sealed(_, _, _, c) => 16 + 16 + 8 + |c.data|
    case Junk(n) => n
  }

  /** Opening undoes sealing under the same key and nonce, and nothing else. */
  function Open(key: nat, assoc: int, tsn: Tsn, b: Box): Option<Clear> {
    if b.Sealed? && b.key == key && b.assoc == assoc && b.nonceTsn == tsn then Some(b.clear) else None
  }

  datatype Chunk =
    | Data(tsn: Tsn, sid: StreamId, seqNo: StreamSeq, box: Box)
    | Sack(cum: Tsn)

  /** Bytes of a packet that carries this one chunk. */
  function PacketLen(c: Chunk): nat {
    HEADER_LEN + 4 + match c case Data(_, _, _, b) => 8 + BoxLen(b) case Sack(_) => 4
  }

  // ---- the state -----------------------------------------------------------

  datatype Stream = Stream(sendSeq: StreamSeq, recvSeq: StreamSeq)
  datatype Item = Item(tsn: Tsn, sid: StreamId, seqNo: StreamSeq, chunk: Chunk, acked: bool)

  /** The data-plane fields of an association. */
  datatype View = View(streams: map<StreamId, Stream>, sendq: seq<Item>,
                       rcvbuf: map<StreamId, map<int, Bytes>>,
                       cumTsn: Tsn, rwTsn: Tsn, rwMask: int, nextTsn: Tsn)

  function Fresh(firstTsn: Tsn): View {
    View(map[], [], map[], 0, 0, 0, firstTsn)
  }

  function StreamOf(v: View, sid: StreamId): Stream {
    if sid in v.streams then v.streams[sid] else Stream(0, 0)
  }

  function BufOf(v: View, sid: StreamId): map<int, Bytes> {
    if sid in v.rcvbuf then v.rcvbuf[sid] else map[]
  }

  // ---- sending ---------------------------------------------------------------

  datatype SendResult = Sent(tsn: Tsn, chunk: Chunk) | NoKey | TooLarge

  /** What data_send does. A message that passes its own 1344-byte test but not
      the packet limit of build_pkt fails after the TSN was taken. */
  function Send(v: View, key: Option<nat>, assoc: int, sid: StreamId, data: Bytes): (View, SendResult) {
    if key.None? then (v, NoKey)
    else if |data| > MAX_PAYLOAD - 56 then (v, TooLarge)
    else
      var s := StreamOf(v, sid);
      var tsn := v.nextTsn;
      var chunk := Data(tsn, sid, s.sendSeq, Sealed(key.value, assoc, tsn, Clear(tsn, sid, s.sendSeq, data)));
      var v1 := v.(streams := v.streams[sid := s], nextTsn := (tsn as int + 1) % WRAP32);
      if PacketLen(chunk) > MAX_PAYLOAD then (v1, TooLarge)
      else
        (v1.(sendq := v.sendq + [Item(tsn, sid, s.sendSeq, chunk, false)],
             streams := v.streams[sid := s.(sendSeq := (s.sendSeq as int + 1) % 0x1_0000)]),
         Sent(tsn, chunk))
  }

  /** The message limit that really holds is 1336 bytes, not 1344. */
  lemma SendLimit(v: View, key: Option<nat>, assoc: int, sid: StreamId, data: Bytes)
    ensures Send(v, key, assoc, sid, data).1.Sent? <==> key.Some? && |data| <= 1336
    ensures 1336 < |data| <= 1344 && key.Some?
            ==> Send(v, key, assoc, sid, data).0.nextTsn == (v.nextTsn as int + 1) % WRAP32
                && Send(v, key, assoc, sid, data).0.sendq == v.sendq
  {
  }

  // ---- receiving -------------------------------------------------------------

  /** The sliding window: None for a replay or a TSN too old to tell. */
  function Admit(v: View, tsn: Tsn): Option<View> {
    if tsn > v.rwTsn then
      var shift := tsn - v.rwTsn as int;
      Some(v.(rwTsn := tsn, rwMask := if shift < 32 then v.rwMask * Pow(2, shift) + 1 else 1))
    else if v.rwTsn as int - tsn >= 32 then None
    else if Bit(v.rwMask, v.rwTsn as int - tsn) == 1 then None
    else Some(v.(rwMask := v.rwMask + Pow(2, v.rwTsn as int - tsn)))
  }

  /** buf after the messages lo .. hi - 1 were popped. */
  function Without(buf: map<int, Bytes>, lo: int, hi: int): map<int, Bytes> {
    map k | k in buf && !(lo <= k < hi) :: buf[k]
  }

  /** The messages at next, next + 1, ... that are already buffered. */
  function Drained(buf: map<int, Bytes>, next: int): seq<Bytes>
    decreases |buf|
  {
    if next in buf then [buf[next]] + Drained(buf - {next}, next + 1) else []
  }

  function Concat(ms: seq<Bytes>): Bytes {
    if ms == [] then [] else Concat(ms[..|ms| - 1]) + ms[|ms| - 1]
  }

  datatype Outcome = Nothing | Delivered(sid: StreamId, data: Bytes) | Mismatch

  /** What _handle_data does with one DATA chunk. */
  function Receive(v: View, key: nat, assoc: int, c: Chunk): (View, Outcome)
    requires c.Data?
  {
    if BoxLen(c.box) < 32 then (v, Nothing)
    else
      match Admit(v, c.tsn)
      case None => (v, Nothing)
      case Some(v1) =>
        match Open(key, assoc, c.tsn, c.box)
        case None => (v1, Nothing)
        case Some(clear) =>
          if clear.tsn != c.tsn || clear.sid != c.sid || clear.seqNo != c.seqNo then (v1, Mismatch)
          else Accept(v1, c, clear)
  }

  /** A message that is not next waits in the reorder buffer; the first copy stays. */
  function Buffered(v: View, sid: StreamId, seqNo: StreamSeq, data: Bytes): View {
    var buf := BufOf(v, sid);
    v.(streams := v.streams[sid := StreamOf(v, sid)],
       rcvbuf := v.rcvbuf[sid := if seqNo in buf then buf else buf[seqNo as int := data]])
  }

  /** How many messages are delivered from recvSeq on when the next one arrives. */
  function RunLength(v: View, sid: StreamId): nat {
    1 + |Drained(BufOf(v, sid), StreamOf(v, sid).recvSeq as int + 1)|
  }

  /** The next message moves the stream past everything now in order. */
  function Advanced(v: View, sid: StreamId, tsn: Tsn): View {
    var s := StreamOf(v, sid);
    var next := s.recvSeq as int + RunLength(v, sid);
    v.(streams := v.streams[sid := s.(recvSeq := next % 0x1_0000)],
       rcvbuf := if sid in v.rcvbuf then v.rcvbuf[sid := Without(v.rcvbuf[sid], s.recvSeq as int + 1, next)] else v.rcvbuf,
       cumTsn := if tsn > v.cumTsn then tsn else v.cumTsn)
  }

  /** The order gate. */
  function Accept(v: View, c: Chunk, clear: Clear): (View, Outcome)
    requires c.Data?
  {
    var s := StreamOf(v, c.sid);
    if c.seqNo != s.recvSeq then (Buffered(v, c.sid, c.seqNo, clear.data), Nothing)
    else
      (Advanced(v, c.sid, c.tsn),
       Delivered(c.sid, Concat([clear.data] + Drained(BufOf(v, c.sid), s.recvSeq as int + 1))))
  }

  /** A SACK marks every entry up to its cumulative TSN. */
  function Acknowledge(v: View, cum: Tsn): View {
    v.(sendq := seq(|v.sendq|, i requires 0 <= i < |v.sendq| =>
      if v.sendq[i].tsn <= cum then v.sendq[i].(acked := true) else v.sendq[i]))
  }

  /** The chunks a retransmission pass sends: entries not acked and due. */
  function Resent(q: seq<Item>, due: seq<bool>): seq<Chunk>
    requires |due| == |q|
  {
    if q == [] then []
    else Resent(q[..|q| - 1], due[..|q| - 1]) + if !q[|q| - 1].acked && due[|q| - 1] then [q[|q| - 1].chunk] else []
  }

  ghost predicate Wanted(q: seq<Item>, due: seq<bool>, c: Chunk, i: nat)
    requires |due| == |q|
  {
    i < |q| && !q[i].acked && due[i] && q[i].chunk == c
  }

  /** A pass sends the chunks of the unacked entries that are due, and no others. */
  lemma {:induction false} ResentExactly(q: seq<Item>, due: seq<bool>, c: Chunk)
    requires |due| == |q|
    ensures c in Resent(q, due) <==> exists i: nat :: Wanted(q, due, c, i)
    decreases |q|
  {
    if q != [] {
      var n := |q| - 1;
      ResentExactly(q[..n], due[..n], c);
      assert forall i: nat :: i < n ==> (Wanted(q, due, c, i) <==> Wanted(q[..n], due[..n], c, i));
      if c in Resent(q[..n], due[..n]) {
        var i: nat :| Wanted(q[..n], due[..n], c, i);
        assert Wanted(q, due, c, i);
      }
      assert c in Resent(q, due) && c !in Resent(q[..n], due[..n]) ==> Wanted(q, due, c, n);
    }
  }

  /** The association object. */
  class Assoc {
    var streams: map<StreamId, Stream>
    var sendq: seq<Item>
    var rcvbuf: map<StreamId, map<int, Bytes>>
    var cumTsn: Tsn
    var rwTsn: Tsn
    var rwMask: int
    var nextTsn: Tsn
    var sendKey: Option<nat>
    var recvKey: nat
    var assocId: int

    function State(): View
      reads this
    {
      View(streams, sendq, rcvbuf, cumTsn, rwTsn, rwMask, nextTsn)
    }

    /** _reset_data_plane, with the random first TSN as a parameter. */
    method ResetDataPlane(firstTsn: Tsn)
      modifies this
      ensures State() == Fresh(firstTsn)
      ensures nextTsn == firstTsn && streams == map[] && sendq == [] && rcvbuf == map[]
      ensures cumTsn == rwTsn == rwMask == 0
      ensures sendKey == old(sendKey) && recvKey == old(recvKey) && assocId == old(assocId)
    {
      streams, sendq, rcvbuf := map[], [], map[];
      cumTsn, rwTsn, rwMask := 0, 0, 0;
      nextTsn := firstTsn;
    }

    method DataSend(sid: StreamId, data: Bytes) returns (r: SendResult)
      modifies this
      ensures (State(), r) == old(Send(State(), sendKey, assocId, sid, data))
      ensures r.Sent? <==> sendKey.Some? && |data| <= 1336
      ensures r.Sent? ==> r.tsn == old(nextTsn) && nextTsn == (old(nextTsn) as int + 1) % 0x1_0000_0000
      ensures r.Sent? ==> sendq == old(sendq) + [Item(r.tsn, sid, old(StreamOf(State(), sid)).sendSeq, r.chunk, false)]
      ensures !r.Sent? ==> sendq == old(sendq)
      ensures sendKey == old(sendKey) && recvKey == old(recvKey) && assocId == old(assocId)
    {
      if sendKey.None? {
        return NoKey;
      }
      if |data| > MAX_PAYLOAD - 56 {
        return TooLarge;
      }
      if sid !in streams {
        streams := streams[sid := Stream(0, 0)];
      }
      var s := streams[sid];
      var tsn := nextTsn;
      nextTsn := (tsn as int + 1) % WRAP32;
      var clear := Clear(tsn, sid, s.sendSeq, data);
      var chunk := Data(tsn, sid, s.sendSeq, Sealed(sendKey.value, assocId, tsn, clear));
      if PacketLen(chunk) > MAX_PAYLOAD {
        assert streams == old(streams)[sid := s];
        return TooLarge;
      }
      sendq := sendq + [Item(tsn, sid, s.sendSeq, chunk, false)];
      streams := streams[sid := s.(sendSeq := (s.sendSeq as int + 1) % 0x1_0000)];
      assert streams == old(streams)[sid := s.(sendSeq := (s.sendSeq as int + 1) % 0x1_0000)];
      return Sent(tsn, chunk);
    }

    method DataRetransmit(due: seq<bool>) returns (out: seq<Chunk>)
      requires |due| == |sendq|
      ensures out == Resent(sendq, due)
    {
      out := [];
      for i := 0 to |sendq|
        invariant out == Resent(sendq[..i], due[..i])
      {
        assert sendq[..i + 1][..i] == sendq[..i] && due[..i + 1][..i] == due[..i];
        if sendq[i].acked || !due[i] {
          continue;
        }
        out := out + [sendq[i].chunk];
      }
      assert sendq[..|sendq|] == sendq && due[..|sendq|] == due;
    }

    method AllAcked() returns (r: bool)
      ensures r <==> forall i :: 0 <= i < |sendq| ==> sendq[i].acked
    {
      for i := 0 to |sendq|
        invariant forall k :: 0 <= k < i ==> sendq[k].acked
      {
        if !sendq[i].acked {
          return false;
        }
      }
      return true;
    }

    /** The drain loop: pop consecutive buffered messages. */
    static method Drain(buf0: map<int, Bytes>, first: int) returns (out: seq<Bytes>, buf: map<int, Bytes>, next: int)
      ensures out == Drained(buf0, first) && next == first + |out|
      ensures buf == Without(buf0, first, next)
    {
      out, buf, next := [], buf0, first;
      while next in buf
        invariant next == first + |out|
        invariant out + Drained(buf, next) == Drained(buf0, first)
        invariant buf == Without(buf0, first, next)
        decreases |buf|
      {
        var m := buf[next];
        assert Drained(buf, next) == [m] + Drained(buf - {next}, next + 1);
        out, buf := out + [m], buf - {next};
        next := next + 1;
      }
    }

    method HandleData(c: Chunk) returns (r: Outcome)
      requires c.Data?
      modifies this
      ensures (State(), r) == old(Receive(State(), recvKey, assocId, c))
      ensures sendKey == old(sendKey) && recvKey == old(recvKey) && assocId == old(assocId)
    {
      if BoxLen(c.box) < 32 {
        return Nothing;
      }
      if c.tsn > rwTsn {
        var shift := c.tsn - rwTsn as int;
        rwMask := if shift < 32 then rwMask * Pow(2, shift) + 1 else 1;
        rwTsn := c.tsn;
      } else if rwTsn as int - c.tsn >= 32 {
        return Nothing;
      } else if Bit(rwMask, rwTsn as int - c.tsn) == 1 {
        return Nothing;
      } else {
        rwMask := rwMask + Pow(2, rwTsn as int - c.tsn);
      }
      var plain := Open(recvKey, assocId, c.tsn, c.box);
      if plain.None? {
        return Nothing;
      }
      var clear := plain.value;
      if clear.tsn != c.tsn || clear.sid != c.sid || clear.seqNo != c.seqNo {
        return Mismatch;
      }
      r := Gate(c, clear);
    }

    method Gate(c: Chunk, clear: Clear) returns (r: Outcome)
      requires c.Data?
      modifies this
      ensures (State(), r) == old(Accept(State(), c, clear))
      ensures sendKey == old(sendKey) && recvKey == old(recvKey) && assocId == old(assocId)
    {
      if c.seqNo != StreamOf(State(), c.sid).recvSeq {
        OpenStream(c.sid);
        BufferMessage(c.sid, c.seqNo, clear.data);
        return Nothing;
      }
      var more := DeliverRun(c.sid, c.tsn);
      return Delivered(c.sid, Concat([clear.data] + more));
    }

    /** A stream that has not been used yet gets a fresh entry. */
    method OpenStream(sid: StreamId)
      modifies this`streams
      ensures streams == old(streams)[sid := StreamOf(old(State()), sid)]
    {
      if sid !in streams {
        streams := streams[sid := Stream(0, 0)];
      }
      assert streams == old(streams)[sid := StreamOf(old(State()), sid)];
    }

    method DeliverRun(sid: StreamId, tsn: Tsn) returns (more: seq<Bytes>)
      modifies this`streams, this`rcvbuf, this`cumTsn
      ensures State() == old(Advanced(State(), sid, tsn))
      ensures more == old(Drained(BufOf(State(), sid), StreamOf(State(), sid).recvSeq as int + 1))
    {
      OpenStream(sid);
      var s := streams[sid];
      var buf := if sid in rcvbuf then rcvbuf[sid] else map[];
      var left, next;
      more, left, next := Drain(buf, s.recvSeq as int + 1);
      if sid in rcvbuf {
        rcvbuf := rcvbuf[sid := left];
      }
      streams := streams[sid := s.(recvSeq := next % 0x1_0000)];
      if tsn > cumTsn {
        cumTsn := tsn;
      }
      assert streams == old(streams)[sid := s.(recvSeq := next % 0x1_0000)];
    }

    /** Data waits under its number; what already waits there stays. */
    method BufferMessage(sid: StreamId, seqNo: StreamSeq, data: Bytes)
      modifies this`rcvbuf
      ensures rcvbuf == old(Buffered(State(), sid, seqNo, data)).rcvbuf
    {
      if sid !in rcvbuf {
        rcvbuf := rcvbuf[sid := map[]];
      }
      if seqNo !in rcvbuf[sid] {
        rcvbuf := rcvbuf[sid := rcvbuf[sid][seqNo as int := data]];
      }
    }

    method HandleSack(cum: Tsn)
      modifies this`sendq
      ensures State() == old(Acknowledge(State(), cum))
      ensures |sendq| == |old(sendq)|
      ensures forall i :: 0 <= i < |sendq| ==>
                sendq[i] == old(sendq)[i].(acked := old(sendq)[i].acked || old(sendq)[i].tsn <= cum)
    {
      for i := 0 to |sendq|
        invariant |sendq| == |old(sendq)|
        invariant forall k :: 0 <= k < i ==> sendq[k] == Acknowledge(old(State()), cum).sendq[k]
        invariant forall k :: i <= k < |sendq| ==> sendq[k] == old(sendq)[k]
      {
        if !sendq[i].acked && sendq[i].tsn <= cum {
          sendq := sendq[i := sendq[i].(acked := true)];
        }
      }
    }
  }
}
