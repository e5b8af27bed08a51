/** One federated gateway: what it does with a frame or a query from a link. */
module Federation {
  import opened Limbs
  import opened ModArith
  import opened Machine
  import opened Wrappers

  type Addr = x: int | 0 <= x < 0x100_0000_0000

  const MAX_PEERS: nat := 256
  const MAX_PENDING: nat := 16
  const BROADCAST: int := 0xFFFF_FFFF_FFFF

  /** addr 0 marks a free slot; udp: reached by datagram, otherwise on the local wire;
      v4: its endpoint can be written into a GW_R. */
  datatype Peer = Peer(addr: Addr, prefix: nat, mac: int, udp: bool, v4: bool)
  datatype Route = Route(addr: Addr, prefix: nat, link: nat)
  datatype Pending = Pending(addr: Addr, link: Option<nat>)

  /** The two addresses agree in their first prefix bits. */
  predicate InRange(addr: Addr, base: Addr, prefix: nat)
    requires prefix <= 40
  {
    PowPositive(2, 40 - prefix);
    addr / Pow(2, 40 - prefix) == base / Pow(2, 40 - prefix)
  }

  lemma PowersSplit(k: nat)
    requires k <= 40
    ensures Pow(2, 40 - k) > 0 && Pow(2, k) > 0 && Pow(2, k) * Pow(2, 40 - k) == 0x100_0000_0000
  {
    PowPositive(2, 40 - k);
    PowPositive(2, k);
    PowAdd(2, k, 40 - k);
    Forty(20);
  }

  lemma Forty(n: nat)
    requires n == 20
    ensures Pow(2, 2 * n) == 0x100_0000_0000
  {
    assert Pow(2, 10) == 1024;
    PowAdd(2, 10, n - 10);
    PowAdd(2, n, n);
  }

  lemma {:induction false} BitsFrom(x: nat, e: nat, i: nat)
    ensures Pow(2, e) > 0 && Bit(x / Pow(2, e), i) == Bit(x, e + i)
    decreases e
  {
    PowPositive(2, e);
    if e > 0 {
      BitsFrom(x / 2, e - 1, i);
      DivDiv(x, 2, Pow(2, e - 1));
    }
  }

  /** Different numbers of n bits differ in a bit. */
  lemma {:induction false} DifferentBit(x: nat, y: nat, n: nat) returns (i: nat)
    requires x < Pow(2, n) && y < Pow(2, n) && x != y
    ensures i < n && Bit(x, i) != Bit(y, i)
    decreases n
  {
    if x % 2 != y % 2 {
      i := 0;
    } else {
      i := DifferentBit(x / 2, y / 2, n - 1);
      i := i + 1;
    }
  }

  lemma QuotientBelow(x: int, w: int, m: int)
    requires 0 <= x < m * w && w > 0
    ensures 0 <= x / w < m
  {
    DivModDef(x, w);
    if x / w >= m {
      MulMonotone(m, x / w, w);
    }
  }

  lemma NetworkFits(x: Addr, k: nat)
    requires k <= 40
    ensures Pow(2, 40 - k) > 0 && 0 <= x / Pow(2, 40 - k) < Pow(2, k)
  {
    PowersSplit(k);
    QuotientBelow(x, Pow(2, 40 - k), Pow(2, k));
  }

  lemma InRangeSameBits(a: Addr, b: Addr, k: nat, e: nat)
    requires 40 - k <= e < 40 && k <= 40 && InRange(a, b, k)
    ensures Bit(a, e) == Bit(b, e)
  {
    BitsFrom(a, 40 - k, e - (40 - k));
    BitsFrom(b, 40 - k, e - (40 - k));
  }

  lemma OutOfRangeBit(a: Addr, b: Addr, k: nat) returns (e: nat)
    requires k <= 40 && !InRange(a, b, k)
    ensures 40 - k <= e < 40 && Bit(a, e) != Bit(b, e)
  {
    var w := Pow(2, 40 - k);
    NetworkFits(a, k);
    NetworkFits(b, k);
    var i := DifferentBit(a / w, b / w, k);
    BitsFrom(a, 40 - k, i);
    BitsFrom(b, 40 - k, i);
    e := 40 - k + i;
  }

  /** A range holds an address exactly when the first k of the forty bits are the same. */
  lemma InRangeBits(a: Addr, b: Addr, k: nat)
    requires k <= 40
    ensures InRange(a, b, k) <==> forall e: nat :: 40 - k <= e < 40 ==> Bit(a, e) == Bit(b, e)
  {
    if InRange(a, b, k) {
      forall e: nat | 40 - k <= e < 40
        ensures Bit(a, e) == Bit(b, e)
      {
        InRangeSameBits(a, b, k, e);
      }
    } else {
      var e := OutOfRangeBit(a, b, k);
      assert Bit(a, e) != Bit(b, e);
    }
  }

  /** A full prefix holds one address, an empty one all; a longer prefix holds no more. */
  lemma InRangeEnds(a: Addr, b: Addr, j: nat, k: nat)
    requires j <= k <= 40
    ensures (InRange(a, b, 40) <==> a == b) && InRange(a, b, 0)
    ensures InRange(a, b, k) ==> InRange(a, b, j)
  {
    assert Pow(2, 0) == 1;
    InRangeBits(a, b, 0);
    InRangeBits(a, b, j);
    InRangeBits(a, b, k);
    WholeAddress(a, b, 40);
  }

  lemma WholeAddress(a: Addr, b: Addr, k: nat)
    requires k == 40
    ensures InRange(a, b, k) <==> a == b
  {
    assert Pow(2, 40 - k) == 1;
  }

  datatype Class = A | B | C | D | E

  function ClassOf(addr: Addr): Class {
    var b := addr / 0x1_0000_0000;
    if b < 0x40 then A else if b < 0x80 then B else if b < 0xC0 then C else if b < 0xE0 then D else E
  }

  /** The class is read from the leading bits of the address: 00 for A, 01 for B, 10 for C,
      110 for D, 111 for E. */
  lemma ClassBits(addr: Addr, b: int)
    requires b == addr / 0x1_0000_0000
    ensures 0 <= b < 256
    ensures ClassOf(addr) == A <==> Bit(b, 7) == 0 && Bit(b, 6) == 0
    ensures ClassOf(addr) == B <==> Bit(b, 7) == 0 && Bit(b, 6) == 1
    ensures ClassOf(addr) == C <==> Bit(b, 7) == 1 && Bit(b, 6) == 0
    ensures ClassOf(addr) == D <==> Bit(b, 7) == 1 && Bit(b, 6) == 1 && Bit(b, 5) == 0
    ensures ClassOf(addr) == E <==> Bit(b, 7) == 1 && Bit(b, 6) == 1 && Bit(b, 5) == 1
  {
    TopBits(b);
  }

  lemma TopBits(b: int)
    ensures Bit(b, 7) == (b / 128) % 2 && Bit(b, 6) == (b / 64) % 2 && Bit(b, 5) == (b / 32) % 2
  {
    BitQuotient(b, 7);
    BitQuotient(b, 6);
    BitQuotient(b, 5);
    assert Pow(2, 5) == 32 && Pow(2, 6) == 64 && Pow(2, 7) == 128;
  }

  // ---- longest prefix match ------------------------------------------------------------------

  /** The entries of a table as ranges: (base, prefix), or None when free. */
  datatype Range = Range(base: Addr, prefix: nat)

  predicate Matches(t: seq<Option<Range>>, addr: Addr, i: nat) {
    i < |t| && t[i].Some? && t[i].value.prefix <= 40 && InRange(addr, t[i].value.base, t[i].value.prefix)
  }

  /** Entry i is the first of the most specific ranges that contain addr. */
  ghost predicate Best(t: seq<Option<Range>>, addr: Addr, i: nat) {
    && Matches(t, addr, i)
    && (forall k :: 0 <= k < |t| && Matches(t, addr, k) ==>
          t[k].value.prefix < t[i].value.prefix || (t[k].value.prefix == t[i].value.prefix && i <= k))
  }

  method FindBest(t: seq<Option<Range>>, addr: Addr) returns (r: Option<nat>)
    ensures r.None? ==> forall k :: 0 <= k < |t| ==> !Matches(t, addr, k)
    ensures r.Some? ==> Best(t, addr, r.value)
  {
    r := None;
    var pref: int := -1;
    for i := 0 to |t|
      invariant pref == -1 <==> r.None?
      invariant r.None? ==> forall k :: 0 <= k < i ==> !Matches(t, addr, k)
      invariant r.Some? ==> r.value < i && Matches(t, addr, r.value) && pref == t[r.value].value.prefix
      invariant r.Some? ==> forall k :: 0 <= k < i && Matches(t, addr, k) ==>
                  t[k].value.prefix < pref || (t[k].value.prefix == pref && r.value <= k)
    {
      if t[i].Some? && t[i].value.prefix <= 40 && t[i].value.prefix > pref && InRange(addr, t[i].value.base, t[i].value.prefix) {
        r := Some(i);
        pref := t[i].value.prefix;
      }
    }
  }

  /** The best match is unique: the tables decide, not the order of the search. */
  lemma BestUnique(t: seq<Option<Range>>, addr: Addr, i: nat, j: nat)
    requires Best(t, addr, i) && Best(t, addr, j)
    ensures i == j
  {
  }

  // ---- the gateway ---------------------------------------------------------------------------

  /** What happens to a data frame. */
  datatype Delivery = Ignored | ToClients(to: seq<nat>) | ToClient(peer: nat) | ToWire | ToLinks(out: seq<nat>)

  /** All links but one, in order. */
  function Others(n: nat, li: nat): seq<nat> {
    if n == 0 then [] else Others(n - 1, li) + if n - 1 != li then [n - 1] else []
  }

  lemma {:induction false} OthersAre(n: nat, li: nat)
    ensures forall j: nat :: j in Others(n, li) <==> j < n && j != li
    ensures Distinct(Others(n, li))
  {
    if n > 0 {
      OthersAre(n - 1, li);
      var before := Others(n - 1, li);
      assert forall i :: 0 <= i < |before| ==> before[i] in before;
    }
  }

  ghost predicate Distinct(s: seq<nat>) {
    forall i, j :: 0 <= i < j < |s| ==> s[i] != s[j]
  }

  class Gateway {
    var peers: seq<Peer>
    var routes: seq<Route>
    var pending: seq<Pending>
    var links: nat
    var allowPrivate: bool
    var wire: bool

    ghost predicate Valid()
      reads this
    {
      && |peers| == MAX_PEERS && |pending| <= MAX_PENDING
      && (forall i :: 0 <= i < |routes| ==> routes[i].link < links && 0 < routes[i].prefix <= 40)
      && (forall i :: 0 <= i < |peers| ==> peers[i].prefix <= 40)
    }

    function PeerRanges(): (t: seq<Option<Range>>)
      reads this
      ensures |t| == |peers|
    {
      seq(|peers|, i requires 0 <= i < |peers| reads this =>
        if peers[i].addr != 0 then Some(Range(peers[i].addr, peers[i].prefix)) else None)
    }

    function RouteRanges(): (t: seq<Option<Range>>)
      reads this
      ensures |t| == |routes|
    {
      seq(|routes|, i requires 0 <= i < |routes| reads this => Some(Range(routes[i].addr, routes[i].prefix)))
    }

    ghost predicate HasMac(mac: int, i: nat)
      reads this
    {
      i < |peers| && peers[i].addr != 0 && peers[i].mac == mac
    }

    method PeerFindMac(mac: int) returns (r: Option<nat>)
      ensures r.Some? ==> HasMac(mac, r.value) && forall k :: 0 <= k < r.value ==> !HasMac(mac, k)
      ensures r.None? <==> forall i: nat :: !HasMac(mac, i)
    {
      for i := 0 to |peers|
        invariant forall k :: 0 <= k < i ==> !HasMac(mac, k)
      {
        if peers[i].addr != 0 && peers[i].mac == mac {
          assert HasMac(mac, i);
          return Some(i);
        }
      }
      return None;
    }

    /** Peer i is the client the frame is for: the first with its MAC, or without one the
        owner of the most specific range that holds the address. */
    ghost predicate Owner(mac: int, dst: Addr, i: nat)
      reads this
    {
      || (HasMac(mac, i) && forall k :: 0 <= k < i ==> !HasMac(mac, k))
      || ((forall k: nat :: !HasMac(mac, k)) && Best(PeerRanges(), dst, i))
    }

    lemma OwnerUnique(mac: int, dst: Addr, i: nat, j: nat)
      requires Owner(mac, dst, i) && Owner(mac, dst, j)
      ensures i == j
    {
      if !HasMac(mac, i) && !HasMac(mac, j) {
        BestUnique(PeerRanges(), dst, i, j);
      }
    }

    method FindOwner(mac: int, dst: Addr) returns (p: Option<nat>)
      ensures p.Some? ==> p.value < |peers| && Owner(mac, dst, p.value) && forall i: nat :: Owner(mac, dst, i) ==> i == p.value
      ensures p.None? ==> forall i: nat :: !Owner(mac, dst, i)
    {
      p := PeerFindMac(mac);
      if p.None? {
        p := FindBest(PeerRanges(), dst);
      }
      if p.Some? {
        assert Owner(mac, dst, p.value);
        forall i: nat | Owner(mac, dst, i)
          ensures i == p.value
        {
          OwnerUnique(mac, dst, i, p.value);
        }
      }
    }

    /** The class filter for frames from a link. */
    predicate Refused(src: Addr, dst: Addr)
      reads this
    {
      !allowPrivate && (ClassOf(src) != C || (ClassOf(dst) != C && ClassOf(dst) != E))
    }

    /** gw_fed_data: local clients first, then the owner of the best route, then every
        other link; never back to the link li the frame came from. allowed is the
        answer of the rate limiter for a broadcast. */
    method FedData(li: nat, src: Addr, dst: Addr, mac: int, allowed: bool) returns (r: Delivery)
      requires Valid() && li < links
      ensures r.Ignored? <==> Refused(src, dst) || (mac == BROADCAST && !allowed)
      ensures r.ToClients? <==> !Refused(src, dst) && mac == BROADCAST && allowed
      ensures r.ToClients? ==> Distinct(r.to) && forall i: nat :: i in r.to <==> i < |peers| && peers[i].addr != 0 && peers[i].udp
      ensures r.ToClient? <==> !Refused(src, dst) && mac != BROADCAST && exists i: nat :: Owner(mac, dst, i) && peers[i].udp
      ensures r.ToClient? ==> Owner(mac, dst, r.peer) && peers[r.peer].udp
      ensures r.ToWire? <==>
              !Refused(src, dst) && mac != BROADCAST && wire && exists i: nat :: Owner(mac, dst, i) && !peers[i].udp
      ensures r.ToLinks? <==>
              !Refused(src, dst) && mac != BROADCAST && forall i: nat :: Owner(mac, dst, i) ==> !peers[i].udp && !wire
      ensures r.ToLinks? ==> Distinct(r.out) && li !in r.out && forall j :: j in r.out ==> j < links
      ensures forall i: nat :: r.ToLinks? && Best(RouteRanges(), dst, i) && routes[i].link != li ==> r.out == [routes[i].link]
      ensures r.ToLinks? && (forall i: nat :: Best(RouteRanges(), dst, i) ==> routes[i].link == li) ==> r.out == Others(links, li)
    {
      if !allowPrivate && (ClassOf(src) != C || (ClassOf(dst) != C && ClassOf(dst) != E)) {
        return Ignored;
      }
      if mac == BROADCAST {
        if !allowed {
          return Ignored;
        }
        var to := Reachable();
        return ToClients(to);
      }
      var p := FindOwner(mac, dst);
      if p.Some? && peers[p.value].udp {
        return ToClient(p.value);
      }
      if p.Some? && wire {
        return ToWire;
      }
      r := RouteOn(li, dst);
    }

    /** The peers a broadcast is sent to. */
    method Reachable() returns (to: seq<nat>)
      ensures Distinct(to) && forall i: nat :: i in to <==> i < |peers| && peers[i].addr != 0 && peers[i].udp
    {
      to := [];
      for i := 0 to |peers|
        invariant Distinct(to)
        invariant forall k: nat :: k in to <==> k < i && peers[k].addr != 0 && peers[k].udp
      {
        if peers[i].addr != 0 && peers[i].udp {
          assert forall k :: 0 <= k < |to| ==> to[k] in to;
          to := to + [i];
        }
      }
    }

    method RouteOn(li: nat, dst: Addr) returns (r: Delivery)
      requires Valid() && li < links
      ensures r.ToLinks? && Distinct(r.out) && li !in r.out && forall j :: j in r.out ==> j < links
      ensures forall i: nat :: Best(RouteRanges(), dst, i) && routes[i].link != li ==> r.out == [routes[i].link]
      ensures (forall i: nat :: Best(RouteRanges(), dst, i) ==> routes[i].link == li) ==> r.out == Others(links, li)
    {
      OthersAre(links, li);
      var best := FindBest(RouteRanges(), dst);
      if best.Some? && routes[best.value].link != li {
        forall i: nat | Best(RouteRanges(), dst, i)
          ensures i == best.value
        {
          BestUnique(RouteRanges(), dst, i, best.value);
        }
        return ToLinks([routes[best.value].link]);
      }
      if best.Some? {
        forall i: nat | Best(RouteRanges(), dst, i)
          ensures i == best.value
        {
          BestUnique(RouteRanges(), dst, i, best.value);
        }
      }
      var out := AllBut(li);
      return ToLinks(out);
    }

    /** No peer's range holds the address, there is someone else to ask, the question is
        not under way and a slot is free for it. */
    ghost predicate Asks(q: Addr)
      reads this
    {
      && (forall i: nat :: !Matches(PeerRanges(), q, i))
      && links > 1 && |pending| < MAX_PENDING
      && forall i :: 0 <= i < |pending| ==> pending[i].addr != q
    }

    /** gw_fed_handle for GW_Q: answer, or ask every other link once per address. */
    method FedQuery(li: nat, q: Addr) returns (answer: bool, out: seq<nat>)
      requires Valid() && li < links
      modifies this`pending
      ensures Valid()
      ensures answer <==> exists i: nat :: old(Best(PeerRanges(), q, i)) && peers[i].v4
      ensures out == if old(Asks(q)) then Others(links, li) else []
      ensures pending == old(pending) + if old(Asks(q)) then [Pending(q, Some(li))] else []
      ensures Distinct(out) && li !in out && forall j :: j in out ==> j < links
    {
      answer, out := false, [];
      var t := FindBest(PeerRanges(), q);
      if t.Some? {
        answer := peers[t.value].v4;
        forall i: nat | Best(PeerRanges(), q, i)
          ensures i == t.value
        {
          BestUnique(PeerRanges(), q, i, t.value);
        }
        return;
      }
      if links <= 1 {
        return;
      }
      var asked := Asked(q);
      if asked || |pending| >= MAX_PENDING {
        return;
      }
      pending := pending + [Pending(q, Some(li))];
      OthersAre(links, li);
      out := AllBut(li);
    }

    method Asked(q: Addr) returns (asked: bool)
      ensures asked <==> exists k :: 0 <= k < |pending| && pending[k].addr == q
    {
      asked := false;
      for i := 0 to |pending|
        invariant asked <==> exists k :: 0 <= k < i && pending[k].addr == q
      {
        if pending[i].addr == q {
          asked := true;
        }
      }
    }

    /** Every link but the one a frame came from. */
    method AllBut(li: nat) returns (out: seq<nat>)
      ensures out == Others(links, li)
    {
      out := [];
      for j := 0 to links
        invariant out == Others(j, li)
      {
        if j != li {
          out := out + [j];
        }
      }
    }
  }
}
