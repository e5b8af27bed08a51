/** The token buckets: a fixed table searched and updated in place. */
module RateLimit {
  import opened Machine
  import opened Wrappers

  const SLOTS: nat := 64
  const WRAP32: int := 0x1_0000_0000

  datatype Bucket = Bucket(id: int, used: bool, tokens: u32, lastMs: u32)

  type Small = x: int | 0 <= x < 0x8000_0000

  // ---- one call ------------------------------------------------------------------------------

  /** The sender's slot if it has one; otherwise the first free slot, or else the
      first among those with the smallest time stamp (oldest so far, ts its stamp). */
  function Search(t: seq<Bucket>, id: int, i: nat, oldest: nat, ts: u32): (r: (Option<nat>, nat))
    requires i <= |t| && oldest < |t|
    ensures r.1 < |t|
    ensures r.0.Some? ==> i <= r.0.value < |t| && t[r.0.value].used && t[r.0.value].id == id
    ensures r.0.None? ==> r.1 == oldest || i <= r.1
    decreases |t| - i
  {
    if i == |t| then (None, oldest)
    else if t[i].used && t[i].id == id then (Some(i), oldest)
    else if !t[i].used then (None, i)
    else if t[i].lastMs < ts then Search(t, id, i + 1, i, t[i].lastMs)
    else Search(t, id, i + 1, oldest, ts)
  }

  /** The clock is 32 bits wide, and so is a difference of two of its values. */
  function Elapsed(b: Bucket, now: u32): (e: u32) {
    (now as int - b.lastMs) % WRAP32
  }

  /** What the bucket would hold if nothing were cut. */
  function Earned(b: Bucket, now: u32, rate: Small): (e: int)
    ensures e >= b.tokens as int
  {
    EarnedNatural(rate, Elapsed(b, now));
    b.tokens as int + rate as int * Elapsed(b, now) / 1000
  }

  lemma EarnedNatural(rate: int, elapsed: int)
    requires rate >= 0 && elapsed >= 0
    ensures rate * elapsed / 1000 >= 0
  {
    assert rate * elapsed >= 0;
  }

  /** The sum is cut to 32 bits, then to the burst. */
  function Refill(b: Bucket, now: u32, rate: Small, burst: Small): Bucket {
    if Elapsed(b, now) > 0 then
      var sum := Earned(b, now, rate) % WRAP32;
      b.(tokens := if sum > burst then burst else sum, lastMs := now)
    else b
  }

  /** A refusal empties the bucket. */
  function Spend(b: Bucket, cost: Small): (Bucket, bool) {
    if b.tokens < cost then (b.(tokens := 0), false) else (b.(tokens := b.tokens as int - cost), true)
  }

  function Slot(t: seq<Bucket>, id: int): (i: nat)
    requires |t| > 0
    ensures i < |t|
  {
    var (found, oldest) := Search(t, id, 0, 0, 0xFFFF_FFFF);
    if found.Some? then found.value else oldest
  }

  function Mine(t: seq<Bucket>, now: u32, id: int, burst: Small): Bucket
    requires |t| > 0
  {
    var b := t[Slot(t, id)];
    if b.used && b.id == id then b else Bucket(id, true, burst, now)
  }

  function Allow(t: seq<Bucket>, now: u32, id: int, rate: Small, burst: Small, cost: Small): (seq<Bucket>, bool)
    requires |t| > 0
  {
    var (b, ok) := Spend(Refill(Mine(t, now, id, burst), now, rate, burst), cost);
    (t[Slot(t, id) := b], ok)
  }

  class Limiter {
    const rates: array<Bucket>

    constructor ()
      ensures fresh(rates) && rates.Length == SLOTS && rates[..] == Empty()
    {
      rates := new Bucket[SLOTS](i => Bucket(0, false, 0, 0));
    }

    /** rate_allow, with the clock as a parameter. */
    method RateAllow(now: u32, id: int, rate: Small, burst: Small, cost: Small) returns (ok: bool)
      requires rates.Length == SLOTS
      modifies rates
      ensures (rates[..], ok) == Allow(old(rates[..]), now, id, rate, burst, cost)
    {
      ghost var t := rates[..];
      var at := FindSlot(id);
      var b := rates[at];
      if !(b.used && b.id == id) {
        b := Bucket(id, true, burst, now);
      }
      var elapsed := (now as int - b.lastMs) % WRAP32;
      if elapsed > 0 {
        var gain := rate as int * elapsed / 1000;
        b := b.(tokens := (b.tokens as int + gain) % WRAP32);
        if b.tokens > burst {
          b := b.(tokens := burst);
        }
        b := b.(lastMs := now);
      }
      if b.tokens < cost {
        b := b.(tokens := 0);
        ok := false;
      } else {
        b := b.(tokens := b.tokens as int - cost);
        ok := true;
      }
      rates[at] := b;
      assert rates[..] == t[at := b];
    }

    method FindSlot(id: int) returns (at: nat)
      requires rates.Length == SLOTS
      ensures at < SLOTS && at == Slot(rates[..], id)
    {
      var oldest, ts: u32 := 0, 0xFFFF_FFFF;
      for i := 0 to SLOTS
        invariant oldest < SLOTS
        invariant Search(rates[..], id, 0, 0, 0xFFFF_FFFF) == Search(rates[..], id, i, oldest, ts)
      {
        if rates[i].used && rates[i].id == id {
          return i;
        }
        if !rates[i].used {
          return i;
        }
        if rates[i].lastMs < ts {
          ts := rates[i].lastMs;
          oldest := i;
        }
      }
      return oldest;
    }
  }

  function Empty(): seq<Bucket> {
    seq(SLOTS, i => Bucket(0, false, 0, 0))
  }

  // ---- the table ------------------------------------------------------------------------------

  ghost predicate Tidy(t: seq<Bucket>) {
    && |t| > 0
    && (forall i, j :: 0 <= i < j < |t| && t[j].used ==> t[i].used)
    && (forall i, j :: 0 <= i < j < |t| && t[i].used && t[j].used ==> t[i].id != t[j].id)
  }

  ghost predicate Has(t: seq<Bucket>, id: int, i: nat) {
    i < |t| && t[i].used && t[i].id == id
  }

  lemma {:induction false} SearchFinds(t: seq<Bucket>, id: int, i: nat, oldest: nat, ts: u32)
    requires i <= |t| && Tidy(t) && oldest < |t| && (oldest < i || oldest == 0)
    requires forall k :: 0 <= k < i ==> t[k].used && !Has(t, id, k)
    ensures var (found, at) := Search(t, id, i, oldest, ts);
            && (found.Some? ==> Has(t, id, found.value))
            && (found.None? ==> (forall k :: 0 <= k < |t| ==> !Has(t, id, k)) && (forall k :: 0 <= k < at ==> t[k].used))
    decreases |t| - i
  {
    if i < |t| && t[i].used && t[i].id != id {
      SearchFinds(t, id, i + 1, if t[i].lastMs < ts then i else oldest, if t[i].lastMs < ts then t[i].lastMs else ts);
    }
  }

  /** The slot used is the sender's own if it has one; else all before it are taken. */
  lemma SlotFinds(t: seq<Bucket>, id: int)
    requires Tidy(t)
    ensures var at := Slot(t, id);
            && (forall k :: 0 <= k < |t| && Has(t, id, k) ==> k == at)
            && (forall k :: 0 <= k < at ==> t[k].used)
  {
    SearchFinds(t, id, 0, 0, 0xFFFF_FFFF);
    var at := Slot(t, id);
    forall k | 0 <= k < |t| && Has(t, id, k)
      ensures k == at
    {
      assert Has(t, id, at);
    }
    forall k | 0 <= k < at
      ensures t[k].used
    {
      assert Has(t, id, at) ==> t[at].used;
    }
  }

  /** Used slots stay a prefix with distinct senders, and the caller has one now. */
  lemma AllowTidy(t: seq<Bucket>, now: u32, id: int, rate: Small, burst: Small, cost: Small)
    requires Tidy(t)
    ensures var t2 := Allow(t, now, id, rate, burst, cost).0;
            Tidy(t2) && |t2| == |t| && Has(t2, id, Slot(t, id))
  {
    SlotFinds(t, id);
    var at, t2 := Slot(t, id), Allow(t, now, id, rate, burst, cost).0;
    assert t2[at].used && t2[at].id == id;
    forall i, j | 0 <= i < j < |t2| && t2[i].used && t2[j].used
      ensures t2[i].id != t2[j].id
    {
      assert i != at ==> !Has(t, id, i);
      assert j != at ==> !Has(t, id, j);
    }
  }

  // ---- the bound -------------------------------------------------------------------------------

  /** A call at a true time in milliseconds, of which the code sees the low 32 bits. */
  datatype Call = Call(time: nat, id: int, rate: Small, burst: Small, cost: Small)

  function Clock(time: nat): u32 { time % WRAP32 }

  function Do(t: seq<Bucket>, c: Call): (seq<Bucket>, bool)
    requires |t| > 0
  {
    Allow(t, Clock(c.time), c.id, c.rate, c.burst, c.cost)
  }

  function After(t: seq<Bucket>, calls: seq<Call>): (r: seq<Bucket>)
    requires |t| > 0
    ensures |r| == |t|
    decreases |calls|
  {
    if calls == [] then t else Do(After(t, calls[..|calls| - 1]), calls[|calls| - 1]).0
  }

  /** The cost allowed to one sender. */
  function Granted(t: seq<Bucket>, calls: seq<Call>, id: int): nat
    requires |t| > 0
    decreases |calls|
  {
    if calls == [] then 0
    else
      var n := |calls| - 1;
      var last := calls[n];
      Granted(t, calls[..n], id) + if last.id == id && Do(After(t, calls[..n]), last).1 then last.cost as int else 0
  }

  /** The time of the sender's latest call. */
  function Latest(calls: seq<Call>, id: int): nat
    decreases |calls|
  {
    if calls == [] then 0
    else if calls[|calls| - 1].id == id then calls[|calls| - 1].time
    else Latest(calls[..|calls| - 1], id)
  }

  /** How often the sender's clock reading was earlier than at its previous call. */
  function Backs(calls: seq<Call>, id: int): nat
    decreases |calls|
  {
    if |calls| <= 1 then 0
    else
      var n := |calls| - 1;
      Backs(calls[..n], id) + if calls[n].id == id && calls[n].time < Latest(calls[..n], id) then 1 else 0
  }

  /** The time that went forward from one call of the sender to its next. */
  function Forward(calls: seq<Call>, id: int): nat
    decreases |calls|
  {
    if |calls| <= 1 then 0
    else
      var n := |calls| - 1;
      var since := Latest(calls[..n], id);
      Forward(calls[..n], id) + if calls[n].id == id && since <= calls[n].time then calls[n].time - since else 0
  }

  ghost predicate Ordered(calls: seq<Call>) {
    forall i, j :: 0 <= i < j < |calls| ==> calls[i].time <= calls[j].time
  }

  /** The calls of the sender, which may come from different places, ask for no more. */
  ghost predicate Capped(calls: seq<Call>, id: int, rate: Small, burst: Small) {
    forall i :: 0 <= i < |calls| && calls[i].id == id ==> calls[i].rate <= rate && calls[i].burst <= burst
  }

  /** From its first call on, the sender's bucket is never given to another. */
  ghost predicate Kept(t: seq<Bucket>, calls: seq<Call>, id: int)
    requires |t| > 0
  {
    forall n :: 1 <= n <= |calls| ==> Present(After(t, calls[..n]), id)
  }

  ghost predicate Present(t: seq<Bucket>, id: int) {
    exists i: nat :: Has(t, id, i)
  }

  lemma {:induction false} AfterTidy(t: seq<Bucket>, calls: seq<Call>)
    requires Tidy(t)
    ensures Tidy(After(t, calls))
    decreases |calls|
  {
    if calls != [] {
      var n := |calls| - 1;
      AfterTidy(t, calls[..n]);
      var c := calls[n];
      AllowTidy(After(t, calls[..n]), Clock(c.time), c.id, c.rate, c.burst, c.cost);
    }
  }

  /** The sender's bucket, tokens within the burst. */
  ghost predicate Within(t: seq<Bucket>, id: int, burst: Small) {
    forall i :: 0 <= i < |t| && Has(t, id, i) ==> t[i].tokens <= burst
  }

  lemma {:induction false} AlwaysWithin(t: seq<Bucket>, calls: seq<Call>, id: int, rate: Small, burst: Small)
    requires Tidy(t) && Within(t, id, burst) && Capped(calls, id, rate, burst)
    ensures Within(After(t, calls), id, burst)
    decreases |calls|
  {
    if calls != [] {
      var n := |calls| - 1;
      AlwaysWithin(t, calls[..n], id, rate, burst);
      AfterTidy(t, calls[..n]);
      WithinStep(After(t, calls[..n]), calls[n], id, burst);
    }
  }

  lemma WithinStep(t: seq<Bucket>, c: Call, id: int, burst: Small)
    requires Tidy(t) && Within(t, id, burst) && (c.id == id ==> c.burst <= burst)
    ensures Within(Do(t, c).0, id, burst)
  {
    SlotFinds(t, c.id);
    var t2, at := Do(t, c).0, Slot(t, c.id);
    forall i | 0 <= i < |t2| && Has(t2, id, i)
      ensures t2[i].tokens <= burst
    {
      if i == at {
        assert Mine(t, Clock(c.time), c.id, c.burst).tokens <= burst by {
          assert t[at].used && t[at].id == id ==> Has(t, id, at);
        }
      } else {
        assert Has(t, id, i);
      }
    }
  }

  lemma Thousandths(rate: int, elapsed: int, span: int)
    requires rate >= 0 && 0 <= elapsed <= span
    ensures 0 <= 1000 * (rate * elapsed / 1000) <= rate * span
  {
    assert 0 <= rate * elapsed <= rate * span;
  }

  lemma ElapsedAtMost(since: nat, now: nat)
    requires since <= now
    ensures 0 <= (now % WRAP32 - since % WRAP32) % WRAP32 <= now - since
  {
  }

  /** One call against a bucket last touched at since: a clock that goes forward earns the
      rate for the time between, one that goes back at most a full bucket. */
  lemma BucketStep(b: Bucket, since: nat, time: nat, rate: Small, burst: Small, cost: Small)
    requires b.lastMs == Clock(since)
    ensures var (b2, ok) := Spend(Refill(b, Clock(time), rate, burst), cost);
            && b2.lastMs == Clock(time)
            && (since <= time ==>
                  1000 * (b2.tokens as int + (if ok then cost else 0)) <= 1000 * b.tokens as int + rate as int * (time - since))
  {
    if since <= time {
      ElapsedAtMost(since, time);
      Thousandths(rate, Elapsed(b, Clock(time)), time - since);
      var sum := Earned(b, Clock(time), rate);
      assert sum % WRAP32 <= sum;
    }
  }

  /** Whatever the clock did, a call leaves and grants at most a full bucket together. */
  lemma FullAtMost(b: Bucket, time: nat, rate: Small, burst: Small, cost: Small, full: Small)
    requires b.tokens <= full && burst <= full
    ensures var (b2, ok) := Spend(Refill(b, Clock(time), rate, burst), cost);
            b2.tokens as int + (if ok then cost else 0) <= full
  {
  }

  /** Cost granted so far and tokens left are together at most a bound, in thousandths. */
  ghost predicate Budget(t: seq<Bucket>, id: int, granted: nat, since: nat, bound: int) {
    exists i: nat :: Has(t, id, i) && t[i].lastMs == Clock(since) && 1000 * (granted + t[i].tokens) <= bound
  }

  /** What one more call can add to the bound. */
  function Gain(since: nat, time: nat, rate: Small, burst: Small): int {
    if since <= time then rate as int * (time - since) else 1000 * burst as int
  }

  lemma FirstBudget(t: seq<Bucket>, c: Call, burst: Small)
    requires Tidy(t) && Within(t, c.id, burst) && c.burst <= burst
    ensures var (t2, ok) := Do(t, c);
            Budget(t2, c.id, if ok then c.cost else 0, c.time, 1000 * burst as int)
  {
    AllowTidy(t, Clock(c.time), c.id, c.rate, c.burst, c.cost);
    var at := Slot(t, c.id);
    assert t[at].used && t[at].id == c.id ==> Has(t, c.id, at);
    var b := Mine(t, Clock(c.time), c.id, c.burst);
    FullAtMost(b, c.time, c.rate, c.burst, c.cost, burst);
    assert Refill(b, Clock(c.time), c.rate, c.burst).lastMs == Clock(c.time);
    assert Has(Do(t, c).0, c.id, at);
  }

  /** What one call adds, with the sender's highest rate and burst. */
  lemma GainAtMost(b: Bucket, since: nat, c: Call, rate: Small, burst: Small)
    requires b.lastMs == Clock(since) && b.tokens <= burst && c.rate <= rate && c.burst <= burst
    ensures var (b2, ok) := Spend(Refill(b, Clock(c.time), c.rate, c.burst), c.cost);
            && b2.lastMs == Clock(c.time)
            && 1000 * (b2.tokens as int + (if ok then c.cost else 0)) <= 1000 * b.tokens as int + Gain(since, c.time, rate, burst)
  {
    BucketStep(b, since, c.time, c.rate, c.burst, c.cost);
    FullAtMost(b, c.time, c.rate, c.burst, c.cost, burst);
    if since <= c.time {
      RateMono(c.rate, rate, c.time - since);
    }
  }

  lemma RateMono(r: int, rate: int, d: int)
    requires r <= rate && d >= 0
    ensures r * d <= rate * d
  {
  }

  lemma OwnBudget(t: seq<Bucket>, c: Call, granted: nat, since: nat, bound: int, rate: Small, burst: Small)
    requires Tidy(t) && Within(t, c.id, burst) && Budget(t, c.id, granted, since, bound) && c.rate <= rate && c.burst <= burst
    ensures var (t2, ok) := Do(t, c);
            Budget(t2, c.id, granted + (if ok then c.cost else 0), c.time, bound + Gain(since, c.time, rate, burst))
  {
    SlotFinds(t, c.id);
    var at := Slot(t, c.id);
    var i: nat :| Has(t, c.id, i) && t[i].lastMs == Clock(since) && 1000 * (granted + t[i].tokens) <= bound;
    assert i == at;
    var (b2, ok) := Spend(Refill(t[at], Clock(c.time), c.rate, c.burst), c.cost);
    GainAtMost(t[at], since, c, rate, burst);
    assert Do(t, c) == (t[at := b2], ok);
    assert Has(t[at := b2], c.id, at);
  }

  lemma OtherBudget(t: seq<Bucket>, c: Call, id: int, granted: nat, since: nat, bound: int)
    requires Tidy(t) && Budget(t, id, granted, since, bound) && c.id != id
    requires Present(Do(t, c).0, id)
    ensures Budget(Do(t, c).0, id, granted, since, bound)
  {
    var t2 := Do(t, c).0;
    AllowTidy(t, Clock(c.time), c.id, c.rate, c.burst, c.cost);
    var k: nat :| Has(t2, id, k);
    assert k != Slot(t, c.id) && Has(t, id, k);
    var i: nat :| Has(t, id, i) && t[i].lastMs == Clock(since) && 1000 * (granted + t[i].tokens) <= bound;
    assert i == k;
  }

  /** The bound over a run of calls, in thousandths of a token. */
  function Bound(calls: seq<Call>, id: int, rate: Small, burst: Small): int {
    1000 * burst as int * (1 + Backs(calls, id)) + rate as int * Forward(calls, id)
  }

  lemma BoundOfOne(calls: seq<Call>, id: int, rate: Small, burst: Small)
    requires |calls| == 1
    ensures Bound(calls, id, rate, burst) == 1000 * burst as int
  {
  }

  lemma Spread(burst: int, backs: int, rate: int, forward: int, gap: int)
    ensures 1000 * burst * (1 + (backs + 1)) + rate * forward == 1000 * burst * (1 + backs) + rate * forward + 1000 * burst
    ensures 1000 * burst * (1 + backs) + rate * (forward + gap) == 1000 * burst * (1 + backs) + rate * forward + rate * gap
  {
    assert rate * (forward + gap) == rate * forward + rate * gap;
    assert 1000 * burst * (1 + (backs + 1)) == 1000 * burst * (1 + backs) + 1000 * burst;
  }

  lemma BoundGrows(calls: seq<Call>, id: int, rate: Small, burst: Small)
    requires |calls| > 1
    ensures var n := |calls| - 1;
            Bound(calls, id, rate, burst) == Bound(calls[..n], id, rate, burst)
              + (if calls[n].id == id then Gain(Latest(calls[..n], id), calls[n].time, rate, burst) else 0)
  {
    var n := |calls| - 1;
    var since, c := Latest(calls[..n], id), calls[n];
    Spread(burst, Backs(calls[..n], id), rate, Forward(calls[..n], id), c.time - since);
  }

  lemma OpeningBudget(t: seq<Bucket>, calls: seq<Call>, burst: Small)
    requires |calls| == 1 && Tidy(t) && Within(t, calls[0].id, burst) && calls[0].burst <= burst
    ensures Budget(After(t, calls), calls[0].id, Granted(t, calls, calls[0].id), calls[0].time, 1000 * burst as int)
  {
    var c := calls[0];
    assert calls[..|calls| - 1] == [] && calls[|calls| - 1] == c;
    assert After(t, calls) == Do(t, c).0;
    assert Granted(t, [], c.id) == 0;
    assert Granted(t, calls, c.id) == if Do(t, c).1 then c.cost else 0;
    FirstBudget(t, c, burst);
  }

  /** One more call, by the sender or by another. */
  lemma NextBudget(t: seq<Bucket>, c: Call, id: int, granted: nat, since: nat, bound: int, rate: Small, burst: Small)
    requires Tidy(t) && Within(t, id, burst) && Budget(t, id, granted, since, bound)
    requires (c.id == id ==> c.rate <= rate && c.burst <= burst) && Present(Do(t, c).0, id)
    ensures var (t2, ok) := Do(t, c);
            Budget(t2, id, granted + (if c.id == id && ok then c.cost else 0), if c.id == id then c.time else since,
                   bound + if c.id == id then Gain(since, c.time, rate, burst) else 0)
  {
    if c.id == id {
      OwnBudget(t, c, granted, since, bound, rate, burst);
    } else {
      OtherBudget(t, c, id, granted, since, bound);
    }
  }

  lemma {:induction false} KeepsBudget(t: seq<Bucket>, calls: seq<Call>, id: int, rate: Small, burst: Small)
    requires Tidy(t) && Within(t, id, burst) && calls != [] && calls[0].id == id
    requires Capped(calls, id, rate, burst) && Kept(t, calls, id)
    ensures Budget(After(t, calls), id, Granted(t, calls, id), Latest(calls, id), Bound(calls, id, rate, burst))
    decreases |calls|
  {
    var n := |calls| - 1;
    if n == 0 {
      OpeningBudget(t, calls, burst);
      BoundOfOne(calls, id, rate, burst);
    } else {
      KeptBefore(t, calls, id);
      KeepsBudget(t, calls[..n], id, rate, burst);
      AfterTidy(t, calls[..n]);
      AlwaysWithin(t, calls[..n], id, rate, burst);
      assert calls[..n + 1] == calls;
      NextBudget(After(t, calls[..n]), calls[n], id, Granted(t, calls[..n], id), Latest(calls[..n], id),
                 Bound(calls[..n], id, rate, burst), rate, burst);
      BoundGrows(calls, id, rate, burst);
    }
  }

  lemma {:induction false} KeptBefore(t: seq<Bucket>, calls: seq<Call>, id: int)
    requires |t| > 0 && calls != [] && Kept(t, calls, id)
    ensures Kept(t, calls[..|calls| - 1], id)
  {
    var shorter := calls[..|calls| - 1];
    forall n | 1 <= n <= |shorter|
      ensures Present(After(t, shorter[..n]), id)
    {
      assert shorter[..n] == calls[..n];
    }
  }

  /** From the empty table, after any earlier calls: over any run that opens with a call of
      the sender and in which its bucket is not evicted, the cost granted to it, from wherever
      it was asked for, is at most the highest burst, one more for every time its clock went
      back, and the highest rate times the time that went forward; clock wraps included. */
  lemma {:induction false} RateBound(earlier: seq<Call>, calls: seq<Call>, id: int, rate: Small, burst: Small)
    requires Capped(earlier, id, rate, burst) && Capped(calls, id, rate, burst)
    requires calls != [] && calls[0].id == id && Kept(After(Empty(), earlier), calls, id)
    ensures var t := After(Empty(), earlier);
            Tidy(t) && Tidy(After(t, calls)) &&
            1000 * Granted(t, calls, id) <= 1000 * burst as int * (1 + Backs(calls, id)) + rate as int * Forward(calls, id)
  {
    var t := After(Empty(), earlier);
    AfterTidy(Empty(), earlier);
    AfterTidy(t, calls);
    AlwaysWithin(Empty(), earlier, id, rate, burst);
    KeepsBudget(t, calls, id, rate, burst);
  }

  lemma {:induction false} OrderedRun(calls: seq<Call>, id: int)
    requires calls != [] && calls[0].id == id && Ordered(calls)
    ensures calls[0].time <= Latest(calls, id) <= calls[|calls| - 1].time
    ensures Backs(calls, id) == 0 && Forward(calls, id) == Latest(calls, id) - calls[0].time
    decreases |calls|
  {
    if |calls| > 1 {
      OrderedRun(calls[..|calls| - 1], id);
    } else {
      assert calls[|calls| - 1] == calls[0];
    }
  }

  /** While the clock never goes back: at most the burst and the rate times the interval. */
  lemma {:induction false} OrderedBound(earlier: seq<Call>, calls: seq<Call>, id: int, rate: Small, burst: Small)
    requires Capped(earlier, id, rate, burst) && Capped(calls, id, rate, burst)
    requires calls != [] && calls[0].id == id && Ordered(calls) && Kept(After(Empty(), earlier), calls, id)
    ensures 1000 * Granted(After(Empty(), earlier), calls, id)
              <= 1000 * burst as int + rate as int * (calls[|calls| - 1].time - calls[0].time)
  {
    var t := After(Empty(), earlier);
    RateBound(earlier, calls, id, rate, burst);
    OrderedRun(calls, id);
    NoBacks(Granted(t, calls, id), burst, Backs(calls, id), rate, Forward(calls, id),
            calls[|calls| - 1].time - calls[0].time);
  }

  lemma NoBacks(granted: int, burst: int, backs: int, r: int, forward: int, span: int)
    requires 1000 * granted <= 1000 * burst * (1 + backs) + r * forward
    requires backs == 0 && r >= 0 && forward <= span
    ensures 1000 * granted <= 1000 * burst + r * span
  {
    assert r * forward <= r * span;
  }

  // ---- one call, exactly ------------------------------------------------------------------------

  /** Bucket at is the least recently used one, the first of them if there are several. */
  ghost predicate Oldest(t: seq<Bucket>, n: nat, at: nat)
    requires at < n <= |t|
  {
    && (forall k :: 0 <= k < n ==> t[at].lastMs <= t[k].lastMs)
    && (forall k :: 0 <= k < at ==> t[at].lastMs < t[k].lastMs)
  }

  lemma {:induction false} SearchOldest(t: seq<Bucket>, id: int, i: nat, oldest: nat, ts: u32)
    requires i <= |t| && oldest < |t| && (i == 0 ==> oldest == 0 && ts == 0xFFFF_FFFF)
    requires i > 0 ==> oldest < i && Oldest(t, i, oldest) && ts == t[oldest].lastMs
    requires forall k :: 0 <= k < |t| ==> t[k].used && t[k].id != id
    ensures Search(t, id, i, oldest, ts).0.None? && Oldest(t, |t|, Search(t, id, i, oldest, ts).1)
    decreases |t| - i
  {
    if i < |t| {
      if t[i].lastMs < ts {
        SearchOldest(t, id, i + 1, i, t[i].lastMs);
      } else {
        SearchOldest(t, id, i + 1, oldest, ts);
      }
    }
  }

  lemma FirstFree(t: seq<Bucket>, id: int, free: nat)
    requires Tidy(t) && !Present(t, id) && free < |t| && !t[free].used
    ensures !t[Slot(t, id)].used && forall k :: 0 <= k < Slot(t, id) ==> t[k].used
  {
    SearchFree(t, id, 0, 0, 0xFFFF_FFFF, free);
    SlotFinds(t, id);
  }

  /** The slot a sender gets: its own; or else the first free one; or else, with all taken by
      others, the one least recently used. */
  lemma SlotExactly(t: seq<Bucket>, id: int)
    requires Tidy(t)
    ensures var at := Slot(t, id);
            && (Present(t, id) ==> Has(t, id, at))
            && (!Present(t, id) && (exists k :: 0 <= k < |t| && !t[k].used)
                ==> !t[at].used && forall k :: 0 <= k < at ==> t[k].used)
            && (!Present(t, id) && (forall k :: 0 <= k < |t| ==> t[k].used) ==> Oldest(t, |t|, at))
  {
    SlotFinds(t, id);
    if !Present(t, id) {
      if free: nat :| free < |t| && !t[free].used {
        FirstFree(t, id, free);
      } else {
        forall k | 0 <= k < |t|
          ensures t[k].used && t[k].id != id
        {
          assert !Has(t, id, k);
        }
        SearchOldest(t, id, 0, 0, 0xFFFF_FFFF);
      }
    }
  }

  /** A call writes the sender's slot and no other, and stamps it. The cost is granted exactly
      when the bucket holds it; what is left is the difference, and after a refusal nothing. */
  lemma AllowExactly(t: seq<Bucket>, now: u32, id: int, rate: Small, burst: Small, cost: Small)
    requires |t| > 0
    ensures var (t2, ok) := Allow(t, now, id, rate, burst, cost);
            var at := Slot(t, id);
            var held := if Has(t, id, at) then Refill(t[at], now, rate, burst).tokens as int else burst as int;
            && |t2| == |t| && (forall k :: 0 <= k < |t| && k != at ==> t2[k] == t[k])
            && (ok <==> cost <= held)
            && t2[at] == Bucket(id, true, if ok then held - cost else 0, now)
  {
    var b := t[Slot(t, id)];
    if Elapsed(b, now) == 0 {
      NoTime(b.lastMs, now);
    }
  }

  lemma NoTime(since: int, now: int)
    requires 0 <= since < WRAP32 && 0 <= now < WRAP32 && (now - since) % WRAP32 == 0
    ensures now == since
  {
  }

  /** The time gone by is what takes the stamp to the clock reading, and each whole thousandth
      of rate times that time earns a token. */
  lemma EarnedExactly(b: Bucket, now: u32, rate: Small)
    ensures 0 <= Elapsed(b, now) < 0x1_0000_0000 && (b.lastMs as int + Elapsed(b, now)) % 0x1_0000_0000 == now
    ensures var gain := Earned(b, now, rate) - b.tokens;
            1000 * gain <= rate as int * Elapsed(b, now) < 1000 * gain + 1000
  {
    BackToNow(b.lastMs, now);
    Thousand(rate as int * Elapsed(b, now));
  }

  lemma BackToNow(since: int, now: int)
    requires 0 <= now < WRAP32
    ensures (since + (now - since) % WRAP32) % WRAP32 == now
  {
  }

  lemma Thousand(x: int)
    ensures 1000 * (x / 1000) <= x < 1000 * (x / 1000) + 1000
  {
  }

  // ---- no more senders than slots ---------------------------------------------------------------

  function Ids(calls: seq<Call>): set<int> {
    set c | c in calls :: c.id
  }

  /** The table holds exactly these senders. */
  ghost predicate Holds(t: seq<Bucket>, ids: set<int>) {
    && |t| == SLOTS && Tidy(t)
    && (forall i :: 0 <= i < |t| && t[i].used ==> t[i].id in ids)
    && (forall id :: id in ids ==> Present(t, id))
  }

  lemma {:induction false} SearchFree(t: seq<Bucket>, id: int, i: nat, oldest: nat, ts: u32, free: nat)
    requires i <= free < |t| && oldest < |t| && !t[free].used && !Present(t, id)
    ensures var (found, at) := Search(t, id, i, oldest, ts);
            found.None? && at <= free && !t[at].used
    decreases |t| - i
  {
    if t[i].used {
      assert t[i].id == id ==> Has(t, id, i);
      SearchFree(t, id, i + 1, if t[i].lastMs < ts then i else oldest, if t[i].lastMs < ts then t[i].lastMs else ts, free);
    }
  }

  lemma {:induction false} UsedIds(t: seq<Bucket>, n: nat, ids: set<int>)
    requires n <= |t| && Tidy(t)
    requires forall i :: 0 <= i < n ==> t[i].used && t[i].id in ids
    ensures n <= |ids|
    decreases n
  {
    if n > 0 {
      UsedIds(t, n - 1, ids - {t[n - 1].id});
    }
  }

  /** With a slot free for every sender, a new one takes a free slot. */
  lemma HoldsStep(t: seq<Bucket>, c: Call, ids: set<int>)
    requires Holds(t, ids) && |ids + {c.id}| <= SLOTS
    ensures Holds(Do(t, c).0, ids + {c.id})
  {
    AllowTidy(t, Clock(c.time), c.id, c.rate, c.burst, c.cost);
    SlotFinds(t, c.id);
    var at, t2 := Slot(t, c.id), Do(t, c).0;
    assert Has(t2, c.id, at);
    if !Present(t, c.id) {
      assert c.id !in ids;
      if forall i :: 0 <= i < |t| ==> t[i].used {
        UsedIds(t, SLOTS, ids);
        assert false;
      }
      var free: nat :| free < |t| && !t[free].used;
      SearchFree(t, c.id, 0, 0, 0xFFFF_FFFF, free);
    }
    forall id | id in ids
      ensures Present(t2, id)
    {
      var i: nat :| Has(t, id, i);
      assert Has(t2, id, i);
    }
  }

  lemma {:induction false} HoldsAfter(t: seq<Bucket>, calls: seq<Call>, ids: set<int>)
    requires Holds(t, ids) && |ids + Ids(calls)| <= SLOTS
    ensures Holds(After(t, calls), ids + Ids(calls))
    decreases |calls|
  {
    if calls == [] {
      assert ids + Ids(calls) == ids;
    } else {
      var n := |calls| - 1;
      var c := calls[n];
      assert calls == calls[..n] + [c];
      assert ids + Ids(calls) == (ids + Ids(calls[..n])) + {c.id};
      Smaller(ids + Ids(calls[..n]), ids + Ids(calls));
      HoldsAfter(t, calls[..n], ids);
      HoldsStep(After(t, calls[..n]), c, ids + Ids(calls[..n]));
    }
  }

  lemma Smaller(a: set<int>, b: set<int>)
    requires a <= b
    ensures |a| <= |b|
  {
    assert b == a + (b - a);
  }

  /** While at most as many senders call as there are slots, no bucket is ever evicted. */
  lemma {:induction false} FewSendersKept(earlier: seq<Call>, calls: seq<Call>, id: int)
    requires calls != [] && calls[0].id == id && |Ids(earlier) + Ids(calls)| <= 64
    ensures Kept(After(Empty(), earlier), calls, id)
  {
    var t := After(Empty(), earlier);
    Smaller({} + Ids(earlier), Ids(earlier) + Ids(calls));
    HoldsAfter(Empty(), earlier, {});
    assert {} + Ids(earlier) == Ids(earlier);
    forall n | 1 <= n <= |calls|
      ensures Present(After(t, calls[..n]), id)
    {
      Smaller(Ids(earlier) + Ids(calls[..n]), Ids(earlier) + Ids(calls));
      HoldsAfter(t, calls[..n], Ids(earlier));
      assert calls[0] in calls[..n];
    }
  }

  // ---- what a refill earns ----------------------------------------------------------------------

  /** A refill leaves what was earned, up to the burst, exactly when the sum fits 32 bits or
      what the cut leaves of it still fills the bucket; and no refill happens while the
      clock stands still, even if the bucket holds more than this burst. */
  lemma RefillExactly(b: Bucket, now: u32, rate: Small, burst: Small)
    ensures var earned := Earned(b, now, rate);
            Refill(b, now, rate, burst).tokens == (if earned < burst then earned else burst)
            <==> (earned < WRAP32 || earned % WRAP32 >= burst) && (Elapsed(b, now) > 0 || b.tokens <= burst)
  {
    CutExactly(Earned(b, now, rate), burst);
    if Elapsed(b, now) == 0 {
      assert Earned(b, now, rate) == b.tokens;
    }
  }

  lemma CutExactly(earned: int, burst: int)
    requires 0 <= earned && 0 <= burst < WRAP32
    ensures var cut := earned % WRAP32;
            (if cut > burst then burst else cut) == (if earned < burst then earned else burst)
            <==> earned < WRAP32 || cut >= burst
  {
  }

  lemma Halves(rate: int, elapsed: int)
    requires 0 <= rate <= 500 && 0 <= elapsed < WRAP32
    ensures 0 <= rate * elapsed / 1000 < WRAP32 / 2
  {
    assert 0 <= rate * elapsed <= 500 * elapsed;
  }

  /** Up to 500 tokens a second, many times what any caller asks for, the sum always fits:
      a cost is granted exactly when the burst and the earned tokens cover it. */
  lemma NeverCut(b: Bucket, now: u32, rate: Small, burst: Small, cost: Small)
    requires b.tokens < 0x8000_0000 && rate <= 500
    ensures Earned(b, now, rate) < WRAP32
    ensures Spend(Refill(b, now, rate, burst), cost).1
            <==> cost <= Earned(b, now, rate) && (cost <= burst || Elapsed(b, now) == 0)
  {
    Halves(rate, Elapsed(b, now));
  }

  /** The failing side: a wait that earned 2^32 + 4 tokens leaves 4 of a burst of 100. */
  lemma RefillCut()
    ensures Earned(Bucket(7, true, 0, 0), 429_496_730, 10_000) == WRAP32 + 4
    ensures Refill(Bucket(7, true, 0, 0), 429_496_730, 10_000, 100).tokens == 4
  {
    assert 10_000 * 429_496_730 / 1000 == WRAP32 + 4;
  }

  /** A clock set back by d milliseconds reads as almost 50 days gone by: the bucket is full
      again exactly when what that would earn fills it. */
  lemma StepBack(b: Bucket, since: nat, d: nat, rate: Small, burst: Small)
    requires b.lastMs == Clock(since) && 0 < d <= since && d < WRAP32 && rate <= 500 && b.tokens < 0x8000_0000
    ensures Elapsed(b, Clock(since - d)) == WRAP32 - d
    ensures Refill(b, Clock(since - d), rate, burst).tokens == burst
            <==> b.tokens as int + rate as int * (WRAP32 - d) / 1000 >= burst as int
  {
    BackwardsElapsed(since, d);
    Halves(rate, WRAP32 - d);
  }

  lemma BackwardsElapsed(since: nat, d: nat)
    requires 0 < d <= since && d < WRAP32
    ensures ((since - d) % WRAP32 - since % WRAP32) % WRAP32 == WRAP32 - d
  {
    var q, r := since / WRAP32, since % WRAP32;
    if r >= d {
      Remainder(since - d, q, r - d);
      Remainder(-(d as int), -1, WRAP32 - d);
    } else {
      Remainder(since - d, q - 1, r - d + WRAP32);
      Remainder(WRAP32 - d, 0, WRAP32 - d);
    }
  }

  lemma Remainder(x: int, q: int, r: int)
    requires x == q * WRAP32 + r && 0 <= r < WRAP32
    ensures x % WRAP32 == r
  {
  }

  /** A sender that spends a full burst at every call, its clock a millisecond earlier each time. */
  function Stutter(top: nat, m: nat, id: int, rate: Small, burst: Small): seq<Call>
    requires m <= top + 1
  {
    seq(m, k requires 0 <= k < m => Call(top - k, id, rate, burst, burst))
  }

  /** The bound for a clock that goes back is reached: every such call is granted. */
  lemma {:induction false} BoundReached(top: nat, m: nat, id: int, rate: Small, burst: Small)
    requires 1 <= m <= top + 1 && rate <= 500 && rate as int * (WRAP32 - 1) / 1000 >= burst as int
    ensures var calls := Stutter(top, m, id, rate, burst);
            && After(Empty(), calls)[0] == Bucket(id, true, 0, Clock(top - m + 1))
            && Latest(calls, id) == top - m + 1
            && Backs(calls, id) == m - 1 && Forward(calls, id) == 0
            && Granted(Empty(), calls, id) == burst as int * (1 + Backs(calls, id))
    decreases m
  {
    var calls := Stutter(top, m, id, rate, burst);
    var n := m - 1;
    assert calls[..n] == Stutter(top, n, id, rate, burst);
    assert After(Empty(), calls) == Do(After(Empty(), calls[..n]), calls[n]).0;
    if n == 0 {
      assert calls[..n] == [];
      assert Slot(Empty(), id) == 0;
    } else {
      BoundReached(top, n, id, rate, burst);
      StutterStep(After(Empty(), calls[..n]), top - n + 1, id, rate, burst);
      Distribute(burst, n);
    }
  }

  lemma StutterStep(t: seq<Bucket>, since: nat, id: int, rate: Small, burst: Small)
    requires |t| > 0 && since > 0 && t[0] == Bucket(id, true, 0, Clock(since))
    requires rate <= 500 && rate as int * (WRAP32 - 1) / 1000 >= burst as int
    ensures var (t2, ok) := Do(t, Call(since - 1, id, rate, burst, burst));
            |t2| > 0 && t2[0] == Bucket(id, true, 0, Clock(since - 1)) && ok
  {
    assert Slot(t, id) == 0;
    StepBack(t[0], since, 1, rate, burst);
  }

  lemma Distribute(x: int, n: int)
    ensures x * (1 + (n - 1)) + x == x * (1 + n)
  {
  }
}
