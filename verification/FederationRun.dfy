/** One frame in a federation whose links form an acyclic graph: split horizon
    alone makes every gateway hear it at most once. */
module FederationRun {
  import opened Federation

  type Path = seq<nat>

  /** Gateways and links; a link joins two gateways, in both directions. */
  datatype Graph = Graph(gateways: set<nat>, adj: set<(nat, nat)>)

  ghost predicate Proper(g: Graph) {
    forall u, v :: (u, v) in g.adj ==> u != v && u in g.gateways && v in g.gateways && (v, u) in g.adj
  }

  ghost predicate Walk(g: Graph, w: Path) {
    w != [] && forall i, j :: 0 <= i && j == i + 1 && j < |w| ==> (w[i], w[j]) in g.adj
  }

  ghost predicate Cycle(g: Graph, c: Path) {
    |c| >= 3 && Walk(g, c) && Distinct(c) && (c[|c| - 1], c[0]) in g.adj
  }

  ghost predicate Acyclic(g: Graph) {
    Proper(g) && forall c :: !Cycle(g, c)
  }

  /** A walk that never turns straight back. */
  ghost predicate Forward(g: Graph, w: Path) {
    Walk(g, w) && forall i, j :: 0 <= i && j == i + 2 && j < |w| ==> w[i] != w[j]
  }

  // ---- walks in an acyclic graph -----------------------------------------------------------

  lemma ForwardParts(g: Graph, w: Path)
    requires Forward(g, w) && |w| >= 2
    ensures Forward(g, w[1..]) && Forward(g, w[..|w| - 1])
  {
    var t, h := w[1..], w[..|w| - 1];
    forall i, j | 0 <= i && j == i + 1 && j < |t|
      ensures (t[i], t[j]) in g.adj
    {
      assert (w[i + 1], w[j + 1]) in g.adj;
    }
    forall i, j | 0 <= i && j == i + 2 && j < |t|
      ensures t[i] != t[j]
    {
      assert w[i + 1] != w[j + 1];
    }
  }

  /** Going forward in an acyclic graph never meets a gateway again. */
  lemma {:induction false} ForwardIsDistinct(g: Graph, w: Path)
    requires Acyclic(g) && Forward(g, w)
    ensures Distinct(w)
    decreases |w|
  {
    var n := |w| - 1;
    if n > 0 {
      ForwardParts(g, w);
      ForwardIsDistinct(g, w[1..]);
      ForwardIsDistinct(g, w[..n]);
      assert (w[n - 1], w[n]) in g.adj;
      if n == 2 {
        assert w[0] != w[2];
      } else if n > 2 && w[0] == w[n] {
        assert Cycle(g, w[..n]);
        assert false;
      }
      forall i, j | 0 <= i < j < |w|
        ensures w[i] != w[j]
      {
        if i > 0 {
          assert w[1..][i - 1] != w[1..][j - 1];
        } else if j < n {
          assert w[..n][i] != w[..n][j];
        }
      }
    }
  }

  lemma NeverCloses(g: Graph, w: Path)
    requires Acyclic(g) && Forward(g, w) && |w| >= 2
    ensures w[0] != w[|w| - 1]
  {
    ForwardIsDistinct(g, w);
  }

  function Reverse(w: Path): (r: Path)
    ensures |r| == |w| && forall i :: 0 <= i < |w| ==> r[i] == w[|w| - 1 - i]
  {
    if w == [] then [] else Reverse(w[1..]) + [w[0]]
  }

  /** Out along p and home along q, when they arrive from different neighbours. */
  lemma RoundTrip(g: Graph, p: Path, q: Path)
    requires Proper(g) && Forward(g, p) && Forward(g, q) && |p| >= 2 && |q| >= 2
    requires p[|p| - 1] == q[|q| - 1] && p[|p| - 2] != q[|q| - 2]
    ensures var home := Reverse(q[..|q| - 1]);
            Forward(g, p + home) && (p + home)[|p + home| - 1] == q[0]
  {
    var home := Reverse(q[..|q| - 1]);
    var r, n, m := p + home, |p|, |q|;
    assert forall k :: n <= k < |r| ==> r[k] == q[m - 2 - (k - n)];
    forall i, j | 0 <= i && j == i + 1 && j < |r|
      ensures (r[i], r[j]) in g.adj
    {
      if j < n {
        assert (p[i], p[j]) in g.adj;
      } else {
        var a := m - 2 - (j - n);
        assert (q[a], q[a + 1]) in g.adj;
      }
    }
    forall i, j | 0 <= i && j == i + 2 && j < |r|
      ensures r[i] != r[j]
    {
      if j < n {
        assert p[i] != p[j];
      } else if i >= n - 1 {
        var a := m - 2 - (j - n);
        assert q[a] != q[a + 2];
      }
    }
  }

  /** There is one forward walk between two gateways. */
  lemma {:induction false} ForwardIsUnique(g: Graph, p: Path, q: Path)
    requires Acyclic(g) && Forward(g, p) && Forward(g, q)
    requires p[0] == q[0] && p[|p| - 1] == q[|q| - 1]
    ensures p == q
    decreases |p|
  {
    var n, m := |p|, |q|;
    ForwardIsDistinct(g, p);
    ForwardIsDistinct(g, q);
    if n >= 2 && m >= 2 {
      if p[n - 2] == q[m - 2] {
        ForwardParts(g, p);
        ForwardParts(g, q);
        ForwardIsUnique(g, p[..n - 1], q[..m - 1]);
        assert p == p[..n - 1] + [p[n - 1]] && q == q[..m - 1] + [q[m - 1]];
      } else {
        RoundTrip(g, p, q);
        var r := p + Reverse(q[..m - 1]);
        NeverCloses(g, r);
        assert false;
      }
    } else if n >= 2 || m >= 2 {
      assert false;
    }
  }

  // ---- one frame -----------------------------------------------------------------------------

  /** sent: the path behind every copy put on a link; heard: which copies arrived. */
  datatype Net = Net(sent: seq<Path>, heard: set<nat>)

  function Copies(p: Path, to: seq<nat>): (s: seq<Path>)
    ensures |s| == |to|
  {
    seq(|to|, i requires 0 <= i < |to| => p + [to[i]])
  }

  /** Split horizon, whatever the tables say: distinct neighbours, not the last hop. */
  ghost predicate MayForward(g: Graph, p: Path, to: seq<nat>) {
    && |p| >= 1 && Distinct(to)
    && forall x :: x in to ==> (p[|p| - 1], x) in g.adj && (|p| >= 2 ==> x != p[|p| - 2])
  }

  /** Copy k arrives and its gateway forwards it. */
  datatype Step = Arrive(k: nat, to: seq<nat>)

  ghost predicate CanStep(g: Graph, n: Net, s: Step) {
    s.k < |n.sent| && s.k !in n.heard && MayForward(g, n.sent[s.k], s.to)
  }

  function Next(n: Net, s: Step): Net
    requires s.k < |n.sent|
  {
    Net(n.sent + Copies(n.sent[s.k], s.to), n.heard + {s.k})
  }

  ghost predicate Runs(g: Graph, n: Net, steps: seq<Step>)
    decreases |steps|, 0
  {
    steps == [] || (Runs(g, n, steps[..|steps| - 1]) && CanStep(g, After(g, n, steps[..|steps| - 1]), steps[|steps| - 1]))
  }

  ghost function After(g: Graph, n: Net, steps: seq<Step>): Net
    requires Runs(g, n, steps)
    decreases |steps|, 1
  {
    if steps == [] then n else Next(After(g, n, steps[..|steps| - 1]), steps[|steps| - 1])
  }

  /** Every copy has come forward from the origin, and its last hop was heard there. */
  ghost predicate Copied(g: Graph, origin: nat, n: Net, k: nat)
    requires k < |n.sent|
  {
    var p := n.sent[k];
    && |p| >= 2 && p[0] == origin && Forward(g, p)
    && (|p| > 2 ==> exists j :: j in n.heard && j < |n.sent| && n.sent[j] == p[..|p| - 1])
  }

  ghost predicate Inv(g: Graph, origin: nat, n: Net) {
    && (forall k :: 0 <= k < |n.sent| ==> Copied(g, origin, n, k))
    && (forall i, j :: 0 <= i < j < |n.sent| ==> n.sent[i] != n.sent[j])
  }

  lemma ForwardStep(g: Graph, p: Path, x: nat)
    requires Forward(g, p) && (p[|p| - 1], x) in g.adj && (|p| >= 2 ==> x != p[|p| - 2])
    ensures Forward(g, p + [x])
  {
  }

  lemma StartKeeps(g: Graph, origin: nat, to: seq<nat>)
    requires MayForward(g, [origin], to)
    ensures Inv(g, origin, Net(Copies([origin], to), {}))
  {
    var n := Net(Copies([origin], to), {});
    forall k | 0 <= k < |n.sent|
      ensures Copied(g, origin, n, k)
    {
      assert to[k] in to;
      ForwardStep(g, [origin], to[k]);
    }
    forall i, j | 0 <= i < j < |n.sent|
      ensures n.sent[i] != n.sent[j]
    {
      assert n.sent[i][1] == to[i] && n.sent[j][1] == to[j];
    }
  }

  lemma NewCopy(g: Graph, origin: nat, n: Net, s: Step, k: nat)
    requires Inv(g, origin, n) && CanStep(g, n, s) && |n.sent| <= k < |Next(n, s).sent|
    ensures Copied(g, origin, Next(n, s), k)
    ensures forall j :: 0 <= j < k ==> Next(n, s).sent[j] != Next(n, s).sent[k]
  {
    var m, p, x := Next(n, s), n.sent[s.k], s.to[k - |n.sent|];
    assert x in s.to && Copied(g, origin, n, s.k);
    var q := p + [x];
    assert m.sent[k] == q;
    ForwardStep(g, p, x);
    assert q[..|q| - 1] == p && m.sent[s.k] == p && s.k in m.heard;
    forall j | 0 <= j < k
      ensures m.sent[j] != q
    {
      if j < |n.sent| {
        assert m.sent[j] == n.sent[j] && Copied(g, origin, n, j);
        if n.sent[j] == q {
          assert false;
        }
      } else {
        assert m.sent[j] == p + [s.to[j - |n.sent|]];
        assert m.sent[j][|p|] == s.to[j - |n.sent|];
      }
    }
  }

  lemma StepKeeps(g: Graph, origin: nat, n: Net, s: Step)
    requires Inv(g, origin, n) && CanStep(g, n, s)
    ensures Inv(g, origin, Next(n, s))
  {
    var m := Next(n, s);
    forall k | 0 <= k < |m.sent|
      ensures Copied(g, origin, m, k)
    {
      if k < |n.sent| {
        assert Copied(g, origin, n, k) && m.sent[k] == n.sent[k];
        assert forall j :: 0 <= j < |n.sent| ==> m.sent[j] == n.sent[j];
      } else {
        NewCopy(g, origin, n, s, k);
      }
    }
    forall i, j | 0 <= i < j < |m.sent|
      ensures m.sent[i] != m.sent[j]
    {
      if j >= |n.sent| {
        NewCopy(g, origin, n, s, j);
      } else {
        assert m.sent[i] == n.sent[i] && m.sent[j] == n.sent[j];
      }
    }
  }

  lemma {:induction false} RunKeeps(g: Graph, origin: nat, to: seq<nat>, steps: seq<Step>)
    requires MayForward(g, [origin], to) && Runs(g, Net(Copies([origin], to), {}), steps)
    ensures Inv(g, origin, After(g, Net(Copies([origin], to), {}), steps))
  {
    StartKeeps(g, origin, to);
    if steps != [] {
      RunKeeps(g, origin, to, steps[..|steps| - 1]);
      StepKeeps(g, origin, After(g, Net(Copies([origin], to), {}), steps[..|steps| - 1]), steps[|steps| - 1]);
    }
  }

  /** The gateway a copy goes to, and the one it comes from. */
  function Target(p: Path): nat
    requires |p| >= 2
  {
    p[|p| - 1]
  }

  function Source(p: Path): nat
    requires |p| >= 2
  {
    p[|p| - 2]
  }

  ghost predicate OncePerGateway(g: Graph, origin: nat, n: Net) {
    && (forall i :: 0 <= i < |n.sent| ==> |n.sent[i]| >= 2 && Target(n.sent[i]) in g.gateways - {origin})
    && (forall i, j :: 0 <= i < j < |n.sent| ==> Target(n.sent[i]) != Target(n.sent[j]))
  }

  ghost predicate OncePerLink(n: Net) {
    forall i, j :: 0 <= i < j < |n.sent| ==>
      |n.sent[i]| >= 2 && |n.sent[j]| >= 2 && {Source(n.sent[i]), Target(n.sent[i])} != {Source(n.sent[j]), Target(n.sent[j])}
  }

  lemma InvOnce(g: Graph, origin: nat, n: Net)
    requires Acyclic(g) && Inv(g, origin, n)
    ensures OncePerGateway(g, origin, n) && OncePerLink(n)
  {
    forall i | 0 <= i < |n.sent|
      ensures |n.sent[i]| >= 2 && Target(n.sent[i]) in g.gateways - {origin}
    {
      var p := n.sent[i];
      assert Copied(g, origin, n, i);
      ForwardIsDistinct(g, p);
      assert (p[|p| - 2], p[|p| - 1]) in g.adj;
    }
    forall i, j | 0 <= i < j < |n.sent|
      ensures Target(n.sent[i]) != Target(n.sent[j])
      ensures {Source(n.sent[i]), Target(n.sent[i])} != {Source(n.sent[j]), Target(n.sent[j])}
    {
      Apart(g, origin, n, i, j);
    }
  }

  /** Two copies neither end at one gateway nor use one link in opposite directions. */
  lemma Apart(g: Graph, origin: nat, n: Net, i: nat, j: nat)
    requires Acyclic(g) && Inv(g, origin, n) && i < j < |n.sent|
    ensures |n.sent[i]| >= 2 && |n.sent[j]| >= 2
    ensures Target(n.sent[i]) != Target(n.sent[j])
    ensures {Source(n.sent[i]), Target(n.sent[i])} != {Source(n.sent[j]), Target(n.sent[j])}
  {
    var p, q := n.sent[i], n.sent[j];
    assert Copied(g, origin, n, i) && Copied(g, origin, n, j) && p != q;
    if Target(p) == Target(q) {
      ForwardIsUnique(g, p, q);
      assert false;
    }
    if {Source(p), Target(p)} == {Source(q), Target(q)} {
      assert Target(p) in {Source(q), Target(q)} && Target(q) in {Source(p), Target(p)};
      var back := q[..|q| - 1];
      ForwardParts(g, q);
      ForwardIsUnique(g, p, back);
      NoTurnBack(g, p, q);
      assert false;
    }
  }

  lemma NoTurnBack(g: Graph, p: Path, q: Path)
    requires Forward(g, q) && |p| >= 2 && |q| == |p| + 1 && q[..|q| - 1] == p
    ensures Target(q) != Source(p)
  {
    assert q[|p| - 2] == p[|p| - 2];
  }

  lemma {:induction false} Pigeonhole(s: seq<nat>, t: set<nat>)
    requires Distinct(s) && forall i :: 0 <= i < |s| ==> s[i] in t
    ensures |s| <= |t|
    decreases |s|
  {
    if s != [] {
      var n := |s| - 1;
      Pigeonhole(s[..n], t - {s[n]});
    }
  }

  /** On any acyclic federation, in every run, whatever the tables of the gateways: the
      frame is sent to each gateway at most once and never back to its origin, it
      crosses each link at most once, and fewer copies are made than there are gateways. */
  lemma FrameSpreadsOnce(g: Graph, origin: nat, to: seq<nat>, steps: seq<Step>)
    requires Acyclic(g) && origin in g.gateways
    requires MayForward(g, [origin], to) && Runs(g, Net(Copies([origin], to), {}), steps)
    ensures var e := After(g, Net(Copies([origin], to), {}), steps);
            OncePerGateway(g, origin, e) && OncePerLink(e) && |e.sent| < |g.gateways|
  {
    RunKeeps(g, origin, to, steps);
    var e := After(g, Net(Copies([origin], to), {}), steps);
    InvOnce(g, origin, e);
    var ends := seq(|e.sent|, i requires 0 <= i < |e.sent| && |e.sent[i]| >= 2 => Target(e.sent[i]));
    Pigeonhole(ends, g.gateways - {origin});
  }

  // ---- the gateway code is such a forwarder -----------------------------------------------------

  /** Link j of a gateway leads to neighbour[j]; no two lead to the same one. */
  function Hops(neighbour: seq<nat>, out: seq<nat>): (to: seq<nat>)
    requires forall i :: 0 <= i < |out| ==> out[i] < |neighbour|
    ensures |to| == |out| && forall i :: 0 <= i < |out| ==> to[i] == neighbour[out[i]]
  {
    if out == [] then [] else [neighbour[out[0]]] + Hops(neighbour, out[1..])
  }

  /** Links that are distinct and exclude the arrival link lead where a step may go. */
  lemma LinksMayForward(g: Graph, p: Path, neighbour: seq<nat>, li: nat, out: seq<nat>)
    requires |p| >= 2 && li < |neighbour| && Distinct(neighbour)
    requires neighbour[li] == p[|p| - 2] && forall j :: 0 <= j < |neighbour| ==> (p[|p| - 1], neighbour[j]) in g.adj
    requires Distinct(out) && li !in out && forall i :: 0 <= i < |out| ==> out[i] < |neighbour|
    ensures MayForward(g, p, Hops(neighbour, out))
  {
    var to := Hops(neighbour, out);
    forall i, j | 0 <= i < j < |to|
      ensures to[i] != to[j]
    {
      assert out[i] in out && out[j] in out && out[i] != out[j];
    }
    forall x | x in to
      ensures (p[|p| - 1], x) in g.adj && x != p[|p| - 2]
    {
      var i :| 0 <= i < |to| && to[i] == x;
      assert out[i] in out && out[i] != li;
    }
  }

  /** gw_fed_data's choice, whatever its tables hold, is a step of the model. */
  method ForwardData(gw: Gateway, li: nat, src: Addr, dst: Addr, mac: int, allowed: bool,
                     ghost g: Graph, ghost p: Path, neighbour: seq<nat>) returns (r: Delivery)
    requires gw.Valid() && li < gw.links == |neighbour| && Distinct(neighbour)
    requires |p| >= 2 && neighbour[li] == p[|p| - 2]
    requires forall j :: 0 <= j < |neighbour| ==> (p[|p| - 1], neighbour[j]) in g.adj
    ensures r.ToLinks? ==> (forall i :: 0 <= i < |r.out| ==> r.out[i] < |neighbour|) && MayForward(g, p, Hops(neighbour, r.out))
  {
    r := gw.FedData(li, src, dst, mac, allowed);
    if r.ToLinks? {
      assert forall i :: 0 <= i < |r.out| ==> r.out[i] in r.out;
      LinksMayForward(g, p, neighbour, li, r.out);
    }
  }

  /** gw_fed_handle's choice for a GW_Q is one too. */
  method ForwardQuery(gw: Gateway, li: nat, q: Addr, ghost g: Graph, ghost p: Path, neighbour: seq<nat>)
    returns (answer: bool, out: seq<nat>)
    requires gw.Valid() && li < gw.links == |neighbour| && Distinct(neighbour)
    requires |p| >= 2 && neighbour[li] == p[|p| - 2]
    requires forall j :: 0 <= j < |neighbour| ==> (p[|p| - 1], neighbour[j]) in g.adj
    modifies gw
    ensures gw.Valid() && (forall i :: 0 <= i < |out| ==> out[i] < |neighbour|) && MayForward(g, p, Hops(neighbour, out))
  {
    answer, out := gw.FedQuery(li, q);
    assert forall i :: 0 <= i < |out| ==> out[i] in out;
    LinksMayForward(g, p, neighbour, li, out);
  }
}
