/** `calls_path`: the shortest recorded CALLS path, read back out of the
    predecessor map the walk's visitor fills. */
module CallsPath {
  import opened Collections
  import opened Planes
  import opened Walks
  import opened Nearest

  /** Nodes one path search holds before giving up. */
  const MAX_VISITED: nat := 20_000

  const CALLS := "CALLS"

  /** What the visitor keeps: who first offered each unseen node, and whether the target was met. */
  datatype Search = Search(prev: map<NodeId, NodeId>, found: bool)

  function CallsBounds(): Bounds {
    Bounds([Out], Some(CALLS), USIZE_MAX, MAX_VISITED)
  }

  function CallsVisit(s: Search, h: Hop, to: NodeId): (Search, Step) {
    if !h.unseen then (s, Skip)
    else
      var prev := s.prev[h.lead.node := h.lead.from];
      if h.lead.node == to then (Search(prev, true), Stop) else (Search(prev, s.found), Take)
  }

  function CallsVisitor(to: NodeId): Visitor<Search> {
    (s, h) => CallsVisit(s, h, to)
  }

  function CallsNet(p: Plane, from: NodeId): Net {
    Net(p, from, CallsBounds(), _ => true)
  }

  /** A recorded call path, each hop one CALLS edge. */
  ghost predicate IsCallPath(p: Plane, path: seq<NodeId>, from: NodeId, to: NodeId) {
    && path != [] && path[0] == from && path[|path| - 1] == to
    && forall i :: 0 <= i < |path| - 1 ==> Calls(p, path[i], path[i + 1])
  }

  ghost predicate Calls(p: Plane, u: NodeId, v: NodeId) {
    exists e :: e in p.edges && p.edges[e] == Edge(u, v, CALLS)
  }

  /** Nodes some call path of at most `hops` hops ends at. */
  ghost function CallsWithin(p: Plane, from: NodeId, hops: int): set<NodeId> {
    set v | v in p.nodes && exists path :: IsCallPath(p, path, from, v) && |path| - 1 <= hops
  }

  lemma CallsAreLinks(p: Plane, from: NodeId, u: NodeId, v: NodeId)
    ensures CallsNet(p, from).Linked(u, v) <==> Calls(p, u, v)
  {
    var net := CallsNet(p, from);
    if Calls(p, u, v) {
      var e :| e in p.edges && p.edges[e] == Edge(u, v, CALLS);
      assert IsLead(p, Lead(u, Out, v, e), net.b.dirs, net.b.ty);
    }
  }

  lemma CallPathsArePaths(p: Plane, from: NodeId, path: seq<NodeId>)
    ensures path != [] && path[0] == from ==>
              (CallsNet(p, from).IsPath(path) <==> IsCallPath(p, path, from, path[|path| - 1]))
  {
    forall i | 0 <= i < |path| - 1
      ensures CallsNet(p, from).Linked(path[i], path[i + 1]) <==> Calls(p, path[i], path[i + 1])
    {
      CallsAreLinks(p, from, path[i], path[i + 1]);
    }
  }

  // ---- what the predecessor map holds --------------------------------------

  /** Every held node but the seed has a predecessor one hop nearer, and the seed has none. */
  ghost predicate PrevOf(ball: Balls, link: Links, seen: set<NodeId>, prev: map<NodeId, NodeId>) {
    && prev.Keys !! ball(0)
    && forall n :: n in seen && n !in ball(0) ==> Precedes(ball, link, seen, prev, n)
  }

  ghost predicate Precedes(ball: Balls, link: Links, seen: set<NodeId>, prev: map<NodeId, NodeId>, n: NodeId) {
    && n in prev && prev[n] in seen && link(prev[n], n)
    && forall k: nat :: n in Ring(ball, k + 1) ==> prev[n] in ball(k)
  }

  /** Inside the sweep of level `d`: the target has not been offered unless the walk stopped for it,
      and then its predecessor is held and within `d` hops. */
  ghost predicate Searching(ball: Balls, link: Links, to: NodeId, d: nat, done: seq<Lead>, w: Sweep<Search>) {
    && ball(0) <= w.seen
    && PrevOf(ball, link, w.seen, w.state.prev)
    && (w.state.found <==> w.stopped)
    && to !in w.seen
    && (!w.stopped ==> forall l :: l in done ==> l.node != to)
    && (w.stopped ==> Leaves(ball, link, to, d, w.seen, w.state.prev))
  }

  /** The target's predecessor is held and within `d` hops. */
  ghost predicate Leaves(ball: Balls, link: Links, to: NodeId, d: nat, seen: set<NodeId>, prev: map<NodeId, NodeId>) {
    to in prev && prev[to] in seen && prev[to] in ball(d) && link(prev[to], to)
  }

  /** Recording a node not yet held leaves the predecessors of held nodes alone. */
  lemma PrevKept(ball: Balls, link: Links, seen: set<NodeId>, prev: map<NodeId, NodeId>, n: NodeId, from: NodeId)
    requires PrevOf(ball, link, seen, prev) && n !in seen && ball(0) <= seen
    ensures PrevOf(ball, link, seen, prev[n := from])
  {
    forall x | x in seen && x !in ball(0)
      ensures Precedes(ball, link, seen, prev[n := from], x)
    {
      assert Precedes(ball, link, seen, prev, x);
    }
  }

  /** Holding a node just recorded from one hop nearer keeps the map in order. */
  lemma PrevExtends(ball: Balls, link: Links, seen: set<NodeId>, prev: map<NodeId, NodeId>, n: NodeId, d: nat)
    requires Growing(ball) && PrevOf(ball, link, seen, prev) && n !in seen && ball(0) <= seen
    requires n !in ball(d) && Leaves(ball, link, n, d, seen, prev)
    ensures PrevOf(ball, link, seen + {n}, prev)
  {
    forall x | x in seen + {n} && x !in ball(0)
      ensures Precedes(ball, link, seen + {n}, prev, x)
    {
      if x == n {
        forall k: nat | n in Ring(ball, k + 1)
          ensures prev[n] in ball(k)
        {
          assert d <= k ==> ball(d) <= ball(k);
        }
      } else {
        assert Precedes(ball, link, seen, prev, x);
      }
    }
  }

  /** One hop of the search. While nodes can still be held, an unseen one lies outside the current ball. */
  lemma OfferSearches(ball: Balls, link: Links, budget: nat, to: NodeId, d: nat, done: seq<Lead>, w: Sweep<Search>, l: Lead)
    requires Growing(ball) && Searching(ball, link, to, d, done, w)
    requires l.from in w.seen && l.from in ball(d) && link(l.from, l.node)
    requires |w.seen| >= budget || ball(d) <= w.seen
    ensures Searching(ball, link, to, d, done + [l], Offer(CallsVisitor(to), budget, w, l))
  {
    assert forall x :: x in done + [l] <==> x in done || x == l;
    if !w.stopped && l.node !in w.seen {
      var prev := w.state.prev[l.node := l.from];
      PrevKept(ball, link, w.seen, w.state.prev, l.node, l.from);
      if l.node != to && |w.seen| < budget {
        PrevExtends(ball, link, w.seen, prev, l.node, d);
      }
    }
  }

  lemma {:induction false} SweepSearches(ball: Balls, link: Links, budget: nat, to: NodeId, d: nat,
                                         w0: Sweep<Search>, leads: seq<Lead>)
    requires Growing(ball) && Searching(ball, link, to, d, [], w0)
    requires forall l :: l in leads ==> l.from in w0.seen && l.from in ball(d) && link(l.from, l.node)
    requires |w0.seen| >= budget || ball(d) <= w0.seen
    ensures Searching(ball, link, to, d, leads, OfferAll(CallsVisitor(to), budget, w0, leads))
    ensures w0.seen <= OfferAll(CallsVisitor(to), budget, w0, leads).seen
  {
    if leads != [] {
      var k := |leads| - 1;
      var w := OfferAll(CallsVisitor(to), budget, w0, leads[..k]);
      SweepSearches(ball, link, budget, to, d, w0, leads[..k]);
      assert leads[k] in leads && leads == leads[..k] + [leads[k]];
      HopSearches(ball, link, budget, to, d, w0, leads[..k], w, leads[k]);
    }
  }

  lemma HopSearches(ball: Balls, link: Links, budget: nat, to: NodeId, d: nat, w0: Sweep<Search>, done: seq<Lead>,
                    w: Sweep<Search>, l: Lead)
    requires Growing(ball) && Searching(ball, link, to, d, done, w) && w0.seen <= w.seen
    requires l.from in w0.seen && l.from in ball(d) && link(l.from, l.node)
    requires |w0.seen| >= budget || ball(d) <= w0.seen
    ensures Searching(ball, link, to, d, done + [l], Offer(CallsVisitor(to), budget, w, l))
    ensures w0.seen <= Offer(CallsVisitor(to), budget, w, l).seen
  {
    NoLarger(w0.seen, w.seen);
    OfferSearches(ball, link, budget, to, d, done, w, l);
  }

  /** Between levels: nothing within `d` hops is the target. */
  ghost predicate NotYet(ball: Balls, link: Links, to: NodeId, levels: seq<seq<NodeId>>, w: Sweep<Search>) {
    && to !in ball(|levels|) && !w.stopped
    && Searching(ball, link, to, |levels|, [], w)
  }

  /** What the search leaves: the target's predecessor chain, or no target held. */
  ghost predicate Searched(ball: Balls, link: Links, to: NodeId, r: Walked<Search>) {
    && to !in r.region.seen
    && PrevOf(ball, link, r.region.seen, r.state.prev)
    && (r.state.found <==> r.stopped)
    && (r.stopped ==> exists d: nat :: FoundAt(ball, link, to, d, r))
  }

  ghost predicate FoundAt(ball: Balls, link: Links, to: NodeId, d: nat, r: Walked<Search>) {
    && to in Ring(ball, d + 1)
    && Leaves(ball, link, to, d, r.region.seen, r.state.prev)
  }

  lemma FrontierLeads<S>(net: Net, levels: seq<seq<NodeId>>, w: Sweep<S>)
    requires net.Valid() && AtLevel(net.Ball, net.b, levels, w) && forall e :: net.keep(e)
    ensures forall l :: l in Leads(net.plane, Frontier(net.seed, levels), net.b) ==>
              l.from in w.seen && l.from in net.Ball(|levels|) && net.Linked(l.from, l.node)
  {
    forall l | l in Leads(net.plane, Frontier(net.seed, levels), net.b)
      ensures l.from in w.seen && l.from in net.Ball(|levels|) && net.Linked(l.from, l.node)
    {
      LeadLands(net, levels, w, l);
    }
  }

  /** If nothing the frontier links to is the target, it is not one hop further either. */
  lemma StillNotYet<S>(net: Net, to: NodeId, levels: seq<seq<NodeId>>, w: Sweep<S>)
    requires net.Valid() && AtLevel(net.Ball, net.b, levels, w) && !w.hit
    requires to !in net.Ball(|levels|)
    requires forall l :: l in Leads(net.plane, Frontier(net.seed, levels), net.b) ==> l.node != to
    ensures to !in net.Ball(|levels| + 1)
  {
    var d := |levels|;
    var others := net.Ball(d + 1) - {to};
    forall l | l in Leads(net.plane, Frontier(net.seed, levels), net.b) && net.keep(l)
      ensures l.node in others
    {
      LeadLands(net, levels, w, l);
    }
    net.BallMonotone(d, d + 1);
    LevelCompletes(net, levels, w, others);
  }

  /** One level of the search. */
  lemma SearchStep(net: Net, to: NodeId, levels: seq<seq<NodeId>>, w: Sweep<Search>, w': Sweep<Search>)
    requires net.Valid() && (forall e :: net.keep(e)) && |levels| < net.b.depth
    requires AtLevel(net.Ball, net.b, levels, w) && NotYet(net.Ball, net.Linked, to, levels, w)
    requires w' == SweepLevel(net.plane, net.seed, net.b, CallsVisitor(to), levels, w)
    ensures if w'.stopped || w'.next == [] then Searched(net.Ball, net.Linked, to, Finish(levels, w'))
            else AtLevel(net.Ball, net.b, levels + [w'.next], w') && NotYet(net.Ball, net.Linked, to, levels + [w'.next], w')
  {
    LevelSearched(net, to, levels, w, w');
    LevelSwept(net, CallsVisitor(to), levels, w);
    var leads := Leads(net.plane, Frontier(net.seed, levels), net.b);
    if w'.stopped {
      TargetNext(net, to, |levels|, w'.seen, w'.state.prev);
      StoppedAtTarget(net.Ball, net.Linked, to, levels, leads, w');
    } else if w'.next != [] {
      NextLevel(net.Ball, net.b, levels, w, w');
      StillNotYet(net, to, levels, w);
      NotYetNext(net.Ball, net.Linked, to, levels, leads, w');
    } else {
      Unstopped(net.Ball, net.Linked, to, levels, leads, w');
    }
  }

  lemma TargetNext(net: Net, to: NodeId, d: nat, seen: set<NodeId>, prev: map<NodeId, NodeId>)
    requires net.Valid() && Leaves(net.Ball, net.Linked, to, d, seen, prev)
    ensures to in net.Ball(d + 1)
  {
    net.BallStep(d, prev[to], to);
  }

  lemma NotYetNext(ball: Balls, link: Links, to: NodeId, levels: seq<seq<NodeId>>, leads: seq<Lead>, w: Sweep<Search>)
    requires !w.stopped && Searching(ball, link, to, |levels|, leads, w) && to !in ball(|levels| + 1)
    ensures NotYet(ball, link, to, levels + [w.next], w)
  {
  }

  lemma Unstopped(ball: Balls, link: Links, to: NodeId, levels: seq<seq<NodeId>>, leads: seq<Lead>, w: Sweep<Search>)
    requires !w.stopped && Searching(ball, link, to, |levels|, leads, w)
    ensures Searched(ball, link, to, Finish(levels, w))
  {
  }

  lemma LevelSearched(net: Net, to: NodeId, levels: seq<seq<NodeId>>, w: Sweep<Search>, w': Sweep<Search>)
    requires net.Valid() && (forall e :: net.keep(e)) && |levels| < net.b.depth
    requires AtLevel(net.Ball, net.b, levels, w) && NotYet(net.Ball, net.Linked, to, levels, w)
    requires w' == SweepLevel(net.plane, net.seed, net.b, CallsVisitor(to), levels, w)
    ensures Searching(net.Ball, net.Linked, to, |levels|, Leads(net.plane, Frontier(net.seed, levels), net.b), w')
  {
    FrontierLeads(net, levels, w);
    BallsGrowAndSettle(net);
    SweepSearches(net.Ball, net.Linked, net.b.budget, to, |levels|, w.(next := []),
                  Leads(net.plane, Frontier(net.seed, levels), net.b));
  }

  lemma StoppedAtTarget(ball: Balls, link: Links, to: NodeId, levels: seq<seq<NodeId>>, leads: seq<Lead>, w: Sweep<Search>)
    requires w.stopped && Searching(ball, link, to, |levels|, leads, w)
    requires to in ball(|levels| + 1) && to !in ball(|levels|)
    ensures Searched(ball, link, to, Finish(levels, w))
  {
    assert FoundAt(ball, link, to, |levels|, Finish(levels, w));
  }

  lemma {:induction false} WalkSearches(net: Net, to: NodeId, levels: seq<seq<NodeId>>, w: Sweep<Search>)
    requires net.Valid() && forall e :: net.keep(e)
    requires AtLevel(net.Ball, net.b, levels, w) && NotYet(net.Ball, net.Linked, to, levels, w)
    ensures Searched(net.Ball, net.Linked, to, WalkFrom(net.plane, net.seed, net.b, CallsVisitor(to), levels, w))
    decreases net.b.depth - |levels|
  {
    if |levels| < net.b.depth {
      var w' := SweepLevel(net.plane, net.seed, net.b, CallsVisitor(to), levels, w);
      SearchStep(net, to, levels, w, w');
      if !w'.stopped && w'.next != [] {
        WalkSearches(net, to, levels + [w'.next], w');
      }
    }
  }

  lemma SearchEnds(p: Plane, from: NodeId, to: NodeId)
    requires p.Valid() && from in p.nodes && from != to
    ensures Searched(CallsNet(p, from).Ball, CallsNet(p, from).Linked, to, CallsWalk(p, from, to))
  {
    var net := CallsNet(p, from);
    AtStart(net, Search(map[], false));
    assert net.Ball(0) == {from};
    WalkSearches(net, to, [], Start(from, Search(map[], false)));
  }

  // ---- the verb ------------------------------------------------------------

  function CallsWalk(p: Plane, from: NodeId, to: NodeId): Walked<Search>
    requires p.Valid()
  {
    WalkSpec(p, from, CallsBounds(), CallsVisitor(to), Search(map[], false))
  }

  function Reversed<T>(s: seq<T>): (r: seq<T>)
    ensures |r| == |s|
    ensures forall i :: 0 <= i < |s| ==> r[i] == s[|s| - 1 - i]
  {
    seq(|s|, i requires 0 <= i < |s| => s[|s| - 1 - i])
  }

  /** A path comes back exactly when the search met the target; it is a recorded path and none is
      shorter. None means every path there is has, a hop before its end, more nodes within reach than
      the search may hold: a target is found whenever at most that many lie nearer than it. */
  method ShortestCalls(p: Plane, from: NodeId, to: NodeId) returns (r: Option<seq<NodeId>>)
    requires p.Valid() && from in p.nodes && |p.nodes| < USIZE_MAX
    ensures r.Some? ==> IsCallPath(p, r.value, from, to)
    ensures r.Some? ==> forall q :: IsCallPath(p, q, from, to) ==> |r.value| <= |q|
    ensures r.None? ==> forall q :: IsCallPath(p, q, from, to) ==> |CallsWithin(p, from, |q| - 2)| > MAX_VISITED
  {
    if from == to {
      return Some([from]);
    }
    var walked := Walk(p, from, CallsBounds(), CallsVisitor(to), Search(map[], false));
    if !walked.state.found {
      NotFound(p, from, to, walked);
      return None;
    }
    ghost var ball, link, d := FoundRings(p, from, to, walked);
    ghost var seen := walked.region.seen;
    ChainDescends(ball, link, to, d, seen, walked.state.prev);
    var path := WalkBack(walked.state.prev, to, link,
                         (n, k) => k >= 0 && n in Ring(ball, k) && (n == to || n in seen), d + 1);
    r := Some(path);
  }

  /** What the read-back needs to know of a walk that found its target on ring `d + 1`. */
  ghost predicate Chain(ball: Balls, link: Links, to: NodeId, d: nat, seen: set<NodeId>, prev: map<NodeId, NodeId>) {
    && Growing(ball) && Advances(ball, link)
    && PrevOf(ball, link, seen, prev)
    && to in Ring(ball, d + 1) && Leaves(ball, link, to, d, seen, prev)
  }

  /** `at(n, k)`: the read-back may stand at `n` with `k` hops to go. Following the map takes one hop,
      and the map ends exactly where no hop is left. */
  ghost predicate Descends(prev: map<NodeId, NodeId>, link: Links, at: (NodeId, nat) -> bool) {
    && (forall n, k: nat :: at(n, k) && n in prev ==> k > 0 && link(prev[n], n) && at(prev[n], k - 1))
    && (forall n, k: nat :: at(n, k) && n !in prev ==> k == 0)
  }

  /** Read the path back out of the predecessor map. */
  method WalkBack(prev: map<NodeId, NodeId>, to: NodeId, ghost link: Links, ghost at: (NodeId, nat) -> bool, ghost n: nat)
    returns (forth: seq<NodeId>)
    requires Descends(prev, link, at) && at(to, n)
    ensures |forth| == n + 1 && at(forth[0], 0) && forth[n] == to
    ensures forall i :: 0 <= i < |forth| - 1 ==> link(forth[i], forth[i + 1])
  {
    var path := [to];
    var cur := to;
    ghost var k := n;
    while cur in prev
      invariant |path| == n + 1 - k && path[0] == to && path[|path| - 1] == cur
      invariant forall i :: 0 <= i < |path| - 1 ==> link(path[i + 1], path[i])
      invariant at(cur, k)
      decreases k
    {
      path := path + [prev[cur]];
      cur := prev[cur];
      k := k - 1;
    }
    forth := Reversed(path);
  }

  /** A found search descends ring by ring to the seed. */
  lemma ChainDescends(ball: Balls, link: Links, to: NodeId, d: nat, seen: set<NodeId>, prev: map<NodeId, NodeId>)
    requires Chain(ball, link, to, d, seen, prev)
    ensures Descends(prev, link, (n, k) => k >= 0 && n in Ring(ball, k) && (n == to || n in seen))
  {
    forall n, k: nat | n in Ring(ball, k) && (n == to || n in seen) && n in prev
      ensures k > 0 && link(prev[n], n) && prev[n] in Ring(ball, k - 1) && prev[n] in seen
    {
      StepBack(ball, link, seen, prev, to, d, n, k);
    }
    forall n, k: nat | n in Ring(ball, k) && (n == to || n in seen) && n !in prev
      ensures k == 0
    {
      EndOfChain(ball, link, seen, prev, to, d, n, k);
    }
  }

  /** One step of the walk back lands on the ring one nearer the seed. */
  lemma StepBack(ball: Balls, link: Links, seen: set<NodeId>, prev: map<NodeId, NodeId>, to: NodeId, d: nat,
                 cur: NodeId, k: nat)
    requires Chain(ball, link, to, d, seen, prev)
    requires cur in prev && cur in Ring(ball, k) && (cur == to || cur in seen)
    ensures k > 0 && prev[cur] in seen && link(prev[cur], cur) && prev[cur] in Ring(ball, k - 1)
  {
    assert k > 0;
    if cur == to {
      SameRing(ball, to, d + 1, k);
    } else {
      assert ball(0) <= ball(k - 1);
      assert Precedes(ball, link, seen, prev, cur);
    }
  }

  /** A node of the chain without a predecessor is the seed. */
  lemma EndOfChain(ball: Balls, link: Links, seen: set<NodeId>, prev: map<NodeId, NodeId>, to: NodeId, d: nat,
                   cur: NodeId, k: nat)
    requires Chain(ball, link, to, d, seen, prev)
    requires cur !in prev && cur in Ring(ball, k) && (cur == to || cur in seen)
    ensures k == 0
  {
  }

  /** Rings are disjoint. */
  lemma SameRing(ball: Balls, n: NodeId, i: nat, k: nat)
    requires Growing(ball) && n in Ring(ball, i) && n in Ring(ball, k)
    ensures i == k
  {
  }

  /** The rings of a walk that found its target: a chain over CALLS edges, and no shorter path. */
  lemma FoundRings(p: Plane, from: NodeId, to: NodeId, r: Walked<Search>) returns (ball: Balls, link: Links, d: nat)
    requires p.Valid() && from in p.nodes && from != to
    requires r == CallsWalk(p, from, to) && r.state.found
    ensures Chain(ball, link, to, d, r.region.seen, r.state.prev)
    ensures ball(0) == {from} && forall u, v :: link(u, v) ==> Calls(p, u, v)
    ensures forall q :: IsCallPath(p, q, from, to) ==> d + 2 <= |q|
  {
    var net := CallsNet(p, from);
    SearchEnds(p, from, to);
    ball, link := net.Ball, net.Linked;
    d :| FoundAt(net.Ball, net.Linked, to, d, r);
    BallsGrowAndSettle(net);
    net.LinksAdvance();
    forall u, v | link(u, v)
      ensures Calls(p, u, v)
    {
      CallsAreLinks(p, from, u, v);
    }
    NoneShorter(p, from, to, d);
  }

  lemma NoneShorter(p: Plane, from: NodeId, to: NodeId, d: nat)
    requires p.Valid() && to !in CallsNet(p, from).Ball(d)
    ensures forall q :: IsCallPath(p, q, from, to) ==> d + 2 <= |q|
  {
    var net := CallsNet(p, from);
    forall q | IsCallPath(p, q, from, to)
      ensures d + 2 <= |q|
    {
      CallPathsArePaths(p, from, q);
      net.PathStaysInBall(q);
      if |q| - 1 <= d {
        net.BallMonotone(|q| - 1, d);
      }
    }
  }

  // ---- nothing found ---------------------------------------------------------

  /** No node of `nodes` calls the target. */
  ghost predicate Unlinked(link: Links, to: NodeId, nodes: set<NodeId>) {
    forall u :: u in nodes ==> !link(u, to)
  }

  /** A level swept to its end without the target leaves no link to it behind. */
  lemma LevelUnlinked(net: Net, to: NodeId, levels: seq<seq<NodeId>>, w: Sweep<Search>)
    requires net.Valid() && (forall e :: net.keep(e))
    requires Unlinked(net.Linked, to, w.seen - Elems(Frontier(net.seed, levels)))
    requires forall l :: l in Leads(net.plane, Frontier(net.seed, levels), net.b) ==> l.node != to
    ensures Unlinked(net.Linked, to, w.seen)
  {
    forall u | u in w.seen
      ensures !net.Linked(u, to)
    {
      if u in Frontier(net.seed, levels) && net.Linked(u, to) {
        var l :| IsLead(net.plane, l, net.b.dirs, net.b.ty) && net.keep(l) && l.from == u && l.node == to;
        LeadsIff(net.plane, Frontier(net.seed, levels), net.b, l);
        assert false;
      }
    }
  }

  /** A search that ran out of nodes before its depth holds none that calls the target. */
  lemma {:induction false} WalkUnlinked(net: Net, to: NodeId, levels: seq<seq<NodeId>>, w: Sweep<Search>)
    requires net.Valid() && forall e :: net.keep(e)
    requires AtLevel(net.Ball, net.b, levels, w) && NotYet(net.Ball, net.Linked, to, levels, w)
    requires Unlinked(net.Linked, to, w.seen - Elems(Frontier(net.seed, levels)))
    ensures var r := WalkFrom(net.plane, net.seed, net.b, CallsVisitor(to), levels, w);
            !r.stopped && |r.region.levels| < net.b.depth ==> Unlinked(net.Linked, to, r.region.seen)
    decreases net.b.depth - |levels|
  {
    if |levels| < net.b.depth {
      var w' := SweepLevel(net.plane, net.seed, net.b, CallsVisitor(to), levels, w);
      StepUnlinked(net, to, levels, w, w');
      if !w'.stopped && w'.next != [] {
        SearchStep(net, to, levels, w, w');
        WalkUnlinked(net, to, levels + [w'.next], w');
      }
    }
  }

  lemma StepUnlinked(net: Net, to: NodeId, levels: seq<seq<NodeId>>, w: Sweep<Search>, w': Sweep<Search>)
    requires net.Valid() && (forall e :: net.keep(e)) && |levels| < net.b.depth
    requires AtLevel(net.Ball, net.b, levels, w) && NotYet(net.Ball, net.Linked, to, levels, w)
    requires Unlinked(net.Linked, to, w.seen - Elems(Frontier(net.seed, levels)))
    requires w' == SweepLevel(net.plane, net.seed, net.b, CallsVisitor(to), levels, w)
    ensures !w'.stopped && w'.next == [] ==> Unlinked(net.Linked, to, w'.seen)
    ensures !w'.stopped && w'.next != [] ==>
              Unlinked(net.Linked, to, w'.seen - Elems(Frontier(net.seed, levels + [w'.next])))
  {
    LevelNew(net, to, levels, w, w');
    if !w'.stopped {
      NotOffered(net, to, levels, w, w');
      LevelUnlinked(net, to, levels, w);
      UnlinkedBehind(net.Linked, to, w.seen, w'.next, w'.seen);
    }
  }

  lemma NotOffered(net: Net, to: NodeId, levels: seq<seq<NodeId>>, w: Sweep<Search>, w': Sweep<Search>)
    requires net.Valid() && (forall e :: net.keep(e)) && |levels| < net.b.depth
    requires AtLevel(net.Ball, net.b, levels, w) && NotYet(net.Ball, net.Linked, to, levels, w)
    requires w' == SweepLevel(net.plane, net.seed, net.b, CallsVisitor(to), levels, w) && !w'.stopped
    ensures forall l :: l in Leads(net.plane, Frontier(net.seed, levels), net.b) ==> l.node != to
  {
    LevelSearched(net, to, levels, w, w');
  }

  lemma LevelNew(net: Net, to: NodeId, levels: seq<seq<NodeId>>, w: Sweep<Search>, w': Sweep<Search>)
    requires net.Valid() && (forall e :: net.keep(e)) && |levels| < net.b.depth && !w.stopped
    requires AtLevel(net.Ball, net.b, levels, w)
    requires w' == SweepLevel(net.plane, net.seed, net.b, CallsVisitor(to), levels, w)
    ensures Elems(w'.next) !! w.seen && w'.seen == w.seen + Elems(w'.next)
  {
    LevelSwept(net, CallsVisitor(to), levels, w);
    OnlyNew(net.Ball, net.b, levels, w, w');
  }

  lemma UnlinkedBehind(link: Links, to: NodeId, seen: set<NodeId>, next: seq<NodeId>, seen': set<NodeId>)
    requires Unlinked(link, to, seen) && Elems(next) !! seen && seen' == seen + Elems(next)
    ensures Unlinked(link, to, seen' - Elems(next)) && (next == [] ==> Unlinked(link, to, seen'))
  {
    assert seen' - Elems(next) == seen;
  }

  /** What a search without its target holds: the nearest nodes, none of which calls the target. */
  ghost predicate Missed(ball: Balls, link: Links, to: NodeId, r: Region) {
    && Growing(ball) && Unlinked(link, to, r.seen)
    && IsNearest(ball, CallsBounds(), r) && IsWhole(ball, CallsBounds(), r) && |r.levels| < USIZE_MAX
  }

  lemma SearchMisses(p: Plane, from: NodeId, to: NodeId, r: Walked<Search>)
    requires p.Valid() && from in p.nodes && |p.nodes| < USIZE_MAX && from != to
    requires r == CallsWalk(p, from, to) && !r.state.found
    ensures Missed(CallsNet(p, from).Ball, CallsNet(p, from).Linked, to, r.region)
  {
    SearchEnds(p, from, to);
    SearchNearest(p, from, to);
    BallsGrowAndSettle(CallsNet(p, from));
    RegionInPlane(CallsNet(p, from), r.region);
    SearchUnlinked(p, from, to);
    RegionMisses(CallsNet(p, from).Ball, CallsNet(p, from).Linked, to, p.nodes, r);
  }

  lemma SearchNearest(p: Plane, from: NodeId, to: NodeId)
    requires p.Valid() && from in p.nodes
    ensures var r := CallsWalk(p, from, to);
            && IsNearest(CallsNet(p, from).Ball, CallsBounds(), r.region)
            && (!r.stopped ==> IsWhole(CallsNet(p, from).Ball, CallsBounds(), r.region))
  {
    RegionIsNearest(CallsNet(p, from), CallsVisitor(to), Search(map[], false));
  }

  lemma RegionMisses(ball: Balls, link: Links, to: NodeId, nodes: set<NodeId>, r: Walked<Search>)
    requires Growing(ball) && Searched(ball, link, to, r) && !r.state.found
    requires IsNearest(ball, CallsBounds(), r.region) && (!r.stopped ==> IsWhole(ball, CallsBounds(), r.region))
    requires r.region.seen <= nodes && |nodes| < USIZE_MAX
    requires !r.stopped && |r.region.levels| < USIZE_MAX ==> Unlinked(link, to, r.region.seen)
    ensures Missed(ball, link, to, r.region)
  {
    NoLarger(r.region.seen, nodes);
  }

  lemma SearchUnlinked(p: Plane, from: NodeId, to: NodeId)
    requires p.Valid() && from in p.nodes && from != to
    ensures var r := CallsWalk(p, from, to);
            !r.stopped && |r.region.levels| < USIZE_MAX ==> Unlinked(CallsNet(p, from).Linked, to, r.region.seen)
  {
    var net := CallsNet(p, from);
    AtStart(net, Search(map[], false));
    assert net.Ball(0) == {from};
    assert Start(from, Search(map[], false)).seen - Elems([from]) == {};
    WalkUnlinked(net, to, [], Start(from, Search(map[], false)));
  }

  /** Nothing found: every path to the target has, a hop before its end, more nodes within reach than
      the search may hold. */
  lemma NotFound(p: Plane, from: NodeId, to: NodeId, r: Walked<Search>)
    requires p.Valid() && from in p.nodes && |p.nodes| < USIZE_MAX && from != to
    requires r == CallsWalk(p, from, to) && !r.state.found
    ensures forall q :: IsCallPath(p, q, from, to) ==> |CallsWithin(p, from, |q| - 2)| > MAX_VISITED
  {
    SearchMisses(p, from, to, r);
    forall q | IsCallPath(p, q, from, to)
      ensures |CallsWithin(p, from, |q| - 2)| > MAX_VISITED
    {
      PathMissed(p, from, to, r.region, q);
    }
  }

  lemma PathMissed(p: Plane, from: NodeId, to: NodeId, r: Region, q: seq<NodeId>)
    requires p.Valid() && from in p.nodes && from != to && IsCallPath(p, q, from, to)
    requires Missed(CallsNet(p, from).Ball, CallsNet(p, from).Linked, to, r)
    ensures |CallsWithin(p, from, |q| - 2)| > MAX_VISITED
  {
    var u := BeforeEnd(p, from, to, q);
    LeftOutFills(CallsNet(p, from).Ball, CallsBounds(), r, u, |q| - 2);
    BallIsReach(p, from, |q| - 2);
  }

  /** The caller a path ends through lies one hop nearer. */
  lemma BeforeEnd(p: Plane, from: NodeId, to: NodeId, q: seq<NodeId>) returns (u: NodeId)
    requires p.Valid() && IsCallPath(p, q, from, to) && from != to
    ensures |q| >= 2 && u in CallsNet(p, from).Ball(|q| - 2) && CallsNet(p, from).Linked(u, to)
  {
    var init := q[..|q| - 1];
    u := q[|q| - 2];
    CallPathsArePaths(p, from, init);
    CallsNet(p, from).PathStaysInBall(init);
    assert Calls(p, q[|q| - 2], q[|q| - 1]);
    CallsAreLinks(p, from, u, to);
  }

  /** A node within `k` hops that the search could not hold leaves more than the budget within `k` hops. */
  lemma LeftOutFills(ball: Balls, b: Bounds, r: Region, u: NodeId, k: nat)
    requires Growing(ball) && IsNearest(ball, b, r) && IsWhole(ball, b, r) && |r.levels| < b.depth
    requires u in ball(k) && u !in r.seen
    ensures |ball(k)| > AtLeastOne(b.budget)
  {
    assert r.budgetHit;
    forall n | n in r.seen
      ensures n in ball(k)
    {
      LeftOutIsFarther(ball, r.seen, n, u, k);
    }
    assert u in ball(k) - r.seen;
    RefusedExceeds(ball(k), r.seen);
  }

  lemma BallIsReach(p: Plane, from: NodeId, k: nat)
    requires p.Valid() && from in p.nodes
    ensures CallsNet(p, from).Ball(k) <= CallsWithin(p, from, k)
    ensures |CallsNet(p, from).Ball(k)| <= |CallsWithin(p, from, k)|
  {
    var net := CallsNet(p, from);
    net.BallInPlane(k);
    forall v | v in net.Ball(k)
      ensures v in CallsWithin(p, from, k)
    {
      var path := net.BallHasPath(k, v);
      CallPathsArePaths(p, from, path);
    }
    NoLarger(net.Ball(k), CallsWithin(p, from, k));
  }
}
