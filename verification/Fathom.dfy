/** `fathom`: what a region is made of, tallied edge by edge while it is walked. */
module Fathom {
  import opened Collections
  import opened Planes
  import opened Walks
  import opened Nearest
  import opened Distances
  import opened Tallies
  import opened TallyWays

  // ---- what the walk counts -------------------------------------------------

  /** Inside a sweep: exactly the offered edges were counted; they all lie in the region unless the
      budget refused a node, and then one does not. */
  ghost predicate Counting(p: Plane, w0: Sweep<Tally>, done: seq<Lead>, w: Sweep<Tally>) {
    && !w.stopped && w0.seen <= w.seen
    && w.state.counted == w0.state.counted + EdgesOf(done)
    && (w.hit ==> |w.seen| >= FATHOM_BUDGET)
    && (w.hit <==> !(w.state.counted <= Induced(p, w.seen)))
  }

  lemma OfferCounts(p: Plane, w0: Sweep<Tally>, done: seq<Lead>, w: Sweep<Tally>, l: Lead)
    requires Counting(p, w0, done, w)
    requires IsLead(p, l, [Out, In], None) && l.from in w.seen
    ensures Counting(p, w0, done + [l], Offer(FathomVisitor(p), FATHOM_BUDGET, w, l))
  {
    var w' := Offer(FathomVisitor(p), FATHOM_BUDGET, w, l);
    EdgesOfSnoc(done, l);
    assert w'.state.counted == w.state.counted + {l.edge};
    if w'.hit && !w.hit {
      assert l.edge !in Induced(p, w'.seen);
    } else if !w'.hit {
      assert Induced(p, w.seen) <= Induced(p, w'.seen);
      assert l.edge in Induced(p, w'.seen);
    }
  }

  /** The tally stays exact hop by hop, whatever the walk does with the hop. */
  lemma {:induction false} SweepExact(p: Plane, budget: nat, w0: Sweep<Tally>, leads: seq<Lead>)
    requires Exact(p, w0.state)
    requires forall l :: l in leads ==> IsLead(p, l, [Out, In], None)
    ensures Exact(p, OfferAll(FathomVisitor(p), budget, w0, leads).state)
  {
    if leads != [] {
      var k := |leads| - 1;
      SweepExact(p, budget, w0, leads[..k]);
      assert leads[k] in leads;
      AddKeepsExact(p, OfferAll(FathomVisitor(p), budget, w0, leads[..k]).state, leads[k]);
    }
  }

  lemma {:induction false} WalkExact(p: Plane, seed: NodeId, depth: nat, levels: seq<seq<NodeId>>, w: Sweep<Tally>)
    requires p.Valid() && Exact(p, w.state)
    ensures Exact(p, WalkFrom(p, seed, FathomBounds(depth), FathomVisitor(p), levels, w).state)
    decreases FathomBounds(depth).depth - |levels|
  {
    if |levels| < FathomBounds(depth).depth {
      FrontierEdges(p, Frontier(seed, levels), depth);
      SweepExact(p, FATHOM_BUDGET, w.(next := []), Leads(p, Frontier(seed, levels), FathomBounds(depth)));
      var w' := SweepLevel(p, seed, FathomBounds(depth), FathomVisitor(p), levels, w);
      if w'.next != [] && !w'.stopped {
        WalkExact(p, seed, depth, levels + [w'.next], w');
      }
    }
  }

  lemma {:induction false} SweepCounts(p: Plane, w0: Sweep<Tally>, leads: seq<Lead>)
    requires Counting(p, w0, [], w0)
    requires forall l :: l in leads ==> IsLead(p, l, [Out, In], None) && l.from in w0.seen
    ensures Counting(p, w0, leads, OfferAll(FathomVisitor(p), FATHOM_BUDGET, w0, leads))
  {
    if leads != [] {
      var k := |leads| - 1;
      SweepCounts(p, w0, leads[..k]);
      assert leads[k] in leads && leads == leads[..k] + [leads[k]];
      OfferCounts(p, w0, leads[..k], OfferAll(FathomVisitor(p), FATHOM_BUDGET, w0, leads[..k]), leads[k]);
    }
  }

  /** Sweeping both directions offers every edge at the frontier. */
  lemma FrontierEdges(p: Plane, frontier: seq<NodeId>, depth: nat)
    requires p.Valid()
    ensures EdgesOf(Leads(p, frontier, FathomBounds(depth))) == Incident(p, Elems(frontier))
    ensures forall l :: l in Leads(p, frontier, FathomBounds(depth)) ==> IsLead(p, l, [Out, In], None) && l.from in frontier
  {
    var b := FathomBounds(depth);
    forall l | l in Leads(p, frontier, b)
      ensures IsLead(p, l, [Out, In], None) && l.from in frontier && l.edge in Incident(p, Elems(frontier))
    {
      LeadsIff(p, frontier, b, l);
    }
    forall e | e in Incident(p, Elems(frontier))
      ensures e in EdgesOf(Leads(p, frontier, b))
    {
      var dir := if p.edges[e].src in frontier then Out else In;
      var l := Lead(p.edges[e].Near(dir), dir, p.edges[e].Far(dir), e);
      LeadsIff(p, frontier, b, l);
      assert l in Leads(p, frontier, b);
    }
  }

  /** Between levels: everything behind the frontier has been counted, and nothing else. */
  ghost predicate Counted(p: Plane, seed: NodeId, levels: seq<seq<NodeId>>, w: Sweep<Tally>) {
    && !w.stopped
    && Elems(Frontier(seed, levels)) <= w.seen
    && w.state.counted == Incident(p, w.seen - Elems(Frontier(seed, levels)))
    && (w.hit ==> |w.seen| >= FATHOM_BUDGET)
    && (w.hit <==> !(w.state.counted <= Induced(p, w.seen)))
  }

  /** The nodes walked from: all held, but for the last level when the walk ended at its depth. */
  ghost function WalkedFrom(seed: NodeId, depth: nat, r: Region): set<NodeId> {
    if |r.levels| >= depth then r.seen - Elems(Frontier(seed, r.levels)) else r.seen
  }

  /** What the walk hands to the closing pass: counted is every edge at a node walked from. */
  ghost predicate Open(p: Plane, seed: NodeId, depth: nat, r: Region, t: Tally) {
    && Elems(Frontier(seed, r.levels)) <= r.seen
    && t.counted == Incident(p, WalkedFrom(seed, depth, r))
    && (r.budgetHit <==> !(t.counted <= Induced(p, r.seen)))
  }

  /** A swept frontier leaves every edge at the nodes held before the sweep counted. */
  lemma SweptEdges(p: Plane, frontier: seq<NodeId>, depth: nat, seen: set<NodeId>)
    requires p.Valid() && Elems(frontier) <= seen
    ensures Incident(p, seen - Elems(frontier)) + EdgesOf(Leads(p, frontier, FathomBounds(depth))) == Incident(p, seen)
  {
    FrontierEdges(p, frontier, depth);
    IncidentUnion(p, seen, Elems(frontier));
  }

  lemma IncidentUnion(p: Plane, seen: set<NodeId>, some: set<NodeId>)
    requires some <= seen
    ensures Incident(p, seen - some) + Incident(p, some) == Incident(p, seen)
  {
  }

  lemma CountedOn(p: Plane, seed: NodeId, levels: seq<seq<NodeId>>, w: Sweep<Tally>, w': Sweep<Tally>, depth: nat)
    requires p.Valid() && Counted(p, seed, levels, w)
    requires Counting(p, w.(next := []), Leads(p, Frontier(seed, levels), FathomBounds(depth)), w')
    requires w'.seen == w.seen + Elems(w'.next) && Elems(w'.next) !! w.seen && |levels| < FathomBounds(depth).depth
    ensures w'.next != [] ==> Counted(p, seed, levels + [w'.next], w')
    ensures w'.next == [] ==> Open(p, seed, FathomBounds(depth).depth, Region(levels, w'.seen, w'.hit), w'.state)
  {
    SweptEdges(p, Frontier(seed, levels), depth, w.seen);
    if w'.next != [] {
      assert Frontier(seed, levels + [w'.next]) == w'.next;
      assert w'.seen - Elems(w'.next) == w.seen;
    } else {
      assert w'.seen == w.seen;
    }
  }

  lemma {:induction false} WalkCounts(p: Plane, seed: NodeId, depth: nat, levels: seq<seq<NodeId>>, w: Sweep<Tally>)
    requires FathomNet(p, seed, depth).Valid()
    requires AtLevel(FathomNet(p, seed, depth).Ball, FathomBounds(depth), levels, w)
    requires Counted(p, seed, levels, w)
    ensures var r := WalkFrom(p, seed, FathomBounds(depth), FathomVisitor(p), levels, w);
            Open(p, seed, FathomBounds(depth).depth, r.region, r.state)
    decreases FathomBounds(depth).depth - |levels|
  {
    var net, b := FathomNet(p, seed, depth), FathomBounds(depth);
    if |levels| < b.depth {
      var w' := SweepLevel(p, seed, b, FathomVisitor(p), levels, w);
      CountLevel(p, seed, depth, levels, w, w');
      if w'.next != [] {
        WalkCounts(p, seed, depth, levels + [w'.next], w');
      }
    }
  }

  lemma CountLevel(p: Plane, seed: NodeId, depth: nat, levels: seq<seq<NodeId>>, w: Sweep<Tally>, w': Sweep<Tally>)
    requires FathomNet(p, seed, depth).Valid() && |levels| < FathomBounds(depth).depth
    requires AtLevel(FathomNet(p, seed, depth).Ball, FathomBounds(depth), levels, w)
    requires Counted(p, seed, levels, w)
    requires w' == SweepLevel(p, seed, FathomBounds(depth), FathomVisitor(p), levels, w)
    ensures !w'.stopped
    ensures w'.next != [] ==> Counted(p, seed, levels + [w'.next], w')
    ensures w'.next != [] ==> AtLevel(FathomNet(p, seed, depth).Ball, FathomBounds(depth), levels + [w'.next], w')
    ensures w'.next == [] ==> Open(p, seed, FathomBounds(depth).depth, Region(levels, w'.seen, w'.hit), w'.state)
  {
    var net := FathomNet(p, seed, depth);
    LevelSwept(net, FathomVisitor(p), levels, w);
    CountSweep(p, seed, depth, levels, w);
    OnlyNew(net.Ball, net.b, levels, w, w');
    CountedOn(p, seed, levels, w, w', depth);
    if w'.next != [] {
      NextLevel(net.Ball, net.b, levels, w, w');
    }
  }

  lemma CountSweep(p: Plane, seed: NodeId, depth: nat, levels: seq<seq<NodeId>>, w: Sweep<Tally>)
    requires p.Valid() && Counted(p, seed, levels, w)
    ensures Counting(p, w.(next := []), Leads(p, Frontier(seed, levels), FathomBounds(depth)),
                     SweepLevel(p, seed, FathomBounds(depth), FathomVisitor(p), levels, w))
  {
    var f := Frontier(seed, levels);
    FrontierEdges(p, f, depth);
    assert w.state.counted + EdgesOf([]) == w.state.counted;
    SweepCounts(p, w.(next := []), Leads(p, f, FathomBounds(depth)));
  }

  // ---- the closing pass -----------------------------------------------------

  /** Close the induced subgraph the walk left open: count the edges of the last level that stay
      inside. No node is added. */
  method CloseRegion(p: Plane, r: Region, seed: NodeId, t0: Tally) returns (t: Tally)
    requires p.Valid()
    ensures t == CloseAll(p, r.seen, t0, Leads(p, Frontier(seed, r.levels), FathomBounds(1)))
  {
    var last := Frontier(seed, r.levels);
    t := t0;
    var i := 0;
    while i < |last|
      invariant 0 <= i <= |last|
      invariant t == CloseAll(p, r.seen, t0, Leads(p, last[..i], FathomBounds(1)))
    {
      CloseNext(p, last, i, r.seen, t0);
      t := CloseNode(p, last[i], [Out, In], r.seen, t);
      i := i + 1;
    }
    assert last[..i] == last;
  }

  method CloseNode(p: Plane, id: NodeId, dirs: seq<Dir>, seen: set<NodeId>, t0: Tally) returns (t: Tally)
    requires p.Valid()
    ensures t == CloseAll(p, seen, t0, NodeLeads(p, id, dirs, None))
  {
    t := t0;
    var j := 0;
    while j < |dirs|
      invariant 0 <= j <= |dirs|
      invariant t == CloseAll(p, seen, t0, NodeLeads(p, id, dirs[..j], None))
    {
      CloseNextDir(p, id, dirs, j, seen, t0);
      t := CloseNeighbors(p, id, dirs[j], seen, t);
      j := j + 1;
    }
    assert dirs[..j] == dirs;
  }

  method CloseNeighbors(p: Plane, id: NodeId, dir: Dir, seen: set<NodeId>, t0: Tally) returns (t: Tally)
    requires p.Valid()
    ensures t == CloseAll(p, seen, t0, LeadsTo(id, dir, p.Neighbors(id, dir, None)))
  {
    var nbs := p.Neighbors(id, dir, None);
    t := t0;
    var k := 0;
    while k < |nbs|
      invariant 0 <= k <= |nbs|
      invariant t == CloseAll(p, seen, t0, LeadsTo(id, dir, nbs[..k]))
    {
      var nb := nbs[k];
      CloseNextLead(p, id, dir, nbs, k, seen, t0);
      k := k + 1;
      if nb.node !in seen || nb.edge in t.counted {
        continue;
      }
      if nb.edge in p.edges {
        t := Add(t, Lead(id, dir, nb.node, nb.edge), p.edges[nb.edge].ty);
      }
    }
    assert nbs[..k] == nbs;
  }

  lemma CloseNext(p: Plane, last: seq<NodeId>, i: nat, seen: set<NodeId>, t: Tally)
    requires p.Valid() && i < |last|
    ensures CloseAll(p, seen, t, Leads(p, last[..i + 1], FathomBounds(1)))
         == CloseAll(p, seen, CloseAll(p, seen, t, Leads(p, last[..i], FathomBounds(1))),
                     NodeLeads(p, last[i], [Out, In], None))
  {
    assert last[..i + 1][..i] == last[..i];
    CloseAllConcat(p, seen, t, Leads(p, last[..i], FathomBounds(1)), NodeLeads(p, last[i], [Out, In], None));
  }

  lemma CloseNextDir(p: Plane, id: NodeId, dirs: seq<Dir>, j: nat, seen: set<NodeId>, t: Tally)
    requires p.Valid() && j < |dirs|
    ensures CloseAll(p, seen, t, NodeLeads(p, id, dirs[..j + 1], None))
         == CloseAll(p, seen, CloseAll(p, seen, t, NodeLeads(p, id, dirs[..j], None)),
                     LeadsTo(id, dirs[j], p.Neighbors(id, dirs[j], None)))
  {
    assert dirs[..j + 1][..j] == dirs[..j];
    CloseAllConcat(p, seen, t, NodeLeads(p, id, dirs[..j], None), LeadsTo(id, dirs[j], p.Neighbors(id, dirs[j], None)));
  }

  lemma CloseNextLead(p: Plane, id: NodeId, dir: Dir, nbs: seq<Neighbor>, k: nat, seen: set<NodeId>, t: Tally)
    requires k < |nbs|
    ensures CloseAll(p, seen, t, LeadsTo(id, dir, nbs[..k + 1]))
         == CloseOne(p, seen, CloseAll(p, seen, t, LeadsTo(id, dir, nbs[..k])), Lead(id, dir, nbs[k].node, nbs[k].edge))
  {
    var leads := LeadsTo(id, dir, nbs[..k + 1]);
    assert leads[..k] == LeadsTo(id, dir, nbs[..k]);
  }

  /** What closing adds: the edges of the last level that stay in the region. */
  lemma ClosedEdges(p: Plane, last: seq<NodeId>, seen: set<NodeId>)
    requires p.Valid() && Elems(last) <= seen
    ensures Staying(seen, Leads(p, last, FathomBounds(1))) == Incident(p, Elems(last)) * Induced(p, seen)
  {
    var b := FathomBounds(1);
    forall l | l in Leads(p, last, b) && l.node in seen
      ensures l.edge in Incident(p, Elems(last)) * Induced(p, seen)
    {
      LeadsIff(p, last, b, l);
    }
    forall e | e in Incident(p, Elems(last)) * Induced(p, seen)
      ensures e in Staying(seen, Leads(p, last, b))
    {
      var dir := if p.edges[e].src in last then Out else In;
      var l := Lead(p.edges[e].Near(dir), dir, p.edges[e].Far(dir), e);
      LeadsIff(p, last, b, l);
      assert l in Leads(p, last, b) && l.node in seen;
    }
  }

  // ---- which way each edge is counted ------------------------------------------

  /** The visitor's tally is every hop tallied, in the order offered, whatever the budget refuses. */
  lemma {:induction false} SweepTallies(p: Plane, w0: Sweep<Tally>, leads: seq<Lead>)
    requires p.Valid() && !w0.stopped && forall l :: l in leads ==> IsLead(p, l, [Out, In], None)
    ensures OfferAll(FathomVisitor(p), FATHOM_BUDGET, w0, leads).state == CloseAll(p, p.nodes, w0.state, leads)
    ensures !OfferAll(FathomVisitor(p), FATHOM_BUDGET, w0, leads).stopped
  {
    if leads != [] {
      SweepTallies(p, w0, leads[..|leads| - 1]);
      assert leads[|leads| - 1] in leads;
    }
  }

  /** The nodes behind the frontier, in the order they were walked. */
  function BeforeLast(seed: NodeId, levels: seq<seq<NodeId>>): seq<NodeId> {
    if levels == [] then [] else [seed] + Flatten(levels[..|levels| - 1])
  }

  lemma BeforeAndLast(seed: NodeId, levels: seq<seq<NodeId>>)
    ensures BeforeLast(seed, levels) + Frontier(seed, levels) == [seed] + Flatten(levels)
  {
  }

  /** The nodes a walk of this depth walked from, in order. */
  function WalkOrder(seed: NodeId, depth: nat, levels: seq<seq<NodeId>>): seq<NodeId> {
    if |levels| >= depth then BeforeLast(seed, levels) else [seed] + Flatten(levels)
  }

  lemma {:induction false} WalkTallies(p: Plane, seed: NodeId, depth: nat, levels: seq<seq<NodeId>>, w: Sweep<Tally>)
    requires p.Valid() && !w.stopped
    requires w.state == CloseAll(p, p.nodes, EMPTY, Leads(p, BeforeLast(seed, levels), FathomBounds(depth)))
    ensures var r := WalkFrom(p, seed, FathomBounds(depth), FathomVisitor(p), levels, w);
            r.state == CloseAll(p, p.nodes, EMPTY, Leads(p, WalkOrder(seed, FathomBounds(depth).depth, r.region.levels), FathomBounds(depth)))
    decreases FathomBounds(depth).depth - |levels|
  {
    if |levels| < FathomBounds(depth).depth {
      var w' := SweepLevel(p, seed, FathomBounds(depth), FathomVisitor(p), levels, w);
      LevelTallies(p, seed, depth, levels, w);
      if w'.next != [] {
        FlattenSnoc(levels, w'.next);
        assert (levels + [w'.next])[..|levels + [w'.next]| - 1] == levels;
        WalkTallies(p, seed, depth, levels + [w'.next], w');
      }
    }
  }

  lemma LevelTallies(p: Plane, seed: NodeId, depth: nat, levels: seq<seq<NodeId>>, w: Sweep<Tally>)
    requires p.Valid() && !w.stopped
    requires w.state == CloseAll(p, p.nodes, EMPTY, Leads(p, BeforeLast(seed, levels), FathomBounds(depth)))
    ensures var w' := SweepLevel(p, seed, FathomBounds(depth), FathomVisitor(p), levels, w);
            && !w'.stopped
            && w'.state == CloseAll(p, p.nodes, EMPTY, Leads(p, [seed] + Flatten(levels), FathomBounds(depth)))
  {
    var b, f := FathomBounds(depth), Frontier(seed, levels);
    FrontierEdges(p, f, depth);
    SweepTallies(p, w.(next := []), Leads(p, f, b));
    BeforeAndLast(seed, levels);
    LeadsConcat(p, BeforeLast(seed, levels), f, b);
    CloseAllConcat(p, p.nodes, EMPTY, Leads(p, BeforeLast(seed, levels), b), Leads(p, f, b));
  }

  lemma {:induction false} SameLeads(p: Plane, ns: seq<NodeId>, a: Bounds, b: Bounds)
    requires p.Valid() && a.dirs == b.dirs && a.ty == b.ty
    ensures Leads(p, ns, a) == Leads(p, ns, b)
  {
    if ns != [] {
      SameLeads(p, ns[..|ns| - 1], a, b);
    }
  }

  /** The closing pass goes on in the same order, over the last level, or finds nothing left. */
  lemma ClosesDirected(p: Plane, seed: NodeId, depth: nat, r: Region, open: Tally, t: Tally)
    requires p.Valid() && r.seen <= p.nodes && 0 < depth
    requires NoDup([seed] + Flatten(r.levels)) && Elems([seed] + Flatten(r.levels)) <= r.seen
    requires open == CloseAll(p, p.nodes, EMPTY, Leads(p, WalkOrder(seed, depth, r.levels), FathomBounds(1)))
    requires t == CloseAll(p, r.seen, open, Leads(p, Frontier(seed, r.levels), FathomBounds(1)))
    ensures Directed(p, [seed] + Flatten(r.levels), t)
  {
    var ns, walked, last := [seed] + Flatten(r.levels), WalkOrder(seed, depth, r.levels), Frontier(seed, r.levels);
    BeforeAndLast(seed, r.levels);
    var k := |walked|;
    assert ns[0..k] == walked;
    WalkDirected(p, ns, k, open);
    TurnedWithin(p, ns, k, p.nodes, r.seen, open);
    if |r.levels| >= depth {
      assert ns[k..|ns|] == last;
      StretchDirected(p, ns, k, |ns|, FathomBounds(1), r.seen, open);
    } else {
      NothingLeft(p, ns, last, r.seen, open);
    }
  }

  lemma WalkDirected(p: Plane, ns: seq<NodeId>, k: nat, open: Tally)
    requires p.Valid() && NoDup(ns) && k <= |ns| && Elems(ns) <= p.nodes
    requires open == CloseAll(p, p.nodes, EMPTY, Leads(p, ns[0..k], FathomBounds(1)))
    ensures Turned(p, ns, p.nodes, k, open)
  {
    assert Turned(p, ns, p.nodes, 0, EMPTY);
    StretchDirected(p, ns, 0, k, FathomBounds(1), p.nodes, EMPTY);
  }

  lemma NothingLeft(p: Plane, ns: seq<NodeId>, last: seq<NodeId>, seen: set<NodeId>, open: Tally)
    requires p.Valid() && Turned(p, ns, seen, |ns|, open) && forall n :: n in last ==> n in ns
    ensures CloseAll(p, seen, open, Leads(p, last, FathomBounds(1))) == open
  {
    FrontierEdges(p, last, 1);
    assert ns[..|ns|] == ns;
    CloseIdle(p, seen, open, Leads(p, last, FathomBounds(1)));
  }

  // ---- the verb ------------------------------------------------------------

  /** Counted, exactly per type and per node, are the edges inside the region and those at a node walked
      from. These are the edges inside and no others exactly when no more nodes than the budget lie
      within the depth. */
  ghost predicate MakesUp(p: Plane, ball: Balls, seed: NodeId, b: Bounds, r: Region, t: Tally) {
    && IsNearest(ball, b, r) && IsWhole(ball, b, r)
    && Exact(p, t) && Directed(p, [seed] + Flatten(r.levels), t)
    && t.counted == Induced(p, r.seen) + Incident(p, WalkedFrom(seed, b.depth, r))
    && (t.counted == Induced(p, r.seen) <==> !r.budgetHit)
    && (!r.budgetHit && |r.levels| < b.depth ==> Incident(p, r.seen) == Induced(p, r.seen))
  }

  ghost predicate Joined(p: Plane, u: NodeId, v: NodeId) {
    exists e :: e in p.edges && ((p.edges[e].src == u && p.edges[e].dst == v) || (p.edges[e].src == v && p.edges[e].dst == u))
  }

  /** One edge, followed either way. */
  ghost function Joins(p: Plane): Links {
    (u: NodeId, v: NodeId) => Joined(p, u, v)
  }

  /** The region is the nearest nodes by routes of `link`, at most `depth` hops and at most the budget of
      them, in groups of equal distance: all of them exactly when they fit the budget. */
  ghost predicate IsRegion(p: Plane, link: Links, seed: NodeId, depth: nat, r: Region) {
    && |r.levels| <= depth && |r.seen| <= FATHOM_BUDGET
    && r.seen == {seed} + Elems(Flatten(r.levels)) && NoDup([seed] + Flatten(r.levels))
    && AreDistances(link, seed, r)
    && NearestFirst(link, seed, r.seen)
    && r.seen <= Around(p, link, seed, depth)
    && (r.budgetHit <==> |Around(p, link, seed, depth)| > FATHOM_BUDGET)
    && (!r.budgetHit ==> r.seen == Around(p, link, seed, depth))
  }

  /** Each group is the nodes held at its distance. */
  ghost predicate AreDistances(link: Links, seed: NodeId, r: Region) {
    forall i :: 0 <= i < |r.levels| ==> IsGroup(link, seed, r.seen, r.levels[i], i + 1)
  }

  ghost predicate IsGroup(link: Links, seed: NodeId, seen: set<NodeId>, level: seq<NodeId>, d: nat) {
    forall n :: n in level <==> n in seen && HopsAway(link, seed, n, d)
  }

  /** No node held is farther than one left out. */
  ghost predicate NearestFirst(link: Links, seed: NodeId, seen: set<NodeId>) {
    forall held, out, d: nat :: held in seen && out !in seen && WithinHops(link, seed, out, d) ==> WithinHops(link, seed, held, d)
  }

  /** Of each type counted, out are the edges whose source stands no later than their target in the order
      walked, in are the rest. Counted are the edges inside the region and those at a node walked from;
      the edges inside and no others exactly when all nodes within the depth fit the budget; and short of
      the depth, no edge leaves. */
  ghost predicate IsMakeup(p: Plane, seed: NodeId, depth: nat, r: Region, t: Tally) {
    && IsRegion(p, Joins(p), seed, depth, r)
    && Exact(p, t) && Directed(p, [seed] + Flatten(r.levels), t)
    && t.counted == Induced(p, r.seen) + Incident(p, WalkedFrom(seed, depth, r))
    && (t.counted == Induced(p, r.seen) <==> |Around(p, Joins(p), seed, depth)| <= FATHOM_BUDGET)
    && (!r.budgetHit && |r.levels| < depth ==> Incident(p, r.seen) == Induced(p, r.seen))
  }

  method RegionMakeup(p: Plane, seed: NodeId, depth: nat) returns (r: Region, t: Tally)
    requires p.Valid() && seed in p.nodes
    ensures forall k :: DepthFor(depth, k) ==> IsMakeup(p, seed, k, r, t)
  {
    var walked := Walk(p, seed, FathomBounds(depth), FathomVisitor(p), EMPTY);
    r := walked.region;
    t := CloseRegion(p, r, seed, walked.state);
    MakeupFound(p, seed, depth, walked, t);
    MakeupByRoutes(p, seed, depth, r, t);
  }

  lemma MakeupFound(p: Plane, seed: NodeId, depth: nat, walked: Walked<Tally>, t: Tally)
    requires FathomNet(p, seed, depth).Valid()
    requires walked == WalkSpec(p, seed, FathomBounds(depth), FathomVisitor(p), EMPTY)
    requires t == CloseAll(p, walked.region.seen, walked.state, Leads(p, Frontier(seed, walked.region.levels), FathomBounds(1)))
    ensures MakesUp(p, FathomNet(p, seed, depth).Ball, seed, FathomBounds(depth), walked.region, t)
  {
    var r := walked.region;
    RegionIsNearest(FathomNet(p, seed, depth), FathomVisitor(p), EMPTY);
    WalkOpen(p, seed, depth, walked);
    if !r.budgetHit && |r.levels| < FathomBounds(depth).depth {
      EndsTogether(p, seed, depth, r);
    }
    Closes(p, seed, FathomBounds(depth).depth, r, walked.state, t);
    MakeupDirected(p, seed, depth, walked, t);
  }

  lemma MakeupDirected(p: Plane, seed: NodeId, depth: nat, walked: Walked<Tally>, t: Tally)
    requires FathomNet(p, seed, depth).Valid()
    requires walked == WalkSpec(p, seed, FathomBounds(depth), FathomVisitor(p), EMPTY)
    requires IsNearest(FathomNet(p, seed, depth).Ball, FathomBounds(depth), walked.region)
    requires IsWhole(FathomNet(p, seed, depth).Ball, FathomBounds(depth), walked.region)
    requires t == CloseAll(p, walked.region.seen, walked.state, Leads(p, Frontier(seed, walked.region.levels), FathomBounds(1)))
    ensures Directed(p, [seed] + Flatten(walked.region.levels), t)
  {
    var r := walked.region;
    WalkFolds(p, seed, depth, walked);
    RegionOrder(p, seed, depth, r);
    ClosesDirected(p, seed, FathomBounds(depth).depth, r, walked.state, t);
  }

  lemma WalkFolds(p: Plane, seed: NodeId, depth: nat, walked: Walked<Tally>)
    requires p.Valid() && walked == WalkSpec(p, seed, FathomBounds(depth), FathomVisitor(p), EMPTY)
    ensures walked.state ==
            CloseAll(p, p.nodes, EMPTY, Leads(p, WalkOrder(seed, FathomBounds(depth).depth, walked.region.levels), FathomBounds(1)))
  {
    WalkTallies(p, seed, depth, [], Start(seed, EMPTY));
    SameLeads(p, WalkOrder(seed, FathomBounds(depth).depth, walked.region.levels), FathomBounds(depth), FathomBounds(1));
  }

  lemma RegionOrder(p: Plane, seed: NodeId, depth: nat, r: Region)
    requires FathomNet(p, seed, depth).Valid()
    requires IsNearest(FathomNet(p, seed, depth).Ball, FathomBounds(depth), r)
    requires IsWhole(FathomNet(p, seed, depth).Ball, FathomBounds(depth), r)
    ensures NoDup([seed] + Flatten(r.levels)) && Elems([seed] + Flatten(r.levels)) == r.seen && r.seen <= p.nodes
  {
    var net := FathomNet(p, seed, depth);
    assert net.Ball(0) == {seed};
    BallsGrowAndSettle(net);
    OrderHeld(net.Ball, seed, net.b, r);
    RegionInPlane(net, r);
  }

  lemma OrderHeld(ball: Balls, seed: NodeId, b: Bounds, r: Region)
    requires Growing(ball) && ball(0) == {seed} && IsNearest(ball, b, r) && IsWhole(ball, b, r)
    ensures NoDup([seed] + Flatten(r.levels)) && Elems([seed] + Flatten(r.levels)) == r.seen
  {
    OrderNoDup(ball, seed, r.levels, r.seen);
    ElemsOfConcat([seed], Flatten(r.levels));
  }

  lemma JoinsAreLinks(p: Plane, seed: NodeId, depth: nat)
    ensures SameLinks(FathomNet(p, seed, depth), Joins(p))
  {
    var net := FathomNet(p, seed, depth);
    forall u, v
      ensures net.Linked(u, v) <==> Joined(p, u, v)
    {
      if Joined(p, u, v) {
        var e :| e in p.edges && ((p.edges[e].src == u && p.edges[e].dst == v) || (p.edges[e].src == v && p.edges[e].dst == u));
        var l := Lead(u, if p.edges[e].src == u && p.edges[e].dst == v then Out else In, v, e);
        assert IsLead(p, l, net.b.dirs, net.b.ty) && net.keep(l);
      }
    }
  }

  /** What the balls say, said of routes. */
  lemma MakeupByRoutes(p: Plane, seed: NodeId, depth: nat, r: Region, t: Tally)
    requires FathomNet(p, seed, depth).Valid()
    requires MakesUp(p, FathomNet(p, seed, depth).Ball, seed, FathomBounds(depth), r, t)
    ensures forall k :: DepthFor(depth, k) ==> IsMakeup(p, seed, k, r, t)
  {
    BallsOfJoins(p, seed, depth);
    MakeupMeasured(p, FathomNet(p, seed, depth).Ball, Joins(p), seed, FathomBounds(depth), r, t);
  }

  lemma BallsOfJoins(p: Plane, seed: NodeId, depth: nat)
    requires FathomNet(p, seed, depth).Valid()
    ensures var ball := FathomNet(p, seed, depth).Ball;
            Growing(ball) && ball(0) == {seed} && Measures(ball, Joins(p), seed) && ball(FathomBounds(depth).depth) <= p.nodes
  {
    var net := FathomNet(p, seed, depth);
    assert net.Ball(0) == {seed};
    JoinsAreLinks(p, seed, depth);
    BallsMeasure(net, Joins(p));
    net.BallInPlane(net.b.depth);
  }

  lemma MakeupMeasured(p: Plane, ball: Balls, link: Links, seed: NodeId, b: Bounds, r: Region, t: Tally)
    requires Growing(ball) && ball(0) == {seed} && Measures(ball, link, seed) && ball(b.depth) <= p.nodes && link == Joins(p)
    requires MakesUp(p, ball, seed, b, r, t) && b.budget == FATHOM_BUDGET
    ensures IsMakeup(p, seed, b.depth, r, t)
  {
    RegionByRoutes(p, ball, link, seed, b, r);
  }

  lemma RegionByRoutes(p: Plane, ball: Balls, link: Links, seed: NodeId, b: Bounds, r: Region)
    requires Growing(ball) && ball(0) == {seed} && Measures(ball, link, seed) && ball(b.depth) <= p.nodes
    requires IsNearest(ball, b, r) && IsWhole(ball, b, r) && b.budget == FATHOM_BUDGET
    ensures IsRegion(p, link, seed, b.depth, r)
  {
    OrderHeld(ball, seed, b, r);
    BallIsAround(p, ball, link, seed, b.depth);
    LevelsByRoutes(ball, link, seed, r);
    NearestByRoutes(ball, link, seed, r.seen);
  }

  lemma LevelsByRoutes(ball: Balls, link: Links, seed: NodeId, r: Region)
    requires Measures(ball, link, seed) && forall i :: 0 <= i < |r.levels| ==> IsRing(ball, r.levels[i], i, r.seen)
    ensures AreDistances(link, seed, r)
  {
    forall i | 0 <= i < |r.levels|
      ensures IsGroup(link, seed, r.seen, r.levels[i], i + 1)
    {
      LevelDistance(ball, link, seed, r.levels[i], i, r.seen);
    }
  }

  lemma LevelDistance(ball: Balls, link: Links, seed: NodeId, level: seq<NodeId>, i: nat, seen: set<NodeId>)
    requires Measures(ball, link, seed) && IsRing(ball, level, i, seen)
    ensures IsGroup(link, seed, seen, level, i + 1)
  {
    forall n
      ensures n in level <==> n in seen && HopsAway(link, seed, n, i + 1)
    {
      RingIff(ball, link, seed, i + 1, n);
      assert n in level <==> n in Elems(level);
    }
  }

  lemma NearestByRoutes(ball: Balls, link: Links, seed: NodeId, seen: set<NodeId>)
    requires Growing(ball) && Measures(ball, link, seed) && Straddles(ball, seen)
    ensures NearestFirst(link, seed, seen)
  {
    forall held, out, d: nat | held in seen && out !in seen && WithinHops(link, seed, out, d)
      ensures WithinHops(link, seed, held, d)
    {
      LeftOutIsFarther(ball, seen, held, out, d);
    }
  }

  lemma WalkOpen(p: Plane, seed: NodeId, depth: nat, r: Walked<Tally>)
    requires FathomNet(p, seed, depth).Valid()
    requires r == WalkSpec(p, seed, FathomBounds(depth), FathomVisitor(p), EMPTY)
    ensures Open(p, seed, FathomBounds(depth).depth, r.region, r.state) && Exact(p, r.state)
  {
    EmptyIsExact(p);
    WalkExact(p, seed, depth, [], Start(seed, EMPTY));
    AtStart(FathomNet(p, seed, depth), EMPTY);
    assert Start(seed, EMPTY).seen - Elems([seed]) == {};
    WalkCounts(p, seed, depth, [], Start(seed, EMPTY));
  }

  lemma EmptyIsExact(p: Plane)
    ensures Exact(p, EMPTY)
  {
    assert Totals(EMPTY.edges) == map[];
    assert forall ty :: OfType(p, {}, ty) == {};
    assert forall n :: From(p, {}, n) == {} && To(p, {}, n) == {};
  }

  /** The closing pass leaves exactly the induced subgraph, or that and a refused node's edges. */
  lemma Closes(p: Plane, seed: NodeId, depth: nat, r: Region, open: Tally, t: Tally)
    requires p.Valid() && Open(p, seed, depth, r, open) && Exact(p, open)
    requires t == CloseAll(p, r.seen, open, Leads(p, Frontier(seed, r.levels), FathomBounds(1)))
    ensures Exact(p, t)
    ensures t.counted == Induced(p, r.seen) + Incident(p, WalkedFrom(seed, depth, r))
    ensures t.counted == Induced(p, r.seen) <==> !r.budgetHit
  {
    var last := Frontier(seed, r.levels);
    FrontierEdges(p, last, 1);
    CloseAllExact(p, r.seen, open, Leads(p, last, FathomBounds(1)));
    CloseAllCounts(p, r.seen, open, Leads(p, last, FathomBounds(1)));
    ClosedEdges(p, last, r.seen);
    ClosesSets(Incident(p, r.seen - Elems(last)), Incident(p, Elems(last)), Induced(p, r.seen), open.counted, t.counted) by {
      IncidentUnion(p, r.seen, Elems(last));
      assert Induced(p, r.seen) <= Incident(p, r.seen);
      assert Incident(p, r.seen - Elems(last)) <= Incident(p, WalkedFrom(seed, depth, r));
    }
  }

  lemma ClosesSets<T>(behind: set<T>, last: set<T>, inside: set<T>, open: set<T>, closed: set<T>)
    requires inside <= behind + last && behind <= open && closed == open + last * inside
    ensures closed == inside + open && (closed == inside <==> open <= inside)
  {
  }

  /** A region short of the asked depth, with nothing refused, is closed under neighbours. */
  lemma EndsTogether(p: Plane, seed: NodeId, depth: nat, r: Region)
    requires FathomNet(p, seed, depth).Valid()
    requires IsNearest(FathomNet(p, seed, depth).Ball, FathomBounds(depth), r)
    requires IsWhole(FathomNet(p, seed, depth).Ball, FathomBounds(depth), r)
    requires !r.budgetHit && |r.levels| < FathomBounds(depth).depth
    ensures Incident(p, r.seen) == Induced(p, r.seen)
  {
    var net := FathomNet(p, seed, depth);
    net.LinksAdvance();
    forall l | IsLead(p, l, [Out, In], None)
      ensures net.Linked(l.from, l.node)
    {
    }
    ClosedUnder(p, net.Ball, net.Linked, net.b.depth, r.seen);
  }

  lemma ClosedUnder(p: Plane, ball: Balls, link: Links, d: nat, seen: set<NodeId>)
    requires Advances(ball, link) && seen <= ball(d) && ball(d + 1) <= seen
    requires forall l :: IsLead(p, l, [Out, In], None) ==> link(l.from, l.node)
    ensures Incident(p, seen) == Induced(p, seen)
  {
    forall e | e in Incident(p, seen)
      ensures e in Induced(p, seen)
    {
      var dir := if p.edges[e].src in seen then Out else In;
      var l := Lead(p.edges[e].Near(dir), dir, p.edges[e].Far(dir), e);
      assert IsLead(p, l, [Out, In], None);
    }
  }
}
