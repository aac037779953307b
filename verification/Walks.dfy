/** The one bounded breadth-first walk under every verb: the imperative `Walk`,
    proved equal to a fold over the hops it offers. */
module Walks {
  import opened Collections
  import opened Planes

  /** What a visitor answers a hop with. */
  datatype Step = Take | Skip | Stop

  /** One hop before the walk knows whether its node is held. */
  datatype Lead = Lead(from: NodeId, dir: Dir, node: NodeId, edge: EdgeId)

  datatype Hop = Hop(lead: Lead, unseen: bool)

  datatype Bounds = Bounds(dirs: seq<Dir>, ty: Option<string>, depth: nat, budget: nat)

  /** `usize::MAX` on a 64-bit target. */
  const USIZE_MAX: nat := 0xFFFF_FFFF_FFFF_FFFF

  datatype Region = Region(levels: seq<seq<NodeId>>, seen: set<NodeId>, budgetHit: bool)

  /** A walk's result and the state its visitor ended in. */
  datatype Walked<S> = Walked(region: Region, state: S, stopped: bool)

  /** A walk in the middle of a level. */
  datatype Sweep<S> = Sweep(seen: set<NodeId>, next: seq<NodeId>, hit: bool, stopped: bool, state: S)

  type Visitor<!S> = (S, Hop) -> (S, Step)

  // ---- the leads a frontier offers, in the order it offers them -----------

  function LeadsTo(from: NodeId, dir: Dir, nbs: seq<Neighbor>): (r: seq<Lead>)
    ensures |r| == |nbs|
    ensures forall i :: 0 <= i < |nbs| ==> r[i] == Lead(from, dir, nbs[i].node, nbs[i].edge)
  {
    seq(|nbs|, i requires 0 <= i < |nbs| => Lead(from, dir, nbs[i].node, nbs[i].edge))
  }

  function NodeLeads(p: Plane, from: NodeId, dirs: seq<Dir>, ty: Option<string>): seq<Lead>
    requires p.Valid()
  {
    if dirs == [] then []
    else
      var dir := dirs[|dirs| - 1];
      NodeLeads(p, from, dirs[..|dirs| - 1], ty) + LeadsTo(from, dir, p.Neighbors(from, dir, ty))
  }

  function Leads(p: Plane, frontier: seq<NodeId>, b: Bounds): seq<Lead>
    requires p.Valid()
  {
    if frontier == [] then []
    else Leads(p, frontier[..|frontier| - 1], b) + NodeLeads(p, frontier[|frontier| - 1], b.dirs, b.ty)
  }

  /** A lead is an edge that leaves its `from` end in a swept direction, of the wanted type. */
  ghost predicate IsLead(p: Plane, l: Lead, dirs: seq<Dir>, ty: Option<string>) {
    && l.dir in dirs && l.edge in p.edges
    && p.edges[l.edge].Near(l.dir) == l.from && p.edges[l.edge].Far(l.dir) == l.node
    && Matches(p.edges[l.edge], ty)
  }

  lemma LeadsToIff(from: NodeId, dir: Dir, nbs: seq<Neighbor>, l: Lead)
    ensures l in LeadsTo(from, dir, nbs) <==>
            l.from == from && l.dir == dir && Neighbor(l.node, l.edge) in nbs
  {
    if l.from == from && l.dir == dir && Neighbor(l.node, l.edge) in nbs {
      var i :| 0 <= i < |nbs| && nbs[i] == Neighbor(l.node, l.edge);
      assert LeadsTo(from, dir, nbs)[i] == l;
    }
  }

  lemma {:induction false} NodeLeadsIff(p: Plane, from: NodeId, dirs: seq<Dir>, ty: Option<string>, l: Lead)
    requires p.Valid()
    ensures l in NodeLeads(p, from, dirs, ty) <==> l.from == from && IsLead(p, l, dirs, ty)
  {
    if dirs != [] {
      var init, dir := dirs[..|dirs| - 1], dirs[|dirs| - 1];
      assert dirs == init + [dir];
      NodeLeadsIff(p, from, init, ty, l);
      LeadsToIff(from, dir, p.Neighbors(from, dir, ty), l);
      p.NeighborsIff(from, dir, ty, Neighbor(l.node, l.edge));
    }
  }

  lemma {:induction false} LeadsIff(p: Plane, frontier: seq<NodeId>, b: Bounds, l: Lead)
    requires p.Valid()
    ensures l in Leads(p, frontier, b) <==> l.from in frontier && IsLead(p, l, b.dirs, b.ty)
  {
    if frontier != [] {
      var init, n := frontier[..|frontier| - 1], frontier[|frontier| - 1];
      assert frontier == init + [n];
      LeadsIff(p, init, b, l);
      NodeLeadsIff(p, n, b.dirs, b.ty, l);
    }
  }

  // ---- the walk as a fold --------------------------------------------------

  /** Offer one hop. A stopped sweep offers nothing more. */
  function Offer<S>(visit: Visitor<S>, budget: nat, w: Sweep<S>, l: Lead): Sweep<S> {
    if w.stopped then w
    else
      var unseen := l.node !in w.seen;
      var (s, step) := visit(w.state, Hop(l, unseen));
      match step
      case Stop => w.(state := s, stopped := true)
      case Skip => w.(state := s)
      case Take =>
        if !unseen then w.(state := s)
        else if |w.seen| >= budget then w.(state := s, hit := true)
        else w.(state := s, seen := w.seen + {l.node}, next := w.next + [l.node])
  }

  function OfferAll<S>(visit: Visitor<S>, budget: nat, w: Sweep<S>, leads: seq<Lead>): Sweep<S> {
    if leads == [] then w
    else Offer(visit, budget, OfferAll(visit, budget, w, leads[..|leads| - 1]), leads[|leads| - 1])
  }

  function Frontier(seed: NodeId, levels: seq<seq<NodeId>>): seq<NodeId> {
    if levels == [] then [seed] else levels[|levels| - 1]
  }

  function SweepLevel<S>(p: Plane, seed: NodeId, b: Bounds, visit: Visitor<S>,
                         levels: seq<seq<NodeId>>, w: Sweep<S>): Sweep<S>
    requires p.Valid()
  {
    OfferAll(visit, b.budget, w.(next := []), Leads(p, Frontier(seed, levels), b))
  }

  function Finish<S>(levels: seq<seq<NodeId>>, w: Sweep<S>): Walked<S> {
    Walked(Region(levels, w.seen, w.hit), w.state, w.stopped)
  }

  function WalkFrom<S>(p: Plane, seed: NodeId, b: Bounds, visit: Visitor<S>,
                       levels: seq<seq<NodeId>>, w: Sweep<S>): Walked<S>
    requires p.Valid()
    decreases b.depth - |levels|
  {
    if |levels| >= b.depth then Finish(levels, w)
    else
      var w' := SweepLevel(p, seed, b, visit, levels, w);
      if w'.stopped || w'.next == [] then Finish(levels, w')
      else WalkFrom(p, seed, b, visit, levels + [w'.next], w')
  }

  function Start<S>(seed: NodeId, s: S): Sweep<S> {
    Sweep({seed}, [], false, false, s)
  }

  function WalkSpec<S>(p: Plane, seed: NodeId, b: Bounds, visit: Visitor<S>, s: S): Walked<S>
    requires p.Valid()
  {
    WalkFrom(p, seed, b, visit, [], Start(seed, s))
  }

  // ---- the walk as the source runs it --------------------------------------

  lemma OfferAllSnoc<S>(visit: Visitor<S>, budget: nat, w: Sweep<S>, done: seq<Lead>, l: Lead)
    ensures OfferAll(visit, budget, w, done + [l])
         == Offer(visit, budget, OfferAll(visit, budget, w, done), l)
  {
    assert (done + [l])[..|done + [l]| - 1] == done;
  }

  /** Nothing is offered after a stop. */
  lemma {:induction false} OfferAllStopped<S>(visit: Visitor<S>, budget: nat, w: Sweep<S>,
                                              done: seq<Lead>, more: seq<Lead>)
    requires OfferAll(visit, budget, w, done).stopped
    ensures OfferAll(visit, budget, w, done + more) == OfferAll(visit, budget, w, done)
  {
    if more == [] {
      assert done + more == done;
    } else {
      var k := |more| - 1;
      OfferAllStopped(visit, budget, w, done, more[..k]);
      assert done + more == (done + more[..k]) + [more[k]];
      OfferAllSnoc(visit, budget, w, done + more[..k], more[k]);
    }
  }

  /** One level: the three inner loops of the walk, with the break out of all of them. */
  method SweepFrontier<S>(p: Plane, frontier: seq<NodeId>, b: Bounds, visit: Visitor<S>, w0: Sweep<S>)
    returns (w: Sweep<S>)
    requires p.Valid() && !w0.stopped
    ensures w == OfferAll(visit, b.budget, w0, Leads(p, frontier, b))
  {
    w := w0;
    var i := 0;
    assert frontier[..0] == [];
    while i < |frontier|
      invariant 0 <= i <= |frontier|
      invariant w == OfferAll(visit, b.budget, w0, Leads(p, frontier[..i], b))
      invariant !w.stopped
    {
      var from := frontier[i];
      ghost var before := Leads(p, frontier[..i], b);
      NextFrom(p, frontier, b, i);
      w := SweepNode(p, from, b, visit, w0, before, w);
      i := i + 1;
      if w.stopped {
        LeadsPrefix(p, frontier, b, i);
        StoppedOn(visit, b.budget, w0, Leads(p, frontier[..i], b), Leads(p, frontier, b));
        return;
      }
    }
    assert frontier[..i] == frontier;
  }

  lemma NextFrom(p: Plane, frontier: seq<NodeId>, b: Bounds, i: nat)
    requires p.Valid() && i < |frontier|
    ensures Leads(p, frontier[..i + 1], b) == Leads(p, frontier[..i], b) + NodeLeads(p, frontier[i], b.dirs, b.ty)
  {
    assert frontier[..i + 1][..i] == frontier[..i];
  }

  lemma {:induction false} LeadsPrefix(p: Plane, frontier: seq<NodeId>, b: Bounds, i: nat)
    requires p.Valid() && i <= |frontier|
    ensures Leads(p, frontier[..i], b) <= Leads(p, frontier, b)
    decreases |frontier|
  {
    if i == |frontier| {
      assert frontier[..i] == frontier;
    } else {
      var init := frontier[..|frontier| - 1];
      LeadsPrefix(p, init, b, i);
      assert init[..i] == frontier[..i];
    }
  }

  /** One frontier node, every direction; `before` is what the level offered ahead of it. */
  method SweepNode<S>(p: Plane, from: NodeId, b: Bounds, visit: Visitor<S>,
                      ghost w0: Sweep<S>, ghost before: seq<Lead>, w1: Sweep<S>)
    returns (w: Sweep<S>)
    requires p.Valid() && !w1.stopped
    requires w1 == OfferAll(visit, b.budget, w0, before)
    ensures w == OfferAll(visit, b.budget, w0, before + NodeLeads(p, from, b.dirs, b.ty))
  {
    w := w1;
    var j := 0;
    assert b.dirs[..0] == [] && before + NodeLeads(p, from, [], b.ty) == before;
    while j < |b.dirs|
      invariant 0 <= j <= |b.dirs|
      invariant w == OfferAll(visit, b.budget, w0, before + NodeLeads(p, from, b.dirs[..j], b.ty))
      invariant !w.stopped
    {
      ghost var here := before + NodeLeads(p, from, b.dirs[..j], b.ty);
      NextDir(p, from, b.dirs, b.ty, j, before);
      w := SweepNeighbors(from, b.dirs[j], p.Neighbors(from, b.dirs[j], b.ty), b.budget, visit, w0, here, w);
      j := j + 1;
      if w.stopped {
        NodeLeadsPrefix(p, from, b.dirs, b.ty, j);
        StoppedEarly(visit, b.budget, w0, before, NodeLeads(p, from, b.dirs[..j], b.ty),
                     NodeLeads(p, from, b.dirs, b.ty));
        return;
      }
    }
    assert b.dirs[..j] == b.dirs;
  }

  lemma NextDir(p: Plane, from: NodeId, dirs: seq<Dir>, ty: Option<string>, j: nat, before: seq<Lead>)
    requires p.Valid() && j < |dirs|
    ensures before + NodeLeads(p, from, dirs[..j + 1], ty)
         == (before + NodeLeads(p, from, dirs[..j], ty)) + LeadsTo(from, dirs[j], p.Neighbors(from, dirs[j], ty))
  {
    var now := LeadsTo(from, dirs[j], p.Neighbors(from, dirs[j], ty));
    NodeLeadsSnoc(p, from, dirs, ty, j);
    Assoc(before, NodeLeads(p, from, dirs[..j], ty), now);
  }

  lemma NodeLeadsSnoc(p: Plane, from: NodeId, dirs: seq<Dir>, ty: Option<string>, j: nat)
    requires p.Valid() && j < |dirs|
    ensures NodeLeads(p, from, dirs[..j + 1], ty)
         == NodeLeads(p, from, dirs[..j], ty) + LeadsTo(from, dirs[j], p.Neighbors(from, dirs[j], ty))
  {
    assert dirs[..j + 1][..j] == dirs[..j];
  }

  lemma StoppedEarly<S>(visit: Visitor<S>, budget: nat, w: Sweep<S>, before: seq<Lead>, done: seq<Lead>, all: seq<Lead>)
    requires done <= all && OfferAll(visit, budget, w, before + done).stopped
    ensures OfferAll(visit, budget, w, before + all) == OfferAll(visit, budget, w, before + done)
  {
    assert before + done <= before + all;
    StoppedOn(visit, budget, w, before + done, before + all);
  }

  lemma StoppedOn<S>(visit: Visitor<S>, budget: nat, w: Sweep<S>, done: seq<Lead>, all: seq<Lead>)
    requires done <= all && OfferAll(visit, budget, w, done).stopped
    ensures OfferAll(visit, budget, w, all) == OfferAll(visit, budget, w, done)
  {
    assert all == done + all[|done|..];
    OfferAllStopped(visit, budget, w, done, all[|done|..]);
  }

  /** One adjacency list. */
  method SweepNeighbors<S>(from: NodeId, dir: Dir, nbs: seq<Neighbor>, budget: nat, visit: Visitor<S>,
                           ghost w0: Sweep<S>, ghost before: seq<Lead>, w1: Sweep<S>)
    returns (w: Sweep<S>)
    requires !w1.stopped
    requires w1 == OfferAll(visit, budget, w0, before)
    ensures w == OfferAll(visit, budget, w0, before + LeadsTo(from, dir, nbs))
  {
    w := w1;
    var k := 0;
    assert before + LeadsTo(from, dir, nbs[..0]) == before;
    while k < |nbs|
      invariant 0 <= k <= |nbs|
      invariant w == OfferAll(visit, budget, w0, before + LeadsTo(from, dir, nbs[..k]))
      invariant !w.stopped
    {
      var l := Lead(from, dir, nbs[k].node, nbs[k].edge);
      NextLead(visit, budget, w0, before, from, dir, nbs, k);
      w := VisitHop(budget, visit, w, l);
      k := k + 1;
      if w.stopped {
        StoppedEarly(visit, budget, w0, before, LeadsTo(from, dir, nbs[..k]), LeadsTo(from, dir, nbs));
        return;
      }
    }
    assert nbs[..k] == nbs;
  }

  lemma NextLead<S>(visit: Visitor<S>, budget: nat, w0: Sweep<S>, before: seq<Lead>,
                    from: NodeId, dir: Dir, nbs: seq<Neighbor>, k: nat)
    requires k < |nbs|
    ensures OfferAll(visit, budget, w0, before + LeadsTo(from, dir, nbs[..k + 1]))
         == Offer(visit, budget, OfferAll(visit, budget, w0, before + LeadsTo(from, dir, nbs[..k])),
                  Lead(from, dir, nbs[k].node, nbs[k].edge))
  {
    var l := Lead(from, dir, nbs[k].node, nbs[k].edge);
    assert before + LeadsTo(from, dir, nbs[..k + 1]) == (before + LeadsTo(from, dir, nbs[..k])) + [l];
    OfferAllSnoc(visit, budget, w0, before + LeadsTo(from, dir, nbs[..k]), l);
  }

  /** What the walk does with one hop. */
  method VisitHop<S>(budget: nat, visit: Visitor<S>, w0: Sweep<S>, l: Lead) returns (w: Sweep<S>)
    requires !w0.stopped
    ensures w == Offer(visit, budget, w0, l)
  {
    var unseen := l.node !in w0.seen;
    var (s, step) := visit(w0.state, Hop(l, unseen));
    w := w0.(state := s);
    match step {
      case Skip =>
      case Stop => w := w.(stopped := true);
      case Take =>
        if unseen {
          if |w.seen| >= budget {
            w := w.(hit := true);
          } else {
            w := w.(seen := w.seen + {l.node}, next := w.next + [l.node]);
          }
        }
    }
  }

  lemma {:induction false} NodeLeadsPrefix(p: Plane, from: NodeId, dirs: seq<Dir>, ty: Option<string>, j: nat)
    requires p.Valid() && j <= |dirs|
    ensures NodeLeads(p, from, dirs[..j], ty) <= NodeLeads(p, from, dirs, ty)
    decreases |dirs|
  {
    if j == |dirs| {
      assert dirs[..j] == dirs;
    } else {
      var init := dirs[..|dirs| - 1];
      NodeLeadsPrefix(p, from, init, ty, j);
      assert init[..j] == dirs[..j];
    }
  }

  method Walk<S>(p: Plane, seed: NodeId, b: Bounds, visit: Visitor<S>, s0: S) returns (r: Walked<S>)
    requires p.Valid()
    ensures r == WalkSpec(p, seed, b, visit, s0)
  {
    var levels: seq<seq<NodeId>> := [];
    var w := Start(seed, s0);
    while |levels| < b.depth
      invariant |levels| <= b.depth && !w.stopped
      invariant WalkFrom(p, seed, b, visit, levels, w) == WalkSpec(p, seed, b, visit, s0)
      decreases b.depth - |levels|
    {
      var frontier := Frontier(seed, levels);
      w := SweepFrontier(p, frontier, b, visit, w.(next := []));
      if w.stopped || w.next == [] {
        break;
      }
      levels := levels + [w.next];
    }
    r := Finish(levels, w);
  }
}
