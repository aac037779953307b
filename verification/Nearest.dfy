/** What a walk's region is: distance classes, the nearest part when the budget
    refuses a node, and exactly when it refuses one. */
module Nearest {
  import opened Collections
  import opened Planes
  import opened Walks

  /** The graph one walk sees: the plane, the seed, the bounds, and the leads its visitor takes. */
  datatype Net = Net(plane: Plane, seed: NodeId, b: Bounds, keep: Lead -> bool) {
    ghost predicate Valid() {
      plane.Valid() && seed in plane.nodes
    }

    ghost predicate Linked(u: NodeId, v: NodeId) {
      exists l :: IsLead(plane, l, b.dirs, b.ty) && keep(l) && l.from == u && l.node == v
    }

    /** Nodes at most `k` hops from the seed. */
    ghost function Ball(k: nat): set<NodeId> {
      if k == 0 then {seed}
      else Ball(k - 1) + set v | v in plane.nodes && exists u :: u in Ball(k - 1) && Linked(u, v)
    }

    /** `path` runs along taken hops. */
    ghost predicate IsPath(path: seq<NodeId>) {
      && path != []
      && forall i :: 0 <= i < |path| - 1 ==> Linked(path[i], path[i + 1])
    }

    lemma BallMonotone(i: nat, k: nat)
      requires i <= k
      ensures Ball(i) <= Ball(k)
      decreases k
    {
      if i < k {
        BallMonotone(i, k - 1);
      }
    }

    lemma {:induction false} BallInPlane(k: nat)
      requires Valid()
      ensures Ball(k) <= plane.nodes
    {
      if k > 0 {
        BallInPlane(k - 1);
      }
    }

    lemma LinkedInPlane(u: NodeId, v: NodeId)
      requires plane.Valid() && Linked(u, v)
      ensures u in plane.nodes && v in plane.nodes
    {
    }

    lemma BallStep(k: nat, u: NodeId, v: NodeId)
      requires plane.Valid() && u in Ball(k) && Linked(u, v)
      ensures v in Ball(k + 1)
    {
      LinkedInPlane(u, v);
    }

    /** Balls are exactly what paths reach: one direction ... */
    lemma PathStaysInBall(path: seq<NodeId>)
      requires plane.Valid() && IsPath(path) && path[0] == seed
      ensures path[|path| - 1] in Ball(|path| - 1)
    {
      LinksAdvance();
      PathForward(Ball, Linked, path);
    }

    lemma LinksAdvance()
      requires plane.Valid()
      ensures Advances(Ball, Linked)
    {
      forall k: nat, u, v | u in Ball(k) && Linked(u, v)
        ensures v in Ball(k + 1)
      {
        BallStep(k, u, v);
      }
    }

    /** ... and the other. */
    lemma BallHasPath(k: nat, v: NodeId) returns (path: seq<NodeId>)
      requires v in Ball(k)
      ensures IsPath(path) && path[0] == seed && path[|path| - 1] == v && |path| <= k + 1
    {
      forall k: nat, v | k > 0 && v in Ring(Ball, k)
        ensures exists u :: u in Ball(k - 1) && Linked(u, v)
      {
      }
      path := PathBack(Ball, Linked, seed, k, v);
    }

    /** A ball that grows no more holds everything reachable. */
    lemma {:induction false} ClosedBall(k: nat, m: nat)
      requires Ball(k + 1) == Ball(k)
      ensures Ball(m) <= Ball(k)
    {
      if m <= k {
        BallMonotone(m, k);
      } else {
        ClosedBall(k, m - 1);
        assert Ball(m) <= Ball(k + 1);
      }
    }
  }

  /** Nodes within each distance, as a function of the distance. */
  type Balls = nat -> set<NodeId>

  type Links = (NodeId, NodeId) -> bool

  /** Nodes exactly `k` hops from the seed. */
  ghost function Ring(ball: Balls, k: nat): set<NodeId> {
    if k == 0 then ball(0) else ball(k) - ball(k - 1)
  }

  /** Every node first within `k + 1` hops is linked from one within `k`. */
  ghost predicate Rooted(ball: Balls, link: Links, seed: NodeId) {
    && ball(0) == {seed}
    && forall k: nat, v :: k > 0 && v in Ring(ball, k) ==> exists u :: u in ball(k - 1) && link(u, v)
  }

  /** One more hop reaches at most one ball further. */
  ghost predicate Advances(ball: Balls, link: Links) {
    forall k: nat, u, v :: u in ball(k) && link(u, v) ==> v in ball(k + 1)
  }

  lemma {:induction false} PathForward(ball: Balls, link: Links, path: seq<NodeId>)
    requires Advances(ball, link) && path != [] && path[0] in ball(0)
    requires forall i :: 0 <= i < |path| - 1 ==> link(path[i], path[i + 1])
    ensures path[|path| - 1] in ball(|path| - 1)
  {
    if |path| > 1 {
      PathForward(ball, link, path[..|path| - 1]);
      assert link(path[|path| - 2], path[|path| - 1]);
    }
  }

  lemma {:induction false} PathBack(ball: Balls, link: Links, seed: NodeId, k: nat, v: NodeId)
    returns (path: seq<NodeId>)
    requires Rooted(ball, link, seed) && v in ball(k)
    ensures path != [] && path[0] == seed && path[|path| - 1] == v && |path| <= k + 1
    ensures forall i :: 0 <= i < |path| - 1 ==> link(path[i], path[i + 1])
  {
    if k == 0 {
      path := [seed];
    } else if v in ball(k - 1) {
      path := PathBack(ball, link, seed, k - 1, v);
    } else {
      assert v in Ring(ball, k);
      var u :| u in ball(k - 1) && link(u, v);
      var init := PathBack(ball, link, seed, k - 1, u);
      path := init + [v];
    }
  }

  ghost predicate Growing(ball: Balls) {
    forall i: nat, k: nat :: i <= k ==> ball(i) <= ball(k)
  }

  /** A ball that stops growing holds everything reachable. */
  ghost predicate Settles(ball: Balls) {
    forall k: nat, m: nat :: ball(k + 1) == ball(k) ==> ball(m) <= ball(k)
  }

  lemma BallsGrowAndSettle(net: Net)
    ensures Growing(net.Ball) && Settles(net.Ball)
  {
    forall i: nat, k: nat | i <= k
      ensures net.Ball(i) <= net.Ball(k)
    {
      net.BallMonotone(i, k);
    }
    forall k: nat, m: nat | net.Ball(k + 1) == net.Ball(k)
      ensures net.Ball(m) <= net.Ball(k)
    {
      net.ClosedBall(k, m);
    }
  }

  /** The visitor answers unseen hops by their lead alone, until it stops. */
  ghost predicate Filters<S(!new)>(keep: Lead -> bool, visit: Visitor<S>) {
    forall s: S, h: Hop :: h.unseen ==>
      visit(s, h).1.Stop? || (visit(s, h).1.Take? <==> keep(h.lead))
  }

  ghost predicate NeverStops<S(!new)>(visit: Visitor<S>) {
    forall s: S, h: Hop :: !visit(s, h).1.Stop?
  }

  function AtLeastOne(budget: nat): nat {
    if budget == 0 then 1 else budget
  }

  function Flatten(levels: seq<seq<NodeId>>): seq<NodeId> {
    if levels == [] then [] else Flatten(levels[..|levels| - 1]) + levels[|levels| - 1]
  }

  // ---- one level -----------------------------------------------------------

  /** Where a walk stands before it sweeps the next level. */
  ghost predicate AtLevel<S>(ball: Balls, b: Bounds, levels: seq<seq<NodeId>>, w: Sweep<S>) {
    var d := |levels|;
    && d <= b.depth
    && w.seen <= ball(d)
    && (!w.hit ==> w.seen == ball(d))
    && (d > 0 ==> ball(d - 1) <= w.seen && Elems(levels[d - 1]) == w.seen - ball(d - 1))
    && (d == 0 ==> w.seen == ball(0))
    && Budgeted(ball, b, w)
  }

  /** The budget bounds what is held, and a refusal leaves a node out for good. */
  ghost predicate Budgeted<S>(ball: Balls, b: Bounds, w: Sweep<S>) {
    && 1 <= |w.seen| <= AtLeastOne(b.budget)
    && (w.hit ==> |w.seen| >= b.budget && ball(b.depth) - w.seen != {})
  }

  /** Where it stands inside that sweep, after offering `done`. */
  ghost predicate InLevel<S>(ball: Balls, b: Bounds, keep: Lead -> bool, w0: Sweep<S>, done: seq<Lead>, w: Sweep<S>) {
    && w0.seen <= w.seen
    && NoDup(w.next) && Elems(w.next) == w.seen - w0.seen
    && (forall n :: n in w.next ==> exists l :: l in done && keep(l) && l.node == n)
    && (!w.hit && !w.stopped ==> forall l :: l in done && keep(l) ==> l.node in w.seen)
    && (w0.hit ==> w.hit && w.seen == w0.seen)
    && Budgeted(ball, b, w)
  }

  lemma OfferKeeps<S(!new)>(ball: Balls, b: Bounds, keep: Lead -> bool, visit: Visitor<S>,
                            w0: Sweep<S>, done: seq<Lead>, w: Sweep<S>, l: Lead)
    requires Filters(keep, visit)
    requires InLevel(ball, b, keep, w0, done, w)
    requires l.node in ball(b.depth) || !keep(l)
    ensures InLevel(ball, b, keep, w0, done + [l], Offer(visit, b.budget, w, l))
  {
    var w' := Offer(visit, b.budget, w, l);
    assert forall x :: x in done ==> x in done + [l];
    assert l in done + [l];
    if w'.seen != w.seen {
      assert w'.next == w.next + [l.node] && w'.seen == w.seen + {l.node};
      ElemsOfConcat(w.next, [l.node]);
      assert l.node !in Elems(w.next);
    }
  }

  lemma {:induction false} SweepKeeps<S(!new)>(ball: Balls, b: Bounds, keep: Lead -> bool, visit: Visitor<S>,
                                               w0: Sweep<S>, leads: seq<Lead>)
    requires Filters(keep, visit) && w0.next == [] && !w0.stopped && Budgeted(ball, b, w0)
    requires forall l :: l in leads && keep(l) ==> l.node in ball(b.depth)
    ensures InLevel(ball, b, keep, w0, leads, OfferAll(visit, b.budget, w0, leads))
    ensures NeverStops(visit) ==> !OfferAll(visit, b.budget, w0, leads).stopped
  {
    if leads != [] {
      var k := |leads| - 1;
      SweepKeeps(ball, b, keep, visit, w0, leads[..k]);
      OfferKeeps(ball, b, keep, visit, w0, leads[..k], OfferAll(visit, b.budget, w0, leads[..k]), leads[k]);
      assert leads == leads[..k] + [leads[k]];
    }
  }

  /** A lead from the frontier lands within one more hop of the seed. */
  lemma LeadLands<S>(net: Net, levels: seq<seq<NodeId>>, w: Sweep<S>, l: Lead)
    requires net.Valid() && AtLevel(net.Ball, net.b, levels, w)
    requires l in Leads(net.plane, Frontier(net.seed, levels), net.b) && net.keep(l)
    ensures l.from in w.seen && l.from in net.Ball(|levels|) && net.Linked(l.from, l.node)
    ensures l.node in net.Ball(|levels| + 1)
  {
    var f := Frontier(net.seed, levels);
    LeadsIff(net.plane, f, net.b, l);
    assert l.from in Elems(f);
    net.BallStep(|levels|, l.from, l.node);
  }

  /** Sweeping a level with nothing refused completes the next ball. */
  lemma LevelCompletes<S>(net: Net, levels: seq<seq<NodeId>>, w: Sweep<S>, seen: set<NodeId>)
    requires net.Valid() && AtLevel(net.Ball, net.b, levels, w) && !w.hit && w.seen <= seen
    requires forall l :: l in Leads(net.plane, Frontier(net.seed, levels), net.b) && net.keep(l) ==> l.node in seen
    ensures net.Ball(|levels| + 1) <= seen
  {
    var d := |levels|;
    var f := Frontier(net.seed, levels);
    forall v | v in net.Ball(d + 1) && v !in net.Ball(d)
      ensures v in seen
    {
      var u :| u in net.Ball(d) && net.Linked(u, v);
      assert d > 0 ==> u !in net.Ball(d - 1);
      assert u in Elems(f);
      var l :| IsLead(net.plane, l, net.b.dirs, net.b.ty) && net.keep(l) && l.from == u && l.node == v;
      LeadsIff(net.plane, f, net.b, l);
    }
  }

  /** What one sweep adds lies on the next ring. */
  ghost predicate Swept<S>(ball: Balls, b: Bounds, levels: seq<seq<NodeId>>, w: Sweep<S>, w': Sweep<S>) {
    && w'.seen <= ball(|levels| + 1)
    && NoDup(w'.next) && w'.seen == w.seen + Elems(w'.next)
    && Elems(w'.next) !! ball(|levels|)
    && (w.hit ==> w'.hit && w'.next == [])
    && (!w'.stopped && !w'.hit ==> w'.seen == ball(|levels| + 1))
    && Budgeted(ball, b, w')
  }

  lemma LevelSwept<S(!new)>(net: Net, visit: Visitor<S>, levels: seq<seq<NodeId>>, w: Sweep<S>)
    requires net.Valid() && Filters(net.keep, visit) && AtLevel(net.Ball, net.b, levels, w)
    requires !w.stopped && |levels| < net.b.depth
    ensures Swept(net.Ball, net.b, levels, w, SweepLevel(net.plane, net.seed, net.b, visit, levels, w))
    ensures NeverStops(visit) ==> !SweepLevel(net.plane, net.seed, net.b, visit, levels, w).stopped
  {
    LeadsLand(net, levels, w);
    BallsGrowAndSettle(net);
    SweptRing(net.Ball, net.b, net.keep, visit, levels, w, Leads(net.plane, Frontier(net.seed, levels), net.b));
  }

  /** A set that holds the current ball and everything the leads reach holds the next ball. */
  ghost predicate Completes(outer: set<NodeId>, held: set<NodeId>, keep: Lead -> bool, leads: seq<Lead>) {
    forall all: set<NodeId> :: held <= all && (forall l :: l in leads && keep(l) ==> l.node in all) ==> outer <= all
  }

  lemma LeadsLand<S>(net: Net, levels: seq<seq<NodeId>>, w: Sweep<S>)
    requires net.Valid() && AtLevel(net.Ball, net.b, levels, w)
    ensures forall l :: l in Leads(net.plane, Frontier(net.seed, levels), net.b) && net.keep(l) ==>
              l.node in net.Ball(|levels| + 1)
    ensures !w.hit ==> Completes(net.Ball(|levels| + 1), w.seen, net.keep,
                                 Leads(net.plane, Frontier(net.seed, levels), net.b))
  {
    var leads := Leads(net.plane, Frontier(net.seed, levels), net.b);
    forall l | l in leads && net.keep(l)
      ensures l.node in net.Ball(|levels| + 1)
    {
      LeadLands(net, levels, w, l);
    }
    if !w.hit {
      forall all: set<NodeId> | w.seen <= all && forall l :: l in leads && net.keep(l) ==> l.node in all
        ensures net.Ball(|levels| + 1) <= all
      {
        LevelCompletes(net, levels, w, all);
      }
    }
  }

  lemma SweptRing<S(!new)>(ball: Balls, b: Bounds, keep: Lead -> bool, visit: Visitor<S>,
                           levels: seq<seq<NodeId>>, w: Sweep<S>, leads: seq<Lead>)
    requires Growing(ball) && Filters(keep, visit) && AtLevel(ball, b, levels, w)
    requires !w.stopped && |levels| < b.depth
    requires forall l :: l in leads && keep(l) ==> l.node in ball(|levels| + 1)
    requires !w.hit ==> Completes(ball(|levels| + 1), w.seen, keep, leads)
    ensures Swept(ball, b, levels, w, OfferAll(visit, b.budget, w.(next := []), leads))
    ensures NeverStops(visit) ==> !OfferAll(visit, b.budget, w.(next := []), leads).stopped
  {
    var w' := OfferAll(visit, b.budget, w.(next := []), leads);
    assert ball(|levels| + 1) <= ball(b.depth);
    SweepKeeps(ball, b, keep, visit, w.(next := []), leads);
    assert w'.seen == w.seen + Elems(w'.next);
    assert ball(|levels|) <= ball(|levels| + 1);
    NoElems(w'.next);
  }

  /** A sweep holds what was held and what it took, and took nothing twice. */
  lemma OnlyNew<S>(ball: Balls, b: Bounds, levels: seq<seq<NodeId>>, w: Sweep<S>, w': Sweep<S>)
    requires AtLevel(ball, b, levels, w) && Swept(ball, b, levels, w, w')
    ensures Elems(w'.next) !! w.seen && w'.seen == w.seen + Elems(w'.next)
  {
  }

  lemma NoElems<T>(s: seq<T>)
    ensures Elems(s) == {} ==> s == []
  {
    if s != [] {
      assert s[0] in Elems(s);
    }
  }

  lemma NextLevel<S>(ball: Balls, b: Bounds, levels: seq<seq<NodeId>>, w: Sweep<S>, w': Sweep<S>)
    requires AtLevel(ball, b, levels, w) && Swept(ball, b, levels, w, w') && |levels| < b.depth
    requires w'.next != [] && !w'.stopped
    ensures AtLevel(ball, b, levels + [w'.next], w')
  {
    assert w.seen == ball(|levels|);
    assert (levels + [w'.next])[|levels|] == w'.next;
  }

  // ---- the whole walk ------------------------------------------------------

  /** What every walk with such a visitor leaves behind, stopped or not: each level is the
      held part of its ring, held whole rings before any farther one, within the budget. */
  ghost predicate IsNearest(ball: Balls, b: Bounds, r: Region) {
    && |r.levels| <= b.depth
    && |r.levels| < |r.seen| <= AtLeastOne(b.budget)
    && (forall i :: 0 <= i < |r.levels| ==> IsRing(ball, r.levels[i], i, r.seen))
    && Straddles(ball, r.seen)
    && r.seen <= ball(b.depth)
    && (r.budgetHit ==> |r.seen| == AtLeastOne(b.budget) && ball(b.depth) - r.seen != {})
  }

  ghost predicate Straddles(ball: Balls, seen: set<NodeId>) {
    exists c: nat :: ball(c) <= seen <= ball(c + 1)
  }

  /** ... and what one that ran to its end leaves besides. */
  ghost predicate IsWhole(ball: Balls, b: Bounds, r: Region) {
    && r.seen == ball(0) + Elems(Flatten(r.levels))
    && (r.budgetHit <==> |ball(b.depth)| > AtLeastOne(b.budget))
    && (!r.budgetHit ==> r.seen == ball(b.depth))
    && (!r.budgetHit && |r.levels| < b.depth ==> forall k: nat :: ball(k) <= r.seen)
  }

  /** The levels behind a walk, which later levels never disturb. */
  ghost predicate Behind<S>(ball: Balls, levels: seq<seq<NodeId>>, w: Sweep<S>) {
    && |levels| < |w.seen|
    && w.seen == ball(0) + Elems(Flatten(levels))
    && forall i :: 0 <= i < |levels| ==> IsRing(ball, levels[i], i, w.seen)
  }

  /** Level `i` is the held part of ring `i + 1`, each node once. */
  ghost predicate IsRing(ball: Balls, level: seq<NodeId>, i: nat, seen: set<NodeId>) {
    level != [] && NoDup(level) && Elems(level) == Ring(ball, i + 1) * seen
  }

  /** Nodes taken beyond the levels so far belong to none of their rings. */
  lemma RingsUndisturbed(ball: Balls, d: nat, i: nat, seen: set<NodeId>, more: set<NodeId>)
    requires Growing(ball) && i < d && more !! ball(d)
    ensures Ring(ball, i + 1) * (seen + more) == Ring(ball, i + 1) * seen
  {
    assert ball(i + 1) <= ball(d);
  }

  /** Each level, the new one included, is the held part of its ring. */
  lemma LevelIsRing<S>(ball: Balls, b: Bounds, levels: seq<seq<NodeId>>, w: Sweep<S>, w': Sweep<S>, i: nat)
    requires Growing(ball) && AtLevel(ball, b, levels, w) && Behind(ball, levels, w)
    requires Swept(ball, b, levels, w, w') && w'.next != [] && i <= |levels|
    ensures IsRing(ball, (levels + [w'.next])[i], i, w'.seen)
  {
    var d := |levels|;
    if i < d {
      assert (levels + [w'.next])[i] == levels[i] && IsRing(ball, levels[i], i, w.seen);
      RingsUndisturbed(ball, d, i, w.seen, Elems(w'.next));
      assert w'.seen == w.seen + Elems(w'.next);
    } else {
      TopRing(ball(d), ball(d + 1), w.seen, Elems(w'.next), w'.seen);
    }
  }

  lemma BehindAdvances<S>(ball: Balls, b: Bounds, levels: seq<seq<NodeId>>, w: Sweep<S>, w': Sweep<S>)
    requires Growing(ball) && AtLevel(ball, b, levels, w) && Behind(ball, levels, w)
    requires Swept(ball, b, levels, w, w') && w'.next != []
    ensures Behind(ball, levels + [w'.next], w')
  {
    HeldAdvances(ball, b, levels, w, w');
    forall i | 0 <= i <= |levels|
      ensures IsRing(ball, (levels + [w'.next])[i], i, w'.seen)
    {
      LevelIsRing(ball, b, levels, w, w', i);
    }
  }

  lemma HeldAdvances<S>(ball: Balls, b: Bounds, levels: seq<seq<NodeId>>, w: Sweep<S>, w': Sweep<S>)
    requires Growing(ball) && AtLevel(ball, b, levels, w)
    requires |levels| < |w.seen| && w.seen == ball(0) + Elems(Flatten(levels))
    requires Swept(ball, b, levels, w, w') && w'.next != []
    ensures |levels| + 1 < |w'.seen| && w'.seen == ball(0) + Elems(Flatten(levels + [w'.next]))
  {
    NoElems(w'.next);
    assert Elems(w'.next) !! w.seen;
    UnionGrows(ball(0), Elems(Flatten(levels)), Elems(w'.next), w.seen, w'.seen);
    FlattenSnoc(levels, w'.next);
  }

  lemma UnionGrows<T>(a: set<T>, b: set<T>, more: set<T>, ab: set<T>, all: set<T>)
    requires ab == a + b && all == ab + more && more != {} && more !! ab
    ensures all == a + (b + more) && |all| > |ab|
  {
    var x :| x in more;
    Grows(ab, all, x);
  }

  lemma FlattenSnoc(levels: seq<seq<NodeId>>, level: seq<NodeId>)
    ensures Flatten(levels + [level]) == Flatten(levels) + level
    ensures Elems(Flatten(levels + [level])) == Elems(Flatten(levels)) + Elems(level)
  {
    assert (levels + [level])[..|levels|] == levels;
    ElemsOfConcat(Flatten(levels), level);
  }

  lemma TopRing(inner: set<NodeId>, outer: set<NodeId>, seen: set<NodeId>, more: set<NodeId>, seen': set<NodeId>)
    requires seen <= inner && more !! inner && seen' == seen + more && seen' <= outer
    ensures more == (outer - inner) * seen'
  {
  }

  lemma Grows<T>(a: set<T>, b: set<T>, x: T)
    requires a <= b && x in b && x !in a
    ensures |a| < |b|
  {
    assert b == a + (b - a);
    assert x in b - a;
  }

  ghost predicate Ends<S>(net: Net, r: Walked<S>) {
    IsNearest(net.Ball, net.b, r.region) && (!r.stopped ==> IsWhole(net.Ball, net.b, r.region))
  }

  /** A sweep either ends the walk as promised or stands at the next level. */
  lemma WalkStep<S(!new)>(net: Net, visit: Visitor<S>, levels: seq<seq<NodeId>>, w: Sweep<S>, w': Sweep<S>)
    requires net.Valid() && Filters(net.keep, visit) && !w.stopped && |levels| < net.b.depth
    requires AtLevel(net.Ball, net.b, levels, w) && Behind(net.Ball, levels, w)
    requires w' == SweepLevel(net.plane, net.seed, net.b, visit, levels, w)
    ensures if w'.stopped || w'.next == [] then Ends(net, Finish(levels, w'))
            else AtLevel(net.Ball, net.b, levels + [w'.next], w') && Behind(net.Ball, levels + [w'.next], w')
    ensures NeverStops(visit) ==> !w'.stopped
  {
    BallsGrowAndSettle(net);
    LevelSwept(net, visit, levels, w);
    if w'.stopped || w'.next == [] {
      EndsInLevel(net.Ball, net.b, levels, w, w');
    } else {
      NextLevel(net.Ball, net.b, levels, w, w');
      BehindAdvances(net.Ball, net.b, levels, w, w');
    }
  }

  lemma {:induction false} WalkNearest<S(!new)>(net: Net, visit: Visitor<S>, levels: seq<seq<NodeId>>, w: Sweep<S>)
    requires net.Valid() && Filters(net.keep, visit) && !w.stopped
    requires AtLevel(net.Ball, net.b, levels, w) && Behind(net.Ball, levels, w)
    ensures Ends(net, WalkFrom(net.plane, net.seed, net.b, visit, levels, w))
    ensures NeverStops(visit) ==> !WalkFrom(net.plane, net.seed, net.b, visit, levels, w).stopped
    decreases net.b.depth - |levels|
  {
    if |levels| >= net.b.depth {
      BallsGrowAndSettle(net);
      EndsAtDepth(net.Ball, net.b, levels, w);
    } else {
      var w' := SweepLevel(net.plane, net.seed, net.b, visit, levels, w);
      WalkStep(net, visit, levels, w, w');
      if !w'.stopped && w'.next != [] {
        WalkNearest(net, visit, levels + [w'.next], w');
      }
    }
  }

  lemma LevelStraddles<S>(ball: Balls, b: Bounds, levels: seq<seq<NodeId>>, w: Sweep<S>)
    requires Growing(ball) && AtLevel(ball, b, levels, w)
    ensures Straddles(ball, w.seen)
  {
    var d := |levels|;
    if d == 0 {
      assert ball(0) <= w.seen <= ball(0 + 1);
    } else {
      assert ball(d - 1) <= w.seen <= ball((d - 1) + 1);
    }
  }

  lemma RefusedExceeds(reach: set<NodeId>, seen: set<NodeId>)
    requires seen <= reach
    ensures reach - seen != {} ==> |reach| > |seen|
  {
    if x :| x in reach - seen {
      Grows(seen, reach, x);
    }
  }

  lemma EndsAtDepth<S>(ball: Balls, b: Bounds, levels: seq<seq<NodeId>>, w: Sweep<S>)
    requires Growing(ball) && AtLevel(ball, b, levels, w) && Behind(ball, levels, w) && |levels| == b.depth
    ensures IsNearest(ball, b, Region(levels, w.seen, w.hit)) && IsWhole(ball, b, Region(levels, w.seen, w.hit))
  {
    LevelStraddles(ball, b, levels, w);
    RefusedExceeds(ball(b.depth), w.seen);
  }

  lemma EndsInLevel<S>(ball: Balls, b: Bounds, levels: seq<seq<NodeId>>, w: Sweep<S>, w': Sweep<S>)
    requires Growing(ball) && Settles(ball)
    requires AtLevel(ball, b, levels, w) && Behind(ball, levels, w) && |levels| < b.depth
    requires Swept(ball, b, levels, w, w') && (w'.stopped || w'.next == [])
    ensures IsNearest(ball, b, Region(levels, w'.seen, w'.hit))
    ensures !w'.stopped ==> IsWhole(ball, b, Region(levels, w'.seen, w'.hit))
  {
    var d := |levels|;
    assert w'.seen <= ball(b.depth);
    forall i | 0 <= i < d
      ensures IsRing(ball, levels[i], i, w'.seen)
    {
      RingsUndisturbed(ball, d, i, w.seen, Elems(w'.next));
    }
    assert |levels| < |w'.seen| by {
      if x :| x in w'.seen - w.seen {
        Grows(w.seen, w'.seen, x);
      } else {
        assert w'.seen == w.seen;
      }
    }
    if w.hit {
      LevelStraddles(ball, b, levels, w);
    } else {
      assert ball(d) <= w'.seen <= ball(d + 1);
    }
    if !w'.stopped {
      EndsWhole(ball, b, levels, w, w');
    }
  }

  lemma EndsWhole<S>(ball: Balls, b: Bounds, levels: seq<seq<NodeId>>, w: Sweep<S>, w': Sweep<S>)
    requires Growing(ball) && Settles(ball)
    requires AtLevel(ball, b, levels, w) && Behind(ball, levels, w) && |levels| < b.depth
    requires Swept(ball, b, levels, w, w') && !w'.stopped && w'.next == []
    ensures IsWhole(ball, b, Region(levels, w'.seen, w'.hit))
  {
    assert w'.seen == w.seen <= ball(b.depth);
    RefusedExceeds(ball(b.depth), w'.seen);
    if !w'.hit {
      assert ball(|levels| + 1) == ball(|levels|);
      assert w'.seen == ball(b.depth);
    }
  }

  /** Every walk whose visitor takes or skips by edge alone keeps exact distance
      classes, is the nearest part of what it could reach, and meets its budget
      exactly when more than the budget lies within its depth. */
  lemma RegionIsNearest<S(!new)>(net: Net, visit: Visitor<S>, s: S)
    requires net.Valid() && Filters(net.keep, visit)
    ensures var r := WalkSpec(net.plane, net.seed, net.b, visit, s);
            IsNearest(net.Ball, net.b, r.region) && (!r.stopped ==> IsWhole(net.Ball, net.b, r.region))
    ensures NeverStops(visit) ==> !WalkSpec(net.plane, net.seed, net.b, visit, s).stopped
  {
    AtStart(net, s);
    WalkNearest(net, visit, [], Start(net.seed, s));
  }

  /** In the order a walk takes them, its nodes stand each once. */
  lemma {:induction false} OrderNoDup(ball: Balls, seed: NodeId, levels: seq<seq<NodeId>>, seen: set<NodeId>)
    requires Growing(ball) && ball(0) == {seed} && forall i :: 0 <= i < |levels| ==> IsRing(ball, levels[i], i, seen)
    ensures NoDup([seed] + Flatten(levels)) && Elems([seed] + Flatten(levels)) <= ball(|levels|)
  {
    if levels == [] {
      assert [seed] + Flatten(levels) == [seed];
    } else {
      var k := |levels| - 1;
      OrderNoDup(ball, seed, levels[..k], seen);
      var before, last := [seed] + Flatten(levels[..k]), levels[k];
      assert IsRing(ball, last, k, seen) && ball(k) <= ball(k + 1);
      assert [seed] + Flatten(levels) == before + last;
      forall x | x in last
        ensures x !in before
      {
        assert x in Elems(last);
        assert x in before ==> x in Elems(before);
      }
      NoDupConcat(before, last);
      ElemsOfConcat(before, last);
    }
  }

  lemma RegionInPlane(net: Net, r: Region)
    requires net.Valid() && IsNearest(net.Ball, net.b, r)
    ensures r.seen <= net.plane.nodes
  {
    net.BallInPlane(net.b.depth);
  }

  lemma AtStart<S>(net: Net, s: S)
    ensures AtLevel(net.Ball, net.b, [], Start(net.seed, s)) && Behind(net.Ball, [], Start(net.seed, s))
  {
    assert net.Ball(0) == {net.seed};
    assert Elems(Flatten([])) == {};
  }

  /** No held node is farther from the seed than any node left out. */
  lemma HeldBeforeLeftOut(net: Net, r: Region, held: NodeId, out: NodeId, k: nat)
    requires IsNearest(net.Ball, net.b, r)
    requires held in r.seen && out !in r.seen && out in net.Ball(k)
    ensures held in net.Ball(k)
  {
    BallsGrowAndSettle(net);
    LeftOutIsFarther(net.Ball, r.seen, held, out, k);
  }

  lemma LeftOutIsFarther(ball: Balls, seen: set<NodeId>, held: NodeId, out: NodeId, k: nat)
    requires Growing(ball) && Straddles(ball, seen)
    requires held in seen && out !in seen && out in ball(k)
    ensures held in ball(k)
  {
    var c: nat :| ball(c) <= seen <= ball(c + 1);
    assert k <= c ==> ball(k) <= ball(c);
    assert k > c ==> ball(c + 1) <= ball(k);
  }
}
