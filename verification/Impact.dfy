/** `impact`: the blast radius of a change, over incoming structural edges. */
module Impact {
  import opened Collections
  import opened Planes
  import opened Walks
  import opened Nearest
  import opened Distances

  const IMPACT_EDGES: set<string> := {
    "CALLS", "REFERENCES", "INSTANTIATES", "IMPORTS", "EXTENDS",
    "IMPLEMENTS", "USES_TYPE", "READS", "WRITES", "USES_COLUMN"
  }

  /** Most keys one question carries to another graph. */
  const OFFER_CAP: nat := 500

  /** What the visitor fills: the edge type each node is listed under, and the keys met, in order. */
  datatype Notes = Notes(lines: map<NodeId, string>, offered: seq<string>)

  datatype Radius = Radius(groups: seq<seq<NodeId>>, total: nat, lines: map<NodeId, string>,
                           keys: seq<string>, held: nat)

  function Clamp(depth: nat): nat {
    if depth < 1 then 1 else if depth > 6 then 6 else depth
  }

  function ImpactBounds(depth: nat): Bounds {
    Bounds([In], None, Clamp(depth), USIZE_MAX)
  }

  function KeyOf(p: Plane, n: NodeId): seq<string> {
    if n in p.keys then [p.keys[n]] else []
  }

  function KeysOf(p: Plane, ns: seq<NodeId>): seq<string> {
    if ns == [] then [] else KeysOf(p, ns[..|ns| - 1]) + KeyOf(p, ns[|ns| - 1])
  }

  predicate Structural(p: Plane, l: Lead) {
    l.edge in p.edges && l.node in p.nodes && p.edges[l.edge].ty in IMPACT_EDGES
  }

  function ImpactVisit(p: Plane, s: Notes, h: Hop): (Notes, Step) {
    var n, e := h.lead.node, h.lead.edge;
    if !h.unseen then (s, Skip)
    else if e !in p.edges || n !in p.nodes then (s, Skip)
    else if p.edges[e].ty !in IMPACT_EDGES then (s, Skip)
    else (Notes(s.lines[n := p.edges[e].ty], s.offered + KeyOf(p, n)), Take)
  }

  function ImpactVisitor(p: Plane): Visitor<Notes> {
    (s, h) => ImpactVisit(p, s, h)
  }

  function ImpactNet(p: Plane, seed: NodeId, depth: nat): Net {
    Net(p, seed, ImpactBounds(depth), (l: Lead) => Structural(p, l))
  }

  /** `v` would break directly if `u` changed. */
  ghost predicate Affects(p: Plane, u: NodeId, v: NodeId, ty: string) {
    ty in IMPACT_EDGES && exists e :: e in p.edges && p.edges[e] == Edge(v, u, ty)
  }

  lemma AffectsIsLinked(p: Plane, seed: NodeId, depth: nat, u: NodeId, v: NodeId)
    requires p.Valid()
    ensures ImpactNet(p, seed, depth).Linked(u, v) <==> exists ty :: Affects(p, u, v, ty)
  {
    var net := ImpactNet(p, seed, depth);
    if ty :| Affects(p, u, v, ty) {
      var e :| e in p.edges && p.edges[e] == Edge(v, u, ty);
      assert IsLead(p, Lead(u, In, v, e), net.b.dirs, net.b.ty);
    }
    if net.Linked(u, v) {
      var l :| IsLead(p, l, net.b.dirs, net.b.ty) && net.keep(l) && l.from == u && l.node == v;
      assert Affects(p, u, v, p.edges[l.edge].ty);
    }
  }

  // ---- what the visitor's notes hold ---------------------------------------

  /** Every node of `ns` is listed under an edge joining it to one of `nearer`. */
  ghost predicate Named(p: Plane, nearer: set<NodeId>, lines: map<NodeId, string>, n: NodeId) {
    n in lines && exists u :: u in nearer && Affects(p, u, n, lines[n])
  }

  /** Inside a sweep from `frontier`: the notes grew by exactly the nodes taken. */
  ghost predicate Noted(p: Plane, frontier: set<NodeId>, w0: Sweep<Notes>, w: Sweep<Notes>) {
    && w.seen <= p.nodes && w0.seen <= w.seen && !w.stopped
    && w.state.offered == w0.state.offered + KeysOf(p, w.next)
    && w.state.lines.Keys == w0.state.lines.Keys + Elems(w.next)
    && (forall n :: n in w.next ==> n in w.seen && Named(p, frontier, w.state.lines, n))
    && (forall n :: n in w0.seen ==> (n in w.state.lines <==> n in w0.state.lines))
    && (forall n :: n in w0.seen && n in w0.state.lines ==> w.state.lines[n] == w0.state.lines[n])
  }

  lemma KeysOfSnoc(p: Plane, ns: seq<NodeId>, n: NodeId)
    ensures KeysOf(p, ns + [n]) == KeysOf(p, ns) + KeyOf(p, n)
  {
    assert (ns + [n])[..|ns|] == ns;
  }

  lemma {:induction false} KeysOfConcat(p: Plane, a: seq<NodeId>, b: seq<NodeId>)
    ensures KeysOf(p, a + b) == KeysOf(p, a) + KeysOf(p, b)
  {
    if b == [] {
      assert a + b == a;
    } else {
      var k := |b| - 1;
      KeysOfConcat(p, a, b[..k]);
      KeysOfSnoc(p, a + b[..k], b[k]);
      assert (a + b[..k]) + [b[k]] == a + b;
      Assoc(KeysOf(p, a), KeysOf(p, b[..k]), KeyOf(p, b[k]));
    }
  }

  lemma OfferNotes(p: Plane, frontier: set<NodeId>, w0: Sweep<Notes>, w: Sweep<Notes>, l: Lead)
    requires p.Valid() && |p.nodes| < USIZE_MAX
    requires Noted(p, frontier, w0, w) && l.from in frontier && IsLead(p, l, [In], None)
    ensures Noted(p, frontier, w0, Offer(ImpactVisitor(p), USIZE_MAX, w, l))
  {
    OfferTakes(p, w, l);
    if l.node !in w.seen && Structural(p, l) {
      assert Affects(p, l.from, l.node, p.edges[l.edge].ty);
      NotedOneMore(p, frontier, w0, w, l.from, l.node, p.edges[l.edge].ty);
    }
  }

  /** `w` with one more node, listed under `ty`. */
  function Noting(p: Plane, w: Sweep<Notes>, n: NodeId, ty: string): Sweep<Notes> {
    w.(seen := w.seen + {n}, next := w.next + [n], state := Notes(w.state.lines[n := ty], w.state.offered + KeyOf(p, n)))
  }

  lemma OfferTakes(p: Plane, w: Sweep<Notes>, l: Lead)
    requires p.Valid() && |p.nodes| < USIZE_MAX && IsLead(p, l, [In], None) && w.seen <= p.nodes && !w.stopped
    ensures Offer(ImpactVisitor(p), USIZE_MAX, w, l) ==
            if l.node !in w.seen && Structural(p, l) then Noting(p, w, l.node, p.edges[l.edge].ty) else w
    ensures l.node in p.nodes
  {
    NoLarger(w.seen, p.nodes);
  }

  lemma NotedOneMore(p: Plane, frontier: set<NodeId>, w0: Sweep<Notes>, w: Sweep<Notes>, u: NodeId, v: NodeId, ty: string)
    requires Noted(p, frontier, w0, w) && u in frontier && v in p.nodes && v !in w.seen && Affects(p, u, v, ty)
    ensures Noted(p, frontier, w0, Noting(p, w, v, ty))
  {
    var w' := Noting(p, w, v, ty);
    KeysOfSnoc(p, w.next, v);
    Assoc(w0.state.offered, KeysOf(p, w.next), KeyOf(p, v));
    forall n | n in w'.next
      ensures n in w'.seen && Named(p, frontier, w'.state.lines, n)
    {
      assert n in w.next || n == v;
    }
  }

  lemma {:induction false} SweepNotes(p: Plane, frontier: set<NodeId>, w0: Sweep<Notes>, leads: seq<Lead>)
    requires p.Valid() && |p.nodes| < USIZE_MAX && w0.seen <= p.nodes && w0.next == [] && !w0.stopped
    requires forall l :: l in leads ==> l.from in frontier && IsLead(p, l, [In], None)
    ensures Noted(p, frontier, w0, OfferAll(ImpactVisitor(p), USIZE_MAX, w0, leads))
  {
    if leads != [] {
      var k := |leads| - 1;
      SweepNotes(p, frontier, w0, leads[..k]);
      assert leads[k] in leads;
      OfferNotes(p, frontier, w0, OfferAll(ImpactVisitor(p), USIZE_MAX, w0, leads[..k]), leads[k]);
    }
  }

  function Nearer(seed: NodeId, levels: seq<seq<NodeId>>, i: nat): seq<NodeId>
    requires i < |levels|
  {
    if i == 0 then [seed] else levels[i - 1]
  }

  /** Between levels: the offered keys are the radius so far, in order; what is listed is exactly it, and
      every level is named. */
  ghost predicate Carried(p: Plane, seed: NodeId, levels: seq<seq<NodeId>>, seen: set<NodeId>, s: Notes) {
    && s.offered == KeysOf(p, [seed] + Flatten(levels))
    && s.lines.Keys == Elems(Flatten(levels))
    && (forall i :: 0 <= i < |levels| ==> AllHeld(seen, levels[i]))
    && NamedByGroup(p, seed, levels, s.lines)
  }

  ghost predicate AllHeld(seen: set<NodeId>, group: seq<NodeId>) {
    forall n :: n in group ==> n in seen
  }

  ghost predicate NamedByGroup(p: Plane, seed: NodeId, groups: seq<seq<NodeId>>, lines: map<NodeId, string>) {
    forall i :: 0 <= i < |groups| ==> AllNamed(p, Elems(Nearer(seed, groups, i)), lines, groups[i])
  }

  ghost predicate AllNamed(p: Plane, nearer: set<NodeId>, lines: map<NodeId, string>, group: seq<NodeId>) {
    forall n :: n in group ==> Named(p, nearer, lines, n)
  }

  /** Held nodes keep the lines they were given. */
  lemma StaysNamed(p: Plane, frontier: set<NodeId>, nearer: set<NodeId>, group: seq<NodeId>, w: Sweep<Notes>, w': Sweep<Notes>)
    requires Noted(p, frontier, w, w') && AllHeld(w.seen, group) && AllNamed(p, nearer, w.state.lines, group)
    ensures AllHeld(w'.seen, group) && AllNamed(p, nearer, w'.state.lines, group)
  {
    forall n | n in group
      ensures Named(p, nearer, w'.state.lines, n)
    {
      assert n in w.seen && Named(p, nearer, w.state.lines, n);
    }
  }

  lemma CarriedOn(p: Plane, seed: NodeId, levels: seq<seq<NodeId>>, w: Sweep<Notes>, w': Sweep<Notes>)
    requires Carried(p, seed, levels, w.seen, w.state)
    requires Noted(p, Elems(Frontier(seed, levels)), w, w')
    ensures Carried(p, seed, levels + [w'.next], w'.seen, w'.state)
  {
    OfferedSnoc(p, seed, levels, w'.next);
    FlattenSnoc(levels, w'.next);
    var all := levels + [w'.next];
    forall i | 0 <= i < |all|
      ensures AllHeld(w'.seen, all[i]) && AllNamed(p, Elems(Nearer(seed, all, i)), w'.state.lines, all[i])
    {
      NearerSnoc(seed, levels, w'.next, i);
      if i < |levels| {
        StaysNamed(p, Elems(Frontier(seed, levels)), Elems(Nearer(seed, levels, i)), levels[i], w, w');
      } else {
        NewlyNamed(p, Elems(Frontier(seed, levels)), w, w');
      }
    }
  }

  lemma NewlyNamed(p: Plane, frontier: set<NodeId>, w: Sweep<Notes>, w': Sweep<Notes>)
    requires Noted(p, frontier, w, w')
    ensures AllHeld(w'.seen, w'.next) && AllNamed(p, frontier, w'.state.lines, w'.next)
  {
  }

  lemma OfferedSnoc(p: Plane, seed: NodeId, levels: seq<seq<NodeId>>, next: seq<NodeId>)
    ensures KeysOf(p, [seed] + Flatten(levels + [next])) == KeysOf(p, [seed] + Flatten(levels)) + KeysOf(p, next)
  {
    FlattenSnoc(levels, next);
    Assoc([seed], Flatten(levels), next);
    KeysOfConcat(p, [seed] + Flatten(levels), next);
  }

  lemma NearerSnoc(seed: NodeId, levels: seq<seq<NodeId>>, next: seq<NodeId>, i: nat)
    requires i <= |levels|
    ensures Nearer(seed, levels + [next], i) == if i < |levels| then Nearer(seed, levels, i) else Frontier(seed, levels)
  {
  }

  lemma FrontierLeadsIn(p: Plane, seed: NodeId, depth: nat, levels: seq<seq<NodeId>>)
    requires p.Valid()
    ensures forall l :: l in Leads(p, Frontier(seed, levels), ImpactBounds(depth)) ==>
              l.from in Elems(Frontier(seed, levels)) && IsLead(p, l, [In], None)
  {
    forall l | l in Leads(p, Frontier(seed, levels), ImpactBounds(depth))
      ensures l.from in Elems(Frontier(seed, levels)) && IsLead(p, l, [In], None)
    {
      LeadsIff(p, Frontier(seed, levels), ImpactBounds(depth), l);
    }
  }

  lemma {:induction false} WalkNotes(p: Plane, seed: NodeId, depth: nat, levels: seq<seq<NodeId>>, w: Sweep<Notes>)
    requires p.Valid() && |p.nodes| < USIZE_MAX && w.seen <= p.nodes && !w.stopped
    requires Carried(p, seed, levels, w.seen, w.state)
    ensures var r := WalkFrom(p, seed, ImpactBounds(depth), ImpactVisitor(p), levels, w);
            Carried(p, seed, r.region.levels, r.region.seen, r.state)
    decreases Clamp(depth) - |levels|
  {
    if |levels| < Clamp(depth) {
      FrontierLeadsIn(p, seed, depth, levels);
      var w0 := w.(next := []);
      SweepNotes(p, Elems(Frontier(seed, levels)), w0, Leads(p, Frontier(seed, levels), ImpactBounds(depth)));
      var w' := SweepLevel(p, seed, ImpactBounds(depth), ImpactVisitor(p), levels, w);
      CarriedOn(p, seed, levels, w0, w');
      if w'.next == [] {
        Unchanged(p, seed, levels, w0, w');
      } else {
        WalkNotes(p, seed, depth, levels + [w'.next], w');
      }
    }
  }

  /** A sweep that takes nothing leaves the levels carried as they were. */
  lemma Unchanged(p: Plane, seed: NodeId, levels: seq<seq<NodeId>>, w: Sweep<Notes>, w': Sweep<Notes>)
    requires Carried(p, seed, levels, w.seen, w.state)
    requires Noted(p, Elems(Frontier(seed, levels)), w, w') && w'.next == []
    ensures Carried(p, seed, levels, w'.seen, w'.state)
  {
    assert w'.state.offered == w.state.offered + [];
    forall i | 0 <= i < |levels|
      ensures AllHeld(w'.seen, levels[i]) && AllNamed(p, Elems(Nearer(seed, levels, i)), w'.state.lines, levels[i])
    {
      StaysNamed(p, Elems(Frontier(seed, levels)), Elems(Nearer(seed, levels, i)), levels[i], w, w');
    }
  }

  // ---- the verb ------------------------------------------------------------

  lemma {:induction false} SizeOfDistinct(s: seq<NodeId>)
    requires NoDup(s)
    ensures |Elems(s)| == |s|
  {
    if s != [] {
      var init, n := s[..|s| - 1], s[|s| - 1];
      SizeOfDistinct(init);
      assert s == init + [n];
      assert Elems(s) == Elems(init) + {n};
    }
  }

  /** The first `i` groups fill the ball of `i` hops, the next one adds exactly its ring. */
  lemma NextGroup(ball: Balls, group: seq<NodeId>, i: nat)
    requires Growing(ball) && NoDup(group) && Elems(group) == Ring(ball, i + 1)
    ensures |ball(i + 1)| == |ball(i)| + |group|
  {
    assert ball(i + 1) == ball(i) + Ring(ball, i + 1);
    SizeOfDistinct(group);
  }

  /** What the walk's region says of the groups: exact rings, and nothing beyond the last. */
  ghost predicate ExactGroups(ball: Balls, depth: nat, groups: seq<seq<NodeId>>) {
    && |groups| <= depth
    && (forall i :: 0 <= i < |groups| ==>
          groups[i] != [] && NoDup(groups[i]) && Elems(groups[i]) == Ring(ball, i + 1))
    && ball(depth) == ball(|groups|)
  }

  lemma RegionIsExact(ball: Balls, b: Bounds, r: Region)
    requires Growing(ball) && IsNearest(ball, b, r) && IsWhole(ball, b, r) && !r.budgetHit
    ensures ExactGroups(ball, b.depth, r.levels)
  {
    forall i | 0 <= i < |r.levels|
      ensures Elems(r.levels[i]) == Ring(ball, i + 1)
    {
      assert IsRing(ball, r.levels[i], i, r.seen);
      assert ball(i + 1) <= ball(b.depth);
    }
    FilledBall(ball, r.levels);
  }

  lemma {:induction false} FilledBall(ball: Balls, levels: seq<seq<NodeId>>)
    requires Growing(ball)
    requires forall i :: 0 <= i < |levels| ==> Elems(levels[i]) == Ring(ball, i + 1)
    ensures ball(0) + Elems(Flatten(levels)) == ball(|levels|)
  {
    if levels != [] {
      var d := |levels| - 1;
      FilledBall(ball, levels[..d]);
      assert levels == levels[..d] + [levels[d]];
      FlattenSnoc(levels[..d], levels[d]);
      assert ball(d) <= ball(d + 1);
    }
  }

  /** The keys of the nodes nearest the change: all of a prefix of `ns`, and no node of the prefix is
      farther than one after it. */
  ghost predicate NearestKeys(p: Plane, ball: Balls, ns: seq<NodeId>, keys: seq<string>) {
    exists c :: 0 <= c <= |ns| && keys == KeysOf(p, ns[..c]) && NoFarther(ball, ns, c)
  }

  ghost predicate NoFarther(ball: Balls, ns: seq<NodeId>, c: nat) {
    forall i, j, k: nat :: 0 <= i < c <= j < |ns| && ns[j] in ball(k) ==> ns[i] in ball(k)
  }

  lemma {:induction false} PrefixOfKeys(p: Plane, ns: seq<NodeId>, m: nat) returns (c: nat)
    requires m <= |KeysOf(p, ns)|
    ensures c <= |ns| && KeysOf(p, ns[..c]) == KeysOf(p, ns)[..m]
  {
    if m == |KeysOf(p, ns)| {
      c := |ns|;
      assert ns[..c] == ns;
    } else {
      var init := ns[..|ns| - 1];
      c := PrefixOfKeys(p, init, m);
      assert ns[..c] == init[..c];
    }
  }

  /** Breadth-first order is distance order. */
  lemma {:induction false} InOrder(ball: Balls, levels: seq<seq<NodeId>>, i: nat, j: nat, k: nat)
    requires Growing(ball)
    requires forall i :: 0 <= i < |levels| ==> Elems(levels[i]) == Ring(ball, i + 1)
    requires i <= j < |Flatten(levels)| && Flatten(levels)[j] in ball(k)
    ensures Flatten(levels)[i] in ball(k)
  {
    var d := |levels| - 1;
    var init := Flatten(levels[..d]);
    if j < |init| {
      InOrder(ball, levels[..d], i, j, k);
    } else {
      var n, near := Flatten(levels)[j], Flatten(levels)[i];
      assert n in Elems(levels[d]);
      assert k > d;
      if i < |init| {
        FilledBall(ball, levels[..d]);
        assert near in Elems(init);
        assert ball(d) <= ball(k);
      } else {
        assert near in Elems(levels[d]);
        assert ball(d + 1) <= ball(k);
      }
    }
  }

  lemma OfferedNearest(p: Plane, ball: Balls, depth: nat, seed: NodeId, groups: seq<seq<NodeId>>, m: nat)
    requires Growing(ball) && ExactGroups(ball, depth, groups) && ball(0) == {seed}
    requires m <= |KeysOf(p, [seed] + Flatten(groups))|
    ensures NearestKeys(p, ball, [seed] + Flatten(groups), KeysOf(p, [seed] + Flatten(groups))[..m])
  {
    var ns := [seed] + Flatten(groups);
    var c := PrefixOfKeys(p, ns, m);
    forall i, j, k: nat | 0 <= i < c <= j < |ns| && ns[j] in ball(k)
      ensures ns[i] in ball(k)
    {
      if i == 0 {
        assert ball(0) <= ball(k);
      } else {
        InOrder(ball, groups, i - 1, j - 1, k);
      }
    }
    assert NoFarther(ball, ns, c);
  }

  /** What the walk comes to, said of balls: exact groups, their exact total, a line for each node, and
      the first keys. */
  ghost predicate IsBallRadius(p: Plane, ball: Balls, seed: NodeId, depth: nat, r: Radius) {
    && ExactGroups(ball, depth, r.groups)
    && r.total + 1 == |ball(depth)|
    && NamedByGroup(p, seed, r.groups, r.lines) && r.lines.Keys == Elems(Flatten(r.groups))
    && r.held == |KeysOf(p, [seed] + Flatten(r.groups))|
    && |r.keys| == (if r.held < OFFER_CAP then r.held else OFFER_CAP)
    && NearestKeys(p, ball, [seed] + Flatten(r.groups), r.keys)
  }

  // ---- said of chains of dependents --------------------------------------------

  /** One step: `v` would break directly if `u` changed. */
  ghost function Breaks(p: Plane): Links {
    (u: NodeId, v: NodeId) => exists ty :: Affects(p, u, v, ty)
  }

  /** Each group is the nodes at its distance, each once, none is empty, and none within the depth is missing. */
  ghost predicate AreGroups(link: Links, seed: NodeId, depth: nat, groups: seq<seq<NodeId>>) {
    && |groups| <= depth
    && (forall i :: 0 <= i < |groups| ==> groups[i] != [] && NoDup(groups[i]) && IsGroup(link, seed, groups[i], i + 1))
    && (forall n, d :: 1 <= d <= depth && HopsAway(link, seed, n, d) ==> d <= |groups|)
  }

  ghost predicate IsGroup(link: Links, seed: NodeId, group: seq<NodeId>, d: nat) {
    forall n :: n in group <==> HopsAway(link, seed, n, d)
  }

  /** `keys` are those of the first `c` nodes of `ns` that have one, in order; `ix` is where they stand. */
  ghost predicate Offers(p: Plane, ns: seq<NodeId>, c: nat, keys: seq<string>, ix: seq<nat>) {
    && |ix| == |keys| && c <= |ns|
    && (forall j :: 0 <= j < |ix| ==> ix[j] < c && ns[ix[j]] in p.keys && keys[j] == p.keys[ns[ix[j]]])
    && (forall i, j :: 0 <= i < j < |ix| ==> ix[i] < ix[j])
    && (forall i :: 0 <= i < c && ns[i] in p.keys ==> i in ix)
  }

  /** No node of the first `c` is farther than one after them. */
  ghost predicate NearerFirst(link: Links, seed: NodeId, ns: seq<NodeId>, c: nat) {
    forall i, j, d: nat :: 0 <= i < c <= j < |ns| && WithinHops(link, seed, ns[j], d) ==> WithinHops(link, seed, ns[i], d)
  }

  ghost predicate OffersNearest(p: Plane, link: Links, seed: NodeId, ns: seq<NodeId>, keys: seq<string>) {
    exists c, ix :: Offers(p, ns, c, keys, ix) && NearerFirst(link, seed, ns, c)
  }

  ghost function Keyed(p: Plane, ns: seq<NodeId>): set<NodeId> {
    set n | n in ns && n in p.keys
  }

  /** Groups are exactly the distance classes within the depth, the total is their exact size, exactly
      their nodes are listed, each under an edge that joins it to the group before, and the keys carried
      to other graphs are those of the nearest nodes that have one, at most `OFFER_CAP` of all there are. */
  ghost predicate IsRadius(p: Plane, link: Links, seed: NodeId, depth: nat, r: Radius) {
    && AreGroups(link, seed, depth, r.groups)
    && r.total + 1 == |Around(p, link, seed, depth)|
    && NamedByGroup(p, seed, r.groups, r.lines) && r.lines.Keys == Elems(Flatten(r.groups))
    && r.held == |Keyed(p, [seed] + Flatten(r.groups))|
    && |r.keys| == (if r.held < OFFER_CAP then r.held else OFFER_CAP)
    && OffersNearest(p, link, seed, [seed] + Flatten(r.groups), r.keys)
  }

  lemma {:induction false} KeyPositions(p: Plane, ns: seq<NodeId>) returns (ix: seq<nat>)
    ensures Offers(p, ns, |ns|, KeysOf(p, ns), ix)
  {
    if ns == [] {
      ix := [];
    } else {
      var init, n := ns[..|ns| - 1], ns[|ns| - 1];
      var before := KeyPositions(p, init);
      assert ns == init + [n];
      if n in p.keys {
        ix := before + [|init|];
        OffersOne(p, init, n, KeysOf(p, init), before);
      } else {
        ix := before;
        OffersNone(p, init, n, KeysOf(p, init), ix);
      }
    }
  }

  lemma OffersOne(p: Plane, ns: seq<NodeId>, n: NodeId, keys: seq<string>, ix: seq<nat>)
    requires Offers(p, ns, |ns|, keys, ix) && n in p.keys
    ensures Offers(p, ns + [n], |ns| + 1, keys + [p.keys[n]], ix + [|ns|])
  {
    var more := ix + [|ns|];
    forall i | 0 <= i < |ns| + 1 && (ns + [n])[i] in p.keys
      ensures i in more
    {
      if i < |ns| {
        assert ns[i] in p.keys && i in ix;
      } else {
        assert more[|ix|] == i;
      }
    }
  }

  lemma OffersNone(p: Plane, ns: seq<NodeId>, n: NodeId, keys: seq<string>, ix: seq<nat>)
    requires Offers(p, ns, |ns|, keys, ix) && n !in p.keys
    ensures Offers(p, ns + [n], |ns| + 1, keys + [], ix)
  {
    assert keys + [] == keys;
    forall i | 0 <= i < |ns| + 1 && (ns + [n])[i] in p.keys
      ensures i in ix
    {
      assert i < |ns| && ns[i] in p.keys;
    }
  }

  lemma {:induction false} KeysCounted(p: Plane, ns: seq<NodeId>)
    requires NoDup(ns)
    ensures |KeysOf(p, ns)| == |Keyed(p, ns)|
  {
    if ns != [] {
      var k := |ns| - 1;
      KeysCounted(p, ns[..k]);
      assert ns == ns[..k] + [ns[k]];
      assert Keyed(p, ns) == Keyed(p, ns[..k]) + if ns[k] in p.keys then {ns[k]} else {};
    }
  }

  lemma GroupByRoutes(ball: Balls, link: Links, seed: NodeId, group: seq<NodeId>, d: nat)
    requires Measures(ball, link, seed) && Elems(group) == Ring(ball, d)
    ensures IsGroup(link, seed, group, d)
  {
    forall n
      ensures n in group <==> HopsAway(link, seed, n, d)
    {
      RingIff(ball, link, seed, d, n);
      assert n in group <==> n in Elems(group);
    }
  }

  lemma GroupsByRoutes(ball: Balls, link: Links, seed: NodeId, depth: nat, groups: seq<seq<NodeId>>)
    requires Growing(ball) && Measures(ball, link, seed) && ExactGroups(ball, depth, groups)
    ensures AreGroups(link, seed, depth, groups)
  {
    forall i | 0 <= i < |groups|
      ensures IsGroup(link, seed, groups[i], i + 1)
    {
      GroupByRoutes(ball, link, seed, groups[i], i + 1);
    }
    forall n, d | 1 <= d <= depth && HopsAway(link, seed, n, d)
      ensures d <= |groups|
    {
      NotBeyond(ball, link, seed, depth, |groups|, n, d);
    }
  }

  /** Nothing is farther than the last group. */
  lemma NotBeyond(ball: Balls, link: Links, seed: NodeId, depth: nat, last: nat, n: NodeId, d: nat)
    requires Growing(ball) && Measures(ball, link, seed) && ball(depth) == ball(last) && last <= depth
    requires 1 <= d <= depth && HopsAway(link, seed, n, d)
    ensures d <= last
  {
    var below: nat := d - 1;
    assert n in ball(d) && n !in ball(below);
    assert ball(d) <= ball(depth);
    assert last <= below ==> ball(last) <= ball(below);
  }

  lemma KeysByRoutes(p: Plane, ball: Balls, link: Links, seed: NodeId, ns: seq<NodeId>, keys: seq<string>)
    requires Measures(ball, link, seed) && NearestKeys(p, ball, ns, keys)
    ensures OffersNearest(p, link, seed, ns, keys)
  {
    var c :| 0 <= c <= |ns| && keys == KeysOf(p, ns[..c]) && NoFarther(ball, ns, c);
    var ix := KeyPositions(p, ns[..c]);
    assert Offers(p, ns, c, keys, ix) by {
      assert forall i :: 0 <= i < c ==> ns[..c][i] == ns[i];
    }
    forall i, j, d: nat | 0 <= i < c <= j < |ns| && WithinHops(link, seed, ns[j], d)
      ensures WithinHops(link, seed, ns[i], d)
    {
      assert ns[j] in ball(d) && ns[i] in ball(d);
    }
  }

  lemma {:induction false} GroupsNoDup(ball: Balls, seed: NodeId, groups: seq<seq<NodeId>>)
    requires Growing(ball) && ball(0) == {seed}
    requires forall i :: 0 <= i < |groups| ==> groups[i] != [] && NoDup(groups[i]) && Elems(groups[i]) == Ring(ball, i + 1)
    ensures NoDup([seed] + Flatten(groups))
  {
    var all := ball(|groups|);
    forall i | 0 <= i < |groups|
      ensures IsRing(ball, groups[i], i, all)
    {
      assert ball(i + 1) <= all;
    }
    OrderNoDup(ball, seed, groups, all);
  }

  lemma RadiusByRoutes(p: Plane, ball: Balls, link: Links, seed: NodeId, depth: nat, r: Radius)
    requires Growing(ball) && ball(0) == {seed} && Measures(ball, link, seed) && ball(depth) <= p.nodes
    requires IsBallRadius(p, ball, seed, depth, r)
    ensures IsRadius(p, link, seed, depth, r)
  {
    GroupsByRoutes(ball, link, seed, depth, r.groups);
    BallIsAround(p, ball, link, seed, depth);
    GroupsNoDup(ball, seed, r.groups);
    KeysCounted(p, [seed] + Flatten(r.groups));
    KeysByRoutes(p, ball, link, seed, [seed] + Flatten(r.groups), r.keys);
  }

  lemma BallsOfBreaks(p: Plane, seed: NodeId, depth: nat)
    requires p.Valid() && seed in p.nodes
    ensures var ball := ImpactNet(p, seed, depth).Ball;
            Growing(ball) && Measures(ball, Breaks(p), seed) && ball(Clamp(depth)) <= p.nodes
  {
    var net := ImpactNet(p, seed, depth);
    forall u, v
      ensures net.Linked(u, v) <==> Breaks(p)(u, v)
    {
      AffectsIsLinked(p, seed, depth, u, v);
    }
    BallsMeasure(net, Breaks(p));
    net.BallInPlane(Clamp(depth));
  }

  // ---- the verb ----------------------------------------------------------------

  /** Asked for `depth` hops, the answer is the radius of one to six. */
  method BlastRadius(p: Plane, seed: NodeId, depth: nat) returns (r: Radius)
    requires p.Valid() && seed in p.nodes && |p.nodes| < USIZE_MAX
    ensures forall k :: DepthFor(depth, k) ==> IsRadius(p, Breaks(p), seed, k, r)
  {
    var notes := Notes(map[], KeyOf(p, seed));
    var walked := Walk(p, seed, ImpactBounds(depth), ImpactVisitor(p), notes);
    RadiusWalk(p, seed, depth, walked);
    RadiusNotes(p, seed, depth, walked);
    r := Report(p, seed, Clamp(depth), walked, ImpactNet(p, seed, depth).Ball);
    BallsOfBreaks(p, seed, depth);
    RadiusByRoutes(p, ImpactNet(p, seed, depth).Ball, Breaks(p), seed, Clamp(depth), r);
  }

  /** Count the groups and cut the keys to what one question carries. */
  method Report(p: Plane, seed: NodeId, depth: nat, walked: Walked<Notes>, ghost ball: Balls) returns (r: Radius)
    requires Growing(ball) && ball(0) == {seed} && ExactGroups(ball, depth, walked.region.levels)
    requires Carried(p, seed, walked.region.levels, walked.region.seen, walked.state)
    ensures IsBallRadius(p, ball, seed, depth, r)
  {
    var groups := walked.region.levels;
    var total := CountGroups(groups, depth, ball);
    var offered := walked.state.offered;
    var m := if |offered| < OFFER_CAP then |offered| else OFFER_CAP;
    OfferedNearest(p, ball, depth, seed, groups, m);
    r := Radius(groups, total, walked.state.lines, offered[..m], |offered|);
  }

  method CountGroups(groups: seq<seq<NodeId>>, ghost depth: nat, ghost ball: Balls) returns (total: nat)
    requires Growing(ball) && |ball(0)| == 1 && ExactGroups(ball, depth, groups)
    ensures total + 1 == |ball(depth)|
  {
    total := 0;
    var i := 0;
    while i < |groups|
      invariant 0 <= i <= |groups| && total + 1 == |ball(i)|
    {
      NextGroup(ball, groups[i], i);
      total := total + |groups[i]|;
      i := i + 1;
    }
  }

  lemma RadiusWalk(p: Plane, seed: NodeId, depth: nat, r: Walked<Notes>)
    requires p.Valid() && seed in p.nodes && |p.nodes| < USIZE_MAX
    requires r == WalkSpec(p, seed, ImpactBounds(depth), ImpactVisitor(p), Notes(map[], KeyOf(p, seed)))
    ensures Growing(ImpactNet(p, seed, depth).Ball) && ImpactNet(p, seed, depth).Ball(0) == {seed}
    ensures ExactGroups(ImpactNet(p, seed, depth).Ball, Clamp(depth), r.region.levels)
  {
    var net := ImpactNet(p, seed, depth);
    FiltersImpact(p);
    RegionIsNearest(net, ImpactVisitor(p), Notes(map[], KeyOf(p, seed)));
    net.BallInPlane(Clamp(depth));
    BallsGrowAndSettle(net);
    UnboundedRegion(net.Ball, net.b, p.nodes, r.region);
  }

  lemma RadiusNotes(p: Plane, seed: NodeId, depth: nat, r: Walked<Notes>)
    requires p.Valid() && seed in p.nodes && |p.nodes| < USIZE_MAX
    requires r == WalkSpec(p, seed, ImpactBounds(depth), ImpactVisitor(p), Notes(map[], KeyOf(p, seed)))
    ensures Carried(p, seed, r.region.levels, r.region.seen, r.state)
  {
    KeysOfSnoc(p, [], seed);
    assert [] + [seed] == [seed] + Flatten([]);
    WalkNotes(p, seed, depth, [], Start(seed, Notes(map[], KeyOf(p, seed))));
  }

  /** A budget no plane can fill refuses nothing. */
  lemma UnboundedRegion(ball: Balls, b: Bounds, nodes: set<NodeId>, r: Region)
    requires Growing(ball) && IsNearest(ball, b, r) && IsWhole(ball, b, r)
    requires ball(b.depth) <= nodes && |nodes| < b.budget
    ensures ExactGroups(ball, b.depth, r.levels)
  {
    NoLarger(ball(b.depth), nodes);
    RegionIsExact(ball, b, r);
  }

  lemma FiltersImpact(p: Plane)
    requires p.Valid()
    ensures Filters((l: Lead) => Structural(p, l), ImpactVisitor(p)) && NeverStops(ImpactVisitor(p))
  {
  }
}
