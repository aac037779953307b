/** What `fathom` tallies of a region: edges by type and direction, ends by node, each edge once. */
module Tallies {
  import opened Collections
  import opened Planes
  import opened Walks
  import opened Nearest
  import opened Sums

  /** Nodes one `fathom` walks before stopping. */
  const FATHOM_BUDGET: nat := 5_000

  function FathomBounds(depth: nat): Bounds {
    Bounds([Out, In], None, if depth < 1 then 1 else if depth > 6 then 6 else depth, FATHOM_BUDGET)
  }

  /** Edge type -> (walked out, walked in); node -> edge ends it holds; edges already counted. */
  datatype Tally = Tally(edges: map<string, (nat, nat)>, degree: map<NodeId, nat>, counted: set<EdgeId>)

  const EMPTY: Tally := Tally(map[], map[], {})

  function Bump<K>(m: map<K, nat>, k: K): map<K, nat> {
    m[k := (if k in m then m[k] else 0) + 1]
  }

  /** Count one lead's edge, once, from whichever end reached it first. */
  function Add(t: Tally, l: Lead, ty: string): Tally {
    if l.edge in t.counted then t
    else
      var slot := if ty in t.edges then t.edges[ty] else (0, 0);
      var slot' := if l.dir.Out? then (slot.0 + 1, slot.1) else (slot.0, slot.1 + 1);
      Tally(t.edges[ty := slot'], Bump(Bump(t.degree, l.from), l.node), t.counted + {l.edge})
  }

  function FathomVisit(p: Plane, t: Tally, h: Hop): (Tally, Step) {
    if h.lead.edge !in p.edges then (t, Skip)
    else (Add(t, h.lead, p.edges[h.lead.edge].ty), Take)
  }

  function FathomVisitor(p: Plane): Visitor<Tally> {
    (t, h) => FathomVisit(p, t, h)
  }

  function FathomNet(p: Plane, seed: NodeId, depth: nat): Net {
    Net(p, seed, FathomBounds(depth), (l: Lead) => l.edge in p.edges)
  }

  // ---- the tallies agree with the edges counted ----------------------------

  lemma SumBump<K(!new)>(m: map<K, nat>, k: K)
    ensures Sum(Bump(m, k)) == Sum(m) + 1
  {
    SumUpdate(m, k, (if k in m then m[k] else 0) + 1);
    if k in m {
      SumWithout(m, k);
    } else {
      assert m - {k} == m;
    }
  }

  ghost function OfType(p: Plane, counted: set<EdgeId>, ty: string): set<EdgeId> {
    set e | e in counted && e in p.edges && p.edges[e].ty == ty
  }

  ghost function From(p: Plane, counted: set<EdgeId>, n: NodeId): set<EdgeId> {
    set e | e in counted && e in p.edges && p.edges[e].src == n
  }

  ghost function To(p: Plane, counted: set<EdgeId>, n: NodeId): set<EdgeId> {
    set e | e in counted && e in p.edges && p.edges[e].dst == n
  }

  function Held<K>(m: map<K, nat>, k: K): nat {
    if k in m then m[k] else 0
  }

  function Totals(edges: map<string, (nat, nat)>): map<string, nat> {
    map ty | ty in edges :: edges[ty].0 + edges[ty].1
  }

  /** Per type and per node the tally is the exact count over the edges counted (a self-loop holds
      two ends of its node), so out + in sums to their number and the degrees to twice it. */
  ghost predicate Exact(p: Plane, t: Tally) {
    && t.counted <= p.edges.Keys
    && (forall ty :: Held(Totals(t.edges), ty) == |OfType(p, t.counted, ty)|)
    && (forall n :: Held(t.degree, n) == |From(p, t.counted, n)| + |To(p, t.counted, n)|)
    && Sum(Totals(t.edges)) == |t.counted|
    && Sum(t.degree) == 2 * |t.counted|
  }

  lemma NewEdgeOfType(p: Plane, counted: set<EdgeId>, e: EdgeId, ty: string)
    requires e in p.edges && e !in counted
    ensures |OfType(p, counted + {e}, ty)| == |OfType(p, counted, ty)| + if p.edges[e].ty == ty then 1 else 0
  {
    assert OfType(p, counted + {e}, ty) == OfType(p, counted, ty) + if p.edges[e].ty == ty then {e} else {};
  }

  lemma NewEdgeFrom(p: Plane, counted: set<EdgeId>, e: EdgeId, n: NodeId)
    requires e in p.edges && e !in counted
    ensures |From(p, counted + {e}, n)| == |From(p, counted, n)| + if p.edges[e].src == n then 1 else 0
  {
    assert From(p, counted + {e}, n) == From(p, counted, n) + if p.edges[e].src == n then {e} else {};
  }

  lemma NewEdgeTo(p: Plane, counted: set<EdgeId>, e: EdgeId, n: NodeId)
    requires e in p.edges && e !in counted
    ensures |To(p, counted + {e}, n)| == |To(p, counted, n)| + if p.edges[e].dst == n then 1 else 0
  {
    assert To(p, counted + {e}, n) == To(p, counted, n) + if p.edges[e].dst == n then {e} else {};
  }

  lemma BumpTotals(t: Tally, l: Lead, ty: string)
    requires l.edge !in t.counted
    ensures Totals(Add(t, l, ty).edges) == Bump(Totals(t.edges), ty)
    ensures Sum(Totals(Add(t, l, ty).edges)) == Sum(Totals(t.edges)) + 1
    ensures Sum(Add(t, l, ty).degree) == Sum(t.degree) + 2
  {
    assert Totals(Add(t, l, ty).edges) == Bump(Totals(t.edges), ty);
    SumBump(Totals(t.edges), ty);
    SumBump(t.degree, l.from);
    SumBump(Bump(t.degree, l.from), l.node);
  }

  lemma TypesStayExact(p: Plane, t: Tally, l: Lead)
    requires Exact(p, t) && l.edge in p.edges && l.edge !in t.counted
    ensures var t' := Add(t, l, p.edges[l.edge].ty);
            forall ty :: Held(Totals(t'.edges), ty) == |OfType(p, t'.counted, ty)|
  {
    var t' := Add(t, l, p.edges[l.edge].ty);
    BumpTotals(t, l, p.edges[l.edge].ty);
    forall ty
      ensures Held(Totals(t'.edges), ty) == |OfType(p, t'.counted, ty)|
    {
      NewEdgeOfType(p, t.counted, l.edge, ty);
    }
  }

  lemma DegreesStayExact(p: Plane, t: Tally, l: Lead)
    requires Exact(p, t) && IsLead(p, l, [Out, In], None) && l.edge !in t.counted
    ensures var t' := Add(t, l, p.edges[l.edge].ty);
            forall n :: Held(t'.degree, n) == |From(p, t'.counted, n)| + |To(p, t'.counted, n)|
  {
    var t' := Add(t, l, p.edges[l.edge].ty);
    forall n
      ensures Held(t'.degree, n) == |From(p, t'.counted, n)| + |To(p, t'.counted, n)|
    {
      NewEdgeFrom(p, t.counted, l.edge, n);
      NewEdgeTo(p, t.counted, l.edge, n);
      assert Held(t.degree, n) == |From(p, t.counted, n)| + |To(p, t.counted, n)|;
    }
  }

  lemma AddKeepsExact(p: Plane, t: Tally, l: Lead)
    requires Exact(p, t) && IsLead(p, l, [Out, In], None)
    ensures Exact(p, Add(t, l, p.edges[l.edge].ty))
    ensures Add(t, l, p.edges[l.edge].ty).counted == t.counted + {l.edge}
  {
    if l.edge !in t.counted {
      TypesStayExact(p, t, l);
      DegreesStayExact(p, t, l);
      BumpTotals(t, l, p.edges[l.edge].ty);
    } else {
      assert t.counted + {l.edge} == t.counted;
    }
  }

  // ---- sets of edges -----------------------------------------------------------

  /** Edges with an end in `nodes`. */
  ghost function Incident(p: Plane, nodes: set<NodeId>): set<EdgeId> {
    set e | e in p.edges && (p.edges[e].src in nodes || p.edges[e].dst in nodes)
  }

  /** Edges with both ends in `nodes`: the induced subgraph's. */
  ghost function Induced(p: Plane, nodes: set<NodeId>): set<EdgeId> {
    set e | e in p.edges && p.edges[e].src in nodes && p.edges[e].dst in nodes
  }

  function EdgesOf(leads: seq<Lead>): set<EdgeId> {
    set l | l in leads :: l.edge
  }

  lemma EdgesOfSnoc(done: seq<Lead>, l: Lead)
    ensures EdgesOf(done + [l]) == EdgesOf(done) + {l.edge}
  {
    assert forall x :: x in done + [l] <==> x in done || x == l;
  }

  // ---- tallying a run of leads ----------------------------------------------

  /** Close over one lead: count its edge when it stays in the region. */
  function CloseOne(p: Plane, seen: set<NodeId>, t: Tally, l: Lead): Tally {
    if l.node !in seen || l.edge in t.counted || l.edge !in p.edges then t
    else Add(t, l, p.edges[l.edge].ty)
  }

  function CloseAll(p: Plane, seen: set<NodeId>, t: Tally, leads: seq<Lead>): Tally {
    if leads == [] then t
    else CloseOne(p, seen, CloseAll(p, seen, t, leads[..|leads| - 1]), leads[|leads| - 1])
  }

  lemma {:induction false} CloseAllConcat(p: Plane, seen: set<NodeId>, t: Tally, a: seq<Lead>, b: seq<Lead>)
    ensures CloseAll(p, seen, t, a + b) == CloseAll(p, seen, CloseAll(p, seen, t, a), b)
  {
    if b == [] {
      assert a + b == a;
    } else {
      var k := |b| - 1;
      CloseAllConcat(p, seen, t, a, b[..k]);
      assert (a + b)[..|a + b| - 1] == a + b[..k];
    }
  }

  lemma {:induction false} CloseAllExact(p: Plane, seen: set<NodeId>, t: Tally, leads: seq<Lead>)
    requires Exact(p, t) && forall l :: l in leads ==> IsLead(p, l, [Out, In], None)
    ensures Exact(p, CloseAll(p, seen, t, leads))
  {
    if leads != [] {
      var k := |leads| - 1;
      CloseAllExact(p, seen, t, leads[..k]);
      assert leads[k] in leads;
      AddKeepsExact(p, CloseAll(p, seen, t, leads[..k]), leads[k]);
    }
  }

  /** The edges of `leads` that stay in the region. */
  ghost function Staying(seen: set<NodeId>, leads: seq<Lead>): set<EdgeId> {
    set l | l in leads && l.node in seen :: l.edge
  }

  lemma StayingSnoc(seen: set<NodeId>, leads: seq<Lead>, l: Lead)
    ensures Staying(seen, leads + [l]) == Staying(seen, leads) + if l.node in seen then {l.edge} else {}
  {
    assert forall x :: x in leads + [l] <==> x in leads || x == l;
  }

  lemma {:induction false} CloseAllCounts(p: Plane, seen: set<NodeId>, t: Tally, leads: seq<Lead>)
    requires forall l :: l in leads ==> l.edge in p.edges
    ensures CloseAll(p, seen, t, leads).counted == t.counted + Staying(seen, leads)
  {
    if leads != [] {
      var k := |leads| - 1;
      CloseAllCounts(p, seen, t, leads[..k]);
      StayingSnoc(seen, leads[..k], leads[k]);
      assert leads == leads[..k] + [leads[k]];
      assert leads[k] in leads;
    }
  }
}
