/** Which way each edge is counted: from the end that stands earlier in the order nodes are walked. */
module TallyWays {
  import opened Collections
  import opened Planes
  import opened Walks
  import opened Tallies

  /** `u` stands in `ns`, and `v` not before it; a node not in `ns` stands after all that are. */
  ghost predicate NoLater(ns: seq<NodeId>, u: NodeId, v: NodeId) {
    exists i :: 0 <= i < |ns| && ns[i] == u && v !in ns[..i]
  }

  /** The edge's source stands no later than its target. */
  ghost predicate OutFirst(p: Plane, ns: seq<NodeId>, e: EdgeId)
    requires e in p.edges
  {
    NoLater(ns, p.edges[e].src, p.edges[e].dst)
  }

  ghost function Outward(p: Plane, ns: seq<NodeId>, counted: set<EdgeId>, ty: string): set<EdgeId> {
    set e | e in counted && e in p.edges && p.edges[e].ty == ty && OutFirst(p, ns, e)
  }

  ghost function Inward(p: Plane, ns: seq<NodeId>, counted: set<EdgeId>, ty: string): set<EdgeId> {
    set e | e in counted && e in p.edges && p.edges[e].ty == ty && !OutFirst(p, ns, e)
  }

  /** Of each type, as many are counted outward as have their source no later than their target, and as
      many inward as do not. */
  ghost predicate Directed(p: Plane, ns: seq<NodeId>, t: Tally) {
    forall ty :: ty in t.edges || |Outward(p, ns, t.counted, ty)| + |Inward(p, ns, t.counted, ty)| > 0 ==>
      ty in t.edges && t.edges[ty] == (|Outward(p, ns, t.counted, ty)|, |Inward(p, ns, t.counted, ty)|)
  }

  /** A lead whose other end is not behind it, nor itself again, is counted the way it is walked. */
  lemma LeadWay(p: Plane, ns: seq<NodeId>, i: nat, l: Lead)
    requires NoDup(ns) && i < |ns| && IsLead(p, l, [Out, In], None) && l.from == ns[i]
    requires l.node !in ns[..i] && (l.dir.In? ==> l.node != ns[i])
    ensures OutFirst(p, ns, l.edge) <==> l.dir.Out?
  {
    if l.dir.In? {
      assert ns[..i + 1] == ns[..i] + [ns[i]];
      assert forall j :: 0 <= j < i + 1 ==> ns[..i + 1][j] == ns[j];
      forall j | 0 <= j < |ns| && ns[j] == l.node
        ensures ns[i] in ns[..j]
      {
        assert j > i;
        assert ns[..j][i] == ns[i];
      }
    }
  }

  /** Every lead from the first `i` nodes that stays in `within` has its edge counted. */
  ghost predicate Settled(p: Plane, ns: seq<NodeId>, i: nat, within: set<NodeId>, counted: set<EdgeId>)
    requires i <= |ns|
  {
    forall l :: IsLead(p, l, [Out, In], None) && l.from in ns[..i] && l.node in within ==> l.edge in counted
  }

  /** So a lead back to one of them has, too. */
  lemma BackCounted(p: Plane, ns: seq<NodeId>, i: nat, within: set<NodeId>, counted: set<EdgeId>, l: Lead)
    requires i <= |ns| && Settled(p, ns, i, within, counted)
    requires IsLead(p, l, [Out, In], None) && l.from in within && l.node in ns[..i]
    ensures l.edge in counted
  {
    var back := Lead(l.node, if l.dir.Out? then In else Out, l.from, l.edge);
    assert IsLead(p, back, [Out, In], None);
  }

  lemma NewOutward(p: Plane, ns: seq<NodeId>, counted: set<EdgeId>, e: EdgeId, ty: string)
    requires e in p.edges && e !in counted
    ensures |Outward(p, ns, counted + {e}, ty)| ==
            |Outward(p, ns, counted, ty)| + if p.edges[e].ty == ty && OutFirst(p, ns, e) then 1 else 0
  {
    if p.edges[e].ty == ty && OutFirst(p, ns, e) {
      assert Outward(p, ns, counted + {e}, ty) == Outward(p, ns, counted, ty) + {e};
    } else {
      assert Outward(p, ns, counted + {e}, ty) == Outward(p, ns, counted, ty);
    }
  }

  lemma NewInward(p: Plane, ns: seq<NodeId>, counted: set<EdgeId>, e: EdgeId, ty: string)
    requires e in p.edges && e !in counted
    ensures |Inward(p, ns, counted + {e}, ty)| ==
            |Inward(p, ns, counted, ty)| + if p.edges[e].ty == ty && !OutFirst(p, ns, e) then 1 else 0
  {
    if p.edges[e].ty == ty && !OutFirst(p, ns, e) {
      assert Inward(p, ns, counted + {e}, ty) == Inward(p, ns, counted, ty) + {e};
    } else {
      assert Inward(p, ns, counted + {e}, ty) == Inward(p, ns, counted, ty);
    }
  }

  lemma AddDirected(p: Plane, ns: seq<NodeId>, t: Tally, l: Lead)
    requires Directed(p, ns, t) && l.edge in p.edges && l.edge !in t.counted
    requires OutFirst(p, ns, l.edge) <==> l.dir.Out?
    ensures Directed(p, ns, Add(t, l, p.edges[l.edge].ty))
  {
    var t' := Add(t, l, p.edges[l.edge].ty);
    forall ty | ty in t'.edges || |Outward(p, ns, t'.counted, ty)| + |Inward(p, ns, t'.counted, ty)| > 0
      ensures ty in t'.edges && t'.edges[ty] == (|Outward(p, ns, t'.counted, ty)|, |Inward(p, ns, t'.counted, ty)|)
    {
      NewOutward(p, ns, t.counted, l.edge, ty);
      NewInward(p, ns, t.counted, l.edge, ty);
    }
  }

  /** What one node offers in one direction is counted that way. */
  lemma {:induction false} PhaseDirected(p: Plane, ns: seq<NodeId>, i: nat, dir: Dir, within: set<NodeId>, t: Tally, leads: seq<Lead>)
    requires NoDup(ns) && i < |ns| && Elems(ns) <= within && Directed(p, ns, t) && Settled(p, ns, i, within, t.counted)
    requires forall l :: l in leads ==> IsLead(p, l, [Out, In], None) && l.from == ns[i] && l.dir == dir
    requires dir.In? ==> forall l :: IsLead(p, l, [Out, In], None) && l.from == ns[i] && l.dir.Out? && l.node in within ==> l.edge in t.counted
    ensures Directed(p, ns, CloseAll(p, within, t, leads))
    ensures CloseAll(p, within, t, leads).counted == t.counted + Staying(within, leads)
  {
    CloseAllCounts(p, within, t, leads);
    if leads != [] {
      var k := |leads| - 1;
      PhaseDirected(p, ns, i, dir, within, t, leads[..k]);
      assert leads[k] in leads;
      LeadDirected(p, ns, i, within, t, CloseAll(p, within, t, leads[..k]), leads[k]);
    }
  }

  lemma LeadDirected(p: Plane, ns: seq<NodeId>, i: nat, within: set<NodeId>, t: Tally, now: Tally, l: Lead)
    requires NoDup(ns) && i < |ns| && Elems(ns) <= within && Settled(p, ns, i, within, t.counted)
    requires Directed(p, ns, now) && t.counted <= now.counted
    requires IsLead(p, l, [Out, In], None) && l.from == ns[i]
    requires l.dir.In? ==> forall x :: IsLead(p, x, [Out, In], None) && x.from == ns[i] && x.dir.Out? && x.node in within ==> x.edge in t.counted
    ensures Directed(p, ns, CloseOne(p, within, now, l))
  {
    assert ns[i] in Elems(ns);
    if l.node in within && l.edge !in now.counted {
      if l.node in ns[..i] {
        BackCounted(p, ns, i, within, t.counted, l);
      }
      var loop := Lead(ns[i], Out, l.node, l.edge);
      assert l.dir.In? && l.node == ns[i] ==> IsLead(p, loop, [Out, In], None);
      LeadWay(p, ns, i, l);
      AddDirected(p, ns, now, l);
    }
  }

  lemma BothPhases(p: Plane, n: NodeId)
    requires p.Valid()
    ensures NodeLeads(p, n, [Out, In], None) ==
            LeadsTo(n, Out, p.Neighbors(n, Out, None)) + LeadsTo(n, In, p.Neighbors(n, In, None))
  {
    var none: seq<Dir> := [];
    assert [Out, In][..1] == [Out] && [Out][..0] == none;
    assert NodeLeads(p, n, [Out], None) == [] + LeadsTo(n, Out, p.Neighbors(n, Out, None));
  }

  /** The leads of one node in one direction. */
  lemma PhaseLeads(p: Plane, n: NodeId, dir: Dir, l: Lead)
    requires p.Valid()
    ensures l in LeadsTo(n, dir, p.Neighbors(n, dir, None)) <==> IsLead(p, l, [Out, In], None) && l.from == n && l.dir == dir
  {
    LeadsToIff(n, dir, p.Neighbors(n, dir, None), l);
    p.NeighborsIff(n, dir, None, Neighbor(l.node, l.edge));
  }

  /** A node's whole turn settles it as well. */
  lemma NodeDirected(p: Plane, ns: seq<NodeId>, i: nat, within: set<NodeId>, t: Tally) returns (t': Tally)
    requires p.Valid() && NoDup(ns) && i < |ns| && Elems(ns) <= within && Directed(p, ns, t) && Settled(p, ns, i, within, t.counted)
    ensures t' == CloseAll(p, within, t, NodeLeads(p, ns[i], [Out, In], None))
    ensures Directed(p, ns, t') && Settled(p, ns, i + 1, within, t'.counted)
  {
    var outs, ins := LeadsTo(ns[i], Out, p.Neighbors(ns[i], Out, None)), LeadsTo(ns[i], In, p.Neighbors(ns[i], In, None));
    BothPhases(p, ns[i]);
    CloseAllConcat(p, within, t, outs, ins);
    forall l
      ensures l in outs <==> IsLead(p, l, [Out, In], None) && l.from == ns[i] && l.dir.Out?
      ensures l in ins <==> IsLead(p, l, [Out, In], None) && l.from == ns[i] && l.dir.In?
    {
      PhaseLeads(p, ns[i], Out, l);
      PhaseLeads(p, ns[i], In, l);
    }
    var mid := CloseAll(p, within, t, outs);
    PhaseDirected(p, ns, i, Out, within, t, outs);
    PhaseDirected(p, ns, i, In, within, mid, ins);
    TurnSettles(p, ns, i, within, t.counted, outs, ins);
    t' := CloseAll(p, within, mid, ins);
  }

  lemma TurnSettles(p: Plane, ns: seq<NodeId>, i: nat, within: set<NodeId>, counted: set<EdgeId>, outs: seq<Lead>, ins: seq<Lead>)
    requires i < |ns| && Settled(p, ns, i, within, counted)
    requires forall l :: l in outs <==> IsLead(p, l, [Out, In], None) && l.from == ns[i] && l.dir.Out?
    requires forall l :: l in ins <==> IsLead(p, l, [Out, In], None) && l.from == ns[i] && l.dir.In?
    ensures Settled(p, ns, i + 1, within, (counted + Staying(within, outs)) + Staying(within, ins))
  {
    forall l | IsLead(p, l, [Out, In], None) && l.from in ns[..i + 1] && l.node in within
      ensures l.edge in (counted + Staying(within, outs)) + Staying(within, ins)
    {
      assert l.from in ns[..i] || l.from == ns[i];
      assert l.from == ns[i] ==> l in outs || l in ins;
    }
  }

  lemma {:induction false} LeadsConcat(p: Plane, a: seq<NodeId>, c: seq<NodeId>, b: Bounds)
    requires p.Valid()
    ensures Leads(p, a + c, b) == Leads(p, a, b) + Leads(p, c, b)
  {
    if c == [] {
      assert a + c == a;
    } else {
      var k := |c| - 1;
      LeadsConcat(p, a, c[..k], b);
      assert (a + c)[..|a + c| - 1] == a + c[..k];
      Assoc(Leads(p, a, b), Leads(p, c[..k], b), NodeLeads(p, c[k], b.dirs, b.ty));
    }
  }

  /** What holds before a node's turn, and so before every turn of a stretch. */
  type Turns = (int, Tally) -> bool

  ghost predicate EachTurnKeeps(p: Plane, ns: seq<NodeId>, within: set<NodeId>, ok: Turns)
    requires p.Valid()
  {
    forall j, x :: 0 <= j < |ns| && ok(j, x) ==> ok(j + 1, CloseAll(p, within, x, NodeLeads(p, ns[j], [Out, In], None)))
  }

  lemma {:induction false} StretchKeeps(p: Plane, ns: seq<NodeId>, w: nat, i: nat, b: Bounds, within: set<NodeId>, t: Tally, ok: Turns)
    requires p.Valid() && w <= i <= |ns| && b.dirs == [Out, In] && b.ty == None
    requires EachTurnKeeps(p, ns, within, ok) && ok(w, t)
    ensures ok(i, CloseAll(p, within, t, Leads(p, ns[w..i], b)))
    decreases i - w
  {
    if i == w {
      assert ns[w..i] == [];
    } else {
      StretchKeeps(p, ns, w, i - 1, b, within, t, ok);
      StretchNext(p, ns, w, i, b, within, t);
      TurnKept(p, ns, within, ok, i - 1, CloseAll(p, within, t, Leads(p, ns[w..i - 1], b)));
    }
  }

  lemma TurnKept(p: Plane, ns: seq<NodeId>, within: set<NodeId>, ok: Turns, j: nat, x: Tally)
    requires p.Valid() && EachTurnKeeps(p, ns, within, ok) && j < |ns| && ok(j, x)
    ensures ok(j + 1, CloseAll(p, within, x, NodeLeads(p, ns[j], [Out, In], None)))
  {
  }

  ghost predicate Turned(p: Plane, ns: seq<NodeId>, within: set<NodeId>, i: int, t: Tally) {
    0 <= i <= |ns| && Directed(p, ns, t) && Settled(p, ns, i, within, t.counted)
  }

  lemma TurnedWithin(p: Plane, ns: seq<NodeId>, i: nat, within: set<NodeId>, less: set<NodeId>, t: Tally)
    requires Turned(p, ns, within, i, t) && less <= within
    ensures Turned(p, ns, less, i, t)
  {
  }

  /** A stretch of nodes walked in order, each hop counted when it stays in `within`, is counted the way
      the order says. */
  lemma StretchDirected(p: Plane, ns: seq<NodeId>, w: nat, i: nat, b: Bounds, within: set<NodeId>, t: Tally)
    requires p.Valid() && NoDup(ns) && w <= i <= |ns| && Elems(ns) <= within && b.dirs == [Out, In] && b.ty == None
    requires Turned(p, ns, within, w, t)
    ensures Turned(p, ns, within, i, CloseAll(p, within, t, Leads(p, ns[w..i], b)))
  {
    var ok := (j, x) => Turned(p, ns, within, j, x);
    forall j, x | 0 <= j < |ns| && ok(j, x)
      ensures ok(j + 1, CloseAll(p, within, x, NodeLeads(p, ns[j], [Out, In], None)))
    {
      var _ := NodeDirected(p, ns, j, within, x);
    }
    StretchKeeps(p, ns, w, i, b, within, t, ok);
  }

  lemma StretchNext(p: Plane, ns: seq<NodeId>, w: nat, i: nat, b: Bounds, within: set<NodeId>, t: Tally)
    requires p.Valid() && w < i <= |ns| && b.dirs == [Out, In] && b.ty == None
    ensures CloseAll(p, within, t, Leads(p, ns[w..i], b)) ==
            CloseAll(p, within, CloseAll(p, within, t, Leads(p, ns[w..i - 1], b)), NodeLeads(p, ns[i - 1], [Out, In], None))
  {
    assert ns[w..i] == ns[w..i - 1] + [ns[i - 1]];
    assert ns[w..i][..|ns[w..i]| - 1] == ns[w..i - 1];
    CloseAllConcat(p, within, t, Leads(p, ns[w..i - 1], b), NodeLeads(p, ns[i - 1], b.dirs, b.ty));
  }

  /** Nothing left to count, nothing changes. */
  lemma {:induction false} CloseIdle(p: Plane, within: set<NodeId>, t: Tally, leads: seq<Lead>)
    requires forall l :: l in leads && l.node in within ==> l.edge in t.counted
    ensures CloseAll(p, within, t, leads) == t
  {
    if leads != [] {
      CloseIdle(p, within, t, leads[..|leads| - 1]);
      assert leads[|leads| - 1] in leads;
    }
  }
}
