/** A region too large for the budget: `fathom` of a hub counts edges that leave the region it reports. */
module Overrun {
  import opened Collections
  import opened Planes
  import opened Walks
  import opened Nearest
  import opened Distances
  import opened Tallies
  import opened Fathom

  /** The other nodes an edge joins to `seed`, in either direction. */
  ghost function Others(p: Plane, seed: NodeId): set<NodeId> {
    set v | v in p.nodes && v != seed && Joined(p, seed, v)
  }

  lemma OthersAround(p: Plane, seed: NodeId, depth: nat)
    requires seed in p.nodes && depth >= 1
    ensures Others(p, seed) + {seed} <= Around(p, Joins(p), seed, depth)
  {
    assert IsRoute(Joins(p), [seed], seed, seed);
    forall v | v in Others(p, seed)
      ensures WithinHops(Joins(p), seed, v, depth)
    {
      assert IsRoute(Joins(p), [seed, v], seed, v);
    }
  }

  /** Whatever `fathom` makes of a node joined to as many others as its budget or more, at any depth, it
      counts an edge with an end outside the region. */
  lemma CrowdOverCounts(p: Plane, seed: NodeId, depth: nat, r: Region, t: Tally)
    requires seed in p.nodes && |Others(p, seed)| >= FATHOM_BUDGET && depth >= 1 && IsMakeup(p, seed, depth, r, t)
    ensures r.budgetHit && Induced(p, r.seen) < t.counted
  {
    OthersAround(p, seed, depth);
    NoLarger(Others(p, seed) + {seed}, Around(p, Joins(p), seed, depth));
  }

  // ---- one such plane --------------------------------------------------------

  function Below(n: nat): set<nat> {
    if n == 0 then {} else Below(n - 1) + {n - 1}
  }

  lemma {:induction false} BelowIs(n: nat)
    ensures |Below(n)| == n && forall v: nat :: v in Below(n) <==> v < n
  {
    if n > 0 {
      BelowIs(n - 1);
    }
  }

  function Callees(v: NodeId, edges: seq<EdgeId>): seq<EdgeId> {
    if v == 0 then edges else []
  }

  function Callers(v: NodeId): seq<EdgeId> {
    if v == 0 then [] else [v - 1]
  }

  function UpTo(n: nat): (r: seq<nat>)
    ensures |r| == n && forall i :: 0 <= i < n ==> r[i] == i
  {
    seq(n, i requires 0 <= i < n => i)
  }

  /** One caller, node 0, of `n` others. */
  function Hub(n: nat): Plane {
    var nodes, edges := Below(n + 1), UpTo(n);
    Plane(nodes, map e | e in Below(n) :: Edge(0, e + 1, "CALLS"),
          map v | v in nodes :: Callees(v, edges), map v | v in nodes :: Callers(v), map[])
  }

  /** The same, said of each table alone. */
  ghost predicate IsHub(p: Plane, n: nat) {
    && (forall v: nat :: v in p.nodes <==> v < n + 1)
    && (forall e: nat :: e in p.edges <==> e < n)
    && (forall e :: e in p.edges ==> p.edges[e] == Edge(0, e + 1, "CALLS"))
    && p.fwd.Keys == p.nodes && (forall v :: v in p.nodes ==> p.fwd[v] == Callees(v, UpTo(n)))
    && p.rev.Keys == p.nodes && (forall v :: v in p.nodes ==> p.rev[v] == Callers(v))
  }

  lemma HubIsHub(n: nat)
    ensures IsHub(Hub(n), n) && |Hub(n).nodes| == n + 1
  {
    BelowIs(n);
    BelowIs(n + 1);
  }

  lemma Listed(p: Plane, n: nat, dir: Dir, v: NodeId, e: EdgeId)
    requires IsHub(p, n) && v in p.nodes
    ensures e in p.Table(dir)[v] <==> e in p.edges && p.edges[e].Near(dir) == v
  {
    if dir.Out? && v == 0 && e < n {
      assert UpTo(n)[e] == e;
    }
  }

  lemma ListedOnce(p: Plane, n: nat, dir: Dir)
    requires IsHub(p, n)
    ensures p.Table(dir).Keys == p.nodes && forall v :: v in p.nodes ==> NoDup(p.Table(dir)[v])
  {
  }

  lemma HubIsPlane(p: Plane, n: nat)
    requires IsHub(p, n)
    ensures p.Valid()
  {
    forall dir: Dir, v, e | v in p.nodes
      ensures e in p.Table(dir)[v] <==> e in p.edges && p.edges[e].Near(dir) == v
    {
      Listed(p, n, dir, v, e);
    }
    forall dir: Dir
      ensures p.Table(dir).Keys == p.nodes && forall v :: v in p.nodes ==> NoDup(p.Table(dir)[v])
    {
      ListedOnce(p, n, dir);
    }
  }

  /** Whatever `fathom` makes of a hub with as many callees as its budget or more, at any depth, it
      counts an edge with an end outside the region. */
  method CountHub(n: nat, depth: nat) returns (r: Region, t: Tally)
    requires n >= FATHOM_BUDGET
    ensures Hub(n).Valid() && r.budgetHit && Induced(Hub(n), r.seen) < t.counted
  {
    HubIsHub(n);
    HubIsPlane(Hub(n), n);
    HubIsCrowded(Hub(n), n);
    r, t := RegionMakeup(Hub(n), 0, depth);
    var k := if depth < 1 then 1 else if depth > 6 then 6 else depth;
    assert DepthFor(depth, k);
    CrowdOverCounts(Hub(n), 0, k, r, t);
  }

  lemma HubIsCrowded(p: Plane, n: nat)
    requires IsHub(p, n) && |p.nodes| == n + 1
    ensures |Others(p, 0)| == n
  {
    forall v | v in p.nodes && v != 0
      ensures Joined(p, 0, v)
    {
      assert p.edges[v - 1] == Edge(0, v, "CALLS");
    }
    assert Others(p, 0) == p.nodes - {0};
  }
}
