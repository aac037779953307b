/** A plane as the walks read it: a finite directed multigraph with typed edges.
    Self-loops and parallel edges are ordinary edges here. */
module Planes {
  import opened Collections

  type NodeId = nat
  type EdgeId = nat

  datatype Dir = Out | In

  datatype Edge = Edge(src: NodeId, dst: NodeId, ty: string) {
    /** The end an adjacency scan in direction `dir` starts from. */
    function Near(dir: Dir): NodeId {
      if dir.Out? then src else dst
    }

    /** The end that scan reports. */
    function Far(dir: Dir): NodeId {
      if dir.Out? then dst else src
    }
  }

  datatype Neighbor = Neighbor(node: NodeId, edge: EdgeId)

  predicate Matches(edge: Edge, ty: Option<string>) {
    ty.None? || edge.ty == ty.value
  }

  function Elems<T>(s: seq<T>): set<T> {
    set x | x in s
  }

  lemma ElemsOfConcat<T>(a: seq<T>, b: seq<T>)
    ensures Elems(a + b) == Elems(a) + Elems(b)
  {
  }

  /** `fwd` and `rev` are the two adjacency tables: every edge is listed exactly
      once under its source in the first and once under its target in the second. */
  datatype Plane = Plane(
    nodes: set<NodeId>,
    edges: map<EdgeId, Edge>,
    fwd: map<NodeId, seq<EdgeId>>,
    rev: map<NodeId, seq<EdgeId>>,
    keys: map<NodeId, string>)
  {
    function Table(dir: Dir): map<NodeId, seq<EdgeId>> {
      if dir.Out? then fwd else rev
    }

    ghost predicate Valid() {
      && (forall e :: e in edges ==> edges[e].src in nodes && edges[e].dst in nodes)
      && (forall dir: Dir :: Table(dir).Keys == nodes)
      && (forall dir: Dir, n :: n in nodes ==> NoDup(Table(dir)[n]))
      && (forall dir: Dir, n, e :: n in nodes ==>
            (e in Table(dir)[n] <==> e in edges && edges[e].Near(dir) == n))
    }

    /** One-hop expansion; an unknown node has no neighbours. */
    function Neighbors(n: NodeId, dir: Dir, ty: Option<string>): seq<Neighbor>
      requires Valid()
    {
      if n in Table(dir) then Scan(Table(dir)[n], dir, ty) else []
    }

    function Scan(ids: seq<EdgeId>, dir: Dir, ty: Option<string>): seq<Neighbor>
      requires forall e :: e in ids ==> e in edges
    {
      if ids == [] then []
      else
        var rest := Scan(ids[1..], dir, ty);
        if Matches(edges[ids[0]], ty)
        then [Neighbor(edges[ids[0]].Far(dir), ids[0])] + rest
        else rest
    }

    lemma ScanIff(ids: seq<EdgeId>, dir: Dir, ty: Option<string>, nb: Neighbor)
      requires forall e :: e in ids ==> e in edges
      ensures nb in Scan(ids, dir, ty) <==>
              nb.edge in ids && edges[nb.edge].Far(dir) == nb.node && Matches(edges[nb.edge], ty)
    {
    }

    lemma NeighborsIff(n: NodeId, dir: Dir, ty: Option<string>, nb: Neighbor)
      requires Valid()
      ensures nb in Neighbors(n, dir, ty) <==>
              && nb.edge in edges && edges[nb.edge].Near(dir) == n
              && edges[nb.edge].Far(dir) == nb.node && Matches(edges[nb.edge], ty)
    {
      if n in Table(dir) {
        ScanIff(Table(dir)[n], dir, ty, nb);
      }
    }
  }
}
