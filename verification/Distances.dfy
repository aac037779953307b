/** Distance by routes alone, and that the balls and rings of a walk are exactly it. */
module Distances {
  import opened Collections
  import opened Planes
  import opened Walks
  import opened Nearest

  /** The depth a walk asked for `asked` hops goes to: one to six. */
  ghost predicate DepthFor(asked: nat, depth: nat) {
    (1 <= asked <= 6 && depth == asked) || (asked == 0 && depth == 1) || (asked > 6 && depth == 6)
  }

  ghost predicate IsRoute(link: Links, route: seq<NodeId>, from: NodeId, to: NodeId) {
    && route != [] && route[0] == from && route[|route| - 1] == to
    && forall i :: 0 <= i < |route| - 1 ==> link(route[i], route[i + 1])
  }

  /** Some route has at most `k` hops. */
  ghost predicate WithinHops(link: Links, from: NodeId, to: NodeId, k: int) {
    exists route :: IsRoute(link, route, from, to) && |route| - 1 <= k
  }

  /** The shortest route has `k` hops. */
  ghost predicate HopsAway(link: Links, from: NodeId, to: NodeId, k: int) {
    WithinHops(link, from, to, k) && !WithinHops(link, from, to, k - 1)
  }

  ghost predicate SameLinks(net: Net, link: Links) {
    forall u, v :: net.Linked(u, v) <==> link(u, v)
  }

  /** Balls as routes see them. */
  ghost predicate Measures(ball: Balls, link: Links, from: NodeId) {
    forall k: nat, n :: n in ball(k) <==> WithinHops(link, from, n, k)
  }

  lemma RoutesMeasure(ball: Balls, link: Links, from: NodeId)
    requires Growing(ball) && Rooted(ball, link, from) && Advances(ball, link)
    ensures Measures(ball, link, from)
  {
    forall k: nat, n
      ensures n in ball(k) <==> WithinHops(link, from, n, k)
    {
      if n in ball(k) {
        var path := PathBack(ball, link, from, k, n);
        assert IsRoute(link, path, from, n);
      }
      if route :| IsRoute(link, route, from, n) && |route| - 1 <= k {
        PathForward(ball, link, route);
        assert ball(|route| - 1) <= ball(k);
      }
    }
  }

  lemma BallsMeasure(net: Net, link: Links)
    requires net.plane.Valid() && SameLinks(net, link)
    ensures Growing(net.Ball) && Measures(net.Ball, link, net.seed)
  {
    BallsGrowAndSettle(net);
    net.LinksAdvance();
    LinksRoot(net, link);
    RoutesMeasure(net.Ball, link, net.seed);
  }

  lemma LinksRoot(net: Net, link: Links)
    requires SameLinks(net, link)
    ensures Rooted(net.Ball, link, net.seed)
  {
    forall k: nat, v | k > 0 && v in Ring(net.Ball, k)
      ensures exists u :: u in net.Ball(k - 1) && link(u, v)
    {
      var u :| u in net.Ball(k - 1) && net.Linked(u, v);
    }
  }

  lemma RingIff(ball: Balls, link: Links, from: NodeId, k: nat, n: NodeId)
    requires Measures(ball, link, from)
    ensures n in Ring(ball, k) <==> HopsAway(link, from, n, k)
  {
    assert n in ball(k) <==> WithinHops(link, from, n, k);
    if k > 0 {
      assert n in ball(k - 1) <==> WithinHops(link, from, n, k - 1);
    } else {
      NoRouteBelow(link, from, n);
    }
  }

  lemma NoRouteBelow(link: Links, from: NodeId, to: NodeId)
    ensures !WithinHops(link, from, to, -1)
  {
  }

  /** A ball, as the nodes a route of so many hops ends at. */
  ghost function Around(p: Plane, link: Links, from: NodeId, k: int): set<NodeId> {
    set n | n in p.nodes && WithinHops(link, from, n, k)
  }

  lemma BallIsAround(p: Plane, ball: Balls, link: Links, from: NodeId, k: nat)
    requires Measures(ball, link, from) && ball(k) <= p.nodes
    ensures ball(k) == Around(p, link, from, k)
  {
  }
}
