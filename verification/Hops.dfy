/** Layout distances of the neighbourhood map: breadth-first search from the centre,
    ignoring the direction of the edges. */
module Hops {
  import opened Prelude

  type Node = string

  datatype Edge = Edge(from: Node, to: Node)

  ghost predicate Adjacent(edges: seq<Edge>, a: Node, b: Node) {
    Edge(a, b) in edges || Edge(b, a) in edges
  }

  /** A walk along undirected edges. */
  ghost predicate IsWalk(edges: seq<Edge>, walk: seq<Node>, a: Node, b: Node) {
    && walk != [] && walk[0] == a && walk[|walk| - 1] == b
    && forall i | 0 <= i < |walk| - 1 :: Adjacent(edges, walk[i], walk[i + 1])
  }

  ghost predicate Connected(edges: seq<Edge>, a: Node, b: Node) {
    exists walk :: IsWalk(edges, walk, a, b)
  }

  /** n is the number of edges of a shortest walk from a to b. */
  ghost predicate IsDistance(edges: seq<Edge>, a: Node, b: Node, n: nat) {
    && (exists walk :: IsWalk(edges, walk, a, b) && |walk| == n + 1)
    && (forall walk :: IsWalk(edges, walk, a, b) ==> n + 1 <= |walk|)
  }

  type Adjacency = map<Node, set<Node>>

  ghost predicate Represents(adjacency: Adjacency, edges: seq<Edge>) {
    forall a, b :: (a in adjacency && b in adjacency[a]) <==> Adjacent(edges, a, b)
  }

  function Link(adjacency: Adjacency, a: Node, b: Node): Adjacency {
    adjacency[a := (if a in adjacency then adjacency[a] else {}) + {b}]
  }

  lemma LinkBoth(adjacency: Adjacency, edges: seq<Edge>, e: Edge)
    requires Represents(adjacency, edges)
    ensures Represents(Link(Link(adjacency, e.from, e.to), e.to, e.from), edges + [e])
  {
    var after := Link(Link(adjacency, e.from, e.to), e.to, e.from);
    forall a, b ensures (a in after && b in after[a]) <==> Adjacent(edges + [e], a, b) {
      assert Adjacent(edges + [e], a, b) <==> Adjacent(edges, a, b) || e == Edge(a, b) || e == Edge(b, a);
      assert (a in adjacency && b in adjacency[a]) <==> Adjacent(edges, a, b);
    }
  }

  method BuildAdjacency(edges: seq<Edge>) returns (adjacency: Adjacency)
    ensures Represents(adjacency, edges)
  {
    adjacency := map[];
    for i := 0 to |edges|
      invariant Represents(adjacency, edges[..i])
    {
      var e := edges[i];
      assert edges[..i + 1] == edges[..i] + [e];
      LinkBoth(adjacency, edges[..i], e);
      adjacency := Link(adjacency, e.from, e.to);
      adjacency := Link(adjacency, e.to, e.from);
    }
    assert edges[..|edges|] == edges;
  }

  function Neighbours(adjacency: Adjacency, a: Node): set<Node> {
    if a in adjacency then adjacency[a] else {}
  }

  function Endpoints(edges: seq<Edge>): set<Node> {
    (set e | e in edges :: e.from) + (set e | e in edges :: e.to)
  }

  type Distances = map<Node, nat>

  /** Every recorded distance is realised by a walk. */
  ghost predicate Realised(edges: seq<Edge>, center: Node, distance: Distances) {
    forall v | v in distance :: exists walk :: IsWalk(edges, walk, center, v) && |walk| == distance[v] + 1
  }

  /** All neighbours of u are reached, at most one hop further. */
  ghost predicate Relaxed(edges: seq<Edge>, distance: Distances, u: Node)
    requires u in distance
  {
    forall v | Adjacent(edges, u, v) :: v in distance && distance[v] <= distance[u] + 1
  }

  /** The queue is ordered by distance and spans at most one more than `base`. */
  ghost predicate QueueOrdered(distance: Distances, queue: seq<Node>, base: nat) {
    && (forall i | 0 <= i < |queue| :: queue[i] in distance && base <= distance[queue[i]] <= base + 1)
    && (forall i, j | 0 <= i < j < |queue| :: distance[queue[i]] <= distance[queue[j]])
    && (forall v | v in distance :: distance[v] <= base + 1)
  }

  lemma Extend(edges: seq<Edge>, center: Node, distance: Distances, u: Node, v: Node)
    requires Realised(edges, center, distance) && u in distance && Adjacent(edges, u, v)
    ensures Realised(edges, center, distance[v := distance[u] + 1])
  {
    var walk :| IsWalk(edges, walk, center, u) && |walk| == distance[u] + 1;
    assert IsWalk(edges, walk + [v], center, v);
  }

  lemma {:induction false} WalkBound(
    edges: seq<Edge>, center: Node, distance: Distances, walk: seq<Node>, k: nat, v: Node)
    requires center in distance && distance[center] == 0
    requires forall u | u in distance :: Relaxed(edges, distance, u)
    requires IsWalk(edges, walk, center, v) && k < |walk|
    ensures walk[k] in distance && distance[walk[k]] <= k
  {
    if k > 0 {
      WalkBound(edges, center, distance, walk, k - 1, v);
      assert Adjacent(edges, walk[k - 1], walk[k]);
    }
  }

  /** A realised and fully relaxed table holds exactly the distances of the connected nodes. */
  lemma RelaxedIsExact(edges: seq<Edge>, center: Node, distance: Distances)
    requires Realised(edges, center, distance) && center in distance && distance[center] == 0
    requires forall u | u in distance :: Relaxed(edges, distance, u)
    ensures forall v :: v in distance <==> Connected(edges, center, v)
    ensures forall v | v in distance :: IsDistance(edges, center, v, distance[v])
  {
    forall v, walk | IsWalk(edges, walk, center, v) ensures v in distance && distance[v] + 1 <= |walk| {
      WalkBound(edges, center, distance, walk, |walk| - 1, v);
    }
  }

  lemma NeighboursAreEndpoints(edges: seq<Edge>, a: Node, b: Node)
    requires Adjacent(edges, a, b)
    ensures b in Endpoints(edges)
  {
  }

  /** Later tables keep the distances of earlier ones. */
  ghost predicate Extends(before: Distances, after: Distances) {
    before.Keys <= after.Keys && forall u | u in before :: after[u] == before[u]
  }

  lemma RelaxedStays(edges: seq<Edge>, before: Distances, after: Distances, u: Node)
    requires u in before && Extends(before, after) && Relaxed(edges, before, u)
    ensures Relaxed(edges, after, u)
  {
  }

  lemma EnqueueKeepsOrder(distance: Distances, queue: seq<Node>, base: nat, next: Node)
    requires QueueOrdered(distance, queue, base) && next !in distance
    ensures QueueOrdered(distance[next := base + 1], queue + [next], base)
  {
  }

  /** The search after reaching some neighbours of `current`: from `reached` and `waiting` on. */
  ghost predicate Grown(
    edges: seq<Edge>, center: Node, current: Node, reached: Distances, waiting: seq<Node>,
    distance: Distances, queue: seq<Node>)
  {
    && current in reached && Extends(reached, distance) && distance.Keys <= reached.Keys + Endpoints(edges)
    && Realised(edges, center, distance) && QueueOrdered(distance, queue, distance[current])
    && waiting <= queue && (forall u | u in distance && u !in reached :: u in queue)
    && (distance.Keys == reached.Keys ==> queue == waiting)
  }

  lemma GrowOne(
    edges: seq<Edge>, center: Node, current: Node, reached: Distances, waiting: seq<Node>,
    distance: Distances, queue: seq<Node>, next: Node)
    requires Grown(edges, center, current, reached, waiting, distance, queue)
    requires Adjacent(edges, current, next) && next !in distance
    ensures Grown(edges, center, current, reached, waiting, distance[next := distance[current] + 1], queue + [next])
  {
    Extend(edges, center, distance, current, next);
    NeighboursAreEndpoints(edges, current, next);
    EnqueueKeepsOrder(distance, queue, distance[current], next);
  }

  /** Reach every neighbour of the node taken from the queue, in any order. */
  method VisitNeighbours(
    ghost edges: seq<Edge>, adjacency: Adjacency, ghost center: Node,
    current: Node, reached: Distances, waiting: seq<Node>)
    returns (distance: Distances, queue: seq<Node>)
    requires Represents(adjacency, edges) && Grown(edges, center, current, reached, waiting, reached, waiting)
    ensures Grown(edges, center, current, reached, waiting, distance, queue)
    ensures forall v | Adjacent(edges, current, v) :: v in distance
  {
    distance, queue := reached, waiting;
    var todo := Neighbours(adjacency, current);
    while todo != {}
      invariant todo <= Neighbours(adjacency, current)
      invariant Grown(edges, center, current, reached, waiting, distance, queue)
      invariant forall v | v in Neighbours(adjacency, current) - todo :: v in distance
      decreases todo
    {
      var next :| next in todo;
      todo := todo - {next};
      assert Adjacent(edges, current, next);
      if next !in distance {
        GrowOne(edges, center, current, reached, waiting, distance, queue, next);
        distance := distance[next := distance[current] + 1];
        queue := queue + [next];
      }
    }
    forall v | Adjacent(edges, current, v) ensures v in distance {
      assert v in Neighbours(adjacency, current);
    }
  }

  /** What the queue loop keeps: whatever has left the queue is relaxed. */
  ghost predicate Frontier(edges: seq<Edge>, distance: Distances, queue: seq<Node>) {
    && (forall u | u in distance && u !in queue :: Relaxed(edges, distance, u))
    && (queue != [] ==> queue[0] in distance && QueueOrdered(distance, queue, distance[queue[0]]))
  }

  lemma FrontierStep(
    edges: seq<Edge>, before: Distances, waiting: seq<Node>, after: Distances, queue: seq<Node>)
    requires waiting != [] && Frontier(edges, before, waiting)
    requires Extends(before, after) && Relaxed(edges, after, waiting[0])
    requires QueueOrdered(after, queue, after[waiting[0]])
    requires waiting[1..] <= queue && forall u | u in after && u !in before :: u in queue
    ensures Frontier(edges, after, queue)
  {
    forall u | u in after && u !in queue ensures Relaxed(edges, after, u) {
      if u != waiting[0] {
        assert forall i | 0 < i < |waiting| :: waiting[i] == queue[i - 1];
        assert u !in waiting;
        RelaxedStays(edges, before, after, u);
      }
    }
  }

  ghost predicate Search(edges: seq<Edge>, center: Node, distance: Distances, queue: seq<Node>) {
    && center in distance && distance[center] == 0
    && distance.Keys <= Endpoints(edges) + {center}
    && Realised(edges, center, distance) && Frontier(edges, distance, queue)
  }

  lemma SearchStarts(edges: seq<Edge>, center: Node)
    ensures Search(edges, center, map[center := 0], [center])
  {
    assert IsWalk(edges, [center], center, center);
  }

  lemma NextInQueue(edges: seq<Edge>, center: Node, distance: Distances, queue: seq<Node>)
    requires Search(edges, center, distance, queue) && queue != []
    ensures Grown(edges, center, queue[0], distance, queue[1..], distance, queue[1..])
  {
  }

  /** The node just visited is relaxed, and so the search goes on. */
  lemma SearchStep(
    edges: seq<Edge>, center: Node, before: Distances, waiting: seq<Node>, after: Distances, queue: seq<Node>)
    requires Search(edges, center, before, waiting) && waiting != []
    requires Grown(edges, center, waiting[0], before, waiting[1..], after, queue)
    requires forall v | Adjacent(edges, waiting[0], v) :: v in after
    ensures Search(edges, center, after, queue)
    ensures before.Keys <= after.Keys && (after.Keys == before.Keys ==> |queue| < |waiting|)
  {
    assert Relaxed(edges, after, waiting[0]);
    FrontierStep(edges, before, waiting, after, queue);
  }

  /** Take the next node from the queue. */
  method VisitNext(
    ghost edges: seq<Edge>, adjacency: Adjacency, ghost center: Node, before: Distances, waiting: seq<Node>)
    returns (distance: Distances, queue: seq<Node>)
    requires Represents(adjacency, edges) && Search(edges, center, before, waiting) && waiting != []
    ensures Search(edges, center, distance, queue)
    ensures before.Keys <= distance.Keys <= Endpoints(edges) + {center}
    ensures distance.Keys == before.Keys ==> |queue| < |waiting|
  {
    NextInQueue(edges, center, before, waiting);
    distance, queue := VisitNeighbours(edges, adjacency, center, waiting[0], before, waiting[1..]);
    SearchStep(edges, center, before, waiting, distance, queue);
  }

  lemma SearchEnds(edges: seq<Edge>, center: Node, distance: Distances)
    requires Search(edges, center, distance, [])
    ensures forall v :: v in distance <==> Connected(edges, center, v)
    ensures forall v | v in distance :: IsDistance(edges, center, v, distance[v])
  {
    RelaxedIsExact(edges, center, distance);
  }

  /** The distance map covers exactly the nodes connected to the centre, each with the length of a
      shortest undirected walk; the order in which neighbours are visited does not matter. */
  method HopDistances(edges: seq<Edge>, center: Node) returns (distance: Distances)
    ensures forall v :: v in distance <==> Connected(edges, center, v)
    ensures forall v | v in distance :: IsDistance(edges, center, v, distance[v])
  {
    var adjacency := BuildAdjacency(edges);
    distance := map[center := 0];
    var queue := [center];
    SearchStarts(edges, center);
    while queue != []
      invariant Search(edges, center, distance, queue)
      decreases Endpoints(edges) + {center} - distance.Keys, |queue|
    {
      distance, queue := VisitNext(edges, adjacency, center, distance, queue);
    }
    SearchEnds(edges, center, distance);
  }
}
