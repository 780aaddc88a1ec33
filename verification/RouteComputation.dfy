/** `compute_routes` in its imperative form: the search loop, the walk back over
    predecessors, and the table built from them, each proved equal to a function of the
    costs alone, and that function proved against shortest paths. */
module RouteComputation {
  import opened Base
  import opened ShortestPath
  import opened LinkState
  import opened Dijkstra

  // ---------------------------------------------------------------------------
  // The table as a function

  /** What the walk back relies on. */
  ghost predicate Walkable(local: NodeId, s: Search) {
    forall v | v in s.dist && s.dist[v] < U32_MAX && v != local ::
      && v in s.prev && s.prev[v] in s.dist && s.dist[s.prev[v]] < U32_MAX
      && v in s.rank && s.prev[v] in s.rank && s.rank[s.prev[v]] < s.rank[v]
  }

  lemma FinishedWalkable(g: Graph, local: NodeId, s: Search)
    requires Finished(g, local, s)
    ensures Walkable(local, s)
  {
    hide Relaxed, Earliest, Greedy, Ranked;
  }

  /** The path that the predecessors of `v` spell, from `local` to `v`. */
  ghost function TreePath(local: NodeId, s: Search, v: NodeId): (p: seq<NodeId>)
    requires Walkable(local, s) && v in s.dist && s.dist[v] < U32_MAX
    ensures |p| > 0 && p[0] == local && p[|p| - 1] == v && (v != local ==> |p| >= 2)
    decreases if v in s.rank then s.rank[v] + 1 else 0
  {
    if v == local then [local] else TreePath(local, s, s.prev[v]) + [v]
  }

  ghost function RouteTo(local: NodeId, s: Search, v: NodeId): ComputedRoute
    requires Walkable(local, s) && v in s.dist && s.dist[v] < U32_MAX && v != local
  {
    var p := TreePath(local, s, v);
    ComputedRoute(v, p[1], s.dist[v], (|p| - 1) % 256)
  }

  ghost function Routed(local: NodeId, dist: map<NodeId, u32>): set<NodeId> {
    set v | v in dist && v != local && dist[v] != U32_MAX
  }

  /** The routes of `local`, determined by the costs. */
  ghost function Table(g: Graph, local: NodeId): map<NodeId, ComputedRoute> {
    var s := Explore(g, local);
    ExploreFinishes(g, local);
    FinishedWalkable(g, local, s);
    map v | v in Routed(local, s.dist) :: RouteTo(local, s, v)
  }

  // ---------------------------------------------------------------------------
  // What a correct table is

  /** `p` explains the route: it is a cheapest path, `nextHop` is its second node, and
      `hopCount` its number of links, counted in eight bits. */
  ghost predicate Explains(g: Graph, local: NodeId, r: ComputedRoute, p: seq<NodeId>) {
    && Joins(g, local, r.dstNode, p) && |p| >= 2
    && PathCost(g, p) == r.totalCost
    && r.nextHop == p[1]
    && r.hopCount == (|p| - 1) % 256
    && (PositiveCosts(g) ==> Canonical(g, local, p))
  }

  ghost predicate RouteCorrect(g: Graph, local: NodeId, dst: NodeId, r: ComputedRoute) {
    && r.dstNode == dst
    && r.totalCost < U32_MAX && IsDistance(g, local, dst, r.totalCost)
    && exists p :: Explains(g, local, r, p)
  }

  /** Exactly the reachable destinations have a route, and every route is right. */
  ghost predicate RoutesCorrect(g: Graph, local: NodeId, routes: map<NodeId, ComputedRoute>) {
    Complete(g, local, routes) && Sound(g, local, routes)
  }

  ghost predicate Complete(g: Graph, local: NodeId, routes: map<NodeId, ComputedRoute>) {
    forall dst: NodeId :: dst in routes <==> dst != local && Reaches(g, local, dst)
  }

  ghost predicate Sound(g: Graph, local: NodeId, routes: map<NodeId, ComputedRoute>) {
    forall dst | dst in routes :: RouteCorrect(g, local, dst, routes[dst])
  }

  // ---------------------------------------------------------------------------
  // The table is correct

  /** `p` follows the predecessor map forwards. */
  ghost predicate Follows(prev: map<NodeId, NodeId>, p: seq<NodeId>) {
    forall i | 0 < i < |p| :: p[i] in prev && prev[p[i]] == p[i - 1]
  }

  lemma {:induction false} TreePathFollows(local: NodeId, s: Search, v: NodeId)
    requires Walkable(local, s) && v in s.dist && s.dist[v] < U32_MAX
    ensures Follows(s.prev, TreePath(local, s, v))
    decreases if v in s.rank then s.rank[v] + 1 else 0
  {
    if v != local {
      TreePathFollows(local, s, s.prev[v]);
    }
  }

  lemma {:induction false} TreeCost(g: Graph, local: NodeId, s: Search, p: seq<NodeId>)
    requires Finished(g, local, s) && |p| > 0 && p[0] == local && Follows(s.prev, p)
    ensures Joins(g, local, p[|p| - 1], p) && PathCost(g, p) == D(s.dist, p[|p| - 1])
    decreases |p|
  {
    hide Relaxed, Earliest, Greedy, Ranked;
    if |p| > 1 {
      var q := p[..|p| - 1];
      TreeCost(g, local, s, q);
      TightAt(g, s.dist, s.prev, s.rank, p[|p| - 1]);
      AppendCost(g, q, p[|p| - 1]);
      assert p == q + [p[|p| - 1]];
    }
  }

  lemma TightIsLastLink(g: Graph, local: NodeId, s: Search, u: NodeId, v: NodeId)
    requires Finished(g, local, s)
    ensures Tight(g, s.dist, u, v) <==> LastLink(g, local, u, v)
    ensures Distance(g, local, u) == D(s.dist, u)
  {
    hide Finished, IsDistance;
    LabelsAreDistances(g, local, s, u);
    LabelsAreDistances(g, local, s, v);
    DistanceIs(g, local, u, D(s.dist, u));
    DistanceIs(g, local, v, D(s.dist, v));
  }

  lemma EarliestAt(g: Graph, local: NodeId, s: Search, u: NodeId, v: NodeId)
    requires Finished(g, local, s) && v in s.prev && Tight(g, s.dist, u, v)
    ensures s.prev[v] in s.rank && u in s.rank && s.rank[s.prev[v]] <= s.rank[u]
    ensures u != s.prev[v] ==> s.rank[s.prev[v]] < s.rank[u]
    ensures D(s.dist, s.prev[v]) < U32_MAX
  {
    hide Relaxed, Greedy;
    TightAt(g, s.dist, s.prev, s.rank, v);
  }

  /** With positive costs the recorded predecessor is, of all last links of cheapest
      paths, the one with least distance and then least id. */
  lemma PredecessorPreferred(g: Graph, local: NodeId, s: Search, v: NodeId)
    requires Finished(g, local, s) && PositiveCosts(g) && v in s.prev
    ensures Preferred(g, local, s.prev[v], v)
  {
    hide Relaxed, Earliest, Greedy, Ranked, LastLink, Distance;
    var u := s.prev[v];
    TightAt(g, s.dist, s.prev, s.rank, v);
    TightIsLastLink(g, local, s, u, v);
    forall w | LastLink(g, local, w, v)
      ensures Nearer(g, local, u, w)
    {
      TightIsLastLink(g, local, s, w, v);
      EarliestAt(g, local, s, w, v);
      if w != u {
        PositiveLater(g, local, s, u, w);
      }
    }
  }

  lemma PositiveLater(g: Graph, local: NodeId, s: Search, u: NodeId, w: NodeId)
    requires Finished(g, local, s) && PositiveCosts(g)
    requires D(s.dist, u) < U32_MAX && D(s.dist, w) < U32_MAX
    requires u in s.rank && w in s.rank && s.rank[u] < s.rank[w]
    ensures Before(Entry(D(s.dist, u), u), Entry(D(s.dist, w), w))
  {
    hide TightTree, Relaxed, Earliest, Greedy, Ranked;
    if w == local {
      RootFirst(g, local, s, u);
      assert false;
    } else {
      PositiveOrder(g, local, s, u, w);
    }
  }

  lemma TreePathExplains(g: Graph, local: NodeId, s: Search, v: NodeId)
    requires Finished(g, local, s) && Walkable(local, s)
    requires v in s.dist && s.dist[v] < U32_MAX && v != local
    ensures Explains(g, local, RouteTo(local, s, v), TreePath(local, s, v))
  {
    hide Finished, Walkable;
    var p := TreePath(local, s, v);
    TreePathFollows(local, s, v);
    TreeCost(g, local, s, p);
    if PositiveCosts(g) {
      forall i | 0 <= i < |p| - 1
        ensures Preferred(g, local, p[i], p[i + 1])
      {
        assert p[i + 1] in s.prev && s.prev[p[i + 1]] == p[i];
        PredecessorPreferred(g, local, s, p[i + 1]);
      }
    }
  }

  lemma FiniteLabelReaches(g: Graph, local: NodeId, s: Search, v: NodeId)
    requires Finished(g, local, s)
    ensures D(s.dist, v) < U32_MAX <==> Reaches(g, local, v)
  {
    hide Finished, IsDistance, Reaches;
    LabelsAreDistances(g, local, s, v);
    DistanceFinite(g, local, v, D(s.dist, v));
  }

  lemma TableComplete(g: Graph, local: NodeId)
    ensures Complete(g, local, Table(g, local))
  {
    hide Finished, Walkable, Reaches, RouteTo;
    var s := Explore(g, local);
    ExploreFinishes(g, local);
    FinishedWalkable(g, local, s);
    forall v: NodeId
      ensures v in Table(g, local) <==> v != local && Reaches(g, local, v)
    {
      FiniteLabelReaches(g, local, s, v);
    }
  }

  lemma TableSound(g: Graph, local: NodeId)
    ensures Sound(g, local, Table(g, local))
  {
    hide Finished, Walkable, IsDistance, Explains;
    var s := Explore(g, local);
    ExploreFinishes(g, local);
    FinishedWalkable(g, local, s);
    forall v | v in Table(g, local)
      ensures RouteCorrect(g, local, v, Table(g, local)[v])
    {
      LabelsAreDistances(g, local, s, v);
      TreePathExplains(g, local, s, v);
    }
  }

  /** For every cost assignment, routes exist exactly for the reachable destinations, and
      each has minimal cost over a cheapest path through its next hop. */
  lemma TableCorrect(g: Graph, local: NodeId)
    ensures RoutesCorrect(g, local, Table(g, local))
  {
    TableComplete(g, local);
    TableSound(g, local);
  }

  lemma RouteUnique(g: Graph, local: NodeId, dst: NodeId, r: ComputedRoute, t: ComputedRoute)
    requires PositiveCosts(g)
    requires RouteCorrect(g, local, dst, r) && RouteCorrect(g, local, dst, t)
    ensures r == t
  {
    hide IsDistance, IsPath, PathCost, Canonical;
    DistanceUnique(g, local, dst, r.totalCost, t.totalCost);
    var p :| Explains(g, local, r, p);
    var q :| Explains(g, local, t, q);
    CanonicalUnique(g, local, p, q);
  }

  /** With positive costs correctness alone determines the table: ties are broken towards
      the predecessor with least distance, then least id. */
  lemma PositiveTable(g: Graph, local: NodeId, routes: map<NodeId, ComputedRoute>)
    requires PositiveCosts(g) && RoutesCorrect(g, local, routes)
    ensures routes == Table(g, local)
  {
    hide RouteCorrect, Table, Reaches;
    TableCorrect(g, local);
    var table := Table(g, local);
    forall dst | dst in routes || dst in table
      ensures dst in routes && dst in table && routes[dst] == table[dst]
    {
      RouteUnique(g, local, dst, routes[dst], table[dst]);
    }
  }

  lemma NoLinksNoRoutes(local: NodeId)
    ensures Table(CostGraph(map[]), local) == map[]
  {
    hide Table;
    var g := CostGraph(map[]);
    TableComplete(g, local);
    forall dst: NodeId, p | Joins(g, local, dst, p)
      ensures dst == local
    {
      assert |p| > 1 ==> Edge(g, p[0], p[0 + 1]);
    }
    assert Table(g, local).Keys == {};
  }

  // ---------------------------------------------------------------------------
  // The loops

  lemma LeastUnique(heap: multiset<Entry>, e: Entry)
    requires e in heap && forall x | x in heap :: Before(e, x)
    ensures e == Least(heap)
  {
    assert Before(e, Least(heap)) && Before(Least(heap), e);
  }

  method PopMin(heap: multiset<Entry>) returns (e: Entry, rest: multiset<Entry>)
    requires heap != multiset{}
    ensures e in heap && (forall x | x in heap :: Before(e, x)) && rest == heap - multiset{e}
  {
    ghost var m := Least(heap);
    e :| e in heap && forall x | x in heap :: Before(e, x);
    rest := heap - multiset{e};
  }

  lemma StartOneMore(vs: set<NodeId>, local: NodeId, v: NodeId)
    requires v !in vs
    ensures v == local ==> Labels(vs + {v}, local) == Labels(vs, local) && Entries(vs + {v}, local) == Entries(vs, local)
    ensures v != local ==>
              && Labels(vs + {v}, local) == Labels(vs, local)[v := U32_MAX]
              && Entries(vs + {v}, local) == Entries(vs, local) + multiset{Entry(U32_MAX, v)}
  {
    var before, after := vs + {local}, vs + {v} + {local};
    if v == local {
      assert before == after;
    } else {
      assert after == before + {v};
      assert (set w | w in after :: Entry(Label(local, w), w))
          == (set w | w in before :: Entry(Label(local, w), w)) + {Entry(U32_MAX, v)};
    }
  }

  lemma StartEmpty(local: NodeId)
    ensures Labels({}, local) == map[local := 0] && Entries({}, local) == multiset{Entry(0, local)}
  {
    var none: set<NodeId> := {};
    assert none + {local} == {local};
    assert (set w | w in none + {local} :: Entry(Label(local, w), w)) == {Entry(0, local)};
  }

  method InitSearch(nodes: map<NodeId, NodeInfo>, local: NodeId)
    returns (distances: map<NodeId, u32>, unvisited: multiset<Entry>)
    ensures distances == Start(CostGraph(nodes), local).dist && unvisited == Start(CostGraph(nodes), local).heap
  {
    hide Labels, Entries;
    distances := map[local := 0];
    unvisited := multiset{Entry(0, local)};
    StartEmpty(local);
    var todo := nodes.Keys;
    assert nodes.Keys - todo == {};
    while todo != {}
      invariant todo <= nodes.Keys
      invariant distances == Labels(nodes.Keys - todo, local) && unvisited == Entries(nodes.Keys - todo, local)
      decreases |todo|
    {
      var nodeId :| nodeId in todo;
      StartOneMore(nodes.Keys - todo, local, nodeId);
      assert nodes.Keys - todo + {nodeId} == nodes.Keys - (todo - {nodeId});
      todo := todo - {nodeId};
      if nodeId != local {
        distances := distances[nodeId := U32_MAX];
        unvisited := unvisited + multiset{Entry(U32_MAX, nodeId)};
      }
    }
    assert nodes.Keys - todo == nodes.Keys == CostGraph(nodes).Keys;
  }

  /** The inner loop: in whatever order, it relaxes all links of the node. */
  method RelaxNeighbors(nodes: map<NodeId, NodeInfo>, node: NodeId, dist: u32, distances0: map<NodeId, u32>,
                        previous0: map<NodeId, NodeId>, unvisited0: multiset<Entry>, ghost s: Search)
    returns (distances: map<NodeId, u32>, previous: map<NodeId, NodeId>, unvisited: multiset<Entry>)
    requires node in nodes && s.dist == distances0 && s.prev == previous0 && s.heap == unvisited0
    ensures var t := RelaxSome(CostGraph(nodes), s, node, dist, LinksFrom(CostGraph(nodes), node));
            distances == t.dist && previous == t.prev && unvisited == t.heap
  {
    hide RelaxSome;
    ghost var g := CostGraph(nodes);
    distances, previous, unvisited := distances0, previous0, unvisited0;
    var neighbors := nodes[node].neighbors;
    var todo := neighbors.Keys;
    assert todo == LinksFrom(g, node);
    RelaxNone(g, s, node, dist);
    ghost var done := {};
    while todo != {}
      invariant done !! todo && done + todo == LinksFrom(g, node)
      invariant var t := RelaxSome(g, s, node, dist, done);
                distances == t.dist && previous == t.prev && unvisited == t.heap
      decreases |todo|
    {
      var neighborId :| neighborId in todo;
      RelaxOneMore(g, s, node, dist, done, neighborId);
      var newDist := SatAdd(dist, neighbors[neighborId].cost);
      if newDist < D(distances, neighborId) {
        distances := distances[neighborId := newDist];
        previous := previous[neighborId := node];
        unvisited := unvisited + multiset{Entry(newDist, neighborId)};
      }
      done := done + {neighborId};
      todo := todo - {neighborId};
    }
    assert done == LinksFrom(g, node);
  }

  /** The outer loop, with the search it has performed so far. */
  method SearchPaths(nodes: map<NodeId, NodeInfo>, local: NodeId)
    returns (distances: map<NodeId, u32>, previous: map<NodeId, NodeId>)
    ensures distances == Explore(CostGraph(nodes), local).dist && previous == Explore(CostGraph(nodes), local).prev
  {
    hide RelaxSome, Start, Potential;
    ghost var g := CostGraph(nodes);
    var unvisited;
    distances, unvisited := InitSearch(nodes, local);
    previous := map[];
    ghost var s := Start(g, local);
    StartPlain(g, local);
    while unvisited != multiset{}
      invariant distances == s.dist && previous == s.prev && unvisited == s.heap
      invariant Run(g, local, s) == Explore(g, local)
      decreases Potential(g, local, s)
    {
      var e;
      e, unvisited := PopMin(unvisited);
      LeastUnique(s.heap, e);
      if e.dist > D(distances, e.node) {
        PopPays(g, local, s, e);
        s := Pop(s, e);
        continue;
      }
      VisitPays(g, local, s, e);
      if e.node in nodes {
        distances, previous, unvisited :=
          RelaxNeighbors(nodes, e.node, e.dist, distances, previous, unvisited, Expand(s, e));
      } else {
        RelaxNone(g, Expand(s, e), e.node, e.dist);
      }
      s := Visit(g, s, e);
    }
  }

  lemma StartPlain(g: Graph, local: NodeId)
    ensures Start(g, local).prev == map[]
  {
  }

  lemma WalkableAt(local: NodeId, s: Search, v: NodeId)
    requires Walkable(local, s) && v in s.dist && s.dist[v] < U32_MAX && v != local
    ensures v in s.prev && s.prev[v] in s.dist && s.dist[s.prev[v]] < U32_MAX
    ensures v in s.rank && s.prev[v] in s.rank && s.rank[s.prev[v]] < s.rank[v]
  {
  }

  lemma TreePathBack(local: NodeId, s: Search, v: NodeId, tail: seq<NodeId>)
    requires Walkable(local, s) && v != local && v in s.dist && s.dist[v] < U32_MAX && v in s.prev
    requires s.prev[v] in s.dist && s.dist[s.prev[v]] < U32_MAX
    ensures TreePath(local, s, v) + tail == TreePath(local, s, s.prev[v]) + ([v] + tail)
  {
    hide Walkable;
    var front := TreePath(local, s, s.prev[v]);
    assert (front + [v]) + tail == front + ([v] + tail);
  }

  lemma TreePathEnd(local: NodeId, s: Search, v: NodeId, tail: seq<NodeId>)
    requires Walkable(local, s) && v != local && v in s.dist && s.dist[v] < U32_MAX
    requires v in s.prev && s.prev[v] == local && local in s.dist && s.dist[local] < U32_MAX
    ensures (TreePath(local, s, v) + tail)[1] == v && |TreePath(local, s, v) + tail| == 2 + |tail|
  {
    hide Walkable;
    assert TreePath(local, s, v) == [local] + [v];
  }

  lemma NextCount(n: nat)
    ensures (n % 256 + 1) % 256 == (n + 1) % 256
  {
  }

  /** The walk from a destination back to the node after `local`. It terminates because
      predecessors were expanded earlier, also where costs are zero. */
  method WalkBack(local: NodeId, dst: NodeId, previous: map<NodeId, NodeId>, ghost s: Search)
    returns (nextHop: NodeId, hopCount: u8)
    requires Walkable(local, s) && local !in s.prev && previous == s.prev
    requires dst != local && dst in s.dist && s.dist[dst] < U32_MAX
    ensures var p := TreePath(local, s, dst); nextHop == p[1] && hopCount == (|p| - 1) % 256
  {
    hide Walkable, TreePath;
    nextHop, hopCount := dst, 0;
    ghost var tail: seq<NodeId> := [];
    assert TreePath(local, s, dst) + [] == TreePath(local, s, dst);
    WalkableAt(local, s, dst);
    while nextHop in previous
      invariant nextHop != local && nextHop in s.dist && s.dist[nextHop] < U32_MAX
      invariant nextHop in s.prev && nextHop in s.rank
      invariant TreePath(local, s, dst) == TreePath(local, s, nextHop) + tail
      invariant hopCount == |tail| % 256
      decreases s.rank[nextHop]
    {
      WalkableAt(local, s, nextHop);
      NextCount(|tail|);
      var prevNode := previous[nextHop];
      hopCount := (hopCount + 1) % 256;
      if prevNode == local {
        TreePathEnd(local, s, nextHop, tail);
        break;
      }
      TreePathBack(local, s, nextHop, tail);
      WalkableAt(local, s, prevNode);
      tail := [nextHop] + tail;
      nextHop := prevNode;
    }
  }

  lemma TableAt(g: Graph, local: NodeId, s: Search)
    requires s == Explore(g, local)
    ensures Walkable(local, s) && local !in s.prev
    ensures Table(g, local).Keys == Routed(local, s.dist)
  {
    hide TightTree, Relaxed, Earliest, Greedy, Ranked, RouteTo, Explore;
    ExploreFinishes(g, local);
    FinishedWalkable(g, local, s);
  }

  lemma RouteAt(g: Graph, local: NodeId, s: Search, v: NodeId, nextHop: NodeId, hopCount: u8)
    requires s == Explore(g, local) && Walkable(local, s) && v in Routed(local, s.dist)
    requires var p := TreePath(local, s, v); nextHop == p[1] && hopCount == (|p| - 1) % 256
    ensures v in Table(g, local) && Table(g, local)[v] == ComputedRoute(v, nextHop, s.dist[v], hopCount)
  {
    hide Walkable, Explore, TreePath;
  }

  /** The part of a table whose destinations are not in `todo`. */
  ghost function Except(table: map<NodeId, ComputedRoute>, todo: set<NodeId>): map<NodeId, ComputedRoute> {
    map v | v in table && v !in todo :: table[v]
  }

  lemma ExceptOneLess(table: map<NodeId, ComputedRoute>, todo: set<NodeId>, v: NodeId)
    requires v in todo
    ensures Except(table, todo - {v}) ==
              if v in table then Except(table, todo)[v := table[v]] else Except(table, todo)
  {
  }

  lemma ExceptAll(table: map<NodeId, ComputedRoute>, todo: set<NodeId>)
    ensures table.Keys <= todo ==> Except(table, todo) == map[]
    ensures Except(table, {}) == table
  {
  }

  method BuildRoutes(local: NodeId, ghost g: Graph, distances: map<NodeId, u32>, previous: map<NodeId, NodeId>)
    returns (routes: map<NodeId, ComputedRoute>)
    requires distances == Explore(g, local).dist && previous == Explore(g, local).prev
    ensures routes == Table(g, local)
  {
    hide Walkable, Explore, Table, TreePath, RouteTo, Except;
    ghost var s := Explore(g, local);
    TableAt(g, local, s);
    routes := map[];
    var todo := distances.Keys;
    ExceptAll(Table(g, local), todo);
    while todo != {}
      invariant todo <= distances.Keys
      invariant routes == Except(Table(g, local), todo)
      decreases |todo|
    {
      var dstNode :| dstNode in todo;
      ExceptOneLess(Table(g, local), todo, dstNode);
      var totalCost := distances[dstNode];
      if dstNode != local && totalCost != U32_MAX {
        var nextHop, hopCount := WalkBack(local, dstNode, previous, s);
        RouteAt(g, local, s, dstNode, nextHop, hopCount);
        routes := routes[dstNode := ComputedRoute(dstNode, nextHop, totalCost, hopCount)];
      }
      todo := todo - {dstNode};
    }
  }

  /** Whatever the iteration order of its hash maps, `compute_routes` returns the one table
      that the costs determine, for all costs. */
  method ComputeRoutes(nodes: map<NodeId, NodeInfo>, local: NodeId) returns (routes: map<NodeId, ComputedRoute>)
    ensures routes == Table(CostGraph(nodes), local)
    ensures RoutesCorrect(CostGraph(nodes), local, routes)
  {
    hide Table, RoutesCorrect, Explore;
    var distances, previous := SearchPaths(nodes, local);
    routes := BuildRoutes(local, CostGraph(nodes), distances, previous);
    TableCorrect(CostGraph(nodes), local);
  }
}
