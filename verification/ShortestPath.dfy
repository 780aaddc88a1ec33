/** Weighted directed graphs, their paths, and what it means for a number to be the
    distance between two nodes when costs saturate at `u32::MAX`. This is the
    specification that the route computation is proved against. */
module ShortestPath {
  import opened Base

  /** `g[u][v]` is the cost of the link from `u` to `v`. */
  type Graph = map<NodeId, map<NodeId, u32>>

  predicate Edge(g: Graph, u: NodeId, v: NodeId) {
    u in g && v in g[u]
  }

  function Cost(g: Graph, u: NodeId, v: NodeId): u32
    requires Edge(g, u, v)
  {
    g[u][v]
  }

  ghost predicate PositiveCosts(g: Graph) {
    forall u, v | Edge(g, u, v) :: Cost(g, u, v) > 0
  }

  ghost predicate IsPath(g: Graph, p: seq<NodeId>) {
    |p| > 0 && forall i | 0 <= i < |p| - 1 :: Edge(g, p[i], p[i + 1])
  }

  ghost predicate Joins(g: Graph, a: NodeId, b: NodeId, p: seq<NodeId>) {
    IsPath(g, p) && p[0] == a && p[|p| - 1] == b
  }

  /** The true, unbounded cost of a path. */
  ghost function PathCost(g: Graph, p: seq<NodeId>): nat
    requires IsPath(g, p)
  {
    if |p| == 1 then 0 else PathCost(g, p[..|p| - 1]) + Cost(g, p[|p| - 2], p[|p| - 1])
  }

  /** `d` is the cost of a cheapest path from `a` to `b`, capped at `u32::MAX`,
      which stands for "no path of cost below the cap". */
  ghost predicate IsDistance(g: Graph, a: NodeId, b: NodeId, d: u32) {
    && (forall p | Joins(g, a, b, p) :: d <= PathCost(g, p))
    && (d < U32_MAX ==> exists p :: Joins(g, a, b, p) && PathCost(g, p) == d)
  }

  ghost predicate Reaches(g: Graph, a: NodeId, b: NodeId) {
    exists p :: Joins(g, a, b, p) && PathCost(g, p) < U32_MAX
  }

  lemma DistanceUnique(g: Graph, a: NodeId, b: NodeId, d: u32, e: u32)
    requires IsDistance(g, a, b, d) && IsDistance(g, a, b, e)
    ensures d == e
  {
    if d < U32_MAX {
      var p :| Joins(g, a, b, p) && PathCost(g, p) == d;
    }
    if e < U32_MAX {
      var q :| Joins(g, a, b, q) && PathCost(g, q) == e;
    }
  }

  lemma DistanceFinite(g: Graph, a: NodeId, b: NodeId, d: u32)
    requires IsDistance(g, a, b, d)
    ensures d < U32_MAX <==> Reaches(g, a, b)
  {
  }

  lemma {:induction false} AppendCost(g: Graph, p: seq<NodeId>, v: NodeId)
    requires IsPath(g, p) && Edge(g, p[|p| - 1], v)
    ensures Joins(g, p[0], v, p + [v])
    ensures PathCost(g, p + [v]) == PathCost(g, p) + Cost(g, p[|p| - 1], v)
  {
    var q := p + [v];
    assert q[..|q| - 1] == p;
    forall i | 0 <= i < |q| - 1
      ensures Edge(g, q[i], q[i + 1])
    {
      assert q[i] == p[i];
    }
  }

  /** Costs add up under concatenation of paths that share an end node. */
  lemma {:induction false} ConcatCost(g: Graph, p: seq<NodeId>, q: seq<NodeId>)
    requires IsPath(g, p) && IsPath(g, q) && p[|p| - 1] == q[0]
    ensures Joins(g, p[0], q[|q| - 1], p + q[1..])
    ensures PathCost(g, p + q[1..]) == PathCost(g, p) + PathCost(g, q)
    decreases |q|
  {
    if |q| == 1 {
      assert p + q[1..] == p;
    } else {
      var r := q[..|q| - 1];
      ConcatCost(g, p, r);
      AppendCost(g, p + r[1..], q[|q| - 1]);
      assert p + q[1..] == (p + r[1..]) + [q[|q| - 1]];
    }
  }

  /** The first edge and the rest of a path. */
  lemma SplitFirst(g: Graph, p: seq<NodeId>)
    requires IsPath(g, p) && |p| >= 2
    ensures Edge(g, p[0], p[1]) && Joins(g, p[1], p[|p| - 1], p[1..])
    ensures PathCost(g, p) == Cost(g, p[0], p[1]) + PathCost(g, p[1..])
  {
    var e, r := [p[0], p[1]], p[1..];
    assert Edge(g, p[0], p[1]);
    assert IsPath(g, r) by {
      forall i | 0 <= i < |r| - 1
        ensures Edge(g, r[i], r[i + 1])
      {
        assert r[i] == p[i + 1] && r[i + 1] == p[i + 2];
      }
    }
    assert e[..1] == [p[0]];
    assert PathCost(g, e) == Cost(g, p[0], p[1]);
    ConcatCost(g, e, r);
    assert e + r[1..] == p;
  }

  /** A suffix of a cheapest path is a cheapest path. */
  lemma SuffixDistance(g: Graph, x: NodeId, d: NodeId, p: seq<NodeId>, c: u32)
    requires Joins(g, x, d, p) && |p| >= 2 && PathCost(g, p) == c < U32_MAX && IsDistance(g, x, d, c)
    ensures Edge(g, x, p[1]) && c >= Cost(g, x, p[1])
    ensures IsDistance(g, p[1], d, c - Cost(g, x, p[1]))
  {
    SplitFirst(g, p);
    forall q | Joins(g, p[1], d, q)
      ensures c - Cost(g, x, p[1]) <= PathCost(g, q)
    {
      assert [x, p[1]][..1] == [x];
      assert IsPath(g, [x, p[1]]);
      ConcatCost(g, [x, p[1]], q);
    }
  }

  lemma PrependPath(g: Graph, x: NodeId, q: seq<NodeId>)
    requires IsPath(g, q) && Edge(g, x, q[0])
    ensures IsPath(g, [x] + q) && PathCost(g, [x] + q) == Cost(g, x, q[0]) + PathCost(g, q)
  {
    assert [x, q[0]][..1] == [x];
    assert IsPath(g, [x, q[0]]);
    ConcatCost(g, [x, q[0]], q);
    assert [x, q[0]] + q[1..] == [x] + q;
  }

  lemma SelfDistance(g: Graph, a: NodeId)
    ensures IsDistance(g, a, a, 0)
  {
    assert Joins(g, a, a, [a]) && PathCost(g, [a]) == 0;
  }

  /** The distance, for node pairs that have one (the search shows that all do). */
  ghost function Distance(g: Graph, a: NodeId, b: NodeId): u32 {
    if exists d: u32 :: IsDistance(g, a, b, d) then
      var d: u32 :| IsDistance(g, a, b, d); d
    else U32_MAX
  }

  lemma DistanceIs(g: Graph, a: NodeId, b: NodeId, d: u32)
    requires IsDistance(g, a, b, d)
    ensures Distance(g, a, b) == d
  {
    DistanceUnique(g, a, b, d, Distance(g, a, b));
  }

  // ---------------------------------------------------------------------------
  // The choice among equally cheap paths

  /** `x` is nearer to the source than `y`, or equally near with a smaller id. */
  ghost predicate Nearer(g: Graph, a: NodeId, x: NodeId, y: NodeId) {
    Distance(g, a, x) < Distance(g, a, y) || (Distance(g, a, x) == Distance(g, a, y) && x <= y)
  }

  ghost predicate LastLink(g: Graph, a: NodeId, u: NodeId, v: NodeId) {
    Edge(g, u, v) && Distance(g, a, v) < U32_MAX && Distance(g, a, v) == Distance(g, a, u) + Cost(g, u, v)
  }

  /** Of all nodes that end a cheapest path from `a` to `v`, `u` is the nearest to `a`. */
  ghost predicate Preferred(g: Graph, a: NodeId, u: NodeId, v: NodeId) {
    LastLink(g, a, u, v) && forall w | LastLink(g, a, w, v) :: Nearer(g, a, u, w)
  }

  ghost predicate Canonical(g: Graph, a: NodeId, p: seq<NodeId>) {
    forall i | 0 <= i < |p| - 1 :: Preferred(g, a, p[i], p[i + 1])
  }

  lemma CanonicalStopsAtSource(g: Graph, a: NodeId, p: seq<NodeId>)
    requires PositiveCosts(g) && |p| > 0 && Canonical(g, a, p) && p[0] == a
    ensures p[|p| - 1] == a <==> |p| == 1
  {
    SelfDistance(g, a);
    DistanceIs(g, a, a, 0);
    if |p| > 1 {
      assert Preferred(g, a, p[|p| - 2], p[|p| - 2 + 1]);
    }
  }

  /** Both orders cannot hold between different nodes. */
  lemma PreferredUnique(g: Graph, a: NodeId, u: NodeId, w: NodeId, v: NodeId)
    requires Preferred(g, a, u, v) && Preferred(g, a, w, v)
    ensures u == w
  {
    assert Nearer(g, a, u, w) && Nearer(g, a, w, u);
  }

  lemma CanonicalInit(g: Graph, a: NodeId, p: seq<NodeId>)
    requires Canonical(g, a, p) && |p| > 1
    ensures Canonical(g, a, p[..|p| - 1]) && Preferred(g, a, p[|p| - 2], p[|p| - 1])
    ensures p == p[..|p| - 1] + [p[|p| - 1]]
  {
    assert Preferred(g, a, p[|p| - 2], p[|p| - 2 + 1]);
  }

  /** With positive costs there is one canonical path to each node. */
  lemma {:induction false} CanonicalUnique(g: Graph, a: NodeId, p: seq<NodeId>, q: seq<NodeId>)
    requires PositiveCosts(g) && |p| > 0 && |q| > 0
    requires Canonical(g, a, p) && Canonical(g, a, q)
    requires p[0] == q[0] == a && p[|p| - 1] == q[|q| - 1]
    ensures p == q
    decreases |p|
  {
    CanonicalStopsAtSource(g, a, p);
    CanonicalStopsAtSource(g, a, q);
    if |p| > 1 {
      CanonicalInit(g, a, p);
      CanonicalInit(g, a, q);
      PreferredUnique(g, a, p[|p| - 2], q[|q| - 2], p[|p| - 1]);
      CanonicalUnique(g, a, p[..|p| - 1], q[..|q| - 1]);
    }
  }
}
