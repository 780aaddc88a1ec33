/** Why next hops never form a loop, whatever the costs. A loop could only run over links
    of cost zero, so its nodes would have the same distances and the same tight links;
    their searches would differ only in where they start. Each search is greedy, so the
    worst node it has to pass on the way to the destination is the same for all of them,
    lies outside the loop, and is reached over nodes that come before it. Taking that
    node as the destination repeats the argument with a smaller worst node. */
module LoopFreedom {
  import opened Base
  import opened ShortestPath
  import opened Dijkstra
  import opened RouteComputation

  /** The position of a node in the order of the heap. */
  ghost function Key(dist: map<NodeId, u32>, v: NodeId): nat {
    D(dist, v) * U64_MODULUS + v
  }

  lemma KeyIsOrder(dist: map<NodeId, u32>, u: NodeId, v: NodeId)
    ensures Before(Entry(D(dist, u), u), Entry(D(dist, v), v)) <==> Key(dist, u) <= Key(dist, v)
    ensures Key(dist, u) == Key(dist, v) ==> u == v
  {
  }

  ghost predicate KeysBelow(dist: map<NodeId, u32>, q: seq<NodeId>, bound: nat) {
    forall i | 1 <= i < |q| :: Key(dist, q[i]) < bound
  }

  // ---------------------------------------------------------------------------
  // One search

  /** A path over tight links. */
  ghost predicate TightPath(g: Graph, dist: map<NodeId, u32>, r: seq<NodeId>) {
    |r| > 0 && forall i | 0 <= i < |r| - 1 :: Tight(g, dist, r[i], r[i + 1])
  }

  /** A path of the predecessor tree from its root. */
  ghost predicate TreeWalk(s: Search, x: NodeId, q: seq<NodeId>) {
    |q| > 0 && q[0] == x && Follows(s.prev, q)
  }

  lemma TightRanked(g: Graph, x: NodeId, s: Search, u: NodeId, v: NodeId)
    requires Finished(g, x, s) && Tight(g, s.dist, u, v)
    ensures u in s.rank && v in s.rank && (v != x ==> v in s.prev)
  {
    hide TightTree, Ranked, Relaxed, Earliest, Greedy;
  }

  lemma {:induction false} WalkRises(g: Graph, x: NodeId, s: Search, q: seq<NodeId>, i: nat)
    requires Finished(g, x, s) && TreeWalk(s, x, q) && i < |q|
    ensures q[i] in s.rank && q[|q| - 1] in s.rank
    ensures s.rank[q[i]] <= s.rank[q[|q| - 1]] && (i < |q| - 1 ==> s.rank[q[i]] < s.rank[q[|q| - 1]])
    decreases |q|
  {
    hide Ranked, Relaxed, Earliest, Greedy, TightTree, Tight;
    if |q| > 1 {
      var p := q[..|q| - 1];
      TightAt(g, s.dist, s.prev, s.rank, q[|q| - 1]);
      TightRanked(g, x, s, q[|q| - 2], q[|q| - 1]);
      if i < |q| - 1 {
        assert p[i] == q[i];
        WalkRises(g, x, s, p, i);
      }
    }
  }

  lemma WalkIsTight(g: Graph, x: NodeId, s: Search, q: seq<NodeId>)
    requires Finished(g, x, s) && TreeWalk(s, x, q)
    ensures TightPath(g, s.dist, q)
  {
    hide Ranked, Relaxed, Earliest, Greedy, Tight, Labelled;
    forall i | 0 <= i < |q| - 1
      ensures Tight(g, s.dist, q[i], q[i + 1])
    {
      TightAt(g, s.dist, s.prev, s.rank, q[i + 1]);
    }
  }

  /** Two nodes expanded one before the other while a third waited for them both. */
  lemma WaitedFor(g: Graph, x: NodeId, s: Search, u: NodeId, z: NodeId, v: NodeId)
    requires Finished(g, x, s) && Tight(g, s.dist, u, v) && v in s.prev
    requires u in s.rank && z in s.rank && v in s.rank && s.rank[u] < s.rank[z] < s.rank[v]
    ensures Key(s.dist, z) <= Key(s.dist, v)
  {
    hide Relaxed, Labelled, Greedy, TightTree, Ranked;
    EarliestAt(g, x, s, u, v);
    GreedyStep(s.dist, s.prev, s.rank, z, v);
    KeyIsOrder(s.dist, z, v);
  }

  lemma SameRank(rank: map<NodeId, nat>, clock: nat, u: NodeId, v: NodeId)
    requires Ranked(rank, clock) && u in rank && v in rank && rank[u] == rank[v]
    ensures u == v
  {
  }

  /** A node expanded before the end of a tight path is no worse than the path. */
  lemma {:induction false} Crossing(g: Graph, x: NodeId, s: Search, r: seq<NodeId>, z: NodeId, bound: nat)
    requires Finished(g, x, s) && TightPath(g, s.dist, r) && r[0] == x && KeysBelow(s.dist, r, bound)
    requires x in s.rank && z in s.rank && r[|r| - 1] in s.rank
    requires s.rank[x] < s.rank[z] <= s.rank[r[|r| - 1]]
    ensures Key(s.dist, z) < bound
    decreases |r|
  {
    hide Relaxed, Labelled, Greedy, TightTree, Ranked, Earliest, Tight, Key;
    var u, v := r[|r| - 2], r[|r| - 1];
    assert Tight(g, s.dist, r[|r| - 2], r[|r| - 2 + 1]);
    TightRanked(g, x, s, u, v);
    if s.rank[u] >= s.rank[z] {
      Crossing(g, x, s, r[..|r| - 1], z, bound);
    } else if z != v {
      if s.rank[z] == s.rank[v] {
        SameRank(s.rank, s.clock, z, v);
      }
      WaitedFor(g, x, s, u, z, v);
    }
  }

  /** The walk to the first expanded of two nodes is no worse than any tight path to the
      other. */
  lemma Bottleneck(g: Graph, x: NodeId, s: Search, q: seq<NodeId>, r: seq<NodeId>, bound: nat)
    requires Finished(g, x, s) && TreeWalk(s, x, q)
    requires TightPath(g, s.dist, r) && r[0] == x && KeysBelow(s.dist, r, bound)
    requires q[|q| - 1] in s.rank && r[|r| - 1] in s.rank && s.rank[q[|q| - 1]] <= s.rank[r[|r| - 1]]
    ensures KeysBelow(s.dist, q, bound)
  {
    hide Finished, Key, TightPath;
    forall i | 1 <= i < |q|
      ensures Key(s.dist, q[i]) < bound
    {
      WalkRises(g, x, s, q[..i + 1], 0);
      WalkRises(g, x, s, q, i);
      Crossing(g, x, s, r, q[i], bound);
    }
  }

  // ---------------------------------------------------------------------------
  // A ring of searches

  ghost predicate SameLabels(a: map<NodeId, u32>, b: map<NodeId, u32>) {
    forall v :: D(a, v) == D(b, v)
  }

  /** `y` is the first node of `ys` that the search expands. */
  ghost predicate FirstOf(s: Search, y: NodeId, ys: set<NodeId>) {
    y in ys && y in s.rank && forall z | z in ys && z in s.rank :: s.rank[y] <= s.rank[z]
  }

  /** The walk of the search from `x` leads over `next` to the first node of `ys`. */
  ghost predicate Leads(g: Graph, dist: map<NodeId, u32>, x: NodeId, q: seq<NodeId>, next: NodeId, ys: set<NodeId>) {
    && SameLabels(Explore(g, x).dist, dist)
    && |q| >= 2 && TreeWalk(Explore(g, x), x, q) && q[1] == next
    && FirstOf(Explore(g, x), q[|q| - 1], ys)
  }

  /** Nodes in a circle, the first repeated at the end, with a walk for each that leads
      over the next one. Their searches find the same labels. */
  ghost predicate Ring(g: Graph, dist: map<NodeId, u32>, xs: seq<NodeId>, qs: seq<seq<NodeId>>, ys: set<NodeId>) {
    && |xs| == |qs| + 1 && |qs| > 0 && xs[|qs|] == xs[0]
    && forall i | 0 <= i < |qs| :: Leads(g, dist, xs[i], qs[i], xs[i + 1], ys)
  }

  lemma RingAt(g: Graph, dist: map<NodeId, u32>, xs: seq<NodeId>, qs: seq<seq<NodeId>>, ys: set<NodeId>, i: nat)
    requires Ring(g, dist, xs, qs, ys) && i < |qs|
    ensures |xs| == |qs| + 1 && xs[|qs|] == xs[0]
    ensures Leads(g, dist, xs[i], qs[i], xs[i + 1], ys)
  {
    hide Leads;
  }

  lemma SameTightPath(g: Graph, a: map<NodeId, u32>, b: map<NodeId, u32>, r: seq<NodeId>)
    requires SameLabels(a, b) && TightPath(g, a, r)
    ensures TightPath(g, b, r)
  {
    forall i | 0 <= i < |r| - 1
      ensures Tight(g, b, r[i], r[i + 1])
    {
      assert Tight(g, a, r[i], r[i + 1]);
    }
  }

  lemma SameKeysBelow(a: map<NodeId, u32>, b: map<NodeId, u32>, r: seq<NodeId>, bound: nat)
    requires SameLabels(a, b)
    ensures KeysBelow(a, r, bound) <==> KeysBelow(b, r, bound)
  {
  }

  lemma TightTail(g: Graph, dist: map<NodeId, u32>, q: seq<NodeId>)
    requires TightPath(g, dist, q) && |q| >= 2
    ensures TightPath(g, dist, q[1..])
    ensures Tight(g, dist, q[|q| - 2], q[|q| - 1])
  {
    forall i | 0 <= i < |q[1..]| - 1
      ensures Tight(g, dist, q[1..][i], q[1..][i + 1])
    {
      assert Tight(g, dist, q[i + 1], q[i + 1 + 1]);
    }
    assert Tight(g, dist, q[|q| - 2], q[|q| - 2 + 1]);
  }

  /** What one node's walk need not exceed, the next node's walk does not. */
  lemma NextIsNoWorse(g: Graph, dist: map<NodeId, u32>, x: NodeId, q: seq<NodeId>, y: NodeId, p: seq<NodeId>,
                      next: NodeId, ys: set<NodeId>, bound: nat)
    requires Leads(g, dist, x, q, y, ys) && Leads(g, dist, y, p, next, ys) && KeysBelow(dist, q, bound)
    ensures KeysBelow(dist, p, bound)
  {
    hide Explore, Finished, TightPath, KeysBelow, SameLabels;
    var (s, t) := (Explore(g, x), Explore(g, y));
    ExploreFinishes(g, x);
    ExploreFinishes(g, y);
    WalkIsTight(g, x, s, q);
    SameLabelsTwice(s.dist, dist, t.dist);
    SameTightPath(g, s.dist, t.dist, q);
    TightTail(g, t.dist, q);
    TailBelow(dist, q, bound);
    SameKeysBelow(dist, t.dist, q[1..], bound);
    TightRanked(g, y, t, q[|q| - 2], q[|q| - 1]);
    Bottleneck(g, y, t, p, q[1..], bound);
    SameKeysBelow(dist, t.dist, p, bound);
  }

  lemma SameLabelsTwice(a: map<NodeId, u32>, b: map<NodeId, u32>, c: map<NodeId, u32>)
    requires SameLabels(a, b) && SameLabels(c, b)
    ensures SameLabels(a, c) && SameLabels(b, c)
  {
  }

  lemma TailBelow(dist: map<NodeId, u32>, q: seq<NodeId>, bound: nat)
    requires KeysBelow(dist, q, bound) && |q| >= 2
    ensures KeysBelow(dist, q[1..], bound)
  {
  }

  lemma {:induction false} AllNoWorse(g: Graph, dist: map<NodeId, u32>, xs: seq<NodeId>, qs: seq<seq<NodeId>>,
                                      ys: set<NodeId>, i: nat, j: nat, bound: nat)
    requires Ring(g, dist, xs, qs, ys) && i <= j < |qs| && KeysBelow(dist, qs[i], bound)
    ensures KeysBelow(dist, qs[j], bound)
    decreases j - i
  {
    hide Ring, Leads, KeysBelow;
    if i < j {
      RingAt(g, dist, xs, qs, ys, i);
      RingAt(g, dist, xs, qs, ys, i + 1);
      NextIsNoWorse(g, dist, xs[i], qs[i], xs[i + 1], qs[i + 1], xs[i + 2], ys, bound);
      AllNoWorse(g, dist, xs, qs, ys, i + 1, j, bound);
    }
  }

  /** Going once around the ring. */
  lemma AroundNoWorse(g: Graph, dist: map<NodeId, u32>, xs: seq<NodeId>, qs: seq<seq<NodeId>>, ys: set<NodeId>,
                      i: nat, j: nat, bound: nat)
    requires Ring(g, dist, xs, qs, ys) && i < |qs| && j < |qs| && KeysBelow(dist, qs[i], bound)
    ensures KeysBelow(dist, qs[j], bound)
  {
    hide Ring, Leads, KeysBelow;
    if i <= j {
      AllNoWorse(g, dist, xs, qs, ys, i, j, bound);
    } else {
      var last := |qs| - 1;
      AllNoWorse(g, dist, xs, qs, ys, i, last, bound);
      RingAt(g, dist, xs, qs, ys, last);
      RingAt(g, dist, xs, qs, ys, 0);
      NextIsNoWorse(g, dist, xs[last], qs[last], xs[0], qs[0], xs[1], ys, bound);
      AllNoWorse(g, dist, xs, qs, ys, 0, j, bound);
    }
  }

  lemma {:induction false} WorstOf(dist: map<NodeId, u32>, q: seq<NodeId>) returns (w: NodeId)
    requires |q| >= 2
    ensures exists k :: 1 <= k < |q| && q[k] == w
    ensures KeysBelow(dist, q, Key(dist, w) + 1)
    decreases |q|
  {
    hide Key;
    var last := q[|q| - 1];
    w := last;
    if |q| > 2 {
      var m := WorstOf(dist, q[..|q| - 1]);
      if Key(dist, m) > Key(dist, last) {
        w := m;
      }
      forall i | 1 <= i < |q|
        ensures Key(dist, q[i]) < Key(dist, w) + 1
      {
        assert i < |q| - 1 ==> q[i] == q[..|q| - 1][i];
      }
    }
  }

  lemma WithoutWorst(dist: map<NodeId, u32>, q: seq<NodeId>, w: NodeId)
    requires KeysBelow(dist, q, Key(dist, w) + 1)
    ensures (forall i | 1 <= i < |q| :: q[i] != w) ==> KeysBelow(dist, q, Key(dist, w))
    ensures (exists i :: 1 <= i < |q| && q[i] == w) ==> !KeysBelow(dist, q, Key(dist, w))
  {
    forall i | 1 <= i < |q| && q[i] != w
      ensures Key(dist, q[i]) != Key(dist, w)
    {
      KeyIsOrder(dist, q[i], w);
    }
  }

  /** The worst node of one walk is the worst node of every walk. */
  lemma WorstShared(g: Graph, dist: map<NodeId, u32>, xs: seq<NodeId>, qs: seq<seq<NodeId>>, ys: set<NodeId>,
                    w: NodeId, i: nat)
    requires Ring(g, dist, xs, qs, ys) && i < |qs|
    requires (exists k :: 1 <= k < |qs[0]| && qs[0][k] == w) && KeysBelow(dist, qs[0], Key(dist, w) + 1)
    ensures KeysBelow(dist, qs[i], Key(dist, w) + 1)
    ensures exists k :: 1 <= k < |qs[i]| && qs[i][k] == w
  {
    hide Ring, KeysBelow, Key;
    WithoutWorst(dist, qs[0], w);
    AroundNoWorse(g, dist, xs, qs, ys, 0, i, Key(dist, w) + 1);
    WithoutWorst(dist, qs[i], w);
    if forall k | 1 <= k < |qs[i]| :: qs[i][k] != w {
      AroundNoWorse(g, dist, xs, qs, ys, i, 0, Key(dist, w));
    }
  }

  // ---------------------------------------------------------------------------
  // Descent

  lemma NoRevisit(g: Graph, x: NodeId, s: Search, q: seq<NodeId>, i: nat, j: nat)
    requires Finished(g, x, s) && TreeWalk(s, x, q) && i < j < |q|
    ensures q[i] != q[j]
  {
    hide Finished;
    WalkRises(g, x, s, q[..j + 1], i);
  }

  /** The part of a walk before `w`. */
  ghost function UpTo(q: seq<NodeId>, w: NodeId): seq<NodeId> {
    if q == [] || q[0] == w then [] else [q[0]] + UpTo(q[1..], w)
  }

  lemma {:induction false} UpToAt(q: seq<NodeId>, w: NodeId, k: nat)
    requires k < |q| && q[k] == w && forall i | 0 <= i < k :: q[i] != w
    ensures UpTo(q, w) == q[..k]
    decreases k
  {
    if k > 0 {
      UpToAt(q[1..], w, k - 1);
      assert q[..k] == [q[0]] + q[1..][..k - 1];
    }
  }

  /** One walk cut off before the worst node: it leads to the first node with a tight link
      to that node, by the same next hop. */
  lemma CutWalk(g: Graph, dist: map<NodeId, u32>, x: NodeId, s: Search, q: seq<NodeId>, w: NodeId, us: set<NodeId>, k: nat)
    requires Finished(g, x, s) && SameLabels(s.dist, dist) && TreeWalk(s, x, q)
    requires 2 <= k < |q| && q[k] == w && KeysBelow(dist, q, Key(dist, w) + 1)
    requires forall u :: u in us <==> Tight(g, dist, u, w)
    ensures UpTo(q, w) == q[..k]
    ensures TreeWalk(s, x, q[..k]) && KeysBelow(dist, q[..k], Key(dist, w))
    ensures FirstOf(s, q[k - 1], us)
  {
    hide Finished, KeysBelow, Key;
    forall i | 0 <= i < k
      ensures q[i] != w
    {
      NoRevisit(g, x, s, q, i, k);
    }
    UpToAt(q, w, k);
    PrefixBelow(dist, q, k, Key(dist, w) + 1);
    WithoutWorst(dist, q[..k], w);
    FirstTight(g, dist, x, s, q[k - 1], w, us);
  }

  lemma PrefixBelow(dist: map<NodeId, u32>, q: seq<NodeId>, k: nat, bound: nat)
    requires KeysBelow(dist, q, bound) && k <= |q|
    ensures KeysBelow(dist, q[..k], bound)
  {
  }

  lemma FirstTight(g: Graph, dist: map<NodeId, u32>, x: NodeId, s: Search, u: NodeId, w: NodeId, us: set<NodeId>)
    requires Finished(g, x, s) && SameLabels(s.dist, dist) && w in s.prev && s.prev[w] == u
    requires forall z :: z in us <==> Tight(g, dist, z, w)
    ensures FirstOf(s, u, us)
  {
    hide Labelled, Ranked, Relaxed, Earliest, Greedy, TightTree;
    TightAt(g, s.dist, s.prev, s.rank, w);
    forall z | z in us && z in s.rank
      ensures s.rank[u] <= s.rank[z]
    {
      assert Tight(g, s.dist, z, w);
      EarliestAt(g, x, s, z, w);
    }
  }

  lemma StartNotLater(g: Graph, dist: map<NodeId, u32>, x: NodeId, q: seq<NodeId>, next: NodeId, ys: set<NodeId>, k: nat)
    requires Leads(g, dist, x, q, next, ys) && 1 <= k < |q|
    ensures q[k] != x
  {
    hide Finished, Explore, FirstOf, SameLabels;
    ExploreFinishes(g, x);
    NoRevisit(g, x, Explore(g, x), q, 0, k);
  }

  /** The worst node is outside the ring. */
  lemma WorstOutside(g: Graph, dist: map<NodeId, u32>, xs: seq<NodeId>, qs: seq<seq<NodeId>>, ys: set<NodeId>,
                     w: NodeId, i: nat)
    requires Ring(g, dist, xs, qs, ys) && i < |qs|
    requires (exists k :: 1 <= k < |qs[0]| && qs[0][k] == w) && KeysBelow(dist, qs[0], Key(dist, w) + 1)
    ensures |xs| == |qs| + 1 && xs[i + 1] != w
  {
    hide Ring, Leads, KeysBelow, Key;
    RingAt(g, dist, xs, qs, ys, i);
    var j := if i + 1 == |qs| then 0 else i + 1;
    RingAt(g, dist, xs, qs, ys, j);
    WorstShared(g, dist, xs, qs, ys, w, j);
    var k :| 1 <= k < |qs[j]| && qs[j][k] == w;
    StartNotLater(g, dist, xs[j], qs[j], xs[j + 1], ys, k);
  }

  lemma CutLeads(g: Graph, dist: map<NodeId, u32>, x: NodeId, q: seq<NodeId>, next: NodeId, ys: set<NodeId>,
                 w: NodeId, us: set<NodeId>, k: nat)
    requires Leads(g, dist, x, q, next, ys) && 1 <= k < |q| && q[k] == w && next != w
    requires KeysBelow(dist, q, Key(dist, w) + 1) && forall u :: u in us <==> Tight(g, dist, u, w)
    ensures Leads(g, dist, x, UpTo(q, w), next, us) && KeysBelow(dist, UpTo(q, w), Key(dist, w))
  {
    hide KeysBelow, Key, Finished, FirstOf, SameLabels, Tight, Explore;
    ExploreFinishes(g, x);
    CutWalk(g, dist, x, Explore(g, x), q, w, us, k);
  }

  lemma CutAt(g: Graph, dist: map<NodeId, u32>, xs: seq<NodeId>, qs: seq<seq<NodeId>>, ys: set<NodeId>,
              w: NodeId, us: set<NodeId>, i: nat)
    requires Ring(g, dist, xs, qs, ys) && i < |qs|
    requires (exists k :: 1 <= k < |qs[0]| && qs[0][k] == w) && KeysBelow(dist, qs[0], Key(dist, w) + 1)
    requires forall u :: u in us <==> Tight(g, dist, u, w)
    ensures |xs| == |qs| + 1 && Leads(g, dist, xs[i], UpTo(qs[i], w), xs[i + 1], us)
    ensures KeysBelow(dist, UpTo(qs[i], w), Key(dist, w))
  {
    hide Ring, Leads, KeysBelow, Key, Tight;
    RingAt(g, dist, xs, qs, ys, i);
    WorstOutside(g, dist, xs, qs, ys, w, i);
    WorstShared(g, dist, xs, qs, ys, w, i);
    var k :| 1 <= k < |qs[i]| && qs[i][k] == w;
    CutLeads(g, dist, xs[i], qs[i], xs[i + 1], ys, w, us, k);
  }

  /** The nodes with a tight link to `w`. */
  ghost function TightTo(g: Graph, dist: map<NodeId, u32>, w: NodeId): set<NodeId> {
    set u | u in g && Tight(g, dist, u, w)
  }

  /** There is no ring: its worst node would give a ring with a smaller worst node. */
  lemma {:induction false} NoRing(g: Graph, dist: map<NodeId, u32>, xs: seq<NodeId>, qs: seq<seq<NodeId>>,
                                  ys: set<NodeId>, bound: nat)
    requires Ring(g, dist, xs, qs, ys) && KeysBelow(dist, qs[0], bound)
    ensures false
    decreases bound
  {
    hide Leads, Key;
    RingAt(g, dist, xs, qs, ys, 0);
    LeadsLength(g, dist, xs[0], qs[0], xs[1], ys);
    var w := WorstOf(dist, qs[0]);
    var us := TightTo(g, dist, w);
    var cut := seq(|qs|, i requires 0 <= i < |qs| => UpTo(qs[i], w));
    forall i | 0 <= i < |cut|
      ensures Leads(g, dist, xs[i], cut[i], xs[i + 1], us) && KeysBelow(dist, cut[i], Key(dist, w))
    {
      CutAt(g, dist, xs, qs, ys, w, us, i);
    }
    NoRing(g, dist, xs, cut, us, Key(dist, w));
  }

  lemma LeadsLength(g: Graph, dist: map<NodeId, u32>, x: NodeId, q: seq<NodeId>, next: NodeId, ys: set<NodeId>)
    requires Leads(g, dist, x, q, next, ys)
    ensures |q| >= 2
  {
  }

  // ---------------------------------------------------------------------------
  // Loops of next hops

  /** The distance from `x` to `v`. */
  ghost function Far(g: Graph, x: NodeId, v: NodeId): u32 {
    D(Explore(g, x).dist, v)
  }

  lemma FarIsDistance(g: Graph, x: NodeId, v: NodeId)
    ensures IsDistance(g, x, v, Far(g, x, v))
  {
    ExploreFinishes(g, x);
    LabelsAreDistances(g, x, Explore(g, x), v);
  }

  /** Where the table of `x` says to go, and what is left to pay from there. */
  lemma HopDescends(g: Graph, x: NodeId, d: NodeId)
    requires d in Table(g, x)
    ensures var r := Table(g, x)[d];
            && d != x && r.totalCost == Far(g, x, d) < U32_MAX && Edge(g, x, r.nextHop)
            && Far(g, x, d) == Cost(g, x, r.nextHop) + Far(g, r.nextHop, d)
            && (r.nextHop == d || d in Table(g, r.nextHop))
  {
    hide IsDistance, Table, Explore, Canonical;
    TableCorrect(g, x);
    var r := Table(g, x)[d];
    assert RouteCorrect(g, x, d, r);
    var p :| Explains(g, x, r, p);
    SuffixDistance(g, x, d, p, r.totalCost);
    var n := r.nextHop;
    FarIsDistance(g, x, d);
    FarIsDistance(g, n, d);
    DistanceUnique(g, x, d, r.totalCost, Far(g, x, d));
    DistanceUnique(g, n, d, r.totalCost - Cost(g, x, n), Far(g, n, d));
    DistanceFinite(g, n, d, Far(g, n, d));
    TableComplete(g, n);
  }

  lemma ZeroLink(g: Graph, x: NodeId, n: NodeId, v: NodeId)
    requires Edge(g, x, n) && Cost(g, x, n) == 0
    ensures Far(g, x, v) <= Far(g, n, v)
  {
    hide Far;
    FarIsDistance(g, x, v);
    FarIsDistance(g, n, v);
    if Far(g, n, v) < U32_MAX {
      var q :| Joins(g, n, v, q) && PathCost(g, q) == Far(g, n, v);
      PrependPath(g, x, q);
      assert Joins(g, x, v, [x] + q);
    }
  }

  /** Following the tables for `d` from one node of `xs` to the next. */
  ghost predicate Hops(g: Graph, d: NodeId, xs: seq<NodeId>) {
    |xs| > 0 && forall i | 0 <= i < |xs| - 1 :: HopsTo(g, d, xs[i], xs[i + 1])
  }

  ghost predicate HopsTo(g: Graph, d: NodeId, x: NodeId, n: NodeId) {
    d in Table(g, x) && Table(g, x)[d].nextHop == n
  }

  lemma {:induction false} HopsDescend(g: Graph, d: NodeId, xs: seq<NodeId>, i: nat, j: nat)
    requires Hops(g, d, xs) && i <= j < |xs|
    ensures Far(g, xs[j], d) <= Far(g, xs[i], d)
    decreases j - i
  {
    hide Table, Explore;
    if i < j {
      assert HopsTo(g, d, xs[i], xs[i + 1]);
      HopDescends(g, xs[i], d);
      HopsDescend(g, d, xs, i + 1, j);
    }
  }

  /** All links of a loop have cost zero. */
  lemma LoopIsFree(g: Graph, d: NodeId, xs: seq<NodeId>, i: nat)
    requires Hops(g, d, xs) && xs[|xs| - 1] == xs[0] && i < |xs| - 1
    ensures Edge(g, xs[i], xs[i + 1]) && Cost(g, xs[i], xs[i + 1]) == 0
  {
    hide Table, Explore;
    assert HopsTo(g, d, xs[i], xs[i + 1]);
    HopDescends(g, xs[i], d);
    HopsDescend(g, d, xs, 0, i);
    HopsDescend(g, d, xs, i + 1, |xs| - 1);
  }

  lemma {:induction false} LoopLabels(g: Graph, d: NodeId, xs: seq<NodeId>, i: nat, j: nat, v: NodeId)
    requires Hops(g, d, xs) && xs[|xs| - 1] == xs[0] && i <= j < |xs|
    ensures Far(g, xs[i], v) <= Far(g, xs[j], v)
    decreases j - i
  {
    hide Hops, Far;
    if i < j {
      LoopIsFree(g, d, xs, i);
      ZeroLink(g, xs[i], xs[i + 1], v);
      LoopLabels(g, d, xs, i + 1, j, v);
    }
  }

  lemma LoopSameLabels(g: Graph, d: NodeId, xs: seq<NodeId>, i: nat)
    requires Hops(g, d, xs) && xs[|xs| - 1] == xs[0] && i < |xs|
    ensures SameLabels(Explore(g, xs[i]).dist, Explore(g, xs[0]).dist)
  {
    hide Hops, Explore;
    forall v
      ensures D(Explore(g, xs[i]).dist, v) == D(Explore(g, xs[0]).dist, v)
    {
      LoopLabels(g, d, xs, 0, i, v);
      LoopLabels(g, d, xs, i, |xs| - 1, v);
    }
  }

  lemma HopLeads(g: Graph, dist: map<NodeId, u32>, d: NodeId, x: NodeId, n: NodeId) returns (q: seq<NodeId>)
    requires HopsTo(g, d, x, n) && SameLabels(Explore(g, x).dist, dist)
    ensures Leads(g, dist, x, q, n, {d})
  {
    hide SameLabels, Explore, Earliest, Greedy, Relaxed, TightTree, Ranked;
    var s := Explore(g, x);
    ExploreFinishes(g, x);
    FinishedWalkable(g, x, s);
    q := TreePath(x, s, d);
    TreePathFollows(x, s, d);
  }

  /** The loop, with a walk for each of its nodes. */
  lemma {:induction false} LoopWalks(g: Graph, d: NodeId, xs: seq<NodeId>, n: nat) returns (qs: seq<seq<NodeId>>)
    requires Hops(g, d, xs) && xs[|xs| - 1] == xs[0] && n <= |xs| - 1
    ensures |qs| == n
    ensures forall i | 0 <= i < n :: Leads(g, Explore(g, xs[0]).dist, xs[i], qs[i], xs[i + 1], {d})
    decreases n
  {
    hide HopsTo, Leads, Explore;
    if n == 0 {
      qs := [];
    } else {
      qs := LoopWalks(g, d, xs, n - 1);
      LoopSameLabels(g, d, xs, n - 1);
      assert HopsTo(g, d, xs[n - 1], xs[n - 1 + 1]);
      var q := HopLeads(g, Explore(g, xs[0]).dist, d, xs[n - 1], xs[n]);
      qs := qs + [q];
    }
  }

  lemma KeysBounded(dist: map<NodeId, u32>, q: seq<NodeId>)
    ensures KeysBelow(dist, q, (U32_MAX + 1) * U64_MODULUS)
  {
  }

  /** With tables for the same costs, whatever the costs, following next hops for one
      destination never leads back to a node. */
  lemma NoLoop(g: Graph, d: NodeId, xs: seq<NodeId>)
    requires Hops(g, d, xs) && |xs| >= 2
    ensures xs[|xs| - 1] != xs[0]
  {
    hide Hops, Leads, Explore, KeysBelow;
    if xs[|xs| - 1] == xs[0] {
      var dist := Explore(g, xs[0]).dist;
      var qs := LoopWalks(g, d, xs, |xs| - 1);
      KeysBounded(dist, qs[0]);
      NoRing(g, dist, xs, qs, {d}, (U32_MAX + 1) * U64_MODULUS);
    }
  }
}
