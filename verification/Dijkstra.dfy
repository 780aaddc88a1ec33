/** The search of `compute_routes`: Dijkstra's algorithm over a heap with lazy deletion
    and saturating 32-bit distances, as a function. The invariants below hold for every
    node map, including zero-cost links, self-links and nodes known only as a neighbour. */
module Dijkstra {
  import opened Base
  import opened ShortestPath

  datatype Entry = Entry(dist: u32, node: NodeId)

  /** The order in which the heap releases entries: by distance, then by node. */
  predicate Before(a: Entry, b: Entry) {
    a.dist < b.dist || (a.dist == b.dist && a.node <= b.node)
  }

  function SatAdd(a: u32, b: u32): u32 {
    if a + b > U32_MAX then U32_MAX else a + b
  }

  /** An absent label counts as infinite. */
  function D(dist: map<NodeId, u32>, v: NodeId): u32 {
    if v in dist then dist[v] else U32_MAX
  }

  /** `rank` is bookkeeping for the proof: the nodes already expanded, numbered in
      the order of their expansion, with `clock` the next number. */
  datatype Search = Search(dist: map<NodeId, u32>, prev: map<NodeId, NodeId>, heap: multiset<Entry>,
                           rank: map<NodeId, nat>, clock: nat)

  // ---------------------------------------------------------------------------
  // Steps

  function Label(local: NodeId, v: NodeId): u32 {
    if v == local then 0 else U32_MAX
  }

  function Labels(vs: set<NodeId>, local: NodeId): map<NodeId, u32> {
    map v | v in vs + {local} :: Label(local, v)
  }

  function Entries(vs: set<NodeId>, local: NodeId): multiset<Entry> {
    multiset(set v | v in vs + {local} :: Entry(Label(local, v), v))
  }

  /** Every known node is labelled and queued; only `local` has a finite label. */
  function Start(g: Graph, local: NodeId): Search {
    Search(Labels(g.Keys, local), map[], Entries(g.Keys, local), map[], 0)
  }

  function Pop(s: Search, e: Entry): Search {
    s.(heap := s.heap - multiset{e})
  }

  function Expand(s: Search, e: Entry): Search {
    Pop(s, e).(rank := s.rank[e.node := s.clock], clock := s.clock + 1)
  }

  function Relax(s: Search, u: NodeId, d: u32, v: NodeId, c: u32): Search {
    var nd := SatAdd(d, c);
    if nd < D(s.dist, v) then
      s.(dist := s.dist[v := nd], prev := s.prev[v := u], heap := s.heap + multiset{Entry(nd, v)})
    else s
  }

  function LinksFrom(g: Graph, u: NodeId): set<NodeId> {
    if u in g then g[u].Keys else {}
  }

  /** The nodes of `vs` that the links from `u` improve. */
  function Improved(g: Graph, dist: map<NodeId, u32>, u: NodeId, d: u32, vs: set<NodeId>): set<NodeId>
    requires vs <= LinksFrom(g, u)
  {
    set v | v in vs && SatAdd(d, Cost(g, u, v)) < D(dist, v)
  }

  function NewLabels(g: Graph, u: NodeId, d: u32, vs: set<NodeId>): map<NodeId, u32>
    requires vs <= LinksFrom(g, u)
  {
    map v | v in vs :: SatAdd(d, Cost(g, u, v))
  }

  function NewPrev(u: NodeId, vs: set<NodeId>): map<NodeId, NodeId> {
    map v | v in vs :: u
  }

  function NewEntries(g: Graph, u: NodeId, d: u32, vs: set<NodeId>): set<Entry>
    requires vs <= LinksFrom(g, u)
  {
    set v | v in vs :: Entry(SatAdd(d, Cost(g, u, v)), v)
  }

  /** Relaxes the links from `u` to `vs` at once. */
  function RelaxSome(g: Graph, s: Search, u: NodeId, d: u32, vs: set<NodeId>): Search
    requires vs <= LinksFrom(g, u)
  {
    var better := Improved(g, s.dist, u, d, vs);
    s.(dist := s.dist + NewLabels(g, u, d, better), prev := s.prev + NewPrev(u, better),
       heap := s.heap + multiset(NewEntries(g, u, d, better)))
  }

  lemma EntriesOneMore(g: Graph, u: NodeId, d: u32, vs: set<NodeId>, v: NodeId)
    requires vs <= LinksFrom(g, u) && v in LinksFrom(g, u) && v !in vs
    ensures multiset(NewEntries(g, u, d, vs + {v}))
         == multiset(NewEntries(g, u, d, vs)) + multiset{Entry(SatAdd(d, Cost(g, u, v)), v)}
  {
    var e := Entry(SatAdd(d, Cost(g, u, v)), v);
    assert NewEntries(g, u, d, vs + {v}) == NewEntries(g, u, d, vs) + {e};
    assert e !in NewEntries(g, u, d, vs);
  }

  lemma MapsOneMore(g: Graph, s: Search, u: NodeId, d: u32, vs: set<NodeId>, v: NodeId)
    requires vs <= LinksFrom(g, u) && v in LinksFrom(g, u) && v !in vs
    ensures s.dist + NewLabels(g, u, d, vs + {v}) == (s.dist + NewLabels(g, u, d, vs))[v := SatAdd(d, Cost(g, u, v))]
    ensures s.prev + NewPrev(u, vs + {v}) == (s.prev + NewPrev(u, vs))[v := u]
  {
  }

  lemma ImprovedWithin(g: Graph, dist: map<NodeId, u32>, u: NodeId, d: u32, vs: set<NodeId>)
    requires vs <= LinksFrom(g, u)
    ensures Improved(g, dist, u, d, vs) <= vs
  {
  }

  lemma ImprovedOneMore(g: Graph, dist: map<NodeId, u32>, u: NodeId, d: u32, vs: set<NodeId>, v: NodeId)
    requires vs <= LinksFrom(g, u) && v in LinksFrom(g, u)
    ensures Improved(g, dist, u, d, vs + {v})
         == Improved(g, dist, u, d, vs) + (if SatAdd(d, Cost(g, u, v)) < D(dist, v) then {v} else {})
  {
  }

  lemma OthersKeepLabels(g: Graph, s: Search, u: NodeId, d: u32, vs: set<NodeId>, v: NodeId)
    requires vs <= LinksFrom(g, u) && v !in vs
    ensures D(RelaxSome(g, s, u, d, vs).dist, v) == D(s.dist, v)
  {
  }

  /** Relaxing at once is relaxing one after the other, in any order. */
  lemma RelaxOneMore(g: Graph, s: Search, u: NodeId, d: u32, vs: set<NodeId>, v: NodeId)
    requires vs <= LinksFrom(g, u) && v in LinksFrom(g, u) && v !in vs
    ensures RelaxSome(g, s, u, d, vs + {v}) == Relax(RelaxSome(g, s, u, d, vs), u, d, v, Cost(g, u, v))
  {
    hide Improved, NewEntries, NewLabels, NewPrev, D;
    var some := Improved(g, s.dist, u, d, vs);
    ImprovedWithin(g, s.dist, u, d, vs);
    ImprovedOneMore(g, s.dist, u, d, vs, v);
    OthersKeepLabels(g, s, u, d, vs, v);
    if SatAdd(d, Cost(g, u, v)) < D(s.dist, v) {
      EntriesOneMore(g, u, d, some, v);
      MapsOneMore(g, s, u, d, some, v);
      var e := multiset{Entry(SatAdd(d, Cost(g, u, v)), v)};
      assert s.heap + (multiset(NewEntries(g, u, d, some)) + e) == (s.heap + multiset(NewEntries(g, u, d, some))) + e;
    } else {
      assert some + {} == some;
    }
  }

  lemma RelaxNone(g: Graph, s: Search, u: NodeId, d: u32)
    ensures RelaxSome(g, s, u, d, {}) == s
  {
    assert Improved(g, s.dist, u, d, {}) == {};
    assert NewEntries(g, u, d, {}) == {};
    assert NewLabels(g, u, d, {}) == map[] && NewPrev(u, {}) == map[];
  }

  // ---------------------------------------------------------------------------
  // The heap

  lemma {:induction false} LeastExists(heap: multiset<Entry>) returns (e: Entry)
    requires heap != multiset{}
    ensures e in heap && forall x | x in heap :: Before(e, x)
    decreases |heap|
  {
    var first: Entry :| first in heap;
    e := first;
    var rest := heap - multiset{first};
    if rest != multiset{} {
      var m := LeastExists(rest);
      if Before(m, first) {
        e := m;
      }
    }
    forall x | x in heap
      ensures Before(e, x)
    {
      assert x == first || x in rest;
    }
  }

  /** What the heap releases next. */
  ghost function Least(heap: multiset<Entry>): (e: Entry)
    requires heap != multiset{}
    ensures e in heap && forall x | x in heap :: Before(e, x)
  {
    assert exists e :: e in heap && forall x | x in heap :: Before(e, x) by {
      var e := LeastExists(heap);
    }
    var e :| e in heap && forall x | x in heap :: Before(e, x);
    e
  }

  // ---------------------------------------------------------------------------
  // Termination

  /** Every node that can ever receive a label. */
  ghost function Universe(g: Graph, local: NodeId): set<NodeId> {
    {local} + g.Keys + set u, v | u in g && v in g[u] :: v
  }

  ghost function Total(vs: set<NodeId>, dist: map<NodeId, u32>): nat {
    if vs == {} then 0 else
      var v :| v in vs;
      D(dist, v) + Total(vs - {v}, dist)
  }

  lemma {:induction false} TotalPick(vs: set<NodeId>, dist: map<NodeId, u32>, v: NodeId)
    requires v in vs
    ensures Total(vs, dist) == D(dist, v) + Total(vs - {v}, dist)
  {
    var w :| w in vs && Total(vs, dist) == D(dist, w) + Total(vs - {w}, dist);
    if w != v {
      TotalPick(vs - {w}, dist, v);
      TotalPick(vs - {v}, dist, w);
      assert vs - {w} - {v} == vs - {v} - {w};
    }
  }

  lemma {:induction false} TotalSame(vs: set<NodeId>, dist: map<NodeId, u32>, v: NodeId, d: u32)
    requires v !in vs
    ensures Total(vs, dist[v := d]) == Total(vs, dist)
  {
    if vs != {} {
      var w :| w in vs;
      TotalPick(vs, dist, w);
      TotalPick(vs, dist[v := d], w);
      TotalSame(vs - {w}, dist, v, d);
    }
  }

  /** Each push pays for itself with a smaller sum of labels. */
  lemma ImprovePays(vs: set<NodeId>, dist: map<NodeId, u32>, v: NodeId, d: u32)
    requires v in vs && d < D(dist, v)
    ensures Total(vs, dist[v := d]) < Total(vs, dist)
  {
    TotalPick(vs, dist, v);
    TotalPick(vs, dist[v := d], v);
    TotalSame(vs - {v}, dist, v, d);
  }

  ghost function Potential(g: Graph, local: NodeId, s: Search): nat {
    Total(Universe(g, local), s.dist) + |s.heap|
  }

  lemma RelaxPays(g: Graph, local: NodeId, s: Search, u: NodeId, d: u32, v: NodeId)
    requires Edge(g, u, v)
    ensures Potential(g, local, Relax(s, u, d, v, Cost(g, u, v))) <= Potential(g, local, s)
  {
    var nd := SatAdd(d, Cost(g, u, v));
    if nd < D(s.dist, v) {
      assert v in Universe(g, local);
      ImprovePays(Universe(g, local), s.dist, v, nd);
    }
  }

  lemma {:induction false} RelaxSomePays(g: Graph, local: NodeId, s: Search, u: NodeId, d: u32, vs: set<NodeId>)
    requires vs <= LinksFrom(g, u)
    ensures Potential(g, local, RelaxSome(g, s, u, d, vs)) <= Potential(g, local, s)
    decreases |vs|
  {
    hide RelaxSome, Relax, Potential;
    if vs == {} {
      RelaxNone(g, s, u, d);
    } else {
      var v :| v in vs;
      RelaxSomePays(g, local, s, u, d, vs - {v});
      RelaxPays(g, local, RelaxSome(g, s, u, d, vs - {v}), u, d, v);
      RelaxOneMore(g, s, u, d, vs - {v}, v);
      assert vs - {v} + {v} == vs;
    }
  }

  // ---------------------------------------------------------------------------
  // The search

  /** Expands the node of `e` and relaxes all its links. */
  ghost function Visit(g: Graph, s: Search, e: Entry): Search {
    RelaxSome(g, Expand(s, e), e.node, e.dist, LinksFrom(g, e.node))
  }

  lemma PopPays(g: Graph, local: NodeId, s: Search, e: Entry)
    requires e in s.heap
    ensures Potential(g, local, Pop(s, e)) < Potential(g, local, s)
  {
  }

  lemma VisitPays(g: Graph, local: NodeId, s: Search, e: Entry)
    requires e in s.heap
    ensures Potential(g, local, Visit(g, s, e)) < Potential(g, local, s)
  {
    RelaxSomePays(g, local, Expand(s, e), e.node, e.dist, LinksFrom(g, e.node));
  }

  /** The search to its end: a function, so no order of iteration matters. */
  ghost function Run(g: Graph, local: NodeId, s: Search): Search
    decreases Potential(g, local, s)
  {
    if s.heap == multiset{} then s
    else
      var e := Least(s.heap);
      if D(s.dist, e.node) < e.dist then Run(g, local, Pop(s, e))
      else
        VisitPays(g, local, s, e);
        Run(g, local, Visit(g, s, e))
  }

  /** The outcome of the search from `local`. */
  ghost function Explore(g: Graph, local: NodeId): Search {
    Run(g, local, Start(g, local))
  }

  // ---------------------------------------------------------------------------
  // Invariants

  ghost predicate Labelled(local: NodeId, dist: map<NodeId, u32>, prev: map<NodeId, NodeId>) {
    && local in dist && dist[local] == 0 && local !in prev
    && (forall v | v in dist && dist[v] < U32_MAX && v != local :: v in prev)
  }

  /** The link `u -> v` accounts exactly for the label of `v`. */
  ghost predicate Tight(g: Graph, dist: map<NodeId, u32>, u: NodeId, v: NodeId) {
    Edge(g, u, v) && D(dist, v) < U32_MAX && D(dist, v) == D(dist, u) + Cost(g, u, v)
  }

  /** Predecessors were expanded before their successors, over links that are tight. */
  ghost predicate TightTree(g: Graph, dist: map<NodeId, u32>, prev: map<NodeId, NodeId>, rank: map<NodeId, nat>) {
    forall v | v in prev ::
      && Tight(g, dist, prev[v], v)
      && prev[v] in rank
      && (v in rank ==> rank[prev[v]] < rank[v])
  }

  /** Entries are at or above the label of their node, and no label is above an entry
      once its node is expanded. */
  ghost predicate Ordered(dist: map<NodeId, u32>, heap: multiset<Entry>, rank: map<NodeId, nat>) {
    && (forall e | e in heap :: D(dist, e.node) <= e.dist)
    && (forall u, e | u in rank && e in heap :: D(dist, u) <= e.dist)
  }

  /** No entry is queued twice, and an expanded node is not queued with its label. */
  ghost predicate Spent(dist: map<NodeId, u32>, heap: multiset<Entry>, rank: map<NodeId, nat>) {
    && (forall e: Entry :: heap[e] <= 1)
    && (forall u | u in rank :: Entry(D(dist, u), u) !in heap)
  }

  ghost predicate Ranked(rank: map<NodeId, nat>, clock: nat) {
    && (forall u | u in rank :: rank[u] < clock)
    && (forall u, v | u in rank && v in rank && u != v :: rank[u] != rank[v])
  }

  ghost predicate Queued(dist: map<NodeId, u32>, heap: multiset<Entry>, rank: map<NodeId, nat>) {
    forall u | u in dist && dist[u] < U32_MAX :: u in rank || Entry(dist[u], u) in heap
  }

  /** Expanded nodes have relaxed their links, except those of `cur` still in `todo`. */
  ghost predicate Relaxed(g: Graph, dist: map<NodeId, u32>, rank: map<NodeId, nat>, cur: NodeId, todo: set<NodeId>) {
    forall u, v | u in rank && Edge(g, u, v) && !(u == cur && v in todo) ::
      D(dist, v) <= SatAdd(D(dist, u), Cost(g, u, v))
  }

  /** The predecessor of a node is the first expanded node with a tight link to it. */
  ghost predicate Earliest(g: Graph, dist: map<NodeId, u32>, prev: map<NodeId, NodeId>, rank: map<NodeId, nat>) {
    forall v, u | v in prev && prev[v] in rank && u in rank && Tight(g, dist, u, v) :: rank[prev[v]] <= rank[u]
  }

  /** A node expanded while `v` was waiting came before `v` in the order of the heap. */
  ghost predicate Greedy(dist: map<NodeId, u32>, prev: map<NodeId, NodeId>, rank: map<NodeId, nat>) {
    forall v, u | v in prev && prev[v] in rank && u in rank && rank[prev[v]] < rank[u]
                  && (v in rank ==> rank[u] < rank[v]) ::
      Before(Entry(D(dist, u), u), Entry(D(dist, v), v))
  }

  ghost predicate Inv(g: Graph, local: NodeId, s: Search, cur: NodeId, todo: set<NodeId>) {
    && Labelled(local, s.dist, s.prev)
    && TightTree(g, s.dist, s.prev, s.rank)
    && Ordered(s.dist, s.heap, s.rank)
    && Spent(s.dist, s.heap, s.rank)
    && Ranked(s.rank, s.clock)
    && Queued(s.dist, s.heap, s.rank)
    && Relaxed(g, s.dist, s.rank, cur, todo)
    && Earliest(g, s.dist, s.prev, s.rank)
    && Greedy(s.dist, s.prev, s.rank)
  }

  /** The node being expanded is the last one expanded, and the farthest. */
  ghost predicate Front(dist: map<NodeId, u32>, rank: map<NodeId, nat>, cur: NodeId) {
    cur in rank && forall u | u in rank :: D(dist, u) <= D(dist, cur) && rank[u] <= rank[cur]
  }

  ghost predicate Inner(g: Graph, local: NodeId, s: Search, cur: NodeId, todo: set<NodeId>) {
    Inv(g, local, s, cur, todo) && Front(s.dist, s.rank, cur)
  }

  lemma StartInv(g: Graph, local: NodeId)
    ensures Inv(g, local, Start(g, local), local, {})
  {
  }

  // ---------------------------------------------------------------------------
  // Skipping and expanding

  lemma PopShrinks(heap: multiset<Entry>, e: Entry, x: Entry)
    requires e in heap
    ensures (heap - multiset{e})[x] == if x == e then heap[x] - 1 else heap[x]
  {
  }

  lemma PopKeepsHeap(dist: map<NodeId, u32>, heap: multiset<Entry>, rank: map<NodeId, nat>, e: Entry)
    requires e in heap && Ordered(dist, heap, rank) && Spent(dist, heap, rank)
    ensures Ordered(dist, heap - multiset{e}, rank) && Spent(dist, heap - multiset{e}, rank)
  {
    forall x: Entry
      ensures (heap - multiset{e})[x] <= heap[x]
    {
      PopShrinks(heap, e, x);
    }
  }

  lemma PopKeepsQueued(dist: map<NodeId, u32>, heap: multiset<Entry>, rank: map<NodeId, nat>, e: Entry)
    requires e in heap && D(dist, e.node) < e.dist && Queued(dist, heap, rank)
    ensures Queued(dist, heap - multiset{e}, rank)
  {
    forall u | u in dist && dist[u] < U32_MAX && u !in rank
      ensures Entry(dist[u], u) in heap - multiset{e}
    {
      PopShrinks(heap, e, Entry(dist[u], u));
    }
  }

  lemma SkipKeepsInv(g: Graph, local: NodeId, s: Search, e: Entry, cur: NodeId)
    requires Inv(g, local, s, cur, {}) && e in s.heap && D(s.dist, e.node) < e.dist
    ensures Inv(g, local, Pop(s, e), cur, {})
  {
    hide Labelled, TightTree, Ranked, Relaxed, Earliest, Greedy, Ordered, Spent, Queued;
    PopKeepsHeap(s.dist, s.heap, s.rank, e);
    PopKeepsQueued(s.dist, s.heap, s.rank, e);
  }

  /** A node is expanded once. */
  lemma ExpandedIsNew(dist: map<NodeId, u32>, heap: multiset<Entry>, rank: map<NodeId, nat>, e: Entry)
    requires Spent(dist, heap, rank) && e in heap && D(dist, e.node) == e.dist
    ensures e.node !in rank
  {
    assert e == Entry(D(dist, e.node), e.node);
  }

  lemma ExpandKeepsOrder(s: Search, e: Entry)
    requires Ordered(s.dist, s.heap, s.rank) && Queued(s.dist, s.heap, s.rank)
    requires e in s.heap && D(s.dist, e.node) == e.dist
    requires forall x | x in s.heap :: Before(e, x)
    ensures Ordered(s.dist, Expand(s, e).heap, Expand(s, e).rank)
    ensures Queued(s.dist, Expand(s, e).heap, Expand(s, e).rank)
  {
    hide Spent;
  }

  lemma ExpandKeepsSpent(s: Search, e: Entry)
    requires Spent(s.dist, s.heap, s.rank) && e in s.heap && D(s.dist, e.node) == e.dist
    ensures Spent(s.dist, Expand(s, e).heap, Expand(s, e).rank)
  {
    assert (s.heap - multiset{e})[e] == s.heap[e] - 1;
  }

  lemma ExpandKeepsRank(s: Search, e: Entry)
    requires Ranked(s.rank, s.clock) && Ordered(s.dist, s.heap, s.rank) && e.node !in s.rank
    requires e in s.heap && D(s.dist, e.node) == e.dist
    ensures Ranked(Expand(s, e).rank, Expand(s, e).clock)
    ensures Front(s.dist, Expand(s, e).rank, e.node)
  {
  }

  lemma ExpandKeepsTree(g: Graph, s: Search, e: Entry, cur: NodeId)
    requires TightTree(g, s.dist, s.prev, s.rank) && Relaxed(g, s.dist, s.rank, cur, {})
    requires Ranked(s.rank, s.clock) && e.node !in s.rank
    ensures TightTree(g, s.dist, s.prev, Expand(s, e).rank)
    ensures Relaxed(g, s.dist, Expand(s, e).rank, e.node, LinksFrom(g, e.node))
  {
  }

  lemma ExpandKeepsEarliest(g: Graph, s: Search, e: Entry)
    requires TightTree(g, s.dist, s.prev, s.rank) && Earliest(g, s.dist, s.prev, s.rank)
    requires Ranked(s.rank, s.clock) && e.node !in s.rank
    ensures Earliest(g, s.dist, s.prev, Expand(s, e).rank)
  {
  }

  lemma ExpandKeepsGreedy(g: Graph, s: Search, e: Entry)
    requires TightTree(g, s.dist, s.prev, s.rank) && Greedy(s.dist, s.prev, s.rank)
    requires Queued(s.dist, s.heap, s.rank) && Ranked(s.rank, s.clock) && e.node !in s.rank
    requires e in s.heap && D(s.dist, e.node) == e.dist
    requires forall x | x in s.heap :: Before(e, x)
    ensures Greedy(s.dist, s.prev, Expand(s, e).rank)
  {
  }

  lemma ExpandKeepsInv(g: Graph, local: NodeId, s: Search, e: Entry, cur: NodeId)
    requires Inv(g, local, s, cur, {}) && e in s.heap && e.dist <= D(s.dist, e.node)
    requires forall x | x in s.heap :: Before(e, x)
    ensures D(s.dist, e.node) == e.dist
    ensures Inner(g, local, Expand(s, e), e.node, LinksFrom(g, e.node))
  {
    ExpandedIsNew(s.dist, s.heap, s.rank, e);
    ExpandKeepsOrder(s, e);
    ExpandKeepsSpent(s, e);
    ExpandKeepsRank(s, e);
    ExpandKeepsTree(g, s, e, cur);
    ExpandKeepsEarliest(g, s, e);
    ExpandKeepsGreedy(g, s, e);
  }

  // ---------------------------------------------------------------------------
  // Relaxing

  /** An expanded node can no longer improve. */
  lemma ImprovedIsNew(g: Graph, s: Search, cur: NodeId, v: NodeId)
    requires Front(s.dist, s.rank, cur) && Edge(g, cur, v)
    requires SatAdd(D(s.dist, cur), Cost(g, cur, v)) < D(s.dist, v)
    ensures v !in s.rank && v != cur
    ensures SatAdd(D(s.dist, cur), Cost(g, cur, v)) == D(s.dist, cur) + Cost(g, cur, v)
  {
  }

  lemma ImproveKeepsTree(g: Graph, s: Search, cur: NodeId, todo: set<NodeId>, v: NodeId, nd: u32)
    requires TightTree(g, s.dist, s.prev, s.rank) && Relaxed(g, s.dist, s.rank, cur, todo)
    requires Front(s.dist, s.rank, cur) && Edge(g, cur, v) && v !in s.rank
    requires nd == D(s.dist, cur) + Cost(g, cur, v) < D(s.dist, v)
    ensures TightTree(g, s.dist[v := nd], s.prev[v := cur], s.rank)
    ensures Relaxed(g, s.dist[v := nd], s.rank, cur, todo - {v})
    ensures Front(s.dist[v := nd], s.rank, cur)
  {
    assert forall u | u != v :: D(s.dist[v := nd], u) == D(s.dist, u);
  }

  lemma ImproveKeepsOrder(s: Search, cur: NodeId, v: NodeId, nd: u32)
    requires Ordered(s.dist, s.heap, s.rank) && Queued(s.dist, s.heap, s.rank)
    requires Front(s.dist, s.rank, cur) && v !in s.rank
    requires D(s.dist, cur) <= nd < D(s.dist, v)
    ensures Ordered(s.dist[v := nd], s.heap + multiset{Entry(nd, v)}, s.rank)
    ensures Queued(s.dist[v := nd], s.heap + multiset{Entry(nd, v)}, s.rank)
  {
    assert forall u | u != v :: D(s.dist[v := nd], u) == D(s.dist, u);
  }

  lemma ImproveKeepsSpent(s: Search, v: NodeId, nd: u32)
    requires Spent(s.dist, s.heap, s.rank) && Ordered(s.dist, s.heap, s.rank)
    requires v !in s.rank && nd < D(s.dist, v)
    ensures Spent(s.dist[v := nd], s.heap + multiset{Entry(nd, v)}, s.rank)
  {
    assert Entry(nd, v) !in s.heap;
    forall u | u in s.rank
      ensures Entry(D(s.dist[v := nd], u), u) !in s.heap + multiset{Entry(nd, v)}
    {
      assert D(s.dist[v := nd], u) == D(s.dist, u);
    }
  }

  lemma ImproveKeepsEarliest(g: Graph, s: Search, cur: NodeId, todo: set<NodeId>, v: NodeId, nd: u32)
    requires Earliest(g, s.dist, s.prev, s.rank) && Relaxed(g, s.dist, s.rank, cur, todo)
    requires cur in s.rank && Edge(g, cur, v) && v !in s.rank
    requires nd == D(s.dist, cur) + Cost(g, cur, v) < D(s.dist, v)
    ensures Earliest(g, s.dist[v := nd], s.prev[v := cur], s.rank)
  {
    assert forall u | u != v :: D(s.dist[v := nd], u) == D(s.dist, u);
  }

  lemma ImproveKeepsGreedy(s: Search, cur: NodeId, v: NodeId, nd: u32)
    requires Greedy(s.dist, s.prev, s.rank) && Front(s.dist, s.rank, cur) && v !in s.rank
    ensures Greedy(s.dist[v := nd], s.prev[v := cur], s.rank)
  {
    assert forall u | u != v :: D(s.dist[v := nd], u) == D(s.dist, u);
  }

  lemma RelaxKeepsInv(g: Graph, local: NodeId, s: Search, cur: NodeId, todo: set<NodeId>, v: NodeId)
    requires Inner(g, local, s, cur, todo) && v in todo && Edge(g, cur, v)
    ensures var t := Relax(s, cur, D(s.dist, cur), v, Cost(g, cur, v));
            Inner(g, local, t, cur, todo - {v}) && D(t.dist, cur) == D(s.dist, cur)
  {
    hide TightTree, Ordered, Spent, Ranked, Queued, Earliest, Greedy;
    var nd := SatAdd(D(s.dist, cur), Cost(g, cur, v));
    if nd < D(s.dist, v) {
      ImprovedIsNew(g, s, cur, v);
      ImproveKeepsTree(g, s, cur, todo, v, nd);
      ImproveKeepsOrder(s, cur, v, nd);
      ImproveKeepsSpent(s, v, nd);
      ImproveKeepsEarliest(g, s, cur, todo, v, nd);
      ImproveKeepsGreedy(s, cur, v, nd);
    }
  }

  lemma {:induction false} RelaxSomeKeepsInv(g: Graph, local: NodeId, s: Search, cur: NodeId, vs: set<NodeId>)
    requires Inner(g, local, s, cur, LinksFrom(g, cur)) && vs <= LinksFrom(g, cur)
    ensures var t := RelaxSome(g, s, cur, D(s.dist, cur), vs);
            Inner(g, local, t, cur, LinksFrom(g, cur) - vs) && D(t.dist, cur) == D(s.dist, cur)
    decreases |vs|
  {
    hide Inner, RelaxSome;
    if vs == {} {
      RelaxNone(g, s, cur, D(s.dist, cur));
      assert LinksFrom(g, cur) - vs == LinksFrom(g, cur);
    } else {
      var v :| v in vs;
      RelaxSomeKeepsInv(g, local, s, cur, vs - {v});
      var t := RelaxSome(g, s, cur, D(s.dist, cur), vs - {v});
      RelaxKeepsInv(g, local, t, cur, LinksFrom(g, cur) - (vs - {v}), v);
      RelaxOneMore(g, s, cur, D(s.dist, cur), vs - {v}, v);
      assert vs - {v} + {v} == vs;
      assert LinksFrom(g, cur) - (vs - {v}) - {v} == LinksFrom(g, cur) - vs;
    }
  }

  lemma VisitKeepsInv(g: Graph, local: NodeId, s: Search, e: Entry, cur: NodeId)
    requires Inv(g, local, s, cur, {}) && e in s.heap && e.dist <= D(s.dist, e.node)
    requires forall x | x in s.heap :: Before(e, x)
    ensures Inv(g, local, Visit(g, s, e), e.node, {})
  {
    ExpandKeepsInv(g, local, s, e, cur);
    RelaxSomeKeepsInv(g, local, Expand(s, e), e.node, LinksFrom(g, e.node));
    assert LinksFrom(g, e.node) - LinksFrom(g, e.node) == {};
  }

  // ---------------------------------------------------------------------------
  // The finished search

  ghost predicate Finished(g: Graph, local: NodeId, s: Search) {
    && s.heap == multiset{}
    && Labelled(local, s.dist, s.prev)
    && TightTree(g, s.dist, s.prev, s.rank)
    && Ranked(s.rank, s.clock)
    && Relaxed(g, s.dist, s.rank, local, {})
    && Earliest(g, s.dist, s.prev, s.rank)
    && Greedy(s.dist, s.prev, s.rank)
    && (forall v | v in s.dist && s.dist[v] < U32_MAX :: v in s.rank)
  }

  lemma EmptyHeapFinished(g: Graph, local: NodeId, s: Search, cur: NodeId)
    requires Inv(g, local, s, cur, {}) && s.heap == multiset{}
    ensures Finished(g, local, s)
  {
    hide Labelled, TightTree, Ordered, Spent, Ranked, Earliest, Greedy;
  }

  lemma {:induction false} RunFinishes(g: Graph, local: NodeId, s: Search, cur: NodeId)
    requires Inv(g, local, s, cur, {})
    ensures Finished(g, local, Run(g, local, s))
    decreases Potential(g, local, s)
  {
    hide Visit, Inv, Finished, Potential;
    if s.heap != multiset{} {
      var e := Least(s.heap);
      if D(s.dist, e.node) < e.dist {
        SkipKeepsInv(g, local, s, e, cur);
        PopPays(g, local, s, e);
        RunFinishes(g, local, Pop(s, e), cur);
      } else {
        VisitKeepsInv(g, local, s, e, cur);
        VisitPays(g, local, s, e);
        RunFinishes(g, local, Visit(g, s, e), e.node);
      }
    } else {
      EmptyHeapFinished(g, local, s, cur);
    }
  }

  /** What holds of the outcome, for every cost assignment. */
  lemma ExploreFinishes(g: Graph, local: NodeId)
    ensures Finished(g, local, Explore(g, local))
  {
    StartInv(g, local);
    RunFinishes(g, local, Start(g, local), local);
  }

  /** Labels are attained: the predecessors of `v` spell a path of that cost. */
  lemma {:induction false} LabelAttained(g: Graph, local: NodeId, s: Search, v: NodeId) returns (p: seq<NodeId>)
    requires Finished(g, local, s) && D(s.dist, v) < U32_MAX
    ensures Joins(g, local, v, p) && PathCost(g, p) == D(s.dist, v)
    decreases s.rank[v]
  {
    if v == local {
      p := [local];
    } else {
      p := LabelAttained(g, local, s, s.prev[v]);
      AppendCost(g, p, v);
      p := p + [v];
    }
  }

  /** No path undercuts a label. */
  lemma {:induction false} LabelMinimal(g: Graph, local: NodeId, s: Search, p: seq<NodeId>)
    requires Finished(g, local, s) && IsPath(g, p) && p[0] == local
    ensures D(s.dist, p[|p| - 1]) <= PathCost(g, p)
    decreases |p|
  {
    hide TightTree, Ranked, Earliest, Greedy;
    if |p| > 1 {
      var q := p[..|p| - 1];
      assert Edge(g, p[|p| - 2], p[|p| - 2 + 1]);
      LabelMinimal(g, local, s, q);
    }
  }

  /** Labels are the distances, for every cost assignment. */
  lemma LabelsAreDistances(g: Graph, local: NodeId, s: Search, v: NodeId)
    requires Finished(g, local, s)
    ensures IsDistance(g, local, v, D(s.dist, v))
  {
    forall p | Joins(g, local, v, p)
      ensures D(s.dist, v) <= PathCost(g, p)
    {
      LabelMinimal(g, local, s, p);
    }
    if D(s.dist, v) < U32_MAX {
      var p := LabelAttained(g, local, s, v);
    }
  }

  lemma {:induction false} RootFirst(g: Graph, local: NodeId, s: Search, v: NodeId)
    requires Finished(g, local, s) && D(s.dist, v) < U32_MAX
    ensures s.rank[local] <= s.rank[v]
    decreases s.rank[v]
  {
    hide Relaxed, Earliest, Greedy, Ranked;
    if v != local {
      assert Tight(g, s.dist, s.prev[v], v);
      RootFirst(g, local, s, s.prev[v]);
    }
  }

  lemma GreedyStep(dist: map<NodeId, u32>, prev: map<NodeId, NodeId>, rank: map<NodeId, nat>, u: NodeId, v: NodeId)
    requires Greedy(dist, prev, rank) && v in prev && prev[v] in rank && u in rank && v in rank
    requires rank[prev[v]] < rank[u] < rank[v]
    ensures Before(Entry(D(dist, u), u), Entry(D(dist, v), v))
  {
  }

  lemma TightAt(g: Graph, dist: map<NodeId, u32>, prev: map<NodeId, NodeId>, rank: map<NodeId, nat>, v: NodeId)
    requires TightTree(g, dist, prev, rank) && v in prev
    ensures Tight(g, dist, prev[v], v) && prev[v] in rank
    ensures v in rank ==> rank[prev[v]] < rank[v]
  {
  }

  /** With positive costs nodes are expanded in the order of the heap. */
  lemma {:induction false} PositiveOrder(g: Graph, local: NodeId, s: Search, u: NodeId, v: NodeId)
    requires Finished(g, local, s) && PositiveCosts(g)
    requires D(s.dist, u) < U32_MAX && v in s.prev && u in s.rank && v in s.rank && s.rank[u] < s.rank[v]
    ensures Before(Entry(D(s.dist, u), u), Entry(D(s.dist, v), v))
    decreases s.rank[v]
  {
    hide TightTree, Relaxed, Earliest, Greedy;
    var p := s.prev[v];
    TightAt(g, s.dist, s.prev, s.rank, v);
    assert Cost(g, p, v) > 0;
    if s.rank[p] < s.rank[u] {
      GreedyStep(s.dist, s.prev, s.rank, u, v);
    } else if s.rank[u] < s.rank[p] {
      RootFirst(g, local, s, u);
      PositiveOrder(g, local, s, u, p);
    }
  }
}
