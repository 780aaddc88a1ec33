/** Exactly which nodes an announcement can miss although no copy of it is lost. A copy that
    comes a long way round can arrive first, and then stops at a node that a shorter way
    would have left with hops to spare; retelling, which gives a copy new hops, can do the
    same. So the answer is not a matter of distance. */
module FloodReach {
  import opened Base
  import opened LinkState
  import opened TopologyDatabase
  import opened Flooding
  import opened Convergence

  // ---------------------------------------------------------------------------
  // Trees of accepted copies

  /** For each node the TTL with which it passes its copy on (0: it does not), and when it
      accepted the copy. */
  datatype Tree = Tree(hops: map<NodeId, nat>, rank: map<NodeId, nat>)

  /** `n` accepted its copy from `r`, which passed it on or, if that may happen, retold it. */
  ghost predicate ParentOf(sessions: Sessions, o: NodeId, retell: bool, t: Tree, r: NodeId, n: NodeId) {
    && r in t.hops && n in t.hops && r in t.rank && n in t.rank && t.rank[r] < t.rank[n]
    && r in sessions && n in sessions[r]
    && ((t.hops[r] > 0 && t.hops[n] == t.hops[r] - 1) || (retell && r != o && t.hops[n] == DEFAULT_TOPOLOGY_TTL - 2))
  }

  ghost predicate HasParent(sessions: Sessions, o: NodeId, retell: bool, t: Tree, n: NodeId) {
    exists r :: ParentOf(sessions, o, retell, t, r, n)
  }

  /** A session tree rooted at `o`. */
  ghost predicate Rooted(sessions: Sessions, o: NodeId, retell: bool, t: Tree) {
    && t.rank.Keys == t.hops.Keys && o in t.hops && t.hops[o] == DEFAULT_TOPOLOGY_TTL
    && (forall n | n in t.hops && n != o :: HasParent(sessions, o, retell, t, n))
  }

  /** A rooted tree in which every node that passes its copy on has all its session peers. */
  ghost predicate FloodTree(sessions: Sessions, o: NodeId, retell: bool, t: Tree) {
    Rooted(sessions, o, retell, t) &&
    forall n, k | n in t.hops && t.hops[n] > 0 && n in sessions && k in sessions[n] :: k in t.hops
  }

  /** Without retelling every hop costs one of the TTL. */
  lemma {:induction false} TreeBranch(sessions: Sessions, o: NodeId, t: Tree, n: NodeId) returns (p: seq<NodeId>)
    requires Rooted(sessions, o, false, t) && n in t.hops
    ensures SessionPath(sessions, p) && p[0] == o && p[|p| - 1] == n
    ensures |p| + t.hops[n] == DEFAULT_TOPOLOGY_TTL + 1
    decreases t.rank[n]
  {
    if n == o {
      p := [o];
    } else {
      assert HasParent(sessions, o, false, t, n);
      var r :| ParentOf(sessions, o, false, t, r, n);
      p := TreeBranch(sessions, o, t, r);
      PathAppend(sessions, p, n);
      p := p + [n];
    }
  }

  // ---------------------------------------------------------------------------
  // Every run grows such a tree

  /** A copy that `r` passed on or retold. */
  ghost predicate SentBy(sessions: Sessions, o: NodeId, retell: bool, t: Tree, r: NodeId, p: Packet) {
    && r in t.hops && r in sessions && p.to in sessions[r]
    && ((t.hops[r] > 0 && p.update.ttl == t.hops[r]) || (retell && r != o && p.update.ttl == DEFAULT_TOPOLOGY_TTL - 1))
  }

  ghost predicate HasSender(sessions: Sessions, o: NodeId, retell: bool, t: Tree, p: Packet) {
    exists r :: SentBy(sessions, o, retell, t, r, p)
  }

  ghost predicate AllSent(sessions: Sessions, retell: bool, t: Tree, flight: seq<Packet>, o: NodeId, s: u64) {
    forall p | p in flight && IsCopy(p.update, o, s) :: HasSender(sessions, o, retell, t, p)
  }

  /** Peers of nodes that passed their copy on are reached or about to be. */
  ghost predicate Growing(sessions: Sessions, hops: map<NodeId, nat>, flight: seq<Packet>, o: NodeId, s: u64) {
    forall r, k | r in hops && hops[r] > 0 && r in sessions && k in sessions[r] ::
      k in hops || InFlight(flight, k, o, s)
  }

  ghost predicate RanksBelow(rank: map<NodeId, nat>, clock: nat) {
    forall n | n in rank :: rank[n] < clock
  }

  ghost predicate TreeInv(m: Mesh, o: NodeId, s: u64, retell: bool, t: Tree, clock: nat) {
    && Newest(m.state, m.flight, o, s)
    && t.hops.Keys == Holders(m.state, o, s)
    && Rooted(m.sessions, o, retell, t)
    && RanksBelow(t.rank, clock)
    && AllSent(m.sessions, retell, t, m.flight, o, s)
    && Growing(m.sessions, t.hops, m.flight, o, s)
  }

  /** The tree of the originator alone. */
  function Root(o: NodeId): Tree {
    Tree(map[o := DEFAULT_TOPOLOGY_TTL as nat], map[o := 0])
  }

  lemma OnlySent(m: Mesh, e: Event, o: NodeId, s: u64, p: Packet)
    requires Enabled(m, e) && Announces(e, o) && s > 0 && Newest(m.state, m.flight, o, s - 1)
    requires p in Apply(m, e).flight && IsCopy(p.update, o, s)
    ensures p in e.sent
  {
  }

  lemma NewestStarts(m: Mesh, e: Event, o: NodeId, s: u64)
    requires Enabled(m, e) && Announces(e, o) && s == m.state[o].localSequence && s > 0
    requires Newest(m.state, m.flight, o, s - 1)
    ensures Newest(Apply(m, e).state, Apply(m, e).flight, o, s)
  {
  }

  lemma CopiesStart(m: Mesh, e: Event, o: NodeId, s: u64, retell: bool)
    requires Enabled(m, e) && Announces(e, o) && s > 0 && Newest(m.state, m.flight, o, s - 1)
    ensures AllSent(m.sessions, retell, Root(o), Apply(m, e).flight, o, s)
  {
    hide Newest;
    forall p | p in Apply(m, e).flight && IsCopy(p.update, o, s)
      ensures HasSender(m.sessions, o, retell, Root(o), p)
    {
      OnlySent(m, e, o, s, p);
      assert SentBy(m.sessions, o, retell, Root(o), o, p);
    }
  }

  lemma CopiesSent(m: Mesh, e: Event, o: NodeId, s: u64, k: NodeId)
    requires Enabled(m, e) && Announces(e, o) && s == m.state[o].localSequence && k in m.sessions[o]
    ensures InFlight(Apply(m, e).flight, k, o, s)
  {
    assert Packet(k, Announcement(m, o, e.neighbors, e.now)) in Apply(m, e).flight;
  }

  lemma TreeStarts(m: Mesh, e: Event, o: NodeId, s: u64, retell: bool)
    requires Enabled(m, e) && Announces(e, o) && s == m.state[o].localSequence && s > 0
    requires Newest(m.state, m.flight, o, s - 1)
    ensures TreeInv(Apply(m, e), o, s, retell, Root(o), 1)
  {
    hide Newest, AllSent, InFlight;
    NewestStarts(m, e, o, s);
    OriginHolds(m, e, o, s);
    CopiesStart(m, e, o, s, retell);
    forall k | k in m.sessions[o]
      ensures InFlight(Apply(m, e).flight, k, o, s)
    {
      CopiesSent(m, e, o, s, k);
    }
  }

  lemma GrowingGrows(sessions: Sessions, hops: map<NodeId, nat>, flight: seq<Packet>, sent: seq<Packet>,
                     o: NodeId, s: u64)
    requires Growing(sessions, hops, flight, o, s)
    ensures Growing(sessions, hops, flight + sent, o, s)
  {
    forall k | InFlight(flight, k, o, s)
      ensures InFlight(flight + sent, k, o, s)
    {
      var p :| p in flight && p.to == k && IsCopy(p.update, o, s);
      assert p in flight + sent;
    }
  }

  lemma GrowingDelivers(sessions: Sessions, hops: map<NodeId, nat>, flight: seq<Packet>, i: nat,
                        sent: seq<Packet>, o: NodeId, s: u64)
    requires Growing(sessions, hops, flight, o, s) && i < |flight|
    requires IsCopy(flight[i].update, o, s) ==> flight[i].to in hops
    ensures Growing(sessions, hops, Without(flight, i) + sent, o, s)
  {
    forall k | InFlight(flight, k, o, s) && k !in hops
      ensures InFlight(Without(flight, i) + sent, k, o, s)
    {
      StaysInFlight(flight, i, sent, k, o, s);
    }
  }

  lemma PublishKeepsTree(m: Mesh, e: Event, o: NodeId, s: u64, retell: bool, t: Tree, clock: nat)
    requires TreeInv(m, o, s, retell, t, clock) && e.Publish? && e.node != o && Enabled(m, e)
    ensures TreeInv(Apply(m, e), o, s, retell, t, clock)
  {
    hide Rooted, HasSender, Growing;
    var m' := Apply(m, e);
    assert Holders(m'.state, o, s) == Holders(m.state, o, s);
    assert forall p | p in e.sent :: p.update.originatorNode != o;
    GrowingGrows(m.sessions, t.hops, m.flight, e.sent, o, s);
  }

  lemma SyncKeepsNewest(m: Mesh, e: Event, o: NodeId, s: u64)
    requires e.Sync? && Enabled(m, e) && Newest(m.state, m.flight, o, s)
    ensures Newest(Apply(m, e).state, Apply(m, e).flight, o, s)
  {
  }

  lemma SyncKeepsTree(m: Mesh, e: Event, o: NodeId, s: u64, t: Tree, clock: nat)
    requires TreeInv(m, o, s, true, t, clock) && e.Sync? && Enabled(m, e)
    ensures TreeInv(Apply(m, e), o, s, true, t, clock)
  {
    hide Rooted, Growing, Newest;
    SyncKeepsNewest(m, e, o, s);
    forall p | p in e.sent && IsCopy(p.update, o, s)
      ensures HasSender(m.sessions, o, true, t, p)
    {
      assert e.node in t.hops.Keys;
      assert SentBy(m.sessions, o, true, t, e.node, p);
    }
    GrowingGrows(m.sessions, t.hops, m.flight, e.sent, o, s);
  }

  lemma LoseKeepsTree(m: Mesh, e: Event, o: NodeId, s: u64, retell: bool, t: Tree, clock: nat)
    requires TreeInv(m, o, s, retell, t, clock) && e.Lose? && Enabled(m, e) && Quiet(m, e, o, s)
    ensures TreeInv(Apply(m, e), o, s, retell, t, clock)
  {
    hide Rooted, HasSender, Growing;
    assert forall p | p in Without(m.flight, e.i) :: p in m.flight;
    GrowingDelivers(m.sessions, t.hops, m.flight, e.i, [], o, s);
    assert Without(m.flight, e.i) + [] == Without(m.flight, e.i);
  }

  lemma OldNewsKeepsTree(m: Mesh, e: Event, o: NodeId, s: u64, retell: bool, t: Tree, clock: nat)
    requires TreeInv(m, o, s, retell, t, clock) && e.Receive? && Enabled(m, e) && Quiet(m, e, o, s)
    requires var p := m.flight[e.i]; IsCopy(p.update, o, s) ==> p.to in t.hops
    ensures TreeInv(Apply(m, e), o, s, retell, t, clock)
  {
    hide Rooted, HasSender, Growing, Newest;
    var m' := Apply(m, e);
    ReceiveReaches(m, e, o, s);
    ReceiveKeepsNewest(m, e, o, s);
    assert Holders(m'.state, o, s) == t.hops.Keys;
    assert forall q | q in m'.flight && IsCopy(q.update, o, s) :: q in m.flight;
    GrowingDelivers(m.sessions, t.hops, m.flight, e.i, e.sent, o, s);
  }

  /** The tree with one more node, which accepted a copy with TTL `h + 1`. */
  function Grow(t: Tree, n: NodeId, h: nat, clock: nat): Tree {
    Tree(t.hops[n := h], t.rank[n := clock])
  }

  lemma RootedGrows(sessions: Sessions, o: NodeId, retell: bool, t: Tree, r: NodeId, p: Packet, clock: nat)
    requires Rooted(sessions, o, retell, t) && RanksBelow(t.rank, clock) && p.to !in t.hops
    requires SentBy(sessions, o, retell, t, r, p)
    ensures p.update.ttl > 0
    ensures Rooted(sessions, o, retell, Grow(t, p.to, p.update.ttl - 1, clock))
    ensures RanksBelow(Grow(t, p.to, p.update.ttl - 1, clock).rank, clock + 1)
  {
    var t' := Grow(t, p.to, p.update.ttl - 1, clock);
    forall k | k in t'.hops && k != o
      ensures HasParent(sessions, o, retell, t', k)
    {
      if k == p.to {
        assert ParentOf(sessions, o, retell, t', r, k);
      } else {
        assert HasParent(sessions, o, retell, t, k);
        var q :| ParentOf(sessions, o, retell, t, q, k);
        assert ParentOf(sessions, o, retell, t', q, k);
      }
    }
  }

  lemma SenderStays(sessions: Sessions, o: NodeId, retell: bool, t: Tree, n: NodeId, h: nat, clock: nat, p: Packet)
    requires HasSender(sessions, o, retell, t, p) && n !in t.hops
    ensures HasSender(sessions, o, retell, Grow(t, n, h, clock), p)
  {
    var r :| SentBy(sessions, o, retell, t, r, p);
    assert SentBy(sessions, o, retell, Grow(t, n, h, clock), r, p);
  }

  lemma NewsKeepsSent(m: Mesh, e: Event, o: NodeId, s: u64, retell: bool, t: Tree, clock: nat)
    requires e.Receive? && Enabled(m, e) && IsCopy(m.flight[e.i].update, o, s) && m.flight[e.i].update.ttl > 0
    requires AllSent(m.sessions, retell, t, m.flight, o, s) && m.flight[e.i].to !in t.hops
    ensures AllSent(m.sessions, retell, Grow(t, m.flight[e.i].to, m.flight[e.i].update.ttl - 1, clock),
                    Apply(m, e).flight, o, s)
  {
    hide Accepts;
    var m', p := Apply(m, e), m.flight[e.i];
    var t' := Grow(t, p.to, p.update.ttl - 1, clock);
    forall c | c in m'.flight && IsCopy(c.update, o, s)
      ensures HasSender(m.sessions, o, retell, t', c)
    {
      if c in m.flight {
        SenderStays(m.sessions, o, retell, t, p.to, p.update.ttl - 1, clock, c);
      } else {
        assert c in e.sent;
        assert SentBy(m.sessions, o, retell, t', p.to, c);
      }
    }
  }

  lemma NewsKeepsGrowing(m: Mesh, e: Event, o: NodeId, s: u64, hops: map<NodeId, nat>)
    requires e.Receive? && Enabled(m, e) && IsCopy(m.flight[e.i].update, o, s) && m.flight[e.i].update.ttl > 0
    requires Growing(m.sessions, hops, m.flight, o, s) && m.flight[e.i].to !in hops
    requires Accepts(m.state[m.flight[e.i].to].nodes, m.flight[e.i].update, e.now)
    ensures Growing(m.sessions, hops[m.flight[e.i].to := m.flight[e.i].update.ttl - 1], Apply(m, e).flight, o, s)
  {
    hide Accepts;
    var m', p := Apply(m, e), m.flight[e.i];
    var hops' := hops[p.to := p.update.ttl - 1];
    forall r, k | r in hops' && hops'[r] > 0 && r in m.sessions && k in m.sessions[r] && k !in hops'
      ensures InFlight(m'.flight, k, o, s)
    {
      if r == p.to {
        var c := Packet(k, p.update.(ttl := p.update.ttl - 1));
        assert c in e.sent;
        assert c in m'.flight;
      } else {
        StaysInFlight(m.flight, e.i, e.sent, k, o, s);
      }
    }
  }

  lemma NewsKeepsTree(m: Mesh, e: Event, o: NodeId, s: u64, retell: bool, t: Tree, clock: nat) returns (t': Tree)
    requires TreeInv(m, o, s, retell, t, clock) && e.Receive? && Enabled(m, e) && Quiet(m, e, o, s)
    requires var p := m.flight[e.i]; IsCopy(p.update, o, s) && p.to !in t.hops
    ensures TreeInv(Apply(m, e), o, s, retell, t', clock + 1)
  {
    hide Rooted, Growing, Newest, Accepts, RanksBelow, SentBy;
    var m', p := Apply(m, e), m.flight[e.i];
    assert p in m.flight;
    assert HasSender(m.sessions, o, retell, t, p);
    var r :| SentBy(m.sessions, o, retell, t, r, p);
    RootedGrows(m.sessions, o, retell, t, r, p, clock);
    t' := Grow(t, p.to, p.update.ttl - 1, clock);
    ReceiveReaches(m, e, o, s);
    ReceiveKeepsNewest(m, e, o, s);
    assert Holders(m'.state, o, s) == t'.hops.Keys;
    NewsKeepsSent(m, e, o, s, retell, t, clock);
    NewsKeepsGrowing(m, e, o, s, t.hops);
  }

  ghost predicate NoSync(events: seq<Event>) {
    forall e | e in events :: !e.Sync?
  }

  lemma {:induction false} RunGrowsTree(m: Mesh, events: seq<Event>, o: NodeId, s: u64, retell: bool, t: Tree, clock: nat)
    returns (t': Tree, clock': nat)
    requires Executable(m, events) && QuietRun(m, events, o, s) && (retell || NoSync(events))
    requires TreeInv(m, o, s, retell, t, clock)
    ensures TreeInv(After(m, events), o, s, retell, t', clock') && After(m, events).sessions == m.sessions
    decreases |events|
  {
    hide TreeInv, Enabled, Apply, Holders;
    t', clock' := t, clock;
    if events != [] {
      var e := events[0];
      assert e in events;
      QuietStep(m, e, o, s);
      if e.Publish? {
        PublishKeepsTree(m, e, o, s, retell, t, clock);
      } else if e.Sync? {
        SyncKeepsTree(m, e, o, s, t, clock);
      } else if e.Lose? {
        LoseKeepsTree(m, e, o, s, retell, t, clock);
      } else if IsCopy(m.flight[e.i].update, o, s) && m.flight[e.i].to !in t.hops {
        t' := NewsKeepsTree(m, e, o, s, retell, t, clock);
        clock' := clock + 1;
      } else {
        OldNewsKeepsTree(m, e, o, s, retell, t, clock);
      }
      t', clock' := RunGrowsTree(Apply(m, e), events[1..], o, s, retell, t', clock');
    }
  }

  lemma KeysHold(m: Mesh, o: NodeId, s: u64, retell: bool, t: Tree, clock: nat)
    requires TreeInv(m, o, s, retell, t, clock)
    ensures t.hops.Keys == Holders(m.state, o, s) && Rooted(m.sessions, o, retell, t)
  {
    hide Rooted, Newest, AllSent, Growing, Holders;
  }

  lemma NoneInFlight(flight: seq<Packet>, k: NodeId, o: NodeId, s: u64)
    requires forall p | p in flight :: !IsCopy(p.update, o, s)
    ensures !InFlight(flight, k, o, s)
  {
  }

  lemma DrainedTree(m: Mesh, o: NodeId, s: u64, retell: bool, t: Tree, clock: nat)
    requires TreeInv(m, o, s, retell, t, clock) && forall p | p in m.flight :: !IsCopy(p.update, o, s)
    ensures FloodTree(m.sessions, o, retell, t)
  {
    hide Newest, Rooted, AllSent, Holders;
    forall k
      ensures !InFlight(m.flight, k, o, s)
    {
      NoneInFlight(m.flight, k, o, s);
    }
  }

  // ---------------------------------------------------------------------------
  // Every such tree is grown by a run

  lemma {:induction false} BroadcastExists(peers: set<NodeId>, u: TopologyUpdate) returns (sent: seq<Packet>)
    ensures Broadcast(sent, peers, u)
    decreases |peers|
  {
    if peers == {} {
      sent := [];
    } else {
      var t :| t in peers;
      var rest := BroadcastExists(peers - {t}, u);
      sent := rest + [Packet(t, u)];
      assert sent[|rest|] == Packet(t, u);
      forall k | k in peers
        ensures Packet(k, u) in sent
      {
        if k != t {
          assert k in peers - {t};
          assert Packet(k, u) in rest;
        }
      }
    }
  }

  /** A copy with this TTL is on its way to `k`. */
  ghost predicate Waits(flight: seq<Packet>, k: NodeId, o: NodeId, s: u64, ttl: nat) {
    exists p :: p in flight && p.to == k && IsCopy(p.update, o, s) && p.update.ttl == ttl
  }

  /** Copies are waiting for all peers of reached nodes that pass their copy on. */
  ghost predicate Waiting(sessions: Sessions, holders: set<NodeId>, flight: seq<Packet>, o: NodeId, s: u64,
                          hops: map<NodeId, nat>)
  {
    forall r, k | r in holders && r in hops && hops[r] > 0 && r in sessions && k in sessions[r] && k !in holders ::
      Waits(flight, k, o, s, hops[r])
  }

  /** No copy is on its way to a node outside the tree. */
  ghost predicate Within(flight: seq<Packet>, o: NodeId, s: u64, hops: map<NodeId, nat>) {
    forall p | p in flight && IsCopy(p.update, o, s) :: p.to in hops
  }

  /** The flood so far has reached part of the tree, each node from its parent. */
  ghost predicate Scheduled(m: Mesh, o: NodeId, s: u64, retell: bool, t: Tree) {
    && GoodSessions(m.sessions, m.state.Keys) && FloodTree(m.sessions, o, retell, t)
    && Newest(m.state, m.flight, o, s)
    && o in Holders(m.state, o, s) && Holders(m.state, o, s) <= t.hops.Keys
    && Waiting(m.sessions, Holders(m.state, o, s), m.flight, o, s, t.hops)
    && Within(m.flight, o, s, t.hops)
  }

  lemma {:induction false} Earliest(rank: map<NodeId, nat>, rest: set<NodeId>) returns (n: NodeId)
    requires rest != {} && rest <= rank.Keys
    ensures n in rest && forall k | k in rest :: rank[n] <= rank[k]
    decreases |rest|
  {
    n :| n in rest;
    if rest != {n} {
      assert rest - {n} != {} by {
        assert rest == {n} + (rest - {n});
      }
      var k := Earliest(rank, rest - {n});
      if rank[k] < rank[n] {
        n := k;
      }
    }
  }

  lemma ProperSubset(a: set<NodeId>, b: set<NodeId>)
    requires a <= b && a != b
    ensures b - a != {}
  {
    var x :| x in b && x !in a;
    assert x in b - a;
  }

  lemma NotLeft(rank: map<NodeId, nat>, rest: set<NodeId>, n: NodeId, r: NodeId)
    requires rest <= rank.Keys && n in rest && r in rank && rank[r] < rank[n]
    requires forall k | k in rest :: rank[n] <= rank[k]
    ensures r !in rest
  {
  }

  /** The next node of the tree and its parent. */
  lemma NextNode(sessions: Sessions, holders: set<NodeId>, o: NodeId, retell: bool, t: Tree)
    returns (r: NodeId, n: NodeId)
    requires Rooted(sessions, o, retell, t) && o in holders && holders <= t.hops.Keys && holders != t.hops.Keys
    ensures r in holders && n in t.hops && n !in holders && ParentOf(sessions, o, retell, t, r, n)
  {
    ProperSubset(holders, t.hops.Keys);
    n := Earliest(t.rank, t.hops.Keys - holders);
    assert HasParent(sessions, o, retell, t, n);
    r :| ParentOf(sessions, o, retell, t, r, n);
    NotLeft(t.rank, t.hops.Keys - holders, n, r);
  }

  lemma FreshAccepted(m: Mesh, p: Packet, o: NodeId, s: u64)
    requires Newest(m.state, m.flight, o, s) && IsCopy(p.update, o, s) && p.to in m.state
    requires !Holds(m.state[p.to], o, s)
    ensures Accepts(m.state[p.to].nodes, p.update, p.update.timestamp)
  {
    if o in m.state[p.to].nodes {
      NewerBelowHalf(s, m.state[p.to].nodes[o].sequenceNumber);
    }
  }

  lemma WaitsStays(flight: seq<Packet>, i: nat, sent: seq<Packet>, k: NodeId, o: NodeId, s: u64, ttl: nat)
    requires i < |flight| && Waits(flight, k, o, s, ttl) && flight[i].to != k
    ensures Waits(Without(flight, i) + sent, k, o, s, ttl)
  {
    var p :| p in flight && p.to == k && IsCopy(p.update, o, s) && p.update.ttl == ttl;
    var j :| 0 <= j < |flight| && flight[j] == p;
    var rest := Without(flight, i);
    assert p == if j < i then rest[j] else rest[j - 1];
    assert p in rest + sent;
  }

  lemma WaitingDelivers(sessions: Sessions, holders: set<NodeId>, flight: seq<Packet>, i: nat, sent: seq<Packet>,
                        o: NodeId, s: u64, hops: map<NodeId, nat>)
    requires Waiting(sessions, holders, flight, o, s, hops) && i < |flight| && IsCopy(flight[i].update, o, s)
    requires flight[i].to in hops && flight[i].to in sessions && flight[i].to !in holders
    requires hops[flight[i].to] <= U8_MAX
    requires hops[flight[i].to] > 0 ==>
               Broadcast(sent, sessions[flight[i].to], flight[i].update.(ttl := hops[flight[i].to]))
    ensures Waiting(sessions, holders + {flight[i].to}, Without(flight, i) + sent, o, s, hops)
  {
    var n, rest := flight[i].to, Without(flight, i);
    forall r, k | r in holders + {n} && r in hops && hops[r] > 0 && r in sessions && k in sessions[r] && k !in holders + {n}
      ensures Waits(rest + sent, k, o, s, hops[r])
    {
      if r in holders {
        WaitsStays(flight, i, sent, k, o, s, hops[r]);
      } else {
        var p := Packet(k, flight[i].update.(ttl := hops[n]));
        assert p in sent;
        assert p in rest + sent;
      }
    }
  }

  lemma WithinDelivers(flight: seq<Packet>, i: nat, sent: seq<Packet>, o: NodeId, s: u64, hops: map<NodeId, nat>)
    requires Within(flight, o, s, hops) && i < |flight| && forall p | p in sent :: p.to in hops
    ensures Within(Without(flight, i) + sent, o, s, hops)
  {
    assert forall p | p in Without(flight, i) :: p in flight;
  }

  /** Delivering a copy whose TTL is what the tree says. */
  lemma ReachBy(m: Mesh, o: NodeId, s: u64, retell: bool, t: Tree, i: nat) returns (e: Event)
    requires Scheduled(m, o, s, retell, t) && i < |m.flight| && IsCopy(m.flight[i].update, o, s)
    requires m.flight[i].to in t.hops && m.flight[i].to !in Holders(m.state, o, s) && m.flight[i].to in m.state
    requires m.flight[i].update.ttl == t.hops[m.flight[i].to] + 1
    ensures e.Receive? && Enabled(m, e) && Quiet(m, e, o, s) && Scheduled(Apply(m, e), o, s, retell, t)
    ensures Holders(Apply(m, e).state, o, s) == Holders(m.state, o, s) + {m.flight[i].to}
  {
    hide Newest, Waiting, Within, Rooted, Accepts;
    var p := m.flight[i];
    var n := p.to;
    var sent := [];
    if t.hops[n] > 0 {
      sent := BroadcastExists(m.sessions[n], p.update.(ttl := t.hops[n]));
    }
    FreshAccepted(m, p, o, s);
    e := Receive(i, p.update.timestamp, sent);
    assert Fresh(p.update, e.now);
    assert Enabled(m, e);
    ReceiveReaches(m, e, o, s);
    ReceiveKeepsNewest(m, e, o, s);
    WaitingDelivers(m.sessions, Holders(m.state, o, s), m.flight, i, sent, o, s, t.hops);
    WithinDelivers(m.flight, i, sent, o, s, t.hops);
  }

  lemma {:induction false} LinksListed(links: map<NodeId, Link>) returns (list: seq<NeighborInfo>)
    ensures Advertised(list) == links
    decreases |links|
  {
    if links == map[] {
      list := [];
    } else {
      var v :| v in links;
      var rest := links - {v};
      list := LinksListed(rest);
      var n := NeighborInfo(v, links[v].cost, links[v].addr);
      AdvertisedOneMore(list, n);
      list := list + [n];
    }
  }

  /** A holder retells its record to one of its peers. */
  lemma RetellExists(m: Mesh, o: NodeId, s: u64, r: NodeId, n: NodeId) returns (e: Event)
    requires r in m.state && r in m.sessions && n in m.sessions[r] && r != o && Holds(m.state[r], o, s)
    ensures e.Sync? && Enabled(m, e) && |e.sent| == 1
    ensures e.sent[0].to == n && IsCopy(e.sent[0].update, o, s) && e.sent[0].update.ttl == DEFAULT_TOPOLOGY_TTL - 1
  {
    var list := LinksListed(LinksOf(m.state[r].nodes[o].neighbors));
    e := Sync(r, 0, [Packet(n, TopologyUpdate(o, s, list, DEFAULT_TOPOLOGY_TTL - 1, 0))]);
  }

  lemma WaitingGrows(sessions: Sessions, holders: set<NodeId>, flight: seq<Packet>, sent: seq<Packet>,
                     o: NodeId, s: u64, hops: map<NodeId, nat>)
    requires Waiting(sessions, holders, flight, o, s, hops)
    ensures Waiting(sessions, holders, flight + sent, o, s, hops)
  {
    forall k, ttl: nat | Waits(flight, k, o, s, ttl)
      ensures Waits(flight + sent, k, o, s, ttl)
    {
      var p :| p in flight && p.to == k && IsCopy(p.update, o, s) && p.update.ttl == ttl;
      assert p in flight + sent;
    }
  }

  lemma RetellSchedules(m: Mesh, o: NodeId, s: u64, retell: bool, t: Tree, e: Event)
    requires Scheduled(m, o, s, retell, t) && e.Sync? && Enabled(m, e) && |e.sent| == 1 && e.sent[0].to in t.hops
    ensures Scheduled(Apply(m, e), o, s, retell, t)
    ensures Holders(Apply(m, e).state, o, s) == Holders(m.state, o, s)
    ensures Apply(m, e).flight == m.flight + e.sent && Apply(m, e).state == m.state
  {
    hide Newest, Waiting, FloodTree, Holders;
    SyncKeepsNewest(m, e, o, s);
    WaitingGrows(m.sessions, Holders(m.state, o, s), m.flight, e.sent, o, s, t.hops);
    assert forall p | p in e.sent :: p == e.sent[0];
  }

  lemma ReachableNode(m: Mesh, o: NodeId, s: u64, retell: bool, t: Tree, r: NodeId, n: NodeId)
    requires Scheduled(m, o, s, retell, t) && r in Holders(m.state, o, s) && ParentOf(m.sessions, o, retell, t, r, n)
    ensures n in m.state && r in m.state && Holds(m.state[r], o, s)
  {
    hide Newest, Waiting, Within, FloodTree;
  }

  /** A copy that waits for the next node. */
  lemma WaitingCopy(m: Mesh, o: NodeId, s: u64, retell: bool, t: Tree, r: NodeId, n: NodeId) returns (i: nat)
    requires Scheduled(m, o, s, retell, t) && r in Holders(m.state, o, s) && n !in Holders(m.state, o, s)
    requires r in t.hops && t.hops[r] > 0 && r in m.sessions && n in m.sessions[r]
    ensures i < |m.flight| && m.flight[i].to == n && IsCopy(m.flight[i].update, o, s)
    ensures m.flight[i].update.ttl == t.hops[r]
  {
    hide Newest, Within, FloodTree, Holders;
    assert Waits(m.flight, n, o, s, t.hops[r]);
    var p :| p in m.flight && p.to == n && IsCopy(p.update, o, s) && p.update.ttl == t.hops[r];
    i :| 0 <= i < |m.flight| && m.flight[i] == p;
  }

  /** Bringing the copy to the next node of the tree: by delivery, after retelling if need be. */
  lemma ReachNext(m: Mesh, o: NodeId, s: u64, retell: bool, t: Tree) returns (events: seq<Event>)
    requires Scheduled(m, o, s, retell, t) && Holders(m.state, o, s) != t.hops.Keys
    ensures Executable(m, events) && QuietRun(m, events, o, s) && (retell || NoSync(events))
    ensures Scheduled(After(m, events), o, s, retell, t)
    ensures Holders(m.state, o, s) < Holders(After(m, events).state, o, s) <= t.hops.Keys
  {
    hide Scheduled, Enabled, Apply, Quiet, Holders;
    ScheduledParts(m, o, s, retell, t);
    var r, n := NextNode(m.sessions, Holders(m.state, o, s), o, retell, t);
    ReachableNode(m, o, s, retell, t, r, n);
    if t.hops[r] > 0 && t.hops[n] == t.hops[r] - 1 {
      var i := WaitingCopy(m, o, s, retell, t, r, n);
      var e := ReachBy(m, o, s, retell, t, i);
      ScheduledParts(Apply(m, e), o, s, retell, t);
      OneEvent(m, e, o, s);
      events := [e];
    } else {
      var e := RetellExists(m, o, s, r, n);
      RetellSchedules(m, o, s, retell, t, e);
      var m' := Apply(m, e);
      assert m'.flight[|m.flight|] == e.sent[0];
      var e' := ReachBy(m', o, s, retell, t, |m.flight|);
      ScheduledParts(Apply(m', e'), o, s, retell, t);
      OneEvent(m', e', o, s);
      SyncIsQuiet(m, e, o, s);
      RunCons(m, e, [e']);
      QuietCons(m, e, [e'], o, s);
      events := [e] + [e'];
    }
  }

  lemma SyncIsQuiet(m: Mesh, e: Event, o: NodeId, s: u64)
    requires e.Sync?
    ensures Quiet(m, e, o, s)
  {
  }

  lemma OneEvent(m: Mesh, e: Event, o: NodeId, s: u64)
    requires Enabled(m, e) && Quiet(m, e, o, s)
    ensures Executable(m, [e]) && After(m, [e]) == Apply(m, e) && QuietRun(m, [e], o, s)
  {
    hide Enabled, Apply, Quiet;
    assert [e][1..] == [];
  }

  lemma ScheduledParts(m: Mesh, o: NodeId, s: u64, retell: bool, t: Tree)
    requires Scheduled(m, o, s, retell, t)
    ensures Rooted(m.sessions, o, retell, t)
    ensures o in Holders(m.state, o, s) && Holders(m.state, o, s) <= t.hops.Keys
  {
    hide Newest, Waiting, Within, Rooted, Holders;
  }

  lemma {:induction false} SmallerSet(a: set<NodeId>, b: set<NodeId>)
    requires a <= b
    ensures |a| <= |b|
  {
    assert b == a + (b - a);
    assert |b| == |a| + |b - a|;
  }

  lemma FewerLeft(all: set<NodeId>, before: set<NodeId>, after: set<NodeId>)
    requires before < after <= all
    ensures |all - after| < |all - before|
  {
    var n :| n in after && n !in before;
    assert all - after <= all - before - {n};
    SmallerSet(all - after, all - before - {n});
  }

  lemma {:induction false} Fill(m: Mesh, o: NodeId, s: u64, retell: bool, t: Tree) returns (events: seq<Event>)
    requires Scheduled(m, o, s, retell, t)
    ensures Executable(m, events) && QuietRun(m, events, o, s) && (retell || NoSync(events))
    ensures Scheduled(After(m, events), o, s, retell, t) && Holders(After(m, events).state, o, s) == t.hops.Keys
    decreases |t.hops.Keys - Holders(m.state, o, s)|
  {
    hide Scheduled, Enabled, Apply, Quiet, Holders, Executable, QuietRun, After, NoSync;
    if Holders(m.state, o, s) == t.hops.Keys {
      events := [];
      EmptyRun(m, o, s);
    } else {
      var first := ReachNext(m, o, s, retell, t);
      var m' := After(m, first);
      FewerLeft(t.hops.Keys, Holders(m.state, o, s), Holders(m'.state, o, s));
      var rest := Fill(m', o, s, retell, t);
      RunConcat(m, first, rest, o, s);
      events := first + rest;
    }
  }

  lemma EmptyRun(m: Mesh, o: NodeId, s: u64)
    ensures Executable(m, []) && QuietRun(m, [], o, s) && After(m, []) == m && NoSync([])
  {
  }

  lemma {:induction false} RunConcat(m: Mesh, a: seq<Event>, b: seq<Event>, o: NodeId, s: u64)
    requires Executable(m, a) && Executable(After(m, a), b)
    requires QuietRun(m, a, o, s) && QuietRun(After(m, a), b, o, s)
    ensures Executable(m, a + b) && After(m, a + b) == After(After(m, a), b)
    ensures QuietRun(m, a + b, o, s) && (NoSync(a) && NoSync(b) ==> NoSync(a + b))
    decreases |a|
  {
    hide Enabled, Apply, Quiet;
    if a == [] {
      assert a + b == b;
    } else {
      RunConcat(Apply(m, a[0]), a[1..], b, o, s);
      RunCons(m, a[0], a[1..] + b);
      QuietCons(m, a[0], a[1..] + b, o, s);
      assert a + b == [a[0]] + (a[1..] + b);
    }
  }

  lemma FullWaiting(sessions: Sessions, o: NodeId, retell: bool, t: Tree, flight: seq<Packet>, s: u64)
    requires FloodTree(sessions, o, retell, t)
    ensures Waiting(sessions, t.hops.Keys, flight, o, s, t.hops)
  {
  }

  /** Once the tree is full, the remaining copies are rejected one after the other. */
  lemma RejectNext(m: Mesh, o: NodeId, s: u64, retell: bool, t: Tree, i: nat) returns (e: Event)
    requires Scheduled(m, o, s, retell, t) && Holders(m.state, o, s) == t.hops.Keys
    requires i < |m.flight| && IsCopy(m.flight[i].update, o, s)
    ensures e.Receive? && Enabled(m, e) && Quiet(m, e, o, s) && Scheduled(Apply(m, e), o, s, retell, t)
    ensures Holders(Apply(m, e).state, o, s) == t.hops.Keys && |Apply(m, e).flight| < |m.flight|
  {
    hide Newest, Waiting, Rooted, FloodTree;
    var p := m.flight[i];
    assert p in m.flight;
    assert p.to in t.hops.Keys;
    assert Holds(m.state[p.to], o, s);
    NewerIsSerialGreater(s, s);
    assert !Accepts(m.state[p.to].nodes, p.update, p.update.timestamp);
    e := Receive(i, p.update.timestamp, []);
    assert Fresh(p.update, e.now);
    ReceiveReaches(m, e, o, s);
    ReceiveKeepsNewest(m, e, o, s);
    assert Holders(Apply(m, e).state, o, s) == t.hops.Keys;
    FullWaiting(m.sessions, o, retell, t, Without(m.flight, i) + [], s);
    WithinDelivers(m.flight, i, [], o, s, t.hops);
  }

  lemma {:induction false} Drain(m: Mesh, o: NodeId, s: u64, retell: bool, t: Tree) returns (events: seq<Event>)
    requires Scheduled(m, o, s, retell, t) && Holders(m.state, o, s) == t.hops.Keys
    ensures Executable(m, events) && QuietRun(m, events, o, s) && NoSync(events)
    ensures Holders(After(m, events).state, o, s) == t.hops.Keys
    ensures forall p | p in After(m, events).flight :: !IsCopy(p.update, o, s)
    decreases |m.flight|
  {
    hide Scheduled, Enabled, Apply, Quiet, Holders;
    if p :| p in m.flight && IsCopy(p.update, o, s) {
      var i :| 0 <= i < |m.flight| && m.flight[i] == p;
      var e := RejectNext(m, o, s, retell, t, i);
      var rest := Drain(Apply(m, e), o, s, retell, t);
      RunCons(m, e, rest);
      QuietCons(m, e, rest, o, s);
      events := [e] + rest;
    } else {
      events := [];
    }
  }

  // ---------------------------------------------------------------------------
  // The exact condition

  /** After the announcement `e` the mesh runs until no copy is in flight, without losing one
      and, unless `retell`, without retelling, and `n` has not got the update. */
  ghost predicate Misses(m: Mesh, e: Event, rest: seq<Event>, o: NodeId, n: NodeId, retell: bool)
    requires Enabled(m, e) && o in m.state
  {
    var s := m.state[o].localSequence;
    && Executable(Apply(m, e), rest) && QuietRun(Apply(m, e), rest, o, s) && (retell || NoSync(rest))
    && (forall p | p in After(Apply(m, e), rest).flight :: !IsCopy(p.update, o, s))
    && n !in Holders(After(Apply(m, e), rest).state, o, s)
  }

  lemma MissedOutsideTree(m: Mesh, e: Event, rest: seq<Event>, o: NodeId, n: NodeId, retell: bool) returns (t: Tree)
    requires Inv(m) && Enabled(m, e) && Announces(e, o) && Misses(m, e, rest, o, n, retell)
    ensures FloodTree(m.sessions, o, retell, t) && n !in t.hops
  {
    hide Inv, Newest, TreeInv, Executable, After, QuietRun, NoSync, Holders;
    var s := m.state[o].localSequence;
    var clock: nat;
    BeforeAnnouncing(m, o);
    TreeStarts(m, e, o, s, retell);
    t, clock := RunGrowsTree(Apply(m, e), rest, o, s, retell, Root(o), 1);
    KeysHold(After(Apply(m, e), rest), o, s, retell, t, clock);
    DrainedTree(After(Apply(m, e), rest), o, s, retell, t, clock);
  }

  lemma RootHops(sessions: Sessions, o: NodeId, retell: bool, t: Tree)
    requires Rooted(sessions, o, retell, t)
    ensures o in t.hops && t.hops[o] == DEFAULT_TOPOLOGY_TTL
  {
  }

  lemma ScheduleStarts(m: Mesh, e: Event, o: NodeId, s: u64, retell: bool, t: Tree)
    requires GoodSessions(m.sessions, m.state.Keys) && FloodTree(m.sessions, o, retell, t)
    requires Enabled(m, e) && Announces(e, o) && s == m.state[o].localSequence && s > 0
    requires Newest(m.state, m.flight, o, s - 1)
    ensures Scheduled(Apply(m, e), o, s, retell, t)
  {
    hide Newest, Rooted, Holders;
    var m' := Apply(m, e);
    NewestStarts(m, e, o, s);
    OriginHolds(m, e, o, s);
    RootHops(m.sessions, o, retell, t);
    forall p | p in m'.flight && IsCopy(p.update, o, s)
      ensures p.to in t.hops
    {
      OnlySent(m, e, o, s, p);
    }
    forall k | k in m.sessions[o]
      ensures Waits(m'.flight, k, o, s, DEFAULT_TOPOLOGY_TTL)
    {
      assert Packet(k, Announcement(m, o, e.neighbors, e.now)) in m'.flight;
    }
  }

  lemma InvGood(m: Mesh)
    requires Inv(m)
    ensures GoodSessions(m.sessions, m.state.Keys)
  {
  }

  lemma TreeIsRun(m: Mesh, e: Event, o: NodeId, retell: bool, t: Tree) returns (rest: seq<Event>)
    requires Inv(m) && Enabled(m, e) && Announces(e, o) && FloodTree(m.sessions, o, retell, t)
    ensures forall n | n !in t.hops :: Misses(m, e, rest, o, n, retell)
  {
    hide Inv, Newest, Scheduled, FloodTree, GoodSessions, Holders;
    var s, m' := m.state[o].localSequence, Apply(m, e);
    BeforeAnnouncing(m, o);
    InvGood(m);
    ScheduleStarts(m, e, o, s, retell, t);
    var first := Fill(m', o, s, retell, t);
    var second := Drain(After(m', first), o, s, retell, t);
    RunConcat(m', first, second, o, s);
    rest := first + second;
  }

  /** Exactly when a node can miss an announcement of which no copy is lost, for every mesh
      and every node, with or without retelling: there is a session tree rooted at the
      originator, of copies passed on or retold, in which every node that passes its copy on
      has all its session peers, and which leaves the node out. */
  lemma MissedIff(m: Mesh, e: Event, o: NodeId, n: NodeId, retell: bool)
    requires Inv(m) && Enabled(m, e) && Announces(e, o)
    ensures (exists rest :: Misses(m, e, rest, o, n, retell))
       <==> (exists t :: FloodTree(m.sessions, o, retell, t) && n !in t.hops)
  {
    hide Inv, Apply, Misses, FloodTree;
    if rest :| Misses(m, e, rest, o, n, retell) {
      var t := MissedOutsideTree(m, e, rest, o, n, retell);
    }
    if t :| FloodTree(m.sessions, o, retell, t) && n !in t.hops {
      var rest := TreeIsRun(m, e, o, retell, t);
    }
  }

  /** A node that no session path of at most eight links joins to the originator never gets
      the announcement, unless somebody retells it. */
  lemma FarNodesNeverLearn(m: Mesh, e: Event, rest: seq<Event>, o: NodeId, n: NodeId)
    requires Inv(m) && Enabled(m, e) && Announces(e, o)
    requires var s := m.state[o].localSequence;
             Executable(Apply(m, e), rest) && QuietRun(Apply(m, e), rest, o, s) && NoSync(rest)
    requires forall p | SessionPath(m.sessions, p) && p[0] == o && p[|p| - 1] == n :: |p| > REACH
    ensures n !in Holders(After(Apply(m, e), rest).state, o, m.state[o].localSequence)
  {
    hide Inv, Newest, Executable, After, QuietRun, NoSync, Apply, TreeInv, Holders, Rooted;
    var s := m.state[o].localSequence;
    BeforeAnnouncing(m, o);
    TreeStarts(m, e, o, s, false);
    ApplyKeepsSessions(m, e, o);
    var t, clock := RunGrowsTree(Apply(m, e), rest, o, s, false, Root(o), 1);
    KeysHold(After(Apply(m, e), rest), o, s, false, t, clock);
    if n in t.hops {
      var p := TreeBranch(m.sessions, o, t, n);
    }
  }

  lemma ApplyKeepsSessions(m: Mesh, e: Event, o: NodeId)
    requires Enabled(m, e) && Announces(e, o)
    ensures Apply(m, e).sessions == m.sessions
  {
  }

  /** From a tree to a whole run that starts with the announcement. */
  lemma MissedRun(m: Mesh, e: Event, retell: bool, t: Tree, o: NodeId, n: NodeId, said: seq<NeighborInfo>)
    returns (events: seq<Event>)
    requires Init(m) && Enabled(m, e) && Announces(e, o) && e.neighbors == said
    requires FloodTree(m.sessions, o, retell, t) && n in m.state && n !in t.hops
    ensures Executable(m, events) && LastWord(m, events, o, said) && (retell || NoSync(events))
    ensures var f := After(m, events);
            Drained(f, o) && f.sessions == m.sessions && n in f.state && !Knows(f, n, o, said)
  {
    hide Init, Inv, FloodTree, Executable, After, QuietRun, LastWord;
    InitInv(m);
    InitCount(m, o);
    var rest := TreeIsRun(m, e, o, retell, t);
    assert Misses(m, e, rest, o, n, retell);
    LastWordCons(m, e, rest, o, said);
    RunCons(m, e, rest);
    QuietRunStays(Apply(m, e), rest, o, 1);
    events := [e] + rest;
  }

  lemma InitCount(m: Mesh, o: NodeId)
    requires Init(m) && o in m.state
    ensures m.state[o].localSequence == 1
  {
  }
}
