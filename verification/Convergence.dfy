/** When flooding reaches everyone: each copy in flight came along a chain of nodes that
    accepted it one from the other, so its hops cannot run out while paths are short. */
module Convergence {
  import opened Base
  import opened LinkState
  import opened TopologyDatabase
  import opened Flooding
  import opened Forwarding

  /** The nodes on a path that uses up the initial TTL. */
  const REACH: nat := DEFAULT_TOPOLOGY_TTL + 1

  predicate IsCopy(u: TopologyUpdate, o: NodeId, s: u64) {
    u.originatorNode == o && u.sequenceNumber == s
  }

  predicate Holds(st: NodeState, o: NodeId, s: u64) {
    o in st.nodes && st.nodes[o].sequenceNumber == s
  }

  function Holders(state: map<NodeId, NodeState>, o: NodeId, s: u64): set<NodeId> {
    set n | n in state && Holds(state[n], o, s)
  }

  ghost predicate InFlight(flight: seq<Packet>, t: NodeId, o: NodeId, s: u64) {
    exists p :: p in flight && p.to == t && IsCopy(p.update, o, s)
  }

  /** The mesh while the update `s` of `o` spreads: `o` publishes nothing new, sessions
      stay, and no copy of that update is lost or outlives its age limit. Anything else may
      happen: other nodes may publish, any node may retell its records, other packets may
      be lost or expire. */
  predicate Quiet(m: Mesh, e: Event, o: NodeId, s: u64) {
    match e
    case Publish(n, _, _, _, _) => n != o
    case Receive(i, now, _) => i < |m.flight| && (IsCopy(m.flight[i].update, o, s) ==> Fresh(m.flight[i].update, now))
    case Sync(_, _, _) => true
    case Lose(i) => i < |m.flight| && !IsCopy(m.flight[i].update, o, s)
    case Reconnect(_) => false
  }

  ghost predicate QuietRun(m: Mesh, events: seq<Event>, o: NodeId, s: u64)
    requires Executable(m, events)
    decreases |events|
  {
    events == [] || (Quiet(m, events[0], o, s) && QuietRun(Apply(m, events[0]), events[1..], o, s))
  }

  lemma QuietCons(m: Mesh, e: Event, rest: seq<Event>, o: NodeId, s: u64)
    requires Enabled(m, e) && Executable(Apply(m, e), rest)
    ensures Executable(m, [e] + rest)
    ensures QuietRun(m, [e] + rest, o, s) <==> Quiet(m, e, o, s) && QuietRun(Apply(m, e), rest, o, s)
  {
    hide Enabled, Apply, Quiet;
    assert ([e] + rest)[0] == e && ([e] + rest)[1..] == rest;
  }

  // ---------------------------------------------------------------------------
  // Session paths

  ghost predicate SessionPath(sessions: Sessions, p: seq<NodeId>) {
    |p| > 0 && forall i | 0 <= i < |p| - 1 :: p[i] in sessions && p[i + 1] in sessions[p[i]]
  }

  /** A session path from `o` to `n` that visits no node twice. */
  ghost predicate Simple(sessions: Sessions, o: NodeId, q: seq<NodeId>, n: NodeId) {
    SessionPath(sessions, q) && NoRepeats(q) && q[0] == o && q[|q| - 1] == n
  }

  /** No path from `o` without repetition has more links than the initial TTL. */
  ghost predicate ShortPaths(sessions: Sessions, o: NodeId) {
    forall q, n | Simple(sessions, o, q, n) :: |q| <= REACH
  }

  ghost predicate Connected(sessions: Sessions, o: NodeId) {
    forall n | n in sessions :: exists p :: SessionPath(sessions, p) && p[0] == o && p[|p| - 1] == n
  }

  /** Meshes of at most nine nodes have short paths only. */
  lemma SmallMeshShortPaths(sessions: Sessions, o: NodeId)
    requires GoodSessions(sessions, sessions.Keys) && o in sessions && |sessions| <= REACH
    ensures ShortPaths(sessions, o)
  {
    forall q, n | Simple(sessions, o, q, n)
      ensures |q| <= REACH
    {
      forall i | 0 <= i < |q|
        ensures q[i] in sessions.Keys
      {
        if i > 0 {
          assert q[i - 1] in sessions && q[i - 1 + 1] in sessions[q[i - 1]];
        }
      }
      DistinctWithin(q, sessions.Keys);
    }
  }

  lemma StarLink(sessions: Sessions, hub: NodeId, q: seq<NodeId>, i: nat)
    requires forall n, t | n in sessions && t in sessions[n] :: n == hub || t == hub
    requires SessionPath(sessions, q) && i < |q| - 1
    ensures q[i] == hub || q[i + 1] == hub
  {
    assert q[i] in sessions && q[i + 1] in sessions[q[i]];
  }

  /** Stars of any size have short paths only. */
  lemma StarShortPaths(sessions: Sessions, o: NodeId, hub: NodeId)
    requires forall n, t | n in sessions && t in sessions[n] :: n == hub || t == hub
    ensures ShortPaths(sessions, o)
  {
    forall q, n | Simple(sessions, o, q, n)
      ensures |q| <= 3
    {
      if |q| > 3 {
        StarLink(sessions, hub, q, 0);
        StarLink(sessions, hub, q, 2);
      }
    }
  }

  lemma PathSplice(sessions: Sessions, p: seq<NodeId>, i: nat, j: nat)
    requires SessionPath(sessions, p) && i < j < |p| && p[i] == p[j]
    ensures SessionPath(sessions, p[..i] + p[j..])
    ensures (p[..i] + p[j..])[0] == p[0] && (p[..i] + p[j..])[|p| - (j - i) - 1] == p[|p| - 1]
  {
    var q := p[..i] + p[j..];
    forall k | 0 <= k < |q| - 1
      ensures q[k] in sessions && q[k + 1] in sessions[q[k]]
    {
      if k < i {
        assert q[k] == p[k] && q[k + 1] == p[k + 1];
      } else {
        assert q[k] == p[k + (j - i)] && q[k + 1] == p[k + (j - i) + 1];
      }
    }
  }

  /** Cutting out repetitions leaves a path that is no longer. */
  lemma {:induction false} SimplePart(sessions: Sessions, p: seq<NodeId>) returns (q: seq<NodeId>)
    requires SessionPath(sessions, p)
    ensures Simple(sessions, p[0], q, p[|p| - 1]) && |q| <= |p|
    decreases |p|
  {
    hide SessionPath;
    if NoRepeats(p) {
      q := p;
    } else {
      var i, j :| 0 <= i < j < |p| && p[i] == p[j];
      PathSplice(sessions, p, i, j);
      q := SimplePart(sessions, p[..i] + p[j..]);
    }
  }

  lemma PathAppend(sessions: Sessions, q: seq<NodeId>, t: NodeId)
    requires SessionPath(sessions, q) && q[|q| - 1] in sessions && t in sessions[q[|q| - 1]]
    ensures SessionPath(sessions, q + [t])
  {
    var p := q + [t];
    forall i | 0 <= i < |p| - 1
      ensures p[i] in sessions && p[i + 1] in sessions[p[i]]
    {
      if i < |q| - 1 {
        assert q[i] in sessions && q[i + 1] in sessions[q[i]];
      }
    }
  }

  // ---------------------------------------------------------------------------
  // The flooding invariant

  /** No later update of `o` exists anywhere. */
  ghost predicate Newest(state: map<NodeId, NodeState>, flight: seq<Packet>, o: NodeId, s: u64) {
    && s < HALF
    && (forall n | n in state && o in state[n].nodes :: state[n].nodes[o].sequenceNumber <= s)
    && (forall p | p in flight && p.update.originatorNode == o :: p.update.sequenceNumber <= s)
  }

  /** The nodes that accepted a copy one from the other, from `o` to `n`. */
  ghost predicate Chain(sessions: Sessions, holders: set<NodeId>, o: NodeId, q: seq<NodeId>, n: NodeId) {
    Simple(sessions, o, q, n) && forall i | 0 <= i < |q| :: q[i] in holders
  }

  ghost predicate HasChain(sessions: Sessions, holders: set<NodeId>, o: NodeId, n: NodeId) {
    exists q :: Chain(sessions, holders, o, q, n)
  }

  ghost predicate Chained(sessions: Sessions, holders: set<NodeId>, o: NodeId) {
    forall n | n in holders :: HasChain(sessions, holders, o, n)
  }

  /** A copy that came along `q` has at least the hops left that `q` has not used up. */
  ghost predicate CameAlong(sessions: Sessions, holders: set<NodeId>, o: NodeId, q: seq<NodeId>, p: Packet) {
    && |q| > 0 && Chain(sessions, holders, o, q, q[|q| - 1])
    && q[|q| - 1] in sessions && p.to in sessions[q[|q| - 1]]
    && p.update.ttl + |q| >= REACH
  }

  ghost predicate Lively(sessions: Sessions, holders: set<NodeId>, o: NodeId, p: Packet) {
    exists q :: CameAlong(sessions, holders, o, q, p)
  }

  ghost predicate AllLively(sessions: Sessions, holders: set<NodeId>, flight: seq<Packet>, o: NodeId, s: u64) {
    forall p | p in flight && IsCopy(p.update, o, s) :: Lively(sessions, holders, o, p)
  }

  /** Neighbours of reached nodes are reached or about to be. */
  ghost predicate Spreading(holders: set<NodeId>, sessions: Sessions, flight: seq<Packet>,
                            o: NodeId, s: u64) {
    forall r, t | r in holders && r in sessions && t in sessions[r] :: t in holders || InFlight(flight, t, o, s)
  }

  ghost predicate FloodInv(m: Mesh, o: NodeId, s: u64) {
    var holders := Holders(m.state, o, s);
    && Newest(m.state, m.flight, o, s)
    && o in holders
    && Chained(m.sessions, holders, o)
    && AllLively(m.sessions, holders, m.flight, o, s)
    && Spreading(holders, m.sessions, m.flight, o, s)
  }

  lemma StoredNewest(published: Published, state: map<NodeId, NodeState>, o: NodeId, s: u64, n: NodeId)
    requires StoredTold(published, state) && Counted(published, state)
    requires o in state && state[o].localSequence == s + 1 && n in state && o in state[n].nodes
    ensures state[n].nodes[o].sequenceNumber <= s
  {
    assert NodesTold(published, state[n].nodes);
    assert Stamp(o, state[n].nodes[o].sequenceNumber) in published;
  }

  lemma FlightNewest(published: Published, state: map<NodeId, NodeState>, flight: seq<Packet>,
                     o: NodeId, s: u64, p: Packet)
    requires FlightTold(published, state.Keys, flight) && Counted(published, state)
    requires o in state && state[o].localSequence == s + 1 && p in flight && p.update.originatorNode == o
    ensures p.update.sequenceNumber <= s
  {
    assert Stamp(o, p.update.sequenceNumber) in published;
  }

  lemma InvNewest(m: Mesh, o: NodeId, s: u64)
    requires StoredTold(m.published, m.state) && FlightTold(m.published, m.state.Keys, m.flight)
    requires Counted(m.published, m.state)
    requires s < HALF && o in m.state && m.state[o].localSequence == s + 1
    ensures Newest(m.state, m.flight, o, s)
  {
    forall n | n in m.state && o in m.state[n].nodes
      ensures m.state[n].nodes[o].sequenceNumber <= s
    {
      StoredNewest(m.published, m.state, o, s, n);
    }
    forall p | p in m.flight && p.update.originatorNode == o
      ensures p.update.sequenceNumber <= s
    {
      FlightNewest(m.published, m.state, m.flight, o, s, p);
    }
  }

  predicate Announces(e: Event, o: NodeId) {
    e.Publish? && e.node == o && e.announce
  }

  lemma ChainGrows(sessions: Sessions, holders: set<NodeId>, more: set<NodeId>, o: NodeId, q: seq<NodeId>, n: NodeId)
    requires Chain(sessions, holders, o, q, n) && holders <= more
    ensures Chain(sessions, more, o, q, n)
  {
  }

  lemma LivelyGrows(sessions: Sessions, holders: set<NodeId>, more: set<NodeId>, o: NodeId, p: Packet)
    requires Lively(sessions, holders, o, p) && holders <= more
    ensures Lively(sessions, more, o, p)
  {
    hide Simple;
    var q :| CameAlong(sessions, holders, o, q, p);
    ChainGrows(sessions, holders, more, o, q, q[|q| - 1]);
    assert CameAlong(sessions, more, o, q, p);
  }

  lemma ChainExtends(sessions: Sessions, holders: set<NodeId>, o: NodeId, q: seq<NodeId>, n: NodeId)
    requires |q| > 0 && Chain(sessions, holders, o, q, q[|q| - 1]) && n !in holders
    requires q[|q| - 1] in sessions && n in sessions[q[|q| - 1]]
    ensures Chain(sessions, holders + {n}, o, q + [n], n)
  {
    hide SessionPath;
    PathAppend(sessions, q, n);
  }

  lemma ChainAlone(sessions: Sessions, o: NodeId)
    ensures Chain(sessions, {o}, o, [o], o)
  {
  }

  lemma OriginHolds(m: Mesh, e: Event, o: NodeId, s: u64)
    requires Enabled(m, e) && Announces(e, o) && s == m.state[o].localSequence && s > 0
    requires Newest(m.state, m.flight, o, s - 1)
    ensures Holders(Apply(m, e).state, o, s) == {o}
  {
  }

  lemma FloodStarts(m: Mesh, e: Event, o: NodeId, s: u64)
    requires Enabled(m, e) && Announces(e, o) && s == m.state[o].localSequence
    requires s > 0 && Newest(m.state, m.flight, o, s - 1)
    ensures s + 1 < HALF && FloodInv(Apply(m, e), o, s)
  {
    hide Chain;
    var m' := Apply(m, e);
    OriginHolds(m, e, o, s);
    ChainAlone(m.sessions, o);
    forall p | p in m'.flight && IsCopy(p.update, o, s)
      ensures Lively(m.sessions, {o}, o, p)
    {
      assert p in e.sent;
      assert CameAlong(m.sessions, {o}, o, [o], p);
    }
    assert HasChain(m.sessions, {o}, o, o);
    forall t | t in m.sessions[o]
      ensures InFlight(m'.flight, t, o, s)
    {
      assert Packet(t, Announcement(m, o, e.neighbors, e.now)) in m'.flight;
    }
  }

  /** Copies stay in flight when packets are added, and when another packet is delivered. */
  lemma StaysInFlight(flight: seq<Packet>, i: nat, sent: seq<Packet>, t: NodeId, o: NodeId, s: u64)
    requires i < |flight| && InFlight(flight, t, o, s)
    requires flight[i].to != t || !IsCopy(flight[i].update, o, s)
    ensures InFlight(Without(flight, i) + sent, t, o, s)
  {
    var p :| p in flight && p.to == t && IsCopy(p.update, o, s);
    var j :| 0 <= j < |flight| && flight[j] == p;
    var rest := Without(flight, i);
    assert p == if j < i then rest[j] else rest[j - 1];
  }

  lemma SpreadingGrows(holders: set<NodeId>, sessions: Sessions, flight: seq<Packet>,
                       sent: seq<Packet>, o: NodeId, s: u64)
    requires Spreading(holders, sessions, flight, o, s)
    ensures Spreading(holders, sessions, flight + sent, o, s)
  {
    forall t | InFlight(flight, t, o, s)
      ensures InFlight(flight + sent, t, o, s)
    {
      var p :| p in flight && p.to == t && IsCopy(p.update, o, s);
      assert p in flight + sent;
    }
  }

  /** Delivering to a node that is, or now counts as, reached. */
  lemma SpreadingDelivers(holders: set<NodeId>, sessions: Sessions, flight: seq<Packet>,
                          i: nat, sent: seq<Packet>, o: NodeId, s: u64)
    requires Spreading(holders, sessions, flight, o, s) && i < |flight|
    requires IsCopy(flight[i].update, o, s) ==> flight[i].to in holders
    ensures Spreading(holders, sessions, Without(flight, i) + sent, o, s)
  {
    forall t | InFlight(flight, t, o, s) && t !in holders
      ensures InFlight(Without(flight, i) + sent, t, o, s)
    {
      StaysInFlight(flight, i, sent, t, o, s);
    }
  }

  lemma PublishKeepsFlood(m: Mesh, e: Event, o: NodeId, s: u64)
    requires FloodInv(m, o, s) && e.Publish? && e.node != o && Enabled(m, e)
    ensures FloodInv(Apply(m, e), o, s)
  {
    hide Chained, Lively, Spreading;
    var m' := Apply(m, e);
    assert Holders(m'.state, o, s) == Holders(m.state, o, s);
    assert forall p | p in e.sent :: p.update.originatorNode != o;
    SpreadingGrows(Holders(m.state, o, s), m.sessions, m.flight, e.sent, o, s);
  }

  /** Retold copies start with one hop less, and are sent by a node that is not `o`. */
  lemma SyncKeepsFlood(m: Mesh, e: Event, o: NodeId, s: u64)
    requires FloodInv(m, o, s) && e.Sync? && Enabled(m, e)
    ensures FloodInv(Apply(m, e), o, s)
  {
    hide Spreading;
    var holders := Holders(m.state, o, s);
    forall p | p in e.sent && IsCopy(p.update, o, s)
      ensures Lively(m.sessions, holders, o, p)
    {
      assert HasChain(m.sessions, holders, o, e.node);
      var q :| Chain(m.sessions, holders, o, q, e.node);
      assert |q| >= 2;
      assert CameAlong(m.sessions, holders, o, q, p);
    }
    SpreadingGrows(holders, m.sessions, m.flight, e.sent, o, s);
  }

  lemma LoseKeepsFlood(m: Mesh, e: Event, o: NodeId, s: u64)
    requires FloodInv(m, o, s) && e.Lose? && Enabled(m, e) && Quiet(m, e, o, s)
    ensures FloodInv(Apply(m, e), o, s)
  {
    hide Chained, Lively, Spreading;
    var holders := Holders(m.state, o, s);
    assert forall p | p in Without(m.flight, e.i) :: p in m.flight;
    SpreadingDelivers(holders, m.sessions, m.flight, e.i, [], o, s);
    assert Without(m.flight, e.i) + [] == Without(m.flight, e.i);
  }

  /** How a delivery changes the reached nodes. */
  lemma ReceiveReaches(m: Mesh, e: Event, o: NodeId, s: u64)
    requires e.Receive? && Enabled(m, e) && Quiet(m, e, o, s) && Newest(m.state, m.flight, o, s)
    ensures var p := m.flight[e.i];
            && Holders(Apply(m, e).state, o, s) ==
                 Holders(m.state, o, s) + (if IsCopy(p.update, o, s) then {p.to} else {})
            && (IsCopy(p.update, o, s) && p.to !in Holders(m.state, o, s) ==>
                  Accepts(m.state[p.to].nodes, p.update, e.now))
            && (IsCopy(p.update, o, s) && p.to in Holders(m.state, o, s) ==>
                  !Accepts(m.state[p.to].nodes, p.update, e.now))
  {
    var m', p := Apply(m, e), m.flight[e.i];
    assert p in m.flight;
    if p.update.originatorNode == o && o in m.state[p.to].nodes {
      NewerBelowHalf(p.update.sequenceNumber, m.state[p.to].nodes[o].sequenceNumber);
    }
    forall n | n in m.state
      ensures n in Holders(m'.state, o, s) <==>
                n in Holders(m.state, o, s) || (IsCopy(p.update, o, s) && n == p.to)
    {
    }
  }

  lemma ReceiveKeepsNewest(m: Mesh, e: Event, o: NodeId, s: u64)
    requires e.Receive? && Enabled(m, e) && Newest(m.state, m.flight, o, s)
    ensures Newest(Apply(m, e).state, Apply(m, e).flight, o, s)
  {
    var m', p := Apply(m, e), m.flight[e.i];
    assert p in m.flight;
    assert forall q | q in m'.flight :: q in m.flight || q in e.sent;
  }

  /** Deliveries that reach nobody new. */
  lemma OldNewsKeepsFlood(m: Mesh, e: Event, o: NodeId, s: u64)
    requires FloodInv(m, o, s) && e.Receive? && Enabled(m, e) && Quiet(m, e, o, s)
    requires var p := m.flight[e.i]; IsCopy(p.update, o, s) ==> p.to in Holders(m.state, o, s)
    ensures FloodInv(Apply(m, e), o, s)
  {
    hide Chained, Lively, Spreading, Newest;
    var m', holders := Apply(m, e), Holders(m.state, o, s);
    ReceiveReaches(m, e, o, s);
    ReceiveKeepsNewest(m, e, o, s);
    assert Holders(m'.state, o, s) == holders;
    assert forall q | q in m'.flight && IsCopy(q.update, o, s) :: q in m.flight;
    SpreadingDelivers(holders, m.sessions, m.flight, e.i, e.sent, o, s);
  }

  /** The chain of a new holder. */
  lemma NewsExtendsChain(sessions: Sessions, holders: set<NodeId>, o: NodeId, p: Packet) returns (q: seq<NodeId>)
    requires Lively(sessions, holders, o, p) && p.to !in holders
    ensures |q| >= 2 && Chain(sessions, holders + {p.to}, o, q, p.to) && p.update.ttl + |q| > REACH
  {
    hide Chain;
    var r :| CameAlong(sessions, holders, o, r, p);
    ChainExtends(sessions, holders, o, r, p.to);
    q := r + [p.to];
  }

  lemma NewsKeepsChained(sessions: Sessions, holders: set<NodeId>, o: NodeId, p: Packet)
    requires Chained(sessions, holders, o) && Lively(sessions, holders, o, p) && p.to !in holders
    ensures Chained(sessions, holders + {p.to}, o)
  {
    hide Chain, Lively;
    forall n | n in holders + {p.to}
      ensures HasChain(sessions, holders + {p.to}, o, n)
    {
      if n == p.to {
        var q := NewsExtendsChain(sessions, holders, o, p);
      } else {
        assert HasChain(sessions, holders, o, n);
        var q :| Chain(sessions, holders, o, q, n);
        ChainGrows(sessions, holders, holders + {p.to}, o, q, n);
      }
    }
  }

  lemma NewsKeepsLively(m: Mesh, e: Event, o: NodeId, s: u64)
    requires e.Receive? && Enabled(m, e) && IsCopy(m.flight[e.i].update, o, s)
    requires m.flight[e.i].to !in Holders(m.state, o, s)
    requires AllLively(m.sessions, Holders(m.state, o, s), m.flight, o, s)
    ensures AllLively(m.sessions, Holders(m.state, o, s) + {m.flight[e.i].to}, Apply(m, e).flight, o, s)
  {
    hide Chain, Lively, Holders;
    var m', p, holders := Apply(m, e), m.flight[e.i], Holders(m.state, o, s);
    assert p in m.flight;
    forall c | c in m'.flight && IsCopy(c.update, o, s)
      ensures Lively(m.sessions, holders + {p.to}, o, c)
    {
      if c in m.flight {
        LivelyGrows(m.sessions, holders, holders + {p.to}, o, c);
      } else {
        assert c in e.sent;
        var q := NewsExtendsChain(m.sessions, holders, o, p);
        SentLively(m.sessions, holders + {p.to}, o, q, p, c);
      }
    }
  }

  lemma SentLively(sessions: Sessions, holders: set<NodeId>, o: NodeId, q: seq<NodeId>, p: Packet, c: Packet)
    requires |q| >= 2 && Chain(sessions, holders, o, q, p.to) && p.update.ttl + |q| > REACH
    requires p.to in sessions && c.to in sessions[p.to] && c.update.ttl == p.update.ttl - 1
    ensures Lively(sessions, holders, o, c)
  {
    hide SessionPath;
    assert CameAlong(sessions, holders, o, q, c);
  }

  lemma ShortAt(sessions: Sessions, o: NodeId, q: seq<NodeId>, n: NodeId)
    requires ShortPaths(sessions, o) && Simple(sessions, o, q, n)
    ensures |q| <= REACH
  {
  }

  /** A copy whose TTL is used up has come as far as any path goes: all neighbours of its
      receiver are on its way. */
  lemma LastHop(sessions: Sessions, holders: set<NodeId>, o: NodeId, p: Packet, t: NodeId)
    requires ShortPaths(sessions, o) && Lively(sessions, holders, o, p) && p.to !in holders
    requires p.update.ttl <= 1 && p.to in sessions && t in sessions[p.to]
    ensures t in holders + {p.to}
  {
    hide SessionPath, Lively, ShortPaths;
    var q := NewsExtendsChain(sessions, holders, o, p);
    if t !in holders + {p.to} {
      ChainExtends(sessions, holders + {p.to}, o, q, t);
      ShortAt(sessions, o, q + [t], t);
    }
  }

  lemma NewsSpreads(holders: set<NodeId>, sessions: Sessions, flight: seq<Packet>,
                    i: nat, sent: seq<Packet>, o: NodeId, s: u64)
    requires Spreading(holders, sessions, flight, o, s) && i < |flight| && IsCopy(flight[i].update, o, s)
    requires flight[i].to in sessions && flight[i].update.ttl > 0
    requires Broadcast(sent, sessions[flight[i].to], flight[i].update.(ttl := flight[i].update.ttl - 1))
    ensures Spreading(holders + {flight[i].to}, sessions, Without(flight, i) + sent, o, s)
  {
    var n, u := flight[i].to, flight[i].update.(ttl := flight[i].update.ttl - 1);
    forall r, t | r in holders + {n} && r in sessions && t in sessions[r] && t !in holders + {n}
      ensures InFlight(Without(flight, i) + sent, t, o, s)
    {
      if r == n {
        assert Packet(t, u) in Without(flight, i) + sent;
      } else {
        StaysInFlight(flight, i, sent, t, o, s);
      }
    }
  }

  lemma NewsKeepsSpreading(m: Mesh, e: Event, o: NodeId, s: u64)
    requires e.Receive? && Enabled(m, e) && Quiet(m, e, o, s) && IsCopy(m.flight[e.i].update, o, s)
    requires m.flight[e.i].to !in Holders(m.state, o, s)
    requires Accepts(m.state[m.flight[e.i].to].nodes, m.flight[e.i].update, e.now)
    requires ShortPaths(m.sessions, o) && Lively(m.sessions, Holders(m.state, o, s), o, m.flight[e.i])
    requires Spreading(Holders(m.state, o, s), m.sessions, m.flight, o, s)
    ensures Spreading(Holders(m.state, o, s) + {m.flight[e.i].to}, m.sessions, Apply(m, e).flight, o, s)
  {
    hide ShortPaths, Lively, Spreading, Accepts, Holders, Fresh;
    var p, holders := m.flight[e.i], Holders(m.state, o, s);
    if p.update.ttl > 1 {
      NewsSpreads(holders, m.sessions, m.flight, e.i, e.sent, o, s);
    } else {
      forall t | t in m.sessions[p.to]
        ensures t in holders + {p.to}
      {
        LastHop(m.sessions, holders, o, p, t);
      }
      LastHopSpreads(holders, m.sessions, m.flight, e.i, o, s);
      assert Without(m.flight, e.i) + e.sent == Without(m.flight, e.i);
    }
  }

  lemma LastHopSpreads(holders: set<NodeId>, sessions: Sessions, flight: seq<Packet>, i: nat,
                       o: NodeId, s: u64)
    requires Spreading(holders, sessions, flight, o, s) && i < |flight| && IsCopy(flight[i].update, o, s)
    requires flight[i].to in sessions && sessions[flight[i].to] <= holders + {flight[i].to}
    ensures Spreading(holders + {flight[i].to}, sessions, Without(flight, i), o, s)
  {
    var n := flight[i].to;
    forall r, t | r in holders + {n} && r in sessions && t in sessions[r] && t !in holders + {n}
      ensures InFlight(Without(flight, i), t, o, s)
    {
      StaysInFlight(flight, i, [], t, o, s);
      assert Without(flight, i) + [] == Without(flight, i);
    }
  }

  /** A delivery that reaches a new node. */
  lemma NewsKeepsFlood(m: Mesh, e: Event, o: NodeId, s: u64)
    requires FloodInv(m, o, s) && e.Receive? && Enabled(m, e) && Quiet(m, e, o, s) && ShortPaths(m.sessions, o)
    requires var p := m.flight[e.i]; IsCopy(p.update, o, s) && p.to !in Holders(m.state, o, s)
    ensures FloodInv(Apply(m, e), o, s)
  {
    hide Chained, Lively, Spreading, Newest, ShortPaths, Accepts, Fresh, AllLively;
    var m', p, holders := Apply(m, e), m.flight[e.i], Holders(m.state, o, s);
    ReceiveReaches(m, e, o, s);
    ReceiveKeepsNewest(m, e, o, s);
    assert Holders(m'.state, o, s) == holders + {p.to};
    CopyLively(m.sessions, holders, m.flight, e.i, o, s);
    NewsKeepsChained(m.sessions, holders, o, p);
    NewsKeepsLively(m, e, o, s);
    NewsKeepsSpreading(m, e, o, s);
  }

  lemma CopyLively(sessions: Sessions, holders: set<NodeId>, flight: seq<Packet>, i: nat, o: NodeId, s: u64)
    requires AllLively(sessions, holders, flight, o, s) && i < |flight| && IsCopy(flight[i].update, o, s)
    ensures Lively(sessions, holders, o, flight[i])
  {
    hide Lively;
    assert flight[i] in flight;
  }

  lemma QuietKeepsFlood(m: Mesh, e: Event, o: NodeId, s: u64)
    requires FloodInv(m, o, s) && Enabled(m, e) && Quiet(m, e, o, s) && ShortPaths(m.sessions, o)
    ensures FloodInv(Apply(m, e), o, s)
  {
    hide FloodInv, ShortPaths;
    match e
    case Publish(_, _, _, _, _) => PublishKeepsFlood(m, e, o, s);
    case Sync(_, _, _) => SyncKeepsFlood(m, e, o, s);
    case Lose(_) => LoseKeepsFlood(m, e, o, s);
    case Receive(i, _, _) =>
      if IsCopy(m.flight[i].update, o, s) && m.flight[i].to !in Holders(m.state, o, s) {
        NewsKeepsFlood(m, e, o, s);
      } else {
        OldNewsKeepsFlood(m, e, o, s);
      }
    case Reconnect(_) =>
  }

  lemma QuietStep(m: Mesh, e: Event, o: NodeId, s: u64)
    requires Enabled(m, e) && Quiet(m, e, o, s)
    ensures Apply(m, e).sessions == m.sessions && Apply(m, e).state.Keys == m.state.Keys
    ensures o in m.state ==> Apply(m, e).state[o].localSequence == m.state[o].localSequence
  {
  }

  lemma {:induction false} QuietRunKeepsFlood(m: Mesh, events: seq<Event>, o: NodeId, s: u64)
    requires Executable(m, events) && QuietRun(m, events, o, s) && FloodInv(m, o, s) && ShortPaths(m.sessions, o)
    ensures FloodInv(After(m, events), o, s)
    decreases |events|
  {
    hide FloodInv, ShortPaths, Enabled, Apply, Quiet;
    if events != [] {
      QuietKeepsFlood(m, events[0], o, s);
      QuietStep(m, events[0], o, s);
      QuietRunKeepsFlood(Apply(m, events[0]), events[1..], o, s);
    }
  }

  lemma {:induction false} QuietRunStays(m: Mesh, events: seq<Event>, o: NodeId, s: u64)
    requires Executable(m, events) && QuietRun(m, events, o, s)
    ensures After(m, events).sessions == m.sessions && After(m, events).state.Keys == m.state.Keys
    ensures o in m.state ==> After(m, events).state[o].localSequence == m.state[o].localSequence
    decreases |events|
  {
    hide Enabled, Apply, Quiet;
    if events != [] {
      QuietStep(m, events[0], o, s);
      QuietRunStays(Apply(m, events[0]), events[1..], o, s);
    }
  }

  // ---------------------------------------------------------------------------
  // Convergence

  lemma {:induction false} ClosedContainsPath(sessions: Sessions, reached: set<NodeId>, p: seq<NodeId>)
    requires forall r, t | r in reached && r in sessions && t in sessions[r] :: t in reached
    requires SessionPath(sessions, p) && p[0] in reached
    ensures p[|p| - 1] in reached
    decreases |p|
  {
    if |p| > 1 {
      ClosedContainsPath(sessions, reached, p[..|p| - 1]);
      assert p[|p| - 2 + 1] in sessions[p[|p| - 2]];
    }
  }

  /** Once no copy is in flight, a connected mesh has the update everywhere. */
  lemma FloodCompletes(m: Mesh, o: NodeId, s: u64)
    requires FloodInv(m, o, s) && m.sessions.Keys == m.state.Keys && Connected(m.sessions, o)
    requires forall p | p in m.flight :: !IsCopy(p.update, o, s)
    ensures Holders(m.state, o, s) == m.state.Keys
  {
    hide Newest, Chained, AllLively;
    var holders := Holders(m.state, o, s);
    forall n | n in m.state
      ensures n in holders
    {
      var p :| SessionPath(m.sessions, p) && p[0] == o && p[|p| - 1] == n;
      ClosedContainsPath(m.sessions, holders, p);
    }
  }

  /** Somewhere in the run `o` announces `said`, its last update, and the mesh is quiet
      for that update from then on. */
  ghost predicate LastWord(m: Mesh, events: seq<Event>, o: NodeId, said: seq<NeighborInfo>)
    requires Executable(m, events)
    decreases |events|
  {
    && events != []
    && var e, m' := events[0], Apply(m, events[0]);
       || (Announces(e, o) && e.neighbors == said && QuietRun(m', events[1..], o, m.state[o].localSequence))
       || LastWord(m', events[1..], o, said)
  }

  lemma LastWordCons(m: Mesh, e: Event, rest: seq<Event>, o: NodeId, said: seq<NeighborInfo>)
    requires Enabled(m, e) && Executable(Apply(m, e), rest)
    ensures Executable(m, [e] + rest)
    ensures LastWord(m, [e] + rest, o, said) <==>
              || (Announces(e, o) && e.neighbors == said && QuietRun(Apply(m, e), rest, o, m.state[o].localSequence))
              || LastWord(Apply(m, e), rest, o, said)
  {
    hide Enabled, Apply, Announces, QuietRun;
    assert ([e] + rest)[0] == e && ([e] + rest)[1..] == rest;
  }

  /** The latest update of `o` is `said`, and is spreading. */
  ghost predicate Spoken(m: Mesh, o: NodeId, said: seq<NeighborInfo>) {
    && o in m.state && m.state[o].localSequence > 1
    && Told(m.published, o, m.state[o].localSequence - 1, Advertised(said))
    && FloodInv(m, o, m.state[o].localSequence - 1)
  }

  lemma BeforeAnnouncing(m: Mesh, o: NodeId)
    requires Inv(m) && o in m.state
    ensures 1 <= m.state[o].localSequence < HALF
    ensures Newest(m.state, m.flight, o, m.state[o].localSequence - 1)
  {
    hide GoodSessions, StoredTold, FlightTold, Counted, Newest;
    assert OwnLatest(o, m.state[o]);
    InvNewest(m, o, m.state[o].localSequence - 1);
  }

  lemma AnnouncementFloods(m: Mesh, e: Event, o: NodeId)
    requires Enabled(m, e) && Announces(e, o) && 1 <= m.state[o].localSequence
    requires Newest(m.state, m.flight, o, m.state[o].localSequence - 1)
    ensures Spoken(Apply(m, e), o, e.neighbors)
    ensures Apply(m, e).state[o].localSequence == m.state[o].localSequence + 1
  {
    hide FloodInv, Newest;
    FloodStarts(m, e, o, m.state[o].localSequence);
  }

  lemma QuietRunKeepsSpoken(m: Mesh, events: seq<Event>, o: NodeId, said: seq<NeighborInfo>)
    requires Inv(m) && Executable(m, events) && Spoken(m, o, said) && ShortPaths(m.sessions, o)
    requires QuietRun(m, events, o, m.state[o].localSequence - 1)
    ensures Spoken(After(m, events), o, said)
  {
    hide FloodInv, Inv, ShortPaths, Executable, QuietRun, After;
    QuietRunKeepsFlood(m, events, o, m.state[o].localSequence - 1);
    QuietRunStays(m, events, o, m.state[o].localSequence - 1);
    RunExtends(m, events);
  }

  lemma {:induction false} LastWordFloods(m: Mesh, events: seq<Event>, o: NodeId, said: seq<NeighborInfo>)
    requires Inv(m) && Executable(m, events) && LastWord(m, events, o, said)
    requires ShortPaths(After(m, events).sessions, o)
    ensures Spoken(After(m, events), o, said)
    decreases |events|
  {
    hide Inv, ShortPaths, Spoken, Apply, QuietRun, Newest;
    var e := events[0];
    StepKeepsInv(m, e);
    if Announces(e, o) && e.neighbors == said && QuietRun(Apply(m, e), events[1..], o, m.state[o].localSequence) {
      BeforeAnnouncing(m, o);
      AnnouncementFloods(m, e, o);
      QuietRunStays(Apply(m, e), events[1..], o, m.state[o].localSequence);
      QuietRunKeepsSpoken(Apply(m, e), events[1..], o, said);
    } else {
      LastWordFloods(Apply(m, e), events[1..], o, said);
    }
  }

  /** No copy of the latest update of `o` is on its way. */
  ghost predicate Drained(m: Mesh, o: NodeId) {
    && o in m.state && m.state[o].localSequence > 1
    && forall p | p in m.flight :: !IsCopy(p.update, o, m.state[o].localSequence - 1)
  }

  /** `n` stores the latest update of `o`, with the content `said`. */
  ghost predicate Knows(m: Mesh, n: NodeId, o: NodeId, said: seq<NeighborInfo>) {
    && n in m.state && o in m.state && m.state[o].localSequence > 1
    && Holds(m.state[n], o, m.state[o].localSequence - 1)
    && LinksOf(m.state[n].nodes[o].neighbors) == Advertised(said)
  }

  lemma HolderKnows(m: Mesh, n: NodeId, o: NodeId, said: seq<NeighborInfo>)
    requires Inv(m) && Spoken(m, o, said) && n in Holders(m.state, o, m.state[o].localSequence - 1)
    ensures Knows(m, n, o, said)
  {
    hide FloodInv, FlightTold, Counted, Latest, GoodSessions;
    assert NodesTold(m.published, m.state[n].nodes);
  }

  /** Flooding converges: after the last announcement of `o`, once none of its copies is in
      flight, every node of a connected mesh stores exactly what it said, if no path from
      `o` without repetition has more than eight links. Others may publish and retell, and
      other packets may be lost, meanwhile. */
  lemma FloodingConverges(m: Mesh, events: seq<Event>, o: NodeId, said: seq<NeighborInfo>, n: NodeId)
    requires Init(m) && Executable(m, events) && LastWord(m, events, o, said)
    requires var f := After(m, events);
             Drained(f, o) && Connected(f.sessions, o) && ShortPaths(f.sessions, o) && n in f.state
    ensures Knows(After(m, events), n, o, said)
  {
    hide Init, Inv, ShortPaths, Connected, Knows, LastWord, Executable, After, Spoken;
    InitInv(m);
    RunKeepsInv(m, events);
    LastWordFloods(m, events, o, said);
    SpokenReaches(After(m, events), n, o, said);
  }

  lemma SpokenReaches(f: Mesh, n: NodeId, o: NodeId, said: seq<NeighborInfo>)
    requires Inv(f) && Spoken(f, o, said) && Drained(f, o) && Connected(f.sessions, o) && n in f.state
    ensures Knows(f, n, o, said)
  {
    hide Inv, Connected, Knows, FloodInv;
    InvSessions(f);
    FloodCompletes(f, o, f.state[o].localSequence - 1);
    HolderKnows(f, n, o, said);
  }

  lemma InvSessions(m: Mesh)
    requires Inv(m)
    ensures m.sessions.Keys == m.state.Keys
  {
  }
}
