/** The link-state protocol of the whole mesh as a transition system: nodes with their
    databases, sessions, and the updates in flight. Every event of the program is a
    transition; frames may be delivered in any order or lost. */
module Flooding {
  import opened Base
  import opened LinkState
  import opened TopologyDatabase

  datatype Packet = Packet(to: NodeId, update: TopologyUpdate)

  datatype NodeState = NodeState(nodes: map<NodeId, NodeInfo>, localSequence: u64)

  datatype Stamp = Stamp(node: NodeId, sequence: u64)

  /** `published` records what each originator announced under each sequence number. */
  datatype Mesh = Mesh(state: map<NodeId, NodeState>, sessions: Sessions, flight: seq<Packet>,
                       published: map<Stamp, map<NodeId, Link>>)

  /** The packets an event sends are part of it, since hash order decides their order.
      A `Publish` at start-up is not announced. */
  datatype Event =
    | Publish(node: NodeId, neighbors: seq<NeighborInfo>, now: u64, announce: bool, sent: seq<Packet>)
    | Receive(i: nat, now: u64, sent: seq<Packet>)
    | Sync(node: NodeId, now: u64, sent: seq<Packet>)
    | Lose(i: nat)
    | Reconnect(sessions: Sessions)

  // ---------------------------------------------------------------------------
  // Transitions

  /** One copy of `update` to each peer. */
  ghost predicate Broadcast(sent: seq<Packet>, peers: set<NodeId>, update: TopologyUpdate) {
    && |sent| == |peers|
    && (forall i | 0 <= i < |sent| :: sent[i].update == update && sent[i].to in peers)
    && (forall t | t in peers :: Packet(t, update) in sent)
  }

  ghost predicate GoodSessions(sessions: Sessions, nodes: set<NodeId>) {
    sessions.Keys == nodes && forall n | n in sessions :: sessions[n] <= nodes
  }

  function Announcement(m: Mesh, n: NodeId, neighbors: seq<NeighborInfo>, now: u64): TopologyUpdate
    requires n in m.state
  {
    TopologyUpdate(n, m.state[n].localSequence, neighbors, DEFAULT_TOPOLOGY_TTL, now)
  }

  /** Whether a received update is passed on, and with which TTL. */
  predicate Forwards(m: Mesh, p: Packet, now: u64)
    requires p.to in m.state
  {
    Accepts(m.state[p.to].nodes, p.update, now) && p.update.ttl > 1
  }

  /** Sequence counters stay below 2^63: fewer than 2^63 updates per originator. */
  ghost predicate Enabled(m: Mesh, e: Event) {
    match e
    case Publish(n, neighbors, now, announce, sent) =>
      && n in m.state && n in m.sessions && m.state[n].localSequence + 1 < HALF
      && (if announce then Broadcast(sent, m.sessions[n], Announcement(m, n, neighbors, now)) else sent == [])
    case Receive(i, now, sent) =>
      && i < |m.flight| && m.flight[i].to in m.state && m.flight[i].to in m.sessions
      && var p := m.flight[i];
         (if Forwards(m, p, now) then Broadcast(sent, m.sessions[p.to], p.update.(ttl := p.update.ttl - 1))
          else sent == [])
    case Sync(n, now, sent) =>
      && n in m.state && n in m.sessions
      && (forall p | p in sent ::
            var o := p.update.originatorNode;
            p.to in m.sessions[n] && o != n && o in m.state[n].nodes
            && Retells(p.update, o, m.state[n].nodes[o], now))
    case Lose(i) => i < |m.flight|
    case Reconnect(sessions) => GoodSessions(sessions, m.state.Keys)
  }

  function Without(s: seq<Packet>, i: nat): seq<Packet>
    requires i < |s|
  {
    s[..i] + s[i + 1..]
  }

  ghost function Apply(m: Mesh, e: Event): Mesh
    requires Enabled(m, e)
  {
    match e
    case Publish(n, neighbors, now, announce, sent) =>
      var st := m.state[n];
      var st' := NodeState(st.nodes[n := Record(n, st.localSequence, neighbors, now)],
                           (st.localSequence + 1) % U64_MODULUS);
      m.(state := m.state[n := st'], flight := m.flight + sent,
         published := m.published[Stamp(n, st.localSequence) := Advertised(neighbors)])
    case Receive(i, now, sent) =>
      var p := m.flight[i];
      var st := m.state[p.to];
      m.(state := m.state[p.to := st.(nodes := Process(st.nodes, p.update, now))],
         flight := Without(m.flight, i) + sent)
    case Sync(n, now, sent) => m.(flight := m.flight + sent)
    case Lose(i) => m.(flight := Without(m.flight, i))
    case Reconnect(sessions) => m.(sessions := sessions)
  }

  /** A run: events applied one after the other, each enabled when it happens. */
  ghost predicate Executable(m: Mesh, events: seq<Event>)
    decreases |events|
  {
    events == [] || (Enabled(m, events[0]) && Executable(Apply(m, events[0]), events[1..]))
  }

  ghost function After(m: Mesh, events: seq<Event>): Mesh
    requires Executable(m, events)
    decreases |events|
  {
    if events == [] then m else After(Apply(m, events[0]), events[1..])
  }

  ghost predicate Init(m: Mesh) {
    && m.flight == [] && m.published == map[] && GoodSessions(m.sessions, m.state.Keys)
    && forall n | n in m.state :: m.state[n] == NodeState(map[], 1)
  }

  /** Every field of an announcement. */
  lemma AnnouncementFields(m: Mesh, n: NodeId, neighbors: seq<NeighborInfo>, now: u64)
    requires n in m.state
    ensures var u := Announcement(m, n, neighbors, now);
            && u.originatorNode == n && u.sequenceNumber == m.state[n].localSequence
            && u.neighbors == neighbors && u.ttl == 8 && u.timestamp == now
  {
  }

  /** An update that arrives more than 300 seconds after it was stamped has no effect. */
  lemma LateUpdateIgnored(m: Mesh, e: Event)
    requires e.Receive? && Enabled(m, e) && e.now > m.flight[e.i].update.timestamp + 300
    ensures Apply(m, e).state == m.state && e.sent == []
  {
    var p := m.flight[e.i];
    AcceptsIff(m.state[p.to].nodes, p.update, e.now);
    assert m.state[p.to := m.state[p.to].(nodes := m.state[p.to].nodes)] == m.state;
  }

  /** One that arrives in time and is new to the receiver is stored, and passed on to all
      peers with one hop less if it has two or more. */
  lemma TimelyNewsStored(m: Mesh, e: Event)
    requires e.Receive? && Enabled(m, e) && e.now <= m.flight[e.i].update.timestamp + 300
    requires var p := m.flight[e.i];
             p.update.originatorNode in m.state[p.to].nodes ==>
               SerialGreater(p.update.sequenceNumber, m.state[p.to].nodes[p.update.originatorNode].sequenceNumber)
    ensures var p, m' := m.flight[e.i], Apply(m, e);
            && p.update.originatorNode in m'.state[p.to].nodes
            && (var info := m'.state[p.to].nodes[p.update.originatorNode];
                && info.sequenceNumber == p.update.sequenceNumber && info.lastUpdated == e.now
                && LinksOf(info.neighbors) == Advertised(p.update.neighbors))
            && (p.update.ttl > 1 ==> Broadcast(e.sent, m.sessions[p.to], p.update.(ttl := p.update.ttl - 1)))
            && (p.update.ttl <= 1 ==> e.sent == [])
  {
    var p := m.flight[e.i];
    AcceptsIff(m.state[p.to].nodes, p.update, e.now);
    RecordFields(p.update.originatorNode, p.update.sequenceNumber, p.update.neighbors, e.now);
  }

  /** What a node retells is stamped anew, with TTL 7 and the stored number and links. */
  lemma RetoldAnew(m: Mesh, e: Event, p: Packet)
    requires e.Sync? && Enabled(m, e) && p in e.sent
    ensures var o := p.update.originatorNode;
            && o != e.node && o in m.state[e.node].nodes
            && p.update.timestamp == e.now && p.update.ttl == 7
            && p.update.sequenceNumber == m.state[e.node].nodes[o].sequenceNumber
            && Advertised(p.update.neighbors) == LinksOf(m.state[e.node].nodes[o].neighbors)
  {
  }

  // ---------------------------------------------------------------------------
  // Agreement

  type Published = map<Stamp, map<NodeId, Link>>

  ghost predicate Told(published: Published, o: NodeId, sequence: u64, links: map<NodeId, Link>) {
    Stamp(o, sequence) in published && published[Stamp(o, sequence)] == links
  }

  /** A database holds only what originators published. */
  ghost predicate NodesTold(published: Published, nodes: map<NodeId, NodeInfo>) {
    forall o | o in nodes ::
      nodes[o].nodeId == o && Told(published, o, nodes[o].sequenceNumber, LinksOf(nodes[o].neighbors))
  }

  ghost predicate StoredTold(published: Published, state: map<NodeId, NodeState>) {
    forall n | n in state :: NodesTold(published, state[n].nodes)
  }

  ghost predicate UpdateTold(published: Published, u: TopologyUpdate) {
    Told(published, u.originatorNode, u.sequenceNumber, Advertised(u.neighbors))
  }

  /** Updates in flight carry only what originators published. */
  ghost predicate FlightTold(published: Published, nodes: set<NodeId>, flight: seq<Packet>) {
    forall p | p in flight :: p.to in nodes && UpdateTold(published, p.update)
  }

  /** Published sequence numbers are below the counter of their originator. */
  ghost predicate Counted(published: Published, state: map<NodeId, NodeState>) {
    forall st | st in published :: st.node in state && 1 <= st.sequence < state[st.node].localSequence
  }

  /** A node's own record is its latest publication. */
  ghost predicate OwnLatest(n: NodeId, st: NodeState) {
    && 1 <= st.localSequence < HALF
    && (st.localSequence > 1 ==> n in st.nodes && st.nodes[n].sequenceNumber == st.localSequence - 1)
  }

  ghost predicate Latest(state: map<NodeId, NodeState>) {
    forall n | n in state :: OwnLatest(n, state[n])
  }

  ghost predicate Inv(m: Mesh) {
    && GoodSessions(m.sessions, m.state.Keys)
    && StoredTold(m.published, m.state)
    && FlightTold(m.published, m.state.Keys, m.flight)
    && Counted(m.published, m.state)
    && Latest(m.state)
  }

  /** Below 2^63 serial numbers compare like numbers. */
  lemma NewerBelowHalf(a: u64, b: u64)
    requires a < HALF && b < HALF
    ensures IsNewerThan(a, b) <==> a > b
  {
    NewerIsSerialGreater(a, b);
  }

  ghost predicate Extends(published: Published, published': Published) {
    forall st | st in published :: st in published' && published'[st] == published[st]
  }

  lemma ToldExtends(published: Published, published': Published, state: map<NodeId, NodeState>,
                    nodes: set<NodeId>, flight: seq<Packet>)
    requires Extends(published, published')
    requires StoredTold(published, state) && FlightTold(published, nodes, flight)
    ensures StoredTold(published', state) && FlightTold(published', nodes, flight)
  {
  }

  lemma RecordTold(published: Published, nodes: map<NodeId, NodeInfo>, o: NodeId, sequence: u64,
                   neighbors: seq<NeighborInfo>, now: u64)
    requires NodesTold(published, nodes) && Told(published, o, sequence, Advertised(neighbors))
    ensures NodesTold(published, nodes[o := Record(o, sequence, neighbors, now)])
  {
    LearnKeepsLinks(neighbors, now);
  }

  lemma FlightGrows(published: Published, nodes: set<NodeId>, flight: seq<Packet>, sent: seq<Packet>)
    requires FlightTold(published, nodes, flight) && FlightTold(published, nodes, sent)
    ensures FlightTold(published, nodes, flight + sent)
  {
  }

  lemma FlightShrinks(published: Published, nodes: set<NodeId>, flight: seq<Packet>, i: nat)
    requires FlightTold(published, nodes, flight) && i < |flight|
    ensures FlightTold(published, nodes, Without(flight, i))
  {
  }

  lemma BroadcastTold(published: Published, nodes: set<NodeId>, sent: seq<Packet>, peers: set<NodeId>,
                      u: TopologyUpdate)
    requires Broadcast(sent, peers, u) && peers <= nodes && UpdateTold(published, u)
    ensures FlightTold(published, nodes, sent)
  {
  }

  lemma StoredUpdate(published: Published, state: map<NodeId, NodeState>, n: NodeId, st: NodeState)
    requires StoredTold(published, state) && NodesTold(published, st.nodes)
    ensures StoredTold(published, state[n := st])
  {
  }

  lemma PublishKeepsStored(m: Mesh, e: Event)
    requires StoredTold(m.published, m.state) && e.Publish? && Enabled(m, e)
    requires Extends(m.published, Apply(m, e).published)
    ensures StoredTold(Apply(m, e).published, Apply(m, e).state)
  {
    var m', n := Apply(m, e), e.node;
    ToldExtends(m.published, m'.published, m.state, {}, []);
    RecordTold(m'.published, m.state[n].nodes, n, m.state[n].localSequence, e.neighbors, e.now);
    StoredUpdate(m'.published, m.state, n, m'.state[n]);
  }

  lemma PublishKeepsFlight(m: Mesh, e: Event)
    requires FlightTold(m.published, m.state.Keys, m.flight) && GoodSessions(m.sessions, m.state.Keys)
    requires e.Publish? && Enabled(m, e) && Extends(m.published, Apply(m, e).published)
    ensures FlightTold(Apply(m, e).published, m.state.Keys, Apply(m, e).flight)
  {
    var m', n := Apply(m, e), e.node;
    ToldExtends(m.published, m'.published, map[], m.state.Keys, m.flight);
    if e.announce {
      BroadcastTold(m'.published, m.state.Keys, e.sent, m.sessions[n], Announcement(m, n, e.neighbors, e.now));
    }
    FlightGrows(m'.published, m.state.Keys, m.flight, e.sent);
  }

  lemma PublishExtends(m: Mesh, e: Event)
    requires Counted(m.published, m.state) && e.Publish? && Enabled(m, e)
    ensures Extends(m.published, Apply(m, e).published)
  {
    assert Stamp(e.node, m.state[e.node].localSequence) !in m.published;
  }

  lemma PublishKeepsInv(m: Mesh, e: Event)
    requires Inv(m) && e.Publish? && Enabled(m, e)
    ensures Inv(Apply(m, e))
  {
    hide StoredTold, FlightTold, Counted, Latest, Broadcast, Extends;
    var m' := Apply(m, e);
    PublishExtends(m, e);
    assert m'.state.Keys == m.state.Keys;
    PublishKeepsStored(m, e);
    PublishKeepsFlight(m, e);
    PublishCounts(m, e);
  }

  lemma PublishCounts(m: Mesh, e: Event)
    requires Counted(m.published, m.state) && Latest(m.state) && e.Publish? && Enabled(m, e)
    ensures Counted(Apply(m, e).published, Apply(m, e).state) && Latest(Apply(m, e).state)
  {
    var m', n := Apply(m, e), e.node;
    assert OwnLatest(n, m.state[n]);
    assert m'.state[n].localSequence == m.state[n].localSequence + 1;
  }

  /** Receiving never replaces a node's own record. */
  lemma ProcessKeepsOwn(published: Published, state: map<NodeId, NodeState>, p: Packet, now: u64)
    requires Counted(published, state) && Latest(state) && p.to in state && UpdateTold(published, p.update)
    ensures OwnLatest(p.to, state[p.to].(nodes := Process(state[p.to].nodes, p.update, now)))
  {
    var st := state[p.to];
    assert OwnLatest(p.to, st);
    if p.update.originatorNode == p.to {
      assert Stamp(p.to, p.update.sequenceNumber) in published;
      NewerBelowHalf(p.update.sequenceNumber, st.nodes[p.to].sequenceNumber);
    }
  }

  lemma ReceiveKeepsStored(m: Mesh, e: Event)
    requires StoredTold(m.published, m.state) && FlightTold(m.published, m.state.Keys, m.flight)
    requires e.Receive? && Enabled(m, e)
    ensures StoredTold(m.published, Apply(m, e).state)
  {
    var m', p := Apply(m, e), m.flight[e.i];
    assert p in m.flight;
    RecordTold(m.published, m.state[p.to].nodes, p.update.originatorNode, p.update.sequenceNumber,
               p.update.neighbors, e.now);
    StoredUpdate(m.published, m.state, p.to, m'.state[p.to]);
  }

  lemma ReceiveKeepsFlight(m: Mesh, e: Event)
    requires FlightTold(m.published, m.state.Keys, m.flight) && GoodSessions(m.sessions, m.state.Keys)
    requires e.Receive? && Enabled(m, e)
    ensures FlightTold(m.published, m.state.Keys, Apply(m, e).flight)
  {
    var p := m.flight[e.i];
    assert p in m.flight;
    FlightShrinks(m.published, m.state.Keys, m.flight, e.i);
    if Forwards(m, p, e.now) {
      BroadcastTold(m.published, m.state.Keys, e.sent, m.sessions[p.to], p.update.(ttl := p.update.ttl - 1));
    }
    FlightGrows(m.published, m.state.Keys, Without(m.flight, e.i), e.sent);
  }

  lemma ReceiveCounts(m: Mesh, e: Event)
    requires Counted(m.published, m.state) && Latest(m.state)
    requires FlightTold(m.published, m.state.Keys, m.flight) && e.Receive? && Enabled(m, e)
    ensures Counted(m.published, Apply(m, e).state) && Latest(Apply(m, e).state)
  {
    assert m.flight[e.i] in m.flight;
    ProcessKeepsOwn(m.published, m.state, m.flight[e.i], e.now);
  }

  lemma ReceiveKeepsInv(m: Mesh, e: Event)
    requires Inv(m) && e.Receive? && Enabled(m, e)
    ensures Inv(Apply(m, e))
  {
    assert Apply(m, e).state.Keys == m.state.Keys;
    ReceiveKeepsStored(m, e);
    ReceiveKeepsFlight(m, e);
    ReceiveCounts(m, e);
  }

  lemma SyncKeepsInv(m: Mesh, e: Event)
    requires Inv(m) && e.Sync? && Enabled(m, e)
    ensures Inv(Apply(m, e))
  {
    assert NodesTold(m.published, m.state[e.node].nodes);
    assert m.sessions[e.node] <= m.state.Keys;
    FlightGrows(m.published, m.state.Keys, m.flight, e.sent);
  }

  lemma StepKeepsInv(m: Mesh, e: Event)
    requires Inv(m) && Enabled(m, e)
    ensures Inv(Apply(m, e))
  {
    match e
    case Publish(_, _, _, _, _) => PublishKeepsInv(m, e);
    case Receive(_, _, _) => ReceiveKeepsInv(m, e);
    case Sync(_, _, _) => SyncKeepsInv(m, e);
    case Lose(i) => FlightShrinks(m.published, m.state.Keys, m.flight, i);
    case Reconnect(_) =>
  }

  lemma InitInv(m: Mesh)
    requires Init(m)
    ensures Inv(m)
  {
    assert forall n | n in m.state :: OwnLatest(n, m.state[n]);
  }

  lemma {:induction false} RunKeepsInv(m: Mesh, events: seq<Event>)
    requires Inv(m) && Executable(m, events)
    ensures Inv(After(m, events))
    decreases |events|
  {
    if events != [] {
      StepKeepsInv(m, events[0]);
      RunKeepsInv(Apply(m, events[0]), events[1..]);
    }
  }

  // ---------------------------------------------------------------------------
  // Runs

  lemma RunCons(m: Mesh, e: Event, rest: seq<Event>)
    requires Enabled(m, e) && Executable(Apply(m, e), rest)
    ensures Executable(m, [e] + rest) && After(m, [e] + rest) == After(Apply(m, e), rest)
  {
    hide Enabled, Apply;
    assert ([e] + rest)[0] == e && ([e] + rest)[1..] == rest;
  }

  /** What was published stays published. */
  lemma StepExtends(m: Mesh, e: Event)
    requires Inv(m) && Enabled(m, e)
    ensures Extends(m.published, Apply(m, e).published)
  {
    hide GoodSessions, StoredTold, FlightTold, Latest, Broadcast;
    if e.Publish? {
      PublishExtends(m, e);
    }
  }

  lemma {:induction false} RunExtends(m: Mesh, events: seq<Event>)
    requires Inv(m) && Executable(m, events)
    ensures Extends(m.published, After(m, events).published)
    decreases |events|
  {
    hide Inv, Enabled, Apply;
    if events != [] {
      StepExtends(m, events[0]);
      StepKeepsInv(m, events[0]);
      RunExtends(Apply(m, events[0]), events[1..]);
    }
  }

  /** Agreement: in every run, two nodes that store the same sequence number for an
      originator store the same links, namely those it published under that number. */
  lemma DatabasesAgree(m: Mesh, events: seq<Event>, a: NodeId, b: NodeId, o: NodeId)
    requires Init(m) && Executable(m, events)
    requires var f := After(m, events);
             && a in f.state && b in f.state && o in f.state[a].nodes && o in f.state[b].nodes
             && f.state[a].nodes[o].sequenceNumber == f.state[b].nodes[o].sequenceNumber
    ensures var f := After(m, events);
            && LinksOf(f.state[a].nodes[o].neighbors) == LinksOf(f.state[b].nodes[o].neighbors)
            && Told(f.published, o, f.state[a].nodes[o].sequenceNumber, LinksOf(f.state[a].nodes[o].neighbors))
  {
    InitInv(m);
    RunKeepsInv(m, events);
    var f := After(m, events);
    assert NodesTold(f.published, f.state[a].nodes) && NodesTold(f.published, f.state[b].nodes);
  }

  // ---------------------------------------------------------------------------
  // Progress of stored sequence numbers

  /** Records never disappear and their sequence numbers never go back. */
  ghost predicate Forward(m: Mesh, m': Mesh) {
    forall n, o | n in m.state && o in m.state[n].nodes ::
      && n in m'.state && o in m'.state[n].nodes
      && m.state[n].nodes[o].sequenceNumber <= m'.state[n].nodes[o].sequenceNumber
  }

  lemma StoredBelowHalf(m: Mesh, n: NodeId, o: NodeId)
    requires Inv(m) && n in m.state && o in m.state[n].nodes
    ensures o in m.state && m.state[n].nodes[o].sequenceNumber < m.state[o].localSequence < HALF
  {
    assert NodesTold(m.published, m.state[n].nodes);
    assert Stamp(o, m.state[n].nodes[o].sequenceNumber) in m.published;
    assert OwnLatest(o, m.state[o]);
  }

  lemma ProcessForward(nodes: map<NodeId, NodeInfo>, u: TopologyUpdate, now: u64, o: NodeId)
    requires o in nodes && nodes[o].sequenceNumber < HALF && u.sequenceNumber < HALF
    ensures o in Process(nodes, u, now)
    ensures nodes[o].sequenceNumber <= Process(nodes, u, now)[o].sequenceNumber
  {
    if u.originatorNode == o {
      NewerBelowHalf(u.sequenceNumber, nodes[o].sequenceNumber);
    }
  }

  lemma FlightBelowHalf(m: Mesh, i: nat)
    requires Inv(m) && i < |m.flight|
    ensures var u := m.flight[i].update;
            && u.originatorNode in m.state
            && 1 <= u.sequenceNumber < m.state[u.originatorNode].localSequence < HALF
  {
    assert m.flight[i] in m.flight;
    var u := m.flight[i].update;
    assert Stamp(u.originatorNode, u.sequenceNumber) in m.published;
    assert OwnLatest(u.originatorNode, m.state[u.originatorNode]);
  }

  lemma RecordForward(m: Mesh, e: Event, n: NodeId, o: NodeId)
    requires Enabled(m, e) && n in m.state && o in m.state[n].nodes
    requires o in m.state && m.state[n].nodes[o].sequenceNumber < m.state[o].localSequence < HALF
    requires e.Receive? ==> m.flight[e.i].update.sequenceNumber < HALF
    ensures var m' := Apply(m, e);
            && n in m'.state && o in m'.state[n].nodes
            && m.state[n].nodes[o].sequenceNumber <= m'.state[n].nodes[o].sequenceNumber
  {
    if e.Receive? {
      ProcessForward(m.state[n].nodes, m.flight[e.i].update, e.now, o);
    }
  }

  lemma StepForward(m: Mesh, e: Event)
    requires Inv(m) && Enabled(m, e)
    ensures Forward(m, Apply(m, e))
  {
    forall n, o | n in m.state && o in m.state[n].nodes
      ensures var m' := Apply(m, e);
              && n in m'.state && o in m'.state[n].nodes
              && m.state[n].nodes[o].sequenceNumber <= m'.state[n].nodes[o].sequenceNumber
    {
      StoredBelowHalf(m, n, o);
      if e.Receive? {
        FlightBelowHalf(m, e.i);
      }
      RecordForward(m, e, n, o);
    }
  }

  lemma {:induction false} RunForward(m: Mesh, events: seq<Event>)
    requires Inv(m) && Executable(m, events)
    ensures Forward(m, After(m, events))
    decreases |events|
  {
    if events != [] {
      StepForward(m, events[0]);
      StepKeepsInv(m, events[0]);
      RunForward(Apply(m, events[0]), events[1..]);
    }
  }

  // ---------------------------------------------------------------------------
  // Termination

  function Pow(b: nat, n: nat): nat {
    if n == 0 then 1 else b * Pow(b, n - 1)
  }

  lemma {:induction false} PowPositive(b: nat, n: nat)
    requires b > 0
    ensures Pow(b, n) > 0
  {
    if n > 0 {
      PowPositive(b, n - 1);
    }
  }

  /** The work an update in flight can still cause in a mesh of degree at most `degree`. */
  function Weight(flight: seq<Packet>, degree: nat): nat {
    if flight == [] then 0
    else Weight(flight[..|flight| - 1], degree) + Pow(degree + 1, flight[|flight| - 1].update.ttl)
  }

  lemma {:induction false} WeightConcat(a: seq<Packet>, b: seq<Packet>, degree: nat)
    ensures Weight(a + b, degree) == Weight(a, degree) + Weight(b, degree)
  {
    if b == [] {
      assert a + b == a;
    } else {
      WeightConcat(a, b[..|b| - 1], degree);
      assert (a + b)[..|a + b| - 1] == a + b[..|b| - 1];
    }
  }

  lemma WeightWithout(flight: seq<Packet>, i: nat, degree: nat)
    requires i < |flight|
    ensures Weight(flight, degree) == Weight(Without(flight, i), degree) + Pow(degree + 1, flight[i].update.ttl)
  {
    WeightConcat(flight[..i], flight[i + 1..], degree);
    WeightConcat(flight[..i + 1], flight[i + 1..], degree);
    assert flight == flight[..i + 1] + flight[i + 1..];
    assert flight[..i + 1][..i] == flight[..i];
  }

  lemma {:induction false} WeightUniform(sent: seq<Packet>, ttl: nat, degree: nat)
    requires forall i | 0 <= i < |sent| :: sent[i].update.ttl == ttl
    ensures Weight(sent, degree) == |sent| * Pow(degree + 1, ttl)
  {
    if sent != [] {
      WeightUniform(sent[..|sent| - 1], ttl, degree);
    }
  }

  ghost predicate DegreeAtMost(sessions: Sessions, degree: nat) {
    forall n | n in sessions :: |sessions[n]| <= degree
  }

  lemma FewerCopiesWeighLess(n: nat, degree: nat, w: nat)
    requires n <= degree && w > 0
    ensures n * w < (degree + 1) * w
  {
    assert (degree + 1 - n) * w > 0;
  }

  lemma BroadcastWeight(sent: seq<Packet>, peers: set<NodeId>, u: TopologyUpdate, degree: nat)
    requires Broadcast(sent, peers, u) && |peers| <= degree
    ensures Weight(sent, degree) < Pow(degree + 1, u.ttl + 1)
  {
    WeightUniform(sent, u.ttl, degree);
    var w := Pow(degree + 1, u.ttl);
    PowPositive(degree + 1, u.ttl);
    FewerCopiesWeighLess(|sent|, degree, w);
  }

  /** Delivering an update uses up more work than passing it on creates, whether the
      update is accepted or not. */
  lemma ReceiveLightens(m: Mesh, e: Event, degree: nat)
    requires e.Receive? && Enabled(m, e) && DegreeAtMost(m.sessions, degree)
    ensures Weight(Apply(m, e).flight, degree) < Weight(m.flight, degree)
  {
    var p := m.flight[e.i];
    WeightWithout(m.flight, e.i, degree);
    WeightConcat(Without(m.flight, e.i), e.sent, degree);
    if Forwards(m, p, e.now) {
      BroadcastWeight(e.sent, m.sessions[p.to], p.update.(ttl := p.update.ttl - 1), degree);
    } else {
      PowPositive(degree + 1, p.update.ttl);
    }
  }

  lemma LoseLightens(m: Mesh, e: Event, degree: nat)
    requires e.Lose? && Enabled(m, e)
    ensures Weight(Apply(m, e).flight, degree) < Weight(m.flight, degree)
  {
    WeightWithout(m.flight, e.i, degree);
    PowPositive(degree + 1, m.flight[e.i].update.ttl);
  }

  /** Flooding terminates: without new updates, at most `Weight` events can happen. */
  lemma {:induction false} FloodingTerminates(m: Mesh, events: seq<Event>, degree: nat)
    requires Executable(m, events) && DegreeAtMost(m.sessions, degree)
    requires forall e | e in events :: e.Receive? || e.Lose?
    ensures |events| <= Weight(m.flight, degree)
    decreases |events|
  {
    if events != [] {
      var e := events[0];
      assert e in events;
      if e.Receive? {
        ReceiveLightens(m, e, degree);
      } else {
        LoseLightens(m, e, degree);
      }
      FloodingTerminates(Apply(m, e), events[1..], degree);
    }
  }
}
