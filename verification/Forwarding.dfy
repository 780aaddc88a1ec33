/** The forwarding table, one node's treatment of an outbound message, and what the
    mesh as a whole does with a message once all nodes agree on the topology. */
module Forwarding {
  import opened Base
  import opened ShortestPath
  import opened LinkState
  import opened RouteComputation
  import opened LoopFreedom

  datatype NextHop = NextHop(nodeId: NodeId, cost: u32)
  datatype HopSet = HopSet(hops: set<NextHop>, cost: u32)

  datatype DropReason = NoRoute | TtlExpired
  datatype Decision = Forward(nextHop: NextHop) | Local | Drop(reason: DropReason)

  /** What becomes of a message at one node. */
  datatype Outcome = Delivered | Sent(next: NodeId) | NoSession(next: NodeId) | Dropped(reason: DropReason)

  const DEFAULT_TTL: u8 := 64

  /** The table holds exactly the computed routes, one hop each (besides a possible
      entry for the node itself, which no lookup reaches). */
  ghost predicate Loaded(table: map<NodeId, HopSet>, local: NodeId, routes: map<NodeId, ComputedRoute>) {
    forall dst: NodeId | dst != local ::
      && (dst in table <==> dst in routes)
      && (dst in routes ==>
            var r := routes[dst];
            table[dst] == HopSet({NextHop(r.nextHop, r.totalCost)}, r.totalCost))
  }

  class RoutingTable {
    const localNodeId: NodeId
    var routes: map<NodeId, HopSet>
    var epoch: u32

    constructor (localNodeId: NodeId)
      ensures this.localNodeId == localNodeId && routes == map[] && epoch == 0
      ensures Loaded(routes, localNodeId, map[])
    {
      this.localNodeId := localNodeId;
      routes, epoch := map[], 0;
    }

    method UpdateRoutesFromTopology(computed: map<NodeId, ComputedRoute>)
      modifies this
      ensures Loaded(routes, localNodeId, computed)
      ensures epoch == (old(epoch) + 1) % (U32_MAX + 1)
    {
      routes := map dst | dst in routes && dst == localNodeId :: routes[dst];
      var todo := computed.Keys;
      while todo != {}
        invariant todo <= computed.Keys && epoch == old(epoch)
        invariant forall dst | dst != localNodeId :: dst in routes <==> dst in computed && dst !in todo
        invariant forall dst | dst != localNodeId && dst in routes ::
                    routes[dst] == HopSet({NextHop(computed[dst].nextHop, computed[dst].totalCost)},
                                          computed[dst].totalCost)
        decreases |todo|
      {
        var dst :| dst in todo;
        var hop := NextHop(computed[dst].nextHop, computed[dst].totalCost);
        routes := routes[dst := HopSet({hop}, hop.cost)];
        todo := todo - {dst};
      }
      epoch := (epoch + 1) % (U32_MAX + 1);
    }

    /** Selection among equal-cost hops follows a hash; any member can come out. */
    method Decide(dst: NodeId, ttl: u8, ghost computed: map<NodeId, ComputedRoute>) returns (decision: Decision)
      requires Loaded(routes, localNodeId, computed)
      ensures dst == localNodeId ==> decision == Local
      ensures dst != localNodeId && ttl == 0 ==> decision == Drop(TtlExpired)
      ensures dst != localNodeId && ttl > 0 ==>
                decision == if dst in computed then Forward(NextHop(computed[dst].nextHop, computed[dst].totalCost))
                            else Drop(NoRoute)
    {
      if dst == localNodeId {
        return Local;
      }
      if ttl == 0 {
        return Drop(TtlExpired);
      }
      if dst in routes {
        var hopSet := routes[dst];
        if hopSet.hops == {} {
          return Drop(NoRoute);
        }
        var hop :| hop in hopSet.hops;
        return Forward(hop);
      }
      return Drop(NoRoute);
    }
  }

  /** The treatment of a message for `dst` at `local`, from its routes and sessions. */
  function Handle(local: NodeId, routes: map<NodeId, ComputedRoute>, sessions: set<NodeId>, dst: NodeId): Outcome {
    if dst == local then Delivered
    else if dst !in routes then Dropped(NoRoute)
    else if routes[dst].nextHop in sessions then Sent(routes[dst].nextHop)
    else NoSession(routes[dst].nextHop)
  }

  /** Delivered exactly at the destination, dropped exactly without a route, sent or not
      exactly by whether there is a session to the computed next hop. */
  lemma HandleMeaning(local: NodeId, routes: map<NodeId, ComputedRoute>, sessions: set<NodeId>, dst: NodeId)
    ensures Handle(local, routes, sessions, dst) == Delivered <==> dst == local
    ensures Handle(local, routes, sessions, dst) == Dropped(NoRoute) <==> dst != local && dst !in routes
    ensures forall n :: Handle(local, routes, sessions, dst) == Sent(n) <==>
              dst != local && dst in routes && routes[dst].nextHop == n && n in sessions
    ensures forall n :: Handle(local, routes, sessions, dst) == NoSession(n) <==>
              dst != local && dst in routes && routes[dst].nextHop == n && n !in sessions
  {
  }

  /** The decision is asked for with a fresh TTL at every node, so it never expires. */
  method HandleOutboundMessage(table: RoutingTable, sessions: set<NodeId>, dst: NodeId,
                               ghost computed: map<NodeId, ComputedRoute>)
    returns (outcome: Outcome)
    requires Loaded(table.routes, table.localNodeId, computed)
    ensures outcome == Handle(table.localNodeId, computed, sessions, dst)
    ensures outcome == Delivered <==> dst == table.localNodeId
    ensures outcome == Dropped(NoRoute) <==> dst != table.localNodeId && dst !in computed
    ensures forall n :: outcome == Sent(n) <==>
              dst != table.localNodeId && dst in computed && computed[dst].nextHop == n && n in sessions
    ensures forall n :: outcome == NoSession(n) <==>
              dst != table.localNodeId && dst in computed && computed[dst].nextHop == n && n !in sessions
  {
    if dst == table.localNodeId {
      return Delivered;
    }
    var decision := table.Decide(dst, DEFAULT_TTL, computed);
    match decision
    case Forward(hop) =>
      outcome := if hop.nodeId in sessions then Sent(hop.nodeId) else NoSession(hop.nodeId);
    case Local =>
      outcome := Delivered;
    case Drop(reason) =>
      outcome := Dropped(reason);
  }

  // ---------------------------------------------------------------------------
  // Mesh-wide forwarding

  type Tables = map<NodeId, map<NodeId, ComputedRoute>>

  /** Every node has loaded the routes of the same graph and has sessions to its neighbours. */
  ghost predicate Agreed(g: Graph, tables: Tables, sessions: Sessions) {
    && (forall n | n in tables :: tables[n] == Table(g, n))
    && (forall u, v | Edge(g, u, v) :: u in tables && u in sessions && v in sessions[u])
  }

  /** One step of a message for `d`. */
  ghost predicate PassesOn(tables: Tables, sessions: Sessions, d: NodeId, x: NodeId, n: NodeId) {
    x in tables && x in sessions && Handle(x, tables[x], sessions[x], d) == Sent(n)
  }

  /** What node `x` does with a message for `d`; a node without links has no table to load. */
  function OutcomeAt(tables: Tables, sessions: Sessions, x: NodeId, d: NodeId): Outcome {
    Handle(x, if x in tables then tables[x] else map[], if x in sessions then sessions[x] else {}, d)
  }

  /** The journey of a message for `d`: each node passes it to the next, the last delivers it. */
  ghost predicate Journey(tables: Tables, sessions: Sessions, d: NodeId, p: seq<NodeId>) {
    && |p| > 0 && p[|p| - 1] == d && OutcomeAt(tables, sessions, d, d) == Delivered
    && forall i | 0 <= i < |p| - 1 :: PassesOn(tables, sessions, d, p[i], p[i + 1])
  }

  ghost predicate NoRepeats(p: seq<NodeId>) {
    forall i, j | 0 <= i < j < |p| :: p[i] != p[j]
  }

  /** A routed node passes the message on over a link, to the destination or to another
      routed node. */
  lemma RoutedPassesOn(g: Graph, tables: Tables, sessions: Sessions, d: NodeId, x: NodeId)
    requires Agreed(g, tables, sessions) && x in tables && d in tables[x]
    ensures var n := tables[x][d].nextHop;
            && HopsTo(g, d, x, n) && PassesOn(tables, sessions, d, x, n)
            && (n == d || (n in tables && d in tables[n]))
  {
    hide Table, Far;
    HopDescends(g, x, d);
    var n := tables[x][d].nextHop;
    if n != d {
      HopDescends(g, n, d);
    }
  }

  lemma {:induction false} DistinctWithin(p: seq<NodeId>, nodes: set<NodeId>)
    requires NoRepeats(p) && forall i | 0 <= i < |p| :: p[i] in nodes
    ensures |p| <= |nodes|
    decreases |p|
  {
    if p != [] {
      var last := p[|p| - 1];
      DistinctWithin(p[..|p| - 1], nodes - {last});
    }
  }

  lemma HopsAppend(g: Graph, d: NodeId, p: seq<NodeId>, n: NodeId)
    requires Hops(g, d, p) && HopsTo(g, d, p[|p| - 1], n)
    ensures Hops(g, d, p + [n])
  {
    hide HopsTo;
    var q := p + [n];
    forall i | 0 <= i < |q| - 1
      ensures HopsTo(g, d, q[i], q[i + 1])
    {
      if i < |p| - 1 {
        assert HopsTo(g, d, p[i], p[i + 1]);
      }
    }
  }

  lemma HopsFrom(g: Graph, d: NodeId, p: seq<NodeId>, j: nat)
    requires Hops(g, d, p) && j < |p|
    ensures Hops(g, d, p[j..])
  {
    hide HopsTo;
    forall i | 0 <= i < |p[j..]| - 1
      ensures HopsTo(g, d, p[j..][i], p[j..][i + 1])
    {
      assert HopsTo(g, d, p[j + i], p[j + i + 1]);
    }
  }

  /** The next hop is a node the message has not visited. */
  lemma NextIsNew(g: Graph, d: NodeId, p: seq<NodeId>, n: NodeId)
    requires Hops(g, d, p) && HopsTo(g, d, p[|p| - 1], n) && NoRepeats(p)
    ensures Hops(g, d, p + [n]) && NoRepeats(p + [n])
  {
    hide Hops, HopsTo;
    HopsLength(g, d, p);
    HopsAppend(g, d, p, n);
    forall j | 0 <= j < |p|
      ensures p[j] != n
    {
      HopsFrom(g, d, p + [n], j);
      NoLoop(g, d, (p + [n])[j..]);
    }
  }

  lemma HopsLength(g: Graph, d: NodeId, p: seq<NodeId>)
    requires Hops(g, d, p)
    ensures |p| > 0
  {
  }

  /** Continues a journey to its end. */
  lemma {:induction false} Arrives(g: Graph, tables: Tables, sessions: Sessions, d: NodeId, p: seq<NodeId>)
    returns (q: seq<NodeId>)
    requires Agreed(g, tables, sessions) && |p| > 0 && Hops(g, d, p) && NoRepeats(p)
    requires forall i | 0 <= i < |p| :: p[i] in tables && d in tables[p[i]]
    ensures |q| > 0 && q[0] == p[0] && q[|q| - 1] == d && Hops(g, d, q) && NoRepeats(q)
    ensures forall i | 0 <= i < |q| - 1 :: q[i] in tables && d in tables[q[i]]
    decreases |tables| - |p|
  {
    hide Agreed, Hops, HopsTo, PassesOn, NoRepeats;
    var x := p[|p| - 1];
    RoutedPassesOn(g, tables, sessions, d, x);
    var n := tables[x][d].nextHop;
    NextIsNew(g, d, p, n);
    if n == d {
      q := p + [n];
    } else {
      DistinctWithin(p + [n], tables.Keys);
      q := Arrives(g, tables, sessions, d, p + [n]);
    }
  }

  lemma {:induction false} HopsCost(g: Graph, d: NodeId, q: seq<NodeId>)
    requires |q| > 0 && Hops(g, d, q) && q[|q| - 1] == d
    ensures IsPath(g, q) && PathCost(g, q) == Far(g, q[0], d)
    decreases |q|
  {
    hide Table, Far;
    if |q| == 1 {
      SelfDistance(g, d);
      FarIsDistance(g, d, d);
      DistanceUnique(g, d, d, 0, Far(g, d, d));
    } else {
      assert HopsTo(g, d, q[0], q[0 + 1]);
      HopDescends(g, q[0], d);
      HopsFrom(g, d, q, 1);
      HopsCost(g, d, q[1..]);
      PrependPath(g, q[0], q[1..]);
      assert q == [q[0]] + q[1..];
    }
  }

  lemma RoutedJourney(g: Graph, tables: Tables, sessions: Sessions, d: NodeId, q: seq<NodeId>)
    requires Agreed(g, tables, sessions) && |q| > 0 && Hops(g, d, q) && q[|q| - 1] == d
    requires forall i | 0 <= i < |q| - 1 :: q[i] in tables && d in tables[q[i]]
    ensures Journey(tables, sessions, d, q)
  {
    hide PassesOn, Table;
    forall i | 0 <= i < |q| - 1
      ensures PassesOn(tables, sessions, d, q[i], q[i + 1])
    {
      RoutedPassesOn(g, tables, sessions, d, q[i]);
      assert HopsTo(g, d, q[i], q[i + 1]);
    }
  }

  /** Loop freedom, for all costs: once the nodes agree on the topology, a message for a
      routed destination arrives, over links whose costs add up to the cost the first node
      computed, and no node sees it twice. The wire TTL plays no part. */
  lemma ForwardingDelivers(g: Graph, tables: Tables, sessions: Sessions, x: NodeId, d: NodeId)
    returns (p: seq<NodeId>)
    requires Agreed(g, tables, sessions) && x in tables && d in tables[x]
    ensures Journey(tables, sessions, d, p) && p[0] == x && NoRepeats(p)
    ensures IsPath(g, p) && PathCost(g, p) == tables[x][d].totalCost
    ensures p[|p| - 1] == d && OutcomeAt(tables, sessions, d, d) == Delivered
    ensures forall i | 0 <= i < |p| - 1 :: OutcomeAt(tables, sessions, p[i], d) == Sent(p[i + 1])
  {
    hide Table, Far, Hops, Journey;
    HopsAlone(g, d, x);
    p := Arrives(g, tables, sessions, d, [x]);
    HopsCost(g, d, p);
    RoutedJourney(g, tables, sessions, d, p);
    JourneyOutcomes(tables, sessions, d, p);
    HopDescends(g, x, d);
  }

  lemma JourneyOutcomes(tables: Tables, sessions: Sessions, d: NodeId, p: seq<NodeId>)
    requires Journey(tables, sessions, d, p)
    ensures |p| > 0 && p[|p| - 1] == d && OutcomeAt(tables, sessions, d, d) == Delivered
    ensures forall i | 0 <= i < |p| - 1 :: OutcomeAt(tables, sessions, p[i], d) == Sent(p[i + 1])
  {
    hide Handle;
    forall i | 0 <= i < |p| - 1
      ensures OutcomeAt(tables, sessions, p[i], d) == Sent(p[i + 1])
    {
      assert PassesOn(tables, sessions, d, p[i], p[i + 1]);
    }
  }

  lemma HopsAlone(g: Graph, d: NodeId, x: NodeId)
    ensures Hops(g, d, [x])
  {
  }
}
