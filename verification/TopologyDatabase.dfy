/** One node's link-state database. The class keeps the node map, the local sequence
    counter and a route table that is always correct for the node map. Clock readings
    are parameters. */
module TopologyDatabase {
  import opened Base
  import opened LinkState
  import opened RouteComputation

  // ---------------------------------------------------------------------------
  // The effect of updates on node maps, as values

  /** The neighbour records a list of neighbours leaves behind at time `now`. */
  function Learn(neighbors: seq<NeighborInfo>, now: u64): map<NodeId, LinkInfo> {
    var links := Advertised(neighbors);
    map v | v in links :: LinkInfo(links[v].cost, links[v].addr, now)
  }

  function Record(originator: NodeId, sequence: u64, neighbors: seq<NeighborInfo>, now: u64): NodeInfo {
    NodeInfo(originator, sequence, now, Learn(neighbors, now))
  }

  lemma LearnKeepsLinks(neighbors: seq<NeighborInfo>, now: u64)
    ensures LinksOf(Learn(neighbors, now)) == Advertised(neighbors)
  {
  }

  function SaturatingSub(a: u64, b: u64): u64 {
    if a < b then 0 else a - b
  }

  predicate Fresh(update: TopologyUpdate, now: u64) {
    SaturatingSub(now, update.timestamp) <= MAX_TOPOLOGY_AGE_SECS
  }

  predicate Accepts(nodes: map<NodeId, NodeInfo>, update: TopologyUpdate, now: u64) {
    && Fresh(update, now)
    && (update.originatorNode in nodes ==>
          IsNewerThan(update.sequenceNumber, nodes[update.originatorNode].sequenceNumber))
  }

  /** An update is taken if it is at most 300 seconds old, stamps from the future included,
      and serially newer than what is stored. */
  lemma AcceptsIff(nodes: map<NodeId, NodeInfo>, update: TopologyUpdate, now: u64)
    ensures Accepts(nodes, update, now) <==>
              && now <= update.timestamp + 300
              && (update.originatorNode in nodes ==>
                    SerialGreater(update.sequenceNumber, nodes[update.originatorNode].sequenceNumber))
  {
    if update.originatorNode in nodes {
      NewerIsSerialGreater(update.sequenceNumber, nodes[update.originatorNode].sequenceNumber);
    }
  }

  /** Every field of a stored record. */
  lemma RecordFields(originator: NodeId, sequence: u64, neighbors: seq<NeighborInfo>, now: u64)
    ensures var info := Record(originator, sequence, neighbors, now);
            && info.nodeId == originator && info.sequenceNumber == sequence && info.lastUpdated == now
            && LinksOf(info.neighbors) == Advertised(neighbors)
            && forall v | v in info.neighbors :: info.neighbors[v].lastSeen == now
  {
    LearnKeepsLinks(neighbors, now);
  }

  function Process(nodes: map<NodeId, NodeInfo>, update: TopologyUpdate, now: u64): map<NodeId, NodeInfo> {
    if Accepts(nodes, update, now) then
      nodes[update.originatorNode :=
        Record(update.originatorNode, update.sequenceNumber, update.neighbors, now)]
    else nodes
  }

  /** `update` carries the record of `info` on to other nodes. */
  predicate Retells(update: TopologyUpdate, o: NodeId, info: NodeInfo, now: u64) {
    && update.originatorNode == o
    && update.sequenceNumber == info.sequenceNumber
    && Advertised(update.neighbors) == LinksOf(info.neighbors)
    && update.ttl == DEFAULT_TOPOLOGY_TTL - 1
    && update.timestamp == now
  }

  // ---------------------------------------------------------------------------
  // The database

  class TopologyDatabase {
    const localNodeId: NodeId
    var nodes: map<NodeId, NodeInfo>
    var routes: map<NodeId, ComputedRoute>
    var localSequence: u64

    ghost predicate Valid()
      reads this
    {
      routes == Table(CostGraph(nodes), localNodeId)
    }

    constructor (localNodeId: NodeId)
      ensures Valid() && this.localNodeId == localNodeId
      ensures nodes == map[] && localSequence == 1
    {
      this.localNodeId := localNodeId;
      nodes := map[];
      localSequence := 1;
      routes := map[];
      NoLinksNoRoutes(localNodeId);
    }

    method NextSequenceNumber() returns (sequence: u64)
      modifies this`localSequence
      ensures sequence == old(localSequence)
      ensures localSequence == (old(localSequence) + 1) % U64_MODULUS
    {
      sequence := localSequence;
      localSequence := (localSequence + 1) % U64_MODULUS;
    }

    method UpdateLocalNeighbors(neighbors: seq<NeighborInfo>, now: u64) returns (update: TopologyUpdate)
      modifies this
      ensures Valid()
      ensures nodes == old(nodes)[localNodeId := Record(localNodeId, old(localSequence), neighbors, now)]
      ensures localSequence == (old(localSequence) + 1) % U64_MODULUS
      ensures update == TopologyUpdate(localNodeId, old(localSequence), neighbors, DEFAULT_TOPOLOGY_TTL, now)
    {
      var sequence := NextSequenceNumber();
      var neighborMap := CollectNeighbors(neighbors, now);
      nodes := nodes[localNodeId := NodeInfo(localNodeId, sequence, now, neighborMap)];
      ComputeRoutes();
      update := TopologyUpdate(localNodeId, sequence, neighbors, DEFAULT_TOPOLOGY_TTL, now);
    }

    method ProcessTopologyUpdate(update: TopologyUpdate, now: u64) returns (accepted: bool)
      requires Valid()
      modifies this`nodes, this`routes
      ensures Valid()
      ensures accepted <==>
                && now <= update.timestamp + 300
                && (update.originatorNode in old(nodes) ==>
                      SerialGreater(update.sequenceNumber, old(nodes)[update.originatorNode].sequenceNumber))
      ensures nodes == Process(old(nodes), update, now)
      ensures nodes == if accepted
                       then old(nodes)[update.originatorNode :=
                              Record(update.originatorNode, update.sequenceNumber, update.neighbors, now)]
                       else old(nodes)
      ensures !accepted ==> routes == old(routes)
    {
      AcceptsIff(nodes, update, now);
      if SaturatingSub(now, update.timestamp) > MAX_TOPOLOGY_AGE_SECS {
        return false;
      }
      if update.originatorNode in nodes {
        var existing := nodes[update.originatorNode];
        if !IsNewerThan(update.sequenceNumber, existing.sequenceNumber) {
          return false;
        }
      }
      var neighborMap := CollectNeighbors(update.neighbors, now);
      nodes := nodes[update.originatorNode :=
        NodeInfo(update.originatorNode, update.sequenceNumber, now, neighborMap)];
      ComputeRoutes();
      accepted := true;
    }

    method ComputeRoutes()
      modifies this`routes
      ensures Valid()
    {
      routes := map[];
      var computed := RouteComputation.ComputeRoutes(nodes, localNodeId);
      routes := computed;
    }

    /** Everything known about other nodes, in the order of some hash iteration. */
    method GetAllTopologyUpdates(now: u64) returns (updates: seq<TopologyUpdate>)
      ensures forall i | 0 <= i < |updates| ::
                var o := updates[i].originatorNode;
                o in nodes && o != localNodeId && Retells(updates[i], o, nodes[o], now)
      ensures forall i | 0 <= i < |updates| :: updates[i].timestamp == now && updates[i].ttl == 7
      ensures forall o | o in nodes && o != localNodeId ::
                exists i :: 0 <= i < |updates| && updates[i].originatorNode == o
      ensures forall i, j | 0 <= i < j < |updates| :: updates[i].originatorNode != updates[j].originatorNode
    {
      updates := [];
      var todo := nodes.Keys;
      while todo != {}
        invariant todo <= nodes.Keys
        invariant forall i | 0 <= i < |updates| ::
                    var o := updates[i].originatorNode;
                    o in nodes && o !in todo && o != localNodeId && Retells(updates[i], o, nodes[o], now)
        invariant forall i | 0 <= i < |updates| :: updates[i].timestamp == now && updates[i].ttl == 7
        invariant forall o | o in nodes && o !in todo && o != localNodeId ::
                    exists i :: 0 <= i < |updates| && updates[i].originatorNode == o
        invariant forall i, j | 0 <= i < j < |updates| :: updates[i].originatorNode != updates[j].originatorNode
        decreases |todo|
      {
        var nodeId :| nodeId in todo;
        if nodeId != localNodeId {
          var neighbors := ListNeighbors(nodes[nodeId].neighbors);
          ghost var before := updates;
          updates := updates +
            [TopologyUpdate(nodeId, nodes[nodeId].sequenceNumber, neighbors, DEFAULT_TOPOLOGY_TTL - 1, now)];
          assert forall i | 0 <= i < |before| :: updates[i] == before[i];
          assert updates[|before|].originatorNode == nodeId;
        }
        todo := todo - {nodeId};
      }
    }
  }

  method CollectNeighbors(neighbors: seq<NeighborInfo>, now: u64) returns (neighborMap: map<NodeId, LinkInfo>)
    ensures neighborMap == Learn(neighbors, now)
  {
    neighborMap := map[];
    for i := 0 to |neighbors|
      invariant neighborMap == Learn(neighbors[..i], now)
    {
      assert neighbors[..i + 1][..i] == neighbors[..i];
      neighborMap := neighborMap[neighbors[i].nodeId := LinkInfo(neighbors[i].cost, neighbors[i].addr, now)];
    }
    assert neighbors[..|neighbors|] == neighbors;
  }

  /** The links to the neighbours in `keys`. */
  ghost function LinksTo(neighbors: map<NodeId, LinkInfo>, keys: set<NodeId>): map<NodeId, Link> {
    map v | v in neighbors && v in keys :: Link(neighbors[v].cost, neighbors[v].addr)
  }

  lemma AdvertisedOneMore(list: seq<NeighborInfo>, n: NeighborInfo)
    ensures Advertised(list + [n]) == Advertised(list)[n.nodeId := Link(n.cost, n.addr)]
  {
    assert (list + [n])[..|list|] == list;
  }

  lemma LinksToOneMore(neighbors: map<NodeId, LinkInfo>, todo: set<NodeId>, v: NodeId)
    requires v in todo && v in neighbors
    ensures LinksTo(neighbors, neighbors.Keys - (todo - {v}))
         == LinksTo(neighbors, neighbors.Keys - todo)[v := Link(neighbors[v].cost, neighbors[v].addr)]
  {
  }

  lemma LinksToAll(neighbors: map<NodeId, LinkInfo>)
    ensures LinksTo(neighbors, neighbors.Keys - {}) == LinksOf(neighbors)
  {
  }

  method ListNeighbors(neighbors: map<NodeId, LinkInfo>) returns (list: seq<NeighborInfo>)
    ensures Advertised(list) == LinksOf(neighbors)
  {
    list := [];
    var todo := neighbors.Keys;
    while todo != {}
      invariant todo <= neighbors.Keys
      invariant Advertised(list) == LinksTo(neighbors, neighbors.Keys - todo)
      decreases |todo|
    {
      var v :| v in todo;
      var n := NeighborInfo(v, neighbors[v].cost, neighbors[v].addr);
      AdvertisedOneMore(list, n);
      LinksToOneMore(neighbors, todo, v);
      list := list + [n];
      todo := todo - {v};
    }
    LinksToAll(neighbors);
  }
}
