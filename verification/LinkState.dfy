/** The records of the link-state protocol: what a node stores about other nodes and
    what it puts on the wire, and the serial-number comparison that decides which of
    two updates is newer. */
module LinkState {
  import opened Base
  import ShortestPath

  const DEFAULT_TOPOLOGY_TTL: u8 := 8
  const MAX_TOPOLOGY_AGE_SECS: u64 := 300

  datatype LinkInfo = LinkInfo(cost: u32, addr: Option<string>, lastSeen: u64)

  datatype NodeInfo = NodeInfo(nodeId: NodeId, sequenceNumber: u64, lastUpdated: u64,
                               neighbors: map<NodeId, LinkInfo>)

  datatype ComputedRoute = ComputedRoute(dstNode: NodeId, nextHop: NodeId, totalCost: u32, hopCount: u8)

  datatype NeighborInfo = NeighborInfo(nodeId: NodeId, cost: u32, addr: Option<string>)

  datatype TopologyUpdate = TopologyUpdate(originatorNode: NodeId, sequenceNumber: u64,
                                           neighbors: seq<NeighborInfo>, ttl: u8, timestamp: u64)

  /** The peers each node has sessions with. */
  type Sessions = map<NodeId, set<NodeId>>

  /** The costs that a node map advertises: all that route computation looks at. */
  function CostGraph(nodes: map<NodeId, NodeInfo>): ShortestPath.Graph {
    map u | u in nodes :: map v | v in nodes[u].neighbors :: nodes[u].neighbors[v].cost
  }

  /** The protocol content of a link, without the local receive time. */
  datatype Link = Link(cost: u32, addr: Option<string>)

  function LinksOf(neighbors: map<NodeId, LinkInfo>): map<NodeId, Link> {
    map v | v in neighbors :: Link(neighbors[v].cost, neighbors[v].addr)
  }

  /** The map a list of neighbours denotes: a later entry replaces an earlier one. */
  function Advertised(neighbors: seq<NeighborInfo>): map<NodeId, Link> {
    if neighbors == [] then map[]
    else
      var last := neighbors[|neighbors| - 1];
      Advertised(neighbors[..|neighbors| - 1])[last.nodeId := Link(last.cost, last.addr)]
  }

  /** The ids listed are the neighbours, each with its last entry. */
  lemma {:induction false} AdvertisedMeaning(neighbors: seq<NeighborInfo>, v: NodeId)
    ensures v in Advertised(neighbors) <==> exists i :: 0 <= i < |neighbors| && neighbors[i].nodeId == v
    ensures forall i | 0 <= i < |neighbors| && neighbors[i].nodeId == v
                       && (forall j | i < j < |neighbors| :: neighbors[j].nodeId != v) ::
              Advertised(neighbors)[v] == Link(neighbors[i].cost, neighbors[i].addr)
    decreases |neighbors|
  {
    if neighbors != [] {
      var front, last := neighbors[..|neighbors| - 1], neighbors[|neighbors| - 1];
      AdvertisedMeaning(front, v);
      assert last == neighbors[|neighbors| - 1];
      assert forall i | 0 <= i < |front| :: front[i] == neighbors[i];
    }
  }

  // ---------------------------------------------------------------------------
  // Serial numbers

  const HALF: int := 0x8000_0000_0000_0000

  function WrappingSub(a: u64, b: u64): u64 {
    (a - b) % U64_MODULUS
  }

  /** Two's-complement reading of a 64-bit word, as the cast `as i64` does it. */
  function AsSigned(x: u64): int {
    if x < HALF then x else x - U64_MODULUS
  }

  predicate IsNewerThan(sequenceNumber: u64, other: u64) {
    AsSigned(WrappingSub(sequenceNumber, other)) > 0
  }

  /** Section 3.2 of RFC 1982 with SERIAL_BITS = 64, "s1 is greater than s2". */
  predicate SerialGreater(s1: u64, s2: u64) {
    || (s1 < s2 && s2 - s1 > HALF)
    || (s1 > s2 && s1 - s2 < HALF)
  }

  lemma NewerIsSerialGreater(a: u64, b: u64)
    ensures IsNewerThan(a, b) <==> SerialGreater(a, b)
    ensures IsNewerThan(a, b) ==> !IsNewerThan(b, a)
    ensures !IsNewerThan(a, b) && !IsNewerThan(b, a) <==> a == b || a - b == HALF || b - a == HALF
  {
    if a >= b {
      assert WrappingSub(a, b) == a - b;
    } else {
      assert WrappingSub(a, b) == a - b + U64_MODULUS;
    }
  }

  /** On counters that have not drifted 2^63 apart the wrapped comparison is the
      comparison of the counters, however often they wrapped. */
  lemma NewerTracksCounters(x: nat, y: nat)
    requires x - y < HALF && y - x < HALF
    ensures IsNewerThan(x % U64_MODULUS, y % U64_MODULUS) <==> x > y
  {
    var q, r := x / U64_MODULUS - y / U64_MODULUS, x % U64_MODULUS - y % U64_MODULUS;
    assert x - y == q * U64_MODULUS + r;
    NewerIsSerialGreater(x % U64_MODULUS, y % U64_MODULUS);
  }
}
