/** Retelling can prevent arrival: nodes 0 to 15 in a line, a session from 0 to 15, and node
    16 behind 15. Without retelling 15 always gets a copy with hops to spare, directly from 0,
    and 16 is reached. With it, a copy can come all along the line, given new hops by 8 where
    the first ones end, and stop at 15. */
module SeventeenNodes {
  import opened Base
  import opened LinkState
  import opened Flooding
  import opened Convergence
  import opened FloodReach

  const NODES: set<NodeId> := {0, 1, 2, 3, 4, 5, 6, 7, 8, 9, 10, 11, 12, 13, 14, 15, 16}

  function Peers(n: NodeId): set<NodeId> {
    if n == 0 then {1, 15}
    else if n < 15 then {n - 1, n + 1}
    else if n == 15 then {0, 14, 16}
    else {15}
  }

  function Ring(): Sessions {
    map n | n in NODES :: Peers(n)
  }

  function Start(): Mesh {
    Mesh(map n | n in NODES :: NodeState(map[], 1), Ring(), [], map[])
  }

  const SAID: seq<NeighborInfo> := [NeighborInfo(1, 100, None), NeighborInfo(15, 100, None)]

  /** Copies along the line, retold by 8. */
  function Copies(): Tree {
    Tree(map n | n in NODES && n < 16 :: if n <= 8 then 8 - n else 15 - n, map n | n in NODES && n < 16 :: n)
  }

  lemma RingParent(n: NodeId)
    requires 0 < n < 16
    ensures HasParent(Ring(), 0, true, Copies(), n)
  {
    assert ParentOf(Ring(), 0, true, Copies(), n - 1, n);
  }

  lemma RingPeers(n: NodeId, k: NodeId)
    requires n < 15 && k in Peers(n)
    ensures k in Copies().hops
  {
  }

  lemma RingIsFloodTree()
    ensures FloodTree(Ring(), 0, true, Copies())
  {
    hide HasParent, Peers;
    forall n | n in Copies().hops && n != 0
      ensures HasParent(Ring(), 0, true, Copies(), n)
    {
      RingParent(n);
    }
    forall n, k | n in Copies().hops && Copies().hops[n] > 0 && n in Ring() && k in Ring()[n]
      ensures k in Copies().hops
    {
      RingPeers(n, k);
    }
  }

  lemma StartGood()
    ensures Init(Start())
  {
    forall n | n in Ring()
      ensures Ring()[n] <= NODES
    {
    }
  }

  lemma SixteenOutside()
    ensures 16 !in Copies().hops
  {
  }

  /** A run in which nothing is lost and nothing is left in flight, and 16 does not know. */
  lemma SixteenIsMissed(now: u64) returns (events: seq<Event>)
    ensures Init(Start()) && Executable(Start(), events) && LastWord(Start(), events, 0, SAID)
    ensures var f := After(Start(), events); Drained(f, 0) && 16 in f.state && !Knows(f, 16, 0, SAID)
  {
    hide FloodTree, Copies, Executable, After, LastWord, Drained, Knows;
    var m := Start();
    StartGood();
    RingIsFloodTree();
    var sent := BroadcastExists(Peers(0), Announcement(m, 0, SAID, now));
    var e := Publish(0, SAID, now, true, sent);
    SixteenOutside();
    events := MissedRun(m, e, true, Copies(), 0, 16, SAID);
  }

  // ---------------------------------------------------------------------------
  // Without retelling

  lemma ParentExists(t: Tree, n: NodeId) returns (r: NodeId)
    requires Rooted(Ring(), 0, false, t) && n in t.hops && n != 0
    ensures r in NODES && n in Peers(r) && r in t.hops && t.rank.Keys == t.hops.Keys && t.rank[r] < t.rank[n]
    ensures t.hops[n] + 1 == t.hops[r]
  {
    hide Peers;
    assert HasParent(Ring(), 0, false, t, n);
    r :| ParentOf(Ring(), 0, false, t, r, n);
  }

  lemma PeerOf(r: NodeId, n: NodeId)
    requires n in Peers(r) && 0 < n <= 16 && r in NODES
    ensures n < 15 ==> r == n - 1 || r == n + 1
    ensures n == 15 ==> r == 0 || r == 14 || r == 16
    ensures n == 16 ==> r == 15
  {
  }

  /** A node of the line that has its copy before 15 got it from the node before it. */
  lemma {:induction false} FromBelow(t: Tree, n: NodeId)
    requires Rooted(Ring(), 0, false, t) && t.rank.Keys == t.hops.Keys
    requires n in t.hops && 15 in t.hops && 0 < n < 15 && t.rank[n] < t.rank[15]
    ensures n - 1 in t.hops && t.rank[n - 1] < t.rank[n] && t.hops[n] + n == 8
    decreases t.rank[n]
  {
    hide Rooted, Peers;
    var r := ParentExists(t, n);
    PeerOf(r, n);
    if r == n + 1 || r > 0 {
      FromBelow(t, r);
    } else {
      RootHops(Ring(), 0, false, t);
    }
  }

  lemma FifteenFromZero(t: Tree)
    requires Rooted(Ring(), 0, false, t) && 15 in t.hops
    ensures t.hops[15] == 7
  {
    hide Rooted, Peers;
    var r := ParentExists(t, 15);
    PeerOf(r, 15);
    RootHops(Ring(), 0, false, t);
    if r == 14 {
      FromBelow(t, 14);
    } else if r == 16 {
      var q := ParentExists(t, 16);
      PeerOf(q, 16);
    }
  }

  /** Every node of a flood tree without retelling passes on to 16. */
  lemma SixteenInTree(t: Tree)
    requires FloodTree(Ring(), 0, false, t)
    ensures 16 in t.hops
  {
    assert 15 in Ring()[0] && 15 in t.hops;
    FifteenFromZero(t);
    assert 16 in Ring()[15];
  }

  /** If nobody retells, no run misses 16. */
  lemma SixteenIsReached(m: Mesh, e: Event, rest: seq<Event>)
    requires Inv(m) && m.sessions == Ring() && Enabled(m, e) && Announces(e, 0)
    ensures !Misses(m, e, rest, 0, 16, false)
  {
    hide Inv, Misses, FloodTree, Ring;
    if Misses(m, e, rest, 0, 16, false) {
      var t := MissedOutsideTree(m, e, rest, 0, 16, false);
      SixteenInTree(t);
    }
  }
}
