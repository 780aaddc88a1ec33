/** The smallest kind of mesh in which flooding can fail: node 0, nodes 1 to 8 in a line
    behind it, a session from 0 to 8, and node 9 behind 8. If the copy comes along the line
    first, 8 takes it with its last hop and rejects the direct copy, so 9, two sessions away
    from 0, never gets the update. */
module TenNodes {
  import opened Base
  import opened LinkState
  import opened Flooding
  import opened Convergence
  import opened FloodReach

  function Nodes(): set<NodeId> {
    {0, 1, 2, 3, 4, 5, 6, 7, 8, 9}
  }

  function Peers(n: NodeId): set<NodeId> {
    if n == 0 then {1, 8}
    else if n < 8 then {n - 1, n + 1}
    else if n == 8 then {0, 7, 9}
    else {8}
  }

  function Line(): Sessions {
    map n | n in Nodes() :: Peers(n)
  }

  function Start(): Mesh {
    Mesh(map n | n in Nodes() :: NodeState(map[], 1), Line(), [], map[])
  }

  const SAID: seq<NeighborInfo> := [NeighborInfo(1, 100, None), NeighborInfo(8, 100, None)]

  /** The copies that come along the line: each node passes on one hop less. */
  function Copies(): Tree {
    Tree(map n | n in Nodes() && n < 9 :: 8 - n, map n | n in Nodes() && n < 9 :: n)
  }

  lemma LineParent(n: NodeId)
    requires 0 < n < 9
    ensures HasParent(Line(), 0, false, Copies(), n)
  {
    assert ParentOf(Line(), 0, false, Copies(), n - 1, n);
  }

  lemma LineIsFloodTree()
    ensures FloodTree(Line(), 0, false, Copies())
  {
    hide HasParent;
    forall n | n in Copies().hops && n != 0
      ensures HasParent(Line(), 0, false, Copies(), n)
    {
      LineParent(n);
    }
  }

  lemma StartGood()
    ensures Init(Start())
  {
    forall n | n in Line()
      ensures Line()[n] <= Nodes()
    {
    }
  }

  lemma LinePath(n: NodeId) returns (p: seq<NodeId>)
    requires n < 9
    ensures SessionPath(Line(), p) && p[0] == 0 && p[|p| - 1] == n
  {
    p := [0];
    var k: NodeId := 0;
    while k < n
      invariant k <= n && SessionPath(Line(), p) && p[0] == 0 && p[|p| - 1] == k
    {
      PathAppend(Line(), p, k + 1);
      p := p + [k + 1];
      k := k + 1;
    }
  }

  lemma LineConnected()
    ensures Connected(Line(), 0)
  {
    forall n | n in Line()
      ensures exists p :: SessionPath(Line(), p) && p[0] == 0 && p[|p| - 1] == n
    {
      if n < 9 {
        var p := LinePath(n);
      } else {
        assert SessionPath(Line(), [0, 8, 9]);
      }
    }
  }

  /** A run in which nothing is lost and nothing is left in flight, and 9 does not know. */
  lemma NineIsMissed(now: u64) returns (events: seq<Event>)
    ensures Init(Start()) && Executable(Start(), events) && LastWord(Start(), events, 0, SAID)
    ensures var f := After(Start(), events);
            Drained(f, 0) && Connected(f.sessions, 0) && 9 in f.state && !Knows(f, 9, 0, SAID)
  {
    hide FloodTree, Connected, Copies, Executable, After, LastWord, Drained, Knows;
    var m := Start();
    StartGood();
    LineIsFloodTree();
    LineConnected();
    var sent := BroadcastExists(Peers(0), Announcement(m, 0, SAID, now));
    var e := Publish(0, SAID, now, true, sent);
    NineOutside();
    events := MissedRun(m, e, false, Copies(), 0, 9, SAID);
  }

  lemma NineOutside()
    ensures 9 !in Copies().hops
  {
  }
}
