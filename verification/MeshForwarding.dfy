/** The chain of results. When every node of a mesh has announced its sessions and the
    announcements have spread, all nodes route over the graph that was announced, and
    messages arrive. */
module MeshForwarding {
  import opened Base
  import opened LinkState
  import opened Flooding
  import opened RouteComputation
  import opened Forwarding
  import opened ShortestPath
  import opened Convergence

  /** The cost the program announces for each of its sessions. */
  const LINK_COST: u32 := 100

  /** What the nodes announced, as costs. */
  function SaidGraph(said: map<NodeId, seq<NeighborInfo>>): Graph {
    map o | o in said :: map v | v in Advertised(said[o]) :: Advertised(said[o])[v].cost
  }

  /** Every node has announced its last update, in a connected mesh with short paths, and
      no copy of these updates is in flight. */
  ghost predicate Settled(m: Mesh, events: seq<Event>, f: Mesh, said: map<NodeId, seq<NeighborInfo>>) {
    && Executable(m, events) && f == After(m, events) && said.Keys == f.state.Keys
    && forall o | o in f.state :: SettledFor(m, events, f, o, said[o])
  }

  ghost predicate SettledFor(m: Mesh, events: seq<Event>, f: Mesh, o: NodeId, said: seq<NeighborInfo>)
    requires Executable(m, events)
  {
    LastWord(m, events, o, said) && Drained(f, o) && Connected(f.sessions, o) && ShortPaths(f.sessions, o)
  }

  lemma SettledKnows(m: Mesh, events: seq<Event>, f: Mesh, said: map<NodeId, seq<NeighborInfo>>, n: NodeId, o: NodeId)
    requires Init(m) && Settled(m, events, f, said) && n in f.state && o in f.state
    ensures Knows(f, n, o, said[o])
  {
    hide Init, LastWord, Executable, After, Connected, ShortPaths, Knows;
    assert SettledFor(m, events, f, o, said[o]);
    FloodingConverges(m, events, o, said[o], n);
  }

  lemma SettledInv(m: Mesh, events: seq<Event>, f: Mesh, said: map<NodeId, seq<NeighborInfo>>)
    requires Init(m) && Settled(m, events, f, said)
    ensures Inv(f)
  {
    hide SettledFor, Inv, Init;
    InitInv(m);
    RunKeepsInv(m, events);
  }

  lemma SameCosts(info: map<NodeId, LinkInfo>, said: map<NodeId, Link>)
    requires LinksOf(info) == said
    ensures (map v | v in info :: info[v].cost) == (map v | v in said :: said[v].cost)
  {
    forall v | v in info || v in said
      ensures v in info && v in said && info[v].cost == said[v].cost
    {
      assert v in LinksOf(info) <==> v in info;
      assert v in info ==> LinksOf(info)[v] == Link(info[v].cost, info[v].addr);
    }
  }

  lemma SaidGraphAt(said: map<NodeId, seq<NeighborInfo>>, o: NodeId)
    requires o in said
    ensures SaidGraph(said)[o] == map v | v in Advertised(said[o]) :: Advertised(said[o])[v].cost
  {
  }

  lemma CostGraphAt(nodes: map<NodeId, NodeInfo>, o: NodeId)
    requires o in nodes
    ensures CostGraph(nodes)[o] == map v | v in nodes[o].neighbors :: nodes[o].neighbors[v].cost
  {
  }

  /** All nodes compute their routes from the graph that was announced. */
  lemma SettledGraph(m: Mesh, events: seq<Event>, f: Mesh, said: map<NodeId, seq<NeighborInfo>>, n: NodeId)
    requires Init(m) && Settled(m, events, f, said) && n in f.state
    ensures CostGraph(f.state[n].nodes) == SaidGraph(said)
  {
    hide Init, Inv, SettledFor, LinksOf, Executable, After;
    SettledInv(m, events, f, said);
    var nodes := f.state[n].nodes;
    forall o | o in nodes || o in said
      ensures o in nodes && o in said && CostGraph(nodes)[o] == SaidGraph(said)[o]
    {
      if o in nodes {
        StoredBelowHalf(f, n, o);
      }
      SettledKnows(m, events, f, said, n, o);
      SameCosts(nodes[o].neighbors, Advertised(said[o]));
      CostGraphAt(nodes, o);
      SaidGraphAt(said, o);
    }
    assert CostGraph(nodes).Keys == nodes.Keys && SaidGraph(said).Keys == said.Keys;
  }

  /** Each node has loaded the routes of its own database. */
  ghost predicate RoutesLoaded(f: Mesh, tables: Tables) {
    && tables.Keys == f.state.Keys
    && forall n | n in f.state :: tables[n] == Table(CostGraph(f.state[n].nodes), n)
  }

  /** Each node announced exactly the peers it has sessions with. */
  ghost predicate ListsSessions(said: map<NodeId, seq<NeighborInfo>>, sessions: Sessions) {
    said.Keys == sessions.Keys && forall o | o in said :: Advertised(said[o]).Keys == sessions[o]
  }

  lemma LinksAreSessions(said: map<NodeId, seq<NeighborInfo>>, sessions: Sessions, u: NodeId, v: NodeId)
    requires ListsSessions(said, sessions)
    ensures Edge(SaidGraph(said), u, v) <==> u in sessions && v in sessions[u]
  {
    if u in said {
      assert SaidGraph(said)[u].Keys == Advertised(said[u]).Keys;
    }
  }

  lemma SettledAgree(m: Mesh, events: seq<Event>, f: Mesh, said: map<NodeId, seq<NeighborInfo>>, tables: Tables)
    requires Init(m) && Settled(m, events, f, said) && RoutesLoaded(f, tables) && ListsSessions(said, f.sessions)
    ensures Agreed(SaidGraph(said), tables, f.sessions)
  {
    hide Init, SettledFor, Executable, After, Table, ListsSessions, Edge, SaidGraph, CostGraph;
    forall n | n in tables
      ensures tables[n] == Table(SaidGraph(said), n)
    {
      SettledGraph(m, events, f, said, n);
    }
    forall u, v | Edge(SaidGraph(said), u, v)
      ensures u in tables && u in f.sessions && v in f.sessions[u]
    {
      LinksAreSessions(said, f.sessions, u, v);
      SettledInv(m, events, f, said);
      InvSessions(f);
    }
  }

  /** In a settled mesh whose nodes announced their sessions, at any costs, a message for a
      routed destination arrives, visits no node twice, and pays exactly the cost its first
      node computed. */
  lemma SettledMeshForwards(m: Mesh, events: seq<Event>, f: Mesh, said: map<NodeId, seq<NeighborInfo>>,
                            tables: Tables, x: NodeId, d: NodeId)
    returns (p: seq<NodeId>)
    requires Init(m) && Settled(m, events, f, said) && RoutesLoaded(f, tables) && ListsSessions(said, f.sessions)
    requires x in tables && d in tables[x]
    ensures Journey(tables, f.sessions, d, p) && p[0] == x && NoRepeats(p)
    ensures IsPath(SaidGraph(said), p) && PathCost(SaidGraph(said), p) == tables[x][d].totalCost
    ensures p[|p| - 1] == d && OutcomeAt(tables, f.sessions, d, d) == Delivered
  {
    hide Init, Settled, RoutesLoaded, ListsSessions, Agreed, Journey, Handle;
    SettledAgree(m, events, f, said, tables);
    p := ForwardingDelivers(SaidGraph(said), tables, f.sessions, x, d);
  }

  // ---------------------------------------------------------------------------
  // The costs the program announces

  ghost predicate UniformCosts(g: Graph) {
    forall u, v | Edge(g, u, v) :: Cost(g, u, v) == LINK_COST
  }

  lemma {:induction false} UniformPathCost(g: Graph, p: seq<NodeId>)
    requires UniformCosts(g) && IsPath(g, p)
    ensures PathCost(g, p) == LINK_COST * (|p| - 1)
    decreases |p|
  {
    if |p| > 1 {
      UniformPathCost(g, p[..|p| - 1]);
      assert Edge(g, p[|p| - 2], p[|p| - 2 + 1]);
    }
  }

  lemma SessionPathIsPath(said: map<NodeId, seq<NeighborInfo>>, sessions: Sessions, q: seq<NodeId>)
    requires ListsSessions(said, sessions) && SessionPath(sessions, q)
    ensures IsPath(SaidGraph(said), q)
  {
    hide ListsSessions, SaidGraph, Edge;
    forall i | 0 <= i < |q| - 1
      ensures Edge(SaidGraph(said), q[i], q[i + 1])
    {
      LinksAreSessions(said, sessions, q[i], q[i + 1]);
    }
  }

  /** A session path without repetition is cheap enough to count. */
  lemma NearIsReached(said: map<NodeId, seq<NeighborInfo>>, sessions: Sessions, x: NodeId, d: NodeId)
    requires ListsSessions(said, sessions) && UniformCosts(SaidGraph(said))
    requires Connected(sessions, x) && ShortPaths(sessions, x) && d in sessions
    ensures Reaches(SaidGraph(said), x, d)
  {
    hide ListsSessions, UniformCosts, ShortPaths, SaidGraph, Edge;
    var p :| SessionPath(sessions, p) && p[0] == x && p[|p| - 1] == d;
    var q := SimplePart(sessions, p);
    ShortAt(sessions, x, q, d);
    SessionPathIsPath(said, sessions, q);
    UniformPathCost(SaidGraph(said), q);
    assert Joins(SaidGraph(said), x, d, q);
  }

  lemma EveryoneRouted(m: Mesh, events: seq<Event>, f: Mesh, said: map<NodeId, seq<NeighborInfo>>,
                       tables: Tables, x: NodeId, d: NodeId)
    requires Init(m) && Settled(m, events, f, said) && RoutesLoaded(f, tables) && ListsSessions(said, f.sessions)
    requires UniformCosts(SaidGraph(said)) && x in f.state && d in f.state && x != d
    ensures x in tables && d in tables[x]
  {
    hide Init, Executable, After, LastWord, Drained, Connected, ShortPaths, ListsSessions, UniformCosts, SaidGraph,
         CostGraph, Table, Reaches;
    assert SettledFor(m, events, f, x, said[x]);
    SettledInv(m, events, f, said);
    InvSessions(f);
    SettledGraph(m, events, f, said, x);
    NearIsReached(said, f.sessions, x, d);
    TableComplete(SaidGraph(said), x);
  }

  /** The end of the chain, for the announcements the program makes: between any two nodes
      of a settled mesh messages arrive, over as few sessions as possible. */
  lemma SettledMeshDelivers(m: Mesh, events: seq<Event>, f: Mesh, said: map<NodeId, seq<NeighborInfo>>,
                            tables: Tables, x: NodeId, d: NodeId)
    returns (p: seq<NodeId>)
    requires Init(m) && Settled(m, events, f, said) && RoutesLoaded(f, tables) && ListsSessions(said, f.sessions)
    requires UniformCosts(SaidGraph(said)) && x in f.state && d in f.state && x != d
    ensures Journey(tables, f.sessions, d, p) && p[0] == x && NoRepeats(p)
    ensures p[|p| - 1] == d && OutcomeAt(tables, f.sessions, d, d) == Delivered
    ensures x in tables && d in tables[x] && tables[x][d].totalCost == 100 * (|p| - 1)
    ensures forall q | SessionPath(f.sessions, q) && q[0] == x && q[|q| - 1] == d :: |p| <= |q|
  {
    hide Init, Settled, ListsSessions, UniformCosts, SaidGraph, Journey, NoRepeats, RoutesLoaded, Agreed, IsPath, Handle;
    EveryoneRouted(m, events, f, said, tables, x, d);
    p := SettledMeshForwards(m, events, f, said, tables, x, d);
    SettledAgree(m, events, f, said, tables);
    UniformPathCost(SaidGraph(said), p);
    forall q | SessionPath(f.sessions, q) && q[0] == x && q[|q| - 1] == d
      ensures |p| <= |q|
    {
      CheapestIsShortest(said, f.sessions, tables, x, d, p, q);
    }
  }

  lemma CheapestIsShortest(said: map<NodeId, seq<NeighborInfo>>, sessions: Sessions, tables: Tables,
                           x: NodeId, d: NodeId, p: seq<NodeId>, q: seq<NodeId>)
    requires ListsSessions(said, sessions) && UniformCosts(SaidGraph(said)) && Agreed(SaidGraph(said), tables, sessions)
    requires x in tables && d in tables[x]
    requires IsPath(SaidGraph(said), p) && PathCost(SaidGraph(said), p) == tables[x][d].totalCost
    requires SessionPath(sessions, q) && q[0] == x && q[|q| - 1] == d
    ensures |p| <= |q|
  {
    hide ListsSessions, UniformCosts, SaidGraph, Table, Explains, Canonical;
    var g := SaidGraph(said);
    SessionPathIsPath(said, sessions, q);
    UniformPathCost(g, p);
    UniformPathCost(g, q);
    TableSound(g, x);
    assert RouteCorrect(g, x, d, tables[x][d]);
    assert Joins(g, x, d, q);
  }
}
