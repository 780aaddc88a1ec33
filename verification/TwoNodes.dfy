/** The smallest mesh: two nodes that connect and announce their link. It meets every
    premise of the convergence results, so those are not about nothing. */
module TwoNodes {
  import opened Base
  import opened ShortestPath
  import opened LinkState
  import opened TopologyDatabase
  import opened Flooding
  import opened RouteComputation
  import opened Forwarding
  import opened Convergence
  import opened MeshForwarding

  function Neighbors(y: NodeId): seq<NeighborInfo> {
    [NeighborInfo(y, LINK_COST, None)]
  }

  /** The first announcement of `x`, whose neighbour is `y`. */
  function Update(x: NodeId, y: NodeId, now: u64, ttl: u8): TopologyUpdate {
    TopologyUpdate(x, 1, Neighbors(y), ttl, now)
  }

  /** `x` announces, `y` accepts and passes on, `x` gets its own update back. */
  function Exchange(x: NodeId, y: NodeId, now: u64): seq<Event> {
    [Publish(x, Neighbors(y), now, true, [Packet(y, Update(x, y, now, DEFAULT_TOPOLOGY_TTL))]),
     Receive(0, now, [Packet(x, Update(x, y, now, DEFAULT_TOPOLOGY_TTL - 1))]),
     Receive(0, now, [])]
  }

  ghost predicate Ready(m: Mesh, x: NodeId, y: NodeId) {
    && x != y && m.state.Keys == {x, y} && m.flight == []
    && m.sessions.Keys == {x, y} && m.sessions[x] == {y} && m.sessions[y] == {x}
    && m.state[x].localSequence == 1 && x !in m.state[y].nodes
  }

  function Announced(m: Mesh, x: NodeId, y: NodeId, now: u64): Mesh
    requires x in m.state
  {
    Mesh(m.state[x := NodeState(m.state[x].nodes[x := Record(x, 1, Neighbors(y), now)], 2)], m.sessions,
         [Packet(y, Update(x, y, now, DEFAULT_TOPOLOGY_TTL))],
         m.published[Stamp(x, 1) := Advertised(Neighbors(y))])
  }

  function Heard(m: Mesh, x: NodeId, y: NodeId, now: u64): Mesh
    requires x in m.state && y in m.state && x != y
  {
    var st := m.state[y];
    var a := Announced(m, x, y, now);
    a.(state := a.state[y := st.(nodes := st.nodes[x := Record(x, 1, Neighbors(y), now)])],
       flight := [Packet(x, Update(x, y, now, DEFAULT_TOPOLOGY_TTL - 1))])
  }

  function Exchanged(m: Mesh, x: NodeId, y: NodeId, now: u64): Mesh
    requires x in m.state && y in m.state && x != y
  {
    Heard(m, x, y, now).(flight := [])
  }

  lemma AnnounceStep(m: Mesh, x: NodeId, y: NodeId, now: u64)
    requires Ready(m, x, y)
    ensures Enabled(m, Exchange(x, y, now)[0])
    ensures Apply(m, Exchange(x, y, now)[0]) == Announced(m, x, y, now)
  {
    assert |m.sessions[x]| == |{y}| == 1;
    assert Packet(y, Update(x, y, now, DEFAULT_TOPOLOGY_TTL)) in Exchange(x, y, now)[0].sent;
  }

  lemma HearStep(m: Mesh, x: NodeId, y: NodeId, now: u64)
    requires Ready(m, x, y)
    ensures Enabled(Announced(m, x, y, now), Exchange(x, y, now)[1])
    ensures Apply(Announced(m, x, y, now), Exchange(x, y, now)[1]) == Heard(m, x, y, now)
  {
    assert |m.sessions[y]| == |{x}| == 1;
    assert Packet(x, Update(x, y, now, DEFAULT_TOPOLOGY_TTL - 1)) in Exchange(x, y, now)[1].sent;
  }

  lemma EchoStep(m: Mesh, x: NodeId, y: NodeId, now: u64)
    requires Ready(m, x, y)
    ensures Enabled(Heard(m, x, y, now), Exchange(x, y, now)[2])
    ensures Apply(Heard(m, x, y, now), Exchange(x, y, now)[2]) == Exchanged(m, x, y, now)
  {
    var h, p := Heard(m, x, y, now), Packet(x, Update(x, y, now, DEFAULT_TOPOLOGY_TTL - 1));
    NewerBelowHalf(1, 1);
    assert !Accepts(h.state[x].nodes, p.update, now);
    assert h.state[x := h.state[x].(nodes := h.state[x].nodes)] == h.state;
  }

  lemma Cons(m: Mesh, e: Event, rest: seq<Event>, o: NodeId, s: u64, said: seq<NeighborInfo>)
    requires Enabled(m, e) && Executable(Apply(m, e), rest)
    ensures Executable(m, [e] + rest) && After(m, [e] + rest) == After(Apply(m, e), rest)
    ensures Quiet(m, e, o, s) && QuietRun(Apply(m, e), rest, o, s) ==> QuietRun(m, [e] + rest, o, s)
    ensures LastWord(Apply(m, e), rest, o, said) ==> LastWord(m, [e] + rest, o, said)
    ensures Announces(e, o) && e.neighbors == said && QuietRun(Apply(m, e), rest, o, m.state[o].localSequence) ==>
              LastWord(m, [e] + rest, o, said)
  {
    hide Enabled, Apply, Quiet, Announces;
    RunCons(m, e, rest);
    QuietCons(m, e, rest, o, s);
    LastWordCons(m, e, rest, o, said);
  }

  /** An exchange before another run. */
  lemma ExchangeThen(m: Mesh, x: NodeId, y: NodeId, now: u64, rest: seq<Event>)
    requires Ready(m, x, y) && Executable(Exchanged(m, x, y, now), rest)
    requires QuietRun(Exchanged(m, x, y, now), rest, x, 1)
    ensures var events := Exchange(x, y, now) + rest;
            && Executable(m, events) && After(m, events) == After(Exchanged(m, x, y, now), rest)
            && LastWord(m, events, x, Neighbors(y))
  {
    hide Executable, After, QuietRun, LastWord, Enabled, Apply;
    var es := Exchange(x, y, now);
    var m1, m2 := Announced(m, x, y, now), Heard(m, x, y, now);
    AnnounceStep(m, x, y, now);
    HearStep(m, x, y, now);
    EchoStep(m, x, y, now);
    Cons(m2, es[2], rest, x, 1, Neighbors(y));
    Cons(m1, es[1], [es[2]] + rest, x, 1, Neighbors(y));
    Cons(m, es[0], [es[1]] + ([es[2]] + rest), x, 1, Neighbors(y));
    assert es + rest == [es[0]] + ([es[1]] + ([es[2]] + rest));
  }

  /** An exchange of `x` leaves what else is true of `o`. */
  lemma ExchangeBefore(m: Mesh, x: NodeId, y: NodeId, now: u64, rest: seq<Event>, o: NodeId, said: seq<NeighborInfo>)
    requires Ready(m, x, y) && Executable(Exchanged(m, x, y, now), rest) && o != x
    ensures Executable(m, Exchange(x, y, now) + rest)
    ensures LastWord(Exchanged(m, x, y, now), rest, o, said) ==> LastWord(m, Exchange(x, y, now) + rest, o, said)
    ensures QuietRun(Exchanged(m, x, y, now), rest, o, 1) ==> QuietRun(m, Exchange(x, y, now) + rest, o, 1)
  {
    hide Executable, After, QuietRun, LastWord, Enabled, Apply;
    var es := Exchange(x, y, now);
    var m1, m2 := Announced(m, x, y, now), Heard(m, x, y, now);
    AnnounceStep(m, x, y, now);
    HearStep(m, x, y, now);
    EchoStep(m, x, y, now);
    Cons(m2, es[2], rest, o, 1, said);
    Cons(m1, es[1], [es[2]] + rest, o, 1, said);
    Cons(m, es[0], [es[1]] + ([es[2]] + rest), o, 1, said);
    assert es + rest == [es[0]] + ([es[1]] + ([es[2]] + rest));
  }

  function Start(a: NodeId, b: NodeId): Mesh {
    Mesh(map[a := NodeState(map[], 1), b := NodeState(map[], 1)], map[a := {b}, b := {a}], [], map[])
  }

  lemma PairConnected(sessions: Sessions, x: NodeId, y: NodeId)
    requires sessions.Keys == {x, y} && sessions[x] == {y}
    ensures Connected(sessions, x)
  {
    assert SessionPath(sessions, [x]);
    assert SessionPath(sessions, [x, y]);
  }

  function Records(a: NodeId, b: NodeId, now: u64): map<NodeId, NodeInfo> {
    map[a := Record(a, 1, Neighbors(b), now), b := Record(b, 1, Neighbors(a), now)]
  }

  ghost function End(a: NodeId, b: NodeId, now: u64): Mesh
    requires a != b
  {
    Exchanged(Exchanged(Start(a, b), a, b, now), b, a, now)
  }

  lemma EndState(a: NodeId, b: NodeId, now: u64)
    requires a != b
    ensures var f := End(a, b, now);
            && f.flight == [] && f.sessions == map[a := {b}, b := {a}] && f.state.Keys == {a, b}
            && f.state[a].nodes == Records(a, b, now) && f.state[b].nodes == Records(a, b, now)
  {
  }

  function Said(a: NodeId, b: NodeId): map<NodeId, seq<NeighborInfo>> {
    map[a := Neighbors(b), b := Neighbors(a)]
  }

  function Both(a: NodeId, b: NodeId, now: u64): seq<Event> {
    Exchange(a, b, now) + Exchange(b, a, now)
  }

  lemma PairRuns(a: NodeId, b: NodeId, now: u64)
    requires a != b
    ensures Executable(Start(a, b), Both(a, b, now)) && After(Start(a, b), Both(a, b, now)) == End(a, b, now)
    ensures LastWord(Start(a, b), Both(a, b, now), a, Neighbors(b))
    ensures LastWord(Start(a, b), Both(a, b, now), b, Neighbors(a))
  {
    hide LastWord, Exchange;
    var m, m1, second := Start(a, b), Exchanged(Start(a, b), a, b, now), Exchange(b, a, now);
    assert second + [] == second;
    assert Ready(m, a, b) && Ready(m1, b, a);
    ExchangeThen(m1, b, a, now, []);
    ExchangeBefore(m1, b, a, now, [], a, []);
    ExchangeThen(m, a, b, now, second);
    ExchangeBefore(m, a, b, now, second, b, Neighbors(a));
  }

  lemma EndDrained(a: NodeId, b: NodeId, now: u64)
    requires a != b
    ensures Drained(End(a, b, now), a) && Drained(End(a, b, now), b)
  {
  }

  /** Two exchanges settle the mesh. */
  lemma PairSettles(a: NodeId, b: NodeId, now: u64, f: Mesh)
    requires a != b && f == End(a, b, now)
    ensures Settled(Start(a, b), Both(a, b, now), f, Said(a, b))
  {
    hide LastWord, Executable, After, Drained, Connected, ShortPaths, Exchanged;
    EndState(a, b, now);
    PairRuns(a, b, now);
    EndDrained(a, b, now);
    PairConnected(f.sessions, a, b);
    PairConnected(f.sessions, b, a);
    StarShortPaths(f.sessions, a, a);
    StarShortPaths(f.sessions, b, a);
  }

  lemma OneNeighbor(y: NodeId)
    ensures Advertised(Neighbors(y)) == map[y := Link(LINK_COST, None)]
  {
    assert Neighbors(y)[..0] == [];
  }

  lemma PairListed(a: NodeId, b: NodeId)
    requires a != b
    ensures ListsSessions(Said(a, b), map[a := {b}, b := {a}])
    ensures UniformCosts(SaidGraph(Said(a, b)))
  {
    hide Neighbors, Advertised;
    OneNeighbor(a);
    OneNeighbor(b);
  }

  /** All premises of `SettledMeshDelivers` together. */
  ghost predicate Premises(m: Mesh, events: seq<Event>, f: Mesh, said: map<NodeId, seq<NeighborInfo>>, tables: Tables) {
    && Init(m) && Settled(m, events, f, said) && RoutesLoaded(f, tables)
    && ListsSessions(said, f.sessions) && UniformCosts(SaidGraph(said))
  }

  lemma PairInit(a: NodeId, b: NodeId)
    requires a != b
    ensures Init(Start(a, b))
  {
  }

  lemma EndSessions(a: NodeId, b: NodeId, now: u64)
    requires a != b
    ensures End(a, b, now).sessions == map[a := {b}, b := {a}]
  {
  }

  lemma PairPremises(a: NodeId, b: NodeId, now: u64, tables: Tables)
    requires a != b && RoutesLoaded(End(a, b, now), tables)
    ensures Premises(Start(a, b), Both(a, b, now), End(a, b, now), Said(a, b), tables)
  {
    hide Settled, RoutesLoaded, ListsSessions, UniformCosts, Init, Start, Both, End, Said;
    PairInit(a, b);
    PairSettles(a, b, now, End(a, b, now));
    PairListed(a, b);
    EndSessions(a, b, now);
  }

  lemma EndLoaded(a: NodeId, b: NodeId, now: u64, tables: Tables)
    requires a != b && tables.Keys == {a, b}
    requires forall n | n in {a, b} :: tables[n] == Table(CostGraph(Records(a, b, now)), n)
    ensures RoutesLoaded(End(a, b, now), tables)
  {
    hide Table, CostGraph, End, Records;
    EndState(a, b, now);
  }

  /** They are met by any two nodes, with the routes that the program computes. */
  method SettlePair(a: NodeId, b: NodeId, now: u64) returns (tables: Tables)
    requires a != b
    ensures Premises(Start(a, b), Both(a, b, now), End(a, b, now), Said(a, b), tables)
  {
    hide Table, Premises, CostGraph, RoutesCorrect;
    var routesA := RouteComputation.ComputeRoutes(Records(a, b, now), a);
    var routesB := RouteComputation.ComputeRoutes(Records(a, b, now), b);
    tables := map[a := routesA, b := routesB];
    EndLoaded(a, b, now, tables);
    PairPremises(a, b, now, tables);
  }
}
