/** The sender's write-ahead log, kept in memory: entries in append order per peer, the
    last appended id and the acknowledged watermark. */
module Wal {
  import opened Base

  datatype Entry = Entry(msgId: nat, bytes: Bytes)

  datatype WalState = WalState(entries: seq<Entry>, cumAcked: nat, lastAppended: nat)

  const EMPTY_WAL := WalState([], 0, 0)

  // ---------------------------------------------------------------------------
  // Reading a log

  /** The entries with ids above `from`, in order. */
  function Above(entries: seq<Entry>, from: nat): seq<Entry> {
    if entries == [] then []
    else
      var rest := Above(entries[..|entries| - 1], from);
      var last := entries[|entries| - 1];
      if last.msgId > from then rest + [last] else rest
  }

  /** How many results a limit admits; the program tests the limit only after a push. */
  function Room(limit: nat): nat {
    if limit == 0 then 1 else limit
  }

  function Limited(s: seq<Entry>, limit: Option<nat>): seq<Entry> {
    match limit
    case None => s
    case Some(n) => if |s| <= Room(n) then s else s[..Room(n)]
  }

  function Range(entries: seq<Entry>, from: nat, limit: Option<nat>): seq<Entry> {
    Limited(Above(entries, from), limit)
  }

  lemma {:induction false} AboveConcat(a: seq<Entry>, b: seq<Entry>, from: nat)
    ensures Above(a + b, from) == Above(a, from) + Above(b, from)
    decreases |b|
  {
    if b == [] {
      assert a + b == a;
    } else {
      AboveConcat(a, b[..|b| - 1], from);
      assert (a + b)[..|a + b| - 1] == a + b[..|b| - 1];
    }
  }

  lemma {:induction false} AboveTwice(s: seq<Entry>, a: nat, b: nat)
    requires a <= b
    ensures Above(Above(s, a), b) == Above(s, b)
    decreases |s|
  {
    if s != [] {
      AboveTwice(s[..|s| - 1], a, b);
      AboveConcat(Above(s[..|s| - 1], a), [s[|s| - 1]], b);
      assert Above([s[|s| - 1]], b) == if s[|s| - 1].msgId > b then [s[|s| - 1]] else [];
    }
  }

  lemma {:induction false} AboveMembers(s: seq<Entry>, from: nat, e: Entry)
    ensures e in Above(s, from) <==> e in s && e.msgId > from
    decreases |s|
  {
    if s != [] {
      AboveMembers(s[..|s| - 1], from, e);
      assert e in s <==> e in s[..|s| - 1] || e == s[|s| - 1];
    }
  }

  /** Ids rise from entry to entry. */
  ghost predicate Increasing(s: seq<Entry>) {
    forall i, j | 0 <= i < j < |s| :: s[i].msgId < s[j].msgId
  }

  lemma {:induction false} AboveIncreasing(s: seq<Entry>, from: nat)
    requires Increasing(s)
    ensures Increasing(Above(s, from))
    decreases |s|
  {
    if s != [] {
      var rest, last := s[..|s| - 1], s[|s| - 1];
      AboveIncreasing(rest, from);
      forall e | e in Above(rest, from)
        ensures e.msgId < last.msgId
      {
        AboveMembers(rest, from, e);
      }
    }
  }

  /** A read returns the first entries above the id, as many as the limit says, but one even
      where it says none. */
  lemma RangeMeaning(entries: seq<Entry>, from: nat, limit: Option<nat>)
    ensures Range(entries, from, limit) <= Above(entries, from)
    ensures limit == None ==> Range(entries, from, limit) == Above(entries, from)
    ensures limit.Some? ==>
              var most := if limit.value == 0 then 1 else limit.value;
              |Range(entries, from, limit)| == if |Above(entries, from)| <= most then |Above(entries, from)| else most
  {
  }

  // ---------------------------------------------------------------------------
  // Collecting results one by one, as both stores do

  /** Collection in progress: more can be added, or the limit was hit. */
  datatype Gathered = More(found: seq<Entry>) | Full(found: seq<Entry>)

  predicate Reached(found: seq<Entry>, limit: Option<nat>) {
    limit.Some? && |found| >= limit.value
  }

  function GatherOne(e: Entry, from: nat, limit: Option<nat>, found: seq<Entry>): Gathered {
    if e.msgId <= from then More(found)
    else if Reached(found + [e], limit) then Full(found + [e])
    else More(found + [e])
  }

  function Gather(s: seq<Entry>, from: nat, limit: Option<nat>, found: seq<Entry>): Gathered
    decreases |s|
  {
    if s == [] then More(found)
    else
      match GatherOne(s[0], from, limit, found)
      case Full(f) => Full(f)
      case More(f) => Gather(s[1..], from, limit, f)
  }

  lemma AboveFirst(s: seq<Entry>, from: nat)
    requires s != []
    ensures Above(s, from) == (if s[0].msgId > from then [s[0]] else []) + Above(s[1..], from)
  {
    AboveConcat([s[0]], s[1..], from);
    assert [s[0]] + s[1..] == s;
    assert Above([s[0]], from) == if s[0].msgId > from then [s[0]] else [];
  }

  lemma FullIsLimited(found: seq<Entry>, rest: seq<Entry>, limit: nat)
    requires |found| == Room(limit)
    ensures Limited(found + rest, Some(limit)) == found
  {
  }

  lemma {:induction false} GatherIsRange(s: seq<Entry>, from: nat, limit: Option<nat>, found: seq<Entry>)
    requires limit.Some? ==> |found| < Room(limit.value)
    ensures Gather(s, from, limit, found).found == Limited(found + Above(s, from), limit)
    decreases |s|
  {
    if s == [] {
      assert found + Above(s, from) == found;
    } else {
      AboveFirst(s, from);
      var g := GatherOne(s[0], from, limit, found);
      assert found + Above(s, from) == g.found + Above(s[1..], from);
      if g.More? {
        GatherIsRange(s[1..], from, limit, g.found);
      } else {
        FullIsLimited(g.found, Above(s[1..], from), limit.value);
      }
    }
  }

  // ---------------------------------------------------------------------------
  // The in-memory store

  class MemoryWal {
    var entries: map<Peer, seq<Entry>>
    var ackState: map<Peer, nat>
    var lastAppended: map<Peer, nat>

    function StateOf(peer: Peer): WalState
      reads this
    {
      WalState(if peer in entries then entries[peer] else [],
               if peer in ackState then ackState[peer] else 0,
               if peer in lastAppended then lastAppended[peer] else 0)
    }

    constructor ()
      ensures forall peer :: StateOf(peer) == EMPTY_WAL
    {
      entries, ackState, lastAppended := map[], map[], map[];
    }

    method Append(peer: Peer, e: Entry)
      modifies this
      ensures StateOf(peer) == WalState(old(StateOf(peer)).entries + [e], old(StateOf(peer)).cumAcked, e.msgId)
      ensures forall p | p != peer :: StateOf(p) == old(StateOf(p))
    {
      var queue := if peer in entries then entries[peer] else [];
      entries := entries[peer := queue + [e]];
      lastAppended := lastAppended[peer := e.msgId];
    }

    method ReadRange(peer: Peer, from: nat, limit: Option<nat>) returns (results: seq<Entry>)
      ensures results == Range(StateOf(peer).entries, from, limit)
    {
      results := [];
      var queue := StateOf(peer).entries;
      var i := 0;
      GatherIsRange(queue, from, limit, []);
      assert queue[0..] == queue;
      while i < |queue|
        invariant i <= |queue|
        invariant Gather(queue[i..], from, limit, results) == Gather(queue, from, limit, [])
      {
        assert queue[i..][1..] == queue[i + 1..];
        if queue[i].msgId > from {
          results := results + [queue[i]];
          if limit.Some? && |results| >= limit.value {
            break;
          }
        }
        i := i + 1;
      }
      assert Gather(queue, from, limit, []).found == results;
      assert [] + Above(queue, from) == Above(queue, from);
    }

    method TruncateThrough(peer: Peer, upTo: nat)
      modifies this
      ensures StateOf(peer) == old(StateOf(peer)).(entries := Above(old(StateOf(peer)).entries, upTo))
      ensures forall p | p != peer :: StateOf(p) == old(StateOf(p))
    {
      if peer in entries {
        entries := entries[peer := Above(entries[peer], upTo)];
      }
    }

    method LastAppended(peer: Peer) returns (id: nat)
      ensures id == StateOf(peer).lastAppended
    {
      id := if peer in lastAppended then lastAppended[peer] else 0;
    }

    method LoadAck(peer: Peer) returns (cumAcked: nat)
      ensures cumAcked == StateOf(peer).cumAcked
    {
      cumAcked := if peer in ackState then ackState[peer] else 0;
    }

    method StoreAck(peer: Peer, cumAcked: nat)
      modifies this
      ensures StateOf(peer) == old(StateOf(peer)).(cumAcked := cumAcked)
      ensures forall p | p != peer :: StateOf(p) == old(StateOf(p))
    {
      ackState := ackState[peer := cumAcked];
    }
  }
}
