/** Receiver-side deduplication: a watermark below which everything was processed and a
    bounded window of ids processed ahead of it, against a plain set of ids. Message ids
    are unbounded numbers here; the program uses `u64`. */
module Dedup {
  import opened Base

  datatype DedupState = DedupState(cum: nat, gaps: set<nat>)

  const EMPTY := DedupState(0, {})

  predicate IsProcessed(s: DedupState, id: nat) {
    id <= s.cum || id in s.gaps
  }

  /** The watermark swallows the gap ids that follow it. */
  function Absorb(cum: nat, gaps: set<nat>): DedupState
    decreases |gaps|
  {
    if cum + 1 in gaps then Absorb(cum + 1, gaps - {cum + 1}) else DedupState(cum, gaps)
  }

  function Mark(s: DedupState, window: nat, id: nat): DedupState {
    if id <= s.cum then s
    else if id == s.cum + 1 then
      var a := Absorb(id, s.gaps);
      DedupState(a.cum, set g | g in a.gaps && a.cum < g <= a.cum + window)
    else if id <= s.cum + window then s.(gaps := s.gaps + {id})
    else s
  }

  /** The ids `Mark` does not ignore. */
  predicate Tracked(s: DedupState, window: nat, id: nat) {
    id <= s.cum + 1 || id <= s.cum + window
  }

  ghost predicate Valid(s: DedupState, window: nat) {
    forall g | g in s.gaps :: s.cum + 1 < g <= s.cum + window
  }

  // ---------------------------------------------------------------------------
  // One call

  lemma {:induction false} AbsorbMeaning(cum: nat, gaps: set<nat>)
    ensures var a := Absorb(cum, gaps);
            && a.cum >= cum && a.gaps <= gaps && a.cum + 1 !in a.gaps
            && (forall id: nat :: IsProcessed(a, id) <==> id <= cum || id in gaps)
    decreases |gaps|
  {
    if cum + 1 in gaps {
      AbsorbMeaning(cum + 1, gaps - {cum + 1});
      var a := Absorb(cum + 1, gaps - {cum + 1});
      assert forall id: nat :: id <= cum || id in gaps <==> id <= cum + 1 || id in gaps - {cum + 1};
    }
  }

  /** Marking adds exactly the marked id to the processed ones, provided the id is
      tracked, and otherwise changes nothing: the retain step drops nothing needed. */
  lemma MarkMeaning(s: DedupState, window: nat, id: nat)
    requires Valid(s, window)
    ensures Valid(Mark(s, window, id), window) && Mark(s, window, id).cum >= s.cum
    ensures forall k: nat :: IsProcessed(Mark(s, window, id), k) <==>
                        IsProcessed(s, k) || (k == id && (id <= s.cum + 1 || id <= s.cum + window))
    ensures forall k: nat :: IsProcessed(s, k) <==> k <= s.cum || k in s.gaps
  {
    if id == s.cum + 1 {
      AbsorbMeaning(id, s.gaps);
    }
  }

  /** The watermark is the largest k with all of 1..k processed. */
  lemma WatermarkMaximal(s: DedupState, window: nat, k: nat)
    requires Valid(s, window)
    ensures (forall id: nat | id <= k :: IsProcessed(s, id)) <==> k <= s.cum
  {
    assert !IsProcessed(s, s.cum + 1);
  }

  /** The state is determined by the set of processed ids. */
  lemma StateCanonical(s: DedupState, t: DedupState, window: nat)
    requires Valid(s, window) && Valid(t, window)
    requires forall id: nat :: IsProcessed(s, id) <==> IsProcessed(t, id)
    ensures s == t
  {
    WatermarkMaximal(s, window, t.cum);
    WatermarkMaximal(t, window, s.cum);
    assert forall g: nat :: g in s.gaps <==> IsProcessed(s, g) && g > s.cum;
    assert forall g: nat :: g in t.gaps <==> IsProcessed(t, g) && g > t.cum;
    assert s.gaps == t.gaps;
  }

  // ---------------------------------------------------------------------------
  // Runs

  function MarkAll(s: DedupState, window: nat, ids: seq<nat>): DedupState
    decreases |ids|
  {
    if ids == [] then s else MarkAll(Mark(s, window, ids[0]), window, ids[1..])
  }

  /** Every id arrives while it is tracked. */
  predicate InWindow(s: DedupState, window: nat, ids: seq<nat>)
    decreases |ids|
  {
    ids == [] || (Tracked(s, window, ids[0]) && InWindow(Mark(s, window, ids[0]), window, ids[1..]))
  }

  lemma {:induction false} RunIsSet(s: DedupState, window: nat, ids: seq<nat>, id: nat)
    requires Valid(s, window) && InWindow(s, window, ids)
    ensures Valid(MarkAll(s, window, ids), window)
    ensures IsProcessed(MarkAll(s, window, ids), id) <==> IsProcessed(s, id) || id in ids
    decreases |ids|
  {
    if ids != [] {
      MarkMeaning(s, window, ids[0]);
      RunIsSet(Mark(s, window, ids[0]), window, ids[1..], id);
      assert id in ids <==> id == ids[0] || id in ids[1..];
    }
  }

  /** Two in-window orders of the same ids, with any repetitions, end in the same state. */
  lemma OrderIrrelevant(window: nat, ids: seq<nat>, jds: seq<nat>)
    requires InWindow(EMPTY, window, ids) && InWindow(EMPTY, window, jds)
    requires forall id: nat :: id in ids <==> id in jds
    ensures MarkAll(EMPTY, window, ids) == MarkAll(EMPTY, window, jds)
  {
    forall id: nat
      ensures IsProcessed(MarkAll(EMPTY, window, ids), id) <==> IsProcessed(MarkAll(EMPTY, window, jds), id)
    {
      RunIsSet(EMPTY, window, ids, id);
      RunIsSet(EMPTY, window, jds, id);
    }
    RunIsSet(EMPTY, window, ids, 0);
    RunIsSet(EMPTY, window, jds, 0);
    StateCanonical(MarkAll(EMPTY, window, ids), MarkAll(EMPTY, window, jds), window);
  }

  // ---------------------------------------------------------------------------
  // How often an id counts as new: an arrival does if its id is not yet processed

  lemma MarkIdempotent(s: DedupState, window: nat, id: nat)
    requires Valid(s, window) && IsProcessed(s, id)
    ensures Mark(s, window, id) == s
  {
    assert id in s.gaps ==> s.gaps + {id} == s.gaps;
  }

  /** The number of arrivals of `id` reported as new. */
  function Deliveries(s: DedupState, window: nat, ids: seq<nat>, id: nat): nat
    decreases |ids|
  {
    if ids == [] then 0
    else (if ids[0] == id && !IsProcessed(s, id) then 1 else 0)
         + Deliveries(Mark(s, window, ids[0]), window, ids[1..], id)
  }

  /** The number of arrivals of `id` beyond the window. */
  function Strays(s: DedupState, window: nat, ids: seq<nat>, id: nat): nat
    decreases |ids|
  {
    if ids == [] then 0
    else (if ids[0] == id && !Tracked(s, window, id) then 1 else 0)
         + Strays(Mark(s, window, ids[0]), window, ids[1..], id)
  }

  /** Whether some arrival of `id` falls inside the window. */
  predicate Lands(s: DedupState, window: nat, ids: seq<nat>, id: nat)
    decreases |ids|
  {
    ids != [] && ((ids[0] == id && Tracked(s, window, id)) || Lands(Mark(s, window, ids[0]), window, ids[1..], id))
  }

  /** The exact count, for every run: each stray arrival is reported as new, and so is the
      first arrival inside the window; nothing after that is. */
  lemma {:induction false} DeliveryCount(s: DedupState, window: nat, ids: seq<nat>, id: nat)
    requires Valid(s, window)
    ensures Deliveries(s, window, ids, id) ==
            if IsProcessed(s, id) then 0
            else Strays(s, window, ids, id) + (if Lands(s, window, ids, id) then 1 else 0)
    ensures IsProcessed(MarkAll(s, window, ids), id) <==> IsProcessed(s, id) || Lands(s, window, ids, id)
    decreases |ids|
  {
    if ids != [] {
      var t := Mark(s, window, ids[0]);
      MarkMeaning(s, window, ids[0]);
      DeliveryCount(t, window, ids[1..], id);
      if ids[0] == id && Tracked(s, window, id) {
        assert IsProcessed(t, id);
        NoStraysOnceProcessed(t, window, ids[1..], id);
      }
    }
  }

  /** The window only moves up. */
  lemma {:induction false} NoStraysOnceProcessed(s: DedupState, window: nat, ids: seq<nat>, id: nat)
    requires Valid(s, window) && Tracked(s, window, id)
    ensures Strays(s, window, ids, id) == 0
    decreases |ids|
  {
    if ids != [] {
      MarkMeaning(s, window, ids[0]);
      NoStraysOnceProcessed(Mark(s, window, ids[0]), window, ids[1..], id);
    }
  }

  lemma {:induction false} InWindowHasNoStrays(s: DedupState, window: nat, ids: seq<nat>, id: nat)
    requires InWindow(s, window, ids)
    ensures Strays(s, window, ids, id) == 0
    ensures Lands(s, window, ids, id) <==> id in ids
    decreases |ids|
  {
    if ids != [] {
      InWindowHasNoStrays(Mark(s, window, ids[0]), window, ids[1..], id);
    }
  }

  /** Exactly once, for ids that arrive inside the window. */
  lemma ExactlyOnce(window: nat, ids: seq<nat>, id: nat)
    requires id >= 1 && InWindow(EMPTY, window, ids)
    ensures Deliveries(EMPTY, window, ids, id) == if id in ids then 1 else 0
  {
    DeliveryCount(EMPTY, window, ids, id);
    InWindowHasNoStrays(EMPTY, window, ids, id);
  }

  /** At least once, for ids at or below the watermark, whatever arrived. */
  lemma WatermarkDelivered(window: nat, ids: seq<nat>, id: nat)
    requires 1 <= id <= MarkAll(EMPTY, window, ids).cum
    ensures Deliveries(EMPTY, window, ids, id) >= 1
  {
    DeliveryCount(EMPTY, window, ids, id);
  }

  /** Without the window assumption an id can count as new more than once. */
  lemma StrayCountsTwice(window: nat)
    requires window >= 1
    ensures Deliveries(EMPTY, window, [window + 1, window + 1], window + 1) == 2
  {
    var ids := [window + 1, window + 1];
    assert ids[1..] == [window + 1] && [window + 1][1..] == [];
    assert Mark(EMPTY, window, window + 1) == EMPTY;
    assert Deliveries(EMPTY, window, [window + 1], window + 1) == 1;
  }

  // ---------------------------------------------------------------------------
  // The in-memory store

  method AbsorbGaps(cum0: nat, gaps0: set<nat>) returns (cum: nat, gaps: set<nat>)
    ensures DedupState(cum, gaps) == Absorb(cum0, gaps0) && cum >= cum0
  {
    cum, gaps := cum0, gaps0;
    while cum + 1 in gaps
      invariant cum >= cum0 && Absorb(cum, gaps) == Absorb(cum0, gaps0)
      decreases |gaps|
    {
      gaps := gaps - {cum + 1};
      cum := cum + 1;
    }
  }

  class MemoryDedup {
    var cumProcessed: map<Peer, nat>
    var gapWindow: map<Peer, set<nat>>
    const windowSize: nat

    function StateOf(peer: Peer): DedupState
      reads this
    {
      DedupState(if peer in cumProcessed then cumProcessed[peer] else 0,
                 if peer in gapWindow then gapWindow[peer] else {})
    }

    constructor (windowSize: nat)
      ensures this.windowSize == windowSize
      ensures forall peer :: StateOf(peer) == EMPTY
    {
      this.windowSize := windowSize;
      cumProcessed, gapWindow := map[], map[];
    }

    method Contains(peer: Peer, id: nat) returns (r: bool)
      ensures r <==> IsProcessed(StateOf(peer), id)
    {
      var cum := if peer in cumProcessed then cumProcessed[peer] else 0;
      if id <= cum {
        return true;
      }
      if peer in gapWindow {
        return id in gapWindow[peer];
      }
      return false;
    }

    method MarkProcessed(peer: Peer, id: nat)
      modifies this
      ensures StateOf(peer) == Mark(old(StateOf(peer)), windowSize, id)
      ensures forall p | p != peer :: StateOf(p) == old(StateOf(p))
    {
      var cum := if peer in cumProcessed then cumProcessed[peer] else 0;
      if id <= cum {
        return;
      }
      var gaps: set<nat> := if peer in gapWindow then gapWindow[peer] else {};
      if id == cum + 1 {
        cum := id;
        cumProcessed := cumProcessed[peer := cum];
        cum, gaps := AbsorbGaps(cum, gaps);
        if cum > id {
          cumProcessed := cumProcessed[peer := cum];
        }
        gaps := set g: nat | g in gaps && cum < g <= cum + windowSize;
        gapWindow := gapWindow[peer := gaps];
      } else {
        if id <= cum + windowSize {
          gaps := gaps + {id};
        }
        gapWindow := gapWindow[peer := gaps];
      }
    }

    method CumProcessed(peer: Peer) returns (cum: nat)
      ensures cum == StateOf(peer).cum
    {
      cum := if peer in cumProcessed then cumProcessed[peer] else 0;
    }
  }
}
