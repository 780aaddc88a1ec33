/** The reliability layer of a session: numbering and logging of outgoing frames, byte
    credits, cumulative acknowledgements, retransmission on RESUME, and the receiving
    side's acknowledgements. Each operation is a function on values; the class below
    performs them in place. Frames are built by the wire layer, whose result (nothing, if
    the frame is too large) is a parameter; so are clock readings. */
module Reliability {
  import opened Base
  import opened Wal
  import opened Dedup

  datatype SendState = SendState(nextMsgId: nat, cumAcked: nat, creditsBytes: int, pending: seq<Entry>)

  datatype RecvState = RecvState(cumProcessed: nat, creditsMax: u32, creditsAvail: int, ackPending: bool,
                                 lastAckSent: nat, msgsSinceAck: nat)

  datatype AckMeta = AckMeta(cumAck: nat, credits: u32)

  datatype ResumeMeta = ResumeMeta(senderCumAck: nat, receiverCumProc: nat, startingCredits: Option<u32>)

  // ---------------------------------------------------------------------------
  // Byte credits

  function Size(frames: seq<Entry>): nat {
    if frames == [] then 0 else |frames[0].bytes| + Size(frames[1..])
  }

  /** How many frames from the front are written before the credits run short. */
  function FitCount(frames: seq<Entry>, credits: int): (k: nat)
    ensures k <= |frames|
  {
    if frames == [] || credits < |frames[0].bytes| then 0
    else 1 + FitCount(frames[1..], credits - |frames[0].bytes|)
  }

  /** The frames written are the longest prefix the credits pay for. */
  lemma {:induction false} FitLongest(frames: seq<Entry>, credits: int)
    requires credits >= 0
    ensures var k := FitCount(frames, credits);
            && Size(frames[..k]) <= credits
            && (k < |frames| ==> Size(frames[..k + 1]) > credits)
    decreases |frames|
  {
    var k := FitCount(frames, credits);
    if k > 0 {
      FitLongest(frames[1..], credits - |frames[0].bytes|);
      assert frames[..k][1..] == frames[1..][..k - 1];
      if k < |frames| {
        assert frames[..k + 1][1..] == frames[1..][..k];
      }
    } else if frames != [] {
      assert frames[..1][1..] == [];
    }
  }

  lemma {:induction false} FitsAll(frames: seq<Entry>, credits: int)
    requires Size(frames) <= credits
    ensures FitCount(frames, credits) == |frames|
    decreases |frames|
  {
    if frames != [] {
      FitsAll(frames[1..], credits - |frames[0].bytes|);
    }
  }

  // ---------------------------------------------------------------------------
  // The sending side

  function InitSend(w: WalState): SendState {
    SendState(w.lastAppended + 1, w.cumAcked, 0, [])
  }

  /** The state after an operation and the frames it wrote to the connection. */
  datatype Sent = Sent(s: SendState, w: WalState, written: seq<Entry>)

  /** An id is used up even if no frame could be built for it. */
  function SendData(s: SendState, w: WalState, built: Option<Bytes>): Sent {
    var s1 := s.(nextMsgId := s.nextMsgId + 1);
    match built
    case None => Sent(s1, w, [])
    case Some(bytes) =>
      var e := Entry(s.nextMsgId, bytes);
      var w1 := WalState(w.entries + [e], w.cumAcked, e.msgId);
      if s.creditsBytes >= |bytes| then Sent(s1.(creditsBytes := s.creditsBytes - |bytes|), w1, [e])
      else Sent(s1.(pending := s.pending + [e]), w1, [])
  }

  function OnAck(s: SendState, w: WalState, a: AckMeta): Sent {
    var k := FitCount(s.pending, a.credits);
    var newer := a.cumAck > s.cumAcked;
    Sent(SendState(s.nextMsgId, if newer then a.cumAck else s.cumAcked,
                   a.credits - Size(s.pending[..k]), s.pending[k..]),
         if newer then WalState(Above(w.entries, a.cumAck), a.cumAck, w.lastAppended) else w,
         s.pending[..k])
  }

  /** Retransmission leaves the queue of frames waiting for credits alone. */
  function OnResume(s: SendState, w: WalState, r: ResumeMeta): Sent {
    var credits := if r.startingCredits.Some? then r.startingCredits.value else s.creditsBytes;
    var frames := Above(w.entries, r.receiverCumProc);
    var k := FitCount(frames, credits);
    Sent(s.(creditsBytes := credits - Size(frames[..k])), w, frames[..k])
  }

  /** Ids go on above the last logged one; a new sender has no credits and no queue. */
  lemma InitSendMeaning(w: WalState)
    ensures var s := InitSend(w);
            s.nextMsgId == w.lastAppended + 1 && s.cumAcked == w.cumAcked && s.creditsBytes == 0 && s.pending == []
  {
  }

  /** A frame that could be built is logged under the next id; it is written if the credits pay
      for it and waits at the end of the queue otherwise. One that could not only uses up the id. */
  lemma SendMeaning(s: SendState, w: WalState, built: Option<Bytes>)
    ensures var o := SendData(s, w, built);
            o.s.nextMsgId == s.nextMsgId + 1 && o.s.cumAcked == s.cumAcked && o.w.cumAcked == w.cumAcked
    ensures var o := SendData(s, w, built);
            built.None? ==> o.w == w && o.written == [] && o.s.pending == s.pending && o.s.creditsBytes == s.creditsBytes
    ensures var o := SendData(s, w, built);
            built.Some? ==>
              var e := Entry(s.nextMsgId, built.value);
              && o.w.entries == w.entries + [e] && o.w.lastAppended == s.nextMsgId
              && (o.written == [e] <==> |built.value| <= s.creditsBytes)
              && o.written + o.s.pending == (if |built.value| <= s.creditsBytes then [e] + s.pending else s.pending + [e])
              && o.s.creditsBytes + Size(o.written) == s.creditsBytes
  {
    if built.Some? {
      SizeAppend([], Entry(s.nextMsgId, built.value));
      assert [] + [Entry(s.nextMsgId, built.value)] == [Entry(s.nextMsgId, built.value)];
      assert [] + (s.pending + [Entry(s.nextMsgId, built.value)]) == s.pending + [Entry(s.nextMsgId, built.value)];
    }
  }

  /** The acknowledged watermark becomes the larger one; a larger one frees exactly the entries
      up to it, any other leaves the log alone. */
  lemma AckRecords(s: SendState, w: WalState, a: AckMeta, e: Entry)
    ensures var o := OnAck(s, w, a);
            && o.s.nextMsgId == s.nextMsgId && o.w.lastAppended == w.lastAppended
            && o.s.cumAcked == (if a.cumAck > s.cumAcked then a.cumAck else s.cumAcked)
            && (a.cumAck > s.cumAcked ==>
                  o.w.cumAcked == a.cumAck && (e in o.w.entries <==> e in w.entries && e.msgId > a.cumAck))
            && (a.cumAck <= s.cumAcked ==> o.w == w)
  {
    AboveMembers(w.entries, a.cumAck, e);
  }

  /** An acknowledgement writes the longest prefix of the queue that its credits pay for,
      in order, and leaves exactly the rest. */
  lemma AckWritesLongestPrefix(s: SendState, w: WalState, a: AckMeta)
    ensures var o := OnAck(s, w, a);
            && o.written + o.s.pending == s.pending
            && Size(o.written) + o.s.creditsBytes == a.credits && o.s.creditsBytes >= 0
            && (o.s.pending != [] ==> |o.s.pending[0].bytes| > o.s.creditsBytes)
  {
    var k := FitCount(s.pending, a.credits);
    FitLongest(s.pending, a.credits);
    if k < |s.pending| {
      assert s.pending[..k + 1] == s.pending[..k] + [s.pending[k]];
      SizeAppend(s.pending[..k], s.pending[k]);
    }
  }

  /** A RESUME writes the longest prefix of the log above the peer's watermark that the
      credits pay for, and touches neither log nor queue. */
  lemma ResumeWritesLongestPrefix(s: SendState, w: WalState, r: ResumeMeta)
    requires s.creditsBytes >= 0
    ensures var o := OnResume(s, w, r);
            var frames := Above(w.entries, r.receiverCumProc);
            && o.written <= frames && o.s.creditsBytes >= 0
            && (o.written < frames ==> |frames[|o.written|].bytes| > o.s.creditsBytes)
            && Size(o.written) + o.s.creditsBytes ==
                 (if r.startingCredits.Some? then r.startingCredits.value else s.creditsBytes)
            && o.w == w && o.s.pending == s.pending && o.s.nextMsgId == s.nextMsgId && o.s.cumAcked == s.cumAcked
  {
    var credits := if r.startingCredits.Some? then r.startingCredits.value else s.creditsBytes;
    var frames := Above(w.entries, r.receiverCumProc);
    var k := FitCount(frames, credits);
    FitLongest(frames, credits);
    if k < |frames| {
      assert frames[..k + 1] == frames[..k] + [frames[k]];
      SizeAppend(frames[..k], frames[k]);
    }
  }

  // ---------------------------------------------------------------------------
  // The order of sending

  datatype Step = Post(built: Option<Bytes>) | Acked(ack: AckMeta)

  function Take(s: SendState, w: WalState, step: Step): Sent {
    match step
    case Post(built) => SendData(s, w, built)
    case Acked(a) => OnAck(s, w, a)
  }

  /** The state after the steps and everything they wrote, in order. */
  function TakeAll(s: SendState, w: WalState, steps: seq<Step>): Sent {
    if steps == [] then Sent(s, w, [])
    else
      var before := TakeAll(s, w, steps[..|steps| - 1]);
      var o := Take(before.s, before.w, steps[|steps| - 1]);
      Sent(o.s, o.w, before.written + o.written)
  }

  /** A new frame that is paid for while others wait. */
  predicate Overtakes(s: SendState, step: Step) {
    step.Post? && step.built.Some? && s.pending != [] && s.creditsBytes >= |step.built.value|
  }

  predicate Orderly(s: SendState, w: WalState, steps: seq<Step>) {
    steps == [] ||
    var front := steps[..|steps| - 1];
    Orderly(s, w, front) && !Overtakes(TakeAll(s, w, front).s, steps[|steps| - 1])
  }

  /** Written frames, then the frames waiting. */
  function Line(o: Sent): seq<Entry> {
    o.written + o.s.pending
  }

  lemma AppendedOrder(a: seq<Entry>, e: Entry)
    requires forall x | x in a :: x.msgId < e.msgId
    ensures Increasing(a + [e]) <==> Increasing(a)
  {
    var t := a + [e];
    if Increasing(t) {
      forall i, j | 0 <= i < j < |a|
        ensures a[i].msgId < a[j].msgId
      {
        assert t[i] == a[i] && t[j] == a[j];
      }
    }
  }

  /** What a step does to the line: nothing, a new frame at the end, or one in between. */
  lemma StepLine(o: Sent, step: Step)
    ensures var n := Take(o.s, o.w, step);
            var line := o.written + n.written + n.s.pending;
            if step.Acked? || step.built.None? then line == Line(o) && n.s.nextMsgId >= o.s.nextMsgId
            else
              var e := Entry(o.s.nextMsgId, step.built.value);
              && n.s.nextMsgId == o.s.nextMsgId + 1
              && line == if Overtakes(o.s, step) then o.written + [e] + o.s.pending else Line(o) + [e]
  {
    hide FitCount, Above, Size;
    if step.Acked? {
      AckWritesLongestPrefix(o.s, o.w, step.ack);
      var n := Take(o.s, o.w, step);
      assert o.written + n.written + n.s.pending == o.written + (n.written + n.s.pending);
    }
  }

  /** One step keeps the line, extends it at the end, or breaks its order. */
  lemma StepOrder(o: Sent, step: Step)
    requires forall e | e in Line(o) :: e.msgId < o.s.nextMsgId
    ensures var n := Take(o.s, o.w, step);
            var line := o.written + n.written + n.s.pending;
            && (forall e | e in line :: e.msgId < n.s.nextMsgId)
            && (Increasing(line) <==> Increasing(Line(o)) && !Overtakes(o.s, step))
  {
    hide Take;
    StepLine(o, step);
    if step.Post? && step.built.Some? {
      var e := Entry(o.s.nextMsgId, step.built.value);
      if Overtakes(o.s, step) {
        InsertedBefore(o.written, e, o.s.pending);
      } else {
        AppendedOrder(Line(o), e);
      }
    }
  }

  lemma InsertedBefore(a: seq<Entry>, e: Entry, b: seq<Entry>)
    requires b != [] && forall x | x in a + b :: x.msgId < e.msgId
    ensures !Increasing(a + [e] + b) && forall x | x in a + [e] + b :: x.msgId <= e.msgId
  {
    var t, i := a + [e] + b, |a|;
    assert t[i] == e && t[i + 1] == b[0] && b[0] in a + b;
    forall x | x in t
      ensures x.msgId <= e.msgId
    {
      assert x in a + b || x == e;
    }
  }

  /** What is written and then what waits has rising ids exactly if no frame was paid for while
      others were waiting: sending is first-in first-out just then. */
  lemma {:induction false} InOrderIff(s: SendState, w: WalState, steps: seq<Step>)
    requires Increasing(s.pending) && forall e | e in s.pending :: e.msgId < s.nextMsgId
    ensures Increasing(Line(TakeAll(s, w, steps))) <==> Orderly(s, w, steps)
    ensures forall e | e in Line(TakeAll(s, w, steps)) :: e.msgId < TakeAll(s, w, steps).s.nextMsgId
    decreases |steps|
  {
    hide Take, Increasing;
    if steps == [] {
      assert [] + s.pending == s.pending;
    } else {
      var front, last := steps[..|steps| - 1], steps[|steps| - 1];
      InOrderIff(s, w, front);
      StepOrder(TakeAll(s, w, front), last);
    }
  }

  /** Two bytes wait for two credits when one byte goes out for one; they follow when the next
      ACK pays for them, so 2 is written before 1. */
  lemma SmallFrameOvertakes()
    ensures var steps := [Post(Some([7, 7])), Acked(AckMeta(0, 1)), Post(Some([9])), Acked(AckMeta(0, 2))];
            TakeAll(InitSend(EMPTY_WAL), EMPTY_WAL, steps).written == [Entry(2, [9]), Entry(1, [7, 7])]
  {
    hide Take;
    var s, w := InitSend(EMPTY_WAL), EMPTY_WAL;
    var big, small := Entry(1, [7, 7]), Entry(2, [9]);
    var w1 := WalState([big], 0, 1);
    var w2 := WalState([big, small], 0, 2);
    var a, b, c, d := Post(Some([7, 7])), Acked(AckMeta(0, 1)), Post(Some([9])), Acked(AckMeta(0, 2));
    TakeFour(s, w, a, b, c, d);
    TakeBig();
    TakeSmall();
    assert Take(s, w, a) == Sent(SendState(2, 0, 0, [big]), w1, []);
    assert Take(SendState(2, 0, 0, [big]), w1, b) == Sent(SendState(2, 0, 1, [big]), w1, []);
    assert Take(SendState(2, 0, 1, [big]), w1, c) == Sent(SendState(3, 0, 0, [big]), w2, [small]);
    assert Take(SendState(3, 0, 0, [big]), w2, d).written == [big];
  }

  lemma TakeFour(s: SendState, w: WalState, a: Step, b: Step, c: Step, d: Step)
    ensures var one := Take(s, w, a);
            var two := Take(one.s, one.w, b);
            var three := Take(two.s, two.w, c);
            var four := Take(three.s, three.w, d);
            TakeAll(s, w, [a, b, c, d]).written == one.written + two.written + three.written + four.written
  {
    hide Take;
    assert [a, b, c, d][..3] == [a, b, c] && [a, b, c][..2] == [a, b] && [a, b][..1] == [a] && [a][..0] == [];
    var one := Take(s, w, a);
    assert TakeAll(s, w, []) == Sent(s, w, []);
    assert TakeAll(s, w, [a]) == Sent(one.s, one.w, one.written);
    var two := Take(one.s, one.w, b);
    assert TakeAll(s, w, [a, b]) == Sent(two.s, two.w, one.written + two.written);
    var three := Take(two.s, two.w, c);
    assert TakeAll(s, w, [a, b, c]) == Sent(three.s, three.w, one.written + two.written + three.written);
  }

  lemma TakeBig()
    ensures var big, w1 := Entry(1, [7, 7]), WalState([Entry(1, [7, 7])], 0, 1);
            && Take(InitSend(EMPTY_WAL), EMPTY_WAL, Post(Some([7, 7]))) == Sent(SendState(2, 0, 0, [big]), w1, [])
            && Take(SendState(2, 0, 0, [big]), w1, Acked(AckMeta(0, 1))) == Sent(SendState(2, 0, 1, [big]), w1, [])
  {
    assert EMPTY_WAL.entries + [Entry(1, [7, 7])] == [Entry(1, [7, 7])];
    assert [Entry(1, [7, 7])][..0] == [];
    assert Size([]) == 0;
  }

  lemma TakeSmall()
    ensures var big, small := Entry(1, [7, 7]), Entry(2, [9]);
            var w1, w2 := WalState([big], 0, 1), WalState([big, small], 0, 2);
            && Take(SendState(2, 0, 1, [big]), w1, Post(Some([9]))) == Sent(SendState(3, 0, 0, [big]), w2, [small])
            && Take(SendState(3, 0, 0, [big]), w2, Acked(AckMeta(0, 2))).written == [big]
  {
    var big := Entry(1, [7, 7]);
    assert [big][1..] == [] && [big][..1] == [big];
    assert FitCount([big], 2) == 1;
  }

  // ---------------------------------------------------------------------------
  // The receiving side

  function InitRecv(d: DedupState, window: u32, now: nat): RecvState {
    RecvState(d.cum, window, window, false, now, 0)
  }

  datatype Received = Received(r: RecvState, d: DedupState, isNew: bool)

  function OnData(r: RecvState, d: DedupState, gapWindow: nat, id: nat, len: nat): Received {
    if IsProcessed(d, id) then Received(r.(ackPending := true), d, false)
    else
      var d1 := Mark(d, gapWindow, id);
      Received(r.(cumProcessed := d1.cum, creditsAvail := r.creditsAvail - len, ackPending := true,
                  msgsSinceAck := r.msgsSinceAck + 1),
               d1, true)
  }

  /** A new receiver starts from the stored watermark with a full window and nothing to
      acknowledge. */
  lemma InitRecvMeaning(d: DedupState, window: u32, now: nat)
    ensures var r := InitRecv(d, window, now);
            && r.cumProcessed == d.cum && r.creditsMax == window && r.creditsAvail == window
            && !r.ackPending && r.lastAckSent == now && r.msgsSinceAck == 0
  {
  }

  /** A frame is new if its id is neither at or below the watermark nor in the gap window. A new
      one is marked, charged and counted; a known one only asks for another acknowledgement. */
  lemma DataMeaning(r: RecvState, d: DedupState, gapWindow: nat, id: nat, len: nat)
    ensures var o := OnData(r, d, gapWindow, id, len);
            && (o.isNew <==> id > d.cum && id !in d.gaps)
            && o.r.ackPending && o.r.lastAckSent == r.lastAckSent && o.r.creditsMax == r.creditsMax
            && (o.isNew ==>
                  && o.d == Mark(d, gapWindow, id) && o.r.cumProcessed == o.d.cum
                  && o.r.creditsAvail == r.creditsAvail - len && o.r.msgsSinceAck == r.msgsSinceAck + 1)
            && (!o.isNew ==> o.d == d && o.r == r.(ackPending := true))
  {
  }

  predicate ShouldAck(r: RecvState, now: nat, interval: nat, batch: nat) {
    r.ackPending && (now - r.lastAckSent >= interval || r.msgsSinceAck >= batch || r.creditsAvail <= r.creditsMax / 4)
  }

  /** Credits are refilled when at most half is left, then advertised in 32 bits. */
  function Refilled(r: RecvState): int {
    if r.creditsAvail <= r.creditsMax / 2 then r.creditsMax else r.creditsAvail
  }

  function BuildAck(r: RecvState, now: nat): (RecvState, AckMeta) {
    (r.(creditsAvail := Refilled(r), ackPending := false, lastAckSent := now, msgsSinceAck := 0),
     AckMeta(r.cumProcessed, Refilled(r) % (U32_MAX + 1)))
  }

  function BuildResume(s: SendState, r: RecvState): ResumeMeta {
    ResumeMeta(s.cumAcked, r.cumProcessed, Some(r.creditsMax))
  }

  /** An acknowledgement is due if one is owed and the interval is over, or enough messages have
      come, or at most a quarter of the window is left. */
  lemma AckDueIff(r: RecvState, now: nat, interval: nat, batch: nat)
    ensures ShouldAck(r, now, interval, batch) <==>
              && r.ackPending
              && (now >= r.lastAckSent + interval || r.msgsSinceAck >= batch || 4 * r.creditsAvail <= r.creditsMax)
  {
  }

  /** Building one states the watermark, clears what was owed, restarts timer and count, and
      refills the credits if at most half of the window is left. */
  lemma AckMeaning(r: RecvState, now: nat)
    ensures var (r', a) := BuildAck(r, now);
            && a.cumAck == r.cumProcessed && r'.cumProcessed == r.cumProcessed && r'.creditsMax == r.creditsMax
            && !r'.ackPending && r'.lastAckSent == now && r'.msgsSinceAck == 0
            && r'.creditsAvail == (if 2 * r.creditsAvail <= r.creditsMax then r.creditsMax else r.creditsAvail)
  {
  }

  /** A RESUME states both watermarks of its sender and grants its whole window. */
  lemma ResumeMeaning(s: SendState, r: RecvState)
    ensures var m := BuildResume(s, r);
            && m.senderCumAck == s.cumAcked && m.receiverCumProc == r.cumProcessed
            && m.startingCredits == Some(r.creditsMax)
  {
  }

  /** However far `creditsAvail` fell, an acknowledgement advertises more than half of the
      window and at most all of it, and the cast to 32 bits loses nothing. */
  lemma AdvertisedCredits(r: RecvState, now: nat)
    requires r.creditsAvail <= r.creditsMax
    ensures var (r', a) := BuildAck(r, now);
            && a.credits == r'.creditsAvail && a.cumAck == r.cumProcessed
            && a.credits <= r.creditsMax && (r.creditsMax > 0 ==> a.credits > r.creditsMax / 2)
  {
  }

  // ---------------------------------------------------------------------------
  // In place

  /** Writes queued frames while credits last, noting their positions. */
  method WritePending(pending: seq<Entry>, credits0: int)
    returns (credits: int, sentFrames: seq<nat>, written: seq<Entry>)
    ensures var k := FitCount(pending, credits0);
            && written == pending[..k] && credits == credits0 - Size(pending[..k])
            && |sentFrames| == k && forall i | 0 <= i < k :: sentFrames[i] == i
  {
    credits, sentFrames, written := credits0, [], [];
    var i := 0;
    assert pending[0..] == pending;
    while i < |pending|
      invariant i <= |pending| && written == pending[..i]
      invariant |sentFrames| == i && forall j | 0 <= j < i :: sentFrames[j] == j
      invariant credits == credits0 - Size(pending[..i])
      invariant FitCount(pending, credits0) == i + FitCount(pending[i..], credits)
    {
      assert pending[i..][1..] == pending[i + 1..];
      if credits < |pending[i].bytes| {
        break;
      }
      SizeAppend(pending[..i], pending[i]);
      assert pending[..i + 1] == pending[..i] + [pending[i]];
      written := written + [pending[i]];
      credits := credits - |pending[i].bytes|;
      sentFrames := sentFrames + [i];
      i := i + 1;
    }
  }

  lemma {:induction false} SizeAppend(frames: seq<Entry>, e: Entry)
    ensures Size(frames + [e]) == Size(frames) + |e.bytes|
    decreases |frames|
  {
    if frames == [] {
      assert ([] + [e])[1..] == [];
    } else {
      SizeAppend(frames[1..], e);
      assert (frames + [e])[1..] == frames[1..] + [e];
    }
  }

  /** Removes the noted positions, highest first. */
  method RemoveSent(pending0: seq<Entry>, sentFrames: seq<nat>) returns (pending: seq<Entry>)
    requires |sentFrames| <= |pending0| && forall i | 0 <= i < |sentFrames| :: sentFrames[i] == i
    ensures pending == pending0[|sentFrames|..]
  {
    pending := pending0;
    var j := |sentFrames|;
    while j > 0
      invariant 0 <= j <= |sentFrames|
      invariant pending == pending0[..j] + pending0[|sentFrames|..]
    {
      j := j - 1;
      var i := sentFrames[j];
      pending := pending[..i] + pending[i + 1..];
    }
  }

  class ReliabilityManager {
    const wal: MemoryWal
    const dedup: MemoryDedup
    const ackInterval: nat
    const ackBatchSize: nat
    const defaultRecvWindow: u32
    var sendStates: map<Peer, SendState>
    var recvStates: map<Peer, RecvState>

    /** The sending state of a peer: the one in use, or the one storage would give. */
    function SendOf(peer: Peer): (s: SendState)
      reads this`sendStates, wal
      ensures peer in sendStates ==> s == sendStates[peer]
      ensures peer !in sendStates ==>
                && s.nextMsgId == wal.StateOf(peer).lastAppended + 1 && s.cumAcked == wal.StateOf(peer).cumAcked
                && s.creditsBytes == 0 && s.pending == []
    {
      if peer in sendStates then sendStates[peer] else InitSend(wal.StateOf(peer))
    }

    function RecvOf(peer: Peer, now: nat): (r: RecvState)
      reads this`recvStates, dedup
      ensures peer in recvStates ==> r == recvStates[peer]
      ensures peer !in recvStates ==>
                && r.cumProcessed == dedup.StateOf(peer).cum && r.creditsMax == r.creditsAvail == defaultRecvWindow
                && !r.ackPending && r.lastAckSent == now && r.msgsSinceAck == 0
    {
      if peer in recvStates then recvStates[peer] else InitRecv(dedup.StateOf(peer), defaultRecvWindow, now)
    }

    constructor (wal: MemoryWal, dedup: MemoryDedup, ackInterval: nat, ackBatchSize: nat, defaultRecvWindow: u32)
      ensures this.wal == wal && this.dedup == dedup && sendStates == map[] && recvStates == map[]
      ensures this.ackInterval == ackInterval && this.ackBatchSize == ackBatchSize
      ensures this.defaultRecvWindow == defaultRecvWindow
    {
      this.wal, this.dedup := wal, dedup;
      this.ackInterval, this.ackBatchSize, this.defaultRecvWindow := ackInterval, ackBatchSize, defaultRecvWindow;
      sendStates, recvStates := map[], map[];
    }

    method InitSendState(peer: Peer)
      modifies this`sendStates
      ensures sendStates == old(sendStates)[peer := old(SendOf(peer))]
    {
      if peer !in sendStates {
        var lastAppended := wal.LastAppended(peer);
        var cumAcked := wal.LoadAck(peer);
        sendStates := sendStates[peer := SendState(lastAppended + 1, cumAcked, 0, [])];
      }
    }

    method InitRecvState(peer: Peer, now: nat)
      modifies this`recvStates
      ensures recvStates == old(recvStates)[peer := old(RecvOf(peer, now))]
    {
      if peer !in recvStates {
        var cum := dedup.CumProcessed(peer);
        recvStates := recvStates[peer := RecvState(cum, defaultRecvWindow, defaultRecvWindow, false, now, 0)];
      }
    }

    method Send(peer: Peer, built: Option<Bytes>) returns (written: seq<Entry>, ok: bool)
      modifies this`sendStates, wal
      ensures peer in sendStates && ok == built.Some?
      ensures Sent(sendStates[peer], wal.StateOf(peer), written)
           == SendData(old(SendOf(peer)), old(wal.StateOf(peer)), built)
      ensures sendStates == old(sendStates)[peer := sendStates[peer]]
      ensures forall p | p != peer :: wal.StateOf(p) == old(wal.StateOf(p))
    {
      InitSendState(peer);
      var s := sendStates[peer];
      var msgId := s.nextMsgId;
      s := s.(nextMsgId := s.nextMsgId + 1);
      sendStates := sendStates[peer := s];
      if built.None? {
        return [], false;
      }
      var e := Entry(msgId, built.value);
      wal.Append(peer, e);
      if s.creditsBytes >= |e.bytes| {
        written := [e];
        s := s.(creditsBytes := s.creditsBytes - |e.bytes|);
      } else {
        written := [];
        s := s.(pending := s.pending + [e]);
      }
      sendStates := sendStates[peer := s];
      ok := true;
    }

    method ProcessDataFrame(peer: Peer, id: nat, len: nat, now: nat) returns (isNew: bool)
      modifies this`recvStates, dedup
      ensures peer in recvStates
      ensures Received(recvStates[peer], dedup.StateOf(peer), isNew)
           == OnData(old(RecvOf(peer, now)), old(dedup.StateOf(peer)), dedup.windowSize, id, len)
      ensures recvStates == old(recvStates)[peer := recvStates[peer]]
      ensures forall p | p != peer :: dedup.StateOf(p) == old(dedup.StateOf(p))
    {
      InitRecvState(peer, now);
      var seen := dedup.Contains(peer, id);
      var r := recvStates[peer];
      if seen {
        recvStates := recvStates[peer := r.(ackPending := true)];
        return false;
      }
      dedup.MarkProcessed(peer, id);
      var cum := dedup.CumProcessed(peer);
      recvStates := recvStates[peer := r.(cumProcessed := cum, creditsAvail := r.creditsAvail - len,
                                          ackPending := true, msgsSinceAck := r.msgsSinceAck + 1)];
      isNew := true;
    }

    method ProcessAckFrame(peer: Peer, a: AckMeta) returns (written: seq<Entry>)
      modifies this`sendStates, wal
      ensures peer in sendStates
      ensures Sent(sendStates[peer], wal.StateOf(peer), written)
           == OnAck(old(SendOf(peer)), old(wal.StateOf(peer)), a)
      ensures sendStates == old(sendStates)[peer := sendStates[peer]]
      ensures forall p | p != peer :: wal.StateOf(p) == old(wal.StateOf(p))
    {
      InitSendState(peer);
      var s := sendStates[peer];
      if a.cumAck > s.cumAcked {
        s := s.(cumAcked := a.cumAck);
        wal.StoreAck(peer, a.cumAck);
        wal.TruncateThrough(peer, a.cumAck);
      }
      var credits, sentFrames, sent := WritePending(s.pending, a.credits);
      var pending := RemoveSent(s.pending, sentFrames);
      sendStates := sendStates[peer := s.(creditsBytes := credits, pending := pending)];
      written := sent;
    }

    method MaybeBuildAck(peer: Peer, now: nat) returns (ack: Option<AckMeta>)
      modifies this`recvStates
      ensures peer in recvStates
      ensures var r := old(RecvOf(peer, now));
              ack.Some? <==>
                && r.ackPending
                && (now >= r.lastAckSent + ackInterval || r.msgsSinceAck >= ackBatchSize
                    || 4 * r.creditsAvail <= r.creditsMax)
      ensures var r := old(RecvOf(peer, now));
              if ShouldAck(r, now, ackInterval, ackBatchSize)
              then ack == Some(BuildAck(r, now).1) && recvStates[peer] == BuildAck(r, now).0
              else ack == None && recvStates[peer] == r
      ensures recvStates == old(recvStates)[peer := recvStates[peer]]
    {
      InitRecvState(peer, now);
      var r := recvStates[peer];
      if ShouldAck(r, now, ackInterval, ackBatchSize) {
        if r.creditsAvail <= r.creditsMax / 2 {
          r := r.(creditsAvail := r.creditsMax);
        }
        ack := Some(AckMeta(r.cumProcessed, r.creditsAvail % (U32_MAX + 1)));
        recvStates := recvStates[peer := r.(ackPending := false, lastAckSent := now, msgsSinceAck := 0)];
      } else {
        ack := None;
      }
    }

    method BuildResumeFrame(peer: Peer, now: nat) returns (r: ResumeMeta)
      modifies this`sendStates, this`recvStates
      ensures r == ResumeMeta(old(SendOf(peer)).cumAcked, old(RecvOf(peer, now)).cumProcessed,
                              Some(old(RecvOf(peer, now)).creditsMax))
      ensures r == BuildResume(old(SendOf(peer)), old(RecvOf(peer, now)))
      ensures sendStates == old(sendStates)[peer := old(SendOf(peer))]
      ensures recvStates == old(recvStates)[peer := old(RecvOf(peer, now))]
    {
      InitSendState(peer);
      InitRecvState(peer, now);
      r := ResumeMeta(sendStates[peer].cumAcked, recvStates[peer].cumProcessed, Some(recvStates[peer].creditsMax));
    }

    method HandleResume(peer: Peer, r: ResumeMeta) returns (written: seq<Entry>)
      modifies this`sendStates
      ensures peer in sendStates
      ensures Sent(sendStates[peer], wal.StateOf(peer), written)
           == OnResume(old(SendOf(peer)), old(wal.StateOf(peer)), r)
      ensures sendStates == old(sendStates)[peer := sendStates[peer]]
    {
      InitSendState(peer);
      var s := sendStates[peer];
      if r.startingCredits.Some? {
        s := s.(creditsBytes := r.startingCredits.value);
      }
      var entries := wal.ReadRange(peer, r.receiverCumProc, None);
      var credits, _, sent := WritePending(entries, s.creditsBytes);
      sendStates := sendStates[peer := s.(creditsBytes := credits)];
      written := sent;
    }
  }
}
