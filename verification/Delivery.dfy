/** One sender and one receiver over a network that drops, duplicates and reorders
    frames, with either side re-created over its storage at any time. What was ever sent
    may be delivered any number of times, later or never. */
module Delivery {
  import opened Base
  import opened Wal
  import opened Dedup
  import opened Reliability

  /** `appended` remembers every logged message and `since` the last one logged before the
      sender was last re-created; `grant` and `spent` account for credits: the last grant
      and the bytes written since. */
  datatype Connection = Connection(
    send: Option<SendState>, wal: WalState, recv: Option<RecvState>, dedup: DedupState,
    sentData: set<Entry>, sentAcks: set<AckMeta>, sentResumes: set<ResumeMeta>,
    appended: map<nat, Bytes>, since: nat, grant: int, spent: nat)

  datatype Config = Config(recvWindow: u32, gapWindow: nat, ackInterval: nat, ackBatch: nat)

  datatype Event =
    | Send(built: Option<Bytes>)
    | DeliverData(frame: Entry, len: nat, now: nat)
    | DeliverAck(ack: AckMeta)
    | DeliverResume(resume: ResumeMeta)
    | EmitAck(now: nat)
    | EmitResume(own: SendState, now: nat)
    | RestartSender
    | RestartReceiver

  function Sender(c: Connection): SendState {
    if c.send.Some? then c.send.value else InitSend(c.wal)
  }

  function Receiver(k: Config, c: Connection, now: nat): RecvState {
    if c.recv.Some? then c.recv.value else InitRecv(c.dedup, k.recvWindow, now)
  }

  ghost predicate Enabled(c: Connection, e: Event) {
    match e
    case DeliverData(f, _, _) => f in c.sentData
    case DeliverAck(a) => a in c.sentAcks
    case DeliverResume(r) => r in c.sentResumes
    case _ => true
  }

  function Members(s: seq<Entry>): set<Entry> {
    set e | e in s
  }

  function AfterSending(c: Connection, o: Sent, grant: int, spent: nat): Connection {
    c.(send := Some(o.s), wal := o.w, sentData := c.sentData + Members(o.written),
       grant := grant, spent := spent + Size(o.written))
  }

  function Spent(c: Connection): nat {
    if c.send.Some? then c.spent else 0
  }

  function Grant(c: Connection): int {
    if c.send.Some? then c.grant else 0
  }

  function Apply(k: Config, c: Connection, e: Event): Connection {
    match e
    case Send(built) =>
      var s := Sender(c);
      var c1 := AfterSending(c, SendData(s, c.wal, built), Grant(c), Spent(c));
      if built.Some? then c1.(appended := c.appended[s.nextMsgId := built.value]) else c1
    case DeliverData(f, len, now) =>
      var o := OnData(Receiver(k, c, now), c.dedup, k.gapWindow, f.msgId, len);
      c.(recv := Some(o.r), dedup := o.d)
    case DeliverAck(a) => AfterSending(c, OnAck(Sender(c), c.wal, a), a.credits, 0)
    case DeliverResume(r) =>
      var o := OnResume(Sender(c), c.wal, r);
      if r.startingCredits.Some? then AfterSending(c, o, r.startingCredits.value, 0)
      else AfterSending(c, o, Grant(c), Spent(c))
    case EmitAck(now) =>
      var r := Receiver(k, c, now);
      if ShouldAck(r, now, k.ackInterval, k.ackBatch) then
        c.(recv := Some(BuildAck(r, now).0), sentAcks := c.sentAcks + {BuildAck(r, now).1})
      else c.(recv := Some(r))
    case EmitResume(own, now) =>
      // `own` is the receiver's sending state for the opposite direction
      var r := Receiver(k, c, now);
      c.(recv := Some(r), sentResumes := c.sentResumes + {BuildResume(own, r)})
    case RestartSender => c.(send := None, since := c.wal.lastAppended)
    case RestartReceiver => c.(recv := None)
  }

  const START := Connection(None, EMPTY_WAL, None, Dedup.EMPTY, {}, {}, {}, map[], 0, 0, 0)

  /** Re-creating a side keeps its storage and everything on the network, and starts it anew. */
  lemma RestartMeaning(k: Config, c: Connection, now: nat)
    ensures var c' := Apply(k, c, RestartSender);
            && Sender(c') == SendState(c.wal.lastAppended + 1, c.wal.cumAcked, 0, [])
            && c'.wal == c.wal && c'.recv == c.recv && c'.dedup == c.dedup && c'.sentData == c.sentData
    ensures var c' := Apply(k, c, RestartReceiver);
            && Receiver(k, c', now) == RecvState(c.dedup.cum, k.recvWindow, k.recvWindow, false, now, 0)
            && c'.dedup == c.dedup && c'.send == c.send && c'.wal == c.wal && c'.sentAcks == c.sentAcks
  {
  }

  ghost predicate Executable(k: Config, c: Connection, events: seq<Event>)
    decreases |events|
  {
    events == [] || (Enabled(c, events[0]) && Executable(k, Apply(k, c, events[0]), events[1..]))
  }

  function After(k: Config, c: Connection, events: seq<Event>): Connection
    decreases |events|
  {
    if events == [] then c else After(k, Apply(k, c, events[0]), events[1..])
  }

  // ---------------------------------------------------------------------------
  // Invariants

  ghost predicate Genuine(appended: map<nat, Bytes>, e: Entry) {
    e.msgId in appended && appended[e.msgId] == e.bytes
  }

  /** The log holds exactly the messages above the acknowledged watermark. */
  ghost predicate LogComplete(appended: map<nat, Bytes>, w: WalState) {
    && Increasing(w.entries)
    && (forall e | e in w.entries :: Genuine(appended, e) && w.cumAcked < e.msgId)
    && (forall id | id in appended :: 1 <= id <= w.lastAppended
                                      && (id <= w.cumAcked || Entry(id, appended[id]) in w.entries))
  }

  ghost predicate SenderReady(appended: map<nat, Bytes>, w: WalState, s: SendState) {
    && s.cumAcked == w.cumAcked && s.nextMsgId > w.lastAppended
    && Increasing(s.pending)
    && (forall e | e in s.pending :: Genuine(appended, e) && e.msgId < s.nextMsgId)
  }

  /** Only logged messages were processed. */
  ghost predicate ProcessedGenuine(appended: map<nat, Bytes>, d: DedupState) {
    forall id: nat | 1 <= id && IsProcessed(d, id) :: id in appended
  }

  ghost predicate NetworkHonest(c: Connection) {
    && (forall e | e in c.sentData :: Genuine(c.appended, e))
    && (forall a | a in c.sentAcks :: a.cumAck <= c.dedup.cum)
    && (forall r | r in c.sentResumes :: r.receiverCumProc <= c.dedup.cum)
  }

  ghost predicate ReceiverReady(d: DedupState, r: RecvState) {
    r.cumProcessed == d.cum && r.creditsAvail <= r.creditsMax
  }

  ghost predicate Inv(k: Config, c: Connection) {
    && LogComplete(c.appended, c.wal)
    && SenderReady(c.appended, c.wal, Sender(c))
    && Dedup.Valid(c.dedup, k.gapWindow) && ProcessedGenuine(c.appended, c.dedup)
    && NetworkHonest(c)
    && (c.recv.Some? ==> ReceiverReady(c.dedup, c.recv.value))
    && c.wal.cumAcked <= c.dedup.cum
  }

  /** Bytes written since the last grant and the credits left add up to the grant. */
  ghost predicate CreditsConserved(c: Connection) {
    Sender(c).creditsBytes + Spent(c) == Grant(c) && Sender(c).creditsBytes >= 0
  }

  // ---------------------------------------------------------------------------
  // Each event

  lemma AppendKeepsLog(appended: map<nat, Bytes>, w: WalState, e: Entry)
    requires LogComplete(appended, w) && e.msgId > w.lastAppended && w.cumAcked <= w.lastAppended
    ensures LogComplete(appended[e.msgId := e.bytes], WalState(w.entries + [e], w.cumAcked, e.msgId))
  {
    var appended', entries := appended[e.msgId := e.bytes], w.entries + [e];
    assert e.msgId !in appended;
    forall i | 0 <= i < |w.entries|
      ensures entries[i].msgId < e.msgId
    {
      assert w.entries[i] in w.entries;
    }
    forall x | x in entries
      ensures Genuine(appended', x) && w.cumAcked < x.msgId
    {
      assert x in w.entries || x == e;
    }
    forall id | id in appended'
      ensures 1 <= id <= e.msgId && (id <= w.cumAcked || Entry(id, appended'[id]) in entries)
    {
      if id != e.msgId {
        assert id in appended;
        assert id <= w.cumAcked || Entry(id, appended[id]) in w.entries;
      } else {
        assert entries[|w.entries|] == e;
      }
    }
  }

  lemma TruncateKeepsLog(appended: map<nat, Bytes>, w: WalState, upTo: nat)
    requires LogComplete(appended, w) && w.cumAcked <= upTo
    ensures LogComplete(appended, WalState(Above(w.entries, upTo), upTo, w.lastAppended))
  {
    AboveIncreasing(w.entries, upTo);
    forall e: Entry
      ensures e in Above(w.entries, upTo) <==> e in w.entries && e.msgId > upTo
    {
      AboveMembers(w.entries, upTo, e);
    }
  }

  /** The three watermarks are in order. */
  lemma WatermarksOrdered(k: Config, c: Connection)
    requires Inv(k, c)
    ensures c.wal.cumAcked <= c.dedup.cum <= c.wal.lastAppended
  {
    if c.dedup.cum > 0 {
      assert IsProcessed(c.dedup, c.dedup.cum);
    }
  }

  lemma QueueKeepsSender(appended: map<nat, Bytes>, w: WalState, s: SendState, bytes: Bytes)
    requires SenderReady(appended, w, s) && s.nextMsgId !in appended
    ensures var o := SendData(s, w, Some(bytes)); SenderReady(appended[s.nextMsgId := bytes], o.w, o.s)
  {
    var e := Entry(s.nextMsgId, bytes);
    var pending := s.pending + [e];
    assert forall x | x in pending :: x in s.pending || x == e;
    forall i | 0 <= i < |s.pending|
      ensures pending[i].msgId < e.msgId
    {
      assert s.pending[i] in s.pending;
    }
  }

  lemma SendKeepsInv(k: Config, c: Connection, e: Event)
    requires Inv(k, c) && e.Send?
    ensures Inv(k, Apply(k, c, e))
  {
    var s := Sender(c);
    WatermarksOrdered(k, c);
    if e.built.Some? {
      assert s.nextMsgId !in c.appended;
      AppendKeepsLog(c.appended, c.wal, Entry(s.nextMsgId, e.built.value));
      QueueKeepsSender(c.appended, c.wal, s, e.built.value);
    }
  }

  lemma DataKeepsInv(k: Config, c: Connection, e: Event)
    requires Inv(k, c) && e.DeliverData? && Enabled(c, e)
    ensures Inv(k, Apply(k, c, e))
  {
    MarkMeaning(c.dedup, k.gapWindow, e.frame.msgId);
  }

  lemma PrefixOfIncreasing(s: seq<Entry>, n: nat)
    requires Increasing(s) && n <= |s|
    ensures Increasing(s[n..])
    ensures forall e | e in s[..n] || e in s[n..] :: e in s
  {
  }

  lemma AckKeepsSender(appended: map<nat, Bytes>, w: WalState, s: SendState, a: AckMeta)
    requires SenderReady(appended, w, s)
    ensures SenderReady(appended, OnAck(s, w, a).w, OnAck(s, w, a).s)
    ensures forall e | e in OnAck(s, w, a).written :: Genuine(appended, e)
  {
    PrefixOfIncreasing(s.pending, FitCount(s.pending, a.credits));
  }

  lemma AckKeepsInv(k: Config, c: Connection, e: Event)
    requires Inv(k, c) && e.DeliverAck? && Enabled(c, e)
    ensures Inv(k, Apply(k, c, e))
  {
    AckKeepsSender(c.appended, c.wal, Sender(c), e.ack);
    if e.ack.cumAck > Sender(c).cumAcked {
      TruncateKeepsLog(c.appended, c.wal, e.ack.cumAck);
    }
  }

  lemma ResumeWritesGenuine(appended: map<nat, Bytes>, w: WalState, s: SendState, r: ResumeMeta)
    requires LogComplete(appended, w)
    ensures forall e | e in OnResume(s, w, r).written :: Genuine(appended, e)
  {
    forall e | e in OnResume(s, w, r).written
      ensures Genuine(appended, e)
    {
      assert e in Above(w.entries, r.receiverCumProc);
      AboveMembers(w.entries, r.receiverCumProc, e);
    }
  }

  lemma ResumeKeepsInv(k: Config, c: Connection, e: Event)
    requires Inv(k, c) && e.DeliverResume?
    ensures Inv(k, Apply(k, c, e))
  {
    ResumeWritesGenuine(c.appended, c.wal, Sender(c), e.resume);
  }

  lemma StepKeepsInv(k: Config, c: Connection, e: Event)
    requires Inv(k, c) && Enabled(c, e)
    ensures Inv(k, Apply(k, c, e))
  {
    match e
    case Send(_) => SendKeepsInv(k, c, e);
    case DeliverData(_, _, _) => DataKeepsInv(k, c, e);
    case DeliverAck(_) => AckKeepsInv(k, c, e);
    case DeliverResume(_) => ResumeKeepsInv(k, c, e);
    case EmitAck(_) =>
    case EmitResume(_, _) =>
    case RestartSender =>
    case RestartReceiver =>
  }

  lemma {:induction false} RunKeepsInv(k: Config, c: Connection, events: seq<Event>)
    requires Inv(k, c) && Executable(k, c, events)
    ensures Inv(k, After(k, c, events))
    decreases |events|
  {
    if events != [] {
      StepKeepsInv(k, c, events[0]);
      RunKeepsInv(k, Apply(k, c, events[0]), events[1..]);
    }
  }

  /** No message is lost: in every run each logged message is at or below the receiver's
      watermark or still in the sender's log, unchanged, and the watermarks are in order. */
  lemma NoMessageLost(k: Config, events: seq<Event>, id: nat)
    requires Executable(k, START, events)
    ensures var c := After(k, START, events);
            && c.wal.cumAcked <= c.dedup.cum <= c.wal.lastAppended
            && (id in c.appended ==> id <= c.dedup.cum || Entry(id, c.appended[id]) in c.wal.entries)
  {
    RunKeepsInv(k, START, events);
    WatermarksOrdered(k, After(k, START, events));
  }

  // ---------------------------------------------------------------------------
  // Nothing falls between log, queue and wire

  /** Every message logged by the present sender was written or waits for credits. */
  ghost predicate WrittenOrQueued(c: Connection) {
    forall id | id in c.appended && id > c.since ::
      var e := Entry(id, c.appended[id]);
      e in c.sentData || e in Sender(c).pending
  }

  lemma SendKeepsWrittenOrQueued(k: Config, c: Connection, e: Event)
    requires WrittenOrQueued(c) && e.Send? && Sender(c).nextMsgId !in c.appended
    ensures WrittenOrQueued(Apply(k, c, e))
  {
    if e.built.Some? {
      var s := Sender(c);
      var f := Entry(s.nextMsgId, e.built.value);
      assert f in [f] && f in s.pending + [f];
      assert forall x | x in s.pending :: x in s.pending + [f];
    }
  }

  lemma AckKeepsWrittenOrQueued(k: Config, c: Connection, e: Event)
    requires WrittenOrQueued(c) && e.DeliverAck?
    ensures WrittenOrQueued(Apply(k, c, e))
  {
    var pending := Sender(c).pending;
    var n := FitCount(pending, e.ack.credits);
    assert forall x | x in pending :: x in pending[..n] || x in pending[n..];
  }

  lemma StepKeepsWrittenOrQueued(k: Config, c: Connection, e: Event)
    requires Inv(k, c) && WrittenOrQueued(c)
    ensures WrittenOrQueued(Apply(k, c, e))
  {
    match e
    case Send(_) => SendKeepsWrittenOrQueued(k, c, e);
    case DeliverAck(_) => AckKeepsWrittenOrQueued(k, c, e);
    case _ =>
  }

  lemma {:induction false} RunKeepsWrittenOrQueued(k: Config, c: Connection, events: seq<Event>)
    requires Inv(k, c) && WrittenOrQueued(c) && Executable(k, c, events)
    ensures WrittenOrQueued(After(k, c, events))
    decreases |events|
  {
    if events != [] {
      StepKeepsInv(k, c, events[0]);
      StepKeepsWrittenOrQueued(k, c, events[0]);
      RunKeepsWrittenOrQueued(k, Apply(k, c, events[0]), events[1..]);
    }
  }

  // ---------------------------------------------------------------------------
  // Exactly once

  /** The ids of the DATA frames that arrive. */
  function Arrivals(events: seq<Event>): seq<nat>
    decreases |events|
  {
    if events == [] then []
    else (if events[0].DeliverData? then [events[0].frame.msgId] else []) + Arrivals(events[1..])
  }

  /** How often the receiver reports the message `id` as new. */
  function Reports(k: Config, c: Connection, events: seq<Event>, id: nat): nat
    decreases |events|
  {
    if events == [] then 0
    else
      var e := events[0];
      (if e.DeliverData? && e.frame.msgId == id
          && OnData(Receiver(k, c, e.now), c.dedup, k.gapWindow, id, e.len).isNew then 1 else 0)
      + Reports(k, Apply(k, c, e), events[1..], id)
  }

  /** One event changes the deduplication state as marking the arriving id does. */
  lemma ApplyMarks(k: Config, c: Connection, e: Event)
    requires Dedup.Valid(c.dedup, k.gapWindow)
    ensures Apply(k, c, e).dedup == if e.DeliverData? then Mark(c.dedup, k.gapWindow, e.frame.msgId) else c.dedup
    ensures Dedup.Valid(Apply(k, c, e).dedup, k.gapWindow)
  {
    if e.DeliverData? {
      MarkMeaning(c.dedup, k.gapWindow, e.frame.msgId);
      if IsProcessed(c.dedup, e.frame.msgId) {
        MarkIdempotent(c.dedup, k.gapWindow, e.frame.msgId);
      }
    }
  }

  lemma ArrivalsFirst(events: seq<Event>)
    requires events != []
    ensures if events[0].DeliverData? then
              && Arrivals(events) != [] && Arrivals(events)[0] == events[0].frame.msgId
              && Arrivals(events)[1..] == Arrivals(events[1..])
            else Arrivals(events) == Arrivals(events[1..])
  {
  }

  /** The receiver's reports are those of deduplication over the arrivals, across
      acknowledgements, retransmissions and restarts of either side. */
  lemma {:induction false} ReportsAreDeliveries(k: Config, c: Connection, events: seq<Event>, id: nat)
    requires Dedup.Valid(c.dedup, k.gapWindow)
    ensures Reports(k, c, events, id) == Deliveries(c.dedup, k.gapWindow, Arrivals(events), id)
    ensures After(k, c, events).dedup == MarkAll(c.dedup, k.gapWindow, Arrivals(events))
    decreases |events|
  {
    if events != [] {
      ApplyMarks(k, c, events[0]);
      ArrivalsFirst(events);
      ReportsAreDeliveries(k, Apply(k, c, events[0]), events[1..], id);
    }
  }

  /** In every run in which frames arrive inside the gap window, a message that arrives is
      reported exactly once; in every run at all, one at or below the watermark was
      reported at least once. */
  lemma ReportedExactlyOnce(k: Config, events: seq<Event>, id: nat)
    requires id >= 1
    ensures InWindow(EMPTY, k.gapWindow, Arrivals(events)) ==>
              Reports(k, START, events, id) == if id in Arrivals(events) then 1 else 0
    ensures id <= After(k, START, events).dedup.cum ==> Reports(k, START, events, id) >= 1
  {
    ReportsAreDeliveries(k, START, events, id);
    if InWindow(EMPTY, k.gapWindow, Arrivals(events)) {
      ExactlyOnce(k.gapWindow, Arrivals(events), id);
    }
    if id <= After(k, START, events).dedup.cum {
      WatermarkDelivered(k.gapWindow, Arrivals(events), id);
    }
  }

  /** The sender uses an id only if it is at most a gap window above what was acknowledged. */
  predicate Paced(k: Config, c: Connection, e: Event) {
    e.Send? ==> Sender(c).nextMsgId <= c.wal.cumAcked + k.gapWindow
  }

  predicate AllPaced(k: Config, c: Connection, events: seq<Event>)
    decreases |events|
  {
    events == [] || (Paced(k, c, events[0]) && AllPaced(k, Apply(k, c, events[0]), events[1..]))
  }

  ghost predicate WindowHolds(k: Config, c: Connection) {
    c.wal.lastAppended <= c.wal.cumAcked + k.gapWindow
  }

  lemma PacedKeepsWindow(k: Config, c: Connection, e: Event)
    requires Inv(k, c) && WindowHolds(k, c) && Paced(k, c, e)
    ensures WindowHolds(k, Apply(k, c, e))
  {
    hide LogComplete, ProcessedGenuine, NetworkHonest, ReceiverReady, Dedup.Valid, FitCount, Above, Size;
  }

  lemma SentIsTracked(k: Config, c: Connection, f: Entry)
    requires Inv(k, c) && WindowHolds(k, c) && f in c.sentData
    ensures Tracked(c.dedup, k.gapWindow, f.msgId)
  {
    hide SenderReady, ProcessedGenuine, ReceiverReady, Dedup.Valid;
    assert Genuine(c.appended, f);
  }

  /** Then every frame that arrives does so inside the gap window. */
  lemma {:induction false} PacedArrivesInWindow(k: Config, c: Connection, events: seq<Event>)
    requires Inv(k, c) && WindowHolds(k, c) && Executable(k, c, events) && AllPaced(k, c, events)
    ensures InWindow(c.dedup, k.gapWindow, Arrivals(events))
    decreases |events|
  {
    hide Inv, WindowHolds, Paced;
    if events != [] {
      var e := events[0];
      StepKeepsInv(k, c, e);
      PacedKeepsWindow(k, c, e);
      PacedArrivesInWindow(k, Apply(k, c, e), events[1..]);
      InvValid(k, c);
      ApplyMarks(k, c, e);
      ArrivalsFirst(events);
      if e.DeliverData? {
        SentIsTracked(k, c, e.frame);
      }
    }
  }

  lemma InvValid(k: Config, c: Connection)
    requires Inv(k, c)
    ensures Dedup.Valid(c.dedup, k.gapWindow)
  {
  }

  /** A sender that keeps its unacknowledged ids within the gap window has every message that
      arrives reported exactly once. */
  lemma PacedExactlyOnce(k: Config, events: seq<Event>, id: nat)
    requires id >= 1 && Executable(k, START, events) && AllPaced(k, START, events)
    ensures Reports(k, START, events, id) == if id in Arrivals(events) then 1 else 0
  {
    hide Inv, Executable, AllPaced, Reports, InWindow, Arrivals;
    StartInv(k);
    PacedArrivesInWindow(k, START, events);
    ReportedExactlyOnce(k, events, id);
  }

  lemma StartInv(k: Config)
    ensures Inv(k, START) && WindowHolds(k, START)
  {
  }

  // ---------------------------------------------------------------------------
  // Credits

  lemma StepConservesCredits(k: Config, c: Connection, e: Event)
    requires CreditsConserved(c)
    ensures CreditsConserved(Apply(k, c, e))
  {
    match e
    case DeliverAck(a) => FitLongest(Sender(c).pending, a.credits);
    case DeliverResume(r) =>
      var credits := if r.startingCredits.Some? then r.startingCredits.value else Sender(c).creditsBytes;
      FitLongest(Above(c.wal.entries, r.receiverCumProc), credits);
    case Send(built) =>
      if built.Some? {
        var frames := [Entry(Sender(c).nextMsgId, built.value)];
        assert frames[1..] == [];
        assert Size(frames) == |built.value|;
      }
    case _ =>
  }

  /** Over every run the bytes written since the last grant plus the credits left are that
      grant, and the credits are never negative. */
  lemma {:induction false} RunConservesCredits(k: Config, c: Connection, events: seq<Event>)
    requires CreditsConserved(c)
    ensures CreditsConserved(After(k, c, events))
    decreases |events|
  {
    if events != [] {
      StepConservesCredits(k, c, events[0]);
      RunConservesCredits(k, Apply(k, c, events[0]), events[1..]);
    }
  }

  /** Every acknowledgement of a run advertises more than half of the receiver's window. */
  lemma {:induction false} AcksAdvertiseEnough(k: Config, c: Connection, events: seq<Event>)
    requires Inv(k, c) && Executable(k, c, events)
    requires c.recv.Some? ==> c.recv.value.creditsMax == k.recvWindow
    requires forall a | a in c.sentAcks :: a.credits <= k.recvWindow && (k.recvWindow > 0 ==> a.credits > k.recvWindow / 2)
    ensures forall a | a in After(k, c, events).sentAcks ::
              a.credits <= k.recvWindow && (k.recvWindow > 0 ==> a.credits > k.recvWindow / 2)
    decreases |events|
  {
    if events != [] {
      var e := events[0];
      StepKeepsInv(k, c, e);
      if e.EmitAck? {
        AdvertisedCredits(Receiver(k, c, e.now), e.now);
      }
      AcksAdvertiseEnough(k, Apply(k, c, e), events[1..]);
    }
  }

  // ---------------------------------------------------------------------------
  // Retransmission

  function Ids(s: seq<Entry>): seq<nat> {
    seq(|s|, i requires 0 <= i < |s| => s[i].msgId)
  }

  ghost predicate Rising(ids: seq<nat>) {
    forall i, j | 0 <= i < j < |ids| :: ids[i] < ids[j]
  }

  lemma AdvanceByOne(d: DedupState, gapWindow: nat, id: nat)
    requires Dedup.Valid(d, gapWindow) && id == d.cum + 1
    ensures Mark(d, gapWindow, id).cum >= id
  {
    MarkMeaning(d, gapWindow, id);
    WatermarkMaximal(Mark(d, gapWindow, id), gapWindow, id);
  }

  /** Ids fed in rising order close every gap up to `last`, if none is missing. */
  lemma {:induction false} FeedCloses(d: DedupState, gapWindow: nat, ids: seq<nat>, last: nat)
    requires Dedup.Valid(d, gapWindow) && Rising(ids)
    requires forall n: nat | d.cum < n <= last :: n in ids
    ensures MarkAll(d, gapWindow, ids).cum >= last
    decreases |ids|
  {
    if ids == [] {
      assert last > d.cum ==> d.cum + 1 in ids;
    } else {
      var d' := Mark(d, gapWindow, ids[0]);
      MarkMeaning(d, gapWindow, ids[0]);
      if d.cum < last && ids[0] > d.cum {
        assert d.cum + 1 in ids;
        assert ids[0] == d.cum + 1;
        AdvanceByOne(d, gapWindow, ids[0]);
      }
      forall n: nat | d'.cum < n <= last
        ensures n in ids[1..]
      {
        assert n in ids;
      }
      FeedCloses(d', gapWindow, ids[1..], last);
    }
  }

  /** No id was used up without a frame being logged for it. */
  ghost predicate Contiguous(c: Connection) {
    forall id: nat | 1 <= id <= c.wal.lastAppended :: id in c.appended
  }

  /** The receiver's processing of frames in order. */
  function Feed(r: RecvState, d: DedupState, gapWindow: nat, frames: seq<Entry>): DedupState
    decreases |frames|
  {
    if frames == [] then d
    else
      var o := OnData(r, d, gapWindow, frames[0].msgId, |frames[0].bytes|);
      Feed(o.r, o.d, gapWindow, frames[1..])
  }

  lemma {:induction false} FeedMarks(r: RecvState, d: DedupState, gapWindow: nat, frames: seq<Entry>)
    requires Dedup.Valid(d, gapWindow)
    ensures Feed(r, d, gapWindow, frames) == MarkAll(d, gapWindow, Ids(frames))
    decreases |frames|
  {
    if frames != [] {
      var o := OnData(r, d, gapWindow, frames[0].msgId, |frames[0].bytes|);
      MarkMeaning(d, gapWindow, frames[0].msgId);
      if IsProcessed(d, frames[0].msgId) {
        MarkIdempotent(d, gapWindow, frames[0].msgId);
      }
      FeedMarks(o.r, o.d, gapWindow, frames[1..]);
      assert Ids(frames)[1..] == Ids(frames[1..]);
    }
  }

  lemma {:induction false} MarkAllBounded(d: DedupState, gapWindow: nat, ids: seq<nat>, id: nat)
    requires Dedup.Valid(d, gapWindow)
    ensures Dedup.Valid(MarkAll(d, gapWindow, ids), gapWindow)
    ensures IsProcessed(MarkAll(d, gapWindow, ids), id) ==> IsProcessed(d, id) || id in ids
    decreases |ids|
  {
    if ids != [] {
      MarkMeaning(d, gapWindow, ids[0]);
      MarkAllBounded(Mark(d, gapWindow, ids[0]), gapWindow, ids[1..], id);
    }
  }

  lemma IdsOfAbove(w: WalState, from: nat, id: nat)
    requires Increasing(w.entries)
    ensures Rising(Ids(Above(w.entries, from)))
    ensures id in Ids(Above(w.entries, from)) <==> exists e :: e in w.entries && e.msgId == id && id > from
  {
    var frames := Above(w.entries, from);
    AboveIncreasing(w.entries, from);
    if id in Ids(frames) {
      var i :| 0 <= i < |frames| && Ids(frames)[i] == id;
      AboveMembers(w.entries, from, frames[i]);
    }
    if e :| e in w.entries && e.msgId == id && id > from {
      AboveMembers(w.entries, from, e);
      var i :| 0 <= i < |frames| && frames[i] == e;
      assert Ids(frames)[i] == id;
    }
  }

  ghost function Retransmitted(c: Connection, r: ResumeMeta): seq<Entry> {
    OnResume(Sender(c), c.wal, r).written
  }

  /** The credits a RESUME leaves the sender with pay for everything it asks for. */
  ghost predicate CreditsCover(c: Connection, r: ResumeMeta) {
    Size(Above(c.wal.entries, r.receiverCumProc)) <=
      if r.startingCredits.Some? then r.startingCredits.value else Sender(c).creditsBytes
  }

  lemma ResumeAdvances(k: Config, c: Connection, r: ResumeMeta)
    requires Inv(k, c) && r.receiverCumProc <= c.dedup.cum && CreditsCover(c, r) && Contiguous(c)
    ensures MarkAll(c.dedup, k.gapWindow, Ids(Retransmitted(c, r))).cum >= c.wal.lastAppended
  {
    var frames := Above(c.wal.entries, r.receiverCumProc);
    FitsAll(frames, if r.startingCredits.Some? then r.startingCredits.value else Sender(c).creditsBytes);
    assert Retransmitted(c, r) == frames;
    IdsOfAbove(c.wal, r.receiverCumProc, 0);
    forall n: nat | c.dedup.cum < n <= c.wal.lastAppended
      ensures n in Ids(frames)
    {
      assert n in c.appended;
      assert Entry(n, c.appended[n]) in c.wal.entries;
      IdsOfAbove(c.wal, r.receiverCumProc, n);
    }
    FeedCloses(c.dedup, k.gapWindow, Ids(frames), c.wal.lastAppended);
  }

  /** Whatever is retransmitted, only logged messages are ever processed. */
  lemma ResumeProcessesLogged(k: Config, c: Connection, r: ResumeMeta, id: nat)
    requires Inv(k, c) && id >= 1
    requires IsProcessed(MarkAll(c.dedup, k.gapWindow, Ids(Retransmitted(c, r))), id)
    ensures id in c.appended
  {
    var frames := Retransmitted(c, r);
    MarkAllBounded(c.dedup, k.gapWindow, Ids(frames), id);
    if id in Ids(frames) {
      ResumeWritesGenuine(c.appended, c.wal, Sender(c), r);
      var i :| 0 <= i < |frames| && Ids(frames)[i] == id;
      assert frames[i] in frames;
    }
  }

  /** RESUME completes: from every reachable state, whatever the gap window already holds,
      a retransmission that the credits pay for brings the receiver's watermark up to the
      last logged message, if and only if no id below it was used up without a frame. */
  lemma ResumeCompletes(k: Config, events: seq<Event>, r: ResumeMeta, recv: RecvState)
    requires Executable(k, START, events)
    requires var c := After(k, START, events); r.receiverCumProc <= c.dedup.cum && CreditsCover(c, r)
    ensures var c := After(k, START, events);
            Feed(recv, c.dedup, k.gapWindow, Retransmitted(c, r)).cum == c.wal.lastAppended <==> Contiguous(c)
  {
    RunKeepsInv(k, START, events);
    var c := After(k, START, events);
    var ids := Ids(Retransmitted(c, r));
    FeedMarks(recv, c.dedup, k.gapWindow, Retransmitted(c, r));
    var d := MarkAll(c.dedup, k.gapWindow, ids);
    if d.cum > 0 {
      ResumeProcessesLogged(k, c, r, d.cum);
    }
    if Contiguous(c) {
      ResumeAdvances(k, c, r);
    } else if d.cum == c.wal.lastAppended {
      var id: nat :| 1 <= id <= c.wal.lastAppended && id !in c.appended;
      ResumeProcessesLogged(k, c, r, id);
    }
  }

  // ---------------------------------------------------------------------------
  // Ids without a frame

  /** `id` was used up by a frame that could not be built, and a later one was logged. */
  ghost predicate Skipped(c: Connection, id: nat) {
    1 <= id < c.wal.lastAppended && id !in c.appended
  }

  lemma StepKeepsSkipped(k: Config, c: Connection, e: Event, id: nat)
    requires SenderReady(c.appended, c.wal, Sender(c)) && Skipped(c, id)
    ensures Skipped(Apply(k, c, e), id)
  {
  }

  /** Such an id is never filled in, and the receiver's watermark never passes it. */
  lemma {:induction false} SkippedStalls(k: Config, c: Connection, events: seq<Event>, id: nat)
    requires Inv(k, c) && Executable(k, c, events) && Skipped(c, id)
    ensures Skipped(After(k, c, events), id) && After(k, c, events).dedup.cum < id
    decreases |events|
  {
    if events == [] {
      if c.dedup.cum >= id {
        assert IsProcessed(c.dedup, id);
      }
    } else {
      StepKeepsInv(k, c, events[0]);
      StepKeepsSkipped(k, c, events[0], id);
      SkippedStalls(k, Apply(k, c, events[0]), events[1..], id);
    }
  }

  /** A frame that cannot be built, then one that can: the log is not contiguous. */
  lemma FailedBuildSkips(k: Config, bytes: Bytes)
    ensures var events := [Send(None), Send(Some(bytes))];
            && Executable(k, START, events)
            && Skipped(After(k, START, events), 1) && !Contiguous(After(k, START, events))
  {
    var c1 := Apply(k, START, Send(None));
    var c2 := Apply(k, c1, Send(Some(bytes)));
    var events := [Send(None), Send(Some(bytes))];
    var second := events[1..];
    assert second == [Send(Some(bytes))] && second[1..] == [];
    assert After(k, c2, []) == c2 && Executable(k, c2, []);
    assert After(k, c1, second) == c2 && Executable(k, c1, second);
    assert c2.wal.lastAppended == 2 && c2.appended == map[2 := bytes];
  }

  // ---------------------------------------------------------------------------
  // Acknowledgements do their work

  /** The largest watermark acknowledged so far. */
  function MaxAck(events: seq<Event>): nat {
    if events == [] then 0
    else
      var before, last := MaxAck(events[..|events| - 1]), events[|events| - 1];
      if last.DeliverAck? && last.ack.cumAck > before then last.ack.cumAck else before
  }

  lemma {:induction false} MaxAckMeaning(events: seq<Event>)
    ensures forall i | 0 <= i < |events| && events[i].DeliverAck? :: events[i].ack.cumAck <= MaxAck(events)
    ensures MaxAck(events) == 0 || exists i :: 0 <= i < |events| && events[i].DeliverAck? && events[i].ack.cumAck == MaxAck(events)
    decreases |events|
  {
    if events != [] {
      var front, last := events[..|events| - 1], events[|events| - 1];
      MaxAckMeaning(front);
      assert last == events[|events| - 1];
      if !(last.DeliverAck? && last.ack.cumAck > MaxAck(front)) && MaxAck(front) > 0 {
        var i :| 0 <= i < |front| && front[i].DeliverAck? && front[i].ack.cumAck == MaxAck(front);
        assert events[i] == front[i];
      }
    }
  }

  lemma StepAcked(k: Config, c: Connection, e: Event)
    requires Sender(c).cumAcked == c.wal.cumAcked
    ensures Apply(k, c, e).wal.cumAcked ==
              if e.DeliverAck? && e.ack.cumAck > c.wal.cumAcked then e.ack.cumAck else c.wal.cumAcked
    ensures Sender(Apply(k, c, e)).cumAcked == Apply(k, c, e).wal.cumAcked
  {
    hide FitCount, Size, Above, Mark, IsProcessed;
  }

  lemma {:induction false} RunSplit(k: Config, c: Connection, events: seq<Event>)
    requires events != []
    ensures After(k, c, events) == Apply(k, After(k, c, events[..|events| - 1]), events[|events| - 1])
    decreases |events|
  {
    hide Apply;
    var front, last := events[..|events| - 1], events[|events| - 1];
    if |events| == 1 {
      assert events[1..] == [];
    } else {
      assert events[1..][..|events| - 2] == front[1..];
      RunSplit(k, Apply(k, c, events[0]), events[1..]);
    }
  }

  /** Over every run, restarts included, the stored watermark is the largest acknowledged one. */
  lemma {:induction false} RunAcked(k: Config, events: seq<Event>)
    ensures var c := After(k, START, events);
            c.wal.cumAcked == MaxAck(events) && Sender(c).cumAcked == c.wal.cumAcked
    decreases |events|
  {
    hide Apply;
    if events != [] {
      var front := events[..|events| - 1];
      RunAcked(k, front);
      RunSplit(k, START, events);
      StepAcked(k, After(k, START, front), events[|events| - 1]);
    }
  }

  /** And the log holds exactly the logged messages above it: what is acknowledged is freed,
      nothing else is. */
  lemma LogIsUnacknowledged(k: Config, events: seq<Event>, e: Entry)
    requires Executable(k, START, events)
    ensures var c := After(k, START, events);
            e in c.wal.entries <==> e.msgId in c.appended && c.appended[e.msgId] == e.bytes && e.msgId > MaxAck(events)
  {
    hide SenderReady, ProcessedGenuine, NetworkHonest, ReceiverReady, Dedup.Valid, After, Executable;
    StartInv(k);
    RunKeepsInv(k, START, events);
    RunAcked(k, events);
  }

  /** An acknowledgement is owed. */
  predicate Owes(c: Connection) {
    c.recv.Some? && c.recv.value.ackPending
  }

  /** Every frame that arrives, new or not, makes the receiver owe one, and only sending it or
      a restart changes that. */
  lemma DataOwes(k: Config, c: Connection, e: Event)
    ensures e.DeliverData? ==> Owes(Apply(k, c, e))
    ensures !e.EmitAck? && !e.RestartReceiver? && Owes(c) ==> Owes(Apply(k, c, e))
    ensures e.RestartReceiver? ==> !Owes(Apply(k, c, e))
    ensures !e.DeliverData? && !Owes(c) ==> !Owes(Apply(k, c, e))
  {
    hide FitCount, Size, Above, Mark, IsProcessed;
  }

  /** The receiver state right after it sent an acknowledgement at `now`. */
  ghost predicate JustAcked(before: Connection, after: Connection, now: nat) {
    && after.recv.Some? && after.recv.value.lastAckSent == now && !after.recv.value.ackPending
    && exists credits: u32 :: after.sentAcks == before.sentAcks + {AckMeta(before.dedup.cum, credits)}
  }

  /** What is owed is sent, with the watermark, once the interval since the last one is over. */
  lemma OwedIsSent(k: Config, c: Connection, now: nat)
    requires Inv(k, c) && Owes(c) && now >= c.recv.value.lastAckSent + k.ackInterval
    ensures JustAcked(c, Apply(k, c, EmitAck(now)), now)
  {
    hide LogComplete, SenderReady, ProcessedGenuine, NetworkHonest, Dedup.Valid;
    var r := c.recv.value;
    AckDueIff(r, now, k.ackInterval, k.ackBatch);
    var a := BuildAck(r, now).1;
    assert a == AckMeta(c.dedup.cum, a.credits);
    assert Apply(k, c, EmitAck(now)).sentAcks == c.sentAcks + {AckMeta(c.dedup.cum, a.credits)};
  }

  /** Nothing is sent that is not owed: a second attempt with no data in between sends none. */
  lemma NotOwedNotSent(k: Config, c: Connection, now: nat)
    requires !Owes(c)
    ensures Apply(k, c, EmitAck(now)).sentAcks == c.sentAcks && !Owes(Apply(k, c, EmitAck(now)))
  {
  }

  lemma {:induction false} RunKeepsOwed(k: Config, c: Connection, events: seq<Event>)
    requires Owes(c) && forall e | e in events :: !e.EmitAck? && !e.RestartReceiver?
    ensures Owes(After(k, c, events)) && After(k, c, events).recv.value.lastAckSent == c.recv.value.lastAckSent
    decreases |events|
  {
    hide Apply;
    if events != [] {
      assert events[0] in events;
      DataOwes(k, c, events[0]);
      KeepsTimer(k, c, events[0]);
      RunKeepsOwed(k, Apply(k, c, events[0]), events[1..]);
    }
  }

  lemma KeepsTimer(k: Config, c: Connection, e: Event)
    requires c.recv.Some? && !e.EmitAck? && !e.RestartReceiver?
    ensures Apply(k, c, e).recv.Some? && Apply(k, c, e).recv.value.lastAckSent == c.recv.value.lastAckSent
  {
    hide FitCount, Size, Above, Mark, IsProcessed;
  }

  /** From any point of a run: a frame arrives, new or not, whatever else happens short of a
      restart of the receiver, and an attempt one interval after the last acknowledgement sends
      one that states the watermark. */
  lemma DataIsAcknowledged(k: Config, c: Connection, data: Event, others: seq<Event>, now: nat)
    requires Inv(k, c) && data.DeliverData? && Enabled(c, data) && Executable(k, Apply(k, c, data), others)
    requires forall e | e in others :: !e.EmitAck? && !e.RestartReceiver?
    requires now >= Receiver(k, c, data.now).lastAckSent + k.ackInterval
    ensures var c' := After(k, Apply(k, c, data), others); JustAcked(c', Apply(k, c', EmitAck(now)), now)
  {
    hide Inv, JustAcked, Executable;
    var c1 := Apply(k, c, data);
    DataOwes(k, c, data);
    DataMeaning(Receiver(k, c, data.now), c.dedup, k.gapWindow, data.frame.msgId, data.len);
    StepKeepsInv(k, c, data);
    RunKeepsOwed(k, c1, others);
    RunKeepsInv(k, c1, others);
    OwedIsSent(k, After(k, c1, others), now);
  }

  /** A RESUME asks for everything above the watermark and grants the whole window. */
  lemma ResumeAsks(k: Config, c: Connection, own: SendState, now: nat)
    requires Inv(k, c) && (c.recv.Some? ==> c.recv.value.creditsMax == k.recvWindow)
    ensures Apply(k, c, EmitResume(own, now)).sentResumes
         == c.sentResumes + {ResumeMeta(own.cumAcked, c.dedup.cum, Some(k.recvWindow))}
  {
    hide LogComplete, SenderReady, ProcessedGenuine, NetworkHonest, Dedup.Valid;
  }

  lemma {:induction false} WindowConstant(k: Config, c: Connection, events: seq<Event>)
    requires c.recv.Some? ==> c.recv.value.creditsMax == k.recvWindow
    ensures After(k, c, events).recv.Some? ==> After(k, c, events).recv.value.creditsMax == k.recvWindow
    decreases |events|
  {
    hide FitCount, Size, Above, Mark, IsProcessed;
    if events != [] {
      WindowConstant(k, Apply(k, c, events[0]), events[1..]);
    }
  }
}
