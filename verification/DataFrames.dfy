/** What a DATA frame on the wire has to do with the entries of the log: a payload is built
    into a frame that carries its message id, so the id a receiver reads is the id the sender
    logged. The metadata, a constant CBOR map, is a parameter. */
module DataFrames {
  import opened Base
  import opened Wal
  import opened Header
  import opened Frame
  import opened Dedup
  import opened Reliability
  import Delivery

  const DEFAULT_HEADER_TTL: u8 := 16

  /** A DATA header with all other fields at their defaults. */
  function DataHeader(src: NodeId, dst: NodeId, id: u64): FastHeader {
    FastHeader(WIRE_VERSION, 0x00, 0, 0, DEFAULT_HEADER_TTL, 0, id, 0, src, dst, 0, 0)
  }

  function DataFrame(src: NodeId, dst: NodeId, id: u64, meta: Bytes, payload: Bytes): Frame {
    Frame(DataHeader(src, dst, id), None, meta, payload)
  }

  function Build(src: NodeId, dst: NodeId, id: u64, meta: Bytes, payload: Bytes): Option<Bytes> {
    match EncodeFrame(DataFrame(src, dst, id, meta, payload), DEFAULT_MAX_FRAME_SIZE)
    case Ok(bytes) => Some(bytes)
    case Err(_) => None
  }

  /** Building fails, and uses up an id, exactly for payloads that leave no room for the 56
      bytes of lengths and header and the metadata. */
  lemma BuildsIff(src: NodeId, dst: NodeId, id: u64, meta: Bytes, payload: Bytes)
    ensures Build(src, dst, id, meta, payload).Some? <==> |payload| + |meta| + 56 <= DEFAULT_MAX_FRAME_SIZE
  {
  }

  /** Sixteen MiB of payload are too much. */
  lemma LargePayloadFails(src: NodeId, dst: NodeId, id: u64, meta: Bytes, payload: Bytes)
    requires |payload| == 16 * 1024 * 1024
    ensures Build(src, dst, id, meta, payload) == None
  {
    BuildsIff(src, dst, id, meta, payload);
  }

  /** What a DATA frame with this content is, field by field. */
  ghost predicate Carries(f: Frame, src: NodeId, dst: NodeId, id: nat, meta: Bytes, payload: Bytes) {
    && f.fast.typ == 0x00 && f.fast.flags == 0 && f.fast.code == 0 && f.fast.ttl == 16
    && f.fast.msgId == id && f.fast.corrId == 0 && f.fast.srcNode == src && f.fast.dstNode == dst
    && f.fast.route == 0 && f.hint == None && f.metaRaw == meta && f.payload == payload
  }

  /** The receiver reads back the id, both nodes and the payload, each in its own field. */
  lemma BuiltDecodes(src: NodeId, dst: NodeId, id: u64, meta: Bytes, payload: Bytes, rest: Bytes)
    requires |meta| <= MAX_META_SIZE && Build(src, dst, id, meta, payload).Some?
    ensures var d := DecodeFrame(DEFAULT_MAX_FRAME_SIZE, Build(src, dst, id, meta, payload).value + rest);
            && d.Got? && d.rest == rest
            && d.frame.fast.msgId == id && d.frame.fast.srcNode == src && d.frame.fast.dstNode == dst
            && d.frame.fast.typ == 0x00 && d.frame.fast.corrId == 0 && d.frame.fast.flags == 0
            && d.frame.metaRaw == meta && d.frame.payload == payload
            && Carries(d.frame, src, dst, id, meta, payload)
  {
    hide ToBytes, DecodeFrame;
    EncodedDecodes(DataFrame(src, dst, id, meta, payload), rest, DEFAULT_MAX_FRAME_SIZE);
  }

  /** The entry decodes to a DATA frame that carries the entry's own id and this payload. */
  ghost predicate DecodesTo(e: Entry, src: NodeId, dst: NodeId, meta: Bytes, payload: Bytes) {
    var d := DecodeFrame(DEFAULT_MAX_FRAME_SIZE, e.bytes);
    d.Got? && d.rest == [] && Carries(d.frame, src, dst, e.msgId, meta, payload)
  }

  lemma BuiltEntry(src: NodeId, dst: NodeId, id: u64, meta: Bytes, payload: Bytes, e: Entry)
    requires |meta| <= MAX_META_SIZE && e.msgId == id && Build(src, dst, id, meta, payload) == Some(e.bytes)
    ensures DecodesTo(e, src, dst, meta, payload)
  {
    hide Build, DecodeFrame, Carries;
    BuiltDecodes(src, dst, id, meta, payload, []);
    assert e.bytes + [] == e.bytes;
  }

  /** Sending a payload logs, under the next id, a frame that carries that id and the payload. */
  method SendPayload(manager: ReliabilityManager, peer: Peer, src: NodeId, meta: Bytes, payload: Bytes)
    returns (written: seq<Entry>, ok: bool)
    requires manager.SendOf(peer).nextMsgId < U64_MODULUS
    modifies manager`sendStates, manager.wal
    ensures peer in manager.sendStates && ok == (|payload| + |meta| + 56 <= DEFAULT_MAX_FRAME_SIZE)
    ensures Sent(manager.sendStates[peer], manager.wal.StateOf(peer), written)
         == SendData(old(manager.SendOf(peer)), old(manager.wal.StateOf(peer)),
                     Build(src, peer, old(manager.SendOf(peer)).nextMsgId, meta, payload))
    ensures ok ==>
              var log := manager.wal.StateOf(peer).entries;
              && |log| > 0 && log[..|log| - 1] == old(manager.wal.StateOf(peer)).entries
              && log[|log| - 1].msgId == old(manager.SendOf(peer)).nextMsgId
              && (|meta| <= MAX_META_SIZE ==> DecodesTo(log[|log| - 1], src, peer, meta, payload))
    ensures !ok ==> manager.wal.StateOf(peer) == old(manager.wal.StateOf(peer))
    ensures forall p | p != peer :: manager.wal.StateOf(p) == old(manager.wal.StateOf(p))
  {
    hide SendData, DecodesTo, Build;
    manager.InitSendState(peer);
    var id := manager.sendStates[peer].nextMsgId;
    var built := Build(src, peer, id, meta, payload);
    BuildsIff(src, peer, id, meta, payload);
    SendMeaning(manager.sendStates[peer], manager.wal.StateOf(peer), built);
    written, ok := manager.Send(peer, built);
    if ok && |meta| <= MAX_META_SIZE {
      BuiltEntry(src, peer, id, meta, payload, Entry(id, built.value));
    }
  }

  // ---------------------------------------------------------------------------
  // Runs

  /** The entry is a DATA frame with its own id. */
  ghost predicate CarriesId(src: NodeId, dst: NodeId, meta: Bytes, e: Entry) {
    e.msgId < U64_MODULUS && exists payload :: Build(src, dst, e.msgId, meta, payload) == Some(e.bytes)
  }

  /** Every Send of the run sends what `Build` makes of a payload. */
  ghost predicate AllBuilt(k: Delivery.Config, c: Delivery.Connection, events: seq<Delivery.Event>,
                           src: NodeId, dst: NodeId, meta: Bytes)
    decreases |events|
  {
    events == [] ||
    (&& (events[0].Send? && events[0].built.Some? ==>
           CarriesId(src, dst, meta, Entry(Delivery.Sender(c).nextMsgId, events[0].built.value)))
     && AllBuilt(k, Delivery.Apply(k, c, events[0]), events[1..], src, dst, meta))
  }

  ghost predicate AllCarry(appended: map<nat, Bytes>, src: NodeId, dst: NodeId, meta: Bytes) {
    forall id | id in appended :: CarriesId(src, dst, meta, Entry(id, appended[id]))
  }

  lemma StepKeepsCarry(k: Delivery.Config, c: Delivery.Connection, e: Delivery.Event, src: NodeId, dst: NodeId, meta: Bytes)
    requires AllCarry(c.appended, src, dst, meta)
    requires e.Send? && e.built.Some? ==> CarriesId(src, dst, meta, Entry(Delivery.Sender(c).nextMsgId, e.built.value))
    ensures AllCarry(Delivery.Apply(k, c, e).appended, src, dst, meta)
  {
    hide CarriesId;
  }

  lemma {:induction false} RunKeepsCarry(k: Delivery.Config, c: Delivery.Connection, events: seq<Delivery.Event>,
                                         src: NodeId, dst: NodeId, meta: Bytes)
    requires AllCarry(c.appended, src, dst, meta) && AllBuilt(k, c, events, src, dst, meta)
    ensures AllCarry(Delivery.After(k, c, events).appended, src, dst, meta)
    decreases |events|
  {
    hide AllCarry, CarriesId;
    if events != [] {
      StepKeepsCarry(k, c, events[0], src, dst, meta);
      RunKeepsCarry(k, Delivery.Apply(k, c, events[0]), events[1..], src, dst, meta);
    }
  }

  /** In every run, across losses, retransmissions and restarts, each frame that was ever
      written to the connection decodes to a DATA frame with the id under which it was logged. */
  lemma WireCarriesIds(k: Delivery.Config, events: seq<Delivery.Event>, src: NodeId, dst: NodeId, meta: Bytes, e: Entry)
    returns (payload: Bytes)
    requires |meta| <= MAX_META_SIZE
    requires Delivery.Executable(k, Delivery.START, events) && AllBuilt(k, Delivery.START, events, src, dst, meta)
    requires e in Delivery.After(k, Delivery.START, events).sentData
    ensures var d := DecodeFrame(DEFAULT_MAX_FRAME_SIZE, e.bytes);
            && d.Got? && d.frame.fast.msgId == e.msgId && d.frame.fast.typ == 0x00
            && d.frame.fast.srcNode == src && d.frame.fast.dstNode == dst
    ensures DecodesTo(e, src, dst, meta, payload)
  {
    hide DecodeFrame, Build, Delivery.Executable, Delivery.After, AllBuilt;
    Delivery.StartInv(k);
    Delivery.RunKeepsInv(k, Delivery.START, events);
    RunKeepsCarry(k, Delivery.START, events, src, dst, meta);
    var c := Delivery.After(k, Delivery.START, events);
    SentIsLogged(k, c, e);
    assert CarriesId(src, dst, meta, Entry(e.msgId, c.appended[e.msgId]));
    payload :| Build(src, dst, e.msgId, meta, payload) == Some(e.bytes);
    BuiltEntry(src, dst, e.msgId, meta, payload, e);
  }

  /** So a receiver that goes by the bytes alone marks exactly the id that was logged, if it is
      new and within the window, and nothing else. */
  lemma WireMarks(k: Delivery.Config, events: seq<Delivery.Event>, src: NodeId, dst: NodeId, meta: Bytes,
                  e: Entry, r: RecvState, d: DedupState)
    requires |meta| <= MAX_META_SIZE && Dedup.Valid(d, k.gapWindow)
    requires Delivery.Executable(k, Delivery.START, events) && AllBuilt(k, Delivery.START, events, src, dst, meta)
    requires e in Delivery.After(k, Delivery.START, events).sentData
    ensures DecodeFrame(DEFAULT_MAX_FRAME_SIZE, e.bytes).Got?
    ensures var f := DecodeFrame(DEFAULT_MAX_FRAME_SIZE, e.bytes).frame;
            var o := OnData(r, d, k.gapWindow, f.fast.msgId, |f.payload|);
            && (o.isNew <==> !IsProcessed(d, e.msgId))
            && forall id: nat :: IsProcessed(o.d, id) <==>
                 IsProcessed(d, id) || (id == e.msgId && (id <= d.cum + 1 || id <= d.cum + k.gapWindow))
  {
    hide DecodeFrame, Delivery.Executable, Delivery.After, AllBuilt;
    var payload := WireCarriesIds(k, events, src, dst, meta, e);
    MarkMeaning(d, k.gapWindow, e.msgId);
  }

  lemma SentIsLogged(k: Delivery.Config, c: Delivery.Connection, e: Entry)
    requires Delivery.Inv(k, c) && e in c.sentData
    ensures e.msgId in c.appended && c.appended[e.msgId] == e.bytes
  {
    assert Delivery.Genuine(c.appended, e);
  }
}
