/** Splitting large payloads into chunk frames and putting them together again, for any
    interleaving of messages that keeps the order of each message's chunks. */
module Chunk {
  import opened Base
  import opened Header
  import opened Frame

  const DEFAULT_CHUNK_SIZE: nat := DEFAULT_MAX_FRAME_SIZE - 1024

  /** The two bytes "{}". */
  const EMPTY_META: Bytes := [0x7B, 0x7D]

  // Flag bits 0 (CHUNKED) and 1 (CHUNK_END)

  predicate IsChunked(f: Flags) {
    f % 2 == 1
  }

  predicate IsChunkEnd(f: Flags) {
    (f / 2) % 2 == 1
  }

  function SetChunked(f: Flags): (r: Flags)
    ensures IsChunked(r) && r / 2 == f / 2
  {
    if IsChunked(f) then f else f + 1
  }

  function SetChunkEnd(f: Flags): (r: Flags)
    ensures IsChunkEnd(r) && r / 4 == f / 4 && r % 2 == f % 2
  {
    if IsChunkEnd(f) then f else f + 2
  }

  /** CHUNKED is the bit of value 1, CHUNK_END that of value 2, and setting one changes no other;
      a chunk leaves 1024 bytes of the largest frame for everything else. */
  lemma FlagBits(f: Flags)
    ensures IsChunked(f) <==> f % 4 == 1 || f % 4 == 3
    ensures IsChunkEnd(f) <==> f % 4 == 2 || f % 4 == 3
    ensures SetChunked(f) == (if f % 2 == 1 then f else f + 1)
    ensures SetChunkEnd(f) == (if f % 4 >= 2 then f else f + 2)
    ensures DEFAULT_CHUNK_SIZE + 1024 == 16 * 1024 * 1024
  {
  }

  // ---------------------------------------------------------------------------
  // Chunking

  function ChunkFrame(h: FastHeader, data: Bytes, last: bool): Frame {
    var flags := SetChunked(h.flags);
    Frame(h.(flags := if last then SetChunkEnd(flags) else flags), None, EMPTY_META, data)
  }

  function Chunks(h: FastHeader, payload: Bytes, size: nat): seq<Frame>
    requires size > 0
    decreases |payload|
  {
    if payload == [] then []
    else if |payload| <= size then [ChunkFrame(h, payload, true)]
    else [ChunkFrame(h, payload[..size], false)] + Chunks(h, payload[size..], size)
  }

  function CeilDiv(n: nat, size: nat): nat
    requires size > 0
  {
    (n + size - 1) / size
  }

  lemma NonzeroMultiple(k: int, d: int)
    requires k != 0 && d >= 0
    ensures k * d >= d || k * d <= -d
  {
    if k > 0 {
      assert k * d == d + (k - 1) * d;
    } else {
      assert k * d == -d - (-1 - k) * d;
    }
  }

  lemma DivUnique(x: nat, d: nat, q: nat, r: nat)
    requires d > 0 && x == q * d + r && r < d
    ensures x / d == q
  {
    var p, m := x / d, x % d;
    assert x == p * d + m;
    assert (p - q) * d == p * d - q * d == r - m;
    if p != q {
      NonzeroMultiple(p - q, d);
    }
  }

  lemma DivAddOne(x: nat, d: nat)
    requires d > 0
    ensures (x + d) / d == x / d + 1
  {
    assert x + d == (x / d + 1) * d + x % d;
    DivUnique(x + d, d, x / d + 1, x % d);
  }

  lemma CeilDivStep(n: nat, size: nat)
    requires size > 0 && n > 0
    ensures CeilDiv(n, size) == 1 + (if n <= size then 0 else CeilDiv(n - size, size))
    ensures n > size ==> CeilDiv(n - size, size) >= 1
  {
    DivAddOne(n - 1, size);
    if n <= size {
      DivUnique(n - 1, size, 0, n - 1);
    } else {
      DivAddOne(n - 1 - size, size);
      assert n - size + size - 1 == n - 1;
    }
  }

  /** A frame for the next chunk, as the loop builds it. */
  lemma NextChunk(h: FastHeader, payload: Bytes, size: nat, offset: nat)
    requires size > 0 && offset < |payload|
    ensures var end := if offset + size < |payload| then offset + size else |payload|;
            Chunks(h, payload[offset..], size) ==
              [ChunkFrame(h, payload[offset..end], end == |payload|)] + Chunks(h, payload[end..], size)
  {
    if offset + size < |payload| {
      assert payload[offset..][..size] == payload[offset..offset + size];
      assert payload[offset..][size..] == payload[offset + size..];
    } else {
      assert payload[offset..|payload|] == payload[offset..] && payload[|payload|..] == [];
    }
  }

  method ChunkMessage(h: FastHeader, payload: Bytes, size: nat) returns (frames: seq<Frame>)
    requires size > 0
    ensures frames == Chunks(h, payload, size)
  {
    if payload == [] {
      return [];
    }
    var totalChunks := CeilDiv(|payload|, size);
    frames := [];
    var offset, chunkNo := 0, 0;
    assert payload[0..] == payload;
    CeilDivStep(|payload|, size);
    while chunkNo < totalChunks
      invariant chunkNo <= totalChunks && offset <= |payload|
      invariant chunkNo < totalChunks <==> offset < |payload|
      invariant offset < |payload| ==> totalChunks - chunkNo == CeilDiv(|payload| - offset, size)
      invariant frames + Chunks(h, payload[offset..], size) == Chunks(h, payload, size)
    {
      CeilDivStep(|payload| - offset, size);
      NextChunk(h, payload, size, offset);
      var chunkEnd := if offset + size < |payload| then offset + size else |payload|;
      var flags := SetChunked(h.flags);
      if chunkNo == totalChunks - 1 {
        flags := SetChunkEnd(flags);
      }
      var frame := Frame(h.(flags := flags), None, EMPTY_META, payload[offset..chunkEnd]);
      assert frame == ChunkFrame(h, payload[offset..chunkEnd], chunkEnd == |payload|);
      frames := frames + [frame];
      offset := chunkEnd;
      chunkNo := chunkNo + 1;
    }
  }

  /** Chunks differ from the message header in the two chunk flags only; CHUNK_END is on the
      last chunk and, unless the header had it, on no other. */
  lemma {:induction false} ChunkHeaders(h: FastHeader, payload: Bytes, size: nat, i: nat)
    requires size > 0 && i < |Chunks(h, payload, size)|
    ensures var f := Chunks(h, payload, size)[i].fast;
            && f.(flags := h.flags) == h && f.flags / 4 == h.flags / 4 && IsChunked(f.flags)
            && (IsChunkEnd(f.flags) <==> i == |Chunks(h, payload, size)| - 1 || IsChunkEnd(h.flags))
    decreases |payload|
  {
    if |payload| > size {
      assert Chunks(h, payload[size..], size) != [];
      if i > 0 {
        ChunkHeaders(h, payload[size..], size, i - 1);
      }
    }
  }

  /** Every chunk frame is one the codec carries, within the default frame size. */
  lemma {:induction false} ChunksAreSendable(h: FastHeader, payload: Bytes, size: nat)
    requires 0 < size <= DEFAULT_CHUNK_SIZE && Sendable(h) && h.hdrHintLen == 0
    ensures Sendables(Chunks(h, payload, size), DEFAULT_MAX_FRAME_SIZE)
    ensures forall f | f in Chunks(h, payload, size) :: EncodedSize(f) <= DEFAULT_MAX_FRAME_SIZE
    decreases |payload|
  {
    if |payload| > size {
      ChunksAreSendable(h, payload[size..], size);
    }
  }

  // ---------------------------------------------------------------------------
  // Reassembly

  type Sessions = map<u64, seq<Bytes>>

  datatype Added = Added(sessions: Sessions, message: Option<Bytes>)

  function AddChunk(sessions: Sessions, f: Frame): Added {
    if !IsChunked(f.fast.flags) then Added(sessions, None)
    else
      var id := f.fast.msgId;
      var chunks := (if id in sessions then sessions[id] else []) + [f.payload];
      if IsChunkEnd(f.fast.flags) then Added(sessions - {id}, Some(Concat(chunks)))
      else Added(sessions[id := chunks], None)
  }

  /** A frame without CHUNKED is ignored; a chunk is collected under its id; with CHUNK_END all
      that was collected comes out in order and the session is closed. */
  lemma AddMeaning(sessions: Sessions, f: Frame)
    ensures var a, id := AddChunk(sessions, f), f.fast.msgId;
            var chunks := (if id in sessions then sessions[id] else []) + [f.payload];
            && (f.fast.flags % 2 == 0 ==> a == Added(sessions, None))
            && (f.fast.flags % 4 == 1 ==> a == Added(sessions[id := chunks], None))
            && (f.fast.flags % 4 == 3 ==> a.message == Some(Concat(chunks)) && a.sessions == sessions - {id})
  {
  }

  datatype Output = Output(msgId: u64, message: Bytes)

  datatype Assembly = Assembly(sessions: Sessions, output: seq<Output>)

  function Reassemble(sessions: Sessions, frames: seq<Frame>): Assembly {
    if frames == [] then Assembly(sessions, [])
    else
      var a := Reassemble(sessions, frames[..|frames| - 1]);
      var f := frames[|frames| - 1];
      var r := AddChunk(a.sessions, f);
      Assembly(r.sessions, if r.message.Some? then a.output + [Output(f.fast.msgId, r.message.value)] else a.output)
  }

  method Join(chunks: seq<Bytes>) returns (result: Bytes)
    ensures result == Concat(chunks)
  {
    result := [];
    var i := 0;
    assert chunks[0..] == chunks;
    while i < |chunks|
      invariant i <= |chunks| && result + Concat(chunks[i..]) == Concat(chunks)
    {
      assert chunks[i..][1..] == chunks[i + 1..];
      result := result + chunks[i];
      i := i + 1;
    }
    assert result + [] == result;
  }

  class Reassembler {
    var sessions: Sessions

    constructor ()
      ensures sessions == map[]
    {
      sessions := map[];
    }

    method Add(f: Frame) returns (message: Option<Bytes>)
      modifies this
      ensures Added(sessions, message) == AddChunk(old(sessions), f)
    {
      if !IsChunked(f.fast.flags) {
        return None;
      }
      var msgId := f.fast.msgId;
      var chunks := (if msgId in sessions then sessions[msgId] else []) + [f.payload];
      sessions := sessions[msgId := chunks];
      if IsChunkEnd(f.fast.flags) {
        var result := Join(chunks);
        sessions := sessions - {msgId};
        assert sessions == old(sessions) - {msgId};
        return Some(result);
      }
      message := None;
    }
  }

  // ---------------------------------------------------------------------------
  // Messages do not disturb each other

  function OfId(frames: seq<Frame>, id: u64): seq<Frame> {
    if frames == [] then []
    else
      var rest := OfId(frames[..|frames| - 1], id);
      if frames[|frames| - 1].fast.msgId == id then rest + [frames[|frames| - 1]] else rest
  }

  function OutputOf(output: seq<Output>, id: u64): seq<Bytes> {
    if output == [] then []
    else
      var rest := OutputOf(output[..|output| - 1], id);
      if output[|output| - 1].msgId == id then rest + [output[|output| - 1].message] else rest
  }

  /** What frames of one id alone do: the chunks collected, and the messages completed. */
  datatype Single = Single(open: Option<seq<Bytes>>, output: seq<Bytes>)

  function One(open: Option<seq<Bytes>>, f: Frame): Single {
    if !IsChunked(f.fast.flags) then Single(open, [])
    else
      var chunks := (if open.Some? then open.value else []) + [f.payload];
      if IsChunkEnd(f.fast.flags) then Single(None, [Concat(chunks)]) else Single(Some(chunks), [])
  }

  function Alone(open: Option<seq<Bytes>>, frames: seq<Frame>): Single {
    if frames == [] then Single(open, [])
    else
      var a := Alone(open, frames[..|frames| - 1]);
      var o := One(a.open, frames[|frames| - 1]);
      Single(o.open, a.output + o.output)
  }

  function SessionOf(sessions: Sessions, id: u64): Option<seq<Bytes>> {
    if id in sessions then Some(sessions[id]) else None
  }

  lemma OutputAppend(output: seq<Output>, o: Output, id: u64)
    ensures OutputOf(output + [o], id) == OutputOf(output, id) + (if o.msgId == id then [o.message] else [])
  {
    assert (output + [o])[..|output|] == output;
  }

  lemma AloneAppend(open: Option<seq<Bytes>>, frames: seq<Frame>, f: Frame)
    ensures var a := Alone(open, frames);
            Alone(open, frames + [f]) == Single(One(a.open, f).open, a.output + One(a.open, f).output)
  {
    assert (frames + [f])[..|frames|] == frames;
  }

  /** One frame, seen by the reassembler and by the messages of one id. */
  lemma AddIsOne(sessions: Sessions, f: Frame, id: u64)
    ensures var r := AddChunk(sessions, f);
            if f.fast.msgId == id then
              && One(SessionOf(sessions, id), f).open == SessionOf(r.sessions, id)
              && One(SessionOf(sessions, id), f).output == (if r.message.Some? then [r.message.value] else [])
            else SessionOf(r.sessions, id) == SessionOf(sessions, id)
  {
  }

  /** Reassembly acts on each message id as if the others were not there. */
  lemma {:induction false} Independent(sessions: Sessions, frames: seq<Frame>, id: u64)
    ensures var a := Reassemble(sessions, frames);
            Alone(SessionOf(sessions, id), OfId(frames, id)) == Single(SessionOf(a.sessions, id), OutputOf(a.output, id))
    decreases |frames|
  {
    if frames != [] {
      var before, f := frames[..|frames| - 1], frames[|frames| - 1];
      Independent(sessions, before, id);
      var a := Reassemble(sessions, before);
      var r := AddChunk(a.sessions, f);
      AddIsOne(a.sessions, f, id);
      if f.fast.msgId == id {
        AloneAppend(SessionOf(sessions, id), OfId(before, id), f);
      }
      if r.message.Some? {
        OutputAppend(a.output, Output(f.fast.msgId, r.message.value), id);
      } else {
        assert OutputOf(a.output, id) + [] == OutputOf(a.output, id);
      }
    }
  }

  // ---------------------------------------------------------------------------
  // Round trip

  lemma {:induction false} ConcatAppend(parts: seq<Bytes>, b: Bytes)
    ensures Concat(parts + [b]) == Concat(parts) + b
    decreases |parts|
  {
    if parts == [] {
      assert ([] + [b])[1..] == [];
      assert [b] + [] == [b];
    } else {
      ConcatAppend(parts[1..], b);
      assert (parts + [b])[1..] == parts[1..] + [b];
    }
  }

  function Collected(open: Option<seq<Bytes>>): Bytes {
    if open.Some? then Concat(open.value) else []
  }

  /** A first frame, and what it leaves for the rest. */
  lemma AloneOnly(open: Option<seq<Bytes>>, f: Frame)
    requires IsChunked(f.fast.flags) && IsChunkEnd(f.fast.flags)
    ensures Alone(open, [f]) == Single(None, [Collected(open) + f.payload])
  {
    AloneFirst(open, f, []);
    assert [f] + [] == [f];
    assert [Collected(open) + f.payload] + [] == [Collected(open) + f.payload];
  }

  lemma AloneFirst(open: Option<seq<Bytes>>, f: Frame, rest: seq<Frame>)
    requires IsChunked(f.fast.flags)
    ensures var o := One(open, f);
            && Alone(open, [f] + rest) == Single(Alone(o.open, rest).open, o.output + Alone(o.open, rest).output)
            && (if IsChunkEnd(f.fast.flags) then o == Single(None, [Collected(open) + f.payload])
                else o.output == [] && o.open.Some? && Collected(o.open) == Collected(open) + f.payload)
  {
    AloneAppend(open, [], f);
    assert [] + [f] == [f];
    AloneConcat(open, [f], rest);
    ConcatAppend(if open.Some? then open.value else [], f.payload);
  }

  /** The chunks of one message, alone, give back its payload. */
  lemma {:induction false} AloneGivesPayload(h: FastHeader, payload: Bytes, size: nat, open: Option<seq<Bytes>>)
    requires size > 0 && payload != [] && !IsChunkEnd(h.flags)
    ensures Alone(open, Chunks(h, payload, size)) == Single(None, [Collected(open) + payload])
    decreases |payload|
  {
    hide Alone, Collected;
    if |payload| <= size {
      AloneOnly(open, ChunkFrame(h, payload, true));
    } else {
      var f, rest := ChunkFrame(h, payload[..size], false), payload[size..];
      AloneFirst(open, f, Chunks(h, rest, size));
      AloneGivesPayload(h, rest, size, One(open, f).open);
      var whole := Collected(open) + payload;
      assert (Collected(open) + f.payload) + rest == whole;
      assert [] + [whole] == [whole];
    }
  }

  lemma {:induction false} AloneConcat(open: Option<seq<Bytes>>, a: seq<Frame>, b: seq<Frame>)
    ensures var x := Alone(open, a);
            var y := Alone(x.open, b);
            Alone(open, a + b) == Single(y.open, x.output + y.output)
    decreases |b|
  {
    hide One;
    if b == [] {
      assert a + b == a;
    } else {
      var b' := b[..|b| - 1];
      AloneConcat(open, a, b');
      assert (a + b)[..|a + b| - 1] == a + b';
    }
  }

  /** With CHUNK_END already set in the header, every chunk ends the message; an empty payload
      has no chunk at all. The payload comes back exactly otherwise, or when one chunk holds
      all of it. */
  lemma RoundTripIff(h: FastHeader, payload: Bytes, size: nat)
    requires size > 0
    ensures Alone(None, Chunks(h, payload, size)) == Single(None, [payload]) <==>
            payload != [] && (!IsChunkEnd(h.flags) || |payload| <= size)
  {
    if payload == [] {
      assert Alone(None, []).output == [];
    } else if !IsChunkEnd(h.flags) {
      AloneGivesPayload(h, payload, size, None);
      assert Collected(None) + payload == payload;
    } else if |payload| <= size {
      AloneOnly(None, ChunkFrame(h, payload, true));
      assert Collected(None) + payload == payload;
    } else {
      AloneFirst(None, ChunkFrame(h, payload[..size], false), Chunks(h, payload[size..], size));
      assert Alone(None, Chunks(h, payload, size)).output[0] == payload[..size];
    }
  }

  /** A message without content is never delivered. */
  lemma EmptyIsLost(h: FastHeader, size: nat)
    requires size > 0
    ensures Chunks(h, [], size) == [] && Alone(None, Chunks(h, [], size)).output == []
  {
  }

  /** A header that already carries CHUNK_END (flag value 2) breaks two bytes into two
      messages, at a chunk size of one. */
  lemma EarlyEndSplits(h: FastHeader)
    requires h.flags == 2
    ensures Alone(None, Chunks(h, [7, 9], 1)) == Single(None, [[7], [9]])
  {
    var first, second := ChunkFrame(h, [7], false), ChunkFrame(h, [9], true);
    assert [7, 9][..1] == [7] && [7, 9][1..] == [9];
    assert Chunks(h, [7, 9], 1) == [first] + [second];
    AloneFirst(None, first, [second]);
    AloneOnly(None, second);
    assert Collected(None) + [7] == [7] && Collected(None) + [9] == [9];
  }

  datatype Message = Message(header: FastHeader, payload: Bytes)

  ghost predicate Splittable(m: Message) {
    Sendable(m.header) && m.header.hdrHintLen == 0 && !IsChunkEnd(m.header.flags) && m.payload != []
  }

  /** `frames` interleaves the chunks of the messages, each message's in order. */
  ghost predicate Interleaves(frames: seq<Frame>, messages: map<u64, Message>, size: nat)
    requires size > 0
  {
    && (forall id | id in messages ::
          && messages[id].header.msgId == id && Splittable(messages[id])
          && OfId(frames, id) == Chunks(messages[id].header, messages[id].payload, size))
    && (forall f | f in frames :: f.fast.msgId in messages)
  }

  lemma MessageRoundTrip(frames: seq<Frame>, messages: map<u64, Message>, size: nat, id: u64)
    requires size > 0 && Interleaves(frames, messages, size)
    ensures var a := Reassemble(map[], frames);
            && id !in a.sessions
            && OutputOf(a.output, id) == if id in messages then [messages[id].payload] else []
  {
    hide Reassemble, Chunks, OfId, OutputOf;
    Independent(map[], frames, id);
    if id in messages {
      AloneGivesPayload(messages[id].header, messages[id].payload, size, None);
      assert Collected(None) + messages[id].payload == messages[id].payload;
    } else {
      NoFramesOfOthers(frames, messages, id);
    }
  }

  /** Round trip: any interleaving of the chunks of messages with distinct ids is
      reassembled into each payload exactly once, and no session stays open. */
  lemma InterleavedRoundTrip(frames: seq<Frame>, messages: map<u64, Message>, size: nat)
    requires size > 0 && Interleaves(frames, messages, size)
    ensures var a := Reassemble(map[], frames);
            && a.sessions == map[]
            && (forall id | id in messages :: OutputOf(a.output, id) == [messages[id].payload])
            && (forall o | o in a.output :: o.msgId in messages)
  {
    var a := Reassemble(map[], frames);
    forall id: u64
      ensures id !in a.sessions
      ensures OutputOf(a.output, id) == if id in messages then [messages[id].payload] else []
    {
      MessageRoundTrip(frames, messages, size, id);
    }
    forall o | o in a.output
      ensures o.msgId in messages
    {
      OutputListed(a.output, o);
    }
  }

  lemma {:induction false} NoFramesOfOthers(frames: seq<Frame>, messages: map<u64, Message>, id: u64)
    requires id !in messages && forall f | f in frames :: f.fast.msgId in messages
    ensures OfId(frames, id) == []
    decreases |frames|
  {
    if frames != [] {
      assert frames[|frames| - 1] in frames;
      NoFramesOfOthers(frames[..|frames| - 1], messages, id);
    }
  }

  lemma {:induction false} OutputListed(output: seq<Output>, o: Output)
    requires o in output
    ensures o.message in OutputOf(output, o.msgId)
    decreases |output|
  {
    var before := output[..|output| - 1];
    if o in before {
      OutputListed(before, o);
    } else {
      assert o == output[|output| - 1];
    }
  }

  // ---------------------------------------------------------------------------
  // Through the wire

  /** All frames of a buffer. */
  function DecodeAll(maxFrameSize: nat, buf: Bytes): (seq<Frame>, Bytes)
    decreases |buf|
  {
    match DecodeFrame(maxFrameSize, buf)
    case Got(f, rest) =>
      if |rest| < |buf| then
        var (frames, left) := DecodeAll(maxFrameSize, rest);
        ([f] + frames, left)
      else ([], buf)
    case _ => ([], buf)
  }

  lemma DecodeAllStep(f: Frame, rest: Bytes, maxFrameSize: nat)
    requires WellFormed(f) && Fits(f, maxFrameSize)
    ensures DecodeAll(maxFrameSize, ToBytes(f) + rest) ==
              ([f] + DecodeAll(maxFrameSize, rest).0, DecodeAll(maxFrameSize, rest).1)
  {
    FrameRoundTrip(f, rest, maxFrameSize);
    assert |rest| < |ToBytes(f) + rest|;
  }

  lemma {:induction false} DecodeAllStream(frames: seq<Frame>, maxFrameSize: nat)
    requires Sendables(frames, maxFrameSize)
    ensures DecodeAll(maxFrameSize, Stream(frames)) == (frames, [])
    decreases |frames|
  {
    if frames != [] {
      assert frames[0] in frames;
      DecodeAllStep(frames[0], Stream(frames[1..]), maxFrameSize);
      DecodeAllStream(frames[1..], maxFrameSize);
      assert frames == [frames[0]] + frames[1..];
    }
  }

  lemma {:induction false} FrameIsChunk(frames: seq<Frame>, f: Frame)
    requires f in frames
    ensures f in OfId(frames, f.fast.msgId)
    decreases |frames|
  {
    var before := frames[..|frames| - 1];
    if f in before {
      FrameIsChunk(before, f);
    } else {
      assert f == frames[|frames| - 1];
    }
  }

  /** The whole pipeline: chunk, interleave, encode, decode, reassemble. */
  lemma PipelineRoundTrip(frames: seq<Frame>, messages: map<u64, Message>, size: nat)
    requires 0 < size <= DEFAULT_CHUNK_SIZE && Interleaves(frames, messages, size)
    ensures var decoded := DecodeAll(DEFAULT_MAX_FRAME_SIZE, Stream(frames)).0;
            var a := Reassemble(map[], decoded);
            && a.sessions == map[]
            && (forall id | id in messages :: OutputOf(a.output, id) == [messages[id].payload])
            && (forall o | o in a.output :: o.msgId in messages)
  {
    forall f | f in frames
      ensures WellFormed(f) && Fits(f, DEFAULT_MAX_FRAME_SIZE)
    {
      var m := messages[f.fast.msgId];
      FrameIsChunk(frames, f);
      ChunksAreSendable(m.header, m.payload, size);
    }
    DecodeAllStream(frames, DEFAULT_MAX_FRAME_SIZE);
    InterleavedRoundTrip(frames, messages, size);
  }
}
