/** Exactly which messages come through chunking, encoding, decoding and reassembly as they
    were: every other message loses bytes on the way. */
module ChunkWire {
  import opened Base
  import opened ByteCodec
  import opened Header
  import opened Frame
  import opened Chunk

  function TotalPayload(frames: seq<Frame>): nat {
    if frames == [] then 0 else |frames[0].payload| + TotalPayload(frames[1..])
  }

  lemma {:induction false} TotalAppend(frames: seq<Frame>, f: Frame)
    ensures TotalPayload(frames + [f]) == TotalPayload(frames) + |f.payload|
    decreases |frames|
  {
    if frames == [] {
      assert ([] + [f])[1..] == [];
    } else {
      assert (frames + [f])[1..] == frames[1..] + [f];
      TotalAppend(frames[1..], f);
    }
  }

  function Delivered(output: seq<Bytes>): nat {
    |Concat(output)|
  }

  /** Reassembly gives out no more bytes than the frames carry. */
  lemma {:induction false} NothingInvented(frames: seq<Frame>)
    ensures Delivered(Alone(None, frames).output) + |Collected(Alone(None, frames).open)| <= TotalPayload(frames)
    decreases |frames|
  {
    if frames != [] {
      var before, f := frames[..|frames| - 1], frames[|frames| - 1];
      NothingInvented(before);
      assert frames == before + [f];
      TotalAppend(before, f);
      OneDelivers(Alone(None, before), f);
    }
  }

  lemma OneDelivers(a: Single, f: Frame)
    ensures var o := One(a.open, f);
            Delivered(a.output + o.output) + |Collected(o.open)|
              <= Delivered(a.output) + |Collected(a.open)| + |f.payload|
  {
    if IsChunked(f.fast.flags) {
      ConcatAppend(if a.open.Some? then a.open.value else [], f.payload);
      if IsChunkEnd(f.fast.flags) {
        ConcatAppend(a.output, Concat((if a.open.Some? then a.open.value else []) + [f.payload]));
      }
    }
    assert a.output + [] == a.output;
  }

  lemma {:induction false} ChunkPayloads(h: FastHeader, payload: Bytes, size: nat)
    requires size > 0
    ensures TotalPayload(Chunks(h, payload, size)) == |payload|
    ensures forall f | f in Chunks(h, payload, size) ::
              f.fast.(flags := h.flags) == h && f.hint == None && f.metaRaw == EMPTY_META && 0 < |f.payload| <= size
    decreases |payload|
  {
    if |payload| > size {
      ChunkPayloads(h, payload[size..], size);
      assert Chunks(h, payload, size)[1..] == Chunks(h, payload[size..], size);
    } else if payload != [] {
      assert Chunks(h, payload, size)[1..] == [];
    }
  }

  /** The body of a chunk frame behind its header, at its first bytes. */
  lemma ChunkBody(f: Frame)
    requires f.hint == None && f.metaRaw == EMPTY_META
    ensures Body(f) == Header.Encode(f.fast) + ([0, 0, 0, 2, 0x7B, 0x7D] + f.payload)
  {
    assert ToBE(2, 4) == [0, 0, 0, 2] by {
      assert ToBE(0, 1) == [0] && ToBE(0, 2) == [0, 0] && ToBE(0, 3) == [0, 0, 0];
    }
    var tail := ToBE(|f.metaRaw|, 4) + (f.metaRaw + f.payload);
    assert tail == [0, 0, 0, 2, 0x7B, 0x7D] + f.payload;
    assert HintBytes(f) + tail == tail;
  }

  /** A header that claims a hint makes the decoder read the payload late, or not at all. */
  lemma HintedBody(f: Frame)
    requires f.hint == None && f.metaRaw == EMPTY_META && f.fast.hdrHintLen > 0
    ensures DecodeBody(Body(f)).Ok? ==> |DecodeBody(Body(f)).value.payload| < |f.payload|
  {
    var tail := [0, 0, 0, 2, 0x7B, 0x7D] + f.payload;
    ChunkBody(f);
    DecodeEncode(f.fast, tail);
    if DecodeBody(Body(f)).Ok? {
      EncodeDecode(Body(f));
      assert Body(f)[FAST_HEADER_SIZE..] == tail;
      HintedTail(tail, f.fast.hdrHintLen, f.payload);
    }
  }

  lemma HintedTail(tail: Bytes, hint: nat, payload: Bytes)
    requires tail == [0, 0, 0, 2, 0x7B, 0x7D] + payload && 0 < hint <= |tail| - 4
    ensures var b2 := tail[hint..];
            FromBE(b2[..4]) <= MAX_META_SIZE && FromBE(b2[..4]) <= |b2| - 4 ==>
              |b2| - 4 - FromBE(b2[..4]) < |payload|
  {
    var b2 := tail[hint..];
    if hint == 1 {
      assert b2[..4] == [0, 0, 2, 0x7B];
      FourBytes(0, 0, 2, 0x7B);
    } else if hint == 2 {
      assert b2[..4] == [0, 2, 0x7B, 0x7D];
      FourBytes(0, 2, 0x7B, 0x7D);
    }
  }

  lemma FourBytes(a: u8, b: u8, c: u8, d: u8)
    ensures FromBE([a, b, c, d]) == ((a * 256 + b) * 256 + c) * 256 + d
  {
    assert [a, b, c, d][..3] == [a, b, c] && [a, b, c][..2] == [a, b] && [a, b][..1] == [a] && [a][..0] == [];
    assert FromBE([]) == 0;
    assert FromBE([a]) == a && FromBE([a, b]) == a * 256 + b;
    assert FromBE([a, b, c]) == (a * 256 + b) * 256 + c;
  }

  /** What the decoder makes of a frame in front of a stream, if it is not well-formed. */
  lemma HintedDecode(f: Frame, rest: Bytes, maxFrameSize: nat)
    requires f.hint == None && f.metaRaw == EMPTY_META && f.fast.hdrHintLen > 0 && Fits(f, maxFrameSize)
    ensures var d := DecodeFrame(maxFrameSize, ToBytes(f) + rest);
            d.Got? ==> d.rest == rest && |d.frame.payload| < |f.payload|
  {
    hide DecodeBody, Body;
    var buf, n := ToBytes(f) + rest, EncodedSize(f) - 4;
    assert buf[..4] == ToBE(n, 4);
    Pow256Values();
    FromToBE(n, 4);
    assert buf[4..4 + n] == Body(f) && buf[4 + n..] == rest;
    HintedBody(f);
  }

  /** With such headers fewer bytes come out of the decoder than went in. */
  lemma {:induction false} HintedStream(frames: seq<Frame>, maxFrameSize: nat)
    requires forall f | f in frames ::
               f.hint == None && f.metaRaw == EMPTY_META && f.fast.hdrHintLen > 0 && Fits(f, maxFrameSize) && f.payload != []
    ensures var decoded := DecodeAll(maxFrameSize, Stream(frames)).0;
            TotalPayload(decoded) <= TotalPayload(frames) && (frames != [] ==> TotalPayload(decoded) < TotalPayload(frames))
    decreases |frames|
  {
    hide DecodeFrame, ToBytes, Fits;
    if frames == [] {
      assert DecodeAll(maxFrameSize, []).0 == [] by {
        NothingToDecode(maxFrameSize);
      }
    } else {
      assert frames[0] in frames;
      HintedDecode(frames[0], Stream(frames[1..]), maxFrameSize);
      HintedStream(frames[1..], maxFrameSize);
      var d := DecodeFrame(maxFrameSize, Stream(frames));
      if d.Got? {
        var more := DecodeAll(maxFrameSize, d.rest).0;
        assert ([d.frame] + more)[1..] == more;
      }
    }
  }

  lemma NothingToDecode(maxFrameSize: nat)
    ensures DecodeFrame(maxFrameSize, []) == NeedMore
  {
  }

  /** A header the decoder does not admit stops it at the first frame. */
  lemma RefusedStream(f: Frame, rest: Bytes, maxFrameSize: nat)
    requires !Sendable(f.fast) && Fits(f, maxFrameSize)
    ensures DecodeAll(maxFrameSize, ToBytes(f) + rest).0 == []
  {
    var buf, n := ToBytes(f) + rest, EncodedSize(f) - 4;
    assert buf[..4] == ToBE(n, 4);
    Pow256Values();
    FromToBE(n, 4);
    assert buf[4..4 + n] == Body(f);
    DecodeEncode(f.fast, HintBytes(f) + (ToBE(|f.metaRaw|, 4) + (f.metaRaw + f.payload)));
  }

  /** What one message looks like behind the wire. */
  function Through(h: FastHeader, payload: Bytes, size: nat): Single
    requires size > 0
  {
    Alone(None, DecodeAll(DEFAULT_MAX_FRAME_SIZE, Stream(Chunks(h, payload, size))).0)
  }

  lemma SendableComesThrough(h: FastHeader, payload: Bytes, size: nat)
    requires 0 < size <= DEFAULT_CHUNK_SIZE && Sendable(h) && h.hdrHintLen == 0
    ensures Through(h, payload, size) == Alone(None, Chunks(h, payload, size))
  {
    hide Alone, Chunks, DecodeAll;
    ChunksAreSendable(h, payload, size);
    DecodeAllStream(Chunks(h, payload, size), DEFAULT_MAX_FRAME_SIZE);
  }

  lemma ChunkFits(f: Frame, size: nat)
    requires size <= DEFAULT_CHUNK_SIZE && f.hint == None && f.metaRaw == EMPTY_META && |f.payload| <= size
    ensures Fits(f, DEFAULT_MAX_FRAME_SIZE)
  {
  }

  lemma OthersLoseBytes(h: FastHeader, payload: Bytes, size: nat)
    requires 0 < size <= DEFAULT_CHUNK_SIZE && payload != [] && (!Sendable(h) || h.hdrHintLen > 0)
    ensures TotalPayload(DecodeAll(DEFAULT_MAX_FRAME_SIZE, Stream(Chunks(h, payload, size))).0) < |payload|
  {
    hide DecodeAll, Stream, Fits, Sendable;
    var frames := Chunks(h, payload, size);
    ChunkPayloads(h, payload, size);
    forall f | f in frames
      ensures Fits(f, DEFAULT_MAX_FRAME_SIZE)
    {
      ChunkFits(f, size);
    }
    if h.hdrHintLen > 0 {
      HintedStream(frames, DEFAULT_MAX_FRAME_SIZE);
    } else {
      assert frames[0] in frames;
      SendableIgnoresFlags(h, frames[0].fast);
      StreamFirst(frames);
      RefusedStream(frames[0], Stream(frames[1..]), DEFAULT_MAX_FRAME_SIZE);
    }
  }

  lemma SendableIgnoresFlags(h: FastHeader, k: FastHeader)
    requires k.(flags := h.flags) == h
    ensures Sendable(k) <==> Sendable(h)
  {
  }

  lemma StreamFirst(frames: seq<Frame>)
    requires frames != []
    ensures Stream(frames) == ToBytes(frames[0]) + Stream(frames[1..])
  {
  }

  /** Exactly which messages come back through chunking, encoding, decoding and reassembly:
      those with an admissible header that claims no hint, with some content, and without
      CHUNK_END unless one chunk holds it all. */
  lemma ThroughIff(h: FastHeader, payload: Bytes, size: nat)
    requires 0 < size <= DEFAULT_CHUNK_SIZE
    ensures Through(h, payload, size) == Single(None, [payload]) <==>
            && Sendable(h) && h.hdrHintLen == 0
            && payload != [] && (!IsChunkEnd(h.flags) || |payload| <= size)
  {
    hide Alone, Chunks, Sendable, DecodeAll, Stream;
    if Sendable(h) && h.hdrHintLen == 0 {
      SendableComesThrough(h, payload, size);
      Chunk.RoundTripIff(h, payload, size);
    } else {
      var decoded := DecodeAll(DEFAULT_MAX_FRAME_SIZE, Stream(Chunks(h, payload, size))).0;
      if payload == [] {
        EmptyIsLost(h, size);
        EmptyThrough(h, size);
      } else {
        OthersLoseBytes(h, payload, size);
        NothingInvented(decoded);
        OneOutput(payload);
      }
    }
  }

  lemma EmptyThrough(h: FastHeader, size: nat)
    requires size > 0
    ensures Through(h, [], size) == Single(None, [])
  {
    NothingToDecode(DEFAULT_MAX_FRAME_SIZE);
    assert Chunks(h, [], size) == [];
    assert Stream([]) == [];
    assert DecodeAll(DEFAULT_MAX_FRAME_SIZE, []).0 == [];
  }

  lemma OneOutput(payload: Bytes)
    ensures Delivered([payload]) == |payload|
  {
    assert [payload][1..] == [] && Concat([]) == [];
    assert payload + [] == payload;
  }

  /** A header that claims a hint of one byte loses every message. */
  lemma HintLoses(h: FastHeader, payload: Bytes, size: nat)
    requires 0 < size <= DEFAULT_CHUNK_SIZE && h.hdrHintLen == 1
    ensures Through(h, payload, size) != Single(None, [payload])
  {
    hide Through;
    ThroughIff(h, payload, size);
  }
}
