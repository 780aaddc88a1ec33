/** Frames on the wire: length prefix, fast header, optional hint, metadata and payload;
    the incremental decoder, and reading frames from a byte stream that arrives in pieces. */
module Frame {
  import opened Base
  import opened ByteCodec
  import opened Header

  const DEFAULT_MAX_FRAME_SIZE: nat := 16 * 1024 * 1024
  const MAX_META_SIZE: nat := 64 * 1024

  datatype Frame = Frame(fast: FastHeader, hint: Option<Bytes>, metaRaw: Bytes, payload: Bytes)

  function HintBytes(f: Frame): Bytes {
    if f.hint.Some? then f.hint.value else []
  }

  function EncodedSize(f: Frame): nat {
    4 + FAST_HEADER_SIZE + |HintBytes(f)| + 4 + |f.metaRaw| + |f.payload|
  }

  /** Everything after the length prefix. */
  function Body(f: Frame): (b: Bytes)
    ensures |b| == EncodedSize(f) - 4
  {
    Header.Encode(f.fast) + (HintBytes(f) + (ToBE(|f.metaRaw|, 4) + (f.metaRaw + f.payload)))
  }

  function ToBytes(f: Frame): (b: Bytes)
    ensures |b| == EncodedSize(f)
  {
    ToBE(EncodedSize(f) - 4, 4) + Body(f)
  }

  function EncodeFrame(f: Frame, maxFrameSize: nat): Result<Bytes, WireError> {
    if EncodedSize(f) > maxFrameSize then Err(Size(EncodedSize(f))) else Ok(ToBytes(f))
  }

  method Encode(f: Frame, maxFrameSize: nat) returns (r: Result<Bytes, WireError>)
    ensures r == EncodeFrame(f, maxFrameSize)
  {
    var totalSize := EncodedSize(f);
    if totalSize > maxFrameSize {
      return Err(Size(totalSize));
    }
    var buf := ToBE(totalSize - 4, 4);
    buf := buf + Header.Encode(f.fast);
    if f.hint.Some? {
      buf := buf + f.hint.value;
    }
    buf := buf + ToBE(|f.metaRaw|, 4);
    buf := buf + f.metaRaw;
    buf := buf + f.payload;
    assert buf == ToBytes(f);
    r := Ok(buf);
  }

  // ---------------------------------------------------------------------------
  // Decoding

  datatype Decoded = NeedMore | Got(frame: Frame, rest: Bytes) | Failed(error: WireError, rest: Bytes)

  /** A complete body; `None` in the hint means a hint length of zero. */
  function DecodeBody(b: Bytes): Result<Frame, WireError> {
    match Header.Decode(b)
    case Err(e) => Err(e)
    case Ok(fast) =>
      var b1 := b[FAST_HEADER_SIZE..];
      if |b1| < fast.hdrHintLen then Err(Malformed)
      else
        var b2 := b1[fast.hdrHintLen..];
        if |b2| < 4 then Err(Malformed)
        else
          var metaLen := FromBE(b2[..4]);
          var b3 := b2[4..];
          if metaLen > MAX_META_SIZE || |b3| < metaLen then Err(Meta)
          else Ok(Frame(fast, if fast.hdrHintLen > 0 then Some(b1[..fast.hdrHintLen]) else None,
                        b3[..metaLen], b3[metaLen..]))
  }

  function DecodeFrame(maxFrameSize: nat, buf: Bytes): Decoded {
    if |buf| < 4 then NeedMore
    else
      var frameLen := FromBE(buf[..4]);
      if frameLen > maxFrameSize then Failed(Size(frameLen), buf)
      else if |buf| < 4 + frameLen then NeedMore
      else
        match DecodeBody(buf[4..4 + frameLen])
        case Ok(f) => Got(f, buf[4 + frameLen..])
        case Err(e) => Failed(e, buf[4 + frameLen..])
  }

  /** The frames a decoder can produce. */
  ghost predicate WellFormed(f: Frame) {
    && Sendable(f.fast)
    && f.fast.hdrHintLen == |HintBytes(f)| && (f.hint.Some? ==> f.hint.value != [])
    && |f.metaRaw| <= MAX_META_SIZE
  }

  /** A frame that fits the decoder's limit and the 32-bit length prefix. */
  ghost predicate Fits(f: Frame, maxFrameSize: nat) {
    EncodedSize(f) - 4 <= maxFrameSize && EncodedSize(f) - 4 <= U32_MAX
  }

  /** What becomes of a buffer: too short a one is kept, too large a frame is refused and kept,
      and a complete frame is consumed whether its body is good or not. */
  lemma DecodeOutcomes(maxFrameSize: nat, buf: Bytes)
    ensures |buf| < 4 ==> DecodeFrame(maxFrameSize, buf) == NeedMore
    ensures |buf| >= 4 && FromBE(buf[..4]) > maxFrameSize ==>
              DecodeFrame(maxFrameSize, buf) == Failed(Size(FromBE(buf[..4])), buf)
    ensures |buf| >= 4 && FromBE(buf[..4]) <= maxFrameSize && |buf| < 4 + FromBE(buf[..4]) ==>
              DecodeFrame(maxFrameSize, buf) == NeedMore
    ensures |buf| >= 4 && FromBE(buf[..4]) <= maxFrameSize && |buf| >= 4 + FromBE(buf[..4]) ==>
              var n := FromBE(buf[..4]);
              match DecodeFrame(maxFrameSize, buf) {
                case NeedMore => false
                case Got(f, rest) => DecodeBody(buf[4..4 + n]) == Ok(f) && rest == buf[4 + n..]
                case Failed(e, rest) => DecodeBody(buf[4..4 + n]) == Err(e) && rest == buf[4 + n..]
              }
  {
    hide DecodeBody, FromBE;
  }

  /** What a body is refused for, once its header is accepted: a hint or metadata length that
      does not fit, or metadata of more than 64 KiB. */
  lemma BodyOutcomes(b: Bytes)
    requires Header.Decode(b).Ok?
    ensures var h: nat := Header.Decode(b).value.hdrHintLen;
            && (|b| < 48 + h + 4 ==> DecodeBody(b) == Err(Malformed))
            && (|b| >= 48 + h + 4 ==>
                  var n := FromBE(b[48 + h..48 + h + 4]);
                  && (n > 65536 || |b| < 48 + h + 4 + n ==> DecodeBody(b) == Err(Meta))
                  && (n <= 65536 && |b| >= 48 + h + 4 + n ==>
                        DecodeBody(b).Ok? && DecodeBody(b).value.metaRaw == b[48 + h + 4..48 + h + 4 + n]))
  {
    hide FromBE;
    var h: nat := Header.Decode(b).value.hdrHintLen;
    if |b| >= 48 + h + 4 {
      assert b[48..][h..][..4] == b[48 + h..48 + h + 4];
      var n := FromBE(b[48 + h..48 + h + 4]);
      if |b| >= 48 + h + 4 + n {
        assert b[48..][h..][4..][..n] == b[48 + h + 4..48 + h + 4 + n];
      }
    }
  }

  /** Where everything is in an encoded frame. */
  lemma Layout(f: Frame)
    ensures var b, h, n := ToBytes(f), |HintBytes(f)|, |f.metaRaw|;
            && |b| == 4 + 48 + h + 4 + n + |f.payload|
            && b[..4] == ToBE(48 + h + 4 + n + |f.payload|, 4)
            && b[4..52] == Header.Encode(f.fast)
            && b[52..52 + h] == HintBytes(f)
            && b[52 + h..56 + h] == ToBE(n, 4)
            && b[56 + h..56 + h + n] == f.metaRaw
            && b[56 + h + n..] == f.payload
  {
    hide ToBE;
    var body, tail := Body(f), ToBE(|f.metaRaw|, 4) + (f.metaRaw + f.payload);
    assert body[..48] == Header.Encode(f.fast) && body[48..] == HintBytes(f) + tail;
  }

  lemma DecodeBodyOf(f: Frame)
    requires WellFormed(f)
    ensures DecodeBody(Body(f)) == Ok(f)
  {
    var tail := ToBE(|f.metaRaw|, 4) + (f.metaRaw + f.payload);
    DecodeEncode(f.fast, HintBytes(f) + tail);
    var b1 := Body(f)[FAST_HEADER_SIZE..];
    assert b1 == HintBytes(f) + tail;
    assert b1[f.fast.hdrHintLen..] == tail && b1[..f.fast.hdrHintLen] == HintBytes(f);
    assert tail[..4] == ToBE(|f.metaRaw|, 4) && tail[4..] == f.metaRaw + f.payload;
    Pow256Values();
    FromToBE(|f.metaRaw|, 4);
    assert (f.metaRaw + f.payload)[..|f.metaRaw|] == f.metaRaw;
    assert (f.metaRaw + f.payload)[|f.metaRaw|..] == f.payload;
  }

  /** Metadata length, metadata and payload, cut where the length says. */
  lemma MetaSection(b: Bytes, n: nat)
    requires |b| >= 4 + n && FromBE(b[..4]) == n
    ensures b == ToBE(n, 4) + (b[4..][..n] + b[4..][n..])
  {
    ToFromBE(b[..4]);
    assert b[4..] == b[4..][..n] + b[4..][n..];
  }

  lemma BodyFromParts(f: Frame, b: Bytes)
    requires |b| >= FAST_HEADER_SIZE && Header.Encode(f.fast) == b[..FAST_HEADER_SIZE]
    requires var b1 := b[FAST_HEADER_SIZE..];
             && |HintBytes(f)| <= |b1| && HintBytes(f) == b1[..|HintBytes(f)|]
             && b1[|HintBytes(f)|..] == ToBE(|f.metaRaw|, 4) + (f.metaRaw + f.payload)
    ensures Body(f) == b
  {
    var b1 := b[FAST_HEADER_SIZE..];
    assert b1 == b1[..|HintBytes(f)|] + b1[|HintBytes(f)|..];
    assert b == b[..FAST_HEADER_SIZE] + b1;
  }

  lemma BodyOfDecoded(b: Bytes)
    requires DecodeBody(b).Ok?
    ensures WellFormed(DecodeBody(b).value) && Body(DecodeBody(b).value) == b
  {
    EncodeDecode(b);
    var f := DecodeBody(b).value;
    MetaSection(b[FAST_HEADER_SIZE..][f.fast.hdrHintLen..], |f.metaRaw|);
    BodyFromParts(f, b);
  }

  /** Decoding an encoded frame gives it back and leaves what follows. */
  lemma FrameRoundTrip(f: Frame, rest: Bytes, maxFrameSize: nat)
    requires WellFormed(f) && Fits(f, maxFrameSize)
    ensures DecodeFrame(maxFrameSize, ToBytes(f) + rest) == Got(f, rest)
  {
    var buf, n := ToBytes(f) + rest, EncodedSize(f) - 4;
    assert buf[..4] == ToBE(n, 4);
    Pow256Values();
    FromToBE(n, 4);
    assert buf[4..4 + n] == Body(f) && buf[4 + n..] == rest;
    DecodeBodyOf(f);
  }

  lemma PrefixedBody(f: Frame, body: Bytes, prefix: Bytes)
    requires |prefix| == 4 && Body(f) == body && FromBE(prefix) == |body|
    ensures ToBytes(f) == prefix + body
  {
    ToFromBE(prefix);
  }

  lemma FrameOfBytes(buf: Bytes, n: nat, f: Frame)
    requires |buf| >= 4 + n && FromBE(buf[..4]) == n && Body(f) == buf[4..4 + n]
    ensures EncodedSize(f) - 4 == n <= U32_MAX && buf == ToBytes(f) + buf[4 + n..]
  {
    hide Body, ToBytes, FromBE, ToBE;
    PrefixedBody(f, buf[4..4 + n], buf[..4]);
    ToFromBE(buf[..4]);
    Pow256Values();
    assert buf == (buf[..4] + buf[4..4 + n]) + buf[4 + n..];
  }

  /** Exactly the well-formed frames within the limit come back as they were. */
  lemma RoundTripIff(f: Frame, rest: Bytes, maxFrameSize: nat)
    ensures DecodeFrame(maxFrameSize, ToBytes(f) + rest) == Got(f, rest) <==> WellFormed(f) && Fits(f, maxFrameSize)
  {
    hide WellFormed, Fits, ToBytes, DecodeFrame;
    if DecodeFrame(maxFrameSize, ToBytes(f) + rest) == Got(f, rest) {
      DecodedIsCanonical(ToBytes(f) + rest, maxFrameSize);
    } else if WellFormed(f) && Fits(f, maxFrameSize) {
      FrameRoundTrip(f, rest, maxFrameSize);
    }
  }

  /** Decoded bytes re-encode to themselves: no two byte strings mean the same frame. */
  lemma DecodedIsCanonical(buf: Bytes, maxFrameSize: nat)
    requires DecodeFrame(maxFrameSize, buf).Got?
    ensures var d := DecodeFrame(maxFrameSize, buf);
            WellFormed(d.frame) && Fits(d.frame, maxFrameSize) && buf == ToBytes(d.frame) + d.rest
  {
    var n := FromBE(buf[..4]);
    BodyOfDecoded(buf[4..4 + n]);
    FrameOfBytes(buf, n, DecodeBody(buf[4..4 + n]).value);
  }

  /** The encoder counts the length prefix towards its limit and the decoder does not: what
      was decoded encodes again exactly if it stays four bytes below the decoder's limit. */
  lemma ReencodesIff(buf: Bytes, maxFrameSize: nat)
    requires DecodeFrame(maxFrameSize, buf).Got?
    ensures var d := DecodeFrame(maxFrameSize, buf);
            EncodeFrame(d.frame, maxFrameSize) == Ok(buf[..|buf| - |d.rest|]) <==> FromBE(buf[..4]) + 4 <= maxFrameSize
  {
    hide WellFormed, ToBytes, DecodeBody, FromBE;
    var n := FromBE(buf[..4]);
    var f := DecodeBody(buf[4..4 + n]).value;
    BodyOfDecoded(buf[4..4 + n]);
    FrameOfBytes(buf, n, f);
    assert buf[..4 + n] == ToBytes(f) by {
      assert buf == ToBytes(f) + buf[4 + n..];
    }
  }

  /** What the encoder accepts the decoder accepts, at the same limit. */
  lemma EncodedDecodes(f: Frame, rest: Bytes, maxFrameSize: nat)
    requires WellFormed(f) && EncodeFrame(f, maxFrameSize).Ok? && maxFrameSize <= U32_MAX
    ensures DecodeFrame(maxFrameSize, EncodeFrame(f, maxFrameSize).value + rest) == Got(f, rest)
  {
    hide WellFormed, ToBytes, DecodeFrame;
    FrameRoundTrip(f, rest, maxFrameSize);
  }

  /** The largest frame the decoder accepts is one the encoder refuses. */
  lemma LargestIsRefused(f: Frame, maxFrameSize: nat)
    requires WellFormed(f) && EncodedSize(f) == maxFrameSize + 4 && maxFrameSize <= U32_MAX
    ensures DecodeFrame(maxFrameSize, ToBytes(f)) == Got(f, []) && EncodeFrame(f, maxFrameSize).Err?
  {
    hide WellFormed, ToBytes, DecodeFrame;
    FrameRoundTrip(f, [], maxFrameSize);
    assert ToBytes(f) + [] == ToBytes(f);
  }

  /** A frame that has not arrived completely is waited for. */
  lemma PrefixNeedsMore(f: Frame, buf: Bytes, maxFrameSize: nat)
    requires Fits(f, maxFrameSize) && buf < ToBytes(f)
    ensures DecodeFrame(maxFrameSize, buf) == NeedMore
  {
    var n := EncodedSize(f) - 4;
    if |buf| >= 4 {
      assert buf[..4] == ToBytes(f)[..4] == ToBE(n, 4);
      Pow256Values();
      FromToBE(n, 4);
    }
  }

  // ---------------------------------------------------------------------------
  // Streams

  function Stream(frames: seq<Frame>): Bytes {
    if frames == [] then [] else ToBytes(frames[0]) + Stream(frames[1..])
  }

  function Concat(parts: seq<Bytes>): Bytes {
    if parts == [] then [] else parts[0] + Concat(parts[1..])
  }

  ghost predicate Sendables(frames: seq<Frame>, maxFrameSize: nat) {
    forall f | f in frames :: WellFormed(f) && Fits(f, maxFrameSize)
  }

  /** Decoding what has arrived of a stream waits, or takes the next frame off it. */
  lemma DecodeFromStream(frames: seq<Frame>, buf: Bytes, maxFrameSize: nat)
    requires Sendables(frames, maxFrameSize) && buf <= Stream(frames)
    ensures var d := DecodeFrame(maxFrameSize, buf);
            || d == NeedMore
            || (frames != [] && d.Got? && d.frame == frames[0] && d.rest <= Stream(frames[1..])
                && buf == ToBytes(frames[0]) + d.rest)
  {
    if frames != [] {
      var first := ToBytes(frames[0]);
      assert frames[0] in frames;
      if |buf| < |first| {
        assert buf == first[..|buf|];
        PrefixNeedsMore(frames[0], buf, maxFrameSize);
      } else {
        var rest := buf[|first|..];
        assert buf == first + rest;
        assert rest == Stream(frames)[|first|..][..|rest|];
        assert Stream(frames)[|first|..] == Stream(frames[1..]);
        FrameRoundTrip(frames[0], rest, maxFrameSize);
      }
    }
  }

  datatype Incoming = Incoming(buffer: Bytes, pieces: seq<Bytes>)

  datatype RecvError = Eof | Wire(error: WireError)

  datatype Received = Received(result: Result<Frame, RecvError>, left: Incoming)

  /** One call: read, then decode, until a frame is complete. `pieces` are what the
      connection will deliver; an empty piece, or none, is the end of the stream. */
  function RecvOne(maxFrameSize: nat, s: Incoming): Received
    decreases |s.pieces|
  {
    if s.pieces == [] || s.pieces[0] == [] then Received(Err(Eof), s)
    else
      var buffer := s.buffer + s.pieces[0];
      match DecodeFrame(maxFrameSize, buffer)
      case Got(f, rest) => Received(Ok(f), Incoming(rest, s.pieces[1..]))
      case NeedMore => RecvOne(maxFrameSize, Incoming(buffer, s.pieces[1..]))
      case Failed(e, rest) => Received(Err(Wire(e)), Incoming(rest, s.pieces[1..]))
  }

  /** How one call ends: at the end of the stream nothing is consumed; a refused frame is
      reported, and the buffer is as the decoder left it. */
  lemma RecvOutcomes(maxFrameSize: nat, s: Incoming)
    ensures s.pieces == [] || s.pieces[0] == [] ==> RecvOne(maxFrameSize, s) == Received(Err(Eof), s)
    ensures s.pieces != [] && s.pieces[0] != [] ==>
              var d := DecodeFrame(maxFrameSize, s.buffer + s.pieces[0]);
              && (d.Failed? ==> RecvOne(maxFrameSize, s) == Received(Err(Wire(d.error)), Incoming(d.rest, s.pieces[1..])))
              && (d.Got? ==> RecvOne(maxFrameSize, s) == Received(Ok(d.frame), Incoming(d.rest, s.pieces[1..])))
  {
    hide DecodeFrame;
  }

  /** Bytes that have arrived or will arrive and are not yet part of a returned frame. */
  function Outstanding(s: Incoming): Bytes {
    s.buffer + Concat(s.pieces)
  }

  lemma OutstandingRead(s: Incoming)
    requires s.pieces != []
    ensures Outstanding(Incoming(s.buffer + s.pieces[0], s.pieces[1..])) == Outstanding(s)
  {
    assert s.buffer + (s.pieces[0] + Concat(s.pieces[1..])) == (s.buffer + s.pieces[0]) + Concat(s.pieces[1..]);
  }

  lemma PrefixSplit(a: Bytes, b: Bytes, s: Bytes)
    requires a + b <= s
    ensures a <= s
  {
    assert a == (a + b)[..|a|];
  }

  /** Each call returns the next frame that was sent, or the end of the stream; it never
      reports a wire error and never loses or invents a byte. */
  lemma {:induction false} RecvOneInOrder(frames: seq<Frame>, s: Incoming, maxFrameSize: nat)
    requires Sendables(frames, maxFrameSize) && Outstanding(s) <= Stream(frames)
    ensures var r := RecvOne(maxFrameSize, s);
            && |r.left.pieces| <= |s.pieces|
            && (r.result.Err? ==> r.result.error == Eof && Outstanding(r.left) == Outstanding(s))
            && (r.result.Ok? ==>
                  && frames != [] && r.result.value == frames[0] && |r.left.pieces| < |s.pieces|
                  && Outstanding(s) == ToBytes(frames[0]) + Outstanding(r.left)
                  && Outstanding(r.left) <= Stream(frames[1..]))
    decreases |s.pieces|
  {
    if s.pieces != [] && s.pieces[0] != [] {
      var next := Incoming(s.buffer + s.pieces[0], s.pieces[1..]);
      OutstandingRead(s);
      PrefixSplit(next.buffer, Concat(next.pieces), Stream(frames));
      DecodeFromStream(frames, next.buffer, maxFrameSize);
      var d := DecodeFrame(maxFrameSize, next.buffer);
      if d == NeedMore {
        RecvOneInOrder(frames, next, maxFrameSize);
      } else {
        TakeFrame(frames, next, d.rest);
      }
    }
  }

  lemma PrefixDrop(first: Bytes, left: Bytes, tail: Bytes)
    requires first + left <= first + tail
    ensures left <= tail
  {
    assert left == (first + left)[|first|..];
    assert tail == (first + tail)[|first|..];
  }

  lemma TakeFrame(frames: seq<Frame>, s: Incoming, rest: Bytes)
    requires frames != [] && s.buffer == ToBytes(frames[0]) + rest && Outstanding(s) <= Stream(frames)
    ensures Outstanding(s) == ToBytes(frames[0]) + Outstanding(Incoming(rest, s.pieces))
    ensures Outstanding(Incoming(rest, s.pieces)) <= Stream(frames[1..])
  {
    hide ToBytes, Concat;
    var first := ToBytes(frames[0]);
    assert (first + rest) + Concat(s.pieces) == first + (rest + Concat(s.pieces));
    PrefixDrop(first, rest + Concat(s.pieces), Stream(frames[1..]));
  }

  /** Calling until the stream ends. */
  function RecvAll(maxFrameSize: nat, s: Incoming): seq<Frame>
    decreases |s.pieces|
  {
    var r := RecvOne(maxFrameSize, s);
    if r.result.Ok? && |r.left.pieces| < |s.pieces| then [r.result.value] + RecvAll(maxFrameSize, r.left) else []
  }

  /** However the stream is cut into pieces, and wherever it breaks off, the frames
      received are the first frames sent, in order. */
  lemma {:induction false} ReceivedArePrefix(frames: seq<Frame>, s: Incoming, maxFrameSize: nat)
    requires Sendables(frames, maxFrameSize) && Outstanding(s) <= Stream(frames)
    ensures RecvAll(maxFrameSize, s) <= frames
    decreases |s.pieces|
  {
    hide Sendables, ToBytes, Outstanding, RecvOne;
    RecvOneInOrder(frames, s, maxFrameSize);
    var r := RecvOne(maxFrameSize, s);
    if r.result.Ok? {
      TailSendable(frames, maxFrameSize);
      ReceivedArePrefix(frames[1..], r.left, maxFrameSize);
      assert frames == [frames[0]] + frames[1..];
    }
  }

  // ---------------------------------------------------------------------------
  // When every frame is received

  /** The number of frames that are complete after `n` bytes. */
  function Completed(frames: seq<Frame>, n: nat): nat {
    if frames == [] || n < EncodedSize(frames[0]) then 0
    else 1 + Completed(frames[1..], n - EncodedSize(frames[0]))
  }

  /** From every piece on there are at least as many pieces as frames that were not
      complete before it; `n` bytes have arrived before the first. */
  predicate Spread(frames: seq<Frame>, n: nat, pieces: seq<Bytes>)
    decreases |pieces|
  {
    && |frames| - Completed(frames, n) <= |pieces|
    && (pieces == [] || Spread(frames, n + |pieces[0]|, pieces[1..]))
  }

  lemma {:induction false} SpreadAfterFirst(frames: seq<Frame>, n: nat, pieces: seq<Bytes>)
    requires frames != [] && n >= EncodedSize(frames[0])
    ensures Spread(frames, n, pieces) <==> Spread(frames[1..], n - EncodedSize(frames[0]), pieces)
    decreases |pieces|
  {
    if pieces != [] {
      SpreadAfterFirst(frames, n + |pieces[0]|, pieces[1..]);
    }
  }

  /** What a call decodes from a buffer that the stream begins with. */
  lemma DecodeExactly(frames: seq<Frame>, buf: Bytes, maxFrameSize: nat)
    requires Sendables(frames, maxFrameSize) && frames != [] && buf <= Stream(frames)
    ensures |buf| < EncodedSize(frames[0]) ==> DecodeFrame(maxFrameSize, buf) == NeedMore
    ensures |buf| >= EncodedSize(frames[0]) ==>
              DecodeFrame(maxFrameSize, buf) == Got(frames[0], buf[EncodedSize(frames[0])..])
  {
    hide WellFormed, Fits, DecodeFrame;
    var first := ToBytes(frames[0]);
    assert frames[0] in frames;
    if |buf| < |first| {
      assert buf == first[..|buf|];
      PrefixNeedsMore(frames[0], buf, maxFrameSize);
    } else {
      assert buf == first + buf[|first|..];
      FrameRoundTrip(frames[0], buf[|first|..], maxFrameSize);
    }
  }

  lemma ReadThenDecode(frames: seq<Frame>, s: Incoming, maxFrameSize: nat)
    requires Sendables(frames, maxFrameSize) && Outstanding(s) <= Stream(frames) && frames != []
    requires s.pieces != [] && s.pieces[0] != []
    ensures var b := s.buffer + s.pieces[0];
            var size := EncodedSize(frames[0]);
            && (|b| < size ==> RecvAll(maxFrameSize, s) == RecvAll(maxFrameSize, Incoming(b, s.pieces[1..])))
            && (|b| >= size ==>
                  var next := Incoming(b[size..], s.pieces[1..]);
                  && RecvAll(maxFrameSize, s) == [frames[0]] + RecvAll(maxFrameSize, next)
                  && Outstanding(next) <= Stream(frames[1..]) && |Outstanding(s)| == size + |Outstanding(next)|)
  {
    hide DecodeFrame, Sendables, EncodedSize, ToBytes;
    var next := Incoming(s.buffer + s.pieces[0], s.pieces[1..]);
    OutstandingRead(s);
    PrefixSplit(next.buffer, Concat(next.pieces), Stream(frames));
    DecodeExactly(frames, next.buffer, maxFrameSize);
    FirstSize(frames[0]);
    if |next.buffer| < EncodedSize(frames[0]) {
      RecvOneInOrder(frames, next, maxFrameSize);
    } else {
      var rest := next.buffer[EncodedSize(frames[0])..];
      assert next.buffer == ToBytes(frames[0]) + rest by {
        assert next.buffer[..|ToBytes(frames[0])|] == Stream(frames)[..|ToBytes(frames[0])|];
      }
      TakeFrame(frames, next, rest);
    }
  }

  lemma FirstSize(f: Frame)
    ensures |ToBytes(f)| == EncodedSize(f)
  {
  }

  ghost predicate NoneEmpty(pieces: seq<Bytes>) {
    forall i | 0 <= i < |pieces| :: pieces[i] != []
  }

  lemma NoneEmptyStep(pieces: seq<Bytes>)
    requires NoneEmpty(pieces) && pieces != []
    ensures pieces[0] != [] && NoneEmpty(pieces[1..])
  {
  }

  /** The condition below, one piece later. */
  lemma SpreadStep(frames: seq<Frame>, n: nat, pieces: seq<Bytes>)
    requires frames != [] && pieces != []
    ensures var m := n + |pieces[0]|;
            && (m < EncodedSize(frames[0]) ==>
                  (|frames| <= |pieces| && Spread(frames, n, pieces)
                   <==> |frames| <= |pieces[1..]| && Spread(frames, m, pieces[1..])))
            && (m >= EncodedSize(frames[0]) ==>
                  (|frames| <= |pieces| && Spread(frames, n, pieces)
                   <==> |frames[1..]| <= |pieces[1..]| && Spread(frames[1..], m - EncodedSize(frames[0]), pieces[1..])))
  {
    hide EncodedSize;
    if n + |pieces[0]| >= EncodedSize(frames[0]) {
      SpreadAfterFirst(frames, n + |pieces[0]|, pieces[1..]);
    }
  }

  lemma NothingComplete(s: Incoming, frames: seq<Frame>, maxFrameSize: nat)
    requires Sendables(frames, maxFrameSize) && Outstanding(s) <= Stream(frames)
    requires Completed(frames, |Outstanding(s)|) == 0
    ensures RecvAll(maxFrameSize, s) == []
  {
    hide Sendables, EncodedSize, ToBytes;
    if frames != [] {
      FirstSize(frames[0]);
    }
    RecvOneInOrder(frames, s, maxFrameSize);
  }

  /** The frames that arrived whole, before the connection ended or broke off. */
  function Arrived(frames: seq<Frame>, s: Incoming): nat {
    Completed(frames, |Outstanding(s)|)
  }

  lemma {:induction false} CompletedWithin(frames: seq<Frame>, n: nat)
    ensures Completed(frames, n) <= |frames|
    decreases |frames|
  {
    if frames != [] && n >= EncodedSize(frames[0]) {
      CompletedWithin(frames[1..], n - EncodedSize(frames[0]));
    }
  }

  /** One call, seen from the condition below. */
  lemma ArrivedStep(frames: seq<Frame>, s: Incoming, maxFrameSize: nat)
    requires Sendables(frames, maxFrameSize) && Outstanding(s) <= Stream(frames) && Arrived(frames, s) > 0
    requires s.pieces != [] && s.pieces[0] != []
    ensures var b, size := s.buffer + s.pieces[0], EncodedSize(frames[0]);
            && (|b| < size ==> Arrived(frames, Incoming(b, s.pieces[1..])) == Arrived(frames, s))
            && (|b| >= size ==> Arrived(frames, s) == 1 + Arrived(frames[1..], Incoming(b[size..], s.pieces[1..])))
  {
    hide Sendables, EncodedSize, Outstanding, RecvAll;
    var b := s.buffer + s.pieces[0];
    OutstandingRead(s);
    ReadThenDecode(frames, s, maxFrameSize);
  }

  lemma TakeTail(frames: seq<Frame>, k: nat)
    requires 0 < k < |frames| + 1
    ensures frames[..k] != [] && frames[..k][0] == frames[0] && frames[..k][1..] == frames[1..][..k - 1]
    ensures frames[..k] == [frames[0]] + frames[1..][..k - 1]
  {
  }

  /** All frames that arrived whole are received exactly if the pieces arrive slowly enough: a
      call reads before it looks at what is buffered, so each frame uses up a piece. */
  lemma {:induction false} ArrivedReceivedIff(frames: seq<Frame>, s: Incoming, maxFrameSize: nat)
    requires Sendables(frames, maxFrameSize) && Outstanding(s) <= Stream(frames) && NoneEmpty(s.pieces)
    ensures Arrived(frames, s) <= |frames|
    ensures var k := Arrived(frames, s);
            RecvAll(maxFrameSize, s) == frames[..k] <==> k <= |s.pieces| && Spread(frames[..k], |s.buffer|, s.pieces)
    decreases |s.pieces|
  {
    hide Sendables, EncodedSize, RecvAll, Outstanding, NoneEmpty, Spread, Completed;
    var k := Arrived(frames, s);
    CompletedWithin(frames, |Outstanding(s)|);
    if k == 0 {
      NothingComplete(s, frames, maxFrameSize);
      NoFramesSpread(|s.buffer|, s.pieces);
      assert frames[..0] == [];
    } else if s.pieces == [] {
      NothingReceived(s, maxFrameSize);
    } else {
      NoneEmptyStep(s.pieces);
      ReadThenDecode(frames, s, maxFrameSize);
      ArrivedStep(frames, s, maxFrameSize);
      TakeTail(frames, k);
      SpreadStep(frames[..k], |s.buffer|, s.pieces);
      var b, size := s.buffer + s.pieces[0], EncodedSize(frames[0]);
      if |b| < size {
        OutstandingRead(s);
        ArrivedReceivedIff(frames, Incoming(b, s.pieces[1..]), maxFrameSize);
      } else {
        TailSendable(frames, maxFrameSize);
        ArrivedReceivedIff(frames[1..], Incoming(b[size..], s.pieces[1..]), maxFrameSize);
      }
    }
  }

  lemma {:induction false} NoFramesSpread(n: nat, pieces: seq<Bytes>)
    ensures Spread([], n, pieces)
    decreases |pieces|
  {
    if pieces != [] {
      NoFramesSpread(n + |pieces[0]|, pieces[1..]);
    }
  }

  lemma {:induction false} StreamCompletes(frames: seq<Frame>)
    ensures Completed(frames, |Stream(frames)|) == |frames|
    decreases |frames|
  {
    hide ToBytes;
    if frames != [] {
      FirstSize(frames[0]);
      StreamCompletes(frames[1..]);
    }
  }

  /** In particular all frames of a stream that arrives to its end. */
  lemma AllReceivedIff(frames: seq<Frame>, s: Incoming, maxFrameSize: nat)
    requires Sendables(frames, maxFrameSize) && Outstanding(s) == Stream(frames) && NoneEmpty(s.pieces)
    ensures RecvAll(maxFrameSize, s) == frames <==> |frames| <= |s.pieces| && Spread(frames, |s.buffer|, s.pieces)
  {
    hide Sendables, RecvAll, NoneEmpty, Spread, Completed;
    StreamCompletes(frames);
    ArrivedReceivedIff(frames, s, maxFrameSize);
    assert frames[..|frames|] == frames;
  }

  lemma NothingReceived(s: Incoming, maxFrameSize: nat)
    requires s.pieces == []
    ensures RecvAll(maxFrameSize, s) == []
  {
  }

  lemma TailSendable(frames: seq<Frame>, maxFrameSize: nat)
    requires Sendables(frames, maxFrameSize) && frames != []
    ensures Sendables(frames[1..], maxFrameSize)
  {
  }

  /** Two frames that arrive in one piece, and nothing after: only the first is received. */
  lemma SecondIsHeldBack(f: Frame, g: Frame, maxFrameSize: nat)
    requires Sendables([f, g], maxFrameSize)
    ensures RecvAll(maxFrameSize, Incoming([], [Stream([f, g])])) == [f]
  {
    hide Sendables, DecodeFrame;
    var s := Incoming([], [Stream([f, g])]);
    assert [] + Stream([f, g]) == Stream([f, g]) && Stream([f, g]) + [] == Stream([f, g]);
    assert Concat(s.pieces) == Stream([f, g]) by {
      assert s.pieces[1..] == [];
    }
    ReadThenDecode([f, g], s, maxFrameSize);
    NothingReceived(Incoming((s.buffer + s.pieces[0])[EncodedSize(f)..], s.pieces[1..]), maxFrameSize);
  }

  // ---------------------------------------------------------------------------
  // In place

  class FrameReader {
    const maxFrameSize: nat
    var buffer: Bytes
    /** The connection: what later reads will return. */
    var pieces: seq<Bytes>

    constructor (pieces: seq<Bytes>)
      ensures maxFrameSize == DEFAULT_MAX_FRAME_SIZE && buffer == [] && this.pieces == pieces
    {
      maxFrameSize := DEFAULT_MAX_FRAME_SIZE;
      buffer, this.pieces := [], pieces;
    }

    /** Takes one frame off the buffer, if it is complete. */
    method Decode() returns (r: Result<Option<Frame>, WireError>)
      modifies this`buffer
      ensures match DecodeFrame(maxFrameSize, old(buffer)) {
                case NeedMore => r == Ok(None) && buffer == old(buffer)
                case Got(f, rest) => r == Ok(Some(f)) && buffer == rest
                case Failed(e, rest) => r == Err(e) && buffer == rest
              }
    {
      if |buffer| < 4 {
        return Ok(None);
      }
      var frameLen := FromBE(buffer[..4]);
      if frameLen > maxFrameSize {
        return Err(Size(frameLen));
      }
      if |buffer| < 4 + frameLen {
        return Ok(None);
      }
      var frameBuf := buffer[4..4 + frameLen];
      buffer := buffer[4 + frameLen..];
      var fast: FastHeader;
      match Header.Decode(frameBuf) {
        case Err(e) => return Err(e);
        case Ok(h) => fast := h;
      }
      frameBuf := frameBuf[FAST_HEADER_SIZE..];
      var hint := None;
      if fast.hdrHintLen > 0 {
        if |frameBuf| < fast.hdrHintLen {
          return Err(Malformed);
        }
        hint := Some(frameBuf[..fast.hdrHintLen]);
        frameBuf := frameBuf[fast.hdrHintLen..];
      }
      if |frameBuf| < 4 {
        return Err(Malformed);
      }
      var metaLen := FromBE(frameBuf[..4]);
      frameBuf := frameBuf[4..];
      if metaLen > MAX_META_SIZE || |frameBuf| < metaLen {
        return Err(Meta);
      }
      r := Ok(Some(Frame(fast, hint, frameBuf[..metaLen], frameBuf[metaLen..])));
    }

    method RecvAnyFrame() returns (r: Result<Frame, RecvError>)
      modifies this
      ensures Received(r, Incoming(buffer, pieces)) == RecvOne(maxFrameSize, old(Incoming(buffer, pieces)))
    {
      while true
        invariant RecvOne(maxFrameSize, Incoming(buffer, pieces)) == RecvOne(maxFrameSize, old(Incoming(buffer, pieces)))
        decreases |pieces|
      {
        if pieces == [] || pieces[0] == [] {
          return Err(Eof);
        }
        buffer := buffer + pieces[0];
        pieces := pieces[1..];
        var d := Decode();
        match d {
          case Err(e) => return Err(Wire(e));
          case Ok(Some(f)) => return Ok(f);
          case Ok(None) =>
        }
      }
    }
  }
}
