/** The 48-byte fast header: big-endian fields, with the values a reader rejects. Frame
    types, status codes and flag sets are the byte values the program's enumerations
    admit. */
module Header {
  import opened Base
  import opened ByteCodec

  const WIRE_VERSION: u8 := 1
  const FAST_HEADER_SIZE: nat := 48

  /** 0x00..0x0B are session and topology frames, 0x20..0x3F gossip and consensus. */
  type FrameType = b: u8 | b <= 0x0B || 0x20 <= b <= 0x3F
  type StatusCode = b: u8 | b <= 4
  /** Six flag bits are defined; others are rejected. */
  type Flags = f: u16 | f < 0x40

  datatype WireError = Incomplete | Version(v: u8) | Ttl | Size(n: nat) | Meta | Reserved | Type(b: u8) | Code(b: u8)
                     | Malformed

  datatype FastHeader = FastHeader(
    ver: u8, typ: FrameType, flags: Flags, code: StatusCode, ttl: u8, reserved0: u16,
    msgId: u64, corrId: u64, srcNode: u64, dstNode: u64, route: u32, hdrHintLen: u32)

  function Encode(h: FastHeader): (b: Bytes)
    ensures |b| == FAST_HEADER_SIZE
  {
    [h.ver, h.typ] + ToBE(h.flags, 2) + [h.code, h.ttl] + ToBE(h.reserved0, 2)
    + ToBE(h.msgId, 8) + ToBE(h.corrId, 8) + ToBE(h.srcNode, 8) + ToBE(h.dstNode, 8)
    + ToBE(h.route, 4) + ToBE(h.hdrHintLen, 4)
  }

  /** Fields are checked in the order in which they are read. */
  function Decode(b: Bytes): Result<FastHeader, WireError> {
    if |b| < FAST_HEADER_SIZE then Err(Incomplete)
    else if b[0] != WIRE_VERSION then Err(Version(b[0]))
    else if !(b[1] <= 0x0B || 0x20 <= b[1] <= 0x3F) then Err(Type(b[1]))
    else if FromBE(b[2..4]) >= 0x40 then Err(Reserved)
    else if b[4] > 4 then Err(Code(b[4]))
    else if FromBE(b[6..8]) != 0 then Err(Reserved)
    else if b[5] == 0 then Err(Ttl)
    else
      FieldBounds(b);
      Ok(FastHeader(b[0], b[1], FromBE(b[2..4]), b[4], b[5], 0,
                    FromBE(b[8..16]), FromBE(b[16..24]), FromBE(b[24..32]), FromBE(b[32..40]),
                    FromBE(b[40..44]), FromBE(b[44..48])))
  }

  /** What a reader refuses, and as what, by the bytes. */
  lemma Refusals(b: Bytes)
    ensures Decode(b).Ok? <==>
              && |b| >= 48 && b[0] == 1 && (b[1] <= 0x0B || 0x20 <= b[1] <= 0x3F)
              && FromBE(b[2..4]) <= 0x3F && b[4] <= 4 && b[5] != 0 && FromBE(b[6..8]) == 0
    ensures |b| < 48 ==> Decode(b) == Err(Incomplete)
    ensures |b| >= 48 && b[0] != 1 ==> Decode(b) == Err(Version(b[0]))
    ensures |b| >= 48 && b[0] == 1 && !(b[1] <= 0x0B || 0x20 <= b[1] <= 0x3F) ==> Decode(b) == Err(Type(b[1]))
  {
  }

  lemma FieldBounds(b: Bytes)
    requires |b| >= FAST_HEADER_SIZE
    ensures FromBE(b[8..16]) < U64_MODULUS && FromBE(b[16..24]) < U64_MODULUS
    ensures FromBE(b[24..32]) < U64_MODULUS && FromBE(b[32..40]) < U64_MODULUS
    ensures FromBE(b[40..44]) <= U32_MAX && FromBE(b[44..48]) <= U32_MAX
  {
    Pow256Values();
    ToFromBE(b[8..16]);
    ToFromBE(b[16..24]);
    ToFromBE(b[24..32]);
    ToFromBE(b[32..40]);
    ToFromBE(b[40..44]);
    ToFromBE(b[44..48]);
  }

  /** What a reader accepts of a header that a writer can hold. */
  predicate Sendable(h: FastHeader) {
    h.ver == WIRE_VERSION && h.ttl > 0 && h.reserved0 == 0
  }

  /** The fields of an encoded header, at their offsets. */
  lemma Fields(h: FastHeader, rest: Bytes)
    ensures var b := Encode(h) + rest;
            && b[0] == h.ver && b[1] == h.typ && b[2..4] == ToBE(h.flags, 2)
            && b[4] == h.code && b[5] == h.ttl && b[6..8] == ToBE(h.reserved0, 2)
            && b[8..16] == ToBE(h.msgId, 8) && b[16..24] == ToBE(h.corrId, 8)
            && b[24..32] == ToBE(h.srcNode, 8) && b[32..40] == ToBE(h.dstNode, 8)
            && b[40..44] == ToBE(h.route, 4) && b[44..48] == ToBE(h.hdrHintLen, 4)
  {
  }

  lemma DecodeEncode(h: FastHeader, rest: Bytes)
    ensures Sendable(h) ==> Decode(Encode(h) + rest) == Ok(h)
    ensures !Sendable(h) ==> Decode(Encode(h) + rest).Err?
  {
    Fields(h, rest);
    Pow256Values();
    FromToBE(h.flags, 2);
    FromToBE(h.reserved0, 2);
    FromToBE(h.msgId, 8);
    FromToBE(h.corrId, 8);
    FromToBE(h.srcNode, 8);
    FromToBE(h.dstNode, 8);
    FromToBE(h.route, 4);
    FromToBE(h.hdrHintLen, 4);
  }

  /** Accepted bytes are the encoding of the header read from them. */
  lemma EncodeDecode(b: Bytes)
    requires Decode(b).Ok?
    ensures Sendable(Decode(b).value) && Encode(Decode(b).value) == b[..FAST_HEADER_SIZE]
  {
    hide ToBE, FromBE;
    ToFromBE(b[2..4]);
    ToFromBE(b[6..8]);
    ToFromBE(b[8..16]);
    ToFromBE(b[16..24]);
    ToFromBE(b[24..32]);
    ToFromBE(b[32..40]);
    ToFromBE(b[40..44]);
    ToFromBE(b[44..48]);
  }
}
