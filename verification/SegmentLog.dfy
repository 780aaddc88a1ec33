/** The file-based log: records appended to numbered segment files as bytes, read back by
    scanning. The checksum is a parameter; nothing here depends on what it computes. */
module SegmentLog {
  import opened Base
  import opened ByteCodec
  import opened Wal

  const HEADER_SIZE: nat := 16

  type Checksum = (nat, Bytes) -> u32

  ghost predicate Storable(e: Entry) {
    e.msgId < U64_MODULUS && |e.bytes| <= U32_MAX
  }

  /** Header (length, id, checksum, little-endian) and frame. The length is cast to 32 bits. */
  function EncodeRecord(crc: Checksum, e: Entry): (b: Bytes)
    ensures |b| == HEADER_SIZE + |e.bytes|
  {
    ToLE(|e.bytes|, 4) + ToLE(e.msgId, 8) + ToLE(crc(e.msgId, e.bytes), 4) + e.bytes
  }

  function EncodeAll(crc: Checksum, records: seq<Entry>): Bytes {
    if records == [] then [] else EncodeRecord(crc, records[0]) + EncodeAll(crc, records[1..])
  }

  // ---------------------------------------------------------------------------
  // Scanning

  datatype Scan = Going(found: seq<Entry>) | Stopped(found: seq<Entry>) | Corrupt(msgId: nat)

  function ScanSegment(crc: Checksum, data: Bytes, from: nat, limit: Option<nat>, found: seq<Entry>): Scan
    decreases |data|
  {
    if |data| < HEADER_SIZE then Going(found)
    else
      var len, msgId, sum := FromLE(data[..4]), FromLE(data[4..12]), FromLE(data[12..16]);
      if |data| - HEADER_SIZE < len then Going(found)
      else
        var frame := data[HEADER_SIZE..HEADER_SIZE + len];
        if sum != crc(msgId, frame) then Corrupt(msgId)
        else
          match GatherOne(Entry(msgId, frame), from, limit, found)
          case Full(f) => Stopped(f)
          case More(f) => ScanSegment(crc, data[HEADER_SIZE + len..], from, limit, f)
  }

  function ScanAll(crc: Checksum, segments: seq<Bytes>, from: nat, limit: Option<nat>, found: seq<Entry>): Scan
    decreases |segments|
  {
    if segments == [] then Going(found)
    else
      match ScanSegment(crc, segments[0], from, limit, found)
      case Going(f) => ScanAll(crc, segments[1..], from, limit, f)
      case Stopped(f) => Stopped(f)
      case Corrupt(id) => Corrupt(id)
  }

  function AsScan(g: Gathered): Scan {
    match g
    case More(f) => Going(f)
    case Full(f) => Stopped(f)
  }

  /** Whatever the bytes are, the entries read from them have 64-bit ids and 32-bit lengths. */
  lemma {:induction false} ScannedAreStorable(crc: Checksum, data: Bytes, from: nat, limit: Option<nat>, found: seq<Entry>)
    requires forall e | e in found :: Storable(e)
    ensures var scan := ScanSegment(crc, data, from, limit, found);
            !scan.Corrupt? ==> forall e | e in scan.found :: Storable(e)
    decreases |data|
  {
    if |data| >= HEADER_SIZE {
      Pow256Values();
      FromLEBound(data[..4]);
      FromLEBound(data[4..12]);
      var len, msgId := FromLE(data[..4]), FromLE(data[4..12]);
      if |data| - HEADER_SIZE >= len {
        var e := Entry(msgId, data[HEADER_SIZE..HEADER_SIZE + len]);
        assert Storable(e);
        var g := GatherOne(e, from, limit, found);
        ScannedAreStorable(crc, data[HEADER_SIZE + len..], from, limit, g.found);
      }
    }
  }

  // ---------------------------------------------------------------------------
  // Torn tails

  /** How many of the records lie wholly within the first `cut` bytes of their encoding. */
  function WholeWithin(records: seq<Entry>, cut: nat): (k: nat)
    ensures k <= |records|
    decreases |records|
  {
    if records == [] || cut < HEADER_SIZE + |records[0].bytes| then 0
    else 1 + WholeWithin(records[1..], cut - HEADER_SIZE - |records[0].bytes|)
  }

  lemma {:induction false} EncodeAllConcat(crc: Checksum, a: seq<Entry>, b: seq<Entry>)
    ensures EncodeAll(crc, a + b) == EncodeAll(crc, a) + EncodeAll(crc, b)
    decreases |a|
  {
    if a == [] {
      assert a + b == b;
    } else {
      assert (a + b)[1..] == a[1..] + b;
      EncodeAllConcat(crc, a[1..], b);
    }
  }

  /** `WholeWithin` is the largest k whose first k encodings fit before the cut. */
  lemma {:induction false} WholeWithinMaximal(crc: Checksum, records: seq<Entry>, cut: nat)
    ensures var k := WholeWithin(records, cut);
            && |EncodeAll(crc, records[..k])| <= cut
            && (k < |records| ==> |EncodeAll(crc, records[..k + 1])| > cut)
    decreases |records|
  {
    hide EncodeRecord;
    var k := WholeWithin(records, cut);
    if records != [] {
      if k > 0 {
        WholeWithinMaximal(crc, records[1..], cut - HEADER_SIZE - |records[0].bytes|);
        EncodeFirst(crc, records, k);
      }
      if k < |records| {
        EncodeFirst(crc, records, k + 1);
      }
    }
  }

  lemma EncodeFirst(crc: Checksum, records: seq<Entry>, k: nat)
    requires 0 < k <= |records|
    ensures |EncodeAll(crc, records[..k])| == HEADER_SIZE + |records[0].bytes| + |EncodeAll(crc, records[1..][..k - 1])|
  {
    assert records[..k][0] == records[0] && records[..k][1..] == records[1..][..k - 1];
  }

  /** The header of a record, however much of the record follows it. */
  lemma HeaderOf(crc: Checksum, e: Entry, data: Bytes)
    requires Storable(e) && |data| >= HEADER_SIZE
    requires data[..HEADER_SIZE] == EncodeRecord(crc, e)[..HEADER_SIZE]
    ensures FromLE(data[..4]) == |e.bytes| && FromLE(data[4..12]) == e.msgId
    ensures FromLE(data[12..16]) == crc(e.msgId, e.bytes)
  {
    var b := EncodeRecord(crc, e);
    assert data[..4] == data[..HEADER_SIZE][..4] == b[..4] == ToLE(|e.bytes|, 4);
    assert data[4..12] == data[..HEADER_SIZE][4..12] == b[4..12] == ToLE(e.msgId, 8);
    assert data[12..16] == data[..HEADER_SIZE][12..16] == b[12..16] == ToLE(crc(e.msgId, e.bytes), 4);
    Pow256Values();
    FromToLE(|e.bytes|, 4);
    FromToLE(e.msgId, 8);
    FromToLE(crc(e.msgId, e.bytes), 4);
  }

  /** A record cut short ends the scan of its segment without an error. */
  lemma TornRecord(crc: Checksum, e: Entry, data: Bytes, from: nat, limit: Option<nat>, found: seq<Entry>)
    requires Storable(e) && |data| < HEADER_SIZE + |e.bytes| && data <= EncodeRecord(crc, e)
    ensures ScanSegment(crc, data, from, limit, found) == Going(found)
  {
    if |data| >= HEADER_SIZE {
      HeaderOf(crc, e, data);
    }
  }

  /** Nothing may be appended behind a torn record whose header is complete: as long as the
      new bytes do not fill the gap, the new record cannot be seen either. */
  lemma TornRecordHides(crc: Checksum, e: Entry, cut: nat, later: Bytes, from: nat, limit: Option<nat>, found: seq<Entry>)
    requires Storable(e) && HEADER_SIZE <= cut && cut + |later| < HEADER_SIZE + |e.bytes|
    ensures ScanSegment(crc, EncodeRecord(crc, e)[..cut] + later, from, limit, found) == Going(found)
  {
    var data := EncodeRecord(crc, e)[..cut] + later;
    assert data[..HEADER_SIZE] == EncodeRecord(crc, e)[..HEADER_SIZE];
    HeaderOf(crc, e, data);
  }

  /** A complete record whose checksum is not that of its id and frame ends the scan with its
      id, whatever follows and whatever is asked for. */
  lemma DamagedRecord(crc: Checksum, msgId: u64, sum: u32, frame: Bytes, rest: Bytes, from: nat,
                      limit: Option<nat>, found: seq<Entry>)
    requires |frame| <= U32_MAX && sum != crc(msgId, frame)
    ensures ScanSegment(crc, ToLE(|frame|, 4) + ToLE(msgId, 8) + ToLE(sum, 4) + frame + rest, from, limit, found)
         == Corrupt(msgId)
  {
    var data := ToLE(|frame|, 4) + ToLE(msgId, 8) + ToLE(sum, 4) + frame + rest;
    assert data[..4] == ToLE(|frame|, 4) && data[4..12] == ToLE(msgId, 8) && data[12..16] == ToLE(sum, 4);
    Pow256Values();
    FromToLE(|frame|, 4);
    FromToLE(msgId, 8);
    FromToLE(sum, 4);
    assert data[16..16 + |frame|] == frame;
  }

  /** Damage anywhere in a segment is reported unless the limit was met before it. */
  lemma {:induction false} DamageIsReported(crc: Checksum, records: seq<Entry>, damaged: Bytes, msgId: nat, from: nat,
                                            limit: Option<nat>, found: seq<Entry>)
    requires forall e | e in records :: Storable(e)
    requires forall f: seq<Entry> :: ScanSegment(crc, damaged, from, limit, f) == Corrupt(msgId)
    ensures ScanSegment(crc, EncodeAll(crc, records) + damaged, from, limit, found) ==
            var g := Gather(records, from, limit, found);
            if g.Full? then Stopped(g.found) else Corrupt(msgId)
    decreases |records|
  {
    hide EncodeRecord, GatherOne, ScanSegment;
    if records == [] {
      assert EncodeAll(crc, records) + damaged == damaged;
    } else {
      var rest := EncodeAll(crc, records[1..]) + damaged;
      assert EncodeAll(crc, records) + damaged == EncodeRecord(crc, records[0]) + rest;
      assert records[0] in records;
      WholeRecord(crc, records[0], rest, from, limit, found);
      var g := GatherOne(records[0], from, limit, found);
      if g.More? {
        DamageIsReported(crc, records[1..], damaged, msgId, from, limit, g.found);
      }
    }
  }

  lemma EmptyScan(crc: Checksum, from: nat, limit: Option<nat>, found: seq<Entry>)
    ensures ScanSegment(crc, [], from, limit, found) == Going(found)
  {
  }

  lemma WholeRecord(crc: Checksum, e: Entry, rest: Bytes, from: nat, limit: Option<nat>, found: seq<Entry>)
    requires Storable(e)
    ensures ScanSegment(crc, EncodeRecord(crc, e) + rest, from, limit, found) ==
            var g := GatherOne(e, from, limit, found);
            if g.Full? then Stopped(g.found) else ScanSegment(crc, rest, from, limit, g.found)
  {
    var data := EncodeRecord(crc, e) + rest;
    assert data[..HEADER_SIZE] == EncodeRecord(crc, e)[..HEADER_SIZE];
    HeaderOf(crc, e, data);
    assert data[HEADER_SIZE..HEADER_SIZE + |e.bytes|] == e.bytes;
    assert data[HEADER_SIZE + |e.bytes|..] == rest;
  }

  /** A segment of records cut at any byte yields exactly the records wholly before the
      cut, and never a corruption error. */
  lemma {:induction false} TornSegment(crc: Checksum, records: seq<Entry>, cut: nat, from: nat, limit: Option<nat>,
                                       found: seq<Entry>)
    requires forall e | e in records :: Storable(e)
    requires cut <= |EncodeAll(crc, records)|
    ensures ScanSegment(crc, EncodeAll(crc, records)[..cut], from, limit, found) ==
            AsScan(Gather(records[..WholeWithin(records, cut)], from, limit, found))
    decreases |records|
  {
    hide GatherOne, ScanSegment, EncodeRecord;
    var k := WholeWithin(records, cut);
    if records == [] {
      EmptyScan(crc, from, limit, found);
    } else {
      var e, rest := records[0], EncodeAll(crc, records[1..]);
      var size := HEADER_SIZE + |e.bytes|;
      var data := EncodeAll(crc, records)[..cut];
      if cut < size {
        assert data == EncodeRecord(crc, e)[..cut];
        TornRecord(crc, e, data, from, limit, found);
      } else {
        assert data == EncodeRecord(crc, e) + rest[..cut - size];
        WholeRecord(crc, e, rest[..cut - size], from, limit, found);
        var g := GatherOne(e, from, limit, found);
        assert records[..k][0] == e && records[..k][1..] == records[1..][..k - 1];
        if g.More? {
          TornSegment(crc, records[1..], cut - size, from, limit, g.found);
        }
      }
    }
  }

  lemma {:induction false} WholeOfAll(crc: Checksum, records: seq<Entry>)
    ensures WholeWithin(records, |EncodeAll(crc, records)|) == |records|
    decreases |records|
  {
    if records != [] {
      WholeOfAll(crc, records[1..]);
    }
  }

  // ---------------------------------------------------------------------------
  // A whole log

  function Flatten(parts: seq<seq<Entry>>): seq<Entry>
  {
    if parts == [] then [] else parts[0] + Flatten(parts[1..])
  }

  /** `segments` are the encodings of `parts`. */
  ghost predicate Encodes(crc: Checksum, segments: seq<Bytes>, parts: seq<seq<Entry>>) {
    && |segments| == |parts|
    && (parts != [] ==>
          var last := |parts| - 1;
          EncodesOne(crc, segments[last], parts[last]) && Encodes(crc, segments[..last], parts[..last]))
  }

  ghost predicate EncodesOne(crc: Checksum, segment: Bytes, part: seq<Entry>) {
    segment == EncodeAll(crc, part) && forall e | e in part :: Storable(e)
  }

  lemma {:induction false} EncodesFirst(crc: Checksum, segments: seq<Bytes>, parts: seq<seq<Entry>>)
    requires Encodes(crc, segments, parts) && parts != []
    ensures EncodesOne(crc, segments[0], parts[0]) && Encodes(crc, segments[1..], parts[1..])
    decreases |parts|
  {
    var last := |parts| - 1;
    if last > 0 {
      EncodesFirst(crc, segments[..last], parts[..last]);
      assert segments[1..][..last - 1] == segments[..last][1..];
      assert parts[1..][..last - 1] == parts[..last][1..];
    }
  }

  lemma {:induction false} GatherConcat(a: seq<Entry>, b: seq<Entry>, from: nat, limit: Option<nat>, found: seq<Entry>)
    ensures Gather(a + b, from, limit, found) ==
            var g := Gather(a, from, limit, found);
            if g.Full? then g else Gather(b, from, limit, g.found)
    decreases |a|
  {
    if a == [] {
      assert a + b == b;
    } else {
      assert (a + b)[1..] == a[1..] + b;
      var g := GatherOne(a[0], from, limit, found);
      if g.More? {
        GatherConcat(a[1..], b, from, limit, g.found);
      }
    }
  }

  /** Scanning the files gathers from the log they encode. */
  lemma {:induction false} ScanIsGather(crc: Checksum, segments: seq<Bytes>, parts: seq<seq<Entry>>, from: nat,
                                        limit: Option<nat>, found: seq<Entry>)
    requires Encodes(crc, segments, parts)
    ensures ScanAll(crc, segments, from, limit, found) == AsScan(Gather(Flatten(parts), from, limit, found))
    decreases |parts|
  {
    if parts != [] {
      var records := parts[0];
      EncodesFirst(crc, segments, parts);
      TornSegment(crc, records, |segments[0]|, from, limit, found);
      WholeOfAll(crc, records);
      assert segments[0][..|segments[0]|] == EncodeAll(crc, records);
      assert records[..|records|] == records;
      GatherConcat(records, Flatten(parts[1..]), from, limit, found);
      var g := Gather(records, from, limit, found);
      if g.More? {
        ScanIsGather(crc, segments[1..], parts[1..], from, limit, g.found);
      }
    }
  }

  lemma {:induction false} FlattenAppend(parts: seq<seq<Entry>>, e: Entry)
    requires parts != []
    ensures Flatten(parts[|parts| - 1 := parts[|parts| - 1] + [e]]) == Flatten(parts) + [e]
    decreases |parts|
  {
    var next := parts[|parts| - 1 := parts[|parts| - 1] + [e]];
    if |parts| == 1 {
      assert next[1..] == [] && parts[1..] == [];
    } else {
      FlattenAppend(parts[1..], e);
      assert next[1..] == parts[1..][|parts| - 2 := parts[|parts| - 1] + [e]];
    }
  }

  lemma {:induction false} FlattenNewSegment(parts: seq<seq<Entry>>)
    ensures Flatten(parts + [[]]) == Flatten(parts)
    decreases |parts|
  {
    if parts != [] {
      FlattenNewSegment(parts[1..]);
      assert (parts + [[]])[1..] == parts[1..] + [[]];
    }
  }

  lemma EncodesAppend(crc: Checksum, segments: seq<Bytes>, parts: seq<seq<Entry>>, e: Entry)
    requires Encodes(crc, segments, parts) && parts != [] && Storable(e)
    ensures var last := |parts| - 1;
            Encodes(crc, segments[last := segments[last] + EncodeRecord(crc, e)], parts[last := parts[last] + [e]])
  {
    var last := |parts| - 1;
    EncodeAllConcat(crc, parts[last], [e]);
    assert EncodeAll(crc, [e]) == EncodeRecord(crc, e);
    assert segments[last := segments[last] + EncodeRecord(crc, e)][..last] == segments[..last];
    assert parts[last := parts[last] + [e]][..last] == parts[..last];
  }

  lemma EncodesNewSegment(crc: Checksum, segments: seq<Bytes>, parts: seq<seq<Entry>>)
    requires Encodes(crc, segments, parts)
    ensures Encodes(crc, segments + [[]], parts + [[]])
  {
    assert (segments + [[]])[..|segments|] == segments && (parts + [[]])[..|parts|] == parts;
  }

  lemma NewSegment(crc: Checksum, segments: seq<Bytes>, parts: seq<seq<Entry>>)
    requires parts == [] ==> segments == []
    requires parts != [] ==> Encodes(crc, segments, parts)
    ensures Encodes(crc, segments + [[]], parts + [[]]) && Flatten(parts + [[]]) == Flatten(parts)
    ensures parts == [] ==> Flatten(parts + [[]]) == []
  {
    FlattenNewSegment(parts);
    EncodesNewSegment(crc, segments, parts);
  }

  /** What a read answers: what was found, or the id of the damaged record. */
  function AsResult(scan: Scan): Result<seq<Entry>, nat> {
    match scan
    case Going(found) => Ok(found)
    case Stopped(found) => Ok(found)
    case Corrupt(id) => Err(id)
  }

  /** A damaged segment makes the whole read fail with the id of its record, and what was found
      before it is not returned. */
  lemma DamageFailsRead(crc: Checksum, segments: seq<Bytes>, from: nat, limit: Option<nat>, found: seq<Entry>, id: nat)
    requires segments != [] && ScanSegment(crc, segments[0], from, limit, found) == Corrupt(id)
    ensures AsResult(ScanAll(crc, segments, from, limit, found)) == Err(id)
  {
    hide ScanSegment;
  }

  /** A segment that is read to its end hands on to the next. */
  lemma NextSegment(crc: Checksum, segments: seq<Bytes>, from: nat, limit: Option<nat>, found: seq<Entry>, more: seq<Entry>)
    requires segments != [] && ScanSegment(crc, segments[0], from, limit, found) == Going(more)
    ensures ScanAll(crc, segments, from, limit, found) == ScanAll(crc, segments[1..], from, limit, more)
  {
    hide ScanSegment;
  }

  // ---------------------------------------------------------------------------
  // The file store

  class FileWal {
    const crc: Checksum
    const segmentBytes: nat
    /** The segment files of each peer in the order of their numbers. */
    var segments: map<Peer, seq<Bytes>>
    /** Peers whose latest segment is open for appending. */
    var active: set<Peer>
    var cumAcked: map<Peer, nat>
    var lastAppended: map<Peer, nat>
    /** The records in each segment. */
    ghost var parts: map<Peer, seq<seq<Entry>>>

    ghost predicate Valid()
      reads this`segments, this`active, this`parts
    {
      && segments.Keys == parts.Keys && active <= segments.Keys
      && (forall p | p in parts :: parts[p] != [] && Encodes(crc, segments[p], parts[p]))
    }

    ghost function Log(peer: Peer): seq<Entry>
      reads this`parts
    {
      if peer in parts then Flatten(parts[peer]) else []
    }

    function AckedBy(peer: Peer): nat
      reads this`cumAcked
    {
      if peer in cumAcked then cumAcked[peer] else 0
    }

    constructor (crc: Checksum, segmentBytes: nat)
      ensures Valid() && this.crc == crc && this.segmentBytes == segmentBytes
      ensures forall p :: Log(p) == []
    {
      this.crc, this.segmentBytes := crc, segmentBytes;
      segments, active, cumAcked, lastAppended := map[], {}, map[], map[];
      parts := map[];
    }

    /** Starts another segment file. */
    method StartSegment(peer: Peer)
      requires Valid()
      modifies this`segments, this`parts
      ensures Valid() && peer in segments
      ensures segments == old(segments)[peer := old(if peer in segments then segments[peer] else []) + [[]]]
      ensures forall p :: Log(p) == old(Log(p))
    {
      hide Encodes, Flatten;
      var files := if peer in segments then segments[peer] else [];
      ghost var pieces := if peer in parts then parts[peer] else [];
      NewSegment(crc, files, pieces);
      segments := segments[peer := files + [[]]];
      parts := parts[peer := pieces + [[]]];
    }

    /** Picks the latest segment, or a new one if there is none or the latest is full.
        An open segment is used however long it grows. */
    method OpenSegment(peer: Peer)
      requires Valid()
      modifies this`segments, this`active, this`parts
      ensures Valid() && peer in active
      ensures forall p :: Log(p) == old(Log(p))
      ensures old(peer in segments) ==>
                && old(segments[peer]) != []
                && var latest := old(segments[peer])[|old(segments[peer])| - 1];
                   |segments[peer]| == |old(segments[peer])|
                                       + (if old(peer !in active) && |latest| >= segmentBytes then 1 else 0)
    {
      hide Flatten;
      if peer in active {
        return;
      }
      if peer !in segments || |segments[peer][|segments[peer]| - 1]| >= segmentBytes {
        StartSegment(peer);
      }
      active := active + {peer};
    }

    /** Opening the store again: no segment is open, so the next append looks at the latest
        one and starts another if it is full. */
    method Reopen()
      requires Valid()
      modifies this`active
      ensures Valid() && active == {} && forall p :: Log(p) == old(Log(p))
    {
      active := {};
    }

    method Append(peer: Peer, e: Entry)
      requires Valid() && Storable(e)
      modifies this
      ensures Valid()
      ensures Log(peer) == old(Log(peer)) + [e]
      ensures forall p | p != peer :: Log(p) == old(Log(p))
      ensures lastAppended == old(lastAppended)[peer := e.msgId] && cumAcked == old(cumAcked)
    {
      hide Encodes, Flatten;
      OpenSegment(peer);
      WriteRecord(peer, e);
      lastAppended := lastAppended[peer := e.msgId];
    }

    method WriteRecord(peer: Peer, e: Entry)
      requires Valid() && Storable(e) && peer in active
      modifies this`segments, this`parts
      ensures Valid()
      ensures Log(peer) == old(Log(peer)) + [e]
      ensures forall p | p != peer :: Log(p) == old(Log(p))
    {
      assert peer in parts.Keys;
      var files := segments[peer];
      var last := |files| - 1;
      EncodesAppend(crc, files, parts[peer], e);
      FlattenAppend(parts[peer], e);
      ghost var pieces := parts[peer][last := parts[peer][last] + [e]];
      files := files[last := files[last] + EncodeRecord(crc, e)];
      segments := segments[peer := files];
      parts := parts[peer := pieces];
    }

    /** Reading scans all segments; truncation has not removed anything from them. */
    method ReadRange(peer: Peer, from: nat, limit: Option<nat>) returns (r: Result<seq<Entry>, nat>)
      requires Valid()
      ensures r == Ok(Range(Log(peer), from, limit))
      ensures r == AsResult(ScanAll(crc, if peer in segments then segments[peer] else [], from, limit, []))
    {
      var files := if peer in segments then segments[peer] else [];
      ghost var pieces := if peer in parts then parts[peer] else [];
      ScanIsGather(crc, files, pieces, from, limit, []);
      GatherIsRange(Log(peer), from, limit, []);
      assert [] + Above(Log(peer), from) == Above(Log(peer), from);
      var scan := ReadSegments(crc, files, from, limit);
      r := AsResult(scan);
    }

    method TruncateThrough(peer: Peer, upTo: nat)
      requires Valid()
      modifies this`cumAcked
      ensures Valid() && forall p :: Log(p) == old(Log(p))
      ensures cumAcked == if peer !in segments then old(cumAcked)
                          else old(cumAcked)[peer := if upTo > old(AckedBy(peer)) then upTo else old(AckedBy(peer))]
      ensures old(peer in segments) ==>
                && peer in cumAcked && cumAcked[peer] >= upTo
                && (peer in old(cumAcked) ==> cumAcked[peer] >= old(cumAcked)[peer])
                && (cumAcked[peer] == upTo || (peer in old(cumAcked) && cumAcked[peer] == old(cumAcked)[peer]))
    {
      if peer !in segments {
        return;
      }
      var acked := AckedBy(peer);
      if upTo > acked {
        acked := upTo;
      }
      cumAcked := cumAcked[peer := acked];
    }
  }

  method ReadSegments(crc: Checksum, segments: seq<Bytes>, from: nat, limit: Option<nat>) returns (scan: Scan)
    ensures scan == ScanAll(crc, segments, from, limit, [])
  {
    var results: seq<Entry> := [];
    var i := 0;
    assert segments[0..] == segments;
    while i < |segments|
      invariant i <= |segments|
      invariant ScanAll(crc, segments[i..], from, limit, results) == ScanAll(crc, segments, from, limit, [])
    {
      scan := ReadSegment(crc, segments[i], from, limit, results);
      assert segments[i..][1..] == segments[i + 1..];
      if !scan.Going? {
        return;
      }
      results := scan.found;
      i := i + 1;
    }
    scan := Going(results);
  }

  method ReadSegment(crc: Checksum, segment: Bytes, from: nat, limit: Option<nat>, found: seq<Entry>)
    returns (scan: Scan)
    ensures scan == ScanSegment(crc, segment, from, limit, found)
  {
    var results, bytes := found, segment;
    while |bytes| >= HEADER_SIZE
      invariant ScanSegment(crc, bytes, from, limit, results) == ScanSegment(crc, segment, from, limit, found)
      decreases |bytes|
    {
      var len, msgId, sum := FromLE(bytes[..4]), FromLE(bytes[4..12]), FromLE(bytes[12..16]);
      if |bytes| - HEADER_SIZE < len {
        break;
      }
      var frame := bytes[HEADER_SIZE..HEADER_SIZE + len];
      if sum != crc(msgId, frame) {
        return Corrupt(msgId);
      }
      if msgId > from {
        results := results + [Entry(msgId, frame)];
        if limit.Some? && |results| >= limit.value {
          return Stopped(results);
        }
      }
      bytes := bytes[HEADER_SIZE + len..];
    }
    scan := Going(results);
  }

  // ---------------------------------------------------------------------------
  // Agreement of the two stores

  datatype WalOp = Appending(e: Entry) | Truncating(upTo: nat)

  /** What the memory store holds after the operations. */
  function MemoryAfter(ops: seq<WalOp>): seq<Entry> {
    if ops == [] then []
    else
      var before := MemoryAfter(ops[..|ops| - 1]);
      match ops[|ops| - 1]
      case Appending(e) => before + [e]
      case Truncating(upTo) => Above(before, upTo)
  }

  /** What the files hold after the operations. */
  function FilesAfter(ops: seq<WalOp>): seq<Entry> {
    if ops == [] then []
    else
      var before := FilesAfter(ops[..|ops| - 1]);
      match ops[|ops| - 1]
      case Appending(e) => before + [e]
      case Truncating(_) => before
  }

  function TruncationPoint(ops: seq<WalOp>): nat {
    if ops == [] then 0
    else
      var before := TruncationPoint(ops[..|ops| - 1]);
      match ops[|ops| - 1]
      case Appending(_) => before
      case Truncating(upTo) => if upTo > before then upTo else before
  }

  /** The two stores answer alike from the truncation point on, for every limit. */
  lemma {:induction false} StoresAgree(ops: seq<WalOp>, from: nat, limit: Option<nat>)
    requires from >= TruncationPoint(ops)
    ensures Range(MemoryAfter(ops), from, limit) == Range(FilesAfter(ops), from, limit)
    ensures Above(MemoryAfter(ops), from) == Above(FilesAfter(ops), from)
  {
    if ops != [] {
      var before := ops[..|ops| - 1];
      StoresAgree(before, from, limit);
      match ops[|ops| - 1]
      case Appending(e) =>
        AboveConcat(MemoryAfter(before), [e], from);
        AboveConcat(FilesAfter(before), [e], from);
      case Truncating(upTo) =>
        AboveTwice(MemoryAfter(before), upTo, from);
    }
  }

  /** The sender appends only ids above everything acknowledged. */
  ghost predicate FreshIds(ops: seq<WalOp>) {
    ops == [] ||
    var before := ops[..|ops| - 1];
    FreshIds(before) && (ops[|ops| - 1].Appending? ==> ops[|ops| - 1].e.msgId > TruncationPoint(before))
  }

  lemma {:induction false} MemoryIsSuffixOfFiles(ops: seq<WalOp>)
    requires FreshIds(ops)
    ensures MemoryAfter(ops) == Above(FilesAfter(ops), TruncationPoint(ops))
  {
    if ops != [] {
      var before := ops[..|ops| - 1];
      MemoryIsSuffixOfFiles(before);
      match ops[|ops| - 1]
      case Appending(e) =>
        AboveConcat(FilesAfter(before), [e], TruncationPoint(before));
        assert Above([e], TruncationPoint(before)) == [e];
      case Truncating(upTo) =>
        if upTo >= TruncationPoint(before) {
          AboveTwice(FilesAfter(before), TruncationPoint(before), upTo);
        } else {
          AboveAll(FilesAfter(before), TruncationPoint(before), upTo);
        }
    }
  }

  lemma {:induction false} AboveAll(s: seq<Entry>, a: nat, b: nat)
    requires b <= a
    ensures Above(Above(s, a), b) == Above(s, a)
    decreases |s|
  {
    if s != [] {
      AboveAll(s[..|s| - 1], a, b);
    }
  }

  lemma {:induction false} AboveSame(s: seq<Entry>, a: nat, b: nat)
    requires forall e | e in s :: e.msgId > a <==> e.msgId > b
    ensures Above(s, a) == Above(s, b)
    decreases |s|
  {
    if s != [] {
      assert s[|s| - 1] in s;
      AboveSame(s[..|s| - 1], a, b);
    }
  }

  /** The first entry above an id is the least one. */
  lemma FirstIsLeast(s: seq<Entry>, from: nat, e: Entry)
    requires Increasing(s) && e in s && e.msgId > from
    ensures Above(s, from) != [] && Above(s, from)[0].msgId <= e.msgId
  {
    AboveMembers(s, from, e);
    AboveIncreasing(s, from);
    var i :| 0 <= i < |Above(s, from)| && Above(s, from)[i] == e;
  }

  /** A limited read returns a prefix, which is empty only if there is nothing to return. */
  lemma LimitedPrefix(s: seq<Entry>, limit: Option<nat>)
    ensures Limited(s, limit) <= s && (Limited(s, limit) == [] <==> s == [])
  {
  }

  /** Below the truncation point they agree exactly when the files hold nothing there: the
      files still return what the memory store has dropped. With rising ids this is so for
      every limit. */
  lemma StoresAgreeIff(ops: seq<WalOp>, from: nat, limit: Option<nat>)
    requires FreshIds(ops) && (limit.Some? ==> Increasing(FilesAfter(ops)))
    ensures Range(MemoryAfter(ops), from, limit) == Range(FilesAfter(ops), from, limit) <==>
            forall e | e in FilesAfter(ops) && e.msgId > from :: e.msgId > TruncationPoint(ops)
  {
    var files, t := FilesAfter(ops), TruncationPoint(ops);
    MemoryIsSuffixOfFiles(ops);
    if from >= t {
      StoresAgree(ops, from, limit);
    } else {
      AboveAll(files, t, from);
      if forall e | e in files && e.msgId > from :: e.msgId > t {
        AboveSame(files, t, from);
      } else {
        var e :| e in files && e.msgId > from && e.msgId <= t;
        if limit.None? {
          AboveMembers(files, from, e);
          AboveMembers(files, t, e);
        } else {
          StoresDiffer(files, t, from, limit, e);
        }
      }
    }
  }

  lemma StoresDiffer(files: seq<Entry>, t: nat, from: nat, limit: Option<nat>, e: Entry)
    requires Increasing(files) && e in files && from < e.msgId <= t
    ensures Limited(Above(files, t), limit) != Limited(Above(files, from), limit)
  {
    FirstIsLeast(files, from, e);
    LimitedPrefix(Above(files, t), limit);
    LimitedPrefix(Above(files, from), limit);
    var a := Above(files, t);
    if a != [] {
      AboveMembers(files, t, a[0]);
    }
  }

  /** One message appended and acknowledged: the file log still returns it, at any limit. */
  lemma AcknowledgedStillRead(bytes: Bytes, limit: Option<nat>)
    ensures var ops := [Appending(Entry(1, bytes)), Truncating(1)];
            FreshIds(ops) && Range(MemoryAfter(ops), 0, limit) == [] && Range(FilesAfter(ops), 0, limit) == [Entry(1, bytes)]
  {
    var e := Entry(1, bytes);
    var first := [Appending(e)];
    var ops := [Appending(e), Truncating(1)];
    assert first[..0] == [] && ops[..1] == first;
    assert MemoryAfter([]) + [e] == [e] && FilesAfter([]) + [e] == [e];
    assert MemoryAfter(first) == [e] && FilesAfter(first) == [e] && FreshIds(first);
    AboveOne(e, 0);
    AboveOne(e, 1);
    assert MemoryAfter(ops) == [] && FilesAfter(ops) == [e];
  }

  lemma AboveOne(e: Entry, from: nat)
    ensures Above([e], from) == if e.msgId > from then [e] else []
  {
  }
}
