/** Chunk basic headers and message headers: rtmp_chunk.c:90-141 and 282-394, which follow
    sections 5.3.1.1 and 5.3.1.2 of Adobe RTMP 1.0. Timestamps are absolute in every form. */
module ChunkHeader {
  import opened Bytes

  datatype Header = Header(timestamp: uint32, length: uint32, mtype: byte, streamId: uint32)

  type Fmt = f: int | 0 <= f < 4

  const ZERO_HEADER := Header(0, 0, 0, 0)
  const MIN_CSID := 2
  const MAX_CSID := 65599

  predicate ValidCsid(csid: uint32) {
    MIN_CSID <= csid <= MAX_CSID
  }

  /** The two fields that travel in three bytes fit in them. */
  predicate Fits24(h: Header) {
    h.timestamp < TWO_24 && h.length < TWO_24
  }

  // ---------------------------------------------------------------- basic header

  function EncodeBasic(fmt: Fmt, csid: uint32): (b: seq<byte>) {
    if csid >= 320 then
      [fmt * 64 + 1, (csid - 64) % 256, (csid - 64) / 256 % 256]
    else if csid >= 64 then
      [fmt * 64, (csid - 64) % 256]
    else
      [fmt * 64 + csid]
  }

  /** How many bytes the basic header that starts with this byte occupies. */
  function BasicSize(first: byte): nat {
    if first % 64 == 0 then 2 else if first % 64 == 1 then 3 else 1
  }

  /** The format, the chunk stream id and the number of bytes used; None when bytes are missing. */
  function ParseBasic(b: seq<byte>): Option<(Fmt, uint32, nat)> {
    if |b| == 0 || |b| < BasicSize(b[0]) then None
    else
      var fmt := b[0] / 64;
      var low := b[0] % 64;
      if low == 0 then Some((fmt, b[1] as int + 64, 2))
      else if low == 1 then Some((fmt, b[2] as int * 256 + b[1] as int + 64, 3))
      else Some((fmt, low, 1))
  }

  /** Read after write returns both values, whatever follows, exactly for the ids that section
      5.3.1.1 of Adobe RTMP 1.0 allows. */
  lemma BasicRoundTripIff(fmt: Fmt, csid: uint32, tail: seq<byte>)
    ensures ParseBasic(EncodeBasic(fmt, csid) + tail) == Some((fmt, csid, |EncodeBasic(fmt, csid)|))
        <==> ValidCsid(csid)
  {
    var e := EncodeBasic(fmt, csid);
    var b := e + tail;
    assert b[0] == e[0];
    if csid >= 64 {
      assert b[1] == e[1];
    }
    if csid >= 320 {
      assert b[2] == e[2];
    }
  }

  /** Whatever bytes are accepted name a legal id, lie inside the input, and no accepted form is
      shorter than the one the writer picks. */
  lemma BasicShortest(b: seq<byte>)
    requires ParseBasic(b).Some?
    ensures var (fmt, csid, n) := ParseBasic(b).value;
            ValidCsid(csid) && n <= |b| && |EncodeBasic(fmt, csid)| <= n
  {
  }

  /** On the wire: the format in the top two bits, and the id in the other six, or less 64 in one byte
      after a 0, or less 64 in two bytes after a 1, the low one first. */
  lemma BasicBytes(fmt: Fmt, csid: uint32)
    requires ValidCsid(csid)
    ensures var b := EncodeBasic(fmt, csid);
            && |b| == (if csid <= 63 then 1 else if csid <= 319 then 2 else 3)
            && b[0] / 64 == fmt
            && (|b| == 1 ==> b[0] % 64 == csid)
            && (|b| == 2 ==> b[0] % 64 == 0 && b[1] as int + 64 == csid)
            && (|b| == 3 ==> b[0] % 64 == 1 && b[1] as int + 256 * b[2] as int + 64 == csid)
  {
    if csid >= 320 {
      assert (csid - 64) / 256 < 256;
    }
  }

  /** No encoding is a proper prefix of another, so the three forms delimit themselves. */
  lemma BasicPrefixFree(fmt: Fmt, csid: uint32, fmt': Fmt, csid': uint32)
    requires ValidCsid(csid) && ValidCsid(csid')
    requires EncodeBasic(fmt, csid) <= EncodeBasic(fmt', csid')
    ensures fmt == fmt' && csid == csid'
  {
    var e, e' := EncodeBasic(fmt, csid), EncodeBasic(fmt', csid');
    BasicRoundTripIff(fmt, csid, e'[|e|..]);
    BasicRoundTripIff(fmt', csid', []);
    assert e + e'[|e|..] == e' == e' + [];
  }

  // -------------------------------------------------------------- message header

  /** get_chunk_type: the smallest header against the remembered one. */
  function ChooseFmt(cur: Header, prev: Header): Fmt {
    if prev.length == 0 then 0
    else if cur.streamId != prev.streamId then 0
    else if cur.length != prev.length || cur.mtype != prev.mtype then 1
    else if cur.timestamp != prev.timestamp then 2
    else 3
  }

  function FieldsSize(fmt: Fmt): nat {
    if fmt == 0 then 11 else if fmt == 1 then 7 else if fmt == 2 then 3 else 0
  }

  function EncodeFields(h: Header, fmt: Fmt): (b: seq<byte>)
    ensures |b| == FieldsSize(fmt)
  {
    if fmt == 0 then
      BigEndian(h.timestamp, 3) + BigEndian(h.length, 3) + [h.mtype] + LittleEndian(h.streamId, 4)
    else if fmt == 1 then
      BigEndian(h.timestamp, 3) + BigEndian(h.length, 3) + [h.mtype]
    else if fmt == 2 then
      BigEndian(h.timestamp, 3)
    else
      []
  }

  /** Fields that are not sent come from the remembered header. */
  function ParseFields(fmt: Fmt, b: seq<byte>, prev: Header): Header
    requires |b| == FieldsSize(fmt)
  {
    if fmt == 0 then Header(Read24(b[0..3]), Read24(b[3..6]), b[6], ReadLE32(b[7..11]))
    else if fmt == 1 then prev.(timestamp := Read24(b[0..3]), length := Read24(b[3..6]), mtype := b[6])
    else if fmt == 2 then prev.(timestamp := Read24(b[0..3]))
    else prev
  }

  /** A form carries a header when its omitted fields are the remembered ones and its 24-bit
      fields fit. */
  predicate Carries(cur: Header, prev: Header, fmt: Fmt) {
    && (fmt <= 2 ==> cur.timestamp < TWO_24)
    && (fmt <= 1 ==> cur.length < TWO_24)
    && (fmt >= 1 ==> cur.streamId == prev.streamId)
    && (fmt >= 2 ==> cur.length == prev.length && cur.mtype == prev.mtype)
    && (fmt >= 3 ==> cur.timestamp == prev.timestamp)
  }

  lemma FieldSlices(h: Header, fmt: Fmt)
    requires fmt <= 1
    ensures var b := EncodeFields(h, fmt);
            && b[0..3] == BigEndian(h.timestamp, 3) && b[3..6] == BigEndian(h.length, 3) && b[6] == h.mtype
            && (fmt == 0 ==> b[7..11] == LittleEndian(h.streamId, 4))
  {
    var b := EncodeFields(h, fmt);
    var t, l := BigEndian(h.timestamp, 3), BigEndian(h.length, 3);
    if fmt == 0 {
      var s := LittleEndian(h.streamId, 4);
      assert b == t + (l + [h.mtype] + s);
      assert b == (t + l) + ([h.mtype] + s);
      assert b == (t + l + [h.mtype]) + s;
    } else {
      assert b == t + (l + [h.mtype]);
    }
  }

  /** On the wire: timestamp and length in three bytes, the high one first, the type in one, and the
      stream id in four, the low one first; 11, 7, 3 or no bytes in all. */
  lemma FieldsOnWire(h: Header, fmt: Fmt)
    ensures var b := EncodeFields(h, fmt);
            && |b| == (if fmt == 0 then 11 else if fmt == 1 then 7 else if fmt == 2 then 3 else 0)
            && (fmt <= 2 ==> 65536 * b[0] as int + 256 * b[1] as int + b[2] as int == h.timestamp % 0x100_0000)
            && (fmt <= 1 ==> 65536 * b[3] as int + 256 * b[4] as int + b[5] as int == h.length % 0x100_0000)
            && (fmt <= 1 ==> b[6] == h.mtype)
            && (fmt == 0 ==>
                  b[7] as int + 256 * b[8] as int + 65536 * b[9] as int + 0x100_0000 * b[10] as int == h.streamId)
  {
    FieldBytes(h.timestamp);
    FieldBytes(h.length);
    FieldBytes(h.streamId);
    ThreeBytes(h.timestamp);
    ThreeBytes(h.length);
    FourBytes(h.streamId);
  }

  lemma ThreeBytes(v: nat)
    ensures 65536 * (v / 0x1_0000 % 0x100) + 256 * (v / 0x100 % 0x100) + v % 0x100 == v % 0x100_0000
  {
    var v1, v2 := v / 0x100, v / 0x1_0000;
    assert v1 / 0x100 == v2;
    assert v == 0x100 * v1 + v % 0x100 && v1 == 0x100 * v2 + v1 % 0x100;
    assert v2 == 0x100 * (v2 / 0x100) + v2 % 0x100;
  }

  lemma FourBytes(v: uint32)
    ensures v % 0x100 + 256 * (v / 0x100 % 0x100) + 65536 * (v / 0x1_0000 % 0x100)
            + 0x100_0000 * (v / 0x100_0000 % 0x100) == v
  {
    ThreeBytes(v);
    assert v == 0x100_0000 * (v / 0x100_0000) + v % 0x100_0000;
  }

  /** Reading a header written in any form restores it exactly when that form carries it. */
  lemma HeaderRestoredIff(cur: Header, prev: Header, fmt: Fmt)
    ensures ParseFields(fmt, EncodeFields(cur, fmt), prev) == cur <==> Carries(cur, prev, fmt)
  {
    Read24OfWrite(cur.timestamp);
    Read24OfWrite(cur.length);
    ReadLE32OfWrite(cur.streamId);
    if fmt <= 1 {
      FieldSlices(cur, fmt);
    } else if fmt == 2 {
      var b := EncodeFields(cur, fmt);
      assert b[0..3] == BigEndian(cur.timestamp, 3);
    }
  }

  /** Header compression is lossless, and optimal: with a real remembered header, no later
      (shorter) form would have restored the header. */
  lemma HeaderCompression(cur: Header, prev: Header)
    requires Fits24(cur)
    ensures var fmt := ChooseFmt(cur, prev);
            ParseFields(fmt, EncodeFields(cur, fmt), prev) == cur
    ensures prev.length != 0 ==>
              forall fmt: Fmt :: fmt > ChooseFmt(cur, prev) ==>
                FieldsSize(fmt) < FieldsSize(ChooseFmt(cur, prev))
                && ParseFields(fmt, EncodeFields(cur, fmt), prev) != cur
  {
    HeaderRestoredIff(cur, prev, ChooseFmt(cur, prev));
    forall fmt: Fmt | prev.length != 0 && fmt > ChooseFmt(cur, prev)
      ensures ParseFields(fmt, EncodeFields(cur, fmt), prev) != cur
    {
      HeaderRestoredIff(cur, prev, fmt);
    }
  }

  /** The chosen form restores the header exactly when the 24-bit fields it sends fit. */
  lemma ChosenCarriesIff(cur: Header, prev: Header)
    ensures Carries(cur, prev, ChooseFmt(cur, prev)) <==>
            (ChooseFmt(cur, prev) <= 2 ==> cur.timestamp < TWO_24) &&
            (ChooseFmt(cur, prev) <= 1 ==> cur.length < TWO_24)
  {
  }

  /** A parsed header keeps the 24-bit bounds of the memory it was parsed against. */
  lemma ParsedFits(fmt: Fmt, b: seq<byte>, prev: Header)
    requires |b| == FieldsSize(fmt) && Fits24(prev)
    ensures Fits24(ParseFields(fmt, b, prev))
  {
  }
}
