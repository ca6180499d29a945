/** What rtmp_chunk_write and rtmp_chunk_read do (rtmp_chunk.c:23-88 and 144-253), as functions on
    the 64 chunk contexts of an endpoint and on the bytes of the connection. */
module ChunkStream {
  import opened Bytes
  import opened ChunkHeader

  const SLOTS := 64
  const MAX_CHUNK_SIZE := 65536

  datatype Packet = Packet(mtype: byte, timestamp: uint32, streamId: uint32, data: seq<byte>)

  /** A message under reassembly: the size its buffer was allocated with and the bytes read so far. */
  datatype Partial = Partial(size: nat, got: seq<byte>)

  /** One RTMPChunkContext. A slot that was never used is indistinguishable from a zeroed one. */
  datatype Slot = Slot(prev: Header, delta: uint32, partial: Option<Partial>)

  /** Overrun stands for a read in which more bytes arrive than the reassembly buffer has room for:
      what the source does once it has written past the buffer has no meaning, so the model stops
      there. */
  datatype Outcome =
    | Failed
    | Overrun
    | More(csid: uint32)
    | Done(csid: uint32, packet: Packet)

  type Slots = s: seq<Slot> | |s| == SLOTS witness seq(SLOTS, _ => EMPTY_SLOT)

  const EMPTY_SLOT := Slot(ZERO_HEADER, 0, None)
  /** The state of an endpoint before its first chunk. */
  function FreshSlots(): (slots: Slots)
    ensures forall k :: 0 <= k < SLOTS ==> slots[k] == EMPTY_SLOT
  {
    seq(SLOTS, _ => EMPTY_SLOT)
  }

  function SlotOf(csid: uint32): (k: nat)
    ensures k < SLOTS
  {
    csid % SLOTS
  }

  /** rtmp_chunk_set_size: larger sizes are clamped. */
  function Clamp(size: uint32): uint32 {
    if size > MAX_CHUNK_SIZE then MAX_CHUNK_SIZE else size
  }

  // --------------------------------------------------------------------- writing

  /** The length field and the payload of a packet; sizes are cut to 32 bits. */
  function SentSize(p: Packet): uint32 {
    |p.data| % TWO_32
  }

  function HeaderOf(p: Packet): Header {
    Header(p.timestamp, SentSize(p), p.mtype, p.streamId)
  }

  predicate Sendable(p: Packet) {
    p.timestamp < TWO_24 && |p.data| < TWO_24
  }

  /** Payload pieces of at most cs bytes, separated by type 3 basic headers. */
  function PayloadWire(csid: uint32, cs: nat, data: seq<byte>): seq<byte>
    requires cs > 0
  {
    if |data| <= cs then data
    else data[..cs] + EncodeBasic(3, csid) + PayloadWire(csid, cs, data[cs..])
  }

  function MessageWire(prev: Header, csid: uint32, cs: nat, p: Packet): seq<byte>
    requires cs > 0
  {
    var fmt := ChooseFmt(HeaderOf(p), prev);
    EncodeBasic(fmt, csid) + EncodeFields(HeaderOf(p), fmt) + PayloadWire(csid, cs, p.data[..SentSize(p)])
  }

  /** update_chunk_context. */
  function Remember(s: Slot, h: Header): Slot {
    s.(prev := h, delta := (h.timestamp - s.prev.timestamp) % TWO_32)
  }

  /** The remembered difference leads from the remembered timestamp to the new one. */
  lemma DeltaLeads(s: Slot, h: Header)
    ensures var s' := Remember(s, h);
            && s'.prev == h && s'.partial == s.partial
            && (s.prev.timestamp + s'.delta) % 0x1_0000_0000 == h.timestamp
  {
  }

  function AfterWrite(slots: Slots, csid: uint32, p: Packet): Slots {
    slots[SlotOf(csid) := Remember(slots[SlotOf(csid)], HeaderOf(p))]
  }

  // --------------------------------------------------------------------- reading

  function PartialOf(s: Slot, h: Header): Partial {
    if s.partial.Some? then s.partial.value else Partial(h.length, [])
  }

  /** The slot once its buffer has been allocated. */
  function Opened(s: Slot, h: Header): Slot {
    s.(partial := Some(PartialOf(s, h)))
  }

  /** No header is remembered and no payload byte kept or lost: at most an empty buffer is new. */
  ghost predicate SameMessages(before: Slots, after: Slots) {
    forall k :: 0 <= k < SLOTS ==>
      after[k] == before[k] ||
      (before[k].partial.None? && exists h :: after[k] == Opened(before[k], h))
  }

  /** How many payload bytes the next read asks for, with the 32-bit subtraction of the source. */
  function Want(part: Partial, h: Header, cs: nat): nat {
    Min((h.length - |part.got|) % TWO_32, cs)
  }

  /** The part of rtmp_chunk_read after the header: the slot, the unread input and the outcome. What
      arrives is written to the buffer, however much room that has, before its length is looked at. */
  function ReadPayload(s: Slot, csid: uint32, cs: nat, h: Header, input: seq<byte>): (Slot, seq<byte>, Outcome) {
    var part := PartialOf(s, h);
    var size := Want(part, h, cs);
    var have := Min(size, |input|);
    if |part.got| + have > part.size then (s.(partial := Some(part)), input[have..], Overrun)
    else if |input| < size then (s.(partial := Some(part)), [], Failed)
    else
      var got := part.got + input[..size];
      if |got| >= h.length then
        (Remember(s.(partial := None), h), input[size..],
         Done(csid, Packet(h.mtype, h.timestamp, h.streamId, got[..h.length])))
      else
        (Remember(s.(partial := Some(part.(got := got))), h), input[size..], More(csid))
  }

  function ReadChunk(slots: Slots, cs: nat, input: seq<byte>): (Slots, seq<byte>, Outcome) {
    match ParseBasic(input)
    case None => (slots, [], Failed)
    case Some((fmt, csid, n)) =>
      var body := n + FieldsSize(fmt);
      if |input| < body then (slots, [], Failed)
      else
        var k := SlotOf(csid);
        var h := ParseFields(fmt, input[n..body], slots[k].prev);
        var (s, rest, out) := ReadPayload(slots[k], csid, cs, h, input[body..]);
        (slots[k := s], rest, out)
  }

  /** Allocating the buffer is part of the read. */
  lemma OpenedReads(s: Slot, csid: uint32, cs: nat, h: Header, input: seq<byte>)
    ensures PartialOf(Opened(s, h), h) == PartialOf(s, h)
    ensures ReadPayload(Opened(s, h), csid, cs, h, input) == ReadPayload(s, csid, cs, h, input)
  {
  }

  /** A read of what has arrived of a payload, when that is all it asks for. */
  lemma PayloadExtends(s: Slot, csid: uint32, cs: nat, h: Header, data: seq<byte>, rest: seq<byte>)
    requires |data| == Want(PartialOf(s, h), h, cs)
    ensures var (s', left, out) := ReadPayload(s, csid, cs, h, data);
            ReadPayload(s, csid, cs, h, data + rest) == (s', rest, out) && left == [] && !out.Failed?
  {
    assert data[..|data|] == data == (data + rest)[..|data|];
    assert (data + rest)[|data|..] == rest;
  }

  lemma ReadChunkParts(slots: Slots, cs: nat, input: seq<byte>, fields: seq<byte>, rest: seq<byte>)
    requires ParseBasic(input).Some? && |fields| == FieldsSize(ParseBasic(input).value.0)
    requires ParseBasic(input).value.2 <= |input| && input[ParseBasic(input).value.2..] == fields + rest
    ensures var (fmt, csid, n) := ParseBasic(input).value;
            var k := SlotOf(csid);
            var (s, left, out) := ReadPayload(slots[k], csid, cs, ParseFields(fmt, fields, slots[k].prev), rest);
            ReadChunk(slots, cs, input) == (slots[k := s], left, out)
  {
    var (fmt, csid, n) := ParseBasic(input).value;
    var body := n + |fields|;
    assert input[n..body] == input[n..][..|fields|] == fields;
    assert input[body..] == input[n..][|fields|..] == rest;
  }

  /** The result of calling rtmp_chunk_read up to n times, stopping at the first failure. */
  datatype Run = Run(slots: Slots, rest: seq<byte>, delivered: seq<(uint32, Packet)>, ok: bool)

  function Delivery(o: Outcome): seq<(uint32, Packet)> {
    if o.Done? then [(o.csid, o.packet)] else []
  }

  type Reader = (Slots, seq<byte>) -> (Slots, seq<byte>, Outcome)

  function ChunkReader(cs: nat): Reader {
    (slots: Slots, input: seq<byte>) => ReadChunk(slots, cs, input)
  }

  function ReadWith(reader: Reader, slots: Slots, input: seq<byte>, n: nat): Run
    decreases n
  {
    if n == 0 then Run(slots, input, [], true)
    else
      var (slots', rest, out) := reader(slots, input);
      if out.Failed? || out.Overrun? then Run(slots', rest, [], false)
      else
        var r := ReadWith(reader, slots', rest, n - 1);
        Run(r.slots, r.rest, Delivery(out) + r.delivered, r.ok)
  }

  function ReadN(slots: Slots, cs: nat, input: seq<byte>, n: nat): Run {
    ReadWith(ChunkReader(cs), slots, input, n)
  }

  type Readers = nat -> Reader

  /** Reads under a chunk size that may be another one each time. */
  function ReadEach(readers: Readers, slots: Slots, input: seq<byte>, limits: seq<nat>): Run
    decreases |limits|
  {
    if limits == [] then Run(slots, input, [], true)
    else
      var (slots', rest, out) := readers(limits[0])(slots, input);
      if out.Failed? || out.Overrun? then Run(slots', rest, [], false)
      else
        var r := ReadEach(readers, slots', rest, limits[1..]);
        Run(r.slots, r.rest, Delivery(out) + r.delivered, r.ok)
  }

  lemma {:induction false} ReadEachSame(readers: Readers, slots: Slots, input: seq<byte>, limits: seq<nat>, cs: nat)
    requires forall i :: 0 <= i < |limits| ==> limits[i] == cs
    ensures ReadEach(readers, slots, input, limits) == ReadWith(readers(cs), slots, input, |limits|)
    decreases |limits|
  {
    if limits == [] {
    } else {
      var (slots', rest, out) := readers(cs)(slots, input);
      if !(out.Failed? || out.Overrun?) {
        ReadEachSame(readers, slots', rest, limits[1..], cs);
      }
    }
  }

  lemma {:induction false} ReadWithSplit(reader: Reader, slots: Slots, input: seq<byte>, m: nat, n: nat)
    requires ReadWith(reader, slots, input, m).ok
    ensures var a := ReadWith(reader, slots, input, m);
            var b := ReadWith(reader, a.slots, a.rest, n);
            ReadWith(reader, slots, input, m + n) == Run(b.slots, b.rest, a.delivered + b.delivered, b.ok)
    decreases m
  {
    var a := ReadWith(reader, slots, input, m);
    var b := ReadWith(reader, a.slots, a.rest, n);
    if m == 0 {
      assert a.delivered + b.delivered == b.delivered;
    } else {
      var (slots', rest, out) := reader(slots, input);
      var a' := ReadWith(reader, slots', rest, m - 1);
      ReadWithSplit(reader, slots', rest, m - 1, n);
      assert Delivery(out) + (a'.delivered + b.delivered) == a.delivered + b.delivered;
    }
  }

  // ------------------------------------------------- what holds for arbitrary input

  /** bytesRead never exceeds bufferSize, and the 24-bit bounds of remembered headers. */
  ghost predicate SlotInv(s: Slot) {
    && Fits24(s.prev)
    && (s.partial.Some? ==> |s.partial.value.got| <= s.partial.value.size)
  }

  ghost predicate SlotsInv(slots: Slots) {
    forall i :: 0 <= i < SLOTS ==> SlotInv(slots[i])
  }

  lemma ReadPayloadSafe(s: Slot, csid: uint32, cs: nat, h: Header, input: seq<byte>)
    requires SlotInv(s) && Fits24(h)
    ensures var (s', rest, out) := ReadPayload(s, csid, cs, h, input);
            && SlotInv(s')
            && (out.More? || out.Done? ==> out.csid == csid)
            && (out.Done? ==> Sendable(out.packet))
  {
  }

  /** On any bytes whatever, one call that does not run past its buffer touches at most the slot it
      names, keeps every reassembly buffer within its size, and delivers only what 24-bit headers
      can describe. */
  lemma ReadChunkSafe(slots: Slots, cs: nat, input: seq<byte>)
    requires SlotsInv(slots)
    ensures var (slots', rest, out) := ReadChunk(slots, cs, input);
            && SlotsInv(slots')
            && (out.Done? ==> Sendable(out.packet))
            && (forall i :: 0 <= i < SLOTS && slots'[i] != slots[i] ==>
                  ParseBasic(input).Some? && i == SlotOf(ParseBasic(input).value.1))
  {
    if ParseBasic(input).Some? {
      var (fmt, csid, n) := ParseBasic(input).value;
      var body := n + FieldsSize(fmt);
      if body <= |input| {
        var k := SlotOf(csid);
        var h := ParseFields(fmt, input[n..body], slots[k].prev);
        ParsedFits(fmt, input[n..body], slots[k].prev);
        ReadPayloadSafe(slots[k], csid, cs, h, input[body..]);
      }
    }
  }

  lemma PayloadTakes(s: Slot, csid: uint32, cs: nat, h: Header, input: seq<byte>)
    ensures var (_, rest, out) := ReadPayload(s, csid, cs, h, input);
            var size := Want(PartialOf(s, h), h, cs);
            out.More? || out.Done? ==> size <= |input| && rest == input[size..]
  {
  }

  /** A call that succeeds consumes at least the basic header, and what it leaves is the end of
      its input. */
  lemma ReadChunkProgress(slots: Slots, cs: nat, input: seq<byte>)
    ensures var (_, rest, out) := ReadChunk(slots, cs, input);
            out.More? || out.Done? ==> exists used :: 0 < used <= |input| && rest == input[used..]
  {
    if ParseBasic(input).Some? {
      var (fmt, csid, n) := ParseBasic(input).value;
      var body := n + FieldsSize(fmt);
      if body <= |input| {
        var s := slots[SlotOf(csid)];
        var h := ParseFields(fmt, input[n..body], s.prev);
        var size := Want(PartialOf(s, h), h, cs);
        PayloadTakes(s, csid, cs, h, input[body..]);
        Skip(input, body, size);
      }
    }
  }

  lemma Skip(s: seq<byte>, m: nat, n: nat)
    ensures m + n <= |s| ==> s[m..][n..] == s[m + n..]
  {
  }

  ghost predicate SafeReader(reader: Reader) {
    forall slots: Slots, input: seq<byte> :: SlotsInv(slots) ==>
      var step := reader(slots, input);
      SlotsInv(step.0) && (step.2.Done? ==> Sendable(step.2.packet))
  }

  lemma ChunkReaderSafe(cs: nat)
    ensures SafeReader(ChunkReader(cs))
  {
    forall slots: Slots, input: seq<byte> | SlotsInv(slots)
      ensures var step := ChunkReader(cs)(slots, input);
              SlotsInv(step.0) && (step.2.Done? ==> Sendable(step.2.packet))
    {
      ReadChunkSafe(slots, cs, input);
    }
  }

  /** The same over any number of calls. */
  lemma {:induction false} ReadWithSafe(reader: Reader, slots: Slots, input: seq<byte>, n: nat)
    requires SafeReader(reader) && SlotsInv(slots)
    ensures var r := ReadWith(reader, slots, input, n);
            && SlotsInv(r.slots)
            && |r.delivered| <= n
            && forall i :: 0 <= i < |r.delivered| ==> Sendable(r.delivered[i].1)
    decreases n
  {
    if n == 0 {
    } else {
      var (slots', rest, out) := reader(slots, input);
      if !(out.Failed? || out.Overrun?) {
        ReadWithSafe(reader, slots', rest, n - 1);
      }
    }
  }

  // ----------------------------------------------------------------- chunk traces

  /** One chunk as a writer emits it: the header is the full one, before compression, and limit is
      the chunk size in force. */
  datatype Chunk = Chunk(csid: uint32, fmt: Fmt, header: Header, payload: seq<byte>, limit: nat)

  function ChunkBytes(c: Chunk): seq<byte> {
    EncodeBasic(c.fmt, c.csid) + EncodeFields(c.header, c.fmt) + c.payload
  }

  function TraceBytes(trace: seq<Chunk>): seq<byte> {
    if trace == [] then [] else ChunkBytes(trace[0]) + TraceBytes(trace[1..])
  }

  /** The chunk continues what the slot holds: its form carries its header against the slot's
      memory, and its payload is exactly what the reader will ask for. */
  predicate Fits(s: Slot, cs: nat, c: Chunk) {
    var part := PartialOf(s, c.header);
    && ValidCsid(c.csid)
    && Carries(c.header, s.prev, c.fmt)
    && |part.got| <= c.header.length == part.size
    && |c.payload| == Min(c.header.length - |part.got|, cs)
  }

  function StepSlot(s: Slot, cs: nat, c: Chunk): Slot {
    ReadPayload(s, c.csid, cs, c.header, c.payload).0
  }

  function StepOut(s: Slot, cs: nat, c: Chunk): Option<Packet> {
    var out := ReadPayload(s, c.csid, cs, c.header, c.payload).2;
    if out.Done? then Some(out.packet) else None
  }

  function Tag(csid: uint32, p: Option<Packet>): seq<(uint32, Packet)> {
    if p.Some? then [(csid, p.value)] else []
  }

  lemma HeadOfChunk(c: Chunk, prev: Header, tail: seq<byte>)
    requires ValidCsid(c.csid) && Carries(c.header, prev, c.fmt)
    ensures var input := ChunkBytes(c) + tail;
            var n := |EncodeBasic(c.fmt, c.csid)|;
            var body := n + FieldsSize(c.fmt);
            && ParseBasic(input) == Some((c.fmt, c.csid, n))
            && body <= |input|
            && ParseFields(c.fmt, input[n..body], prev) == c.header
            && input[body..] == c.payload + tail
  {
    var basic, fields := EncodeBasic(c.fmt, c.csid), EncodeFields(c.header, c.fmt);
    HeadSlices(basic, fields, c.payload, tail);
    BasicRoundTripIff(c.fmt, c.csid, fields + (c.payload + tail));
    HeaderRestoredIff(c.header, prev, c.fmt);
  }

  lemma HeadSlices(basic: seq<byte>, fields: seq<byte>, payload: seq<byte>, tail: seq<byte>)
    ensures var input := basic + fields + payload + tail;
            && input == basic + (fields + (payload + tail))
            && input[|basic|..|basic| + |fields|] == fields
            && input[|basic| + |fields|..] == payload + tail
  {
  }

  lemma PayloadOfChunk(s: Slot, cs: nat, c: Chunk, tail: seq<byte>)
    requires Fits(s, cs, c)
    ensures ReadPayload(s, c.csid, cs, c.header, c.payload + tail)
         == (StepSlot(s, cs, c), tail, ReadPayload(s, c.csid, cs, c.header, c.payload).2)
    ensures var out := ReadPayload(s, c.csid, cs, c.header, c.payload).2;
            (out.More? || out.Done?) && Delivery(out) == Tag(c.csid, StepOut(s, cs, c))
  {
    var size := Want(PartialOf(s, c.header), c.header, cs);
    assert size == |c.payload|;
    assert (c.payload + tail)[..size] == c.payload == c.payload[..size];
    assert (c.payload + tail)[size..] == tail;
  }

  /** Reading a fitting chunk: only its slot moves, and exactly its bytes are consumed. */
  lemma ReadFittingChunk(slots: Slots, cs: nat, c: Chunk, tail: seq<byte>)
    requires Fits(slots[SlotOf(c.csid)], cs, c)
    ensures var k := SlotOf(c.csid);
            var (slots', rest, out) := ReadChunk(slots, cs, ChunkBytes(c) + tail);
            && slots' == slots[k := StepSlot(slots[k], cs, c)]
            && rest == tail
            && (out.More? || out.Done?)
            && Delivery(out) == Tag(c.csid, StepOut(slots[k], cs, c))
  {
    var s := slots[SlotOf(c.csid)];
    HeadOfChunk(c, s.prev, tail);
    PayloadOfChunk(s, cs, c, tail);
  }

  /** What a fitting chunk does to its slot: the payload joins the message under assembly, which
      comes out when it is complete, and the header is remembered. */
  lemma StepFacts(s: Slot, cs: nat, c: Chunk)
    requires Fits(s, cs, c)
    ensures var got := PartialOf(s, c.header).got + c.payload;
            && StepSlot(s, cs, c).prev == c.header
            && StepSlot(s, cs, c).partial ==
                 (if |got| == c.header.length then None else Some(Partial(c.header.length, got)))
            && StepOut(s, cs, c) ==
                 if |got| == c.header.length
                 then Some(Packet(c.header.mtype, c.header.timestamp, c.header.streamId, got)) else None
  {
    var part := PartialOf(s, c.header);
    assert c.payload[..|c.payload|] == c.payload;
    var got := part.got + c.payload;
    if |got| == c.header.length {
      assert got[..c.header.length] == got;
    }
  }

  // ------------------------------------------------------------- ids that can be read

  ghost predicate NamesLegalIds(reader: Reader) {
    forall slots: Slots, input: seq<byte> ::
      var out := reader(slots, input).2;
      out.Done? ==> ValidCsid(out.csid)
  }

  lemma ReaderNamesLegalIds(cs: nat)
    ensures NamesLegalIds(ChunkReader(cs))
  {
    forall slots: Slots, input: seq<byte>
      ensures var out := ChunkReader(cs)(slots, input).2;
              out.Done? ==> ValidCsid(out.csid)
    {
      if ParseBasic(input).Some? {
        BasicShortest(input);
      }
    }
  }

  lemma {:induction false} DeliversLegalIds(reader: Reader, slots: Slots, input: seq<byte>, n: nat)
    requires NamesLegalIds(reader)
    ensures forall i :: 0 <= i < |ReadWith(reader, slots, input, n).delivered| ==>
              ValidCsid(ReadWith(reader, slots, input, n).delivered[i].0)
    decreases n
  {
    if n == 0 {
    } else {
      var (slots', rest, out) := reader(slots, input);
      if !(out.Failed? || out.Overrun?) {
        DeliversLegalIds(reader, slots', rest, n - 1);
      }
    }
  }

  // -------------------------------------------------- reads past the reassembly buffer

  /** More bytes arrive of the piece that a chunk with header h asks for than the buffer of its
      message has room for; rest is what follows the header. */
  predicate PastEnd(s: Slot, h: Header, cs: nat, rest: seq<byte>) {
    s.partial.Some? &&
    |s.partial.value.got| + Min(Want(s.partial.value, h, cs), |rest|) > s.partial.value.size
  }

  /** The slot and the header of the chunk at the front of the input, once its header is complete,
      and what follows it. */
  function NextHeader(slots: Slots, input: seq<byte>): Option<(nat, Header, seq<byte>)> {
    match ParseBasic(input)
    case None => None
    case Some((fmt, csid, n)) =>
      var body := n + FieldsSize(fmt);
      if |input| < body then None
      else Some((SlotOf(csid), ParseFields(fmt, input[n..body], slots[SlotOf(csid)].prev), input[body..]))
  }

  /** One read writes behind its buffer exactly when a message is being assembled and more bytes
      arrive of the piece asked for than that message's first header announced room for. */
  lemma OverrunIff(slots: Slots, cs: nat, input: seq<byte>)
    ensures ReadChunk(slots, cs, input).2.Overrun? <==>
            match NextHeader(slots, input)
            case None => false
            case Some((k, h, rest)) => k < SLOTS && PastEnd(slots[k], h, cs, rest)
  {
  }

  function HeaderOnly(csid: uint32, h: Header): Chunk {
    Chunk(csid, 0, h, [], 0)
  }

  /** A type 0 header that arrives in the middle of a message, and what follows it. */
  lemma HeaderMeetsBuffer(slots: Slots, csid: uint32, cs: nat, h: Header, tail: seq<byte>)
    requires ValidCsid(csid) && Fits24(h)
    ensures ReadChunk(slots, cs, ChunkBytes(HeaderOnly(csid, h)) + tail).2.Overrun? <==>
            PastEnd(slots[SlotOf(csid)], h, cs, tail)
  {
    HeadOfChunk(HeaderOnly(csid, h), slots[SlotOf(csid)].prev, tail);
    OverrunIff(slots, cs, ChunkBytes(HeaderOnly(csid, h)) + tail);
  }

  /** The first piece of a longer message stays in the buffer. */
  lemma FirstPieceStays(csid: uint32, cs: nat, h: Header, payload: seq<byte>, rest: seq<byte>)
    requires ValidCsid(csid) && Fits24(h) && 0 < |payload| == cs < h.length
    ensures var first := ReadChunk(FreshSlots(), cs, ChunkBytes(Chunk(csid, 0, h, payload, cs)) + rest);
            first.1 == rest && first.0[SlotOf(csid)].partial == Some(Partial(h.length, payload))
  {
    var c, s := Chunk(csid, 0, h, payload, cs), FreshSlots()[SlotOf(csid)];
    assert Fits(s, cs, c);
    ReadFittingChunk(FreshSlots(), cs, c, rest);
    StepFacts(s, cs, c);
    assert [] + payload == payload;
  }

  lemma RoomLeft(s: Slot, cs: nat, h1: Header, h2: Header, payload: seq<byte>, tail: seq<byte>)
    requires s.partial == Some(Partial(h1.length, payload)) && |payload| == cs < h1.length && cs <= h2.length
    ensures PastEnd(s, h2, cs, tail) <==> Min(h2.length - cs, cs) > h1.length - cs && |tail| > h1.length - cs
  {
  }

  /** A type 0 header in the middle of a message: after one chunk of a longer message, the next read
      runs past the buffer exactly when the new header asks for more than the room left and more
      bytes than that follow it, whatever the bytes. */
  lemma LongerHeaderOverrunsIff(csid: uint32, cs: nat, h1: Header, h2: Header, payload: seq<byte>, tail: seq<byte>)
    requires ValidCsid(csid) && Fits24(h1) && Fits24(h2) && 0 < |payload| == cs < h1.length && cs <= h2.length
    ensures var rest := ChunkBytes(HeaderOnly(csid, h2)) + tail;
            var first := ReadChunk(FreshSlots(), cs, ChunkBytes(Chunk(csid, 0, h1, payload, cs)) + rest);
            ReadChunk(first.0, cs, first.1).2.Overrun? <==>
              Min(h2.length - cs, cs) > h1.length - cs && |tail| > h1.length - cs
  {
    var rest := ChunkBytes(HeaderOnly(csid, h2)) + tail;
    var first := ReadChunk(FreshSlots(), cs, ChunkBytes(Chunk(csid, 0, h1, payload, cs)) + rest);
    FirstPieceStays(csid, cs, h1, payload, rest);
    HeaderMeetsBuffer(first.0, csid, cs, h2, tail);
    RoomLeft(first.0[SlotOf(csid)], cs, h1, h2, payload, tail);
  }

  /** For example: chunk size 128, 128 bytes of a message of 200, a header announcing 1000, and more
      than the 72 bytes there is room for. */
  lemma OverrunExample(payload: seq<byte>, tail: seq<byte>)
    requires |payload| == 128
    ensures var rest := ChunkBytes(HeaderOnly(3, Header(0, 1000, 9, 1))) + tail;
            var begun := ChunkBytes(Chunk(3, 0, Header(0, 200, 9, 1), payload, 128));
            var first := ReadChunk(FreshSlots(), 128, begun + rest);
            ReadChunk(first.0, 128, first.1).2.Overrun? <==> |tail| >= 73
  {
    LongerHeaderOverrunsIff(3, 128, Header(0, 200, 9, 1), Header(0, 1000, 9, 1), payload, tail);
  }

  /** A header in the middle of a message that announces less than has been read: the read takes one more
      chunk's worth of bytes and delivers the beginning of what there was, under the new header. */
  lemma ShorterHeaderCuts(csid: uint32, cs: nat, h1: Header, h2: Header, payload: seq<byte>, tail: seq<byte>)
    requires ValidCsid(csid) && Fits24(h1) && Fits24(h2)
    requires h2.length < cs == |payload| <= |tail| && 2 * cs <= h1.length
    ensures var rest := ChunkBytes(HeaderOnly(csid, h2)) + tail;
            var first := ReadChunk(FreshSlots(), cs, ChunkBytes(Chunk(csid, 0, h1, payload, cs)) + rest);
            var (_, left, out) := ReadChunk(first.0, cs, first.1);
            && left == tail[cs..]
            && out == Done(csid, Packet(h2.mtype, h2.timestamp, h2.streamId, payload[..h2.length]))
  {
    var rest := ChunkBytes(HeaderOnly(csid, h2)) + tail;
    var first := ReadChunk(FreshSlots(), cs, ChunkBytes(Chunk(csid, 0, h1, payload, cs)) + rest);
    FirstPieceStays(csid, cs, h1, payload, rest);
    HeadOfChunk(HeaderOnly(csid, h2), first.0[SlotOf(csid)].prev, tail);
    CutShort(first.0[SlotOf(csid)], csid, cs, h1, h2, payload, tail);
  }

  lemma CutShort(s: Slot, csid: uint32, cs: nat, h1: Header, h2: Header, payload: seq<byte>, tail: seq<byte>)
    requires s.partial == Some(Partial(h1.length, payload))
    requires h2.length < cs == |payload| <= |tail| && 2 * cs <= h1.length < TWO_24
    ensures var (_, left, out) := ReadPayload(s, csid, cs, h2, tail);
            && left == tail[cs..]
            && out == Done(csid, Packet(h2.mtype, h2.timestamp, h2.streamId, payload[..h2.length]))
  {
    assert Want(s.partial.value, h2, cs) == cs;
    assert (payload + tail[..cs])[..h2.length] == payload[..h2.length];
  }

  /** The buffer of a message under assembly has the length its remembered header announces. */
  ghost predicate Steady(slots: Slots) {
    forall k :: 0 <= k < SLOTS && slots[k].partial.Some? ==>
      |slots[k].partial.value.got| <= slots[k].partial.value.size == slots[k].prev.length
  }

  /** The next header, if it is of type 0 or 1 and comes in the middle of a message, announces that
      message's length; types 2 and 3 carry no length. */
  predicate Repeats(slots: Slots, input: seq<byte>) {
    match NextHeader(slots, input)
    case None => true
    case Some((k, h, _)) =>
      ParseBasic(input).Some? && k < SLOTS &&
      (ParseBasic(input).value.0 <= 1 && slots[k].partial.Some? ==> h.length == slots[k].prev.length)
  }

  lemma SteadyStep(slots: Slots, cs: nat, input: seq<byte>)
    requires Steady(slots) && Repeats(slots, input)
    ensures var (slots', rest, out) := ReadChunk(slots, cs, input);
            !out.Overrun? && (out.More? || out.Done? ==> Steady(slots'))
  {
    OverrunIff(slots, cs, input);
  }

  /** Every one of up to n reads, as long as they succeed, meets such a header. */
  predicate AllRepeat(reader: Reader, slots: Slots, input: seq<byte>, n: nat)
    decreases n
  {
    n == 0 ||
    (Repeats(slots, input) &&
     var (slots', rest, out) := reader(slots, input);
     (out.More? || out.Done? ==> AllRepeat(reader, slots', rest, n - 1)))
  }

  predicate Overruns(reader: Reader, slots: Slots, input: seq<byte>, n: nat)
    decreases n
  {
    n > 0 &&
    var (slots', rest, out) := reader(slots, input);
    out.Overrun? || ((out.More? || out.Done?) && Overruns(reader, slots', rest, n - 1))
  }

  ghost predicate KeepsSteady(reader: Reader) {
    forall slots: Slots, input: seq<byte> :: Steady(slots) && Repeats(slots, input) ==>
      var step := reader(slots, input);
      !step.2.Overrun? && (step.2.More? || step.2.Done? ==> Steady(step.0))
  }

  lemma ReaderKeepsSteady(cs: nat)
    ensures KeepsSteady(ChunkReader(cs))
  {
    forall slots: Slots, input: seq<byte> | Steady(slots) && Repeats(slots, input)
      ensures var step := ChunkReader(cs)(slots, input);
              !step.2.Overrun? && (step.2.More? || step.2.Done? ==> Steady(step.0))
    {
      SteadyStep(slots, cs, input);
    }
  }

  /** On any bytes and over any number of reads, no read runs past its buffer as long as every type 0
      or 1 header in the middle of a message repeats the length of that message. */
  lemma {:induction false} NoOverrun(reader: Reader, slots: Slots, input: seq<byte>, n: nat)
    requires KeepsSteady(reader) && Steady(slots) && AllRepeat(reader, slots, input, n)
    ensures !Overruns(reader, slots, input, n)
    decreases n
  {
    if n == 0 {
    } else {
      var (slots', rest, out) := reader(slots, input);
      if out.More? || out.Done? {
        NoOverrun(reader, slots', rest, n - 1);
      }
    }
  }

  lemma ReadsStayInside(cs: nat, input: seq<byte>, n: nat)
    requires AllRepeat(ChunkReader(cs), FreshSlots(), input, n)
    ensures !Overruns(ChunkReader(cs), FreshSlots(), input, n)
  {
    ReaderKeepsSteady(cs);
    NoOverrun(ChunkReader(cs), FreshSlots(), input, n);
  }

  // ------------------------------------------------- the chunks of a whole message

  function Continuations(csid: uint32, cs: nat, h: Header, data: seq<byte>): seq<Chunk>
    requires cs > 0
  {
    if data == [] then []
    else
      var n := Min(cs, |data|);
      [Chunk(csid, 3, h, data[..n], cs)] + Continuations(csid, cs, h, data[n..])
  }

  function MessageChunks(prev: Header, csid: uint32, cs: nat, p: Packet): seq<Chunk>
    requires cs > 0
  {
    var h := HeaderOf(p);
    var data := p.data[..SentSize(p)];
    var n := Min(cs, |data|);
    [Chunk(csid, ChooseFmt(h, prev), h, data[..n], cs)] + Continuations(csid, cs, h, data[n..])
  }

  lemma {:induction false} ContinuationBytes(csid: uint32, cs: nat, h: Header, data: seq<byte>)
    requires cs > 0 && data != []
    ensures TraceBytes(Continuations(csid, cs, h, data)) == EncodeBasic(3, csid) + PayloadWire(csid, cs, data)
    decreases |data|
  {
    var basic := EncodeBasic(3, csid);
    var n := Min(cs, |data|);
    var c := Chunk(csid, 3, h, data[..n], cs);
    var rest := Continuations(csid, cs, h, data[n..]);
    TraceBytesCons(c, rest);
    assert ChunkBytes(c) == basic + data[..n];
    if n < |data| {
      ContinuationBytes(csid, cs, h, data[n..]);
      Regroup(basic, data[..n], basic, PayloadWire(csid, cs, data[n..]));
    } else {
      assert data[..n] == data;
      assert rest == [];
    }
  }

  lemma Regroup(a: seq<byte>, b: seq<byte>, c: seq<byte>, d: seq<byte>)
    ensures (a + b) + (c + d) == a + (b + c + d)
  {
  }

  lemma TraceBytesCons(c: Chunk, rest: seq<Chunk>)
    ensures TraceBytes([c] + rest) == ChunkBytes(c) + TraceBytes(rest)
  {
    assert ([c] + rest)[1..] == rest;
  }

  /** The bytes rtmp_chunk_write sends are those of the message's chunks. */
  lemma WireIsChunks(prev: Header, csid: uint32, cs: nat, p: Packet)
    requires cs > 0
    ensures TraceBytes(MessageChunks(prev, csid, cs, p)) == MessageWire(prev, csid, cs, p)
  {
    var h := HeaderOf(p);
    var data := p.data[..SentSize(p)];
    var n := Min(cs, |data|);
    TraceBytesCons(Chunk(csid, ChooseFmt(h, prev), h, data[..n], cs), Continuations(csid, cs, h, data[n..]));
    if n < |data| {
      ContinuationBytes(csid, cs, h, data[n..]);
      Regroup(EncodeBasic(ChooseFmt(h, prev), csid) + EncodeFields(h, ChooseFmt(h, prev)), data[..n],
              EncodeBasic(3, csid), PayloadWire(csid, cs, data[n..]));
    } else {
      assert data[..n] == data;
    }
  }

  /** The number of reads a message takes. */
  function Calls(cs: nat, size: nat): nat
    requires cs > 0
  {
    if size == 0 then 1 else CeilDiv(size, cs)
  }

  lemma CeilStep(size: nat, cs: nat)
    requires cs > 0
    ensures size > cs ==> CeilDiv(size, cs) == 1 + CeilDiv(size - cs, cs)
    ensures 0 < size <= cs ==> CeilDiv(size, cs) == 1
    ensures CeilDiv(0, cs) == 0
  {
    if size > cs {
      var m := size - cs + cs - 1;
      assert size + cs - 1 == m + cs;
      DivStep(m, cs);
    } else if size > 0 {
      DivStep(size - 1, cs);
      DivSmall(size - 1, cs);
    } else {
      DivSmall(cs - 1, cs);
    }
  }

  /** What is left of a payload after n passes of the send or receive loop. */
  function AfterPasses(cs: nat, data: seq<byte>, n: nat): seq<byte>
    decreases n
  {
    if n == 0 || data == [] then data else AfterPasses(cs, data[Min(cs, |data|)..], n - 1)
  }

  lemma {:induction false} LoopStep(cs: nat, data: seq<byte>, n: nat)
    ensures cs == 0 ==> AfterPasses(cs, data, n) == data
    ensures cs > 0 && n >= CeilDiv(|data|, cs) ==> AfterPasses(cs, data, n) == []
    decreases n
  {
    if cs == 0 {
    } else {
      CeilStep(|data|, cs);
      CeilStep(0, cs);
    }
    if n == 0 || data == [] {
    } else {
      LoopStep(cs, data[Min(cs, |data|)..], n - 1);
      assert cs == 0 ==> data[0..] == data;
    }
  }

  /** The payload loops end exactly when the chunk size is not 0 or there is nothing to move. */
  lemma LoopEndsIff(cs: nat, data: seq<byte>)
    ensures (exists n: nat :: AfterPasses(cs, data, n) == []) <==> cs > 0 || data == []
  {
    if cs > 0 {
      LoopStep(cs, data, CeilDiv(|data|, cs));
    } else if data == [] {
      assert AfterPasses(cs, data, 0) == [];
    } else {
      forall n: nat
        ensures AfterPasses(cs, data, n) == data
      {
        LoopStep(cs, data, n);
      }
    }
  }

  lemma DivSmall(m: nat, d: nat)
    requires m < d
    ensures m / d == 0
  {
  }

  lemma DivStep(m: nat, d: nat)
    requires d > 0
    ensures (m + d) / d == m / d + 1
  {
    var q, r := m / d, m % d;
    assert m + d == (q + 1) * d + r;
    var q', r' := (m + d) / d, (m + d) % d;
    assert (q' - (q + 1)) * d == r - r' by {
      assert m + d == q' * d + r';
    }
    Multiples(q' - (q + 1), d);
  }

  lemma {:induction false} ContinuationCount(csid: uint32, cs: nat, h: Header, data: seq<byte>)
    requires cs > 0
    ensures |Continuations(csid, cs, h, data)| == CeilDiv(|data|, cs)
  {
    CeilStep(|data|, cs);
    if data == [] {
    } else {
      ContinuationCount(csid, cs, h, data[Min(cs, |data|)..]);
      CeilStep(0, cs);
    }
  }

  lemma CallCount(prev: Header, csid: uint32, cs: nat, p: Packet)
    requires cs > 0
    ensures |MessageChunks(prev, csid, cs, p)| == Calls(cs, SentSize(p))
  {
    var data := p.data[..SentSize(p)];
    CeilStep(|data|, cs);
    CeilStep(0, cs);
    ContinuationCount(csid, cs, HeaderOf(p), data[Min(cs, |data|)..]);
  }
}
