/** rtmp_send_packet and rtmp_read_packet (rtmp_protocol.c:201-357) on the bytes of a connection.
    The 12-byte header of a packet is always written. */
module PacketTransport {
  import opened Bytes
  import CH = ChunkHeader
  import CS = ChunkStream
  import CT = ChunkTheorems

  /** RTMPPacket: data is absent where the source has a null pointer. */
  datatype Packet = Packet(mtype: byte, timestamp: uint32, streamId: uint32, size: nat, data: Option<seq<byte>>)

  predicate WellFormed(p: Packet) {
    p.data.Some? ==> |p.data.value| == p.size
  }

  const MSG_CHUNK_SIZE: byte := 1
  const MSG_WINDOW_ACK_SIZE: byte := 5

  // ------------------------------------------------------------------------ sending

  /** Type 0 in six bits of chunk stream id, then the type 0 message header. */
  function PacketHeader(p: Packet): (b: seq<byte>)
    ensures |b| == 12
  {
    [p.mtype % 64] + CH.EncodeFields(CH.Header(p.timestamp, p.size % TWO_32, p.mtype, p.streamId), 0)
  }

  function PacketWire(p: Packet, cs: nat): seq<byte>
    requires cs > 0
  {
    PacketHeader(p) +
    if p.size > 0 && p.data.Some? then CS.PayloadWire(p.mtype % 64, cs, p.data.value) else []
  }

  // ------------------------------------------------------------------------ reading

  /** The read loop: n payload bytes in pieces of at most cs, one byte dropped between pieces. */
  function ReadPieces(cs: nat, n: nat, input: seq<byte>): Option<(seq<byte>, seq<byte>)>
    requires cs > 0
    decreases n
  {
    if n == 0 then Some(([], input))
    else
      var k := Min(n, cs);
      if |input| < k then None
      else if n == k then Some((input[..k], input[k..]))
      else if |input| < k + 1 then None
      else
        match ReadPieces(cs, n - k, input[k + 1..])
        case None => None
        case Some((data, rest)) => Some((input[..k] + data, rest))
  }

  function HeaderSize(first: byte): nat {
    1 + CH.FieldsSize(first / 64)
  }

  /** Only type 0 headers fill the packet; the other forms leave the caller's fields standing. */
  function ParseHeader(stale: Packet, header: seq<byte>): Packet
    requires |header| >= 1 && |header| == HeaderSize(header[0])
  {
    if header[0] / 64 == 0 then
      var h := CH.ParseFields(0, header[1..12], CH.ZERO_HEADER);
      Packet(h.mtype, h.timestamp, h.streamId, h.length, stale.data)
    else
      stale.(mtype := header[0] % 64)
  }

  /** The packet, the unread input and the number of bytes counted; None is a short read. */
  function ReadPacket(cs: nat, stale: Packet, input: seq<byte>): Option<(Packet, seq<byte>, nat)>
    requires cs > 0
  {
    if |input| < 1 || |input| < HeaderSize(input[0]) then None
    else
      var n := HeaderSize(input[0]);
      var p := ParseHeader(stale, input[..n]);
      if p.size == 0 then Some((p, input[n..], n))
      else
        match ReadPieces(cs, p.size, input[n..])
        case None => None
        case Some((data, rest)) => Some((p.(data := Some(data)), rest, p.size + n))
  }

  // --------------------------------------------------------------------- round trip

  predicate PiecesAre(cs: nat, n: nat, input: seq<byte>, data: seq<byte>, rest: seq<byte>)
    requires cs > 0
  {
    ReadPieces(cs, n, input) == Some((data, rest))
  }

  lemma LastPiece(cs: nat, data: seq<byte>, tail: seq<byte>)
    requires |data| <= cs && cs > 0
    ensures PiecesAre(cs, |data|, data + tail, data, tail)
  {
    assert (data + tail)[..|data|] == data && (data + tail)[|data|..] == tail;
  }

  lemma PieceCons(cs: nat, n: nat, front: seq<byte>, basic: byte, input: seq<byte>, data: seq<byte>, tail: seq<byte>)
    requires n > cs == |front| && cs > 0 && PiecesAre(cs, n - cs, input, data, tail)
    ensures PiecesAre(cs, n, front + ([basic] + input), front + data, tail)
  {
    var all := front + ([basic] + input);
    assert all[..cs] == front && all[cs + 1..] == input;
  }

  lemma {:induction false} PiecesRoundTrip(csid: uint32, cs: nat, data: seq<byte>, tail: seq<byte>)
    requires cs > 0 && csid < 64
    ensures PiecesAre(cs, |data|, CS.PayloadWire(csid, cs, data) + tail, data, tail)
    decreases |data|
  {
    if |data| <= cs {
      LastPiece(cs, data, tail);
    } else {
      var front, more, basic := data[..cs], data[cs..], CH.EncodeBasic(3, csid);
      var rest := CS.PayloadWire(csid, cs, more);
      PiecesRoundTrip(csid, cs, more, tail);
      PieceCons(cs, |data|, front, basic[0], rest + tail, more, tail);
      assert front + more == data && basic == [basic[0]];
      assert front + basic + rest + tail == front + (basic + (rest + tail));
    }
  }

  /** The fields of the packet and, when it has a size, its payload: with size 0 the caller's data
      pointer is left standing. */
  ghost predicate Same(q: Packet, p: Packet) {
    q.(data := p.data) == p && (p.size > 0 ==> q.data == p.data)
  }

  ghost predicate Restores(r: Option<(Packet, seq<byte>, nat)>, p: Packet, tail: seq<byte>) {
    r.Some? && r.value.1 == tail && Same(r.value.0, p)
  }

  /** The 24-bit fields fit, and a packet with a size has data. */
  predicate Fits(p: Packet) {
    p.timestamp < TWO_24 && p.size < TWO_24 && (p.size > 0 ==> p.data.Some?)
  }

  lemma HeaderRoundTrip(p: Packet, stale: Packet, tail: seq<byte>)
    ensures var input := PacketHeader(p) + tail;
            && HeaderSize(input[0]) == 12
            && input[12..] == tail
            && ParseHeader(stale, input[..12])
            == Packet(p.mtype, p.timestamp % TWO_24, p.streamId, p.size % TWO_24, stale.data)
  {
    var h := CH.Header(p.timestamp, p.size % TWO_32, p.mtype, p.streamId);
    HeaderSlices(p.mtype % 64, CH.EncodeFields(h, 0), tail);
    FieldsRestored(h);
    ModMod(p.size);
  }

  lemma ModMod(n: nat)
    ensures n % TWO_32 % TWO_24 == n % TWO_24
  {
    var r := n % TWO_32;
    assert n == TWO_24 * (256 * (n / TWO_32) + r / TWO_24) + r % TWO_24;
  }

  lemma HeaderSlices(first: byte, fields: seq<byte>, tail: seq<byte>)
    requires |fields| == 11
    ensures var input := [first] + fields + tail;
            input[0] == first && input[..12][0] == first && input[..12][1..12] == fields && input[12..] == tail
  {
  }

  lemma FieldsRestored(h: CH.Header)
    ensures CH.ParseFields(0, CH.EncodeFields(h, 0), CH.ZERO_HEADER)
         == CH.Header(h.timestamp % TWO_24, h.length % TWO_24, h.mtype, h.streamId)
  {
    CH.FieldSlices(h, 0);
    Read24OfWrite(h.timestamp);
    Read24OfWrite(h.length);
    ReadLE32OfWrite(h.streamId);
  }

  /** What is read at the place of a packet can only be that packet when it fits. */
  lemma SameNeedsFit(p: Packet, cs: nat, stale: Packet, tail: seq<byte>)
    requires cs > 0 && WellFormed(p)
    ensures var r := ReadPacket(cs, stale, PacketWire(p, cs) + tail);
            r.Some? && Same(r.value.0, p) ==> Fits(p)
  {
    var payload := PacketWire(p, cs)[12..];
    assert PacketWire(p, cs) + tail == PacketHeader(p) + (payload + tail);
    HeaderRoundTrip(p, stale, payload + tail);
  }

  /** With equal chunk sizes a packet is restored, whatever follows it and whatever the caller's
      packet held, exactly when its timestamp and its size fit in 24 bits and it has the data its
      size promises. */
  lemma PacketRestoredIff(p: Packet, cs: nat, stale: Packet, tail: seq<byte>)
    requires cs > 0 && WellFormed(p)
    ensures Restores(ReadPacket(cs, stale, PacketWire(p, cs) + tail), p, tail) <==> Fits(p)
    ensures Fits(p) ==> ReadPacket(cs, stale, PacketWire(p, cs) + tail).value.2 == 12 + p.size
  {
    SameNeedsFit(p, cs, stale, tail);
    if Fits(p) {
      FitIsRestored(p, cs, stale, tail);
    }
  }

  lemma FitIsRestored(p: Packet, cs: nat, stale: Packet, tail: seq<byte>)
    requires cs > 0 && WellFormed(p) && Fits(p)
    ensures ReadPacket(cs, stale, PacketWire(p, cs) + tail)
         == Some((if p.size > 0 then p else p.(data := stale.data), tail, 12 + p.size))
  {
    var q := p.(data := stale.data);
    if p.size > 0 {
      var payload := CS.PayloadWire(p.mtype % 64, cs, p.data.value);
      Regroup(PacketHeader(p), payload, tail);
      FitHeader(p, stale, payload + tail);
      PiecesRoundTrip(p.mtype % 64, cs, p.data.value, tail);
      ReadParts(cs, stale, PacketHeader(p) + (payload + tail), q, payload + tail);
    } else {
      Regroup(PacketHeader(p), [], tail);
      assert [] + tail == tail;
      FitHeader(p, stale, tail);
      ReadParts(cs, stale, PacketHeader(p) + tail, q, tail);
    }
  }

  lemma FitHeader(p: Packet, stale: Packet, rest: seq<byte>)
    requires Fits(p)
    ensures var input := PacketHeader(p) + rest;
            && HeaderSize(input[0]) == 12 && input[12..] == rest
            && ParseHeader(stale, input[..12]) == p.(data := stale.data)
  {
    HeaderRoundTrip(p, stale, rest);
  }

  lemma Regroup(a: seq<byte>, b: seq<byte>, c: seq<byte>)
    ensures a + b + c == a + (b + c)
  {
  }

  lemma ReadParts(cs: nat, stale: Packet, input: seq<byte>, q: Packet, rest: seq<byte>)
    requires cs > 0 && |input| >= 12 && HeaderSize(input[0]) == 12
    requires ParseHeader(stale, input[..12]) == q && input[12..] == rest
    ensures q.size == 0 ==> ReadPacket(cs, stale, input) == Some((q, rest, 12))
    ensures q.size > 0 && ReadPieces(cs, q.size, rest).Some? ==>
              var (data, left) := ReadPieces(cs, q.size, rest).value;
              ReadPacket(cs, stale, input) == Some((q.(data := Some(data)), left, q.size + 12))
  {
  }

  /** 12 header bytes, the payload, and one byte before every piece but the first. */
  lemma {:induction false} PayloadLength(csid: uint32, cs: nat, data: seq<byte>)
    requires cs > 0 && csid < 64 && data != []
    ensures |CS.PayloadWire(csid, cs, data)| == |data| + CeilDiv(|data|, cs) - 1
    decreases |data|
  {
    CS.CeilStep(|data|, cs);
    if |data| > cs {
      PayloadLength(csid, cs, data[cs..]);
    }
  }

  lemma WireLength(p: Packet, cs: nat)
    requires cs > 0 && WellFormed(p)
    ensures |PacketWire(p, cs)| ==
            if p.size > 0 && p.data.Some? then 12 + p.size + CeilDiv(p.size, cs) - 1 else 12
  {
    if p.size > 0 && p.data.Some? {
      PayloadLength(p.mtype % 64, cs, p.data.value);
    }
  }

  /** A header of types 1 to 3, whatever its fields: the type is the low six bits of its first byte, and
      size, timestamp and stream are those the caller's packet came with. */
  lemma ShortHeaderRead(form: nat, mtype: byte, fields: seq<byte>, stale: Packet, cs: nat, data: seq<byte>,
                        csid: uint32, tail: seq<byte>)
    requires 1 <= form <= 3 && mtype < 64 && csid < 64 && cs > 0 && stale.size == |data|
    requires |fields| == if form == 1 then 7 else if form == 2 then 3 else 0
    ensures var input := [64 * form + mtype] + fields + (CS.PayloadWire(csid, cs, data) + tail);
            ReadPacket(cs, stale, input) ==
              Some((stale.(mtype := mtype, data := if data == [] then stale.data else Some(data)), tail,
                    1 + |fields| + |data|))
  {
    var first: byte := 64 * form + mtype;
    var rest := CS.PayloadWire(csid, cs, data) + tail;
    var input := [first] + fields + rest;
    assert first / 64 == form && first % 64 == mtype;
    assert |input| >= 1 && input[0] == first && HeaderSize(input[0]) == 1 + |fields|;
    assert input[..1 + |fields|] == [first] + fields && input[1 + |fields|..] == rest;
    if data == [] {
      assert rest == tail;
    } else {
      PiecesRoundTrip(csid, cs, data, tail);
    }
  }

  // ----------------------------------------------- packets as chunks of rtmp_chunk.c

  /** The message that a packet carries. */
  function MessageOf(p: Packet): CS.Packet {
    CS.Packet(p.mtype, p.timestamp, p.streamId, if p.size > 0 && p.data.Some? then p.data.value else [])
  }

  lemma PacketIsMessage(p: Packet, cs: nat)
    requires cs > 0 && WellFormed(p) && Fits(p)
    ensures CS.Sendable(MessageOf(p))
    ensures PacketWire(p, cs) == CS.MessageWire(CH.ZERO_HEADER, p.mtype % 64, cs, MessageOf(p))
  {
    var data, id := MessageOf(p).data, p.mtype % 64;
    assert |data| == p.size && data[..CS.SentSize(MessageOf(p))] == data;
    assert CS.HeaderOf(MessageOf(p)) == CH.Header(p.timestamp, p.size % TWO_32, p.mtype, p.streamId);
    assert CH.EncodeBasic(0, id) == [id];
    if p.size == 0 {
      assert PacketHeader(p) + [] == PacketHeader(p);
    }
  }

  /** What rtmp_send_packet sends, rtmp_chunk_read reads: in every idle context, with as many reads as the
      message has chunks, under the chunk stream id that is the low six bits of the type. */
  lemma PacketReadAsChunks(p: Packet, cs: nat, r: CS.Slots, tail: seq<byte>)
    requires cs > 0 && WellFormed(p) && Fits(p) && p.mtype % 64 >= 2
    requires r[p.mtype % 64].partial.None?
    ensures var run := CS.ReadN(r, cs, PacketWire(p, cs) + tail, CS.Calls(cs, p.size));
            && run.ok && run.rest == tail && run.delivered == [(p.mtype % 64, MessageOf(p))]
            && CT.TookIn(r, run.slots, p.mtype % 64, MessageOf(p))
  {
    PacketIsMessage(p, cs);
    CT.FirstMessageDelivered(CH.ZERO_HEADER, r, cs, p.mtype % 64, MessageOf(p), tail);
  }

  ghost predicate ReadAsChunks(p: Packet, cs: nat, tail: seq<byte>, n: nat)
    requires cs > 0
  {
    var run := CS.ReadN(CS.FreshSlots(), cs, PacketWire(p, cs) + tail, n);
    run.ok && run.rest == tail && run.delivered == [(p.mtype % 64, MessageOf(p))]
  }

  /** A fresh chunk reader gets exactly the packet and its chunk stream id, for some number of reads, if
      and only if the packet fits and its type is not 0 or 1 modulo 64: of those the first byte announces
      a longer basic header. */
  lemma ReadAsChunksIff(p: Packet, cs: nat, tail: seq<byte>)
    requires cs > 0 && WellFormed(p) && (p.size > 0 ==> p.data.Some?)
    ensures PacketWire(p, cs)[0] == p.mtype % 64
    ensures (exists n: nat :: ReadAsChunks(p, cs, tail, n)) <==> Fits(p) && p.mtype % 64 >= 2
  {
    if Fits(p) && p.mtype % 64 >= 2 {
      PacketReadAsChunks(p, cs, CS.FreshSlots(), tail);
      assert ReadAsChunks(p, cs, tail, CS.Calls(cs, p.size));
    }
    if n: nat :| ReadAsChunks(p, cs, tail, n) {
      var input := PacketWire(p, cs) + tail;
      CS.ReaderNamesLegalIds(cs);
      CS.DeliversLegalIds(CS.ChunkReader(cs), CS.FreshSlots(), input, n);
      CS.ChunkReaderSafe(cs);
      CS.ReadWithSafe(CS.ChunkReader(cs), CS.FreshSlots(), input, n);
      var run := CS.ReadN(CS.FreshSlots(), cs, input, n);
      assert run.delivered[0] == (p.mtype % 64, MessageOf(p));
    }
  }

  // ------------------------------------------------------------ unequal chunk sizes

  function PacketOf(mtype: byte, streamId: uint32, data: seq<byte>): Packet {
    Packet(mtype, 0, streamId, |data|, Some(data))
  }

  /** Every payload of n bytes survives between a writer with chunk size cs and a reader with cr. */
  ghost predicate SizesAgree(mtype: byte, n: nat, cs: nat, cr: nat)
    requires cs > 0 && cr > 0
  {
    forall data: seq<byte> :: |data| == n ==>
      var p := PacketOf(mtype, 0, data);
      Restores(ReadPacket(cr, PacketOf(0, 0, []), PacketWire(p, cs)), p, [])
  }

  /** A payload that shows the difference: a single 1 at index m. */
  function Probe(n: nat, m: nat): (data: seq<byte>)
    ensures |data| == n && forall i :: 0 <= i < n ==> data[i] == if i == m then 1 else 0
  {
    seq(n, i => if i == m then 1 else 0)
  }

  /** The two ends need the same chunk size exactly for payloads longer than the smaller one. */
  lemma SizesAgreeIff(mtype: byte, n: nat, cs: nat, cr: nat)
    requires cs > 0 && cr > 0 && n < TWO_24
    ensures SizesAgree(mtype, n, cs, cr) <==> cs == cr || n <= Min(cs, cr)
  {
    var stale := PacketOf(0, 0, []);
    if cs == cr || n <= Min(cs, cr) {
      forall data: seq<byte> | |data| == n
        ensures Restores(ReadPacket(cr, stale, PacketWire(PacketOf(mtype, 0, data), cs)), PacketOf(mtype, 0, data), [])
      {
        var p := PacketOf(mtype, 0, data);
        PacketRestoredIff(p, cr, stale, []);
        assert PacketWire(p, cs) == PacketWire(p, cr) == PacketWire(p, cr) + [];
      }
    } else {
      var m := Min(cs, cr);
      var data := Probe(n, m);
      var p := PacketOf(mtype, 0, data);
      ProbeFails(mtype % 64, data, m, cs, cr);
      var payload := CS.PayloadWire(mtype % 64, cs, data);
      assert PacketWire(p, cs) == PacketHeader(p) + payload;
      HeaderRoundTrip(p, stale, payload);
      assert !Restores(ReadPacket(cr, stale, PacketWire(p, cs)), p, []);
    }
  }

  lemma ProbeFails(csid: uint32, data: seq<byte>, m: nat, cs: nat, cr: nat)
    requires csid < 64 && cs > 0 && cr > 0 && cs != cr && m == Min(cs, cr) < |data|
    requires forall i :: 0 <= i < |data| ==> data[i] == if i == m then 1 else 0
    ensures var r := ReadPieces(cr, |data|, CS.PayloadWire(csid, cs, data));
            r.Some? ==> r.value.0 != data
  {
    var wire := CS.PayloadWire(csid, cs, data);
    var n := |data|;
    var r := ReadPieces(cr, n, wire);
    if cs < cr {
      assert wire[cs] == 192 + csid;
      if r.Some? {
        assert r.value.0[cs] == wire[cs];
      }
    } else {
      if r.Some? && n > cr {
        var more := ReadPieces(cr, n - cr, wire[cr + 1..]);
        FirstPiece(cr, n - cr, wire[cr + 1..]);
        assert r.value.0[cr] == more.value.0[0] == wire[cr + 1];
      }
    }
  }

  lemma FirstPiece(cs: nat, n: nat, input: seq<byte>)
    requires cs > 0 && n > 0 && ReadPieces(cs, n, input).Some?
    ensures |input| > 0 && |ReadPieces(cs, n, input).value.0| > 0 && ReadPieces(cs, n, input).value.0[0] == input[0]
  {
  }

  // --------------------------------------------------- streams with control messages

  function ReadBE32(b: seq<byte>): uint32
    requires |b| >= 4
  {
    BigEndianBound(b[..4]);
    Widths();
    FromBigEndian(b[..4])
  }

  /** rtmp_handle_packet on a Set Chunk Size message: all 32 bits are taken. */
  function ChunkSizeAfter(cs: nat, p: Packet): nat {
    if p.mtype == MSG_CHUNK_SIZE && Carries32(p) then ReadBE32(p.data.value) else cs
  }

  function WindowAfter(w: uint32, p: Packet): uint32 {
    if p.mtype == MSG_WINDOW_ACK_SIZE && Carries32(p) then ReadBE32(p.data.value) else w
  }

  predicate Carries32(p: Packet) {
    p.size >= 4 && p.data.Some? && |p.data.value| >= 4
  }

  /** On the four bytes of the field: types 1 and 5 set chunk size and window to the big-endian number
      they carry, and nothing else sets either. */
  lemma ControlBytes(cs: nat, w: uint32, p: Packet)
    ensures var full := p.size >= 4 && p.data.Some? && |p.data.value| >= 4;
            && (!(full && p.mtype == 1) ==> ChunkSizeAfter(cs, p) == cs)
            && (!(full && p.mtype == 5) ==> WindowAfter(w, p) == w)
            && (full ==>
                  var b := p.data.value;
                  var n := 0x100_0000 * b[0] as int + 65536 * b[1] as int + 256 * b[2] as int + b[3] as int;
                  (p.mtype == 1 ==> ChunkSizeAfter(cs, p) == n) && (p.mtype == 5 ==> WindowAfter(w, p) == n))
  {
    if Carries32(p) {
      FourBigEndian(p.data.value[..4]);
    }
  }

  lemma FourBigEndian(b: seq<byte>)
    requires |b| == 4
    ensures FromBigEndian(b) == 0x100_0000 * b[0] as int + 65536 * b[1] as int + 256 * b[2] as int + b[3] as int
  {
    assert b[..3][..2] == b[..2] && b[..2][..1] == b[..1] && b[..1][..0] == [];
    assert FromBigEndian(b[..1]) == b[0];
    assert FromBigEndian(b[..2]) == FromBigEndian(b[..1]) * 256 + b[1];
    assert FromBigEndian(b[..3]) == FromBigEndian(b[..2]) * 256 + b[2];
  }

  /** Every packet fits, and none but the last sets the chunk size to 0. */
  ghost predicate Deliverable(cs: nat, packets: seq<Packet>)
    decreases |packets|
  {
    packets == [] || (cs > 0 && Fits(packets[0]) && Deliverable(ChunkSizeAfter(cs, packets[0]), packets[1..]))
  }

  /** A sender that applies its own Set Chunk Size messages once they are sent. With chunk size 0
      its loop does not end, and nothing that follows goes out. */
  function StreamWire(cs: nat, packets: seq<Packet>): seq<byte>
    decreases |packets|
  {
    if cs == 0 || packets == [] then []
    else PacketWire(packets[0], cs) + StreamWire(ChunkSizeAfter(cs, packets[0]), packets[1..])
  }

  /** n times rtmp_read_packet into the same packet, each followed by rtmp_handle_packet. */
  function ReadStream(cs: nat, stale: Packet, input: seq<byte>, n: nat): Option<(seq<Packet>, seq<byte>)>
    decreases n
  {
    if n == 0 then Some(([], input))
    else if cs == 0 then None
    else
      match ReadPacket(cs, stale, input)
      case None => None
      case Some((p, rest, _)) =>
        match ReadStream(ChunkSizeAfter(cs, p), p, rest, n - 1)
        case None => None
        case Some((ps, rest')) => Some(([p] + ps, rest'))
  }

  ghost predicate AllSame(qs: seq<Packet>, ps: seq<Packet>) {
    |qs| == |ps| && forall i :: 0 <= i < |ps| ==> Same(qs[i], ps[i])
  }

  ghost predicate StreamRestored(r: Option<(seq<Packet>, seq<byte>)>, packets: seq<Packet>, tail: seq<byte>) {
    r.Some? && r.value.1 == tail && AllSame(r.value.0, packets)
  }

  /** A reader that handles each packet before reading the next gets the whole stream back, through
      every change of the chunk size, exactly when every packet fits and no chunk size message but
      possibly the last packet sets 0. */
  lemma {:induction false} StreamRoundTripIff(cs: nat, packets: seq<Packet>, stale: Packet, tail: seq<byte>)
    requires forall i :: 0 <= i < |packets| ==> WellFormed(packets[i])
    ensures StreamRestored(ReadStream(cs, stale, StreamWire(cs, packets) + tail, |packets|), packets, tail)
        <==> Deliverable(cs, packets)
    decreases |packets|
  {
    if packets == [] {
      assert StreamWire(cs, packets) + tail == tail;
    } else if cs > 0 {
      var p, more := packets[0], packets[1..];
      var rest := StreamWire(ChunkSizeAfter(cs, p), more) + tail;
      var input := StreamWire(cs, packets) + tail;
      assert input == PacketWire(p, cs) + rest;
      PacketRestoredIff(p, cs, stale, rest);
      SameNeedsFit(p, cs, stale, rest);
      if Fits(p) {
        var q := ReadPacket(cs, stale, input).value.0;
        StreamRoundTripIff(ChunkSizeAfter(cs, p), more, q, tail);
        StreamStep(cs, stale, input, q, rest, |more|);
        FirstSame(q, ReadStream(ChunkSizeAfter(cs, p), q, rest, |more|), packets, tail);
      } else {
        FirstDiffers(cs, stale, input, packets, tail);
      }
    }
  }

  lemma StreamStep(cs: nat, stale: Packet, input: seq<byte>, p: Packet, rest: seq<byte>, n: nat)
    requires cs > 0 && ReadPacket(cs, stale, input).Some?
    requires ReadPacket(cs, stale, input).value.0 == p && ReadPacket(cs, stale, input).value.1 == rest
    ensures ReadStream(cs, stale, input, n + 1) == Joined(p, ReadStream(ChunkSizeAfter(cs, p), p, rest, n))
  {
  }

  function Joined(p: Packet, r: Option<(seq<Packet>, seq<byte>)>): Option<(seq<Packet>, seq<byte>)> {
    match r
    case None => None
    case Some((ps, rest)) => Some(([p] + ps, rest))
  }

  lemma FirstSame(q: Packet, r: Option<(seq<Packet>, seq<byte>)>, packets: seq<Packet>, tail: seq<byte>)
    requires packets != [] && Same(q, packets[0])
    ensures StreamRestored(Joined(q, r), packets, tail) <==> StreamRestored(r, packets[1..], tail)
  {
    if r.Some? {
      var qs, more := r.value.0, packets[1..];
      assert ([q] + qs)[1..] == qs;
      assert forall i :: 0 <= i < |more| ==> more[i] == packets[i + 1];
      assert forall i :: 0 <= i < |qs| ==> ([q] + qs)[i + 1] == qs[i];
      if AllSame([q] + qs, packets) {
        forall i | 0 <= i < |more|
          ensures Same(qs[i], more[i])
        {
          assert Same(([q] + qs)[i + 1], packets[i + 1]);
        }
      }
      if AllSame(qs, more) {
        forall i | 0 <= i < |packets|
          ensures Same(([q] + qs)[i], packets[i])
        {
          if i > 0 {
            assert Same(qs[i - 1], more[i - 1]);
          }
        }
      }
    }
  }

  lemma FirstDiffers(cs: nat, stale: Packet, input: seq<byte>, packets: seq<Packet>, tail: seq<byte>)
    requires cs > 0 && packets != []
    requires var r := ReadPacket(cs, stale, input); r.Some? ==> !Same(r.value.0, packets[0])
    ensures !StreamRestored(ReadStream(cs, stale, input, |packets|), packets, tail)
  {
    var r := ReadPacket(cs, stale, input);
    if r.Some? {
      StreamStep(cs, stale, input, r.value.0, r.value.1, |packets| - 1);
    }
  }
}
