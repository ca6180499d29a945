/** The wire forms the source really produces where the other modules model its intent, and what the
    readers make of them: the reason each repair is one. */
module AsShipped {
  import opened Bytes
  import CH = ChunkHeader
  import CS = ChunkStream
  import P = PacketTransport
  import A = AmfValue

  // ------------------------------------------------------------------- chunk headers

  /** rtmp_chunk_write sends as many header bytes as the bool result of rtmp_chunk_write_header
      counts: one. The basic header carries the message stream id. */
  function ChunkHeaderSent(h: CH.Header, fmt: CH.Fmt): seq<byte> {
    (CH.EncodeBasic(fmt, h.streamId) + CH.EncodeFields(h, fmt))[..1]
  }

  /** The header goes out whole exactly when it is a repetition on a one-byte id. */
  lemma HeaderSentWholeIff(h: CH.Header, prev: CH.Header)
    ensures var fmt := CH.ChooseFmt(h, prev);
            (ChunkHeaderSent(h, fmt) == CH.EncodeBasic(fmt, h.streamId) + CH.EncodeFields(h, fmt)
             <==> fmt == 3 && h.streamId < 64)
  {
  }

  /** A first message of one chunk is never read back from exactly the bytes that were sent. */
  lemma FirstMessageLost(cs: nat, p: CS.Packet, tail: seq<byte>)
    requires cs > 0 && |p.data| <= cs && |p.data| < TWO_24
    ensures var wire := ChunkHeaderSent(CS.HeaderOf(p), 0) + p.data;
            var (slots, rest, out) := CS.ReadChunk(CS.FreshSlots(), cs, wire + tail);
            !(out.Done? && out.packet == p && rest == tail)
  {
  }

  // ------------------------------------------------------------------------- packets

  /** rtmp_send_packet leaves its header block out: the condition is the constant 0. */
  function PacketSent(p: P.Packet, cs: nat): seq<byte>
    requires cs > 0
  {
    [p.mtype % 64] + P.PacketWire(p, cs)[12..]
  }

  lemma {:induction false} PiecesTake(cs: nat, n: nat, input: seq<byte>)
    requires cs > 0 && n > 0
    ensures var r := P.ReadPieces(cs, n, input);
            r.Some? ==> |r.value.1| + n + CeilDiv(n, cs) - 1 == |input|
    decreases n
  {
    CS.CeilStep(n, cs);
    if n > cs && |input| > cs {
      PiecesTake(cs, n - cs, input[cs + 1..]);
    }
  }

  /** No packet whatever is restored from exactly the bytes that were sent: the reader takes eleven
      more. */
  lemma PacketNeverRestored(p: P.Packet, cs: nat, stale: P.Packet, tail: seq<byte>)
    requires cs > 0 && P.WellFormed(p)
    ensures !P.Restores(P.ReadPacket(cs, stale, PacketSent(p, cs) + tail), p, tail)
  {
    var input := PacketSent(p, cs) + tail;
    var r := P.ReadPacket(cs, stale, input);
    assert P.HeaderSize(input[0]) == 12;
    P.WireLength(p, cs);
    if p.size > 0 && r.Some? && r.value.0.size == p.size {
      PiecesTake(cs, p.size, input[12..]);
    }
  }

  // ---------------------------------------------------------------------------- AMF0

  /** Objects as the shipped primitives write them: names carry a string marker, and the end is
      three zero bytes and the end marker. */
  function Shipped(v: A.Value): seq<byte>
    decreases v
  {
    match v
    case Object(props) => [A.AMF0_OBJECT] + ShippedProps(props) + [0, 0, 0, A.AMF0_OBJECT_END]
    case _ => A.Encode(v)
  }

  function ShippedProps(props: seq<A.Property>): seq<byte>
    decreases props
  {
    if props == [] then []
    else A.Encode(A.Str(props[0].name)) + Shipped(props[0].value) + ShippedProps(props[1..])
  }

  /** An empty object is never read back from exactly its own bytes. */
  lemma EmptyObjectLost(tail: seq<byte>)
    ensures var b := Shipped(A.Object([]));
            A.DecodeValue(b + tail) != Some((A.Object([]), |b|))
  {
    var b := Shipped(A.Object([])) + tail;
    assert b[0] == A.AMF0_OBJECT;
    var rest := b[1..];
    assert rest[0] == 0 && rest[1] == 0 && rest[2] == 0;
    assert rest[..3][2] == 0;
    assert rest[..3] != A.END_MARK;
    assert A.DecodeValue(b) == Some((A.Object(A.DecodeProps(rest).0), 1 + A.DecodeProps(rest).1));
    if A.ReadProperty(rest).Stop? {
      assert A.ReadProperty(rest) == A.Stop(2);
    } else {
      assert |A.DecodeProps(rest).0| > 0;
    }
  }

  /** An object with properties is read back as another value, whatever follows it, unless its first
      name is 514 times the string marker. */
  lemma ObjectGarbled(props: seq<A.Property>, tail: seq<byte>)
    requires props != [] && |A.CStr(props[0].name)| <= A.MAX_STRING
    requires A.CStr(props[0].name) != seq(514, _ => A.AMF0_STRING)
    ensures var r := A.DecodeValue(Shipped(A.Object(props)) + tail);
            r.Some? && r.value.0 != A.Cut(A.Object(props))
  {
    var chars := A.CStr(props[0].name);
    var more := Shipped(props[0].value) + ShippedProps(props[1..]) + [0, 0, 0, A.AMF0_OBJECT_END] + tail;
    var b := Shipped(A.Object(props)) + tail;
    var rest := b[1..];
    MarkedStart(props, tail);
    ShiftedName(chars, more, rest);
    if A.ReadProperty(rest).Read? {
      assert A.DecodeProps(rest).0[0] == A.ReadProperty(rest).p;
      assert A.CutProps(props)[0].name == chars;
    }
  }

  lemma MarkedStart(props: seq<A.Property>, tail: seq<byte>)
    requires props != []
    ensures var more := Shipped(props[0].value) + ShippedProps(props[1..]) + [0, 0, 0, A.AMF0_OBJECT_END] + tail;
            var b := Shipped(A.Object(props)) + tail;
            b[0] == A.AMF0_OBJECT && b[1..] == [A.AMF0_STRING] + A.Counted(A.CStr(props[0].name)) + more
  {
    var name, value, others := A.Encode(A.Str(props[0].name)), Shipped(props[0].value), ShippedProps(props[1..]);
    var end := [0, 0, 0, A.AMF0_OBJECT_END];
    Regroup([A.AMF0_OBJECT], name, value, others, end, tail);
  }

  lemma Regroup(m: seq<byte>, n: seq<byte>, v: seq<byte>, o: seq<byte>, e: seq<byte>, t: seq<byte>)
    ensures m + (n + v + o) + e + t == m + (n + (v + o + e + t))
  {
    var a, b := m + (n + v + o) + e + t, m + (n + (v + o + e + t));
    assert a == m + n + v + o + e + t == b;
  }

  /** The name the decoder takes starts one byte early, so it can only be the written one when all
      its bytes, and the byte before it, are the same. */
  lemma ShiftedName(chars: seq<byte>, more: seq<byte>, rest: seq<byte>)
    requires |chars| <= A.MAX_STRING && chars != seq(514, _ => A.AMF0_STRING)
    requires rest == [A.AMF0_STRING] + A.Counted(chars) + more
    ensures A.ReadProperty(rest).Read? ==> A.ReadProperty(rest).p.name != chars
  {
    var hi, lo := |chars| / 256, |chars| % 256;
    assert BigEndian(|chars|, 2) == BigEndian(hi, 1) + [lo] && BigEndian(hi, 1) == [hi];
    assert rest == [A.AMF0_STRING, hi, lo] + chars + more;
    var n := 512 + hi;
    assert A.ReadBE16(rest) == n;
    if A.ReadProperty(rest).Read? && A.ReadProperty(rest).p.name == chars {
      assert chars == rest[2..2 + n];
      assert hi == 2 && lo == 2;
      AllAlike(chars, rest);
    }
  }

  lemma AllAlike(chars: seq<byte>, rest: seq<byte>)
    requires |chars| == 514 && |rest| >= 517 && rest[2] == A.AMF0_STRING
    requires chars == rest[2..516] == rest[3..517]
    ensures chars == seq(514, _ => A.AMF0_STRING)
  {
    for i := 0 to 514
      invariant forall k :: 0 <= k < i ==> chars[k] == A.AMF0_STRING
    {
      assert chars[i] == rest[2 + i];
      if i > 0 {
        assert rest[3..517][i - 1] == rest[2 + i];
      }
    }
  }
}
