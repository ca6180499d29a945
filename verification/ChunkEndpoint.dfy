/** The chunk endpoint of rtmp_chunk.c in its own form: contexts, reassembly buffers and header
    buffers updated in place, each method proved against the functions of ChunkStream. */
module ChunkEndpoint {
  import opened Bytes
  import opened ChunkHeader
  import S = ChunkStream
  import opened Sockets
  import opened Buffers

  type Slot = S.Slot
  type Packet = S.Packet

  // -------------------------------------------------------------- header in a buffer

  /** write_int24. */
  method PutInt24(buf: array<byte>, pos: nat, v: uint32)
    requires pos + 3 <= buf.Length
    modifies buf
    ensures Placed(buf, pos, BigEndian(v, 3))
  {
    buf[pos] := v / 65536 % 256;
    buf[pos + 1] := v / 256 % 256;
    buf[pos + 2] := v % 256;
    FieldBytes(v);
  }

  /** The message stream id, little endian. */
  method PutStreamId(buf: array<byte>, pos: nat, v: uint32)
    requires pos + 4 <= buf.Length
    modifies buf
    ensures Placed(buf, pos, LittleEndian(v, 4))
  {
    buf[pos] := v % 256;
    buf[pos + 1] := v / 256 % 256;
    buf[pos + 2] := v / 65536 % 256;
    buf[pos + 3] := v / 0x100_0000 % 256;
    FieldBytes(v);
  }

  /** write_basic_header. */
  method PutBasic(buf: array<byte>, fmt: Fmt, csid: uint32) returns (size: nat)
    requires |EncodeBasic(fmt, csid)| <= buf.Length
    modifies buf
    ensures Placed(buf, 0, EncodeBasic(fmt, csid)) && size == |EncodeBasic(fmt, csid)|
  {
    if csid >= 64 {
      if csid >= 320 {
        buf[0] := fmt * 64 + 1;
        buf[1] := (csid - 64) % 256;
        buf[2] := (csid - 64) / 256 % 256;
        size := 3;
      } else {
        buf[0] := fmt * 64;
        buf[1] := (csid - 64) % 256;
        size := 2;
      }
    } else {
      buf[0] := fmt * 64 + csid;
      size := 1;
    }
  }

  /** The switch of rtmp_chunk_write_header. */
  method PutFields(buf: array<byte>, pos: nat, h: Header, fmt: Fmt)
    requires pos + FieldsSize(fmt) <= buf.Length
    modifies buf
    ensures Placed(buf, pos, EncodeFields(h, fmt))
  {
    if fmt <= 2 {
      PutInt24(buf, pos, h.timestamp);
      assert buf[pos..pos + 3] == BigEndian(h.timestamp, 3);
    }
    if fmt <= 1 {
      label T:
      PutInt24(buf, pos + 3, h.length);
      assert buf[pos..pos + 3] == old@T(buf[pos..pos + 3]);
      buf[pos + 6] := h.mtype;
      assert buf[pos..pos + 7] == BigEndian(h.timestamp, 3) + BigEndian(h.length, 3) + [h.mtype];
    }
    if fmt == 0 {
      label L:
      PutStreamId(buf, pos + 7, h.streamId);
      assert buf[pos..pos + 7] == old@L(buf[pos..pos + 7]);
      assert buf[pos..pos + 11] == buf[pos..pos + 7] + buf[pos + 7..pos + 11];
    }
  }

  /** rtmp_chunk_write_header: the header fills the start of buf; 0 when it does not fit. */
  method WriteHeader(buf: array<byte>, h: Header, fmt: Fmt, csid: uint32) returns (size: nat)
    modifies buf
    ensures size == if buf.Length < |EncodeBasic(fmt, csid)| + FieldsSize(fmt) then 0
                    else |EncodeBasic(fmt, csid)| + FieldsSize(fmt)
    ensures size > 0 ==> Placed(buf, 0, EncodeBasic(fmt, csid) + EncodeFields(h, fmt))
    ensures size == 0 ==> buf[..] == old(buf[..])
  {
    if buf.Length < |EncodeBasic(fmt, csid)| + FieldsSize(fmt) {
      return 0;
    }
    var n := PutBasic(buf, fmt, csid);
    label B:
    PutFields(buf, n, h, fmt);
    size := n + FieldsSize(fmt);
    assert buf[0..size] == buf[0..n] + buf[n..size];
    assert buf[0..n] == old@B(buf[0..n]);
  }

  // ------------------------------------------------------------------ one context

  class ChunkContext {
    var prev: Header
    var delta: uint32
    var buffer: array?<byte>
    var bytesRead: nat

    ghost predicate Valid()
      reads this, buffer
    {
      if buffer == null then bytesRead == 0 else bytesRead <= buffer.Length
    }

    ghost function View(): Slot
      requires Valid()
      reads this, buffer
    {
      S.Slot(prev, delta, if buffer == null then None else Some(S.Partial(buffer.Length, buffer[..bytesRead])))
    }

    /** rtmp_chunk_context_create. */
    constructor ()
      ensures Valid() && View() == S.EMPTY_SLOT && buffer == null
    {
      prev, delta, buffer, bytesRead := ZERO_HEADER, 0, null, 0;
    }

    /** rtmp_chunk_context_reset: back to the state of a new context. */
    method Reset()
      modifies this
      ensures Valid() && View() == S.EMPTY_SLOT && buffer == null
    {
      prev, delta := ZERO_HEADER, 0;
      buffer, bytesRead := null, 0;
    }

    /** update_chunk_context. */
    method Update(h: Header)
      requires Valid()
      modifies this`prev, this`delta
      ensures Valid() && View() == S.Remember(old(View()), h)
    {
      delta := (h.timestamp - prev.timestamp) % TWO_32;
      prev := h;
    }

    /** A context without a message starts one, with a buffer of the announced length. */
    method Open(h: Header)
      requires Valid()
      modifies this`buffer, this`bytesRead
      ensures Valid() && buffer != null && (buffer == old(buffer) || fresh(buffer))
      ensures View() == S.Opened(old(View()), h)
    {
      if buffer == null {
        buffer := new byte[h.length];
        bytesRead := 0;
      }
    }

    /** The part of rtmp_chunk_read after the header has been parsed. It does what the bytes that
        arrived make it do; when they are all that were asked for, that is what the input stands for. */
    method ReadPayload(csid: uint32, cs: nat, h: Header, sock: Socket) returns (out: S.Outcome, ghost data: seq<byte>)
      requires Valid()
      modifies this, buffer, sock`input, sock`short
      ensures Valid()
      ensures buffer == null || buffer == old(buffer) || fresh(buffer)
      ensures old(sock.input) == data + sock.input
      ensures (View(), [], out) == S.ReadPayload(old(View()), csid, cs, h, data)
      ensures var size := S.Want(S.PartialOf(old(View()), h), h, cs);
              |data| <= size && sock.short == old(sock.short) + if |data| < size then 1 else 0
    {
      ghost var before := View();
      Open(h);
      out, data := ReadOpen(csid, cs, h, sock);
      S.OpenedReads(before, csid, cs, h, data);
    }

    method ReadOpen(csid: uint32, cs: nat, h: Header, sock: Socket) returns (out: S.Outcome, ghost data: seq<byte>)
      requires Valid() && buffer != null
      modifies this, buffer, sock`input, sock`short
      ensures Valid() && (buffer == null || buffer == old(buffer))
      ensures old(sock.input) == data + sock.input
      ensures (View(), [], out) == S.ReadPayload(old(View()), csid, cs, h, data)
      ensures var size := S.Want(S.PartialOf(old(View()), h), h, cs);
              |data| <= size && sock.short == old(sock.short) + if |data| < size then 1 else 0
    {
      var remaining := (h.length - bytesRead) % TWO_32;
      var size := if remaining > cs then cs else remaining;
      var arrived := sock.Recv(size);
      data := arrived;
      assert data[|data|..] == [] && data[..|data|] == data;
      if bytesRead + |arrived| > buffer.Length {
        return S.Overrun, data;
      }
      if |arrived| != size {
        return S.Failed, data;
      }
      Store(arrived);
      out := Finish(csid, h);
    }

    /** A complete message leaves the context; in every case the header is remembered. */
    method Finish(csid: uint32, h: Header) returns (out: S.Outcome)
      requires Valid() && buffer != null
      modifies this
      ensures Valid() && (buffer == null || buffer == old(buffer))
      ensures var got := old(buffer[..bytesRead]);
              if |got| >= h.length then
                && View() == S.Remember(old(View()).(partial := None), h)
                && out == S.Done(csid, S.Packet(h.mtype, h.timestamp, h.streamId, got[..h.length]))
              else View() == S.Remember(old(View()), h) && out == S.More(csid)
    {
      if bytesRead >= h.length {
        assert buffer[..h.length] == buffer[..bytesRead][..h.length];
        out := S.Done(csid, S.Packet(h.mtype, h.timestamp, h.streamId, buffer[..h.length]));
        bytesRead := 0;
        buffer := null;
      } else {
        out := S.More(csid);
      }
      Update(h);
    }

    /** The bytes received go to the buffer behind those already there. */
    method Store(data: seq<byte>)
      requires buffer != null && bytesRead + |data| <= buffer.Length
      modifies this`bytesRead, buffer
      ensures bytesRead == old(bytesRead) + |data|
      ensures buffer[..bytesRead] == old(buffer[..bytesRead]) + data
    {
      forall i | 0 <= i < |data| {
        buffer[bytesRead + i] := data[i];
      }
      bytesRead := bytesRead + |data|;
      assert buffer[..old(bytesRead)] == old(buffer[..bytesRead]);
      assert buffer[..bytesRead] == buffer[..old(bytesRead)] + buffer[old(bytesRead)..bytesRead];
    }
  }

  // ----------------------------------------------------------------- payload loop

  /** The payload loop of rtmp_chunk_write and of rtmp_send_packet. */
  method SendPayload(csid: uint32, cs: nat, payload: seq<byte>, sock: Socket) returns (ok: bool)
    requires cs > 0
    modifies sock`output, sock`cut
    ensures Went(ok, old(sock.output), sock.output, S.PayloadWire(csid, cs, payload))
    ensures old(sock.cut) <= sock.cut && (ok <==> sock.cut == old(sock.cut))
  {
    var data, remaining := payload, |payload|;
    ghost var target := sock.output + S.PayloadWire(csid, cs, payload);
    while remaining > 0
      invariant remaining == |data| && sock.cut == old(sock.cut)
      invariant old(sock.output) <= sock.output
      invariant sock.output + S.PayloadWire(csid, cs, data) == target
    {
      var size := if remaining > cs then cs else remaining;
      ok := SendPiece(csid, cs, data, size, sock);
      if !ok {
        return;
      }
      data := data[size..];
      remaining := remaining - size;
    }
    return true;
  }

  /** One pass of the payload loop: a piece, and a continuation header when more follows. */
  method SendPiece(csid: uint32, cs: nat, data: seq<byte>, size: nat, sock: Socket) returns (ok: bool)
    requires cs > 0 && data != [] && size == Min(cs, |data|)
    modifies sock`output, sock`cut
    ensures var wire := S.PayloadWire(csid, cs, data);
            && Went(false, old(sock.output), sock.output, wire)
            && (ok ==> sock.output + S.PayloadWire(csid, cs, data[size..]) == old(sock.output) + wire)
    ensures old(sock.cut) <= sock.cut && (ok <==> sock.cut == old(sock.cut))
  {
    ghost var before, wire := sock.output, S.PayloadWire(csid, cs, data);
    ghost var rest := S.PayloadWire(csid, cs, data[size..]);
    var sent := sock.Send(data[..size]);
    PartSent(before, data[..size], wire, sent);
    if sent != size {
      return false;
    }
    if size < |data| {
      var basic := EncodeBasic(3, csid);
      assert wire == data[..size] + (basic + rest);
      assert before + wire == sock.output + (basic + rest);
      ghost var middle := sock.output;
      sent := sock.Send(basic);
      PartSent(middle, basic, basic + rest, sent);
      if sent != |basic| {
        return false;
      }
      assert middle + (basic + rest) == sock.output + rest;
    }
    return true;
  }

  // ------------------------------------------------------------- the whole endpoint

  /** The context in slot i stands for its slot value; it and its buffer belong to slot i alone. */
  ghost predicate ContextValid(c: ChunkContext?, slot: Slot, i: nat, owner: map<object, nat>)
    reads c, if c == null then null else c.buffer
  {
    if c == null then slot == S.EMPTY_SLOT
    else
      && c in owner && owner[c] == i
      && (c.buffer != null ==> c.buffer in owner && owner[c.buffer] == i)
      && c.Valid() && c.View() == slot
  }

  /** What a read does: what the bytes it received make it do. Without a short receive that is what
      the input stands for; with one nothing is delivered and every message is as it was, and the read
      fails unless what did arrive runs past the buffer. */
  ghost predicate ReadResult(short: bool, before: S.Slots, cs: nat, input: seq<byte>,
                             after: S.Slots, left: seq<byte>, out: S.Outcome) {
    && Rest(left, input)
    && (after, [], out) == S.ReadChunk(before, cs, input[..|input| - |left|])
    && if short then (out.Failed? || out.Overrun?) && S.SameMessages(before, after)
       else !out.Failed? && (after, left, out) == S.ReadChunk(before, cs, input)
  }

  /** The payload part of a read completes the read. */
  lemma BodyResult(before: S.Slots, cs: nat, input: seq<byte>, fields: seq<byte>, data: seq<byte>, left: seq<byte>,
                   s: Slot, out: S.Outcome)
    requires ParseBasic(input).Some? && |fields| == FieldsSize(ParseBasic(input).value.0)
    requires ParseBasic(input).value.2 <= |input| && input[ParseBasic(input).value.2..] == fields + (data + left)
    requires var (fmt, csid, n) := ParseBasic(input).value;
             var h := ParseFields(fmt, fields, before[S.SlotOf(csid)].prev);
             var size := S.Want(S.PartialOf(before[S.SlotOf(csid)], h), h, cs);
             |data| <= size && (s, [], out) == S.ReadPayload(before[S.SlotOf(csid)], csid, cs, h, data)
    ensures var (fmt, csid, n) := ParseBasic(input).value;
            var h := ParseFields(fmt, fields, before[S.SlotOf(csid)].prev);
            ReadResult(|data| < S.Want(S.PartialOf(before[S.SlotOf(csid)], h), h, cs), before, cs, input,
                       before[S.SlotOf(csid) := s], left, out)
  {
    var (fmt, csid, n) := ParseBasic(input).value;
    var k := S.SlotOf(csid);
    var h := ParseFields(fmt, fields, before[k].prev);
    Received(input, n, fields, data, left);
    S.ReadChunkParts(before, cs, input[..|input| - |left|], fields, data);
    if |data| == S.Want(S.PartialOf(before[k], h), h, cs) {
      S.PayloadExtends(before[k], csid, cs, h, data, left);
      S.ReadChunkParts(before, cs, input, fields, data + left);
    } else {
      ShortPayload(before, k, csid, cs, h, data);
    }
  }

  /** The bytes a read has received: basic header, message header and payload. */
  lemma Received(input: seq<byte>, n: nat, fields: seq<byte>, data: seq<byte>, left: seq<byte>)
    requires ParseBasic(input).Some? && n == ParseBasic(input).value.2 <= |input|
    requires input[n..] == fields + (data + left)
    ensures Rest(left, input)
    ensures var received := input[..|input| - |left|];
            ParseBasic(received) == ParseBasic(input) && n <= |received| && received[n..] == fields + data
  {
    var received := input[..n] + (fields + data);
    assert input == received + left && received == input[..|input| - |left|];
  }

  lemma ShortPayload(before: S.Slots, k: nat, csid: uint32, cs: nat, h: Header, data: seq<byte>)
    requires k < S.SLOTS && |data| < S.Want(S.PartialOf(before[k], h), h, cs)
    ensures var (s, left, out) := S.ReadPayload(before[k], csid, cs, h, data);
            (out.Failed? || out.Overrun?) && S.SameMessages(before, before[k := s])
  {
    var s := S.ReadPayload(before[k], csid, cs, h, data).0;
    assert s == S.Opened(before[k], h);
  }

  /** A read whose header does not arrive whole. */
  lemma NoHeader(before: S.Slots, cs: nat, input: seq<byte>, left: seq<byte>)
    requires Rest(left, input)
    requires var received := input[..|input| - |left|];
             match ParseBasic(received)
             case None => true
             case Some((fmt, _, n)) => |received| < n + FieldsSize(fmt)
    ensures ReadResult(true, before, cs, input, before, left, S.Failed)
  {
  }

  lemma HeaderShort(input: seq<byte>, n: nat, fields: seq<byte>, left: seq<byte>)
    requires ParseBasic(input).Some? && n == ParseBasic(input).value.2 <= |input|
    requires input[n..] == fields + left && |fields| < FieldsSize(ParseBasic(input).value.0)
    ensures Rest(left, input)
    ensures var received := input[..|input| - |left|];
            ParseBasic(received) == ParseBasic(input) && |received| == n + |fields|
  {
    assert input == input[..n] + fields + left;
  }

  class ChunkState {
    var chunks: array<ChunkContext?>
    var chunkSize: uint32
    ghost var slots: S.Slots
    ghost var owner: map<object, nat>
    ghost var repr: set<object>

    ghost predicate Valid()
      reads this, repr
    {
      && this in repr && chunks in repr
      && owner.Keys <= repr && this !in owner && chunks !in owner
      && chunks.Length == S.SLOTS
      && (forall i :: 0 <= i < S.SLOTS && chunks[i] != null ==>
            chunks[i] in repr && (chunks[i].buffer != null ==> chunks[i].buffer in repr))
      && (forall i :: 0 <= i < S.SLOTS ==> ContextValid(chunks[i], slots[i], i, owner))
    }

    constructor (size: uint32)
      ensures Valid() && fresh(repr) && slots == S.FreshSlots() && chunkSize == size
    {
      chunks := new ChunkContext?[S.SLOTS](_ => null);
      chunkSize := size;
      slots := S.FreshSlots();
      owner := map[];
      new;
      repr := {this, chunks};
    }

    /** rtmp_chunk_set_size. */
    method SetSize(size: uint32)
      requires Valid()
      modifies this`chunkSize
      ensures Valid() && chunkSize == S.Clamp(size) == Min(size, 65536)
    {
      chunkSize := if size > S.MAX_CHUNK_SIZE then S.MAX_CHUNK_SIZE else size;
    }

    /** Get or create the context of a chunk stream; no slot's value changes. */
    method Context(csid: uint32) returns (ctx: ChunkContext)
      requires Valid()
      modifies chunks, this`owner, this`repr
      ensures Valid() && fresh(repr - old(repr)) && old(repr) <= repr
      ensures ctx == chunks[S.SlotOf(csid)] && ctx in repr
    {
      var k := S.SlotOf(csid);
      if chunks[k] == null {
        ctx := new ChunkContext();
        chunks[k] := ctx;
        owner := owner[ctx := k];
        repr := repr + {ctx};
      } else {
        ctx := chunks[k];
      }
    }

    /** The basic header, one byte and then the rest of its form. */
    method ReadBasic(sock: Socket) returns (b: seq<byte>)
      modifies sock`input, sock`short
      ensures old(sock.input) == b + sock.input && old(sock.short) <= sock.short
      ensures if sock.short == old(sock.short)
              then ParseBasic(b).Some? && ParseBasic(old(sock.input)) == ParseBasic(b) && ParseBasic(b).value.2 == |b|
              else ParseBasic(b) == None
    {
      b := sock.Recv(1);
      if |b| == 1 {
        var more := sock.Recv(BasicSize(b[0]) - 1);
        b := b + more;
      }
    }

    /** rtmp_chunk_read, whatever each of its receives gives. */
    method Read(sock: Socket) returns (out: S.Outcome)
      requires Valid() && sock !in repr
      modifies repr, sock`input, sock`short
      ensures Valid() && fresh(repr - old(repr)) && chunkSize == old(chunkSize)
      ensures old(sock.short) <= sock.short
      ensures ReadResult(sock.short > old(sock.short), old(slots), chunkSize, old(sock.input), slots, sock.input, out)
    {
      ghost var input := sock.input;
      var basic := ReadBasic(sock);
      if ParseBasic(basic) == None {
        assert input[..|input| - |sock.input|] == basic;
        NoHeader(slots, chunkSize, input, sock.input);
        return S.Failed;
      }
      var (fmt, csid, n) := ParseBasic(basic).value;
      out := ReadBody(fmt, csid, sock, input, n);
    }

    /** Message header and payload; n bytes of the input have been read. */
    method ReadBody(fmt: Fmt, csid: uint32, sock: Socket, ghost input: seq<byte>, ghost n: nat) returns (out: S.Outcome)
      requires Valid() && sock !in repr && n <= |input| && sock.input == input[n..]
      requires ParseBasic(input) == Some((fmt, csid, n))
      modifies repr, sock`input, sock`short
      ensures Valid() && fresh(repr - old(repr)) && chunkSize == old(chunkSize)
      ensures old(sock.short) <= sock.short
      ensures ReadResult(sock.short > old(sock.short), old(slots), chunkSize, input, slots, sock.input, out)
    {
      ghost var before := slots;
      var ctx := Context(csid);
      ghost var k := S.SlotOf(csid);
      assert ContextValid(chunks[k], slots[k], k, owner);
      var fields := sock.Recv(FieldsSize(fmt));
      if |fields| != FieldsSize(fmt) {
        HeaderShort(input, n, fields, sock.input);
        NoHeader(slots, chunkSize, input, sock.input);
        return S.Failed;
      }
      var h := ParseFields(fmt, fields, ctx.prev);
      ghost var data;
      out, data := ReadInto(ctx, csid, h, sock);
      BodyResult(before, chunkSize, input, fields, data, sock.input, slots[k], out);
    }

    /** Read payload into the context of csid. */
    method ReadInto(ctx: ChunkContext, csid: uint32, h: Header, sock: Socket)
      returns (out: S.Outcome, ghost data: seq<byte>)
      requires Valid() && sock !in repr && ctx == chunks[S.SlotOf(csid)]
      modifies repr, sock`input, sock`short
      ensures Valid() && fresh(repr - old(repr)) && chunkSize == old(chunkSize)
      ensures old(sock.input) == data + sock.input
      ensures var k := S.SlotOf(csid);
              && slots == old(slots)[k := slots[k]]
              && (slots[k], [], out) == S.ReadPayload(old(slots)[k], csid, chunkSize, h, data)
      ensures var size := S.Want(S.PartialOf(old(slots)[S.SlotOf(csid)], h), h, chunkSize);
              |data| <= size && sock.short == old(sock.short) + if |data| < size then 1 else 0
    {
      ghost var k := S.SlotOf(csid);
      assert ContextValid(chunks[k], slots[k], k, owner);
      out, data := ctx.ReadPayload(csid, chunkSize, h, sock);
      Refresh(ctx, k);
    }

    /** The slot of a context that has changed, and its buffer if it is a new one. */
    ghost method Refresh(ctx: ChunkContext, k: nat)
      requires k < S.SLOTS == chunks.Length && chunks[k] == ctx
      requires this in repr && chunks in repr && owner.Keys <= repr && this !in owner && chunks !in owner
      requires forall i :: 0 <= i < S.SLOTS && i != k ==> ContextValid(chunks[i], slots[i], i, owner)
      requires ctx in owner && owner[ctx] == k && ctx.Valid()
      requires ctx.buffer != null && ctx.buffer in owner ==> owner[ctx.buffer] == k
      modifies this`slots, this`owner, this`repr
      ensures Valid() && slots == old(slots)[k := ctx.View()]
      ensures repr == old(repr) + if ctx.buffer == null then {} else {ctx.buffer}
    {
      slots := slots[k := ctx.View()];
      if ctx.buffer != null {
        owner := owner[ctx.buffer := k];
        repr := repr + {ctx.buffer};
      }
    }

    /** rtmp_chunk_write: on success exactly the message's bytes went out and its header is
        remembered; on failure a beginning of them went out and nothing is remembered. */
    method Write(csid: uint32, p: Packet, sock: Socket) returns (ok: bool)
      requires Valid() && sock !in repr && chunkSize > 0
      modifies repr, sock`output, sock`cut
      ensures Valid() && fresh(repr - old(repr)) && chunkSize == old(chunkSize)
      ensures Went(ok, old(sock.output), sock.output,
                   S.MessageWire(old(slots)[S.SlotOf(csid)].prev, csid, chunkSize, p))
      ensures old(sock.cut) <= sock.cut && (ok <==> sock.cut == old(sock.cut))
      ensures slots == if ok then S.AfterWrite(old(slots), csid, p) else old(slots)
    {
      var h := S.HeaderOf(p);
      var ctx := Context(csid);
      assert ContextValid(ctx, slots[S.SlotOf(csid)], S.SlotOf(csid), owner);
      ok := SendMessage(csid, ctx.prev, p, sock);
      if ok {
        Remember(ctx, csid, h);
      }
    }

    /** The header and the payload of a message. */
    method SendMessage(csid: uint32, prev: Header, p: Packet, sock: Socket) returns (ok: bool)
      requires chunkSize > 0
      modifies sock`output, sock`cut
      ensures Went(ok, old(sock.output), sock.output, S.MessageWire(prev, csid, chunkSize, p))
      ensures old(sock.cut) <= sock.cut && (ok <==> sock.cut == old(sock.cut))
    {
      var h := S.HeaderOf(p);
      var fmt := ChooseFmt(h, prev);
      var buf := new byte[16];
      var size := WriteHeader(buf, h, fmt, csid);
      var head := buf[..size];
      assert head == buf[0..size];
      ghost var payload := S.PayloadWire(csid, chunkSize, p.data[..S.SentSize(p)]);
      assert S.MessageWire(prev, csid, chunkSize, p) == head + payload;
      ghost var before := sock.output;
      var sent := sock.Send(head);
      PartSent(before, head, head + payload, sent);
      if sent != |head| {
        return false;
      }
      assert before + (head + payload) == sock.output + payload;
      ok := SendPayload(csid, chunkSize, p.data[..S.SentSize(p)], sock);
    }

    /** update_chunk_context on the context of csid. */
    method Remember(ctx: ChunkContext, csid: uint32, h: Header)
      requires Valid() && ctx == chunks[S.SlotOf(csid)]
      modifies ctx`prev, ctx`delta, this`slots
      ensures Valid()
      ensures slots == old(slots)[S.SlotOf(csid) := S.Remember(old(slots)[S.SlotOf(csid)], h)]
    {
      ghost var k := S.SlotOf(csid);
      assert ContextValid(chunks[k], slots[k], k, owner);
      ctx.Update(h);
      slots := slots[k := ctx.View()];
    }
  }
}
