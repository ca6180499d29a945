/** The packet functions of rtmp_protocol.c in their own form: a context whose chunk size and
    counters change in place, reading and writing a socket. */
module PacketContext {
  import opened Bytes
  import opened Sockets
  import opened PacketTransport
  import ChunkEndpoint
  import A = AckWindow
  import P = PacketRuns

  /** Bytes read so far in front of what the loop will still read. */
  ghost function Resume(got: seq<byte>, r: Option<(seq<byte>, seq<byte>)>): Option<(seq<byte>, seq<byte>)> {
    match r
    case None => None
    case Some((data, rest)) => Some((got + data, rest))
  }

  /** What is read in all, when got has been read and n bytes are still to come. */
  ghost predicate Ahead(all: Option<(seq<byte>, seq<byte>)>, got: seq<byte>, cs: nat, n: nat, input: seq<byte>)
    requires cs > 0
  {
    all == Resume(got, ReadPieces(cs, n, input))
  }

  lemma AheadStart(cs: nat, n: nat, input: seq<byte>)
    requires cs > 0
    ensures Ahead(ReadPieces(cs, n, input), [], cs, n, input)
  {
    var all := ReadPieces(cs, n, input);
    if all.Some? {
      assert [] + all.value.0 == all.value.0;
    }
  }

  lemma AheadEnd(all: Option<(seq<byte>, seq<byte>)>, got: seq<byte>, cs: nat, input: seq<byte>)
    requires cs > 0
    ensures Ahead(all, got, cs, 0, input) ==> all == Some((got, input))
  {
    assert got + [] == got;
  }

  lemma ResumeStep(got: seq<byte>, cs: nat, n: nat, input: seq<byte>)
    requires cs > 0 && n > 0
    ensures var k := Min(n, cs);
            var need := k + if n > k then 1 else 0;
            need <= |input| ==>
              Resume(got, ReadPieces(cs, n, input)) == Resume(got + input[..k], ReadPieces(cs, n - k, input[need..]))
  {
    var k := Min(n, cs);
    if n == k <= |input| {
      assert got + input[..k] + [] == got + input[..k];
    } else if k < n && k + 1 <= |input| {
      var r := ReadPieces(cs, n - k, input[k + 1..]);
      if r.Some? {
        assert got + (input[..k] + r.value.0) == (got + input[..k]) + r.value.0;
      }
    }
  }

  /** Counts as the 32-bit values that go out. */
  function Wrapped(counts: seq<nat>): (r: seq<uint32>)
    ensures |r| == |counts| && forall i :: 0 <= i < |r| ==> r[i] == counts[i] % TWO_32
  {
    if counts == [] then [] else Wrapped(counts[..|counts| - 1]) + [counts[|counts| - 1] % TWO_32]
  }

  lemma WrappedSnoc(counts: seq<nat>, n: nat)
    ensures Wrapped(counts + [n]) == Wrapped(counts) + [n % TWO_32]
  {
    assert (counts + [n])[..|counts|] == counts;
  }

  lemma ReadKept(t: A.Track, n: nat, before: seq<uint32>)
    requires t.c.received == t.total % TWO_32
    ensures var t' := A.Next(t, A.Read(n));
            && t'.c == A.AfterRead(t.c, n) && t'.c.received == t'.total % TWO_32
            && before + Wrapped(t'.acks) ==
                 before + Wrapped(t.acks) + if A.Acks(t.c, n) then [t'.c.received] else []
  {
    A.AddMod(t.total, n, TWO_32);
    WrappedSnoc(t.acks, t.total + n);
    var sent := before + Wrapped(t.acks);
    assert sent + [] == sent;
    assert before + (Wrapped(t.acks) + [(t.total + n) % TWO_32]) == sent + [(t.total + n) % TWO_32];
  }

  lemma WindowKept(t: A.Track, p: Packet)
    ensures A.RunFrom(t, P.WindowSet(p)) == t.(c := t.c.(window := WindowAfter(t.c.window, p)))
  {
  }

  class Context {
    var chunkSize: uint32
    var windowAckSize: uint32
    var bytesReceived: uint32
    var lastAckSize: uint32
    /** The values handed to rtmp_send_ack. */
    var acksSent: seq<uint32>

    /** rtmp_create. */
    constructor ()
      ensures chunkSize == 128 && Counters() == A.Counters(0, 0, 2500000) && acksSent == []
    {
      chunkSize, windowAckSize := 128, 2500000;
      bytesReceived, lastAckSize, acksSent := 0, 0, [];
    }

    ghost function Counters(): A.Counters
      reads this
    {
      A.Counters(bytesReceived, lastAckSize, windowAckSize)
    }

    /** rtmp_send_packet: on success the packet's bytes went out, on failure a beginning of them. */
    method SendPacket(p: Packet, sock: Socket) returns (ok: bool)
      requires chunkSize > 0 && WellFormed(p)
      modifies sock`output, sock`cut
      ensures Went(ok, old(sock.output), sock.output, PacketWire(p, chunkSize))
      ensures old(sock.cut) <= sock.cut && (ok <==> sock.cut == old(sock.cut))
    {
      var header := PacketHeader(p);
      ghost var payload := PacketWire(p, chunkSize)[12..];
      assert PacketWire(p, chunkSize) == header + payload;
      ghost var before := sock.output;
      var sent := sock.Send(header);
      PartSent(before, header, header + payload, sent);
      if sent != |header| {
        return false;
      }
      assert before + (header + payload) == sock.output + payload;
      ok := true;
      if p.size > 0 && p.data.Some? {
        ok := ChunkEndpoint.SendPayload(p.mtype % 64, chunkSize, p.data.value, sock);
      } else {
        assert sock.output + payload == sock.output;
      }
    }

    /** rtmp_read_packet: it gives the packet the bytes stand for, counted and acknowledged, exactly
        when no receive comes short; a short one fails the call and leaves the counters alone, while
        the bytes already received are gone. */
    method ReadPacket(stale: Packet, sock: Socket) returns (ok: bool, p: Packet)
      requires chunkSize > 0
      modifies this`bytesReceived, this`lastAckSize, this`acksSent, sock`input, sock`short
      ensures old(sock.short) <= sock.short && Rest(sock.input, old(sock.input))
      ensures ok <==> sock.short == old(sock.short)
      ensures ok ==>
                var r := PacketTransport.ReadPacket(chunkSize, stale, old(sock.input));
                && r.Some? && r.value.0 == p && r.value.1 == sock.input
                && Counters() == A.AfterRead(old(Counters()), r.value.2)
                && acksSent == old(acksSent) + if A.Acks(old(Counters()), r.value.2) then [bytesReceived] else []
      ensures !ok ==> Counters() == old(Counters()) && acksSent == old(acksSent)
    {
      ghost var input := sock.input;
      p := stale;
      var header := ReadHeader(sock);
      if header == [] {
        return false, p;
      }
      var size := |header|;
      assert header == input[..size] && header[0] == input[0];
      p := ParseHeader(stale, header);
      if p.size > 0 {
        var data;
        ok, data := ReadPayload(p.size, sock);
        if !ok {
          return false, p.(data := None);
        }
        p := p.(data := Some(data));
      }
      CountRead(p.size + size);
      ok := true;
    }

    /** The first byte and then the rest of its form; empty when a receive comes short. */
    method ReadHeader(sock: Socket) returns (header: seq<byte>)
      modifies sock`input, sock`short
      ensures old(sock.short) <= sock.short && Rest(sock.input, old(sock.input))
      ensures header != [] <==> sock.short == old(sock.short)
      ensures header != [] ==>
                && |header| == HeaderSize(header[0]) <= |old(sock.input)|
                && header == old(sock.input)[..|header|] && sock.input == old(sock.input)[|header|..]
    {
      ghost var input := sock.input;
      header := sock.Recv(1);
      if |header| != 1 {
        return [];
      }
      var size := HeaderSize(header[0]);
      var more := sock.Recv(size - 1);
      if |more| != size - 1 {
        return [];
      }
      header := header + more;
      assert header == input[..size] && sock.input == input[size..];
    }

    /** The payload loop: fills a new buffer of n bytes. */
    method ReadPayload(n: nat, sock: Socket) returns (ok: bool, data: seq<byte>)
      requires chunkSize > 0 && n > 0
      modifies sock`input, sock`short
      ensures old(sock.short) <= sock.short && Rest(sock.input, old(sock.input))
      ensures ok <==> sock.short == old(sock.short)
      ensures ok ==> ReadPieces(chunkSize, n, old(sock.input)) == Some((data, sock.input))
    {
      var buffer := new byte[n](_ => 0);
      ghost var all := ReadPieces(chunkSize, n, sock.input);
      AheadStart(chunkSize, n, sock.input);
      assert buffer[..0] == [];
      ok := FillBuffer(buffer, sock, all, sock.input);
      data := buffer[..];
      AheadEnd(all, data, chunkSize, sock.input);
    }

    /** The loop itself, on a buffer of the payload's size. */
    method FillBuffer(buffer: array<byte>, sock: Socket, ghost all: Option<(seq<byte>, seq<byte>)>,
                      ghost start: seq<byte>)
      returns (ok: bool)
      requires chunkSize > 0 && sock.input == start && Ahead(all, buffer[..0], chunkSize, buffer.Length, start)
      modifies buffer, sock`input, sock`short
      ensures old(sock.short) <= sock.short && Rest(sock.input, start)
      ensures ok <==> sock.short == old(sock.short)
      ensures ok ==> Ahead(all, buffer[..], chunkSize, 0, sock.input)
    {
      ghost var short := sock.short;
      var pos, remaining := 0, buffer.Length;
      while remaining > 0
        invariant 0 <= pos && 0 <= remaining && pos + remaining == buffer.Length
        invariant sock.short == short && Rest(sock.input, start)
        invariant Ahead(all, buffer[..pos], chunkSize, remaining, sock.input)
      {
        ghost var input := sock.input;
        var read, size := ReadNext(buffer, pos, remaining, sock, all);
        RestThen(sock.input, input, start);
        if !read {
          return false;
        }
        pos := pos + size;
        remaining := remaining - size;
      }
      assert buffer[..pos] == buffer[..];
      ok := true;
    }

    /** One pass of the loop: what is read in all stays the same. */
    method ReadNext(buffer: array<byte>, pos: nat, remaining: nat, sock: Socket,
                    ghost all: Option<(seq<byte>, seq<byte>)>)
      returns (ok: bool, size: nat)
      requires chunkSize > 0 && remaining > 0 && pos + remaining <= buffer.Length
      requires Ahead(all, buffer[..pos], chunkSize, remaining, sock.input)
      modifies buffer, sock`input, sock`short
      ensures old(sock.short) <= sock.short && Rest(sock.input, old(sock.input))
      ensures ok <==> sock.short == old(sock.short)
      ensures size == Min(remaining, chunkSize)
      ensures ok ==> Ahead(all, buffer[..pos + size], chunkSize, remaining - size, sock.input)
    {
      ResumeStep(buffer[..pos], chunkSize, remaining, sock.input);
      size := if remaining > chunkSize then chunkSize else remaining;
      ok := ReadPiece(buffer, pos, size, remaining > size, sock);
    }

    /** A piece at pos, and the byte before the next piece if there is one. */
    method ReadPiece(buffer: array<byte>, pos: nat, size: nat, more: bool, sock: Socket) returns (ok: bool)
      requires pos + size <= buffer.Length
      modifies buffer, sock`input, sock`short
      ensures old(sock.short) <= sock.short && Rest(sock.input, old(sock.input))
      ensures ok <==> sock.short == old(sock.short)
      ensures var need := size + if more then 1 else 0;
              ok ==> need <= |old(sock.input)| && sock.input == old(sock.input)[need..]
      ensures ok ==> buffer[..pos + size] == old(buffer[..pos]) + old(sock.input)[..size]
    {
      var piece := sock.Recv(size);
      if |piece| != size {
        return false;
      }
      forall i | 0 <= i < size {
        buffer[pos + i] := piece[i];
      }
      if more {
        var basic := sock.Recv(1);
        if |basic| != 1 {
          return false;
        }
      }
      return true;
    }

    /** The accounting at the end of a successful read. */
    method CountRead(n: nat)
      modifies this`bytesReceived, this`lastAckSize, this`acksSent
      ensures Counters() == A.AfterRead(old(Counters()), n)
      ensures acksSent == old(acksSent) + if A.Acks(old(Counters()), n) then [bytesReceived] else []
    {
      bytesReceived := (bytesReceived + n) % TWO_32;
      if (bytesReceived - lastAckSize) % TWO_32 >= windowAckSize {
        acksSent := acksSent + [bytesReceived];
        lastAckSize := bytesReceived;
      }
    }

    /** rtmp_handle_packet on the two control messages that change the context. */
    method HandleControl(p: Packet)
      requires p.size >= 4 && p.data.Some? ==> |p.data.value| >= 4
      modifies this`chunkSize, this`windowAckSize
      ensures chunkSize == ChunkSizeAfter(old(chunkSize), p)
      ensures windowAckSize == WindowAfter(old(windowAckSize), p)
      ensures p.size >= 4 && p.data.Some? ==>
                var b := p.data.value;
                var n := 0x100_0000 * b[0] as int + 65536 * b[1] as int + 256 * b[2] as int + b[3] as int;
                && chunkSize == (if p.mtype == 1 then n else old(chunkSize))
                && windowAckSize == (if p.mtype == 5 then n else old(windowAckSize))
    {
      ControlBytes(chunkSize, windowAckSize, p);
      if p.data.None? {
        return;
      }
      if p.mtype == MSG_CHUNK_SIZE {
        if p.size >= 4 {
          chunkSize := ReadBE32(p.data.value);
        }
      } else if p.mtype == MSG_WINDOW_ACK_SIZE {
        if p.size >= 4 {
          windowAckSize := ReadBE32(p.data.value);
        }
      }
    }

    /** rtmp_disconnect, as far as the counters are concerned. */
    method Disconnect()
      modifies this`bytesReceived, this`lastAckSize
      ensures Counters() == A.Restarted(old(Counters()))
    {
      bytesReceived, lastAckSize := 0, 0;
    }

    // ------------------------------------------------------------------ a whole connection

    /** The counters are those of the run, and the acknowledgements sent since `before` its own. */
    ghost predicate Keeps(t: A.Track, before: seq<uint32>)
      reads this
    {
      Counters() == t.c && t.c.received == t.total % TWO_32 && acksSent == before + Wrapped(t.acks)
    }

    /** One packet read and handled. */
    method Receive(stale: Packet, sock: Socket, ghost t: A.Track, ghost before: seq<uint32>)
      returns (ok: bool, p: Packet, ghost t': A.Track)
      requires chunkSize > 0 && Keeps(t, before)
      modifies this, sock`input, sock`short
      ensures old(sock.short) <= sock.short && (ok <==> sock.short == old(sock.short))
      ensures Keeps(t', before) && (!ok ==> t' == t && chunkSize == old(chunkSize))
      ensures ok ==>
                var r := PacketTransport.ReadPacket(old(chunkSize), stale, old(sock.input));
                && r.Some? && r.value.0 == p && r.value.1 == sock.input
                && t' == A.RunFrom(A.Next(t, A.Read(r.value.2)), P.WindowSet(p))
                && chunkSize == ChunkSizeAfter(old(chunkSize), p)
    {
      ghost var input := sock.input;
      ok, p := ReadPacket(stale, sock);
      t' := t;
      if ok {
        ghost var n := PacketTransport.ReadPacket(chunkSize, stale, input).value.2;
        t' := A.Next(t, A.Read(n));
        ReadKept(t, n, before);
        WindowKept(t', p);
        P.DataFits(chunkSize, stale, input);
        HandleControl(p);
        t' := A.RunFrom(t', P.WindowSet(p));
      }
    }

    /** Up to n packets, each handled before the next is read into it, until a read fails or the peer
        has set chunk size 0. */
    method ReceiveAll(n: nat, stale: Packet, sock: Socket, ghost t: A.Track, ghost before: seq<uint32>)
      returns (ghost k: nat, ghost t': A.Track)
      requires Keeps(t, before)
      modifies this, sock`input, sock`short
      ensures k <= n && (sock.short == old(sock.short) ==> k == n)
      ensures t' == A.RunFrom(t, P.Events(old(chunkSize), stale, old(sock.input), k)) && Keeps(t', before)
      ensures old(sock.short) <= sock.short
      decreases n
    {
      k, t' := n, t;
      if n == 0 || chunkSize == 0 {
        return;
      }
      ghost var cs, input := chunkSize, sock.input;
      var ok, p, t1 := Receive(stale, sock, t, before);
      if !ok {
        k, t' := 0, t1;
        return;
      }
      k, t' := ReceiveAll(n - 1, p, sock, t1, before);
      P.EventsStep(t, cs, stale, input, k);
      k := k + 1;
    }

    /** A connection from its first packet to its end: what is counted and acknowledged is the run of
        the packets that were read, and it honours the window as long as the windows the peer sets fit;
        afterwards the context is ready for the next connection. */
    method Connection(n: nat, stale: Packet, sock: Socket) returns (ghost k: nat)
      requires bytesReceived == lastAckSize == 0
      modifies this, sock`input, sock`short
      ensures k <= n && (sock.short == old(sock.short) ==> k == n)
      ensures bytesReceived == lastAckSize == 0
      ensures var events := P.Events(old(chunkSize), stale, old(sock.input), k);
              var t := A.RunFrom(A.Start(old(windowAckSize)), events);
              && windowAckSize == t.c.window && acksSent == old(acksSent) + Wrapped(t.acks)
              && (1 <= old(windowAckSize) <= A.MAX_WINDOW && P.Countable(stale) && P.WindowsFit(events) ==>
                    P.Honours(A.Start(old(windowAckSize)), events) && 1 <= windowAckSize <= A.MAX_WINDOW)
    {
      ghost var start, before := A.Start(windowAckSize), acksSent;
      ghost var cs, input := chunkSize, sock.input;
      ghost var t;
      assert before + Wrapped([]) == before;
      k, t := ReceiveAll(n, stale, sock, start, before);
      ghost var events := P.Events(cs, stale, input, k);
      if 1 <= start.c.window <= A.MAX_WINDOW && P.Countable(stale) && P.WindowsFit(events) {
        P.PacketsHonourWindow(start.c.window, cs, stale, input, k);
        P.EventsAdmissible(cs, stale, input, k);
        A.RunSound(start, events, A.MAX_WINDOW);
      }
      Disconnect();
    }
  }
}
