/** The code of the two handshake parties: the client's shared buffer filled, read into and shifted
    in place (rtmp_protocol.c:136-198), and the server's blocks (rtmp_server_integration.c:300-344).
    The client buffer holds the 3073 bytes that are read into it. Exchange runs the two against each
    other, and what they do is a run of the state machine of Handshake. */
module HandshakeCode {
  import opened Bytes
  import opened Sockets
  import H = Handshake

  const RANDOM := H.BLOCK - 8

  /** A block as its sender makes it: time, four zeros, random bytes. */
  function Made(time: seq<byte>, random: seq<byte>): (b: H.Block)
    requires |time| == 4 && |random| == 1528
    ensures b[..4] == time && b[4..8] == [0, 0, 0, 0] && b[8..] == random
  {
    time + [0, 0, 0, 0] + random
  }

  // ------------------------------------------------------------------------- client

  class ClientHandshake {
    const buffer: array<byte>

    constructor ()
      ensures fresh(buffer) && buffer.Length == 3073
    {
      buffer := new byte[H.S0S1S2](_ => 0);
    }

    /** handshake_c0c1; sent bytes of version and C1 went out. */
    method SendC0C1(time: seq<byte>, random: seq<byte>, sock: Socket) returns (ok: bool, ghost sent: nat)
      requires buffer.Length == H.S0S1S2 && |time| == 4 && |random| == RANDOM
      modifies buffer, sock`output, sock`cut
      ensures buffer[..1537] == [3] + Made(time, random)
      ensures sent <= 1537 && ok == (sent == 1537)
      ensures old(sock.cut) <= sock.cut && (ok <==> sock.cut == old(sock.cut))
      ensures sock.output == old(sock.output) + buffer[..sent]
    {
      buffer[0] := H.VERSION;
      forall i | 0 <= i < 4 {
        buffer[1 + i] := time[i];
      }
      forall i | 5 <= i < 9 {
        buffer[i] := 0;
      }
      for i := 9 to H.C0C1
        invariant sock.output == old(sock.output) && sock.cut == old(sock.cut) && buffer[0] == H.VERSION
        invariant forall k :: 0 <= k < 4 ==> buffer[1 + k] == time[k]
        invariant forall k :: 5 <= k < 9 ==> buffer[k] == 0
        invariant forall k :: 9 <= k < i ==> buffer[k] == random[k - 9]
      {
        buffer[i] := random[i - 9];
      }
      assert buffer[..H.C0C1] == [H.VERSION] + Made(time, random);
      var n := sock.Send(buffer[..H.C0C1]);
      ok := n == H.C0C1;
      sent := if n < 0 then 0 else n;
      assert buffer[..H.C0C1][..sent] == buffer[..sent];
    }

    /** handshake_s0s1s2: however the stream fragments, the buffer holds the bytes read, and success
        means that they are all 3073 and start with the version. */
    method ReadS0S1S2(sock: Socket) returns (ok: bool, ghost read: nat)
      requires buffer.Length == H.S0S1S2
      modifies buffer, sock`input, sock`short
      ensures read <= Min(3073, |old(sock.input)|)
      ensures buffer[..read] == old(sock.input)[..read] && sock.input == old(sock.input)[read..]
      ensures ok <==> read == 3073 && buffer[0] == 3
      ensures old(sock.short) <= sock.short && (sock.short == old(sock.short) ==> read == 3073)
    {
      ghost var input := sock.input;
      var bytesRead, remaining := 0, H.S0S1S2;
      while remaining > 0
        invariant 0 <= bytesRead && 0 <= remaining && bytesRead + remaining == H.S0S1S2
        invariant bytesRead <= |input| && sock.input == input[bytesRead..] && old(sock.short) <= sock.short
        invariant buffer[..bytesRead] == input[..bytesRead]
      {
        var b := sock.Recv(remaining);
        if |b| <= 0 {
          return false, bytesRead;
        }
        forall i | 0 <= i < |b| {
          buffer[bytesRead + i] := b[i];
        }
        assert buffer[..bytesRead + |b|] == buffer[..bytesRead] + b;
        assert input[..bytesRead + |b|] == input[..bytesRead] + b;
        bytesRead := bytesRead + |b|;
        remaining := remaining - |b|;
      }
      ok, read := buffer[0] == H.VERSION, bytesRead;
    }

    /** handshake_c2: S1 moves to the front of the buffer and goes back. */
    method SendC2(sock: Socket) returns (ok: bool, ghost sent: nat)
      requires buffer.Length == H.S0S1S2
      modifies buffer, sock`output, sock`cut
      ensures buffer[..1536] == old(buffer[1..1537])
      ensures sent <= 1536 && ok == (sent == 1536)
      ensures old(sock.cut) <= sock.cut && (ok <==> sock.cut == old(sock.cut))
      ensures sock.output == old(sock.output) + old(buffer[1..1537])[..sent]
    {
      forall i | 0 <= i < H.BLOCK {
        buffer[i] := buffer[i + 1];
      }
      var n := sock.Send(buffer[..H.BLOCK]);
      ok := n == H.BLOCK;
      sent := if n < 0 then 0 else n;
    }

    /** The three steps of rtmp_connect: on success the wire carries version, C1 and the echo of the
        S1 that was read; on failure some beginning of the input is gone and a beginning of that wire
        may have gone out. */
    method Run(time: seq<byte>, random: seq<byte>, sock: Socket) returns (ok: bool)
      requires buffer.Length == H.S0S1S2 && |time| == 4 && |random| == RANDOM
      modifies buffer, sock
      ensures Rest(sock.input, old(sock.input)) && old(sock.output) <= sock.output
      ensures old(sock.short) <= sock.short && old(sock.cut) <= sock.cut
      ensures sock.short == old(sock.short) && sock.cut == old(sock.cut) ==>
                |old(sock.input)| >= 3073 && (ok <==> old(sock.input)[0] == 3)
      ensures ok ==>
                && |old(sock.input)| >= 3073 && old(sock.input)[0] == 3
                && sock.input == old(sock.input)[3073..]
                && sock.output == old(sock.output) + ([3] + Made(time, random)) + old(sock.input)[1..1537]
    {
      ghost var n;
      ok, n := SendC0C1(time, random, sock);
      if ok {
        assert buffer[..H.C0C1][..n] == buffer[..n];
        ok := ReadAndEcho(sock);
      }
    }

    /** The last two steps. */
    method ReadAndEcho(sock: Socket) returns (ok: bool)
      requires buffer.Length == H.S0S1S2
      modifies buffer, sock
      ensures Rest(sock.input, old(sock.input)) && old(sock.output) <= sock.output
      ensures old(sock.short) <= sock.short && old(sock.cut) <= sock.cut
      ensures sock.short == old(sock.short) && sock.cut == old(sock.cut) ==>
                |old(sock.input)| >= 3073 && (ok <==> old(sock.input)[0] == 3)
      ensures ok ==>
                && |old(sock.input)| >= 3073 && old(sock.input)[0] == 3
                && sock.input == old(sock.input)[3073..]
                && sock.output == old(sock.output) + old(sock.input)[1..1537]
    {
      ghost var n;
      ok, n := ReadS0S1S2(sock);
      if n == H.S0S1S2 {
        FirstBlockRead(buffer[..], old(sock.input), sock.input);
      }
      if !ok {
        return;
      }
      ghost var s1 := buffer[1..H.C0C1];
      ok, n := SendC2(sock);
      assert s1[..H.BLOCK] == s1;
    }
  }

  lemma FirstBlockRead(buffer: seq<byte>, input: seq<byte>, rest: seq<byte>)
    requires |buffer| == H.S0S1S2 <= |input| && rest == input[H.S0S1S2..]
    requires buffer[..H.S0S1S2] == input[..H.S0S1S2]
    ensures buffer[0] == input[0] && buffer[1..H.C0C1] == input[1..H.C0C1] && Rest(rest, input)
  {
    assert buffer[..H.S0S1S2] == buffer;
    assert input[..H.S0S1S2][1..H.C0C1] == input[1..H.C0C1];
  }

  // ------------------------------------------------------------------------- server

  /** The first receive of rtmp_handshake_process, with its two tests. */
  method ReceiveC0C1(sock: Socket) returns (ok: bool, c0c1: seq<byte>)
    modifies sock`input, sock`short
    ensures |c0c1| <= Min(1537, |old(sock.input)|)
    ensures c0c1 == old(sock.input)[..|c0c1|] && sock.input == old(sock.input)[|c0c1|..]
    ensures ok <==> |c0c1| == 1537 && c0c1[0] == 3
    ensures old(sock.short) <= sock.short && (sock.short == old(sock.short) <==> |c0c1| == 1537)
  {
    c0c1 := sock.Recv(H.C0C1);
    if |c0c1| != H.C0C1 {
      return false, c0c1;
    }
    ok := c0c1[0] == H.VERSION;
  }

  /** Version, S1 and the echo of C1 are put together and sent. */
  method SendS0S1S2(c0c1: seq<byte>, time: seq<byte>, random: seq<byte>, sock: Socket)
    returns (ok: bool, ghost sent: nat)
    requires |c0c1| == H.C0C1 && |time| == 4 && |random| == RANDOM
    modifies sock`output, sock`cut
    ensures sent <= 3073 && ok == (sent == 3073)
    ensures old(sock.cut) <= sock.cut && (ok <==> sock.cut == old(sock.cut))
    ensures sock.output == old(sock.output) + ([3] + Made(time, random) + c0c1[1..])[..sent]
  {
    var reply := new byte[H.S0S1S2](_ => 0);
    reply[0] := H.VERSION;
    forall i | 0 <= i < 4 {
      reply[1 + i] := time[i];
    }
    forall i | 5 <= i < 9 {
      reply[i] := 0;
    }
    for i := 9 to H.C0C1
      invariant reply[0] == H.VERSION && sock.output == old(sock.output) && sock.cut == old(sock.cut)
      invariant forall k :: 0 <= k < 4 ==> reply[1 + k] == time[k]
      invariant forall k :: 5 <= k < 9 ==> reply[k] == 0
      invariant forall k :: 9 <= k < i ==> reply[k] == random[k - 9]
    {
      reply[i] := random[i - 9];
    }
    forall i | 0 <= i < H.BLOCK {
      reply[H.C0C1 + i] := c0c1[1 + i];
    }
    assert reply[..] == [H.VERSION] + Made(time, random) + c0c1[1..];
    var n := sock.Send(reply[..]);
    ok := n == H.S0S1S2;
    sent := if n < 0 then 0 else n;
  }

  /** The last receive. */
  method ReceiveC2(sock: Socket) returns (ok: bool, c2: seq<byte>)
    modifies sock`input, sock`short
    ensures |c2| <= Min(1536, |old(sock.input)|)
    ensures c2 == old(sock.input)[..|c2|] && sock.input == old(sock.input)[|c2|..]
    ensures ok <==> |c2| == 1536
    ensures old(sock.short) <= sock.short && (ok <==> sock.short == old(sock.short))
  {
    c2 := sock.Recv(H.BLOCK);
    ok := |c2| == H.BLOCK;
  }

  /** rtmp_handshake_process: on success the wire carries version, S1 and the echo of the C1 that was
      read, and a whole C2 has been read; on failure some beginning of the input is gone. */
  method ServerHandshake(time: seq<byte>, random: seq<byte>, sock: Socket) returns (ok: bool)
    requires |time| == 4 && |random| == RANDOM
    modifies sock
    ensures Rest(sock.input, old(sock.input)) && old(sock.output) <= sock.output
    ensures sock.short == old(sock.short) && sock.cut == old(sock.cut) ==>
              |old(sock.input)| >= 1537 && (ok <==> old(sock.input)[0] == 3)
    ensures ok ==>
              && |old(sock.input)| >= 1537 + 1536 && old(sock.input)[0] == 3
              && sock.input == old(sock.input)[1537 + 1536..]
              && sock.output == old(sock.output) + ([3] + Made(time, random) + old(sock.input)[1..1537])
  {
    ghost var n;
    var c0c1, c2;
    ok, c0c1 := ReceiveC0C1(sock);
    if !ok {
      return;
    }
    assert c0c1[1..] == old(sock.input)[1..H.C0C1];
    ok, n := SendS0S1S2(c0c1, time, random, sock);
    if !ok {
      return;
    }
    ghost var whole := [H.VERSION] + Made(time, random) + c0c1[1..];
    assert whole[..n] == whole;
    ok, c2 := ReceiveC2(sock);
  }

  // -------------------------------------------------------- both parties as one run

  lemma Delivered(flying: seq<byte>, k: nat)
    requires k <= |flying|
    ensures H.Deliver(H.Pipe(flying, []), k) == H.Pipe(flying[k..], flying[..k])
    ensures H.Take(H.Pipe(flying[k..], flying[..k]), k) == H.Pipe(flying[k..], [])
  {
  }

  /** The client's first send, or its loss after n bytes. */
  lemma ClientSpoke(r: H.Run, c1: H.Block, s1: H.Block, n: nat) returns (r': H.Run)
    requires H.IsRun(r, c1, s1) && H.Last(r) == H.Init(c1, s1) && n <= H.C0C1
    ensures H.IsRun(r', c1, s1)
    ensures H.Last(r') == H.Init(c1, s1).(client := if n == H.C0C1 then H.CReading([]) else H.CFailed,
                                           up := H.Pipe(([H.VERSION] + c1)[..n], []))
  {
    var hello := [H.VERSION] + c1;
    assert [] + hello[..n] == hello[..n] && [] + hello == hello == hello[..H.C0C1];
    r' := H.Extend(r, c1, s1, if n == H.C0C1 then H.ClientHello else H.ClientLost(n));
  }

  /** k bytes reach the server, and it receives them. */
  lemma ServerHeard(r: H.Run, c1: H.Block, s1: H.Block, flying: seq<byte>, k: nat) returns (r': H.Run)
    requires H.IsRun(r, c1, s1) && H.Last(r).server.SStart? && H.Last(r).up == H.Pipe(flying, [])
    requires k <= Min(H.C0C1, |flying|)
    ensures H.IsRun(r', c1, s1)
    ensures H.Last(r') == H.Last(r).(
              server := if k == H.C0C1 && flying[0] == H.VERSION then H.SReplying(flying[1..H.C0C1]) else H.SFailed,
              up := H.Pipe(flying[k..], []))
  {
    r' := r;
    Delivered(flying, k);
    if k > 0 {
      r' := H.Extend(r', c1, s1, H.DeliverUp(k));
    }
    assert flying[..k][..k] == flying[..k];
    assert k == H.C0C1 ==> flying[..k][1..] == flying[1..H.C0C1];
    r' := H.Extend(r', c1, s1, H.ServerHello);
  }

  /** The server's send, or its loss after n bytes. */
  lemma ServerSpoke(r: H.Run, c1: H.Block, s1: H.Block, n: nat) returns (r': H.Run)
    requires H.IsRun(r, c1, s1) && H.Last(r).server.SReplying? && H.Last(r).down == H.Pipe([], []) && H.Last(r).s1 == s1
    requires n <= H.S0S1S2
    ensures H.IsRun(r', c1, s1)
    ensures var echo := H.Last(r).server.c1;
            H.Last(r') == H.Last(r).(server := if n == H.S0S1S2 then H.SWaiting(echo) else H.SFailed,
                                     down := H.Pipe(([H.VERSION] + s1 + echo)[..n], []))
  {
    var whole := [H.VERSION] + s1 + H.Last(r).server.c1;
    assert [] + whole[..n] == whole[..n] && [] + whole == whole == whole[..H.S0S1S2];
    r' := H.Extend(r, c1, s1, if n == H.S0S1S2 then H.ServerReply else H.ServerLost(n));
  }

  /** k bytes reach the client, and it reads them; short of the whole, its transport is lost. */
  lemma ClientHeard(r: H.Run, c1: H.Block, s1: H.Block, flying: seq<byte>, k: nat) returns (r': H.Run)
    requires H.IsRun(r, c1, s1) && H.Last(r).client == H.CReading([]) && H.Last(r).down == H.Pipe(flying, [])
    requires k <= Min(H.S0S1S2, |flying|)
    ensures H.IsRun(r', c1, s1)
    ensures H.Last(r') == H.Last(r).(
              client := if k == H.S0S1S2 && flying[0] == H.VERSION then H.CEchoing(flying[..k]) else H.CFailed,
              down := H.Pipe(flying[k..], []))
  {
    r' := r;
    Delivered(flying, k);
    if k > 0 {
      r' := H.Extend(r', c1, s1, H.DeliverDown(k));
      assert [] + flying[..k][..k] == flying[..k];
      r' := H.Extend(r', c1, s1, H.ClientRecv(k));
    }
    if k == H.S0S1S2 {
      r' := H.Extend(r', c1, s1, H.ClientCheck);
    } else {
      LoseClient(H.Last(r'));
      r' := H.Extend(r', c1, s1, H.ClientLost(0));
    }
  }

  lemma LoseClient(st: H.State)
    requires st.client.CReading?
    ensures H.Enabled(st, H.ClientLost(0)) && H.Next(st, H.ClientLost(0)) == st.(client := H.CFailed)
  {
    assert st.up.flying + [] == st.up.flying;
  }

  /** The client's echo, or its loss after n bytes. */
  lemma ClientEchoed(r: H.Run, c1: H.Block, s1: H.Block, n: nat) returns (r': H.Run)
    requires H.IsRun(r, c1, s1) && H.Last(r).client.CEchoing? && |H.Last(r).client.buffer| == H.S0S1S2
    requires n <= H.BLOCK
    ensures H.IsRun(r', c1, s1)
    ensures var st := H.Last(r);
            var b := st.client.buffer;
            H.Last(r') == st.(client := if n == H.BLOCK then H.CDone(b[1..H.C0C1], b[H.C0C1..]) else H.CFailed,
                              up := H.Put(st.up, b[1..H.C0C1][..n]))
  {
    var b := H.Last(r).client.buffer;
    assert b[1..H.C0C1][..H.BLOCK] == b[1..H.C0C1];
    r' := H.Extend(r, c1, s1, if n == H.BLOCK then H.ClientEcho else H.ClientLost(n));
  }

  /** k bytes of the echo reach the server, and it receives them. */
  lemma ServerHeardEcho(r: H.Run, c1: H.Block, s1: H.Block, flying: seq<byte>, k: nat) returns (r': H.Run)
    requires H.IsRun(r, c1, s1) && H.Last(r).server.SWaiting? && H.Last(r).up == H.Pipe(flying, [])
    requires k <= Min(H.BLOCK, |flying|)
    ensures H.IsRun(r', c1, s1)
    ensures var st := H.Last(r);
            H.Last(r') == st.(server := if k == H.BLOCK then H.SDone(st.server.c1, flying[..k]) else H.SFailed,
                              up := H.Pipe(flying[k..], []))
  {
    r' := r;
    Delivered(flying, k);
    if k > 0 {
      r' := H.Extend(r', c1, s1, H.DeliverUp(k));
    }
    assert flying[..k][..k] == flying[..k];
    r' := H.Extend(r', c1, s1, H.ServerEcho);
  }

  /** What one handshake gave: who succeeded, and the echoes they read. */
  datatype Result = Result(clientOk: bool, serverOk: bool, s2: seq<byte>, c2: seq<byte>)

  ghost predicate Mirrors(st: H.State, res: Result) {
    && (res.clientOk <==> st.client.CDone?) && (res.clientOk ==> st.client.s2 == res.s2)
    && (res.serverOk <==> st.server.SDone?) && (res.serverOk ==> st.server.c2 == res.c2)
  }

  /** The two programs on two connected sockets, each phase given what the other side has sent; any
      receive may get less than that and any send may break off. Whatever happens is a run of the
      state machine from its start, so a side that succeeds has received its own block back. */
  method Exchange(c: ClientHandshake, a: Socket, b: Socket, ctime: seq<byte>, crandom: seq<byte>,
                  stime: seq<byte>, srandom: seq<byte>)
    returns (res: Result, ghost r: H.Run)
    requires a != b && a.output == [] && b.output == [] && c.buffer.Length == H.S0S1S2
    requires |ctime| == 4 && |crandom| == RANDOM && |stime| == 4 && |srandom| == RANDOM
    modifies c.buffer, a, b
    ensures H.IsRun(r, Made(ctime, crandom), Made(stime, srandom)) && Mirrors(H.Last(r), res)
    ensures res.clientOk ==> res.s2 == Made(ctime, crandom)
    ensures res.serverOk ==> res.c2 == Made(stime, srandom)
    ensures a.short == old(a.short) && a.cut == old(a.cut) && b.short == old(b.short) && b.cut == old(b.cut) ==>
              res.clientOk && res.serverOk
  {
    ghost var c1, s1 := Made(ctime, crandom), Made(stime, srandom);
    var spoke, heard, replied, c0c1;
    spoke, r := Opening(c, a, ctime, crandom, s1);
    b.input := a.output;
    heard, c0c1 := ReceiveC0C1(b);
    r := ServerHeard(r, c1, s1, a.output, |c0c1|);
    replied := false;
    if heard {
      replied, r := Replying(c0c1, stime, srandom, b, c1, r);
    }
    var clientOk, s2 := false, [];
    if spoke {
      a.input := b.output;
      clientOk, s2, r := Echoing(c, a, b, c1, s1, r);
    }
    var serverOk, c2 := false, [];
    if replied {
      ghost var flying := b.input;
      serverOk, c2 := ReceiveC2(b);
      r := ServerHeardEcho(r, c1, s1, flying, |c2|);
    }
    res := Result(clientOk, serverOk, s2, c2);
    H.EchoesAgree(r, c1, s1, |r.states| - 1);
  }

  method Opening(c: ClientHandshake, a: Socket, time: seq<byte>, random: seq<byte>, ghost s1: H.Block)
    returns (ok: bool, ghost r: H.Run)
    requires a.output == [] && c.buffer.Length == H.S0S1S2 && |time| == 4 && |random| == RANDOM
    modifies c.buffer, a`output, a`cut
    ensures old(a.cut) <= a.cut && (ok <==> a.cut == old(a.cut))
    ensures ok ==> |a.output| == 1537 && a.output[0] == 3
    ensures var c1 := Made(time, random);
            && H.IsRun(r, c1, s1)
            && H.Last(r) == H.Init(c1, s1).(client := if ok then H.CReading([]) else H.CFailed,
                                            up := H.Pipe(a.output, []))
  {
    ghost var c1, sent := Made(time, random), 0;
    r := H.NewRun(c1, s1);
    ok, sent := c.SendC0C1(time, random, a);
    assert c.buffer[..H.C0C1][..sent] == c.buffer[..sent];
    r := ClientSpoke(r, c1, s1, sent);
  }

  method Replying(c0c1: seq<byte>, time: seq<byte>, random: seq<byte>, b: Socket, ghost c1: H.Block, ghost r: H.Run)
    returns (ok: bool, ghost r': H.Run)
    requires b.output == [] && |c0c1| == H.C0C1 && |time| == 4 && |random| == RANDOM
    requires H.IsRun(r, c1, Made(time, random)) && H.Last(r).s1 == Made(time, random)
    requires H.Last(r).server == H.SReplying(c0c1[1..]) && H.Last(r).down == H.Pipe([], [])
    modifies b`output, b`cut
    ensures old(b.cut) <= b.cut && (ok <==> b.cut == old(b.cut))
    ensures b.output != [] ==> b.output[0] == 3
    ensures H.IsRun(r', c1, Made(time, random))
    ensures H.Last(r') == H.Last(r).(server := if ok then H.SWaiting(c0c1[1..]) else H.SFailed,
                                     down := H.Pipe(b.output, []))
  {
    ghost var sent;
    ok, sent := SendS0S1S2(c0c1, time, random, b);
    r' := ServerSpoke(r, c1, Made(time, random), sent);
  }

  /** The client reads what has been sent to it and, when it is whole, sends its echo on to b. */
  method Echoing(c: ClientHandshake, a: Socket, b: Socket, ghost c1: H.Block, ghost s1: H.Block, ghost r: H.Run)
    returns (ok: bool, s2: seq<byte>, ghost r': H.Run)
    requires a != b && c.buffer.Length == H.S0S1S2 && H.IsRun(r, c1, s1)
    requires H.Last(r).client == H.CReading([]) && H.Last(r).down == H.Pipe(a.input, [])
    requires H.Last(r).up == H.Pipe(b.input, [])
    modifies c.buffer, a, b`input
    ensures H.IsRun(r', c1, s1) && H.Last(r').server == H.Last(r).server
    ensures H.Last(r').up == H.Pipe(b.input, [])
    ensures ok <==> H.Last(r').client.CDone?
    ensures old(a.short) <= a.short && old(a.cut) <= a.cut
    ensures (old(a.input) != [] ==> old(a.input)[0] == 3) && a.short == old(a.short) && a.cut == old(a.cut) ==> ok
    ensures ok ==> H.Last(r').client.s2 == s2
  {
    ghost var read, sent;
    s2 := [];
    ghost var flying := a.input;
    ok, read := c.ReadS0S1S2(a);
    r' := ClientHeard(r, c1, s1, flying, read);
    assert read == H.S0S1S2 ==> c.buffer[..read] == c.buffer[..];
    if !ok {
      return;
    }
    s2 := c.buffer[H.C0C1..];
    ghost var whole := c.buffer[..];
    assert whole[1..H.C0C1] == c.buffer[1..H.C0C1] && whole[H.C0C1..] == s2;
    var before := |a.output|;
    ok, sent := c.SendC2(a);
    b.input := b.input + a.output[before..];
    r' := ClientEchoed(r', c1, s1, sent);
  }
}
