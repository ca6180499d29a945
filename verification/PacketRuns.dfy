/** Runs of rtmp_read_packet and rtmp_handle_packet over an arbitrary byte stream: what each read
    counts (rtmp_protocol.c:303-309 and 350), and what that means for the acknowledgement window. */
module PacketRuns {
  import opened Bytes
  import opened PacketTransport
  import A = AckWindow

  // --------------------------------------------------------------- what a read counts

  /** A header of types 1 to 3 leaves the size of the caller's packet standing; the largest of these
      headers has eight bytes. With this much in it, a read cannot count more than MAX_COUNT. */
  predicate Countable(stale: Packet) {
    stale.size + HeaderSize(64) <= A.MAX_COUNT
  }

  /** Such a packet is left such, and the read counts at least one byte and at most MAX_COUNT. */
  lemma ReadCounts(cs: nat, stale: Packet, input: seq<byte>)
    requires cs > 0 && Countable(stale)
    ensures var r := ReadPacket(cs, stale, input);
            r.Some? ==> 1 <= r.value.2 <= A.MAX_COUNT && Countable(r.value.0)
  {
  }

  /** A packet with a size has come with data of that size. */
  lemma DataFits(cs: nat, stale: Packet, input: seq<byte>)
    requires cs > 0
    ensures var r := ReadPacket(cs, stale, input);
            r.Some? && r.value.0.size > 0 ==> WellFormed(r.value.0)
  {
    if |input| >= 1 && |input| >= HeaderSize(input[0]) {
      var n := HeaderSize(input[0]);
      PiecesLength(cs, ParseHeader(stale, input[..n]).size, input[n..]);
    }
  }

  lemma {:induction false} PiecesLength(cs: nat, n: nat, input: seq<byte>)
    requires cs > 0
    ensures var r := ReadPieces(cs, n, input); r.Some? ==> |r.value.0| == n
    decreases n
  {
    if n <= cs || |input| < cs + 1 {
    } else {
      PiecesLength(cs, n - cs, input[cs + 1..]);
    }
  }

  ghost predicate CountsAtMost(cs: nat, stale: Packet, input: seq<byte>, limit: nat)
    requires cs > 0
  {
    var r := ReadPacket(cs, stale, input);
    r.Some? ==> r.value.2 <= limit
  }

  function Zeros(n: nat): (s: seq<byte>)
    ensures |s| == n
  {
    seq(n, _ => 0)
  }

  lemma {:induction false} EnoughIsRead(cs: nat, n: nat, input: seq<byte>)
    requires cs > 0 && |input| >= 2 * n
    ensures ReadPieces(cs, n, input).Some?
    decreases n
  {
    if n <= cs {
    } else {
      EnoughIsRead(cs, n - cs, input[cs + 1..]);
    }
  }

  /** That bound on the caller's packet is the exact one, for every chunk size: with a larger size left
      in it, some stream makes a read count more than the window arithmetic allows for. */
  lemma ReadCountsIff(cs: uint32, stale: Packet)
    requires cs > 0
    ensures (forall input: seq<byte> :: CountsAtMost(cs, stale, input, A.MAX_COUNT)) <==> Countable(stale)
  {
    if Countable(stale) {
      forall input: seq<byte>
        ensures CountsAtMost(cs, stale, input, A.MAX_COUNT)
      {
        ReadCounts(cs, stale, input);
      }
    } else {
      var input: seq<byte> := [64] + Zeros(7 + 2 * stale.size);
      assert |input[8..]| == 2 * stale.size;
      EnoughIsRead(cs, stale.size, input[8..]);
      assert ReadPacket(cs, stale, input).value.2 == stale.size + 8;
      assert !CountsAtMost(cs, stale, input, A.MAX_COUNT);
    }
  }

  // ------------------------------------------------------------------------------ runs

  function WindowSet(p: Packet): seq<A.Event> {
    if p.mtype == MSG_WINDOW_ACK_SIZE && Carries32(p) then [A.SetWindow(ReadBE32(p.data.value))] else []
  }

  /** What up to n reads into the same packet, each handled before the next, do to the counters. */
  function Events(cs: nat, stale: Packet, input: seq<byte>, n: nat): seq<A.Event>
    decreases n
  {
    if n == 0 || cs == 0 then []
    else
      match ReadPacket(cs, stale, input)
      case None => []
      case Some((p, rest, k)) => [A.Read(k)] + (WindowSet(p) + Events(ChunkSizeAfter(cs, p), p, rest, n - 1))
  }

  /** The run of one more packet. */
  lemma EventsStep(t: A.Track, cs: nat, stale: Packet, input: seq<byte>, n: nat)
    requires cs > 0 && ReadPacket(cs, stale, input).Some?
    ensures var (p, rest, k) := ReadPacket(cs, stale, input).value;
            A.RunFrom(t, Events(cs, stale, input, n + 1)) ==
            A.RunFrom(A.RunFrom(A.Next(t, A.Read(k)), WindowSet(p)), Events(ChunkSizeAfter(cs, p), p, rest, n))
  {
    var (p, rest, k) := ReadPacket(cs, stale, input).value;
    var more := Events(ChunkSizeAfter(cs, p), p, rest, n);
    A.RunConcat(A.Next(t, A.Read(k)), WindowSet(p), more);
    assert ([A.Read(k)] + (WindowSet(p) + more))[1..] == WindowSet(p) + more;
  }

  /** Every window the stream sets is one the arithmetic has room for. */
  ghost predicate WindowsFit(events: seq<A.Event>) {
    forall i :: 0 <= i < |events| && events[i].SetWindow? ==> 1 <= events[i].window <= A.MAX_WINDOW
  }

  /** The read leaves fewer unacknowledged bytes than the window in force, its counters say how many,
      and it acknowledges only when at least a window of bytes has come. */
  ghost predicate ReadHonours(t: A.Track, n: nat) {
    var t' := A.Next(t, A.Read(n));
    && t'.total - t'.acked < t.c.window
    && A.Unacked(t'.c) == t'.total - t'.acked
    && (t'.acks != t.acks ==> t'.acks == t.acks + [t'.total] && t'.total - t.acked >= t.c.window)
  }

  ghost predicate Honours(t: A.Track, events: seq<A.Event>)
    decreases |events|
  {
    events == [] ||
    ((events[0].Read? ==> ReadHonours(t, events[0].n)) && Honours(A.Next(t, events[0]), events[1..]))
  }

  lemma {:induction false} AdmissibleHonours(t: A.Track, events: seq<A.Event>)
    requires A.Sound(t, A.MAX_WINDOW) && A.AllAdmissible(events, A.MAX_WINDOW)
    ensures Honours(t, events)
    decreases |events|
  {
    if events == [] {
    } else {
      assert A.Admissible(events[0], A.MAX_WINDOW);
      if events[0].Read? {
        A.ReadStep(t, events[0].n, A.MAX_WINDOW);
        A.SoundBacklog(A.Next(t, events[0]), A.MAX_WINDOW);
      }
      assert forall i :: 0 <= i < |events[1..]| ==> events[1..][i] == events[i + 1];
      AdmissibleHonours(A.Next(t, events[0]), events[1..]);
    }
  }

  lemma {:induction false} EventsAdmissible(cs: nat, stale: Packet, input: seq<byte>, n: nat)
    requires Countable(stale) && WindowsFit(Events(cs, stale, input, n))
    ensures A.AllAdmissible(Events(cs, stale, input, n), A.MAX_WINDOW)
    decreases n
  {
    if n == 0 || cs == 0 || ReadPacket(cs, stale, input).None? {
    } else {
      var (p, rest, k) := ReadPacket(cs, stale, input).value;
      var first, more := [A.Read(k)] + WindowSet(p), Events(ChunkSizeAfter(cs, p), p, rest, n - 1);
      ReadCounts(cs, stale, input);
      assert Events(cs, stale, input, n) == first + more;
      WindowsFitSplit(first, more);
      FirstAdmissible(k, p);
      EventsAdmissible(ChunkSizeAfter(cs, p), p, rest, n - 1);
      AdmissibleJoin(first, more);
    }
  }

  lemma FirstAdmissible(k: nat, p: Packet)
    requires 1 <= k <= A.MAX_COUNT && WindowsFit([A.Read(k)] + WindowSet(p))
    ensures A.AllAdmissible([A.Read(k)] + WindowSet(p), A.MAX_WINDOW)
  {
  }

  lemma WindowsFitSplit(a: seq<A.Event>, b: seq<A.Event>)
    requires WindowsFit(a + b)
    ensures WindowsFit(a) && WindowsFit(b)
  {
    assert forall i :: 0 <= i < |a| ==> a[i] == (a + b)[i];
    assert forall i :: 0 <= i < |b| ==> b[i] == (a + b)[|a| + i];
  }

  lemma AdmissibleJoin(a: seq<A.Event>, b: seq<A.Event>)
    requires A.AllAdmissible(a, A.MAX_WINDOW) && A.AllAdmissible(b, A.MAX_WINDOW)
    ensures A.AllAdmissible(a + b, A.MAX_WINDOW)
  {
  }

  /** On any bytes whatever, any number of reads and any chunk sizes the stream sets: as long as the
      windows fit, every read honours the acknowledgement window in force. */
  lemma PacketsHonourWindow(window: uint32, cs: nat, stale: Packet, input: seq<byte>, n: nat)
    requires 1 <= window <= A.MAX_WINDOW && Countable(stale) && WindowsFit(Events(cs, stale, input, n))
    ensures Honours(A.Start(window), Events(cs, stale, input, n))
  {
    EventsAdmissible(cs, stale, input, n);
    AdmissibleHonours(A.Start(window), Events(cs, stale, input, n));
  }
}
