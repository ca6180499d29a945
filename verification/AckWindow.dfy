/** The acknowledgement window of rtmp_protocol.c:349-354, 450-456 and 497-500: 32-bit counters
    that wrap, against the bytes that were really counted. Section 5.4.3 of Adobe RTMP 1.0. */
module AckWindow {
  import opened Bytes

  /** bytesReceived, lastAckSize and windowAckSize of RTMPContext. */
  datatype Counters = Counters(received: uint32, lastAck: uint32, window: uint32)

  /** The most one successful read counts: a 12-byte header and a 24-bit payload size. */
  const MAX_COUNT := 0x100_000B

  function Unacked(c: Counters): uint32 {
    (c.received - c.lastAck) % TWO_32
  }

  function Received(c: Counters, n: nat): Counters {
    c.(received := (c.received + n) % TWO_32)
  }

  /** The end of a successful read: count, and acknowledge when the window is full. */
  function AfterRead(c: Counters, n: nat): Counters {
    var c' := Received(c, n);
    if Unacked(c') >= c.window then c'.(lastAck := c'.received) else c'
  }

  predicate Acks(c: Counters, n: nat) {
    Unacked(Received(c, n)) >= c.window
  }

  /** rtmp_disconnect starts both counts again. */
  function Restarted(c: Counters): Counters {
    c.(received := 0, lastAck := 0)
  }

  // -------------------------------------------------------------------------- runs

  datatype Event = Read(n: nat) | SetWindow(window: uint32) | Disconnect

  /** The counters together with what they stand for: all bytes counted so far, the count at the
      last acknowledgement, and the counts at which acknowledgements went out. */
  datatype Track = Track(c: Counters, total: nat, acked: nat, acks: seq<nat>)

  function Start(window: uint32): Track {
    Track(Counters(0, 0, window), 0, 0, [])
  }

  function Next(t: Track, e: Event): Track {
    match e
    case SetWindow(w) => t.(c := t.c.(window := w))
    case Disconnect => Track(Restarted(t.c), 0, 0, [])
    case Read(n) =>
      var total := t.total + n;
      if Acks(t.c, n) then Track(AfterRead(t.c, n), total, total, t.acks + [total])
      else Track(AfterRead(t.c, n), total, t.acked, t.acks)
  }

  function RunFrom(t: Track, events: seq<Event>): Track
    decreases |events|
  {
    if events == [] then t else RunFrom(Next(t, events[0]), events[1..])
  }

  lemma {:induction false} RunConcat(t: Track, a: seq<Event>, b: seq<Event>)
    ensures RunFrom(t, a + b) == RunFrom(RunFrom(t, a), b)
    decreases |a|
  {
    if a == [] {
      assert a + b == b;
    } else {
      assert (a + b)[1..] == a[1..] + b;
      RunConcat(Next(t, a[0]), a[1..], b);
    }
  }

  predicate Admissible(e: Event, limit: nat) {
    match e
    case Read(n) => 1 <= n <= MAX_COUNT
    case SetWindow(w) => 1 <= w <= limit
    case Disconnect => true
  }

  ghost predicate AllAdmissible(events: seq<Event>, limit: nat) {
    forall i :: 0 <= i < |events| ==> Admissible(events[i], limit)
  }

  /** The wrapped counters stand for the true ones, and the true backlog is below some window
      that has been in force. */
  ghost predicate Sound(t: Track, limit: nat) {
    && t.c.received == t.total % TWO_32
    && t.c.lastAck == t.acked % TWO_32
    && 0 <= t.total - t.acked < limit
    && 1 <= t.c.window <= limit
    && (t.acks == [] ==> t.acked == 0)
    && (t.acks != [] ==> t.acked == t.acks[|t.acks| - 1])
  }

  /** The largest window for which no read can wrap the backlog past 2^32. */
  const MAX_WINDOW := TWO_32 - MAX_COUNT

  lemma ModDiff(a: nat, b: nat, m: nat)
    requires m == TWO_32 && 0 <= a - b < m
    ensures (a % m - b % m) % m == a - b
  {
  }

  lemma AddMod(a: nat, n: nat, m: nat)
    requires m == TWO_32
    ensures (a % m + n) % m == (a + n) % m
  {
  }

  lemma CountedBytes(t: Track, n: nat, limit: nat)
    requires Sound(t, limit) && n <= MAX_COUNT && limit <= MAX_WINDOW
    ensures Unacked(Received(t.c, n)) == t.total + n - t.acked
    ensures Received(t.c, n).received == (t.total + n) % TWO_32
  {
    AddMod(t.total, n, TWO_32);
    assert Received(t.c, n).received == (t.total + n) % TWO_32;
    ModDiff(t.total + n, t.acked, TWO_32);
  }

  lemma SoundBacklog(t: Track, limit: nat)
    requires Sound(t, limit) && limit <= TWO_32
    ensures Unacked(t.c) == t.total - t.acked
  {
    ModDiff(t.total, t.acked, TWO_32);
  }

  /** One read: the backlog that is left is below the window in force, whatever the window was
      before; an acknowledgement goes out exactly when the true backlog reaches the window. */
  lemma ReadStep(t: Track, n: nat, limit: nat)
    requires Sound(t, limit) && 1 <= n <= MAX_COUNT && limit <= MAX_WINDOW
    ensures var t' := Next(t, Read(n));
            && Sound(t', limit)
            && t'.total - t'.acked < t.c.window
            && (Acks(t.c, n) <==> t.total + n - t.acked >= t.c.window)
            && (Acks(t.c, n) ==> t'.acks == t.acks + [t.total + n] && t'.acked - t.acked >= t.c.window)
            && (!Acks(t.c, n) ==> t'.acks == t.acks)
  {
    CountedBytes(t, n, limit);
  }

  lemma {:induction false} RunSound(t: Track, events: seq<Event>, limit: nat)
    requires Sound(t, limit) && AllAdmissible(events, limit) && limit <= MAX_WINDOW
    ensures Sound(RunFrom(t, events), limit)
    decreases |events|
  {
    if events == [] {
    } else {
      if events[0].Read? {
        ReadStep(t, events[0].n, limit);
      }
      assert Admissible(events[0], limit);
      assert forall i :: 0 <= i < |events[1..]| ==> events[1..][i] == events[i + 1];
      RunSound(Next(t, events[0]), events[1..], limit);
    }
  }

  /** Over every run with changing windows up to MAX_WINDOW: after every read the bytes really
      counted since the last acknowledgement are fewer than the current window, and each
      acknowledgement is at least the then current window of counted bytes after the previous. */
  lemma WindowHonoured(window: uint32, events: seq<Event>, n: nat)
    requires 1 <= window <= MAX_WINDOW && AllAdmissible(events, MAX_WINDOW) && 1 <= n <= MAX_COUNT
    ensures var t := RunFrom(Start(window), events);
            var t' := Next(t, Read(n));
            && t'.total - t'.acked < t.c.window
            && Unacked(t'.c) == t'.total - t'.acked
            && (|t'.acks| > |t.acks| ==> t'.acks == t.acks + [t'.total] && t'.total - t.acked >= t.c.window)
            && (|t'.acks| == |t.acks| ==> t'.acks == t.acks && t'.total - t.acked < t.c.window)
            && t.acked == if t.acks == [] then 0 else t.acks[|t.acks| - 1]
  {
    var t := RunFrom(Start(window), events);
    RunSound(Start(window), events, MAX_WINDOW);
    ReadStep(t, n, MAX_WINDOW);
    SoundBacklog(Next(t, Read(n)), MAX_WINDOW);
  }

  // ---------------------------------------------------------- how large a window may be

  /** With a fixed window, the true backlog stays below it after every read of every run. */
  ghost predicate AlwaysBelow(window: uint32) {
    forall counts: seq<nat>, n: nat :: CountsOk(counts) && 1 <= n <= MAX_COUNT ==> LeftBelow(window, counts, n)
  }

  ghost predicate CountsOk(counts: seq<nat>) {
    forall i :: 0 <= i < |counts| ==> 1 <= counts[i] <= MAX_COUNT
  }

  ghost predicate LeftBelow(window: uint32, counts: seq<nat>, n: nat) {
    var t := Next(RunFrom(Start(window), Reads(counts)), Read(n));
    t.total - t.acked < window
  }

  function Reads(counts: seq<nat>): (events: seq<Event>)
    ensures |events| == |counts|
    ensures forall i :: 0 <= i < |counts| ==> events[i] == Read(counts[i])
  {
    if counts == [] then [] else [Read(counts[0])] + Reads(counts[1..])
  }

  function Sum(counts: seq<nat>): nat {
    if counts == [] then 0 else counts[0] + Sum(counts[1..])
  }

  /** Reads that stay below the window send no acknowledgement. */
  lemma {:induction false} Quiet(t: Track, counts: seq<nat>)
    requires t.c.received == t.total < TWO_32 && t.c.lastAck == t.acked == 0
    requires t.total + Sum(counts) < t.c.window
    ensures var t' := RunFrom(t, Reads(counts));
            t' == t.(c := t.c.(received := t.total + Sum(counts)), total := t.total + Sum(counts))
    decreases |counts|
  {
    if counts == [] {
    } else {
      Quiet(Next(t, Read(counts[0])), counts[1..]);
    }
  }

  lemma {:induction false} WindowStays(t: Track, counts: seq<nat>)
    ensures RunFrom(t, Reads(counts)).c.window == t.c.window
    decreases |counts|
  {
    if counts == [] {
    } else {
      WindowStays(Next(t, Read(counts[0])), counts[1..]);
    }
  }

  /** Any backlog can be built up from counts. */
  lemma {:induction false} Build(d: nat) returns (counts: seq<nat>)
    ensures CountsOk(counts) && Sum(counts) == d
    decreases d
  {
    if d == 0 {
      counts := [];
    } else {
      var n := Min(d, MAX_COUNT);
      var rest := Build(d - n);
      counts := [n] + rest;
      assert counts[1..] == rest;
    }
  }

  /** The window is honoured over every run exactly when it is at least 1 and leaves room for one
      more read below 2^32; a larger window lets the counters wrap past an acknowledgement. */
  lemma AlwaysBelowIff(window: uint32)
    ensures AlwaysBelow(window) <==> 1 <= window <= 0xFEFF_FFF5
  {
    if 1 <= window <= MAX_WINDOW {
      forall counts: seq<nat>, n: nat | CountsOk(counts) && 1 <= n <= MAX_COUNT
        ensures LeftBelow(window, counts, n)
      {
        assert AllAdmissible(Reads(counts), MAX_WINDOW);
        WindowHonoured(window, Reads(counts), n);
        WindowStays(Start(window), counts);
      }
    } else if window == 0 {
      assert CountsOk([]);
      assert !LeftBelow(window, [], 1);
    } else {
      var counts := Build(window - 1);
      Quiet(Start(window), counts);
      assert !LeftBelow(window, counts, MAX_COUNT);
    }
  }
}
