/** The writer and the reader of rtmp_chunk.c as two state machines that stay in step: whole
    message sequences, interleaved chunk streams, and exactly when delivery is faithful. */
module ChunkTheorems {
  import opened Bytes
  import opened ChunkHeader
  import opened ChunkStream
  import opened ChunkTrace

  // ------------------------------------------------------ the reader as a stepper

  function ChunkStepper(): Stepper {
    Stepper((s: Slot, c: Chunk) => StepSlot(s, c.limit, c),
            (s: Slot, c: Chunk) => StepOut(s, c.limit, c),
            (s: Slot, c: Chunk) => Fits(s, c.limit, c))
  }

  function ChunkReaders(): Readers {
    (cs: nat) => ChunkReader(cs)
  }

  /** A fitting chunk adds its payload to the message under assembly. */
  ghost predicate Assembles(m: Stepper) {
    forall s: Slot, c: Chunk :: Fits(s, c.limit, c) ==> m.fits(s, c) && Assembled(m, s, c)
  }

  ghost predicate Assembled(m: Stepper, s: Slot, c: Chunk) {
    var h := c.header;
    var got := PartialOf(s, h).got + c.payload;
    && m.next(s, c).prev == h
    && m.next(s, c).partial == (if |got| == h.length then None else Some(Partial(h.length, got)))
    && m.out(s, c) == if |got| == h.length then Some(MessageOf(h, got)) else None
  }

  function MessageOf(h: Header, data: seq<byte>): Packet {
    Packet(h.mtype, h.timestamp, h.streamId, data)
  }

  lemma StepperAssembles()
    ensures Assembles(ChunkStepper())
  {
    forall s: Slot, c: Chunk | Fits(s, c.limit, c)
      ensures ChunkStepper().fits(s, c) && Assembled(ChunkStepper(), s, c)
    {
      StepFacts(s, c.limit, c);
    }
  }

  lemma StepperReads()
    ensures ReadsFitting(ChunkReaders(), ChunkStepper())
  {
    var m := ChunkStepper();
    forall slots: Slots, c: Chunk, tail: seq<byte> | m.fits(slots[SlotOf(c.csid)], c)
      ensures ReadsOne(ChunkReaders()(c.limit), m, slots, c, tail)
    {
      ReadFittingChunk(slots, c.limit, c, tail);
    }
  }

  /** The type 3 chunks finish the message that the slot is assembling. */
  lemma {:induction false} ContinuationsRun(m: Stepper, s: Slot, csid: uint32, cs: nat, h: Header,
                                            got: seq<byte>, data: seq<byte>)
    requires cs > 0 && Assembles(m) && ValidCsid(csid) && data != []
    requires s.prev == h && s.partial == Some(Partial(h.length, got)) && |got| + |data| == h.length
    ensures var chunks := Continuations(csid, cs, h, data);
            && StreamFits(m, s, chunks)
            && RunSlot(m, s, chunks).prev == h && RunSlot(m, s, chunks).partial.None?
            && RunOut(m, s, chunks) == [(csid, MessageOf(h, got + data))]
    decreases |data|
  {
    var n := Min(cs, |data|);
    var c := Chunk(csid, 3, h, data[..n], cs);
    var rest := Continuations(csid, cs, h, data[n..]);
    var chunks := Continuations(csid, cs, h, data);
    assert chunks[0] == c && chunks[1..] == rest;
    assert Fits(s, cs, c);
    assert Assembled(m, s, c);
    if n < |data| {
      assert (got + data[..n]) + data[n..] == got + data;
      ContinuationsRun(m, m.next(s, c), csid, cs, h, got + data[..n], data[n..]);
    } else {
      assert data[..n] == data && rest == [];
    }
  }

  /** The first chunk of a message on an idle slot, its header chosen against prev and read against
      what the slot remembers. */
  lemma FirstChunk(m: Stepper, s: Slot, prev: Header, csid: uint32, cs: nat, p: Packet)
    requires cs > 0 && Assembles(m) && ValidCsid(csid) && s.partial.None? && Sendable(p)
    requires Carries(HeaderOf(p), s.prev, ChooseFmt(HeaderOf(p), prev))
    ensures var chunks, n := MessageChunks(prev, csid, cs, p), Min(cs, |p.data|);
            && chunks[0].csid == csid && chunks[1..] == Continuations(csid, cs, HeaderOf(p), p.data[n..])
            && m.fits(s, chunks[0]) && m.next(s, chunks[0]).prev == HeaderOf(p)
            && m.next(s, chunks[0]).partial == (if n == |p.data| then None else Some(Partial(|p.data|, p.data[..n])))
            && m.out(s, chunks[0]) == if n == |p.data| then Some(p) else None
  {
    var h, n := HeaderOf(p), Min(cs, |p.data|);
    SendableSize(p);
    var c := MessageChunks(prev, csid, cs, p)[0];
    assert c.payload == p.data[..n] == [] + p.data[..n];
    assert Fits(s, cs, c);
    assert Assembled(m, s, c);
    assert n == |p.data| ==> p.data[..n] == p.data;
  }

  /** One message: its chunks fit, the slot ends idle and remembers the header, and exactly the message
      comes out. */
  lemma MessageRunAs(m: Stepper, s: Slot, prev: Header, csid: uint32, cs: nat, p: Packet)
    requires cs > 0 && Assembles(m) && ValidCsid(csid) && s.partial.None? && Sendable(p)
    requires Carries(HeaderOf(p), s.prev, ChooseFmt(HeaderOf(p), prev))
    ensures var chunks := MessageChunks(prev, csid, cs, p);
            && StreamFits(m, s, chunks)
            && RunSlot(m, s, chunks).prev == HeaderOf(p) && RunSlot(m, s, chunks).partial.None?
            && RunOut(m, s, chunks) == [(csid, p)]
  {
    var n := Min(cs, |p.data|);
    SendableSize(p);
    FirstChunk(m, s, prev, csid, cs, p);
    if n < |p.data| {
      var s' := m.next(s, MessageChunks(prev, csid, cs, p)[0]);
      ContinuationsRun(m, s', csid, cs, HeaderOf(p), p.data[..n], p.data[n..]);
      assert p.data[..n] + p.data[n..] == p.data;
    } else {
      assert Continuations(csid, cs, HeaderOf(p), p.data[n..]) == [];
    }
  }

  lemma MessageRun(m: Stepper, s: Slot, csid: uint32, cs: nat, p: Packet)
    requires cs > 0 && Assembles(m) && ValidCsid(csid) && s.partial.None? && Sendable(p)
    ensures var chunks := MessageChunks(s.prev, csid, cs, p);
            && StreamFits(m, s, chunks)
            && RunSlot(m, s, chunks).prev == HeaderOf(p) && RunSlot(m, s, chunks).partial.None?
            && RunOut(m, s, chunks) == [(csid, p)]
  {
    SendableSize(p);
    ChosenCarriesIff(HeaderOf(p), s.prev);
    MessageRunAs(m, s, s.prev, csid, cs, p);
  }

  lemma SendableSize(p: Packet)
    requires Sendable(p)
    ensures SentSize(p) == |p.data| && p.data[..SentSize(p)] == p.data && Fits24(HeaderOf(p))
  {
  }

  // ----------------------------------------------------------------- interleaving

  /** A chunk size for every message, none of them 0. */
  ghost predicate SizesFor(sizes: seq<nat>, msgs: seq<Packet>) {
    |sizes| == |msgs| && forall i :: 0 <= i < |sizes| ==> sizes[i] > 0
  }

  /** The chunks a stream's messages become, in order, each message under its own chunk size. */
  ghost function StreamChunks(prev: Header, csid: uint32, sizes: seq<nat>, msgs: seq<Packet>): seq<Chunk>
    requires SizesFor(sizes, msgs)
    decreases |msgs|
  {
    if msgs == [] then []
    else
      MessageChunks(prev, csid, sizes[0], msgs[0])
      + StreamChunks(HeaderOf(msgs[0]), csid, sizes[1..], msgs[1..])
  }

  ghost predicate AllSendable(msgs: seq<Packet>) {
    forall i :: 0 <= i < |msgs| ==> Sendable(msgs[i])
  }

  lemma {:induction false} StreamRun(m: Stepper, s: Slot, csid: uint32, sizes: seq<nat>, msgs: seq<Packet>)
    requires SizesFor(sizes, msgs) && Assembles(m) && ValidCsid(csid) && s.partial.None? && AllSendable(msgs)
    ensures var chunks := StreamChunks(s.prev, csid, sizes, msgs);
            && StreamFits(m, s, chunks)
            && PacketsOf(RunOut(m, s, chunks), csid) == msgs
    decreases |msgs|
  {
    if msgs == [] {
    } else {
      var p := msgs[0];
      var first := MessageChunks(s.prev, csid, sizes[0], p);
      var rest := StreamChunks(HeaderOf(p), csid, sizes[1..], msgs[1..]);
      MessageRun(m, s, csid, sizes[0], p);
      var s' := RunSlot(m, s, first);
      StreamRun(m, s', csid, sizes[1..], msgs[1..]);
      RunConcat(m, s, first, rest);
      PacketsConcat(RunOut(m, s, first), RunOut(m, s', rest), csid);
      assert [p] + msgs[1..] == msgs;
    }
  }

  // ------------------------------------------------- what a context holds on the way

  /** With k messages delivered, the context is idle and remembers the last of them, or it holds a
      beginning of the next one in a buffer of that one's size, and remembers its header. */
  ghost predicate Underway(before: Header, s: Slot, msgs: seq<Packet>, k: nat) {
    k <= |msgs| &&
    match s.partial
    case None => s.prev == if k == 0 then before else HeaderOf(msgs[k - 1])
    case Some(part) =>
      && k < |msgs| && s.prev == HeaderOf(msgs[k])
      && part.size == |msgs[k].data| && part.got <= msgs[k].data && |part.got| < |msgs[k].data|
  }

  lemma {:induction false} SomeContinuations(m: Stepper, s: Slot, csid: uint32, cs: nat, h: Header,
                                             got: seq<byte>, data: seq<byte>, n: nat)
    requires cs > 0 && Assembles(m) && ValidCsid(csid) && data != []
    requires s.prev == h && s.partial == Some(Partial(h.length, got)) && |got| + |data| == h.length
    requires n < |Continuations(csid, cs, h, data)|
    ensures var s' := RunSlot(m, s, Continuations(csid, cs, h, data)[..n]);
            && s'.prev == h && s'.partial.Some? && s'.partial.value.size == h.length
            && s'.partial.value.got <= got + data && |s'.partial.value.got| < h.length
    ensures RunOut(m, s, Continuations(csid, cs, h, data)[..n]) == []
    decreases |data|
  {
    var chunks := Continuations(csid, cs, h, data);
    if n == 0 {
      assert chunks[..n] == [];
    } else {
      var k := Min(cs, |data|);
      var c, rest := Chunk(csid, 3, h, data[..k], cs), Continuations(csid, cs, h, data[k..]);
      assert chunks == [c] + rest && chunks[..n] == [c] + rest[..n - 1];
      assert chunks[..n][0] == c && chunks[..n][1..] == rest[..n - 1];
      assert Fits(s, cs, c) && Assembled(m, s, c);
      assert (got + data[..k]) + data[k..] == got + data;
      SomeContinuations(m, m.next(s, c), csid, cs, h, got + data[..k], data[k..], n - 1);
    }
  }

  /** The first n chunks of a message, short of all of them. */
  lemma SomeChunks(m: Stepper, s: Slot, csid: uint32, cs: nat, p: Packet, n: nat)
    requires cs > 0 && Assembles(m) && ValidCsid(csid) && s.partial.None? && Sendable(p)
    requires 0 < n < |MessageChunks(s.prev, csid, cs, p)|
    ensures Underway(s.prev, RunSlot(m, s, MessageChunks(s.prev, csid, cs, p)[..n]), [p], 0)
    ensures RunSlot(m, s, MessageChunks(s.prev, csid, cs, p)[..n]).partial.Some?
    ensures RunOut(m, s, MessageChunks(s.prev, csid, cs, p)[..n]) == []
  {
    var h, k := HeaderOf(p), Min(cs, |p.data|);
    SendableSize(p);
    ChosenCarriesIff(h, s.prev);
    var chunks := MessageChunks(s.prev, csid, cs, p);
    var c, rest := chunks[0], Continuations(csid, cs, h, p.data[k..]);
    assert chunks == [c] + rest && chunks[..n] == [c] + rest[..n - 1];
    assert chunks[..n][0] == c && chunks[..n][1..] == rest[..n - 1];
    assert c.payload == p.data[..k];
    assert Fits(s, cs, c) && Assembled(m, s, c);
    assert [] + p.data[..k] == p.data[..k];
    assert p.data[..k] + p.data[k..] == p.data;
    SomeContinuations(m, m.next(s, c), csid, cs, h, p.data[..k], p.data[k..], n - 1);
  }

  lemma {:induction false} StreamUnderway(m: Stepper, s: Slot, csid: uint32, sizes: seq<nat>, msgs: seq<Packet>,
                                          n: nat)
    requires SizesFor(sizes, msgs) && Assembles(m) && ValidCsid(csid) && s.partial.None? && AllSendable(msgs)
    requires n <= |StreamChunks(s.prev, csid, sizes, msgs)|
    ensures var chunks := StreamChunks(s.prev, csid, sizes, msgs)[..n];
            Underway(s.prev, RunSlot(m, s, chunks), msgs, |PacketsOf(RunOut(m, s, chunks), csid)|)
    decreases |msgs|
  {
    var all := StreamChunks(s.prev, csid, sizes, msgs);
    if n == 0 {
      assert all[..n] == [];
    } else {
      var p, more := msgs[0], msgs[1..];
      var first, rest := MessageChunks(s.prev, csid, sizes[0], p), StreamChunks(HeaderOf(p), csid, sizes[1..], more);
      if n < |first| {
        assert all[..n] == first[..n];
        SomeChunks(m, s, csid, sizes[0], p, n);
      } else {
        assert all[..n] == first + rest[..n - |first|];
        MessageRun(m, s, csid, sizes[0], p);
        var s' := RunSlot(m, s, first);
        RunConcat(m, s, first, rest[..n - |first|]);
        StreamUnderway(m, s', csid, sizes[1..], more, n - |first|);
        CountFirst(csid, p, RunOut(m, s', rest[..n - |first|]));
        NextUnderway(s.prev, RunSlot(m, s, all[..n]), msgs, |PacketsOf(RunOut(m, s, all[..n]), csid)|);
      }
    }
  }

  lemma NextUnderway(before: Header, s: Slot, msgs: seq<Packet>, k: nat)
    requires msgs != [] && k > 0 && Underway(HeaderOf(msgs[0]), s, msgs[1..], k - 1)
    ensures Underway(before, s, msgs, k)
  {
  }

  lemma CountFirst(csid: uint32, p: Packet, outs: seq<(uint32, Packet)>)
    ensures |PacketsOf([(csid, p)] + outs, csid)| == 1 + |PacketsOf(outs, csid)|
  {
    PacketsConcat([(csid, p)], outs, csid);
    assert [(csid, p)][1..] == [];
    assert PacketsOf([(csid, p)], csid) == [p] + PacketsOf([], csid);
  }

  lemma PrefixRun(m: Stepper, s: Slot, csid: uint32, sizes: seq<nat>, msgs: seq<Packet>, chunks: seq<Chunk>)
    requires SizesFor(sizes, msgs) && Assembles(m) && ValidCsid(csid) && s.partial.None? && AllSendable(msgs)
    requires chunks <= StreamChunks(s.prev, csid, sizes, msgs)
    ensures StreamFits(m, s, chunks)
    ensures PacketsOf(RunOut(m, s, chunks), csid) <= msgs
    ensures chunks == StreamChunks(s.prev, csid, sizes, msgs) ==> PacketsOf(RunOut(m, s, chunks), csid) == msgs
  {
    var all := StreamChunks(s.prev, csid, sizes, msgs);
    StreamRun(m, s, csid, sizes, msgs);
    assert all == chunks + all[|chunks|..];
    RunConcat(m, s, chunks, all[|chunks|..]);
    PacketsConcat(RunOut(m, s, chunks), RunOut(m, RunSlot(m, s, chunks), all[|chunks|..]), csid);
  }

  /** Every stream has a legal id, a context of its own that is idle, sendable messages and a chunk
      size for each. */
  ghost predicate Ready(slots: Slots, sizes: uint32 -> seq<nat>, msgs: map<uint32, seq<Packet>>) {
    && (forall c :: c in msgs ==>
          ValidCsid(c) && slots[SlotOf(c)].partial.None? && AllSendable(msgs[c]) && SizesFor(sizes(c), msgs[c]))
    && (forall c, d :: c in msgs && d in msgs && c != d ==> SlotOf(c) != SlotOf(d))
  }

  /** The trace is an order-preserving merge of beginnings of the streams' chunk sequences. */
  ghost predicate MergeOfPrefixes(slots: Slots, sizes: uint32 -> seq<nat>, msgs: map<uint32, seq<Packet>>,
                                  trace: seq<Chunk>)
    requires Ready(slots, sizes, msgs)
  {
    && (forall i :: 0 <= i < |trace| ==> trace[i].csid in msgs)
    && (forall c :: c in msgs ==> Project(trace, c) <= StreamChunks(slots[SlotOf(c)].prev, c, sizes(c), msgs[c]))
  }

  /** A stream of which these chunks have passed has delivered a beginning of its messages, all of them
      when all its chunks have passed, and its context holds what belongs to the next one. */
  ghost predicate StreamServed(before: Header, csid: uint32, sizes: seq<nat>, msgs: seq<Packet>, passed: seq<Chunk>,
                               s: Slot, out: seq<Packet>)
    requires SizesFor(sizes, msgs)
  {
    && out <= msgs
    && (passed == StreamChunks(before, csid, sizes, msgs) ==> out == msgs)
    && Underway(before, s, msgs, |out|)
  }

  /** One stream of a merge. */
  lemma OneStream(m: Stepper, slots: Slots, sizes: seq<nat>, msgs: seq<Packet>, trace: seq<Chunk>, c: uint32)
    requires SizesFor(sizes, msgs) && Assembles(m) && Separate(trace) && StreamsFit(m, slots, trace)
    requires ValidCsid(c) && slots[SlotOf(c)].partial.None? && AllSendable(msgs)
    requires Project(trace, c) <= StreamChunks(slots[SlotOf(c)].prev, c, sizes, msgs)
    requires forall d: uint32 :: Uses(trace, d) && d != c ==> SlotOf(d) != SlotOf(c)
    ensures StreamServed(slots[SlotOf(c)].prev, c, sizes, msgs, Project(trace, c),
                         TraceSlots(m, slots, trace)[SlotOf(c)], PacketsOf(TraceOut(m, slots, trace), c))
  {
    var part := Project(trace, c);
    PrefixRun(m, slots[SlotOf(c)], c, sizes, msgs, part);
    assert part == StreamChunks(slots[SlotOf(c)].prev, c, sizes, msgs)[..|part|];
    StreamUnderway(m, slots[SlotOf(c)], c, sizes, msgs, |part|);
    TraceIsStreams(m, slots, trace, c);
  }

  lemma AllStreams(m: Stepper, slots: Slots, sizes: uint32 -> seq<nat>, msgs: map<uint32, seq<Packet>>,
                   trace: seq<Chunk>)
    requires Assembles(m) && Ready(slots, sizes, msgs) && MergeOfPrefixes(slots, sizes, msgs, trace)
    requires Separate(trace) && StreamsFit(m, slots, trace) && forall c: uint32 :: Uses(trace, c) ==> c in msgs
    ensures forall c :: c in msgs ==>
              StreamServed(slots[SlotOf(c)].prev, c, sizes(c), msgs[c], Project(trace, c),
                           TraceSlots(m, slots, trace)[SlotOf(c)], PacketsOf(TraceOut(m, slots, trace), c))
  {
    forall c | c in msgs
      ensures StreamServed(slots[SlotOf(c)].prev, c, sizes(c), msgs[c], Project(trace, c),
                           TraceSlots(m, slots, trace)[SlotOf(c)], PacketsOf(TraceOut(m, slots, trace), c))
    {
      OneStream(m, slots, sizes(c), msgs[c], trace, c);
    }
  }

  /** However the chunks of different streams interleave, and whatever chunk size each message is
      written and its chunks are read with, at every point of the run each stream has delivered the
      beginning of its own message sequence, and all of it once all its chunks have passed; its
      context holds a beginning of its next message or is idle, and remembers that stream's last
      header; other contexts do not move; every call succeeds and exactly the chunks' bytes are
      consumed. */
  lemma Interleaving(slots: Slots, sizes: uint32 -> seq<nat>, msgs: map<uint32, seq<Packet>>, trace: seq<Chunk>,
                     tail: seq<byte>)
    requires Ready(slots, sizes, msgs) && MergeOfPrefixes(slots, sizes, msgs, trace)
    ensures var r := ReadEach(ChunkReaders(), slots, TraceBytes(trace) + tail, Limits(trace));
            && r.ok && r.rest == tail
            && (forall c :: c in msgs ==>
                  StreamServed(slots[SlotOf(c)].prev, c, sizes(c), msgs[c], Project(trace, c),
                               r.slots[SlotOf(c)], PacketsOf(r.delivered, c)))
            && (forall k :: 0 <= k < SLOTS && (forall c :: c in msgs ==> SlotOf(c) != k) ==> r.slots[k] == slots[k])
  {
    var m := ChunkStepper();
    StepperAssembles();
    StepperReads();
    MergeFits(m, slots, sizes, msgs, trace);
    ReadTrace(ChunkReaders(), m, slots, trace, tail);
    AllStreams(m, slots, sizes, msgs, trace);
    forall k: uint32 | k < SLOTS && forall c :: c in msgs ==> SlotOf(c) != k
      ensures TraceSlots(m, slots, trace)[k] == slots[k]
    {
      IdleSlot(m, slots, trace, msgs, k);
    }
  }

  lemma UsedStreams(msgs: map<uint32, seq<Packet>>, trace: seq<Chunk>)
    requires forall i :: 0 <= i < |trace| ==> trace[i].csid in msgs
    ensures forall c: uint32 :: Uses(trace, c) ==> c in msgs
  {
    forall c: uint32 | Uses(trace, c)
      ensures c in msgs
    {
      var i :| 0 <= i < |trace| && trace[i].csid == c;
    }
  }

  lemma MergeFits(m: Stepper, slots: Slots, sizes: uint32 -> seq<nat>, msgs: map<uint32, seq<Packet>>,
                  trace: seq<Chunk>)
    requires Assembles(m) && Ready(slots, sizes, msgs) && MergeOfPrefixes(slots, sizes, msgs, trace)
    ensures Separate(trace) && StreamsFit(m, slots, trace) && TraceFits(m, slots, trace)
    ensures forall c: uint32 :: Uses(trace, c) ==> c in msgs
  {
    UsedStreams(msgs, trace);
    forall c: uint32 | Uses(trace, c)
      ensures StreamFits(m, slots[SlotOf(c)], Project(trace, c))
    {
      PrefixRun(m, slots[SlotOf(c)], c, sizes(c), msgs[c], Project(trace, c));
    }
    TraceIsStreams(m, slots, trace, 0);
  }

  lemma IdleSlot(m: Stepper, slots: Slots, trace: seq<Chunk>, msgs: map<uint32, seq<Packet>>, k: uint32)
    requires Separate(trace) && StreamsFit(m, slots, trace) && k < SLOTS
    requires forall c: uint32 :: Uses(trace, c) ==> c in msgs
    requires forall c :: c in msgs ==> SlotOf(c) != k
    ensures TraceSlots(m, slots, trace)[k] == slots[k]
  {
    assert SlotOf(k) == k;
    TraceIsStreams(m, slots, trace, k);
    UnusedProject(trace, k);
  }

  /** Two streams can be merged in any order without harm. */
  ghost predicate MergeSafely(a: uint32, b: uint32) {
    forall sa: seq<nat>, pa: seq<Packet>, sb: seq<nat>, pb: seq<Packet>, trace: seq<Chunk> ::
      IsMerge(a, b, sa, pa, sb, pb, trace) ==> MergeDelivers(a, b, pa, pb, trace)
  }

  ghost predicate MergeDelivers(a: uint32, b: uint32, pa: seq<Packet>, pb: seq<Packet>, trace: seq<Chunk>) {
    var r := ReadEach(ChunkReaders(), FreshSlots(), TraceBytes(trace), Limits(trace));
    r.ok && PacketsOf(r.delivered, a) == pa && PacketsOf(r.delivered, b) == pb
  }

  ghost predicate IsMerge(a: uint32, b: uint32, sa: seq<nat>, pa: seq<Packet>, sb: seq<nat>, pb: seq<Packet>,
                          trace: seq<Chunk>) {
    && SizesFor(sa, pa) && SizesFor(sb, pb) && AllSendable(pa) && AllSendable(pb)
    && (forall i :: 0 <= i < |trace| ==> trace[i].csid == a || trace[i].csid == b)
    && Project(trace, a) == StreamChunks(ZERO_HEADER, a, sa, pa)
    && Project(trace, b) == StreamChunks(ZERO_HEADER, b, sb, pb)
  }

  /** Merging two streams is harmless exactly when their ids differ modulo the 64 contexts. */
  lemma MergeSafelyIff(a: uint32, b: uint32)
    requires ValidCsid(a) && ValidCsid(b) && a != b
    ensures MergeSafely(a, b) <==> a % 64 != b % 64
  {
    if SlotOf(a) != SlotOf(b) {
      forall sa: seq<nat>, pa: seq<Packet>, sb: seq<nat>, pb: seq<Packet>, trace: seq<Chunk>
        | IsMerge(a, b, sa, pa, sb, pb, trace)
        ensures MergeDelivers(a, b, pa, pb, trace)
      {
        SeparateMerge(a, b, sa, pa, sb, pb, trace);
      }
    } else {
      CollisionLosesMessages(a, b);
    }
  }

  lemma SeparateMerge(a: uint32, b: uint32, sa: seq<nat>, pa: seq<Packet>, sb: seq<nat>, pb: seq<Packet>,
                      trace: seq<Chunk>)
    requires ValidCsid(a) && ValidCsid(b) && SlotOf(a) != SlotOf(b)
    requires IsMerge(a, b, sa, pa, sb, pb, trace)
    ensures MergeDelivers(a, b, pa, pb, trace)
  {
    var msgs := map[a := pa, b := pb];
    var sizes: uint32 -> seq<nat> := c => if c == a then sa else sb;
    assert msgs.Keys == {a, b} && a in msgs && b in msgs;
    assert Ready(FreshSlots(), sizes, msgs);
    assert MergeOfPrefixes(FreshSlots(), sizes, msgs, trace);
    assert TraceBytes(trace) + [] == TraceBytes(trace);
    Interleaving(FreshSlots(), sizes, msgs, trace, []);
  }

  lemma CollisionLosesMessages(a: uint32, b: uint32)
    requires ValidCsid(a) && ValidCsid(b) && a != b && SlotOf(a) == SlotOf(b)
    ensures !MergeSafely(a, b)
  {
    var h := Header(0, 2, 9, 1);
    var a1, a2 := Chunk(a, 0, h, [1], 1), Chunk(a, 3, h, [1], 1);
    var b1, b2 := Chunk(b, 0, h, [2], 1), Chunk(b, 3, h, [2], 1);
    CollidingMerge(a1, b1, a2, b2, h);
    CollidingRun(a1, b1, a2, b2, h);
    NothingOfFirst(a, b, [MessageOf(h, [1, 1])], [MessageOf(h, [2, 2])], [a1, b1, a2, b2]);
  }

  lemma NothingOfFirst(a: uint32, b: uint32, pa: seq<Packet>, pb: seq<Packet>, trace: seq<Chunk>)
    requires pa != [] && IsMerge(a, b, [1], pa, [1], pb, trace)
    requires PacketsOf(ReadEach(ChunkReaders(), FreshSlots(), TraceBytes(trace), Limits(trace)).delivered, a) == []
    ensures !MergeSafely(a, b)
  {
    assert !MergeDelivers(a, b, pa, pb, trace);
  }

  lemma CollidingMerge(a1: Chunk, b1: Chunk, a2: Chunk, b2: Chunk, h: Header)
    requires h == Header(0, 2, 9, 1)
    requires a1 == Chunk(a1.csid, 0, h, [1], 1) && a2 == Chunk(a1.csid, 3, h, [1], 1)
    requires b1 == Chunk(b1.csid, 0, h, [2], 1) && b2 == Chunk(b1.csid, 3, h, [2], 1)
    requires a1.csid != b1.csid
    ensures IsMerge(a1.csid, b1.csid, [1], [MessageOf(h, [1, 1])], [1], [MessageOf(h, [2, 2])], [a1, b1, a2, b2])
  {
    TwoByteChunks(a1.csid, 1);
    TwoByteChunks(b1.csid, 2);
    ProjectFour(a1, b1, a2, b2);
  }

  lemma CollidingRun(a1: Chunk, b1: Chunk, a2: Chunk, b2: Chunk, h: Header)
    requires h == Header(0, 2, 9, 1)
    requires a1 == Chunk(a1.csid, 0, h, [1], 1) && a2 == Chunk(a1.csid, 3, h, [1], 1) && ValidCsid(a1.csid)
    requires b1 == Chunk(b1.csid, 0, h, [2], 1) && b2 == Chunk(b1.csid, 3, h, [2], 1) && ValidCsid(b1.csid)
    requires SlotOf(a1.csid) == SlotOf(b1.csid) && a1.csid != b1.csid
    ensures var trace := [a1, b1, a2, b2];
            PacketsOf(ReadEach(ChunkReaders(), FreshSlots(), TraceBytes(trace), Limits(trace)).delivered, a1.csid) == []
  {
    var trace := [a1, b1, a2, b2];
    var m := ChunkStepper();
    StepperAssembles();
    StepperReads();
    CollidingTrace(m, a1, b1, a2, b2, h);
    ReadTrace(ChunkReaders(), m, FreshSlots(), trace, []);
    assert TraceBytes(trace) + [] == TraceBytes(trace);
    NotDelivered(a1.csid, (b1.csid, MessageOf(h, [1, 2])));
  }

  lemma ProjectFour(a1: Chunk, b1: Chunk, a2: Chunk, b2: Chunk)
    requires a1.csid == a2.csid && b1.csid == b2.csid && a1.csid != b1.csid
    ensures Project([a1, b1, a2, b2], a1.csid) == [a1, a2]
    ensures Project([a1, b1, a2, b2], b1.csid) == [b1, b2]
  {
    forall c: uint32
      ensures Project([a1, b1, a2, b2], c) == Keep(a1, c) + (Keep(b1, c) + (Keep(a2, c) + (Keep(b2, c) + [])))
    {
      assert [b2][1..] == [];
      assert [a2, b2][1..] == [b2] && Project([b2], c) == Keep(b2, c) + [];
      assert [b1, a2, b2][1..] == [a2, b2] && Project([a2, b2], c) == Keep(a2, c) + Project([b2], c);
      assert [a1, b1, a2, b2][1..] == [b1, a2, b2];
      assert Project([b1, a2, b2], c) == Keep(b1, c) + Project([a2, b2], c);
    }
  }

  function Keep(c: Chunk, csid: uint32): seq<Chunk> {
    if c.csid == csid then [c] else []
  }

  lemma NotDelivered(csid: uint32, d: (uint32, Packet))
    requires d.0 != csid
    ensures PacketsOf([d, d], csid) == []
  {
    assert [d][1..] == [] && PacketsOf([d], csid) == [];
    assert [d, d][1..] == [d];
  }

  lemma CollidingTrace(m: Stepper, a1: Chunk, b1: Chunk, a2: Chunk, b2: Chunk, h: Header)
    requires Assembles(m) && h == Header(0, 2, 9, 1)
    requires a1 == Chunk(a1.csid, 0, h, [1], 1) && a2 == Chunk(a1.csid, 3, h, [1], 1) && ValidCsid(a1.csid)
    requires b1 == Chunk(b1.csid, 0, h, [2], 1) && b2 == Chunk(b1.csid, 3, h, [2], 1) && ValidCsid(b1.csid)
    requires SlotOf(a1.csid) == SlotOf(b1.csid)
    ensures TraceFits(m, FreshSlots(), [a1, b1, a2, b2])
    ensures TraceOut(m, FreshSlots(), [a1, b1, a2, b2])
         == [(b1.csid, MessageOf(h, [1, 2])), (b1.csid, MessageOf(h, [1, 2]))]
  {
    var u0 := FreshSlots();
    var mixed: (uint32, Packet) := (b1.csid, MessageOf(h, [1, 2]));
    var u1 := CollidingStep(m, u0, a1, [], h);
    var u2 := CollidingStep(m, u1, b1, [1], h);
    var u3 := CollidingStep(m, u2, a2, [], h);
    var u4 := CollidingStep(m, u3, b2, [1], h);
    assert [1] + [2] == [1, 2];
    LastChunk(m, u3, b2);
    ThenChunk(m, u2, a2, [b2]);
    ThenChunk(m, u1, b1, [a2, b2]);
    ThenChunk(m, u0, a1, [b1, a2, b2]);
    assert [a2] + [b2] == [a2, b2];
    assert [b1] + [a2, b2] == [b1, a2, b2];
    assert [a1] + [b1, a2, b2] == [a1, b1, a2, b2];
  }

  lemma LastChunk(m: Stepper, slots: Slots, c: Chunk)
    requires m.fits(slots[SlotOf(c.csid)], c)
    ensures TraceFits(m, slots, [c]) && TraceOut(m, slots, [c]) == Tag(c.csid, m.out(slots[SlotOf(c.csid)], c))
  {
    assert [c] + [] == [c];
    ThenChunk(m, slots, c, []);
  }

  lemma ThenChunk(m: Stepper, slots: Slots, c: Chunk, rest: seq<Chunk>)
    requires m.fits(slots[SlotOf(c.csid)], c) && TraceFits(m, Advance(m, slots, c), rest)
    ensures TraceFits(m, slots, [c] + rest)
    ensures TraceOut(m, slots, [c] + rest)
         == Tag(c.csid, m.out(slots[SlotOf(c.csid)], c)) + TraceOut(m, Advance(m, slots, c), rest)
  {
    assert ([c] + rest)[1..] == rest;
  }

  lemma TwoByteChunks(csid: uint32, x: byte)
    ensures StreamChunks(ZERO_HEADER, csid, [1], [Packet(9, 0, 1, [x, x])])
         == [Chunk(csid, 0, Header(0, 2, 9, 1), [x], 1), Chunk(csid, 3, Header(0, 2, 9, 1), [x], 1)]
  {
    var p := Packet(9, 0, 1, [x, x]);
    var h := Header(0, 2, 9, 1);
    var data := p.data[..SentSize(p)];
    assert data == [x, x] && data[..1] == [x] && data[1..] == [x];
    assert [x][..1] == [x] && [x][1..] == [];
    assert Continuations(csid, 1, h, [x]) == [Chunk(csid, 3, h, [x], 1)] + Continuations(csid, 1, h, []);
    assert StreamChunks(h, csid, [1][1..], [p][1..]) == [];
  }

  lemma CollidingStep(m: Stepper, slots: Slots, c: Chunk, got: seq<byte>, h: Header) returns (slots': Slots)
    requires Assembles(m) && h == Header(0, 2, 9, 1) && c.header == h && |c.payload| == 1 == c.limit
    requires ValidCsid(c.csid) && |got| < 2
    requires slots[SlotOf(c.csid)].partial == (if got == [] then None else Some(Partial(2, got)))
    requires c.fmt == 0 || (c.fmt == 3 && slots[SlotOf(c.csid)].prev == h)
    ensures var s := slots[SlotOf(c.csid)];
            && slots' == Advance(m, slots, c)
            && m.fits(s, c)
            && slots'[SlotOf(c.csid)].prev == h
            && slots'[SlotOf(c.csid)].partial == (if got == [] then Some(Partial(2, c.payload)) else None)
            && m.out(s, c) == if got == [] then None else Some(MessageOf(h, got + c.payload))
  {
    var s := slots[SlotOf(c.csid)];
    assert Fits(s, 1, c);
    assert Assembled(m, s, c);
    assert [] + c.payload == c.payload;
    slots' := Advance(m, slots, c);
  }

  // -------------------------------------------------------------------- lock-step

  /** What an application does with a connection: send a message, or agree on a chunk size. */
  datatype Event = Send(csid: uint32, packet: Packet) | SetSize(size: uint32)

  ghost predicate MessagesOk(events: seq<Event>) {
    forall i :: 0 <= i < |events| && events[i].Send? ==> ValidCsid(events[i].csid) && Sendable(events[i].packet)
  }

  /** Chunk size 0 is left out: the source would loop forever on it. */
  ghost predicate SizesOk(events: seq<Event>) {
    forall i :: 0 <= i < |events| && events[i].SetSize? ==> events[i].size > 0
  }

  function WriterSlots(slots: Slots, events: seq<Event>): Slots
    decreases |events|
  {
    if events == [] then slots
    else if events[0].SetSize? then WriterSlots(slots, events[1..])
    else WriterSlots(AfterWrite(slots, events[0].csid, events[0].packet), events[1..])
  }

  function Wire(slots: Slots, cs: nat, events: seq<Event>): seq<byte>
    requires cs > 0 && SizesOk(events)
    decreases |events|
  {
    if events == [] then []
    else if events[0].SetSize? then Wire(slots, Clamp(events[0].size), events[1..])
    else
      MessageWire(slots[SlotOf(events[0].csid)].prev, events[0].csid, cs, events[0].packet)
      + Wire(AfterWrite(slots, events[0].csid, events[0].packet), cs, events[1..])
  }

  /** The reader's side of the same events: as many calls per message as it has chunks. */
  function ReadEvents(slots: Slots, cs: nat, events: seq<Event>, input: seq<byte>): Run
    requires cs > 0 && SizesOk(events)
    decreases |events|
  {
    if events == [] then Run(slots, input, [], true)
    else if events[0].SetSize? then ReadEvents(slots, Clamp(events[0].size), events[1..], input)
    else
      var a := ReadN(slots, cs, input, Calls(cs, SentSize(events[0].packet)));
      if !a.ok then a
      else
        var b := ReadEvents(a.slots, cs, events[1..], a.rest);
        Run(b.slots, b.rest, a.delivered + b.delivered, b.ok)
  }

  function Sent(events: seq<Event>): seq<(uint32, Packet)> {
    if events == [] then []
    else (if events[0].Send? then [(events[0].csid, events[0].packet)] else []) + Sent(events[1..])
  }

  /** The endpoints remember the same headers, and the reader is between messages. */
  ghost predicate Synced(w: Slots, r: Slots) {
    forall k :: 0 <= k < SLOTS ==> r[k].prev == w[k].prev && r[k].partial.None?
  }

  lemma {:induction false} ContinuationCsids(csid: uint32, cs: nat, h: Header, data: seq<byte>)
    requires cs > 0
    ensures forall i :: 0 <= i < |Continuations(csid, cs, h, data)| ==>
              Continuations(csid, cs, h, data)[i].csid == csid && Continuations(csid, cs, h, data)[i].limit == cs
    decreases |data|
  {
    if data == [] {
    } else {
      var rest := Continuations(csid, cs, h, data[Min(cs, |data|)..]);
      var chunks := Continuations(csid, cs, h, data);
      ContinuationCsids(csid, cs, h, data[Min(cs, |data|)..]);
      assert chunks == chunks[..1] + rest;
    }
  }

  /** The reader took the message in: its context is idle and remembers the header, and the others are
      as they were. */
  ghost predicate TookIn(before: Slots, after: Slots, csid: uint32, p: Packet) {
    && after[SlotOf(csid)].prev == HeaderOf(p) && after[SlotOf(csid)].partial.None?
    && forall k :: 0 <= k < SLOTS && k != SlotOf(csid) ==> after[k] == before[k]
  }

  /** One message whose header form was chosen against prev, read by an idle context in which that
      form carries the header. */
  lemma MessageRead(prev: Header, r: Slots, cs: nat, csid: uint32, p: Packet, tail: seq<byte>)
    requires cs > 0 && ValidCsid(csid) && Sendable(p) && r[SlotOf(csid)].partial.None?
    requires Carries(HeaderOf(p), r[SlotOf(csid)].prev, ChooseFmt(HeaderOf(p), prev))
    ensures var run := ReadN(r, cs, MessageWire(prev, csid, cs, p) + tail, Calls(cs, |p.data|));
            run.ok && run.rest == tail && run.delivered == [(csid, p)] && TookIn(r, run.slots, csid, p)
  {
    var k := SlotOf(csid);
    SendableSize(p);
    var chunks := MessageChunks(prev, csid, cs, p);
    var m := ChunkStepper();
    StepperAssembles();
    StepperReads();
    MessageRunAs(m, r[k], prev, csid, cs, p);
    var rest := Continuations(csid, cs, HeaderOf(p), p.data[Min(cs, |p.data|)..]);
    ContinuationCsids(csid, cs, HeaderOf(p), p.data[Min(cs, |p.data|)..]);
    assert chunks == chunks[..1] + rest;
    TraceOfOneStream(m, r, chunks, csid);
    ReadTrace(ChunkReaders(), m, r, chunks, tail);
    ReadEachSame(ChunkReaders(), r, TraceBytes(chunks) + tail, Limits(chunks), cs);
    WireIsChunks(prev, csid, cs, p);
    CallCount(prev, csid, cs, p);
  }

  /** One message: the reader takes max(1, ceil(size / chunk)) calls, delivers it, consumes its
      bytes and ends in step with the writer. */
  lemma MessageInStep(w: Slots, r: Slots, cs: nat, csid: uint32, p: Packet, tail: seq<byte>)
    requires cs > 0 && ValidCsid(csid) && Sendable(p) && Synced(w, r)
    ensures var run := ReadN(r, cs, MessageWire(w[SlotOf(csid)].prev, csid, cs, p) + tail,
                             Calls(cs, |p.data|));
            && run.ok && run.rest == tail && run.delivered == [(csid, p)]
            && Synced(AfterWrite(w, csid, p), run.slots)
  {
    SendableSize(p);
    ChosenCarriesIff(HeaderOf(p), w[SlotOf(csid)].prev);
    MessageRead(w[SlotOf(csid)].prev, r, cs, csid, p, tail);
  }

  // --------------------------------------------------------- headers that stand alone

  /** A complete header at the front of the input, read against prev, is h. */
  ghost predicate ReadsHeader(input: seq<byte>, prev: Header, h: Header) {
    match ParseBasic(input)
    case None => false
    case Some((fmt, _, n)) =>
      n + FieldsSize(fmt) <= |input| && ParseFields(fmt, input[n..n + FieldsSize(fmt)], prev) == h
  }

  lemma HeaderAsChosen(prev: Header, csid: uint32, cs: nat, p: Packet, prev': Header)
    requires cs > 0 && ValidCsid(csid)
    ensures ReadsHeader(MessageWire(prev, csid, cs, p), prev', HeaderOf(p))
        <==> Carries(HeaderOf(p), prev', ChooseFmt(HeaderOf(p), prev))
  {
    var h, fmt := HeaderOf(p), ChooseFmt(HeaderOf(p), prev);
    var basic, fields := EncodeBasic(fmt, csid), EncodeFields(h, fmt);
    var payload := PayloadWire(csid, cs, p.data[..SentSize(p)]);
    HeadSlices(basic, fields, payload, []);
    assert basic + fields + payload + [] == MessageWire(prev, csid, cs, p);
    BasicRoundTripIff(fmt, csid, fields + (payload + []));
    HeaderRestoredIff(h, prev', fmt);
  }

  /** The header of a message can be read by an endpoint that remembers anything at all exactly when it
      is the first on its context, or follows an empty message or one of another message stream, and
      its fields fit. */
  lemma StandsAloneIff(prev: Header, csid: uint32, cs: nat, p: Packet)
    requires cs > 0 && ValidCsid(csid)
    ensures (forall prev': Header :: ReadsHeader(MessageWire(prev, csid, cs, p), prev', HeaderOf(p)))
        <==> Fits24(HeaderOf(p)) && (prev.length == 0 || p.streamId != prev.streamId)
  {
    var other := Header(0, 0, 0, (p.streamId + 1) % TWO_32);
    assert other.streamId != p.streamId;
    HeaderAsChosen(prev, csid, cs, p, other);
    HeaderAsChosen(prev, csid, cs, p, ZERO_HEADER);
    if Fits24(HeaderOf(p)) && (prev.length == 0 || p.streamId != prev.streamId) {
      forall prev': Header
        ensures ReadsHeader(MessageWire(prev, csid, cs, p), prev', HeaderOf(p))
      {
        HeaderAsChosen(prev, csid, cs, p, prev');
      }
    }
  }

  /** The first message that an endpoint writes on a context stands alone. */
  lemma FirstStandsAloneIff(csid: uint32, cs: nat, p: Packet)
    requires cs > 0 && ValidCsid(csid)
    ensures (forall prev': Header ::
               ReadsHeader(MessageWire(FreshSlots()[SlotOf(csid)].prev, csid, cs, p), prev', HeaderOf(p)))
        <==> p.timestamp < 0x100_0000 && |p.data| % 0x1_0000_0000 < 0x100_0000
  {
    StandsAloneIff(FreshSlots()[SlotOf(csid)].prev, csid, cs, p);
  }

  /** Such a message is delivered by any endpoint whose context for it is idle. */
  lemma FirstMessageDelivered(prev: Header, r: Slots, cs: nat, csid: uint32, p: Packet, tail: seq<byte>)
    requires cs > 0 && ValidCsid(csid) && Sendable(p) && r[SlotOf(csid)].partial.None?
    requires prev.length == 0 || p.streamId != prev.streamId
    ensures var run := ReadN(r, cs, MessageWire(prev, csid, cs, p) + tail, Calls(cs, |p.data|));
            run.ok && run.rest == tail && run.delivered == [(csid, p)] && TookIn(r, run.slots, csid, p)
  {
    SendableSize(p);
    StandsAloneIff(prev, csid, cs, p);
    assert ReadsHeader(MessageWire(prev, csid, cs, p), r[SlotOf(csid)].prev, HeaderOf(p));
    HeaderAsChosen(prev, csid, cs, p, r[SlotOf(csid)].prev);
    MessageRead(prev, r, cs, csid, p, tail);
  }

  /** Codec lock-step: for every sequence of messages and agreed chunk sizes, reading what the
      writer sent yields the same messages in the same order, consumes exactly its bytes, and
      leaves both ends with the same remembered headers. */
  lemma {:induction false} LockStep(w: Slots, r: Slots, cs: nat, events: seq<Event>, tail: seq<byte>)
    requires cs > 0 && Synced(w, r) && SizesOk(events) && MessagesOk(events)
    ensures var run := ReadEvents(r, cs, events, Wire(w, cs, events) + tail);
            && run.ok && run.rest == tail && run.delivered == Sent(events)
            && Synced(WriterSlots(w, events), run.slots)
    decreases |events|
  {
    if events == [] {
      assert Wire(w, cs, events) + tail == tail;
    } else if events[0].SetSize? {
      LockStep(w, r, Clamp(events[0].size), events[1..], tail);
    } else {
      var csid, p := events[0].csid, events[0].packet;
      var first := MessageWire(w[SlotOf(csid)].prev, csid, cs, p);
      var w' := AfterWrite(w, csid, p);
      var rest := Wire(w', cs, events[1..]) + tail;
      SendableSize(p);
      MessageInStep(w, r, cs, csid, p, rest);
      assert Wire(w, cs, events) + tail == first + rest;
      var a := ReadN(r, cs, first + rest, Calls(cs, SentSize(p)));
      LockStep(w', a.slots, cs, events[1..], tail);
    }
  }

  // -------------------------------------------------- when delivery is faithful

  function Sends(msgs: seq<(uint32, Packet)>): seq<Event> {
    seq(|msgs|, i requires 0 <= i < |msgs| => Send(msgs[i].0, msgs[i].1))
  }

  function TotalCalls(cs: nat, msgs: seq<(uint32, Packet)>): nat
    requires cs > 0
  {
    if msgs == [] then 0 else Calls(cs, SentSize(msgs[0].1)) + TotalCalls(cs, msgs[1..])
  }

  lemma {:induction false} EventsAsCalls(slots: Slots, cs: nat, msgs: seq<(uint32, Packet)>, input: seq<byte>)
    requires cs > 0 && SizesOk(Sends(msgs)) && ReadEvents(slots, cs, Sends(msgs), input).ok
    ensures ReadN(slots, cs, input, TotalCalls(cs, msgs)) == ReadEvents(slots, cs, Sends(msgs), input)
    decreases |msgs|
  {
    if msgs == [] {
      assert Sends(msgs) == [];
    } else {
      var a := ReadN(slots, cs, input, Calls(cs, SentSize(msgs[0].1)));
      FirstSend(slots, cs, msgs, input);
      EventsAsCalls(a.slots, cs, msgs[1..], a.rest);
      FirstAsCalls(slots, cs, msgs, input);
    }
  }

  lemma FirstAsCalls(slots: Slots, cs: nat, msgs: seq<(uint32, Packet)>, input: seq<byte>)
    requires cs > 0 && msgs != [] && SizesOk(Sends(msgs)) && SizesOk(Sends(msgs[1..]))
    requires var a := ReadN(slots, cs, input, Calls(cs, SentSize(msgs[0].1)));
             && a.ok
             && ReadN(a.slots, cs, a.rest, TotalCalls(cs, msgs[1..]))
             == ReadEvents(a.slots, cs, Sends(msgs[1..]), a.rest)
    ensures ReadN(slots, cs, input, TotalCalls(cs, msgs)) == ReadEvents(slots, cs, Sends(msgs), input)
  {
    FirstSend(slots, cs, msgs, input);
    SplitCalls(slots, cs, input, Calls(cs, SentSize(msgs[0].1)), TotalCalls(cs, msgs[1..]));
  }

  lemma SplitCalls(slots: Slots, cs: nat, input: seq<byte>, m: nat, n: nat)
    requires ReadN(slots, cs, input, m).ok
    ensures var a := ReadN(slots, cs, input, m);
            var b := ReadN(a.slots, cs, a.rest, n);
            ReadN(slots, cs, input, m + n) == Run(b.slots, b.rest, a.delivered + b.delivered, b.ok)
  {
    ReadWithSplit(ChunkReader(cs), slots, input, m, n);
  }

  lemma FirstSend(slots: Slots, cs: nat, msgs: seq<(uint32, Packet)>, input: seq<byte>)
    requires cs > 0 && msgs != [] && SizesOk(Sends(msgs))
    ensures SizesOk(Sends(msgs[1..]))
    ensures var a := ReadN(slots, cs, input, Calls(cs, SentSize(msgs[0].1)));
            var b := ReadEvents(a.slots, cs, Sends(msgs[1..]), a.rest);
            ReadEvents(slots, cs, Sends(msgs), input) ==
              if a.ok then Run(b.slots, b.rest, a.delivered + b.delivered, b.ok) else a
  {
    assert Sends(msgs)[1..] == Sends(msgs[1..]);
    assert Sends(msgs)[0] == Send(msgs[0].0, msgs[0].1);
  }

  lemma {:induction false} SentOfSends(msgs: seq<(uint32, Packet)>)
    ensures Sent(Sends(msgs)) == msgs
  {
    if msgs == [] {
    } else {
      assert Sends(msgs)[1..] == Sends(msgs[1..]);
      SentOfSends(msgs[1..]);
      assert [msgs[0]] + msgs[1..] == msgs;
    }
  }

  /** From fresh endpoints, some number of reads delivers exactly the messages that were sent if
      and only if every timestamp and every size fits in 24 bits. */
  lemma FaithfulIff(cs: nat, msgs: seq<(uint32, Packet)>)
    requires cs > 0 && forall i :: 0 <= i < |msgs| ==> ValidCsid(msgs[i].0)
    ensures (exists n: nat :: Delivers(cs, msgs, n)) <==> (forall i :: 0 <= i < |msgs| ==> Sendable(msgs[i].1))
  {
    if forall i :: 0 <= i < |msgs| ==> Sendable(msgs[i].1) {
      var wire := Wire(FreshSlots(), cs, Sends(msgs));
      LockStep(FreshSlots(), FreshSlots(), cs, Sends(msgs), []);
      assert wire + [] == wire;
      EventsAsCalls(FreshSlots(), cs, msgs, wire);
      SentOfSends(msgs);
      assert Delivers(cs, msgs, TotalCalls(cs, msgs));
    }
    if n: nat :| Delivers(cs, msgs, n) {
      ChunkReaderSafe(cs);
      ReadWithSafe(ChunkReader(cs), FreshSlots(), Wire(FreshSlots(), cs, Sends(msgs)), n);
    }
  }

  ghost predicate Delivers(cs: nat, msgs: seq<(uint32, Packet)>, n: nat)
    requires cs > 0
  {
    var r := ReadN(FreshSlots(), cs, Wire(FreshSlots(), cs, Sends(msgs)), n);
    r.ok && r.delivered == msgs
  }
}
