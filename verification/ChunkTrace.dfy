/** Interleaving of independent streams, for any per-slot step function: a trace of chunks over
    64 slots behaves, stream by stream, as each stream alone. */
module ChunkTrace {
  import opened Bytes
  import opened ChunkHeader
  import opened ChunkStream

  /** What one slot does with a chunk, what comes out, and which chunks it is ready for. */
  datatype Stepper = Stepper(next: (Slot, Chunk) -> Slot,
                             out: (Slot, Chunk) -> Option<Packet>,
                             fits: (Slot, Chunk) -> bool)

  // ----------------------------------------------------------- one stream, one slot

  function RunSlot(m: Stepper, s: Slot, chunks: seq<Chunk>): Slot
    decreases |chunks|
  {
    if chunks == [] then s else RunSlot(m, m.next(s, chunks[0]), chunks[1..])
  }

  function RunOut(m: Stepper, s: Slot, chunks: seq<Chunk>): seq<(uint32, Packet)>
    decreases |chunks|
  {
    if chunks == [] then []
    else Tag(chunks[0].csid, m.out(s, chunks[0])) + RunOut(m, m.next(s, chunks[0]), chunks[1..])
  }

  predicate StreamFits(m: Stepper, s: Slot, chunks: seq<Chunk>)
    decreases |chunks|
  {
    chunks == [] || (m.fits(s, chunks[0]) && StreamFits(m, m.next(s, chunks[0]), chunks[1..]))
  }

  lemma {:induction false} RunConcat(m: Stepper, s: Slot, a: seq<Chunk>, b: seq<Chunk>)
    ensures RunSlot(m, s, a + b) == RunSlot(m, RunSlot(m, s, a), b)
    ensures RunOut(m, s, a + b) == RunOut(m, s, a) + RunOut(m, RunSlot(m, s, a), b)
    ensures StreamFits(m, s, a + b) <==> StreamFits(m, s, a) && StreamFits(m, RunSlot(m, s, a), b)
    decreases |a|
  {
    if a == [] {
      assert a + b == b;
    } else {
      assert (a + b)[1..] == a[1..] + b && (a + b)[0] == a[0];
      RunConcat(m, m.next(s, a[0]), a[1..], b);
    }
  }

  // --------------------------------------------------------- a trace over all slots

  function Advance(m: Stepper, slots: Slots, c: Chunk): Slots {
    slots[SlotOf(c.csid) := m.next(slots[SlotOf(c.csid)], c)]
  }

  function TraceSlots(m: Stepper, slots: Slots, trace: seq<Chunk>): Slots
    decreases |trace|
  {
    if trace == [] then slots else TraceSlots(m, Advance(m, slots, trace[0]), trace[1..])
  }

  function TraceOut(m: Stepper, slots: Slots, trace: seq<Chunk>): seq<(uint32, Packet)>
    decreases |trace|
  {
    if trace == [] then []
    else
      Tag(trace[0].csid, m.out(slots[SlotOf(trace[0].csid)], trace[0]))
      + TraceOut(m, Advance(m, slots, trace[0]), trace[1..])
  }

  predicate TraceFits(m: Stepper, slots: Slots, trace: seq<Chunk>)
    decreases |trace|
  {
    trace == [] ||
    (m.fits(slots[SlotOf(trace[0].csid)], trace[0]) && TraceFits(m, Advance(m, slots, trace[0]), trace[1..]))
  }

  /** The reader consumes exactly the bytes of a fitting chunk and moves its slot as m says. */
  ghost predicate ReadsFitting(readers: Readers, m: Stepper) {
    forall slots: Slots, c: Chunk, tail: seq<byte> ::
      m.fits(slots[SlotOf(c.csid)], c) ==> ReadsOne(readers(c.limit), m, slots, c, tail)
  }

  ghost predicate ReadsOne(reader: Reader, m: Stepper, slots: Slots, c: Chunk, tail: seq<byte>) {
    var step := reader(slots, ChunkBytes(c) + tail);
    && step.0 == Advance(m, slots, c)
    && step.1 == tail
    && (step.2.More? || step.2.Done?)
    && Delivery(step.2) == Tag(c.csid, m.out(slots[SlotOf(c.csid)], c))
  }

  /** The chunk sizes in force along a trace. */
  function Limits(trace: seq<Chunk>): (r: seq<nat>)
    ensures |r| == |trace|
    ensures forall i :: 0 <= i < |trace| ==> r[i] == trace[i].limit
  {
    if trace == [] then [] else [trace[0].limit] + Limits(trace[1..])
  }

  /** One call per chunk, each under that chunk's size, reads a fitting trace. */
  lemma {:induction false} ReadTrace(readers: Readers, m: Stepper, slots: Slots, trace: seq<Chunk>, tail: seq<byte>)
    requires ReadsFitting(readers, m) && TraceFits(m, slots, trace)
    ensures ReadEach(readers, slots, TraceBytes(trace) + tail, Limits(trace))
         == Run(TraceSlots(m, slots, trace), tail, TraceOut(m, slots, trace), true)
    decreases |trace|
  {
    if trace == [] {
      assert TraceBytes(trace) + tail == tail;
    } else {
      var c := trace[0];
      var rest := TraceBytes(trace[1..]) + tail;
      assert TraceBytes(trace) + tail == ChunkBytes(c) + rest;
      assert ReadsOne(readers(c.limit), m, slots, c, rest);
      assert Limits(trace)[1..] == Limits(trace[1..]);
      ReadTrace(readers, m, Advance(m, slots, c), trace[1..], tail);
    }
  }

  // ------------------------------------------------------------- streams of a trace

  function Project(trace: seq<Chunk>, csid: uint32): seq<Chunk> {
    if trace == [] then []
    else (if trace[0].csid == csid then [trace[0]] else []) + Project(trace[1..], csid)
  }

  function PacketsOf(outs: seq<(uint32, Packet)>, csid: uint32): seq<Packet> {
    if outs == [] then []
    else (if outs[0].0 == csid then [outs[0].1] else []) + PacketsOf(outs[1..], csid)
  }

  lemma {:induction false} PacketsConcat(a: seq<(uint32, Packet)>, b: seq<(uint32, Packet)>, csid: uint32)
    ensures PacketsOf(a + b, csid) == PacketsOf(a, csid) + PacketsOf(b, csid)
    decreases |a|
  {
    if a == [] {
      assert a + b == b;
      assert PacketsOf(a, csid) + PacketsOf(b, csid) == PacketsOf(b, csid);
    } else {
      var head := if a[0].0 == csid then [a[0].1] else [];
      var x, y := PacketsOf(a[1..], csid), PacketsOf(b, csid);
      var c := a + b;
      PacketsConcat(a[1..], b, csid);
      assert c[1..] == a[1..] + b && c[0] == a[0];
      assert PacketsOf(c, csid) == head + (x + y);
      assert head + (x + y) == (head + x) + y;
    }
  }

  predicate Uses(trace: seq<Chunk>, csid: uint32) {
    exists i :: 0 <= i < |trace| && trace[i].csid == csid
  }

  /** Chunk streams that appear together occupy different slots. */
  ghost predicate Separate(trace: seq<Chunk>) {
    forall a: uint32, b: uint32 :: Uses(trace, a) && Uses(trace, b) && a != b ==> SlotOf(a) != SlotOf(b)
  }

  ghost predicate StreamsFit(m: Stepper, slots: Slots, trace: seq<Chunk>) {
    forall csid: uint32 :: Uses(trace, csid) ==> StreamFits(m, slots[SlotOf(csid)], Project(trace, csid))
  }

  lemma UsesSplit(trace: seq<Chunk>, csid: uint32)
    requires trace != []
    ensures Uses(trace, csid) <==> trace[0].csid == csid || Uses(trace[1..], csid)
  {
    if Uses(trace, csid) && trace[0].csid != csid {
      var i :| 0 <= i < |trace| && trace[i].csid == csid;
      assert trace[1..][i - 1].csid == csid;
    }
    if Uses(trace[1..], csid) {
      var i :| 0 <= i < |trace[1..]| && trace[1..][i].csid == csid;
      assert trace[i + 1].csid == csid;
    }
  }

  lemma {:induction false} UnusedProject(trace: seq<Chunk>, csid: uint32)
    requires !Uses(trace, csid)
    ensures Project(trace, csid) == []
  {
    if trace == [] {
    } else {
      UsesSplit(trace, csid);
      UnusedProject(trace[1..], csid);
    }
  }

  /** After the first chunk of a separate trace the remaining streams still fit. */
  lemma StreamsFitStep(m: Stepper, slots: Slots, trace: seq<Chunk>)
    requires trace != [] && Separate(trace) && StreamsFit(m, slots, trace)
    ensures m.fits(slots[SlotOf(trace[0].csid)], trace[0])
    ensures StreamsFit(m, Advance(m, slots, trace[0]), trace[1..]) && Separate(trace[1..])
  {
    var c0, rest := trace[0], trace[1..];
    var slots' := Advance(m, slots, c0);
    UsesSplit(trace, c0.csid);
    assert Project(trace, c0.csid) == [c0] + Project(rest, c0.csid);
    forall csid: uint32 | Uses(rest, csid)
      ensures Uses(trace, csid)
      ensures StreamFits(m, slots'[SlotOf(csid)], Project(rest, csid))
    {
      UsesSplit(trace, csid);
      if csid != c0.csid {
        assert Project(trace, csid) == Project(rest, csid);
      }
    }
  }

  /** Each stream of a separate trace runs as if it were alone, and unused slots do not move. */
  lemma {:induction false} TraceIsStreams(m: Stepper, slots: Slots, trace: seq<Chunk>, csid: uint32)
    requires Separate(trace) && StreamsFit(m, slots, trace)
    ensures TraceFits(m, slots, trace)
    ensures PacketsOf(TraceOut(m, slots, trace), csid)
         == PacketsOf(RunOut(m, slots[SlotOf(csid)], Project(trace, csid)), csid)
    ensures (forall c: uint32 :: Uses(trace, c) && c != csid ==> SlotOf(c) != SlotOf(csid)) ==>
              TraceSlots(m, slots, trace)[SlotOf(csid)] == RunSlot(m, slots[SlotOf(csid)], Project(trace, csid))
    decreases |trace|
  {
    if trace == [] {
    } else {
      var c0, rest := trace[0], trace[1..];
      var slots' := Advance(m, slots, c0);
      StreamsFitStep(m, slots, trace);
      TraceIsStreams(m, slots', rest, csid);
      forall c: uint32 | Uses(rest, c)
        ensures Uses(trace, c)
      {
        UsesSplit(trace, c);
      }
      UsesSplit(trace, c0.csid);
      UsesSplit(trace, csid);
      var own := Project(rest, csid);
      var first := Tag(c0.csid, m.out(slots[SlotOf(c0.csid)], c0));
      PacketsConcat(first, TraceOut(m, slots', rest), csid);
      if csid == c0.csid {
        assert Project(trace, csid) == [c0] + own;
        PacketsConcat(first, RunOut(m, slots'[SlotOf(csid)], own), csid);
      } else {
        assert PacketsOf(first, csid) == [];
        assert Project(trace, csid) == own;
        if !Uses(rest, csid) {
          UnusedProject(rest, csid);
        }
      }
    }
  }

  /** A trace of one stream is that stream. */
  lemma {:induction false} TraceOfOneStream(m: Stepper, slots: Slots, trace: seq<Chunk>, csid: uint32)
    requires forall i :: 0 <= i < |trace| ==> trace[i].csid == csid
    requires StreamFits(m, slots[SlotOf(csid)], trace)
    ensures TraceFits(m, slots, trace)
    ensures TraceOut(m, slots, trace) == RunOut(m, slots[SlotOf(csid)], trace)
    ensures TraceSlots(m, slots, trace) == slots[SlotOf(csid) := RunSlot(m, slots[SlotOf(csid)], trace)]
    decreases |trace|
  {
    if trace == [] {
    } else {
      TraceOfOneStream(m, Advance(m, slots, trace[0]), trace[1..], csid);
    }
  }
}
