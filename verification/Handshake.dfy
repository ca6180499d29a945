/** The two-party handshake as a state machine over a fragmenting byte stream: the client of
    rtmp_protocol.c:136-198 against the server of rtmp_server_integration.c:300-344, section 5.2
    of Adobe RTMP 1.0. Either side may lose its transport at any moment. The server's socket does
    not block (rtmp_server_integration.c:203-205): each of its two receives takes what has arrived
    when it is called, and fails the handshake when that is less than the block. */
module Handshake {
  import opened Bytes

  const VERSION: byte := 3
  const BLOCK := 1536
  const C0C1 := 1537
  const S0S1S2 := 3073

  type Block = b: seq<byte> | |b| == BLOCK witness seq(BLOCK, _ => 0)

  /** A direction of the connection: bytes under way, then bytes the receiver can read. */
  datatype Pipe = Pipe(flying: seq<byte>, arrived: seq<byte>)

  datatype Client =
    | CStart
    | CReading(buffer: seq<byte>)
    | CEchoing(buffer: seq<byte>)
    | CDone(s1: Block, s2: Block)
    | CFailed

  datatype Server =
    | SStart
    | SReplying(c1: Block)
    | SWaiting(c1: Block)
    | SDone(c1: Block, c2: Block)
    | SFailed

  /** c1 and s1 are the blocks the two sides generate. */
  datatype State = State(c1: Block, s1: Block, client: Client, server: Server, up: Pipe, down: Pipe)

  datatype Step =
    | ClientHello
    | ClientRecv(n: nat)
    | ClientCheck
    | ClientEcho
    | ServerHello
    | ServerReply
    | ServerEcho
    | DeliverUp(n: nat)
    | DeliverDown(n: nat)
    | ClientLost(n: nat)
    | ServerLost(n: nat)

  predicate Fails(step: Step) {
    step.ClientLost? || step.ServerLost?
  }

  /** A receive of the server that comes before its block has arrived. */
  predicate Early(st: State, step: Step) {
    match step
    case ServerHello => |st.up.arrived| < C0C1
    case ServerEcho => |st.up.arrived| < BLOCK
    case _ => false
  }

  function Init(c1: Block, s1: Block): State {
    State(c1, s1, CStart, SStart, Pipe([], []), Pipe([], []))
  }

  // ------------------------------------------------------------------- transitions

  function Put(p: Pipe, b: seq<byte>): Pipe {
    p.(flying := p.flying + b)
  }

  function Deliver(p: Pipe, n: nat): Pipe
    requires n <= |p.flying|
  {
    Pipe(p.flying[n..], p.arrived + p.flying[..n])
  }

  function Take(p: Pipe, n: nat): Pipe
    requires n <= |p.arrived|
  {
    p.(arrived := p.arrived[n..])
  }

  /** What a party that loses its transport may still have pushed out of its current send. */
  function PendingUp(st: State): seq<byte> {
    match st.client
    case CStart => [VERSION] + st.c1
    case CEchoing(buffer) => if |buffer| == S0S1S2 then buffer[1..C0C1] else []
    case _ => []
  }

  function PendingDown(st: State): seq<byte> {
    if st.server.SReplying? then [VERSION] + st.s1 + st.server.c1 else []
  }

  predicate Enabled(st: State, step: Step) {
    match step
    case ClientHello => st.client.CStart?
    case ClientRecv(n) => st.client.CReading? && 0 < n <= Min(S0S1S2 - |st.client.buffer|, |st.down.arrived|)
    case ClientCheck => st.client.CReading? && |st.client.buffer| == S0S1S2
    case ClientEcho => st.client.CEchoing? && |st.client.buffer| == S0S1S2
    case ServerHello => st.server.SStart?
    case ServerReply => st.server.SReplying?
    case ServerEcho => st.server.SWaiting?
    case DeliverUp(n) => 0 < n <= |st.up.flying|
    case DeliverDown(n) => 0 < n <= |st.down.flying|
    case ClientLost(n) => !st.client.CDone? && !st.client.CFailed? && n <= |PendingUp(st)|
    case ServerLost(n) => !st.server.SDone? && !st.server.SFailed? && n <= |PendingDown(st)|
  }

  function Next(st: State, step: Step): State
    requires Enabled(st, step)
  {
    match step
    case ClientHello => st.(client := CReading([]), up := Put(st.up, [VERSION] + st.c1))
    case ClientRecv(n) =>
      st.(client := CReading(st.client.buffer + st.down.arrived[..n]), down := Take(st.down, n))
    case ClientCheck =>
      st.(client := if st.client.buffer[0] == VERSION then CEchoing(st.client.buffer) else CFailed)
    case ClientEcho =>
      var s1, s2 := st.client.buffer[1..C0C1], st.client.buffer[C0C1..];
      st.(client := CDone(s1, s2), up := Put(st.up, s1))
    case ServerHello =>
      var hello := st.up.arrived[..Min(C0C1, |st.up.arrived|)];
      st.(server := if |hello| == C0C1 && hello[0] == VERSION then SReplying(hello[1..]) else SFailed,
          up := Take(st.up, |hello|))
    case ServerReply =>
      st.(server := SWaiting(st.server.c1), down := Put(st.down, [VERSION] + st.s1 + st.server.c1))
    case ServerEcho =>
      var echo := st.up.arrived[..Min(BLOCK, |st.up.arrived|)];
      st.(server := if |echo| == BLOCK then SDone(st.server.c1, echo) else SFailed, up := Take(st.up, |echo|))
    case DeliverUp(n) => st.(up := Deliver(st.up, n))
    case DeliverDown(n) => st.(down := Deliver(st.down, n))
    case ClientLost(n) => st.(client := CFailed, up := Put(st.up, PendingUp(st)[..n]))
    case ServerLost(n) => st.(server := SFailed, down := Put(st.down, PendingDown(st)[..n]))
  }

  // --------------------------------------------------------------------- invariant

  function Unread(p: Pipe): seq<byte> {
    p.arrived + p.flying
  }

  /** What the server has read so far, as the client sent it. */
  function UpRead(st: State): seq<byte> {
    match st.server
    case SReplying(c1) => [VERSION] + c1
    case SWaiting(c1) => [VERSION] + c1
    case SDone(c1, c2) => [VERSION] + c1 + c2
    case _ => []
  }

  function DownRead(st: State): seq<byte> {
    match st.client
    case CReading(buffer) => buffer
    case CEchoing(buffer) => buffer
    case CDone(s1, s2) => [VERSION] + s1 + s2
    case _ => []
  }

  function UpWire(st: State): seq<byte> {
    [VERSION] + st.c1 + st.s1
  }

  function DownWire(st: State): seq<byte> {
    [VERSION] + st.s1 + st.c1
  }

  /** How much of its wire a party that is still alive has sent. */
  function UpSent(st: State): nat {
    if st.client.CStart? then 0 else if st.client.CDone? then C0C1 + BLOCK else C0C1
  }

  function DownSent(st: State): nat {
    if st.server.SStart? || st.server.SReplying? then 0 else S0S1S2
  }

  ghost predicate Inv(st: State) {
    && (st.client.CEchoing? ==> |st.client.buffer| == S0S1S2)
    && (st.client.CReading? ==> |st.client.buffer| <= S0S1S2)
    && (!st.server.SFailed? ==> UpRead(st) + Unread(st.up) <= UpWire(st))
    && (!st.client.CFailed? ==> DownRead(st) + Unread(st.down) <= DownWire(st))
    && (!st.server.SFailed? && !st.client.CFailed? ==> UpRead(st) + Unread(st.up) == UpWire(st)[..UpSent(st)])
    && (!st.server.SFailed? && !st.client.CFailed? ==> DownRead(st) + Unread(st.down) == DownWire(st)[..DownSent(st)])
  }

  lemma PipeFacts(p: Pipe, b: seq<byte>, n: nat)
    ensures Unread(Put(p, b)) == Unread(p) + b
    ensures n <= |p.flying| ==> Unread(Deliver(p, n)) == Unread(p)
    ensures n <= |p.arrived| ==> p.arrived[..n] + Unread(Take(p, n)) == Unread(p)
    ensures n <= |p.arrived| ==> p.arrived[..n] <= Unread(p)
  {
    if n <= |p.flying| {
      assert p.flying == p.flying[..n] + p.flying[n..];
    }
    if n <= |p.arrived| {
      assert p.arrived == p.arrived[..n] + p.arrived[n..];
    }
  }

  lemma InitInv(c1: Block, s1: Block)
    ensures Inv(Init(c1, s1))
  {
  }

  lemma HelloKeeps(st: State)
    requires Inv(st) && st.client.CStart?
    ensures Inv(Next(st, ClientHello))
  {
    PipeFacts(st.up, [VERSION] + st.c1, 0);
    assert UpWire(st)[..C0C1] == [VERSION] + st.c1;
    if !st.server.SFailed? {
      assert UpRead(st) + Unread(st.up) == [];
    }
  }

  lemma RecvKeeps(st: State, n: nat)
    requires Inv(st) && Enabled(st, ClientRecv(n))
    ensures Inv(Next(st, ClientRecv(n)))
  {
    var st' := Next(st, ClientRecv(n));
    PipeFacts(st.down, [], n);
    assert DownRead(st') + Unread(st'.down) == DownRead(st) + (st.down.arrived[..n] + Unread(st'.down));
  }

  lemma CheckKeeps(st: State)
    requires Inv(st) && Enabled(st, ClientCheck)
    ensures Inv(Next(st, ClientCheck)) && Next(st, ClientCheck).client == CEchoing(st.client.buffer)
  {
    FullRead(st.client.buffer, Unread(st.down), st.s1, st.c1);
  }

  lemma EchoKeeps(st: State)
    requires Inv(st) && Enabled(st, ClientEcho)
    ensures Inv(Next(st, ClientEcho))
  {
    var buffer := st.client.buffer;
    var st' := Next(st, ClientEcho);
    FullRead(buffer, Unread(st.down), st.s1, st.c1);
    PipeFacts(st.up, st.s1, 0);
    assert DownRead(st') == buffer by {
      assert [VERSION] + buffer[1..C0C1] + buffer[C0C1..] == buffer;
    }
    if !st.server.SFailed? {
      Assoc(UpRead(st), Unread(st.up), st.s1);
      WireSplit(st.c1, st.s1);
      assert UpRead(st') + Unread(st'.up) == UpWire(st);
    }
  }

  lemma Assoc(a: seq<byte>, b: seq<byte>, c: seq<byte>)
    ensures a + (b + c) == (a + b) + c
  {
  }

  lemma WireSplit(first: Block, second: Block)
    ensures ([VERSION] + first + second)[..C0C1] == [VERSION] + first
    ensures ([VERSION] + first + second)[..S0S1S2] == [VERSION] + first + second
  {
  }

  lemma ClientLostKeeps(st: State, n: nat)
    requires Inv(st) && Enabled(st, ClientLost(n))
    ensures Inv(Next(st, ClientLost(n)))
  {
    PipeFacts(st.up, PendingUp(st)[..n], 0);
    if !st.server.SFailed? {
      LostUp(st, n);
    }
  }

  lemma EarlyKeeps(st: State, step: Step)
    requires Inv(st) && Enabled(st, step) && Early(st, step)
    ensures Inv(Next(st, step)) && Next(st, step).server.SFailed? && Next(st, step).client == st.client
  {
  }

  lemma ServerHelloKeeps(st: State)
    requires Inv(st) && Enabled(st, ServerHello) && !Early(st, ServerHello)
    ensures Inv(Next(st, ServerHello)) && Next(st, ServerHello).server == SReplying(st.c1)
  {
    var st' := Next(st, ServerHello);
    var hello := st.up.arrived[..C0C1];
    PipeFacts(st.up, [], C0C1);
    assert hello == UpWire(st)[..C0C1] == [VERSION] + st.c1;
    assert UpRead(st') + Unread(st'.up) == [VERSION] + st.c1 + Unread(st'.up);
    assert hello + Unread(st'.up) == Unread(st.up);
  }

  lemma ServerReplyKeeps(st: State)
    requires Inv(st) && Enabled(st, ServerReply)
    ensures Inv(Next(st, ServerReply))
  {
    FirstBlock(st.server.c1, Unread(st.up), st.c1, st.s1);
    PipeFacts(st.down, DownWire(st), 0);
    if !st.client.CFailed? {
      assert DownRead(st) + Unread(st.down) == [] ==> DownRead(st) == [] && Unread(st.down) == [];
      assert DownRead(st) + (Unread(st.down) + DownWire(st)) == (DownRead(st) + Unread(st.down)) + DownWire(st);
    }
  }

  lemma ServerEchoKeeps(st: State)
    requires Inv(st) && Enabled(st, ServerEcho) && !Early(st, ServerEcho)
    ensures Inv(Next(st, ServerEcho))
  {
    var st' := Next(st, ServerEcho);
    PipeFacts(st.up, [], BLOCK);
    assert UpRead(st') + Unread(st'.up) == UpRead(st) + (st.up.arrived[..BLOCK] + Unread(st'.up));
  }

  lemma ServerLostKeeps(st: State, n: nat)
    requires Inv(st) && Enabled(st, ServerLost(n))
    ensures Inv(Next(st, ServerLost(n)))
  {
    var part := PendingDown(st)[..n];
    PipeFacts(st.down, part, 0);
    if !st.client.CFailed? {
      LostDown(st, n);
    }
  }

  lemma LostDown(st: State, n: nat)
    requires Inv(st) && !st.server.SFailed? && !st.client.CFailed? && n <= |PendingDown(st)|
    ensures DownRead(st) + (Unread(st.down) + PendingDown(st)[..n]) <= DownWire(st)
  {
    var sent, part := DownRead(st) + Unread(st.down), PendingDown(st)[..n];
    Assoc(DownRead(st), Unread(st.down), part);
    if st.server.SReplying? {
      FirstBlock(st.server.c1, Unread(st.up), st.c1, st.s1);
      assert sent == [] && [] + part == part;
      assert part == DownWire(st)[..n];
    } else {
      assert part == [] && sent + [] == sent;
    }
  }

  /** A block read at the start is the block sent at the start. */
  lemma FirstBlock(got: Block, rest: seq<byte>, first: Block, second: Block)
    requires [VERSION] + got + rest <= [VERSION] + first + second
    ensures got == first
  {
    assert ([VERSION] + got + rest)[1..C0C1] == got;
    assert ([VERSION] + first + second)[1..C0C1] == first;
  }

  lemma StepKeepsInv(st: State, step: Step)
    requires Inv(st) && Enabled(st, step)
    ensures Inv(Next(st, step))
    ensures !Fails(step) && !st.client.CFailed? ==> !Next(st, step).client.CFailed?
    ensures !Fails(step) && !st.server.SFailed? ==> (Next(st, step).server.SFailed? <==> Early(st, step))
    ensures st.server.SFailed? ==> Next(st, step).server.SFailed?
  {
    if Early(st, step) {
      EarlyKeeps(st, step);
      return;
    }
    match step
    case ClientHello => HelloKeeps(st);
    case ClientRecv(n) => RecvKeeps(st, n);
    case ClientCheck => CheckKeeps(st);
    case ClientEcho => EchoKeeps(st);
    case ServerHello => ServerHelloKeeps(st);
    case ServerReply => ServerReplyKeeps(st);
    case ServerEcho => ServerEchoKeeps(st);
    case DeliverUp(n) => PipeFacts(st.up, [], n);
    case DeliverDown(n) => PipeFacts(st.down, [], n);
    case ClientLost(n) => ClientLostKeeps(st, n);
    case ServerLost(n) => ServerLostKeeps(st, n);
  }

  /** A full buffer is the whole wire of the other side. */
  lemma FullRead(buffer: seq<byte>, rest: seq<byte>, first: Block, second: Block)
    requires |buffer| == S0S1S2 && buffer + rest <= [VERSION] + first + second
    ensures buffer == [VERSION] + first + second
    ensures buffer[0] == VERSION && buffer[1..C0C1] == first && buffer[C0C1..] == second
  {
    var wire := [VERSION] + first + second;
    assert buffer == (buffer + rest)[..S0S1S2] == wire[..S0S1S2] == wire;
  }

  lemma LostUp(st: State, n: nat)
    requires Inv(st) && !st.server.SFailed? && !st.client.CFailed? && n <= |PendingUp(st)|
    ensures UpRead(st) + (Unread(st.up) + PendingUp(st)[..n]) <= UpWire(st)
  {
    var sent, part := UpRead(st) + Unread(st.up), PendingUp(st)[..n];
    Assoc(UpRead(st), Unread(st.up), part);
    if st.client.CStart? {
      assert sent == [] && [] + part == part;
      assert part <= UpWire(st);
    } else if st.client.CEchoing? {
      FullRead(st.client.buffer, Unread(st.down), st.s1, st.c1);
      assert UpWire(st) == sent + st.s1;
    } else {
      assert part == [] && sent + [] == sent;
    }
  }

  // -------------------------------------------------------------------------- runs

  datatype Run = Run(states: seq<State>, steps: seq<Step>)

  ghost predicate IsRun(r: Run, c1: Block, s1: Block) {
    && |r.states| == |r.steps| + 1
    && r.states[0] == Init(c1, s1)
    && forall i :: 0 <= i < |r.steps| ==>
         Enabled(r.states[i], r.steps[i]) && r.states[i + 1] == Next(r.states[i], r.steps[i])
  }

  ghost predicate NoFailure(r: Run) {
    forall i :: 0 <= i < |r.steps| ==> !Fails(r.steps[i])
  }

  /** Every receive of the server finds its whole block; so it is when those receives block. */
  ghost predicate Patient(r: Run)
    requires |r.states| == |r.steps| + 1
  {
    forall i :: 0 <= i < |r.steps| ==> !Early(r.states[i], r.steps[i])
  }

  /** The run up to its i-th state. */
  function Upto(r: Run, i: nat): Run
    requires |r.states| == |r.steps| + 1 && i <= |r.steps|
  {
    Run(r.states[..i + 1], r.steps[..i])
  }

  lemma {:induction false} RunInv(r: Run, c1: Block, s1: Block, i: nat)
    requires IsRun(r, c1, s1) && i < |r.states|
    ensures Inv(r.states[i]) && r.states[i].c1 == c1 && r.states[i].s1 == s1
  {
    if i == 0 {
      InitInv(c1, s1);
    } else {
      RunInv(r, c1, s1, i - 1);
      StepKeepsInv(r.states[i - 1], r.steps[i - 1]);
    }
  }

  /** Without a transport failure the client never fails, and the server has failed exactly when one
      of its receives came early. */
  lemma {:induction false} FailsIffEarly(r: Run, c1: Block, s1: Block, i: nat)
    requires IsRun(r, c1, s1) && i < |r.states| && NoFailure(r)
    ensures !r.states[i].client.CFailed?
    ensures r.states[i].server.SFailed? <==> !Patient(Upto(r, i))
    ensures Measure(r.states[i]) + i <= Measure(Init(c1, s1))
  {
    if i == 0 {
      assert Patient(Upto(r, 0));
    } else {
      FailsIffEarly(r, c1, s1, i - 1);
      RunInv(r, c1, s1, i - 1);
      StepKeepsInv(r.states[i - 1], r.steps[i - 1]);
      StepDecreases(r.states[i - 1], r.steps[i - 1]);
      PatientSnoc(r, i - 1);
    }
  }

  lemma PatientSnoc(r: Run, i: nat)
    requires |r.states| == |r.steps| + 1 && i < |r.steps|
    ensures Patient(Upto(r, i + 1)) <==> Patient(Upto(r, i)) && !Early(r.states[i], r.steps[i])
  {
    var a, b := Upto(r, i), Upto(r, i + 1);
    assert forall j :: 0 <= j < i ==> b.states[j] == a.states[j] && b.steps[j] == a.steps[j];
    assert b.states[i] == r.states[i] && b.steps[i] == r.steps[i];
  }

  /** Whatever the fragmentation, the scheduling and the failures, a side that reports success has
      received its own block back, and the block it received is the one that was sent. */
  lemma EchoesAgree(r: Run, c1: Block, s1: Block, i: nat)
    requires IsRun(r, c1, s1) && i < |r.states|
    ensures r.states[i].client.CDone? ==> r.states[i].client == CDone(s1, c1)
    ensures r.states[i].server.SDone? ==> r.states[i].server == SDone(c1, s1)
  {
    RunInv(r, c1, s1, i);
    var st := r.states[i];
    if st.client.CDone? {
      FullRead(DownRead(st), Unread(st.down), s1, c1);
      assert DownRead(st)[1..C0C1] == st.client.s1 && DownRead(st)[C0C1..] == st.client.s2;
    }
    if st.server.SDone? {
      FullRead(UpRead(st), Unread(st.up), c1, s1);
      assert UpRead(st)[1..C0C1] == st.server.c1 && UpRead(st)[C0C1..] == st.server.c2;
    }
  }

  /** Bytes still to be sent, sent but not readable, readable but not read. */
  function Measure(st: State): int {
    3 * (S0S1S2 - UpSent(st)) + 2 * |st.up.flying| + |st.up.arrived|
    + 3 * (S0S1S2 - DownSent(st)) + 2 * |st.down.flying| + |st.down.arrived|
    + (if st.client.CStart? || st.client.CReading? then 1 else 0)
    + (if st.server.SWaiting? then 1 else 0)
  }

  predicate ServerStep(step: Step) {
    step.ServerHello? || step.ServerReply? || step.ServerEcho?
  }

  lemma ServerDecreases(st: State, step: Step)
    requires Inv(st) && Enabled(st, step) && ServerStep(step)
    ensures 0 <= Measure(Next(st, step)) < Measure(st)
  {
    if step.ServerHello? && !Early(st, step) {
      ServerHelloKeeps(st);
    }
  }

  lemma StepDecreases(st: State, step: Step)
    requires Inv(st) && Enabled(st, step) && !Fails(step) && !st.client.CFailed?
    ensures 0 <= Measure(Next(st, step)) < Measure(st)
  {
    if ServerStep(step) {
      ServerDecreases(st, step);
    } else if step.ClientCheck? {
      CheckKeeps(st);
    }
  }

  /** Without a failure the exchange cannot get stuck: some step, and not an early receive, is
      possible until both sides are done. */
  lemma CannotGetStuck(st: State) returns (step: Step)
    requires Inv(st) && !st.client.CFailed? && !st.server.SFailed? && !(st.client.CDone? && st.server.SDone?)
    ensures Enabled(st, step) && !Fails(step) && !Early(st, step)
  {
    if st.client.CStart? {
      step := ClientHello;
    } else if st.client.CReading? && |st.client.buffer| == S0S1S2 {
      step := ClientCheck;
    } else if st.client.CEchoing? {
      step := ClientEcho;
    } else if st.server.SReplying? {
      step := ServerReply;
    } else if st.up.flying != [] {
      step := DeliverUp(1);
    } else if st.down.flying != [] {
      step := DeliverDown(1);
    } else if st.server.SStart? {
      assert |UpRead(st) + Unread(st.up)| == UpSent(st);
      step := ServerHello;
    } else if st.client.CReading? {
      assert |DownRead(st) + Unread(st.down)| == DownSent(st);
      step := ClientRecv(1);
    } else {
      assert |UpRead(st) + Unread(st.up)| == UpSent(st);
      step := ServerEcho;
    }
  }

  ghost predicate Finished(st: State) {
    forall step: Step :: Enabled(st, step) ==> Fails(step)
  }

  ghost predicate BothDone(st: State, c1: Block, s1: Block) {
    st.client == CDone(s1, c1) && st.server == SDone(c1, s1)
  }

  /** Every run without transport failure is short. When nothing but a failure could follow it, it
      has ended with both sides done and both echoes right exactly when every receive of the server
      was taken with its whole block already there. */
  lemma HandshakeCompletesIff(r: Run, c1: Block, s1: Block)
    requires IsRun(r, c1, s1) && NoFailure(r)
    ensures |r.steps| <= 18439
    ensures BothDone(r.states[|r.steps|], c1, s1) ==> Patient(r)
    ensures Finished(r.states[|r.steps|]) ==> (BothDone(r.states[|r.steps|], c1, s1) <==> Patient(r))
  {
    var last := r.states[|r.steps|];
    RunInv(r, c1, s1, |r.steps|);
    FailsIffEarly(r, c1, s1, |r.steps|);
    assert Upto(r, |r.steps|) == r;
    MeasureNonNegative(last);
    EchoesAgree(r, c1, s1, |r.steps|);
    if Patient(r) && !(last.client.CDone? && last.server.SDone?) {
      var step := CannotGetStuck(last);
      assert !Finished(last);
    }
  }

  lemma MeasureNonNegative(st: State)
    ensures Measure(st) >= 0
  {
  }

  /** A server that looks for C2 right after it has sent S1 never finds it: the client has not yet
      read what it must echo. */
  lemma ImmediateReceiveFails(st: State)
    requires Inv(st) && st.server.SReplying? && !st.client.CFailed?
    ensures Early(Next(st, ServerReply), ServerEcho)
    ensures Next(Next(st, ServerReply), ServerEcho).server.SFailed?
  {
    assert |DownRead(st) + Unread(st.down)| == DownSent(st) == 0;
    assert |UpRead(st) + Unread(st.up)| == UpSent(st) == C0C1;
  }

  /** The shortest such run: the server looks for C0 and C1 before the client has sent anything. */
  lemma FirstReceiveTooEarly(c1: Block, s1: Block)
    ensures var r := Run([Init(c1, s1), Next(Init(c1, s1), ServerHello)], [ServerHello]);
            IsRun(r, c1, s1) && NoFailure(r) && !Patient(r) && r.states[1].server.SFailed?
  {
    var r := Run([Init(c1, s1), Next(Init(c1, s1), ServerHello)], [ServerHello]);
    assert Early(r.states[0], r.steps[0]);
  }

  // --------------------------------------------------------------- building a run

  function Last(r: Run): State
    requires |r.states| > 0
  {
    r.states[|r.states| - 1]
  }

  lemma Extend(r: Run, c1: Block, s1: Block, step: Step) returns (r': Run)
    requires IsRun(r, c1, s1) && Enabled(Last(r), step)
    ensures IsRun(r', c1, s1) && Last(r') == Next(Last(r), step)
  {
    r' := Run(r.states + [Next(Last(r), step)], r.steps + [step]);
    assert forall i :: 0 <= i < |r.steps| ==> r'.states[i] == r.states[i] && r'.steps[i] == r.steps[i];
    assert r'.states[|r.steps|] == Last(r) && r'.states[|r.steps| + 1] == Next(Last(r), step);
  }

  lemma NewRun(c1: Block, s1: Block) returns (r: Run)
    ensures IsRun(r, c1, s1) && Last(r) == Init(c1, s1)
  {
    r := Run([Init(c1, s1)], []);
  }
}
