/** The calls of rtmp_core.c:308-515 and the passes of the worker loop (195-258) on a connection
    object with its linked queue, each one run to its end. The object carries along the steps of
    SendRuntime that it has taken: what it does is a run of that machine with one calling thread. */
module ConnectionCalls {
  import opened Bytes
  import opened MessageQueue
  import R = SendRuntime

  const MSG_AUDIO: byte := 8
  const MSG_VIDEO: byte := 9
  const MSG_DATA_AMF0: byte := 18
  const MSG_COMMAND_AMF0: byte := 20

  /** What select answered: an error, a signal, or which directions are ready. */
  datatype Selected = SelectError | Signal | Ready(writable: bool)

  predicate IsKind(c: Content, k: R.Kind) {
    match k
    case Publish => c.mtype == MSG_COMMAND_AMF0
    case Unpublish => c.mtype == MSG_COMMAND_AMF0
    case Media => c.mtype == MSG_AUDIO || c.mtype == MSG_VIDEO
    case Metadata => c.mtype == MSG_DATA_AMF0
  }

  ghost predicate AreKinds(cs: seq<Content>, ks: seq<R.Kind>) {
    |cs| == |ks| && forall i :: 0 <= i < |cs| ==> IsKind(cs[i], ks[i])
  }

  // --------------------------------------------------------- calls as steps of the machine

  function Pushed(m: R.State, k: R.Kind): R.State {
    m.(queue := m.queue + [k], accepted := m.accepted + [k])
  }

  predicate Room(m: R.State) {
    |m.queue| < MAX_QUEUE_SIZE
  }

  /** A call that checks with e, pushes its message and, when that is accepted, sets the state. */
  function CallSteps(e: R.Step, room: bool, sets: bool): seq<R.Step> {
    if room && sets then [e, R.Push(0), R.SetState(0)] else [e, R.Push(0)]
  }

  function AfterCall(m: R.State, k: R.Kind, conn: R.ConnState): R.State {
    if Room(m) then Pushed(m, k).(conn := conn) else m
  }

  lemma PublishRuns(m: R.State)
    requires m.api == [R.Idle] && m.conn.Connected?
    ensures var steps := CallSteps(R.CheckPublish(0), Room(m), true);
            R.CanRun(m, steps) && R.After(m, steps) == AfterCall(m, R.Publish, R.Publishing)
  {
    var m1 := R.Next(m, R.CheckPublish(0));
    var m2 := R.Next(m1, R.Push(0));
    if Room(m) {
      assert m2 == Pushed(m, R.Publish).(api := [R.PublishPushed]);
      R.Three(m, R.CheckPublish(0), R.Push(0), R.SetState(0));
      assert R.Next(m2, R.SetState(0)) == AfterCall(m, R.Publish, R.Publishing);
    } else {
      R.Two(m, R.CheckPublish(0), R.Push(0));
      assert m2 == m;
    }
  }

  lemma StopRuns(m: R.State)
    requires m.api == [R.Idle] && m.conn.Publishing?
    ensures var steps := CallSteps(R.CheckStop(0), Room(m), true);
            R.CanRun(m, steps) && R.After(m, steps) == AfterCall(m, R.Unpublish, R.Connected)
  {
    var m1 := R.Next(m, R.CheckStop(0));
    var m2 := R.Next(m1, R.Push(0));
    if Room(m) {
      assert m2 == Pushed(m, R.Unpublish).(api := [R.StopPushed]);
      R.Three(m, R.CheckStop(0), R.Push(0), R.SetState(0));
      assert R.Next(m2, R.SetState(0)) == AfterCall(m, R.Unpublish, R.Connected);
    } else {
      R.Two(m, R.CheckStop(0), R.Push(0));
      assert m2 == m;
    }
  }

  lemma MediaRuns(m: R.State)
    requires m.api == [R.Idle] && m.conn.Publishing?
    ensures var steps := CallSteps(R.CheckMedia(0), Room(m), false);
            R.CanRun(m, steps) && R.After(m, steps) == AfterCall(m, R.Media, m.conn)
  {
    R.Two(m, R.CheckMedia(0), R.Push(0));
    assert R.Next(R.Next(m, R.CheckMedia(0)), R.Push(0)) == AfterCall(m, R.Media, m.conn);
  }

  lemma MetadataRuns(m: R.State)
    requires m.api == [R.Idle]
    ensures var steps := CallSteps(R.BuildMetadata(0), Room(m), false);
            R.CanRun(m, steps) && R.After(m, steps) == AfterCall(m, R.Metadata, m.conn)
  {
    R.Two(m, R.BuildMetadata(0), R.Push(0));
    assert R.Next(R.Next(m, R.BuildMetadata(0)), R.Push(0)) == AfterCall(m, R.Metadata, m.conn);
  }

  /** The worker of the kept handle; Off if there is none. */
  function Current(m: R.State): R.Worker {
    if m.thread.Some? && m.thread.value < |m.workers| then m.workers[m.thread.value] else R.Off
  }

  predicate Working(m: R.State) {
    Current(m).Top?
  }

  /** The one application thread is in no call, and the worker, if there is one, between two passes. */
  predicate AtRest(m: R.State) {
    && m.api == [R.Idle] && m.connectors == 1
    && (m.thread.Some? ==> m.thread.value < |m.workers| && (Working(m) || Current(m).Exited?))
  }

  /** The worker of the kept handle goes to k. */
  function Goes(m: R.State, k: R.Worker): R.State {
    if m.thread.Some? && m.thread.value < |m.workers| then R.Went(m, m.thread.value, k) else m
  }

  function Joined(m: R.State): R.State {
    Goes(m, R.Off).(thread := None, conn := R.Disconnected, api := [R.Idle])
  }

  /** rtmp_disconnect, or the end of a failed rtmp_connect, from the step that tells the worker to
      stop: the worker stops if it runs, and is joined. */
  function JoinSteps(m: R.State): seq<R.Step> {
    if Working(m) then [R.StopSeen(m.thread.value), R.Join(0), R.Join(0)] else [R.Join(0), R.Join(0)]
  }

  lemma JoinRuns(m: R.State)
    requires m.api == [R.Disconnecting] && !m.running && AtRest(m.(api := [R.Idle]))
    ensures R.CanRun(m, JoinSteps(m)) && R.After(m, JoinSteps(m)) == Joined(m)
  {
    if Working(m) {
      var w := m.thread.value;
      var m1 := R.Went(m, w, R.Exited);
      assert R.Next(m, R.StopSeen(w)) == m1;
      JoinEnds(m1);
      assert m1.workers[w := R.Off] == m.workers[w := R.Off];
      R.Cons(m, R.StopSeen(w), [R.Join(0), R.Join(0)]);
      assert [R.StopSeen(w)] + [R.Join(0), R.Join(0)] == JoinSteps(m);
    } else {
      JoinEnds(m);
    }
  }

  lemma JoinEnds(m: R.State)
    requires m.api == [R.Disconnecting] && R.Joinable(m)
    ensures R.CanRun(m, [R.Join(0), R.Join(0)]) && R.After(m, [R.Join(0), R.Join(0)]) == Joined(m)
  {
    var m1 := Goes(m, R.Off).(thread := None, api := [R.Joined]);
    assert R.Next(m, R.Join(0)) == m1;
    assert m1.api[0 := R.Idle] == [R.Idle];
    R.Two(m, R.Join(0), R.Join(0));
  }

  function Started(m: R.State): R.State {
    m.(running := true, workers := m.workers + [R.Top], thread := Some(|m.workers|))
  }

  function AfterConnect(m: R.State, socketOk: bool, threadOk: bool, shakeOk: bool): R.State {
    if !socketOk then m.(conn := R.Failed)
    else if !threadOk then m.(conn := R.Failed, running := false)
    else if shakeOk then Started(m).(conn := R.Connected)
    else Joined(Started(m).(running := false))
  }

  /** Up to the socket. */
  lemma BeginRuns(m: R.State)
    requires m.conn.Disconnected? && AtRest(m)
    ensures var steps := [R.CheckConnect(0), R.BeginConnect(0)];
            R.CanRun(m, steps) && R.After(m, steps) == m.(conn := R.Connecting, api := [R.ConnectBegun])
  {
    var m1 := m.(api := [R.ConnectChecked]);
    assert R.Next(m, R.CheckConnect(0)) == m1;
    assert R.Next(m1, R.BeginConnect(0)) == m.(conn := R.Connecting, api := [R.ConnectBegun]);
    R.Two(m, R.CheckConnect(0), R.BeginConnect(0));
  }

  lemma NoWorkerRuns(m: R.State, e: R.Step)
    requires m.api == [R.ConnectBegun] && e in {R.SocketFails(0), R.WorkerNotStarted(0)}
    ensures R.CanRun(m, [e])
    ensures R.After(m, [e]) == m.(conn := R.Failed, api := [R.Idle], running := m.running && e.SocketFails?)
  {
    assert m.api[0 := R.Idle] == [R.Idle];
    R.Cons(m, e, []);
    assert [e] + [] == [e];
  }

  lemma ShakenRuns(m: R.State)
    requires m.api == [R.ConnectBegun]
    ensures var steps := [R.StartWorker(0), R.HandshakeDone(0)];
            R.CanRun(m, steps) && R.After(m, steps) == Started(m).(conn := R.Connected, api := [R.Idle])
  {
    var m1 := Started(m).(api := [R.Handshaking]);
    assert R.Next(m, R.StartWorker(0)) == m1;
    assert m1.api[0 := R.Idle] == [R.Idle];
    R.Two(m, R.StartWorker(0), R.HandshakeDone(0));
  }

  lemma RefusedRuns(m: R.State) returns (steps: seq<R.Step>)
    requires m.api == [R.ConnectBegun] && m.connectors == 1
    ensures R.CanRun(m, steps) && R.After(m, steps) == Joined(Started(m).(running := false))
  {
    var first := [R.StartWorker(0), R.HandshakeFails(0)];
    var m1 := Started(m).(api := [R.Handshaking]);
    var m2 := Started(m).(conn := R.Failed, running := false, api := [R.Disconnecting]);
    assert R.Next(m, R.StartWorker(0)) == m1;
    assert R.Next(m1, R.HandshakeFails(0)) == m2;
    R.Two(m, R.StartWorker(0), R.HandshakeFails(0));
    JoinRuns(m2);
    steps := first + JoinSteps(m2);
    R.Concat(m, first, JoinSteps(m2));
  }

  lemma ConnectRuns(m: R.State, socketOk: bool, threadOk: bool, shakeOk: bool) returns (steps: seq<R.Step>)
    requires m.conn.Disconnected? && AtRest(m)
    ensures R.CanRun(m, steps) && R.After(m, steps) == AfterConnect(m, socketOk, threadOk, shakeOk)
  {
    var m1 := m.(conn := R.Connecting, api := [R.ConnectBegun]);
    BeginRuns(m);
    if !socketOk {
      steps := [R.SocketFails(0)];
      NoWorkerRuns(m1, R.SocketFails(0));
    } else if !threadOk {
      steps := [R.WorkerNotStarted(0)];
      NoWorkerRuns(m1, R.WorkerNotStarted(0));
    } else if shakeOk {
      steps := [R.StartWorker(0), R.HandshakeDone(0)];
      ShakenRuns(m1);
    } else {
      steps := RefusedRuns(m1);
    }
    R.Concat(m, [R.CheckConnect(0), R.BeginConnect(0)], steps);
    steps := [R.CheckConnect(0), R.BeginConnect(0)] + steps;
  }

  lemma DisconnectRuns(m: R.State) returns (steps: seq<R.Step>)
    requires AtRest(m)
    ensures R.CanRun(m, steps) && R.After(m, steps) == Joined(m.(running := false))
  {
    var m1 := m.(running := false, api := [R.Disconnecting]);
    assert R.Next(m, R.BeginDisconnect(0)) == m1;
    JoinRuns(m1);
    steps := [R.BeginDisconnect(0)] + JoinSteps(m1);
    R.Cons(m, R.BeginDisconnect(0), JoinSteps(m1));
  }

  // ------------------------------------------------------------- one pass of the worker

  predicate Writes(m: R.State, selected: Selected) {
    m.queue != [] && selected == Ready(true)
  }

  /** What a pass makes of the machine, up to the read. */
  function AfterWrite(m: R.State, selected: Selected, sent: bool): R.State {
    if !Writes(m, selected) then Goes(m, R.Reading)
    else
      var m' := m.(queue := m.queue[1..], taken := m.taken + [m.queue[0]]);
      if sent then Goes(m', R.Reading).(sent := m.sent + 1)
      else Goes(m', R.Exited).(failed := m.failed + 1, conn := R.Failed)
  }

  function AfterPass(m: R.State, selected: Selected, sent: bool, closed: bool): R.State {
    match selected
    case SelectError => Goes(m, R.Exited).(conn := R.Failed)
    case Signal => m
    case Ready(_) =>
      var m' := AfterWrite(m, selected, sent);
      if Current(m').Exited? then m'
      else if closed then Goes(m', R.Exited).(conn := R.Failed) else Goes(m', R.Top)
  }

  /** The test of the queue and the step after it. */
  lemma TestRuns(m: R.State, e: R.Step)
    requires Working(m) && m.running
    requires e in {R.SelectFails(m.thread.value), R.Interrupted(m.thread.value), R.NotWritable(m.thread.value)}
    ensures var steps := [R.TestQueue(m.thread.value), e];
            && R.CanRun(m, steps)
            && R.After(m, steps) == if e.SelectFails? then Goes(m, R.Exited).(conn := R.Failed)
                                    else Goes(m, if e.Interrupted? then R.Top else R.Reading)
  {
    var w := m.thread.value;
    var m1 := R.Next(m, R.TestQueue(w));
    assert m1.workers[w := R.Exited] == m.workers[w := R.Exited];
    assert m1.workers[w := R.Reading] == m.workers[w := R.Reading];
    assert m1.workers[w := R.Top] == m.workers[w := R.Top];
    R.Two(m, R.TestQueue(w), e);
  }

  /** The oldest message in the worker's hand. */
  function Taken(m: R.State): R.State
    requires Working(m) && m.queue != []
  {
    R.Went(m, m.thread.value, R.Holding(m.queue[0])).(queue := m.queue[1..], taken := m.taken + [m.queue[0]])
  }

  lemma TakeRuns(m: R.State)
    requires Working(m) && m.running && m.queue != []
    ensures var steps := [R.TestQueue(m.thread.value), R.Pop(m.thread.value)];
            R.CanRun(m, steps) && R.After(m, steps) == Taken(m)
  {
    var w := m.thread.value;
    var m1 := R.Went(m, w, R.Armed);
    assert R.Next(m, R.TestQueue(w)) == m1;
    assert m1.workers[w := R.Holding(m.queue[0])] == m.workers[w := R.Holding(m.queue[0])];
    R.Two(m, R.TestQueue(w), R.Pop(w));
  }

  function SendStep(w: nat, sent: bool): R.Step {
    if sent then R.SendOk(w) else R.SendFails(w)
  }

  lemma SendRuns(m: R.State, sent: bool)
    requires Working(m) && m.running && m.queue != []
    ensures var w := m.thread.value;
            var steps := [R.TestQueue(w), R.Pop(w)] + [SendStep(w, sent)];
            R.CanRun(m, steps) && R.After(m, steps) == AfterWrite(m, Ready(true), sent)
  {
    var w, m' := m.thread.value, Taken(m);
    var e := SendStep(w, sent);
    TakeRuns(m);
    assert R.Next(m', e) == AfterWrite(m, Ready(true), sent) by {
      assert m'.workers[w := R.Reading] == m.workers[w := R.Reading];
      assert m'.workers[w := R.Exited] == m.workers[w := R.Exited];
    }
    R.Cons(m', e, []);
    assert [e] + [] == [e];
    R.Concat(m, [R.TestQueue(w), R.Pop(w)], [e]);
  }

  lemma ReadRuns(m: R.State, steps: seq<R.Step>, m': R.State, closed: bool) returns (all: seq<R.Step>)
    requires R.CanRun(m, steps) && R.After(m, steps) == m' && Current(m').Reading?
    ensures R.CanRun(m, all)
    ensures R.After(m, all) == if closed then Goes(m', R.Exited).(conn := R.Failed) else Goes(m', R.Top)
  {
    var w := m'.thread.value;
    var e := if closed then R.PeerClosed(w) else R.ReadDone(w);
    R.Cons(m', e, []);
    assert [e] + [] == [e];
    all := steps + [e];
    R.Concat(m, steps, [e]);
  }

  lemma PassRuns(m: R.State, selected: Selected, sent: bool, closed: bool) returns (steps: seq<R.Step>)
    requires Working(m) && m.running
    ensures R.CanRun(m, steps) && R.After(m, steps) == AfterPass(m, selected, sent, closed)
  {
    var w := m.thread.value;
    match selected
    case SelectError =>
      steps := [R.TestQueue(w), R.SelectFails(w)];
      TestRuns(m, R.SelectFails(w));
    case Signal =>
      steps := [R.TestQueue(w), R.Interrupted(w)];
      TestRuns(m, R.Interrupted(w));
      assert m.workers[w := R.Top] == m.workers;
    case Ready(_) =>
      if Writes(m, selected) {
        steps := [R.TestQueue(w), R.Pop(w)] + [SendStep(w, sent)];
        SendRuns(m, sent);
      } else {
        steps := [R.TestQueue(w), R.NotWritable(w)];
        TestRuns(m, R.NotWritable(w));
      }
      var m' := AfterWrite(m, selected, sent);
      if !Current(m').Exited? {
        steps := ReadRuns(m, steps, m', closed);
      }
  }

  lemma KindsSnoc(cs: seq<Content>, ks: seq<R.Kind>, c: Content, k: R.Kind)
    requires AreKinds(cs, ks) && IsKind(c, k)
    ensures AreKinds(cs + [c], ks + [k])
  {
  }

  lemma MoveHead(taken: seq<Content>, items: seq<Content>)
    requires items != []
    ensures taken + items == (taken + [items[0]]) + items[1..]
  {
  }

  lemma MoveIn(taken: seq<Content>, items: seq<Content>, c: Content)
    ensures (taken + items) + [c] == taken + (items + [c])
  {
  }

  // ------------------------------------------------------------------------ the object

  /** The machine shows what the fields of a connection hold. */
  ghost predicate Pictures(m: R.State, conn: R.ConnState, running: bool, sent: nat, failed: nat,
                           accepted: seq<Content>, taken: seq<Content>, items: seq<Content>) {
    && m.conn == conn && m.running == running && m.sent == sent && m.failed == failed
    && AreKinds(accepted, m.accepted) && AreKinds(taken, m.taken) && AreKinds(items, m.queue)
  }

  lemma PictureOfCall(m: R.State, conn: R.ConnState, running: bool, sent: nat, failed: nat,
                      accepted: seq<Content>, taken: seq<Content>, items: seq<Content>,
                      c: Content, k: R.Kind, next: R.ConnState)
    requires Pictures(m, conn, running, sent, failed, accepted, taken, items) && IsKind(c, k)
    ensures Room(m) <==> |items| < 1000
    ensures Pictures(AfterCall(m, k, next), if Room(m) then next else conn, running, sent, failed,
                     accepted + (if Room(m) then [c] else []), taken, items + if Room(m) then [c] else [])
  {
    if Room(m) {
      KindsSnoc(accepted, m.accepted, c, k);
      KindsSnoc(items, m.queue, c, k);
    } else {
      assert accepted + [] == accepted && items + [] == items;
    }
  }

  /** When a pass goes on, and what it leaves of the machine. */
  lemma PassEnds(m: R.State, selected: Selected, ok: bool, closed: bool)
    requires Working(m)
    ensures var m' := AfterPass(m, selected, ok, closed);
            && (AtRest(m) ==> AtRest(m'))
            && (Working(m') <==> selected == Signal || (selected.Ready? && (Writes(m, selected) ==> ok) && !closed))
            && m'.conn == if Working(m') then m.conn else R.Failed
  {
  }

  lemma PictureOfPass(m: R.State, conn: R.ConnState, running: bool, sent: nat, failed: nat,
                      accepted: seq<Content>, taken: seq<Content>, items: seq<Content>,
                      selected: Selected, ok: bool, closed: bool)
    requires Pictures(m, conn, running, sent, failed, accepted, taken, items) && Working(m)
    ensures var w := items != [] && selected == Ready(true);
            var goOn := Working(AfterPass(m, selected, ok, closed));
            && (AtRest(m) ==> AtRest(AfterPass(m, selected, ok, closed)))
            && (goOn <==> selected == Signal || (selected.Ready? && (w ==> ok) && !closed))
            && Pictures(AfterPass(m, selected, ok, closed), if goOn then conn else R.Failed, running,
                        sent + (if w && ok then 1 else 0), failed + (if w && !ok then 1 else 0),
                        accepted, taken + (if w then [items[0]] else []), if w then items[1..] else items)
  {
    PassEnds(m, selected, ok, closed);
    if items != [] && selected == Ready(true) {
      KindsSnoc(taken, m.taken, items[0], m.queue[0]);
      assert AreKinds(items[1..], m.queue[1..]);
    } else {
      assert taken + [] == taken;
    }
  }

  /** The machine is where these steps lead it from its start with one calling thread. */
  ghost predicate Reached(history: seq<R.Step>, m: R.State) {
    R.CanRun(R.Init(1, 1), history) && R.After(R.Init(1, 1), history) == m
  }

  lemma ReachedOn(history: seq<R.Step>, m: R.State, steps: seq<R.Step>)
    requires Reached(history, m) && R.CanRun(m, steps)
    ensures Reached(history + steps, R.After(m, steps))
  {
    R.Concat(R.Init(1, 1), history, steps);
  }

  lemma ConnectReached(history: seq<R.Step>, m: R.State, socketOk: bool, threadOk: bool, shakeOk: bool)
    returns (steps: seq<R.Step>)
    requires Reached(history, m) && m.conn.Disconnected? && AtRest(m)
    ensures Reached(history + steps, AfterConnect(m, socketOk, threadOk, shakeOk))
    ensures AtRest(AfterConnect(m, socketOk, threadOk, shakeOk))
    ensures socketOk && threadOk && shakeOk ==> Working(AfterConnect(m, socketOk, threadOk, shakeOk))
  {
    steps := ConnectRuns(m, socketOk, threadOk, shakeOk);
    ReachedOn(history, m, steps);
  }

  /** The steps of a pass, where they lead, and what the fields must hold then. */
  lemma PassReached(history: seq<R.Step>, m: R.State, conn: R.ConnState, running: bool, sent: nat, failed: nat,
                    accepted: seq<Content>, taken: seq<Content>, items: seq<Content>,
                    selected: Selected, ok: bool, closed: bool)
    returns (steps: seq<R.Step>, after: R.State, goOn: bool)
    requires Pictures(m, conn, running, sent, failed, accepted, taken, items)
    requires Reached(history, m) && AtRest(m) && Working(m) && running
    ensures after == AfterPass(m, selected, ok, closed) && goOn == Working(after)
    ensures Reached(history + steps, after) && AtRest(after)
    ensures var w := items != [] && selected == Ready(true);
            && goOn == (selected == Signal || (selected.Ready? && (w ==> ok) && !closed))
            && Pictures(after, if goOn then conn else R.Failed, running,
                        sent + (if w && ok then 1 else 0), failed + (if w && !ok then 1 else 0),
                        accepted, taken + (if w then [items[0]] else []), if w then items[1..] else items)
  {
    steps := PassRuns(m, selected, ok, closed);
    ReachedOn(history, m, steps);
    after := AfterPass(m, selected, ok, closed);
    goOn := Working(after);
    PictureOfPass(m, conn, running, sent, failed, accepted, taken, items, selected, ok, closed);
  }

  class Connection {
    const queue: Queue
    var state: R.ConnState
    var threadRunning: bool
    var streamId: uint32
    var messagesSent: nat
    var bytesSent: nat
    ghost var failedSends: nat
    ghost var accepted: seq<Content>
    ghost var taken: seq<Content>
    ghost var history: seq<R.Step>
    ghost var machine: R.State

    /** Everything accepted is taken or still queued, in order. */
    ghost predicate Flow()
      reads this, queue, queue.nodes
    {
      queue.Valid() && accepted == taken + queue.items
    }

    ghost predicate Shows()
      reads this, queue
    {
      Pictures(machine, state, threadRunning, messagesSent, failedSends, accepted, taken, queue.items)
    }

    ghost predicate Valid()
      reads this, queue, queue.nodes
    {
      Flow() && Shows() && Reached(history, machine) && AtRest(machine)
    }

    /** rtmp_create. */
    constructor ()
      ensures Valid() && fresh(queue) && state == R.Disconnected && accepted == taken == [] && history == []
    {
      queue := new Queue();
      state, threadRunning, streamId := R.Disconnected, false, 1;
      messagesSent, bytesSent, failedSends := 0, 0, 0;
      accepted, taken, history := [], [], [];
      machine := R.Init(1, 1);
    }

    /** The state a call ends in, with the steps it took. */
    method Settle(next: R.ConnState, running: bool, ghost m: R.State, ghost steps: seq<R.Step>)
      requires Flow() && Reached(history + steps, m) && AtRest(m)
      requires Pictures(m, next, running, messagesSent, failedSends, accepted, taken, queue.items)
      modifies this`state, this`threadRunning, this`machine, this`history
      ensures Valid() && state == next && threadRunning == running
      ensures machine == m && history == old(history) + steps
    {
      state, threadRunning := next, running;
      history, machine := history + steps, m;
    }

    /** rtmp_connect, given whether the socket connects, the thread starts and the handshake
        succeeds. A failed handshake disconnects again. */
    method Connect(socketOk: bool, threadOk: bool, shakeOk: bool) returns (ok: bool)
      requires Valid()
      modifies this`state, this`threadRunning, this`machine, this`history
      ensures Valid() && old(history) <= history
      ensures ok <==> old(state) == R.Disconnected && socketOk && threadOk && shakeOk
      ensures state == if old(state) != R.Disconnected then old(state) else if ok then R.Connected
                       else if socketOk && threadOk then R.Disconnected else R.Failed
      ensures threadRunning == if old(state) == R.Disconnected && socketOk then ok else old(threadRunning)
      ensures if ok then Working(machine)
              else old(state) == R.Disconnected && socketOk && threadOk ==> Current(machine).Off?
    {
      if state != R.Disconnected {
        return false;
      }
      ghost var steps := ConnectReached(history, machine, socketOk, threadOk, shakeOk);
      ok := Establish(socketOk, threadOk, shakeOk);
      Settle(state, threadRunning, AfterConnect(machine, socketOk, threadOk, shakeOk), steps);
    }

    /** The body of a connect, on the fields. */
    method Establish(socketOk: bool, threadOk: bool, shakeOk: bool) returns (ok: bool)
      modifies this`state, this`threadRunning
      ensures ok == (socketOk && threadOk && shakeOk)
      ensures state == if ok then R.Connected else if socketOk && threadOk then R.Disconnected else R.Failed
      ensures threadRunning == if socketOk then ok else old(threadRunning)
    {
      state := R.Connecting;
      if !socketOk {
        state := R.Failed;
        return false;
      }
      threadRunning := true;
      if !threadOk {
        state := R.Failed;
        threadRunning := false;
        return false;
      }
      if !shakeOk {
        state := R.Failed;
        threadRunning := false;
        state := R.Disconnected;
        return false;
      }
      state := R.Connected;
      return true;
    }

    /** rtmp_disconnect. */
    method Disconnect()
      requires Valid()
      modifies this`state, this`threadRunning, this`machine, this`history
      ensures Valid() && state == R.Disconnected && !threadRunning && Current(machine).Off? && old(history) <= history
    {
      ghost var steps := DisconnectRuns(machine);
      ReachedOn(history, machine, steps);
      history, machine := history + steps, Joined(machine.(running := false));
      threadRunning := false;
      state := R.Disconnected;
    }

    /** Wrap a message and push it; refused exactly when the queue is full. */
    method Enqueue(content: Content) returns (ok: bool)
      requires Flow()
      modifies this`accepted, queue, queue.nodes
      ensures Flow() && ok == (old(queue.count) < 1000) && old(queue.count) == |old(queue.items)|
      ensures accepted == old(accepted) + if ok then [content] else []
      ensures queue.items == old(queue.items) + if ok then [content] else []
      ensures fresh(set m | m in queue.nodes && m !in old(queue.nodes))
    {
      var msg := new Message(content);
      MoveIn(taken, queue.items, content);
      ok := queue.Push(msg);
      if ok {
        accepted := accepted + [content];
      }
    }

    /** Enqueue for a call whose steps are known; the kind of the message comes with it. */
    method Submit(content: Content, next: R.ConnState, ghost kind: R.Kind, ghost steps: seq<R.Step>) returns (ok: bool)
      requires Valid() && IsKind(content, kind)
      requires Reached(history + steps, AfterCall(machine, kind, next))
      modifies this`state, this`threadRunning, this`accepted, this`machine, this`history, queue, queue.nodes
      ensures Valid() && ok == (old(queue.count) < 1000)
      ensures accepted == old(accepted) + if ok then [content] else []
      ensures history == old(history) + steps && state == (if ok then next else old(state))
      ensures threadRunning == old(threadRunning)
      ensures fresh(set m | m in queue.nodes && m !in old(queue.nodes))
    {
      PictureOfCall(machine, state, threadRunning, messagesSent, failedSends, accepted, taken, queue.items,
                    content, kind, next);
      ok := Enqueue(content);
      Settle(if ok then next else state, threadRunning, AfterCall(machine, kind, next), steps);
    }

    /** rtmp_publish_start: from Connected to Publishing, and only with the command accepted. */
    method PublishStart(command: Option<seq<byte>>, now: uint32) returns (ok: bool)
      requires Valid()
      modifies this`state, this`threadRunning, this`accepted, this`machine, this`history, queue, queue.nodes
      ensures Valid() && threadRunning == old(threadRunning)
      ensures ok <==> old(state) == R.Connected && command.Some? && old(queue.count) < 1000
      ensures state == if ok then R.Publishing else old(state)
      ensures accepted == old(accepted) +
                if ok then [Content(command.value, 20, now, streamId)] else []
      ensures history == old(history) +
                if old(state) == R.Connected && command.Some? then CallSteps(R.CheckPublish(0), ok, true) else []
    {
      if state != R.Connected || command.None? {
        return false;
      }
      PublishRuns(machine);
      ReachedOn(history, machine, CallSteps(R.CheckPublish(0), Room(machine), true));
      ok := Submit(Content(command.value, MSG_COMMAND_AMF0, now, streamId), R.Publishing, R.Publish,
                   CallSteps(R.CheckPublish(0), Room(machine), true));
    }

    /** rtmp_publish_stop: back to Connected, and only with the command accepted. */
    method PublishStop(command: Option<seq<byte>>, now: uint32) returns (ok: bool)
      requires Valid()
      modifies this`state, this`threadRunning, this`accepted, this`machine, this`history, queue, queue.nodes
      ensures Valid() && threadRunning == old(threadRunning)
      ensures ok <==> old(state) == R.Publishing && command.Some? && old(queue.count) < 1000
      ensures state == if ok then R.Connected else old(state)
      ensures accepted == old(accepted) +
                if ok then [Content(command.value, 20, now, streamId)] else []
      ensures history == old(history) +
                if old(state) == R.Publishing && command.Some? then CallSteps(R.CheckStop(0), ok, true) else []
    {
      if state != R.Publishing || command.None? {
        return false;
      }
      StopRuns(machine);
      ReachedOn(history, machine, CallSteps(R.CheckStop(0), Room(machine), true));
      ok := Submit(Content(command.value, MSG_COMMAND_AMF0, now, streamId), R.Connected, R.Unpublish,
                   CallSteps(R.CheckStop(0), Room(machine), true));
    }

    /** rtmp_send_video and rtmp_send_audio: only while publishing; timestamps are cut to 32 bits. */
    method SendMedia(mtype: byte, data: seq<byte>, timestamp: int) returns (ok: bool)
      requires Valid() && mtype in {8, 9}
      modifies this`state, this`threadRunning, this`accepted, this`machine, this`history, queue, queue.nodes
      ensures Valid() && state == old(state) && threadRunning == old(threadRunning)
      ensures ok <==> state == R.Publishing && data != [] && old(queue.count) < 1000
      ensures accepted == old(accepted) +
                if ok then [Content(data, mtype, timestamp % 0x1_0000_0000, streamId)] else []
      ensures history == old(history) +
                if state == R.Publishing && data != [] then CallSteps(R.CheckMedia(0), ok, false) else []
    {
      if state != R.Publishing || data == [] {
        return false;
      }
      MediaRuns(machine);
      ReachedOn(history, machine, CallSteps(R.CheckMedia(0), Room(machine), false));
      ok := Submit(Content(data, mtype, timestamp % TWO_32, streamId), state, R.Media,
                   CallSteps(R.CheckMedia(0), Room(machine), false));
    }

    /** rtmp_send_metadata does not look at the state. */
    method SendMetadata(message: Option<seq<byte>>, now: uint32) returns (ok: bool)
      requires Valid()
      modifies this`state, this`threadRunning, this`accepted, this`machine, this`history, queue, queue.nodes
      ensures Valid() && state == old(state) && threadRunning == old(threadRunning)
      ensures ok <==> message.Some? && old(queue.count) < 1000
      ensures accepted == old(accepted) +
                if ok then [Content(message.value, 18, now, streamId)] else []
      ensures history == old(history) +
                if message.Some? then CallSteps(R.BuildMetadata(0), ok, false) else []
    {
      if message.None? {
        return false;
      }
      MetadataRuns(machine);
      ReachedOn(history, machine, CallSteps(R.BuildMetadata(0), Room(machine), false));
      ok := Submit(Content(message.value, MSG_DATA_AMF0, now, streamId), state, R.Metadata,
                   CallSteps(R.BuildMetadata(0), Room(machine), false));
    }

    /** One pass of the worker loop; ret is what send returned, closed whether the peer is gone. The
        oldest accepted message leaves, counted as sent or as the failure that ends the worker. */
    method WorkerPass(selected: Selected, ret: int, closed: bool) returns (goOn: bool)
      requires Valid() && threadRunning && Working(machine)
      modifies this`state, this`threadRunning, this`bytesSent, this`messagesSent, this`failedSends, this`taken,
               this`machine, this`history, queue
      ensures Valid() && accepted == old(accepted) && old(history) <= history
      ensures threadRunning == old(threadRunning)
      ensures machine == AfterPass(old(machine), selected, ret >= 0, closed)
      ensures goOn <==> Working(machine)
      ensures var written := selected == Ready(true) && old(queue.count) > 0;
              && taken == old(taken) + (if written then [old(queue.items[0])] else [])
              && messagesSent == old(messagesSent) + (if written && ret >= 0 then 1 else 0)
              && bytesSent == old(bytesSent) + (if written && ret >= 0 then ret else 0)
              && state == if goOn then old(state) else R.Failed
    {
      ghost var steps, after, on := PassReached(history, machine, state, threadRunning, messagesSent, failedSends,
                                                accepted, taken, queue.items, selected, ret >= 0, closed);
      goOn := HandleReady(selected, ret, closed);
      Settle(state, threadRunning, after, steps);
    }

    /** The body of a pass, on the fields. */
    method HandleReady(selected: Selected, ret: int, closed: bool) returns (goOn: bool)
      requires Flow()
      modifies this`state, this`bytesSent, this`messagesSent, this`failedSends, this`taken, queue
      ensures Flow()
      ensures var w := old(queue.items) != [] && selected == Ready(true);
              && (goOn <==> selected == Signal || (selected.Ready? && (w ==> ret >= 0) && !closed))
              && state == (if goOn then old(state) else R.Failed)
              && messagesSent == old(messagesSent) + (if w && ret >= 0 then 1 else 0)
              && bytesSent == old(bytesSent) + (if w && ret >= 0 then ret else 0)
              && failedSends == old(failedSends) + (if w && ret < 0 then 1 else 0)
              && taken == old(taken) + (if w then [old(queue.items[0])] else [])
              && queue.items == (if w then old(queue.items[1..]) else old(queue.items))
    {
      var armed := queue.count > 0;
      match selected
      case SelectError =>
        state := R.Failed;
        goOn := false;
      case Signal => goOn := true;
      case Ready(writable) =>
        goOn := true;
        if armed && writable {
          TakeOldest();
          goOn := CountSend(ret);
        }
        if goOn && closed {
          state := R.Failed;
          goOn := false;
        }
    }

    method CountSend(ret: int) returns (goOn: bool)
      modifies this`state, this`bytesSent, this`messagesSent, this`failedSends
      ensures goOn == (ret >= 0) && state == if goOn then old(state) else R.Failed
      ensures messagesSent == old(messagesSent) + (if goOn then 1 else 0)
      ensures bytesSent == old(bytesSent) + (if goOn then ret else 0)
      ensures failedSends == old(failedSends) + (if goOn then 0 else 1)
    {
      goOn := ret >= 0;
      if goOn {
        bytesSent := bytesSent + ret;
        messagesSent := messagesSent + 1;
      } else {
        state := R.Failed;
        failedSends := failedSends + 1;
      }
    }

    /** Pop, with the message in hand. */
    method TakeOldest()
      requires Flow() && queue.count > 0
      modifies this`taken, queue
      ensures Flow() && queue.nodes == old(queue.nodes[1..]) && queue.items == old(queue.items[1..])
      ensures taken == old(taken) + [old(queue.items[0])]
    {
      MoveHead(taken, queue.items);
      var msg := queue.Pop();
      taken := taken + [msg.content];
    }
  }

  /** Whatever calls and worker passes have been made on a connection: accepted messages are sent,
      queued or failed, taken in the order of acceptance, and both streams are bracketed by publish
      and unpublish. */
  lemma ConnectionLaws(c: Connection)
    requires c.Valid()
    ensures |c.accepted| == c.messagesSent + c.queue.count + c.failedSends && c.taken <= c.accepted
    ensures AreKinds(c.accepted, c.machine.accepted) && R.Bracketed(c.machine.accepted)
    ensures AreKinds(c.taken, c.machine.taken) && R.Bracketed(c.machine.taken)
  {
    R.SendConservation(1, 1, c.history);
    R.RunAlone(R.Init(1, 1), c.history);
    R.EmptyHands(c.machine.workers);
    R.AlwaysBracketedIff(1, 1);
    assert R.RunBracketed(1, 1, c.history);
  }
}
