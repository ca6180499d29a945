/** The sender of rtmp_core.c (131-149, 188-270 and 308-515) as concurrent steps: any number of
    application threads, each inside at most one call, and the worker threads they start. A step is
    one locked section or one unlocked test of the source, so a call can be interrupted between its
    state check, its push and its state change. The first `connectors` threads may connect and
    disconnect. */
module SendRuntime {
  import opened Bytes
  import Q = MessageQueue

  datatype ConnState = Disconnected | Connecting | Connected | Publishing | Failed

  datatype Kind = Publish | Unpublish | Media | Metadata

  /** Where an application thread stands. */
  datatype Api =
    | Idle
    | PublishChecked     // state was Connected, publish command built
    | PublishPushed      // accepted, state not yet changed
    | StopChecked
    | StopPushed
    | MediaChecked       // state was Publishing, message built
    | MetadataBuilt
    | ConnectChecked     // state was Disconnected
    | ConnectBegun       // state set to Connecting, no worker yet
    | Handshaking        // worker started
    | Disconnecting      // worker told to stop, not yet joined
    | Joined

  /** Where a worker stands in its loop; Off once it has been joined. */
  datatype Worker =
    | Off
    | Top
    | Armed              // saw a non-empty queue and waits for the socket
    | Unarmed
    | Holding(msg: Kind)
    | Reading
    | Exited

  /** workers are all that were ever started, in order; thread is the handle the connection keeps. */
  datatype State = State(
    conn: ConnState,
    queue: seq<Kind>,
    accepted: seq<Kind>,
    taken: seq<Kind>,
    sent: nat,
    failed: nat,
    running: bool,
    workers: seq<Worker>,
    thread: Option<nat>,
    api: seq<Api>,
    connectors: nat)

  datatype Step =
    // application thread t
    | CheckPublish(t: nat)
    | CheckStop(t: nat)
    | CheckMedia(t: nat)
    | BuildMetadata(t: nat)
    | Push(t: nat)
    | SetState(t: nat)
    | CheckConnect(t: nat)
    | BeginConnect(t: nat)
    | SocketFails(t: nat)
    | StartWorker(t: nat)
    | WorkerNotStarted(t: nat)
    | HandshakeDone(t: nat)
    | HandshakeFails(t: nat)
    | BeginDisconnect(t: nat)
    | Join(t: nat)
    // worker w
    | TestQueue(w: nat)
    | SelectFails(w: nat)
    | Interrupted(w: nat)
    | Pop(w: nat)
    | NotWritable(w: nat)
    | SendOk(w: nat)
    | SendFails(w: nat)
    | ReadDone(w: nat)
    | PeerClosed(w: nat)
    | StopSeen(w: nat)

  function Init(n: nat, connectors: nat): State {
    State(Disconnected, [], [], [], 0, 0, false, [], None, seq(n, _ => Idle), connectors)
  }

  function Msg(a: Api): Kind {
    match a
    case PublishChecked => Publish
    case StopChecked => Unpublish
    case MediaChecked => Media
    case _ => Metadata
  }

  predicate HasMessage(a: Api) {
    a.PublishChecked? || a.StopChecked? || a.MediaChecked? || a.MetadataBuilt?
  }

  /** Thread t stands at a. */
  predicate ApiAt(s: State, t: nat, a: Api) {
    t < |s.api| && s.api[t] == a
  }

  predicate WorkerAt(s: State, w: nat, k: Worker) {
    w < |s.workers| && s.workers[w] == k
  }

  predicate Selecting(s: State, w: nat) {
    WorkerAt(s, w, Armed) || WorkerAt(s, w, Unarmed)
  }

  predicate Holds(s: State, w: nat) {
    w < |s.workers| && s.workers[w].Holding?
  }

  predicate Joinable(s: State) {
    match s.thread
    case None => true
    case Some(w) => WorkerAt(s, w, Exited)
  }

  predicate Enabled(s: State, e: Step) {
    match e
    case CheckPublish(t) => ApiAt(s, t, Idle) && s.conn.Connected?
    case CheckStop(t) => ApiAt(s, t, Idle) && s.conn.Publishing?
    case CheckMedia(t) => ApiAt(s, t, Idle) && s.conn.Publishing?
    case BuildMetadata(t) => ApiAt(s, t, Idle)
    case Push(t) => t < |s.api| && HasMessage(s.api[t])
    case SetState(t) => ApiAt(s, t, PublishPushed) || ApiAt(s, t, StopPushed)
    case CheckConnect(t) => t < s.connectors && ApiAt(s, t, Idle) && s.conn.Disconnected?
    case BeginConnect(t) => ApiAt(s, t, ConnectChecked)
    case SocketFails(t) => ApiAt(s, t, ConnectBegun)
    case StartWorker(t) => ApiAt(s, t, ConnectBegun)
    case WorkerNotStarted(t) => ApiAt(s, t, ConnectBegun)
    case HandshakeDone(t) => ApiAt(s, t, Handshaking)
    case HandshakeFails(t) => ApiAt(s, t, Handshaking)
    case BeginDisconnect(t) => t < s.connectors && ApiAt(s, t, Idle)
    case Join(t) => (ApiAt(s, t, Disconnecting) && Joinable(s)) || ApiAt(s, t, Joined)
    case TestQueue(w) => WorkerAt(s, w, Top) && s.running
    case SelectFails(w) => Selecting(s, w)
    case Interrupted(w) => Selecting(s, w)
    case Pop(w) => WorkerAt(s, w, Armed)
    case NotWritable(w) => Selecting(s, w)
    case SendOk(w) => Holds(s, w)
    case SendFails(w) => Holds(s, w)
    case ReadDone(w) => WorkerAt(s, w, Reading)
    case PeerClosed(w) => WorkerAt(s, w, Reading)
    case StopSeen(w) => WorkerAt(s, w, Top) && !s.running
  }

  function Moved(s: State, t: nat, a: Api): State
    requires t < |s.api|
  {
    s.(api := s.api[t := a])
  }

  function Went(s: State, w: nat, k: Worker): State
    requires w < |s.workers|
  {
    s.(workers := s.workers[w := k])
  }

  /** rtmp_queue_push accepts while fewer than the maximum are queued. */
  function AfterPush(s: State, t: nat): State
    requires t < |s.api| && HasMessage(s.api[t])
  {
    var a := s.api[t];
    if |s.queue| >= Q.MAX_QUEUE_SIZE then Moved(s, t, Idle)
    else
      var a' := if a.PublishChecked? then PublishPushed else if a.StopChecked? then StopPushed else Idle;
      Moved(s, t, a').(queue := s.queue + [Msg(a)], accepted := s.accepted + [Msg(a)])
  }

  /** rtmp_queue_pop waits on an empty queue: the step is taken and leads nowhere. */
  function AfterPop(s: State, w: nat): State
    requires w < |s.workers|
  {
    if s.queue == [] then s
    else Went(s, w, Holding(s.queue[0])).(queue := s.queue[1..], taken := s.taken + [s.queue[0]])
  }

  /** pthread_join of the kept handle, if there is one; then the state is set. */
  function AfterJoin(s: State, t: nat): State
    requires Enabled(s, Join(t))
  {
    if s.api[t].Joined? then Moved(s, t, Idle).(conn := Disconnected)
    else
      match s.thread
      case None => Moved(s, t, Joined)
      case Some(w) => Went(Moved(s, t, Joined), w, Off).(thread := None)
  }

  function Next(s: State, e: Step): State
    requires Enabled(s, e)
  {
    match e
    case CheckPublish(t) => Moved(s, t, PublishChecked)
    case CheckStop(t) => Moved(s, t, StopChecked)
    case CheckMedia(t) => Moved(s, t, MediaChecked)
    case BuildMetadata(t) => Moved(s, t, MetadataBuilt)
    case Push(t) => AfterPush(s, t)
    case SetState(t) => Moved(s, t, Idle).(conn := if s.api[t].PublishPushed? then Publishing else Connected)
    case CheckConnect(t) => Moved(s, t, ConnectChecked)
    case BeginConnect(t) => Moved(s, t, ConnectBegun).(conn := Connecting)
    case SocketFails(t) => Moved(s, t, Idle).(conn := Failed)
    case StartWorker(t) =>
      Moved(s, t, Handshaking).(running := true, workers := s.workers + [Top], thread := Some(|s.workers|))
    case WorkerNotStarted(t) => Moved(s, t, Idle).(conn := Failed, running := false)
    case HandshakeDone(t) => Moved(s, t, Idle).(conn := Connected)
    case HandshakeFails(t) => Moved(s, t, Disconnecting).(conn := Failed, running := false)
    case BeginDisconnect(t) => Moved(s, t, Disconnecting).(running := false)
    case Join(t) => AfterJoin(s, t)
    case TestQueue(w) => Went(s, w, if s.queue != [] then Armed else Unarmed)
    case SelectFails(w) => Went(s, w, Exited).(conn := Failed)
    case Interrupted(w) => Went(s, w, Top)
    case Pop(w) => AfterPop(s, w)
    case NotWritable(w) => Went(s, w, Reading)
    case SendOk(w) => Went(s, w, Reading).(sent := s.sent + 1)
    case SendFails(w) => Went(s, w, Exited).(failed := s.failed + 1, conn := Failed)
    case ReadDone(w) => Went(s, w, Top)
    case PeerClosed(w) => Went(s, w, Exited).(conn := Failed)
    case StopSeen(w) => Went(s, w, Exited)
  }

  ghost predicate CanRun(s: State, steps: seq<Step>)
    decreases |steps|
  {
    steps == [] || (Enabled(s, steps[0]) && CanRun(Next(s, steps[0]), steps[1..]))
  }

  function After(s: State, steps: seq<Step>): State
    requires CanRun(s, steps)
    decreases |steps|
  {
    if steps == [] then s else After(Next(s, steps[0]), steps[1..])
  }

  // ---------------------------------------------------------------------- conservation

  /** How many workers have a message in hand. */
  function InHand(workers: seq<Worker>): nat {
    if workers == [] then 0
    else (if workers[0].Holding? then 1 else 0) + InHand(workers[1..])
  }

  function One(k: Worker): nat {
    if k.Holding? then 1 else 0
  }

  lemma {:induction false} InHandSet(workers: seq<Worker>, w: nat, k: Worker)
    requires w < |workers|
    ensures InHand(workers[w := k]) + One(workers[w]) == InHand(workers) + One(k)
  {
    if w == 0 {
      assert workers[0 := k][1..] == workers[1..];
    } else {
      assert workers[w := k][1..] == workers[1..][w - 1 := k];
      InHandSet(workers[1..], w - 1, k);
    }
  }

  lemma {:induction false} InHandSnoc(workers: seq<Worker>, k: Worker)
    ensures InHand(workers + [k]) == InHand(workers) + One(k)
  {
    if workers == [] {
      assert [k][1..] == [];
    } else {
      assert (workers + [k])[1..] == workers[1..] + [k];
      InHandSnoc(workers[1..], k);
    }
  }

  /** Messages are taken in the order they were accepted, and each is queued, in hand, sent or
      failed. */
  ghost predicate Conserved(s: State) {
    && s.accepted == s.taken + s.queue
    && |s.taken| == s.sent + s.failed + InHand(s.workers)
    && |s.queue| <= Q.MAX_QUEUE_SIZE
  }

  lemma PushConserves(s: State, t: nat)
    requires Conserved(s) && Enabled(s, Push(t))
    ensures Conserved(Next(s, Push(t)))
  {
    if |s.queue| < Q.MAX_QUEUE_SIZE {
      var m := Msg(s.api[t]);
      assert (s.taken + s.queue) + [m] == s.taken + (s.queue + [m]);
    }
  }

  lemma PopConserves(s: State, w: nat)
    requires Conserved(s) && Enabled(s, Pop(w))
    ensures Conserved(Next(s, Pop(w)))
  {
    if s.queue != [] {
      InHandSet(s.workers, w, Holding(s.queue[0]));
      assert s.taken + s.queue == (s.taken + [s.queue[0]]) + s.queue[1..];
    }
  }

  lemma JoinConserves(s: State, t: nat)
    requires Conserved(s) && Enabled(s, Join(t))
    ensures Conserved(Next(s, Join(t)))
  {
    if s.thread.Some? && s.api[t].Disconnecting? {
      InHandSet(s.workers, s.thread.value, Off);
    }
  }

  /** The steps of a worker other than pop. */
  lemma WorkerConserves(s: State, e: Step, w: nat, k: Worker)
    requires Conserved(s) && Enabled(s, e) && w < |s.workers|
    requires Next(s, e).workers == s.workers[w := k] && !k.Holding?
    requires Next(s, e).queue == s.queue && Next(s, e).accepted == s.accepted && Next(s, e).taken == s.taken
    requires Next(s, e).sent + Next(s, e).failed == s.sent + s.failed + One(s.workers[w])
    ensures Conserved(Next(s, e))
  {
    InHandSet(s.workers, w, k);
  }

  /** Every interleaving of any number of threads, connecting ones and workers. */
  lemma StepConserves(s: State, e: Step)
    requires Conserved(s) && Enabled(s, e)
    ensures Conserved(Next(s, e))
  {
    if e.Push? {
      PushConserves(s, e.t);
    } else if e.Pop? {
      PopConserves(s, e.w);
    } else if e.Join? {
      JoinConserves(s, e.t);
    } else if e.StartWorker? {
      InHandSnoc(s.workers, Top);
    } else if CallStep(e) || ConnectStep(e) {
      OtherConserves(s, e);
    } else {
      LoopConserves(s, e);
    }
  }

  lemma LoopConserves(s: State, e: Step)
    requires Conserved(s) && Enabled(s, e) && !CallStep(e) && !ConnectStep(e) && !e.Pop?
    ensures Conserved(Next(s, e))
  {
    match e
    case TestQueue(w) => WorkerConserves(s, e, w, if s.queue != [] then Armed else Unarmed);
    case SelectFails(w) => WorkerConserves(s, e, w, Exited);
    case Interrupted(w) => WorkerConserves(s, e, w, Top);
    case NotWritable(w) => WorkerConserves(s, e, w, Reading);
    case SendOk(w) => WorkerConserves(s, e, w, Reading);
    case SendFails(w) => WorkerConserves(s, e, w, Exited);
    case ReadDone(w) => WorkerConserves(s, e, w, Top);
    case PeerClosed(w) => WorkerConserves(s, e, w, Exited);
    case StopSeen(w) => WorkerConserves(s, e, w, Exited);
  }

  lemma OtherConserves(s: State, e: Step)
    requires Conserved(s) && Enabled(s, e) && (CallStep(e) || ConnectStep(e))
    requires !e.Push? && !e.StartWorker? && !e.Join?
    ensures Conserved(Next(s, e))
  {
  }

  lemma {:induction false} RunConserves(s: State, steps: seq<Step>)
    requires Conserved(s) && CanRun(s, steps)
    ensures Conserved(After(s, steps))
    decreases |steps|
  {
    if steps == [] {
    } else {
      StepConserves(s, steps[0]);
      RunConserves(Next(s, steps[0]), steps[1..]);
    }
  }

  /** Over every run: accepted pushes = messages_sent + queue count + failed sends + messages in hand,
      none of these between two passes of the workers; what was taken is the beginning of what was
      accepted. */
  lemma SendConservation(n: nat, k: nat, steps: seq<Step>)
    requires CanRun(Init(n, k), steps)
    ensures var s := After(Init(n, k), steps);
            && |s.accepted| == s.sent + s.failed + |s.queue| + InHand(s.workers)
            && s.taken <= s.accepted && s.queue == s.accepted[|s.taken|..]
  {
    RunConserves(Init(n, k), steps);
  }

  lemma {:induction false} EmptyHands(workers: seq<Worker>)
    requires forall w :: 0 <= w < |workers| ==> !workers[w].Holding?
    ensures InHand(workers) == 0
  {
    if workers == [] {
    } else {
      EmptyHands(workers[1..]);
    }
  }

  // --------------------------------------------------------------------- worker safety

  predicate Waits(s: State, w: nat) {
    WorkerAt(s, w, Armed) && s.queue == []
  }

  /** Inside connect or disconnect. */
  predicate InConnect(a: Api) {
    a.ConnectChecked? || a.ConnectBegun? || a.Handshaking? || a.Disconnecting? || a.Joined?
  }

  /** With one connecting thread at most the worker of the kept handle lives, and it has seen its
      message to the end. */
  ghost predicate Alone(s: State) {
    && (s.connectors <= 1 || |s.api| <= 1)
    && (s.thread.Some? ==> s.thread.value < |s.workers|)
    && (forall w :: 0 <= w < |s.workers| && !s.workers[w].Off? ==> s.thread == Some(w))
    && (s.thread.Some? && s.workers[s.thread.value].Armed? ==> s.queue != [])
    && (s.conn.Disconnected? ==> s.thread.None?)
    && (forall t :: 1 <= t < |s.api| ==> !InConnect(s.api[t]))
    && (0 < |s.api| && (s.api[0].ConnectChecked? || s.api[0].ConnectBegun? || s.api[0].Joined?) ==> s.thread.None?)
    && (0 < |s.api| && (s.api[0].ConnectBegun? || s.api[0].Handshaking?) ==> !s.conn.Disconnected?)
    && (s.connectors == 0 || s.api == [] ==> s.thread.None? && (s.api != [] ==> !InConnect(s.api[0])))
  }

  predicate CallStep(e: Step) {
    e.CheckPublish? || e.CheckStop? || e.CheckMedia? || e.BuildMetadata? || e.Push? || e.SetState?
  }

  predicate ConnectStep(e: Step) {
    e.CheckConnect? || e.BeginConnect? || e.SocketFails? || e.StartWorker? || e.WorkerNotStarted?
    || e.HandshakeDone? || e.HandshakeFails? || e.BeginDisconnect? || e.Join?
  }

  lemma CallAlone(s: State, e: Step)
    requires Alone(s) && Enabled(s, e) && CallStep(e) && !e.Push?
    ensures Alone(Next(s, e))
  {
  }

  lemma PushAlone(s: State, t: nat)
    requires Alone(s) && Enabled(s, Push(t))
    ensures Alone(Next(s, Push(t)))
  {
  }

  lemma ConnectAlone(s: State, e: Step)
    requires Alone(s) && Enabled(s, e) && ConnectStep(e) && !e.Join?
    ensures Alone(Next(s, e))
    ensures e.StartWorker? ==> s.thread.None?
  {
  }

  lemma JoinAlone(s: State, t: nat)
    requires Alone(s) && Enabled(s, Join(t))
    ensures Alone(Next(s, Join(t)))
  {
  }

  lemma WorkerAlone(s: State, e: Step)
    requires Alone(s) && Enabled(s, e) && !CallStep(e) && !ConnectStep(e)
    ensures Alone(Next(s, e))
  {
  }

  /** A new worker starts only when the previous one has been joined, and no worker waits. */
  lemma StepAlone(s: State, e: Step)
    requires Alone(s) && Enabled(s, e)
    ensures Alone(Next(s, e))
    ensures e.StartWorker? ==> s.thread.None?
  {
    if e.Push? {
      PushAlone(s, e.t);
    } else if CallStep(e) {
      CallAlone(s, e);
    } else if e.Join? {
      JoinAlone(s, e.t);
    } else if ConnectStep(e) {
      ConnectAlone(s, e);
    } else {
      WorkerAlone(s, e);
    }
  }

  lemma {:induction false} RunAlone(s: State, steps: seq<Step>)
    requires Alone(s) && CanRun(s, steps)
    ensures Alone(After(s, steps))
    decreases |steps|
  {
    if steps == [] {
    } else {
      StepAlone(s, steps[0]);
      RunAlone(Next(s, steps[0]), steps[1..]);
    }
  }

  /** In no run of n threads, k of which may connect, does a worker reach a pop with the queue
      empty. */
  ghost predicate NeverWaits(n: nat, k: nat) {
    forall steps: seq<Step>, w: nat :: CanRun(Init(n, k), steps) ==> !Waits(After(Init(n, k), steps), w)
  }

  /** No worker ever waits exactly when at most one thread connects: two that pass the state check
      together start two workers, which both see the same message. */
  lemma NeverWaitsIff(n: nat, k: nat)
    ensures NeverWaits(n, k) <==> n <= 1 || k <= 1
  {
    if n <= 1 || k <= 1 {
      forall steps: seq<Step>, w: nat | CanRun(Init(n, k), steps)
        ensures !Waits(After(Init(n, k), steps), w)
      {
        RunAlone(Init(n, k), steps);
      }
    } else {
      TwoWorkers(n, k);
      assert Waits(After(Init(n, k), TWO_WORKERS), 1);
    }
  }

  /** Both threads pass the check, set the state and start a worker; one message; both workers see it,
      and the first takes it. */
  const BOTH_PASS := [CheckConnect(0), CheckConnect(1), BeginConnect(0), BeginConnect(1)]
  const BOTH_START := [StartWorker(0), HandshakeDone(0), StartWorker(1), BuildMetadata(0)]
  const ONE_TAKES := [Push(0), TestQueue(0), TestQueue(1), Pop(0)]
  const TWO_WORKERS: seq<Step> := BOTH_PASS + (BOTH_START + ONE_TAKES)

  lemma TwoWorkers(n: nat, k: nat)
    requires n >= 2 && k >= 2
    ensures CanRun(Init(n, k), TWO_WORKERS) && Waits(After(Init(n, k), TWO_WORKERS), 1)
  {
    var s := Init(n, k);
    BothPass(s);
    var s1 := After(s, BOTH_PASS);
    BothStart(s1);
    OneTakes(After(s1, BOTH_START));
    ConcatThree(s, BOTH_PASS, BOTH_START, ONE_TAKES);
  }

  lemma BothPass(s: State)
    requires s.connectors >= 2 && |s.api| >= 2 && s == Init(|s.api|, s.connectors)
    ensures CanRun(s, BOTH_PASS)
    ensures ApiAt(After(s, BOTH_PASS), 0, ConnectBegun) && ApiAt(After(s, BOTH_PASS), 1, ConnectBegun)
    ensures After(s, BOTH_PASS).workers == [] && After(s, BOTH_PASS).queue == []
  {
    var first, second := [CheckConnect(0), CheckConnect(1)], [BeginConnect(0), BeginConnect(1)];
    BothCheck(s);
    BothBegin(After(s, first));
    Concat(s, first, second);
    assert first + second == BOTH_PASS;
  }

  lemma BothCheck(s: State)
    requires s.connectors >= 2 && s.conn.Disconnected? && ApiAt(s, 0, Idle) && ApiAt(s, 1, Idle)
    ensures var a := [CheckConnect(0), CheckConnect(1)];
            && CanRun(s, a)
            && ApiAt(After(s, a), 0, ConnectChecked) && ApiAt(After(s, a), 1, ConnectChecked)
            && After(s, a).workers == s.workers && After(s, a).queue == s.queue
  {
    Two(s, CheckConnect(0), CheckConnect(1));
  }

  lemma BothBegin(s: State)
    requires ApiAt(s, 0, ConnectChecked) && ApiAt(s, 1, ConnectChecked)
    ensures var a := [BeginConnect(0), BeginConnect(1)];
            && CanRun(s, a)
            && ApiAt(After(s, a), 0, ConnectBegun) && ApiAt(After(s, a), 1, ConnectBegun)
            && After(s, a).workers == s.workers && After(s, a).queue == s.queue
  {
    Two(s, BeginConnect(0), BeginConnect(1));
  }

  lemma BothStart(s: State)
    requires ApiAt(s, 0, ConnectBegun) && ApiAt(s, 1, ConnectBegun) && s.workers == [] && s.queue == []
    ensures CanRun(s, BOTH_START)
    ensures ApiAt(After(s, BOTH_START), 0, MetadataBuilt) && After(s, BOTH_START).workers == [Top, Top]
    ensures After(s, BOTH_START).queue == [] && After(s, BOTH_START).running
  {
    var first, second := [StartWorker(0), HandshakeDone(0)], [StartWorker(1), BuildMetadata(0)];
    Starts(s);
    Two(After(s, first), StartWorker(1), BuildMetadata(0));
    assert [Top] + [Top] == [Top, Top];
    Concat(s, first, second);
    assert first + second == BOTH_START;
  }

  lemma OneTakes(s: State)
    requires ApiAt(s, 0, MetadataBuilt) && WorkerAt(s, 0, Top) && WorkerAt(s, 1, Top) && s.queue == [] && s.running
    ensures CanRun(s, ONE_TAKES) && Waits(After(s, ONE_TAKES), 1)
  {
    var s1 := Next(s, Push(0));
    assert s1.queue == [Metadata] && s1.workers == s.workers && s1.running;
    BothSee(s1);
    Cons(s, Push(0), [TestQueue(0), TestQueue(1), Pop(0)]);
    assert [Push(0)] + [TestQueue(0), TestQueue(1), Pop(0)] == ONE_TAKES;
  }

  lemma BothSee(s: State)
    requires WorkerAt(s, 0, Top) && WorkerAt(s, 1, Top) && |s.queue| == 1 && s.running
    ensures var c := [TestQueue(0), TestQueue(1), Pop(0)];
            CanRun(s, c) && Waits(After(s, c), 1)
  {
    var s1 := Went(s, 0, Armed);
    var s2 := Went(s1, 1, Armed);
    assert Next(s, TestQueue(0)) == s1;
    assert Next(s1, TestQueue(1)) == s2;
    assert Waits(Next(s2, Pop(0)), 1);
    Three(s, TestQueue(0), TestQueue(1), Pop(0));
  }

  // ----------------------------------------------------------------- publish bracketing

  /** Position i is preceded by a publish command with no unpublish after it. */
  ghost predicate OpenAt(log: seq<Kind>, i: nat) {
    i <= |log| && exists j :: 0 <= j < i && log[j] == Publish && forall k :: j < k < i ==> log[k] != Unpublish
  }

  ghost predicate Bracketed(log: seq<Kind>) {
    forall i :: 0 <= i < |log| && log[i] == Media ==> OpenAt(log, i)
  }

  lemma OpenPrefix(log: seq<Kind>, more: seq<Kind>, i: nat)
    requires i <= |log|
    ensures OpenAt(log + more, i) <==> OpenAt(log, i)
  {
    var all := log + more;
    if OpenAt(log, i) {
      var j :| 0 <= j < i && log[j] == Publish && forall k :: j < k < i ==> log[k] != Unpublish;
      assert all[j] == Publish && forall k :: j < k < i ==> all[k] == log[k];
    }
    if OpenAt(all, i) {
      var j :| 0 <= j < i && all[j] == Publish && forall k :: j < k < i ==> all[k] != Unpublish;
      assert log[j] == Publish && forall k :: j < k < i ==> log[k] == all[k];
    }
  }

  lemma Append(log: seq<Kind>, m: Kind)
    requires Bracketed(log) && (m == Media ==> OpenAt(log, |log|))
    ensures Bracketed(log + [m])
    ensures m == Publish ==> OpenAt(log + [m], |log| + 1)
    ensures m != Unpublish && OpenAt(log, |log|) ==> OpenAt(log + [m], |log| + 1)
  {
    var all := log + [m];
    forall i | 0 <= i < |all| && all[i] == Media
      ensures OpenAt(all, i)
    {
      OpenPrefix(log, [m], i);
    }
    if m == Publish {
      assert all[|log|] == Publish;
    } else if m != Unpublish && OpenAt(log, |log|) {
      var j :| 0 <= j < |log| && log[j] == Publish && forall k :: j < k < |log| ==> log[k] != Unpublish;
      assert all[j] == Publish && forall k :: j < k < |log| + 1 ==> all[k] != Unpublish;
    }
  }

  /** With one application thread, publishing means an open bracket, except between the push and
      the state change of publish_stop. */
  ghost predicate OneThread(s: State) {
    && |s.api| == 1
    && Bracketed(s.accepted)
    && (s.conn.Publishing? && !s.api[0].StopPushed? ==> OpenAt(s.accepted, |s.accepted|))
    && (s.api[0].PublishPushed? || s.api[0].MediaChecked? ==> OpenAt(s.accepted, |s.accepted|))
  }

  lemma StepBrackets(s: State, e: Step)
    requires OneThread(s) && Enabled(s, e)
    ensures OneThread(Next(s, e))
  {
    if e.Push? {
      PushBrackets(s);
    } else {
      OtherBrackets(s, e);
    }
  }

  lemma PushBrackets(s: State)
    requires OneThread(s) && Enabled(s, Push(0))
    ensures OneThread(Next(s, Push(0)))
  {
    if |s.queue| < Q.MAX_QUEUE_SIZE {
      Append(s.accepted, Msg(s.api[0]));
    }
  }

  lemma OtherBrackets(s: State, e: Step)
    requires OneThread(s) && Enabled(s, e) && !e.Push?
    ensures OneThread(Next(s, e))
  {
    assert Next(s, e).accepted == s.accepted;
  }

  lemma {:induction false} RunBrackets(s: State, steps: seq<Step>)
    requires OneThread(s) && CanRun(s, steps)
    ensures OneThread(After(s, steps))
    decreases |steps|
  {
    if steps == [] {
    } else {
      StepBrackets(s, steps[0]);
      RunBrackets(Next(s, steps[0]), steps[1..]);
    }
  }

  /** While nobody connects, nothing but metadata is accepted. */
  ghost predicate NeverConnected(s: State) {
    && (s.connectors == 0 || s.api == []) && s.conn.Disconnected? && s.workers == []
    && (forall t :: 0 <= t < |s.api| ==> s.api[t].Idle? || s.api[t].MetadataBuilt?)
    && (forall i :: 0 <= i < |s.accepted| ==> s.accepted[i] == Metadata)
  }

  lemma {:induction false} RunUnconnected(s: State, steps: seq<Step>)
    requires NeverConnected(s) && CanRun(s, steps)
    ensures NeverConnected(After(s, steps))
    decreases |steps|
  {
    if steps == [] {
    } else {
      RunUnconnected(Next(s, steps[0]), steps[1..]);
    }
  }

  lemma PrefixBracketed(log: seq<Kind>, part: seq<Kind>)
    requires Bracketed(log) && part <= log
    ensures Bracketed(part)
  {
    assert log == part + log[|part|..];
    forall i | 0 <= i < |part| && part[i] == Media
      ensures OpenAt(part, i)
    {
      assert log[i] == Media;
      OpenPrefix(part, log[|part|..], i);
    }
  }

  /** Every run of n application threads, k of which may connect, keeps the accepted stream and the
      dequeued stream bracketed. */
  ghost predicate AlwaysBracketed(n: nat, k: nat) {
    forall steps: seq<Step> :: CanRun(Init(n, k), steps) ==> RunBracketed(n, k, steps)
  }

  ghost predicate RunBracketed(n: nat, k: nat, steps: seq<Step>)
    requires CanRun(Init(n, k), steps)
  {
    Bracketed(After(Init(n, k), steps).accepted) && Bracketed(After(Init(n, k), steps).taken)
  }

  /** Publish bracketing holds exactly when at most one thread calls the library, or none may connect:
      with two, a send that has passed its check can be accepted behind the unpublish of the other. */
  lemma AlwaysBracketedIff(n: nat, k: nat)
    ensures AlwaysBracketed(n, k) <==> n <= 1 || k == 0
  {
    if n <= 1 || k == 0 {
      forall steps: seq<Step> | CanRun(Init(n, k), steps)
        ensures RunBracketed(n, k, steps)
      {
        var s := After(Init(n, k), steps);
        if n == 1 {
          RunBrackets(Init(1, k), steps);
        } else {
          RunUnconnected(Init(n, k), steps);
        }
        SendConservation(n, k, steps);
        PrefixBracketed(s.accepted, s.taken);
      }
    } else {
      LateMedia(n, k);
      assert !RunBracketed(n, k, LATE_MEDIA);
    }
  }

  /** Thread 0 connects and publishes; thread 1 passes the check of a send; thread 0 unpublishes;
      thread 1 pushes. */
  const CONNECTS := [CheckConnect(0), BeginConnect(0), StartWorker(0), HandshakeDone(0)]
  const PUBLISHES := [CheckPublish(0), Push(0), SetState(0), CheckMedia(1)]
  const CROSSES := [CheckStop(0), Push(0), Push(1)]
  const LATE_MEDIA: seq<Step> := CONNECTS + (PUBLISHES + CROSSES)

  lemma LateMedia(n: nat, k: nat)
    requires n >= 2 && k >= 1
    ensures CanRun(Init(n, k), LATE_MEDIA)
    ensures After(Init(n, k), LATE_MEDIA).accepted == [Publish, Unpublish, Media]
    ensures !Bracketed([Publish, Unpublish, Media])
  {
    var log := [Publish, Unpublish, Media];
    assert log[2] == Media && log[1] == Unpublish;
    var s := Init(n, k);
    Connects(s);
    var s1 := After(s, CONNECTS);
    Publishes(s1);
    Crosses(After(s1, PUBLISHES));
    ConcatThree(s, CONNECTS, PUBLISHES, CROSSES);
  }

  lemma Connects(s: State)
    requires |s.api| >= 1 && s.connectors >= 1 && s == Init(|s.api|, s.connectors)
    ensures CanRun(s, CONNECTS)
    ensures After(s, CONNECTS) == s.(conn := Connected, running := true, workers := [Top], thread := Some(0))
  {
    var first, second := [CheckConnect(0), BeginConnect(0)], [StartWorker(0), HandshakeDone(0)];
    var s1 := Moved(s, 0, ConnectChecked);
    var s2 := Moved(s1, 0, ConnectBegun).(conn := Connecting);
    assert Next(s1, BeginConnect(0)) == s2;
    Two(s, CheckConnect(0), BeginConnect(0));
    Starts(s2);
    assert s2.api[0 := Idle] == s.api;
    Concat(s, first, second);
    assert first + second == CONNECTS;
  }

  lemma Starts(s: State)
    requires ApiAt(s, 0, ConnectBegun) && s.workers == []
    ensures var a := [StartWorker(0), HandshakeDone(0)];
            && CanRun(s, a)
            && After(s, a) == Moved(s, 0, Idle).(conn := Connected, running := true, workers := [Top],
                                                thread := Some(0))
  {
    var s1 := Next(s, StartWorker(0));
    assert s1.workers == [Top] && s1.api[0 := Idle] == s.api[0 := Idle];
    Two(s, StartWorker(0), HandshakeDone(0));
  }

  lemma Publishes(s: State)
    requires ApiAt(s, 0, Idle) && ApiAt(s, 1, Idle) && s.conn.Connected? && s.queue == s.accepted == []
    ensures CanRun(s, PUBLISHES)
    ensures After(s, PUBLISHES) == s.(conn := Publishing, queue := [Publish], accepted := [Publish],
                                         api := s.api[1 := MediaChecked])
  {
    var first, second := [CheckPublish(0), Push(0)], [SetState(0), CheckMedia(1)];
    var s2 := s.(queue := [Publish], accepted := [Publish], api := s.api[0 := PublishPushed]);
    PublishPush(s);
    assert s2.api[0 := Idle] == s.api;
    Two(s2, SetState(0), CheckMedia(1));
    Concat(s, first, second);
    assert first + second == PUBLISHES;
  }

  lemma PublishPush(s: State)
    requires ApiAt(s, 0, Idle) && s.conn.Connected? && s.queue == s.accepted == []
    ensures var b := [CheckPublish(0), Push(0)];
            && CanRun(s, b)
            && After(s, b) == s.(queue := [Publish], accepted := [Publish], api := s.api[0 := PublishPushed])
  {
    var s1 := Moved(s, 0, PublishChecked);
    assert s1.api[0 := PublishPushed] == s.api[0 := PublishPushed];
    assert s.queue + [Publish] == [Publish];
    Two(s, CheckPublish(0), Push(0));
  }

  lemma Crosses(s: State)
    requires ApiAt(s, 0, Idle) && ApiAt(s, 1, MediaChecked) && s.conn.Publishing?
    requires s.queue == s.accepted == [Publish]
    ensures CanRun(s, CROSSES) && After(s, CROSSES).accepted == [Publish, Unpublish, Media]
  {
    var s2 := Next(Next(s, CheckStop(0)), Push(0));
    assert s2.api[1] == MediaChecked && s2.accepted == s2.queue == [Publish, Unpublish];
    var s3 := Next(s2, Push(1));
    Cons(s2, Push(1), []);
    Two(s, CheckStop(0), Push(0));
    Concat(s, [CheckStop(0), Push(0)], [Push(1)]);
    assert [CheckStop(0), Push(0)] + [Push(1)] == CROSSES;
    assert [Push(1)] + [] == [Push(1)];
  }

  // ---------------------------------------------------------------------- building runs

  lemma {:induction false} Concat(s: State, a: seq<Step>, b: seq<Step>)
    requires CanRun(s, a) && CanRun(After(s, a), b)
    ensures CanRun(s, a + b) && After(s, a + b) == After(After(s, a), b)
    decreases |a|
  {
    if a == [] {
      assert a + b == b;
    } else {
      var rest := a[1..] + b;
      Concat(Next(s, a[0]), a[1..], b);
      assert (a + b)[0] == a[0] && (a + b)[1..] == rest;
    }
  }

  lemma ConcatThree(s: State, a: seq<Step>, b: seq<Step>, c: seq<Step>)
    requires CanRun(s, a) && CanRun(After(s, a), b) && CanRun(After(After(s, a), b), c)
    ensures CanRun(s, a + (b + c)) && After(s, a + (b + c)) == After(After(After(s, a), b), c)
  {
    Concat(After(s, a), b, c);
    Concat(s, a, b + c);
  }

  lemma Cons(s: State, e: Step, steps: seq<Step>)
    requires Enabled(s, e) && CanRun(Next(s, e), steps)
    ensures CanRun(s, [e] + steps) && After(s, [e] + steps) == After(Next(s, e), steps)
  {
    assert ([e] + steps)[1..] == steps;
  }

  lemma Two(s: State, a: Step, b: Step)
    requires Enabled(s, a) && Enabled(Next(s, a), b)
    ensures CanRun(s, [a, b]) && After(s, [a, b]) == Next(Next(s, a), b)
  {
    Cons(Next(s, a), b, []);
    Cons(s, a, [b]);
    assert [a] + [b] == [a, b] && [b] + [] == [b];
  }

  lemma Three(s: State, a: Step, b: Step, c: Step)
    requires Enabled(s, a) && Enabled(Next(s, a), b) && Enabled(Next(Next(s, a), b), c)
    ensures CanRun(s, [a, b, c]) && After(s, [a, b, c]) == Next(Next(Next(s, a), b), c)
  {
    Two(Next(s, a), b, c);
    Cons(s, a, [b, c]);
    assert [a] + [b, c] == [a, b, c];
  }
}
