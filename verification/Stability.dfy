/** The stability monitor of rtmp_stability.c: heartbeat, watchdog, recovery and reconnect, as a
    state machine. Clock readings, send and connect results come with each operation. */
module Stability {
  import opened Bytes

  datatype State = Stopped | Running | Recovering | Failed
  datatype Mode = NoMode | Reconnect | ResetMode | Fallback

  datatype Config = Config(
    maxReconnects: uint32, heartbeatInterval: uint32, watchdogTimeout: uint32,
    mode: Mode, autoReconnect: bool, useWatchdog: bool, useHeartbeat: bool)

  datatype Monitor = Monitor(
    cfg: Config, state: State, count: uint32, lastHeartbeat: uint32, lastResponse: uint32,
    pending: bool, watchdog: bool)

  /** Times are true times in milliseconds; the code sees them modulo 2^32. Tick is one pass of the
      watchdog loop: its clock reading, the stamp of a heartbeat and whether it is sent, the reading
      of the status check, and what a connect would answer. */
  datatype Op =
    | Start(now: nat)
    | Stop
    | Reset(now: nat)
    | SetConfig(cfg: Config)
    | TryRecover(connects: bool)
    | ForceReconnect(connects: bool)
    | Tick(now: nat, stamp: nat, sent: bool, later: nat, connects: bool)

  function Stamp(t: nat): uint32 {
    t % TWO_32
  }

  function Since(t: nat, stamp: uint32): uint32 {
    (t % TWO_32 - stamp) % TWO_32
  }

  lemma SinceIsElapsed(t: nat, beat: nat)
    requires beat <= t < beat + TWO_32
    ensures Since(t, Stamp(beat)) == t - beat
  {
  }

  /** attempt_reconnect. */
  function Attempt(m: Monitor, connects: bool): Monitor {
    if m.count >= m.cfg.maxReconnects then m.(state := Failed)
    else if connects then m.(count := m.count + 1, state := Running)
    else m.(state := Failed)
  }

  /** rtmp_stability_reset. */
  function Cleared(m: Monitor, now: nat): Monitor {
    m.(count := 0, lastHeartbeat := Stamp(now), lastResponse := Stamp(now), pending := false,
       state := if m.state == Recovering then Running else m.state)
  }

  /** enter_recovery_mode. */
  function Recover(m: Monitor, mode: Mode, now: nat, connects: bool): Monitor {
    if m.state != Running then m
    else
      var m' := m.(state := Recovering);
      match mode
      case Reconnect => if m.cfg.autoReconnect then Attempt(m', connects) else m'
      case ResetMode => Cleared(m', now)
      case Fallback => m.(state := Failed)
      case NoMode => m'
  }

  predicate BeatDue(m: Monitor, now: nat) {
    m.cfg.useHeartbeat && !m.pending && Since(now, m.lastHeartbeat) >= m.cfg.heartbeatInterval
  }

  function Beat(m: Monitor, now: nat, stamp: nat, sent: bool): Monitor {
    if BeatDue(m, now) && sent then m.(lastHeartbeat := Stamp(stamp), pending := true) else m
  }

  predicate Overdue(m: Monitor, later: nat) {
    m.pending && Since(later, m.lastHeartbeat) >= m.cfg.watchdogTimeout
  }

  function Watched(m: Monitor, now: nat, stamp: nat, sent: bool, later: nat, connects: bool): Monitor {
    if m.watchdog && m.state == Running then
      var m' := Beat(m, now, stamp, sent);
      if Overdue(m', later) then Recover(m', m.cfg.mode, later, connects) else m'
    else m
  }

  function Apply(m: Monitor, op: Op): Monitor {
    match op
    case Start(now) =>
      if m.state == Stopped then
        m.(state := Running, count := 0, lastHeartbeat := Stamp(now), lastResponse := Stamp(now),
           pending := false, watchdog := m.watchdog || m.cfg.useWatchdog)
      else m
    case Stop => if m.state == Stopped then m else m.(state := Stopped, watchdog := false)
    case Reset(now) => Cleared(m, now)
    case SetConfig(cfg) => m.(cfg := cfg)
    case TryRecover(connects) => if m.state == Failed then Attempt(m, connects) else m
    case ForceReconnect(connects) => Recover(m, Reconnect, 0, connects)
    case Tick(now, stamp, sent, later, connects) => Watched(m, now, stamp, sent, later, connects)
  }

  function Run(m: Monitor, ops: seq<Op>): Monitor
    decreases |ops|
  {
    if ops == [] then m else Run(Apply(m, ops[0]), ops[1..])
  }

  lemma {:induction false} RunConcat(m: Monitor, a: seq<Op>, b: seq<Op>)
    ensures Run(m, a + b) == Run(Run(m, a), b)
    decreases |a|
  {
    if a == [] {
      assert a + b == b;
    } else {
      assert (a + b)[1..] == a[1..] + b;
      RunConcat(Apply(m, a[0]), a[1..], b);
    }
  }

  /** Ticks of a watchdog that does not run change nothing. */
  lemma {:induction false} Unwatched(m: Monitor, ticks: seq<Op>)
    requires !m.watchdog && forall i :: 0 <= i < |ticks| ==> ticks[i].Tick?
    ensures Run(m, ticks) == m
    decreases |ticks|
  {
    if ticks == [] {
    } else {
      Unwatched(m, ticks[1..]);
    }
  }

  // ----------------------------------------------------------- the reconnect allowance

  /** The operation reaches attempt_reconnect. */
  predicate Attempts(m: Monitor, op: Op) {
    match op
    case TryRecover(_) => m.state == Failed
    case ForceReconnect(_) => m.state == Running && m.cfg.autoReconnect
    case Tick(now, stamp, sent, later, _) =>
      && m.watchdog && m.state == Running && Overdue(Beat(m, now, stamp, sent), later)
      && m.cfg.mode == Reconnect && m.cfg.autoReconnect
    case _ => false
  }

  predicate Reconnects(m: Monitor, op: Op) {
    Attempts(m, op) && m.count < m.cfg.maxReconnects && op.connects
  }

  function Successes(m: Monitor, ops: seq<Op>): nat
    decreases |ops|
  {
    if ops == [] then 0
    else (if Reconnects(m, ops[0]) then 1 else 0) + Successes(Apply(m, ops[0]), ops[1..])
  }

  /** The operation gives the whole allowance back. */
  predicate Refills(m: Monitor, op: Op) {
    match op
    case Start(_) => m.state == Stopped
    case Reset(_) => true
    case Tick(now, stamp, sent, later, _) =>
      m.watchdog && m.state == Running && Overdue(Beat(m, now, stamp, sent), later) && m.cfg.mode == ResetMode
    case _ => false
  }

  function RefillCount(m: Monitor, ops: seq<Op>): nat
    decreases |ops|
  {
    if ops == [] then 0
    else (if Refills(m, ops[0]) then 1 else 0) + RefillCount(Apply(m, ops[0]), ops[1..])
  }

  function Left(m: Monitor): nat {
    if m.count < m.cfg.maxReconnects then m.cfg.maxReconnects - m.count else 0
  }

  ghost predicate FixedConfig(ops: seq<Op>) {
    forall i :: 0 <= i < |ops| ==> !ops[i].SetConfig?
  }

  lemma StepAllowance(m: Monitor, op: Op)
    requires !op.SetConfig?
    ensures var m' := Apply(m, op);
            && m'.cfg == m.cfg
            && (if Refills(m, op) then m'.count == 0 && !Reconnects(m, op)
                else m'.count == m.count + if Reconnects(m, op) then 1 else 0)
            && (Reconnects(m, op) ==> m'.state == Running)
            && (Attempts(m, op) && !Reconnects(m, op) ==> m'.state == Failed)
  {
  }

  /** With a fixed configuration the counter is exactly the number of successful reconnects since it
      was last cleared, and a run never makes more of them than the allowance it started with and
      one full allowance for each time it was cleared. */
  lemma {:induction false} ReconnectBound(m: Monitor, ops: seq<Op>)
    requires FixedConfig(ops)
    ensures Successes(m, ops) <= Left(m) + RefillCount(m, ops) * m.cfg.maxReconnects
    ensures RefillCount(m, ops) == 0 ==> Run(m, ops).count == m.count + Successes(m, ops)
    decreases |ops|
  {
    if ops == [] {
    } else {
      var m' := Apply(m, ops[0]);
      StepAllowance(m, ops[0]);
      assert forall i :: 0 <= i < |ops[1..]| ==> ops[1..][i] == ops[i + 1];
      ReconnectBound(m', ops[1..]);
      OneMore(RefillCount(m', ops[1..]), m.cfg.maxReconnects);
    }
  }

  lemma OneMore(n: nat, k: nat)
    ensures (n + 1) * k == n * k + k
  {
  }

  /** A run without start, reset, a change of configuration or a RESET recovery. */
  predicate Quiet(m: Monitor, op: Op) {
    !op.Start? && !op.Reset? && !op.SetConfig? && m.cfg.mode != ResetMode
  }

  ghost predicate QuietRun(m: Monitor, ops: seq<Op>) {
    forall i :: 0 <= i < |ops| ==> Quiet(m, ops[i])
  }

  /** In a quiet run successful reconnects never exceed maxReconnectAttempts, and a heartbeat that is
      waiting for its answer waits for the rest of the run: nothing ever takes the answer in. */
  lemma {:induction false} QuietBound(m: Monitor, ops: seq<Op>)
    requires QuietRun(m, ops)
    ensures var m' := Run(m, ops);
            && m'.cfg == m.cfg
            && Successes(m, ops) == m'.count - m.count <= Left(m) <= m.cfg.maxReconnects
            && Left(m') == Left(m) - Successes(m, ops)
            && (m.pending ==> m'.pending && m'.lastHeartbeat == m.lastHeartbeat)
            && (m.state == Stopped ==> m'.state == Stopped)
            && (m'.state != Stopped ==> m'.watchdog == m.watchdog)
    decreases |ops|
  {
    if ops == [] {
    } else {
      StepAllowance(m, ops[0]);
      assert forall i :: 0 <= i < |ops[1..]| ==> ops[1..][i] == ops[i + 1];
      QuietBound(Apply(m, ops[0]), ops[1..]);
    }
  }

  // -------------------------------------------------------- an unanswered heartbeat

  /** The tick comes when the heartbeat sent at beat is overdue and before the clock has wrapped
      around to it; forced reconnects may come at any time. */
  predicate Late(m: Monitor, beat: nat, op: Op) {
    match op
    case Tick(now, stamp, sent, later, connects) => beat + m.cfg.watchdogTimeout <= later < beat + TWO_32
    case ForceReconnect(_) => true
    case _ => false
  }

  ghost predicate LateRun(m: Monitor, beat: nat, ops: seq<Op>) {
    forall i :: 0 <= i < |ops| ==> Late(m, beat, ops[i])
  }

  ghost predicate Armed(m: Monitor, beat: nat) {
    m.pending && m.lastHeartbeat == Stamp(beat) && m.watchdog && m.cfg.mode == Reconnect && m.cfg.autoReconnect
  }

  ghost predicate AllConnect(ops: seq<Op>) {
    forall i :: 0 <= i < |ops| ==> (ops[i].Tick? || ops[i].ForceReconnect?) && ops[i].connects
  }

  /** Every late tick spends one reconnect, connected or not: the monitor is still running exactly
      when all of them connected and there were no more of them than reconnects left; otherwise it
      has failed. */
  lemma {:induction false} LateTicksIff(m: Monitor, beat: nat, ops: seq<Op>)
    requires Armed(m, beat) && m.state == Running && LateRun(m, beat, ops)
    ensures var m' := Run(m, ops);
            && (m'.state == Running <==> AllConnect(ops) && |ops| <= Left(m))
            && (m'.state == Failed <==> m'.state != Running)
    decreases |ops|
  {
    if ops == [] {
    } else {
      var op := ops[0];
      var m1 := Apply(m, op);
      assert Late(m, beat, op);
      if op.Tick? {
        SinceIsElapsed(op.later, beat);
      }
      assert forall i :: 0 <= i < |ops[1..]| ==> ops[1..][i] == ops[i + 1];
      if m1.state == Running {
        LateTicksIff(m1, beat, ops[1..]);
        assert AllConnect(ops) <==> op.connects && AllConnect(ops[1..]);
      } else {
        FailedStays(m1, ops[1..], m, beat);
        assert Left(m) == 0 || !op.connects;
      }
    }
  }

  lemma {:induction false} FailedStays(m: Monitor, ops: seq<Op>, m0: Monitor, beat: nat)
    requires m.state == Failed && LateRun(m0, beat, ops)
    ensures Run(m, ops).state == Failed
    decreases |ops|
  {
    if ops == [] {
    } else {
      assert Late(m0, beat, ops[0]);
      assert forall i :: 0 <= i < |ops[1..]| ==> ops[1..][i] == ops[i + 1];
      FailedStays(Apply(m, ops[0]), ops[1..], m0, beat);
    }
  }

  /** Once a heartbeat has gone out, and whatever quiet operations follow it, one more late tick
      than there were reconnects left puts the monitor into FAILED: reconnecting does not clear the
      heartbeat it is reacting to. */
  lemma HeartbeatIsFatal(m: Monitor, beat: nat, before: seq<Op>, late: seq<Op>)
    requires Armed(m, beat) && QuietRun(m, before) && LateRun(m, beat, late)
    requires Run(m, before).state == Running && |late| > Left(m)
    ensures Run(m, before + late).state == Failed
  {
    var m1 := Run(m, before);
    QuietBound(m, before);
    RunConcat(m, before, late);
    forall i | 0 <= i < |late|
      ensures Late(m1, beat, late[i])
    {
      assert Late(m, beat, late[i]);
    }
    LateTicksIff(m1, beat, late);
  }

  // ------------------------------------------------------ what a tick does, in true times

  /** What recovery makes of a running monitor at that time. */
  ghost predicate Recovers(m: Monitor, later: nat, connects: bool, r: Monitor) {
    match m.cfg.mode
    case Reconnect =>
      if !m.cfg.autoReconnect then r == m.(state := Recovering)
      else if connects && m.count < m.cfg.maxReconnects then r == m.(count := m.count + 1)
      else r == m.(state := Failed)
    case ResetMode =>
      r == m.(count := 0, lastHeartbeat := later % 0x1_0000_0000, lastResponse := later % 0x1_0000_0000,
              pending := false)
    case Fallback => r == m.(state := Failed)
    case NoMode => r == m.(state := Recovering)
  }

  /** With the last heartbeat, or the start, at b: a heartbeat goes out exactly when none is waiting for
      its answer, an interval has passed and the send succeeds; the monitor recovers exactly when one is
      waiting, this one or an earlier one, and the timeout has passed since it went out. */
  lemma TickMeaning(m: Monitor, b: nat, op: Op)
    requires op.Tick? && m.lastHeartbeat == b % 0x1_0000_0000 && b <= op.now < b + 0x1_0000_0000
    ensures var beats := !m.pending && m.cfg.useHeartbeat && op.sent && op.now - b >= m.cfg.heartbeatInterval;
            var out := if beats then op.stamp else b;
            var m1 := if beats then m.(pending := true, lastHeartbeat := op.stamp % 0x1_0000_0000) else m;
            var r := Apply(m, op);
            if !(m.watchdog && m.state == Running) then r == m
            else if !m1.pending then r == m1
            else out <= op.later < out + 0x1_0000_0000 ==>
              if op.later - out >= m.cfg.watchdogTimeout then Recovers(m1, op.later, op.connects, r) else r == m1
  {
    SinceIsElapsed(op.now, b);
    var beats := !m.pending && m.cfg.useHeartbeat && op.sent && op.now - b >= m.cfg.heartbeatInterval;
    var out := if beats then op.stamp else b;
    if out <= op.later < out + TWO_32 {
      SinceIsElapsed(op.later, out);
    }
  }

  /** The two calls that reconnect: each counts a success, fails at the limit, and answers only to a
      running or to a failed monitor. */
  lemma RecoveryCalls(m: Monitor, connects: bool)
    ensures var won := connects && m.count < m.cfg.maxReconnects;
            && Apply(m, ForceReconnect(connects)) ==
                 (if m.state != Running then m
                  else if !m.cfg.autoReconnect then m.(state := Recovering)
                  else if won then m.(count := m.count + 1) else m.(state := Failed))
            && Apply(m, TryRecover(connects)) ==
                 (if m.state == Failed && won then m.(state := Running, count := m.count + 1) else m)
  {
  }

  /** A tick that sends no heartbeat to a monitor started at t0: too early, or the send fails. */
  predicate Silent(m: Monitor, t0: nat, op: Op) {
    op.Tick? && (op.now < t0 + m.cfg.heartbeatInterval || !op.sent)
  }

  ghost predicate TicksAfter(t0: nat, ops: seq<Op>) {
    forall i :: 0 <= i < |ops| ==> ops[i].Tick? && t0 <= ops[i].now < t0 + 0x1_0000_0000
  }

  /** Running under its watchdog with heartbeats, none sent since t0. */
  ghost predicate Waiting(m: Monitor, t0: nat) {
    && m.state == Running && m.watchdog && m.cfg.useHeartbeat && !m.pending
    && m.lastHeartbeat == t0 % 0x1_0000_0000
  }

  /** None is out before an interval has passed, and nothing else happens either. */
  lemma {:induction false} SilentRun(m: Monitor, t0: nat, ops: seq<Op>)
    requires Waiting(m, t0) && TicksAfter(t0, ops) && forall i :: 0 <= i < |ops| ==> Silent(m, t0, ops[i])
    ensures Run(m, ops) == m
    decreases |ops|
  {
    if ops == [] {
    } else {
      assert Silent(m, t0, ops[0]);
      TickMeaning(m, t0, ops[0]);
      assert forall i :: 0 <= i < |ops[1..]| ==> ops[1..][i] == ops[i + 1];
      SilentRun(m, t0, ops[1..]);
    }
  }

  /** The first tick that is not silent sets one out with its own stamp. */
  lemma FirstBeat(m: Monitor, t0: nat, beat: Op)
    requires Waiting(m, t0) && beat.Tick? && TicksAfter(t0, [beat]) && !Silent(m, t0, beat)
    requires m.cfg.mode != ResetMode
    ensures Apply(m, beat).pending && Apply(m, beat).lastHeartbeat == beat.stamp % 0x1_0000_0000
    ensures Apply(m, beat).cfg == m.cfg
    ensures beat.stamp <= beat.later < beat.stamp + m.cfg.watchdogTimeout ==>
              Apply(m, beat) == m.(pending := true, lastHeartbeat := beat.stamp % 0x1_0000_0000)
  {
    assert [beat][0] == beat;
    SinceIsElapsed(beat.now, t0);
    TickMeaning(m, t0, beat);
  }

  /** After any ticks on a started monitor a heartbeat is out exactly when one of them came at least an
      interval after the start and its send succeeded. */
  lemma {:induction false} HeartbeatOutIff(m: Monitor, t0: nat, ops: seq<Op>)
    requires Waiting(m, t0) && TicksAfter(t0, ops) && m.cfg.mode != ResetMode
    ensures Run(m, ops).pending <==>
            exists i :: 0 <= i < |ops| && ops[i].now >= t0 + m.cfg.heartbeatInterval && ops[i].sent
    decreases |ops|
  {
    if ops == [] {
    } else {
      var op, more := ops[0], ops[1..];
      assert forall i :: 0 <= i < |more| ==> more[i] == ops[i + 1];
      if Silent(m, t0, op) {
        TickMeaning(m, t0, op);
        HeartbeatOutIff(m, t0, more);
        assert forall i :: 0 < i < |ops| ==> ops[i] == more[i - 1];
      } else {
        FirstBeat(m, t0, op);
        QuietBound(Apply(m, op), more);
      }
    }
  }

  /** A start leaves a stopped monitor waiting. */
  lemma StartWaits(m: Monitor, t0: nat)
    requires m.state == Stopped && m.cfg.useWatchdog && m.cfg.useHeartbeat
    ensures var r := Apply(m, Start(t0));
            Waiting(r, t0) && r.cfg == m.cfg && r.count == 0
  {
  }

  /** From the start: silent ticks, a first heartbeat, any quiet operations, and then one late tick more
      than reconnects are allowed: the monitor has failed. */
  lemma SilenceIsFatal(m: Monitor, t0: nat, silent: seq<Op>, beat: Op, between: seq<Op>, late: seq<Op>)
    requires m.state == Stopped && m.cfg.useWatchdog && m.cfg.useHeartbeat
    requires m.cfg.mode == Reconnect && m.cfg.autoReconnect
    requires TicksAfter(t0, silent) && forall i :: 0 <= i < |silent| ==> Silent(m, t0, silent[i])
    requires beat.Tick? && TicksAfter(t0, [beat]) && !Silent(m, t0, beat)
    requires beat.stamp <= beat.later < beat.stamp + m.cfg.watchdogTimeout
    requires QuietRun(m, between) && LateRun(m, beat.stamp, late) && |late| > m.cfg.maxReconnects
    requires Run(m, [Start(t0)] + silent + [beat] + between).state == Running
    ensures Run(m, [Start(t0)] + silent + [beat] + between + late).state == Failed
  {
    var m1 := Apply(m, Start(t0));
    var m2 := Apply(m1, beat);
    StartWaits(m, t0);
    assert forall i :: 0 <= i < |silent| ==> Silent(m, t0, silent[i]) ==> Silent(m1, t0, silent[i]);
    SilentRun(m1, t0, silent);
    FirstBeat(m1, t0, beat);
    assert [Start(t0)][1..] == [] && [beat][1..] == [];
    RunConcat(m, [Start(t0)], silent);
    RunConcat(m, [Start(t0)] + silent, [beat]);
    RunConcat(m, [Start(t0)] + silent + [beat], between);
    RunConcat(m, [Start(t0)] + silent + [beat] + between, late);
    assert Run(m, [Start(t0)] + silent + [beat]) == m2;
    SameConfigLate(m, m2, beat.stamp, between, late);
    HeartbeatIsFatal(m2, beat.stamp, between, late);
    RunConcat(m2, between, late);
  }

  lemma SameConfigLate(m: Monitor, m': Monitor, beat: nat, quiet: seq<Op>, late: seq<Op>)
    requires m'.cfg == m.cfg && QuietRun(m, quiet) && LateRun(m, beat, late)
    ensures QuietRun(m', quiet) && LateRun(m', beat, late)
  {
    assert forall i :: 0 <= i < |quiet| ==> Quiet(m, quiet[i]) ==> Quiet(m', quiet[i]);
    assert forall i :: 0 <= i < |late| ==> Late(m, beat, late[i]) ==> Late(m', beat, late[i]);
  }

  // ------------------------------------------------------------------ ways out of a state

  predicate AlwaysRecovering(m: Monitor, ops: seq<Op>)
    decreases |ops|
  {
    m.state == Recovering && (ops == [] || AlwaysRecovering(Apply(m, ops[0]), ops[1..]))
  }

  /** RECOVERING, which a monitor without automatic reconnect enters, holds over every run without
      stop and reset, and only those end it. */
  lemma {:induction false} RecoveringHoldsIff(m: Monitor, ops: seq<Op>)
    requires m.state == Recovering
    ensures AlwaysRecovering(m, ops) <==> forall i :: 0 <= i < |ops| ==> !ops[i].Stop? && !ops[i].Reset?
    decreases |ops|
  {
    if ops == [] {
    } else {
      var m', more := Apply(m, ops[0]), ops[1..];
      assert forall i :: 0 <= i < |more| ==> more[i] == ops[i + 1];
      if m'.state == Recovering {
        RecoveringHoldsIff(m', more);
        assert forall i :: 0 < i < |ops| ==> ops[i] == more[i - 1];
      }
    }
  }

  predicate AlwaysFailed(m: Monitor, ops: seq<Op>)
    decreases |ops|
  {
    m.state == Failed && (ops == [] || AlwaysFailed(Apply(m, ops[0]), ops[1..]))
  }

  /** Operation i takes a failed monitor out of FAILED: a stop, or a recovery attempt that connects
      with reconnects left, counting that a reset gives all of them back. */
  predicate Releases(m: Monitor, ops: seq<Op>, i: nat)
    requires i < |ops|
  {
    || ops[i].Stop?
    || (&& ops[i] == TryRecover(true)
        && (Left(m) > 0 || (m.cfg.maxReconnects > 0 && exists j :: 0 <= j < i && ops[j].Reset?)))
  }

  /** FAILED holds over a run exactly when nothing in it releases: unlike RECOVERING, a reset alone
      does not end it, and neither do start, ticks or a forced reconnect. */
  lemma {:induction false} FailedHoldsIff(m: Monitor, ops: seq<Op>)
    requires m.state == Failed && FixedConfig(ops)
    ensures AlwaysFailed(m, ops) <==> forall i :: 0 <= i < |ops| ==> !Releases(m, ops, i)
    decreases |ops|
  {
    if ops == [] {
    } else {
      var m', more := Apply(m, ops[0]), ops[1..];
      assert forall i :: 0 <= i < |more| ==> more[i] == ops[i + 1];
      assert m'.state == Failed <==> !Releases(m, ops, 0);
      if m'.state == Failed {
        FailedHoldsIff(m', more);
        forall i | 0 <= i < |more|
          ensures Releases(m', more, i) <==> Releases(m, ops, i + 1)
        {
          ReleasesLater(m, ops, i);
        }
        assert forall i :: 0 < i < |ops| ==> (Releases(m, ops, i) <==> Releases(m', more, i - 1));
      }
    }
  }

  lemma ReleasesLater(m: Monitor, ops: seq<Op>, i: nat)
    requires m.state == Failed && FixedConfig(ops) && i + 1 < |ops|
    requires Apply(m, ops[0]).state == Failed
    ensures Releases(Apply(m, ops[0]), ops[1..], i) <==> Releases(m, ops, i + 1)
  {
    var more := ops[1..];
    assert forall j :: 0 <= j < i ==> more[j] == ops[j + 1];
    assert forall j :: 0 < j < i + 1 ==> ops[j] == more[j - 1];
  }

  /** A late tick enters RECOVERING and stays there exactly in mode NONE, or in mode RECONNECT
      without automatic reconnect. */
  lemma LateTickRecoversIff(m: Monitor, beat: nat, op: Op)
    requires m.state == Running && m.watchdog && m.pending && m.lastHeartbeat == Stamp(beat)
    requires op.Tick? && Late(m, beat, op)
    ensures Apply(m, op).state == Recovering <==>
            m.cfg.mode == NoMode || (m.cfg.mode == Reconnect && !m.cfg.autoReconnect)
  {
    SinceIsElapsed(op.later, beat);
  }
}
