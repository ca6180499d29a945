/** The stability monitor as an object: the watchdog loop of rtmp_stability.c and the calls it makes,
    each one critical section that changes the fields in place. */
module StabilityMonitor {
  import opened Bytes
  import S = Stability

  class Monitor {
    var cfg: S.Config
    var state: S.State
    var reconnectCount: uint32
    var lastHeartbeat: uint32
    var lastResponse: uint32
    var heartbeatPending: bool
    var watchdogRunning: bool

    ghost function View(): S.Monitor
      reads this
    {
      S.Monitor(cfg, state, reconnectCount, lastHeartbeat, lastResponse, heartbeatPending, watchdogRunning)
    }

    /** rtmp_stability_create. */
    constructor ()
      ensures View() == S.Monitor(S.Config(3, 30000, 10000, S.Reconnect, true, true, true),
                                  S.Stopped, 0, 0, 0, false, false)
    {
      cfg := S.Config(3, 30000, 10000, S.Reconnect, true, true, true);
      state, reconnectCount, lastHeartbeat, lastResponse := S.Stopped, 0, 0, 0;
      heartbeatPending, watchdogRunning := false, false;
    }

    method SetConfig(cfg: S.Config)
      modifies this`cfg
      ensures View() == S.Apply(old(View()), S.SetConfig(cfg))
    {
      this.cfg := cfg;
    }

    method Start(now: nat)
      modifies this
      ensures View() == S.Apply(old(View()), S.Start(now))
      ensures View() == if old(state) != S.Stopped then old(View()) else
                old(View()).(state := S.Running, count := 0, lastHeartbeat := now % 0x1_0000_0000,
                             lastResponse := now % 0x1_0000_0000, pending := false,
                             watchdog := old(watchdogRunning) || cfg.useWatchdog)
    {
      if state != S.Stopped {
        return;
      }
      reconnectCount := 0;
      lastHeartbeat := now % TWO_32;
      lastResponse := lastHeartbeat;
      heartbeatPending := false;
      if cfg.useWatchdog {
        watchdogRunning := true;
      }
      state := S.Running;
    }

    method Stop()
      modifies this
      ensures View() == S.Apply(old(View()), S.Stop)
      ensures View() == if old(state) == S.Stopped then old(View())
                        else old(View()).(state := S.Stopped, watchdog := false)
    {
      if state == S.Stopped {
        return;
      }
      if watchdogRunning {
        watchdogRunning := false;
      }
      state := S.Stopped;
    }

    method Reset(now: nat)
      modifies this
      ensures View() == S.Apply(old(View()), S.Reset(now))
      ensures View() == S.Cleared(old(View()), now) ==
                old(View()).(count := 0, lastHeartbeat := now % 0x1_0000_0000,
                             lastResponse := now % 0x1_0000_0000, pending := false,
                             state := if old(state) == S.Recovering then S.Running else old(state))
    {
      reconnectCount := 0;
      lastHeartbeat := now % TWO_32;
      lastResponse := lastHeartbeat;
      heartbeatPending := false;
      if state == S.Recovering {
        state := S.Running;
      }
    }

    method AttemptReconnect(connects: bool) returns (ok: bool)
      modifies this
      ensures View() == S.Attempt(old(View()), connects) && ok == (state == S.Running)
    {
      if reconnectCount >= cfg.maxReconnects {
        state := S.Failed;
        return false;
      }
      if connects {
        reconnectCount := reconnectCount + 1;
        state := S.Running;
        return true;
      }
      state := S.Failed;
      return false;
    }

    method TryRecover(connects: bool) returns (ok: bool)
      modifies this
      ensures View() == S.Apply(old(View()), S.TryRecover(connects))
      ensures ok <==> S.Reconnects(old(View()), S.TryRecover(connects))
    {
      if state != S.Failed {
        return false;
      }
      ok := AttemptReconnect(connects);
    }

    method EnterRecovery(mode: S.Mode, now: nat, connects: bool)
      modifies this
      ensures View() == S.Recover(old(View()), mode, now, connects)
    {
      if state != S.Running {
        return;
      }
      state := S.Recovering;
      match mode
      case Reconnect =>
        if cfg.autoReconnect {
          var ok := AttemptReconnect(connects);
        }
      case ResetMode => Reset(now);
      case Fallback => state := S.Failed;
      case NoMode =>
    }

    method ForceReconnect(connects: bool)
      modifies this
      ensures View() == S.Apply(old(View()), S.ForceReconnect(connects))
    {
      EnterRecovery(S.Reconnect, 0, connects);
    }

    method SendHeartbeat(stamp: nat, sent: bool)
      modifies this`lastHeartbeat, this`heartbeatPending
      ensures View() == if sent then old(View()).(lastHeartbeat := S.Stamp(stamp), pending := true) else old(View())
    {
      if sent {
        lastHeartbeat := stamp % TWO_32;
        heartbeatPending := true;
      }
    }

    method CheckConnection(later: nat, connects: bool)
      modifies this
      ensures View() == if S.Overdue(old(View()), later) then S.Recover(old(View()), old(cfg.mode), later, connects)
                        else old(View())
    {
      if heartbeatPending && (later % TWO_32 - lastHeartbeat) % TWO_32 >= cfg.watchdogTimeout {
        EnterRecovery(cfg.mode, later, connects);
      }
    }

    /** One pass of the watchdog loop. */
    method WatchdogPass(now: nat, stamp: nat, sent: bool, later: nat, connects: bool)
      modifies this
      ensures View() == S.Apply(old(View()), S.Tick(now, stamp, sent, later, connects))
    {
      if watchdogRunning && state == S.Running {
        if cfg.useHeartbeat && !heartbeatPending && (now % TWO_32 - lastHeartbeat) % TWO_32 >= cfg.heartbeatInterval {
          SendHeartbeat(stamp, sent);
        }
        CheckConnection(later, connects);
      }
    }

    /** watchdog_thread: a pass for every second, for as long as the watchdog is to run. However many
        ticks come after an unanswered heartbeat is overdue, the monitor is left running exactly when
        every one of them reconnected and there were no more of them than reconnects left. */
    method Watchdog(ticks: seq<S.Op>)
      requires forall i :: 0 <= i < |ticks| ==> ticks[i].Tick?
      modifies this
      ensures View() == S.Run(old(View()), ticks)
      ensures forall beat: nat ::
                S.Armed(old(View()), beat) && old(state) == S.Running && S.LateRun(old(View()), beat, ticks) ==>
                  && (state == S.Running <==> S.AllConnect(ticks) && |ticks| <= S.Left(old(View())))
                  && (state == S.Failed <==> state != S.Running)
    {
      var i := 0;
      while i < |ticks| && watchdogRunning
        invariant i <= |ticks| && S.Run(View(), ticks[i..]) == S.Run(old(View()), ticks)
      {
        var tick := ticks[i];
        assert ticks[i..][0] == tick && ticks[i..][1..] == ticks[i + 1..];
        WatchdogPass(tick.now, tick.stamp, tick.sent, tick.later, tick.connects);
        i := i + 1;
      }
      if !watchdogRunning {
        S.Unwatched(View(), ticks[i..]);
      }
      forall beat: nat | S.Armed(old(View()), beat) && old(state) == S.Running && S.LateRun(old(View()), beat, ticks)
        ensures state == S.Running <==> S.AllConnect(ticks) && |ticks| <= S.Left(old(View()))
        ensures state == S.Failed <==> state != S.Running
      {
        S.LateTicksIff(old(View()), beat, ticks);
      }
    }

    /** Any calls and watchdog passes, one after the other: the monitor goes through the run of the
        machine, so whatever quiet operations come first, one more late tick than there were reconnects
        left when the heartbeat went out ends in FAILED. */
    method Serve(ops: seq<S.Op>)
      modifies this
      ensures View() == S.Run(old(View()), ops)
      ensures forall beat: nat, k: nat ::
                && k <= |ops| && S.Armed(old(View()), beat) && S.QuietRun(old(View()), ops[..k])
                && S.LateRun(old(View()), beat, ops[k..]) && S.Run(old(View()), ops[..k]).state == S.Running
                && |ops| - k > S.Left(old(View()))
                ==> state == S.Failed
    {
      for i := 0 to |ops|
        invariant S.Run(View(), ops[i..]) == S.Run(old(View()), ops)
      {
        assert ops[i..][0] == ops[i] && ops[i..][1..] == ops[i + 1..];
        Perform(ops[i]);
      }
      forall beat: nat, k: nat |
        && k <= |ops| && S.Armed(old(View()), beat) && S.QuietRun(old(View()), ops[..k])
        && S.LateRun(old(View()), beat, ops[k..]) && S.Run(old(View()), ops[..k]).state == S.Running
        && |ops| - k > S.Left(old(View()))
        ensures state == S.Failed
      {
        assert ops[..k] + ops[k..] == ops;
        S.HeartbeatIsFatal(old(View()), beat, ops[..k], ops[k..]);
      }
    }

    method Perform(op: S.Op)
      modifies this
      ensures View() == S.Apply(old(View()), op)
    {
      match op
      case Start(now) => Start(now);
      case Stop => Stop();
      case Reset(now) => Reset(now);
      case SetConfig(c) => SetConfig(c);
      case TryRecover(connects) => var ok := TryRecover(connects);
      case ForceReconnect(connects) => ForceReconnect(connects);
      case Tick(now, stamp, sent, later, connects) => WatchdogPass(now, stamp, sent, later, connects);
    }
  }
}
