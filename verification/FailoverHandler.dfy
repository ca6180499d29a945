/** The failover handler of rtmp_failover.c as an object: each call, one critical section, changes its
    fields in place as the functions of Failover say. */
module FailoverHandler {
  import opened Bytes
  import F = Failover

  /** The connection, the clock and the connect calls made through them. */
  class Link {
    const w: F.World
    var at: nat
    var clock: nat
    var calls: nat

    constructor (w: F.World, clock: nat)
      ensures this.w == w && View() == F.Outside(0, clock, 0)
    {
      this.w, this.at, this.clock, this.calls := w, 0, clock, 0;
    }

    function View(): F.Outside
      reads this
    {
      F.Outside(at, clock, calls)
    }

    method Sleep(ms: nat)
      modifies this
      ensures View() == F.Sleep(w, old(View()), ms)
    {
      clock := clock + ms + w.late(at);
      at := at + 1;
    }

    method Connect(server: string) returns (ok: bool)
      modifies this
      ensures (ok, View()) == F.Connect(w, server, old(View()))
    {
      ok := w.answers(at, server);
      clock := clock + w.late(at);
      at := at + 1;
      calls := calls + 1;
    }

    method Now() returns (t: uint32)
      ensures t == F.Stamp(View())
    {
      t := clock % TWO_32;
    }
  }

  class Handler {
    const link: Link
    const cfg: F.Config
    var state: F.State
    var kind: F.Kind
    var attempts: uint32
    var lastSwitch: uint32
    var healthTime: uint32
    var healthy: bool
    var server: string
    var network: string

    ghost function Status(): F.Status
      reads this
    {
      F.Status(state, kind, attempts, lastSwitch, healthTime, healthy, server, network)
    }

    ghost function View(): F.Sys
      reads this, link
    {
      F.Sys(Status(), link.View())
    }

    ghost function Setting(): F.Setting {
      F.Setting(link.w, cfg)
    }

    ghost predicate Sane() {
      F.Sane(Setting())
    }

    /** rtmp_failover_create. */
    constructor (link: Link, cfg: F.Config)
      ensures this.link == link && this.cfg == cfg
      ensures Status() == F.Status(F.Inactive, F.NoKind, 0, 0, 0, true, "", "")
    {
      this.link, this.cfg := link, cfg;
      state, kind, attempts := F.Inactive, F.NoKind, 0;
      lastSwitch, healthTime, healthy, server, network := 0, 0, true, "", "";
    }

    method Start()
      requires Sane()
      modifies this
      ensures View() == F.Apply(Setting(), old(View()), F.Start)
      ensures Status() == if old(state) != F.Inactive then old(Status()) else
                old(Status()).(state := F.Active, attempts := 0, lastSwitch := link.clock % 0x1_0000_0000,
                               healthTime := link.clock % 0x1_0000_0000)
    {
      if state == F.Inactive {
        state := F.Active;
        attempts := 0;
        lastSwitch := link.Now();
        healthTime := lastSwitch;
      }
    }

    method Stop()
      requires Sane()
      modifies this
      ensures View() == F.Apply(Setting(), old(View()), F.Stop)
      ensures Status() == if old(state) == F.Inactive then old(Status())
                          else old(Status()).(state := F.Inactive, kind := F.NoKind)
    {
      if state != F.Inactive {
        state := F.Inactive;
        kind := F.NoKind;
      }
    }

    method Reset()
      requires Sane()
      modifies this
      ensures View() == F.Apply(Setting(), old(View()), F.Reset)
      ensures Status() == old(Status()).(attempts := 0, lastSwitch := link.clock % 0x1_0000_0000,
                                         healthTime := link.clock % 0x1_0000_0000, healthy := true,
                                         state := if old(state) == F.Failed then F.Active else old(state))
    {
      attempts := 0;
      lastSwitch := link.Now();
      healthTime := lastSwitch;
      healthy := true;
      if state == F.Failed {
        state := F.Active;
      }
    }

    /** reconnect_to_server. */
    method Reconnect(name: string) returns (connected: bool)
      requires Sane()
      modifies link
      ensures (connected, link.View()) == F.Reconnect(link.w, cfg.switchTimeout, name, old(link.View()))
    {
      link.Sleep(F.SETTLE);
      if !link.w.parses(name) {
        return false;
      }
      connected := RetryLoop(name);
    }

    /** Its connect loop, with the elapsed time taken from 32-bit stamps. */
    method RetryLoop(name: string) returns (connected: bool)
      requires Sane()
      modifies link
      ensures (connected, link.View()) == F.Retry(link.w, cfg.switchTimeout, name, old(link.View()), old(link.clock))
    {
      ghost var start := link.clock;
      var startTime := link.Now();
      connected := false;
      while true
        invariant start <= link.clock < start + TWO_32
        invariant startTime == start % TWO_32
        invariant F.Retry(link.w, cfg.switchTimeout, name, link.View(), start)
               == F.Retry(link.w, cfg.switchTimeout, name, old(link.View()), start)
        decreases cfg.switchTimeout - (link.clock - start)
      {
        F.SinceIsElapsed(link.clock, start);
        var now := link.Now();
        if (now - startTime) % TWO_32 >= cfg.switchTimeout {
          return;
        }
        connected := link.Connect(name);
        if connected {
          return;
        }
        link.Sleep(F.ATTEMPT_GAP);
      }
    }

    /** switch_server. */
    method SwitchServer() returns (ok: bool)
      requires Sane()
      modifies this`server, link
      ensures (ok, View()) == F.SwitchServer(Setting(), old(View()), 0)
    {
      for i := 0 to |cfg.backups|
        invariant F.SwitchServer(Setting(), View(), i) == F.SwitchServer(Setting(), old(View()), 0)
      {
        var connected := Reconnect(cfg.backups[i]);
        if connected {
          server := cfg.backups[i];
          return true;
        }
      }
      return false;
    }

    /** switch_network. */
    method SwitchNetwork() returns (ok: bool)
      requires Sane()
      modifies this`network, link
      ensures (ok, View()) == F.SwitchNetwork(Setting(), old(View()), 0)
    {
      for i := 0 to |F.INTERFACES|
        invariant F.SwitchNetwork(Setting(), View(), i) == F.SwitchNetwork(Setting(), old(View()), 0)
      {
        if F.INTERFACES[i] != network && F.Available(F.INTERFACES[i]) {
          var connected := Reconnect(server);
          if connected {
            network := F.INTERFACES[i];
            return true;
          }
        }
      }
      return false;
    }

    /** rtmp_failover_trigger. */
    method Trigger(asked: F.Kind) returns (success: bool)
      requires Sane()
      modifies this, link
      ensures (success, View()) == F.Trigger(Setting(), old(View()), asked)
    {
      success := false;
      if state == F.Active && attempts < cfg.maxSwitchAttempts {
        state := F.Switching;
        kind := asked;
        attempts := attempts + 1;
        success := Dispatch(asked);
        if success {
          state := F.Active;
          lastSwitch := link.Now();
        } else {
          state := F.Failed;
        }
      }
    }

    method Dispatch(asked: F.Kind) returns (success: bool)
      requires Sane()
      modifies this`server, this`network, link
      ensures (success, View()) == F.Attempt(Setting(), old(View()), asked)
    {
      success := false;
      match asked
      case Server =>
        if cfg.enableServer {
          success := SwitchServer();
        }
      case Network =>
        if cfg.enableNetwork {
          success := SwitchNetwork();
        }
      case Local =>
        if cfg.enableLocal {
          success := cfg.recordingPath != "";
        }
      case NoKind =>
    }

    /** perform_health_check. */
    method HealthCheck(connected: bool, ping: bool)
      requires Sane()
      modifies this, link
      ensures View() == F.HealthCheck(Setting(), old(View()), connected, ping)
    {
      var ok := true;
      if !connected {
        ok := false;
      }
      if !F.Available(network) {
        ok := false;
      }
      if !ping {
        ok := false;
      }
      healthy := ok;
      if !ok {
        var done := false;
        if cfg.enableServer {
          done := Trigger(F.Server);
        } else if cfg.enableNetwork {
          done := Trigger(F.Network);
        } else if cfg.enableLocal {
          done := Trigger(F.Local);
        }
      }
    }

    /** One pass of health_check_thread. */
    method HealthTick(connected: bool, ping: bool)
      requires Sane()
      modifies this, link
      ensures View() == F.Apply(Setting(), old(View()), F.HealthTick(connected, ping))
    {
      if state == F.Active {
        var now := link.Now();
        if (now - healthTime) % TWO_32 >= cfg.healthInterval {
          HealthCheck(connected, ping);
          healthTime := now;
        }
      }
    }
  }
}
