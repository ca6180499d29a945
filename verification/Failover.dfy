/** The failover state machine of rtmp_failover.c as functions: every operation on the status and on
    the surroundings, the connect budget of one switch, and what a whole run can spend. */
module Failover {
  import opened Bytes

  const ATTEMPT_GAP := 500
  const SETTLE := 1000

  // ------------------------------------------------------------------ surroundings

  /** What the surroundings will do: whether a connect to that server answers when it is the n-th thing
      that takes time, how much longer than asked the n-th takes, in milliseconds, and which server names
      parse as URLs. */
  datatype World = World(answers: (nat, string) -> bool, late: nat -> nat, parses: string -> bool)

  /** How many things have taken time, the true time, and the connect calls made so far. */
  datatype Outside = Outside(at: nat, clock: nat, calls: nat)

  function Sleep(w: World, o: Outside, ms: nat): Outside {
    o.(at := o.at + 1, clock := o.clock + ms + w.late(o.at))
  }

  function Connect(w: World, server: string, o: Outside): (bool, Outside) {
    (w.answers(o.at, server), Outside(o.at + 1, o.clock + w.late(o.at), o.calls + 1))
  }

  /** rtmp_get_timestamp. */
  function Stamp(o: Outside): uint32 {
    o.clock % TWO_32
  }

  /** Elapsed time as the source computes it, by subtracting 32-bit stamps. */
  function Since(clock: nat, start: nat): uint32 {
    (clock % TWO_32 - start % TWO_32) % TWO_32
  }

  lemma SinceIsElapsed(clock: nat, start: nat)
    requires start <= clock < start + TWO_32
    ensures Since(clock, start) == clock - start
  {
  }

  /** A connect and the sleep after it never carry the elapsed time past 2^32. */
  ghost predicate NoWrap(w: World, timeout: uint32) {
    forall i: nat :: timeout + w.late(i) + ATTEMPT_GAP + w.late(i + 1) <= TWO_32
  }

  // --------------------------------------------------------------------- reconnect

  /** The retry loop: connect until it answers or the time since start is up. */
  function Retry(w: World, timeout: uint32, server: string, o: Outside, start: nat): (r: (bool, Outside))
    requires NoWrap(w, timeout) && start <= o.clock < start + TWO_32
    ensures r.1.clock >= o.clock && r.1.calls >= o.calls
    decreases timeout - (o.clock - start)
  {
    SinceIsElapsed(o.clock, start);
    if Since(o.clock, start) < timeout then
      var (ok, o') := Connect(w, server, o);
      if ok then (true, o') else Retry(w, timeout, server, Sleep(w, o', ATTEMPT_GAP), start)
    else (false, o)
  }

  /** reconnect_to_server. */
  function Reconnect(w: World, timeout: uint32, server: string, o: Outside): (bool, Outside)
    requires NoWrap(w, timeout)
  {
    var o' := Sleep(w, o, SETTLE);
    if w.parses(server) then Retry(w, timeout, server, o', o'.clock) else (false, o')
  }

  function Budget(timeout: uint32): nat {
    CeilDiv(timeout, ATTEMPT_GAP)
  }

  lemma {:induction false} RetryBudget(w: World, timeout: uint32, server: string, o: Outside, start: nat)
    requires NoWrap(w, timeout) && start <= o.clock < start + TWO_32
    ensures var r := Retry(w, timeout, server, o, start);
            r.1.calls - o.calls <= if o.clock - start < timeout then CeilDiv(timeout - (o.clock - start), 500) else 0
    decreases timeout - (o.clock - start)
  {
    SinceIsElapsed(o.clock, start);
    if Since(o.clock, start) >= timeout {
    } else {
      var (ok, o') := Connect(w, server, o);
      if !ok {
        RetryBudget(w, timeout, server, Sleep(w, o', ATTEMPT_GAP), start);
      }
    }
  }

  /** The loop ends at the first connect that answers: each connect is followed by one sleep, and
      success means the last one and only the last one was answered. */
  lemma {:induction false} RetryAnswers(w: World, timeout: uint32, server: string, o: Outside, start: nat)
    requires NoWrap(w, timeout) && start <= o.clock < start + TWO_32
    ensures var r := Retry(w, timeout, server, o, start);
            var n := r.1.calls - o.calls;
            && r.1.at == o.at + 2 * n - (if r.0 then 1 else 0)
            && (r.0 ==> n > 0)
            && forall j :: 0 <= j < n ==> (Answers(w, server, o.at, j) <==> r.0 && j == n - 1)
    decreases timeout - (o.clock - start)
  {
    SinceIsElapsed(o.clock, start);
    if Since(o.clock, start) >= timeout {
    } else {
      var (ok, o1) := Connect(w, server, o);
      if !ok {
        var o2 := Sleep(w, o1, ATTEMPT_GAP);
        RetryAnswers(w, timeout, server, o2, start);
        forall j | 1 <= j < Retry(w, timeout, server, o, start).1.calls - o.calls
          ensures Answers(w, server, o.at, j) == Answers(w, server, o2.at, j - 1)
        {
        }
      }
    }
  }

  predicate Answers(w: World, server: string, at: nat, j: nat) {
    w.answers(at + 2 * j, server)
  }

  /** Every connect fails at once, and no sleep is late. */
  ghost predicate Prompt(w: World) {
    forall i: nat, server: string :: !w.answers(i, server) && w.late(i) == 0
  }

  /** Then the budget is used up exactly. */
  lemma {:induction false} BudgetIsReached(w: World, timeout: uint32, server: string, o: Outside, start: nat)
    requires NoWrap(w, timeout) && start <= o.clock < start + TWO_32
    requires Prompt(w)
    ensures var n := if o.clock - start < timeout then CeilDiv(timeout - (o.clock - start), 500) else 0;
            Retry(w, timeout, server, o, start) ==
              (false, Outside(o.at + 2 * n, o.clock + 500 * n, o.calls + n))
    decreases timeout - (o.clock - start)
  {
    SinceIsElapsed(o.clock, start);
    if Since(o.clock, start) >= timeout {
    } else {
      var left := timeout - (o.clock - start);
      assert !w.answers(o.at, server) && !w.answers(o.at + 1, server);
      BudgetIsReached(w, timeout, server, Outside(o.at + 2, o.clock + 500, o.calls + 1), start);
      assert CeilDiv(left, 500) == 1 + if left > 500 then CeilDiv(left - 500, 500) else 0;
    }
  }

  /** And so it is behind the second that a reconnect waits first; a name that is no URL takes that
      second only. */
  lemma ReconnectPrompt(w: World, timeout: uint32, server: string, o: Outside)
    requires NoWrap(w, timeout) && Prompt(w)
    ensures var n := if w.parses(server) then CeilDiv(timeout, 500) else 0;
            Reconnect(w, timeout, server, o) ==
              (false, Outside(o.at + 1 + 2 * n, o.clock + 1000 + 500 * n, o.calls + n))
  {
    assert !w.answers(o.at, server) && w.late(o.at) == 0;
    var o' := Sleep(w, o, SETTLE);
    assert CeilDiv(0, 500) == 0;
    if w.parses(server) {
      BudgetIsReached(w, timeout, server, o', o'.clock);
    }
  }

  /** The state after n passes of the loop in which no connect answers. */
  function Passes(w: World, server: string, o: Outside, n: nat): Outside
    decreases n
  {
    if n == 0 then o else Passes(w, server, Sleep(w, Connect(w, server, o).1, ATTEMPT_GAP), n - 1)
  }

  /** Connects fail, and a connect and the sleep after it take 2^32 milliseconds together. */
  function Stalled(): World {
    World((_, _) => false, (i: nat) => if i % 2 == 0 then TWO_32 - ATTEMPT_GAP else 0, _ => true)
  }

  /** Without that assumption there is no bound: when every pass takes a whole turn of the clock, the
      loop has made n connects and goes on, for every n and every timeout. */
  lemma {:induction false} WrapNeverEnds(timeout: uint32, server: string, start: nat, at: nat, calls: nat,
                                         turns: nat, n: nat)
    requires timeout > 0 && at % 2 == 0
    ensures var o := Passes(Stalled(), server, Outside(at, start + turns * TWO_32, calls), n);
            o.calls == calls + n && Since(o.clock, start) < timeout
    decreases n
  {
    if n == 0 {
      SameStamp(start, turns);
    } else {
      WrapNeverEnds(timeout, server, start, at + 2, calls + 1, turns + 1, n - 1);
      assert (turns + 1) * TWO_32 == turns * TWO_32 + TWO_32;
    }
  }

  lemma SameStamp(start: nat, turns: nat)
    ensures Since(start + turns * TWO_32, start) == 0
  {
  }

  // ------------------------------------------------------------------ configuration

  datatype Kind = NoKind | Server | Network | Local
  datatype State = Inactive | Active | Switching | Failed

  datatype Config = Config(
    enableServer: bool, enableNetwork: bool, enableLocal: bool,
    maxSwitchAttempts: uint32, switchTimeout: uint32, healthInterval: uint32,
    backups: seq<string>, recordingPath: string)

  datatype Status = Status(
    state: State, kind: Kind, attempts: uint32, lastSwitch: uint32, healthTime: uint32, healthy: bool,
    server: string, network: string)

  const INTERFACES: seq<string> := ["en0", "en1", "pdp_ip0", "pdp_ip1"]

  predicate Available(interface: string) {
    interface == "en0" || interface == "pdp_ip0"
  }

  /** The settings and the surroundings of a run do not change. */
  datatype Setting = Setting(w: World, cfg: Config)

  ghost predicate Sane(s: Setting) {
    NoWrap(s.w, s.cfg.switchTimeout)
  }

  datatype Sys = Sys(st: Status, o: Outside)

  // ------------------------------------------------------------------------ switches

  /** switch_server, from backup i on. */
  function SwitchServer(s: Setting, y: Sys, i: nat): (bool, Sys)
    requires Sane(s)
    decreases |s.cfg.backups| - i
  {
    if i >= |s.cfg.backups| then (false, y)
    else
      var (ok, o) := Reconnect(s.w, s.cfg.switchTimeout, s.cfg.backups[i], y.o);
      if ok then (true, Sys(y.st.(server := s.cfg.backups[i]), o))
      else SwitchServer(s, y.(o := o), i + 1)
  }

  /** switch_network, from interface i on: the others that are available, with the current server. */
  function SwitchNetwork(s: Setting, y: Sys, i: nat): (bool, Sys)
    requires Sane(s)
    decreases |INTERFACES| - i
  {
    if i >= |INTERFACES| then (false, y)
    else if INTERFACES[i] != y.st.network && Available(INTERFACES[i]) then
      var (ok, o) := Reconnect(s.w, s.cfg.switchTimeout, y.st.server, y.o);
      if ok then (true, Sys(y.st.(network := INTERFACES[i]), o))
      else SwitchNetwork(s, y.(o := o), i + 1)
    else SwitchNetwork(s, y, i + 1)
  }

  /** The switch of rtmp_failover_trigger: a kind that is disabled or unknown fails. */
  function Attempt(s: Setting, y: Sys, kind: Kind): (bool, Sys)
    requires Sane(s)
  {
    match kind
    case Server => if s.cfg.enableServer then SwitchServer(s, y, 0) else (false, y)
    case Network => if s.cfg.enableNetwork then SwitchNetwork(s, y, 0) else (false, y)
    case Local => (s.cfg.enableLocal && s.cfg.recordingPath != "", y)
    case NoKind => (false, y)
  }

  predicate Triggers(s: Setting, y: Sys) {
    y.st.state == Active && y.st.attempts < s.cfg.maxSwitchAttempts
  }

  /** rtmp_failover_trigger. */
  function Trigger(s: Setting, y: Sys, kind: Kind): (bool, Sys)
    requires Sane(s)
  {
    if Triggers(s, y) then
      var y1 := y.(st := y.st.(state := Switching, kind := kind, attempts := y.st.attempts + 1));
      var (ok, y2) := Attempt(s, y1, kind);
      (ok, y2.(st := if ok then y2.st.(state := Active, lastSwitch := Stamp(y2.o)) else y2.st.(state := Failed)))
    else (false, y)
  }

  /** The kind an unhealthy check asks for. */
  function Preferred(cfg: Config): Kind {
    if cfg.enableServer then Server else if cfg.enableNetwork then Network
    else if cfg.enableLocal then Local else NoKind
  }

  /** perform_health_check, given whether the connection is up and the ping went out. */
  function HealthCheck(s: Setting, y: Sys, connected: bool, ping: bool): Sys
    requires Sane(s)
  {
    var healthy := connected && Available(y.st.network) && ping;
    var y1 := y.(st := y.st.(healthy := healthy));
    if healthy || Preferred(s.cfg) == NoKind then y1 else Trigger(s, y1, Preferred(s.cfg)).1
  }

  // ------------------------------------------------------------- which way a switch goes

  /** The surroundings after reconnects to these servers, one after the other. */
  function Tried(s: Setting, names: seq<string>, o: Outside): Outside
    requires Sane(s)
  {
    if names == [] then o
    else Tried(s, names[1..], Reconnect(s.w, s.cfg.switchTimeout, names[0], o).1)
  }

  /** All these reconnects, one after the other, fail. */
  predicate NoneAnswers(s: Setting, names: seq<string>, o: Outside)
    requires Sane(s)
  {
    names == [] ||
    var (ok, o') := Reconnect(s.w, s.cfg.switchTimeout, names[0], o);
    !ok && NoneAnswers(s, names[1..], o')
  }

  /** The first k fail, and the next one succeeds and leaves o'. */
  predicate FirstAnswer(s: Setting, names: seq<string>, o: Outside, k: nat, o': Outside)
    requires Sane(s)
  {
    && k < |names| && NoneAnswers(s, names[..k], o)
    && Reconnect(s.w, s.cfg.switchTimeout, names[k], Tried(s, names[..k], o)) == (true, o')
  }

  lemma FirstAnswerCons(s: Setting, names: seq<string>, o: Outside, k: nat, o': Outside)
    requires Sane(s) && names != [] && !Reconnect(s.w, s.cfg.switchTimeout, names[0], o).0
    requires FirstAnswer(s, names[1..], Reconnect(s.w, s.cfg.switchTimeout, names[0], o).1, k, o')
    ensures FirstAnswer(s, names, o, k + 1, o')
  {
    var more := names[..k + 1];
    assert more[0] == names[0] && more[1..] == names[1..][..k];
    assert Tried(s, more, o) == Tried(s, more[1..], Reconnect(s.w, s.cfg.switchTimeout, names[0], o).1);
  }

  /** A server switch tries the backups in order. It succeeds exactly when one of them answers, and then
      the server is the first that did; otherwise only time has passed. */
  lemma {:induction false} ServerChosen(s: Setting, y: Sys, i: nat) returns (k: nat)
    requires Sane(s) && i <= |s.cfg.backups|
    ensures var (ok, y') := SwitchServer(s, y, i);
            var names := s.cfg.backups[i..];
            && (ok <==> !NoneAnswers(s, names, y.o))
            && (ok ==> FirstAnswer(s, names, y.o, k, y'.o) && y'.st == y.st.(server := s.cfg.backups[i + k]))
            && (!ok ==> y' == y.(o := Tried(s, names, y.o)))
    decreases |s.cfg.backups| - i
  {
    var names := s.cfg.backups[i..];
    k := 0;
    if i == |s.cfg.backups| {
    } else {
      var (ok, o) := Reconnect(s.w, s.cfg.switchTimeout, s.cfg.backups[i], y.o);
      assert names[0] == s.cfg.backups[i] && names[1..] == s.cfg.backups[i + 1..] && names[..0] == [];
      if !ok {
        k := ServerChosen(s, y.(o := o), i + 1);
        if SwitchServer(s, y, i).0 {
          FirstAnswerCons(s, names, y.o, k, SwitchServer(s, y, i).1.o);
        }
        k := k + 1;
      }
    }
  }

  /** The interfaces a network switch may go to. */
  function Others(network: string): seq<string> {
    if network == "en0" then ["pdp_ip0"] else if network == "pdp_ip0" then ["en0"] else ["en0", "pdp_ip0"]
  }

  function OthersFrom(network: string, i: nat): seq<string>
    decreases |INTERFACES| - i
  {
    if i >= |INTERFACES| then []
    else
      (if CanGo(network, i) then [INTERFACES[i]] else []) + OthersFrom(network, i + 1)
  }

  lemma OthersAre(network: string)
    ensures OthersFrom(network, 0) == Others(network)
  {
    assert OthersFrom(network, 4) == [];
    assert OthersFrom(network, 3) == [];
    assert OthersFrom(network, 2) == if network == "pdp_ip0" then [] else ["pdp_ip0"];
    assert OthersFrom(network, 1) == OthersFrom(network, 2);
  }

  /** The same server, once for each interface. */
  function Times(server: string, n: nat): (names: seq<string>)
    ensures |names| == n && forall i :: 0 <= i < n ==> names[i] == server
  {
    if n == 0 then [] else [server] + Times(server, n - 1)
  }

  /** A switch over these interfaces, all with the same server, ended like this. */
  ghost predicate WentOver(s: Setting, y: Sys, others: seq<string>, ok: bool, y': Sys, k: nat)
    requires Sane(s)
  {
    var names := Times(y.st.server, |others|);
    && (ok <==> !NoneAnswers(s, names, y.o))
    && (ok ==> FirstAnswer(s, names, y.o, k, y'.o) && y'.st == y.st.(network := others[k]))
    && (!ok ==> y' == y.(o := Tried(s, names, y.o)))
  }

  /** One interface more in front: it answers, or it does not and the others follow. */
  lemma WentOverCons(s: Setting, y: Sys, other: string, others: seq<string>, ok: bool, y': Sys, k: nat)
    requires Sane(s)
    requires var (first, o) := Reconnect(s.w, s.cfg.switchTimeout, y.st.server, y.o);
             if first then ok && y' == Sys(y.st.(network := other), o)
             else WentOver(s, y.(o := o), others, ok, y', k)
    ensures var first := Reconnect(s.w, s.cfg.switchTimeout, y.st.server, y.o).0;
            WentOver(s, y, [other] + others, ok, y', if first then 0 else k + 1)
  {
    var (first, o) := Reconnect(s.w, s.cfg.switchTimeout, y.st.server, y.o);
    var names := Times(y.st.server, |[other] + others|);
    assert names[0] == y.st.server && names[1..] == Times(y.st.server, |others|) && names[..0] == [];
    if !first && ok {
      FirstAnswerCons(s, names, y.o, k, y'.o);
    }
  }

  predicate CanGo(network: string, i: nat) {
    i < |INTERFACES| && INTERFACES[i] != network && Available(INTERFACES[i])
  }

  lemma NetworkStep(s: Setting, y: Sys, i: nat)
    requires Sane(s) && i < |INTERFACES|
    ensures CanGo(y.st.network, i) ==>
              var (first, o) := Reconnect(s.w, s.cfg.switchTimeout, y.st.server, y.o);
              SwitchNetwork(s, y, i) ==
                if first then (true, Sys(y.st.(network := INTERFACES[i]), o)) else SwitchNetwork(s, y.(o := o), i + 1)
    ensures !CanGo(y.st.network, i) ==> SwitchNetwork(s, y, i) == SwitchNetwork(s, y, i + 1)
  {
  }

  lemma NetworkOn(s: Setting, y: Sys, i: nat, k: nat)
    requires Sane(s) && CanGo(y.st.network, i)
    requires var (first, o) := Reconnect(s.w, s.cfg.switchTimeout, y.st.server, y.o);
             first || WentFrom(s, y.(o := o), i + 1, k)
    ensures WentFrom(s, y, i, if Reconnect(s.w, s.cfg.switchTimeout, y.st.server, y.o).0 then 0 else k + 1)
  {
    var (ok, y') := SwitchNetwork(s, y, i);
    NetworkStep(s, y, i);
    WentOverCons(s, y, INTERFACES[i], OthersFrom(y.st.network, i + 1), ok, y', k);
  }

  lemma NetworkSkip(s: Setting, y: Sys, i: nat, k: nat)
    requires Sane(s) && i < |INTERFACES| && !CanGo(y.st.network, i) && WentFrom(s, y, i + 1, k)
    ensures WentFrom(s, y, i, k)
  {
    NetworkStep(s, y, i);
    assert [] + OthersFrom(y.st.network, i + 1) == OthersFrom(y.st.network, i + 1);
  }

  ghost predicate WentFrom(s: Setting, y: Sys, i: nat, k: nat)
    requires Sane(s)
  {
    WentOver(s, y, OthersFrom(y.st.network, i), SwitchNetwork(s, y, i).0, SwitchNetwork(s, y, i).1, k)
  }

  lemma {:induction false} NetworkFrom(s: Setting, y: Sys, i: nat) returns (k: nat)
    requires Sane(s) && i <= |INTERFACES|
    ensures WentFrom(s, y, i, k)
    decreases |INTERFACES| - i
  {
    k := 0;
    if i == |INTERFACES| {
    } else if CanGo(y.st.network, i) {
      var (first, o) := Reconnect(s.w, s.cfg.switchTimeout, y.st.server, y.o);
      if !first {
        k := NetworkFrom(s, y.(o := o), i + 1);
      }
      NetworkOn(s, y, i, k);
      k := if first then 0 else k + 1;
    } else {
      k := NetworkFrom(s, y, i + 1);
      NetworkSkip(s, y, i, k);
    }
  }

  /** A network switch reconnects to the current server once for each of the others of "en0" and
      "pdp_ip0", and the interface is the one whose reconnect was the first to succeed. */
  lemma NetworkChosen(s: Setting, y: Sys) returns (k: nat)
    requires Sane(s)
    ensures WentOver(s, y, Others(y.st.network), SwitchNetwork(s, y, 0).0, SwitchNetwork(s, y, 0).1, k)
  {
    OthersAre(y.st.network);
    k := NetworkFrom(s, y, 0);
  }

  /** What a trigger does: nothing unless the handler is active with attempts left; then the switch of
      its kind, if that is enabled, decides between ACTIVE with a new switch time and FAILED. */
  lemma TriggerMeaning(s: Setting, y: Sys, kind: Kind) returns (k: nat)
    requires Sane(s)
    ensures var (ok, y') := Trigger(s, y, kind);
            if !(y.st.state == Active && y.st.attempts < s.cfg.maxSwitchAttempts) then !ok && y' == y
            else
              var st := y.st.(kind := kind, attempts := y.st.attempts + 1, state := if ok then Active else Failed,
                              lastSwitch := if ok then y'.o.clock % 0x1_0000_0000 else y.st.lastSwitch);
              var others := Others(y.st.network);
              match kind
              case Server =>
                && (ok <==> s.cfg.enableServer && !NoneAnswers(s, s.cfg.backups, y.o))
                && (ok ==> FirstAnswer(s, s.cfg.backups, y.o, k, y'.o) && y'.st == st.(server := s.cfg.backups[k]))
                && (!ok ==> y'.st == st)
              case Network =>
                && (ok <==> s.cfg.enableNetwork && !NoneAnswers(s, Times(y.st.server, |others|), y.o))
                && (ok ==> FirstAnswer(s, Times(y.st.server, |others|), y.o, k, y'.o))
                && (ok ==> y'.st == st.(network := others[k]))
                && (!ok ==> y'.st == st)
              case Local => (ok <==> s.cfg.enableLocal && s.cfg.recordingPath != "") && y' == Sys(st, y.o)
              case NoKind => !ok && y' == Sys(st, y.o)
  {
    k := 0;
    if !Triggers(s, y) {
      return;
    }
    var y1 := y.(st := y.st.(state := Switching, kind := kind, attempts := y.st.attempts + 1));
    if kind == Server {
      k := ServerChosen(s, y1, 0);
      assert s.cfg.backups[0..] == s.cfg.backups;
    } else if kind == Network {
      k := NetworkChosen(s, y1);
    }
  }

  /** A health check finds the connection healthy exactly when it is up on "en0" or "pdp_ip0" and the ping
      went out; otherwise it triggers the first enabled kind of server, network and local, if any. */
  lemma HealthMeaning(s: Setting, y: Sys, connected: bool, ping: bool)
    requires Sane(s)
    ensures var healthy := connected && (y.st.network == "en0" || y.st.network == "pdp_ip0") && ping;
            var y1 := y.(st := y.st.(healthy := healthy));
            HealthCheck(s, y, connected, ping) ==
              if healthy then y1
              else if s.cfg.enableServer then Trigger(s, y1, Server).1
              else if s.cfg.enableNetwork then Trigger(s, y1, Network).1
              else if s.cfg.enableLocal then Trigger(s, y1, Local).1
              else y1
  {
  }

  /** With the last check, start or reset at b: the health thread checks exactly when the handler is active
      and an interval has passed, and then takes the time it read. */
  lemma HealthTickMeaning(s: Setting, y: Sys, b: nat, connected: bool, ping: bool)
    requires Sane(s) && y.st.healthTime == b % 0x1_0000_0000 && b <= y.o.clock < b + 0x1_0000_0000
    ensures var y' := HealthCheck(s, y, connected, ping);
            Apply(s, y, HealthTick(connected, ping)) ==
              if y.st.state == Active && y.o.clock - b >= s.cfg.healthInterval
              then y'.(st := y'.st.(healthTime := y.o.clock % 0x1_0000_0000)) else y
  {
    SinceIsElapsed(y.o.clock, b);
  }

  // ------------------------------------------------------------------ budget of a switch

  function Routes(cfg: Config): nat {
    if |cfg.backups| > 2 then |cfg.backups| else 2
  }

  function SwitchBudget(cfg: Config): nat {
    Routes(cfg) * Budget(cfg.switchTimeout)
  }

  lemma ReconnectBudget(w: World, timeout: uint32, server: string, o: Outside)
    requires NoWrap(w, timeout)
    ensures var r := Reconnect(w, timeout, server, o);
            0 <= r.1.calls - o.calls <= Budget(timeout) && (r.0 ==> w.parses(server))
  {
    if w.parses(server) {
      var o' := Sleep(w, o, SETTLE);
      RetryBudget(w, timeout, server, o', o'.clock);
    }
  }

  lemma {:induction false} ServerBudget(s: Setting, y: Sys, i: nat)
    requires Sane(s) && i <= |s.cfg.backups|
    ensures var (ok, y') := SwitchServer(s, y, i);
            && 0 <= y'.o.calls - y.o.calls <= (|s.cfg.backups| - i) * Budget(s.cfg.switchTimeout)
            && y'.st == y.st.(server := y'.st.server)
            && (if ok then y'.st.server in s.cfg.backups[i..] else y'.st.server == y.st.server)
    decreases |s.cfg.backups| - i
  {
    if i == |s.cfg.backups| {
    } else {
      var name := s.cfg.backups[i];
      var (ok, o) := Reconnect(s.w, s.cfg.switchTimeout, name, y.o);
      ReconnectBudget(s.w, s.cfg.switchTimeout, name, y.o);
      OneMore(|s.cfg.backups| - i, Budget(s.cfg.switchTimeout));
      assert s.cfg.backups[i..] == [name] + s.cfg.backups[i + 1..];
      if !ok {
        ServerBudget(s, y.(o := o), i + 1);
      }
    }
  }

  lemma OneMore(n: nat, k: nat)
    requires n > 0
    ensures n * k == (n - 1) * k + k && (n - 1) * k >= 0
  {
  }

  /** How many interfaces from i on can still be tried. */
  function Usable(i: nat): nat {
    if i == 0 then 2 else if i <= 2 then 1 else 0
  }

  lemma {:induction false} NetworkBudget(s: Setting, y: Sys, i: nat)
    requires Sane(s) && i <= |INTERFACES|
    ensures var (ok, y') := SwitchNetwork(s, y, i);
            && 0 <= y'.o.calls - y.o.calls <= Usable(i) * Budget(s.cfg.switchTimeout)
            && y'.st == y.st.(network := y'.st.network)
            && (if ok then Available(y'.st.network) && y'.st.network != y.st.network
                else y'.st.network == y.st.network)
    decreases |INTERFACES| - i
  {
    if i == |INTERFACES| {
    } else {
      if INTERFACES[i] != y.st.network && Available(INTERFACES[i]) {
        var (ok, o) := Reconnect(s.w, s.cfg.switchTimeout, y.st.server, y.o);
        ReconnectBudget(s.w, s.cfg.switchTimeout, y.st.server, y.o);
        assert i == 0 || i == 2;
        if !ok {
          NetworkBudget(s, y.(o := o), i + 1);
        }
      } else {
        NetworkBudget(s, y, i + 1);
      }
    }
  }

  lemma TwoFit(cfg: Config)
    ensures 2 * Budget(cfg.switchTimeout) <= SwitchBudget(cfg)
    ensures |cfg.backups| * Budget(cfg.switchTimeout) <= SwitchBudget(cfg)
  {
    Monotone(2, Routes(cfg), Budget(cfg.switchTimeout));
    Monotone(|cfg.backups|, Routes(cfg), Budget(cfg.switchTimeout));
  }

  lemma Monotone(a: nat, b: nat, k: nat)
    requires a <= b
    ensures a * k <= b * k
  {
  }

  /** A trigger that is let through counts one attempt, ends Active or Failed as it succeeded or
      not, stays within the connect budget, and changes server or interface only when it succeeds,
      then to a listed backup or to another available interface. One that is not changes nothing. */
  lemma TriggerEffect(s: Setting, y: Sys, kind: Kind)
    requires Sane(s)
    ensures var (ok, y') := Trigger(s, y, kind);
            && (!Triggers(s, y) ==> !ok && y' == y)
            && (Triggers(s, y) ==>
                  && y'.st.attempts == y.st.attempts + 1 && y'.st.kind == kind
                  && y'.st.state == (if ok then Active else Failed)
                  && y'.st.healthTime == y.st.healthTime && y'.st.healthy == y.st.healthy)
            && 0 <= y'.o.calls - y.o.calls <= SwitchBudget(s.cfg)
            && (!ok ==> y'.st.server == y.st.server && y'.st.network == y.st.network)
            && (ok ==> y'.st.server == y.st.server || (kind == Server && y'.st.server in s.cfg.backups))
            && (ok && kind == Network ==> Available(y'.st.network) && y'.st.network != y.st.network)
            && (ok && kind != Network ==> y'.st.network == y.st.network)
  {
    if Triggers(s, y) {
      var y1 := y.(st := y.st.(state := Switching, kind := kind, attempts := y.st.attempts + 1));
      TwoFit(s.cfg);
      if kind == Server && s.cfg.enableServer {
        ServerBudget(s, y1, 0);
      } else if kind == Network && s.cfg.enableNetwork {
        NetworkBudget(s, y1, 0);
      }
    }
  }

  // -------------------------------------------------------------------------- runs

  datatype Op =
    | Start
    | Stop
    | Reset
    | Ask(kind: Kind)
    | CheckHealth(connected: bool, ping: bool)
    | HealthTick(connected: bool, ping: bool)
    | SetHealthy(healthy: bool)
    | Pass(ms: nat)

  /** One pass of the health thread is due. */
  predicate Due(s: Setting, y: Sys) {
    y.st.state == Active && (Stamp(y.o) - y.st.healthTime) % TWO_32 >= s.cfg.healthInterval
  }

  function Apply(s: Setting, y: Sys, op: Op): Sys
    requires Sane(s)
  {
    match op
    case Start =>
      if y.st.state == Inactive then
        y.(st := y.st.(state := Active, attempts := 0, lastSwitch := Stamp(y.o), healthTime := Stamp(y.o)))
      else y
    case Stop => if y.st.state != Inactive then y.(st := y.st.(state := Inactive, kind := NoKind)) else y
    case Reset =>
      y.(st := y.st.(attempts := 0, lastSwitch := Stamp(y.o), healthTime := Stamp(y.o), healthy := true,
                     state := if y.st.state == Failed then Active else y.st.state))
    case Ask(kind) => Trigger(s, y, kind).1
    case CheckHealth(connected, ping) => HealthCheck(s, y, connected, ping)
    case HealthTick(connected, ping) =>
      if Due(s, y) then
        var y' := HealthCheck(s, y, connected, ping);
        y'.(st := y'.st.(healthTime := Stamp(y.o)))
      else y
    case SetHealthy(healthy) => y.(st := y.st.(healthy := healthy))
    case Pass(ms) => y.(o := y.o.(clock := y.o.clock + ms))
  }

  /** The switch an operation performs, if any, as whether it succeeded. */
  function Switched(s: Setting, y: Sys, op: Op): seq<bool>
    requires Sane(s)
  {
    var kind :=
      match op
      case Ask(kind) => Some(kind)
      case CheckHealth(connected, ping) => Demand(s, y, connected, ping)
      case HealthTick(connected, ping) => if Due(s, y) then Demand(s, y, connected, ping) else None
      case _ => None;
    if kind.Some? && Triggers(s, y) then [Apply(s, y, op).st.state == Active] else []
  }

  function Demand(s: Setting, y: Sys, connected: bool, ping: bool): Option<Kind> {
    if (connected && Available(y.st.network) && ping) || Preferred(s.cfg) == NoKind then None
    else Some(Preferred(s.cfg))
  }

  function Run(s: Setting, y: Sys, ops: seq<Op>): Sys
    requires Sane(s)
    decreases |ops|
  {
    if ops == [] then y else Run(s, Apply(s, y, ops[0]), ops[1..])
  }

  function Log(s: Setting, y: Sys, ops: seq<Op>): seq<bool>
    requires Sane(s)
    decreases |ops|
  {
    if ops == [] then [] else Switched(s, y, ops[0]) + Log(s, Apply(s, y, ops[0]), ops[1..])
  }

  predicate Restarts(op: Op) {
    op.Start? || op.Reset?
  }

  /** What one operation costs: without start or reset it spends at most one attempt and its
      budget, and after a failed switch the machine has failed. */
  lemma StepCost(s: Setting, y: Sys, op: Op)
    requires Sane(s)
    ensures var y', log := Apply(s, y, op), Switched(s, y, op);
            && 0 <= y'.o.calls - y.o.calls <= |log| * SwitchBudget(s.cfg)
            && (log != [] ==> Triggers(s, y) && !Restarts(op) && y'.st.state == if log[0] then Active else Failed)
            && (!Restarts(op) ==> y'.st.attempts == y.st.attempts + |log|)
            && (!Restarts(op) && y.st.state != Active ==> y'.st.state != Active)
            && (Restarts(op) ==> y'.st.attempts == 0 || y'.st.attempts == y.st.attempts)
  {
    match op
    case Ask(kind) => TriggerEffect(s, y, kind);
    case CheckHealth(connected, ping) => CheckCost(s, y, connected, ping);
    case HealthTick(connected, ping) => CheckCost(s, y, connected, ping);
    case _ =>
  }

  lemma CheckCost(s: Setting, y: Sys, connected: bool, ping: bool)
    requires Sane(s)
    ensures var y' := HealthCheck(s, y, connected, ping);
            var d := Demand(s, y, connected, ping);
            && y'.st.healthy == (connected && Available(y.st.network) && ping)
            && (d.Some? && Triggers(s, y) ==>
                  && y'.st.attempts == y.st.attempts + 1 && (y'.st.state == Active || y'.st.state == Failed)
                  && 0 <= y'.o.calls - y.o.calls <= SwitchBudget(s.cfg))
            && (!(d.Some? && Triggers(s, y)) ==> y' == y.(st := y.st.(healthy := y'.st.healthy)))
  {
    var y1 := y.(st := y.st.(healthy := connected && Available(y.st.network) && ping));
    TriggerEffect(s, y1, Preferred(s.cfg));
  }

  ghost predicate Stretch(ops: seq<Op>) {
    forall i :: 0 <= i < |ops| ==> !Restarts(ops[i])
  }

  function Left(s: Setting, y: Sys): nat {
    if y.st.attempts < s.cfg.maxSwitchAttempts then s.cfg.maxSwitchAttempts - y.st.attempts else 0
  }

  /** Between starts and resets: some successful switches, then at most one that fails and after
      which there are no more; no more of them than attempts are left; and no more connect calls
      than that many switch budgets. */
  lemma {:induction false} StretchShape(s: Setting, y: Sys, ops: seq<Op>)
    requires Sane(s) && Stretch(ops)
    ensures var log, y' := Log(s, y, ops), Run(s, y, ops);
            && (forall i :: 0 <= i < |log| - 1 ==> log[i])
            && (log != [] && !log[|log| - 1] ==> y'.st.state != Active)
            && (y.st.state != Active ==> log == [] && y'.st.state != Active)
            && |log| <= Left(s, y) && y'.st.attempts == y.st.attempts + |log|
            && 0 <= y'.o.calls - y.o.calls <= |log| * SwitchBudget(s.cfg)
    decreases |ops|
  {
    if ops == [] {
    } else {
      var y1, first := Apply(s, y, ops[0]), Switched(s, y, ops[0]);
      StepCost(s, y, ops[0]);
      assert forall i :: 0 <= i < |ops[1..]| ==> ops[1..][i] == ops[i + 1];
      StretchShape(s, y1, ops[1..]);
      var rest := Log(s, y1, ops[1..]);
      Spread(|first|, |rest|, SwitchBudget(s.cfg));
      assert |first| <= 1;
      if first == [] {
        assert first + rest == rest;
      } else if !first[0] {
        assert first + rest == first;
      }
    }
  }

  lemma Spread(a: nat, b: nat, k: nat)
    ensures (a + b) * k == a * k + b * k
  {
  }

  function RestartCount(ops: seq<Op>): nat {
    if ops == [] then 0 else (if Restarts(ops[0]) then 1 else 0) + RestartCount(ops[1..])
  }

  /** Over a whole run every start and every reset buys at most maxSwitchAttempts switches. */
  lemma {:induction false} RunBudget(s: Setting, y: Sys, ops: seq<Op>)
    requires Sane(s)
    ensures |Log(s, y, ops)| <= Left(s, y) + RestartCount(ops) * s.cfg.maxSwitchAttempts
    ensures 0 <= Run(s, y, ops).o.calls - y.o.calls <= |Log(s, y, ops)| * SwitchBudget(s.cfg)
    decreases |ops|
  {
    if ops == [] {
    } else {
      var y1, first := Apply(s, y, ops[0]), Switched(s, y, ops[0]);
      StepCost(s, y, ops[0]);
      RunBudget(s, y1, ops[1..]);
      var rest := Log(s, y1, ops[1..]);
      Spread(|first|, |rest|, SwitchBudget(s.cfg));
      Spread(1, RestartCount(ops[1..]), s.cfg.maxSwitchAttempts);
    }
  }
}
