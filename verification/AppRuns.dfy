/**
 The controller app around the runtime: whatever it is told, its runtime goes through a run of events
 as the equipment's own theorems are about, with the calls that temperature and setpoint make.
 */
module AppRuns {
  import opened Clock
  import opened CommandWords
  import opened HvacRuntime
  import Division
  import E = EquipmentRuns
  import M = TelemetryMirror
  import P = ControllerPublishing
  import D = TickDecisions
  import N = Telemetry

  // ---- The app's events as the runtime's ----------------------------------------------

  /** What the event is to the runtime, at time `t` if it has none of its own; nothing for some. */
  function OpsOf(b: P.Bands, a: P.App, e: M.ControllerEvent, t: nat): seq<E.Event> {
    match e
    case Tick(at) =>
      var heatCall, coolCall := P.HeatCall(b, a.runtime, a.reading), P.CoolCall(b, a.runtime, a.reading);
      [E.Event(at, E.Tick(heatCall, coolCall, a.reading.Reading?))]
    case Command(packed, mac) => [E.Event(t, E.Command(Decode(packed), mac))]
    case SetLockout(locked) => [E.Event(t, E.SetLockout(locked))]
    case SetWindows(open) => [E.Event(t, E.SetWindows(open))]
    case Read(_) => []
    case Beat(at) => [E.Event(at, E.Heartbeat)]
    case Acked(_) => []
    case Forget => [E.Event(t, E.Forget)]
    case SetSetpoints(heat, cool) => [E.Event(t, E.SetSetpoints(heat, cool))]
    case SetCirculation(period, duration) => [E.Event(t, E.SetCirculation(period, duration))]
  }

  /** The time of the last tick or heartbeat. */
  function TimeOf(events: seq<M.ControllerEvent>, n: nat): nat
    requires n <= |events|
  {
    if n == 0 then 0
    else match events[n - 1]
         case Tick(at) => at
         case Beat(at) => at
         case _ => TimeOf(events, n - 1)
  }

  function Ops(c: Config, b: P.Bands, a: P.App, events: seq<M.ControllerEvent>, n: nat): seq<E.Event>
    requires n <= |events|
  {
    if n == 0 then []
    else
      Ops(c, b, a, events, n - 1)
      + OpsOf(b, M.AppAfter(c, b, a, events, n - 1), events[n - 1], TimeOf(events, n - 1))
  }

  lemma PublishingKeepsRuntime(a: P.App)
    ensures P.Published(a).runtime == a.runtime && P.Settled(a).runtime == a.runtime
  {
    hide P.Current;
  }

  lemma StepIsRuntimes(c: Config, b: P.Bands, a: P.App, e: M.ControllerEvent, t: nat)
    ensures var ops := OpsOf(b, a, e, t);
            M.Next(c, b, a, e).runtime == if ops == [] then a.runtime else E.Stepped(c, a.runtime, ops[0])
  {
    hide P.Published, P.Settled, P.HeatCall, P.CoolCall, Ticked, Commanded, LockedOut, Forgotten, At, Decode;
    match e
    case Tick(at) =>
      var heatCall, coolCall := P.HeatCall(b, a.runtime, a.reading), P.CoolCall(b, a.runtime, a.reading);
      PublishingKeepsRuntime(a);
      PublishingKeepsRuntime(P.TickedRuntime(c, P.Settled(a), At(at), heatCall, coolCall));
      SettlingKeepsReading(a);
    case SetLockout(locked) => PublishingKeepsRuntime(a.(runtime := LockedOut(a.runtime, locked)));
    case SetWindows(open) => PublishingKeepsRuntime(a.(runtime := a.runtime.(windowsOpen := open)));
    case _ =>
  }

  lemma SettlingKeepsReading(a: P.App)
    ensures P.Settled(a).reading == a.reading
  {
    hide P.Current;
  }

  /** Over any run of the app, its runtime is that of the run of its own events. */
  lemma {:induction false} AppRunsRuntime(c: Config, b: P.Bands, a: P.App, events: seq<M.ControllerEvent>, n: nat)
    requires n <= |events|
    ensures var ops := Ops(c, b, a, events, n);
            M.AppAfter(c, b, a, events, n).runtime == E.RuntimeAfter(c, a.runtime, ops, |ops|)
  {
    hide M.Next, E.Stepped, OpsOf;
    if n > 0 {
      var before, t := M.AppAfter(c, b, a, events, n - 1), TimeOf(events, n - 1);
      var ops, more := Ops(c, b, a, events, n - 1), OpsOf(b, before, events[n - 1], t);
      AppRunsRuntime(c, b, a, events, n - 1);
      StepIsRuntimes(c, b, before, events[n - 1], t);
      AtMostOneOp(b, before, events[n - 1], t);
      if more == [] {
        assert ops + more == ops;
      } else {
        E.PrefixAgrees(c, a.runtime, ops, more, |ops|);
        assert (ops + more)[|ops|] == more[0];
      }
    }
  }

  lemma AtMostOneOp(b: P.Bands, a: P.App, e: M.ControllerEvent, t: nat)
    ensures |OpsOf(b, a, e, t)| <= 1
  {
  }

  // ---- Temperature drives the equipment -----------------------------------------------

  /**
   Too cold in Heat, or too warm in Cool with the windows shut, by at least the deadband: idle equipment that
   has rested starts at the next tick, unless everything must be off.
   */
  lemma TemperatureStarts(c: Config, b: P.Bands, a: P.App, at: nat)
    requires a.reading.Reading? && a.runtime.equipment.phase == Idle && !a.runtime.relay.heat && !a.runtime.relay.cool
    ensures var (r, target, temp) := (a.runtime, Target(a.runtime.settings), a.reading.temp);
            var s := M.Next(c, b, a, M.Tick(at)).runtime;
            && (s.equipment.phase == Heating <==>
                  !MustBeOff(s) && r.settings.mode == Heat && temp <= target - b.heatDeadband
                  && D.Rested(c, r.equipment, At(at), Heating))
            && (s.equipment.phase == Cooling <==>
                  !MustBeOff(s) && r.settings.mode == Cool && temp >= target + b.coolDeadband && !r.windowsOpen
                  && D.Rested(c, r.equipment, At(at), Cooling))
  {
    var heatCall, coolCall := P.HeatCall(b, a.runtime, a.reading), P.CoolCall(b, a.runtime, a.reading);
    StepIsRuntimes(c, b, a, M.Tick(at), 0);
    D.TickStartsExactly(c, a.runtime, At(at), heatCall, coolCall, true);
    hide Ticked, M.Next, D.Rested, At, MustBeOff;
  }

  /**
   Past the target by the overrun, a heating run that has lasted its minimum ends at the next tick; and it
   goes on while neither that nor its maximum nor a reason to be off has come. And the same for cooling.
   */
  lemma TemperatureEnds(c: Config, b: P.Bands, a: P.App, at: nat)
    requires a.reading.Reading? && a.runtime.equipment.phase != Idle && E.Shows(a.runtime)
    ensures var (r, target, temp) := (a.runtime, Target(a.runtime.settings), a.reading.temp);
            var (s, age) := (M.Next(c, b, a, M.Tick(at)).runtime, Since(At(at), r.equipment.since));
            if r.equipment.phase == Heating then
              s.equipment.phase == Heating <==>
                && !MustBeOff(s) && !(0 < c.maxHeatingRun <= age)
                && (age < c.minHeatingRun || (r.settings.mode == Heat && temp < target + b.heatOverrun))
            else
              s.equipment.phase == Cooling <==>
                && !MustBeOff(s) && !(0 < c.maxCoolingRun <= age)
                && (age < c.minCoolingRun
                    || (r.settings.mode == Cool && temp > target - b.coolOverrun && !r.windowsOpen))
  {
    var heatCall, coolCall := P.HeatCall(b, a.runtime, a.reading), P.CoolCall(b, a.runtime, a.reading);
    StepIsRuntimes(c, b, a, M.Tick(at), 0);
    D.TickEnds(c, a.runtime, At(at), heatCall, coolCall, true, a.runtime.equipment.phase);
    hide Ticked, M.Next, At, Since, MustBeOff;
  }

  // ---- Acknowledgements ---------------------------------------------------------------

  /**
   Acknowledgements of the last 65534 reports of `g`: the app keeps the latest acknowledged, in full numbers, as
   long as one comes at most 32766 after or before it.
   */
  lemma AckIsLatest(a: P.App, g: nat, last: nat, k: nat)
    requires M.Counts(a, g) && last <= g && 0 < k <= g < k + 0xFFFF && a.lastAcked == M.NumberOf(last)
    requires -32766 <= k - last <= 32766
    ensures P.WithAck(a, M.NumberOf(k)) == a.(lastAcked := M.NumberOf(if k > last then k else last))
    ensures k > last ==> M.NumberOf(k) != M.NumberOf(last)
  {
    if last == 0 {
      FirstAck(k);
    } else if k > last {
      M.NewerExactly(last, k - last);
      NumbersDiffer(last, k);
    } else if k < last {
      M.NewerExactly(k, last - k);
      NumbersDiffer(k, g);
    }
    hide M.NumberOf;
  }

  lemma FirstAck(k: nat)
    requires 0 < k <= 32766
    ensures N.NewerU16(M.NumberOf(0), M.NumberOf(k)) && M.NumberOf(k) != M.NumberOf(0)
  {
  }

  lemma NumbersDiffer(k: nat, g: nat)
    requires 0 < k < g < k + 0xFFFF
    ensures M.NumberOf(k) != M.NumberOf(g)
  {
    Division.Distinct(k - 1, g - 1, 0xFFFF);
  }

  /** Before any report an acknowledgement is ignored. */
  lemma EarlyAckIsIgnored(a: P.App, number: N.u16)
    requires M.Counts(a, 0)
    ensures P.WithAck(a, number) == a
  {
  }
}
