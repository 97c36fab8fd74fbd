/**
 The controller around the runtime: heat and cool calls with hysteresis, and telemetry sent when
 something changed. Temperatures are in tenths of a degree.
 */
module ControllerPublishing {
  import opened Clock
  import opened CommandWords
  import opened HvacRuntime
  import T = Telemetry

  type u16 = T.u16

  datatype Bands = Bands(heatDeadband: int, heatOverrun: int, coolDeadband: int, coolOverrun: int)

  /** `reading` is the indoor temperature; until one is known neither heat nor cool is called for. */
  datatype Reading = NoReading | Reading(temp: int)

  datatype App = App(
    runtime: Runtime, reading: Reading, publishPending: bool, number: u16, hasLast: bool, last: T.Report,
    lastAcked: u16)

  function FurnaceState(r: Runtime): T.FurnaceState {
    if MustBeOff(r) then T.ErrorState
    else if r.relay.heat then T.HeatOn
    else if r.relay.cool then T.CoolOn
    else if r.relay.fan then T.FanOn
    else match r.settings.mode
         case Heat => if r.equipment.delayed then T.HeatWait else T.HeatMode
         case Cool => if r.equipment.delayed then T.CoolWait else T.CoolMode
         case Off => T.IdleState
         case UnknownMode => T.ErrorState
  }

  function Current(r: Runtime): T.Payload {
    T.Payload(FurnaceState(r), r.minutes.filterSeconds, r.lockout, T.ModeCode(r.settings.mode),
              T.FanCode(r.settings.fan),
              Target(r.settings), r.windowsOpen)
  }

  predicate HeatCall(b: Bands, r: Runtime, reading: Reading) {
    reading.Reading? && r.settings.mode == Heat &&
    if r.relay.heat then reading.temp < Target(r.settings) + b.heatOverrun
    else reading.temp <= Target(r.settings) - b.heatDeadband
  }

  predicate CoolCall(b: Bands, r: Runtime, reading: Reading) {
    reading.Reading? && r.settings.mode == Cool &&
    if r.relay.cool then reading.temp > Target(r.settings) - b.coolOverrun
    else reading.temp >= Target(r.settings) + b.coolDeadband
  }

  /**
   Between its two thresholds a call stays as the relay is, so a temperature that wanders there starts
   and stops nothing; beyond them it does not depend on the relay; heat and cool are never both called.
   */
  lemma CallsHaveHysteresis(b: Bands, r: Runtime, reading: Reading)
    requires reading.Reading? && b.heatDeadband > -b.heatOverrun && b.coolDeadband > -b.coolOverrun
    ensures var (target, temp) := (Target(r.settings), reading.temp);
            && (r.settings.mode == Heat && target - b.heatDeadband < temp < target + b.heatOverrun ==>
                  HeatCall(b, r, reading) == r.relay.heat)
            && (temp <= target - b.heatDeadband ==> HeatCall(b, r, reading) == (r.settings.mode == Heat))
            && (temp >= target + b.heatOverrun ==> !HeatCall(b, r, reading))
            && (r.settings.mode == Cool && target - b.coolOverrun < temp < target + b.coolDeadband ==>
                  CoolCall(b, r, reading) == r.relay.cool)
            && (temp >= target + b.coolDeadband ==> CoolCall(b, r, reading) == (r.settings.mode == Cool))
            && (temp <= target - b.coolOverrun ==> !CoolCall(b, r, reading))
            && !(HeatCall(b, r, reading) && CoolCall(b, r, reading))
  {
  }

  // ---- Publishing ---------------------------------------------------------------------

  /** The next number; 0 is skipped. */
  function Bump(number: u16): u16 {
    if number == 0xFFFF then 1 else number + 1
  }

  predicate Changed(a: App) {
    !a.hasLast || Current(a.runtime) != a.last.payload
  }

  function Published(a: App): App {
    if !Changed(a) then a
    else a.(number := Bump(a.number), hasLast := true, last := T.Report(Bump(a.number), Current(a.runtime)))
  }

  /** What publishing hands to the radio. */
  function Handed(a: App): seq<T.Report> {
    if Changed(a) then [Published(a).last] else []
  }

  function Settled(a: App): App {
    if a.publishPending then Published(a.(publishPending := false)) else a
  }

  function SettledHanded(a: App): seq<T.Report> {
    if a.publishPending then Handed(a.(publishPending := false)) else []
  }

  function TickedRuntime(c: Config, a: App, now: u32, heatCall: bool, coolCall: bool): App {
    a.(runtime := Ticked(c, a.runtime, now, heatCall, coolCall, a.reading.Reading?))
  }

  function TickedApp(c: Config, b: Bands, a: App, now: u32): App {
    var heatCall, coolCall := HeatCall(b, a.runtime, a.reading), CoolCall(b, a.runtime, a.reading);
    Published(TickedRuntime(c, Settled(a), now, heatCall, coolCall))
  }

  function TickHanded(c: Config, b: Bands, a: App, now: u32): seq<T.Report> {
    var heatCall, coolCall := HeatCall(b, a.runtime, a.reading), CoolCall(b, a.runtime, a.reading);
    SettledHanded(a) + Handed(TickedRuntime(c, Settled(a), now, heatCall, coolCall))
  }

  function CommandedApp(a: App, packed: nat, mac: seq<bv8>): App {
    var (runtime, verdict) := Commanded(a.runtime, Decode(packed), mac);
    a.(runtime := runtime, publishPending := a.publishPending || verdict.accepted)
  }

  function WithAck(a: App, number: u16): App {
    if a.hasLast && (number == a.number || T.NewerU16(a.lastAcked, number)) then a.(lastAcked := number) else a
  }

  class ControllerApp {
    const runtime: ControllerRuntime
    const bands: Bands
    var reading: Reading
    var publishPending: bool
    var telemetrySeq: u16
    var hasLastPublished: bool
    var lastPublished: T.Report
    var lastAckedSeq: u16
    /** Everything handed to the radio, in order. */
    ghost var handed: seq<T.Report>

    ghost function State(): App
      reads this, runtime, runtime.commandSources
    {
      App(runtime.State(), reading, publishPending, telemetrySeq, hasLastPublished, lastPublished, lastAckedSeq)
    }

    constructor (config: Config, period: u16, duration: u16, bands: Bands, fallback: Reading)
      ensures fresh(runtime) && fresh(runtime.commandSources) && runtime.config == config && this.bands == bands
      ensures State() == App(Initial(period, duration), fallback, false, 0, false, lastPublished, 0) && handed == []
    {
      runtime := new ControllerRuntime(config, period, duration);
      this.bands := bands;
      reading, publishPending, telemetrySeq, hasLastPublished, lastAckedSeq := fallback, false, 0, false, 0;
      lastPublished := T.Report(0, T.Payload(T.ErrorState, 0, false, 0, 0, 0, false));
      handed := [];
    }

    /** The runtime's current payload. */
    method Snapshot() returns (p: T.Payload)
      ensures p == Current(runtime.State())
    {
      var r := runtime;
      var state;
      if r.failsafeActive || r.hvacLockout {
        state := T.ErrorState;
      } else if r.relay.heat {
        state := T.HeatOn;
      } else if r.relay.cool {
        state := T.CoolOn;
      } else if r.relay.fan {
        state := T.FanOn;
      } else {
        match r.settings.mode
        case Heat => state := if r.equipment.delayed then T.HeatWait else T.HeatMode;
        case Cool => state := if r.equipment.delayed then T.CoolWait else T.CoolMode;
        case Off => state := T.IdleState;
        case UnknownMode => state := T.ErrorState;
      }
      p := T.Payload(state, r.minutes.filterSeconds, r.hvacLockout, T.ModeCode(r.settings.mode),
                     T.FanCode(r.settings.fan), Target(r.settings), r.windowsOpen);
    }

    method Publish()
      modifies this`telemetrySeq, this`hasLastPublished, this`lastPublished, this`handed
      ensures State() == Published(old(State())) && handed == old(handed) + Handed(old(State()))
    {
      hide Current;
      var p := Snapshot();
      if hasLastPublished && p == lastPublished.payload {
        return;
      }
      telemetrySeq := (telemetrySeq + 1) % 0x1_0000;
      if telemetrySeq == 0 {
        telemetrySeq := 1;
      }
      lastPublished := T.Report(telemetrySeq, p);
      hasLastPublished := true;
      handed := handed + [lastPublished];
    }

    method Republish()
      modifies this`handed
      ensures handed == old(handed) + if hasLastPublished then [lastPublished] else []
    {
      if hasLastPublished {
        handed := handed + [lastPublished];
      }
    }

    method ComputeHvacCalls() returns (heatCall: bool, coolCall: bool)
      ensures heatCall == HeatCall(bands, runtime.State(), reading)
      ensures coolCall == CoolCall(bands, runtime.State(), reading)
    {
      heatCall, coolCall := false, false;
      if reading == NoReading {
        return;
      }
      var target := Target(runtime.settings);
      match runtime.settings.mode
      case Heat =>
        if runtime.relay.heat {
          heatCall := reading.temp < target + bands.heatOverrun;
        } else {
          heatCall := reading.temp <= target - bands.heatDeadband;
        }
      case Cool =>
        if runtime.relay.cool {
          coolCall := reading.temp > target - bands.coolOverrun;
        } else {
          coolCall := reading.temp >= target + bands.coolDeadband;
        }
      case _ =>
    }

    method TickRuntime(now: u32, heatCall: bool, coolCall: bool)
      modifies runtime
      ensures State() == TickedRuntime(runtime.config, old(State()), now, heatCall, coolCall)
    {
      hide Ticked;
      runtime.Tick(now, heatCall, coolCall, reading.Reading?);
    }

    method Tick(now: u32)
      modifies this, runtime
      ensures State() == TickedApp(runtime.config, bands, old(State()), now)
      ensures handed == old(handed) + TickHanded(runtime.config, bands, old(State()), now)
      ensures reading == old(reading)
    {
      hide HeatCall, CoolCall, Published, Handed, TickedRuntime;
      var heatCall, coolCall := ComputeHvacCalls();
      if publishPending {
        publishPending := false;
        Publish();
      }
      ghost var settled := SettledHanded(old(State()));
      assert handed == old(handed) + settled;
      TickRuntime(now, heatCall, coolCall);
      ghost var ticked := Handed(State());
      Publish();
      assert handed == (old(handed) + settled) + ticked == old(handed) + (settled + ticked);
    }

    method OnCommandWord(packed: u32, mac: seq<bv8>) returns (verdict: Verdict)
      modifies this`publishPending, runtime, runtime.commandSources
      ensures State() == CommandedApp(old(State()), packed, mac)
    {
      hide Commanded, Decode;
      var word := Decode(packed);
      verdict := runtime.ApplyRemoteCommand(word, mac);
      if verdict.accepted {
        publishPending := true;
      }
    }

    method OnThermostatAck(number: u16)
      modifies this`lastAckedSeq
      ensures State() == WithAck(old(State()), number)
    {
      if !hasLastPublished {
        return;
      }
      if number == telemetrySeq || T.NewerU16(lastAckedSeq, number) {
        lastAckedSeq := number;
      }
    }

    method SetHvacLockout(locked: bool)
      modifies this, runtime
      ensures var a := old(State()); State() == Published(a.(runtime := LockedOut(a.runtime, locked)))
    {
      hide Published, Handed;
      runtime.SetHvacLockout(locked);
      Publish();
    }

    method SetWindowsOpen(open: bool)
      modifies this, runtime
      ensures var a := old(State()); State() == Published(a.(runtime := a.runtime.(windowsOpen := open)))
    {
      hide Published, Handed;
      runtime.SetWindowsOpen(open);
      Publish();
    }
  }
}
