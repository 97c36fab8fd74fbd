/**
 What a report says of the runtime, and what a display that hears it then shows: from a tick's
 decisions to the display's own screen.
 */
module ReportedState {
  import opened Clock
  import opened CommandWords
  import opened EquipmentRuns
  import opened HvacRuntime
  import opened TickDecisions
  import P = ControllerPublishing
  import T = Telemetry
  import D = ThermostatDisplay

  // ---- The state reported -------------------------------------------------------------

  /** Nothing must be off, and neither equipment nor fan runs. */
  predicate Quiet(r: Runtime) {
    !MustBeOff(r) && r.equipment.phase == Idle && !r.relay.fan
  }

  lemma StateSays(r: Runtime)
    requires Shows(r) && (r.relay.fan ==> r.equipment.phase == Idle)
    ensures var (state, mode) := (P.FurnaceState(r), r.settings.mode);
            && (state == T.ErrorState <==> MustBeOff(r) || (Quiet(r) && mode == UnknownMode))
            && (state == T.HeatOn <==> !MustBeOff(r) && r.equipment.phase == Heating)
            && (state == T.CoolOn <==> !MustBeOff(r) && r.equipment.phase == Cooling)
            && (state == T.FanOn <==> !MustBeOff(r) && r.equipment.phase == Idle && r.relay.fan)
            && (state == T.HeatWait <==> Quiet(r) && mode == Heat && r.equipment.delayed)
            && (state == T.HeatMode <==> Quiet(r) && mode == Heat && !r.equipment.delayed)
            && (state == T.CoolWait <==> Quiet(r) && mode == Cool && r.equipment.delayed)
            && (state == T.CoolMode <==> Quiet(r) && mode == Cool && !r.equipment.delayed)
            && (state == T.IdleState <==> Quiet(r) && mode == Off)
  {
  }

  lemma FanRunsAlone(c: Config, r: Runtime, now: u32, heatCall: bool, coolCall: bool, hasTemp: bool)
    ensures var s := Ticked(c, r, now, heatCall, coolCall, hasTemp);
            Shows(s) && (s.relay.fan ==> s.equipment.phase == Idle)
  {
    TickMoves(c, r, now, heatCall, coolCall, hasTemp, Heating);
    hide WithFailsafe, WithCalls, WithMinutes, Moves, Idled;
  }

  /**
   After a tick the report says Error exactly when everything had to be off, or rests in an unnamed mode;
   Heat On and Cool On exactly during such a run, Fan On when only the fan runs; and at rest the mode,
   waiting or not.
   */
  lemma TickReportsExactly(c: Config, r: Runtime, events: seq<Event>, n: nat)
    requires n < |events| && events[n].op.Tick? && Booted(r)
    ensures var (s, off) := (RuntimeAfter(c, r, events, n + 1), OffAtTick(c, events, n));
            var (state, phase) := (P.Current(s).state, PhaseAt(c, r, events, n + 1));
            && (state == T.ErrorState <==>
                  off || (phase == Idle && !s.relay.fan && s.settings.mode == UnknownMode))
            && (state == T.HeatOn <==> phase == Heating)
            && (state == T.CoolOn <==> phase == Cooling)
            && (state == T.FanOn <==> phase == Idle && s.relay.fan)
            && (state in {T.HeatWait, T.CoolWait} ==> s.equipment.delayed)
            && (state in {T.HeatMode, T.CoolMode} ==> !s.equipment.delayed)
            && (state in {T.HeatWait, T.HeatMode} <==> !off && phase == Idle && !s.relay.fan && s.settings.mode == Heat)
            && (state in {T.CoolWait, T.CoolMode} <==> !off && phase == Idle && !s.relay.fan && s.settings.mode == Cool)
            && (state == T.IdleState <==> !off && phase == Idle && !s.relay.fan && s.settings.mode == Off)
  {
    var (before, e) := (RuntimeAfter(c, r, events, n), events[n]);
    assert RuntimeAfter(c, r, events, n + 1) == Ticked(c, before, At(e.at), e.op.heatCall, e.op.coolCall, e.op.hasTemp);
    FanRunsAlone(c, before, At(e.at), e.op.heatCall, e.op.coolCall, e.op.hasTemp);
    TickMoves(c, before, At(e.at), e.op.heatCall, e.op.coolCall, e.op.hasTemp, Heating);
    MustBeOffExactly(c, r, events, n);
    var s := RuntimeAfter(c, r, events, n + 1);
    assert MustBeOff(s) ==> s.equipment.phase == Idle && !s.relay.fan;
    hide RuntimeAfter, Ticked, Moves, OffAtTick, Shows, P.FurnaceState, MustBeOff;
    assert Shows(s) && P.Current(s).state == P.FurnaceState(s);
    StateSays(s);
  }

  // ---- What a display makes of a report -----------------------------------------------

  /** Modes and fan modes survive their codes, but for the unnamed ones. */
  lemma CodesRoundTrip(mode: FurnaceMode, fan: FanMode)
    ensures T.ModeOfCode(T.ModeCode(mode)) == if mode == UnknownMode then Off else mode
    ensures T.FanOfCode(T.FanCode(fan)) == if fan == UnknownFan then Automatic else fan
  {
  }

  /**
   A display that hears a fresh report mirrors the runtime, and once the user has stopped setting it shows
   the runtime's mode, fan mode and the setpoint of that mode, and keeps its own of the other.
   */
  lemma DisplayShowsRuntime(c: D.Config, d: D.Display, now: u32, number: T.u16, r: Runtime)
    requires D.Fresh(d, number)
    ensures var e := D.WithReport(c, d, now, T.Report(number, P.Current(r)));
            && e.mirror.known && e.mirror.state == P.FurnaceState(r) && e.mirror.lockout == r.lockout
            && e.mirror.windowsOpen == r.windowsOpen && e.mirror.filterSeconds == r.minutes.filterSeconds
            && e.mirror.setpoint
               == (if r.settings.mode == Cool then r.settings.coolSetpoint else r.settings.heatSetpoint)
            && e.sending == d.sending && e.interaction == d.interaction && e.heartbeat == d.heartbeat
            && if D.Debouncing(c, d, now) then e.screen == d.screen
               else
                 && e.screen.mode == (if r.settings.mode == UnknownMode then Off else r.settings.mode)
                 && e.screen.fan == (if r.settings.fan == UnknownFan then Automatic else r.settings.fan)
                 && e.screen.heat == (if r.settings.mode == Heat then r.settings.heatSetpoint else d.screen.heat)
                 && e.screen.cool == (if r.settings.mode == Cool then r.settings.coolSetpoint else d.screen.cool)
  {
    CodesRoundTrip(r.settings.mode, r.settings.fan);
    hide P.FurnaceState, D.Debouncing, T.NewerU16;
  }

  /** The user is setting for less than the debounce time since the last interaction, one at clock 0 excepted. */
  lemma DebouncingExactly(c: D.Config, d: D.Display, at: nat, t: nat)
    requires d.interaction == At(at) && at <= t < at + U32
    ensures D.Debouncing(c, d, At(t)) <==> at % U32 != 0 && t - at < c.debounce
  {
    SinceIsElapsed(t, at);
    hide Since;
  }
}
