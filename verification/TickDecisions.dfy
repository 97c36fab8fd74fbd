/**
 What a tick decides, over whole runs of events and in their own times: when failsafe is on, when a
 run of heating or cooling ends, and when one starts.
 */
module TickDecisions {
  import opened Clock
  import opened CommandWords
  import opened HvacRuntime
  import opened EquipmentRuns
  import opened SafetyChain
  import RelayInterlock

  // ---- Failsafe -----------------------------------------------------------------------

  datatype Beat = NoBeat | Beat(at: nat)

  /** The last heartbeat among the first `n` events. */
  function LastBeat(events: seq<Event>, n: nat): Beat
    requires n <= |events|
  {
    if n == 0 then NoBeat
    else if events[n - 1].op.Heartbeat? then Beat(events[n - 1].at)
    else LastBeat(events, n - 1)
  }

  /** Whether the lockout is set after the first `n` events. */
  predicate LockedOutAt(events: seq<Event>, n: nat)
    requires n <= |events|
  {
    n > 0 && if events[n - 1].op.SetLockout? then events[n - 1].op.on else LockedOutAt(events, n - 1)
  }

  /** Whether windows are open then. */
  predicate WindowsOpenAt(events: seq<Event>, n: nat)
    requires n <= |events|
  {
    n > 0 && if events[n - 1].op.SetWindows? then events[n - 1].op.open else WindowsOpenAt(events, n - 1)
  }

  /** A runtime as after boot. */
  predicate Booted(r: Runtime) {
    r.heartbeat == 0 && !r.lockout && !r.windowsOpen
  }

  /**
   Boot: off, with nothing on and nothing to wait for but the idle time, and 20.0 and 24.0 degrees to come
   back to.
   */
  lemma BootIsBooted(period: u16, duration: u16)
    ensures var r := Initial(period, duration);
            && Booted(r) && !r.failsafe && !r.spareRelay && r.settings.mode == Off && r.settings.fan == Automatic
            && Target(r.settings.(mode := Heat)) == 200 && Target(r.settings.(mode := Cool)) == 240
            && !r.relay.heat && !r.relay.cool && !r.relay.fan && !r.relay.spare
            && r.equipment.phase == Idle && r.equipment.since == 0 && !r.equipment.delayed && !r.equipment.maxExceeded
            && !HasOff(r.equipment, Heating) && !HasOff(r.equipment, Cooling)
            && r.minutes == Minutes(0, 0, 0, period, duration)
  {
  }

  lemma EventInputs(c: Config, r: Runtime, e: Event)
    ensures var s := Stepped(c, r, e);
            && s.heartbeat == (if e.op.Heartbeat? then At(e.at) else r.heartbeat)
            && s.lockout == (if e.op.SetLockout? then e.op.on else r.lockout)
            && s.windowsOpen == (if e.op.SetWindows? then e.op.open else r.windowsOpen)
  {
    if e.op.Tick? {
      TickInputs(c, r, At(e.at), e.op.heatCall, e.op.coolCall, e.op.hasTemp);
    }
    hide Ticked, Checked, AppliedSettings, At;
  }

  lemma TickInputs(c: Config, r: Runtime, now: u32, heatCall: bool, coolCall: bool, hasTemp: bool)
    ensures var s := Ticked(c, r, now, heatCall, coolCall, hasTemp);
            && s.heartbeat == r.heartbeat && s.lockout == r.lockout && s.windowsOpen == r.windowsOpen
            && s.failsafe == WithFailsafe(c, r, now, hasTemp).failsafe
  {
    var a := WithFailsafe(c, r, now, hasTemp);
    var b := WithCalls(c, a, now, heatCall, coolCall);
    CallsKeep(c, a, now, heatCall, coolCall);
    CallsMove(c, a, now, heatCall, coolCall, Heating);
    MinutesKeepInputs(b, now);
    hide WithCalls, WithMinutes, FailsafeTimedOut, Moves;
  }

  lemma MinutesKeepInputs(r: Runtime, now: u32)
    ensures var s := WithMinutes(r, now);
            s.heartbeat == r.heartbeat && s.lockout == r.lockout && s.windowsOpen == r.windowsOpen
            && s.failsafe == r.failsafe
  {
    if r.minutes.last != 0 {
      CatchUpKeepsInputs(r, now);
    }
  }

  lemma {:induction false} CatchUpKeepsInputs(r: Runtime, now: u32)
    ensures var s := AfterMinutes(r, now);
            s.heartbeat == r.heartbeat && s.lockout == r.lockout && s.windowsOpen == r.windowsOpen
            && s.failsafe == r.failsafe
    decreases Since(now, r.minutes.last)
  {
    if Since(now, r.minutes.last) >= MINUTE {
      MinuteUses(now, r.minutes.last);
      CatchUpKeepsInputs(AfterMinute(r), now);
    }
    hide Since;
  }

  lemma {:induction false} RunInputs(c: Config, r: Runtime, events: seq<Event>, n: nat)
    requires n <= |events| && Booted(r)
    ensures var s := RuntimeAfter(c, r, events, n);
            && s.heartbeat == (match LastBeat(events, n) case NoBeat => 0 case Beat(at) => At(at))
            && s.lockout == LockedOutAt(events, n) && s.windowsOpen == WindowsOpenAt(events, n)
  {
    hide Stepped, At;
    if n > 0 {
      RunInputs(c, r, events, n - 1);
      EventInputs(c, RuntimeAfter(c, r, events, n - 1), events[n - 1]);
    }
  }

  /**
   The heartbeat is overdue at `t`. One that came when the clock read 0 counts as none, and without one
   the clock itself is the age.
   */
  predicate Overdue(c: Config, beat: Beat, t: nat) {
    (if beat == NoBeat || beat.at % U32 == 0 then t % U32 else (t - beat.at) % U32) > c.failsafeTimeout
  }

  /** Failsafe is on after a tick exactly when the tick had no temperature or the heartbeat is overdue. */
  lemma FailsafeExactly(c: Config, r: Runtime, events: seq<Event>, n: nat)
    requires n < |events| && events[n].op.Tick? && Booted(r)
    ensures var (s, e) := (RuntimeAfter(c, r, events, n + 1), events[n]);
            s.failsafe <==> !e.op.hasTemp || Overdue(c, LastBeat(events, n), e.at)
  {
    var (s, e) := (RuntimeAfter(c, r, events, n), events[n]);
    RunInputs(c, r, events, n);
    TickInputs(c, s, At(e.at), e.op.heatCall, e.op.coolCall, e.op.hasTemp);
    var beat := LastBeat(events, n);
    if beat.Beat? {
      ClockApart(e.at, beat.at);
    }
    hide Ticked, RuntimeAfter, LastBeat;
  }

  /** In true time, for ages below 2^32 ms: overdue is more than the timeout ago, or since the clock began. */
  lemma OverdueInTime(c: Config, beat: Beat, t: nat)
    ensures beat.Beat? && beat.at % U32 != 0 && beat.at <= t < beat.at + U32 ==>
              (Overdue(c, beat, t) <==> t - beat.at > c.failsafeTimeout)
    ensures beat.NoBeat? && t < U32 ==> (Overdue(c, beat, t) <==> t > c.failsafeTimeout)
  {
  }

  /** What makes a tick turn everything off: no temperature, an overdue heartbeat, or a lockout that is set. */
  predicate OffAtTick(c: Config, events: seq<Event>, n: nat)
    requires n < |events| && events[n].op.Tick?
  {
    !events[n].op.hasTemp || Overdue(c, LastBeat(events, n), events[n].at) || LockedOutAt(events, n)
  }

  lemma MustBeOffExactly(c: Config, r: Runtime, events: seq<Event>, n: nat)
    requires n < |events| && events[n].op.Tick? && Booted(r)
    ensures MustBeOff(RuntimeAfter(c, r, events, n + 1)) <==> OffAtTick(c, events, n)
  {
    FailsafeExactly(c, r, events, n);
    RunInputs(c, r, events, n);
    RunInputs(c, r, events, n + 1);
    hide RuntimeAfter, LastBeat, Overdue;
  }

  /** And then the backend has everything off at that very pass. */
  lemma OffReachesBackend(c: Config, wait: RelayInterlock.Config, r: Runtime, io: Io, events: seq<Event>, n: nat)
    requires RelayInterlock.Latched(io) && n < |events| && events[n].op.Tick? && Booted(r)
    requires OffAtTick(c, events, n)
    ensures var out := IoAfter(c, wait, r, io, events, n + 1).output; !out.heat && !out.cool && !out.fan && !out.spare
    ensures PhaseAt(c, r, events, n + 1) == Idle
  {
    MustBeOffExactly(c, r, events, n);
    EveryPassIsSafe(c, wait, r, io, events, n);
    ShownAfterTick(c, r, events, n);
    hide RuntimeAfter, IoAfter, OffAtTick, MustBeOff, RelayInterlock.Latched, RelayInterlock.AtMostOne,
         RelayInterlock.Within;
  }

  // ---- Equipment ----------------------------------------------------------------------

  predicate AllOff(r: Runtime) {
    r.equipment.phase == Idle && !r.relay.heat && !r.relay.cool && !r.relay.fan
  }

  lemma LockoutStep(c: Config, r: Runtime, e: Event)
    requires if e.op.SetLockout? then e.op.on else r.lockout && AllOff(r)
    ensures AllOff(Stepped(c, r, e))
  {
    if e.op.Tick? {
      TickMoves(c, r, At(e.at), e.op.heatCall, e.op.coolCall, e.op.hasTemp, Heating);
      hide Ticked, Moves;
    } else if e.op.Command? {
      CommandKeeps(r, e.op.cmd, e.op.mac);
      hide Commanded;
    }
    hide At;
  }

  /** From the moment a lockout is set, not only from the next tick, nothing runs until it is lifted. */
  lemma {:induction false} LockedOutMeansOff(c: Config, r: Runtime, events: seq<Event>, n: nat)
    requires n <= |events| && Booted(r) && LockedOutAt(events, n)
    ensures AllOff(RuntimeAfter(c, r, events, n))
  {
    hide Stepped, AllOff;
    var before: nat := n - 1;
    RunInputs(c, r, events, before);
    if !events[before].op.SetLockout? {
      LockedOutMeansOff(c, r, events, before);
    }
    LockoutStep(c, RuntimeAfter(c, r, events, before), events[before]);
  }

  /** Whether `p` is called for at a tick; cooling never is while windows are open. */
  predicate CalledFor(events: seq<Event>, n: nat, p: Phase)
    requires n < |events| && events[n].op.Tick?
  {
    if p == Heating then events[n].op.heatCall else events[n].op.coolCall && !WindowsOpenAt(events, n)
  }

  /** A run's age has reached its maximum, or its minimum with no call for more. */
  predicate RunIsOver(c: Config, p: Phase, age: nat, call: bool) {
    var (least, most) :=
      if p == Heating then (c.minHeatingRun, c.maxHeatingRun) else (c.minCoolingRun, c.maxCoolingRun);
    0 < most <= age || (least <= age && !call)
  }

  lemma CallsEnd(c: Config, r: Runtime, now: u32, heatCall: bool, coolCall: bool, p: Phase)
    requires p != Idle && r.equipment.phase == p
    ensures var call := if p == Heating then heatCall else coolCall && !r.windowsOpen;
            WithCalls(c, r, now, heatCall, coolCall).equipment.phase
            == if MustBeOff(r) || RunIsOver(c, p, Since(now, r.equipment.since), call) then Idle else p
  {
    hide Since;
  }

  lemma TickEnds(c: Config, r: Runtime, now: u32, heatCall: bool, coolCall: bool, hasTemp: bool, p: Phase)
    requires p != Idle && r.equipment.phase == p
    ensures var s := Ticked(c, r, now, heatCall, coolCall, hasTemp);
            var call := if p == Heating then heatCall else coolCall && !r.windowsOpen;
            s.equipment.phase
            == if MustBeOff(s) || RunIsOver(c, p, Since(now, r.equipment.since), call) then Idle else p
  {
    var a := WithFailsafe(c, r, now, hasTemp);
    var b := WithCalls(c, a, now, heatCall, coolCall);
    TickInputs(c, r, now, heatCall, coolCall, hasTemp);
    CallsEnd(c, a, now, heatCall, coolCall, p);
    TickPhase(c, r, now, heatCall, coolCall, hasTemp);
    hide Ticked, WithCalls, FailsafeTimedOut, RunIsOver, Since;
  }

  /** Minutes and interlock leave the phase that the calls decided. */
  lemma TickPhase(c: Config, r: Runtime, now: u32, heatCall: bool, coolCall: bool, hasTemp: bool)
    ensures Ticked(c, r, now, heatCall, coolCall, hasTemp).equipment
            == WithCalls(c, WithFailsafe(c, r, now, hasTemp), now, heatCall, coolCall).equipment
  {
    var a := WithFailsafe(c, r, now, hasTemp);
    var b := WithCalls(c, a, now, heatCall, coolCall);
    CallsMove(c, a, now, heatCall, coolCall, Heating);
    MinutesKeep(b, now);
    hide WithCalls, WithMinutes, FailsafeTimedOut, Moves;
    InterlockKeeps(WithMinutes(b, now), now);
    hide Interlocked, Shows;
  }

  /**
   At a tick a run of `p`, begun at event `s`, ends exactly when everything must be off, when its age has
   reached the maximum, or when it has reached the minimum and `p` is not called for.
   */
  lemma RunEndsExactly(c: Config, r: Runtime, events: seq<Event>, p: Phase, s: nat, n: nat)
    requires p != Idle && s < n < |events| && Ordered(events) && events[n].op.Tick? && Booted(r)
    requires Starts(c, r, events, p, s) && forall k :: s < k <= n ==> PhaseAt(c, r, events, k) == p
    ensures var age := (events[n].at - events[s].at) % U32;
            PhaseAt(c, r, events, n + 1)
            == if OffAtTick(c, events, n) || RunIsOver(c, p, age, CalledFor(events, n, p)) then Idle else p
    ensures events[n].at < events[s].at + U32 ==> (events[n].at - events[s].at) % U32 == events[n].at - events[s].at
  {
    var (before, e) := (RuntimeAfter(c, r, events, n), events[n]);
    assert PhaseAt(c, r, events, n) == p;
    MustBeOffExactly(c, r, events, n);
    RunSince(c, r, events, p, s, n);
    RunInputs(c, r, events, n);
    SinceIsElapsed(e.at, events[s].at);
    TickEnds(c, before, At(e.at), e.op.heatCall, e.op.coolCall, e.op.hasTemp, p);
    assert RuntimeAfter(c, r, events, n + 1) == Ticked(c, before, At(e.at), e.op.heatCall, e.op.coolCall, e.op.hasTemp);
    hide Ticked, RuntimeAfter, OffAtTick, RunIsOver, MustBeOff, At, Since;
  }

  /** The idle time and the rest of `p` are over, by the ages of their stamps. */
  predicate Rested(c: Config, e: Equipment, now: u32, p: Phase) {
    var (off, rest) := if p == Heating then (e.heatingOff, c.minHeatingOff) else (e.coolingOff, c.minCoolingOff);
    && Since(now, e.since) >= c.minIdle
    && ((if p == Heating then e.hasHeatingOff else e.hasCoolingOff) ==> Since(now, off) >= rest)
  }

  /**
   Idle equipment starts only when called for: heating when it has rested, cooling when it has and heating
   does not start. It is waiting when something called for has to rest first.
   */
  lemma TickStartsExactly(c: Config, r: Runtime, now: u32, heatCall: bool, coolCall: bool, hasTemp: bool)
    requires r.equipment.phase == Idle
    ensures var s := Ticked(c, r, now, heatCall, coolCall, hasTemp);
            var cool := coolCall && !r.windowsOpen;
            && s.equipment.phase
               == (if MustBeOff(s) then Idle
                   else if heatCall && Rested(c, r.equipment, now, Heating) then Heating
                   else if cool && Rested(c, r.equipment, now, Cooling) then Cooling
                   else Idle)
            && (s.equipment.delayed <==>
                  !MustBeOff(s) && s.equipment.phase == Idle && (heatCall || cool))
  {
    var a := WithFailsafe(c, r, now, hasTemp);
    TickInputs(c, r, now, heatCall, coolCall, hasTemp);
    TickPhase(c, r, now, heatCall, coolCall, hasTemp);
    CallsStart(c, a, now, heatCall, coolCall);
    hide Ticked, WithCalls, FailsafeTimedOut, Rested;
  }

  lemma CallsStart(c: Config, r: Runtime, now: u32, heatCall: bool, coolCall: bool)
    requires r.equipment.phase == Idle
    ensures var e := WithCalls(c, r, now, heatCall, coolCall).equipment;
            var cool := coolCall && !r.windowsOpen;
            && e.phase == (if MustBeOff(r) then Idle
                           else if heatCall && Rested(c, r.equipment, now, Heating) then Heating
                           else if cool && Rested(c, r.equipment, now, Cooling) then Cooling
                           else Idle)
            && (e.delayed <==> !MustBeOff(r) && e.phase == Idle && (heatCall || cool))
  {
    hide Since;
  }

  /** In a run: only at ticks that call for it, and only when nothing must be off. */
  lemma StartsOnlyWhenCalled(c: Config, r: Runtime, events: seq<Event>, p: Phase, n: nat)
    requires p != Idle && n < |events| && Booted(r) && Starts(c, r, events, p, n)
    ensures events[n].op.Tick? && CalledFor(events, n, p) && !OffAtTick(c, events, n)
  {
    EventMoves(c, r, events, n, p);
    RunInputs(c, r, events, n);
    var (s, e) := (RuntimeAfter(c, r, events, n), events[n]);
    assert RuntimeAfter(c, r, events, n + 1) == Stepped(c, s, e);
    assert e.op.Tick? && s.equipment.phase == Idle;
    hide RuntimeAfter, Moves, SameOff;
    MustBeOffExactly(c, r, events, n);
    TickStartsExactly(c, s, At(e.at), e.op.heatCall, e.op.coolCall, e.op.hasTemp);
    hide Ticked, OffAtTick, Rested, At;
  }

  // ---- The maximum-run flag -----------------------------------------------------------

  lemma CallsFlag(c: Config, r: Runtime, now: u32, heatCall: bool, coolCall: bool)
    ensures var (e, f, off) := (r.equipment, WithCalls(c, r, now, heatCall, coolCall).equipment, MustBeOff(r));
            var most := if e.phase == Heating then c.maxHeatingRun else c.maxCoolingRun;
            f.maxExceeded
            == if !off && e.phase != Idle && 0 < most <= Since(now, e.since) then true
               else if e.phase == Idle && f.phase != Idle then false
               else e.maxExceeded
  {
    hide Since;
  }

  /**
   The flag published for a run cut short: a tick sets it exactly when it ends a run that has reached its
   maximum, and clears it when it starts one; otherwise only a command that changes the mode clears it.
   */
  lemma FlagExactly(c: Config, r: Runtime, events: seq<Event>, n: nat)
    requires n < |events| && Booted(r)
    ensures var (s, t, e) := (RuntimeAfter(c, r, events, n), RuntimeAfter(c, r, events, n + 1), events[n]);
            var most := if s.equipment.phase == Heating then c.maxHeatingRun else c.maxCoolingRun;
            t.equipment.maxExceeded
            == if e.op.Tick? then
                 if !OffAtTick(c, events, n) && s.equipment.phase != Idle
                    && 0 < most <= Since(At(e.at), s.equipment.since)
                 then true
                 else if s.equipment.phase == Idle && t.equipment.phase != Idle then false
                 else s.equipment.maxExceeded
               else s.equipment.maxExceeded && !(e.op.Command? && t.settings.mode != s.settings.mode)
  {
    var (s, e) := (RuntimeAfter(c, r, events, n), events[n]);
    if e.op.Tick? {
      var a := WithFailsafe(c, s, At(e.at), e.op.hasTemp);
      TickPhase(c, s, At(e.at), e.op.heatCall, e.op.coolCall, e.op.hasTemp);
      TickInputs(c, s, At(e.at), e.op.heatCall, e.op.coolCall, e.op.hasTemp);
      CallsFlag(c, a, At(e.at), e.op.heatCall, e.op.coolCall);
      MustBeOffExactly(c, r, events, n);
      hide Ticked, WithCalls, FailsafeTimedOut, OffAtTick, Since, At;
    } else {
      OtherFlag(c, s, e);
    }
    hide RuntimeAfter, Stepped;
  }

  lemma OtherFlag(c: Config, r: Runtime, e: Event)
    requires !e.op.Tick?
    ensures var s := Stepped(c, r, e);
            s.equipment.maxExceeded
            == (r.equipment.maxExceeded && !(e.op.Command? && s.settings.mode != r.settings.mode))
  {
    hide Ticked, Checked, At;
  }
}
