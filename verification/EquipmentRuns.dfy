/**
 Heating and cooling over whole runs of the controller: how long equipment rests between two
 runs, when a run may end early, and how long it can last, all in true time.
 */
module EquipmentRuns {
  import opened Clock
  import opened CommandWords
  import opened HvacRuntime

  /** What can happen to the runtime; `at` is true time. */
  datatype Op =
    | Tick(heatCall: bool, coolCall: bool, hasTemp: bool)
    | SetLockout(on: bool)
    | SetWindows(open: bool)
    | Heartbeat
    | Command(cmd: CommandWord, mac: seq<bv8>)
    | Forget
    | SetSetpoints(heat: int, cool: int)
    | SetCirculation(period: u16, duration: u16)

  datatype Event = Event(at: nat, op: Op)

  function Stepped(c: Config, r: Runtime, e: Event): Runtime {
    match e.op
    case Tick(heatCall, coolCall, hasTemp) => Ticked(c, r, At(e.at), heatCall, coolCall, hasTemp)
    case SetLockout(on) => LockedOut(r, on)
    case SetWindows(open) => r.(windowsOpen := open)
    case Heartbeat => r.(heartbeat := At(e.at))
    case Command(cmd, mac) => Commanded(r, cmd, mac).0
    case Forget => Forgotten(r)
    case SetSetpoints(heat, cool) => r.(settings := r.settings.(heatSetpoint := heat, coolSetpoint := cool))
    case SetCirculation(period, duration) => r.(minutes := r.minutes.(period := period, duration := duration))
  }

  /** The runtime after the first `n` events. */
  function RuntimeAfter(c: Config, r: Runtime, events: seq<Event>, n: nat): Runtime
    requires n <= |events|
  {
    if n == 0 then r else Stepped(c, RuntimeAfter(c, r, events, n - 1), events[n - 1])
  }

  predicate Ordered(events: seq<Event>) {
    forall i, j :: 0 <= i <= j < |events| ==> events[i].at <= events[j].at
  }

  // ---- Heating and cooling alike ------------------------------------------------------

  predicate HasOff(e: Equipment, p: Phase) {
    if p == Heating then e.hasHeatingOff else e.hasCoolingOff
  }

  function OffAt(e: Equipment, p: Phase): u32 {
    if p == Heating then e.heatingOff else e.coolingOff
  }

  function MinOff(c: Config, p: Phase): u32 {
    if p == Heating then c.minHeatingOff else c.minCoolingOff
  }

  function MinRun(c: Config, p: Phase): u32 {
    if p == Heating then c.minHeatingRun else c.minCoolingRun
  }

  function MaxRun(c: Config, p: Phase): u32 {
    if p == Heating then c.maxHeatingRun else c.maxCoolingRun
  }

  predicate SameOff(e: Equipment, f: Equipment, p: Phase) {
    HasOff(e, p) == HasOff(f, p) && OffAt(e, p) == OffAt(f, p)
  }

  predicate Ready(c: Config, e: Equipment, now: u32, p: Phase) {
    if p == Heating then HeatReady(c, e, now) else CoolReady(c, e, now)
  }

  /** What the part of a tick that runs the equipment may do to it. */
  ghost predicate Moves(c: Config, e: Equipment, f: Equipment, p: Phase, now: u32, off: bool, call: bool) {
    if f.phase == p && e.phase != p then
      e.phase == Idle && !off && f.since == now && SameOff(e, f, p) && Ready(c, e, now, p)
    else if f.phase == p then
      !off && f.since == e.since && SameOff(e, f, p) && (MaxRun(c, p) > 0 ==> !Elapsed(now, e.since, MaxRun(c, p)))
    else if e.phase == p then
      && f.phase == Idle && f.since == now && HasOff(f, p) && OffAt(f, p) == now
      && (off || (MaxRun(c, p) > 0 && Elapsed(now, e.since, MaxRun(c, p))) ||
          (!call && Elapsed(now, e.since, MinRun(c, p))))
    else
      SameOff(e, f, p) && (f.phase == Idle && e.phase == Idle ==> f.since == if off then now else e.since)
  }

  /** The relays say which equipment runs. */
  predicate Shows(r: Runtime) {
    && (r.relay.heat <==> r.equipment.phase == Heating)
    && (r.relay.cool <==> r.equipment.phase == Cooling)
  }

  predicate SameGuards(r: Runtime, s: Runtime) {
    r.failsafe == s.failsafe && r.lockout == s.lockout
  }

  lemma FanKeeps(r: Runtime)
    ensures WithFan(r).equipment == r.equipment && SameGuards(r, WithFan(r)) && (Shows(r) ==> Shows(WithFan(r)))
  {
  }

  lemma OffMoves(c: Config, r: Runtime, now: u32, p: Phase, call: bool)
    requires p != Idle && MustBeOff(r)
    ensures var s := Idled(r, now);
            && Moves(c, r.equipment, s.equipment.(delayed := false), p, now, true, call) && SameGuards(r, s) && Shows(s)
            && s.equipment.phase == Idle && s.equipment.since == now
  {
    hide Elapsed;
  }

  lemma HeatingMoves(c: Config, r: Runtime, now: u32, heatCall: bool, coolCall: bool, p: Phase)
    requires p != Idle && r.equipment.phase == Heating
    ensures var s := FromHeating(c, r, now, heatCall);
            Moves(c, r.equipment, s.equipment, p, now, false, if p == Heating then heatCall else coolCall)
            && SameGuards(r, s) && Shows(s)
  {
    hide Elapsed;
  }

  lemma CoolingMoves(c: Config, r: Runtime, now: u32, heatCall: bool, coolCall: bool, p: Phase)
    requires p != Idle && r.equipment.phase == Cooling
    ensures var s := FromCooling(c, r, now, coolCall);
            Moves(c, r.equipment, s.equipment, p, now, false, if p == Heating then heatCall else coolCall)
            && SameGuards(r, s) && Shows(s)
  {
    hide Elapsed;
  }

  lemma HeatStartMoves(c: Config, r: Runtime, now: u32, call: bool, p: Phase)
    requires p != Idle && r.equipment.phase == Idle && HeatReady(c, r.equipment, now)
    ensures var s := HeatingFrom(r, now);
            Moves(c, r.equipment, s.equipment, p, now, false, call) && SameGuards(r, s) && Shows(s)
  {
    hide Elapsed, HeatReady, CoolReady;
  }

  lemma CoolStartMoves(c: Config, r: Runtime, now: u32, call: bool, p: Phase)
    requires p != Idle && r.equipment.phase == Idle && CoolReady(c, r.equipment, now)
    ensures var s := CoolingFrom(r, now);
            Moves(c, r.equipment, s.equipment, p, now, false, call) && SameGuards(r, s) && Shows(s)
  {
    hide Elapsed, HeatReady, CoolReady;
  }

  lemma StayIdleMoves(c: Config, r: Runtime, now: u32, heatCall: bool, coolCall: bool, call: bool, p: Phase)
    requires p != Idle && r.equipment.phase == Idle
    requires !(heatCall && HeatReady(c, r.equipment, now)) && !(coolCall && CoolReady(c, r.equipment, now))
    ensures var s := FromIdle(c, r, now, heatCall, coolCall);
            Moves(c, r.equipment, s.equipment, p, now, false, call) && SameGuards(r, s) && Shows(s)
  {
    hide Elapsed, Ready, HeatReady, CoolReady, HeatingFrom, CoolingFrom;
  }

  lemma IdleMoves(c: Config, r: Runtime, now: u32, heatCall: bool, coolCall: bool, p: Phase)
    requires p != Idle && r.equipment.phase == Idle
    ensures var s := FromIdle(c, r, now, heatCall, coolCall);
            Moves(c, r.equipment, s.equipment, p, now, false, if p == Heating then heatCall else coolCall)
            && SameGuards(r, s) && Shows(s)
  {
    hide HeatReady, CoolReady, Moves, Shows, HeatingFrom, CoolingFrom, SameGuards;
    var call := if p == Heating then heatCall else coolCall;
    if heatCall && HeatReady(c, r.equipment, now) {
      HeatStartMoves(c, r, now, call, p);
    } else if coolCall && CoolReady(c, r.equipment, now) {
      CoolStartMoves(c, r, now, call, p);
    } else {
      StayIdleMoves(c, r, now, heatCall, coolCall, call, p);
    }
  }

  lemma CallsMove(c: Config, r: Runtime, now: u32, heatCall: bool, coolCall: bool, p: Phase)
    requires p != Idle
    ensures var s := WithCalls(c, r, now, heatCall, coolCall);
            && Moves(c, r.equipment, s.equipment, p, now, MustBeOff(r),
                     if p == Heating then heatCall else coolCall && !r.windowsOpen)
            && SameGuards(r, s) && Shows(s)
            && (MustBeOff(r) ==> s.equipment.phase == Idle && s.equipment.since == now && !s.relay.fan)
  {
    var cool := coolCall && !r.windowsOpen;
    if MustBeOff(r) {
      OffMoves(c, r, now, p, if p == Heating then heatCall else cool);
    } else {
      match r.equipment.phase
      case Heating => HeatingMoves(c, r, now, heatCall, cool, p); FanKeeps(FromHeating(c, r, now, heatCall));
      case Cooling => CoolingMoves(c, r, now, heatCall, cool, p); FanKeeps(FromCooling(c, r, now, cool));
      case Idle => IdleMoves(c, r, now, heatCall, cool, p); FanKeeps(FromIdle(c, r, now, heatCall, cool));
    }
    hide Elapsed, Moves, FromHeating, FromCooling, FromIdle, WithFan, Idled;
  }

  /** The equipment is all that its calls are about: they change nothing else, and the fan only to run something. */
  predicate KeepsRest(r: Runtime, s: Runtime) {
    && s.settings == r.settings && s.minutes == r.minutes && s.spareRelay == r.spareRelay
    && s.heartbeat == r.heartbeat && s.windowsOpen == r.windowsOpen && s.relay.spare == r.relay.spare
    && (s.equipment.phase == Idle ==> s.relay.fan == r.relay.fan)
  }

  lemma HeatingKeeps(c: Config, r: Runtime, now: u32, heatCall: bool)
    ensures KeepsRest(r, FromHeating(c, r, now, heatCall))
  {
    hide Elapsed;
  }

  lemma CoolingKeeps(c: Config, r: Runtime, now: u32, coolCall: bool)
    ensures KeepsRest(r, FromCooling(c, r, now, coolCall))
  {
    hide Elapsed;
  }

  lemma IdleKeeps(c: Config, r: Runtime, now: u32, heatCall: bool, coolCall: bool)
    ensures KeepsRest(r, FromIdle(c, r, now, heatCall, coolCall))
  {
    hide HeatReady, CoolReady;
  }

  lemma OffKeeps(r: Runtime, now: u32)
    ensures KeepsRest(r, Idled(r, now))
  {
  }

  /** The calls change nothing but equipment, relays and the fan, which follows its mode. */
  lemma CallsKeep(c: Config, r: Runtime, now: u32, heatCall: bool, coolCall: bool)
    ensures var s := WithCalls(c, r, now, heatCall, coolCall);
            && s.settings == r.settings && s.minutes == r.minutes && s.spareRelay == r.spareRelay
            && s.heartbeat == r.heartbeat && s.windowsOpen == r.windowsOpen && s.relay.spare == r.relay.spare
            && (MustBeOff(r) ==> !s.relay.fan)
            && (!MustBeOff(r) && s.equipment.phase == Idle && r.settings.fan == Circulate ==>
                s.relay.fan == r.relay.fan)
            && (!MustBeOff(r) && !r.spareRelay && r.settings.fan != Circulate ==>
                  (s.relay.fan <==> r.settings.fan == AlwaysOn))
  {
    var cool := coolCall && !r.windowsOpen;
    hide FromHeating, FromCooling, FromIdle, Idled, WithFan;
    if MustBeOff(r) {
      OffKeeps(r, now);
    } else {
      HeatingKeeps(c, r, now, heatCall);
      CoolingKeeps(c, r, now, cool);
      IdleKeeps(c, r, now, heatCall, cool);
      FanFollowsMode(match r.equipment.phase
                     case Heating => FromHeating(c, r, now, heatCall)
                     case Cooling => FromCooling(c, r, now, cool)
                     case Idle => FromIdle(c, r, now, heatCall, cool));
    }
  }

  lemma FanFollowsMode(r: Runtime)
    ensures var s := WithFan(r);
            && s == r.(relay := r.relay.(fan := s.relay.fan))
            && (r.settings.fan == Circulate ==> s == r)
            && (!r.spareRelay && r.settings.fan != Circulate ==> (s.relay.fan <==> r.settings.fan == AlwaysOn))
  {
  }

  lemma {:induction false} MinutesKeep(r: Runtime, now: u32)
    ensures var s := WithMinutes(r, now);
            && s.equipment == r.equipment && SameGuards(r, s)
            && s.relay.heat == r.relay.heat && s.relay.cool == r.relay.cool
  {
    if r.minutes.last != 0 {
      CatchUpKeeps(r, now);
    }
  }

  lemma {:induction false} CatchUpKeeps(r: Runtime, now: u32)
    ensures var s := AfterMinutes(r, now);
            && s.equipment == r.equipment && SameGuards(r, s)
            && s.relay.heat == r.relay.heat && s.relay.cool == r.relay.cool
    decreases Since(now, r.minutes.last)
  {
    if Since(now, r.minutes.last) >= MINUTE {
      MinuteUses(now, r.minutes.last);
      CatchUpKeeps(AfterMinute(r), now);
    }
    hide Since;
  }

  /** A tick: the equipment moves as allowed, the relays follow it, and it is idle when it must be off. */
  lemma TickMoves(c: Config, r: Runtime, now: u32, heatCall: bool, coolCall: bool, hasTemp: bool, p: Phase)
    requires p != Idle
    ensures var s := Ticked(c, r, now, heatCall, coolCall, hasTemp);
            && Moves(c, r.equipment, s.equipment, p, now, MustBeOff(s),
                     if p == Heating then heatCall else coolCall && !r.windowsOpen)
            && s.lockout == r.lockout && Shows(s)
            && (MustBeOff(s) ==> s.equipment.phase == Idle && s.equipment.since == now && !s.relay.fan)
  {
    var a := WithFailsafe(c, r, now, hasTemp);
    var b := WithCalls(c, a, now, heatCall, coolCall);
    CallsMove(c, a, now, heatCall, coolCall, p);
    MinutesKeep(b, now);
    hide WithCalls, WithMinutes, Elapsed, FailsafeTimedOut, Moves;
    InterlockKeeps(WithMinutes(b, now), now);
    hide Interlocked, Shows;
  }

  lemma InterlockKeeps(r: Runtime, now: u32)
    requires Shows(r) && (MustBeOff(r) ==> r.equipment.phase == Idle && r.equipment.since == now)
    ensures var s := Interlocked(r, now);
            s.equipment == r.equipment && SameGuards(r, s) && Shows(s) && (MustBeOff(r) ==> !s.relay.fan)
  {
  }

  /** Any other event leaves the timers alone, and stops equipment only by a lockout. */
  lemma OtherMoves(c: Config, r: Runtime, e: Event, p: Phase)
    requires !e.op.Tick?
    ensures var s := Stepped(c, r, e);
            && s.equipment.since == r.equipment.since && SameOff(r.equipment, s.equipment, p)
            && s.equipment.phase == if e.op == SetLockout(true) then Idle else r.equipment.phase
  {
    if e.op.Command? {
      CommandKeeps(r, e.op.cmd, e.op.mac);
    }
    hide Ticked, Commanded;
  }

  /** A command changes neither the equipment's timers nor its phase, nor the relays. */
  predicate KeepsEquipment(r: Runtime, s: Runtime) {
    && s.lockout == r.lockout && s.failsafe == r.failsafe && s.relay == r.relay
    && s.equipment == r.equipment.(maxExceeded := s.equipment.maxExceeded)
  }

  lemma CommandKeeps(r: Runtime, cmd: CommandWord, mac: seq<bv8>)
    ensures KeepsEquipment(r, Commanded(r, cmd, mac).0)
  {
    AppliedKeeps(r.(tracking := Checked(r.tracking, cmd, mac).0), cmd);
    hide Checked, Applied;
  }

  lemma AppliedKeeps(r: Runtime, cmd: CommandWord)
    ensures KeepsEquipment(r, Applied(r, cmd))
  {
    hide AppliedSettings;
  }

  // ---- Whole runs ---------------------------------------------------------------------

  function PhaseAt(c: Config, r: Runtime, events: seq<Event>, n: nat): Phase
    requires n <= |events|
  {
    RuntimeAfter(c, r, events, n).equipment.phase
  }

  function CallOf(op: Op, windowsOpen: bool, p: Phase): bool
    requires op.Tick?
  {
    if p == Heating then op.heatCall else op.coolCall && !windowsOpen
  }

  /** What event `n` does to the equipment. */
  lemma EventMoves(c: Config, r: Runtime, events: seq<Event>, n: nat, p: Phase)
    requires n < |events| && p != Idle
    ensures var (s, t, e) := (RuntimeAfter(c, r, events, n), RuntimeAfter(c, r, events, n + 1), events[n]);
            if e.op.Tick? then
              Moves(c, s.equipment, t.equipment, p, At(e.at), MustBeOff(t), CallOf(e.op, s.windowsOpen, p))
            else
              && t.equipment.since == s.equipment.since && SameOff(s.equipment, t.equipment, p)
              && t.equipment.phase == if e.op == SetLockout(true) then Idle else s.equipment.phase
  {
    var (s, e) := (RuntimeAfter(c, r, events, n), events[n]);
    if e.op.Tick? {
      TickMoves(c, s, At(e.at), e.op.heatCall, e.op.coolCall, e.op.hasTemp, p);
    } else {
      OtherMoves(c, s, e, p);
    }
    hide Ticked, LockedOut, Commanded, Forgotten, At, Moves, SameOff;
  }

  predicate Starts(c: Config, r: Runtime, events: seq<Event>, p: Phase, n: nat)
    requires n < |events|
  {
    PhaseAt(c, r, events, n) != p && PhaseAt(c, r, events, n + 1) == p
  }

  predicate Ends(c: Config, r: Runtime, events: seq<Event>, p: Phase, n: nat)
    requires n < |events|
  {
    PhaseAt(c, r, events, n) == p && PhaseAt(c, r, events, n + 1) != p
  }

  /** Once a tick has ended a run, the off time is that of a tick no earlier. */
  lemma {:induction false} OffTimeOf(c: Config, r: Runtime, events: seq<Event>, p: Phase, i: nat, n: nat)
    returns (k: nat)
    requires p != Idle && i < n <= |events| && events[i].op.Tick? && Ends(c, r, events, p, i)
    ensures i <= k < n
    ensures var e := RuntimeAfter(c, r, events, n).equipment; HasOff(e, p) && OffAt(e, p) == At(events[k].at)
  {
    hide Elapsed, At, RuntimeAfter, Stepped;
    EventMoves(c, r, events, n - 1, p);
    if n == i + 1 || (events[n - 1].op.Tick? && Ends(c, r, events, p, n - 1)) {
      k := n - 1;
    } else {
      k := OffTimeOf(c, r, events, p, i, n - 1);
    }
  }

  /** Equipment whose run a tick ended rests for at least its minimum off time, whatever comes between. */
  lemma RestAfterRun(c: Config, r: Runtime, events: seq<Event>, p: Phase, i: nat, j: nat)
    requires p != Idle && i < j < |events| && Ordered(events)
    requires events[i].op.Tick? && Ends(c, r, events, p, i) && Starts(c, r, events, p, j)
    ensures events[j].at - events[i].at >= MinOff(c, p)
  {
    var k := OffTimeOf(c, r, events, p, i, j);
    EventMoves(c, r, events, j, p);
    SinceIsElapsed(events[j].at, events[k].at);
    hide RuntimeAfter, At, Since, SameOff, HasOff, OffAt, MinOff, MinRun, MaxRun, MustBeOff;
  }

  /** From the start of a run on, the state's time stamp is that of the starting tick. */
  lemma {:induction false} RunSince(c: Config, r: Runtime, events: seq<Event>, p: Phase, s: nat, n: nat)
    requires p != Idle && s < n <= |events| && Starts(c, r, events, p, s)
    requires forall k :: s < k <= n ==> PhaseAt(c, r, events, k) == p
    ensures events[s].op.Tick? && RuntimeAfter(c, r, events, n).equipment.since == At(events[s].at)
  {
    hide Elapsed, At, RuntimeAfter, SameOff, HasOff, OffAt, Stepped;
    EventMoves(c, r, events, n - 1, p);
    if n > s + 1 {
      RunSince(c, r, events, p, s, n - 1);
      assert PhaseAt(c, r, events, n - 1) == p;
    }
    assert PhaseAt(c, r, events, n) == p;
  }

  /**
   A run ends by a lockout between ticks, or at a tick: because everything must be off, because the
   maximum run has passed, or because the minimum run has passed and nothing calls for more.
   */
  lemma WhyRunsEnd(c: Config, r: Runtime, events: seq<Event>, p: Phase, s: nat, n: nat)
    requires p != Idle && s < n < |events| && Ordered(events)
    requires Starts(c, r, events, p, s) && Ends(c, r, events, p, n)
    requires forall k :: s < k <= n ==> PhaseAt(c, r, events, k) == p
    ensures var (ran, op, t) := (events[n].at - events[s].at, events[n].op, RuntimeAfter(c, r, events, n + 1));
            || op == SetLockout(true)
            || (op.Tick? && MustBeOff(t))
            || (op.Tick? && 0 < MaxRun(c, p) <= ran)
            || (op.Tick? && MinRun(c, p) <= ran && !CallOf(op, RuntimeAfter(c, r, events, n).windowsOpen, p))
  {
    EventMoves(c, r, events, n, p);
    RunSince(c, r, events, p, s, n);
    SinceIsElapsed(events[n].at, events[s].at);
    hide RuntimeAfter, At, Since, SameOff, HasOff, OffAt, MinOff, MinRun, MaxRun, MustBeOff, CallOf;
  }

  /** The time of the last tick among the first `n` events from `s` on, or that of event `s`. */
  function LastTick(events: seq<Event>, s: nat, n: nat): nat
    requires s < n <= |events|
  {
    if n == s + 1 || events[n - 1].op.Tick? then events[n - 1].at else LastTick(events, s, n - 1)
  }

  /** No event comes more than `gap` after the last tick before it. */
  predicate TicksWithin(events: seq<Event>, gap: nat) {
    forall s, n :: 0 <= s < n < |events| ==> events[n].at - LastTick(events, s, n) <= gap
  }

  /** At every tick a run lasts through, the maximum run has not passed yet. */
  lemma {:induction false} RunningAtTick(c: Config, r: Runtime, events: seq<Event>, p: Phase, s: nat, n: nat, gap: nat)
    requires p != Idle && s < n <= |events| && Ordered(events) && Starts(c, r, events, p, s)
    requires forall k :: s < k <= n ==> PhaseAt(c, r, events, k) == p
    requires 0 < MaxRun(c, p) && MaxRun(c, p) + gap < U32 && TicksWithin(events, gap)
    ensures 0 <= LastTick(events, s, n) - events[s].at < MaxRun(c, p)
  {
    hide RuntimeAfter, At, SameOff, HasOff, OffAt, MinOff, MinRun, MaxRun, MustBeOff, CallOf, Starts, Stepped;
    if n > s + 1 {
      RunningAtTick(c, r, events, p, s, n - 1, gap);
      if events[n - 1].op.Tick? {
        EventMoves(c, r, events, n - 1, p);
        RunSince(c, r, events, p, s, n - 1);
        assert PhaseAt(c, r, events, n - 1) == p == PhaseAt(c, r, events, n);
        assert events[n - 1].at - LastTick(events, s, n - 1) <= gap;
        SinceIsElapsed(events[n - 1].at, events[s].at);
      }
    }
  }

  /** With ticks at most `gap` apart, no run lasts as long as the maximum run and `gap`. */
  lemma RunsAreBounded(c: Config, r: Runtime, events: seq<Event>, p: Phase, s: nat, n: nat, gap: nat)
    requires p != Idle && s < n < |events| && Ordered(events) && Starts(c, r, events, p, s)
    requires forall k :: s < k <= n ==> PhaseAt(c, r, events, k) == p
    requires 0 < MaxRun(c, p) && MaxRun(c, p) + gap < U32 && TicksWithin(events, gap)
    ensures events[n].at - events[s].at < MaxRun(c, p) + gap
    ensures events[n].op.Tick? && events[n].at - events[s].at >= MaxRun(c, p) ==> PhaseAt(c, r, events, n + 1) == Idle
  {
    RunningAtTick(c, r, events, p, s, n, gap);
    assert events[n].at - LastTick(events, s, n) <= gap;
    EventMoves(c, r, events, n, p);
    RunSince(c, r, events, p, s, n);
    assert PhaseAt(c, r, events, n) == p;
    SinceIsElapsed(events[n].at, events[s].at);
    hide RuntimeAfter, At, Since, SameOff, HasOff, OffAt, MinOff, MinRun, MaxRun, MustBeOff, CallOf, Starts;
  }

  /** A tick that starts equipment, its guards met. */
  lemma ReadyStarts(c: Config, r: Runtime, now: u32, p: Phase)
    requires p != Idle && r.equipment.phase == Idle && !r.lockout && (p == Cooling ==> !r.windowsOpen)
    requires !FailsafeTimedOut(now, r.heartbeat, c.failsafeTimeout)
    requires Ready(c, r.equipment, now, p)
    ensures Ticked(c, r, now, p == Heating, p == Cooling, true).equipment.phase == p
  {
    hide FailsafeTimedOut, Elapsed;
    var a := WithFailsafe(c, r, now, true);
    var b := WithCalls(c, a, now, p == Heating, p == Cooling);
    CallsMove(c, a, now, p == Heating, p == Cooling, p);
    assert b.equipment.phase == p;
    MinutesKeep(b, now);
    hide WithCalls, WithMinutes, Moves;
    InterlockKeeps(WithMinutes(b, now), now);
  }

  /** Equipment is ready exactly when the ages of both stamps, mod 2^32, have reached their limits. */
  lemma ReadyExactly(c: Config, e: Equipment, p: Phase, since: nat, off: nat, t: nat)
    requires p != Idle && since <= t && e.since == At(since) && (HasOff(e, p) ==> off <= t && OffAt(e, p) == At(off))
    ensures Ready(c, e, At(t), p)
      <==> (t - since) % U32 >= c.minIdle && (HasOff(e, p) ==> (t - off) % U32 >= MinOff(c, p))
  {
    SinceIsElapsed(t, since);
    if HasOff(e, p) {
      SinceIsElapsed(t, off);
    }
    hide At, Since;
  }

  /**
   Equipment is not kept off longer than its limits either: called for alone, with nothing that must be
   off, it starts at a tick exactly when the idle and off times have passed. The clock only has their
   residues, so for 49.7 days that is the true time, and then an old stamp puts a start off once more.
   */
  lemma StartsExactlyWhenRested(c: Config, r: Runtime, p: Phase, since: nat, off: nat, t: nat)
    requires p != Idle && r.equipment.phase == Idle && !r.lockout && (p == Cooling ==> !r.windowsOpen)
    requires !FailsafeTimedOut(At(t), r.heartbeat, c.failsafeTimeout)
    requires since <= t && r.equipment.since == At(since)
    requires HasOff(r.equipment, p) ==> off <= t && OffAt(r.equipment, p) == At(off)
    ensures Ticked(c, r, At(t), p == Heating, p == Cooling, true).equipment.phase == p
      <==> (t - since) % U32 >= c.minIdle && (HasOff(r.equipment, p) ==> (t - off) % U32 >= MinOff(c, p))
    ensures t - since < U32 ==> (t - since) % U32 == t - since
    ensures t - off < U32 && off <= t ==> (t - off) % U32 == t - off
  {
    hide Ticked, Ready, FailsafeTimedOut, At, MinOff, HasOff, OffAt, SameOff;
    ReadyExactly(c, r.equipment, p, since, off, t);
    if Ready(c, r.equipment, At(t), p) {
      ReadyStarts(c, r, At(t), p);
    } else {
      TickMoves(c, r, At(t), p == Heating, p == Cooling, true, p);
    }
  }

  // ---- Time stamps and continuations --------------------------------------------------

  /** The state's time stamp is that of some tick since. */
  lemma {:induction false} SinceOfTick(c: Config, r: Runtime, events: seq<Event>, i: nat, n: nat) returns (m: nat)
    requires i < n <= |events| && RuntimeAfter(c, r, events, i + 1).equipment.since == At(events[i].at)
    ensures i <= m < n && RuntimeAfter(c, r, events, n).equipment.since == At(events[m].at)
  {
    hide RuntimeAfter, At, Elapsed, SameOff, Ready, MustBeOff, MaxRun, MinRun, CallOf;
    if n == i + 1 {
      m := i;
    } else {
      m := SinceOfTick(c, r, events, i, n - 1);
      EventMoves(c, r, events, n - 1, Heating);
      EventMoves(c, r, events, n - 1, Cooling);
      if RuntimeAfter(c, r, events, n).equipment.since != RuntimeAfter(c, r, events, n - 1).equipment.since {
        m := n - 1;
      }
    }
  }

  lemma {:induction false} PrefixAgrees(c: Config, r: Runtime, prefix: seq<Event>, more: seq<Event>, n: nat)
    requires n <= |prefix|
    ensures RuntimeAfter(c, r, prefix + more, n) == RuntimeAfter(c, r, prefix, n)
  {
    hide Stepped;
    if n > 0 {
      PrefixAgrees(c, r, prefix, more, n - 1);
    }
  }

  lemma {:induction false} SuffixAgrees(c: Config, r: Runtime, prefix: seq<Event>, more: seq<Event>, n: nat)
    requires n <= |more|
    ensures RuntimeAfter(c, r, prefix + more, |prefix| + n)
            == RuntimeAfter(c, RuntimeAfter(c, r, prefix, |prefix|), more, n)
  {
    hide Stepped;
    if n == 0 {
      PrefixAgrees(c, r, prefix, more, |prefix|);
    } else {
      SuffixAgrees(c, r, prefix, more, n - 1);
    }
  }
}
