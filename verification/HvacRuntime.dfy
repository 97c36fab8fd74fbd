/**
 The controller runtime: failsafe, run and off timers, fan circulation, filter accounting,
 and the commands it accepts.

 The functions say what one call does to the state; the class is the object whose methods
 are proved to do it. Temperatures are in tenths of a degree.
 */
module HvacRuntime {
  import opened Clock
  import opened CommandWords

  type u16 = n: nat | n < 0x1_0000

  datatype Config = Config(
    failsafeTimeout: u32,
    minCoolingOff: u32, minCoolingRun: u32, minHeatingOff: u32, minHeatingRun: u32, minIdle: u32,
    maxHeatingRun: u32, maxCoolingRun: u32)

  /** The defaults: 5 min failsafe; 5, 5, 3, 3 min and 30 s; 4 h and 3 h. */
  const DEFAULT_CONFIG := Config(300000, 300000, 300000, 180000, 180000, 30000, 14400000, 10800000)

  datatype Relays = Relays(heat: bool, cool: bool, fan: bool, spare: bool)

  const ALL_OFF := Relays(false, false, false, false)

  datatype Phase = Idle | Heating | Cooling

  datatype Settings = Settings(mode: FurnaceMode, fan: FanMode, heatSetpoint: int, coolSetpoint: int)

  datatype Equipment = Equipment(
    phase: Phase, since: u32, heatingOff: u32, coolingOff: u32, hasHeatingOff: bool, hasCoolingOff: bool,
    delayed: bool, maxExceeded: bool)

  datatype Minutes = Minutes(last: u32, fanElapsed: nat, filterSeconds: u32, period: u16, duration: u16)

  /** Sequence tracking for one sender. */
  datatype Source = Source(mac: seq<bv8>, last: nat, session: nat, active: bool)

  datatype Tracking = Tracking(sources: seq<Source>, last: nat, session: nat)

  const MAX_SOURCES: nat := 10
  const NO_SOURCE := Source([0, 0, 0, 0, 0, 0], 0, 0, false)

  datatype Runtime = Runtime(
    settings: Settings, lockout: bool, failsafe: bool, windowsOpen: bool, spareRelay: bool,
    relay: Relays, heartbeat: u32, equipment: Equipment, minutes: Minutes, tracking: Tracking)

  const MINUTE: u32 := 60000

  function Initial(period: u16, duration: u16): Runtime {
    Runtime(Settings(Off, Automatic, 200, 240), false, false, false, false, ALL_OFF, 0,
            Equipment(Idle, 0, 0, 0, false, false, false, false), Minutes(0, 0, 0, period, duration),
            Tracking(seq(MAX_SOURCES, _ => NO_SOURCE), 0, 0))
  }

  // ---- The parts of a tick ------------------------------------------------------------

  predicate Elapsed(now: u32, start: u32, duration: u32) {
    duration == 0 || Since(now, start) >= duration
  }

  predicate FailsafeTimedOut(now: u32, heartbeat: u32, timeout: u32) {
    if heartbeat == 0 then now > timeout else Since(now, heartbeat) > timeout
  }

  function WithFailsafe(c: Config, r: Runtime, now: u32, hasTemp: bool): Runtime {
    r.(failsafe := !hasTemp || FailsafeTimedOut(now, r.heartbeat, c.failsafeTimeout))
  }

  predicate MustBeOff(r: Runtime) {
    r.failsafe || r.lockout
  }

  function Idled(r: Runtime, now: u32): Runtime {
    var e := r.equipment;
    var stamped :=
      match e.phase
      case Heating => e.(heatingOff := now, hasHeatingOff := true)
      case Cooling => e.(coolingOff := now, hasCoolingOff := true)
      case Idle => e;
    r.(equipment := stamped.(phase := Idle, since := now), relay := r.relay.(heat := false, cool := false))
  }

  function HeatingFrom(r: Runtime, now: u32): Runtime {
    r.(equipment := r.equipment.(phase := Heating, since := now, delayed := false, maxExceeded := false),
       relay := r.relay.(heat := true, cool := false, fan := false))
  }

  function CoolingFrom(r: Runtime, now: u32): Runtime {
    r.(equipment := r.equipment.(phase := Cooling, since := now, delayed := false, maxExceeded := false),
       relay := r.relay.(heat := false, cool := true, fan := false))
  }

  function FromHeating(c: Config, r: Runtime, now: u32, heatCall: bool): Runtime {
    if c.maxHeatingRun > 0 && Elapsed(now, r.equipment.since, c.maxHeatingRun) then
      Idled(r.(equipment := r.equipment.(maxExceeded := true)), now)
    else if !heatCall && Elapsed(now, r.equipment.since, c.minHeatingRun) then Idled(r, now)
    else r.(relay := r.relay.(heat := true, cool := false))
  }

  function FromCooling(c: Config, r: Runtime, now: u32, coolCall: bool): Runtime {
    if c.maxCoolingRun > 0 && Elapsed(now, r.equipment.since, c.maxCoolingRun) then
      Idled(r.(equipment := r.equipment.(maxExceeded := true)), now)
    else if !coolCall && Elapsed(now, r.equipment.since, c.minCoolingRun) then Idled(r, now)
    else r.(relay := r.relay.(heat := false, cool := true))
  }

  predicate HeatReady(c: Config, e: Equipment, now: u32) {
    && Elapsed(now, e.since, c.minIdle)
    && (!e.hasHeatingOff || Elapsed(now, e.heatingOff, c.minHeatingOff))
  }

  predicate CoolReady(c: Config, e: Equipment, now: u32) {
    && Elapsed(now, e.since, c.minIdle)
    && (!e.hasCoolingOff || Elapsed(now, e.coolingOff, c.minCoolingOff))
  }

  function FromIdle(c: Config, r: Runtime, now: u32, heatCall: bool, coolCall: bool): Runtime {
    var heatReady, coolReady := HeatReady(c, r.equipment, now), CoolReady(c, r.equipment, now);
    if heatCall && heatReady then HeatingFrom(r, now)
    else if coolCall && coolReady then CoolingFrom(r, now)
    else r.(relay := r.relay.(heat := false, cool := false),
            equipment := r.equipment.(delayed := (heatCall && !heatReady) || (coolCall && !coolReady)))
  }

  function WithFan(r: Runtime): Runtime {
    if r.settings.fan == AlwaysOn && !r.spareRelay then r.(relay := r.relay.(fan := true))
    else if r.settings.fan != Circulate then r.(relay := r.relay.(fan := false))
    else r
  }

  function WithCalls(c: Config, r: Runtime, now: u32, heatCall: bool, coolCall: bool): Runtime {
    if MustBeOff(r) then
      var s := Idled(r, now);
      s.(relay := s.relay.(fan := false), equipment := s.equipment.(delayed := false))
    else
      var cool := coolCall && !r.windowsOpen;
      WithFan(match r.equipment.phase
              case Heating => FromHeating(c, r, now, heatCall)
              case Cooling => FromCooling(c, r, now, cool)
              case Idle => FromIdle(c, r, now, heatCall, cool))
  }

  /** Whether circulation runs the fan in the `n`-th minute. */
  predicate WindowOpen(m: Minutes, n: nat)
    requires m.period > 0
  {
    n % m.period < m.duration
  }

  predicate Circulating(r: Runtime) {
    !MustBeOff(r) && r.settings.fan == Circulate
  }

  /** One minute of accounting. */
  function AfterMinute(r: Runtime): Runtime {
    var m := r.minutes.(last := (r.minutes.last + MINUTE) % U32);
    var running := r.relay.heat || r.relay.cool || r.relay.fan || r.spareRelay;
    var n := if running then m.(filterSeconds := (m.filterSeconds + 60) % U32) else m;
    if !Circulating(r) then r.(minutes := n.(fanElapsed := 0))
    else if n.period > 0 && n.duration > 0 then
      var fan := WindowOpen(n, n.fanElapsed + 1) && !r.relay.heat && !r.relay.cool && !r.spareRelay;
      r.(minutes := n.(fanElapsed := n.fanElapsed + 1), relay := r.relay.(fan := fan))
    else r.(minutes := n)
  }

  lemma MinuteUses(now: u32, last: u32)
    requires Since(now, last) >= MINUTE
    ensures Since(now, (last + MINUTE) % U32) == Since(now, last) - MINUTE
  {
  }

  function AfterMinutes(r: Runtime, now: u32): Runtime
    decreases Since(now, r.minutes.last)
  {
    if Since(now, r.minutes.last) >= MINUTE then
      MinuteUses(now, r.minutes.last);
      AfterMinutes(AfterMinute(r), now)
    else r
  }

  function WithMinutes(r: Runtime, now: u32): Runtime {
    if r.minutes.last == 0 then r.(minutes := r.minutes.(last := now)) else AfterMinutes(r, now)
  }

  function Interlocked(r: Runtime, now: u32): Runtime {
    var s := if MustBeOff(r) then (var i := Idled(r, now); i.(relay := i.relay.(fan := false))) else r;
    if s.relay.heat then s.(relay := s.relay.(cool := false, fan := false))
    else if s.relay.cool then s.(relay := s.relay.(heat := false, fan := false))
    else s
  }

  function Ticked(c: Config, r: Runtime, now: u32, heatCall: bool, coolCall: bool, hasTemp: bool): Runtime {
    Interlocked(WithMinutes(WithCalls(c, WithFailsafe(c, r, now, hasTemp), now, heatCall, coolCall), now), now)
  }

  function LockedOut(r: Runtime, on: bool): Runtime {
    if on then
      r.(lockout := true, equipment := r.equipment.(phase := Idle),
         relay := r.relay.(fan := false, heat := false, cool := false))
    else r.(lockout := false)
  }

  // ---- Commands -----------------------------------------------------------------------

  datatype Verdict = Verdict(accepted: bool, stale: bool, syncRequested: bool, filterReset: bool)

  const STALE := Verdict(false, true, false, false)

  /** The first active entry for `mac` from index `i`, or the number of entries. */
  function FindSource(sources: seq<Source>, mac: seq<bv8>, i: nat): (k: nat)
    requires i <= |sources|
    ensures i <= k <= |sources|
    decreases |sources| - i
  {
    if i == |sources| || (sources[i].active && sources[i].mac == mac) then i else FindSource(sources, mac, i + 1)
  }

  /** The first free entry from index `i`, or the number of entries. */
  function FindFree(sources: seq<Source>, i: nat): (k: nat)
    requires i <= |sources|
    ensures i <= k <= |sources|
    decreases |sources| - i
  {
    if i == |sources| || !sources[i].active then i else FindFree(sources, i + 1)
  }

  predicate Accepts(last: nat, session: nat, cmd: CommandWord) {
    || (cmd.session != 0 && cmd.session != session)
    || last == 0
    || NewerSeq(last, cmd.number)
  }

  /** The entry a sender's word is checked against: its own, or a fresh one; none if the table is full. */
  function EntryFor(sources: seq<Source>, mac: seq<bv8>): nat {
    var k := FindSource(sources, mac, 0);
    if k < |sources| then k else FindFree(sources, 0)
  }

  function Registered(sources: seq<Source>, mac: seq<bv8>): seq<Source> {
    var k := FindFree(sources, 0);
    if FindSource(sources, mac, 0) < |sources| || k == |sources| then sources
    else sources[k := Source(mac, 0, 0, true)]
  }

  /** Whether a sender's word is accepted, and the table afterwards. */
  function CheckedSource(sources: seq<Source>, cmd: CommandWord, mac: seq<bv8>): (seq<Source>, bool) {
    var k := EntryFor(sources, mac);
    if k == |sources| then (sources, false)
    else
      var entries := Registered(sources, mac);
      if Accepts(entries[k].last, entries[k].session, cmd) then
        (entries[k := entries[k].(last := cmd.number, session := cmd.session)], true)
      else (entries, false)
  }

  /** The same for any word; no MAC means the default sender. */
  function Checked(t: Tracking, cmd: CommandWord, mac: seq<bv8>): (Tracking, bool) {
    if mac == [] then
      if Accepts(t.last, t.session, cmd) then (t.(last := cmd.number, session := cmd.session), true) else (t, false)
    else
      var (sources, accepted) := CheckedSource(t.sources, cmd, mac);
      (t.(sources := sources), accepted)
  }

  function AppliedSettings(s: Settings, cmd: CommandWord): Settings {
    var mode := if cmd.preserveMode then s.mode else cmd.mode;
    var t := s.(mode := mode, fan := if cmd.preserveFan then s.fan else cmd.fan);
    if cmd.preserveSetpoint then t
    else if mode == Heat then t.(heatSetpoint := cmd.setpoint)
    else if mode == Cool then t.(coolSetpoint := cmd.setpoint)
    else t
  }

  /** What an accepted word that is no sync request does. */
  function Applied(r: Runtime, cmd: CommandWord): Runtime {
    var settings := AppliedSettings(r.settings, cmd);
    r.(settings := settings,
       equipment := if settings.mode != r.settings.mode then r.equipment.(maxExceeded := false) else r.equipment,
       minutes := if cmd.filterReset then r.minutes.(filterSeconds := 0) else r.minutes)
  }

  function Commanded(r: Runtime, cmd: CommandWord, mac: seq<bv8>): (Runtime, Verdict) {
    var (tracking, accepted) := Checked(r.tracking, cmd, mac);
    var s := r.(tracking := tracking);
    if !accepted then (s, STALE)
    else if cmd.syncRequest then (s, Verdict(true, false, true, false))
    else (Applied(s, cmd), Verdict(true, false, false, cmd.filterReset))
  }

  function Cleared(sources: seq<Source>): seq<Source> {
    seq(|sources|, i requires 0 <= i < |sources| => sources[i].(active := false, last := 0, session := 0))
  }

  function Forgotten(r: Runtime): Runtime {
    r.(tracking := Tracking(Cleared(r.tracking.sources), 0, 0))
  }

  function Target(s: Settings): int {
    if s.mode == Cool then s.coolSetpoint else s.heatSetpoint
  }

  // ---- The object ---------------------------------------------------------------------

  class ControllerRuntime {
    const config: Config
    var settings: Settings
    var hvacLockout: bool
    var failsafeActive: bool
    var windowsOpen: bool
    var spareRelay4: bool
    var relay: Relays
    var heartbeatLastSeenMs: u32
    var equipment: Equipment
    var minutes: Minutes
    const commandSources: array<Source>
    var lastSeqDefault: nat
    var sessionDefault: nat

    ghost function State(): Runtime
      reads this, commandSources
    {
      Runtime(settings, hvacLockout, failsafeActive, windowsOpen, spareRelay4, relay, heartbeatLastSeenMs,
              equipment, minutes, Tracking(commandSources[..], lastSeqDefault, sessionDefault))
    }

    constructor (config: Config, period: u16, duration: u16)
      ensures this.config == config && State() == Initial(period, duration) && fresh(commandSources)
    {
      this.config := config;
      settings := Settings(Off, Automatic, 200, 240);
      hvacLockout, failsafeActive, windowsOpen, spareRelay4 := false, false, false, false;
      relay := ALL_OFF;
      heartbeatLastSeenMs := 0;
      equipment := Equipment(Idle, 0, 0, 0, false, false, false, false);
      minutes := Minutes(0, 0, 0, period, duration);
      commandSources := new Source[MAX_SOURCES](_ => NO_SOURCE);
      lastSeqDefault, sessionDefault := 0, 0;
    }

    method NoteHeartbeat(now: u32)
      modifies this`heartbeatLastSeenMs
      ensures heartbeatLastSeenMs == now
    {
      heartbeatLastSeenMs := now;
    }

    /** Everything goes off at once, but no off time is stamped. */
    method SetHvacLockout(lockedOut: bool)
      modifies this`hvacLockout, this`equipment, this`relay
      ensures State() == LockedOut(old(State()), lockedOut)
    {
      hvacLockout := lockedOut;
      if hvacLockout {
        equipment := equipment.(phase := Idle);
        relay := relay.(fan := false);
        relay := relay.(heat := false);
        relay := relay.(cool := false);
      }
    }

    method SetWindowsOpen(open: bool)
      modifies this`windowsOpen
      ensures windowsOpen == open
    {
      windowsOpen := open;
    }

    method EnterIdle(now: u32)
      modifies this`equipment, this`relay
      ensures State() == Idled(old(State()), now)
    {
      if equipment.phase == Heating {
        equipment := equipment.(heatingOff := now, hasHeatingOff := true);
      } else if equipment.phase == Cooling {
        equipment := equipment.(coolingOff := now, hasCoolingOff := true);
      }
      equipment := equipment.(phase := Idle, since := now);
      relay := relay.(heat := false, cool := false);
    }

    method EnterHeating(now: u32)
      modifies this`equipment, this`relay
      ensures State() == HeatingFrom(old(State()), now)
    {
      equipment := equipment.(phase := Heating, since := now, delayed := false, maxExceeded := false);
      relay := relay.(heat := true, cool := false, fan := false);
    }

    method EnterCooling(now: u32)
      modifies this`equipment, this`relay
      ensures State() == CoolingFrom(old(State()), now)
    {
      equipment := equipment.(phase := Cooling, since := now, delayed := false, maxExceeded := false);
      relay := relay.(heat := false, cool := true, fan := false);
    }

    method UpdateFailsafe(now: u32, hasIndoorTemp: bool)
      modifies this`failsafeActive
      ensures State() == WithFailsafe(config, old(State()), now, hasIndoorTemp)
    {
      failsafeActive := !hasIndoorTemp || FailsafeTimedOut(now, heartbeatLastSeenMs, config.failsafeTimeout);
    }

    method RunEquipment(now: u32, heatCall: bool, coolCall: bool)
      modifies this`equipment, this`relay
      ensures State() == match old(equipment.phase)
                         case Heating => FromHeating(config, old(State()), now, heatCall)
                         case Cooling => FromCooling(config, old(State()), now, coolCall)
                         case Idle => FromIdle(config, old(State()), now, heatCall, coolCall)
    {
      hide Elapsed;
      match equipment.phase
      case Heating =>
        var minRunDone := Elapsed(now, equipment.since, config.minHeatingRun);
        if config.maxHeatingRun > 0 && Elapsed(now, equipment.since, config.maxHeatingRun) {
          equipment := equipment.(maxExceeded := true);
          EnterIdle(now);
        } else if !heatCall && minRunDone {
          EnterIdle(now);
        } else {
          relay := relay.(heat := true, cool := false);
        }
      case Cooling =>
        var minRunDone := Elapsed(now, equipment.since, config.minCoolingRun);
        if config.maxCoolingRun > 0 && Elapsed(now, equipment.since, config.maxCoolingRun) {
          equipment := equipment.(maxExceeded := true);
          EnterIdle(now);
        } else if !coolCall && minRunDone {
          EnterIdle(now);
        } else {
          relay := relay.(heat := false, cool := true);
        }
      case Idle =>
        var idleReady := Elapsed(now, equipment.since, config.minIdle);
        var heatOffReady := !equipment.hasHeatingOff || Elapsed(now, equipment.heatingOff, config.minHeatingOff);
        var coolOffReady := !equipment.hasCoolingOff || Elapsed(now, equipment.coolingOff, config.minCoolingOff);
        if heatCall && idleReady && heatOffReady {
          EnterHeating(now);
        } else if coolCall && idleReady && coolOffReady {
          EnterCooling(now);
        } else {
          relay := relay.(heat := false, cool := false);
          equipment := equipment.(delayed := (heatCall && (!idleReady || !heatOffReady))
                                             || (coolCall && (!idleReady || !coolOffReady)));
        }
    }

    method ApplyHvacCalls(now: u32, heatCall: bool, coolCall: bool)
      modifies this`equipment, this`relay
      ensures State() == WithCalls(config, old(State()), now, heatCall, coolCall)
    {
      hide FromHeating, FromCooling, FromIdle;
      if failsafeActive || hvacLockout {
        EnterIdle(now);
        relay := relay.(fan := false);
        equipment := equipment.(delayed := false);
        return;
      }
      RunEquipment(now, heatCall, coolCall && !windowsOpen);
      if settings.fan == AlwaysOn && !spareRelay4 {
        relay := relay.(fan := true);
      } else if settings.fan != Circulate {
        relay := relay.(fan := false);
      }
    }

    method CountMinute()
      modifies this`minutes, this`relay
      ensures State() == AfterMinute(old(State()))
    {
      minutes := minutes.(last := (minutes.last + MINUTE) % U32);
      if relay.heat || relay.cool || relay.fan || spareRelay4 {
        minutes := minutes.(filterSeconds := (minutes.filterSeconds + 60) % U32);
      }
      if !failsafeActive && !hvacLockout && settings.fan == Circulate {
        if minutes.period > 0 && minutes.duration > 0 {
          minutes := minutes.(fanElapsed := minutes.fanElapsed + 1);
          var windowOpen := minutes.fanElapsed % minutes.period < minutes.duration;
          if windowOpen && !relay.heat && !relay.cool && !spareRelay4 {
            relay := relay.(fan := true);
          } else {
            relay := relay.(fan := false);
          }
        }
      } else {
        minutes := minutes.(fanElapsed := 0);
      }
    }

    method RunMinuteTasks(now: u32)
      modifies this`minutes, this`relay
      ensures State() == WithMinutes(old(State()), now)
    {
      hide AfterMinute, Since;
      if minutes.last == 0 {
        minutes := minutes.(last := now);
        return;
      }
      while Since(now, minutes.last) >= MINUTE
        invariant AfterMinutes(State(), now) == AfterMinutes(old(State()), now)
        decreases Since(now, minutes.last)
      {
        MinuteUses(now, minutes.last);
        ghost var before := State();
        CountMinute();
        assert State() == AfterMinute(before);
        MinuteAdvances(before);
      }
    }

    method EnforceSafetyInterlocks(now: u32)
      modifies this`equipment, this`relay
      ensures State() == Interlocked(old(State()), now)
    {
      hide Idled;
      if failsafeActive || hvacLockout {
        EnterIdle(now);
        relay := relay.(fan := false);
      }
      if relay.heat {
        relay := relay.(cool := false);
        relay := relay.(fan := false);
      } else if relay.cool {
        relay := relay.(heat := false);
        relay := relay.(fan := false);
      }
    }

    method Tick(now: u32, heatCall: bool, coolCall: bool, hasIndoorTemp: bool)
      modifies this
      ensures State() == Ticked(config, old(State()), now, heatCall, coolCall, hasIndoorTemp)
    {
      hide WithFailsafe, WithCalls, WithMinutes, Interlocked;
      UpdateFailsafe(now, hasIndoorTemp);
      ApplyHvacCalls(now, heatCall, coolCall);
      RunMinuteTasks(now);
      EnforceSafetyInterlocks(now);
    }

    method ResetRemoteCommandSequence()
      modifies this`lastSeqDefault, this`sessionDefault, commandSources
      ensures State() == Forgotten(old(State()))
    {
      lastSeqDefault := 0;
      sessionDefault := 0;
      for i := 0 to commandSources.Length
        invariant lastSeqDefault == sessionDefault == 0
        invariant forall k :: 0 <= k < i ==>
                    commandSources[k] == old(commandSources[k]).(active := false, last := 0, session := 0)
        invariant forall k :: i <= k < commandSources.Length ==> commandSources[k] == old(commandSources[k])
      {
        commandSources[i] := commandSources[i].(active := false, last := 0, session := 0);
      }
      assert commandSources[..] == Cleared(old(commandSources[..]));
    }

    /** The sender's entry, or the first free one, or -1 when the table is full. */
    method FindEntry(mac: seq<bv8>) returns (found: bool, slot: int)
      ensures var s := commandSources[..];
              && (found <==> FindSource(s, mac, 0) < |s|)
              && slot == if EntryFor(s, mac) == |s| then -1 else EntryFor(s, mac)
    {
      ghost var s := commandSources[..];
      var free := -1;
      for i := 0 to commandSources.Length
        invariant FindSource(s, mac, 0) == FindSource(s, mac, i)
        invariant FindFree(s, 0) == if free == -1 then FindFree(s, i) else free
        invariant -1 <= free < i && (free == -1 ==> FindFree(s, 0) >= i)
      {
        if commandSources[i].active && commandSources[i].mac == mac {
          return true, i;
        }
        if !commandSources[i].active && free == -1 {
          free := i;
        }
      }
      return false, free;
    }

    /** Accepts or rejects a sender's word, registering a new sender. */
    method CheckSource(cmd: CommandWord, mac: seq<bv8>) returns (accepted: bool)
      modifies commandSources
      ensures (commandSources[..], accepted) == CheckedSource(old(commandSources[..]), cmd, mac)
    {
      hide FindSource, FindFree, NewerSeq;
      var found, k := FindEntry(mac);
      if k == -1 {
        return false;
      }
      if !found {
        commandSources[k] := Source(mac, 0, 0, true);
      }
      assert commandSources[..] == Registered(old(commandSources[..]), mac);
      var newSession := cmd.session != 0 && cmd.session != commandSources[k].session;
      if !newSession && commandSources[k].last != 0 && !NewerSeq(commandSources[k].last, cmd.number) {
        return false;
      }
      commandSources[k] := commandSources[k].(last := cmd.number, session := cmd.session);
      return true;
    }

    method CheckDefault(cmd: CommandWord) returns (accepted: bool)
      modifies this`lastSeqDefault, this`sessionDefault
      ensures accepted == Accepts(old(lastSeqDefault), old(sessionDefault), cmd)
      ensures lastSeqDefault == if accepted then cmd.number else old(lastSeqDefault)
      ensures sessionDefault == if accepted then cmd.session else old(sessionDefault)
    {
      var newSession := cmd.session != 0 && cmd.session != sessionDefault;
      if !newSession && lastSeqDefault != 0 && !NewerSeq(lastSeqDefault, cmd.number) {
        return false;
      }
      lastSeqDefault := cmd.number;
      sessionDefault := cmd.session;
      return true;
    }

    method ApplyFields(cmd: CommandWord)
      modifies this`settings, this`equipment, this`minutes
      ensures State() == Applied(old(State()), cmd)
    {
      var oldMode := settings.mode;
      if !cmd.preserveMode {
        settings := settings.(mode := cmd.mode);
      }
      if !cmd.preserveFan {
        settings := settings.(fan := cmd.fan);
      }
      if !cmd.preserveSetpoint {
        var binMode := if cmd.preserveMode then settings.mode else cmd.mode;
        if binMode == Heat {
          settings := settings.(heatSetpoint := cmd.setpoint);
        } else if binMode == Cool {
          settings := settings.(coolSetpoint := cmd.setpoint);
        }
      }
      if settings.mode != oldMode && equipment.maxExceeded {
        equipment := equipment.(maxExceeded := false);
      }
      if cmd.filterReset {
        minutes := minutes.(filterSeconds := 0);
      }
    }

    method ApplyRemoteCommand(cmd: CommandWord, mac: seq<bv8>) returns (verdict: Verdict)
      modifies this, commandSources
      ensures (State(), verdict) == Commanded(old(State()), cmd, mac)
    {
      hide CheckedSource, Accepts, Applied;
      var accepted;
      if mac == [] {
        accepted := CheckDefault(cmd);
      } else {
        accepted := CheckSource(cmd, mac);
      }
      if !accepted {
        return STALE;
      }
      if cmd.syncRequest {
        return Verdict(true, false, true, false);
      }
      ApplyFields(cmd);
      return Verdict(true, false, false, cmd.filterReset);
    }
  }

  lemma MinuteAdvances(r: Runtime)
    ensures AfterMinute(r).minutes.last == (r.minutes.last + MINUTE) % U32
  {
  }
}
