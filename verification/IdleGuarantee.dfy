/**
 When the idle time between heating and cooling is guaranteed at the backend: exactly unless a
 lockout was set and lifted again between two ticks and nothing must be off at the second.
 */
module IdleGuarantee {
  import opened Clock
  import opened CommandWords
  import opened HvacRuntime
  import opened EquipmentRuns
  import opened SafetyChain
  import RelayInterlock
  import opened MinuteAccounting
  import opened RestGuarantee

  /** However the run goes on, the relay of `q` comes on no sooner than `rest` after its last event. */
  ghost predicate IdlesAfter(c: Config, wait: RelayInterlock.Config, r: Runtime, io: Io, prefix: seq<Event>, q: Phase,
                             rest: nat)
    requires prefix != []
  {
    forall more: seq<Event>, j: nat ::
      Ordered(prefix + more) && |prefix| <= j < |prefix + more| && (prefix + more)[j].op.Tick?
      && On(IoAfter(c, wait, r, io, prefix + more, j + 1).output, q) ==>
        (prefix + more)[j].at - prefix[|prefix| - 1].at >= rest
  }

  // ---- Runs in two parts --------------------------------------------------------------

  lemma {:induction false} IoPrefixAgrees(c: Config, wait: RelayInterlock.Config, r: Runtime, io: Io,
                                          prefix: seq<Event>, more: seq<Event>, n: nat)
    requires n <= |prefix|
    ensures IoAfter(c, wait, r, io, prefix + more, n) == IoAfter(c, wait, r, io, prefix, n)
  {
    hide RuntimeAfter, RelayInterlock.Applied, MustBeOff, At;
    if n > 0 {
      IoPrefixAgrees(c, wait, r, io, prefix, more, n - 1);
      PrefixAgrees(c, r, prefix, more, n);
    }
  }

  lemma {:induction false} IoSuffixAgrees(c: Config, wait: RelayInterlock.Config, r: Runtime, io: Io,
                                          prefix: seq<Event>, more: seq<Event>, n: nat)
    requires n <= |more|
    ensures IoAfter(c, wait, r, io, prefix + more, |prefix| + n)
            == IoAfter(c, wait, RuntimeAfter(c, r, prefix, |prefix|), IoAfter(c, wait, r, io, prefix, |prefix|), more,
                       n)
  {
    hide RuntimeAfter, RelayInterlock.Applied, MustBeOff, At;
    if n == 0 {
      IoPrefixAgrees(c, wait, r, io, prefix, more, |prefix|);
    } else {
      IoSuffixAgrees(c, wait, r, io, prefix, more, n - 1);
      SuffixAgrees(c, r, prefix, more, n);
      assert (prefix + more)[|prefix| + n - 1] == more[n - 1];
    }
  }

  lemma {:induction false} LiftedAgrees(prefix: seq<Event>, more: seq<Event>, n: nat)
    requires n <= |prefix|
    ensures Tripped(prefix + more, n) == Tripped(prefix, n) && Released(prefix + more, n) == Released(prefix, n)
  {
    if n > 0 {
      LiftedAgrees(prefix, more, n - 1);
    }
  }

  // ---- Guaranteed ---------------------------------------------------------------------

  lemma IdleTimeIsGuaranteed(c: Config, wait: RelayInterlock.Config, r: Runtime, io: Io, prefix: seq<Event>, p: Phase,
                             q: Phase)
    requires p != Idle && q != Idle && p != q && prefix != [] && InOperation(r, io, p)
    requires GoesOff(c, wait, r, io, prefix, |prefix| - 1, p)
    requires !Lifted(prefix, |prefix| - 1) || MustBeOff(RuntimeAfter(c, r, prefix, |prefix|))
    ensures IdlesAfter(c, wait, r, io, prefix, q, c.minIdle)
  {
    hide RuntimeAfter, IoAfter, MustBeOff, InOperation, Ordered, On, Tripped, Released;
    var i := |prefix| - 1;
    forall more: seq<Event>, j: nat |
        Ordered(prefix + more) && |prefix| <= j < |prefix + more| && (prefix + more)[j].op.Tick?
        && On(IoAfter(c, wait, r, io, prefix + more, j + 1).output, q)
      ensures (prefix + more)[j].at - prefix[i].at >= c.minIdle
    {
      PrefixAgrees(c, r, prefix, more, i + 1);
      IoPrefixAgrees(c, wait, r, io, prefix, more, i);
      IoPrefixAgrees(c, wait, r, io, prefix, more, i + 1);
      LiftedAgrees(prefix, more, i);
      ChangeoverTakesIdleTime(c, wait, r, io, prefix + more, p, q, i, j);
    }
  }

  // ---- Events that bring a relay on ---------------------------------------------------

  /** The spare relay is never asked for. */
  lemma {:induction false} CatchUpKeepsSpare(r: Runtime, now: u32)
    ensures AfterMinutes(r, now).relay.spare == r.relay.spare && AfterMinutes(r, now).settings == r.settings
    decreases Since(now, r.minutes.last)
  {
    if Since(now, r.minutes.last) >= MINUTE {
      MinuteUses(now, r.minutes.last);
      CatchUpKeepsSpare(AfterMinute(r), now);
    }
    hide Since;
  }

  lemma TickKeepsSpare(c: Config, r: Runtime, now: u32, heatCall: bool, coolCall: bool, hasTemp: bool)
    ensures Ticked(c, r, now, heatCall, coolCall, hasTemp).relay.spare == r.relay.spare
  {
    var a := WithFailsafe(c, r, now, hasTemp);
    CallsKeep(c, a, now, heatCall, coolCall);
    CatchUpKeepsSpare(WithCalls(c, a, now, heatCall, coolCall), now);
    hide WithCalls, AfterMinutes, FailsafeTimedOut;
  }

  lemma StepKeepsSpare(c: Config, r: Runtime, e: Event)
    ensures Stepped(c, r, e).relay.spare ==> r.relay.spare
  {
    match e.op
    case Tick(heatCall, coolCall, hasTemp) =>
      TickKeepsSpare(c, r, At(e.at), heatCall, coolCall, hasTemp);
      hide Ticked, At;
    case Command(cmd, mac) =>
      CommandKeeps(r, cmd, mac);
      hide Commanded;
    case _ =>
  }

  lemma {:induction false} SpareStaysOff(c: Config, r: Runtime, events: seq<Event>, n: nat)
    requires n <= |events| && !r.relay.spare
    ensures !RuntimeAfter(c, r, events, n).relay.spare
  {
    hide Stepped;
    if n > 0 {
      SpareStaysOff(c, r, events, n - 1);
      StepKeepsSpare(c, RuntimeAfter(c, r, events, n - 1), events[n - 1]);
    }
  }

  /** A word that turns the fan to automatic and that the controller takes: its session is new. */
  function FanToAutomatic(session: nat): CommandWord {
    CommandWord(Off, Automatic, 0, 0, false, false, true, false, true, if session == 1 then 2 else 1)
  }

  lemma FanTurnsAutomatic(r: Runtime)
    ensures var s := Commanded(r, FanToAutomatic(r.tracking.session), []).0;
            && s == r.(tracking := s.tracking, settings := r.settings.(fan := Automatic))
  {
    hide NewerSeq;
  }

  /** A tick with no call and the fan on automatic leaves everything off and the equipment's stamps alone. */
  lemma QuietTick(c: Config, r: Runtime, now: u32)
    requires r.equipment.phase == Idle && !r.lockout && r.heartbeat == now && r.settings.fan == Automatic &&
             !r.relay.spare
    ensures var s := Ticked(c, r, now, false, false, true);
            s.relay == ALL_OFF && s.equipment == r.equipment.(delayed := false) && !MustBeOff(s)
  {
    HeartbeatIsFresh(now, c.failsafeTimeout);
    var a := WithFailsafe(c, r, now, true);
    assert FromIdle(c, a, now, false, false)
        == a.(relay := a.relay.(heat := false, cool := false), equipment := a.equipment.(delayed := false));
    hide FromIdle, FailsafeTimedOut;
    var b := WithCalls(c, a, now, false, false);
    assert b.equipment == r.equipment.(delayed := false) && !MustBeOff(b) && b.settings.fan == Automatic &&
           b.relay == ALL_OFF;
    MinutesKeep(b, now);
    MinutesKeepFan(b, now);
    CatchUpKeepsSpare(b, now);
    hide WithCalls, AfterMinutes;
  }

  lemma ReadyAt(c: Config, e: Equipment, q: Phase, since: nat, off: nat, u: nat)
    requires q != Idle && e.since == At(since) && since + c.minIdle <= u < since + U32
    requires HasOff(e, q) ==> OffAt(e, q) == At(off) && off + MinOff(c, q) <= u < off + U32
    ensures Ready(c, e.(phase := Idle, delayed := false), At(u), q)
  {
    SinceIsElapsed(u, since);
    if HasOff(e, q) {
      SinceIsElapsed(u, off);
    }
    hide At, Since;
  }

  /** From rest, the interlock brings the relay of a run on at once. */
  lemma OnFromRest(wait: RelayInterlock.Config, r: Runtime, now: u32, q: Phase)
    requires q != Idle && r.equipment.phase == q && Shows(r) && !MustBeOff(r)
    ensures On(RelayInterlock.Applied(wait, RelayInterlock.Begun(), now, r.relay, MustBeOff(r)).output, q)
  {
    hide MustBeOff, Since;
  }

  /** Everything off at `t`, and `q` alone called for at `u`. */
  function Switch(r: Runtime, t: nat, u: nat, q: Phase): seq<Event> {
    [Event(t, Command(FanToAutomatic(r.tracking.session), [])), Event(t, Heartbeat), Event(t, Tick(false, false, true)),
     Event(t, SetWindows(false)), Event(u, Heartbeat), Event(u, Tick(q == Heating, q == Cooling, true))]
  }

  /** The runtime at the second tick of a switch. */
  lemma SwitchedRuntime(c: Config, r: Runtime, t: nat, u: nat, q: Phase)
    requires q != Idle && r.equipment.phase == Idle && !r.lockout && !r.relay.spare
    requires Ready(c, r.equipment.(delayed := false), At(u), q)
    ensures var more := Switch(r, t, u, q);
            var (a, b) := (RuntimeAfter(c, r, more, 3), RuntimeAfter(c, r, more, 6));
            && a.relay == ALL_OFF && !MustBeOff(a)
            && b.equipment.phase == q && Shows(b) && !MustBeOff(b)
  {
    var more := Switch(r, t, u, q);
    var a := Commanded(r, FanToAutomatic(r.tracking.session), []).0;
    FanTurnsAutomatic(r);
    hide Commanded, Ready, Ticked, At, FanToAutomatic;
    assert RuntimeAfter(c, r, more, 0) == r;
    assert RuntimeAfter(c, r, more, 1) == a;
    assert RuntimeAfter(c, r, more, 2) == a.(heartbeat := At(t));
    var d := Ticked(c, a.(heartbeat := At(t)), At(t), false, false, true);
    assert RuntimeAfter(c, r, more, 3) == d;
    QuietTick(c, a.(heartbeat := At(t)), At(t));
    TickMoves(c, a.(heartbeat := At(t)), At(t), false, false, true, q);
    var f := d.(windowsOpen := false, heartbeat := At(u));
    assert RuntimeAfter(c, r, more, 4) == d.(windowsOpen := false);
    assert RuntimeAfter(c, r, more, 5) == f;
    assert RuntimeAfter(c, r, more, 6) == Ticked(c, f, At(u), q == Heating, q == Cooling, true);
    hide RuntimeAfter, MustBeOff, Shows, Moves;
    HeartbeatIsFresh(At(u), c.failsafeTimeout);
    ReadyStarts(c, f, At(u), q);
    TickMoves(c, f, At(u), q == Heating, q == Cooling, true, q);
  }

  lemma SwitchedOn(c: Config, wait: RelayInterlock.Config, r: Runtime, io: Io, t: nat, u: nat, q: Phase)
    requires q != Idle && r.equipment.phase == Idle && !r.lockout && !r.relay.spare && io.initialized
    requires Ready(c, r.equipment.(delayed := false), At(u), q)
    ensures On(IoAfter(c, wait, r, io, Switch(r, t, u, q), 6).output, q)
  {
    var more := Switch(r, t, u, q);
    SwitchedRuntime(c, r, t, u, q);
    var (a, b) := (RuntimeAfter(c, r, more, 3), RuntimeAfter(c, r, more, 6));
    hide RuntimeAfter, Ready, MustBeOff, At, Shows, On;
    assert IoAfter(c, wait, r, io, more, 0) == io;
    assert IoAfter(c, wait, r, io, more, 1) == io;
    assert IoAfter(c, wait, r, io, more, 2) == io;
    var rest := RelayInterlock.Applied(wait, io, At(t), a.relay, MustBeOff(a));
    assert IoAfter(c, wait, r, io, more, 3) == rest;
    assert rest == RelayInterlock.Begun();
    hide RelayInterlock.Applied;
    assert IoAfter(c, wait, r, io, more, 4) == rest;
    assert IoAfter(c, wait, r, io, more, 5) == rest;
    assert IoAfter(c, wait, r, io, more, 6) == RelayInterlock.Applied(wait, rest, At(u), b.relay, MustBeOff(b));
    OnFromRest(wait, b, At(u), q);
  }

  // ---- A run of `q` already under way -------------------------------------------------

  /** Equipment that is called for goes on until its maximum run. */
  lemma StaysRunning(c: Config, r: Runtime, now: u32, q: Phase)
    requires q != Idle && r.equipment.phase == q && !r.lockout && r.heartbeat == now &&
             (q == Cooling ==> !r.windowsOpen)
    requires MaxRun(c, q) == 0 || !Elapsed(now, r.equipment.since, MaxRun(c, q))
    ensures var s := Ticked(c, r, now, q == Heating, q == Cooling, true);
            s.equipment.phase == q && Shows(s) && !MustBeOff(s)
  {
    HeartbeatIsFresh(now, c.failsafeTimeout);
    var a := WithFailsafe(c, r, now, true);
    hide FailsafeTimedOut, Elapsed;
    CallsMove(c, a, now, q == Heating, q == Cooling, q);
    var b := WithCalls(c, a, now, q == Heating, q == Cooling);
    assert b.equipment.phase == q;
    MinutesKeep(b, now);
    hide WithCalls, WithMinutes, Moves;
    InterlockKeeps(WithMinutes(b, now), now);
  }

  /** At `v`, another tick that calls for `q` alone. */
  function Wait(t: nat, v: nat, q: Phase): seq<Event> {
    [Event(t, SetWindows(false)), Event(v, Heartbeat), Event(v, Tick(q == Heating, q == Cooling, true))]
  }

  /** The interlock that took the relay of `p` off for a run of `q` waits for the latter. */
  lemma PendingFor(wait: RelayInterlock.Config, io: Io, r: Runtime, now: u32, p: Phase, q: Phase)
    requires p != Idle && q != Idle && p != q && RelayInterlock.Latched(io) && io.initialized && On(io.output, p)
    requires r.equipment.phase == q && Shows(r) && !MustBeOff(r)
    ensures RelayInterlock.Applied(wait, io, now, r.relay, MustBeOff(r)) == Changing(q, now)
  {
    hide MustBeOff, Since;
  }

  function RelayOf(q: Phase): RelayInterlock.Select {
    if q == Heating then RelayInterlock.HeatRelay else RelayInterlock.CoolRelay
  }

  function Changing(q: Phase, since: u32): Io {
    RelayInterlock.Io(true, ALL_OFF, RelayInterlock.NoRelay, RelayOf(q), since)
  }

  lemma WaitEnds(wait: RelayInterlock.Config, r: Runtime, t: nat, q: Phase)
    requires q != Idle && r.equipment.phase == q && Shows(r) && !MustBeOff(r)
    ensures var v := t + RelayInterlock.WaitFor(wait, RelayOf(q));
            On(RelayInterlock.Applied(wait, Changing(q, At(t)), At(v), r.relay, MustBeOff(r)).output, q)
  {
    SinceIsElapsed(t + RelayInterlock.WaitFor(wait, RelayOf(q)), t);
    hide MustBeOff, Since, At;
  }

  lemma WaitedRuntime(c: Config, r: Runtime, t: nat, v: nat, q: Phase)
    requires q != Idle && r.equipment.phase == q && !r.lockout && r.equipment.since == At(t) && t <= v < t + U32
    requires MaxRun(c, q) == 0 || MaxRun(c, q) > v - t
    ensures var b := RuntimeAfter(c, r, Wait(t, v, q), 3); b.equipment.phase == q && Shows(b) && !MustBeOff(b)
  {
    var (more, f) := (Wait(t, v, q), r.(windowsOpen := false, heartbeat := At(v)));
    SinceIsElapsed(v, t);
    StaysRunning(c, f, At(v), q);
    hide Ticked, At, Since, MustBeOff, Shows;
    assert RuntimeAfter(c, r, more, 0) == r;
    assert RuntimeAfter(c, r, more, 1) == r.(windowsOpen := false);
    assert RuntimeAfter(c, r, more, 2) == f;
    assert RuntimeAfter(c, r, more, 3) == Ticked(c, f, At(v), q == Heating, q == Cooling, true);
  }

  lemma WaitedOn(c: Config, wait: RelayInterlock.Config, r: Runtime, t: nat, q: Phase)
    requires q != Idle && r.equipment.phase == q && !r.lockout && r.equipment.since == At(t)
    requires MaxRun(c, q) == 0 || MaxRun(c, q) > RelayInterlock.WaitFor(wait, RelayOf(q))
    ensures On(IoAfter(c, wait, r, Changing(q, At(t)), Wait(t, t + RelayInterlock.WaitFor(wait, RelayOf(q)), q),
                       3).output, q)
  {
    hide RelayInterlock.WaitFor, RuntimeAfter, RelayInterlock.Applied, On, Changing, MustBeOff, Shows, At;
    var v := t + RelayInterlock.WaitFor(wait, RelayOf(q));
    var (more, io) := (Wait(t, v, q), Changing(q, At(t)));
    WaitedRuntime(c, r, t, v, q);
    WaitEnds(wait, RuntimeAfter(c, r, more, 3), t, q);
    assert IoAfter(c, wait, r, io, more, 0) == io;
    assert IoAfter(c, wait, r, io, more, 1) == io;
    assert IoAfter(c, wait, r, io, more, 2) == io;
  }

  // ---- Exactly ------------------------------------------------------------------------

  /** The continuation `more` brings the relay of `q` on with a tick at `u`. */
  ghost predicate BringsOn(c: Config, wait: RelayInterlock.Config, r: Runtime, io: Io, prefix: seq<Event>,
                           more: seq<Event>, q: Phase, u: nat)
  {
    && more != [] && Ordered(prefix + more) && more[|more| - 1].op.Tick? && more[|more| - 1].at == u
    && On(IoAfter(c, wait, r, io, prefix + more, |prefix| + |more|).output, q)
  }

  lemma BringingOnRefutes(c: Config, wait: RelayInterlock.Config, r: Runtime, io: Io, prefix: seq<Event>,
                          more: seq<Event>, q: Phase, u: nat, rest: nat)
    requires prefix != [] && BringsOn(c, wait, r, io, prefix, more, q, u) && u - prefix[|prefix| - 1].at < rest
    ensures !IdlesAfter(c, wait, r, io, prefix, q, rest)
  {
    hide IoAfter, Ordered, On;
    var j := |prefix| + |more| - 1;
    assert (prefix + more)[j] == more[|more| - 1];
    assert On(IoAfter(c, wait, r, io, prefix + more, j + 1).output, q);
  }

  lemma Continues(c: Config, wait: RelayInterlock.Config, r: Runtime, io: Io, prefix: seq<Event>, more: seq<Event>,
                  q: Phase, u: nat)
    requires prefix != [] && more != [] && Ordered(prefix + more)
    requires more[|more| - 1] == Event(u, Tick(q == Heating, q == Cooling, true))
    requires var (s, before) := (RuntimeAfter(c, r, prefix, |prefix|), IoAfter(c, wait, r, io, prefix, |prefix|));
             On(IoAfter(c, wait, s, before, more, |more|).output, q)
    ensures BringsOn(c, wait, r, io, prefix, more, q, u)
  {
    hide RuntimeAfter, IoAfter, On, Ordered;
    IoSuffixAgrees(c, wait, r, io, prefix, more, |more|);
  }

  lemma SwitchIsOrdered(prefix: seq<Event>, r: Runtime, t: nat, u: nat, q: Phase)
    requires prefix != [] && Ordered(prefix) && prefix[|prefix| - 1].at == t <= u
    ensures Ordered(prefix + Switch(r, t, u, q)) && Ordered(prefix + Wait(t, u, q))
    ensures |Switch(r, t, u, q)| == 6 && Switch(r, t, u, q)[5] == Event(u, Tick(q == Heating, q == Cooling, true))
    ensures |Wait(t, u, q)| == 3 && Wait(t, u, q)[2] == Event(u, Tick(q == Heating, q == Cooling, true))
  {
  }

  /** A lockout since the last tick has stopped everything, and only a tick starts it again. */
  lemma {:induction false} TrippedIsIdle(c: Config, r: Runtime, events: seq<Event>, n: nat)
    requires n <= |events| && Tripped(events, n)
    ensures PhaseAt(c, r, events, n) == Idle
  {
    EventMoves(c, r, events, n - 1, Heating);
    hide RuntimeAfter, Moves, SameOff;
    if events[n - 1].op != SetLockout(true) {
      TrippedIsIdle(c, r, events, n - 1);
    }
  }

  /** Stopped by a lockout and idle still, `q` can be on when the idle time since the run's start is over. */
  lemma SwitchesFromIdle(c: Config, wait: RelayInterlock.Config, r: Runtime, io: Io, prefix: seq<Event>, q: Phase,
                         since: nat, off: nat)
    requires q != Idle && prefix != [] && Ordered(prefix) && io.initialized
    requires var (s, t) := (RuntimeAfter(c, r, prefix, |prefix|), prefix[|prefix| - 1].at);
             && s.equipment.phase == Idle && !s.lockout && !s.relay.spare
             && s.equipment.since == At(since) && since <= t && t + c.minIdle < since + U32
             && (HasOff(s.equipment, q) ==> OffAt(s.equipment, q) == At(off)
                                            && off + MinOff(c, q) <= Later(t, since + c.minIdle) < off + U32)
    ensures var (s, t) := (RuntimeAfter(c, r, prefix, |prefix|), prefix[|prefix| - 1].at);
            var u := Later(t, since + c.minIdle);
            BringsOn(c, wait, r, io, prefix, Switch(s, t, u, q), q, u)
  {
    hide RuntimeAfter, IoAfter, At, Ordered, HasOff, OffAt, MinOff, Switch, On, Ready, BringsOn;
    var (s, t) := (RuntimeAfter(c, r, prefix, |prefix|), prefix[|prefix| - 1].at);
    var u := Later(t, since + c.minIdle);
    assert t <= u && since + c.minIdle <= u < since + U32;
    assert s.equipment.(phase := Idle, delayed := false) == s.equipment.(delayed := false);
    hide *;
    ReadyAt(c, s.equipment, q, since, off, u);
    StaysInitialized(c, wait, r, io, prefix, |prefix|);
    SwitchedOn(c, wait, s, IoAfter(c, wait, r, io, prefix, |prefix|), t, u, q);
    SwitchIsOrdered(prefix, s, t, u, q);
    Continues(c, wait, r, io, prefix, Switch(s, t, u, q), q, u);
  }

  /** Started at that very tick, it is on when the interlock's wait is over. */
  lemma SwitchesFromRun(c: Config, wait: RelayInterlock.Config, r: Runtime, io: Io, prefix: seq<Event>, q: Phase)
    requires q != Idle && prefix != [] && Ordered(prefix)
    requires MaxRun(c, q) == 0 || MaxRun(c, q) > RelayInterlock.WaitFor(wait, RelayOf(q))
    requires var (s, t) := (RuntimeAfter(c, r, prefix, |prefix|), prefix[|prefix| - 1].at);
             && s.equipment.phase == q && !s.lockout && s.equipment.since == At(t)
             && IoAfter(c, wait, r, io, prefix, |prefix|) == Changing(q, At(t))
    ensures var t := prefix[|prefix| - 1].at;
            var v := t + RelayInterlock.WaitFor(wait, RelayOf(q));
            BringsOn(c, wait, r, io, prefix, Wait(t, v, q), q, v)
  {
    hide *;
    var (s, t) := (RuntimeAfter(c, r, prefix, |prefix|), prefix[|prefix| - 1].at);
    var v := t + RelayInterlock.WaitFor(wait, RelayOf(q));
    WaitedOn(c, wait, s, t, q);
    SwitchIsOrdered(prefix, s, t, v, q);
    Continues(c, wait, r, io, prefix, Wait(t, v, q), q, v);
  }

  /**
   What a lockout lifted too early leaves: where the relay of `p` goes off, the runtime is idle with the
   stamps it had, or runs `q` already with the interlock waiting for it.
   */
  lemma AfterLifting(c: Config, wait: RelayInterlock.Config, r: Runtime, io: Io, prefix: seq<Event>, p: Phase, q: Phase)
    requires p != Idle && q != Idle && p != q && prefix != [] && InOperation(r, io, p)
    requires GoesOff(c, wait, r, io, prefix, |prefix| - 1, p)
    requires Lifted(prefix, |prefix| - 1) && !MustBeOff(RuntimeAfter(c, r, prefix, |prefix|))
    ensures var (e, s, t) := (RuntimeAfter(c, r, prefix, |prefix| - 1).equipment, RuntimeAfter(c, r, prefix, |prefix|),
                              prefix[|prefix| - 1].at);
            && !s.lockout
            && if s.equipment.phase == q then
                 s.equipment.since == At(t) && IoAfter(c, wait, r, io, prefix, |prefix|) == Changing(q, At(t))
               else s.equipment.phase == Idle && s.equipment.since == e.since && SameOff(e, s.equipment, q)
  {
    hide RuntimeAfter, At, SameOff, Elapsed, Ready, Shows, On, MustBeOff, MaxRun, MinRun, CallOf, HasOff, OffAt, MinOff,
         RelayInterlock.Latched, RelayInterlock.Applied, Tripped, Released, Changing;
    var i := |prefix| - 1;
    OffMeansIdle(c, wait, r, io, prefix, i, p);
    OutputFollows(c, wait, r, io, prefix, i, p);
    TrippedIsIdle(c, r, prefix, i);
    ShownAfterTick(c, r, prefix, i);
    IoStaysLatched(c, wait, r, io, prefix, i);
    StaysInitialized(c, wait, r, io, prefix, i);
    EventMoves(c, r, prefix, i, p);
    EventMoves(c, r, prefix, i, q);
    var s := RuntimeAfter(c, r, prefix, i + 1);
    if s.equipment.phase == p {
      StaysOn(wait, IoAfter(c, wait, r, io, prefix, i), At(prefix[i].at), s, p);
    } else if s.equipment.phase == q {
      PendingFor(wait, IoAfter(c, wait, r, io, prefix, i), s, At(prefix[i].at), p, q);
    }
  }

  /** The stamps at the last event are less than 2^32 ms old, and `q` has had its rest by the time it could start. */
  ghost predicate FitToSwitch(c: Config, wait: RelayInterlock.Config, e: Equipment, q: Phase, since: nat, off: nat,
                              t: nat) {
    && e.since == At(since) && since < t && t + c.minIdle < since + U32
    && (HasOff(e, q) ==> OffAt(e, q) == At(off) && off + MinOff(c, q) <= Later(t, since + c.minIdle) < off + U32)
    && c.minIdle > RelayInterlock.WaitFor(wait, RelayOf(q))
    && (MaxRun(c, q) == 0 || MaxRun(c, q) > RelayInterlock.WaitFor(wait, RelayOf(q)))
  }

  /**
   Where the relay of heating goes off, the idle time before cooling's comes on is guaranteed exactly
   unless a lockout since the tick before was lifted again and nothing must be off: then some
   continuation is sooner, however short the run was. And the same with heating and cooling exchanged.
   */
  lemma IdleTimeIsGuaranteedExactly(c: Config, wait: RelayInterlock.Config, r: Runtime, io: Io, prefix: seq<Event>,
                                    p: Phase, q: Phase, since: nat, off: nat)
    requires p != Idle && q != Idle && p != q && prefix != [] && Ordered(prefix) && InOperation(r, io, p) &&
             !r.relay.spare
    requires GoesOff(c, wait, r, io, prefix, |prefix| - 1, p)
    requires FitToSwitch(c, wait, RuntimeAfter(c, r, prefix, |prefix| - 1).equipment, q, since, off,
                         prefix[|prefix| - 1].at)
    ensures IdlesAfter(c, wait, r, io, prefix, q, c.minIdle)
      <==> !Lifted(prefix, |prefix| - 1) || MustBeOff(RuntimeAfter(c, r, prefix, |prefix|))
  {
    hide RuntimeAfter, IoAfter, IdlesAfter, GoesOff, Lifted, Ordered, MustBeOff, At, BringsOn, Changing,
         RelayInterlock.WaitFor, MaxRun, MinOff, HasOff, OffAt, RelayInterlock.Latched, On, Switch, Wait;
    if Lifted(prefix, |prefix| - 1) && !MustBeOff(RuntimeAfter(c, r, prefix, |prefix|)) {
      var (s, t) := (RuntimeAfter(c, r, prefix, |prefix|), prefix[|prefix| - 1].at);
      AfterLifting(c, wait, r, io, prefix, p, q);
      if s.equipment.phase == q {
        SwitchesFromRun(c, wait, r, io, prefix, q);
        var v := t + RelayInterlock.WaitFor(wait, RelayOf(q));
        BringingOnRefutes(c, wait, r, io, prefix, Wait(t, v, q), q, v, c.minIdle);
      } else {
        SpareStaysOff(c, r, prefix, |prefix|);
        var u := Later(t, since + c.minIdle);
        SwitchesFromIdle(c, wait, r, io, prefix, q, since, off);
        BringingOnRefutes(c, wait, r, io, prefix, Switch(s, t, u, q), q, u, c.minIdle);
      }
    } else {
      IdleTimeIsGuaranteed(c, wait, r, io, prefix, p, q);
    }
  }
}
