/**
 Runtime and relay interlock together, as the main loop runs them: each tick of the runtime is
 followed by one pass of the interlock over the relays it demands.
 */
module SafetyChain {
  import opened Clock
  import opened HvacRuntime
  import opened EquipmentRuns
  import RelayInterlock

  type Io = RelayInterlock.Io

  /** The interlock after the first `n` events. */
  function IoAfter(c: Config, wait: RelayInterlock.Config, r: Runtime, io: Io, events: seq<Event>, n: nat): Io
    requires n <= |events|
  {
    if n == 0 then io
    else
      var before := IoAfter(c, wait, r, io, events, n - 1);
      if events[n - 1].op.Tick? then
        var s := RuntimeAfter(c, r, events, n);
        RelayInterlock.Applied(wait, before, At(events[n - 1].at), s.relay, MustBeOff(s))
      else before
  }

  predicate On(output: Relays, p: Phase) {
    if p == Heating then output.heat else output.cool
  }

  // ---- Every pass ---------------------------------------------------------------------

  lemma {:induction false} IoStaysLatched(c: Config, wait: RelayInterlock.Config, r: Runtime, io: Io,
                                          events: seq<Event>, n: nat)
    requires RelayInterlock.Latched(io) && n <= |events|
    ensures RelayInterlock.Latched(IoAfter(c, wait, r, io, events, n))
  {
    hide RuntimeAfter, RelayInterlock.Applied, RelayInterlock.Latched, MustBeOff, At;
    if n > 0 {
      IoStaysLatched(c, wait, r, io, events, n - 1);
      if events[n - 1].op.Tick? {
        var s := RuntimeAfter(c, r, events, n);
        RelayInterlock.OutputIsSafe(wait, IoAfter(c, wait, r, io, events, n - 1), At(events[n - 1].at), s.relay,
                                    MustBeOff(s));
      }
    }
  }

  lemma ShownAfterTick(c: Config, r: Runtime, events: seq<Event>, n: nat)
    requires n < |events| && events[n].op.Tick?
    ensures var s := RuntimeAfter(c, r, events, n + 1);
            && Shows(s) && (MustBeOff(s) ==> s.equipment.phase == Idle && s.equipment.since == At(events[n].at))
            && s.lockout == RuntimeAfter(c, r, events, n).lockout
  {
    var (s, e) := (RuntimeAfter(c, r, events, n), events[n]);
    TickMoves(c, s, At(e.at), e.op.heatCall, e.op.coolCall, e.op.hasTemp, Heating);
    hide Ticked, Moves, At, Shows, MustBeOff;
  }

  /**
   At every pass the backend sees at most one relay, only one that the runtime demands, and none
   under failsafe or lockout; heat means a heating run and cool a cooling run.
   */
  lemma EveryPassIsSafe(c: Config, wait: RelayInterlock.Config, r: Runtime, io: Io, events: seq<Event>, n: nat)
    requires RelayInterlock.Latched(io) && n < |events| && events[n].op.Tick?
    ensures var (s, after) := (RuntimeAfter(c, r, events, n + 1), IoAfter(c, wait, r, io, events, n + 1));
            && after.initialized && RelayInterlock.AtMostOne(after.output) &&
               RelayInterlock.Within(after.output, s.relay)
            && (MustBeOff(s) ==> after.output == ALL_OFF)
            && (after.output.heat ==> s.equipment.phase == Heating) &&
               (after.output.cool ==> s.equipment.phase == Cooling)
  {
    hide RuntimeAfter, RelayInterlock.Applied, RelayInterlock.Latched, MustBeOff, At, RelayInterlock.AtMostOne;
    IoStaysLatched(c, wait, r, io, events, n);
    ShownAfterTick(c, r, events, n);
    var s := RuntimeAfter(c, r, events, n + 1);
    RelayInterlock.OutputIsSafe(wait, IoAfter(c, wait, r, io, events, n), At(events[n].at), s.relay, MustBeOff(s));
  }

  // ---- From heating to cooling and back -----------------------------------------------

  /** A lockout has been set since the last tick. */
  predicate Tripped(events: seq<Event>, n: nat)
    requires n <= |events|
  {
    n > 0 && match events[n - 1].op
             case Tick(_, _, _) => false
             case SetLockout(on) => on || Tripped(events, n - 1)
             case _ => Tripped(events, n - 1)
  }

  /** What was last done to the lockout since the last tick was to lift it. */
  predicate Released(events: seq<Event>, n: nat)
    requires n <= |events|
  {
    n > 0 && match events[n - 1].op
             case Tick(_, _, _) => false
             case SetLockout(on) => !on
             case _ => Released(events, n - 1)
  }

  /** A lockout has been set since the last tick and is lifted again. */
  predicate Lifted(events: seq<Event>, n: nat)
    requires n <= |events|
  {
    Tripped(events, n) && Released(events, n)
  }

  /** What is on is running, or was stopped by a lockout since the last tick. */
  predicate Follows(r: Runtime, io: Io, tripped: bool, released: bool, p: Phase) {
    On(io.output, p) ==>
      r.equipment.phase == p || (tripped && r.equipment.phase == Idle && r.lockout == !released)
  }

  lemma LockoutOf(c: Config, r: Runtime, e: Event)
    requires !e.op.Tick?
    ensures Stepped(c, r, e).lockout == if e.op.SetLockout? then e.op.on else r.lockout
  {
    if e.op.Command? {
      CommandKeeps(r, e.op.cmd, e.op.mac);
    }
    hide Ticked, Commanded;
  }

  /** Between ticks the backend keeps its output, and only a lockout changes what it follows. */
  lemma FollowsBetweenTicks(c: Config, r: Runtime, e: Event, io: Io, tripped: bool, released: bool, p: Phase)
    requires p != Idle && !e.op.Tick? && Follows(r, io, tripped, released, p)
    ensures Follows(Stepped(c, r, e), io, if e.op.SetLockout? then e.op.on || tripped else tripped,
                    if e.op.SetLockout? then !e.op.on else released, p)
  {
    OtherMoves(c, r, e, p);
    LockoutOf(c, r, e);
    hide Stepped, SameOff, On;
  }

  lemma {:induction false} OutputFollows(c: Config, wait: RelayInterlock.Config, r: Runtime, io: Io,
                                         events: seq<Event>, n: nat, p: Phase)
    requires p != Idle && n <= |events|
    requires RelayInterlock.Latched(io) && (On(io.output, p) ==> r.equipment.phase == p)
    ensures Follows(RuntimeAfter(c, r, events, n), IoAfter(c, wait, r, io, events, n), Tripped(events, n),
                    Released(events, n), p)
  {
    hide RelayInterlock.Latched, MustBeOff, At, RelayInterlock.AtMostOne, RelayInterlock.Within,
         RelayInterlock.Applied, Stepped;
    if n > 0 {
      OutputFollows(c, wait, r, io, events, n - 1, p);
      var e := events[n - 1];
      if e.op.Tick? {
        EveryPassIsSafe(c, wait, r, io, events, n - 1);
        hide RuntimeAfter, IoAfter;
      } else {
        FollowsBetweenTicks(c, RuntimeAfter(c, r, events, n - 1), e, IoAfter(c, wait, r, io, events, n - 1),
                            Tripped(events, n - 1), Released(events, n - 1), p);
        hide Follows;
      }
    }
  }

  /** A relay that is on and still demanded stays on. */
  lemma StaysOn(wait: RelayInterlock.Config, io: Io, now: u32, r: Runtime, p: Phase)
    requires p != Idle && RelayInterlock.Latched(io) && io.initialized && On(io.output, p)
    requires Shows(r) && r.equipment.phase == p && !MustBeOff(r)
    ensures On(RelayInterlock.Applied(wait, io, now, r.relay, MustBeOff(r)).output, p)
  {
    hide MustBeOff, Since;
  }

  lemma {:induction false} StaysInitialized(c: Config, wait: RelayInterlock.Config, r: Runtime, io: Io,
                                            events: seq<Event>, n: nat)
    requires io.initialized && n <= |events|
    ensures IoAfter(c, wait, r, io, events, n).initialized
  {
    if n > 0 {
      StaysInitialized(c, wait, r, io, events, n - 1);
    }
    hide RuntimeAfter, MustBeOff, At, Since, RelayInterlock.WaitFor, RelayInterlock.ToDemand;
  }

  /** The relay of `p` goes off at event `i`, having been on. */
  predicate GoesOff(c: Config, wait: RelayInterlock.Config, r: Runtime, io: Io, events: seq<Event>, i: nat, p: Phase)
    requires i < |events|
  {
    On(IoAfter(c, wait, r, io, events, i).output, p) && !On(IoAfter(c, wait, r, io, events, i + 1).output, p)
  }

  /** An interlock in operation whose relay, if on, is that of the run. */
  predicate InOperation(r: Runtime, io: Io, p: Phase) {
    RelayInterlock.Latched(io) && io.initialized && (On(io.output, p) ==> r.equipment.phase == p)
  }

  /**
   Where a relay goes off it is at a tick, and the runtime becomes idle at that very tick unless a
   lockout since the tick before was lifted again and nothing must be off now.
   */
  lemma OffMeansIdle(c: Config, wait: RelayInterlock.Config, r: Runtime, io: Io, events: seq<Event>, i: nat, p: Phase)
    requires p != Idle && i < |events| && InOperation(r, io, p) && GoesOff(c, wait, r, io, events, i, p)
    ensures events[i].op.Tick?
    ensures var s := RuntimeAfter(c, r, events, i + 1);
            if Lifted(events, i) && !MustBeOff(s) then RuntimeAfter(c, r, events, i).equipment.phase in {p, Idle}
            else s.equipment.phase == Idle && s.equipment.since == At(events[i].at)
  {
    OutputFollows(c, wait, r, io, events, i, p);
    EventMoves(c, r, events, i, p);
    ShownAfterTick(c, r, events, i);
    IoStaysLatched(c, wait, r, io, events, i);
    StaysInitialized(c, wait, r, io, events, i);
    hide RuntimeAfter, RelayInterlock.Applied, RelayInterlock.Latched, At, SameOff, Elapsed, Shows, On, Tripped,
         Released, Ready;
    var s := RuntimeAfter(c, r, events, i + 1);
    if s.equipment.phase == p && !MustBeOff(s) {
      StaysOn(wait, IoAfter(c, wait, r, io, events, i), At(events[i].at), s, p);
    }
  }

  lemma {:induction false} LastStart(c: Config, r: Runtime, events: seq<Event>, q: Phase, i: nat, n: nat)
    returns (k: nat)
    requires i < n <= |events| && PhaseAt(c, r, events, i) != q && PhaseAt(c, r, events, n) == q
    ensures i <= k < n && Starts(c, r, events, q, k)
  {
    hide RuntimeAfter;
    if PhaseAt(c, r, events, n - 1) != q {
      k := n - 1;
    } else {
      k := LastStart(c, r, events, q, i, n - 1);
    }
  }

  /**
   The backend sees at least the minimum idle time between heat going off and cool coming on, and the
   other way round, unless a lockout since the tick before was lifted again when the relay goes off.
   */
  lemma ChangeoverTakesIdleTime(c: Config, wait: RelayInterlock.Config, r: Runtime, io: Io, events: seq<Event>,
                                p: Phase, q: Phase, i: nat, j: nat)
    requires p != Idle && q != Idle && p != q && i < j < |events| && Ordered(events)
    requires InOperation(r, io, p) && GoesOff(c, wait, r, io, events, i, p)
    requires !Lifted(events, i) || MustBeOff(RuntimeAfter(c, r, events, i + 1))
    requires events[j].op.Tick? && On(IoAfter(c, wait, r, io, events, j + 1).output, q)
    ensures events[j].at - events[i].at >= c.minIdle
  {
    hide RuntimeAfter, IoAfter, RelayInterlock.Latched, RelayInterlock.AtMostOne, RelayInterlock.Within, At, Since,
         SameOff, MustBeOff, Lifted, MaxRun, MinRun, CallOf, HasOff, OffAt, GoesOff;
    OffMeansIdle(c, wait, r, io, events, i, p);
    EveryPassIsSafe(c, wait, r, io, events, j);
    var k := LastStart(c, r, events, q, i + 1, j + 1);
    var m := SinceOfTick(c, r, events, i, k);
    EventMoves(c, r, events, k, q);
    SinceIsElapsed(events[k].at, events[m].at);
  }
}
