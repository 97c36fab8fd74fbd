/**
 When the minimum off time is guaranteed: exactly after a run that a tick ended. A lockout between
 ticks stamps no off time, held or not, and leaves only the idle time to wait.
 */
module RestGuarantee {
  import opened Clock
  import opened HvacRuntime
  import opened EquipmentRuns

  /** However the run goes on, `p` starts no sooner than `rest` after its last event. */
  ghost predicate RestsAfter(c: Config, r: Runtime, prefix: seq<Event>, p: Phase, rest: nat)
    requires prefix != []
  {
    forall more: seq<Event>, j: nat ::
      Ordered(prefix + more) && |prefix| <= j < |prefix + more| && Starts(c, r, prefix + more, p, j) ==>
        (prefix + more)[j].at - prefix[|prefix| - 1].at >= rest
  }

  // ---- After a tick -------------------------------------------------------------------

  lemma TickGuaranteesRest(c: Config, r: Runtime, prefix: seq<Event>, p: Phase)
    requires p != Idle && prefix != [] && prefix[|prefix| - 1].op.Tick? && Ends(c, r, prefix, p, |prefix| - 1)
    ensures RestsAfter(c, r, prefix, p, MinOff(c, p))
  {
    var i := |prefix| - 1;
    forall more: seq<Event>, j: nat
      | Ordered(prefix + more) && |prefix| <= j < |prefix + more| && Starts(c, r, prefix + more, p, j)
      ensures (prefix + more)[j].at - prefix[i].at >= MinOff(c, p)
    {
      PrefixAgrees(c, r, prefix, more, i);
      PrefixAgrees(c, r, prefix, more, i + 1);
      hide RuntimeAfter, Ordered;
      RestAfterRun(c, r, prefix + more, p, i, j);
    }
  }

  // ---- After a lockout ----------------------------------------------------------------

  /** The lockout lifted and the windows shut at `t`, and at `u` a heartbeat and a tick that calls for `p` alone. */
  function Restart(t: nat, u: nat, p: Phase): seq<Event> {
    [Event(t, SetLockout(false)), Event(t, SetWindows(false)), Event(u, Heartbeat),
     Event(u, Tick(p == Heating, p == Cooling, true))]
  }

  lemma HeartbeatIsFresh(now: u32, timeout: u32)
    ensures !FailsafeTimedOut(now, now, timeout)
  {
  }

  /** It starts `p` if that is ready at `u`, whatever kept it off before. */
  lemma RestartStarts(c: Config, r: Runtime, t: nat, u: nat, p: Phase)
    requires p != Idle && r.equipment.phase == Idle && Ready(c, r.equipment, At(u), p)
    ensures Starts(c, r, Restart(t, u, p), p, 3)
  {
    var more := Restart(t, u, p);
    var s := LockedOut(r, false).(windowsOpen := false, heartbeat := At(u));
    assert RuntimeAfter(c, r, more, 0) == r;
    assert RuntimeAfter(c, r, more, 1) == LockedOut(r, false);
    assert RuntimeAfter(c, r, more, 2) == LockedOut(r, false).(windowsOpen := false);
    assert RuntimeAfter(c, r, more, 3) == s;
    HeartbeatIsFresh(At(u), c.failsafeTimeout);
    hide Ready, FailsafeTimedOut, Ticked, At;
    ReadyStarts(c, s, At(u), p);
  }

  lemma RestartIsOrdered(prefix: seq<Event>, t: nat, u: nat, p: Phase)
    requires prefix != [] && Ordered(prefix) && prefix[|prefix| - 1].at == t <= u
    ensures Ordered(prefix + Restart(t, u, p))
  {
  }

  /** The later of two times. */
  function Later(a: nat, b: nat): nat {
    if a >= b then a else b
  }

  /** Idle at `t`, the time stamp that of `since` and the off time already over then, both less than 2^32 ms old. */
  predicate OnlyIdling(c: Config, e: Equipment, p: Phase, since: nat, off: nat, t: nat) {
    && e.phase == Idle && e.since == At(since) && since <= t && t + c.minIdle < since + U32
    && (HasOff(e, p) ==> OffAt(e, p) == At(off) && off + MinOff(c, p) <= since && t + c.minIdle < off + U32)
  }

  lemma ReadyBy(c: Config, e: Equipment, p: Phase, since: nat, off: nat, t: nat)
    requires p != Idle && OnlyIdling(c, e, p, since, off, t)
    ensures Ready(c, e, At(Later(t, since + c.minIdle)), p)
  {
    var u := Later(t, since + c.minIdle);
    SinceIsElapsed(u, since);
    if HasOff(e, p) {
      SinceIsElapsed(u, off);
    }
    hide At, Since;
  }

  /**
   While equipment that a lockout stopped stays off, some continuation starts it as soon as the idle
   time since the last stamp is over, and at once if it is already: the minimum off time plays no part.
   */
  lemma IdleTimeIsAllThatIsLeft(c: Config, r: Runtime, prefix: seq<Event>, p: Phase, since: nat, off: nat)
    requires p != Idle && prefix != [] && Ordered(prefix)
    requires OnlyIdling(c, RuntimeAfter(c, r, prefix, |prefix|).equipment, p, since, off, prefix[|prefix| - 1].at)
    ensures RestartsAt(c, r, prefix, p, Later(prefix[|prefix| - 1].at, since + c.minIdle))
  {
    hide RuntimeAfter, At, Ordered, HasOff, OffAt, MinOff, RestartsAt, Restart, Starts;
    var (s, t) := (RuntimeAfter(c, r, prefix, |prefix|), prefix[|prefix| - 1].at);
    var u := Later(t, since + c.minIdle);
    assert s.equipment.phase == Idle && t <= u;
    hide *;
    ReadyBy(c, s.equipment, p, since, off, t);
    RestartStarts(c, s, t, u, p);
    RestartIsOrdered(prefix, t, u, p);
    RestartIsShort(t, u, p);
    SuffixAgrees(c, r, prefix, Restart(t, u, p), 3);
    SuffixAgrees(c, r, prefix, Restart(t, u, p), 4);
    RestartFollows(c, r, prefix, t, u, p);
  }

  lemma RestartIsShort(t: nat, u: nat, p: Phase)
    ensures |Restart(t, u, p)| == 4
  {
  }

  /** Some continuation starts `p` at time `u`. */
  ghost predicate RestartsAt(c: Config, r: Runtime, prefix: seq<Event>, p: Phase, u: nat)
    requires prefix != []
  {
    var more := Restart(prefix[|prefix| - 1].at, u, p);
    && Ordered(prefix + more) && |prefix + more| == |prefix| + 4
    && Starts(c, r, prefix + more, p, |prefix| + 3) && (prefix + more)[|prefix| + 3].at == u
  }

  lemma RestartFollows(c: Config, r: Runtime, prefix: seq<Event>, t: nat, u: nat, p: Phase)
    requires prefix != [] && prefix[|prefix| - 1].at == t && |Restart(t, u, p)| == 4
    requires var (s, more) := (RuntimeAfter(c, r, prefix, |prefix|), Restart(t, u, p));
             && Ordered(prefix + more) && Starts(c, s, more, p, 3)
             && (forall n :: 3 <= n <= 4 ==>
                 RuntimeAfter(c, r, prefix + more, |prefix| + n) == RuntimeAfter(c, s, more, n))
    ensures RestartsAt(c, r, prefix, p, u)
  {
    hide RuntimeAfter, Ordered;
    var s, more := RuntimeAfter(c, r, prefix, |prefix|), Restart(t, u, p);
    assert RuntimeAfter(c, r, prefix + more, |prefix| + 3) == RuntimeAfter(c, s, more, 3);
    assert RuntimeAfter(c, r, prefix + more, |prefix| + 4) == RuntimeAfter(c, s, more, 4);
  }

  /** A run of `p` that started at event `a` and that the last event ended, its stamps less than 2^32 ms old. */
  ghost predicate RunJustEnded(c: Config, r: Runtime, prefix: seq<Event>, p: Phase, a: nat, off: nat) {
    && a + 1 < |prefix| && Ordered(prefix) && Starts(c, r, prefix, p, a) && Ends(c, r, prefix, p, |prefix| - 1)
    && (forall k :: a < k < |prefix| ==> PhaseAt(c, r, prefix, k) == p)
    && prefix[|prefix| - 1].at + c.minIdle < prefix[a].at + U32
    && var e := RuntimeAfter(c, r, prefix, a).equipment;
       (HasOff(e, p) ==>
        OffAt(e, p) == At(off) && off <= prefix[a].at && prefix[|prefix| - 1].at + c.minIdle < off + U32)
  }

  lemma StartStamps(c: Config, r: Runtime, events: seq<Event>, p: Phase, a: nat)
    requires p != Idle && a < |events| && Starts(c, r, events, p, a)
    ensures events[a].op.Tick? && RuntimeAfter(c, r, events, a + 1).equipment.since == At(events[a].at)
    ensures SameOff(RuntimeAfter(c, r, events, a).equipment, RuntimeAfter(c, r, events, a + 1).equipment, p)
  {
    EventMoves(c, r, events, a, p);
    hide RuntimeAfter, At, Elapsed, Ready, SameOff, MustBeOff;
  }

  lemma RunStampStep(c: Config, r: Runtime, events: seq<Event>, p: Phase, n: nat)
    requires p != Idle && n < |events| && PhaseAt(c, r, events, n) == p
    requires PhaseAt(c, r, events, n + 1) == p || events[n].op == SetLockout(true)
    ensures RuntimeAfter(c, r, events, n + 1).equipment.since == RuntimeAfter(c, r, events, n).equipment.since
    ensures SameOff(RuntimeAfter(c, r, events, n).equipment, RuntimeAfter(c, r, events, n + 1).equipment, p)
  {
    EventMoves(c, r, events, n, p);
    hide RuntimeAfter, At, Elapsed, Ready, SameOff, MustBeOff;
  }

  /** From its start on, a run leaves the off stamp alone; a lockout that ends it leaves the time stamp alone too. */
  lemma {:induction false} RunKeepsStamps(c: Config, r: Runtime, events: seq<Event>, p: Phase, a: nat, n: nat)
    requires p != Idle && a < n <= |events| && Starts(c, r, events, p, a)
    requires forall k :: a < k < n ==> PhaseAt(c, r, events, k) == p
    requires PhaseAt(c, r, events, n) == p || events[n - 1].op == SetLockout(true)
    ensures events[a].op.Tick? && RuntimeAfter(c, r, events, n).equipment.since == At(events[a].at)
    ensures SameOff(RuntimeAfter(c, r, events, a).equipment, RuntimeAfter(c, r, events, n).equipment, p)
  {
    hide *;
    if n == a + 1 {
      StartStamps(c, r, events, p, a);
    } else {
      assert PhaseAt(c, r, events, n - 1) == p;
      RunKeepsStamps(c, r, events, p, a, n - 1);
      RunStampStep(c, r, events, p, n - 1);
      SameOffTrans(RuntimeAfter(c, r, events, a).equipment, RuntimeAfter(c, r, events, n - 1).equipment,
                   RuntimeAfter(c, r, events, n).equipment, p);
    }
  }

  /** At its start the off time of equipment had passed. */
  lemma StartWasRested(c: Config, r: Runtime, events: seq<Event>, p: Phase, a: nat, off: nat)
    requires p != Idle && a < |events| && Starts(c, r, events, p, a)
    requires var e := RuntimeAfter(c, r, events, a).equipment;
             HasOff(e, p) && OffAt(e, p) == At(off) && off <= events[a].at
    ensures off + MinOff(c, p) <= events[a].at
  {
    EventMoves(c, r, events, a, p);
    SinceIsElapsed(events[a].at, off);
    hide RuntimeAfter, At, Since, SameOff, MinRun, MaxRun, MustBeOff, HasOff, OffAt, MinOff;
  }

  lemma RestartRefutes(c: Config, r: Runtime, prefix: seq<Event>, p: Phase, u: nat, rest: nat)
    requires prefix != [] && RestartsAt(c, r, prefix, p, u) && u - prefix[|prefix| - 1].at < rest
    ensures !RestsAfter(c, r, prefix, p, rest)
  {
    hide RuntimeAfter, Ordered, Starts, Restart;
    var more := Restart(prefix[|prefix| - 1].at, u, p);
    assert Starts(c, r, prefix + more, p, |prefix| + 3);
  }

  lemma LockoutRestart(c: Config, r: Runtime, prefix: seq<Event>, p: Phase, a: nat, off: nat)
    requires p != Idle && RunJustEnded(c, r, prefix, p, a, off) && prefix[|prefix| - 1].op == SetLockout(true)
    ensures RestartsAt(c, r, prefix, p, Later(prefix[|prefix| - 1].at, prefix[a].at + c.minIdle))
  {
    hide RuntimeAfter, At, Elapsed, MustBeOff, RestartsAt, Ready, MinOff, MinRun, MaxRun;
    var i := |prefix| - 1;
    EventMoves(c, r, prefix, i, p);
    RunKeepsStamps(c, r, prefix, p, a, i + 1);
    if HasOff(RuntimeAfter(c, r, prefix, a).equipment, p) {
      StartWasRested(c, r, prefix, p, a, off);
    }
    assert OnlyIdling(c, RuntimeAfter(c, r, prefix, i + 1).equipment, p, prefix[a].at, off, prefix[i].at);
    assert Ordered(prefix);
    hide *;
    IdleTimeIsAllThatIsLeft(c, r, prefix, p, prefix[a].at, off);
  }

  // ---- What a lockout does leave ------------------------------------------------------

  /**
   However a run ended, its equipment starts again only after the idle time since its own start, and
   since every tick in between that found that everything had to be off.
   */
  lemma IdleTimeIsKept(c: Config, r: Runtime, events: seq<Event>, p: Phase, m: nat, j: nat)
    requires p != Idle && m < j < |events| && Ordered(events) && events[m].op.Tick? && Starts(c, r, events, p, j)
    requires Starts(c, r, events, p, m) || MustBeOff(RuntimeAfter(c, r, events, m + 1))
    ensures events[j].at - events[m].at >= c.minIdle
  {
    var e := events[m];
    TickMoves(c, RuntimeAfter(c, r, events, m), At(e.at), e.op.heatCall, e.op.coolCall, e.op.hasTemp, p);
    hide Ticked, At, MustBeOff, SameOff, Elapsed, HasOff, OffAt, MinOff, MinRun, MaxRun, Shows;
    assert RuntimeAfter(c, r, events, m + 1).equipment.since == At(e.at);
    var k := SinceOfTick(c, r, events, m, j);
    StartWaitsIdle(c, r, events, p, k, j);
    hide *;
  }

  lemma StartWaitsIdle(c: Config, r: Runtime, events: seq<Event>, p: Phase, k: nat, j: nat)
    requires p != Idle && k < j < |events| && Ordered(events) && Starts(c, r, events, p, j)
    requires RuntimeAfter(c, r, events, j).equipment.since == At(events[k].at)
    ensures events[j].at - events[k].at >= c.minIdle
  {
    EventMoves(c, r, events, j, p);
    SinceIsElapsed(events[j].at, events[k].at);
    hide RuntimeAfter, At, Since, SameOff, HasOff, OffAt, MinOff, MinRun, MaxRun, MustBeOff;
  }

  /** Whatever ended the run, the idle time since its start is kept. */
  lemma RunGuaranteesIdle(c: Config, r: Runtime, prefix: seq<Event>, p: Phase, a: nat, rest: nat)
    requires p != Idle && prefix != [] && a + 1 < |prefix| && Starts(c, r, prefix, p, a)
    requires prefix[|prefix| - 1].at + rest <= Later(prefix[|prefix| - 1].at, prefix[a].at + c.minIdle)
    ensures RestsAfter(c, r, prefix, p, rest)
  {
    hide RuntimeAfter, Ordered, PhaseAt;
    var i := |prefix| - 1;
    forall more: seq<Event>, j: nat
      | Ordered(prefix + more) && |prefix| <= j < |prefix + more| && Starts(c, r, prefix + more, p, j)
      ensures (prefix + more)[j].at - prefix[i].at >= rest
    {
      StartsAgree(c, r, prefix, more, p, a);
      InOrderOf(prefix + more, i, j);
      IdleTimeIsKept(c, r, prefix + more, p, a, j);
    }
  }

  lemma StartsAgree(c: Config, r: Runtime, prefix: seq<Event>, more: seq<Event>, p: Phase, a: nat)
    requires p != Idle && a + 1 < |prefix| && Starts(c, r, prefix, p, a)
    ensures Starts(c, r, prefix + more, p, a) && (prefix + more)[a].op.Tick?
  {
    PrefixAgrees(c, r, prefix, more, a);
    PrefixAgrees(c, r, prefix, more, a + 1);
    StartStamps(c, r, prefix, p, a);
    hide RuntimeAfter;
  }

  lemma InOrderOf(events: seq<Event>, i: nat, j: nat)
    requires Ordered(events) && i <= j < |events|
    ensures events[i].at <= events[j].at
  {
  }

  /**
   The minimum off time is guaranteed exactly when a tick ended the run, or when it is no longer than
   what is left of the idle time since the run's start: after any other lockout between ticks some
   continuation restarts the equipment too soon.
   */
  lemma RestIsGuaranteedExactly(c: Config, r: Runtime, prefix: seq<Event>, p: Phase, a: nat, off: nat)
    requires p != Idle && RunJustEnded(c, r, prefix, p, a, off)
    ensures var t := prefix[|prefix| - 1].at;
            RestsAfter(c, r, prefix, p, MinOff(c, p)) <==>
              prefix[|prefix| - 1].op.Tick? || t + MinOff(c, p) <= Later(t, prefix[a].at + c.minIdle)
  {
    hide RuntimeAfter, RestsAfter, RestartsAt, At, Ready, MinOff, MinRun, MaxRun, HasOff, OffAt, SameOff, Elapsed;
    var i := |prefix| - 1;
    if prefix[i].op.Tick? {
      TickGuaranteesRest(c, r, prefix, p);
    } else {
      EventMoves(c, r, prefix, i, p);
      assert prefix[i].op == SetLockout(true);
      LockoutRestart(c, r, prefix, p, a, off);
      var u := Later(prefix[i].at, prefix[a].at + c.minIdle);
      hide RunJustEnded;
      if prefix[i].at + MinOff(c, p) <= u {
        RunGuaranteesIdle(c, r, prefix, p, a, MinOff(c, p));
      } else {
        RestartRefutes(c, r, prefix, p, u, MinOff(c, p));
      }
    }
  }

  lemma OffStep(c: Config, r: Runtime, events: seq<Event>, p: Phase, n: nat)
    requires p != Idle && n < |events| && PhaseAt(c, r, events, n + 1) != p
    requires PhaseAt(c, r, events, n) != p || events[n].op == SetLockout(true)
    ensures SameOff(RuntimeAfter(c, r, events, n).equipment, RuntimeAfter(c, r, events, n + 1).equipment, p)
  {
    EventMoves(c, r, events, n, p);
    hide Elapsed, At, RuntimeAfter, HasOff, OffAt, Ready, MustBeOff;
  }

  lemma SameOffTrans(e: Equipment, f: Equipment, g: Equipment, p: Phase)
    requires SameOff(e, f, p) && SameOff(f, g, p)
    ensures SameOff(e, g, p)
  {
  }

  /** Off by a lockout and not yet restarted: no tick stamps an off time, however long the lockout is held. */
  lemma {:induction false} HeldLockoutStampsNothing(c: Config, r: Runtime, events: seq<Event>, p: Phase, i: nat, n: nat)
    requires p != Idle && i < n <= |events| && events[i].op == SetLockout(true)
    requires forall k :: i < k <= n ==> PhaseAt(c, r, events, k) != p
    ensures SameOff(RuntimeAfter(c, r, events, i).equipment, RuntimeAfter(c, r, events, n).equipment, p)
  {
    hide *;
    OffStep(c, r, events, p, n - 1);
    if n > i + 1 {
      HeldLockoutStampsNothing(c, r, events, p, i, n - 1);
      SameOffTrans(RuntimeAfter(c, r, events, i).equipment, RuntimeAfter(c, r, events, n - 1).equipment,
                   RuntimeAfter(c, r, events, n).equipment, p);
    }
  }

  /**
   So a lockout that is held for any number of ticks forgoes the rest too: as long as the equipment is
   idle some continuation restarts it once the idle time since the last such tick is over.
   */
  lemma HeldLockoutForgoesRest(c: Config, r: Runtime, prefix: seq<Event>, p: Phase, i: nat, since: nat, off: nat)
    requires p != Idle && i < |prefix| && Ordered(prefix) && prefix[i].op == SetLockout(true)
    requires forall k :: i < k <= |prefix| ==> PhaseAt(c, r, prefix, k) != p
    requires var (e, t) := (RuntimeAfter(c, r, prefix, |prefix|).equipment, prefix[|prefix| - 1].at);
             && e.phase == Idle && e.since == At(since) && since <= t && t + c.minIdle < since + U32
             && var f := RuntimeAfter(c, r, prefix, i).equipment;
                (HasOff(f, p) ==> OffAt(f, p) == At(off) && off + MinOff(c, p) <= since && t + c.minIdle < off + U32)
    ensures RestartsAt(c, r, prefix, p, Later(prefix[|prefix| - 1].at, since + c.minIdle))
  {
    hide RuntimeAfter, At, Ordered, RestartsAt, PhaseAt;
    HeldLockoutStampsNothing(c, r, prefix, p, i, |prefix|);
    assert OnlyIdling(c, RuntimeAfter(c, r, prefix, |prefix|).equipment, p, since, off, prefix[|prefix| - 1].at);
    hide *;
    IdleTimeIsAllThatIsLeft(c, r, prefix, p, since, off);
  }
}
