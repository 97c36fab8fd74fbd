/**
 The minute tasks: the catch-up loop, filter time against true time, and the share of
 minutes that fan circulation runs, also over whole runs of events.
 */
module MinuteAccounting {
  import opened Clock
  import opened CommandWords
  import opened HvacRuntime
  import opened EquipmentRuns
  import Division
  import RecoveryGrid

  /** `k` minutes of accounting. */
  function AfterMany(r: Runtime, k: nat): Runtime
    decreases k
  {
    if k == 0 then r else AfterMany(AfterMinute(r), k - 1)
  }

  // ---- The catch-up loop --------------------------------------------------------------

  /** The loop accounts for the whole minutes since its mark, and leaves less than one. */
  lemma {:induction false} CatchUpIsWhole(r: Runtime, now: u32)
    ensures AfterMinutes(r, now) == AfterMany(r, Since(now, r.minutes.last) / MINUTE)
    ensures Since(now, AfterMinutes(r, now).minutes.last) == Since(now, r.minutes.last) % MINUTE
    decreases Since(now, r.minutes.last)
  {
    var since := Since(now, r.minutes.last);
    if since >= MINUTE {
      MinuteUses(now, r.minutes.last);
      MinuteAdvances(r);
      Division.Shift(since - MINUTE, MINUTE, 1);
      CatchUpIsWhole(AfterMinute(r), now);
    }
    hide AfterMinute, Since;
  }

  /** What any number of minutes does to the mark and the filter time. */
  lemma {:induction false} ManyMinutes(r: Runtime, k: nat)
    ensures var m := AfterMany(r, k).minutes;
            && m.last == (r.minutes.last + k * MINUTE) % U32
            && m.filterSeconds <= r.minutes.filterSeconds + 60 * k
    decreases k
  {
    if k > 0 {
      ManyMinutes(AfterMinute(r), k - 1);
      MinuteAdvances(r);
      RecoveryGrid.AtPlus(r.minutes.last + MINUTE, (k - 1) * MINUTE);
      OneMinute(r);
    }
    hide AfterMinute;
  }

  lemma OneMinute(r: Runtime)
    ensures AfterMinute(r).minutes.filterSeconds <= r.minutes.filterSeconds + 60
  {
  }

  /**
   The minute tasks in true time. The mark moves by whole minutes and never past now, at most 60 s
   of filter time are added for each, and less than a minute stays owed exactly when less than
   2^32 ms passed since the mark.
   */
  lemma MinutesInTrueTime(r: Runtime, mark: nat, t: nat)
    requires mark <= t && r.minutes.last == At(mark) != 0
    ensures var (s, k) := (WithMinutes(r, At(t)), Since(At(t), At(mark)) / MINUTE);
            && s.minutes.last == At(mark + k * MINUTE) && mark + k * MINUTE <= t
            && s.minutes.filterSeconds <= r.minutes.filterSeconds + 60 * k
            && (t - (mark + k * MINUTE) < MINUTE <==> t - mark < U32)
  {
    CatchUpIsWhole(r, At(t));
    ManyMinutes(r, Since(At(t), At(mark)) / MINUTE);
    RecoveryGrid.MarkKeepsUp(mark, t, MINUTE);
    RecoveryGrid.AtPlus(mark, Since(At(t), At(mark)) / MINUTE * MINUTE);
    hide AfterMany, At, Since, AfterMinutes;
  }

  // ---- Filter time over whole runs ----------------------------------------------------

  predicate Within(r: Runtime, m: Minutes, start: nat, mark: nat) {
    && (m.last == 0 || m.last == At(mark)) && start <= mark
    && m.filterSeconds <= r.minutes.filterSeconds + 60 * ((mark - start) / MINUTE)
  }

  lemma WithinStep(r: Runtime, s: Runtime, start: nat, mark: nat, t: nat) returns (next: nat)
    requires Within(r, s.minutes, start, mark) && mark <= t
    ensures Within(r, WithMinutes(s, At(t)).minutes, start, next) && next <= t
  {
    hide AfterMinutes, At, Since;
    if s.minutes.last == 0 {
      next := t;
      LaterMinutes(start, mark, t);
    } else {
      MinutesInTrueTime(s, mark, t);
      var k := Since(At(t), At(mark)) / MINUTE;
      next := mark + k * MINUTE;
      Division.Shift(mark - start, MINUTE, k);
    }
  }

  lemma LaterMinutes(start: nat, mark: nat, t: nat)
    requires start <= mark <= t
    ensures (mark - start) / MINUTE <= (t - start) / MINUTE
  {
  }

  /** A tick runs the minute tasks on some `s`; no other event moves the mark or adds filter time. */
  lemma EventMinutes(c: Config, r: Runtime, e: Event) returns (s: Runtime)
    ensures var m := Stepped(c, r, e).minutes;
            if e.op.Tick? then s.minutes == r.minutes && m == WithMinutes(s, At(e.at)).minutes
            else m.last == r.minutes.last && m.filterSeconds <= r.minutes.filterSeconds
  {
    s := r;
    if e.op.Tick? {
      s := WithCalls(c, WithFailsafe(c, r, At(e.at), e.op.hasTemp), At(e.at), e.op.heatCall, e.op.coolCall);
      CallsKeep(c, WithFailsafe(c, r, At(e.at), e.op.hasTemp), At(e.at), e.op.heatCall, e.op.coolCall);
      assert s.minutes == r.minutes;
      InterlockKeepsMinutes(WithMinutes(s, At(e.at)), At(e.at));
    }
    hide WithCalls, WithMinutes, Interlocked, FailsafeTimedOut, Checked, AppliedSettings, At;
  }

  lemma InterlockKeepsMinutes(r: Runtime, now: u32)
    ensures Interlocked(r, now).minutes == r.minutes
  {
  }

  /** Whatever happens, the filter time grows by no more than 60 s for each minute that truly passed. */
  lemma {:induction false} FilterTimeIsBounded(c: Config, r: Runtime, events: seq<Event>, start: nat, n: nat)
    returns (mark: nat)
    requires Ordered(events) && 0 < n <= |events| && start <= events[0].at
    requires r.minutes.last in {0, At(start)}
    ensures Within(r, RuntimeAfter(c, r, events, n).minutes, start, mark) && mark <= events[n - 1].at
    ensures RuntimeAfter(c, r, events, n).minutes.filterSeconds
            <= r.minutes.filterSeconds + 60 * ((events[n - 1].at - start) / MINUTE)
  {
    hide Stepped, At, WithMinutes;
    var (s, e) := (RuntimeAfter(c, r, events, n - 1), events[n - 1]);
    if n == 1 {
      mark := start;
      assert (start - start) / MINUTE == 0;
    } else {
      mark := FilterTimeIsBounded(c, r, events, start, n - 1);
    }
    var u := EventMinutes(c, s, e);
    if e.op.Tick? {
      mark := WithinStep(r, u, start, mark, e.at);
    }
    LaterMinutes(start, mark, e.at);
  }

  // ---- Circulation --------------------------------------------------------------------

  /** How many of the minutes `first` to `first + n - 1` have their window open. */
  function OpenWindows(m: Minutes, first: nat, n: nat): nat
    requires m.period > 0
    decreases n
  {
    if n == 0 then 0 else (if WindowOpen(m, first) then 1 else 0) + OpenWindows(m, first + 1, n - 1)
  }

  lemma {:induction false} Append(m: Minutes, first: nat, n: nat)
    requires m.period > 0
    ensures OpenWindows(m, first, n + 1) == OpenWindows(m, first, n) + if WindowOpen(m, first + n) then 1 else 0
    decreases n
  {
    if n > 0 {
      Append(m, first + 1, n - 1);
    }
    hide WindowOpen;
  }

  lemma {:induction false} FirstWindows(m: Minutes, n: nat)
    requires n <= m.period && m.period > 0
    ensures OpenWindows(m, 0, n) == if n < m.duration then n else m.duration
  {
    if n > 0 {
      FirstWindows(m, n - 1);
      Append(m, 0, n - 1);
      Division.Unique(n - 1, m.period, 0, n - 1);
    }
    hide OpenWindows;
  }

  /** The open windows in each period. */
  function Share(m: Minutes): nat {
    if m.duration < m.period then m.duration else m.period
  }

  /** Wherever one starts, a period of minutes has exactly min(duration, period) open windows. */
  lemma {:induction false} PeriodHasDuration(m: Minutes, first: nat)
    requires m.period > 0
    ensures OpenWindows(m, first, m.period) == Share(m)
  {
    if first == 0 {
      FirstWindows(m, m.period);
    } else {
      PeriodHasDuration(m, first - 1);
      Append(m, first - 1, m.period);
      Division.Shift(first - 1, m.period, 1);
    }
  }

  /** How many of the next `k` minutes leave the fan on. */
  function FanMinutes(r: Runtime, k: nat): nat
    decreases k
  {
    if k == 0 then 0 else (if AfterMinute(r).relay.fan then 1 else 0) + FanMinutes(AfterMinute(r), k - 1)
  }

  predicate FreeToCirculate(r: Runtime) {
    && Circulating(r) && r.minutes.period > 0 && r.minutes.duration > 0
    && !r.relay.heat && !r.relay.cool && !r.spareRelay
  }

  lemma FreeMinute(r: Runtime)
    requires FreeToCirculate(r)
    ensures var s := AfterMinute(r);
            && FreeToCirculate(s) && s.minutes.fanElapsed == r.minutes.fanElapsed + 1
            && s.minutes.period == r.minutes.period && s.minutes.duration == r.minutes.duration
            && s.relay.fan == WindowOpen(r.minutes, r.minutes.fanElapsed + 1)
  {
  }

  lemma {:induction false} FanFollowsWindows(r: Runtime, m: Minutes, k: nat)
    requires FreeToCirculate(r) && m.period == r.minutes.period && m.duration == r.minutes.duration
    ensures FanMinutes(r, k) == OpenWindows(m, r.minutes.fanElapsed + 1, k)
    decreases k
  {
    if k > 0 {
      FreeMinute(r);
      FanFollowsWindows(AfterMinute(r), m, k - 1);
    }
    hide AfterMinute;
  }

  /** With heating and cooling off, the fan runs exactly min(duration, period) minutes of any period. */
  lemma CirculationShare(r: Runtime)
    requires FreeToCirculate(r)
    ensures FanMinutes(r, r.minutes.period) == Share(r.minutes)
  {
    FanFollowsWindows(r, r.minutes, r.minutes.period);
    PeriodHasDuration(r.minutes, r.minutes.fanElapsed + 1);
  }

  // ---- Circulation through whole ticks ------------------------------------------------

  /** Circulation has windows to open. */
  predicate HasWindows(m: Minutes) {
    m.period > 0 && m.duration > 0
  }

  /**
   `k` minutes of circulation end with the fan as the window of the last one says; without windows the fan
   stays as it is.
   */
  lemma {:induction false} ManyWindows(r: Runtime, k: nat)
    requires Circulating(r) && !r.spareRelay
    ensures var s := AfterMany(r, k);
            && s.minutes.fanElapsed == r.minutes.fanElapsed + (if HasWindows(r.minutes) then k else 0)
            && s.relay.fan == if k == 0 || !HasWindows(r.minutes) then r.relay.fan
                              else WindowOpen(r.minutes, r.minutes.fanElapsed + k) && !r.relay.heat && !r.relay.cool
    decreases k
  {
    if k > 0 {
      ManyWindows(AfterMinute(r), k - 1);
    }
    hide WindowOpen;
  }

  /** Any minute without circulation starts the count of its minutes anew. */
  lemma {:induction false} ManyWithout(r: Runtime, k: nat)
    requires !Circulating(r)
    ensures AfterMany(r, k).minutes.fanElapsed == if k == 0 then r.minutes.fanElapsed else 0
    decreases k
  {
    if k > 0 {
      ManyWithout(AfterMinute(r), k - 1);
    }
    hide WindowOpen;
  }

  /** The minutes a tick accounts for. */
  function MinutesDue(m: Minutes, now: u32): nat {
    if m.last == 0 then 0 else Since(now, m.last) / MINUTE
  }

  /**
   A tick under circulation leaves the fan off beside heating and cooling, and otherwise on exactly when the
   window of the last minute counted is open. With a period or duration of 0 no window ever closes: the fan
   stays as it was, on if it was on.
   */
  lemma TickCirculates(c: Config, r: Runtime, now: u32, heatCall: bool, coolCall: bool, hasTemp: bool)
    requires r.settings.fan == Circulate && !r.spareRelay && !MustBeOff(WithFailsafe(c, r, now, hasTemp))
    ensures var (s, k) := (Ticked(c, r, now, heatCall, coolCall, hasTemp), MinutesDue(r.minutes, now));
            s.relay.fan == if s.equipment.phase != Idle then false
                           else if k == 0 || !HasWindows(r.minutes) then r.relay.fan
                           else WindowOpen(r.minutes, r.minutes.fanElapsed + k)
  {
    var a := WithFailsafe(c, r, now, hasTemp);
    var b := WithCalls(c, a, now, heatCall, coolCall);
    hide Elapsed, FailsafeTimedOut, WindowOpen;
    CallsKeep(c, a, now, heatCall, coolCall);
    CallsMove(c, a, now, heatCall, coolCall, Heating);
    MinutesKeep(b, now);
    CatchUpIsWhole(b, now);
    ManyWindows(b, MinutesDue(r.minutes, now));
    hide WithCalls, AfterMany, AfterMinutes, Moves, Since;
    InterlockKeeps(WithMinutes(b, now), now);
    InterlockKeepsMinutes(WithMinutes(b, now), now);
  }

  /**
   What the windows are counted from: a tick adds the minutes it accounts for while circulation has windows,
   and when it accounts for any without circulation, or with everything off, the count starts anew.
   */
  lemma TickCountsWindows(c: Config, r: Runtime, now: u32, heatCall: bool, coolCall: bool, hasTemp: bool)
    requires !r.spareRelay
    ensures var (s, k) := (Ticked(c, r, now, heatCall, coolCall, hasTemp), MinutesDue(r.minutes, now));
            s.minutes.fanElapsed
            == if r.settings.fan == Circulate && !MustBeOff(WithFailsafe(c, r, now, hasTemp)) then
                 r.minutes.fanElapsed + (if HasWindows(r.minutes) then k else 0)
               else if k == 0 then r.minutes.fanElapsed else 0
  {
    var a := WithFailsafe(c, r, now, hasTemp);
    var b := WithCalls(c, a, now, heatCall, coolCall);
    hide Elapsed, FailsafeTimedOut, WindowOpen, HasWindows;
    CallsKeep(c, a, now, heatCall, coolCall);
    CallsMove(c, a, now, heatCall, coolCall, Heating);
    CatchUpIsWhole(b, now);
    InterlockKeepsMinutes(WithMinutes(b, now), now);
    hide WithCalls, AfterMany, AfterMinutes, Moves, Since, Interlocked;
    if Circulating(b) {
      ManyWindows(b, MinutesDue(r.minutes, now));
    } else {
      ManyWithout(b, MinutesDue(r.minutes, now));
    }
  }

  // ---- Circulation over whole runs ----------------------------------------------------

  lemma {:induction false} WindowsAddUp(m: Minutes, first: nat, n: nat, k: nat)
    requires m.period > 0
    ensures OpenWindows(m, first, n + k) == OpenWindows(m, first, n) + OpenWindows(m, first + n, k)
    decreases n
  {
    if n > 0 {
      WindowsAddUp(m, first + 1, n - 1, k);
    }
    hide WindowOpen;
  }

  lemma Product(q: nat, d: nat)
    ensures q * d >= 0
    ensures q > 0 ==> q * d == (q - 1) * d + d
  {
  }

  lemma {:induction false} PeriodsHaveDurations(m: Minutes, first: nat, q: nat, n: nat)
    requires m.period > 0 && n == q * m.period
    ensures OpenWindows(m, first, n) == q * Share(m)
    decreases q
  {
    Product(q, m.period);
    Product(q, Share(m));
    if q == 0 {
      NoWindows(m, first);
    } else {
      var before := n - m.period;
      hide OpenWindows, Share;
      PeriodsHaveDurations(m, first, q - 1, before);
      WindowsAddUp(m, first, before, m.period);
      PeriodHasDuration(m, first + before);
    }
  }

  lemma NoWindows(m: Minutes, first: nat)
    requires m.period > 0
    ensures OpenWindows(m, first, 0) == 0
  {
  }

  /** The runtime of a tick when its minute tasks begin. */
  function Called(c: Config, r: Runtime, e: Event): Runtime
    requires e.op.Tick?
  {
    WithCalls(c, WithFailsafe(c, r, At(e.at), e.op.hasTemp), At(e.at), e.op.heatCall, e.op.coolCall)
  }

  /** The minutes accounted for by the first `n` events. */
  function MinutesOver(c: Config, r: Runtime, events: seq<Event>, n: nat): nat
    requires n <= |events|
  {
    if n == 0 then 0
    else
      var e := events[n - 1];
      MinutesOver(c, r, events, n - 1)
      + if e.op.Tick? then MinutesDue(RuntimeAfter(c, r, events, n - 1).minutes, At(e.at)) else 0
  }

  /** How many of them left the fan on. */
  function FanMinutesOver(c: Config, r: Runtime, events: seq<Event>, n: nat): nat
    requires n <= |events|
  {
    if n == 0 then 0
    else
      var (s, e) := (RuntimeAfter(c, r, events, n - 1), events[n - 1]);
      FanMinutesOver(c, r, events, n - 1)
      + if e.op.Tick? then FanMinutes(Called(c, s, e), MinutesDue(s.minutes, At(e.at))) else 0
  }

  /** Every tick finds circulation on with these settings, and heating and cooling off. */
  predicate FreeTicks(c: Config, r: Runtime, events: seq<Event>, m: Minutes) {
    forall k :: 0 <= k < |events| && events[k].op.Tick? ==>
      var b := Called(c, RuntimeAfter(c, r, events, k), events[k]);
      FreeToCirculate(b) && b.minutes.period == m.period && b.minutes.duration == m.duration
  }

  lemma FreeTick(c: Config, r: Runtime, e: Event, m: Minutes)
    requires e.op.Tick?
    requires var b := Called(c, r, e);
             FreeToCirculate(b) && b.minutes.period == m.period && b.minutes.duration == m.duration
    ensures var k := MinutesDue(r.minutes, At(e.at));
            && Stepped(c, r, e).minutes.fanElapsed == r.minutes.fanElapsed + k
            && FanMinutes(Called(c, r, e), k) == OpenWindows(m, r.minutes.fanElapsed + 1, k)
  {
    var b := Called(c, r, e);
    var k := MinutesDue(r.minutes, At(e.at));
    CallsKeep(c, WithFailsafe(c, r, At(e.at), e.op.hasTemp), At(e.at), e.op.heatCall, e.op.coolCall);
    hide WithCalls, At, Interlocked, FailsafeTimedOut, OpenWindows, FanMinutes;
    CatchUpIsWhole(b, At(e.at));
    ManyWindows(b, k);
    FanFollowsWindows(b, m, k);
    InterlockKeepsMinutes(WithMinutes(b, At(e.at)), At(e.at));
    hide AfterMany, AfterMinutes, Since, WindowOpen;
  }

  lemma OtherKeepsElapsed(c: Config, r: Runtime, e: Event)
    requires !e.op.Tick?
    ensures Stepped(c, r, e).minutes.fanElapsed == r.minutes.fanElapsed
  {
    hide Checked, AppliedSettings, Ticked, At;
  }

  lemma {:induction false} RunFollowsWindows(c: Config, r: Runtime, events: seq<Event>, m: Minutes, n: nat)
    requires n <= |events| && m.period > 0 && FreeTicks(c, r, events, m)
    ensures var k := MinutesOver(c, r, events, n);
            && RuntimeAfter(c, r, events, n).minutes.fanElapsed == r.minutes.fanElapsed + k
            && FanMinutesOver(c, r, events, n) == OpenWindows(m, r.minutes.fanElapsed + 1, k)
  {
    hide Stepped, Called, OpenWindows, FanMinutes, MinutesDue, At, FreeToCirculate;
    if n > 0 {
      var (s, e) := (RuntimeAfter(c, r, events, n - 1), events[n - 1]);
      RunFollowsWindows(c, r, events, m, n - 1);
      if e.op.Tick? {
        FreeTick(c, s, e, m);
        WindowsAddUp(m, r.minutes.fanElapsed + 1, MinutesOver(c, r, events, n - 1), MinutesDue(s.minutes, At(e.at)));
      } else {
        OtherKeepsElapsed(c, s, e);
      }
    } else {
      NoWindows(m, r.minutes.fanElapsed + 1);
    }
  }

  /** Over a run of events, the fan is on for min(duration, period) of every period of minutes accounted for. */
  lemma RunKeepsShare(c: Config, r: Runtime, events: seq<Event>, m: Minutes, n: nat, q: nat)
    requires n <= |events| && m.period > 0 && FreeTicks(c, r, events, m)
    requires MinutesOver(c, r, events, n) == q * m.period
    ensures FanMinutesOver(c, r, events, n) == q * Share(m)
  {
    RunFollowsWindows(c, r, events, m, n);
    PeriodsHaveDurations(m, r.minutes.fanElapsed + 1, q, MinutesOver(c, r, events, n));
    hide FanMinutesOver, MinutesOver, OpenWindows, FreeTicks, RuntimeAfter;
  }

  /** Only ticks set the mark, and at clock 0 a tick sets none. */
  lemma {:induction false} Unmarked(c: Config, r: Runtime, events: seq<Event>, n: nat)
    requires n <= |events| && r.minutes.last == 0
    requires forall k :: 0 <= k < n && events[k].op.Tick? ==> At(events[k].at) == 0
    ensures RuntimeAfter(c, r, events, n).minutes.last == 0
  {
    hide Stepped, At;
    if n > 0 {
      Unmarked(c, r, events, n - 1);
      var s := EventMinutes(c, RuntimeAfter(c, r, events, n - 1), events[n - 1]);
    }
  }

  /** From boot the first tick at another reading of the clock than 0 sets the mark there, and counts nothing yet. */
  lemma FirstTickMarks(c: Config, r: Runtime, events: seq<Event>, i: nat)
    requires i < |events| && r.minutes.last == 0 && events[i].op.Tick? && At(events[i].at) != 0
    requires forall k :: 0 <= k < i && events[k].op.Tick? ==> At(events[k].at) == 0
    ensures var (s, t) := (RuntimeAfter(c, r, events, i).minutes, RuntimeAfter(c, r, events, i + 1).minutes);
            t.last == At(events[i].at) && t.filterSeconds == s.filterSeconds && t.fanElapsed == s.fanElapsed
  {
    Unmarked(c, r, events, i);
    var s := EventMinutes(c, RuntimeAfter(c, r, events, i), events[i]);
    hide Stepped, At, AfterMinutes;
  }

  /** When the last of the first `n` events that is a tick came, or else `mark`. */
  function TickTime(events: seq<Event>, mark: nat, n: nat): nat
    requires n <= |events|
  {
    if n == 0 then mark else if events[n - 1].op.Tick? then events[n - 1].at else TickTime(events, mark, n - 1)
  }

  /** Ticks come less than 2^32 ms less a minute apart, and none finds the mark at residue 0, which means none. */
  predicate TicksInTime(c: Config, r: Runtime, events: seq<Event>, mark: nat) {
    forall k :: 0 <= k < |events| && events[k].op.Tick? ==>
      && TickTime(events, mark, k) <= events[k].at < TickTime(events, mark, k) + U32 - MINUTE
      && RuntimeAfter(c, r, events, k).minutes.last != 0
  }

  /** The minutes accounted for are the whole ones that truly passed from the mark to the last tick. */
  lemma {:induction false} RunCountsTrueMinutes(c: Config, r: Runtime, events: seq<Event>, mark: nat, n: nat)
    requires n <= |events| && r.minutes.last == At(mark) && TicksInTime(c, r, events, mark)
    ensures var (k, t) := (MinutesOver(c, r, events, n), TickTime(events, mark, n));
            && RuntimeAfter(c, r, events, n).minutes.last == At(mark + k * MINUTE)
            && mark <= t && k == (t - mark) / MINUTE
  {
    hide Stepped, At, MinutesDue;
    if n > 0 {
      var (s, e) := (RuntimeAfter(c, r, events, n - 1), events[n - 1]);
      var k, t := MinutesOver(c, r, events, n - 1), TickTime(events, mark, n - 1);
      RunCountsTrueMinutes(c, r, events, mark, n - 1);
      var u := EventMinutes(c, s, e);
      if e.op.Tick? {
        RecoveryGrid.Quotient(t - mark, MINUTE);
        TickCountsTrueMinutes(u, mark, k, t, e.at);
        hide TicksInTime, WithMinutes;
        assert MinutesDue(s.minutes, At(e.at)) == MinutesDue(u.minutes, At(e.at));
      }
    } else {
      Division.Unique(0, MINUTE, 0, 0);
    }
  }

  lemma TickCountsTrueMinutes(r: Runtime, mark: nat, k: nat, before: nat, t: nat)
    requires r.minutes.last == At(mark + k * MINUTE) != 0
    requires mark + k * MINUTE <= before < mark + k * MINUTE + MINUTE && before <= t < before + U32 - MINUTE
    ensures var due := MinutesDue(r.minutes, At(t));
            && WithMinutes(r, At(t)).minutes.last == At(mark + (k + due) * MINUTE)
            && k + due == (t - mark) / MINUTE
  {
    var due := MinutesDue(r.minutes, At(t));
    hide At, Since, WithMinutes;
    MinutesInTrueTime(r, mark + k * MINUTE, t);
    assert (k + due) * MINUTE == k * MINUTE + due * MINUTE;
    Division.Unique(t - mark, MINUTE, k + due, t - mark - (k + due) * MINUTE);
  }

  // ---- Filter time, exactly -----------------------------------------------------------

  /** Something moves air. */
  predicate Running(r: Runtime) {
    r.relay.heat || r.relay.cool || r.relay.fan || r.spareRelay
  }

  /** How many of the next `k` minutes begin with something running. */
  function RunningMinutes(r: Runtime, k: nat): nat
    decreases k
  {
    if k == 0 then 0 else (if Running(r) then 1 else 0) + RunningMinutes(AfterMinute(r), k - 1)
  }

  lemma {:induction false} FilterCounts(r: Runtime, k: nat)
    ensures AfterMany(r, k).minutes.filterSeconds == (r.minutes.filterSeconds + 60 * RunningMinutes(r, k)) % U32
    decreases k
  {
    if k == 0 {
      Division.Unique(r.minutes.filterSeconds, U32, 0, r.minutes.filterSeconds);
    } else {
      FilterCounts(AfterMinute(r), k - 1);
      FilterMinute(r);
      RecoveryGrid.AtPlus(r.minutes.filterSeconds + if Running(r) then 60 else 0,
                          60 * RunningMinutes(AfterMinute(r), k - 1));
    }
    hide AfterMinute;
  }

  lemma FilterMinute(r: Runtime)
    ensures AfterMinute(r).minutes.filterSeconds
            == At(r.minutes.filterSeconds + if Running(r) then 60 else 0)
  {
    if !Running(r) {
      Division.Unique(r.minutes.filterSeconds, U32, 0, r.minutes.filterSeconds);
    }
  }

  /** The minutes accounted for by the first `n` events that began with something running. */
  function RunningOver(c: Config, r: Runtime, events: seq<Event>, n: nat): nat
    requires n <= |events|
  {
    if n == 0 then 0
    else
      var (s, e) := (RuntimeAfter(c, r, events, n - 1), events[n - 1]);
      RunningOver(c, r, events, n - 1)
      + if e.op.Tick? then RunningMinutes(Called(c, s, e), MinutesDue(s.minutes, At(e.at))) else 0
  }

  lemma EventFilter(c: Config, r: Runtime, e: Event)
    requires e.op.Command? ==> !e.op.cmd.filterReset
    ensures Stepped(c, r, e).minutes.filterSeconds
            == if e.op.Tick? then At(r.minutes.filterSeconds
                                     + 60 * RunningMinutes(Called(c, r, e), MinutesDue(r.minutes, At(e.at))))
               else r.minutes.filterSeconds
  {
    if e.op.Tick? {
      TickFilter(c, r, e);
    }
    hide Ticked, Called, RunningMinutes, MinutesDue, Checked, AppliedSettings, At;
  }

  lemma TickFilter(c: Config, r: Runtime, e: Event)
    requires e.op.Tick?
    ensures Stepped(c, r, e).minutes.filterSeconds
            == At(r.minutes.filterSeconds + 60 * RunningMinutes(Called(c, r, e), MinutesDue(r.minutes, At(e.at))))
  {
    var b := Called(c, r, e);
    CallsKeep(c, WithFailsafe(c, r, At(e.at), e.op.hasTemp), At(e.at), e.op.heatCall, e.op.coolCall);
    hide WithCalls, Interlocked, FailsafeTimedOut, RunningMinutes;
    CatchUpIsWhole(b, At(e.at));
    FilterCounts(b, MinutesDue(r.minutes, At(e.at)));
    FilterCounts(b, 0);
    NoneRunning(b);
    InterlockKeepsMinutes(WithMinutes(b, At(e.at)), At(e.at));
    hide AfterMany, AfterMinutes, Since;
  }

  lemma NoneRunning(r: Runtime)
    ensures RunningMinutes(r, 0) == 0
  {
  }

  /**
   Without a reset the filter time is 60 s for each minute accounted for that began with something
   running, in 32 bits.
   */
  lemma {:induction false} FilterTimeExactly(c: Config, r: Runtime, events: seq<Event>, n: nat)
    requires n <= |events|
    requires forall k :: 0 <= k < n && events[k].op.Command? ==> !events[k].op.cmd.filterReset
    ensures RuntimeAfter(c, r, events, n).minutes.filterSeconds
            == (r.minutes.filterSeconds + 60 * RunningOver(c, r, events, n)) % U32
  {
    hide Stepped, Called, RunningMinutes, MinutesDue;
    if n == 0 {
      Division.Unique(r.minutes.filterSeconds, U32, 0, r.minutes.filterSeconds);
    } else {
      FilterTimeExactly(c, r, events, n - 1);
      EventFilter(c, RuntimeAfter(c, r, events, n - 1), events[n - 1]);
      RecoveryGrid.AtPlus(r.minutes.filterSeconds + 60 * RunningOver(c, r, events, n - 1),
                          60 * (RunningOver(c, r, events, n) - RunningOver(c, r, events, n - 1)));
    }
  }

  /** With heating or cooling on at every tick every minute accounted for counts. */
  lemma {:induction false} EquipmentCountsAll(c: Config, r: Runtime, events: seq<Event>, n: nat)
    requires n <= |events|
    requires forall k :: 0 <= k < n && events[k].op.Tick? ==>
      var b := Called(c, RuntimeAfter(c, r, events, k), events[k]); b.relay.heat || b.relay.cool
    ensures RunningOver(c, r, events, n) == MinutesOver(c, r, events, n)
  {
    hide Stepped, Called, RunningMinutes, MinutesDue;
    if n > 0 {
      EquipmentCountsAll(c, r, events, n - 1);
      var (s, e) := (RuntimeAfter(c, r, events, n - 1), events[n - 1]);
      if e.op.Tick? {
        EquipmentRunsOn(Called(c, s, e), MinutesDue(s.minutes, At(e.at)));
      }
    }
  }

  lemma {:induction false} EquipmentRunsOn(r: Runtime, k: nat)
    requires r.relay.heat || r.relay.cool
    ensures RunningMinutes(r, k) == k
    decreases k
  {
    if k > 0 {
      EquipmentRunsOn(AfterMinute(r), k - 1);
    }
  }

  // ---- The fan in the other modes -----------------------------------------------------

  lemma {:induction false} MinutesKeepFan(r: Runtime, now: u32)
    requires r.settings.fan != Circulate
    ensures WithMinutes(r, now).relay.fan == r.relay.fan
  {
    if r.minutes.last != 0 {
      CatchUpKeepsFan(r, now);
    }
  }

  lemma {:induction false} CatchUpKeepsFan(r: Runtime, now: u32)
    requires r.settings.fan != Circulate
    ensures AfterMinutes(r, now).relay.fan == r.relay.fan
    decreases Since(now, r.minutes.last)
  {
    if Since(now, r.minutes.last) >= MINUTE {
      MinuteUses(now, r.minutes.last);
      CatchUpKeepsFan(AfterMinute(r), now);
    }
    hide Since;
  }

  /** Always on means on whenever nothing runs and nothing must be off; automatic means off. */
  lemma TickRunsFan(c: Config, r: Runtime, now: u32, heatCall: bool, coolCall: bool, hasTemp: bool)
    requires r.settings.fan != Circulate && !r.spareRelay
    ensures var s := Ticked(c, r, now, heatCall, coolCall, hasTemp);
            s.relay.fan <==> r.settings.fan == AlwaysOn && s.equipment.phase == Idle && !MustBeOff(s)
  {
    var a := WithFailsafe(c, r, now, hasTemp);
    var b := WithCalls(c, a, now, heatCall, coolCall);
    CallsKeep(c, a, now, heatCall, coolCall);
    CallsMove(c, a, now, heatCall, coolCall, Heating);
    MinutesKeep(b, now);
    MinutesKeepFan(b, now);
    hide WithCalls, WithMinutes, Moves, FailsafeTimedOut;
    InterlockKeeps(WithMinutes(b, now), now);
  }
}
