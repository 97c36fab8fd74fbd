/**
 When the reboot governor acts: the grid of in-place recoveries while MQTT is down, and the
 reboot that `ms_until_reboot` announces.
 */
module RecoveryGrid {
  import opened Clock
  import opened RebootGovernor
  import Division

  // ---- The mark of a due time ---------------------------------------------------------

  /** The point of the grid from `start` that is the last at or before `t`. */
  function GridPoint(start: nat, period: nat, t: nat): int
    requires period > 0
  {
    start + (t - start) / period * period
  }

  /**
   Consuming the due times moves the mark by whole periods and never past now; it catches up
   to within one period exactly when less than 2^32 ms passed since the mark.
   */
  lemma MarkKeepsUp(mark: nat, t: nat, period: u32)
    requires period > 0 && mark <= t
    ensures var moved := mark + Since(At(t), At(mark)) / period * period;
            && Moved(At(t), At(mark), period) == At(moved)
            && mark <= moved <= t
            && (t < moved + period <==> t - mark < U32)
  {
    SinceIsElapsed(t, mark);
    var since := Since(At(t), At(mark));
    var steps := since / period;
    Quotient(since, period);
    if since < period {
      Division.Unique(since, period, 0, since);
    }
    AtPlus(mark, period * steps);
    if t - mark >= U32 {
      FarBehind(t, mark);
    }
    hide At, Since;
  }

  lemma Quotient(n: nat, d: nat)
    requires d > 0
    ensures 0 <= n / d * d <= n < n / d * d + d && d * (n / d) == n / d * d
  {
    if n < d {
      Division.Unique(n, d, 0, n);
    }
  }

  lemma AtPlus(t: int, d: int)
    ensures (At(t) + d) % U32 == At(t + d)
  {
    Division.Shift(At(t) + d, U32, t / U32);
  }

  lemma FarBehind(t: int, mark: int)
    requires t - mark >= U32
    ensures Since(At(t), At(mark)) <= t - mark - U32
  {
    SinceIsElapsed(t, mark);
    Division.Shift(t - mark - U32, U32, 1);
    hide Since, At;
  }

  // ---- MQTT down ----------------------------------------------------------------------

  /** A poll with MQTT down: linked with the peer, or isolated. */
  datatype Poll = Poll(at: nat, isolated: bool)

  predicate Increasing(polls: seq<Poll>) {
    forall i, j :: 0 <= i <= j < |polls| ==> polls[i].at <= polls[j].at
  }

  predicate GapsAtMost(polls: seq<Poll>, gap: nat) {
    forall i :: 0 < i < |polls| ==> polls[i].at - polls[i - 1].at <= gap
  }

  function PolledDown(c: Config, g: Governor, poll: Poll): (Governor, Action) {
    Polled(c, g, At(poll.at), poll.isolated, false, true)
  }

  /** The governor after `n` polls. */
  function AfterDown(c: Config, g: Governor, polls: seq<Poll>, n: nat): Governor
    requires n <= |polls|
  {
    if n == 0 then g else PolledDown(c, AfterDown(c, g, polls, n - 1), polls[n - 1]).0
  }

  /** Poll `i`, linked, asks for a recovery. */
  predicate RecoversAt(c: Config, g: Governor, polls: seq<Poll>, i: nat)
    requires i < |polls|
  {
    !polls[i].isolated && PolledDown(c, AfterDown(c, g, polls, i), polls[i]).1 == RecoverInPlace
  }

  /** The whole periods from the first poll to poll `i`. */
  function Periods(c: Config, polls: seq<Poll>, i: nat): int
    requires i < |polls| && c.mqttDownRecover > 0
  {
    (polls[i].at - polls[0].at) / c.mqttDownRecover
  }

  /** With no poll later than 2^32 ms less one period, the mark is the grid's last point, however long it lasts. */
  lemma {:induction false} MarkStaysOnGrid(c: Config, g: Governor, polls: seq<Poll>, n: nat)
    requires 0 < n <= |polls| && Increasing(polls) && !g.mqttDown
    requires 0 < c.mqttDownRecover && GapsAtMost(polls, U32 - c.mqttDownRecover)
    ensures var h := AfterDown(c, g, polls, n);
            h.mqttDown && h.mqttMark == At(GridPoint(polls[0].at, c.mqttDownRecover, polls[n - 1].at))
  {
    var period, t := c.mqttDownRecover, polls[n - 1].at;
    DownPoll(c, AfterDown(c, g, polls, n - 1), polls[n - 1]);
    if n == 1 {
      Division.Unique(0, period, 0, 0);
      SinceIsElapsed(t, t);
      hide PolledDown, At, Since;
    } else {
      MarkStaysOnGrid(c, g, polls, n - 1);
      GridStep(polls[0].at, period, polls[n - 2].at, t);
      hide *;
    }
  }

  /**
   A linked poll recovers exactly when a due time has come since the poll before it, linked or isolated:
   one that came while isolated, and was seen by an isolated poll, is skipped and not made up for.
   */
  lemma LinkedPollRecoversExactly(c: Config, g: Governor, polls: seq<Poll>, i: nat)
    requires 0 < i < |polls| && Increasing(polls) && !g.mqttDown && !polls[i].isolated
    requires 0 < c.mqttDownRecover && GapsAtMost(polls, U32 - c.mqttDownRecover)
    ensures RecoversAt(c, g, polls, i) <==> Periods(c, polls, i) > Periods(c, polls, i - 1)
  {
    var period := c.mqttDownRecover;
    DownPoll(c, AfterDown(c, g, polls, i), polls[i]);
    MarkStaysOnGrid(c, g, polls, i);
    GridStep(polls[0].at, period, polls[i - 1].at, polls[i].at);
    NextPoint(polls[0].at, period, polls[i - 1].at, polls[i].at);
    hide PolledDown, At, Since, GridPoint, AfterDown, Due;
  }

  /** How many of the first `n` polls recovered, and how many isolated ones let a due time pass. */
  function Recoveries(c: Config, g: Governor, polls: seq<Poll>, n: nat): nat
    requires n <= |polls|
  {
    if n == 0 then 0 else Recoveries(c, g, polls, n - 1) + if RecoversAt(c, g, polls, n - 1) then 1 else 0
  }

  function Skipped(c: Config, polls: seq<Poll>, n: nat): nat
    requires 0 < n <= |polls| && c.mqttDownRecover > 0
  {
    if n == 1 then 0
    else
      Skipped(c, polls, n - 1)
      + if polls[n - 1].isolated && Periods(c, polls, n - 1) > Periods(c, polls, n - 2) then 1 else 0
  }

  /**
   Polled at least once per period, each whole period of MQTT being down is recovered once or skipped
   while isolated: none is lost, none is doubled and none is made up for later.
   */
  lemma {:induction false} RecoveriesCountPeriods(c: Config, g: Governor, polls: seq<Poll>, n: nat)
    requires 0 < n <= |polls| && Increasing(polls) && !g.mqttDown && 0 < c.mqttDownRecover
    requires GapsAtMost(polls, c.mqttDownRecover) && GapsAtMost(polls, U32 - c.mqttDownRecover)
    ensures Recoveries(c, g, polls, n) + Skipped(c, polls, n) == Periods(c, polls, n - 1)
    ensures (forall i :: 0 <= i < n ==> !polls[i].isolated) ==> Skipped(c, polls, n) == 0
  {
    if n == 1 {
      FirstPollWaits(c, g, polls);
    } else {
      RecoveriesCountPeriods(c, g, polls, n - 1);
      OnePeriodAtMost(c, polls, n - 1);
      if !polls[n - 1].isolated {
        LinkedPollRecoversExactly(c, g, polls, n - 1);
      }
      hide PolledDown, AfterDown, GapsAtMost, Increasing, Periods;
    }
  }

  lemma OnePeriodAtMost(c: Config, polls: seq<Poll>, i: nat)
    requires 0 < i < |polls| && Increasing(polls) && 0 < c.mqttDownRecover && GapsAtMost(polls, c.mqttDownRecover)
    ensures Periods(c, polls, i - 1) <= Periods(c, polls, i) <= Periods(c, polls, i - 1) + 1
  {
    AtMostOnePeriod(polls[0].at, c.mqttDownRecover, polls[i - 1].at, polls[i].at);
    hide GridPoint;
  }

  lemma FirstPollWaits(c: Config, g: Governor, polls: seq<Poll>)
    requires polls != [] && !g.mqttDown && c.mqttDownRecover > 0
    ensures !RecoversAt(c, g, polls, 0) && Periods(c, polls, 0) == 0
  {
    Division.Unique(0, c.mqttDownRecover, 0, 0);
    SinceIsElapsed(polls[0].at, polls[0].at);
    DownPoll(c, g, polls[0]);
    hide PolledDown, At, Since;
  }

  lemma DownPoll(c: Config, g: Governor, poll: Poll)
    ensures var mark := if g.mqttDown then g.mqttMark else At(poll.at);
            var (h, action) := PolledDown(c, g, poll);
            && h.mqttDown && h.mqttMark == Moved(At(poll.at), mark, c.mqttDownRecover)
            && (!poll.isolated ==> (action == RecoverInPlace <==> Due(At(poll.at), mark, c.mqttDownRecover)))
  {
    hide At, Due, Moved, Threshold;
  }

  /** A due time has come exactly when the last grid point is a period behind. */
  lemma NextPoint(start: nat, period: nat, before: nat, t: nat)
    requires 0 < period && start <= before <= t
    ensures t - GridPoint(start, period, before) >= period <==> (t - start) / period > (before - start) / period
  {
    var k, rest := (before - start) / period, t - GridPoint(start, period, before);
    GridSplit(start, period, before, t);
    Division.Shift(rest, period, k);
    assert t - start == rest + k * period;
    Quotient(rest, period);
    if rest < period {
      Division.Unique(rest, period, 0, rest);
    } else {
      NotBelow(rest, period);
    }
  }

  lemma NotBelow(rest: nat, period: nat)
    requires 0 < period <= rest
    ensures rest / period >= 1
  {
  }

  lemma GridStep(start: nat, period: u32, before: nat, t: nat)
    requires 0 < period && start <= before <= t && t - before <= U32 - period
    ensures var mark := GridPoint(start, period, before);
            && 0 <= mark <= before < mark + period
            && Moved(At(t), At(mark), period) == At(GridPoint(start, period, t))
            && (Due(At(t), At(mark), period) <==> t - mark >= period)
  {
    hide GridPoint, Moved, At, Since;
    var mark := GridPoint(start, period, before);
    GridSplit(start, period, before, t);
    MarkKeepsUp(mark, t, period);
    SinceIsElapsed(t, mark);
  }

  lemma GridSplit(start: nat, period: nat, before: nat, t: nat)
    requires 0 < period && start <= before <= t
    ensures var mark := GridPoint(start, period, before);
            && start <= mark <= before < mark + period
            && GridPoint(start, period, t) == mark + (t - mark) / period * period
  {
    var k := (before - start) / period;
    var mark := start + k * period;
    Quotient(before - start, period);
    Division.Shift(t - mark, period, k);
    assert t - start == t - mark + k * period;
    Distribute((t - mark) / period, k, period);
  }

  lemma Distribute(a: int, b: int, p: int)
    ensures (a + b) * p == a * p + b * p
  {
  }

  lemma AtMostOnePeriod(start: nat, period: nat, before: nat, t: nat)
    requires 0 < period && start <= before <= t <= before + period
    ensures (t - start) / period
         == (before - start) / period + if t - GridPoint(start, period, before) >= period then 1 else 0
  {
    var k := (before - start) / period;
    var rest := t - start - k * period;
    Quotient(before - start, period);
    Distribute(k, 1, period);
    if rest >= period {
      Division.Unique(t - start, period, k + 1, rest - period);
    } else {
      Division.Unique(t - start, period, k, rest);
    }
  }

  // ---- The announced reboot -----------------------------------------------------------

  /** The governor after `n` isolated polls. */
  function AfterIsolated(c: Config, g: Governor, times: seq<nat>, n: nat): Governor
    requires n <= |times|
  {
    if n == 0 then g
    else Polled(c, AfterIsolated(c, g, times, n - 1), At(times[n - 1]), true, false, true).0
  }

  function ActionAt(c: Config, g: Governor, times: seq<nat>, i: nat): Action
    requires i < |times|
  {
    Polled(c, AfterIsolated(c, g, times, i), At(times[i]), true, false, true).1
  }

  predicate Isolating(g: Governor, since: nat, count: nat) {
    g.isolating && !g.rebootIssued && g.isolationStart == At(since) && g.rebootCount == count
  }

  lemma IsolatedPoll(c: Config, g: Governor, since: nat, t: nat)
    requires Isolating(g, since, g.rebootCount) && since <= t < since + U32
    ensures var (h, action) := Polled(c, g, At(t), true, false, true);
            && (action == Reboot <==> t >= since + Threshold(c, g.rebootCount))
            && (action != Reboot ==> Isolating(h, since, g.rebootCount))
  {
    SinceIsElapsed(t, since);
    hide At, Due, Moved, Threshold, Since;
  }

  /**
   If the governor announces a reboot in `r` ms and isolation lasts, the reboot comes at the
   first poll that is not earlier than that, and at no poll before it.
   */
  lemma {:induction false} RebootComesAsAnnounced(c: Config, g: Governor, since: nat, t: nat, times: seq<nat>, n: nat)
    requires Isolating(g, since, g.rebootCount) && since <= t < since + U32
    requires UntilReboot(c, g, At(t)) > 0
    requires n < |times| && (forall i :: 0 <= i <= n ==> t <= times[i] < since + U32)
    requires forall i :: 0 <= i < n ==> times[i] < t + UntilReboot(c, g, At(t))
    ensures ActionAt(c, g, times, n) == Reboot <==> times[n] >= t + UntilReboot(c, g, At(t))
    ensures Isolating(AfterIsolated(c, g, times, n), since, g.rebootCount)
  {
    SinceIsElapsed(t, since);
    if n > 0 {
      RebootComesAsAnnounced(c, g, since, t, times, n - 1);
      IsolatedPoll(c, AfterIsolated(c, g, times, n - 1), since, times[n - 1]);
    }
    hide Polled, At, Since, Threshold;
    IsolatedPoll(c, AfterIsolated(c, g, times, n), since, times[n]);
  }

  // ---- Recoveries while isolated ------------------------------------------------------

  /** Isolated polls go forward from the first, for less than 2^32 ms less a repeat time. */
  predicate Episode(c: Config, g: Governor, times: seq<nat>) {
    && !g.isolating
    && forall i, j :: 0 <= i <= j < |times| ==> times[i] <= times[j] < times[0] + U32 - c.recoverRepeat
  }

  predicate NoReboot(c: Config, g: Governor, times: seq<nat>, n: nat) {
    forall i :: 0 <= i < n && i < |times| ==> ActionAt(c, g, times, i) != Reboot
  }

  lemma IsolatedStep(c: Config, g: Governor, t: nat)
    requires g.isolating ==> !g.rebootIssued
    ensures var (h, action) := Polled(c, g, At(t), true, false, true);
            var (mark, wait) := if g.isolating then (g.recoverMark, g.recoverWait) else (At(t), c.recoverAfter);
            && h.isolating && (action == Reboot <==> h.rebootIssued)
            && h.recoverMark == Moved(At(t), mark, wait)
            && h.recoverWait == (if Due(At(t), mark, wait) then c.recoverRepeat else wait)
            && (action != Reboot ==> action == if Due(At(t), mark, wait) then RecoverInPlace else None)
  {
    hide At, Due, Moved, Threshold, Since;
  }

  lemma DueInTime(t: nat, mark: nat, period: u32)
    requires mark <= t < mark + U32
    ensures Due(At(t), At(mark), period) <==> period > 0 && t - mark >= period
    ensures Moved(At(t), At(mark), period)
            == At(if period > 0 && t - mark >= period then GridPoint(mark, period, t) else mark)
  {
    SinceIsElapsed(t, mark);
    if period > 0 {
      MarkKeepsUp(mark, t, period);
    }
    hide At, Since;
  }

  /** The first wait is not over at poll `n`, or there is none. */
  predicate Early(c: Config, times: seq<nat>, n: nat)
    requires 0 < n <= |times|
  {
    c.recoverAfter == 0 || times[n - 1] - times[0] < c.recoverAfter
  }

  /** The first recovery comes at the first poll at which the first wait is over. */
  lemma {:induction false} FirstRecoveryExactly(c: Config, g: Governor, times: seq<nat>, n: nat)
    requires 0 < n <= |times| && Episode(c, g, times) && NoReboot(c, g, times, n)
    requires n > 1 ==> Early(c, times, n - 1)
    ensures var (h, late) := (AfterIsolated(c, g, times, n), !Early(c, times, n));
            && ActionAt(c, g, times, n - 1) == (if late then RecoverInPlace else None)
            && h.isolating && !h.rebootIssued
            && h.recoverWait == (if late then c.recoverRepeat else c.recoverAfter)
            && h.recoverMark == At(if late then GridPoint(times[0], c.recoverAfter, times[n - 1]) else times[0])
  {
    hide Polled, At, Since, Due, Moved, GridPoint;
    assert times[0] <= times[n - 1] < times[0] + U32;
    if n > 1 {
      assert times[0] <= times[n - 2] <= times[n - 1];
      assert n > 2 ==> times[n - 3] <= times[n - 2];
      FirstRecoveryExactly(c, g, times, n - 1);
    }
    assert ActionAt(c, g, times, n - 1) != Reboot;
    IsolatedStep(c, AfterIsolated(c, g, times, n - 1), times[n - 1]);
    DueInTime(times[n - 1], times[0], c.recoverAfter);
  }

  /** Poll `f` is the one at which the first wait is over. */
  predicate FirstLate(c: Config, times: seq<nat>, f: nat)
    requires f < |times|
  {
    !Early(c, times, f + 1) && (f > 0 ==> Early(c, times, f))
  }

  /** Where the repeats count from: the last multiple of the first wait at that poll. */
  function RepeatsFrom(c: Config, times: seq<nat>, f: nat): nat
    requires f < |times| && c.recoverAfter > 0 && times[0] <= times[f]
  {
    Quotient(times[f] - times[0], c.recoverAfter);
    GridPoint(times[0], c.recoverAfter, times[f])
  }

  /** When the repeats were last seen to. */
  function SeenTo(c: Config, times: seq<nat>, f: nat, n: nat): nat
    requires f < n <= |times| && c.recoverAfter > 0 && times[0] <= times[f]
  {
    if n == f + 1 then RepeatsFrom(c, times, f) else times[n - 1]
  }

  lemma {:induction false} RepeatsOnGrid(c: Config, g: Governor, times: seq<nat>, f: nat, n: nat)
    requires f < n <= |times| && Episode(c, g, times) && NoReboot(c, g, times, n) && FirstLate(c, times, f)
    ensures var (h, from) := (AfterIsolated(c, g, times, n), RepeatsFrom(c, times, f));
            && h.isolating && !h.rebootIssued && h.recoverWait == c.recoverRepeat
            && h.recoverMark
               == At(if c.recoverRepeat == 0 then from else GridPoint(from, c.recoverRepeat, SeenTo(c, times, f, n)))
  {
    hide Polled, At, Since, Due, Moved, GridPoint;
    var from, t := RepeatsFrom(c, times, f), times[n - 1];
    if n == f + 1 {
      FirstRecoveryExactly(c, g, times, n);
      if c.recoverRepeat > 0 {
        OnTheGrid(from, c.recoverRepeat);
      }
    } else {
      RepeatsOnGrid(c, g, times, f, n - 1);
      RepeatStep(c, g, times, f, n - 1);
    }
  }

  lemma OnTheGrid(start: nat, period: nat)
    requires period > 0
    ensures GridPoint(start, period, start) == start
  {
    Division.Unique(0, period, 0, 0);
  }

  lemma FromIsPast(c: Config, times: seq<nat>, f: nat)
    requires f < |times| && c.recoverAfter > 0 && times[0] <= times[f]
    ensures times[0] <= RepeatsFrom(c, times, f) <= times[f]
  {
    GridIsPast(times[0], c.recoverAfter, times[f]);
    hide GridPoint;
  }

  lemma GridIsPast(start: nat, period: nat, t: nat)
    requires period > 0 && start <= t
    ensures start <= GridPoint(start, period, t) <= t
  {
    var n := t - start;
    Quotient(n, period);
  }

  lemma RepeatStep(c: Config, g: Governor, times: seq<nat>, f: nat, i: nat)
    requires f < i < |times| && Episode(c, g, times) && NoReboot(c, g, times, i + 1) && FirstLate(c, times, f)
    requires var (h, from) := (AfterIsolated(c, g, times, i), RepeatsFrom(c, times, f));
             && h.isolating && !h.rebootIssued && h.recoverWait == c.recoverRepeat
             && h.recoverMark
                == At(if c.recoverRepeat == 0 then from else GridPoint(from, c.recoverRepeat, SeenTo(c, times, f, i)))
    ensures var (h, from) := (AfterIsolated(c, g, times, i + 1), RepeatsFrom(c, times, f));
            && h.isolating && !h.rebootIssued && h.recoverWait == c.recoverRepeat
            && h.recoverMark == At(if c.recoverRepeat == 0 then from else GridPoint(from, c.recoverRepeat, times[i]))
            && ActionAt(c, g, times, i)
               == if c.recoverRepeat > 0
                     && (times[i] - from) / c.recoverRepeat > (SeenTo(c, times, f, i) - from) / c.recoverRepeat
                  then RecoverInPlace else None
  {
    var from, seen, t := RepeatsFrom(c, times, f), SeenTo(c, times, f, i), times[i];
    hide Polled, At, Since, GridPoint, RepeatsFrom, Due, Moved;
    FromIsPast(c, times, f);
    assert times[f] <= times[i - 1] <= t;
    assert ActionAt(c, g, times, i) != Reboot;
    IsolatedStep(c, AfterIsolated(c, g, times, i), t);
    RepeatDue(from, c.recoverRepeat, seen, t);
  }

  /** The next repeat, counted from `from`, when the repeats were last seen to at `seen`. */
  lemma RepeatDue(from: nat, repeat: u32, seen: nat, t: nat)
    requires from <= seen <= t && t - seen <= U32 - repeat
    ensures var mark := At(if repeat == 0 then from else GridPoint(from, repeat, seen));
            && Moved(At(t), mark, repeat) == At(if repeat == 0 then from else GridPoint(from, repeat, t))
            && (Due(At(t), mark, repeat) <==> repeat > 0 && (t - from) / repeat > (seen - from) / repeat)
  {
    if repeat > 0 {
      GridStep(from, repeat, seen, t);
      NextPoint(from, repeat, seen, t);
      hide Due, Moved;
    }
    hide At, Since, GridPoint;
  }

  /**
   After the first recovery an isolated poll recovers exactly when a multiple of the repeat time has come
   since the poll before, counted from the last multiple of the first wait at the first recovery.
   */
  lemma RecoveriesRepeatExactly(c: Config, g: Governor, times: seq<nat>, f: nat, i: nat)
    requires f < i < |times| && Episode(c, g, times) && NoReboot(c, g, times, i + 1) && FirstLate(c, times, f)
    ensures var from := RepeatsFrom(c, times, f);
            ActionAt(c, g, times, i)
            == if c.recoverRepeat > 0
                  && (times[i] - from) / c.recoverRepeat > (SeenTo(c, times, f, i) - from) / c.recoverRepeat
               then RecoverInPlace else None
  {
    RepeatsOnGrid(c, g, times, f, i);
    RepeatStep(c, g, times, f, i);
    hide ActionAt, AfterIsolated, GridPoint, SeenTo, RepeatsFrom, At;
  }

  // ---- The count's expiry -------------------------------------------------------------

  /** The governor after `n` polls of a device that is not isolated. */
  function AfterLinked(c: Config, g: Governor, times: seq<nat>, n: nat): Governor
    requires n <= |times|
  {
    if n == 0 then g else Polled(c, AfterLinked(c, g, times, n - 1), At(times[n - 1]), false, true, true).0
  }

  /** The stored count expires exactly once the device has not been isolated for the reset time. */
  lemma {:induction false} CountExpiresExactly(c: Config, g: Governor, times: seq<nat>, n: nat)
    requires 0 < n <= |times| && !g.healthy
    requires forall i, j :: 0 <= i <= j < |times| ==> times[i] <= times[j] < times[0] + U32
    ensures var (h, late) := (AfterLinked(c, g, times, n), n > 1 && times[n - 1] - times[0] >= c.healthyReset);
            && h.healthy && h.healthySince == At(times[0])
            && h.rebootCount == (if late then 0 else g.rebootCount)
            && h.resetPending == (g.resetPending || (late && g.rebootCount > 0))
  {
    assert times[0] <= times[n - 1] < times[0] + U32;
    SinceIsElapsed(times[n - 1], times[0]);
    if n > 1 {
      CountExpiresExactly(c, g, times, n - 1);
      assert times[n - 2] <= times[n - 1];
    }
    hide At, Since, Due, Moved, Threshold;
  }
}
