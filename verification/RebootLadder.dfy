/**
 The reboot governor over a run of many boots.

 The device keeps the reboot count in non-volatile storage: it is written when the governor
 asks for a reboot and when a count reset is taken, and loaded at each boot. The local
 clock restarts at every boot.
 */
module RebootLadder {
  import opened Clock
  import opened RebootGovernor

  datatype Event =
    | Boot(at: nat)
    | Poll(at: nat, isolated: bool, mqttUp: bool, ready: bool)

  /** The governor, the stored count and, as history, the true times the governor's clocks refer to. */
  datatype World = World(
    gov: Governor, stored: u32, bootAt: nat, now: nat,
    isolatedSince: nat, reboots: nat)

  function Start(at: nat): World {
    World(Fresh(0), 0, at, at, at, 0)
  }

  function PollAt(c: Config, w: World, e: Event): (Governor, Action)
    requires e.Poll?
  {
    Polled(c, w.gov, At(e.at - w.bootAt), e.isolated, e.mqttUp, e.ready)
  }

  function Step(c: Config, w: World, e: Event): World {
    match e
    case Boot(at) => w.(gov := Fresh(w.stored), bootAt := at, now := at)
    case Poll(at, isolated, mqttUp, ready) =>
      var (g, action) := PollAt(c, w, e);
      World(g.(resetPending := false),
            if g.resetPending then 0 else if action == Reboot then g.rebootCount else w.stored,
            w.bootAt, at,
            if g.isolating && !w.gov.isolating then at else w.isolatedSince,
            if action == Reboot then w.reboots + 1 else w.reboots)
  }

  predicate Ordered(start: nat, events: seq<Event>) {
    forall i, j :: 0 <= i <= j < |events| ==> start <= events[i].at <= events[j].at
  }

  /** The world after the first `n` events. */
  function After(c: Config, start: nat, events: seq<Event>, n: nat): World
    requires n <= |events|
  {
    if n == 0 then Start(start) else Step(c, After(c, start, events, n - 1), events[n - 1])
  }

  predicate RebootAt(c: Config, start: nat, events: seq<Event>, i: nat)
    requires i < |events|
  {
    events[i].Poll? && PollAt(c, After(c, start, events, i), events[i]).1 == Reboot
  }

  /** No poll isolated and no boot from event `i` to event `j`, for `duration` of true time. */
  predicate HealthyStretch(events: seq<Event>, i: nat, j: nat, duration: nat)
    requires i <= j < |events|
  {
    && events[j].at - events[i].at >= duration
    && forall k :: i <= k <= j ==> events[k].Poll? && !events[k].isolated
  }

  predicate NeverHealthyFor(events: seq<Event>, duration: nat) {
    forall i, j :: 0 <= i <= j < |events| ==> !HealthyStretch(events, i, j, duration)
  }

  /** The sum of the first `n` thresholds. */
  function LadderTime(c: Config, n: nat): nat {
    if n == 0 then 0 else LadderTime(c, n - 1) + Threshold(c, n - 1)
  }

  // ---- The count only drops after sustained health ------------------------------------

  /** The poll from which the governor has counted itself healthy. */
  lemma {:induction false} HealthySince(c: Config, start: nat, events: seq<Event>, n: nat) returns (i: nat)
    requires n <= |events| && Ordered(start, events) && After(c, start, events, n).gov.healthy
    ensures i < n && forall k :: i <= k < n ==> events[k].Poll? && !events[k].isolated
    ensures After(c, start, events, n).bootAt <= events[i].at
    ensures After(c, start, events, n).gov.healthySince == At(events[i].at - After(c, start, events, n).bootAt)
  {
    hide Step;
    var w := After(c, start, events, n - 1);
    BootIsPast(c, start, events, n - 1);
    StepHealth(c, w, events[n - 1]);
    if w.gov.healthy {
      i := HealthySince(c, start, events, n - 1);
    } else {
      i := n - 1;
    }
  }

  lemma StepHealth(c: Config, w: World, e: Event)
    requires Step(c, w, e).gov.healthy
    ensures e.Poll? && !e.isolated
    ensures Step(c, w, e).bootAt == w.bootAt
    ensures Step(c, w, e).gov.healthySince
         == if w.gov.healthy then w.gov.healthySince else At(e.at - w.bootAt)
  {
    hide At, Due, Moved, Threshold, CountExpires;
  }

  lemma {:induction false} BootIsPast(c: Config, start: nat, events: seq<Event>, n: nat)
    requires n <= |events| && Ordered(start, events)
    ensures var w := After(c, start, events, n);
            start <= w.bootAt <= w.now && forall k :: n <= k < |events| ==> w.now <= events[k].at
  {
    hide Polled;
    if n > 0 {
      BootIsPast(c, start, events, n - 1);
    }
  }

  /** Without a long enough healthy stretch, no poll resets the count. */
  lemma NoReset(c: Config, start: nat, events: seq<Event>, n: nat)
    requires n < |events| && Ordered(start, events) && NeverHealthyFor(events, c.healthyReset)
    requires events[n].Poll? && !events[n].isolated
    ensures var w := After(c, start, events, n);
            !CountExpires(c, w.gov, At(events[n].at - w.bootAt))
  {
    hide After;
    var w := After(c, start, events, n);
    if w.gov.healthy {
      var i := HealthySince(c, start, events, n);
      SinceIsElapsed(events[n].at - w.bootAt, events[i].at - w.bootAt);
      assert !HealthyStretch(events, i, n, c.healthyReset);
    }
  }

  // ---- The ladder ---------------------------------------------------------------------

  /** What every step keeps: the count is the number of reboots, and each took its threshold. */
  predicate OnLadder(c: Config, start: nat, w: World) {
    && w.gov.rebootCount == w.stored == w.reboots && !w.gov.resetPending
    && start + LadderTime(c, w.reboots) <= w.now
    && (w.gov.isolating && !w.gov.rebootIssued ==>
          && w.gov.isolationStart == At(w.isolatedSince - w.bootAt)
          && w.bootAt <= w.isolatedSince <= w.now
          && start + LadderTime(c, w.reboots) <= w.isolatedSince)
  }

  lemma LadderStep(c: Config, start: nat, w: World, e: Event)
    requires OnLadder(c, start, w) && w.bootAt <= w.now <= e.at
    requires e.Poll? && !e.isolated ==> !CountExpires(c, w.gov, At(e.at - w.bootAt))
    requires w.reboots + 1 < U32
    ensures OnLadder(c, start, Step(c, w, e))
  {
    hide At, Due, Moved, Threshold, LadderTime;
    if e.Poll? && e.isolated && !Gated(w.gov, e.ready) {
      IsolatedLadderStep(c, start, w, e);
    }
  }

  /** An isolated poll reboots only once the time isolated has reached the threshold. */
  lemma RebootTakesThreshold(c: Config, w: World, e: Event)
    requires e.Poll? && e.isolated && !Gated(w.gov, e.ready) && w.bootAt <= w.now <= e.at
    requires w.gov.isolating && !w.gov.rebootIssued ==>
      w.gov.isolationStart == At(w.isolatedSince - w.bootAt) && w.bootAt <= w.isolatedSince <= w.now
    requires PollAt(c, w, e).1 == Reboot
    ensures e.at - Step(c, w, e).isolatedSince >= Threshold(c, w.gov.rebootCount)
  {
    if w.gov.isolating && !w.gov.rebootIssued {
      SinceIsElapsed(e.at - w.bootAt, w.isolatedSince - w.bootAt);
    } else {
      SinceIsElapsed(e.at - w.bootAt, e.at - w.bootAt);
    }
    hide At, Due, Moved, Threshold, Since;
  }

  lemma IsolatedLadderStep(c: Config, start: nat, w: World, e: Event)
    requires OnLadder(c, start, w) && w.bootAt <= w.now <= e.at && w.reboots + 1 < U32
    requires e.Poll? && e.isolated && !Gated(w.gov, e.ready)
    ensures OnLadder(c, start, Step(c, w, e))
  {
    hide Step, PollAt, Threshold, LadderTime, At, Gated;
    NextRung(c, w.reboots);
    IsolatedStep(c, w, e);
    if PollAt(c, w, e).1 == Reboot {
      RebootTakesThreshold(c, w, e);
    }
  }

  lemma NextRung(c: Config, n: nat)
    ensures LadderTime(c, n + 1) == LadderTime(c, n) + Threshold(c, n)
  {
    hide Threshold;
  }

  /** An isolated poll keeps the isolation clock running, or starts it. */
  lemma IsolatedStep(c: Config, w: World, e: Event)
    requires e.Poll? && e.isolated && !Gated(w.gov, e.ready)
    ensures var rebooted := PollAt(c, w, e).1 == Reboot;
            var v := Step(c, w, e);
            && v.now == e.at && v.bootAt == w.bootAt && !v.gov.resetPending && v.gov.isolating
            && v.reboots == w.reboots + (if rebooted then 1 else 0)
            && v.gov.rebootCount == (if rebooted then (w.gov.rebootCount + 1) % U32 else w.gov.rebootCount)
            && (!w.gov.resetPending ==> v.stored == if rebooted then v.gov.rebootCount else w.stored)
            && v.isolatedSince == (if w.gov.isolating then w.isolatedSince else e.at)
            && v.gov.isolationStart == (if w.gov.isolating then w.gov.isolationStart else At(e.at - w.bootAt))
            && (rebooted ==> v.gov.rebootIssued && !(w.gov.isolating && w.gov.rebootIssued))
            && (w.gov.isolating && w.gov.rebootIssued ==> v.gov.rebootIssued)
  {
    hide At, Due, Moved, Threshold, Since;
  }

  lemma {:induction false} LadderInvariant(c: Config, start: nat, events: seq<Event>, n: nat)
    requires n <= |events| && Ordered(start, events) && NeverHealthyFor(events, c.healthyReset)
    requires After(c, start, events, n).reboots < U32 - 1
    ensures OnLadder(c, start, After(c, start, events, n))
  {
    hide Step, NeverHealthyFor, Ordered;
    if n > 0 {
      var w := After(c, start, events, n - 1);
      RebootsNeverDrop(c, w, events[n - 1]);
      LadderInvariant(c, start, events, n - 1);
      BootIsPast(c, start, events, n - 1);
      if events[n - 1].Poll? && !events[n - 1].isolated {
        NoReset(c, start, events, n - 1);
      }
      LadderStep(c, start, w, events[n - 1]);
    }
  }

  lemma RebootsNeverDrop(c: Config, w: World, e: Event)
    ensures w.reboots <= Step(c, w, e).reboots
  {
    hide PollAt;
  }

  /**
   However often the device boots, `n` reboots take at least the sum of the first `n`
   thresholds, unless it was healthy for the reset time in between.
   */
  lemma RebootsAreSpaced(c: Config, start: nat, events: seq<Event>, n: nat)
    requires n <= |events| && Ordered(start, events) && NeverHealthyFor(events, c.healthyReset)
    requires After(c, start, events, n).reboots < U32 - 1
    ensures var w := After(c, start, events, n); w.now - start >= LadderTime(c, w.reboots)
  {
    LadderInvariant(c, start, events, n);
  }

  /** A total outage has at most three reboots in its first 24 hours. */
  lemma AtMostThreeRebootsInADay(start: nat, events: seq<Event>, n: nat)
    requires n <= |events| && Ordered(start, events) && NeverHealthyFor(events, DEFAULT_CONFIG.healthyReset)
    requires After(DEFAULT_CONFIG, start, events, n).reboots < U32 - 1
    requires After(DEFAULT_CONFIG, start, events, n).now - start <= 86400000
    ensures After(DEFAULT_CONFIG, start, events, n).reboots <= 3
  {
    var r := After(DEFAULT_CONFIG, start, events, n).reboots;
    RebootsAreSpaced(DEFAULT_CONFIG, start, events, n);
    if r > 3 {
      LadderGrows(DEFAULT_CONFIG, 4, r);
    }
  }

  lemma {:induction false} LadderGrows(c: Config, low: nat, high: nat)
    requires low <= high
    ensures LadderTime(c, low) <= LadderTime(c, high)
  {
    if low < high {
      LadderGrows(c, low, high - 1);
    }
  }

  // ---- Episodes -----------------------------------------------------------------------

  /** Within one boot, two reboots are separated by a poll that was not isolated. */
  lemma OneRebootPerEpisode(c: Config, start: nat, events: seq<Event>, i: nat, j: nat)
    requires i < j < |events| && (forall k :: i <= k <= j ==> events[k].Poll?)
    requires RebootAt(c, start, events, i) && RebootAt(c, start, events, j)
    requires After(c, start, events, i).gov.rebootCount < U32 - 1
    ensures exists k :: i < k < j && !events[k].isolated
  {
    if forall k :: i < k < j ==> events[k].isolated {
      StaysIssued(c, start, events, i, j);
      RebootNeedsIsolation(c, After(c, start, events, j), events[j]);
    }
  }

  lemma RebootNeedsIsolation(c: Config, w: World, e: Event)
    requires e.Poll? && PollAt(c, w, e).1 == Reboot
    ensures e.isolated && !Gated(w.gov, e.ready)
    ensures w.gov.isolating ==> !w.gov.rebootIssued
    ensures PollAt(c, w, e).0.rebootCount == (w.gov.rebootCount + 1) % U32
    ensures PollAt(c, w, e).0.isolating && PollAt(c, w, e).0.rebootIssued
  {
    hide Moved, Due, Threshold, At;
  }

  lemma {:induction false} StaysIssued(c: Config, start: nat, events: seq<Event>, i: nat, j: nat)
    requires i < j < |events| && (forall k :: i <= k < j ==> events[k].Poll?)
    requires RebootAt(c, start, events, i) && (forall k :: i < k < j ==> events[k].isolated)
    requires After(c, start, events, i).gov.rebootCount < U32 - 1
    ensures var g := After(c, start, events, j).gov; g.isolating && g.rebootIssued && g.rebootCount > 0
    decreases j
  {
    hide Step, PollAt;
    if j > i + 1 {
      StaysIssued(c, start, events, i, j - 1);
    } else {
      RebootNeedsIsolation(c, After(c, start, events, i), events[i]);
    }
    IsolatedStep(c, After(c, start, events, j - 1), events[j - 1]);
  }

  /** A boot with no stored count and no network yet never acts, however it is polled. */
  lemma {:induction false} ColdBootNeverActs(c: Config, start: nat, events: seq<Event>, n: nat)
    requires n < |events| && (forall k :: 0 <= k <= n ==> events[k].Poll? && !events[k].ready)
    ensures After(c, start, events, n).gov.rebootCount == 0
    ensures PollAt(c, After(c, start, events, n), events[n]).1 == None
  {
    hide At, Step;
    if n > 0 {
      ColdBootNeverActs(c, start, events, n - 1);
      GatedPollIsIdle(c, After(c, start, events, n - 1), events[n - 1]);
    }
    GatedPollIsIdle(c, After(c, start, events, n), events[n]);
  }

  lemma GatedPollIsIdle(c: Config, w: World, e: Event)
    requires e.Poll? && Gated(w.gov, e.ready)
    ensures PollAt(c, w, e).1 == None && Step(c, w, e).gov.rebootCount == 0
  {
    hide At, Moved, Due, Threshold;
  }
}
