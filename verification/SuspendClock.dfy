/** When a display leaves WiFi for its peer, in true time, and when the radio may move at all. */
module SuspendClock {
  import opened Clock
  import opened ChannelPolicy
  import Division

  datatype Event = Poll(at: nat, inputs: Inputs) | Result(channel: nat, acked: bool)

  predicate Fit(c: Config, p: Policy) {
    ValidChannel(c.rendezvous) && Sound(p.search)
  }

  function Next(c: Config, p: Policy, e: Event): Policy
    requires Fit(c, p)
  {
    match e
    case Poll(at, inputs) => Polled(c, p, inputs, At(at)).0
    case Result(channel, acked) => p.(search := WithResult(p.search, channel, acked))
  }

  function ActionOf(c: Config, p: Policy, e: Event): Action
    requires Fit(c, p)
  {
    if e.Poll? then Polled(c, p, e.inputs, At(e.at)).1 else NoAction
  }

  lemma NextFits(c: Config, p: Policy, e: Event)
    requires Fit(c, p)
    ensures Fit(c, Next(c, p, e))
  {
    hide Clocked, ResumeDue, SuspendDue, Linked, At, ValidChannel, Candidates, Since, PassDue, Holding;
    SomeCandidate(c, p.search.lastGood);
  }

  function After(c: Config, p: Policy, events: seq<Event>, n: nat): (r: Policy)
    requires Fit(c, p) && n <= |events|
    ensures Fit(c, r)
  {
    if n == 0 then p
    else
      var before := After(c, p, events, n - 1);
      NextFits(c, before, events[n - 1]);
      Next(c, before, events[n - 1])
  }

  function ActionAt(c: Config, p: Policy, events: seq<Event>, n: nat): Action
    requires Fit(c, p) && n < |events|
  {
    ActionOf(c, After(c, p, events, n), events[n])
  }

  predicate Ordered(events: seq<Event>) {
    forall i, j :: 0 <= i <= j < |events| && events[i].Poll? && events[j].Poll? ==> events[i].at <= events[j].at
  }

  // ---- The radio moves only when it is free -------------------------------------------

  lemma SearchOnlyMoves(c: Config, s: Search, now: u32)
    requires ValidChannel(c.rendezvous) && Sound(s)
    ensures var action := Searched(c, s, now).1; !action.SuspendWifi? && !action.ResumeWifi?
  {
    SomeCandidate(c, s.lastGood);
    hide Candidates, Since, ValidChannel;
  }

  /** The radio is sent to a channel, or probes, only off the access point and with the peer not heard. */
  lemma MovesOnlyWhenFree(c: Config, p: Policy, i: Inputs, now: u32)
    requires Fit(c, p)
    ensures var action := Polled(c, p, i, now).1;
            && (action.SetChannel? || action.Probe? ==> !i.associated && !Linked(c, i, now))
            && (action.SuspendWifi? ==> c.role == Display && i.associated && !i.mqttUp && !Linked(c, i, now))
            && (action.ResumeWifi? ==> p.wifi.suspended)
  {
    SearchOnlyMoves(c, p.search, now);
    hide Searched, Linked, Since, ValidChannel, Sound, OnAccessPoint;
  }

  // ---- The clock of MQTT being down ---------------------------------------------------

  /** The last poll among the first `n` events, or none. */
  datatype Last = NoPoll | LastPoll(at: nat, inputs: Inputs)

  function Previous(events: seq<Event>, n: nat): Last
    requires n <= |events|
  {
    if n == 0 then NoPoll
    else if events[n - 1].Poll? then LastPoll(events[n - 1].at, events[n - 1].inputs) else Previous(events, n - 1)
  }

  predicate DownOnAccessPoint(i: Inputs) {
    i.associated && !i.mqttUp
  }

  /**
   The true time between consecutive polls that both saw an access point and MQTT down, summed since
   MQTT was last up.
   */
  function TimeDown(events: seq<Event>, n: nat): nat
    requires n <= |events|
  {
    if n == 0 then 0
    else
      var (before, e) := (TimeDown(events, n - 1), events[n - 1]);
      if !e.Poll? then before
      else if e.inputs.mqttUp then 0
      else before + Between(Previous(events, n - 1), e.at, e.inputs)
  }

  function Between(last: Last, at: nat, i: Inputs): nat {
    if last.LastPoll? && DownOnAccessPoint(last.inputs) && DownOnAccessPoint(i) && at >= last.at then at - last.at
    else 0
  }

  /** The code's clock lags the true time, and knows what the last poll saw. */
  predicate Lags(w: Wifi, last: Last, down: nat) {
    && w.downMs <= down
    && match last
       case NoPoll => !w.prevAssociated && !w.mqttDown
       case LastPoll(at, i) =>
         && (w.prevAssociated <==> i.associated) && (i.associated ==> w.lastAssociated == At(at))
         && (i.mqttUp ==> !w.mqttDown)
  }

  lemma ClockStep(c: Config, w: Wifi, last: Last, down: nat, at: nat, i: Inputs)
    requires Lags(w, last, down) && (last.LastPoll? ==> last.at <= at)
    ensures Lags(Clocked(c, w, i, At(at)), LastPoll(at, i), if i.mqttUp then 0 else down + Between(last, at, i))
  {
    if last.LastPoll? {
      SinceIsElapsed(at, last.at);
    }
    hide At, Since;
  }

  lemma PolledClock(c: Config, p: Policy, i: Inputs, now: u32)
    requires Fit(c, p)
    ensures var (v, w) := (Polled(c, p, i, now).0.wifi, Clocked(c, p.wifi, i, now));
            && v.downMs == w.downMs && v.prevAssociated == w.prevAssociated
            && v.lastAssociated == w.lastAssociated && v.mqttDown == w.mqttDown
            && (Polled(c, p, i, now).1.SuspendWifi? ==> w.downMs >= c.suspendAfter)
  {
    SearchOnlyMoves(c, p.search, now);
    hide Searched, Linked, Since, ValidChannel, Sound, OnAccessPoint, Clocked;
  }

  predicate FreshStart(p: Policy) {
    !p.wifi.prevAssociated && !p.wifi.mqttDown && p.wifi.downMs == 0 && !p.wifi.suspended && !p.wifi.resumed
  }

  lemma {:induction false} ClockLags(c: Config, p: Policy, events: seq<Event>, n: nat)
    requires Fit(c, p) && n <= |events| && Ordered(events) && FreshStart(p)
    ensures Lags(After(c, p, events, n).wifi, Previous(events, n), TimeDown(events, n))
  {
    hide Polled, Clocked, Between, Fit, At;
    if n > 0 {
      ClockLags(c, p, events, n - 1);
      var (before, e) := (After(c, p, events, n - 1), events[n - 1]);
      if e.Poll? {
        PreviousIsBefore(events, n - 1, n - 1);
        ClockStep(c, before.wifi, Previous(events, n - 1), TimeDown(events, n - 1), e.at, e.inputs);
        PolledClock(c, before, e.inputs, At(e.at));
        hide Previous;
      }
    }
  }

  lemma {:induction false} PreviousIsBefore(events: seq<Event>, n: nat, k: nat)
    requires n <= k < |events| && Ordered(events) && events[k].Poll?
    ensures Previous(events, n).LastPoll? ==> Previous(events, n).at <= events[k].at
  {
    if n > 0 && !events[n - 1].Poll? {
      PreviousIsBefore(events, n - 1, k);
    }
  }

  /**
   WiFi is left only by a display that does not hear its peer, and only once the true time on an
   access point with MQTT down has come to at least the limit.
   */
  lemma SuspendTakesTime(c: Config, p: Policy, events: seq<Event>, n: nat)
    requires Fit(c, p) && n < |events| && Ordered(events) && FreshStart(p)
    requires ActionAt(c, p, events, n).SuspendWifi?
    ensures events[n].Poll? && c.role == Display && DownOnAccessPoint(events[n].inputs)
    ensures !Linked(c, events[n].inputs, At(events[n].at))
    ensures TimeDown(events, n + 1) >= c.suspendAfter
  {
    hide Polled, Clocked, Fit, At, Linked;
    ClockLags(c, p, events, n);
    var (before, e) := (After(c, p, events, n), events[n]);
    MovesOnlyWhenFree(c, before, e.inputs, At(e.at));
    PolledClock(c, before, e.inputs, At(e.at));
    PreviousIsBefore(events, n, n);
    ClockStep(c, before.wifi, Previous(events, n), TimeDown(events, n), e.at, e.inputs);
    hide After, Previous, Between;
  }

  // ---- Between two suspensions --------------------------------------------------------

  /** Off WiFi since `mark`, or back since `mark` and trying it, or the trial is over. */
  predicate Spaced(c: Config, w: Wifi, from: nat, last: nat, mark: nat) {
    if w.suspended then w.suspendedAt == At(mark) && from <= mark <= last
    else if w.resumed then w.resumedAt == At(mark) && from + c.resumeInterval <= mark <= last
    else from + c.resumeInterval + c.resumeWindow <= last
  }

  lemma SpacedStep(c: Config, p: Policy, i: Inputs, from: nat, last: nat, mark: nat, t: nat) returns (next: nat)
    requires Fit(c, p) && Spaced(c, p.wifi, from, last, mark) && last <= t
    ensures Spaced(c, Polled(c, p, i, At(t)).0.wifi, from, t, next)
    ensures Polled(c, p, i, At(t)).1.SuspendWifi? ==> from + c.resumeInterval + c.resumeWindow <= t
  {
    SearchOnlyMoves(c, p.search, At(t));
    if mark <= t {
      SinceIsElapsed(t, mark);
    }
    hide Searched, Linked, Since, ValidChannel, Sound, OnAccessPoint, At;
    var w := Polled(c, p, i, At(t)).0.wifi;
    next := if w.suspended == p.wifi.suspended then mark else t;
  }

  lemma SuspendStarts(c: Config, p: Policy, i: Inputs, t: nat)
    requires Fit(c, p) && Polled(c, p, i, At(t)).1.SuspendWifi?
    ensures Spaced(c, Polled(c, p, i, At(t)).0.wifi, t, t, t)
  {
    SearchOnlyMoves(c, p.search, At(t));
    hide Searched, Linked, Since, ValidChannel, Sound, OnAccessPoint, At, Clocked;
  }

  function TimeOf(events: seq<Event>, n: nat): nat
    requires n <= |events|
  {
    if n == 0 then 0 else if events[n - 1].Poll? then events[n - 1].at else TimeOf(events, n - 1)
  }

  lemma {:induction false} SpacedSince(c: Config, p: Policy, events: seq<Event>, i: nat, n: nat) returns (mark: nat)
    requires Fit(c, p) && i < n <= |events| && Ordered(events) && ActionAt(c, p, events, i).SuspendWifi?
    ensures Spaced(c, After(c, p, events, n).wifi, events[i].at, TimeOf(events, n), mark)
  {
    hide Polled, Spaced, Fit, At;
    var (before, e) := (After(c, p, events, n - 1), events[n - 1]);
    if n == i + 1 {
      SuspendStarts(c, before, e.inputs, e.at);
      mark := e.at;
    } else {
      mark := SpacedSince(c, p, events, i, n - 1);
      if e.Poll? {
        TimesGrow(events, n - 1, n - 1);
        mark := SpacedStep(c, before, e.inputs, events[i].at, TimeOf(events, n - 1), mark, e.at);
      }
    }
  }

  lemma {:induction false} TimesGrow(events: seq<Event>, n: nat, k: nat)
    requires n <= k < |events| && Ordered(events) && events[k].Poll?
    ensures TimeOf(events, n) <= events[k].at
  {
    if n > 0 && !events[n - 1].Poll? {
      TimesGrow(events, n - 1, k);
    }
  }

  /** Two suspensions are at least the time off WiFi and the time it gets afterwards apart. */
  lemma SuspensionsAreSpaced(c: Config, p: Policy, events: seq<Event>, i: nat, j: nat)
    requires Fit(c, p) && i < j < |events| && Ordered(events)
    requires ActionAt(c, p, events, i).SuspendWifi? && ActionAt(c, p, events, j).SuspendWifi?
    ensures events[j].at - events[i].at >= c.resumeInterval + c.resumeWindow
  {
    var mark := SpacedSince(c, p, events, i, j);
    TimesGrow(events, j, j);
    hide After, Polled, Spaced, Fit, At;
    var next := SpacedStep(c, After(c, p, events, j), events[j].inputs, events[i].at, TimeOf(events, j), mark,
                           events[j].at);
  }

  // ---- Back to WiFi -------------------------------------------------------------------

  /** No poll from event `i` to event `n` resumes or suspends WiFi. */
  ghost predicate Settled(c: Config, p: Policy, events: seq<Event>, i: nat, n: nat)
    requires Fit(c, p) && n <= |events|
  {
    forall k :: i < k < n ==> !ActionAt(c, p, events, k).ResumeWifi? && !ActionAt(c, p, events, k).SuspendWifi?
  }

  lemma WifiStep(c: Config, p: Policy, i: Inputs, now: u32)
    requires Fit(c, p)
    ensures var (v, w, action) := (Polled(c, p, i, now).0.wifi, Clocked(c, p.wifi, i, now), Polled(c, p, i, now).1);
            && v.suspended == (action.SuspendWifi? || (p.wifi.suspended && !action.ResumeWifi?))
            && v.suspendedAt == (if action.SuspendWifi? then now else p.wifi.suspendedAt)
            && v.resumed == (action.ResumeWifi? || (p.wifi.resumed && Since(now, p.wifi.resumedAt) < c.resumeWindow))
            && v.resumedAt == (if action.ResumeWifi? then now else p.wifi.resumedAt)
            && (action.ResumeWifi? <==> p.wifi.suspended && Since(now, p.wifi.suspendedAt) >= c.resumeInterval)
            && (action.SuspendWifi? <==>
                  && !p.wifi.suspended && c.role == Display && DownOnAccessPoint(i) && !Linked(c, i, now)
                  && w.downMs >= c.suspendAfter
                  && !(p.wifi.resumed && Since(now, p.wifi.resumedAt) < c.resumeWindow))
  {
    SearchOnlyMoves(c, p.search, now);
    DownIsMarked(c, p.wifi, i, now);
    hide Searched, Linked, Since, ValidChannel, Sound, OnAccessPoint;
  }

  lemma DownIsMarked(c: Config, w: Wifi, i: Inputs, now: u32)
    ensures i.mqttUp ==> !Clocked(c, w, i, now).mqttDown
    ensures DownOnAccessPoint(i) ==> Clocked(c, w, i, now).mqttDown
  {
    hide Since;
  }

  lemma {:induction false} StaysSuspended(c: Config, p: Policy, events: seq<Event>, i: nat, n: nat)
    requires Fit(c, p) && i < n <= |events| && events[i].Poll? && ActionAt(c, p, events, i).SuspendWifi?
    requires Settled(c, p, events, i, n)
    ensures var w := After(c, p, events, n).wifi; w.suspended && w.suspendedAt == At(events[i].at)
  {
    hide Polled, Clocked, Fit, At, Since, Linked;
    var (before, e) := (After(c, p, events, n - 1), events[n - 1]);
    if e.Poll? {
      WifiStep(c, before, e.inputs, At(e.at));
    }
    if n > i + 1 {
      assert !ActionAt(c, p, events, n - 1).ResumeWifi? && !ActionAt(c, p, events, n - 1).SuspendWifi?;
      StaysSuspended(c, p, events, i, n - 1);
    }
  }

  /** A display that left WiFi at event `i` goes back at the first poll at or after the resume interval. */
  lemma ResumesExactly(c: Config, p: Policy, events: seq<Event>, i: nat, n: nat)
    requires Fit(c, p) && i < n < |events| && Ordered(events) && events[i].Poll? && events[n].Poll?
    requires ActionAt(c, p, events, i).SuspendWifi? && Settled(c, p, events, i, n)
    requires events[n].at < events[i].at + U32
    ensures ActionAt(c, p, events, n).ResumeWifi? <==> events[n].at - events[i].at >= c.resumeInterval
  {
    StaysSuspended(c, p, events, i, n);
    WifiStep(c, After(c, p, events, n), events[n].inputs, At(events[n].at));
    assert events[i].at <= events[n].at;
    SinceIsElapsed(events[n].at, events[i].at);
    hide Polled, Clocked, Fit, At, Since, After, Linked, Settled;
  }

  /** Back on WiFi, it is on trial for the resume window. */
  predicate OnTrial(c: Config, w: Wifi, now: u32) {
    w.resumed && Since(now, w.resumedAt) < c.resumeWindow
  }

  lemma {:induction false} TrialSince(c: Config, p: Policy, events: seq<Event>, j: nat, n: nat)
    requires Fit(c, p) && j < n <= |events| && Ordered(events) && events[j].Poll?
    requires ActionAt(c, p, events, j).ResumeWifi? && Settled(c, p, events, j, n)
    requires TimeOf(events, n) < events[j].at + U32
    ensures var w := After(c, p, events, n).wifi;
            && !w.suspended && w.resumedAt == At(events[j].at)
            && (!w.resumed ==> TimeOf(events, n) - events[j].at >= c.resumeWindow)
  {
    hide Polled, Clocked, Fit, At, Since, Linked;
    var (before, e) := (After(c, p, events, n - 1), events[n - 1]);
    if e.Poll? {
      WifiStep(c, before, e.inputs, At(e.at));
      assert events[j].at <= e.at;
      SinceIsElapsed(e.at, events[j].at);
    }
    if n > j + 1 {
      assert !ActionAt(c, p, events, n - 1).ResumeWifi? && !ActionAt(c, p, events, n - 1).SuspendWifi?;
      if e.Poll? {
        TimesGrow(events, n - 1, n - 1);
      }
      TrialSince(c, p, events, j, n - 1);
    }
  }

  /** That trial lasts exactly so long in true time. */
  lemma TrialLastsExactly(c: Config, p: Policy, events: seq<Event>, j: nat, n: nat)
    requires Fit(c, p) && j < n < |events| && Ordered(events) && events[j].Poll? && events[n].Poll?
    requires ActionAt(c, p, events, j).ResumeWifi? && Settled(c, p, events, j, n)
    requires events[n].at < events[j].at + U32
    ensures var w := After(c, p, events, n).wifi;
            !w.suspended && (OnTrial(c, w, At(events[n].at)) <==> events[n].at - events[j].at < c.resumeWindow)
  {
    TimesGrow(events, n, n);
    TrialSince(c, p, events, j, n);
    assert events[j].at <= events[n].at;
    SinceIsElapsed(events[n].at, events[j].at);
    hide Polled, Clocked, Fit, At, Since, After, Linked, Settled;
  }

  // ---- Off WiFi -----------------------------------------------------------------------

  /** Whether MQTT was seen down on an access point since it was last up. */
  predicate Counting(events: seq<Event>, n: nat)
    requires n <= |events|
  {
    n > 0 && match events[n - 1]
             case Poll(_, i) => !i.mqttUp && (i.associated || Counting(events, n - 1))
             case Result(_, _) => Counting(events, n - 1)
  }

  /** The time of the last poll on an access point. */
  function LastOnAccessPoint(events: seq<Event>, n: nat): nat
    requires n <= |events|
  {
    if n == 0 then 0
    else if events[n - 1].Poll? && events[n - 1].inputs.associated then events[n - 1].at
    else LastOnAccessPoint(events, n - 1)
  }

  /**
   The time on access points with MQTT down: between polls next to each other, at most a second each, through
   breaks shorter than the reset gap, and from 0 again after a longer one or after MQTT was up.
   */
  function CountedDown(c: Config, events: seq<Event>, n: nat): nat
    requires n <= |events|
  {
    if n == 0 || (events[n - 1].Poll? && events[n - 1].inputs.mqttUp) then 0
    else
      var (before, e) := (CountedDown(c, events, n - 1), events[n - 1]);
      if !e.Poll? || !e.inputs.associated then before
      else
        var since := (e.at - LastOnAccessPoint(events, n - 1)) % U32;
        var last := Previous(events, n - 1);
        if !Counting(events, n - 1) || since >= c.resetGap then 0
        else if last.LastPoll? && last.inputs.associated then before + if since < 1000 then since else 1000
        else before
  }

  lemma {:induction false} ClockCounts(c: Config, p: Policy, events: seq<Event>, n: nat)
    requires Fit(c, p) && n <= |events| && FreshStart(p)
    ensures var w := After(c, p, events, n).wifi;
            && w.mqttDown == Counting(events, n) && w.downMs == CountedDown(c, events, n) % U32
            && (w.prevAssociated <==> Previous(events, n).LastPoll? && Previous(events, n).inputs.associated)
            && (Counting(events, n) ==> w.lastAssociated == At(LastOnAccessPoint(events, n)))
  {
    hide Polled, Clocked, Fit, At, Since, Linked;
    if n > 0 {
      ClockCounts(c, p, events, n - 1);
      var (before, e) := (After(c, p, events, n - 1), events[n - 1]);
      if e.Poll? {
        PolledClock(c, before, e.inputs, At(e.at));
        CountStep(c, before.wifi, e.inputs, e.at, LastOnAccessPoint(events, n - 1));
        AddMod(CountedDown(c, events, n - 1), CountedDown(c, events, n) - CountedDown(c, events, n - 1));
      }
    }
  }

  lemma CountStep(c: Config, w: Wifi, i: Inputs, t: nat, last: nat)
    requires w.mqttDown ==> w.lastAssociated == At(last)
    ensures var (v, since) := (Clocked(c, w, i, At(t)), (t - last) % U32);
            && v.prevAssociated == i.associated
            && v.lastAssociated == (if i.associated then At(t) else w.lastAssociated)
            && v.mqttDown == (!i.mqttUp && (i.associated || w.mqttDown))
            && v.downMs == if i.mqttUp then 0
                           else if !i.associated then w.downMs
                           else if !w.mqttDown || since >= c.resetGap then 0
                           else if w.prevAssociated then (w.downMs + if since < 1000 then since else 1000) % U32
                           else w.downMs
  {
    ClockApart(t, last);
    hide At, Since;
  }

  lemma AddMod(a: nat, b: int)
    ensures (a % U32 + b) % U32 == (a + b) % U32
  {
    Division.Shift(a % U32 + b, U32, a / U32);
  }

  lemma LessThanU32(n: nat)
    ensures n < U32 ==> n % U32 == n
  {
  }

  /**
   A display that is on WiFi and not on trial leaves it exactly when it is on an access point with MQTT down,
   does not hear its peer, and the time so counted has come to the limit.
   */
  lemma SuspendsExactly(c: Config, p: Policy, events: seq<Event>, n: nat)
    requires Fit(c, p) && n < |events| && events[n].Poll? && FreshStart(p)
    requires CountedDown(c, events, n + 1) < U32
    ensures var (w, now) := (After(c, p, events, n).wifi, At(events[n].at));
            ActionAt(c, p, events, n).SuspendWifi?
            <==> && c.role == Display && DownOnAccessPoint(events[n].inputs) && !Linked(c, events[n].inputs, now)
                 && !w.suspended && !OnTrial(c, w, now)
                 && CountedDown(c, events, n + 1) >= c.suspendAfter
  {
    var (before, e) := (After(c, p, events, n), events[n]);
    hide Polled, Clocked, Fit, At, Since, Linked;
    ClockCounts(c, p, events, n + 1);
    assert After(c, p, events, n + 1) == Polled(c, before, e.inputs, At(e.at)).0;
    hide After, CountedDown;
    PolledClock(c, before, e.inputs, At(e.at));
    WifiStep(c, before, e.inputs, At(e.at));
    LessThanU32(CountedDown(c, events, n + 1));
  }

  /** From event `k` to event `n` every event is a poll on an access point with MQTT down, a second apart or less. */
  predicate DownFrom(events: seq<Event>, k: nat, n: nat)
    requires n < |events|
  {
    forall m :: k <= m <= n ==>
      && events[m].Poll? && DownOnAccessPoint(events[m].inputs)
      && (m > k ==> Previous(events, m).LastPoll?
                    && Previous(events, m).at <= events[m].at <= Previous(events, m).at + 1000)
  }

  /** Polled at least every second without a break, that is the true time since MQTT was first seen down. */
  lemma {:induction false} CountsTrueTime(c: Config, events: seq<Event>, k: nat, n: nat)
    requires k <= n < |events| && DownFrom(events, k, n) && c.resetGap > 1000 && !Counting(events, k)
    ensures CountedDown(c, events, n + 1) == events[n].at - events[k].at && Counting(events, n + 1)
    ensures LastOnAccessPoint(events, n + 1) == events[n].at
    ensures Previous(events, n + 1) == LastPoll(events[n].at, events[n].inputs)
  {
    assert events[n].Poll? && DownOnAccessPoint(events[n].inputs);
    OneMorePoll(c, events, n);
    hide CountedDown, Counting, LastOnAccessPoint, Previous;
    if k < n {
      var last: nat := n - 1;
      CountsTrueTime(c, events, k, last);
      assert Previous(events, n).at <= events[n].at <= Previous(events, n).at + 1000;
      LessThanU32(events[n].at - events[last].at);
    }
  }

  lemma OneMorePoll(c: Config, events: seq<Event>, n: nat)
    requires n < |events| && events[n].Poll? && DownOnAccessPoint(events[n].inputs)
    ensures var (last, since) := (Previous(events, n), (events[n].at - LastOnAccessPoint(events, n)) % U32);
            CountedDown(c, events, n + 1)
            == if !Counting(events, n) || since >= c.resetGap then 0
               else CountedDown(c, events, n)
                    + if last.LastPoll? && last.inputs.associated then (if since < 1000 then since else 1000) else 0
    ensures Counting(events, n + 1) && LastOnAccessPoint(events, n + 1) == events[n].at
    ensures Previous(events, n + 1) == LastPoll(events[n].at, events[n].inputs)
  {
  }
}
