/**
 What a poll of the channel policy decides, over whole runs and in their own times: how long a probe is
 awaited and what its outcome does, how long the search holds where the peer was found, when the next
 pass begins, and what hearing the peer or joining an access point leaves behind.
 */
module ChannelDecisions {
  import opened Clock
  import opened ChannelPolicy
  import opened ChannelSearch
  import opened UndisturbedPass
  import S = SuspendClock

  /** No poll from the `i`-th event up to the `n`-th finds the peer heard, an access point or a WiFi retry due. */
  ghost predicate Free(c: Config, p: Policy, events: seq<S.Event>, i: nat, n: nat)
    requires S.Fit(c, p) && n <= |events|
  {
    forall k :: i <= k < n ==> Quiet(c, S.After(c, p, events, k), events[k])
  }

  lemma Stepped(c: Config, p: Policy, events: seq<S.Event>, n: nat)
    requires S.Fit(c, p) && n < |events|
    ensures S.After(c, p, events, n + 1) == S.Next(c, S.After(c, p, events, n), events[n])
    ensures S.ActionAt(c, p, events, n) == S.ActionOf(c, S.After(c, p, events, n), events[n])
  {
    hide S.Next, S.ActionOf, S.Fit;
  }

  // ---- A probe ------------------------------------------------------------------------

  /** The first outcome reported for `channel` after the `m`-th event and before the `n`-th. */
  function Reported(events: seq<S.Event>, m: nat, n: nat, channel: nat): Outcome
    requires n <= |events|
  {
    if n <= m + 1 then Pending
    else
      var (before, e) := (Reported(events, m, n - 1, channel), events[n - 1]);
      if before == Pending && e.Result? && e.channel == channel then if e.acked then Acked else Failed
      else before
  }

  /** At the `k`-th event the probe sent at the `m`-th has no outcome and is not overdue. */
  predicate Awaited(c: Config, events: seq<S.Event>, m: nat, k: nat, channel: nat)
    requires m < k < |events| && events[m].Poll? && events[k].Poll?
  {
    Reported(events, m, k, channel) == Pending && (events[k].at - events[m].at) % U32 < c.probeTimeout
  }

  /** A probe of `channel` is out that began when the clock read `sent`. */
  predicate Out(s: Search, channel: nat, sent: u32, outcome: Outcome) {
    s.stage == ProbeWait && s.current == s.probeChannel == channel && s.probeSent == sent && s.outcome == outcome
  }

  lemma ProbeSent(c: Config, p: Policy, i: Inputs, now: u32)
    requires S.Fit(c, p) && Polled(c, p, i, now).1.Probe?
    ensures var (q, action) := Polled(c, p, i, now); Out(q.search, action.channel, now, Pending)
  {
    SomeCandidate(c, p.search.lastGood);
    hide Clocked, ResumeDue, SuspendDue, Linked, ValidChannel, Candidates, PassDue, Holding, OnAccessPoint, Since;
  }

  lemma ResultIsFirst(s: Search, channel: nat, sent: u32, outcome: Outcome, from: nat, acked: bool)
    requires Out(s, channel, sent, outcome)
    ensures var t := WithResult(s, from, acked);
            Out(t, channel, sent, if outcome == Pending && from == channel then if acked then Acked else Failed
                                  else outcome)
            && t == s.(outcome := t.outcome)
  {
  }

  lemma PollAwaits(c: Config, p: Policy, e: S.Event, channel: nat, sent: u32, outcome: Outcome)
    requires S.Fit(c, p) && e.Poll? && Quiet(c, p, e) && Out(p.search, channel, sent, outcome)
    ensures var t := S.Next(c, p, e).search;
            && S.ActionOf(c, p, e) == NoAction && t == Waited(c, p.search, At(e.at))
  {
    UndisturbedPoll(c, p, e.inputs, At(e.at));
    hide Waited, At, Undisturbed, Polled, ValidChannel, Sound;
  }

  /** Until its outcome is seen a probe stays out, with the first outcome reported for its channel. */
  lemma {:induction false} ProbeIsOut(c: Config, p: Policy, events: seq<S.Event>, m: nat, n: nat)
    requires S.Fit(c, p) && m < n <= |events| && events[m].Poll? && S.Ordered(events)
    requires S.ActionAt(c, p, events, m).Probe? && Free(c, p, events, m + 1, n)
    requires forall k :: m < k < n && events[k].Poll? ==>
                           Awaited(c, events, m, k, S.ActionAt(c, p, events, m).channel)
    ensures var (h, s, t) := (S.ActionAt(c, p, events, m).channel, S.After(c, p, events, m + 1).search,
                              S.After(c, p, events, n).search);
            Out(t, h, At(events[m].at), Reported(events, m, n, h)) && t == s.(outcome := t.outcome)
  {
    hide S.After, S.Next, S.ActionOf, S.Fit, At, Polled, Quiet, Out, WithResult, Waited, S.ActionAt;
    if n == m + 1 {
      ProbeOutAtOnce(c, p, events, m);
    } else {
      ProbeIsOut(c, p, events, m, n - 1);
      ProbeStaysOut(c, p, events, m, n - 1);
    }
  }

  lemma ProbeOutAtOnce(c: Config, p: Policy, events: seq<S.Event>, m: nat)
    requires S.Fit(c, p) && m < |events| && events[m].Poll? && S.ActionAt(c, p, events, m).Probe?
    ensures var s := S.After(c, p, events, m + 1).search;
            Out(s, S.ActionAt(c, p, events, m).channel, At(events[m].at), Pending) && s == s.(outcome := s.outcome)
  {
    hide S.Fit, At, Polled, Out;
    Stepped(c, p, events, m);
    ProbeSent(c, S.After(c, p, events, m), events[m].inputs, At(events[m].at));
  }

  lemma ProbeStaysOut(c: Config, p: Policy, events: seq<S.Event>, m: nat, k: nat)
    requires S.Fit(c, p) && m < k < |events| && events[m].Poll? && S.Ordered(events)
    requires S.ActionAt(c, p, events, m).Probe? && Quiet(c, S.After(c, p, events, k), events[k])
    requires events[k].Poll? ==> Awaited(c, events, m, k, S.ActionAt(c, p, events, m).channel)
    requires Out(S.After(c, p, events, k).search, S.ActionAt(c, p, events, m).channel, At(events[m].at),
                 Reported(events, m, k, S.ActionAt(c, p, events, m).channel))
    ensures var (h, s, t) := (S.ActionAt(c, p, events, m).channel, S.After(c, p, events, k).search,
                              S.After(c, p, events, k + 1).search);
            Out(t, h, At(events[m].at), Reported(events, m, k + 1, h)) && t == s.(outcome := t.outcome)
  {
    hide S.After, S.ActionOf, S.Fit, At, Polled, Quiet, Since, WithResult, S.ActionAt, Reported;
    Stepped(c, p, events, k);
    var (e, q, h) := (events[k], S.After(c, p, events, k), S.ActionAt(c, p, events, m).channel);
    ReportGrows(events, m, k, h);
    match e
    case Poll(at, _) =>
      PollAwaits(c, q, e, h, At(events[m].at), Reported(events, m, k, h));
      SinceIsElapsed(at, events[m].at);
    case Result(channel, acked) =>
      ResultIsFirst(q.search, h, At(events[m].at), Reported(events, m, k, h), channel, acked);
  }

  lemma ReportGrows(events: seq<S.Event>, m: nat, k: nat, channel: nat)
    requires m < k < |events|
    ensures var (before, e) := (Reported(events, m, k, channel), events[k]);
            Reported(events, m, k + 1, channel)
            == if before == Pending && e.Result? && e.channel == channel then if e.acked then Acked else Failed
               else before
  {
  }

  /**
   What a poll makes of a probe: with no outcome reported for its channel it goes on waiting exactly while
   less than the timeout has passed; acknowledged, the search rests and holds where it is, which is the
   last good channel from now on; and otherwise it goes to its next candidate, or rests after the last.
   */
  lemma ProbeIsDecidedExactly(c: Config, p: Policy, events: seq<S.Event>, m: nat, n: nat)
    requires S.Fit(c, p) && m < n < |events| && events[m].Poll? && events[n].Poll? && S.Ordered(events)
    requires S.ActionAt(c, p, events, m).Probe? && Free(c, p, events, m + 1, n + 1)
    requires forall k :: m < k < n && events[k].Poll? ==>
                           Awaited(c, events, m, k, S.ActionAt(c, p, events, m).channel)
    ensures var (h, s, t) := (S.ActionAt(c, p, events, m).channel, S.After(c, p, events, m + 1).search,
                              S.After(c, p, events, n + 1).search);
            var (outcome, next) := (Reported(events, m, n, h), s.index + 1);
            && S.ActionAt(c, p, events, n) == NoAction && t.current == h
            && (t.stage == ProbeWait <==> Awaited(c, events, m, n, h))
            && (outcome == Acked ==>
                  t.stage == Idle && t.holding && t.holdStart == At(events[n].at) && t.lastGood == h)
            && (outcome != Acked ==> t.lastGood == s.lastGood && t.holding == s.holding)
            && (outcome != Acked && t.stage != ProbeWait ==>
                  t.index == next && t.stage == (if next < |s.candidates| then NeedSet else Idle))
  {
    hide S.After, S.Next, S.ActionOf, S.Fit, At, Polled, Quiet, Since, S.ActionAt, Reported;
    assert Quiet(c, S.After(c, p, events, n), events[n]);
    Stepped(c, p, events, n);
    ProbeIsOut(c, p, events, m, n);
    var h := S.ActionAt(c, p, events, m).channel;
    PollAwaits(c, S.After(c, p, events, n), events[n], h, At(events[m].at), Reported(events, m, n, h));
    SinceIsElapsed(events[n].at, events[m].at);
  }

  // ---- Holding, and the next pass -----------------------------------------------------

  /** A step of the search leaves its stamps, or begins a pass and stamps it. */
  lemma SearchStamps(c: Config, s: Search, now: u32)
    requires ValidChannel(c.rendezvous) && Sound(s)
    ensures var t := Searched(c, s, now).0;
            if s.stage == Idle && PassDue(c, s, now) && !Holding(c, s, now) then
              t.passes == s.passes + 1 && t.passStarted && t.passStart == now
            else t.passes == s.passes && t.passStarted == s.passStarted && t.passStart == s.passStart
  {
    SomeCandidate(c, s.lastGood);
    hide Candidates, ValidChannel, Since;
  }

  lemma EventStamps(c: Config, p: Policy, e: S.Event)
    requires S.Fit(c, p) && Quiet(c, p, e)
    ensures var (s, t) := (p.search, S.Next(c, p, e).search);
            if e.Poll? && s.stage == Idle && PassDue(c, s, At(e.at)) && !Holding(c, s, At(e.at)) then
              t.passes == s.passes + 1 && t.passStarted && t.passStart == At(e.at)
            else t.passes == s.passes && t.passStarted == s.passStarted && t.passStart == s.passStart
  {
    if e.Poll? {
      UndisturbedPoll(c, p, e.inputs, At(e.at));
      SearchStamps(c, p.search, At(e.at));
    }
    hide Polled, Searched, At, PassDue, Holding, ValidChannel, Sound, Undisturbed;
  }

  /** The `b`-th event is an undisturbed poll that begins a pass. */
  ghost predicate Begins(c: Config, p: Policy, events: seq<S.Event>, b: nat)
    requires S.Fit(c, p) && b < |events|
  {
    && events[b].Poll? && Quiet(c, S.After(c, p, events, b), events[b])
    && S.After(c, p, events, b + 1).search.passes == S.After(c, p, events, b).search.passes + 1
  }

  /** Undisturbed, the search remembers when its last pass began. */
  lemma {:induction false} PassStamp(c: Config, p: Policy, events: seq<S.Event>, b: nat, n: nat)
    requires S.Fit(c, p) && b < n <= |events| && Begins(c, p, events, b) && Free(c, p, events, b + 1, n)
    ensures var (s, t) := (S.After(c, p, events, b + 1).search, S.After(c, p, events, n).search);
            t.passes >= s.passes && (t.passes == s.passes ==> t.passStarted && t.passStart == At(events[b].at))
  {
    hide S.After, S.Next, S.Fit, At, Polled, Quiet, PassDue, Holding;
    var before: nat := n - 1;
    assert Quiet(c, S.After(c, p, events, before), events[before]);
    Stepped(c, p, events, before);
    EventStamps(c, S.After(c, p, events, before), events[before]);
    if n > b + 1 {
      PassStamp(c, p, events, b, before);
    }
  }

  /** At rest, a poll that begins no pass leaves the search resting; only the end of the hold is noted. */
  lemma RestingStep(c: Config, p: Policy, e: S.Event)
    requires S.Fit(c, p) && Quiet(c, p, e) && p.search.stage == Idle
    requires S.Next(c, p, e).search.passes == p.search.passes
    ensures var (s, t) := (p.search, S.Next(c, p, e).search);
            && t.stage == Idle && t.holdStart == s.holdStart && t.lastGood == s.lastGood
            && (t.holding <==> s.holding && (e.Poll? ==> Since(At(e.at), s.holdStart) < c.ackHold))
  {
    if e.Poll? {
      UndisturbedPoll(c, p, e.inputs, At(e.at));
    }
    SomeCandidate(c, p.search.lastGood);
    hide Polled, At, Candidates, ValidChannel, Undisturbed, Since;
  }

  /** A search that rests since the `f`-th event, held or not, and began no pass before the `n`-th. */
  ghost predicate Rests(c: Config, p: Policy, events: seq<S.Event>, f: nat, n: nat)
    requires S.Fit(c, p) && f < n <= |events|
  {
    && events[f].Poll? && S.After(c, p, events, f).search.stage != Idle
    && S.After(c, p, events, f + 1).search.stage == Idle && Free(c, p, events, f, n)
    && S.After(c, p, events, n).search.passes == S.After(c, p, events, f + 1).search.passes
  }

  lemma {:induction false} PassesGrow(c: Config, p: Policy, events: seq<S.Event>, i: nat, n: nat)
    requires S.Fit(c, p) && i <= n <= |events| && Free(c, p, events, i, n)
    ensures S.After(c, p, events, n).search.passes >= S.After(c, p, events, i).search.passes
  {
    hide S.After, S.Next, S.Fit, At, Polled, Quiet, PassDue, Holding;
    if i < n {
      var before: nat := n - 1;
      assert Quiet(c, S.After(c, p, events, before), events[before]);
      Stepped(c, p, events, before);
      EventStamps(c, S.After(c, p, events, before), events[before]);
      PassesGrow(c, p, events, i, before);
    }
  }

  lemma EndStamp(c: Config, p: Policy, e: S.Event)
    requires S.Fit(c, p) && Quiet(c, p, e) && e.Poll?
    requires p.search.stage != Idle && S.Next(c, p, e).search.stage == Idle
    ensures var (s, t) := (p.search, S.Next(c, p, e).search); t.holding && !s.holding ==> t.holdStart == At(e.at)
    ensures S.Next(c, p, e).search.passes == p.search.passes
  {
    UndisturbedPoll(c, p, e.inputs, At(e.at));
    hide Polled, Rested, At, Candidates, ValidChannel, Undisturbed, Since;
  }

  /** While the search rests, the hold goes on exactly until `ackHold` has passed at some poll. */
  lemma {:induction false} HoldStamp(c: Config, p: Policy, events: seq<S.Event>, f: nat, n: nat)
    requires S.Fit(c, p) && f < n <= |events| && S.Ordered(events) && Rests(c, p, events, f, n)
    requires !S.After(c, p, events, f).search.holding && S.TimeOf(events, n) < events[f].at + U32
    ensures var (s, t) := (S.After(c, p, events, f + 1).search, S.After(c, p, events, n).search);
            && t.stage == Idle && t.lastGood == s.lastGood
            && (t.holding ==> s.holding && t.holdStart == At(events[f].at))
            && (s.holding && !t.holding ==> S.TimeOf(events, n) - events[f].at >= c.ackHold)
  {
    hide S.After, S.Next, S.Fit, At, Polled, Quiet, Since;
    var before: nat := n - 1;
    var (q, e) := (S.After(c, p, events, before), events[before]);
    assert Quiet(c, q, e);
    Stepped(c, p, events, before);
    if before == f {
      EndStamp(c, q, e);
    } else {
      PassesGrow(c, p, events, f + 1, before);
      PassesGrow(c, p, events, before, n);
      TimeStep(events, f, before);
      HoldStamp(c, p, events, f, before);
      RestingStep(c, q, e);
      if e.Poll? {
        SinceIsElapsed(e.at, events[f].at);
      }
    }
  }

  lemma TimeStep(events: seq<S.Event>, f: nat, before: nat)
    requires f < before < |events| && S.Ordered(events) && events[f].Poll?
    ensures S.TimeOf(events, before) <= S.TimeOf(events, before + 1)
    ensures events[before].Poll? ==> events[f].at <= events[before].at == S.TimeOf(events, before + 1)
  {
    if events[before].Poll? {
      S.TimesGrow(events, before, before);
    }
  }

  lemma PassStep(c: Config, p: Policy, e: S.Event)
    requires S.Fit(c, p) && Quiet(c, p, e)
    ensures var (s, t) := (p.search, S.Next(c, p, e).search);
            if t.passes == s.passes then
              t.stage != Idle ==> s.stage != Idle && t.holding == s.holding
            else !t.holding
  {
    if e.Poll? {
      UndisturbedPoll(c, p, e.inputs, At(e.at));
    }
    SomeCandidate(c, p.search.lastGood);
    hide Polled, At, Candidates, ValidChannel, Undisturbed, Since;
  }

  /** Within a pass nothing is held. */
  lemma {:induction false} NotHeldInPass(c: Config, p: Policy, events: seq<S.Event>, b: nat, n: nat)
    requires S.Fit(c, p) && b < n <= |events| && Begins(c, p, events, b) && Free(c, p, events, b + 1, n)
    requires S.After(c, p, events, n).search.passes == S.After(c, p, events, b + 1).search.passes
    ensures var s := S.After(c, p, events, n).search; s.stage != Idle ==> !s.holding
  {
    hide S.After, S.Next, S.Fit, At, Polled, Quiet;
    var before: nat := n - 1;
    assert Quiet(c, S.After(c, p, events, before), events[before]);
    Stepped(c, p, events, before);
    PassStep(c, S.After(c, p, events, before), events[before]);
    if n > b + 1 {
      EventStamps(c, S.After(c, p, events, before), events[before]);
      hide PassDue, Holding;
      PassesGrow(c, p, events, b + 1, before);
      NotHeldInPass(c, p, events, b, before);
    }
  }

  /** What a resting poll decides, by the ages of the hold and of the pass. */
  lemma RestingPoll(c: Config, p: Policy, e: S.Event)
    requires S.Fit(c, p) && Quiet(c, p, e) && e.Poll? && p.search.stage == Idle
    ensures var (s, now) := (p.search, At(e.at));
            var (t, action) := (S.Next(c, p, e).search, S.ActionOf(c, p, e));
            && (t.passes == s.passes + 1 <==> PassDue(c, s, now) && !Holding(c, s, now))
            && (Holding(c, s, now) ==> action == NoAction && t.current == s.current)
            && (!Holding(c, s, now) && !PassDue(c, s, now) ==>
                  t.current == c.rendezvous
                  && action == if s.current == c.rendezvous then NoAction else SetChannel(c.rendezvous))
  {
    UndisturbedPoll(c, p, e.inputs, At(e.at));
    SomeCandidate(c, p.search.lastGood);
    hide Polled, At, Candidates, ValidChannel, Undisturbed, PassDue, Holding;
  }

  /** A poll that finds a search at rest since the `f`-th event, after a pass begun at the `b`-th. */
  ghost predicate FindsAtRest(c: Config, p: Policy, events: seq<S.Event>, b: nat, f: nat, n: nat)
    requires S.Fit(c, p)
  {
    && b < f < n < |events| && S.Ordered(events) && Begins(c, p, events, b)
    && Free(c, p, events, b + 1, n + 1) && Rests(c, p, events, f, n) && events[n].Poll?
    && S.After(c, p, events, n).search.passes == S.After(c, p, events, b + 1).search.passes
    && events[n].at < events[b].at + U32
  }

  lemma AtRest(c: Config, p: Policy, events: seq<S.Event>, b: nat, f: nat, n: nat)
    requires S.Fit(c, p) && FindsAtRest(c, p, events, b, f, n)
    ensures var (s, u) := (S.After(c, p, events, n).search, events[n].at);
            && s.stage == Idle && (PassDue(c, s, At(u)) <==> u - events[b].at >= c.searchInterval)
            && (Holding(c, s, At(u)) <==>
                  S.After(c, p, events, f + 1).search.holding && u - events[f].at < c.ackHold)
  {
    hide S.After, S.Fit, At, Quiet, Since, S.TimeOf;
    assert events[b].at <= events[f].at <= events[n].at;
    S.TimesGrow(events, n, n);
    PassStamp(c, p, events, b, n);
    PassesGrow(c, p, events, b + 1, f);
    PassesGrow(c, p, events, f, n);
    NotHeldInPass(c, p, events, b, f);
    HoldStamp(c, p, events, f, n);
    SinceIsElapsed(events[n].at, events[b].at);
    SinceIsElapsed(events[n].at, events[f].at);
  }

  /**
   The poll at which the next pass begins: exactly when `ackHold` is over, if the last pass found the
   peer, and `searchInterval` has passed since that pass began. While it holds it stays where it is, and
   otherwise it waits on the rendezvous channel, where it moves at once.
   */
  lemma NextPassExactly(c: Config, p: Policy, events: seq<S.Event>, b: nat, f: nat, n: nat)
    requires S.Fit(c, p) && FindsAtRest(c, p, events, b, f, n)
    ensures var (s, t, u) := (S.After(c, p, events, n).search, S.After(c, p, events, n + 1).search, events[n].at);
            var held := S.After(c, p, events, f + 1).search.holding && u - events[f].at < c.ackHold;
            var action := S.ActionAt(c, p, events, n);
            && (t.passes == s.passes + 1 <==> !held && u - events[b].at >= c.searchInterval)
            && (held ==> action == NoAction && t.current == s.current)
            && (!held && u - events[b].at < c.searchInterval ==>
                  t.current == c.rendezvous
                  && action == if s.current == c.rendezvous then NoAction else SetChannel(c.rendezvous))
  {
    hide S.After, S.Next, S.ActionOf, S.Fit, At, Quiet, S.ActionAt, PassDue, Holding, Rests;
    assert Quiet(c, S.After(c, p, events, n), events[n]);
    AtRest(c, p, events, b, f, n);
    Stepped(c, p, events, n);
    RestingPoll(c, S.After(c, p, events, n), events[n]);
  }

  // ---- Hearing the peer, and access points --------------------------------------------

  /** The peer counts as heard exactly while less than the link timeout has passed since its last frame. */
  lemma LinkedExactly(c: Config, i: Inputs, heard: nat, t: nat)
    requires heard <= t < heard + U32 && i.lastPeerRx == At(heard)
    ensures Linked(c, i, At(t)) <==> i.peerHeard && t - heard < c.linkTimeout
  {
    SinceIsElapsed(t, heard);
  }

  /** The channel that a poll leaves as the last good one, and the one the radio is taken to be on. */
  lemma WhereHeard(c: Config, p: Policy, i: Inputs, heard: nat, t: nat)
    requires S.Fit(c, p) && heard <= t < heard + U32 && i.lastPeerRx == At(heard)
    requires !ResumeDue(c, Clocked(c, p.wifi, i, At(t)), At(t)) && !(i.associated && p.wifi.suspended)
    ensures var (s, q) := (p.search, Polled(c, p, i, At(t)).0.search);
            var linked := i.peerHeard && t - heard < c.linkTimeout;
            && (i.associated ==>
                  && q.current == (if 1 <= i.wifiChannel <= 14 then i.wifiChannel else s.current)
                  && q.lastGood == if 1 <= i.wifiChannel <= 14 && linked then i.wifiChannel else s.lastGood)
            && (!i.associated && linked ==>
                  q.current == q.lastGood == s.current && Polled(c, p, i, At(t)).1 == NoAction)
  {
    LinkedExactly(c, i, heard, t);
    hide Linked, Since, At, ResumeDue, SuspendDue, Searched;
  }

  /** A poll that ends the search: WiFi is retried, an access point owns the channel, or the peer is heard. */
  predicate Interrupts(c: Config, p: Policy, e: S.Event) {
    && e.Poll? && !Undisturbed(c, p.wifi, e.inputs, At(e.at))
    && (e.inputs.associated && p.wifi.suspended ==> ResumeDue(c, Clocked(c, p.wifi, e.inputs, At(e.at)), At(e.at)))
  }

  predicate Ended(s: Search) {
    s.stage == Idle && !s.holding && !s.passStarted
  }

  lemma InterruptEnds(c: Config, p: Policy, e: S.Event)
    requires S.Fit(c, p) && Interrupts(c, p, e)
    ensures Ended(S.Next(c, p, e).search)
  {
    assert Clocked(c, p.wifi, e.inputs, At(e.at)).suspended == p.wifi.suspended;
    hide Clocked, ResumeDue, SuspendDue, Linked, At, Searched;
  }

  /** Where a pass begins: on the last good channel, or where both sides meet. */
  function Home(c: Config, s: Search): nat {
    if 1 <= s.lastGood <= 14 then s.lastGood else c.rendezvous
  }

  lemma EndedBegins(c: Config, p: Policy, e: S.Event)
    requires S.Fit(c, p) && e.Poll? && Quiet(c, p, e) && Ended(p.search)
    ensures var (s, first) := (p.search, Home(c, p.search));
            && S.Next(c, p, e).search.passes == s.passes + 1
            && S.ActionOf(c, p, e) == if s.current == first then Probe(first) else SetChannel(first)
  {
    UndisturbedPoll(c, p, e.inputs, At(e.at));
    SomeCandidate(c, p.search.lastGood);
    FirstCandidate(c, p.search.lastGood);
    hide Polled, At, Undisturbed, Candidates;
  }

  lemma FirstCandidate(c: Config, lastGood: nat)
    requires ValidChannel(c.rendezvous)
    ensures Candidates(c, lastGood) != []
    ensures Candidates(c, lastGood)[0] == if 1 <= lastGood <= 14 then lastGood else c.rendezvous
  {
    SomeCandidate(c, lastGood);
    FirstTwo(c, lastGood);
    var first := WithCandidate(WithCandidate([], lastGood), c.rendezvous);
    hide Distinct;
    KeepsFirst(first, 1);
    KeepsFirst(WithCandidate(first, 1), 6);
    KeepsFirst(WithCandidate(WithCandidate(first, 1), 6), 11);
    hide WithCandidate;
  }

  lemma KeepsFirst(channels: seq<nat>, channel: nat)
    requires channels != []
    ensures WithCandidate(channels, channel) != [] && WithCandidate(channels, channel)[0] == channels[0]
  {
  }

  lemma {:induction false} StaysEnded(c: Config, p: Policy, events: seq<S.Event>, i: nat, n: nat)
    requires S.Fit(c, p) && i <= n <= |events| && Ended(S.After(c, p, events, i).search)
    requires forall k :: i <= k < n ==> events[k].Result?
    ensures S.After(c, p, events, n).search == S.After(c, p, events, i).search
  {
    hide S.After, S.Fit, Polled;
    if i < n {
      StaysEnded(c, p, events, i, n - 1);
      Stepped(c, p, events, n - 1);
    }
  }

  /**
   After a poll that ended the search, the first poll that finds the radio free begins a pass at once,
   whatever was held or begun before: on the last good channel, or on the rendezvous when there is none.
   */
  lemma InterruptedBeginsAtOnce(c: Config, p: Policy, events: seq<S.Event>, m: nat, n: nat)
    requires S.Fit(c, p) && m < n < |events| && Interrupts(c, S.After(c, p, events, m), events[m])
    requires (forall k :: m < k < n ==> events[k].Result?) && events[n].Poll?
    requires Quiet(c, S.After(c, p, events, n), events[n])
    ensures var s := S.After(c, p, events, m + 1).search;
            && S.After(c, p, events, n + 1).search.passes == s.passes + 1
            && S.ActionAt(c, p, events, n)
               == if s.current == Home(c, s) then Probe(Home(c, s)) else SetChannel(Home(c, s))
  {
    hide S.After, S.Next, S.ActionOf, S.Fit, At, Polled, Quiet, Interrupts, Ended, Home, S.ActionAt;
    Stepped(c, p, events, m);
    Stepped(c, p, events, n);
    InterruptEnds(c, S.After(c, p, events, m), events[m]);
    StaysEnded(c, p, events, m + 1, n);
    EndedBegins(c, S.After(c, p, events, n), events[n]);
  }

  /**
   From boot the first poll, if the radio is free, probes the rendezvous channel, which is the one
   configured if that is 1 to 14 and 6 otherwise.
   */
  lemma BootProbesRendezvous(config: Config, i: Inputs, now: u32)
    requires !i.associated && !Linked(Corrected(config), i, now)
    ensures var c := Corrected(config);
            && S.Fit(c, Initial(c))
            && Polled(c, Initial(c), i, now).1
               == Probe(if 1 <= config.rendezvous <= 14 then config.rendezvous else 6)
  {
    var c := Corrected(config);
    EndedBegins(c, Initial(c), S.Poll(now, i));
    hide Polled, Linked, Since;
  }
}
