/**
 The search finds a peer that stays on a candidate channel: which channels are candidates, and what
 one undisturbed pass over them does.
 */
module ChannelSearch {
  import opened Clock
  import opened ChannelPolicy

  // ---- The candidates -----------------------------------------------------------------

  predicate Distinct(channels: seq<nat>) {
    forall i, j :: 0 <= i < j < |channels| ==> channels[i] != channels[j]
  }

  predicate SearchChannel(channel: nat) {
    channel == 1 || channel == 6 || channel == 11
  }

  lemma CandidateAdded(channels: seq<nat>, channel: nat)
    requires Distinct(channels) && |channels| <= MAX_CANDIDATES
    ensures var after := WithCandidate(channels, channel);
            && Distinct(after) && |after| <= MAX_CANDIDATES && channels <= after
            && (forall x :: x in after <==> x in channels || (x == channel && after != channels))
            && (channel in after <==> channel in channels || (ValidChannel(channel) && |channels| < MAX_CANDIDATES))
            && |after| == |channels| + if channel in after && channel !in channels then 1 else 0
  {
  }

  /** Adding 1, 6 and 11 to at most two others: only 11 can find the list full. */
  lemma SearchChannelsAdded(first: seq<nat>)
    requires Distinct(first) && |first| <= 2
    ensures var all := WithCandidate(WithCandidate(WithCandidate(first, 1), 6), 11);
            && Distinct(all) && (forall x :: x in first ==> x in all) && 1 in all && 6 in all
            && (forall x :: x in all ==> x in first || SearchChannel(x))
            && (11 !in all <==> |first| == 2 && 1 !in first && 6 !in first && 11 !in first)
  {
    CandidateAdded(first, 1);
    CandidateAdded(WithCandidate(first, 1), 6);
    CandidateAdded(WithCandidate(WithCandidate(first, 1), 6), 11);
    hide WithCandidate, Distinct;
  }

  /** The channels named by the last good channel and the rendezvous. */
  lemma FirstTwo(c: Config, lastGood: nat)
    requires ValidChannel(c.rendezvous)
    ensures var first := WithCandidate(WithCandidate([], lastGood), c.rendezvous);
            && Distinct(first)
            && first == (if !ValidChannel(lastGood) || lastGood == c.rendezvous then [c.rendezvous]
                         else [lastGood, c.rendezvous])
  {
  }

  /**
   The candidates are distinct, and are the last good channel, the rendezvous and 1, 6 and 11; only 11
   can be missing, exactly when the last good channel is valid, is not the rendezvous, and neither of
   the two is 1, 6 or 11: then there would be five.
   */
  lemma CandidatesAre(c: Config, lastGood: nat)
    requires ValidChannel(c.rendezvous)
    ensures var all := Candidates(c, lastGood);
            && Distinct(all) && c.rendezvous in all && (ValidChannel(lastGood) ==> lastGood in all)
            && 1 in all && 6 in all
            && (11 !in all <==> ValidChannel(lastGood) && lastGood != c.rendezvous
                                && !SearchChannel(lastGood) && !SearchChannel(c.rendezvous))
            && (forall x :: x in all ==> x == lastGood || x == c.rendezvous || SearchChannel(x))
  {
    FirstTwo(c, lastGood);
    SearchChannelsAdded(WithCandidate(WithCandidate([], lastGood), c.rendezvous));
    hide WithCandidate, Distinct;
  }

  // ---- One pass -----------------------------------------------------------------------

  /** The radio is free: not on an access point, the peer not heard, no WiFi retry due. */
  predicate Undisturbed(c: Config, w: Wifi, i: Inputs, now: u32) {
    !i.associated && !Linked(c, i, now) && !ResumeDue(c, Clocked(c, w, i, now), now)
  }

  lemma UndisturbedPoll(c: Config, p: Policy, i: Inputs, now: u32)
    requires ValidChannel(c.rendezvous) && Sound(p.search) && Undisturbed(c, p.wifi, i, now)
    ensures Polled(c, p, i, now).0.search == Searched(c, p.search, now).0
    ensures Polled(c, p, i, now).1 == Searched(c, p.search, now).1
  {
    hide Searched, Clocked, ResumeDue, Linked, ValidChannel, Sound;
  }

  datatype Step = Poll(at: nat) | Result(channel: nat, acked: bool)

  function Channels(a: Action): seq<nat> {
    if a.Probe? then [a.channel] else []
  }

  /** The search, and the channels probed since the pass began. */
  datatype Pass = Pass(s: Search, probes: seq<nat>)

  /** A poll that starts a pass. */
  function Begun(c: Config, s: Search, now: u32): Pass
    requires ValidChannel(c.rendezvous)
  {
    SomeCandidate(c, s.lastGood);
    var (t, action) := OnCandidate(NewPass(c, s.(holding := false), now), now);
    Pass(t, Channels(action))
  }

  lemma BegunByPoll(c: Config, s: Search, now: u32)
    requires ValidChannel(c.rendezvous) && s.stage == Idle && Sound(s) && PassDue(c, s, now) && !Holding(c, s, now)
    ensures Begun(c, s, now).s == Searched(c, s, now).0
  {
    hide OnCandidate, Candidates, PassDue, Holding, ValidChannel;
  }

  function Next(c: Config, p: Pass, step: Step): Pass
    requires ValidChannel(c.rendezvous) && Sound(p.s)
  {
    match step
    case Poll(at) => var (t, action) := Searched(c, p.s, At(at)); Pass(t, p.probes + Channels(action))
    case Result(channel, acked) => p.(s := WithResult(p.s, channel, acked))
  }

  lemma NextIsSound(c: Config, p: Pass, step: Step)
    requires ValidChannel(c.rendezvous) && Sound(p.s)
    ensures Sound(Next(c, p, step).s)
  {
    SomeCandidate(c, p.s.lastGood);
    hide Since, PassDue, Holding, Candidates, ValidChannel;
  }

  lemma BegunIsSound(c: Config, s: Search, now: u32)
    requires ValidChannel(c.rendezvous)
    ensures Sound(Begun(c, s, now).s)
  {
    SomeCandidate(c, s.lastGood);
    hide Candidates, ValidChannel;
  }

  /** The pass begun at `start`, after the first `n` steps. */
  function After(c: Config, s: Search, start: nat, steps: seq<Step>, n: nat): (p: Pass)
    requires ValidChannel(c.rendezvous) && n <= |steps|
    ensures Sound(p.s)
  {
    if n == 0 then
      BegunIsSound(c, s, At(start));
      Begun(c, s, At(start))
    else
      var before := After(c, s, start, steps, n - 1);
      NextIsSound(c, before, steps[n - 1]);
      Next(c, before, steps[n - 1])
  }

  /** The first `n` steps find the pass still on. */
  predicate On(c: Config, s: Search, start: nat, steps: seq<Step>, n: nat)
    requires ValidChannel(c.rendezvous) && n <= |steps|
  {
    forall k :: 0 <= k < n ==> After(c, s, start, steps, k).s.stage != Idle
  }

  /** Every candidate before the present one has been probed once, in order. */
  predicate InOrder(p: Pass, all: seq<nat>, lastGood: nat) {
    var (s, i) := (p.s, p.s.index);
    && s.candidates == all && i <= |all|
    && match s.stage
       case NeedSet => i < |all| && p.probes == all[..i] && s.lastGood == lastGood && !s.holding
       case NeedProbe =>
         i < |all| && p.probes == all[..i] && s.current == all[i] && s.lastGood == lastGood && !s.holding
       case ProbeWait =>
         && i < |all| && p.probes == all[..i + 1] && s.current == s.probeChannel == all[i]
         && s.lastGood == lastGood && !s.holding
       case Idle =>
         if s.holding then
           i < |all| && p.probes == all[..i + 1] && s.outcome == Acked && s.lastGood == s.current == all[i]
         else i == |all| && p.probes == all && s.lastGood == lastGood
  }

  lemma BegunInOrder(c: Config, s: Search, now: u32)
    requires ValidChannel(c.rendezvous)
    ensures InOrder(Begun(c, s, now), Candidates(c, s.lastGood), s.lastGood)
  {
    SomeCandidate(c, s.lastGood);
    hide Candidates, ValidChannel;
  }

  lemma StepInOrder(c: Config, p: Pass, step: Step, all: seq<nat>, lastGood: nat)
    requires ValidChannel(c.rendezvous) && Sound(p.s) && InOrder(p, all, lastGood) && p.s.stage != Idle
    ensures InOrder(Next(c, p, step), all, lastGood)
  {
    hide Since, Rested, ValidChannel;
    assert p.s.index < |all| && all[..p.s.index + 1] == all[..p.s.index] + [all[p.s.index]];
    assert all[..|all|] == all;
  }

  lemma {:induction false} StaysInOrder(c: Config, s: Search, start: nat, steps: seq<Step>, n: nat)
    requires ValidChannel(c.rendezvous) && n <= |steps| && On(c, s, start, steps, n)
    ensures InOrder(After(c, s, start, steps, n), Candidates(c, s.lastGood), s.lastGood)
  {
    if n == 0 {
      BegunInOrder(c, s, At(start));
    } else {
      StaysInOrder(c, s, start, steps, n - 1);
      assert After(c, s, start, steps, n - 1).s.stage != Idle;
      StepInOrder(c, After(c, s, start, steps, n - 1), steps[n - 1], Candidates(c, s.lastGood), s.lastGood);
    }
    hide Begun, Next, InOrder, Candidates, ValidChannel, At, Sound;
  }

  predicate NoAck(steps: seq<Step>) {
    forall k :: 0 <= k < |steps| && steps[k].Result? ==> !steps[k].acked
  }

  predicate Unacked(s: Search) {
    !s.holding && (s.stage == ProbeWait ==> s.outcome != Acked)
  }

  lemma BegunUnacked(c: Config, s: Search, now: u32)
    requires ValidChannel(c.rendezvous)
    ensures Unacked(Begun(c, s, now).s)
  {
    SomeCandidate(c, s.lastGood);
    hide Candidates, ValidChannel;
  }

  lemma StepUnacked(c: Config, p: Pass, step: Step)
    requires ValidChannel(c.rendezvous) && Sound(p.s) && p.s.stage != Idle && Unacked(p.s)
    requires step.Result? ==> !step.acked
    ensures Unacked(Next(c, p, step).s)
  {
    hide Since, Rested, ValidChannel;
  }

  lemma {:induction false} NotAcked(c: Config, s: Search, start: nat, steps: seq<Step>, n: nat)
    requires ValidChannel(c.rendezvous) && n <= |steps| && On(c, s, start, steps, n) && NoAck(steps)
    ensures Unacked(After(c, s, start, steps, n).s)
  {
    hide Candidates, ValidChannel, At, Next, Begun, Unacked, Sound;
    if n == 0 {
      BegunUnacked(c, s, At(start));
    } else {
      NotAcked(c, s, start, steps, n - 1);
      StepUnacked(c, After(c, s, start, steps, n - 1), steps[n - 1]);
    }
  }

  /**
   With no acknowledgement the pass, once over, has probed every candidate exactly once and in order,
   the candidates being distinct, and has left the last good channel alone.
   */
  lemma PassProbesEachOnce(c: Config, s: Search, start: nat, steps: seq<Step>, n: nat)
    requires ValidChannel(c.rendezvous) && n <= |steps| && On(c, s, start, steps, n) && NoAck(steps)
    ensures var p := After(c, s, start, steps, n);
            && p.probes <= Candidates(c, s.lastGood) && Distinct(p.probes)
            && (p.s.stage == Idle ==> p.probes == Candidates(c, s.lastGood) && p.s.lastGood == s.lastGood)
  {
    hide *;
    StaysInOrder(c, s, start, steps, n);
    NotAcked(c, s, start, steps, n);
    CandidatesAre(c, s.lastGood);
    OrderMeansOnce(After(c, s, start, steps, n), Candidates(c, s.lastGood), s.lastGood);
  }

  lemma OrderMeansOnce(p: Pass, all: seq<nat>, lastGood: nat)
    requires InOrder(p, all, lastGood) && Unacked(p.s) && Distinct(all)
    ensures p.probes <= all && Distinct(p.probes)
    ensures p.s.stage == Idle ==> p.probes == all && p.s.lastGood == lastGood
  {
  }

  // ---- A peer on one channel ----------------------------------------------------------

  /** The peer acknowledges exactly the probes on `home`, each before its timeout is seen. */
  predicate PeerAt(c: Config, s: Search, start: nat, steps: seq<Step>, home: nat)
    requires ValidChannel(c.rendezvous)
  {
    forall k :: 0 <= k < |steps| ==> Answers(c, After(c, s, start, steps, k).s, steps[k], home)
  }

  predicate Answers(c: Config, s: Search, step: Step, home: nat) {
    match step
    case Result(channel, acked) => acked <==> channel == home
    case Poll(at) =>
      s.stage == ProbeWait && s.current == home && s.outcome == Pending ==> Since(At(at), s.probeSent) < c.probeTimeout
  }

  /** The peer's channel is still ahead, or being probed, or the search holds on it. */
  predicate Homing(s: Search, all: seq<nat>, home: nat)
    requires s.index <= |all|
  {
    match s.stage
    case Idle => s.holding
    case ProbeWait => home !in all[..s.index] && if s.current == home then s.outcome != Failed else s.outcome != Acked
    case _ => home !in all[..s.index]
  }

  lemma BegunHoming(c: Config, s: Search, now: u32, home: nat)
    requires ValidChannel(c.rendezvous)
    ensures var t := Begun(c, s, now).s; t.index == 0 && Homing(t, Candidates(c, s.lastGood), home)
  {
    SomeCandidate(c, s.lastGood);
    hide Candidates, ValidChannel;
  }

  /** Where the search stands within a pass. */
  predicate Placed(s: Search, all: seq<nat>) {
    && s.candidates == all && s.index < |all| && s.stage != Idle
    && (s.stage == ProbeWait ==> s.current == s.probeChannel == all[s.index])
    && (s.stage == NeedProbe ==> s.current == all[s.index])
  }

  lemma ResultHoming(c: Config, s: Search, channel: nat, acked: bool, all: seq<nat>, home: nat)
    requires Placed(s, all) && Homing(s, all, home) && (acked <==> channel == home)
    ensures Homing(WithResult(s, channel, acked), all, home) && WithResult(s, channel, acked).stage != Idle
  {
  }

  lemma PollHoming(c: Config, s: Search, at: nat, all: seq<nat>, home: nat)
    requires ValidChannel(c.rendezvous) && Sound(s) && Placed(s, all) && home in all && Homing(s, all, home)
    requires Answers(c, s, Poll(at), home)
    ensures var t := Searched(c, s, At(at)).0;
            && t.index <= |all| && Homing(t, all, home) && (t.stage == Idle ==> t.current == home)
  {
    hide Since, Rested, ValidChannel, At;
    assert all[..s.index + 1] == all[..s.index] + [all[s.index]];
    if s.index + 1 == |all| {
      assert all[..s.index + 1] == all;
    }
  }

  lemma StepHoming(c: Config, p: Pass, step: Step, all: seq<nat>, lastGood: nat, home: nat)
    requires ValidChannel(c.rendezvous) && Sound(p.s) && InOrder(p, all, lastGood) && p.s.stage != Idle
    requires home in all && Homing(p.s, all, home) && Answers(c, p.s, step, home)
    ensures InOrder(Next(c, p, step), all, lastGood) && Homing(Next(c, p, step).s, all, home)
    ensures Next(c, p, step).s.stage == Idle ==> Next(c, p, step).s.current == home
  {
    StepInOrder(c, p, step, all, lastGood);
    assert Placed(p.s, all);
    hide Since, Searched, ValidChannel, At, InOrder, Channels, Homing, Placed, WithResult;
    match step
    case Poll(at) => PollHoming(c, p.s, at, all, home);
    case Result(channel, acked) => ResultHoming(c, p.s, channel, acked, all, home);
  }

  /**
   When the peer stays on a candidate channel and acknowledges exactly the probes there, the pass ends
   holding on that channel, with it the last good one.
   */
  lemma {:induction false} PassFindsPeer(c: Config, s: Search, start: nat, steps: seq<Step>, n: nat, home: nat)
    requires ValidChannel(c.rendezvous) && n <= |steps| && On(c, s, start, steps, n)
    requires home in Candidates(c, s.lastGood) && PeerAt(c, s, start, steps, home)
    ensures var (t, all) := (After(c, s, start, steps, n).s, Candidates(c, s.lastGood));
            && t.index <= |all| && Homing(t, all, home)
            && (t.stage == Idle ==> t.holding && t.current == t.lastGood == home)
  {
    StaysInOrder(c, s, start, steps, n);
    hide Candidates, ValidChannel, At, Next, Begun, Sound, Answers;
    if n == 0 {
      BegunHoming(c, s, At(start), home);
      hide InOrder;
    } else {
      PassFindsPeer(c, s, start, steps, n - 1, home);
      StaysInOrder(c, s, start, steps, n - 1);
      var before := After(c, s, start, steps, n - 1);
      assert before.s.stage != Idle && Answers(c, before.s, steps[n - 1], home);
      StepHoming(c, before, steps[n - 1], Candidates(c, s.lastGood), s.lastGood, home);
      hide On, PeerAt;
    }
  }

  // ---- A pass ends --------------------------------------------------------------------

  /** The time of the last poll among the first `n` steps, the first poll being at `start`. */
  function LastPoll(start: nat, steps: seq<Step>, n: nat): nat
    requires n <= |steps|
  {
    if n == 0 then start else if steps[n - 1].Poll? then steps[n - 1].at else LastPoll(start, steps, n - 1)
  }

  predicate PollsWithin(start: nat, steps: seq<Step>, gap: nat) {
    forall k :: 0 <= k < |steps| && steps[k].Poll? ==>
      LastPoll(start, steps, k) <= steps[k].at <= LastPoll(start, steps, k) + gap
  }

  /** The longest that one candidate can take. */
  function Round(c: Config, gap: nat): nat {
    c.probeTimeout + 3 * gap
  }

  /** When a pass begun at `start` reaches its `i`-th candidate at the latest. */
  function Due(c: Config, start: nat, i: nat, gap: nat): nat {
    start + i * Round(c, gap)
  }

  /** When the pass reached candidate `i` at the latest is `due`; `sent` is when its probe was sent. */
  predicate OnTime(c: Config, s: Search, gap: nat, due: nat, last: nat, sent: nat) {
    match s.stage
    case NeedSet => last <= due
    case NeedProbe => last <= due + gap
    case ProbeWait =>
      && s.probeSent == At(sent) && sent <= due + 2 * gap && sent <= last
      && (last == sent || last - sent < c.probeTimeout)
    case Idle => last <= due + if s.holding then Round(c, gap) else 0
  }

  /** A poll keeps the pass on time for its candidate, or for the next one a round later. */
  lemma PollOnTime(c: Config, p: Pass, gap: nat, due: nat, last: nat, sent: nat, t: nat) returns (next: nat)
    requires ValidChannel(c.rendezvous) && Sound(p.s) && p.s.stage != Idle && !p.s.holding
    requires c.probeTimeout + gap < U32
    requires OnTime(c, p.s, gap, due, last, sent) && last <= t <= last + gap
    ensures var s := Next(c, p, Poll(t)).s;
            && s.index in {p.s.index, p.s.index + 1}
            && (s.index == p.s.index ==> OnTime(c, s, gap, due, t, next))
            && (s.index != p.s.index ==> OnTime(c, s, gap, due + Round(c, gap), t, next))
  {
    hide ValidChannel, Rested, Candidates;
    if p.s.stage == ProbeWait {
      SinceIsElapsed(t, sent);
      next := sent;
    } else {
      next := t;
    }
    hide At, Since;
  }

  lemma ResultOnTime(c: Config, p: Pass, gap: nat, due: nat, last: nat, sent: nat, channel: nat, acked: bool)
    requires ValidChannel(c.rendezvous) && Sound(p.s) && OnTime(c, p.s, gap, due, last, sent)
    ensures var s := Next(c, p, Result(channel, acked)).s; s.index == p.s.index && OnTime(c, s, gap, due, last, sent)
  {
    hide At, Searched, Sound, ValidChannel;
  }

  lemma RoundAdds(c: Config, start: nat, i: nat, gap: nat)
    ensures Due(c, start, i, gap) + Round(c, gap) == Due(c, start, i + 1, gap) && Due(c, start, 0, gap) == start
  {
  }

  /** A step keeps the pass on time for the candidate it is at then. */
  lemma StepOnTime(c: Config, p: Pass, step: Step, start: nat, gap: nat, last: nat, sent: nat) returns (next: nat)
    requires ValidChannel(c.rendezvous) && Sound(p.s) && p.s.stage != Idle && !p.s.holding && c.probeTimeout + gap < U32
    requires OnTime(c, p.s, gap, Due(c, start, p.s.index, gap), last, sent)
    requires step.Poll? ==> last <= step.at <= last + gap
    ensures var s := Next(c, p, step).s;
            OnTime(c, s, gap, Due(c, start, s.index, gap), if step.Poll? then step.at else last, next)
  {
    hide ValidChannel, At, Sound, OnTime, Round, Due, Next;
    match step
    case Poll(at) =>
      next := PollOnTime(c, p, gap, Due(c, start, p.s.index, gap), last, sent, at);
      RoundAdds(c, start, p.s.index, gap);
    case Result(channel, acked) =>
      next := sent;
      ResultOnTime(c, p, gap, Due(c, start, p.s.index, gap), last, sent, channel, acked);
  }

  ghost predicate PassOnTime(c: Config, s: Search, start: nat, gap: nat, last: nat, sent: nat) {
    OnTime(c, s, gap, Due(c, start, s.index, gap), last, sent)
  }

  lemma {:induction false} StaysOnTime(c: Config, s: Search, start: nat, steps: seq<Step>, n: nat, gap: nat)
    returns (sent: nat)
    requires ValidChannel(c.rendezvous) && n <= |steps| && On(c, s, start, steps, n)
    requires PollsWithin(start, steps, gap) && c.probeTimeout + gap < U32
    ensures PassOnTime(c, After(c, s, start, steps, n).s, start, gap, LastPoll(start, steps, n), sent)
  {
    hide Candidates, ValidChannel, At, Sound, OnTime, Round, Due, Begun, Next;
    if n == 0 {
      sent := start;
      BegunOnTime(c, s, start, gap);
      RoundAdds(c, start, 0, gap);
    } else {
      sent := StaysOnTime(c, s, start, steps, n - 1, gap);
      StaysInOrder(c, s, start, steps, n - 1);
      var (p, step) := (After(c, s, start, steps, n - 1), steps[n - 1]);
      assert p.s.stage != Idle && !p.s.holding;
      hide On, InOrder;
      sent := StepOnTime(c, p, step, start, gap, LastPoll(start, steps, n - 1), sent);
    }
  }

  lemma BegunOnTime(c: Config, s: Search, start: nat, gap: nat)
    requires ValidChannel(c.rendezvous)
    ensures var t := Begun(c, s, At(start)).s; t.index == 0 && OnTime(c, t, gap, start, start, start)
  {
    SomeCandidate(c, s.lastGood);
    hide Candidates, ValidChannel, At;
  }

  /** A pass ends: with polls at most `gap` apart it is over within its candidates' rounds, at most four. */
  lemma PassEnds(c: Config, s: Search, start: nat, steps: seq<Step>, n: nat, gap: nat)
    requires ValidChannel(c.rendezvous) && n <= |steps| && On(c, s, start, steps, n)
    requires PollsWithin(start, steps, gap) && c.probeTimeout + gap < U32
    ensures LastPoll(start, steps, n) <= start + MAX_CANDIDATES * Round(c, gap)
  {
    var sent := StaysOnTime(c, s, start, steps, n, gap);
    StaysInOrder(c, s, start, steps, n);
    SomeCandidate(c, s.lastGood);
    var t := After(c, s, start, steps, n).s;
    hide After, On, PollsWithin, Candidates, ValidChannel, At;
    RoundsFit(t.index, Round(c, gap));
  }

  lemma RoundsFit(i: nat, round: nat)
    requires i <= MAX_CANDIDATES
    ensures i * round <= MAX_CANDIDATES * round
    ensures i < MAX_CANDIDATES ==> i * round + round <= MAX_CANDIDATES * round
  {
  }
}
