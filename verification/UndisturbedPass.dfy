/**
 A whole pass of the channel search as the policy's polls run it, WiFi clock included: undisturbed, it
 probes every candidate once, ends in time, and finds a peer that stays where it is.
 */
module UndisturbedPass {
  import opened Clock
  import opened ChannelPolicy
  import opened ChannelSearch
  import S = SuspendClock

  function StepOf(e: S.Event): Step {
    match e
    case Poll(at, _) => Poll(at)
    case Result(channel, acked) => Result(channel, acked)
  }

  /** The events after the first as the search sees them. */
  function StepsOf(events: seq<S.Event>): seq<Step>
    requires events != []
  {
    seq(|events| - 1, i requires 0 <= i < |events| - 1 => StepOf(events[i + 1]))
  }

  predicate Quiet(c: Config, p: Policy, e: S.Event) {
    e.Poll? ==> Undisturbed(c, p.wifi, e.inputs, At(e.at))
  }

  /** The first event is a poll with a pass due, and no poll is disturbed. */
  ghost predicate Passing(c: Config, p: Policy, events: seq<S.Event>) {
    && S.Fit(c, p) && events != [] && events[0].Poll? && p.search.stage == Idle
    && PassDue(c, p.search, At(events[0].at)) && !Holding(c, p.search, At(events[0].at))
    && forall k :: 0 <= k < |events| ==> Quiet(c, S.After(c, p, events, k), events[k])
  }

  /** The channels probed by the first `n` events. */
  function Probes(c: Config, p: Policy, events: seq<S.Event>, n: nat): seq<nat>
    requires S.Fit(c, p) && n <= |events|
  {
    if n == 0 then [] else Probes(c, p, events, n - 1) + Channels(S.ActionAt(c, p, events, n - 1))
  }

  /** The pass is still on when each event up to the `n`-th comes. */
  ghost predicate StillOn(c: Config, p: Policy, events: seq<S.Event>, n: nat)
    requires S.Fit(c, p) && n <= |events|
  {
    forall k :: 1 <= k < n ==> S.After(c, p, events, k).search.stage != Idle
  }

  // ---- The policy runs the search -----------------------------------------------------

  lemma FirstPollBegins(c: Config, p: Policy, e: S.Event)
    requires S.Fit(c, p) && e.Poll? && Quiet(c, p, e) && p.search.stage == Idle
    requires PassDue(c, p.search, At(e.at)) && !Holding(c, p.search, At(e.at))
    ensures var b := Begun(c, p.search, At(e.at));
            S.Next(c, p, e).search == b.s && Channels(S.ActionOf(c, p, e)) == b.probes
  {
    UndisturbedPoll(c, p, e.inputs, At(e.at));
    BegunByPoll(c, p.search, At(e.at));
    hide Polled, PassDue, Holding, At, Candidates, ValidChannel, Sound, Undisturbed, OnCandidate;
  }

  lemma LaterEventSteps(c: Config, p: Policy, e: S.Event, probes: seq<nat>)
    requires S.Fit(c, p) && Quiet(c, p, e)
    ensures var n := Next(c, Pass(p.search, probes), StepOf(e));
            S.Next(c, p, e).search == n.s && probes + Channels(S.ActionOf(c, p, e)) == n.probes
  {
    if e.Poll? {
      UndisturbedPoll(c, p, e.inputs, At(e.at));
    }
    hide Polled, Searched, At, ValidChannel, Sound, Undisturbed, WithResult;
  }

  lemma {:induction false} PolicyRunsSearch(c: Config, p: Policy, events: seq<S.Event>, n: nat)
    requires Passing(c, p, events) && 1 <= n <= |events|
    ensures var pass := ChannelSearch.After(c, p.search, events[0].at, StepsOf(events), n - 1);
            S.After(c, p, events, n).search == pass.s && Probes(c, p, events, n) == pass.probes
  {
    hide S.Next, S.ActionOf, Quiet, S.Fit, PassDue, Holding, At, Begun, Next, Sound, ValidChannel;
    assert Quiet(c, S.After(c, p, events, n - 1), events[n - 1]);
    if n == 1 {
      FirstPollBegins(c, p, events[0]);
      assert S.After(c, p, events, 0) == p && S.After(c, p, events, 1) == S.Next(c, p, events[0]);
      assert Probes(c, p, events, 0) == [];
      assert S.ActionAt(c, p, events, 0) == S.ActionOf(c, p, events[0]);
      assert Probes(c, p, events, 1) == Channels(S.ActionOf(c, p, events[0]));
    } else {
      PolicyRunsSearch(c, p, events, n - 1);
      LaterEventSteps(c, S.After(c, p, events, n - 1), events[n - 1], Probes(c, p, events, n - 1));
      assert StepsOf(events)[n - 2] == StepOf(events[n - 1]);
    }
  }

  lemma StaysOnInSearch(c: Config, p: Policy, events: seq<S.Event>, n: nat)
    requires Passing(c, p, events) && 1 <= n <= |events| && StillOn(c, p, events, n)
    ensures On(c, p.search, events[0].at, StepsOf(events), n - 1)
  {
    hide S.After, ChannelSearch.After, Quiet, Candidates, PassDue, Holding, At;
    forall k | 0 <= k < n - 1
      ensures ChannelSearch.After(c, p.search, events[0].at, StepsOf(events), k).s.stage != Idle
    {
      PolicyRunsSearch(c, p, events, k + 1);
      assert S.After(c, p, events, k + 1).search.stage != Idle;
    }
  }

  // ---- What the polls do --------------------------------------------------------------

  predicate NothingAcked(events: seq<S.Event>) {
    forall k :: 0 <= k < |events| && events[k].Result? ==> !events[k].acked
  }

  /** With no acknowledgement the polls probe every candidate exactly once and in order. */
  lemma PollsProbeEachOnce(c: Config, p: Policy, events: seq<S.Event>, n: nat)
    requires Passing(c, p, events) && 1 <= n <= |events| && StillOn(c, p, events, n) && NothingAcked(events)
    ensures var (s, all) := (S.After(c, p, events, n).search, Candidates(c, p.search.lastGood));
            && Probes(c, p, events, n) <= all && Distinct(Probes(c, p, events, n))
            && (s.stage == Idle ==> Probes(c, p, events, n) == all && s.lastGood == p.search.lastGood)
  {
    hide S.After, ChannelSearch.After, Quiet, Probes, Candidates, PassDue, Holding, At, Sound, ValidChannel, Distinct;
    assert NoAck(StepsOf(events));
    assert S.Fit(c, p) && ValidChannel(c.rendezvous);
    hide *;
    PolicyRunsSearch(c, p, events, n);
    StaysOnInSearch(c, p, events, n);
    PassProbesEachOnce(c, p.search, events[0].at, StepsOf(events), n - 1);
  }

  /** The peer acknowledges exactly the probes on `home`, each before its timeout is seen. */
  ghost predicate PeerStaysAt(c: Config, p: Policy, events: seq<S.Event>, home: nat)
    requires S.Fit(c, p)
  {
    forall k :: 1 <= k < |events| ==> Answers(c, S.After(c, p, events, k).search, StepOf(events[k]), home)
  }

  /** A peer that stays on a candidate channel is found: the pass ends holding there. */
  lemma PollsFindPeer(c: Config, p: Policy, events: seq<S.Event>, n: nat, home: nat)
    requires Passing(c, p, events) && 1 <= n <= |events| && StillOn(c, p, events, n)
    requires home in Candidates(c, p.search.lastGood) && PeerStaysAt(c, p, events, home)
    ensures var s := S.After(c, p, events, n).search;
            s.stage == Idle ==> s.holding && s.current == s.lastGood == home
  {
    hide S.After, ChannelSearch.After, Quiet, Candidates, Answers, PassDue, Holding, At, Sound, ValidChannel, StillOn,
         PeerAt;
    assert S.Fit(c, p) && ValidChannel(c.rendezvous);
    PeerInSearch(c, p, events, home);
    PolicyRunsSearch(c, p, events, n);
    StaysOnInSearch(c, p, events, n);
    PassFindsPeer(c, p.search, events[0].at, StepsOf(events), n - 1, home);
  }

  lemma PeerInSearch(c: Config, p: Policy, events: seq<S.Event>, home: nat)
    requires Passing(c, p, events) && PeerStaysAt(c, p, events, home)
    ensures PeerAt(c, p.search, events[0].at, StepsOf(events), home)
  {
    hide Answers, Quiet, S.After, ChannelSearch.After, PassDue, Holding, At;
    forall k | 0 <= k < |StepsOf(events)|
      ensures Answers(c, ChannelSearch.After(c, p.search, events[0].at, StepsOf(events), k).s, StepsOf(events)[k], home)
    {
      PolicyRunsSearch(c, p, events, k + 1);
      assert Answers(c, S.After(c, p, events, k + 1).search, StepOf(events[k + 1]), home);
    }
  }

  /** Polls go forward in time, at most `gap` apart. */
  predicate PolledEvery(events: seq<S.Event>, gap: nat) {
    forall k :: 1 <= k < |events| && events[k].Poll? ==>
        S.TimeOf(events, k) <= events[k].at <= S.TimeOf(events, k) + gap
  }

  lemma {:induction false} SameTimes(events: seq<S.Event>, n: nat)
    requires 1 <= n <= |events| && events[0].Poll?
    ensures LastPoll(events[0].at, StepsOf(events), n - 1) == S.TimeOf(events, n)
  {
    if n > 1 {
      SameTimes(events, n - 1);
    }
  }

  lemma GapsInSearch(events: seq<S.Event>, gap: nat)
    requires events != [] && events[0].Poll? && PolledEvery(events, gap)
    ensures PollsWithin(events[0].at, StepsOf(events), gap)
  {
    hide LastPoll, S.TimeOf;
    forall k | 0 <= k < |StepsOf(events)| && StepsOf(events)[k].Poll?
      ensures LastPoll(events[0].at, StepsOf(events), k) <= StepsOf(events)[k].at
              <= LastPoll(events[0].at, StepsOf(events), k) + gap
    {
      SameTimes(events, k + 1);
      assert StepsOf(events)[k] == StepOf(events[k + 1]);
    }
  }

  /** The pass is over within its candidates' rounds, at most four. */
  lemma PollsEnd(c: Config, p: Policy, events: seq<S.Event>, n: nat, gap: nat)
    requires Passing(c, p, events) && 1 <= n <= |events| && StillOn(c, p, events, n)
    requires PolledEvery(events, gap) && c.probeTimeout + gap < U32
    ensures S.TimeOf(events, n) <= events[0].at + MAX_CANDIDATES * Round(c, gap)
  {
    hide S.After, ChannelSearch.After, Quiet, PassDue, Holding, At, Sound, ValidChannel, StillOn, LastPoll, S.TimeOf,
         Round, PolledEvery, PollsWithin;
    assert S.Fit(c, p) && ValidChannel(c.rendezvous);
    GapsInSearch(events, gap);
    SameTimes(events, n);
    StaysOnInSearch(c, p, events, n);
    PassEnds(c, p.search, events[0].at, StepsOf(events), n - 1, gap);
  }
}
