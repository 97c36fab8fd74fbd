/**
 Which channel the radio should be on so that two devices can find each other: the search over a few
 channels, and the display's decision to leave WiFi for it.
 */
module ChannelPolicy {
  import opened Clock

  datatype Role = Controller | Display

  datatype Config = Config(
    role: Role, rendezvous: nat, linkTimeout: u32, probeTimeout: u32, searchInterval: u32, ackHold: u32,
    suspendAfter: u32, resetGap: u32, resumeInterval: u32, resumeWindow: u32)

  const DEFAULT_CONFIG := Config(Controller, 6, 30000, 200, 20000, 30000, 60000, 120000, 300000, 60000)

  datatype Action = NoAction | SetChannel(channel: nat) | Probe(channel: nat) | SuspendWifi | ResumeWifi

  datatype Inputs = Inputs(associated: bool, wifiChannel: nat, mqttUp: bool, peerHeard: bool, lastPeerRx: u32)

  datatype Stage = Idle | NeedSet | NeedProbe | ProbeWait
  datatype Outcome = Pending | Acked | Failed

  datatype Search = Search(
    stage: Stage, outcome: Outcome, current: nat, lastGood: nat, candidates: seq<nat>, index: nat,
    passStarted: bool, passStart: u32, probeSent: u32, probeChannel: nat, holding: bool, holdStart: u32, passes: nat)

  datatype Wifi = Wifi(
    mqttDown: bool, downMs: u32, lastAssociated: u32, prevAssociated: bool, suspended: bool, suspendedAt: u32,
    resumed: bool, resumedAt: u32)

  datatype Policy = Policy(search: Search, wifi: Wifi)

  predicate ValidChannel(channel: nat) {
    1 <= channel <= 14
  }

  /** An invalid rendezvous channel is replaced by 6. */
  function Corrected(c: Config): (r: Config)
    ensures ValidChannel(r.rendezvous)
  {
    if ValidChannel(c.rendezvous) then c else c.(rendezvous := 6)
  }

  function Initial(c: Config): Policy {
    Policy(Search(Idle, Pending, c.rendezvous, 0, [], 0, false, 0, 0, 0, false, 0, 0),
           Wifi(false, 0, 0, false, false, 0, false, 0))
  }

  predicate Linked(c: Config, i: Inputs, now: u32) {
    i.peerHeard && Since(now, i.lastPeerRx) < c.linkTimeout
  }

  // ---- Searching ----------------------------------------------------------------------

  const MAX_CANDIDATES: nat := 4

  function WithCandidate(candidates: seq<nat>, channel: nat): seq<nat> {
    if !ValidChannel(channel) || channel in candidates || |candidates| >= MAX_CANDIDATES then candidates
    else candidates + [channel]
  }

  /** The last good channel, the rendezvous, and 1, 6 and 11. */
  function Candidates(c: Config, lastGood: nat): seq<nat> {
    var first := WithCandidate(WithCandidate([], lastGood), c.rendezvous);
    WithCandidate(WithCandidate(WithCandidate(first, 1), 6), 11)
  }

  predicate Sound(s: Search) {
    |s.candidates| <= MAX_CANDIDATES && (s.stage == NeedSet ==> s.index < |s.candidates|)
  }

  function WithReset(s: Search): Search {
    s.(stage := Idle, holding := false, passStarted := false)
  }

  function Probed(s: Search, now: u32): (Search, Action) {
    (s.(stage := ProbeWait, outcome := Pending, probeSent := now, probeChannel := s.current), Probe(s.current))
  }

  function OnCandidate(s: Search, now: u32): (Search, Action)
    requires s.index < |s.candidates|
  {
    var channel := s.candidates[s.index];
    var t := s.(stage := NeedProbe);
    if channel != s.current then (t.(current := channel), SetChannel(channel)) else Probed(t, now)
  }

  function Waited(c: Config, s: Search, now: u32): Search {
    if s.outcome == Pending && Since(now, s.probeSent) < c.probeTimeout then s
    else if s.outcome == Acked then s.(lastGood := s.current, holding := true, holdStart := now, stage := Idle)
    else s.(index := s.index + 1, stage := if s.index + 1 < |s.candidates| then NeedSet else Idle)
  }

  predicate PassDue(c: Config, s: Search, now: u32) {
    !s.passStarted || Since(now, s.passStart) >= c.searchInterval
  }

  predicate Holding(c: Config, s: Search, now: u32) {
    s.holding && Since(now, s.holdStart) < c.ackHold
  }

  function NewPass(c: Config, s: Search, now: u32): Search {
    s.(candidates := Candidates(c, s.lastGood), index := 0, passStarted := true, passStart := now,
       passes := s.passes + 1, stage := NeedSet)
  }

  lemma SomeCandidate(c: Config, lastGood: nat)
    requires ValidChannel(c.rendezvous)
    ensures 0 < |Candidates(c, lastGood)| <= MAX_CANDIDATES
  {
  }

  function Rested(c: Config, s: Search, now: u32): (Search, Action)
    requires ValidChannel(c.rendezvous)
  {
    if Holding(c, s, now) then (s, NoAction)
    else
      var t := s.(holding := false);
      if PassDue(c, s, now) then
        SomeCandidate(c, s.lastGood);
        OnCandidate(NewPass(c, t, now), now)
      else if s.current != c.rendezvous then (t.(current := c.rendezvous), SetChannel(c.rendezvous))
      else (t, NoAction)
  }

  /** A poll while the radio is free to move. */
  function Searched(c: Config, s: Search, now: u32): (Search, Action)
    requires ValidChannel(c.rendezvous) && Sound(s)
  {
    match s.stage
    case Idle => Rested(c, s, now)
    case NeedSet => OnCandidate(s, now)
    case NeedProbe => Probed(s, now)
    case ProbeWait => (Waited(c, s, now), NoAction)
  }

  function WithResult(s: Search, channel: nat, acked: bool): Search {
    if s.stage == ProbeWait && s.outcome == Pending && channel == s.probeChannel then
      s.(outcome := if acked then Acked else Failed)
    else s
  }

  // ---- WiFi ---------------------------------------------------------------------------

  function WithResumeExpired(c: Config, w: Wifi, now: u32): Wifi {
    if w.resumed && Since(now, w.resumedAt) >= c.resumeWindow then w.(resumed := false) else w
  }

  /** The clock of time spent associated with MQTT down. */
  function WithDownClock(c: Config, w: Wifi, i: Inputs, now: u32): Wifi {
    var since := Since(now, w.lastAssociated);
    if i.mqttUp then w.(mqttDown := false, downMs := 0)
    else if !i.associated then w
    else if !w.mqttDown || since >= c.resetGap then w.(mqttDown := true, downMs := 0)
    else if w.prevAssociated then w.(downMs := (w.downMs + if since < 1000 then since else 1000) % U32)
    else w
  }

  function Clocked(c: Config, w: Wifi, i: Inputs, now: u32): Wifi {
    var v := WithDownClock(c, WithResumeExpired(c, w, now), i, now);
    v.(prevAssociated := i.associated, lastAssociated := if i.associated then now else v.lastAssociated)
  }

  predicate ResumeDue(c: Config, w: Wifi, now: u32) {
    w.suspended && Since(now, w.suspendedAt) >= c.resumeInterval
  }

  predicate SuspendDue(c: Config, w: Wifi, i: Inputs, now: u32) {
    && c.role == Display && w.mqttDown && !Linked(c, i, now)
    && !(w.resumed && Since(now, w.resumedAt) < c.resumeWindow)
    && w.downMs >= c.suspendAfter
  }

  function OnAccessPoint(c: Config, s: Search, i: Inputs, now: u32): Search {
    var t := WithReset(s);
    if !ValidChannel(i.wifiChannel) then t
    else t.(current := i.wifiChannel, lastGood := if Linked(c, i, now) then i.wifiChannel else t.lastGood)
  }

  /** One poll. */
  function Polled(c: Config, p: Policy, i: Inputs, now: u32): (Policy, Action)
    requires ValidChannel(c.rendezvous) && Sound(p.search)
  {
    var (s, w) := (p.search, Clocked(c, p.wifi, i, now));
    if ResumeDue(c, w, now) then
      (Policy(WithReset(s), w.(suspended := false, resumed := true, resumedAt := now)), ResumeWifi)
    else if i.associated then
      if w.suspended then (Policy(s, w), NoAction)
      else if SuspendDue(c, w, i, now) then
        (Policy(OnAccessPoint(c, s, i, now), w.(suspended := true, suspendedAt := now)), SuspendWifi)
      else (Policy(OnAccessPoint(c, s, i, now), w), NoAction)
    else if Linked(c, i, now) then (Policy(WithReset(s).(lastGood := s.current), w), NoAction)
    else var (t, action) := Searched(c, s, now); (Policy(t, w), action)
  }

  // ---- The object ---------------------------------------------------------------------

  class EspNowChannelPolicy {
    const config: Config
    var stage: Stage
    var probeResult: Outcome
    var currentChannel: nat
    var lastGoodChannel: nat
    const candidates: array<nat>
    var candidateCount: nat
    var candidateIndex: nat
    var passStarted: bool
    var lastPassStartMs: u32
    var probeSentMs: u32
    var probeChannel: nat
    var holding: bool
    var holdStartMs: u32
    var searchCount: nat
    var wifi: Wifi

    ghost predicate Valid()
      reads this, candidates
    {
      && ValidChannel(config.rendezvous) && candidates.Length == MAX_CANDIDATES && candidateCount <= MAX_CANDIDATES
      && (stage == NeedSet ==> candidateIndex < candidateCount)
    }

    ghost function SearchState(): Search
      reads this, candidates
      requires candidateCount <= candidates.Length
    {
      Search(stage, probeResult, currentChannel, lastGoodChannel, candidates[..candidateCount], candidateIndex,
             passStarted, lastPassStartMs, probeSentMs, probeChannel, holding, holdStartMs, searchCount)
    }

    ghost function State(): Policy
      reads this, candidates
      requires Valid()
    {
      Policy(SearchState(), wifi)
    }

    constructor (config: Config)
      ensures Valid() && fresh(candidates) && this.config == Corrected(config) && State() == Initial(Corrected(config))
    {
      var corrected := if ValidChannel(config.rendezvous) then config else config.(rendezvous := 6);
      this.config := corrected;
      stage, probeResult, currentChannel, lastGoodChannel := Idle, Pending, corrected.rendezvous, 0;
      candidates := new nat[MAX_CANDIDATES](_ => 0);
      candidateCount, candidateIndex := 0, 0;
      passStarted, lastPassStartMs, probeSentMs, probeChannel := false, 0, 0, 0;
      holding, holdStartMs, searchCount := false, 0, 0;
      wifi := Wifi(false, 0, 0, false, false, 0, false, 0);
    }

    method AddCandidate(channel: nat)
      requires candidates.Length == MAX_CANDIDATES && candidateCount <= MAX_CANDIDATES
      modifies this`candidateCount, candidates
      ensures candidateCount <= MAX_CANDIDATES
      ensures candidates[..candidateCount] == WithCandidate(old(candidates[..candidateCount]), channel)
    {
      if !(1 <= channel <= 14) {
        return;
      }
      for i := 0 to candidateCount
        invariant channel !in candidates[..i]
      {
        if candidates[i] == channel {
          return;
        }
      }
      if candidateCount < candidates.Length {
        candidates[candidateCount] := channel;
        candidateCount := candidateCount + 1;
      }
    }

    method BuildCandidates()
      requires candidates.Length == MAX_CANDIDATES && ValidChannel(config.rendezvous)
      modifies this`candidateCount, this`candidateIndex, candidates
      ensures 0 < candidateCount <= MAX_CANDIDATES && candidateIndex == 0
      ensures candidates[..candidateCount] == Candidates(config, lastGoodChannel)
    {
      hide WithCandidate, ValidChannel;
      candidateCount := 0;
      candidateIndex := 0;
      AddCandidate(lastGoodChannel);
      AddCandidate(config.rendezvous);
      AddCandidate(1);
      AddCandidate(6);
      AddCandidate(11);
      SomeCandidate(config, lastGoodChannel);
    }

    method ResetSearch()
      modifies this`stage, this`holding, this`passStarted
      ensures stage == Idle && !holding && !passStarted
    {
      stage := Idle;
      holding := false;
      passStarted := false;
    }

    method OnProbeResult(channel: nat, acked: bool)
      requires Valid()
      modifies this`probeResult
      ensures Valid() && State() == old(State()).(search := WithResult(old(SearchState()), channel, acked))
    {
      if stage == ProbeWait && probeResult == Pending && channel == probeChannel {
        probeResult := if acked then Acked else Failed;
      }
    }

    method UpdateClocks(i: Inputs, now: u32)
      modifies this`wifi
      ensures wifi == Clocked(config, old(wifi), i, now)
    {
      if wifi.resumed && Since(now, wifi.resumedAt) >= config.resumeWindow {
        wifi := wifi.(resumed := false);
      }
      if i.mqttUp {
        wifi := wifi.(mqttDown := false);
        wifi := wifi.(downMs := 0);
      } else if i.associated {
        var sinceAssociated := Since(now, wifi.lastAssociated);
        if !wifi.mqttDown || sinceAssociated >= config.resetGap {
          wifi := wifi.(mqttDown := true);
          wifi := wifi.(downMs := 0);
        } else if wifi.prevAssociated {
          wifi := wifi.(downMs := (wifi.downMs + if sinceAssociated < 1000 then sinceAssociated else 1000) % U32);
        }
      }
      wifi := wifi.(prevAssociated := i.associated);
      if i.associated {
        wifi := wifi.(lastAssociated := now);
      }
    }

    /** The stages from NeedSet on, within one poll. */
    method Advance(now: u32) returns (action: Action)
      requires Valid() && stage != Idle
      modifies this`stage, this`currentChannel, this`probeResult, this`probeSentMs, this`probeChannel,
               this`lastGoodChannel, this`holding, this`holdStartMs, this`candidateIndex
      ensures Valid() && (SearchState(), action) == Searched(config, old(SearchState()), now)
    {
      hide ValidChannel, Rested, Since;
      if stage == NeedSet {
        var channel := candidates[candidateIndex];
        stage := NeedProbe;
        if channel != currentChannel {
          currentChannel := channel;
          return SetChannel(channel);
        }
      }
      if stage == NeedProbe {
        stage := ProbeWait;
        probeResult := Pending;
        probeSentMs := now;
        probeChannel := currentChannel;
        return Probe(currentChannel);
      }
      action := NoAction;
      if probeResult == Pending && Since(now, probeSentMs) < config.probeTimeout {
        return;
      }
      if probeResult == Acked {
        lastGoodChannel := currentChannel;
        holding := true;
        holdStartMs := now;
        stage := Idle;
        return;
      }
      candidateIndex := candidateIndex + 1;
      stage := if candidateIndex < candidateCount then NeedSet else Idle;
    }

    /** Starts a pass when one is due. */
    method Rest(now: u32) returns (started: bool, action: Action)
      requires Valid() && stage == Idle
      modifies this`stage, this`currentChannel, this`holding, this`passStarted, this`lastPassStartMs, this`searchCount,
               this`candidateCount, this`candidateIndex, candidates
      ensures Valid()
      ensures var s := old(SearchState());
              && (started <==> !Holding(config, s, now) && PassDue(config, s, now))
              && if started then SearchState() == NewPass(config, s.(holding := false), now)
                 else (SearchState(), action) == Rested(config, s, now)
    {
      hide Candidates, ValidChannel, OnCandidate, Since;
      started, action := false, NoAction;
      if holding {
        if Since(now, holdStartMs) < config.ackHold {
          return;
        }
        holding := false;
      }
      var passDue := !passStarted || Since(now, lastPassStartMs) >= config.searchInterval;
      if !passDue {
        if currentChannel != config.rendezvous {
          currentChannel := config.rendezvous;
          action := SetChannel(currentChannel);
        }
        return;
      }
      BuildCandidates();
      passStarted := true;
      lastPassStartMs := now;
      searchCount := searchCount + 1;
      stage := NeedSet;
      started := true;
    }

    method RunSearch(now: u32) returns (action: Action)
      requires Valid()
      modifies this, candidates
      ensures Valid() && (SearchState(), action) == Searched(config, old(SearchState()), now) && wifi == old(wifi)
    {
      hide ValidChannel, Candidates, OnCandidate, Holding, PassDue;
      if stage == Idle {
        var started;
        started, action := Rest(now);
        if !started {
          return;
        }
      }
      action := Advance(now);
    }

    /** A poll on an access point, which owns the channel. */
    method PollAssociated(i: Inputs, now: u32) returns (action: Action)
      requires Valid() && !wifi.suspended
      modifies this`stage, this`holding, this`passStarted, this`currentChannel, this`lastGoodChannel, this`wifi
      ensures Valid() && SearchState() == OnAccessPoint(config, old(SearchState()), i, now)
      ensures var due := SuspendDue(config, old(wifi), i, now);
              && wifi == (if due then old(wifi).(suspended := true, suspendedAt := now) else old(wifi))
              && action == if due then SuspendWifi else NoAction
    {
      hide Since;
      var linked := Linked(config, i, now);
      ResetSearch();
      if 1 <= i.wifiChannel <= 14 {
        currentChannel := i.wifiChannel;
        if linked {
          lastGoodChannel := i.wifiChannel;
        }
      }
      var inResumeWindow := wifi.resumed && Since(now, wifi.resumedAt) < config.resumeWindow;
      if config.role == Display && wifi.mqttDown && !linked && !inResumeWindow && wifi.downMs >= config.suspendAfter {
        wifi := wifi.(suspended := true, suspendedAt := now);
        return SuspendWifi;
      }
      return NoAction;
    }

    method Poll(i: Inputs, now: u32) returns (action: Action)
      requires Valid()
      modifies this, candidates
      ensures Valid() && (State(), action) == Polled(config, old(State()), i, now)
    {
      hide Searched, Clocked, OnAccessPoint, SuspendDue, Linked, Since, ValidChannel;
      UpdateClocks(i, now);
      if wifi.suspended && Since(now, wifi.suspendedAt) >= config.resumeInterval {
        wifi := wifi.(suspended := false, resumed := true, resumedAt := now);
        ResetSearch();
        return ResumeWifi;
      }
      if i.associated {
        if wifi.suspended {
          return NoAction;
        }
        action := PollAssociated(i, now);
        return;
      }
      if Linked(config, i, now) {
        ResetSearch();
        lastGoodChannel := currentChannel;
        return NoAction;
      }
      action := RunSearch(now);
    }
  }
}
