/**
 The display and its tracker of send callbacks as one machine: the display's calls run the tracker's
 calls step by step, while other frames, the callbacks and the guard come in between. It refines the
 display on a radio that simply reports, so that what holds there holds here; and a change the user
 made is forgotten only once the radio has acknowledged a frame that asks for it.
 */
module DeliveryChain {
  import opened Clock
  import opened ProbeTracker
  import opened ProbeAttribution
  import opened FrameTracking
  import D = CommandDelivery
  import Division
  import O = CommandOptions
  import T = ThermostatDisplay

  /**
   The display's call under way: a command, with the report that is dropped; the taking of the report;
   or a command again, with the world before that. `radio` is what became of the frame, once it was sent.
   */
  datatype Call =
    | Outside
    | Editing(edit: D.Edit, at: nat, held: T.Delivery, radio: D.Radio)
    | Polling(report: T.Delivery)
    | Resending(from: D.World, radio: D.Radio)

  /** The display without a report of its own, the tracker, and the word that each tracked frame carries. */
  datatype Joint = Joint(w: D.World, s: State, call: Call, words: map<nat, nat>)

  datatype JointStep =
    | Edit(edit: D.Edit, at: nat)
    | Poll                                                // send_pending_command
    | Track(step: Step)
    | Return                                              // the tracker's call is over, and the display goes on
    | Elsewhere(e: D.Event)

  function Report(state: TrackState): T.Delivery {
    match state
    case NotTracked => T.NoReport
    case Waiting => T.InFlight
    case Delivered => T.Delivered
    case Failed => T.Failed
  }

  /** The world as the display sees it: during a call, as it was at its start. */
  function View(j: Joint): D.World {
    match j.call
    case Outside => j.w.(radio := Report(j.s.tracked.state))
    case Editing(_, _, held, _) => j.w.(radio := held)
    case Polling(report) => j.w.(radio := report)
    case Resending(from, _) => from
  }

  function RadioOf(sending: Sending): D.Radio {
    match sending case Accepted => D.Accepts case Rejected => D.Rejects case Throttled => D.Throttles
  }

  predicate InSend(call: Call) {
    call.Editing? || call.Resending?
  }

  /** The word that a call sends, whatever becomes of it. */
  function Packed(j: Joint): nat
    requires InSend(j.call)
  {
    if j.call.Editing? then D.AfterEdit(View(j), j.call.edit, j.call.at, D.Accepts).d.sending.lastPacked
    else D.AfterSendPending(j.call.from, D.Accepts).d.sending.lastPacked
  }

  // ---- Steps --------------------------------------------------------------------------

  /** Only the display's own calls track a frame or take a report, and they send nothing else. */
  predicate Own(j: Joint, step: Step) {
    match step
    case Begin(call) => j.call.Outside? && call != BeginTracked && call != TakeTracked
    case Send(_) => j.call.Outside? || j.s.sender == Tracking(Open)
    case _ => true
  }

  ghost predicate JointEnabled(j: Joint, step: JointStep) {
    match step
    case Edit(_, _) => j.call.Outside? && j.s.sender.Idle?
    case Poll => j.call.Outside? && j.s.sender.Idle?
    case Track(step) => Enabled(j.s, step) && InStep(j.s, step) && Own(j, step)
    case Return => !j.call.Outside? && j.s.sender.Idle?
    case Elsewhere(e) => j.call.Outside? && j.s.sender.Idle? && (e.Restart? || e.Hear? || e.Heartbeat? || e.Update?)
  }

  /** The report that take_tracked returns: the state it exchanged, or the one that ended its loop. */
  function ReportAfter(s: State, step: Step): T.Delivery
    requires s.sender.Tracking? && s.sender.track.Take?
  {
    var taken := s.sender.track.taken;
    Report(if step.Advance? && SameWord(s.tracked, taken) then taken.state else s.tracked.state)
  }

  function TrackerStep(j: Joint, step: Step): Joint
    requires Enabled(j.s, step)
  {
    var next := j.(s := Next(j.s, step));
    if step.Send? && j.s.sender == Tracking(Open) && InSend(j.call) then
      var n := j.s.radio.accepted + 1;
      next.(call := j.call.(radio := RadioOf(step.sending)),
            words := if step.sending == Accepted then j.words[n := Packed(j)] else j.words)
    else if j.call.Polling? && j.s.sender.Tracking? && j.s.sender.track.Take? && (step.Advance? || step.Retry?) then
      next.(call := Polling(ReportAfter(j.s, step)))
    else next
  }

  function Returned(j: Joint): Joint {
    match j.call
    case Outside => j
    case Editing(edit, at, _, radio) => j.(w := D.AfterEdit(View(j), edit, at, radio), call := Outside)
    case Polling(_) =>
      var v := View(j);
      if D.AfterTaking(v).d.sending.hasPending then
        j.(w := D.AfterTaking(v), s := Began(j.s, BeginTracked), call := Resending(v, D.Throttles))
      else j.(w := D.AfterSendPending(v, D.Throttles), call := Outside)
    case Resending(from, radio) => j.(w := D.AfterSendPending(from, radio), call := Outside)
  }

  function JointNext(c: T.Config, j: Joint, step: JointStep): Joint
    requires JointEnabled(j, step)
  {
    match step
    case Edit(edit, at) =>
      j.(s := Began(j.s, BeginTracked), call := Editing(edit, at, Report(j.s.tracked.state), D.Throttles))
    case Poll => j.(s := Began(j.s, TakeTracked), call := Polling(Report(j.s.tracked.state)))
    case Track(step) => TrackerStep(j, step)
    case Return => Returned(j)
    case Elsewhere(e) => j.(w := D.Stepped(c, j.w, e))
  }

  ghost predicate JointRun(c: T.Config, states: seq<Joint>, steps: seq<JointStep>) {
    && |states| == |steps| + 1 && states[0] == Joint(D.FreshWorld(c), START, Outside, map[])
    && forall i :: 0 <= i < |steps| ==>
         JointEnabled(states[i], steps[i]) && states[i + 1] == JointNext(c, states[i], steps[i])
  }

  // ---- What every step keeps of the calls ---------------------------------------------

  /** Inside end_tracked, or past it: what became of the frame. */
  predicate Outcome(s: State, attempted: bool, radio: D.Radio) {
    match radio
    case Throttles => !attempted && !s.frameSent
    case Rejects => attempted && !s.frameSent
    case Accepts => s.frameSent && s.tracked.state != NotTracked
  }

  predicate SendInv(s: State, radio: D.Radio) {
    match s.sender
    case Tracking(Begun(_)) => true
    case Tracking(Open) => true
    case Sent(purpose) => purpose == ForTracking && radio == D.Accepts && s.frameSent && s.tracked.state != NotTracked
    case Tracking(End(attempted)) => Outcome(s, attempted, radio)
    case Tracking(Compare(attempted, _)) => Outcome(s, attempted, radio)
    case Tracking(Swap(attempted, _)) => Outcome(s, attempted, radio)
    case Idle =>
      (match radio
       case Throttles => s.tracked.state == NotTracked
       case Rejects => s.tracked.state == Failed && !s.frameSent
       case Accepts => s.frameSent && s.tracked.state != NotTracked)
    case _ => false
  }

  /** While a report is taken nothing else changes it; of a report of Delivered the frame was acknowledged. */
  predicate PollInv(s: State, report: T.Delivery) {
    && (match s.sender
        case Tracking(Take(_)) => report == Report(s.tracked.state)
        case Idle => s.tracked.state == NotTracked <==> report != T.InFlight
        case _ => false)
    && (report == T.Delivered ==> Acknowledged(s))
  }

  predicate Acknowledged(s: State) {
    s.frameSent && s.frame in s.radio.outcomes && s.radio.outcomes[s.frame]
  }

  predicate NotDisplay(sender: Sender) {
    !sender.Tracking? && sender != Sent(ForTracking)
  }

  predicate CallInv(s: State, call: Call) {
    match call
    case Outside => NotDisplay(s.sender)
    case Editing(_, _, _, radio) => SendInv(s, radio)
    case Polling(report) => PollInv(s, report)
    case Resending(_, radio) => SendInv(s, radio)
  }

  /** A word tracked and sent is the display's own, and a report still counts for the word it is on. */
  predicate Linked(j: Joint, report: T.Delivery) {
    report != T.NoReport && j.s.frameSent ==> j.s.frame in j.words && j.w.frame <= D.Asks(j.words[j.s.frame])
  }

  predicate Carries(j: Joint)
    requires InSend(j.call)
  {
    j.s.frameSent && !(j.s.sender.Tracking? && j.s.sender.track.Begun?) ==>
      j.s.frame in j.words && j.words[j.s.frame] == Packed(j)
  }

  predicate LinkInv(j: Joint) {
    match j.call
    case Outside => Linked(j, Report(j.s.tracked.state))
    case Polling(report) => Linked(j, report)
    case Editing(_, _, _, _) => Carries(j)
    case Resending(from, _) => Carries(j) && j.w == D.AfterTaking(from) && j.w.d.sending.hasPending
  }

  ghost predicate JointInv(j: Joint) {
    TrackInv(j.s) && CallInv(j.s, j.call) && LinkInv(j)
  }

  // ---- The tracker's steps during a call ----------------------------------------------

  predicate OfCallback(step: Step) {
    step.StartCallback? || step.LoseCallback? || step.AdvanceCallback?
  }

  /** Of the tracked frame nothing changes but that a report that is waited for comes. */
  predicate Quieter(s: State, t: State) {
    && t.frameSent == s.frameSent && t.frame == s.frame
    && (t.tracked.state == s.tracked.state || (s.tracked.state == Waiting && t.tracked.state in {Delivered, Failed}))
    && (Acknowledged(s) ==> Acknowledged(t))
  }

  lemma CallbackIsQuiet(s: State, step: Step)
    requires TrackInv(s) && Enabled(s, step) && InStep(s, step) && OfCallback(step)
    ensures Quieter(s, Next(s, step)) && Next(s, step).sender == s.sender
  {
    hide WindowInv, WordInv, InRange, LoadedInv;
  }

  lemma QuietKeepsCall(s: State, t: State, call: Call)
    requires CallInv(s, call) && Quieter(s, t) && t.sender == s.sender && TrackInv(s) && TrackInv(t)
    ensures CallInv(t, call)
  {
    hide CountsInv, CallbackDue, Unsent;
    assert s.sender.Tracking? && s.sender.track.Take? ==> s.tracked.state in {Delivered, Failed} by {
      hide WordInv;
    }
    hide WordInv, WindowInv;
  }

  lemma SendStage(s: State, radio: D.Radio)
    requires TrackInv(s) && SendInv(s, radio) && !MaySend(s.sender)
    ensures SendInv(Advanced(s), radio)
  {
    if s.sender.Tracking? && s.sender.track.Compare? && s.frameSent {
      Division.Distinct(s.issued, s.issued + 1, TRACK_NUMBERS);
    }
    hide CountsInv, CallbackDue, WordInv;
  }

  lemma OpenSend(s: State, sending: Sending)
    requires TrackInv(s) && s.sender == Tracking(Open)
    ensures SendInv(SentBy(s, sending), RadioOf(sending))
    ensures SentBy(s, sending).frameSent <==> sending == Accepted
    ensures sending == Accepted ==> SentBy(s, sending).frame == s.radio.accepted + 1
  {
    hide CountsInv, CallbackDue, WordInv;
  }

  lemma PollStage(s: State, report: T.Delivery, step: Step)
    requires TrackInv(s) && PollInv(s, report) && Enabled(s, step) && (step.Advance? || step.Retry?)
    ensures s.sender.Tracking? && s.sender.track.Take? && ReportAfter(s, step) == report
    ensures PollInv(Next(s, step), report)
    ensures Next(s, step).frameSent == s.frameSent && Next(s, step).frame == s.frame
  {
    hide CountsInv, CallbackDue, WordInv;
  }

  lemma OtherBegin(s: State, call: ProbeTracker.Call)
    requires NotDisplay(s.sender) && call != BeginTracked && call != TakeTracked
    ensures NotDisplay(Began(s, call).sender) && Quieter(s, Began(s, call))
  {
  }

  lemma OtherSend(s: State, sending: Sending)
    requires NotDisplay(s.sender)
    ensures NotDisplay(SentBy(s, sending).sender) && Quieter(s, SentBy(s, sending))
  {
  }

  lemma OtherAdvance(s: State)
    requires NotDisplay(s.sender) && WindowInv(s)
    ensures NotDisplay(Advanced(s).sender) && Quieter(s, Advanced(s))
  {
    hide At, Since, After, Acknowledged;
    if s.sender.Resyncing? {
      ResyncQuietly(s);
    } else {
      hide WindowInv, SameWord;
      assert Advanced(s).tracked == s.tracked && Advanced(s).radio.outcomes == s.radio.outcomes;
      AcknowledgedStays(s, Advanced(s));
    }
  }

  lemma AcknowledgedStays(s: State, t: State)
    requires t.frame == s.frame && t.frameSent == s.frameSent && t.radio.outcomes == s.radio.outcomes
    ensures Acknowledged(t) == Acknowledged(s)
  {
  }

  lemma ResyncQuietly(s: State)
    requires s.sender.Resyncing? && WindowInv(s)
    ensures NotDisplay(Advanced(s).sender) && Quieter(s, Advanced(s))
  {
  }

  /** Steps of the sending task for anything but the display's frame. */
  lemma OtherSteps(s: State, step: Step)
    requires TrackInv(s) && CallInv(s, Outside) && Enabled(s, step) && !OfCallback(step) && InStep(s, step)
    requires step.Begin? ==> step.call != BeginTracked && step.call != TakeTracked
    ensures CallInv(Next(s, step), Outside) && Quieter(s, Next(s, step))
  {
    assert WindowInv(s);
    hide TrackInv, WindowInv, InRange, At, Since, Acknowledged;
    match step
    case Begin(call) => OtherBegin(s, call);
    case Send(sending) => OtherSend(s, sending);
    case Advance => OtherAdvance(s);
    case Retry =>
  }

  // ---- Every joint step ---------------------------------------------------------------

  lemma QuietKeepsLink(j: Joint, k: Joint)
    requires LinkInv(j) && Quieter(j.s, k.s) && k.w == j.w && k.call == j.call && k.words == j.words
    requires InSend(j.call) ==> k.s.sender == j.s.sender
    ensures LinkInv(k)
  {
    hide D.AfterEdit, D.AfterSendPending, D.AfterTaking, D.Asks, Acknowledged;
  }

  lemma CallbackKeeps(j: Joint, step: Step)
    requires JointInv(j) && JointEnabled(j, Track(step)) && OfCallback(step)
    ensures var k := TrackerStep(j, step); JointInv(k) && k == j.(s := Next(j.s, step)) && Quieter(j.s, k.s)
  {
    hide TrackInv, Quieter, LinkInv, CallInv, Next, Enabled, InStep;
    var t := Next(j.s, step);
    CallbackIsQuiet(j.s, step);
    StepKeepsTrackInv(j.s, step);
    QuietKeepsCall(j.s, t, j.call);
    QuietKeepsLink(j, j.(s := t));
  }

  lemma OutsideKeeps(j: Joint, step: Step)
    requires JointInv(j) && JointEnabled(j, Track(step)) && !OfCallback(step) && j.call.Outside?
    ensures var k := TrackerStep(j, step); JointInv(k) && k == j.(s := Next(j.s, step)) && Quieter(j.s, k.s)
  {
    hide TrackInv, Quieter, LinkInv, CallInv, Next, Enabled, InStep;
    var t := Next(j.s, step);
    OtherSteps(j.s, step);
    StepKeepsTrackInv(j.s, step);
    QuietKeepsLink(j, j.(s := t));
  }

  lemma PollKeeps(j: Joint, step: Step)
    requires JointInv(j) && JointEnabled(j, Track(step)) && !OfCallback(step) && j.call.Polling?
    ensures var k := TrackerStep(j, step); JointInv(k) && k == j.(s := Next(j.s, step))
  {
    StepKeepsTrackInv(j.s, step);
    PollStage(j.s, j.call.report, step);
    hide TrackInv, PollInv, Next, D.Asks, ReportAfter;
  }

  lemma SamePacked(j: Joint, k: Joint)
    requires InSend(j.call) && k.w == j.w
    requires k.call == j.call || (exists radio :: k.call == j.call.(radio := radio))
    ensures Packed(k) == Packed(j)
  {
    hide D.AfterEdit, D.AfterSendPending;
  }

  /** The frame's number once it is sent is the one it keeps. */
  lemma StageKeepsFrame(s: State, radio: D.Radio)
    requires TrackInv(s) && SendInv(s, radio) && !MaySend(s.sender)
    ensures var t := Advanced(s);
            && !(t.sender.Tracking? && t.sender.track.Begun?)
            && (t.frameSent ==> s.frameSent && t.frame == s.frame && !(s.sender.Tracking? && s.sender.track.Begun?))
  {
    hide TrackInv, SameWord;
  }

  lemma SendAdvanceKeeps(j: Joint)
    requires JointInv(j) && JointEnabled(j, Track(Advance)) && InSend(j.call)
    ensures var k := TrackerStep(j, Advance); JointInv(k) && k == j.(s := Next(j.s, Advance))
  {
    var k := j.(s := Next(j.s, Advance));
    StepKeepsTrackInv(j.s, Advance);
    SendStage(j.s, j.call.radio);
    StageKeepsFrame(j.s, j.call.radio);
    SamePacked(j, k);
    hide TrackInv, SendInv, Advanced, Packed, D.AfterTaking;
  }

  lemma SendKeeps(j: Joint, sending: Sending)
    requires JointInv(j) && JointEnabled(j, Track(Send(sending))) && InSend(j.call)
    ensures var k := TrackerStep(j, Send(sending));
            JointInv(k) && k.w == j.w && k.call == j.call.(radio := RadioOf(sending))
  {
    hide TrackInv, SendInv, SentBy, Packed, D.AfterTaking, InStep, D.AfterEdit, D.AfterSendPending;
    var k := TrackerStep(j, Send(sending));
    assert j.s.sender == Tracking(Open) && k.s == SentBy(j.s, sending);
    StepKeepsTrackInv(j.s, Send(sending));
    OpenSend(j.s, sending);
    SamePacked(j, k);
    hide Enabled;
    assert Carries(k);
  }

  lemma EditKeeps(c: T.Config, j: Joint, edit: D.Edit, at: nat)
    requires JointInv(j) && JointEnabled(j, Edit(edit, at))
    ensures JointInv(JointNext(c, j, Edit(edit, at)))
    ensures View(JointNext(c, j, Edit(edit, at))) == View(j)
  {
    StepKeepsTrackInv(j.s, Begin(BeginTracked));
    hide TrackInv, Packed, D.Asks;
  }

  lemma PollBegins(c: T.Config, j: Joint)
    requires JointInv(j) && JointEnabled(j, Poll)
    ensures JointInv(JointNext(c, j, Poll)) && View(JointNext(c, j, Poll)) == View(j)
  {
    StepKeepsTrackInv(j.s, Begin(TakeTracked));
    hide CountsInv, CallbackDue, WindowInv, D.Asks, Packed;
  }

  /** A frame's word is the same whatever becomes of the frame, and is what it asks for. */
  lemma EditHands(w: D.World, edit: D.Edit, at: nat, radio: D.Radio)
    ensures var (v, u) := (D.AfterEdit(w, edit, at, radio), D.AfterEdit(w, edit, at, D.Accepts));
            && v.radio == D.ReportOf(radio) && v.d.sending.lastPacked == u.d.sending.lastPacked
            && (radio != D.Throttles ==> v.frame == D.Asks(u.d.sending.lastPacked))
  {
    hide D.Asks, T.Carried, O.Changes, D.Edited;
  }

  lemma ResendHands(w: D.World, radio: D.Radio)
    requires D.AfterTaking(w).d.sending.hasPending
    ensures var (v, u) := (D.AfterSendPending(w, radio), D.AfterSendPending(w, D.Accepts));
            && v.radio == D.ReportOf(radio) && v.d.sending.lastPacked == u.d.sending.lastPacked
            && (radio != D.Throttles ==> v.frame == D.Asks(u.d.sending.lastPacked))
            && v.owed == D.AfterTaking(w).owed
  {
    hide D.Asks, T.Carried, T.NextWord;
  }

  lemma TakingHands(w: D.World)
    ensures var v := D.AfterTaking(w);
            && v.frame == w.frame && v.radio == (if w.radio == T.InFlight then T.InFlight else T.NoReport)
            && (!v.d.sending.hasPending ==> D.AfterSendPending(w, D.Throttles) == v)
  {
    hide T.Transmitted;
  }

  /** The display's call is over: the frame it sent is tracked as the report says. */
  lemma SendReturns(c: T.Config, j: Joint)
    requires JointInv(j) && JointEnabled(j, Return) && InSend(j.call)
    ensures JointInv(JointNext(c, j, Return))
  {
    if j.call.Editing? {
      EditHands(View(j), j.call.edit, j.call.at, j.call.radio);
    } else {
      ResendHands(j.call.from, j.call.radio);
    }
    hide TrackInv, D.AfterEdit, D.AfterSendPending, D.AfterTaking, D.Asks;
  }

  lemma PollReturns(c: T.Config, j: Joint)
    requires JointInv(j) && JointEnabled(j, Return) && j.call.Polling?
    ensures JointInv(JointNext(c, j, Return))
  {
    TakingHands(View(j));
    StepKeepsTrackInv(j.s, Begin(BeginTracked));
    hide TrackInv, D.AfterSendPending, D.AfterTaking, D.Asks;
  }

  lemma ElsewhereKeeps(c: T.Config, j: Joint, e: D.Event)
    requires JointInv(j) && JointEnabled(j, Elsewhere(e))
    ensures var k := JointNext(c, j, Elsewhere(e)); JointInv(k) && View(k) == D.Stepped(c, View(j), e)
  {
    hide TrackInv, D.Asks, T.WithReport, T.WithHeartbeat, T.WithUpdate, T.Restarted;
  }

  lemma TrackKeeps(c: T.Config, j: Joint, step: Step)
    requires JointInv(j) && JointEnabled(j, Track(step))
    ensures JointInv(JointNext(c, j, Track(step)))
  {
    hide JointInv, TrackerStep, Enabled, InStep;
    if OfCallback(step) {
      CallbackKeeps(j, step);
    } else if j.call.Outside? {
      OutsideKeeps(j, step);
    } else if j.call.Polling? {
      PollKeeps(j, step);
    } else if step.Send? {
      SendKeeps(j, step.sending);
    } else {
      OnlyAdvances(j, step);
      SendAdvanceKeeps(j);
    }
  }

  lemma OnlyAdvances(j: Joint, step: Step)
    requires JointInv(j) && JointEnabled(j, Track(step)) && InSend(j.call) && !OfCallback(step) && !step.Send?
    ensures step == Advance
  {
    hide TrackInv, LinkInv;
  }

  lemma StepKeepsJointInv(c: T.Config, j: Joint, step: JointStep)
    requires JointInv(j) && JointEnabled(j, step)
    ensures JointInv(JointNext(c, j, step))
  {
    hide JointInv, JointEnabled, JointNext;
    match step
    case Edit(edit, at) => EditKeeps(c, j, edit, at);
    case Poll => PollBegins(c, j);
    case Track(step) => TrackKeeps(c, j, step);
    case Return => ReturnKeeps(c, j);
    case Elsewhere(e) => ElsewhereKeeps(c, j, e);
  }

  lemma ReturnKeeps(c: T.Config, j: Joint)
    requires JointInv(j) && JointEnabled(j, Return)
    ensures JointInv(JointNext(c, j, Return))
  {
    hide JointInv, JointNext;
    if j.call.Polling? {
      PollReturns(c, j);
    } else {
      SendReturns(c, j);
    }
  }

  lemma RestIsJoint(c: T.Config)
    ensures JointInv(Joint(D.FreshWorld(c), START, Outside, map[]))
  {
    RestTracksNothing(START);
    hide TrackInv, D.FreshWorld;
  }

  lemma {:induction false} JointInvariant(c: T.Config, states: seq<Joint>, steps: seq<JointStep>, i: nat)
    requires JointRun(c, states, steps) && i < |states|
    ensures JointInv(states[i])
  {
    hide JointInv, JointNext, JointEnabled;
    if i == 0 {
      RestIsJoint(c);
    } else {
      JointInvariant(c, states, steps, i - 1);
      StepKeepsJointInv(c, states[i - 1], steps[i - 1]);
    }
  }

  // ---- The display on a radio that reports --------------------------------------------

  /** The report that came since one of `radio`, if any did. */
  function Caught(radio: T.Delivery, state: TrackState): seq<D.Event> {
    if Report(state) == radio then [] else [D.Callback(state == Delivered)]
  }

  lemma CatchUp(c: T.Config, v: D.World, state: TrackState)
    requires v.radio == Report(state) || (v.radio == T.InFlight && state in {Delivered, Failed})
    ensures var e := Caught(v.radio, state); D.After(c, v, e, |e|) == v.(radio := Report(state))
  {
    if v.radio != Report(state) {
      var e := D.Callback(state == Delivered);
      OneEvent(c, v, e);
    }
  }

  lemma OneEvent(c: T.Config, v: D.World, e: D.Event)
    ensures D.After(c, v, [e], 1) == D.Stepped(c, v, e)
  {
    hide D.Stepped;
    assert D.After(c, v, [e], 0) == v;
  }

  lemma {:induction false} PrefixAgrees(c: T.Config, v: D.World, a: seq<D.Event>, b: seq<D.Event>, n: nat)
    requires n <= |a|
    ensures D.After(c, v, a + b, n) == D.After(c, v, a, n)
  {
    hide D.Stepped;
    if n > 0 {
      PrefixAgrees(c, v, a, b, n - 1);
    }
  }

  lemma {:induction false} Continues(c: T.Config, v: D.World, a: seq<D.Event>, b: seq<D.Event>, n: nat)
    requires n <= |b|
    ensures D.After(c, v, a + b, |a| + n) == D.After(c, D.After(c, v, a, |a|), b, n)
  {
    hide D.Stepped;
    if n == 0 {
      PrefixAgrees(c, v, a, b, |a|);
    } else {
      Continues(c, v, a, b, n - 1);
    }
  }

  /** After one event of the display's own, the report that came since its frame was sent. */
  lemma ReturnSimulates(c: T.Config, v: D.World, e: D.Event, state: TrackState) returns (events: seq<D.Event>)
    requires var u := D.Stepped(c, v, e);
             u.radio == Report(state) || (u.radio == T.InFlight && state in {Delivered, Failed})
    ensures D.After(c, v, events, |events|) == D.Stepped(c, v, e).(radio := Report(state))
  {
    var u := D.Stepped(c, v, e);
    var rest := Caught(u.radio, state);
    hide D.Stepped, D.After, Caught;
    events := [e] + rest;
    OneEvent(c, v, e);
    CatchUp(c, u, state);
    Continues(c, v, [e], rest, |rest|);
  }

  lemma EditSimulates(c: T.Config, j: Joint) returns (events: seq<D.Event>)
    requires JointInv(j) && JointEnabled(j, Return) && j.call.Editing?
    ensures View(JointNext(c, j, Return)) == D.After(c, View(j), events, |events|)
  {
    EditHands(View(j), j.call.edit, j.call.at, j.call.radio);
    hide TrackInv, D.AfterEdit, LinkInv, D.After;
    events := ReturnSimulates(c, View(j), D.User(j.call.edit, j.call.at, j.call.radio), j.s.tracked.state);
  }

  lemma ResendSimulates(c: T.Config, j: Joint) returns (events: seq<D.Event>)
    requires JointInv(j) && JointEnabled(j, Return) && j.call.Resending?
    ensures View(JointNext(c, j, Return)) == D.After(c, View(j), events, |events|)
  {
    ResendHands(j.call.from, j.call.radio);
    hide TrackInv, D.AfterSendPending, D.AfterTaking, Carries, D.After;
    events := ReturnSimulates(c, View(j), D.SendPending(j.call.radio), j.s.tracked.state);
  }

  lemma PollSimulates(c: T.Config, j: Joint) returns (events: seq<D.Event>)
    requires JointInv(j) && JointEnabled(j, Return) && j.call.Polling?
    ensures View(JointNext(c, j, Return)) == D.After(c, View(j), events, |events|)
  {
    var v := View(j);
    TakingHands(v);
    hide TrackInv, D.AfterSendPending, D.AfterTaking, Linked, D.After;
    if D.AfterTaking(v).d.sending.hasPending {
      events := [];
      NoEvent(c, v);
    } else {
      events := ReturnSimulates(c, v, D.SendPending(D.Throttles), j.s.tracked.state);
    }
  }

  lemma NoEvent(c: T.Config, v: D.World)
    ensures D.After(c, v, [], 0) == v
  {
  }

  lemma TrackSimulates(c: T.Config, j: Joint, step: Step) returns (events: seq<D.Event>)
    requires JointInv(j) && JointEnabled(j, Track(step))
    ensures View(JointNext(c, j, Track(step))) == D.After(c, View(j), events, |events|)
  {
    hide JointInv, TrackerStep, Enabled, InStep, D.After;
    events := [];
    NoEvent(c, View(j));
    if OfCallback(step) {
      CallbackKeeps(j, step);
    } else if j.call.Outside? {
      OutsideKeeps(j, step);
    } else if j.call.Polling? {
      PollKeeps(j, step);
    } else if step.Send? {
      SendKeeps(j, step.sending);
    } else {
      OnlyAdvances(j, step);
      SendAdvanceKeeps(j);
    }
    if j.call.Outside? {
      var state := TrackerStep(j, step).s.tracked.state;
      hide Acknowledged, Next, Caught;
      CatchUp(c, View(j), state);
      events := Caught(View(j).radio, state);
    }
  }

  /** Every joint step is none, one or two events of the display on a radio that simply reports. */
  lemma StepSimulates(c: T.Config, j: Joint, step: JointStep) returns (events: seq<D.Event>)
    requires JointInv(j) && JointEnabled(j, step)
    ensures View(JointNext(c, j, step)) == D.After(c, View(j), events, |events|)
  {
    hide JointInv, JointEnabled, JointNext, View, D.After;
    events := [];
    NoEvent(c, View(j));
    match step
    case Edit(edit, at) => EditKeeps(c, j, edit, at);
    case Poll => PollBegins(c, j);
    case Track(step) => events := TrackSimulates(c, j, step);
    case Return => events := ReturnedSimulates(c, j);
    case Elsewhere(e) =>
      ElsewhereKeeps(c, j, e);
      OneEvent(c, View(j), e);
      events := [e];
  }

  lemma ReturnedSimulates(c: T.Config, j: Joint) returns (events: seq<D.Event>)
    requires JointInv(j) && JointEnabled(j, Return)
    ensures View(JointNext(c, j, Return)) == D.After(c, View(j), events, |events|)
  {
    hide JointInv, JointNext, View, D.After;
    match j.call
    case Editing(_, _, _, _) => events := EditSimulates(c, j);
    case Polling(_) => events := PollSimulates(c, j);
    case Resending(_, _) => events := ResendSimulates(c, j);
  }

  /** The display beside its tracker goes through a run of the display on a radio that simply reports. */
  lemma {:induction false} DisplayRefines(c: T.Config, states: seq<Joint>, steps: seq<JointStep>, i: nat)
    returns (events: seq<D.Event>)
    requires JointRun(c, states, steps) && i < |states|
    ensures View(states[i]) == D.After(c, D.FreshWorld(c), events, |events|)
  {
    hide JointInv, JointNext, JointEnabled, D.After, View;
    if i == 0 {
      events := [];
      StartView(c);
      NoEvent(c, D.FreshWorld(c));
    } else {
      var before := DisplayRefines(c, states, steps, i - 1);
      JointInvariant(c, states, steps, i - 1);
      var more := StepSimulates(c, states[i - 1], steps[i - 1]);
      Continues(c, D.FreshWorld(c), before, more, |more|);
      events := before + more;
    }
  }

  lemma StartView(c: T.Config)
    ensures View(Joint(D.FreshWorld(c), START, Outside, map[])) == D.FreshWorld(c)
  {
  }

  /** So no change of the user is lost on the tracker either. */
  lemma NoChangeIsLost(c: T.Config, states: seq<Joint>, steps: seq<JointStep>, i: nat)
    requires JointRun(c, states, steps) && i < |states|
    ensures var w := View(states[i]);
            && w.owed == D.Owing(w.d.sending)
            && (w.owed != {} ==> w.d.sending.hasPending || w.radio != T.NoReport)
            && w.attempts <= 1 + T.MAX_RETRIES
  {
    var events := DisplayRefines(c, states, steps, i);
    D.NoChangeIsLost(c, events, |events|);
    hide JointRun, View, D.After, D.Owing;
  }

  // ---- Only an acknowledgement ends what is owed --------------------------------------

  /** The radio acknowledged the frame last tracked, and its word asks for the field. */
  predicate AcknowledgedWith(j: Joint, field: O.Field) {
    Acknowledged(j.s) && j.s.frame in j.words && field in D.Asks(j.words[j.s.frame])
  }

  /** What may end what is owed: such a report taken, the last retry failed, or the display's numbers reset. */
  predicate Settles(j: Joint, step: JointStep, field: O.Field) {
    || (step.Elsewhere? && step.e.Restart?)
    || (&& step.Return? && j.call.Polling?
        && ((j.call.report == T.Delivered && AcknowledgedWith(j, field))
            || (j.call.report == T.Failed && j.w.failures == T.MAX_RETRIES)))
  }

  lemma StepOwes(c: T.Config, j: Joint, step: JointStep, field: O.Field)
    requires JointInv(j) && JointEnabled(j, step) && field in j.w.owed && field !in JointNext(c, j, step).w.owed
    ensures Settles(j, step, field)
  {
    hide TrackInv, D.Asks, T.Reported, O.Changes, T.WithReport, T.WithHeartbeat, T.WithUpdate, T.Restarted,
         Acknowledged, Next, Enabled;
    match step
    case Edit(_, _) =>
    case Poll =>
    case Track(_) =>
    case Return => ReturnOwes(c, j, field);
    case Elsewhere(_) =>
  }

  lemma ReturnOwes(c: T.Config, j: Joint, field: O.Field)
    requires JointInv(j) && JointEnabled(j, Return) && field in j.w.owed && field !in JointNext(c, j, Return).w.owed
    ensures Settles(j, Return, field)
  {
    hide TrackInv, D.Asks, D.AfterSendPending, T.Reported, O.Changes, Carries;
    if j.call.Polling? {
      TakingHands(View(j));
    } else if j.call.Resending? {
      ResendHands(j.call.from, j.call.radio);
    }
  }

  /**
   Over any run of display, tracker and radio with the numbering exact: a change that is owed stays owed
   until the display takes a report that the radio acknowledged a frame which asks for it, or the last
   retry has failed, or the display's numbers are reset.
   */
  lemma {:induction false} OwedUntilAcknowledged(c: T.Config, states: seq<Joint>, steps: seq<JointStep>,
                                                 i: nat, n: nat, field: O.Field)
    requires JointRun(c, states, steps) && i <= n < |states| && field in states[i].w.owed
    ensures field in states[n].w.owed || exists k :: i <= k < n && Settles(states[k], steps[k], field)
    decreases n
  {
    hide JointInv, JointNext, JointEnabled, Settles;
    if i < n {
      OwedUntilAcknowledged(c, states, steps, i, n - 1, field);
      if field in states[n - 1].w.owed && field !in states[n].w.owed {
        JointInvariant(c, states, steps, n - 1);
        StepOwes(c, states[n - 1], steps[n - 1], field);
      }
    }
  }
}
