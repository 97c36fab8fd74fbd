/**
 What the probe tracker's probe status means, in every interleaving, as long as each callback carries
 the number of the frame it is for.
 */
module ProbeAttribution {
  import opened Clock
  import opened ProbeTracker
  import opened CallbackNumbering

  /** No callback begins with another frame's number; `NumberingIsExact` says when that is so. */
  predicate InStep(s: State, step: Step) {
    (step.StartCallback? ==> Drift(s) == 0) && !step.StrayCallback?
  }

  // ---- What every step keeps ----------------------------------------------------------

  /** Callbacks are numbered like the frames they belong to. */
  ghost predicate Aligned(completed: nat, callback: Callback, r: Radio) {
    var oldest := if callback.Quiet? then completed else Number(callback);
    && oldest <= completed <= r.accepted <= oldest + MAX_OUTSTANDING
    && (forall f :: f in r.outcomes ==> 1 <= f <= oldest)
    && (!callback.Quiet? ==>
        r.answering == oldest && oldest in r.outcomes && r.outcomes[oldest] == CallbackOk(callback))
  }

  ghost predicate CountsInv(s: State) {
    && s.radio.accepted == s.issued + (if s.sender.Sent? then 1 else 0)
    && Aligned(s.completed, s.callback, s.radio)
    && LoadedInv(s)
  }

  /** What the sending task has loaded is still so. */
  predicate LoadedInv(s: State) {
    && Loaded(s)
    && match s.sender
       case Probing(Stray(_)) => false
       case Resyncing(Read) => s.completed == s.radio.accepted
       case Resyncing(Fail(_)) => s.completed == s.radio.accepted
       case _ => true
  }

  /** The frames of the current probe. */
  predicate OfProbe(s: State, f: int) {
    s.first <= f && (Unclosed(s.sender) || f <= s.last)
  }

  /** The stages of begin_probe and end_probe. */
  predicate StageInv(s: State) {
    match s.sender
    case Probing(Disarmed) => !s.pending
    case Probing(LoadedIssued(_)) => !s.pending
    case Probing(NoStray) => !s.pending
    case Probing(SetFirst(first)) => !s.pending && first == s.issued + 1
    case Probing(SetLast(first)) => !s.pending && first == s.issued + 1 == s.first
    case Probing(SetAck(first)) => !s.pending && first == s.issued + 1 == s.first && s.last == first + OPEN_SPAN
    case Probing(Arm) =>
      && !s.pending && s.first == s.issued + 1 && s.last == s.first + OPEN_SPAN
      && s.first - 1 - MAX_OUTSTANDING <= s.ack < s.first
    case Probing(Armed) => s.pending
    case Probing(Ending(last)) => s.pending && last == s.issued
    case Probing(NoneSent) => s.pending && s.issued == s.first - 1
    case Probing(Close(last)) => s.pending && last == s.issued >= s.first
    case Sent(ForProbe) => s.pending
    case Resyncing(Disarm) => true
    case Resyncing(_) => !s.pending
    case Reading(SawPending) => s.pending
    case Reading(HasLast(last)) => s.pending && last == s.last
    case Reading(AllComplete(_)) => s.pending && s.last <= s.completed
    case Reading(HasAck(_, _)) => s.pending && s.last <= s.completed
    case Reading(HasFirst(_, _, first)) => s.pending && s.last <= s.completed && first == s.first
    case _ => true
  }

  /** An armed probe: its range, and an ack that is one of its own frames' or out of range. */
  predicate RangeInv(s: State) {
    s.pending ==>
      && 1 <= s.first <= s.issued + 1 && s.radio.accepted < s.first + MAX_PROBE_AGE
      && (if Unclosed(s.sender) then s.last == s.first + OPEN_SPAN else s.first <= s.last <= s.issued)
      && s.first - 1 - MAX_OUTSTANDING <= s.ack
      && (s.ack >= s.first ==> s.ack in s.radio.outcomes && s.radio.outcomes[s.ack] && OfProbe(s, s.ack))
      && (s.callback.LoadLast? && s.callback.n >= s.first ==> s.callback.first == s.first)
      && (s.callback.StoreAck? && s.callback.n >= s.first ==> OfProbe(s, s.callback.n))
  }

  /** Every acked frame of the probe but `except` has led to a recorded ack. */
  ghost predicate Recorded(s: State, except: int) {
    forall f :: f in s.radio.outcomes && s.radio.outcomes[f] && OfProbe(s, f) && f != except ==> s.ack >= s.first
  }

  ghost predicate RecordedInv(s: State) {
    s.pending ==> Recorded(s, Acking(s.callback))
  }

  ghost predicate Answer(s: State, acking: int, ack: int) {
    && s.first - 1 - MAX_OUTSTANDING <= ack
    && (ack >= s.first ==> ack in s.radio.outcomes && s.radio.outcomes[ack] && OfProbe(s, ack))
    && (ack < s.first ==> forall f :: f in s.radio.outcomes && s.radio.outcomes[f] && OfProbe(s, f) ==> f == acking)
  }

  /** The callback that was under way had come with an acknowledgement. */
  predicate WasAcked(s: State, acking: int) {
    acking != 0 ==> acking in s.radio.outcomes && s.radio.outcomes[acking]
  }

  /** What status has read is still true when it answers. */
  ghost predicate StatusInv(s: State) {
    match s.sender
    case Reading(AllComplete(acking)) => WasAcked(s, acking) && Recorded(s, acking)
    case Reading(HasAck(acking, ack)) => WasAcked(s, acking) && Answer(s, acking, ack)
    case Reading(HasFirst(acking, ack, _)) => WasAcked(s, acking) && Answer(s, acking, ack)
    case _ => true
  }

  /** The range of an armed probe holds exactly the frames sent for it. */
  ghost predicate FramesInv(s: State) {
    && (s.sender.Probing? && !s.pending ==> s.probeFrames == {})
    && (s.pending ==> forall f :: f in s.probeFrames <==> OfProbe(s, f) && f <= s.radio.accepted)
  }

  ghost predicate ProbeInv(s: State) {
    CountsInv(s) && StageInv(s) && RangeInv(s) && FramesInv(s) && RecordedInv(s) && StatusInv(s)
  }

  // ---- Counts -------------------------------------------------------------------------

  lemma ProbedCounts(s: State)
    requires CountsInv(s) && s.sender.Probing?
    ensures CountsInv(Probed(s, s.sender.probe))
  {
    hide At, Since, After, Aligned, Recounted;
    if s.sender.probe.LoadedIssued? {
      NoneStray(s);
    }
  }

  /** With the numbering exact begin_probe has nothing to drop. */
  lemma NoneStray(s: State)
    requires CountsInv(s) && s.sender.Probing? && s.sender.probe.LoadedIssued?
    ensures Probed(s, s.sender.probe) == s.(sender := Probing(NoStray))
  {
    SinceNear(s.completed, s.issued);
    hide At, Since, After, Recounted;
  }

  lemma TrackedCounts(s: State)
    requires CountsInv(s) && s.sender.Tracking?
    ensures CountsInv(TrackedOn(s, s.sender.track)) && CountsInv(TakeAgain(s))
  {
    hide SameWord, Aligned;
  }

  lemma ResyncedCounts(s: State)
    requires CountsInv(s) && s.sender.Resyncing?
    ensures CountsInv(Resynced(s, s.sender.resync))
  {
    hide SameWord;
  }

  lemma CheckedShape(s: State)
    requires s.sender.Checking?
    ensures var t := Checked(s, s.sender.check);
            && t == s.(guard := t.guard, sender := t.sender, frameLost := t.frameLost)
            && (t.sender == Idle || (t.sender.Checking? && t.sender.check.Behind?) || t.sender == Resyncing(Disarm))
  {
    hide After, At, Since;
  }

  lemma OtherCounts(s: State)
    requires CountsInv(s)
    ensures s.sender.Sent? ==> CountsInv(Counted(s, s.sender.purpose))
    ensures s.sender.Reading? ==> CountsInv(Observed(s, s.sender.status))
    ensures s.sender.Checking? ==> CountsInv(Checked(s, s.sender.check))
  {
    if s.sender.Checking? {
      CheckedShape(s);
    }
    hide At, Since, After, Acking, Checked, Aligned;
  }

  lemma SentCounts(s: State, sending: Sending)
    requires CountsInv(s) && Enabled(s, Send(sending))
    ensures CountsInv(SentBy(s, sending))
  {
  }

  lemma BegunCounts(s: State, call: Call)
    requires CountsInv(s) && Enabled(s, Begin(call))
    ensures CountsInv(Began(s, call))
  {
  }

  lemma CallbackCounts(s: State)
    requires CountsInv(s) && !s.callback.Quiet?
    ensures CountsInv(CallbackAdvanced(s))
  {
    hide InRange, SameWord;
  }

  lemma LossCounts(s: State)
    requires CountsInv(s)
    ensures CountsInv(CallbackLost(s))
  {
  }

  lemma StartedCounts(s: State, ok: bool)
    requires CountsInv(s) && Enabled(s, StartCallback(ok)) && Drift(s) == 0
    ensures CountsInv(CallbackStarted(s, ok))
  {
  }

  lemma CountsKept(s: State, step: Step)
    requires CountsInv(s) && Enabled(s, step) && InStep(s, step)
    ensures CountsInv(Next(s, step))
  {
    hide CountsInv, Began, SentBy, Probed, TrackedOn, TakeAgain, Counted, Observed, Checked, Resynced, CallbackStarted,
         CallbackLost, CallbackAdvanced;
    match step
    case Begin(call) => BegunCounts(s, call);
    case Send(sending) => SentCounts(s, sending);
    case Advance =>
      match s.sender {
        case Probing(_) => ProbedCounts(s);
        case Tracking(_) => TrackedCounts(s);
        case Resyncing(_) => ResyncedCounts(s);
        case _ => OtherCounts(s);
      }
    case Retry => TrackedCounts(s);
    case StartCallback(ok) => StartedCounts(s, ok);
    case LoseCallback => LossCounts(s);
    case AdvanceCallback => CallbackCounts(s);
  }

  // ---- Range checks on residues are exact ---------------------------------------------

  lemma RangeIsExact(n: int, first: int, last: int)
    requires first <= last <= first + OPEN_SPAN
    requires first - 0x4000_0000 <= n < first + 0x8000_0000
    ensures InRange(n, first, last) <==> first <= n <= last
  {
    SinceIsElapsed(last, first);
    SinceNear(n, first);
    hide At, Since;
  }

  // ---- Steps of the callback ----------------------------------------------------------

  lemma CallbackStart(s: State, ok: bool)
    requires ProbeInv(s) && Enabled(s, StartCallback(ok)) && Drift(s) == 0
    ensures ProbeInv(CallbackStarted(s, ok))
  {
    hide InRange, SameWord, At, Since;
  }

  lemma CallbackLoss(s: State)
    requires ProbeInv(s) && Awaiting(s) > 0
    ensures ProbeInv(CallbackLost(s))
  {
    hide InRange, SameWord, At, Since;
  }

  lemma CallbackLoad(s: State)
    requires ProbeInv(s) && (s.callback.LoadPending? || s.callback.LoadFirst?)
    ensures ProbeInv(CallbackAdvanced(s))
  {
    hide InRange, SameWord, At, Since;
  }

  lemma CallbackRange(s: State)
    requires ProbeInv(s) && s.callback.LoadLast?
    ensures ProbeInv(CallbackAdvanced(s))
  {
    if s.pending {
      RangeIsExact(s.callback.n, s.first, s.last);
    }
    hide InRange, SameWord, At, Since;
  }

  lemma CallbackAck(s: State)
    requires ProbeInv(s) && s.callback.StoreAck?
    ensures ProbeInv(CallbackAdvanced(s))
  {
    hide InRange, SameWord, At, Since;
  }

  lemma CallbackSwap(s: State)
    requires ProbeInv(s) && s.callback.SwapTracked?
    ensures ProbeInv(CallbackAdvanced(s))
  {
    hide InRange, SameWord, At, Since;
  }

  // ---- Steps of the sending task ------------------------------------------------------

  lemma SenderBegin(s: State, call: Call)
    requires ProbeInv(s) && Enabled(s, Begin(call))
    ensures ProbeInv(Began(s, call))
  {
    hide InRange, SameWord, At, Since;
    BegunCounts(s, call);
    hide CountsInv;
  }

  lemma SenderSend(s: State, sending: Sending)
    requires ProbeInv(s) && Enabled(s, Send(sending))
    ensures ProbeInv(SentBy(s, sending))
  {
    hide InRange, SameWord, At, Since;
  }

  lemma SenderCount(s: State)
    requires ProbeInv(s) && s.sender.Sent?
    ensures ProbeInv(Advanced(s))
  {
    hide InRange, SameWord, At, Since, Probed, TrackedOn, Observed, Resynced;
  }

  predicate Numbering(probe: ProbeStage) {
    probe.Disarmed? || probe.LoadedIssued? || probe.NoStray?
  }

  predicate SettingUp(probe: ProbeStage) {
    probe.Stray? || probe.SetFirst? || probe.SetLast? || probe.SetAck? || probe.Arm?
  }

  lemma SenderProbeNumber(s: State)
    requires ProbeInv(s) && s.sender.Probing? && Numbering(s.sender.probe)
    ensures ProbeInv(Probed(s, s.sender.probe))
  {
    if s.sender.probe.LoadedIssued? {
      SinceNear(s.completed, s.issued);
    }
    hide InRange, SameWord, At, Since;
  }

  lemma SenderProbeSetup(s: State)
    requires ProbeInv(s) && s.sender.Probing? && SettingUp(s.sender.probe)
    ensures ProbeInv(Probed(s, s.sender.probe))
  {
    hide InRange, SameWord, At, Since, After;
  }

  lemma SenderProbeEnd(s: State)
    requires ProbeInv(s) && s.sender.Probing? && (s.sender.probe.NoneSent? || s.sender.probe.Close?)
    ensures ProbeInv(Probed(s, s.sender.probe))
  {
    hide InRange, SameWord, At, Since, After;
  }

  lemma SenderProbeEnding(s: State)
    requires ProbeInv(s) && s.sender.Probing? && s.sender.probe.Ending?
    ensures ProbeInv(Probed(s, s.sender.probe))
  {
    SinceNear(s.sender.probe.last, s.first - 1);
    hide InRange, SameWord, At, Since, After;
  }

  /** The tracked frame has no part in a probe. */
  lemma TrackingApart(s: State, t: State)
    requires ProbeInv(s) && s.sender.Tracking? && (t.sender.Idle? || t.sender.Tracking?) && LoadedInv(t)
    requires t == s.(tracked := t.tracked, sender := t.sender, frame := t.frame, frameSent := t.frameSent,
                     frameLost := t.frameLost)
    ensures ProbeInv(t)
  {
    hide LoadedInv;
  }

  lemma SenderTrack(s: State)
    requires ProbeInv(s) && s.sender.Tracking?
    ensures ProbeInv(TrackedOn(s, s.sender.track))
  {
    var t := TrackedOn(s, s.sender.track);
    hide SameWord;
    assert LoadedInv(t);
    assert t.sender.Idle? || t.sender.Tracking?;
    hide ProbeInv, LoadedInv;
    TrackingApart(s, t);
  }

  lemma SenderTakeAgain(s: State)
    requires ProbeInv(s) && s.sender.Tracking?
    ensures ProbeInv(TakeAgain(s))
  {
    hide ProbeInv;
    TrackingApart(s, TakeAgain(s));
  }

  lemma SenderReadFlag(s: State)
    requires ProbeInv(s) && s.sender.Reading? && (s.sender.status.SawPending? || s.sender.status.HasFirst?)
    ensures ProbeInv(Observed(s, s.sender.status))
  {
    hide InRange, SameWord, At, Since, Acking, After;
  }

  lemma SenderReadAck(s: State)
    requires ProbeInv(s) && s.sender.Reading? && (s.sender.status.AllComplete? || s.sender.status.HasAck?)
    ensures ProbeInv(Observed(s, s.sender.status))
  {
    hide InRange, SameWord, At, Since, Acking, After;
  }

  lemma SenderReadLast(s: State)
    requires ProbeInv(s) && s.sender.Reading? && s.sender.status.HasLast?
    ensures ProbeInv(Observed(s, s.sender.status))
  {
    SinceNear(s.sender.status.last, s.completed);
    hide InRange, SameWord, At, Since, Acking, After;
  }

  /** The guard has no part in a probe. */
  lemma SenderCheck(s: State)
    requires ProbeInv(s) && s.sender.Checking?
    ensures ProbeInv(Checked(s, s.sender.check))
  {
    CheckedShape(s);
    hide Checked, Aligned, Recorded;
  }

  lemma SenderResync(s: State)
    requires ProbeInv(s) && s.sender.Resyncing?
    ensures ProbeInv(Resynced(s, s.sender.resync))
  {
    ResyncedCounts(s);
    hide SameWord, CountsInv, RangeInv, Recorded, OfProbe;
  }

  lemma StepKeepsInv(s: State, step: Step)
    requires ProbeInv(s) && Enabled(s, step) && InStep(s, step)
    ensures ProbeInv(Next(s, step))
  {
    hide ProbeInv, Began, SentBy, Counted, Probed, TrackedOn, TakeAgain, Observed, Checked, Resynced, CallbackStarted,
         CallbackLost, CallbackAdvanced;
    match step
    case Begin(call) => SenderBegin(s, call);
    case Send(sending) => SenderSend(s, sending);
    case Advance =>
      match s.sender {
        case Sent(_) => SenderCount(s);
        case Probing(probe) =>
          if Numbering(probe) { SenderProbeNumber(s); }
          else if probe.Ending? { SenderProbeEnding(s); }
          else if probe.NoneSent? || probe.Close? { SenderProbeEnd(s); }
          else { SenderProbeSetup(s); }
        case Tracking(_) => SenderTrack(s);
        case Reading(status) =>
          if status.HasLast? { SenderReadLast(s); }
          else if status.SawPending? || status.HasFirst? { SenderReadFlag(s); }
          else { SenderReadAck(s); }
        case Resyncing(_) => SenderResync(s);
        case Checking(_) => SenderCheck(s);
      }
    case Retry => SenderTakeAgain(s);
    case StartCallback(ok) => CallbackStart(s, ok);
    case LoseCallback => CallbackLoss(s);
    case AdvanceCallback =>
      match s.callback {
        case LoadPending(_) => CallbackLoad(s);
        case LoadFirst(_) => CallbackLoad(s);
        case LoadLast(_, _) => CallbackRange(s);
        case StoreAck(_) => CallbackAck(s);
        case SwapTracked(_, _) => CallbackSwap(s);
      }
  }

  // ---- Runs ---------------------------------------------------------------------------

  /** A probe just begun with the numbering exact, as the clamp leaves it when nothing is awaited. */
  predicate CleanSlate(s: State) {
    s.sender == Probing(NoStray) && s.callback == Quiet && Awaiting(s) <= MAX_OUTSTANDING && Drift(s) == 0
  }

  /** From step `k` on, the start or a clean slate, every callback carries its frame's number. */
  ghost predicate Trusted(states: seq<State>, steps: seq<Step>, k: nat)
    requires |states| == |steps| + 1
  {
    && k < |states| && (k == 0 || CleanSlate(states[k]))
    && forall i :: k <= i < |steps| ==> InStep(states[i], steps[i])
  }

  lemma CleanSlateIsSound(s: State)
    requires Accounted(s) && CleanSlate(s)
    ensures ProbeInv(s)
  {
  }

  lemma RestIsSound(s: State)
    requires s.sender == Idle && s.callback == Quiet && s.issued == s.completed == 0 && !s.pending
    requires s.radio == Radio(0, 0, 0, map[], 0, 0, 0)
    ensures ProbeInv(s)
  {
  }

  lemma {:induction false} Invariant(states: seq<State>, steps: seq<Step>, k: nat, i: nat)
    requires Run(states, steps) && Trusted(states, steps, k) && k <= i < |states|
    ensures ProbeInv(states[i])
    decreases i
  {
    hide ProbeInv, Enabled, Next, InStep, CleanSlate;
    if i == 0 {
      RestIsSound(START);
    } else if i == k {
      RunAccounts(states, steps, i);
      CleanSlateIsSound(states[i]);
    } else {
      Invariant(states, steps, k, i - 1);
      StepKeepsInv(states[i - 1], steps[i - 1]);
    }
  }

  // ---- What status means --------------------------------------------------------------

  predicate Answering(s: State) {
    s.sender.Reading? && s.sender.status.HasFirst?
  }

  /** Some frame of the current probe got an ok callback. */
  ghost predicate ProbeAcked(s: State) {
    exists f :: f in s.probeFrames && f in s.radio.outcomes && s.radio.outcomes[f]
  }

  /** An answer of Acked: some frame of the current probe got an ok callback. */
  lemma AckedIsReal(states: seq<State>, steps: seq<Step>, k: nat, i: nat)
    requires Run(states, steps) && Trusted(states, steps, k) && k <= i < |states|
    requires Answering(states[i]) && AnswersAcked(states[i])
    ensures ProbeAcked(states[i])
  {
    var s := states[i];
    Invariant(states, steps, k, i);
    hide Run, Trusted;
    AnswerIsExact(s);
    assert s.sender.status.ack in s.probeFrames;
  }

  lemma AnswerIsExact(s: State)
    requires ProbeInv(s) && Answering(s)
    ensures AnswersAcked(s) <==> s.first <= s.sender.status.ack
    ensures s.pending && s.first <= s.last <= s.completed && !Unclosed(s.sender)
    ensures Answer(s, s.sender.status.acking, s.sender.status.ack) && WasAcked(s, s.sender.status.acking)
    ensures forall f :: f in s.probeFrames <==> s.first <= f <= s.last
  {
    var status := s.sender.status;
    RangeIsExact(status.ack, status.first, s.last);
    hide InRange;
  }

  /**
   An answer of Failed: every frame of the probe has been counted, and none was acknowledged but
   possibly the one whose callback was still under way when status read the completions.
   */
  lemma FailedIsReal(states: seq<State>, steps: seq<Step>, k: nat, i: nat)
    requires Run(states, steps) && Trusted(states, steps, k) && k <= i < |states|
    requires Answering(states[i]) && !AnswersAcked(states[i])
    ensures var s := states[i];
            forall f :: f in s.probeFrames ==>
              f <= s.completed && (f in s.radio.outcomes && s.radio.outcomes[f] ==> f == s.sender.status.acking)
  {
    Invariant(states, steps, k, i);
    hide Run, Trusted;
    AnswerIsExact(states[i]);
    hide ProbeInv, AnswersAcked;
  }

  /**
   An answer of Failed is wrong exactly when the callback that was under way when status read the
   completions was an acknowledgement for a frame of the probe.
   */
  lemma FailedIsWrongExactly(states: seq<State>, steps: seq<Step>, k: nat, i: nat)
    requires Run(states, steps) && Trusted(states, steps, k) && k <= i < |states|
    requires Answering(states[i]) && !AnswersAcked(states[i])
    ensures ProbeAcked(states[i]) <==> states[i].sender.status.acking in states[i].probeFrames
  {
    var s := states[i];
    FailedIsReal(states, steps, k, i);
    Invariant(states, steps, k, i);
    hide Run, Trusted;
    AnswerIsExact(s);
    hide ProbeInv, AnswersAcked;
  }

  /** The callback runs as one step: the sending task never moves while it is under way. */
  predicate Uninterrupted(states: seq<State>, steps: seq<Step>)
    requires |states| == |steps| + 1
  {
    forall i :: 0 <= i < |steps| && !steps[i].AdvanceCallback? ==> states[i].callback.Quiet?
  }

  predicate NothingAcking(s: State) {
    match s.sender
    case Reading(AllComplete(acking)) => acking == 0
    case Reading(HasAck(acking, _)) => acking == 0
    case Reading(HasFirst(acking, _, _)) => acking == 0
    case _ => true
  }

  lemma {:induction false} NeverAcking(states: seq<State>, steps: seq<Step>, i: nat)
    requires Run(states, steps) && Uninterrupted(states, steps) && i < |states|
    ensures NothingAcking(states[i])
  {
    hide Enabled, Next, NothingAcking;
    if i > 0 {
      NeverAcking(states, steps, i - 1);
      StepNeverAcking(states[i - 1], steps[i - 1]);
    } else {
      StartIsIdle();
    }
  }

  lemma StartIsIdle()
    ensures NothingAcking(START)
  {
  }

  lemma StepNeverAcking(s: State, step: Step)
    requires NothingAcking(s) && Enabled(s, step) && (step.AdvanceCallback? || s.callback.Quiet?)
    ensures NothingAcking(Next(s, step))
  {
    hide InRange, SameWord, After, At, Since, Probed, TrackedOn, Checked, Resynced;
    if step.Advance? {
      NotReading(s);
    }
  }

  lemma NotReading(s: State)
    ensures s.sender.Probing? ==> !Probed(s, s.sender.probe).sender.Reading?
    ensures s.sender.Tracking? ==> !TrackedOn(s, s.sender.track).sender.Reading?
    ensures s.sender.Checking? ==> !Checked(s, s.sender.check).sender.Reading?
    ensures s.sender.Resyncing? ==> !Resynced(s, s.sender.resync).sender.Reading?
  {
    hide InRange, SameWord, After, At, Since;
  }

  /** With the callback as one step, Failed means that no frame of the probe was acknowledged. */
  lemma FailedMeansNoAck(states: seq<State>, steps: seq<Step>, k: nat, i: nat)
    requires Run(states, steps) && Trusted(states, steps, k) && k <= i < |states|
    requires Uninterrupted(states, steps) && Answering(states[i]) && !AnswersAcked(states[i])
    ensures !ProbeAcked(states[i])
  {
    FailedIsWrongExactly(states, steps, k, i);
    NeverAcking(states, steps, i);
    Invariant(states, steps, k, i);
    hide Run, Trusted, AnswersAcked;
    assert 0 !in states[i].probeFrames;
  }

  /**
   Interrupted, it does not: status can read the completion count after the callback raised it
   and the ack before the callback stores it, and so answer Failed for a probe that was acked.
   */
  lemma FailedCanMissAnAck() returns (states: seq<State>, steps: seq<Step>)
    ensures Run(states, steps) && Answering(states[|steps|]) && !AnswersAcked(states[|steps|])
    ensures var s := states[|steps|]; 1 in s.probeFrames && 1 in s.radio.outcomes && s.radio.outcomes[1]
  {
    states, steps := OneFrameProbe();
    states, steps := Extend(states, steps, StartCallback(true), ClosedProbe(Idle, true));
    states, steps := Extend(states, steps, Begin(ReadStatus), ClosedProbe(Reading(SawPending), true));
    states, steps := Extend(states, steps, Advance, ClosedProbe(Reading(HasLast(1)), true));
    states, steps := Extend(states, steps, Advance, ClosedProbe(Reading(AllComplete(1)), true));
    states, steps := Extend(states, steps, Advance, ClosedProbe(Reading(HasAck(1, 0)), true));
    states, steps := Extend(states, steps, Advance, ClosedProbe(Reading(HasFirst(1, 0, 1)), true));
  }

  /** A probe of one frame, before and after the callback has counted it. */
  function ClosedProbe(sender: Sender, called: bool): State {
    if called then
      State(1, 1, true, 1, 1, 0, NOTHING, Guard(false, 0), sender, LoadPending(1),
            Radio(1, 1, 1, map[1 := true], 0, 0, 0), {1}, 0, false, false)
    else
      State(1, 0, true, 1, 1, 0, NOTHING, Guard(false, 0), sender, Quiet, Radio(1, 0, 0, map[], 0, 0, 0),
            {1}, 0, false, false)
  }

  function OpenProbe(sender: Sender, issued: nat, accepted: nat): State {
    State(issued, 0, true, 1, 1 + OPEN_SPAN, 0, NOTHING, Guard(false, 0), sender, Quiet,
          Radio(accepted, 0, 0, map[], 0, 0, 0), if accepted == 1 then {1} else {}, 0, false, false)
  }

  function UnarmedProbe(probe: ProbeStage, first: int, last: int): State {
    State(0, 0, false, first, last, 0, NOTHING, Guard(false, 0), Probing(probe), Quiet,
          Radio(0, 0, 0, map[], 0, 0, 0), {}, 0, false, false)
  }

  lemma OneFrameProbe() returns (states: seq<State>, steps: seq<Step>)
    ensures Run(states, steps) && states[|steps|] == ClosedProbe(Idle, false)
  {
    states, steps := ArmedProbe();
    states, steps := Extend(states, steps, Send(Accepted), OpenProbe(Sent(ForProbe), 0, 1));
    states, steps := Extend(states, steps, Advance, OpenProbe(Probing(Armed), 1, 1));
    states, steps := Extend(states, steps, Begin(EndProbe), OpenProbe(Probing(Ending(1)), 1, 1));
    states, steps := Extend(states, steps, Advance, OpenProbe(Probing(Close(1)), 1, 1));
    states, steps := Extend(states, steps, Advance, ClosedProbe(Idle, false));
  }

  lemma ArmedProbe() returns (states: seq<State>, steps: seq<Step>)
    ensures Run(states, steps) && states[|steps|] == OpenProbe(Probing(Armed), 0, 0)
  {
    states, steps := [START], [];
    states, steps := Extend(states, steps, Begin(BeginProbe), UnarmedProbe(Disarmed, 0, 0));
    states, steps := Extend(states, steps, Advance, UnarmedProbe(LoadedIssued(0), 0, 0));
    states, steps := Extend(states, steps, Advance, UnarmedProbe(NoStray, 0, 0));
    states, steps := Extend(states, steps, Advance, UnarmedProbe(SetFirst(1), 0, 0));
    states, steps := Extend(states, steps, Advance, UnarmedProbe(SetLast(1), 1, 0));
    states, steps := Extend(states, steps, Advance, UnarmedProbe(SetAck(1), 1, 1 + OPEN_SPAN));
    states, steps := Extend(states, steps, Advance, UnarmedProbe(Arm, 1, 1 + OPEN_SPAN));
    states, steps := Extend(states, steps, Advance, OpenProbe(Probing(Armed), 0, 0));
  }
}
