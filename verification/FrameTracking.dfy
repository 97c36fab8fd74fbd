/**
 What the tracked frame's delivery report means, in every interleaving, as long as each callback
 carries the number of the frame it is for.
 */
module FrameTracking {
  import opened Clock
  import opened ProbeTracker
  import opened CallbackNumbering
  import opened ProbeAttribution
  import Division

  // ---- What every step keeps ----------------------------------------------------------

  predicate Finishing(sender: Sender) {
    sender.Resyncing? && (sender.resync.Read? || sender.resync.Fail?)
  }

  /** Between begin_tracked and the end of end_tracked. */
  predicate Window(sender: Sender) {
    || sender == Sent(ForTracking)
    || (sender.Tracking? && (sender.track.Open? || sender.track.End? || sender.track.Compare? || sender.track.Swap?))
  }

  /** The frame about to be sent, or rejected, or throttled is the one the word waits for. */
  predicate Unsent(s: State) {
    !s.frameSent && s.tracked == Tracked(s.issued + 1, Waiting)
  }

  predicate WindowInv(s: State) {
    match s.sender
    case Tracking(Open) => Unsent(s)
    case Sent(ForTracking) => s.frameSent && s.frame == s.radio.accepted
    case Tracking(End(_)) => if s.frameSent then s.frame == s.issued else Unsent(s)
    case Tracking(Compare(_, current)) =>
      && current.state == Waiting
      && if s.frameSent then s.frame == s.issued == current.number else Unsent(s) && current == s.tracked
    case Tracking(Swap(_, current)) => Unsent(s) && current == s.tracked
    case Tracking(Take(taken)) => taken == s.tracked && taken.state in {Delivered, Failed}
    case Resyncing(Fail(current)) => current == Tracked(s.frame, Waiting) && s.frameSent
    case _ => true
  }

  /** What the tracked word says of the frame. */
  predicate WordInv(s: State) {
    match s.tracked.state
    case NotTracked => true
    case Waiting =>
      if s.frameSent then s.tracked.number == s.frame && CallbackDue(s) else Window(s.sender) && Unsent(s)
    case Delivered =>
      s.frameSent && s.tracked.number == s.frame && s.frame in s.radio.outcomes && s.radio.outcomes[s.frame]
    case Failed =>
      s.frameSent ==>
          s.tracked.number == s.frame && (s.frameLost || (s.frame in s.radio.outcomes && !s.radio.outcomes[s.frame]))
  }

  /** The frame's callback is still to come or under way, or is being given up. */
  predicate CallbackDue(s: State) {
    || s.frame > s.completed
    || (!s.callback.Quiet? && Number(s.callback) == s.frame)
    || (Finishing(s.sender) && (s.callback.Quiet? || s.frame > Number(s.callback)))
  }

  ghost predicate TrackInv(s: State) {
    && CountsInv(s) && WindowInv(s) && WordInv(s)
    && (s.frameSent ==> s.frame <= s.radio.accepted)
    && (s.sender.Resyncing? && s.tracked.state == Waiting ==> s.frameLost)
  }

  // ---- Steps --------------------------------------------------------------------------

  /** A callback matches the tracked word exactly when it is the tracked frame's. */
  lemma MatchIsExact(s: State, n: nat)
    requires TrackInv(s) && !s.callback.Quiet? && n == Number(s.callback)
    ensures SameWord(s.tracked, Tracked(n, Waiting))
      <==> s.tracked.state == Waiting && s.frameSent && n == s.frame
  {
    if s.tracked.state == Waiting && s.tracked.number > n {
      Division.Distinct(n, s.tracked.number, TRACK_NUMBERS);
    }
  }

  lemma CallbackStartStep(s: State, ok: bool)
    requires TrackInv(s) && Enabled(s, StartCallback(ok)) && Drift(s) == 0 && CountsInv(CallbackStarted(s, ok))
    ensures TrackInv(CallbackStarted(s, ok))
  {
    hide SameWord;
  }

  lemma CallbackSwapStep(s: State)
    requires TrackInv(s) && s.callback.SwapTracked? && CountsInv(CallbackAdvanced(s))
    ensures TrackInv(CallbackAdvanced(s))
  {
    MatchIsExact(s, s.callback.n);
    hide SameWord;
  }

  lemma CallbackProbeStep(s: State)
    requires TrackInv(s) && !s.callback.Quiet? && !s.callback.SwapTracked? && CountsInv(CallbackAdvanced(s))
    ensures TrackInv(CallbackAdvanced(s))
  {
    hide SameWord, InRange, CountsInv;
  }

  lemma BeginStep(s: State, call: Call)
    requires TrackInv(s) && Enabled(s, Begin(call))
    ensures TrackInv(Next(s, Begin(call)))
  {
    CountsKept(s, Begin(call));
    hide InRange, SameWord, At, Since;
  }

  lemma SendStep(s: State, sending: Sending)
    requires TrackInv(s) && Enabled(s, Send(sending))
    ensures TrackInv(Next(s, Send(sending)))
  {
    CountsKept(s, Send(sending));
    hide InRange, SameWord, At, Since;
  }

  lemma TrackStep(s: State)
    requires TrackInv(s) && s.sender.Tracking? && !s.sender.track.Open?
    ensures TrackInv(Advanced(s)) && (s.sender.track.Take? ==> TrackInv(TakeAgain(s)))
  {
    CountsKept(s, Advance);
    if s.sender.track.Take? {
      CountsKept(s, Retry);
    }
    if s.sender.track.Compare? && s.frameSent {
      Division.Distinct(s.issued, s.issued + 1, TRACK_NUMBERS);
    }
    hide InRange, At, Since;
    hide Probed, Observed, Resynced, Checked;
  }

  lemma ResyncStep(s: State)
    requires TrackInv(s) && s.sender.Resyncing? && !s.sender.resync.Fail?
    ensures TrackInv(Resynced(s, s.sender.resync))
  {
    ResyncedCounts(s);
    hide SameWord, LoadedInv;
  }

  lemma ResyncFailStep(s: State)
    requires TrackInv(s) && s.sender.Resyncing? && s.sender.resync.Fail?
    ensures TrackInv(Resynced(s, s.sender.resync))
  {
    ResyncedCounts(s);
  }

  lemma CountStep(s: State)
    requires TrackInv(s) && s.sender.Sent? && CountsInv(Advanced(s))
    ensures TrackInv(Advanced(s))
  {
    hide Resynced, TrackedOn, Probed, Observed, Checked;
  }

  lemma ProbeStep(s: State)
    requires TrackInv(s) && s.sender.Probing? && !MaySend(s.sender) && CountsInv(Advanced(s))
    ensures TrackInv(Advanced(s))
  {
    hide After, At, Since, WindowInv, WordInv, Probed, Counted, TrackedOn, Observed, Resynced, Checked;
    assert !s.sender.probe.Stray?;
    ProbedShape(s, s.sender.probe);
    hide CountsInv, TrackInv;
    ProbeApart(s, Advanced(s));
  }

  lemma ProbedShape(s: State, probe: ProbeStage)
    requires !probe.Stray? && s.sender == Probing(probe)
    ensures var t := Probed(s, probe);
            && (t.sender.Probing? || t.sender.Idle?)
            && t == s.(pending := t.pending, first := t.first, last := t.last, ack := t.ack, sender := t.sender)
  {
    hide After, At, Since;
  }

  /** A probe has no part in the tracked frame. */
  lemma ProbeApart(s: State, t: State)
    requires TrackInv(s) && s.sender.Probing? && CountsInv(t) && (t.sender.Probing? || t.sender.Idle?)
    requires t == s.(pending := t.pending, first := t.first, last := t.last, ack := t.ack, sender := t.sender)
    ensures TrackInv(t)
  {
    hide CountsInv;
  }

  lemma ReadStep(s: State)
    requires TrackInv(s) && s.sender.Reading? && CountsInv(Advanced(s))
    ensures TrackInv(Advanced(s))
  {
    hide CountsInv, After, At, Since, Resynced, TrackedOn, Probed, Acking, Checked;
  }

  lemma CheckStep(s: State)
    requires TrackInv(s) && s.sender.Checking? && CountsInv(Advanced(s))
    ensures TrackInv(Advanced(s))
  {
    hide CountsInv, After, At, Since, Resynced, TrackedOn, Probed, Observed;
  }

  lemma LossStep(s: State)
    requires TrackInv(s) && Awaiting(s) > 0
    ensures TrackInv(CallbackLost(s)) && CountsInv(CallbackLost(s))
  {
    hide SameWord;
  }

  lemma StepKeepsTrackInv(s: State, step: Step)
    requires TrackInv(s) && Enabled(s, step) && InStep(s, step)
    ensures TrackInv(Next(s, step))
  {
    CountsKept(s, step);
    hide TrackInv, CountsInv, Began, SentBy, Advanced, Resynced, TakeAgain, CallbackStarted, CallbackLost,
         CallbackAdvanced;
    match step
    case Begin(call) => BeginStep(s, call);
    case Send(sending) => SendStep(s, sending);
    case Advance =>
      match s.sender {
        case Tracking(_) => TrackStep(s);
        case Resyncing(resync) => if resync.Fail? { ResyncFailStep(s); } else { ResyncStep(s); }
        case Sent(_) => CountStep(s);
        case Probing(_) => ProbeStep(s);
        case Reading(_) => ReadStep(s);
        case Checking(_) => CheckStep(s);
      }
    case Retry => TrackStep(s);
    case StartCallback(ok) => CallbackStartStep(s, ok);
    case LoseCallback => LossStep(s);
    case AdvanceCallback => if s.callback.SwapTracked? { CallbackSwapStep(s); } else { CallbackProbeStep(s); }
  }

  // ---- Runs ---------------------------------------------------------------------------

  /** A frame just about to be tracked and sent with the numbering exact. */
  predicate TrackSlate(s: State) {
    && s.sender == Tracking(Open) && s.callback == Quiet && Drift(s) == 0 && Awaiting(s) <= MAX_OUTSTANDING
    && s.tracked == Tracked(s.issued + 1, Waiting) && !s.frameSent
  }

  /** From step `k` on, the start or such a frame, every callback carries its frame's number. */
  ghost predicate TrustedFrom(states: seq<State>, steps: seq<Step>, k: nat)
    requires |states| == |steps| + 1
  {
    && k < |states| && (k == 0 || TrackSlate(states[k]))
    && forall i :: k <= i < |steps| ==> InStep(states[i], steps[i])
  }

  lemma TrackSlateIsSound(s: State)
    requires Accounted(s) && TrackSlate(s)
    ensures TrackInv(s)
  {
  }

  lemma RestTracksNothing(s: State)
    requires s.sender == Idle && s.callback == Quiet && s.issued == s.completed == 0 && s.tracked == NOTHING &&
             !s.frameSent
    requires s.radio == Radio(0, 0, 0, map[], 0, 0, 0)
    ensures TrackInv(s)
  {
  }

  lemma {:induction false} TrackInvariant(states: seq<State>, steps: seq<Step>, k: nat, i: nat)
    requires Run(states, steps) && TrustedFrom(states, steps, k) && k <= i < |states|
    ensures TrackInv(states[i])
    decreases i
  {
    hide TrackInv, Enabled, Next, InStep, TrackSlate;
    if i == 0 {
      RestTracksNothing(START);
    } else if i == k {
      RunAccounts(states, steps, i);
      TrackSlateIsSound(states[i]);
    } else {
      TrackInvariant(states, steps, k, i - 1);
      StepKeepsTrackInv(states[i - 1], steps[i - 1]);
    }
  }

  /**
   A report of Delivered: exactly the last tracked frame was sent and got an ok callback. A
   report of Failed: it was rejected, or got a failed callback, or a resync gave it up.
   */
  lemma ReportIsReal(states: seq<State>, steps: seq<Step>, k: nat, i: nat)
    requires Run(states, steps) && TrustedFrom(states, steps, k) && k <= i < |states|
    ensures var s := states[i];
            && (Takes(s, Delivered) ==> s.frameSent && s.frame in s.radio.outcomes && s.radio.outcomes[s.frame])
            && (Takes(s, Failed) ==>
                  !s.frameSent || s.frameLost || (s.frame in s.radio.outcomes && !s.radio.outcomes[s.frame]))
  {
    TrackInvariant(states, steps, k, i);
    hide Run;
  }

  /**
   The report is not withheld: a frame stays pending only while its callback is under way, or while the
   completions are behind, so that the guard sees it if the callback never comes.
   */
  lemma PendingOnlyWhileAwaited(states: seq<State>, steps: seq<Step>, k: nat, i: nat)
    requires Run(states, steps) && TrustedFrom(states, steps, k) && k <= i < |states|
    requires states[i].sender.Idle? && states[i].tracked.state == Waiting
    ensures var s := states[i];
            && s.frameSent && s.completed <= s.issued
            && (s.completed < s.issued || (!s.callback.Quiet? && s.radio.answering == s.frame))
  {
    TrackInvariant(states, steps, k, i);
    hide Run;
  }
}
