/**
 How the tracker numbers send callbacks. It counts them, while the radio answers the head of its
 queue; the two agree exactly as long as no callback outlives a resync, comes for no frame, or is
 lost. Nothing is assumed of the radio here.
 */
module CallbackNumbering {
  import opened Clock
  import opened ProbeTracker

  ghost predicate Run(states: seq<State>, steps: seq<Step>) {
    && |states| == |steps| + 1 && states[0] == START
    && forall i :: 0 <= i < |steps| ==> Enabled(states[i], steps[i]) && states[i + 1] == Next(states[i], steps[i])
  }

  predicate CallbackOk(callback: Callback) {
    !callback.SwapTracked? || callback.ok
  }

  // ---- The drift ----------------------------------------------------------------------

  /** By how much the number of the next callback exceeds that of the frame it is for. */
  function Drift(s: State): int {
    s.completed - s.radio.answered
  }

  /** What the sending task has loaded of its own counter is still so. */
  predicate Loaded(s: State) {
    match s.sender
    case Probing(LoadedIssued(issued)) => issued == s.issued
    case Probing(Stray(issued)) => issued == s.issued
    case Tracking(Begun(issued)) => issued == s.issued
    case Resyncing(Store(issued)) => issued == s.issued
    case Checking(CountsRead(_, issued)) => issued == s.issued
    case _ => true
  }

  /** Begun, and no frame of the probe sent yet. */
  predicate Unarmed(sender: Sender) {
    sender.Probing? &&
        (sender.probe.Disarmed? || sender.probe.LoadedIssued? || sender.probe.Stray? || sender.probe.NoStray?)
  }

  /** What each callback is for, whatever its number. */
  ghost predicate Audited(r: Radio, callback: Callback) {
    && r.answered <= r.accepted && r.survivors >= 0 && r.strays >= 0 && r.losses >= 0
    && (forall f :: f in r.outcomes ==> 1 <= f <= r.answered)
    && (!callback.Quiet? && r.answering > 0 ==>
          r.answering in r.outcomes && r.outcomes[r.answering] == CallbackOk(callback))
  }

  /** What every step keeps, whatever the radio does. */
  ghost predicate Accounted(s: State) {
    && s.radio.accepted == s.issued + (if s.sender.Sent? then 1 else 0)
    && Drift(s) == s.radio.survivors + s.radio.strays - s.radio.losses
    && Audited(s.radio, s.callback)
    && Loaded(s)
    && (Unarmed(s.sender) ==> !s.pending && s.probeFrames == {})
  }

  lemma SentAccounts(s: State)
    requires Accounted(s) && s.sender.Sent?
    ensures Accounted(Counted(s, s.sender.purpose))
  {
  }

  lemma RecountAccounts(s: State)
    requires Accounted(s) && !s.sender.Sent?
    ensures var t := Recounted(s, s.issued);
            Audited(t.radio, t.callback) && Drift(t) == t.radio.survivors == Awaiting(s) &&
                t.radio.strays == t.radio.losses == 0
  {
  }

  lemma ProbedAccounts(s: State)
    requires Accounted(s) && s.sender.Probing?
    ensures Accounted(Probed(s, s.sender.probe))
  {
    RecountAccounts(s);
    hide Clock.After, At, Audited;
  }

  lemma TrackedAccounts(s: State)
    requires Accounted(s) && s.sender.Tracking?
    ensures Accounted(TrackedOn(s, s.sender.track)) && Accounted(TakeAgain(s))
  {
    hide SameWord, Audited;
  }

  lemma ObservedAccounts(s: State)
    requires Accounted(s) && s.sender.Reading?
    ensures Accounted(Observed(s, s.sender.status))
  {
    hide Clock.After, At, Acking;
  }

  lemma ResyncedAccounts(s: State)
    requires Accounted(s) && s.sender.Resyncing?
    ensures Accounted(Resynced(s, s.sender.resync))
  {
    hide SameWord, Audited;
    RecountAccounts(s);
  }

  lemma CheckedAccounts(s: State)
    requires Accounted(s) && s.sender.Checking?
    ensures Accounted(Checked(s, s.sender.check))
  {
    hide Clock.After, At, Since;
  }

  lemma BeginAccounts(s: State, call: Call)
    requires Accounted(s) && Enabled(s, Begin(call))
    ensures Accounted(Began(s, call))
  {
  }

  lemma SendAccounts(s: State, sending: Sending)
    requires Accounted(s) && Enabled(s, Send(sending))
    ensures Accounted(SentBy(s, sending))
  {
  }

  lemma CallbackAccounts(s: State)
    requires Accounted(s) && !s.callback.Quiet?
    ensures Accounted(CallbackAdvanced(s))
  {
    hide InRange, SameWord;
  }

  lemma RadioAccounts(s: State, ok: bool)
    requires Accounted(s)
    ensures s.callback.Quiet? ==> Accounted(StrayStarted(s, ok))
    ensures Awaiting(s) > 0 ==> Accounted(CallbackLost(s))
    ensures s.callback.Quiet? && Awaiting(s) > 0 ==> Accounted(CallbackStarted(s, ok))
  {
  }

  lemma StepAccounts(s: State, step: Step)
    requires Accounted(s) && Enabled(s, step)
    ensures Accounted(Next(s, step))
  {
    hide Accounted, Began, SentBy, Counted, Probed, TrackedOn, TakeAgain, Observed, Resynced, Checked, CallbackStarted,
         StrayStarted, CallbackLost, CallbackAdvanced;
    match step
    case Begin(call) => BeginAccounts(s, call);
    case Send(sending) => SendAccounts(s, sending);
    case Advance =>
      match s.sender {
        case Sent(_) => SentAccounts(s);
        case Probing(_) => ProbedAccounts(s);
        case Tracking(_) => TrackedAccounts(s);
        case Reading(_) => ObservedAccounts(s);
        case Resyncing(_) => ResyncedAccounts(s);
        case Checking(_) => CheckedAccounts(s);
      }
    case Retry => TrackedAccounts(s);
    case StartCallback(ok) => RadioAccounts(s, ok);
    case StrayCallback(ok) => RadioAccounts(s, ok);
    case LoseCallback => RadioAccounts(s, true);
    case AdvanceCallback => CallbackAccounts(s);
  }

  lemma RestAccounts(s: State)
    requires s.sender == Idle && s.callback == Quiet && s.issued == s.completed == 0
    requires s.radio == Radio(0, 0, 0, map[], 0, 0, 0)
    ensures Accounted(s)
  {
  }

  lemma {:induction false} RunAccounts(states: seq<State>, steps: seq<Step>, i: nat)
    requires Run(states, steps) && i < |states|
    ensures Accounted(states[i])
  {
    hide Accounted, Enabled, Next;
    if i == 0 {
      RestAccounts(START);
    } else {
      RunAccounts(states, steps, i - 1);
      StepAccounts(states[i - 1], steps[i - 1]);
    }
  }

  /**
   A callback carries the number of the frame it is for exactly when, since the completions were last
   set to the sends, as many callbacks were lost as had outlived that or belonged to no frame: with
   none lost, exactly when none outlived it and none was stray.
   */
  lemma NumberingIsExact(states: seq<State>, steps: seq<Step>, i: nat)
    requires Run(states, steps) && i < |steps| && steps[i].StartCallback?
    ensures var (s, t) := (states[i], states[i + 1]);
            && t.radio.answering == s.radio.answered + 1
            && Number(t.callback) - t.radio.answering == s.radio.survivors + s.radio.strays - s.radio.losses
            && (s.radio.losses == 0 ==>
                  (Number(t.callback) == t.radio.answering <==> s.radio.survivors == 0 && s.radio.strays == 0))
  {
    RunAccounts(states, steps, i);
  }

  /** A resync makes the numbering exact exactly when nothing is awaited: what is, survives it. */
  lemma ResyncIsExact(states: seq<State>, steps: seq<Step>, i: nat)
    requires Run(states, steps) && i < |steps| && steps[i].Advance?
    requires states[i].sender.Resyncing? && states[i].sender.resync.Store?
    ensures Drift(states[i + 1]) == 0 <==> Awaiting(states[i]) == 0
    ensures states[i + 1].radio.survivors == Awaiting(states[i])
  {
    RunAccounts(states, steps, i);
  }

  /** After a restart, which empties the radio's queue, it always is. */
  lemma {:induction false} RestartAwaitsNothing(states: seq<State>, steps: seq<Step>, i: nat, j: nat)
    requires Run(states, steps) && i < j < |states| && steps[i] == Begin(Restart)
    requires forall k :: i < k <= j ==> states[k].sender.Resyncing?
    ensures Awaiting(states[j]) == 0
  {
    hide Resynced;
    RunAccounts(states, steps, i);
    RunAccounts(states, steps, j - 1);
    if j > i + 1 {
      RestartAwaitsNothing(states, steps, i, j - 1);
      assert states[j - 1].sender.Resyncing?;
      ResyncAwaits(states[j - 1], steps[j - 1]);
    }
  }

  lemma ResyncAwaits(s: State, step: Step)
    requires Enabled(s, step) && s.sender.Resyncing? && Awaiting(s) == 0
    ensures Awaiting(Next(s, step)) == 0
  {
    hide InRange, SameWord;
  }

  // ---- The clamp of begin_probe -------------------------------------------------------

  /** With nothing awaited, begin_probe sees completions ahead of sends exactly when the count has run ahead. */
  lemma ClampIsDueExactly(s: State)
    requires Accounted(s) && s.sender.Probing? && s.sender.probe.LoadedIssued? && Awaiting(s) == 0
    requires -0x8000_0000 < Drift(s) < 0x8000_0000
    ensures Probed(s, s.sender.probe).sender == Probing(Stray(s.issued)) <==> Drift(s) > 0
    ensures Drift(s) <= 0 ==> Probed(s, s.sender.probe).sender == Probing(NoStray)
  {
    SinceNear(s.completed, s.issued);
    hide At, Since, Clock.After;
  }

  /**
   The clamp restores the numbering exactly when nothing is awaited, whatever stray callbacks came
   before; frames still awaited keep it off by their number.
   */
  lemma ClampRestores(states: seq<State>, steps: seq<Step>, i: nat)
    requires Run(states, steps) && i < |steps| && steps[i].Advance?
    requires states[i].sender.Probing? && states[i].sender.probe.Stray?
    ensures states[i + 1].sender == Probing(NoStray) && Drift(states[i + 1]) == Awaiting(states[i])
  {
    RunAccounts(states, steps, i);
  }

  // ---- Callbacks that come after the guard gave up ------------------------------------

  lemma Extend(states: seq<State>, steps: seq<Step>, step: Step, next: State)
    returns (more: seq<State>, taken: seq<Step>)
    requires Run(states, steps) && Enabled(states[|steps|], step) && Next(states[|steps|], step) == next
    ensures Run(more, taken) && taken == steps + [step] && more == states + [next] && more[|taken|] == next
  {
    hide Enabled, Next;
    more, taken := states + [next], steps + [step];
  }

  /** `s` with frame `n` tracked and accepted. */
  function WithFrame(s: State, n: nat): State {
    s.(tracked := Tracked(n, Waiting), issued := n, radio := s.radio.(accepted := n), frame := n, frameSent := true,
       frameLost := false)
  }

  /** A tracked frame is sent from a state at rest, and no callback comes. */
  lemma SendTracked(states: seq<State>, steps: seq<Step>, s: State, n: nat) returns (more: seq<State>, taken: seq<Step>)
    requires Run(states, steps) && states[|steps|] == s && s.sender == Idle && s.callback == Quiet && !s.pending
    requires n == s.issued + 1 == s.radio.accepted + 1 <= 2 && s.completed <= 2
    ensures Run(more, taken) && more[|taken|] == WithFrame(s, n)
  {
    hide Run;
    var t := s.(sender := Tracking(Begun(s.issued)));
    more, taken := Extend(states, steps, Begin(BeginTracked), t);
    t := t.(tracked := Tracked(n, Waiting), sender := Tracking(Open), frameSent := false, frameLost := false);
    more, taken := Extend(more, taken, Advance, t);
    t := t.(radio := s.radio.(accepted := n), sender := Sent(ForTracking), frame := n, frameSent := true);
    more, taken := Extend(more, taken, Send(Accepted), t);
    t := t.(issued := n, sender := Tracking(End(true)));
    more, taken := Extend(more, taken, Advance, t);
    t := t.(sender := Tracking(Compare(true, Tracked(n, Waiting))));
    more, taken := Extend(more, taken, Advance, t);
    more, taken := Extend(more, taken, Advance, t.(sender := Idle));
  }

  /** A lone tracked frame that no callback has come for, as the guard sees it. */
  function Alone(completed: nat, tracked: TrackState, lagging: bool, sender: Sender, survivors: int,
                 lost: bool): State {
    State(1, completed, false, 0, 0, 0, Tracked(1, tracked), Guard(lagging, 0), sender, Quiet,
          Radio(1, 0, 0, map[], survivors, 0, 0), {}, 1, true, lost)
  }

  /** After the guard has resynced. */
  function Overdue(): State {
    Alone(1, Failed, false, Idle, 1, true)
  }

  /** A tracked frame whose callback is more than a second late: two checks a second apart give it up. */
  lemma GuardGivesUp() returns (states: seq<State>, steps: seq<Step>)
    ensures Run(states, steps) && states[|steps|] == Overdue()
  {
    states, steps := [START], [];
    states, steps := SendTracked(states, steps, START, 1);
    assert states[|steps|] == Alone(0, Waiting, false, Idle, 0, false);
    states, steps := GuardLags(states, steps);
    states, steps := GuardResyncs(states, steps);
  }

  lemma GuardLags(states: seq<State>, steps: seq<Step>) returns (more: seq<State>, taken: seq<Step>)
    requires Run(states, steps) && states[|steps|] == Alone(0, Waiting, false, Idle, 0, false)
    ensures Run(more, taken) && more[|taken|] == Alone(0, Waiting, true, Checking(Behind(1001)), 0, false)
  {
    hide Run;
    more, taken := Extend(states, steps, Begin(CheckLost(0)),
                          Alone(0, Waiting, false, Checking(CountsRead(0, 1)), 0, false));
    more, taken := Extend(more, taken, Advance, Alone(0, Waiting, false, Checking(Behind(0)), 0, false));
    more, taken := Extend(more, taken, Advance, Alone(0, Waiting, true, Idle, 0, false));
    more, taken := Extend(more, taken, Begin(CheckLost(1001)),
                          Alone(0, Waiting, true, Checking(CountsRead(1001, 1)), 0, false));
    more, taken := Extend(more, taken, Advance, Alone(0, Waiting, true, Checking(Behind(1001)), 0, false));
  }

  lemma GuardResyncs(states: seq<State>, steps: seq<Step>) returns (more: seq<State>, taken: seq<Step>)
    requires Run(states, steps) && states[|steps|] == Alone(0, Waiting, true, Checking(Behind(1001)), 0, false)
    ensures Run(more, taken) && more[|taken|] == Overdue()
  {
    hide Run;
    more, taken := Extend(states, steps, Advance, Alone(0, Waiting, true, Resyncing(Disarm), 0, true));
    hide At, Since, Clock.After;
    more, taken := Extend(more, taken, Advance, Alone(0, Waiting, true, Resyncing(Load), 0, true));
    more, taken := Extend(more, taken, Advance, Alone(0, Waiting, true, Resyncing(Store(1)), 0, true));
    more, taken := Extend(more, taken, Advance, Alone(1, Waiting, false, Resyncing(Read), 1, true));
    more, taken := Extend(more, taken, Advance,
                          Alone(1, Waiting, false, Resyncing(Fail(Tracked(1, Waiting))), 1, true));
    more, taken := Extend(more, taken, Advance, Overdue());
  }

  /** `s` after a whole callback, acknowledged, that leaves `tracked` behind. */
  function WithCallback(s: State, tracked: Tracked): State {
    var frame := s.radio.answered + 1;
    s.(completed := s.completed + 1, tracked := tracked,
       radio := s.radio.(answered := frame, answering := frame, outcomes := s.radio.outcomes[frame := true]))
  }

  /** A whole callback for the head of the queue, acknowledged. */
  lemma CallBack(states: seq<State>, steps: seq<Step>, s: State) returns (more: seq<State>, taken: seq<Step>)
    requires Run(states, steps) && states[|steps|] == s && s.callback == Quiet && !s.pending && Awaiting(s) > 0
    ensures var n := s.completed + 1;
            var hit := SameWord(s.tracked, Tracked(n, Waiting));
            Run(more, taken) && more[|taken|] == WithCallback(s, if hit then Tracked(n, Delivered) else s.tracked)
  {
    hide Run;
    var n, t := s.completed + 1, WithCallback(s, s.tracked);
    more, taken := Extend(states, steps, StartCallback(true), t.(callback := LoadPending(n)));
    more, taken := Extend(more, taken, AdvanceCallback, t.(callback := SwapTracked(n, true)));
    var hit := SameWord(s.tracked, Tracked(n, Waiting));
    hide SameWord;
    more, taken := Extend(more, taken, AdvanceCallback,
                          t.(tracked := if hit then Tracked(n, Delivered) else s.tracked));
  }

  /**
   The late callback then answers for the next frame: frame 2 is reported delivered on the callback
   of frame 1, while its own has not come.
   */
  lemma LateCallbackReportsNextFrame() returns (states: seq<State>, steps: seq<Step>)
    ensures Run(states, steps)
    ensures var s := states[|steps|];
            Takes(s, Delivered) && s.frame == 2 && s.frameSent && 1 in s.radio.outcomes && 2 !in s.radio.outcomes
  {
    states, steps := GuardGivesUp();
    states, steps := SendTracked(states, steps, Overdue(), 2);
    var s := WithFrame(Overdue(), 2);
    states, steps := CallBack(states, steps, s);
    s := WithCallback(s, Tracked(2, Delivered));
    assert s == states[|steps|];
    states, steps := Extend(states, steps, Begin(TakeTracked), s.(sender := Tracking(Take(Tracked(2, Delivered)))));
    hide Run;
  }

  /**
   If it comes before the next frame is tracked, that frame's own callback misses it: the word waits
   with no callback to come, and the completions are not behind, so the guard sees nothing wrong.
   */
  lemma LateCallbackStrandsNextFrame() returns (states: seq<State>, steps: seq<Step>)
    ensures Run(states, steps)
    ensures var s := states[|steps|];
            && s.sender == Idle && s.callback == Quiet && s.tracked == Tracked(2, Waiting) && s.frame == 2
            && 2 in s.radio.outcomes && s.radio.outcomes[2] && Awaiting(s) == 0 && s.completed > s.issued
  {
    states, steps := GuardGivesUp();
    states, steps := CallBack(states, steps, Overdue());
    var s := WithCallback(Overdue(), Tracked(1, Failed));
    assert s == states[|steps|];
    states, steps := SendTracked(states, steps, s, 2);
    states, steps := CallBack(states, steps, WithFrame(s, 2));
    hide Run;
  }

  /** The guard acts only on completions that are behind: caught up or ahead, it never resyncs. */
  lemma GuardNeedsLag(s: State, at: nat)
    requires s.sender == Checking(CountsRead(at, s.issued)) && -0x8000_0000 < s.issued - s.completed < 0x8000_0000
    ensures Checked(s, s.sender.check).sender == Checking(Behind(at)) <==> s.completed < s.issued
    ensures s.completed >= s.issued ==>
            Checked(s, s.sender.check) == s.(sender := Idle, guard := s.guard.(lagging := false))
  {
    SinceNear(s.issued, s.completed);
    hide At, Since, Clock.After;
  }
}
