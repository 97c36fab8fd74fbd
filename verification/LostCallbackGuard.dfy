/**
 When the guard against lost callbacks gives a frame up: at a look more than a second after an earlier
 one, when that look and every one since found completions behind and no probe pending.
 */
module LostCallbackGuard {
  import opened Clock
  import opened ProbeTracker
  import opened CallbackNumbering

  // ---- What a look finds --------------------------------------------------------------

  /** A look that found completions behind finds no probe pending either. */
  predicate Lags(s: State, step: Step) {
    step.Advance? && s.sender.Checking? && s.sender.check.Behind? && !s.pending
  }

  /** A look finds completions caught up or a probe pending, or completions are set to the sends. */
  predicate Ends(s: State, step: Step) {
    && step.Advance?
    && ((s.sender.Checking? && (if s.sender.check.Behind? then s.pending else s.completed >= s.issued))
        || (s.sender.Resyncing? && s.sender.resync.Store?))
  }

  /** When the look under way was made. */
  function LookTime(s: State): nat {
    if s.sender.Checking? then s.sender.check.at else 0
  }

  /** At step `k` a look lagged, and nothing ended that before step `i`. */
  ghost predicate Lagging(states: seq<State>, steps: seq<Step>, k: int, i: nat)
    requires i <= |steps| < |states|
  {
    0 <= k < i && Lags(states[k], steps[k]) && forall m :: k < m < i ==> !Ends(states[m], steps[m])
  }

  /** It is the first such step. */
  ghost predicate First(states: seq<State>, steps: seq<Step>, k: int, i: nat)
    requires i <= |steps| < |states|
  {
    Lagging(states, steps, k, i) && forall m :: m < k ==> !Lagging(states, steps, m, i)
  }

  /** Sends and completions are less than 2^31 apart, as far as the code can compare them. */
  predicate Near(states: seq<State>) {
    forall i :: 0 <= i < |states| ==> -0x8000_0000 < states[i].issued - states[i].completed < 0x8000_0000
  }

  // ---- What the guard remembers -------------------------------------------------------

  lemma CountsStep(s: State)
    requires s.sender.Checking? && s.sender.check.CountsRead? && Loaded(s)
    requires -0x8000_0000 < s.issued - s.completed < 0x8000_0000
    ensures var t := Checked(s, s.sender.check);
            if s.completed < s.issued then t == s.(sender := Checking(Behind(LookTime(s))))
            else t == s.(sender := Idle, guard := s.guard.(lagging := false))
  {
    SinceNear(s.issued, s.completed);
    hide At, Since, After;
  }

  /** A look that lags for the first time is remembered; a later one gives up or not, by the time since. */
  lemma LagStep(s: State)
    requires Lags(s, Advance)
    ensures var (t, gone) := (Next(s, Advance), Since(At(LookTime(s)), s.guard.since) > 1000);
            && t.guard == (if s.guard.lagging then s.guard else Guard(true, At(LookTime(s))))
            && t.sender == if s.guard.lagging && gone then Resyncing(Disarm) else Idle
  {
    hide At, Since;
  }

  lemma EndStep(s: State, step: Step)
    requires Enabled(s, step) && Ends(s, step) && Loaded(s)
    requires -0x8000_0000 < s.issued - s.completed < 0x8000_0000
    ensures !Next(s, step).guard.lagging
  {
    if s.sender.Checking? && s.sender.check.CountsRead? {
      CountsStep(s);
    }
    hide At, Since, After;
  }

  lemma OtherStep(s: State, step: Step)
    requires Enabled(s, step) && !Ends(s, step) && !Lags(s, step) && Loaded(s)
    requires -0x8000_0000 < s.issued - s.completed < 0x8000_0000
    ensures Next(s, step).guard == s.guard
  {
    if s.sender.Checking? && s.sender.check.CountsRead? {
      CountsStep(s);
    }
    hide At, Since, After, InRange, SameWord;
  }

  lemma {:induction false} GuardRemembers(states: seq<State>, steps: seq<Step>, i: nat) returns (k: int)
    requires Run(states, steps) && Near(states) && i < |states|
    ensures !states[i].guard.lagging ==> forall m :: !Lagging(states, steps, m, i)
    ensures states[i].guard.lagging ==>
              First(states, steps, k, i) && states[i].guard.since == At(LookTime(states[k]))
  {
    k := -1;
    if i > 0 {
      hide Enabled, Next, Lags, Ends, LookTime, Loaded, At;
      k := GuardRemembers(states, steps, i - 1);
      var (s, step) := (states[i - 1], steps[i - 1]);
      assert Enabled(s, step) && states[i] == Next(s, step);
      IsLoaded(states, steps, i - 1);
      if Ends(s, step) {
        EndStep(s, step);
        NotBoth(s, step);
        EndsAll(states, steps, i);
      } else {
        KeepsAll(states, steps, i);
        if Lags(s, step) {
          LagAdvances(s, step);
          LagStep(s);
          assert Lagging(states, steps, i - 1, i);
          k := if s.guard.lagging then k else i - 1;
        } else {
          OtherStep(s, step);
        }
      }
    }
  }

  lemma IsLoaded(states: seq<State>, steps: seq<Step>, i: nat)
    requires Run(states, steps) && i < |states|
    ensures Loaded(states[i])
  {
    RunAccounts(states, steps, i);
    hide Run, Loaded, Audited;
  }

  lemma NotBoth(s: State, step: Step)
    ensures Ends(s, step) ==> !Lags(s, step)
  {
  }

  lemma LagAdvances(s: State, step: Step)
    ensures Lags(s, step) ==> step == Advance
  {
  }

  lemma EndsAll(states: seq<State>, steps: seq<Step>, i: nat)
    requires 0 < i <= |steps| < |states| && Ends(states[i - 1], steps[i - 1]) && !Lags(states[i - 1], steps[i - 1])
    ensures forall m :: !Lagging(states, steps, m, i)
  {
    hide Ends, Lags;
  }

  lemma KeepsAll(states: seq<State>, steps: seq<Step>, i: nat)
    requires 0 < i <= |steps| < |states| && !Ends(states[i - 1], steps[i - 1])
    ensures forall m :: m < i - 1 ==> (Lagging(states, steps, m, i) <==> Lagging(states, steps, m, i - 1))
    ensures Lagging(states, steps, i - 1, i) <==> Lags(states[i - 1], steps[i - 1])
    ensures forall m :: m >= i ==> !Lagging(states, steps, m, i)
  {
    hide Ends, Lags;
  }

  // ---- When it gives up ---------------------------------------------------------------

  /**
   A look that lags gives up exactly when the first that did so since, `k`, was made more than 1000 ms
   before by the clock, which is the true time for less than 2^32 ms.
   */
  lemma GivesUpByClock(states: seq<State>, steps: seq<Step>, i: nat)
    requires Run(states, steps) && Near(states) && i < |steps| && Lags(states[i], steps[i])
    ensures states[i + 1].sender in {Resyncing(Disarm), Idle}
    ensures states[i + 1].sender == Resyncing(Disarm)
      <==> exists k :: First(states, steps, k, i) && Since(At(LookTime(states[i])), At(LookTime(states[k]))) > 1000
  {
    hide Enabled, Lagging, Loaded, At, Since;
    var k := GuardRemembers(states, steps, i);
    var s := states[i];
    assert states[i + 1] == Next(s, steps[i]);
    LagAdvances(s, steps[i]);
    LagStep(s);
    hide Next, Lags;
    if s.guard.lagging {
      forall m | First(states, steps, m, i) ensures m == k {
        OneFirst(states, steps, m, k, i);
      }
    }
  }

  lemma OneFirst(states: seq<State>, steps: seq<Step>, m: int, k: int, i: nat)
    requires i <= |steps| < |states| && First(states, steps, m, i) && First(states, steps, k, i)
    ensures m == k
  {
    hide Lagging;
  }

  /** Nothing else gives a frame up: only such a look, and a restart of the radio. */
  lemma OnlyLagsGiveUp(states: seq<State>, steps: seq<Step>, i: nat)
    requires Run(states, steps) && Near(states) && i < |steps| && steps[i] != Begin(Restart)
    requires states[i + 1].sender == Resyncing(Disarm) != states[i].sender
             || (states[i + 1].frameLost && !states[i].frameLost)
    ensures Lags(states[i], steps[i]) && states[i + 1].sender == Resyncing(Disarm)
  {
    IsLoaded(states, steps, i);
    OthersKeep(states[i], steps[i]);
  }

  lemma ElsewhereKeeps(s: State, step: Step)
    requires Enabled(s, step) && step != Begin(Restart) && !step.Advance?
    ensures var t := Next(s, step);
            (t.sender == Resyncing(Disarm) ==> s.sender == t.sender) && (t.frameLost ==> s.frameLost)
  {
    hide At, Since, After, InRange, SameWord;
  }

  lemma OthersKeep(s: State, step: Step)
    requires Enabled(s, step) && step != Begin(Restart) && Loaded(s)
    requires -0x8000_0000 < s.issued - s.completed < 0x8000_0000
    ensures var t := Next(s, step);
            Lags(s, step) || ((t.sender == Resyncing(Disarm) ==> s.sender == t.sender) && (t.frameLost ==> s.frameLost))
    ensures Lags(s, step) && Next(s, step).sender != Resyncing(Disarm) ==> Next(s, step).frameLost == s.frameLost
  {
    if !step.Advance? {
      ElsewhereKeeps(s, step);
    } else if s.sender.Checking? && s.sender.check.CountsRead? {
      CountsStep(s);
    }
    hide At, Since, After, InRange, SameWord, Began, SentBy, TakeAgain, CallbackStarted, StrayStarted, CallbackLost,
         CallbackAdvanced, Enabled;
  }

  /** A look whose second part is reached has read completions behind sends in its first. */
  lemma {:induction false} BehindWasRead(states: seq<State>, steps: seq<Step>, i: nat) returns (r: nat)
    requires Run(states, steps) && Near(states) && i < |states| && states[i].sender.Checking?
    requires states[i].sender.check.Behind?
    ensures r < i && states[r].sender.Checking? && states[r].sender.check.CountsRead? && steps[r].Advance?
    ensures LookTime(states[r]) == LookTime(states[i]) && states[r].completed < states[r].issued
    ensures forall m :: r < m <= i ==> states[m].sender == states[i].sender
  {
    var (s, step) := (states[i - 1], steps[i - 1]);
    hide Next, Enabled, Loaded;
    assert Enabled(s, step) && states[i] == Next(s, step);
    if s.sender == states[i].sender {
      r := BehindWasRead(states, steps, i - 1);
    } else {
      IsLoaded(states, steps, i - 1);
      BehindFrom(s, step);
      r := i - 1;
    }
  }

  /** Only the sending task's own steps bring it there. */
  lemma OnlyAdvanceLooks(s: State, step: Step)
    requires Enabled(s, step) && !step.Advance?
    ensures var t := Next(s, step); t.sender.Checking? && t.sender.check.Behind? ==> t.sender == s.sender
  {
    hide At, Since, After, InRange, SameWord;
  }

  lemma BehindFrom(s: State, step: Step)
    requires Enabled(s, step) && Loaded(s) && -0x8000_0000 < s.issued - s.completed < 0x8000_0000
    requires var t := Next(s, step); t.sender.Checking? && t.sender.check.Behind? && t.sender != s.sender
    ensures step.Advance? && s.sender.Checking? && s.sender.check.CountsRead? && s.completed < s.issued
    ensures LookTime(s) == LookTime(Next(s, step))
  {
    if !step.Advance? {
      OnlyAdvanceLooks(s, step);
    } else if s.sender.Checking? && s.sender.check.CountsRead? {
      CountsStep(s);
    }
    hide At, Since, After, InRange, SameWord, Began, SentBy, TakeAgain, CallbackStarted, StrayStarted, CallbackLost,
         CallbackAdvanced, Enabled;
  }

  // ---- In true time -------------------------------------------------------------------

  datatype Look = NoLook | Look(at: nat)

  /** The last look among the first `n` steps. */
  function LastLook(steps: seq<Step>, n: nat): Look
    requires n <= |steps|
  {
    if n == 0 then NoLook
    else if steps[n - 1].Begin? && steps[n - 1].call.CheckLost? then Look(steps[n - 1].call.at)
    else LastLook(steps, n - 1)
  }

  /** Looks come in order, less than 2^32 ms less a second apart. */
  predicate InTime(steps: seq<Step>) {
    forall n :: 0 <= n < |steps| && steps[n].Begin? && steps[n].call.CheckLost? && LastLook(steps, n).Look? ==>
      LastLook(steps, n).at <= steps[n].call.at < LastLook(steps, n).at + U32 - 1000
  }

  predicate Resetting(sender: Sender) {
    sender.Resyncing? && (sender.resync.Disarm? || sender.resync.Load? || sender.resync.Store?)
  }

  /** How the last look stands to the first that lagged, made at `u`. */
  predicate Timed(s: State, last: Look, u: nat) {
    && last.Look? && u <= last.at
    && (if s.sender.Checking? then last.at < u + U32 else Resetting(s.sender) || last.at <= u + 1000)
  }

  /** How a step moves the sending task, as far as looks go. */
  lemma SenderStep(s: State, step: Step)
    requires Enabled(s, step) && Loaded(s) && -0x8000_0000 < s.issued - s.completed < 0x8000_0000
    ensures var t := Next(s, step);
            && (step.Begin? && step.call.CheckLost? ==>
                  s.sender == Idle && t.sender.Checking? && LookTime(t) == step.call.at)
            && (!(step.Begin? && step.call.CheckLost?) && t.sender.Checking? ==>
                  s.sender.Checking? && LookTime(t) == LookTime(s))
            && (s.sender.Checking? ==> t.sender.Checking? || Lags(s, step) || Ends(s, step))
            && (Resetting(s.sender) ==> Resetting(t.sender) || Ends(s, step))
  {
    if s.sender.Checking? && s.sender.check.CountsRead? {
      CountsStep(s);
    }
    hide At, Since, After, InRange, SameWord;
  }

  lemma {:induction false} LooksAreLast(states: seq<State>, steps: seq<Step>, i: nat)
    requires Run(states, steps) && Near(states) && i < |states| && states[i].sender.Checking?
    ensures LastLook(steps, i) == Look(LookTime(states[i]))
  {
    hide Enabled, Next, Loaded, LookTime, Lags, Ends, Resetting;
    IsLoaded(states, steps, i - 1);
    SenderStep(states[i - 1], steps[i - 1]);
    if !(steps[i - 1].Begin? && steps[i - 1].call.CheckLost?) {
      LooksAreLast(states, steps, i - 1);
    }
  }

  lemma {:induction false} LagsAreRecent(states: seq<State>, steps: seq<Step>, i: nat, k: int)
    requires Run(states, steps) && Near(states) && InTime(steps) && i < |states| && First(states, steps, k, i)
    ensures Timed(states[i], LastLook(steps, i), LookTime(states[k]))
  {
    hide Enabled, Next, Loaded, LookTime, Lags, Ends;
    var (s, step) := (states[i - 1], steps[i - 1]);
    assert states[i] == Next(s, step);
    IsLoaded(states, steps, i - 1);
    SenderStep(s, step);
    if k == i - 1 {
      FirstLag(states, steps, i);
    } else {
      StillFirst(states, steps, k, i);
      LagsAreRecent(states, steps, i - 1, k);
      if Lags(s, step) {
        LaterLag(states, steps, i, k);
      }
    }
  }

  lemma LagChecks(s: State, step: Step)
    ensures Lags(s, step) ==> s.sender.Checking?
  {
  }

  lemma StillFirst(states: seq<State>, steps: seq<Step>, k: int, i: nat)
    requires 0 < i <= |steps| < |states| && First(states, steps, k, i) && k < i - 1
    ensures First(states, steps, k, i - 1) && !Ends(states[i - 1], steps[i - 1])
  {
    hide Ends, Lags;
    assert Lagging(states, steps, k, i);
    assert !Ends(states[i - 1], steps[i - 1]);
    KeepsAll(states, steps, i);
    hide Lagging;
    var before: nat := i - 1;
    forall m | m < k ensures !Lagging(states, steps, m, before) {
      assert !Lagging(states, steps, m, i);
    }
  }

  lemma FirstLag(states: seq<State>, steps: seq<Step>, i: nat)
    requires Run(states, steps) && Near(states) && 0 < i < |states| && Lags(states[i - 1], steps[i - 1])
    ensures Timed(states[i], LastLook(steps, i), LookTime(states[i - 1]))
  {
    hide LookTime;
    LooksAreLast(states, steps, i - 1);
    LagAdvances(states[i - 1], steps[i - 1]);
    LagStep(states[i - 1]);
    hide Enabled, Next;
  }

  lemma LaterLag(states: seq<State>, steps: seq<Step>, i: nat, k: int)
    requires Run(states, steps) && Near(states) && 0 < i < |states| && Lags(states[i - 1], steps[i - 1])
    requires First(states, steps, k, i - 1) && Timed(states[i - 1], LastLook(steps, i - 1), LookTime(states[k]))
    ensures Timed(states[i], LastLook(steps, i), LookTime(states[k]))
  {
    var last: nat := i - 1;
    assert 0 <= k < last && steps[last].Advance?;
    var s, t, u := states[last], states[i], LookTime(states[k]);
    assert LastLook(steps, i) == LastLook(steps, last);
    hide *;
    LooksAreLast(states, steps, last);
    GivesUpByClock(states, steps, last);
    LagChecks(s, steps[last]);
    assert t.sender == Resyncing(Disarm) || Since(At(LookTime(s)), At(u)) <= 1000;
    LagTimed(s, t, LastLook(steps, i), u);
  }

  lemma LagTimed(s: State, t: State, last: Look, u: nat)
    requires s.sender.Checking? && last == Look(LookTime(s)) && Timed(s, last, u)
    requires t.sender in {Resyncing(Disarm), Idle}
    requires t.sender == Resyncing(Disarm) || Since(At(LookTime(s)), At(u)) <= 1000
    ensures Timed(t, last, u)
  {
    SinceIsElapsed(LookTime(s), u);
    hide At, Since;
  }

  /**
   With looks in order and less than 2^32 ms less a second apart, a look that lags gives up exactly when
   some look more than 1000 ms before it lagged, and nothing ended that since.
   */
  lemma GivesUpExactly(states: seq<State>, steps: seq<Step>, i: nat)
    requires Run(states, steps) && Near(states) && InTime(steps) && i < |steps| && Lags(states[i], steps[i])
    ensures states[i + 1].sender == Resyncing(Disarm)
      <==> exists k :: Lagging(states, steps, k, i) && LookTime(states[i]) - LookTime(states[k]) > 1000
  {
    hide Lags, Ends, At, Since, LookTime, Near, InTime, Enabled, Next;
    LagChecks(states[i], steps[i]);
    GivesUpByClock(states, steps, i);
    LooksAreLast(states, steps, i);
    var first := GuardRemembers(states, steps, i);
    if states[i].guard.lagging {
      LagsAreRecent(states, steps, i, first);
      SinceIsElapsed(LookTime(states[i]), LookTime(states[first]));
      forall k | First(states, steps, k, i) ensures k == first {
        OneFirst(states, steps, k, first, i);
      }
      forall k | Lagging(states, steps, k, i) ensures LookTime(states[first]) <= LookTime(states[k]) {
        LagsInOrder(states, steps, first, k, i);
      }
    }
  }

  lemma LagsInOrder(states: seq<State>, steps: seq<Step>, first: int, k: int, i: nat)
    requires Run(states, steps) && Near(states) && InTime(steps) && i < |states|
    requires First(states, steps, first, i) && Lagging(states, steps, k, i)
    ensures LookTime(states[first]) <= LookTime(states[k])
  {
    LagChecks(states[k], steps[k]);
    LooksAreLast(states, steps, k);
    hide Lags, Ends, LookTime, Run, Near;
    if first < k {
      FirstBefore(states, steps, first, k, i);
      LagsAreRecent(states, steps, k, first);
    }
  }

  lemma FirstBefore(states: seq<State>, steps: seq<Step>, first: int, k: int, i: nat)
    requires i <= |steps| < |states| && First(states, steps, first, i) && first < k < i
    ensures First(states, steps, first, k)
  {
    hide Lags, Ends;
    assert forall n :: first < n < i ==> !Ends(states[n], steps[n]);
    forall m | m < first ensures Lagging(states, steps, m, k) ==> Lagging(states, steps, m, i) {
    }
  }
}
