/**
 Every call of the tracker ends, and uninterrupted it does what the call is for: the steps that the
 tasks interleave are those of whole calls.
 */
module TrackerCalls {
  import opened Clock
  import opened ProbeTracker

  // ---- The callback -------------------------------------------------------------------

  function CallbackRank(callback: Callback): nat {
    match callback
    case Quiet => 0
    case SwapTracked(_, _) => 1
    case StoreAck(_) => 2
    case LoadLast(_, _) => 3
    case LoadFirst(_) => 4
    case LoadPending(_) => 5
  }

  /** A callback ends within five steps, whatever the other task does between. */
  lemma CallbackEnds(s: State)
    requires !s.callback.Quiet?
    ensures CallbackRank(CallbackAdvanced(s).callback) < CallbackRank(s.callback)
  {
    hide InRange, SameWord;
  }

  /** The callback run to its end. */
  function CallbackDone(s: State): State
    decreases CallbackRank(s.callback)
  {
    if s.callback.Quiet? then s
    else
      CallbackEnds(s);
      CallbackDone(CallbackAdvanced(s))
  }

  lemma CallbackUnfolds(s: State)
    requires !s.callback.Quiet?
    ensures CallbackDone(s) == CallbackDone(CallbackAdvanced(s))
  {
    hide CallbackAdvanced, CallbackRank;
  }

  lemma QuietIsDone(s: State)
    requires s.callback.Quiet?
    ensures CallbackDone(s) == s
  {
  }

  lemma SwapDone(s: State, n: nat, ok: bool)
    requires s.callback == SwapTracked(n, ok)
    ensures CallbackDone(s)
            == s.(callback := Quiet, tracked := if s.tracked.state == Waiting
                                                   && s.tracked.number % 0x4000_0000 == n % 0x4000_0000
                                                then Tracked(n, if ok then Delivered else Failed) else s.tracked)
  {
    CallbackUnfolds(s);
    QuietIsDone(CallbackAdvanced(s));
    hide CallbackDone;
  }

  /**
   Uninterrupted, a callback takes the next number; if it is an acknowledgement within the range of a pending
   probe it is recorded, and if a frame of that number is waited for it gets the report.
   */
  lemma CallbackWhole(s: State, ok: bool)
    requires s.callback.Quiet?
    ensures var n := s.completed + 1;
            var inProbe := Since(At(n), At(s.first)) <= Since(At(s.last), At(s.first));
            var waited := s.tracked.state == Waiting && s.tracked.number % 0x4000_0000 == n % 0x4000_0000;
            CallbackDone(Numbered(s, ok))
            == s.(completed := n, ack := if ok && s.pending && inProbe then n else s.ack,
                  tracked := if waited then Tracked(n, if ok then Delivered else Failed) else s.tracked)
  {
    var n, t := s.completed + 1, Numbered(s, ok);
    hide CallbackDone, At, Since;
    if ok {
      CallbackUnfolds(t);
      if s.pending {
        var u := t.(callback := LoadFirst(n));
        var v := t.(callback := LoadLast(n, s.first));
        CallbackUnfolds(u);
        CallbackUnfolds(v);
        if InRange(n, s.first, s.last) {
          var w := t.(callback := StoreAck(n));
          CallbackUnfolds(w);
          SwapDone(t.(ack := n, callback := SwapTracked(n, true)), n, true);
        } else {
          SwapDone(t.(callback := SwapTracked(n, true)), n, true);
        }
      } else {
        SwapDone(t.(callback := SwapTracked(n, true)), n, true);
      }
    } else {
      SwapDone(t, n, false);
    }
  }

  // ---- The sending task ---------------------------------------------------------------

  function SenderRank(s: State): nat {
    match s.sender
    case Idle => 0
    case Sent(purpose) => if purpose == ForTracking then 4 else 1
    case Probing(Disarmed) => 8
    case Probing(LoadedIssued(_)) => 7
    case Probing(Stray(_)) => 6
    case Probing(NoStray) => 5
    case Probing(SetFirst(_)) => 4
    case Probing(SetLast(_)) => 3
    case Probing(SetAck(_)) => 2
    case Probing(Arm) => 1
    case Probing(Armed) => 0
    case Probing(Ending(_)) => 2
    case Probing(NoneSent) => 1
    case Probing(Close(_)) => 1
    case Tracking(Begun(_)) => 1
    case Tracking(Open) => 0
    case Tracking(End(_)) => 3
    case Tracking(Compare(_, _)) => 2
    case Tracking(Swap(_, _)) => 1
    case Tracking(Take(taken)) => if SameWord(s.tracked, taken) then 1 else 2
    case Reading(SawPending) => 5
    case Reading(HasLast(_)) => 4
    case Reading(AllComplete(_)) => 3
    case Reading(HasAck(_, _)) => 2
    case Reading(HasFirst(_, _, _)) => 1
    case Checking(CountsRead(_, _)) => 7
    case Checking(Behind(_)) => 6
    case Resyncing(Disarm) => 5
    case Resyncing(Load) => 4
    case Resyncing(Store(_)) => 3
    case Resyncing(Read) => 2
    case Resyncing(Fail(_)) => 1
  }

  /** Every call comes to its end, or to where its frames are sent, within eight steps of its own. */
  lemma SenderEnds(s: State)
    requires !MaySend(s.sender)
    ensures SenderRank(Advanced(s)) < SenderRank(s)
  {
    hide At, Since, After, Acking;
  }

  /** The call run to there. */
  function Done(s: State): State
    decreases SenderRank(s)
  {
    if MaySend(s.sender) then s
    else
      SenderEnds(s);
      Done(Advanced(s))
  }

  lemma Unfolds(s: State)
    requires !MaySend(s.sender)
    ensures Done(s) == Done(Advanced(s))
  {
    hide Advanced, SenderRank, MaySend;
  }

  lemma IsDone(s: State)
    requires MaySend(s.sender)
    ensures Done(s) == s
  {
  }

  /**
   begin_probe: completions beyond the sends are dropped, and the probe's range is open from the next send on,
   with no acknowledgement in it.
   */
  lemma BeginProbeWhole(s: State)
    requires s.sender.Idle?
    ensures var t := Done(Began(s, BeginProbe));
            && t.sender == Probing(Armed) && t.pending && t.first == s.issued + 1
            && t.last == t.first + 0x7FFF_FFFF && t.ack == s.issued
            && t.completed == (if After(At(s.completed), At(s.issued)) then s.issued else s.completed)
            && t.issued == s.issued && t.tracked == s.tracked && t.callback == s.callback && t.probeFrames == {}
  {
    hide Done, At, Since, After, Recounted;
    var a := Began(s, BeginProbe);
    var b := Advanced(a);
    Unfolds(a);
    Unfolds(b);
    var c := Advanced(b);
    if After(At(s.completed), At(s.issued)) {
      Unfolds(c);
      RecountedIs(c, s.issued);
      ProbeOpens(Advanced(c));
    } else {
      ProbeOpens(c);
    }
  }

  lemma RecountedIs(s: State, issued: nat)
    ensures Recounted(s, issued) == s.(completed := issued, radio := Recounted(s, issued).radio)
  {
  }

  lemma ProbeOpens(s: State)
    requires s.sender == Probing(NoStray)
    ensures Done(s) == s.(first := s.issued + 1, last := s.issued + 1 + 0x7FFF_FFFF, ack := s.issued, pending := true,
                          sender := Probing(Armed))
  {
    hide Done;
    var first := s.issued + 1;
    var a := s.(sender := Probing(SetFirst(first)));
    var b := s.(first := first, sender := Probing(SetLast(first)));
    var c := b.(last := first + 0x7FFF_FFFF, sender := Probing(SetAck(first)));
    var d := c.(ack := first - 1, sender := Probing(Arm));
    Unfolds(s);
    Unfolds(a);
    Unfolds(b);
    Unfolds(c);
    Unfolds(d);
    IsDone(d.(pending := true, sender := Probing(Armed)));
  }

  /** end_probe: the range is closed at the last send, or the probe cleared when nothing was sent for it. */
  lemma EndProbeWhole(s: State)
    requires s.sender == Probing(Armed)
    ensures Done(Began(s, EndProbe))
            == if At(s.issued) == At(s.first - 1) then s.(pending := false, sender := Idle)
               else s.(last := s.issued, sender := Idle)
  {
    hide Done, At;
    var a := Began(s, EndProbe);
    Unfolds(a);
    Unfolds(Advanced(a));
    IsDone(Advanced(Advanced(a)));
  }

  /** begin_tracked: the next send is waited for. */
  lemma BeginTrackedWhole(s: State)
    requires s.sender.Idle?
    ensures Done(Began(s, BeginTracked))
            == s.(tracked := Tracked(s.issued + 1, Waiting), sender := Tracking(Open), frameSent := false,
                  frameLost := false)
  {
    hide Done;
    var a := Began(s, BeginTracked);
    Unfolds(a);
    IsDone(Advanced(a));
  }

  /** end_tracked: a frame that was not accepted is reported failed if it was attempted, and forgotten if not. */
  lemma EndTrackedWhole(s: State, attempted: bool)
    requires s.sender == Tracking(End(attempted))
    ensures var unsent := s.tracked.state == Waiting
                          && (s.issued + 1) % 0x4000_0000 == s.tracked.number % 0x4000_0000;
            Done(s)
            == s.(sender := Idle, tracked := if !unsent then s.tracked
                                             else if attempted then s.tracked.(state := Failed) else NOTHING)
  {
    hide Done;
    var a := s.(sender := Tracking(Compare(attempted, s.tracked)));
    var b := s.(sender := Tracking(Swap(attempted, s.tracked)));
    Unfolds(s);
    if s.tracked.state == Waiting {
      Unfolds(a);
      if (s.issued + 1) % 0x4000_0000 == s.tracked.number % 0x4000_0000 {
        Unfolds(b);
        IsDone(Advanced(b));
      } else {
        IsDone(s.(sender := Idle));
      }
    } else {
      IsDone(s.(sender := Idle));
    }
  }

  /** A report that a callback made after end_tracked looked is kept. */
  lemma ReportIsKept(s: State, attempted: bool, seen: Tracked)
    requires s.sender == Tracking(Swap(attempted, seen)) && seen.state == Waiting
    requires s.tracked.state in {Delivered, Failed}
    ensures Advanced(s) == s.(sender := Idle)
  {
  }

  /** The radio accepted a frame: it is counted, for whatever it was sent. */
  lemma SendWhole(s: State)
    requires MaySend(s.sender)
    ensures var t := SentBy(s, Accepted);
            && t.sender.Sent? && Advanced(t).issued == s.issued + 1 && t.radio.accepted == s.radio.accepted + 1
            && Advanced(t).sender == if s.sender == Tracking(Open) then Tracking(End(true)) else s.sender
    ensures s.sender == Tracking(Open) ==> SentBy(s, Rejected) == s.(sender := Tracking(End(true)))
    ensures s.sender == Tracking(Open) ==> SentBy(s, Throttled) == s.(sender := Tracking(End(false)))
    ensures s.sender != Tracking(Open) ==> SentBy(s, Rejected) == SentBy(s, Throttled) == s
  {
  }

  /** take_tracked: a report is taken once. */
  lemma TakeWhole(s: State)
    requires s.sender.Idle?
    ensures Done(Began(s, TakeTracked)) == if s.tracked.state in {Delivered, Failed} then s.(tracked := NOTHING) else s
    ensures s.tracked.state in {Delivered, Failed} ==> Takes(Began(s, TakeTracked), s.tracked.state)
  {
    hide Done;
    var a := Began(s, TakeTracked);
    if a.sender.Idle? {
      IsDone(a);
    } else {
      Unfolds(a);
      IsDone(Advanced(a));
    }
  }

  /** What status answers: none, pending, or after three more loads acked or failed. */
  lemma StatusWhole(s: State)
    requires s.sender.Idle?
    ensures var a := Began(s, ReadStatus);
            if !s.pending then a == s
            else if After(At(s.last), At(s.completed)) then Advanced(Advanced(a)) == s
            else
              var t := Advanced(Advanced(Advanced(Advanced(a))));
              && t == s.(sender := t.sender) && t.sender.Reading? && t.sender.status.HasFirst?
              && Advanced(t) == s
              && (AnswersAcked(t) <==> Since(At(s.ack), At(s.first)) <= Since(At(s.last), At(s.first)))
  {
    hide At, Since, After, Acking;
  }

  /** clear forgets the probe; a plain send begins with nothing. */
  lemma ClearWhole(s: State)
    ensures Began(s, Clear) == s.(pending := false)
    ensures Began(s, SendPlain) == s
  {
  }

  /** resync: no probe, every send completed, and a frame that was waited for is reported failed. */
  lemma ResyncWhole(s: State)
    requires s.sender == Resyncing(Disarm)
    ensures var t := Done(s);
            && t.sender == Idle && !t.pending && t.completed == t.issued == s.issued && !t.guard.lagging
            && t.tracked == (if s.tracked.state == Waiting then s.tracked.(state := Failed) else s.tracked)
            && t.callback == s.callback
  {
    hide Done, Recounted;
    var a, b := Advanced(s), Advanced(Advanced(s));
    Unfolds(s);
    Unfolds(a);
    Unfolds(b);
    RecountedIs(b, s.issued);
    var c := Advanced(b);
    Unfolds(c);
    if s.tracked.state == Waiting {
      Unfolds(Advanced(c));
      IsDone(Advanced(Advanced(c)));
    } else {
      IsDone(Advanced(c));
    }
  }

  /** A restart of the radio, and a frame given up, both come to that. */
  lemma GivenUpResyncs(s: State)
    ensures GivenUp(s).sender == Resyncing(Disarm)
    ensures GivenUp(s).frameLost == (s.frameLost || s.tracked.state == Waiting)
    ensures s.sender.Idle? ==> Began(s, Restart).sender == Resyncing(Disarm) && Awaiting(Began(s, Restart)) == 0
  {
  }
}
