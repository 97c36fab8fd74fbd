/**
 The acknowledgement a display owes, shared between the task that hears telemetry and the loop that
 sends: every exchange, store and compare-exchange of `pending_ack_` is a step of its own.
 */
module AckRelay {
  import opened Telemetry
  import opened ThermostatDisplay

  /** Where the loop stands in send_pending_ack, with the word it took. */
  datatype Loop = Ready | Taken(word: Ack) | Refused(word: Ack)

  /** `latest` is the word stored last, and `answered` whether one with its number was sent since. */
  datatype State = State(pending: Ack, loop: Loop, latest: Ack, answered: bool)

  datatype Step = Hear(number: u16) | Exchange | Publish(sent: bool) | PutBack

  const START := State(NoAck, Ready, NoAck, false)

  predicate Enabled(s: State, step: Step) {
    match step
    case Hear(_) => true
    case Exchange => s.loop.Ready?
    case Publish(_) => s.loop.Taken?
    case PutBack => s.loop.Refused?
  }

  function Next(s: State, step: Step): State
    requires Enabled(s, step)
  {
    match step
    case Hear(number) => s.(pending := AckOwed(number), latest := AckOwed(number), answered := false)
    case Exchange => if s.pending == NoAck then s else s.(pending := NoAck, loop := Taken(s.pending))
    case Publish(sent) =>
      if sent then s.(loop := Ready, answered := s.answered || s.loop.word == s.latest)
      else s.(loop := Refused(s.loop.word))
    case PutBack => s.(loop := Ready, pending := if s.pending == NoAck then s.loop.word else s.pending)
  }

  predicate Run(s: State, steps: seq<Step>)
    decreases |steps|
  {
    steps == [] || (Enabled(s, steps[0]) && Run(Next(s, steps[0]), steps[1..]))
  }

  function End(s: State, steps: seq<Step>): State
    requires Run(s, steps)
    decreases |steps|
  {
    if steps == [] then s else End(Next(s, steps[0]), steps[1..])
  }

  predicate Holds(loop: Loop, word: Ack) {
    !loop.Ready? && loop.word == word
  }

  /** Only the latest is ever pending, and until it is answered it is pending or in the loop's hands. */
  predicate Inv(s: State) {
    && s.pending in {NoAck, s.latest}
    && (!s.loop.Ready? ==> s.latest != NoAck && (s.loop.word == s.latest || s.pending == s.latest))
    && (s.latest != NoAck && !s.answered ==> s.pending == s.latest || Holds(s.loop, s.latest))
  }

  lemma {:induction false} OnlyLatestIsOwed(s: State, steps: seq<Step>)
    requires Run(s, steps) && Inv(s)
    ensures Inv(End(s, steps))
    decreases |steps|
  {
    if steps != [] {
      OnlyLatestIsOwed(Next(s, steps[0]), steps[1..]);
    }
  }

  /**
   In every interleaving only the latest number is ever owed, and whenever the loop is between calls
   the latest is still owed unless an acknowledgement for it was sent since it was heard.
   */
  lemma NoAckIsLost(steps: seq<Step>)
    requires Run(START, steps)
    ensures var s := End(START, steps);
            && s.pending in {NoAck, s.latest}
            && (s.loop.Ready? && s.latest != NoAck && !s.answered ==> s.pending == s.latest)
  {
    OnlyLatestIsOwed(START, steps);
  }

  /** What is heard is owed at once, whatever was before. */
  lemma HeardIsOwed(s: State, number: u16)
    ensures Enabled(s, Hear(number))
    ensures var t := Next(s, Hear(number));
            t.pending == t.latest == AckOwed(number) && !t.answered && t.loop == s.loop
  {
  }

  /**
   A call of the loop ends, and does what it is for: it answers the latest number, or leaves it owed when the
   frame is held back, and does nothing when none is owed.
   */
  lemma CallAnswers(s: State)
    requires Inv(s) && s.loop.Ready?
    ensures s.pending == NoAck ==> Run(s, [Exchange]) && End(s, [Exchange]) == s
    ensures s.pending != NoAck ==> Run(s, [Exchange, Publish(true)]) && Run(s, [Exchange, Publish(false), PutBack])
    ensures s.pending != NoAck ==> Next(s, Exchange).loop == Taken(s.latest)
    ensures s.pending != NoAck ==> End(s, [Exchange, Publish(true)]) == State(NoAck, Ready, s.latest, true)
    ensures s.pending != NoAck ==> End(s, [Exchange, Publish(false), PutBack]) == s
  {
    var t := Next(s, Exchange);
    OneStep(s, Exchange);
    if s.pending != NoAck {
      var sent, refused := Next(t, Publish(true)), Next(t, Publish(false));
      OneStep(t, Publish(true));
      OneStep(refused, PutBack);
      assert [Exchange, Publish(true)][1..] == [Publish(true)];
      assert [Publish(false), PutBack][1..] == [PutBack];
      assert [Exchange, Publish(false), PutBack][1..] == [Publish(false), PutBack];
      assert Run(t, [Publish(false), PutBack]) && End(t, [Publish(false), PutBack]) == Next(refused, PutBack);
    }
  }

  lemma OneStep(s: State, step: Step)
    requires Enabled(s, step)
    ensures Run(s, [step]) && End(s, [step]) == Next(s, step)
  {
    assert [step][1..] == [];
    hide Enabled, Next;
    assert Run(Next(s, step), []) && End(Next(s, step), []) == Next(s, step);
  }

  /** A number heard while the loop has another in its hands is owed when the call is over, sent or not. */
  lemma NewerIsOwedAfterCall(s: State, number: u16, sent: bool)
    requires s.loop.Taken?
    ensures var t := Next(Next(s, Hear(number)), Publish(sent));
            var u := if sent then t else Next(t, PutBack);
            s.loop.word != AckOwed(number) ==> u == State(AckOwed(number), Ready, AckOwed(number), false)
  {
  }
}
