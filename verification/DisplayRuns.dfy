/**
 The display over whole runs of edits, reports and radio outcomes: how its words are numbered, and when a
 silence of the controller makes it take whatever report comes next.
 */
module DisplayRuns {
  import opened Clock
  import opened CommandWords
  import opened Telemetry
  import opened ThermostatDisplay
  import D = CommandDelivery
  import Division

  // ---- Numbers ------------------------------------------------------------------------

  /** The event hands a word to the radio, whatever the radio makes of it. */
  predicate Transmits(w: D.World, e: D.Event) {
    e.User? || (e.SendPending? && D.AfterTaking(w).d.sending.hasPending)
  }

  /** The words handed over since boot or the last reset. */
  function Words(c: Config, events: seq<D.Event>, n: nat): nat
    requires n <= |events|
  {
    if n == 0 || events[n - 1].Restart? then 0
    else
      Words(c, events, n - 1)
      + if Transmits(D.After(c, D.FreshWorld(c), events, n - 1), events[n - 1]) then 1 else 0
  }

  /** The resets before the `n`-th event. */
  function Restarts(events: seq<D.Event>, n: nat): nat
    requires n <= |events|
  {
    if n == 0 then 0 else Restarts(events, n - 1) + if events[n - 1].Restart? then 1 else 0
  }

  /** The numbers after `words` words in the session that `session` resets lead to. */
  predicate NumberedSo(s: Sending, words: nat, seed: nat, restarts: nat) {
    && s.number == words % 512 && s.session == (seed + restarts) % 31 + 1
    && (s.hasLast <==> words > 0)
    && if words == 0 then s.lastPacked == s.lastNumber == 0
       else s.lastNumber == s.number == Decode(s.lastPacked).number && Decode(s.lastPacked).session == s.session
  }

  lemma TransmittedNumbers(s: Sending, screen: Screen, wanted: CommandOptions.Options, sent: bool, words: nat,
                           seed: nat, restarts: nat)
    requires NumberedSo(s, words, seed, restarts)
    ensures NumberedSo(Transmitted(s, screen, wanted, sent, true), words + 1, seed, restarts)
  {
    SeqCounts(words);
    PackedNumber(s, screen, wanted, sent);
    hide Transmitted, Decode, NextSeq;
  }

  lemma PackedNumber(s: Sending, screen: Screen, wanted: CommandOptions.Options, sent: bool)
    requires s.number < SEQS && s.session < 32
    ensures var t := Transmitted(s, screen, wanted, sent, true);
            && t.number == t.lastNumber == Decode(t.lastPacked).number == NextSeq(s.number) && t.hasLast
            && t.session == Decode(t.lastPacked).session == s.session
  {
    hide Transmitted, Decode, Encode, D.Asks, CommandOptions.Changes, Values, Carried, D.Owing, NextSeq,
         CommandOptions.WordOf;
    D.NextWordCarries(s, screen, wanted, sent);
    WordKeepsNumber(Carried(s, wanted), Values(screen), NextSeq(s.number), s.session);
    CountersOf(s, screen, wanted, sent);
  }

  lemma WordKeepsNumber(o: CommandOptions.Options, v: CommandOptions.Local, number: nat, session: nat)
    ensures var word := CommandOptions.WordOf(o, v, number, session); word.number == number && word.session == session
  {
  }

  lemma CountersOf(s: Sending, screen: Screen, wanted: CommandOptions.Options, sent: bool)
    ensures var t := Transmitted(s, screen, wanted, sent, true);
            t.number == t.lastNumber == NextSeq(s.number) && t.hasLast && t.session == s.session
  {
    hide Encode, Values, Carried, NextSeq;
  }

  lemma RestartNumbers(s: Sending, words: nat, seed: nat, restarts: nat)
    requires NumberedSo(s, words, seed, restarts)
    ensures NumberedSo(Restarted(s), 0, seed, restarts + 1)
  {
    var k := seed + restarts;
    assert NextSession(k % 31 + 1) == (k % 31 + 1) % 31 + 1;
    Division.Shift(k % 31 + 1, 31, k / 31);
    hide Decode;
  }

  lemma StepNumbers(c: Config, w: D.World, e: D.Event, words: nat, restarts: nat)
    requires NumberedSo(w.d.sending, words, c.sessionSeed, restarts)
    ensures NumberedSo(D.Stepped(c, w, e).d.sending,
                       if e.Restart? then 0 else words + if Transmits(w, e) then 1 else 0,
                       c.sessionSeed, restarts + if e.Restart? then 1 else 0)
  {
    hide NumberedSo, Transmitted, At, Since, Followed, Fresh, D.Asks, D.Edited, D.Wanted;
    var s := w.d.sending;
    match e
    case User(edit, _, radio) =>
      Unnumbered(s, s.(retries := 0), words, c.sessionSeed, restarts);
      TransmittedNumbers(s.(retries := 0), D.Edited(w.d.screen, edit), D.Wanted(edit), radio != D.Throttles, words,
                         c.sessionSeed, restarts);
    case SendPending(radio) =>
      var t := Reported(s, w.radio);
      Unnumbered(s, t, words, c.sessionSeed, restarts);
      TransmittedNumbers(t, w.d.screen, t.pending, radio != D.Throttles, words, c.sessionSeed, restarts);
    case Restart => RestartNumbers(s, words, c.sessionSeed, restarts);
    case _ =>
  }

  lemma Unnumbered(s: Sending, t: Sending, words: nat, seed: nat, restarts: nat)
    requires NumberedSo(s, words, seed, restarts)
    requires t.number == s.number && t.session == s.session && t.hasLast == s.hasLast
    requires t.lastPacked == s.lastPacked && t.lastNumber == s.lastNumber
    ensures NumberedSo(t, words, seed, restarts)
  {
  }

  lemma BootNumbers(c: Config)
    ensures NumberedSo(D.FreshWorld(c).d.sending, 0, c.sessionSeed, 0)
  {
    var k := c.sessionSeed % 31;
    Division.Unique(k, 31, 0, k);
  }

  /**
   Over any run the words are numbered 1, 2, 3 and so on in the ring of 512, again from 1 after every reset,
   and the sessions go round 1 to 31 from the one that the seed gives: the word packed last has the last
   number and the session.
   */
  lemma {:induction false} WordsAreNumbered(c: Config, events: seq<D.Event>, n: nat)
    requires n <= |events|
    ensures NumberedSo(D.After(c, D.FreshWorld(c), events, n).d.sending, Words(c, events, n), c.sessionSeed,
                       Restarts(events, n))
  {
    hide NumberedSo, D.Stepped, Transmits, D.FreshWorld;
    if n == 0 {
      BootNumbers(c);
    } else {
      WordsAreNumbered(c, events, n - 1);
      StepNumbers(c, D.After(c, D.FreshWorld(c), events, n - 1), events[n - 1], Words(c, events, n - 1),
                  Restarts(events, n - 1));
    }
  }

  // ---- Silence ------------------------------------------------------------------------

  datatype Beat = NoBeat | Beat(at: nat)

  /** When the controller was last heard, by heartbeat or by another way than the radio. */
  function LastBeat(events: seq<D.Event>, n: nat): Beat
    requires n <= |events|
  {
    if n == 0 then NoBeat
    else match events[n - 1]
         case Heartbeat(at) => Beat(at)
         case Update(at, _, _, _) => Beat(at)
         case _ => LastBeat(events, n - 1)
  }

  /** Heard again at `t`, the controller was silent for the time of a reconnect; a beat at clock 0 counts as none. */
  predicate WasSilent(c: Config, beat: Beat, t: nat) {
    c.reconnectResync != 0 && beat != NoBeat && beat.at % U32 != 0 && (t - beat.at) % U32 >= c.reconnectResync
  }

  /** A report was heard, and no silence ended since. */
  predicate Knows(c: Config, events: seq<D.Event>, n: nat)
    requires n <= |events|
  {
    n > 0
    && match events[n - 1]
       case Hear(_, _) => true
       case Heartbeat(at) => Knows(c, events, n - 1) && !WasSilent(c, LastBeat(events, n - 1), at)
       case Update(at, _, _, _) => Knows(c, events, n - 1) && !WasSilent(c, LastBeat(events, n - 1), at)
       case _ => Knows(c, events, n - 1)
  }

  predicate HeardSo(d: Display, beat: Beat, knows: bool) {
    d.heartbeat == (match beat case NoBeat => 0 case Beat(at) => At(at)) && d.hasNumber == knows
  }

  lemma BeatForgets(c: Config, d: Display, beat: Beat, knows: bool, t: nat)
    requires HeardSo(d, beat, knows)
    ensures HeardSo(WithHeartbeat(c, d, At(t)), Beat(t), knows && !WasSilent(c, beat, t))
  {
    if beat.Beat? {
      ClockApart(t, beat.at);
    }
  }

  lemma StepHears(c: Config, w: D.World, e: D.Event, beat: Beat, knows: bool)
    requires HeardSo(w.d, beat, knows)
    ensures var d := D.Stepped(c, w, e).d;
            match e
            case Hear(_, _) => HeardSo(d, beat, true)
            case Heartbeat(at) => HeardSo(d, Beat(at), knows && !WasSilent(c, beat, at))
            case Update(at, _, _, _) => HeardSo(d, Beat(at), knows && !WasSilent(c, beat, at))
            case _ => HeardSo(d, beat, knows)
  {
    match e
    case Heartbeat(at) => BeatForgets(c, w.d, beat, knows, at);
    case Update(at, mirror, mode, fan) =>
      BeatForgets(c, w.d, beat, knows, at);
      hide WithHeartbeat, WasSilent, At;
    case _ =>
      hide WasSilent, At, Transmitted, Reported, Followed, NewerU16, D.Edited;
  }

  /** The display goes by the numbers of reports exactly while it heard one and no silence ended since. */
  lemma {:induction false} KnowsExactly(c: Config, events: seq<D.Event>, n: nat)
    requires n <= |events|
    ensures HeardSo(D.After(c, D.FreshWorld(c), events, n).d, LastBeat(events, n), Knows(c, events, n))
  {
    hide D.Stepped, HeardSo, WasSilent;
    if n == 0 {
      FreshHeard(c);
    } else {
      KnowsExactly(c, events, n - 1);
      StepHears(c, D.After(c, D.FreshWorld(c), events, n - 1), events[n - 1], LastBeat(events, n - 1),
                Knows(c, events, n - 1));
    }
  }

  lemma FreshHeard(c: Config)
    ensures HeardSo(D.FreshWorld(c).d, NoBeat, false)
  {
  }

  /** Below 2^32 ms a silence is one of true time. */
  lemma SilenceInTime(c: Config, at: nat, t: nat)
    requires at <= t < at + U32 && at % U32 != 0
    ensures WasSilent(c, Beat(at), t) <==> c.reconnectResync != 0 && t - at >= c.reconnectResync
  {
    Division.Unique(t - at, U32, 0, t - at);
  }

  /**
   Over any run a report is taken exactly when it is the first since boot or a silence, or its number is 1 to
   32767 ahead of the last one taken; only then is it mirrored, and any other leaves what is shown alone.
   */
  lemma ReportIsTakenExactly(c: Config, events: seq<D.Event>, n: nat)
    requires n < |events| && events[n].Hear?
    ensures var (d, after, report) := (D.After(c, D.FreshWorld(c), events, n).d,
                                       D.After(c, D.FreshWorld(c), events, n + 1).d, events[n].report);
            if Knows(c, events, n) && !(1 <= (report.number - d.lastNumber) % 0x1_0000 <= 32767) then
              after == d.(ack := AckOwed(d.lastNumber))
            else after.lastNumber == report.number && after.mirror == MirrorOf(report.payload)
                 && after.ack == AckOwed(report.number)
  {
    KnowsExactly(c, events, n);
    hide D.FreshWorld, MirrorOf, Followed, LastBeat, WasSilent;
  }

  /** The controller was heard with its state, by a report or by another way. */
  predicate Told(events: seq<D.Event>, n: nat)
    requires n <= |events|
  {
    n > 0 && (events[n - 1].Hear? || events[n - 1].Update? || Told(events, n - 1))
  }

  lemma StepTells(c: Config, w: D.World, e: D.Event)
    requires w.d.hasNumber ==> w.d.mirror.known
    ensures var d := D.Stepped(c, w, e).d;
            && (d.mirror.known <==> w.d.mirror.known || e.Hear? || e.Update?)
            && (d.hasNumber ==> d.mirror.known)
  {
    hide At, Since, Transmitted, Reported, Followed, NewerU16, D.Edited;
  }

  /** The display says that it knows the controller's state exactly when it was told one since boot. */
  lemma {:induction false} KnownExactly(c: Config, events: seq<D.Event>, n: nat)
    requires n <= |events|
    ensures var d := D.After(c, D.FreshWorld(c), events, n).d;
            (d.mirror.known <==> Told(events, n)) && (d.hasNumber ==> d.mirror.known)
  {
    hide D.Stepped;
    if n > 0 {
      KnownExactly(c, events, n - 1);
      StepTells(c, D.After(c, D.FreshWorld(c), events, n - 1), events[n - 1]);
    }
  }

  /**
   An update by another way than the radio is mirrored whatever its time; within the debounce of an edit it
   leaves what is shown alone, and otherwise the mode and fan mode become those told, and the setpoint too, in
   the bin of its mode, which Off has not.
   */
  lemma UpdateIsMirrored(c: Config, w: D.World, at: nat, m: Mirror, mode: FurnaceMode, fan: FanMode)
    ensures var (s, d) := (w.d.screen, D.Stepped(c, w, D.Update(at, m, mode, fan)).d);
            && d.mirror == Mirror(true, m.state, m.lockout, m.windowsOpen, m.setpoint, m.filterSeconds)
            && d.sending == w.d.sending && d.ack == w.d.ack && d.lastNumber == w.d.lastNumber
            && if Debouncing(c, w.d, At(at)) then d.screen == s
               else d.screen == Screen(mode, fan, if mode == Heat then m.setpoint else s.heat,
                                       if mode == Cool then m.setpoint else s.cool)
  {
    hide At, Since;
  }
}
