/**
 No change the user makes on the display is lost: against a radio that holds frames back, rejects
 them, loses them or delivers them, every changed field goes with each further word until a frame
 with it is reported delivered, or the retries of the last command are used up.
 */
module CommandDelivery {
  import opened Clock
  import opened CommandWords
  import opened CommandOptions
  import opened Telemetry
  import opened ThermostatDisplay
  import HvacRuntime

  /** What the user does. */
  datatype Edit =
    | SetMode(mode: FurnaceMode)
    | SetFan(fan: FanMode)
    | SetSetpoint(setpoint: int)
    | AskSync
    | AskFilterReset

  /** What the radio does with a frame: hold it back, reject it, or take it and report later. */
  datatype Radio = Throttles | Rejects | Accepts

  datatype Event =
    | User(edit: Edit, at: nat, radio: Radio)
    | SendPending(radio: Radio)
    | Callback(ok: bool)                                  // or the frame is given up as lost
    | Restart                                             // reset_local_command_sequence
    | Hear(at: nat, report: Report)
    | Heartbeat(at: nat)
    | Update(at: nat, mirror: Mirror, mode: FurnaceMode, fan: FanMode)

  /**
   The display, the radio's report on the latest command frame, and history: the fields that frame
   asks to change, the fields changed by the user and not reported delivered since, and, since the
   last command, the frames attempted and those reported failed.
   */
  datatype World = World(
    d: Display, radio: Delivery, frame: set<Field>, owed: set<Field>, attempts: nat, failures: nat)

  function Wanted(edit: Edit): Options {
    match edit
    case SetMode(_) => MODE_CHANGE
    case SetFan(_) => FAN_CHANGE
    case SetSetpoint(_) => SETPOINT_CHANGE
    case AskSync => SYNC
    case AskFilterReset => FILTER_RESET
  }

  function Edited(s: Screen, edit: Edit): Screen {
    match edit
    case SetMode(mode) => s.(mode := mode)
    case SetFan(fan) => s.(fan := fan)
    case SetSetpoint(setpoint) => WithSetpoint(s, setpoint)
    case _ => s
  }

  /** The fields a packed word asks the controller to change. */
  function Asks(packed: nat): set<Field> {
    var w := Decode(packed);
    Changes(Options(w.syncRequest, w.filterReset, w.preserveMode, w.preserveFan, w.preserveSetpoint))
  }

  function ReportOf(radio: Radio): Delivery {
    match radio case Throttles => NoReport case Rejects => Failed case Accepts => InFlight
  }

  /** A word is handed to the radio; a frame held back is not tracked, and neither is the one before. */
  function Handed(w: World, s: Sending, radio: Radio): World {
    var v := w.(d := w.d.(sending := s), radio := ReportOf(radio));
    if radio == Throttles then v else v.(frame := Asks(s.lastPacked), attempts := w.attempts + 1)
  }

  function AfterEdit(w: World, edit: Edit, at: nat, radio: Radio): World {
    var screen := Edited(w.d.screen, edit);
    var v := w.(d := w.d.(screen := screen, interaction := At(at)), owed := w.owed + Changes(Wanted(edit)),
                attempts := 0, failures := 0);
    Handed(v, Requested(w.d.sending, screen, Wanted(edit), radio != Throttles, true), radio)
  }

  /** The report is taken, and taken once; a delivered frame's fields are owed no more. */
  function AfterTaking(w: World): World {
    var v := w.(d := w.d.(sending := Reported(w.d.sending, w.radio)),
                radio := if w.radio == InFlight then InFlight else NoReport);
    match w.radio
    case Delivered => v.(owed := w.owed - w.frame)
    case Failed => v.(failures := w.failures + 1, owed := if w.failures == MAX_RETRIES then {} else w.owed)
    case _ => v
  }

  function AfterSendPending(w: World, radio: Radio): World {
    var (v, s) := (AfterTaking(w), Resent(w.d.sending, w.d.screen, w.radio, radio != Throttles, true));
    if v.d.sending.hasPending then Handed(v, s, radio) else v.(d := w.d.(sending := s))
  }

  function Stepped(c: Config, w: World, e: Event): World {
    match e
    case User(edit, at, radio) => AfterEdit(w, edit, at, radio)
    case SendPending(radio) => AfterSendPending(w, radio)
    case Callback(ok) => if w.radio == InFlight then w.(radio := if ok then Delivered else Failed) else w
    case Restart =>
      w.(d := w.d.(sending := Restarted(w.d.sending)), frame := {}, owed := {}, attempts := 0, failures := 0)
    case Hear(at, report) => w.(d := WithReport(c, w.d, At(at), report))
    case Heartbeat(at) => w.(d := WithHeartbeat(c, w.d, At(at)))
    case Update(at, mirror, mode, fan) => w.(d := WithUpdate(c, w.d, At(at), mirror, mode, fan))
  }

  function After(c: Config, w: World, events: seq<Event>, n: nat): World
    requires n <= |events|
  {
    if n == 0 then w else Stepped(c, After(c, w, events, n - 1), events[n - 1])
  }

  function FreshWorld(c: Config): World {
    World(ThermostatDisplay.Initial(c), NoReport, {}, {}, 0, 0)
  }

  // ---- What every step keeps ----------------------------------------------------------

  /** The fields that the display means to send again. */
  function Owing(s: Sending): set<Field> {
    (if s.hasPending then Changes(s.pending) else {}) + (if s.hasUnconfirmed then Changes(s.unconfirmed) else {})
  }

  predicate OnRing(s: Sending) {
    s.number < SEQS && s.session < 32
  }

  predicate Inv(w: World) {
    var s := w.d.sending;
    && OnRing(s)
    && w.owed == Owing(s)
    && (w.radio != NoReport ==>
        !s.hasPending && if s.hasUnconfirmed then w.frame == Changes(s.unconfirmed) else w.owed == {})
    && (w.radio == NoReport && s.hasUnconfirmed ==> s.hasPending && Changes(s.unconfirmed) <= Changes(s.pending))
    && (s.hasPending || s.hasUnconfirmed ==> w.failures == s.retries)
    && s.retries <= MAX_RETRIES
    && w.attempts <= s.retries + if s.hasPending then 0 else 1
  }

  /** The next word asks for everything wanted and everything owing, with the values shown now. */
  lemma NextWordCarries(s: Sending, screen: Screen, wanted: Options, sent: bool)
    requires OnRing(s)
    ensures var t := Transmitted(s, screen, wanted, sent, true);
            && Changes(Carried(s, wanted)) == Changes(wanted) + Owing(s)
            && Asks(t.lastPacked) == Changes(wanted) + Owing(s)
            && Decode(t.lastPacked) == NextWord(s, screen, wanted) && OnRing(t)
  {
    if s.hasPending {
      MergeIsUnion(wanted, s.pending);
      if s.hasUnconfirmed {
        MergeIsUnion(Merge(wanted, s.pending), s.unconfirmed);
      }
    } else if s.hasUnconfirmed {
      MergeIsUnion(wanted, s.unconfirmed);
    }
    hide Changes, Merge, Encode, Decode;
    WordRoundTrip(NextWord(s, screen, wanted));
  }

  lemma TransmitOwing(s: Sending, screen: Screen, wanted: Options, sent: bool)
    requires OnRing(s)
    ensures var t := Transmitted(s, screen, wanted, sent, true);
            && OnRing(t) && t.retries == s.retries
            && (if sent then !t.hasPending && t.hasUnconfirmed && Changes(t.unconfirmed) == Changes(wanted) + Owing(s)
                else t.hasPending && Changes(t.pending) == Changes(wanted) + Owing(s)
                     && t.hasUnconfirmed == s.hasUnconfirmed && t.unconfirmed == s.unconfirmed)
  {
    NextWordCarries(s, screen, wanted, sent);
    hide Changes, Merge, Encode, Decode, Values, Carried, Owing;
  }

  lemma HandedKeeps(w: World, s: Sending, screen: Screen, wanted: Options, radio: Radio)
    requires OnRing(s) && s.retries <= MAX_RETRIES && w.attempts <= s.retries && w.failures == s.retries
    requires w.owed == Changes(wanted) + Owing(s)
    ensures Inv(Handed(w, Transmitted(s, screen, wanted, radio != Throttles, true), radio))
  {
    TransmitOwing(s, screen, wanted, radio != Throttles);
    NextWordCarries(s, screen, wanted, radio != Throttles);
    hide Changes, Asks, Transmitted, OnRing, Carried;
  }

  lemma EditKeeps(w: World, edit: Edit, at: nat, radio: Radio)
    requires Inv(w)
    ensures Inv(AfterEdit(w, edit, at, radio))
  {
    hide Changes, Transmitted, Handed, Edited, Wanted, At;
    var screen := Edited(w.d.screen, edit);
    var v := w.(d := w.d.(screen := screen, interaction := At(at)), owed := w.owed + Changes(Wanted(edit)),
                attempts := 0, failures := 0);
    var s := w.d.sending.(retries := 0);
    assert Owing(s) == Owing(w.d.sending);
    HandedKeeps(v, s, screen, Wanted(edit), radio);
  }

  lemma ReportedKeeps(w: World)
    requires Inv(w)
    ensures var v := AfterTaking(w);
            if v.d.sending.hasPending then
              && OnRing(v.d.sending) && v.d.sending.retries <= MAX_RETRIES && v.attempts <= v.d.sending.retries
              && v.failures == v.d.sending.retries && v.owed == Changes(v.d.sending.pending) + Owing(v.d.sending)
            else Inv(v)
  {
    hide Changes, Merge;
  }

  lemma SendPendingKeeps(w: World, radio: Radio)
    requires Inv(w)
    ensures Inv(AfterSendPending(w, radio))
  {
    ReportedKeeps(w);
    var v := AfterTaking(w);
    if v.d.sending.hasPending {
      HandedKeeps(v, v.d.sending, w.d.screen, v.d.sending.pending, radio);
    }
    hide Changes, Handed, Transmitted, Reported, Owing, OnRing;
  }

  lemma StepKeepsInv(c: Config, w: World, e: Event)
    requires Inv(w)
    ensures Inv(Stepped(c, w, e))
  {
    hide AfterEdit, AfterSendPending, Changes, At, Since, Followed, Fresh, NextSession;
    match e
    case User(edit, at, radio) => EditKeeps(w, edit, at, radio);
    case SendPending(radio) => SendPendingKeeps(w, radio);
    case Restart => SessionsDiffer(w.d.sending.session);
    case _ =>
  }

  lemma FreshIsSound(c: Config)
    ensures Inv(FreshWorld(c))
  {
    SessionsDiffer(c.sessionSeed % MAX_SESSION);
  }

  lemma {:induction false} RunKeepsInv(c: Config, events: seq<Event>, n: nat)
    requires n <= |events|
    ensures Inv(After(c, FreshWorld(c), events, n))
  {
    hide Stepped, Inv, FreshWorld;
    if n == 0 {
      FreshIsSound(c);
    } else {
      RunKeepsInv(c, events, n - 1);
      StepKeepsInv(c, After(c, FreshWorld(c), events, n - 1), events[n - 1]);
    }
  }

  // ---- No change is lost --------------------------------------------------------------

  /**
   At every moment of every run the fields owed are exactly those un-preserved in a word waiting to be sent
   again or in one not yet reported; while anything is owed a word is waiting or a report is to come, and
   then the frame to be reported asks for just these; no more than 4 frames are ever attempted.
   */
  lemma NoChangeIsLost(c: Config, events: seq<Event>, n: nat)
    requires n <= |events|
    ensures var w := After(c, FreshWorld(c), events, n);
            && w.owed == Owing(w.d.sending)
            && (w.owed != {} ==> w.d.sending.hasPending || w.radio != NoReport)
            && (w.radio != NoReport ==> w.owed == w.frame || w.owed == {})
            && w.attempts <= 1 + MAX_RETRIES
  {
    RunKeepsInv(c, events, n);
    hide Changes, After;
  }

  /**
   Whatever is sent next, by the user or again, asks for what is owed and for nothing else, with the values
   shown at that moment.
   */
  lemma NextWordCarriesOwed(c: Config, events: seq<Event>, n: nat)
    requires n < |events|
    ensures var (w, v, e) := (After(c, FreshWorld(c), events, n), After(c, FreshWorld(c), events, n + 1), events[n]);
            var word := Decode(v.d.sending.lastPacked);
            && (e.User? ==> Asks(v.d.sending.lastPacked) == w.owed + Changes(Wanted(e.edit)))
            && (e.SendPending? && v.d.sending.number != w.d.sending.number ==> Asks(v.d.sending.lastPacked) == v.owed)
            && (v.d.sending.number != w.d.sending.number && !e.Restart? ==>
                  Local(word.mode, word.fan, word.setpoint) == Values(v.d.screen))
  {
    hide Changes, Asks, Edited, Wanted, At, Since, Followed, Fresh, NextSession, Encode, Decode, Values;
    var (w, e) := (After(c, FreshWorld(c), events, n), events[n]);
    RunKeepsInv(c, events, n);
    match e
    case User(edit, at, radio) =>
      NextWordCarries(w.d.sending.(retries := 0), Edited(w.d.screen, edit), Wanted(edit), radio != Throttles);
    case SendPending(radio) =>
      ReportedKeeps(w);
      var s := AfterTaking(w).d.sending;
      NextWordCarries(s, w.d.screen, s.pending, radio != Throttles);
    case _ =>
  }

  // ---- What the controller makes of it ------------------------------------------------

  lemma CarriedIsNormalised(s: Sending, wanted: Options)
    requires Normalised(wanted)
    ensures Normalised(Carried(s, wanted))
  {
    if s.hasPending {
      MergeIsUnion(wanted, s.pending);
    }
    MergeIsUnion(if s.hasPending then Merge(wanted, s.pending) else wanted, s.unconfirmed);
    hide Changes, Merge, Normalised;
  }

  /** Of the fields given, and only of those, `after` has the values `v`; a setpoint is that of the mode then. */
  predicate Sets(r: HvacRuntime.Runtime, after: HvacRuntime.Runtime, fields: set<Field>, v: Local) {
    && after.settings.mode == (if ModeField in fields then v.mode else r.settings.mode)
    && after.settings.fan == (if FanField in fields then v.fan else r.settings.fan)
    && after.settings.heatSetpoint
       == (if SetpointField in fields && after.settings.mode == Heat then v.setpoint else r.settings.heatSetpoint)
    && after.settings.coolSetpoint
       == (if SetpointField in fields && after.settings.mode == Cool then v.setpoint else r.settings.coolSetpoint)
    && after.minutes.filterSeconds == (if FilterField in fields then 0 else r.minutes.filterSeconds)
  }

  /** A word that the controller accepts sets the fields wanted and owing to what the display shows, and no others. */
  lemma ControllerGetsWhatIsShown(r: HvacRuntime.Runtime, s: Sending, screen: Screen, wanted: Options, sent: bool,
                                  mac: seq<bv8>)
    requires OnRing(s) && Normalised(wanted)
    ensures var word := Decode(Transmitted(s, screen, wanted, sent, true).lastPacked);
            var (after, verdict) := HvacRuntime.Commanded(r, word, mac);
            verdict.accepted ==> Sets(r, after, Changes(wanted) + Owing(s), Values(screen))
  {
    NextWordCarries(s, screen, wanted, sent);
    CarriedIsNormalised(s, wanted);
    AcceptedSets(r, Carried(s, wanted), Values(screen), NextSeq(s.number), s.session, mac);
    hide Transmitted, Decode, Changes, Carried, Owing, Sets, Asks, Values, NextSeq, WordOf, HvacRuntime.Commanded;
  }

  lemma AcceptedSets(r: HvacRuntime.Runtime, o: Options, v: Local, number: nat, session: nat, mac: seq<bv8>)
    requires Normalised(o)
    ensures var (after, verdict) := HvacRuntime.Commanded(r, WordOf(o, v, number, session), mac);
            verdict.accepted ==> Sets(r, after, Changes(o), v)
  {
    var word := WordOf(o, v, number, session);
    var (tracking, accepted) := HvacRuntime.Checked(r.tracking, word, mac);
    AcceptedIsExecuted(r, word, mac);
    WordSets(r.(tracking := tracking), o, v, number, session);
    hide Executed, Changes, WordOf, HvacRuntime.Checked, HvacRuntime.Applied;
  }

  lemma WordSets(r: HvacRuntime.Runtime, o: Options, v: Local, number: nat, session: nat)
    requires Normalised(o)
    ensures Sets(r, Executed(r, WordOf(o, v, number, session)), Changes(o), v)
  {
    assert ModeField in Changes(o) <==> !o.preserveMode;
    assert FanField in Changes(o) <==> !o.preserveFan;
    assert SetpointField in Changes(o) <==> !o.preserveSetpoint;
    assert FilterField in Changes(o) <==> o.filterReset;
    hide Changes;
  }
}
