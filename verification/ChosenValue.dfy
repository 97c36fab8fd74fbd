/**
 Whether the value that reaches the controller is the one the user chose: what a display shows and
 sends follows telemetry and later edits, and stays what was chosen exactly while none of them
 contradicts it.
 */
module ChosenValue {
  import Clock
  import opened CommandDelivery
  import opened CommandOptions
  import opened CommandWords
  import opened Telemetry
  import opened ThermostatDisplay
  import HvacRuntime

  predicate Chooses(edit: Edit) {
    edit.SetMode? || edit.SetFan? || edit.SetSetpoint?
  }

  function FieldOf(edit: Edit): Field {
    match edit case SetMode(_) => ModeField case SetFan(_) => FanField case _ => SetpointField
  }

  /** The setpoint kept for a mode. */
  function Kept(s: Screen, mode: FurnaceMode): int {
    if mode == Cool then s.cool else s.heat
  }

  predicate Shows(s: Screen, edit: Edit) {
    match edit
    case SetMode(mode) => s.mode == mode
    case SetFan(fan) => s.fan == fan
    case SetSetpoint(setpoint) => Shown(s) == Clamped(setpoint)
    case _ => true
  }

  /** What the controller reports differs from what was chosen; reporting Off, it leaves the heat setpoint shown. */
  predicate Contradicts(s: Screen, edit: Edit, mode: FurnaceMode, fan: FanMode, setpoint: int) {
    match edit
    case SetMode(chosen) => mode != chosen
    case SetFan(chosen) => fan != chosen
    case SetSetpoint(chosen) => (if mode == Heat || mode == Cool then setpoint else s.heat) != Clamped(chosen)
    case _ => false
  }

  /**
   A further edit of the field, the choice of a mode whose setpoint is another, or, once the user has
   stopped setting, news from the controller that says otherwise.
   */
  predicate Disturbs(c: Config, w: World, e: Event, edit: Edit) {
    match e
    case User(SetMode(mode), _, _) =>
      (edit.SetMode? && mode != edit.mode) || (edit.SetSetpoint? && Kept(w.d.screen, mode) != Clamped(edit.setpoint))
    case User(SetFan(fan), _, _) => edit.SetFan? && fan != edit.fan
    case User(SetSetpoint(setpoint), _, _) => edit.SetSetpoint? && Clamped(setpoint) != Clamped(edit.setpoint)
    case Hear(at, report) =>
      && Fresh(w.d, report.number) && !Debouncing(c, w.d, Clock.At(at))
      && Contradicts(w.d.screen, edit, ModeOfCode(report.payload.modeCode), FanOfCode(report.payload.fanCode),
                     report.payload.setpoint)
    case Update(at, mirror, mode, fan) =>
      !Debouncing(c, w.d, Clock.At(at)) && Contradicts(w.d.screen, edit, mode, fan, mirror.setpoint)
    case _ => false
  }

  // ---- What is shown ------------------------------------------------------------------

  lemma EditShows(c: Config, w: World, e: Event)
    requires e.User? && Chooses(e.edit)
    ensures Shows(Stepped(c, w, e).d.screen, e.edit)
  {
    hide Requested, ReportOf, Clock.At, Wanted, Changes;
  }

  lemma NewsShows(c: Config, w: World, e: Event, edit: Edit)
    requires Chooses(edit) && Shows(w.d.screen, edit) && (e.Hear? || e.Update?)
    ensures Shows(Stepped(c, w, e).d.screen, edit) <==> !Disturbs(c, w, e, edit)
  {
    hide Clock.At, Clock.Since, Fresh, MirrorOf, AfterEdit, AfterSendPending, Restarted;
  }

  lemma StepShows(c: Config, w: World, e: Event, edit: Edit)
    requires Chooses(edit) && Shows(w.d.screen, edit)
    ensures Shows(Stepped(c, w, e).d.screen, edit) <==> !Disturbs(c, w, e, edit)
  {
    if e.Hear? || e.Update? {
      NewsShows(c, w, e, edit);
    }
    hide Requested, ReportOf, Clock.At, Clock.Since, Wanted, Changes, Reported, Resent, Followed, Fresh, Contradicts,
         Restarted;
  }

  lemma LastStep(c: Config, w: World, events: seq<Event>, n: nat)
    requires 0 < n <= |events|
    ensures After(c, w, events, n) == Stepped(c, After(c, w, events, n - 1), events[n - 1])
  {
    hide Stepped;
  }

  predicate Undisturbed(c: Config, w: World, events: seq<Event>, i: nat, n: nat)
    requires i < n <= |events| && events[i].User?
  {
    forall k :: i < k < n ==> !Disturbs(c, After(c, w, events, k), events[k], events[i].edit)
  }

  predicate ShownAllAlong(c: Config, w: World, events: seq<Event>, i: nat, n: nat)
    requires i < n <= |events| && events[i].User?
  {
    forall k :: i < k <= n ==> Shows(After(c, w, events, k).d.screen, events[i].edit)
  }

  /** What the user chose is shown all along exactly while nothing disturbs it. */
  lemma {:induction false} ChosenIsShownExactly(c: Config, w: World, events: seq<Event>, i: nat, n: nat)
    requires i < n <= |events| && events[i].User? && Chooses(events[i].edit)
    ensures ShownAllAlong(c, w, events, i, n) <==> Undisturbed(c, w, events, i, n)
    decreases n
  {
    hide Stepped, Shows, Disturbs, Chooses;
    var edit := events[i].edit;
    if n == i + 1 {
      EditShows(c, After(c, w, events, i), events[i]);
    } else {
      ChosenIsShownExactly(c, w, events, i, n - 1);
      var before := After(c, w, events, n - 1);
      var after := After(c, w, events, n);
      assert after == Stepped(c, before, events[n - 1]);
      if Shows(before.d.screen, edit) {
        StepShows(c, before, events[n - 1], edit);
      }
      assert ShownAllAlong(c, w, events, i, n) <==>
             ShownAllAlong(c, w, events, i, n - 1) && Shows(after.d.screen, edit);
      assert Undisturbed(c, w, events, i, n)
        <==> Undisturbed(c, w, events, i, n - 1) && !Disturbs(c, before, events[n - 1], edit);
    }
  }

  // ---- What is sent -------------------------------------------------------------------

  /** The word says what was chosen, and is one that the controller obeys as a whole. */
  predicate Carries(packed: nat, edit: Edit) {
    var word := Decode(packed);
    && Normalised(OptionsOf(word))
    && match edit
       case SetMode(mode) => word.mode == mode
       case SetFan(fan) => word.fan == fan
       case SetSetpoint(setpoint) => word.setpoint == Clamped(setpoint)
       case _ => true
  }

  function OptionsOf(word: CommandWord): Options {
    Options(word.syncRequest, word.filterReset, word.preserveMode, word.preserveFan, word.preserveSetpoint)
  }

  /** The last word carries what was chosen, and a report still to come or to be taken is on that word. */
  predicate Sent(w: World, edit: Edit) {
    && Carries(w.d.sending.lastPacked, edit)
    && (w.radio != NoReport ==> w.frame == Asks(w.d.sending.lastPacked))
  }

  lemma CarriedIsWhole(s: Sending, wanted: Options)
    requires Normalised(wanted) || s.hasPending
    ensures Normalised(Carried(s, wanted))
  {
    MergeIsUnion(wanted, s.pending);
    MergeIsUnion(if s.hasPending then Merge(wanted, s.pending) else wanted, s.unconfirmed);
    hide Merge, Normalised, Changes;
  }

  lemma TransmittedCarries(s: Sending, screen: Screen, wanted: Options, sent: bool, edit: Edit)
    requires OnRing(s) && Shows(screen, edit) && (Normalised(wanted) || s.hasPending)
    ensures Carries(Transmitted(s, screen, wanted, sent, true).lastPacked, edit)
  {
    hide Transmitted, Decode, Changes, Carried, Normalised, OnRing, Asks, Owing, NextSeq;
    NextWordCarries(s, screen, wanted, sent);
    CarriedIsWhole(s, wanted);
    var word := NextWord(s, screen, wanted);
    assert OptionsOf(word) == Carried(s, wanted);
  }

  lemma EditSends(w: World, edit: Edit, at: nat, radio: Radio, chosen: Edit)
    requires OnRing(w.d.sending) && Shows(Edited(w.d.screen, edit), chosen)
    ensures Sent(AfterEdit(w, edit, at, radio), chosen)
  {
    TransmittedCarries(w.d.sending.(retries := 0), Edited(w.d.screen, edit), Wanted(edit), radio != Throttles, chosen);
    hide Transmitted, Carries, Asks, Changes, Edited, Clock.At, Shows, OnRing;
  }

  lemma SendPendingSends(w: World, radio: Radio, edit: Edit)
    requires OnRing(w.d.sending) && Shows(w.d.screen, edit) && Sent(w, edit)
    ensures Sent(AfterSendPending(w, radio), edit)
  {
    var s := AfterTaking(w).d.sending;
    if s.hasPending {
      TransmittedCarries(s, w.d.screen, s.pending, radio != Throttles, edit);
    }
    hide Transmitted, Carries, Asks, Changes, Shows, Merge;
  }

  lemma StepSends(c: Config, w: World, e: Event, edit: Edit)
    requires Inv(w) && Sent(w, edit) && !e.Restart?
    requires Shows(w.d.screen, edit) && Shows(Stepped(c, w, e).d.screen, edit)
    ensures Sent(Stepped(c, w, e), edit)
  {
    assert OnRing(w.d.sending);
    hide Inv, OnRing;
    match e
    case User(other, at, radio) =>
      EditSends(w, other, at, radio, edit);
    case SendPending(radio) =>
      SendPendingSends(w, radio, edit);
    case _ =>
      hide AfterEdit, AfterSendPending, Carries, Asks, Shows, Clock.At, Clock.Since, Followed, Fresh;
  }

  predicate NoRestart(events: seq<Event>, i: nat, n: nat)
    requires n <= |events|
  {
    forall k :: i < k < n ==> !events[k].Restart?
  }

  /**
   Over any run: from the user's choice on, while nothing disturbs it, it is shown, and the last word,
   held back or sent, new or again, carries it.
   */
  lemma {:induction false} ChosenIsSent(c: Config, w: World, events: seq<Event>, i: nat, n: nat)
    requires w == FreshWorld(c)
    requires i < n <= |events| && events[i].User? && Chooses(events[i].edit)
    requires Undisturbed(c, w, events, i, n) && NoRestart(events, i, n)
    ensures var v := After(c, w, events, n); Shows(v.d.screen, events[i].edit) && Sent(v, events[i].edit)
    decreases n
  {
    hide Stepped, After, Disturbs, Inv, Sent, Shows, Chooses, FreshWorld;
    var edit, before := events[i].edit, After(c, w, events, n - 1);
    LastStep(c, w, events, n);
    ChosenIsShownExactly(c, w, events, i, n);
    RunKeepsInv(c, events, n - 1);
    if n == i + 1 {
      EditSendsStep(c, before, events[i]);
    } else {
      ChosenIsSent(c, w, events, i, n - 1);
      StepSends(c, before, events[n - 1], edit);
    }
  }

  lemma EditSendsStep(c: Config, w: World, e: Event)
    requires e.User? && Chooses(e.edit) && Inv(w)
    ensures Sent(Stepped(c, w, e), e.edit)
  {
    EditShows(c, w, e);
    assert OnRing(w.d.sending);
    hide Inv, Sent, Shows, OnRing, Edited, Requested, Clock.At, Handed, Changes, Wanted;
    EditSends(w, e.edit, e.at, e.radio, e.edit);
  }

  // ---- What is delivered --------------------------------------------------------------

  /**
   The event ends what is owed: it takes the report that a word which asks for the field was
   delivered, or that the last retry failed.
   */
  predicate Settles(w: World, e: Event, field: Field) {
    && e.SendPending?
    && ((w.radio == Delivered && field in Asks(w.d.sending.lastPacked)) ||
        (w.radio == Failed && w.failures == MAX_RETRIES))
  }

  lemma StepOwes(c: Config, w: World, e: Event, edit: Edit, field: Field)
    requires Sent(w, edit) && field in w.owed && !e.Restart? && !Settles(w, e, field)
    ensures field in Stepped(c, w, e).owed
  {
    hide Asks, Carries, Changes, Clock.At, Clock.Since, Followed, Fresh, Transmitted, Reported, Edited, Wanted;
  }

  lemma EditOwes(c: Config, w: World, e: Event)
    requires e.User? && Chooses(e.edit)
    ensures FieldOf(e.edit) in Stepped(c, w, e).owed
  {
    assert FieldOf(e.edit) in Changes(Wanted(e.edit));
    hide Changes, Wanted, Requested, Edited, Clock.At, Asks;
  }

  /**
   Over any run: an undisturbed choice is owed until a word that asks for its field and carries the
   value chosen has been reported delivered, or the last retry has failed.
   */
  lemma {:induction false} ChosenIsDelivered(c: Config, w: World, events: seq<Event>, i: nat, n: nat)
    requires w == FreshWorld(c)
    requires i < n <= |events| && events[i].User? && Chooses(events[i].edit)
    requires Undisturbed(c, w, events, i, n) && NoRestart(events, i, n)
    ensures
      || FieldOf(events[i].edit) in After(c, w, events, n).owed
      || exists k :: i < k < n
           && Settles(After(c, w, events, k), events[k], FieldOf(events[i].edit))
           && Carries(After(c, w, events, k).d.sending.lastPacked, events[i].edit)
    decreases n
  {
    hide Stepped, After, Disturbs, Carries, Shows, Settles, Chooses, FreshWorld, Asks, FieldOf;
    var edit, before := events[i].edit, After(c, w, events, n - 1);
    LastStep(c, w, events, n);
    if n == i + 1 {
      EditOwes(c, before, events[i]);
    } else {
      ChosenIsSent(c, w, events, i, n - 1);
      ChosenIsDelivered(c, w, events, i, n - 1);
      assert Carries(before.d.sending.lastPacked, edit);
      if FieldOf(edit) in before.owed && !Settles(before, events[n - 1], FieldOf(edit)) {
        StepOwes(c, before, events[n - 1], edit, FieldOf(edit));
      }
    }
  }

  function Distance(a: int, b: int): nat {
    if a < b then b - a else a - b
  }

  /** The setpoint chosen is the one from 0.0 to 40.0 degrees that is nearest to what was asked for. */
  lemma ClampedIsNearest(setpoint: int, other: nat)
    requires other <= 400
    ensures Clamped(setpoint) <= 400 && Distance(Clamped(setpoint), setpoint) <= Distance(other, setpoint)
  {
  }

  /** The controller has the value chosen; the setpoint only in the bin of its mode, which Off has not. */
  predicate Obeys(r: HvacRuntime.Runtime, edit: Edit) {
    match edit
    case SetMode(mode) => r.settings.mode == mode
    case SetFan(fan) => r.settings.fan == fan
    case SetSetpoint(setpoint) =>
      && (r.settings.mode == Heat ==> r.settings.heatSetpoint == Clamped(setpoint))
      && (r.settings.mode == Cool ==> r.settings.coolSetpoint == Clamped(setpoint))
    case _ => true
  }

  /** A controller that accepts a word which asks for the field and carries the value chosen has that value. */
  lemma AcceptedIsObeyed(r: HvacRuntime.Runtime, packed: nat, mac: seq<bv8>, edit: Edit)
    requires Chooses(edit) && Carries(packed, edit) && FieldOf(edit) in Asks(packed)
    ensures var (after, verdict) := HvacRuntime.Commanded(r, Decode(packed), mac);
            verdict.accepted ==> Obeys(after, edit)
  {
    var word := Decode(packed);
    var o, v := OptionsOf(word), Local(word.mode, word.fan, word.setpoint);
    assert WordOf(o, v, word.number, word.session) == word;
    AcceptedSets(r, o, v, word.number, word.session, mac);
    hide HvacRuntime.Commanded, Decode, Changes, Normalised;
  }

  // ---- What does get lost -------------------------------------------------------------

  /**
   Owed values are safe from telemetry exactly while the user is setting them: a fresh report after
   that overwrites what is shown, and the next word carries the controller's value instead.
   */
  lemma TelemetryOverwrites(c: Config, d: Display, now: Clock.u32, number: u16)
    ensures (forall p: Payload :: WithReport(c, d, now, Report(number, p)).screen == d.screen)
      <==> !Fresh(d, number) || Debouncing(c, d, now)
  {
    if Fresh(d, number) && !Debouncing(c, d, now) {
      var code := if d.screen.mode == Heat then 0 else 1;
      var p := Payload(ErrorState, 0, false, code, 0, 0, false);
      assert WithReport(c, d, now, Report(number, p)).screen.mode != d.screen.mode;
    }
  }

  /**
   A setpoint set and not yet reported delivered when the mode changes: the next word asks for a
   setpoint, and carries the one chosen exactly when the new mode shares its bin or keeps the same.
   */
  lemma SetpointStaysBehind(s: Sending, screen: Screen, setpoint: int, mode: FurnaceMode, first: bool, second: bool)
    requires OnRing(s)
    ensures var chosen := WithSetpoint(screen, setpoint);
            var before := Requested(s, chosen, SETPOINT_CHANGE, first, true);
            var word := Decode(Requested(before, chosen.(mode := mode), MODE_CHANGE, second, true).lastPacked);
            && !word.preserveSetpoint && !word.preserveMode && word.mode == mode
            && word.setpoint == Clamped(Kept(chosen, mode))
            && (word.setpoint == Clamped(setpoint) <==>
                  (mode == Cool <==> screen.mode == Cool) || Clamped(Kept(screen, mode)) == Clamped(setpoint))
  {
    var chosen := WithSetpoint(screen, setpoint);
    var before := Requested(s, chosen, SETPOINT_CHANGE, first, true);
    TransmitOwing(s.(retries := 0), chosen, SETPOINT_CHANGE, first);
    NextWordCarries(before.(retries := 0), chosen.(mode := mode), MODE_CHANGE, second);
    assert SetpointField in Changes(SETPOINT_CHANGE) && ModeField in Changes(MODE_CHANGE);
    hide Encode, Decode, Merge, Transmitted;
    assert SetpointField in Owing(before);
    var o := Carried(before.(retries := 0), MODE_CHANGE);
    assert SetpointField in Changes(o) && ModeField in Changes(o);
  }
}
