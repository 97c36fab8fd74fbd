/**
 From the controller's state to a display's mirror of it: what is published last is current, the
 16-bit numbers stand for a count, and a display mirrors the latest report it heard.
 */
module TelemetryMirror {
  import opened Clock
  import opened Telemetry
  import opened ThermostatDisplay
  import Division
  import CommandAcceptance
  import CommandWords
  import H = HvacRuntime
  import P = ControllerPublishing

  // ---- The controller publishes what is current ---------------------------------------

  datatype ControllerEvent =
    | Tick(at: nat)
    | Command(packed: nat, mac: seq<bv8>)
    | SetLockout(locked: bool)
    | SetWindows(open: bool)
    | Read(reading: P.Reading)
    | Beat(at: nat)
    | Acked(number: u16)
    | Forget
    | SetSetpoints(heat: int, cool: int)                   // from settings and MQTT, past the command word
    | SetCirculation(period: u16, duration: u16)

  function Next(c: H.Config, b: P.Bands, a: P.App, e: ControllerEvent): P.App {
    match e
    case Tick(at) => P.TickedApp(c, b, a, At(at))
    case Command(packed, mac) => P.CommandedApp(a, packed, mac)
    case SetLockout(locked) => P.Published(a.(runtime := H.LockedOut(a.runtime, locked)))
    case SetWindows(open) => P.Published(a.(runtime := a.runtime.(windowsOpen := open)))
    case Read(reading) => a.(reading := reading)
    case Beat(at) => a.(runtime := a.runtime.(heartbeat := At(at)))
    case Acked(number) => P.WithAck(a, number)
    case Forget => a.(runtime := H.Forgotten(a.runtime))
    case SetSetpoints(heat, cool) =>
      a.(runtime := a.runtime.(settings := a.runtime.settings.(heatSetpoint := heat, coolSetpoint := cool)))
    case SetCirculation(period, duration) =>
      a.(runtime := a.runtime.(minutes := a.runtime.minutes.(period := period, duration := duration)))
  }

  /** What the event newly publishes. */
  function NewReports(c: H.Config, b: P.Bands, a: P.App, e: ControllerEvent): seq<Report> {
    match e
    case Tick(at) => P.TickHanded(c, b, a, At(at))
    case SetLockout(locked) => P.Handed(a.(runtime := H.LockedOut(a.runtime, locked)))
    case SetWindows(open) => P.Handed(a.(runtime := a.runtime.(windowsOpen := open)))
    case _ => []
  }

  function AppAfter(c: H.Config, b: P.Bands, a: P.App, events: seq<ControllerEvent>, n: nat): P.App
    requires n <= |events|
  {
    if n == 0 then a else Next(c, b, AppAfter(c, b, a, events, n - 1), events[n - 1])
  }

  function Reports(c: H.Config, b: P.Bands, a: P.App, events: seq<ControllerEvent>, n: nat): seq<Report>
    requires n <= |events|
  {
    if n == 0 then []
    else Reports(c, b, a, events, n - 1) + NewReports(c, b, AppAfter(c, b, a, events, n - 1), events[n - 1])
  }

  /** Unless a command is waiting to be published, the last report says what is so now. */
  predicate UpToDate(a: P.App) {
    a.hasLast && !a.publishPending ==> a.last.payload == P.Current(a.runtime)
  }

  /** The same but for the setpoint. */
  predicate ButForSetpoint(a: P.App) {
    a.hasLast && !a.publishPending ==>
      a.last.payload.(setpoint := H.Target(a.runtime.settings)) == P.Current(a.runtime)
  }

  /** No setpoint was set past the command word since everything was last published. */
  predicate Untouched(events: seq<ControllerEvent>, n: nat)
    requires n <= |events|
  {
    n == 0 ||
    var e := events[n - 1];
    e.Tick? || e.SetLockout? || e.SetWindows? || (!e.SetSetpoints? && Untouched(events, n - 1))
  }

  lemma PublishedIsCurrent(a: P.App)
    ensures var p := P.Published(a);
            && p.hasLast && p.last.payload == P.Current(p.runtime)
            && p.runtime == a.runtime && p.publishPending == a.publishPending
  {
    hide P.Current;
  }

  lemma SetpointDecides(a: P.App)
    ensures UpToDate(a) ==> ButForSetpoint(a)
    ensures ButForSetpoint(a) && a.hasLast && !a.publishPending ==>
              (UpToDate(a) <==> a.last.payload.setpoint == H.Target(a.runtime.settings))
  {
  }

  lemma TickIsCurrent(c: H.Config, b: P.Bands, a: P.App, now: u32)
    ensures var p := P.TickedApp(c, b, a, now);
            p.hasLast && !p.publishPending && p.last.payload == P.Current(p.runtime)
  {
    hide P.HeatCall, P.CoolCall, P.Published, H.Ticked, P.Current;
    var s := P.Settled(a);
    PublishedIsCurrent(a.(publishPending := false));
    assert !s.publishPending;
    PublishedIsCurrent(P.TickedRuntime(c, s, now, P.HeatCall(b, a.runtime, a.reading),
                                       P.CoolCall(b, a.runtime, a.reading)));
  }

  lemma CommandLeavesCurrent(a: P.App, packed: nat, mac: seq<bv8>)
    ensures var p := P.CommandedApp(a, packed, mac);
            p.hasLast == a.hasLast && p.last == a.last &&
                (!p.publishPending ==> p.runtime == a.runtime && !a.publishPending)
  {
    CommandAcceptance.RejectedChangesNothing(a.runtime, CommandWords.Decode(packed), mac);
    hide H.Commanded, CommandWords.Decode;
  }

  /** Events that publish leave the last report current. */
  lemma PublishingIsCurrent(c: H.Config, b: P.Bands, a: P.App, e: ControllerEvent)
    requires e.Tick? || e.SetLockout? || e.SetWindows?
    ensures var p := Next(c, b, a, e); p.hasLast && p.last.payload == P.Current(p.runtime)
  {
    hide P.TickedApp, P.Published, P.Current, H.LockedOut, At;
    match e
    case Tick(at) => TickIsCurrent(c, b, a, At(at));
    case SetLockout(locked) => PublishedIsCurrent(a.(runtime := H.LockedOut(a.runtime, locked)));
    case SetWindows(open) => PublishedIsCurrent(a.(runtime := a.runtime.(windowsOpen := open)));
  }

  /** The others change nothing a report says, except the setpoint, or leave a report to come. */
  lemma OthersLeaveCurrent(c: H.Config, b: P.Bands, a: P.App, e: ControllerEvent)
    requires !e.Tick? && !e.SetLockout? && !e.SetWindows?
    ensures var p := Next(c, b, a, e);
            && p.hasLast == a.hasLast && p.last == a.last
            && (!p.publishPending ==>
                && !a.publishPending
                && (!e.SetSetpoints? ==> P.Current(p.runtime) == P.Current(a.runtime))
                && H.Target(p.runtime.settings) == P.Current(p.runtime).setpoint
                && P.Current(p.runtime).(setpoint := 0) == P.Current(a.runtime).(setpoint := 0))
  {
    hide P.CommandedApp, H.Commanded, At;
    match e
    case Command(packed, mac) => CommandLeavesCurrent(a, packed, mac);
    case _ =>
  }

  lemma NextIsUpToDate(c: H.Config, b: P.Bands, a: P.App, e: ControllerEvent)
    ensures var p := Next(c, b, a, e);
            && (e.Tick? || e.SetLockout? || e.SetWindows? ==> UpToDate(p))
            && (e.Tick? ==> p.hasLast && p.last.payload == P.Current(p.runtime))
            && (UpToDate(a) && !e.SetSetpoints? ==> UpToDate(p))
            && (ButForSetpoint(a) ==> ButForSetpoint(p))
  {
    if e.Tick? || e.SetLockout? || e.SetWindows? {
      PublishingIsCurrent(c, b, a, e);
      SetpointDecides(Next(c, b, a, e));
    } else {
      OthersLeaveCurrent(c, b, a, e);
    }
    hide Next, P.Current, H.Target;
  }

  /**
   After a tick the last report says what is so now. In between too, unless a command waits to be
   published, but for a setpoint set past the command word since; and then exactly while the setpoint
   reported is still the setpoint.
   */
  lemma {:induction false} LastReportIsCurrent(c: H.Config, b: P.Bands, a: P.App, events: seq<ControllerEvent>, n: nat)
    requires n <= |events|
    ensures var p := AppAfter(c, b, a, events, n);
            && (n > 0 && events[n - 1].Tick? ==> p.hasLast && p.last.payload == P.Current(p.runtime))
            && (UpToDate(a) && Untouched(events, n) ==> UpToDate(p))
            && (UpToDate(a) ==> ButForSetpoint(p))
            && (UpToDate(a) && p.hasLast && !p.publishPending ==>
                  (UpToDate(p) <==> p.last.payload.setpoint == H.Target(p.runtime.settings)))
  {
    hide Next, P.Current, H.Target;
    if n > 0 {
      LastReportIsCurrent(c, b, a, events, n - 1);
      NextIsUpToDate(c, b, AppAfter(c, b, a, events, n - 1), events[n - 1]);
    }
    SetpointDecides(AppAfter(c, b, a, events, n));
    hide UpToDate, ButForSetpoint;
  }

  // ---- The numbers count --------------------------------------------------------------

  /** The number of the `g`-th report: 1 to 65535 over and over, and 0 only before the first. */
  function NumberOf(g: nat): u16 {
    if g == 0 then 0 else (g - 1) % 0xFFFF + 1
  }

  lemma BumpCounts(g: nat)
    ensures P.Bump(NumberOf(g)) == NumberOf(g + 1) != 0
  {
    if g > 0 {
      var q, r := (g - 1) / 0xFFFF, (g - 1) % 0xFFFF;
      if r == 0xFFFE {
        Division.Unique(g, 0xFFFF, q + 1, 0);
      } else {
        Division.Unique(g, 0xFFFF, q, r + 1);
      }
    }
  }

  /** The last report is the `g`-th. */
  predicate Counts(a: P.App, g: nat) {
    a.number == NumberOf(g) && (a.hasLast <==> g > 0) && (a.hasLast ==> a.last.number == a.number)
  }

  predicate Numbered(reports: seq<Report>, from: nat) {
    forall i :: 0 <= i < |reports| ==> reports[i].number == NumberOf(from + i + 1)
  }

  lemma PublishCounts(a: P.App, g: nat)
    requires Counts(a, g)
    ensures Counts(P.Published(a), g + |P.Handed(a)|) && Numbered(P.Handed(a), g)
    ensures P.Handed(a) == [] ==> P.Published(a).last == a.last
    ensures P.Handed(a) != [] ==> P.Published(a).last == P.Handed(a)[|P.Handed(a)| - 1]
  {
    BumpCounts(g);
    hide P.Current, NumberOf, P.Bump;
  }

  lemma TickCounts(c: H.Config, b: P.Bands, a: P.App, now: u32, g: nat)
    requires Counts(a, g)
    ensures var (p, added) := (P.TickedApp(c, b, a, now), P.TickHanded(c, b, a, now));
            && Counts(p, g + |added|) && Numbered(added, g)
            && p.last == if added == [] then a.last else added[|added| - 1]
  {
    hide P.HeatCall, P.CoolCall, P.Published, P.Handed, H.Ticked, NumberOf;
    var heatCall, coolCall := P.HeatCall(b, a.runtime, a.reading), P.CoolCall(b, a.runtime, a.reading);
    var s, first := P.Settled(a), P.SettledHanded(a);
    if a.publishPending {
      PublishCounts(a.(publishPending := false), g);
    }
    PublishCounts(P.TickedRuntime(c, s, now, heatCall, coolCall), g + |first|);
  }

  lemma NextCounts(c: H.Config, b: P.Bands, a: P.App, e: ControllerEvent, g: nat)
    requires Counts(a, g)
    ensures var (p, added) := (Next(c, b, a, e), NewReports(c, b, a, e));
            && Counts(p, g + |added|) && Numbered(added, g)
            && p.last == if added == [] then a.last else added[|added| - 1]
  {
    hide P.TickedApp, P.TickHanded, P.Published, P.Handed, H.LockedOut, H.Cleared, H.Commanded,
         CommandWords.Decode, At, NumberOf;
    match e
    case Tick(at) => TickCounts(c, b, a, At(at), g);
    case SetLockout(locked) => PublishCounts(a.(runtime := H.LockedOut(a.runtime, locked)), g);
    case SetWindows(open) => PublishCounts(a.(runtime := a.runtime.(windowsOpen := open)), g);
    case _ =>
  }

  /** The `i`-th report of `all` has the `i`-th number, and the last one is the app's last. */
  predicate Tallies(a: P.App, all: seq<Report>) {
    Counts(a, |all|) && Numbered(all, 0) && (all != [] ==> a.last == all[|all| - 1])
  }

  lemma TallyStep(c: H.Config, b: P.Bands, a: P.App, e: ControllerEvent, all: seq<Report>)
    requires Tallies(a, all)
    ensures Tallies(Next(c, b, a, e), all + NewReports(c, b, a, e))
  {
    NextCounts(c, b, a, e, |all|);
    hide Next, NewReports, NumberOf, Counts;
  }

  /** The reports published are numbered in order, and the app's last is the last of them. */
  lemma {:induction false} ReportsAreNumbered(c: H.Config, b: P.Bands, a: P.App, events: seq<ControllerEvent>, n: nat)
    requires n <= |events| && Counts(a, 0)
    ensures Tallies(AppAfter(c, b, a, events, n), Reports(c, b, a, events, n))
  {
    hide Next, NewReports, NumberOf, Counts;
    if n > 0 {
      var (before, all, e) := (AppAfter(c, b, a, events, n - 1), Reports(c, b, a, events, n - 1), events[n - 1]);
      assert AppAfter(c, b, a, events, n) == Next(c, b, before, e);
      assert Reports(c, b, a, events, n) == all + NewReports(c, b, before, e);
      hide *;
      ReportsAreNumbered(c, b, a, events, n - 1);
      TallyStep(c, b, before, e, all);
    }
  }

  /**
   How far ahead a number may be and still count as newer: 1 to 32767, counting the 0 that is skipped
   when the numbers come round; a repeated number is not newer.
   */
  lemma NewerExactly(g: nat, k: nat)
    requires 0 < g && k < 0xFFFF
    ensures var ahead := k + if (g - 1) % 0xFFFF + k >= 0xFFFF then 1 else 0;
            && (NewerU16(NumberOf(g), NumberOf(g + k)) <==> 0 < ahead <= 0x7FFF)
            && (NewerU16(NumberOf(g + k), NumberOf(g)) <==> ahead > 0x8000)
  {
    var q, r := (g - 1) / 0xFFFF, (g - 1) % 0xFFFF;
    if r + k >= 0xFFFF {
      Division.Unique(g + k - 1, 0xFFFF, q + 1, r + k - 0xFFFF);
    } else {
      Division.Unique(g + k - 1, 0xFFFF, q, r + k);
    }
  }

  // ---- The display mirrors the latest report ------------------------------------------

  datatype DisplayEvent =
    | Arrive(at: nat, g: nat)                             // the `g`-th report, first or repeated
    | HeardBeat(at: nat)
    | AckTaken
    | Elsewise(screen: Screen, sending: Sending, interaction: u32)

  function Heard(c: Config, d: Display, reports: seq<Report>, e: DisplayEvent): Display {
    match e
    case Arrive(at, g) => if 0 < g <= |reports| then WithReport(c, d, At(at), reports[g - 1]) else d
    case HeardBeat(at) => WithHeartbeat(c, d, At(at))
    case AckTaken => d.(ack := NoAck)
    case Elsewise(screen, sending, interaction) => d.(screen := screen, sending := sending, interaction := interaction)
  }

  function DisplayAfter(c: Config, d: Display, reports: seq<Report>, events: seq<DisplayEvent>, n: nat): Display
    requires n <= |events|
  {
    if n == 0 then d else Heard(c, DisplayAfter(c, d, reports, events, n - 1), reports, events[n - 1])
  }

  /** The latest report heard, in full numbers; after a long silence whatever comes first counts as latest. */
  function Latest(c: Config, d: Display, reports: seq<Report>, events: seq<DisplayEvent>, n: nat): nat
    requires n <= |events|
  {
    if n == 0 then 0
    else
      var (before, e) := (Latest(c, d, reports, events, n - 1), events[n - 1]);
      if e.Arrive? && 0 < e.g <= |reports| && (!DisplayAfter(c, d, reports, events, n - 1).hasNumber || e.g > before)
      then e.g else before
  }

  /** No report arrives more than 32766 ahead of or behind the latest heard. */
  predicate WithinReach(c: Config, d: Display, reports: seq<Report>, events: seq<DisplayEvent>) {
    forall k :: 0 <= k < |events| && events[k].Arrive? ==>
      -32766 <= events[k].g - Latest(c, d, reports, events, k) <= 32766 ||
          !DisplayAfter(c, d, reports, events, k).hasNumber
  }

  /** The display mirrors report `g`, and owes an acknowledgement for no other. */
  predicate Mirrors(d: Display, reports: seq<Report>, g: nat)
    requires g <= |reports|
  {
    if g == 0 then !d.hasNumber && d.ack == NoAck
    else
      && d.lastNumber == NumberOf(g) && d.mirror == MirrorOf(reports[g - 1].payload)
      && d.ack in {NoAck, AckOwed(NumberOf(g))}
  }

  lemma ReportStep(c: Config, d: Display, reports: seq<Report>, at: nat, g: nat, latest: nat)
    requires Numbered(reports, 0) && latest <= |reports| && 0 < g <= |reports| && Mirrors(d, reports, latest)
    requires d.hasNumber ==> -32766 <= g - latest <= 32766
    ensures var after := WithReport(c, d, At(at), reports[g - 1]);
            && Mirrors(after, reports, if !d.hasNumber || g > latest then g else latest) && after.hasNumber
            && after.ack != NoAck
  {
    if d.hasNumber {
      if g > latest {
        NewerExactly(latest, g - latest);
      } else if g < latest {
        NewerExactly(g, latest - g);
      }
    }
    hide NumberOf, Followed, At;
  }

  /**
   However reports are lost, repeated or late, the display mirrors the latest one it heard and owes
   an acknowledgement for that one only.
   */
  lemma {:induction false} DisplayMirrorsLatest(c: Config, d: Display, reports: seq<Report>,
                                                events: seq<DisplayEvent>, n: nat)
    requires n <= |events| && Numbered(reports, 0) && WithinReach(c, d, reports, events)
    requires !d.hasNumber && d.ack == NoAck
    ensures Latest(c, d, reports, events, n) <= |reports|
    ensures Mirrors(DisplayAfter(c, d, reports, events, n), reports, Latest(c, d, reports, events, n))
  {
    hide NumberOf, WithReport, At, Since, MirrorOf;
    if n > 0 {
      DisplayMirrorsLatest(c, d, reports, events, n - 1);
      var (before, e) := (DisplayAfter(c, d, reports, events, n - 1), events[n - 1]);
      if e.Arrive? && 0 < e.g <= |reports| {
        ReportStep(c, before, reports, e.at, e.g, Latest(c, d, reports, events, n - 1));
        hide Mirrors;
      }
    }
  }

  /** End to end: once the report of the last tick is heard, the mirror is the runtime's state. */
  lemma MirrorIsCurrent(c: H.Config, b: P.Bands, a: P.App, events: seq<ControllerEvent>, n: nat,
                        config: Config, d: Display, heard: seq<DisplayEvent>, m: nat)
    requires 0 < n <= |events| && events[n - 1].Tick? && Counts(a, 0)
    requires var reports := Reports(c, b, a, events, n);
             && m <= |heard| && WithinReach(config, d, reports, heard) && !d.hasNumber && d.ack == NoAck
             && Latest(config, d, reports, heard, m) == |reports|
    ensures DisplayAfter(config, d, Reports(c, b, a, events, n), heard, m).mirror
            == MirrorOf(P.Current(AppAfter(c, b, a, events, n).runtime))
  {
    LastReportIsCurrent(c, b, a, events, n);
    ReportsAreNumbered(c, b, a, events, n);
    var reports := Reports(c, b, a, events, n);
    DisplayMirrorsLatest(config, d, reports, heard, m);
    hide AppAfter, Reports, DisplayAfter, Latest, WithinReach, NumberOf, P.Current, MirrorOf;
  }
}
