/**
 The display: what it shows, the command words it sends, and the telemetry it mirrors.

 The radio is a parameter: `sent` is false when it held the frame back, and a delivery report is
 whatever it returns. Setpoints are in tenths of a degree.
 */
module ThermostatDisplay {
  import opened Clock
  import opened CommandWords
  import opened CommandOptions
  import opened Telemetry

  datatype Config = Config(debounce: u32, reconnectResync: u32, sessionSeed: u32)

  /** What the user sees and sets: one setpoint for heating and one for cooling. */
  datatype Screen = Screen(mode: FurnaceMode, fan: FanMode, heat: int, cool: int)

  datatype Delivery = NoReport | InFlight | Delivered | Failed

  const MAX_RETRIES: nat := 3

  datatype Sending = Sending(
    number: nat, session: nat, hasPending: bool, pending: Options, hasUnconfirmed: bool, unconfirmed: Options,
    retries: nat, hasLast: bool, lastPacked: nat, lastNumber: nat)

  /** The controller as last reported. */
  datatype Mirror = Mirror(
    known: bool, state: FurnaceState, lockout: bool, windowsOpen: bool, setpoint: int, filterSeconds: u32)

  /** `pending_ack_`: a flag and a number in one atomic word. */
  datatype Ack = NoAck | AckOwed(number: u16)

  datatype Display = Display(
    screen: Screen, sending: Sending, mirror: Mirror, interaction: u32, heartbeat: u32,
    hasNumber: bool, lastNumber: u16, ack: Ack)

  const NO_OPTIONS := Options(false, false, false, false, false)

  function Initial(c: Config): Display {
    Display(Screen(Off, Automatic, 200, 240),
            Sending(0, NextSession(c.sessionSeed % MAX_SESSION), false, NO_OPTIONS, false, NO_OPTIONS, 0, false, 0, 0),
            Mirror(false, ErrorState, false, false, 200, 0), 0, 0, false, 0, NoAck)
  }

  // ---- What is shown ------------------------------------------------------------------

  function Shown(s: Screen): int {
    if s.mode == Cool then s.cool else s.heat
  }

  function Clamped(setpoint: int): nat {
    if setpoint < 0 then 0 else if setpoint > MAX_SETPOINT then MAX_SETPOINT else setpoint
  }

  function Values(s: Screen): Local {
    Local(s.mode, s.fan, Clamped(Shown(s)))
  }

  /** The setpoint goes into the bin of a mode; Off has none. */
  function Synced(s: Screen, mode: FurnaceMode, setpoint: int): Screen {
    if mode == Heat then s.(heat := setpoint) else if mode == Cool then s.(cool := setpoint) else s
  }

  function WithSetpoint(s: Screen, setpoint: int): Screen {
    if s.mode == Cool then s.(cool := Clamped(setpoint)) else s.(heat := Clamped(setpoint))
  }

  // ---- Sending ------------------------------------------------------------------------

  /** The options of the next word: those wanted and all that are still owed. */
  function Carried(s: Sending, wanted: Options): Options {
    var o := if s.hasPending then Merge(wanted, s.pending) else wanted;
    if s.hasUnconfirmed then Merge(o, s.unconfirmed) else o
  }

  function NextWord(s: Sending, screen: Screen, wanted: Options): CommandWord {
    WordOf(Carried(s, wanted), Values(screen), NextSeq(s.number), s.session)
  }

  function Transmitted(s: Sending, screen: Screen, wanted: Options, sent: bool, reports: bool): Sending {
    var (o, word) := (Carried(s, wanted), NextWord(s, screen, wanted));
    var t := s.(number := word.number, hasLast := true, lastPacked := Encode(word), lastNumber := word.number);
    if sent then t.(hasPending := false, hasUnconfirmed := reports, unconfirmed := o)
    else t.(hasPending := true, pending := o)
  }

  /** A new command has its retries all before it. */
  function Requested(s: Sending, screen: Screen, wanted: Options, sent: bool, reports: bool): Sending {
    Transmitted(s.(retries := 0), screen, wanted, sent, reports)
  }

  function Reported(s: Sending, report: Delivery): Sending {
    match report
    case Delivered => s.(hasUnconfirmed := false)
    case NoReport => s.(hasUnconfirmed := false)
    case InFlight => s
    case Failed =>
      if s.hasUnconfirmed && s.retries < MAX_RETRIES then
        s.(retries := s.retries + 1, hasPending := true,
           pending := if s.hasPending then Merge(s.pending, s.unconfirmed) else s.unconfirmed)
      else s.(hasUnconfirmed := false)
  }

  function Resent(s: Sending, screen: Screen, report: Delivery, sent: bool, reports: bool): Sending {
    var t := Reported(s, report);
    if t.hasPending then Transmitted(t, screen, t.pending, sent, reports) else t
  }

  function Restarted(s: Sending): Sending {
    s.(number := 0, session := NextSession(s.session), hasPending := false, hasUnconfirmed := false, retries := 0,
       hasLast := false, lastPacked := 0, lastNumber := 0)
  }

  // ---- Receiving ----------------------------------------------------------------------

  function WithHeartbeat(c: Config, d: Display, now: u32): Display {
    var stale := c.reconnectResync != 0 && d.heartbeat != 0 && Since(now, d.heartbeat) >= c.reconnectResync;
    d.(hasNumber := d.hasNumber && !stale, heartbeat := now)
  }

  predicate Debouncing(c: Config, d: Display, now: u32) {
    d.interaction != 0 && Since(now, d.interaction) < c.debounce
  }

  function MirrorOf(p: Payload): Mirror {
    Mirror(true, p.state, p.lockout, p.windowsOpen, p.setpoint, p.filterSeconds)
  }

  /** The values shown follow the controller, but not while the user is setting them. */
  function Followed(c: Config, d: Display, now: u32, mode: FurnaceMode, fan: FanMode, setpoint: int): Screen {
    if Debouncing(c, d, now) then d.screen
    else Synced(d.screen.(mode := mode, fan := fan), mode, setpoint)
  }

  predicate Fresh(d: Display, number: u16) {
    d.hasNumber ==> NewerU16(d.lastNumber, number)
  }

  function WithReport(c: Config, d: Display, now: u32, t: Report): Display {
    if !Fresh(d, t.number) then d.(ack := AckOwed(d.lastNumber))
    else
      var p := t.payload;
      d.(lastNumber := t.number, hasNumber := true, mirror := MirrorOf(p), ack := AckOwed(t.number),
         screen := Followed(c, d, now, ModeOfCode(p.modeCode), FanOfCode(p.fanCode), p.setpoint))
  }

  /** The same state by another way than the radio, with the modes themselves. */
  function WithUpdate(c: Config, d: Display, now: u32, mirror: Mirror, mode: FurnaceMode, fan: FanMode): Display {
    var e := WithHeartbeat(c, d, now);
    e.(mirror := mirror.(known := true), screen := Followed(c, e, now, mode, fan, mirror.setpoint))
  }

  // ---- The object ---------------------------------------------------------------------

  class ThermostatApp {
    const config: Config
    /** Whether the radio reports what became of a command. */
    const reports: bool
    var screen: Screen
    var number: nat
    var session: nat
    var hasPendingCommand: bool
    var pendingOptions: Options
    var hasUnconfirmedCommand: bool
    var unconfirmedOptions: Options
    var commandRetries: nat
    var hasLastPacked: bool
    var lastPacked: nat
    var lastCommandSeq: nat
    var mirror: Mirror
    var lastInteractionMs: u32
    var lastHeartbeatMs: u32
    var hasControllerSeq: bool
    var lastControllerSeq: u16
    var pendingAck: Ack

    ghost function SendingState(): Sending
      reads this
    {
      Sending(number, session, hasPendingCommand, pendingOptions, hasUnconfirmedCommand, unconfirmedOptions,
              commandRetries, hasLastPacked, lastPacked, lastCommandSeq)
    }

    ghost function State(): Display
      reads this
    {
      Display(screen, SendingState(), mirror, lastInteractionMs, lastHeartbeatMs, hasControllerSeq, lastControllerSeq,
              pendingAck)
    }

    constructor (config: Config, reports: bool)
      ensures this.config == config && this.reports == reports && State() == Initial(config)
    {
      this.config, this.reports := config, reports;
      screen := Screen(Off, Automatic, 200, 240);
      number, session := 0, NextSession(config.sessionSeed % MAX_SESSION);
      hasPendingCommand, pendingOptions := false, NO_OPTIONS;
      hasUnconfirmedCommand, unconfirmedOptions, commandRetries := false, NO_OPTIONS, 0;
      hasLastPacked, lastPacked, lastCommandSeq := false, 0, 0;
      mirror := Mirror(false, ErrorState, false, false, 200, 0);
      lastInteractionMs, lastHeartbeatMs := 0, 0;
      hasControllerSeq, lastControllerSeq, pendingAck := false, 0, NoAck;
    }

    /** The options wanted and those still owed, merged. */
    method FoldOptions(wanted: Options) returns (options: Options)
      ensures options == Carried(SendingState(), wanted)
    {
      hide Merge;
      options := wanted;
      if hasPendingCommand {
        options := Merge(options, pendingOptions);
      }
      if hasUnconfirmedCommand {
        options := Merge(options, unconfirmedOptions);
      }
    }

    method TransmitCommand(wanted: Options, sent: bool)
      modifies this`number, this`hasPendingCommand, this`pendingOptions, this`hasUnconfirmedCommand,
               this`unconfirmedOptions, this`hasLastPacked, this`lastPacked, this`lastCommandSeq
      ensures SendingState() == Transmitted(old(SendingState()), screen, wanted, sent, reports)
    {
      hide Encode, Values, NextSeq, Carried;
      var options := FoldOptions(wanted);
      number := NextSeq(number);
      var word := WordOf(options, Values(screen), number, session);
      lastPacked := Encode(word);
      lastCommandSeq := word.number;
      hasLastPacked := true;
      hasPendingCommand := !sent;
      if hasPendingCommand {
        pendingOptions := options;
      } else {
        hasUnconfirmedCommand := reports;
        unconfirmedOptions := options;
      }
    }

    method SendCommand(wanted: Options, sent: bool)
      modifies this`number, this`hasPendingCommand, this`pendingOptions, this`hasUnconfirmedCommand,
               this`unconfirmedOptions, this`hasLastPacked, this`lastPacked, this`lastCommandSeq, this`commandRetries
      ensures SendingState() == Requested(old(SendingState()), screen, wanted, sent, reports)
    {
      hide Transmitted;
      commandRetries := 0;
      TransmitCommand(wanted, sent);
    }

    method SetLocalMode(mode: FurnaceMode, now: u32, sent: bool)
      modifies this
      ensures var (d, s) := (old(State()), old(screen).(mode := mode));
              State() == d.(screen := s, interaction := now,
                            sending := Requested(d.sending, s, MODE_CHANGE, sent, reports))
    {
      hide Requested;
      screen := screen.(mode := mode);
      lastInteractionMs := now;
      SendCommand(MODE_CHANGE, sent);
    }

    method SetLocalFanMode(fan: FanMode, now: u32, sent: bool)
      modifies this
      ensures var (d, s) := (old(State()), old(screen).(fan := fan));
              State() == d.(screen := s, interaction := now,
                            sending := Requested(d.sending, s, FAN_CHANGE, sent, reports))
    {
      hide Requested;
      screen := screen.(fan := fan);
      lastInteractionMs := now;
      SendCommand(FAN_CHANGE, sent);
    }

    method SetLocalSetpoint(setpoint: int, now: u32, sent: bool)
      modifies this
      ensures var (d, s) := (old(State()), WithSetpoint(old(screen), setpoint));
              State() == d.(screen := s, interaction := now,
                            sending := Requested(d.sending, s, SETPOINT_CHANGE, sent, reports))
    {
      hide Requested;
      var wanted := setpoint;
      if wanted < 0 {
        wanted := 0;
      }
      if wanted > 400 {
        wanted := 400;
      }
      if screen.mode == Cool {
        screen := screen.(cool := wanted);
      } else {
        screen := screen.(heat := wanted);
      }
      lastInteractionMs := now;
      SendCommand(SETPOINT_CHANGE, sent);
    }

    method RequestSync(now: u32, sent: bool)
      modifies this
      ensures var d := old(State());
              State() == d.(interaction := now, sending := Requested(d.sending, d.screen, SYNC, sent, reports))
    {
      hide Requested;
      lastInteractionMs := now;
      SendCommand(SYNC, sent);
    }

    method RequestFilterReset(now: u32, sent: bool)
      modifies this
      ensures var d := old(State());
              State() == d.(interaction := now, sending := Requested(d.sending, d.screen, FILTER_RESET, sent, reports))
    {
      hide Requested;
      lastInteractionMs := now;
      SendCommand(FILTER_RESET, sent);
    }

    method TakeReport(report: Delivery)
      modifies this`hasPendingCommand, this`pendingOptions, this`hasUnconfirmedCommand, this`commandRetries
      ensures SendingState() == Reported(old(SendingState()), report)
    {
      hide Merge;
      match report
      case Delivered =>
        hasUnconfirmedCommand := false;
      case Failed =>
        if hasUnconfirmedCommand && commandRetries < MAX_RETRIES {
          commandRetries := commandRetries + 1;
          pendingOptions := if hasPendingCommand then Merge(pendingOptions, unconfirmedOptions) else unconfirmedOptions;
          hasPendingCommand := true;
        } else {
          hasUnconfirmedCommand := false;
        }
      case NoReport =>
        hasUnconfirmedCommand := false;
      case InFlight =>
    }

    /** `sent` is what the radio does if a word is owed. */
    method SendPendingCommand(report: Delivery, sent: bool)
      modifies this
      ensures State() == old(State()).(sending := Resent(old(SendingState()), screen, report, sent, reports))
    {
      hide Reported, Transmitted;
      TakeReport(report);
      if !hasPendingCommand {
        return;
      }
      TransmitCommand(pendingOptions, sent);
    }

    method ResetLocalCommandSequence()
      modifies this`number, this`session, this`hasPendingCommand, this`hasUnconfirmedCommand, this`commandRetries,
               this`hasLastPacked, this`lastPacked, this`lastCommandSeq
      ensures SendingState() == Restarted(old(SendingState()))
    {
      hide NextSession;
      number := 0;
      session := NextSession(session);
      hasPendingCommand := false;
      hasUnconfirmedCommand := false;
      commandRetries := 0;
      hasLastPacked := false;
      lastPacked := 0;
      lastCommandSeq := 0;
    }

    method OnControllerHeartbeat(now: u32)
      modifies this`hasControllerSeq, this`lastHeartbeatMs
      ensures State() == WithHeartbeat(config, old(State()), now)
    {
      if config.reconnectResync != 0 && lastHeartbeatMs != 0 && Since(now, lastHeartbeatMs) >= config.reconnectResync {
        hasControllerSeq := false;
      }
      lastHeartbeatMs := now;
    }

    method FollowController(now: u32, mode: FurnaceMode, fan: FanMode, setpoint: int)
      modifies this`screen
      ensures screen == Followed(config, old(State()), now, mode, fan, setpoint)
    {
      var withinDebounce := lastInteractionMs != 0 && Since(now, lastInteractionMs) < config.debounce;
      if !withinDebounce {
        screen := screen.(mode := mode, fan := fan);
        if mode == Heat {
          screen := screen.(heat := setpoint);
        } else if mode == Cool {
          screen := screen.(cool := setpoint);
        }
      }
    }

    method OnControllerTelemetry(now: u32, t: Report)
      modifies this`lastControllerSeq, this`hasControllerSeq, this`mirror, this`screen, this`pendingAck
      ensures State() == WithReport(config, old(State()), now, t)
    {
      hide Followed, Since;
      if hasControllerSeq {
        if t.number == lastControllerSeq {
          pendingAck := AckOwed(lastControllerSeq);
          return;
        }
        if !NewerU16(lastControllerSeq, t.number) {
          pendingAck := AckOwed(lastControllerSeq);
          return;
        }
      }
      FollowController(now, ModeOfCode(t.payload.modeCode), FanOfCode(t.payload.fanCode), t.payload.setpoint);
      lastControllerSeq := t.number;
      hasControllerSeq := true;
      mirror := MirrorOf(t.payload);
      pendingAck := AckOwed(lastControllerSeq);
    }

    /** Sends the acknowledgement owed, if any; one the radio holds back stays owed. */
    method SendPendingAck(sent: bool) returns (tried: Ack)
      modifies this`pendingAck
      ensures tried == old(pendingAck) && pendingAck == if sent then NoAck else tried
    {
      tried := pendingAck;
      pendingAck := NoAck;
      if tried == NoAck {
        return;
      }
      if !sent && pendingAck == NoAck {
        pendingAck := tried;
      }
    }

    method OnControllerStateUpdate(now: u32, update: Mirror, mode: FurnaceMode, fan: FanMode)
      modifies this`hasControllerSeq, this`lastHeartbeatMs, this`mirror, this`screen
      ensures State() == WithUpdate(config, old(State()), now, update, mode, fan)
    {
      hide Followed, Since;
      OnControllerHeartbeat(now);
      FollowController(now, mode, fan, update.setpoint);
      mirror := update.(known := true);
    }
  }
}
