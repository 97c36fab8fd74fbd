/**
 Attribution of send callbacks to probes and to the tracked command frame.

 The radio keeps the accepted frames that still await their callback in a queue and answers its
 head, on its own task; a callback may be lost, may come late, or may belong to no frame. The
 tracker does not see the queue: it numbers callbacks by counting them. Every load, store,
 increment and compare-exchange of the tracker is a step of its own here, and the sending task
 and the callback interleave freely.

 A 32-bit counter or sequence number is represented by the unbounded number whose residue it
 holds; every comparison below looks at residues only, as the code does.
 */
module ProbeTracker {
  import opened Clock

  const OPEN_SPAN: nat := 0x7FFF_FFFF
  const TRACK_NUMBERS: nat := 0x4000_0000

  datatype TrackState = NotTracked | Waiting | Delivered | Failed

  /** `tracked_`: a send number (30 bits of it are stored) and a state, in one atomic word. */
  datatype Tracked = Tracked(number: nat, state: TrackState)

  const NOTHING := Tracked(0, NotTracked)

  predicate SameWord(a: Tracked, b: Tracked) {
    a.state == b.state && a.number % TRACK_NUMBERS == b.number % TRACK_NUMBERS
  }

  /** Wraparound-safe first <= n <= last. */
  predicate InRange(n: int, first: int, last: int) {
    Since(At(n), At(first)) <= Since(At(last), At(first))
  }

  /** What the sending task is sending a frame for. */
  datatype Purpose = Plain | ForProbe | ForTracking

  /** Where the sending task stands, with what it has loaded. */
  datatype Sender =
    | Idle
    | Sent(purpose: Purpose)                  // accepted by the radio, not counted yet
    | Probing(probe: ProbeStage)
    | Tracking(track: TrackStage)
    | Reading(status: StatusStage)
    | Checking(check: CheckStage)
    | Resyncing(resync: ResyncStage)

  /** Inside begin_probe, between it and end_probe, and inside end_probe. */
  datatype ProbeStage =
    | Disarmed                                // probe_pending_ is false
    | LoadedIssued(issued: nat)
    | Stray(issued: nat)                      // more completions than sends: about to drop them
    | NoStray
    | SetFirst(first: int)                    // about to store probe_first_seq_
    | SetLast(first: int)
    | SetAck(first: int)
    | Arm
    | Armed                                   // sending the probe's frames
    | Ending(last: int)
    | NoneSent
    | Close(last: int)

  /** The same for begin_tracked and end_tracked, and inside take_tracked. */
  datatype TrackStage =
    | Begun(issued: nat)
    | Open
    | End(attempted: bool)
    | Compare(attempted: bool, current: Tracked)
    | Swap(attempted: bool, current: Tracked)
    | Take(taken: Tracked)

  /** Inside status; `acking` is the frame whose callback ran when the completions were read. */
  datatype StatusStage =
    | SawPending
    | HasLast(last: int)
    | AllComplete(acking: int)
    | HasAck(acking: int, ack: int)
    | HasFirst(acking: int, ack: int, first: int)

  /** Inside check_lost_callbacks, called at time `at`. */
  datatype CheckStage =
    | CountsRead(at: nat, issued: nat)
    | Behind(at: nat)                         // completions behind sends: about to look for a probe

  /** Inside resync. */
  datatype ResyncStage =
    | Disarm
    | Load
    | Store(issued: nat)
    | Read
    | Fail(current: Tracked)

  /** Where the callback numbered `n` stands. */
  datatype Callback =
    | Quiet
    | LoadPending(n: nat)
    | LoadFirst(n: nat)
    | LoadLast(n: nat, first: int)
    | StoreAck(n: nat)
    | SwapTracked(n: nat, ok: bool)

  /**
   The radio: how many frames it accepted and how many of those no longer await a callback (so the
   queue is the frames from `answered + 1` to `accepted`), the frame whose callback is under way (0 for
   none), and what became of each. And, since the tracker last set its completions to its sends: the
   frames that were still awaiting a callback then, the callbacks for no frame, and those lost.
   */
  datatype Radio = Radio(
    accepted: nat, answered: nat, answering: nat, outcomes: map<int, bool>, survivors: int, strays: int, losses: int)

  /** The lost-callback guard's own fields. */
  datatype Guard = Guard(lagging: bool, since: u32)

  /**
   The tracker's atomics, the guard, both tasks and the radio. Then history: the frames of the latest
   probe, and the latest tracked frame (accepted or not, and whether a resync gave it up).
   */
  datatype State = State(
    issued: nat, completed: nat,
    pending: bool, first: int, last: int, ack: int, tracked: Tracked, guard: Guard,
    sender: Sender, callback: Callback, radio: Radio,
    probeFrames: set<int>, frame: nat, frameSent: bool, frameLost: bool)

  const START := State(0, 0, false, 0, 0, 0, NOTHING, Guard(false, 0), Idle, Quiet, Radio(0, 0, 0, map[], 0, 0, 0),
                       {}, 0, false, false)

  /** What the sending task starts when idle. */
  datatype Call =
    | SendPlain | BeginProbe | EndProbe | BeginTracked | TakeTracked | ReadStatus | Clear
    | CheckLost(at: nat)
    | Restart                                 // the radio drops its queue, then resync

  /** What becomes of a frame handed to the transport. */
  datatype Sending = Accepted | Rejected | Throttled

  datatype Step =
    | Begin(call: Call)
    | Send(sending: Sending)
    | Advance                       // the sending task's next atomic operation
    | Retry                         // a compare-exchange that fails spuriously
    | StartCallback(ok: bool)       // for the head of the queue
    | StrayCallback(ok: bool)       // for no frame
    | LoseCallback                  // the head's callback will never come
    | AdvanceCallback

  /** How many frames await their callback. */
  function Awaiting(s: State): int {
    s.radio.accepted - s.radio.answered
  }

  // ---- The callback -------------------------------------------------------------------

  /** The callback numbers itself, whatever frame it is for. */
  function Numbered(s: State, ok: bool): State {
    var n := s.completed + 1;
    s.(completed := n, callback := if ok then LoadPending(n) else SwapTracked(n, false))
  }

  function CallbackStarted(s: State, ok: bool): State {
    var frame := s.radio.answered + 1;
    Numbered(s, ok).(
      radio := s.radio.(answered := frame, answering := frame, outcomes := s.radio.outcomes[frame := ok]))
  }

  function StrayStarted(s: State, ok: bool): State {
    Numbered(s, ok).(radio := s.radio.(answering := 0, strays := s.radio.strays + 1))
  }

  function CallbackLost(s: State): State {
    s.(radio := s.radio.(answered := s.radio.answered + 1, losses := s.radio.losses + 1))
  }

  function CallbackAdvanced(s: State): State
    requires !s.callback.Quiet?
  {
    match s.callback
    case Quiet => s
    case LoadPending(n) => s.(callback := if s.pending then LoadFirst(n) else SwapTracked(n, true))
    case LoadFirst(n) => s.(callback := LoadLast(n, s.first))
    case LoadLast(n, first) => s.(callback := if InRange(n, first, s.last) then StoreAck(n) else SwapTracked(n, true))
    case StoreAck(n) => s.(ack := n, callback := SwapTracked(n, true))
    case SwapTracked(n, ok) =>
      var t := if SameWord(s.tracked, Tracked(n, Waiting)) then Tracked(n, if ok then Delivered else Failed)
               else s.tracked;
      s.(tracked := t, callback := Quiet)
  }

  // ---- The sending task ---------------------------------------------------------------

  /** The frame a callback is about to record as acknowledged, 0 if none. */
  function Acking(callback: Callback): int {
    match callback
    case LoadPending(n) => n
    case LoadFirst(n) => n
    case LoadLast(n, _) => n
    case StoreAck(n) => n
    case _ => 0
  }

  function Began(s: State, call: Call): State {
    match call
    case SendPlain => s
    case BeginProbe => s.(pending := false, sender := Probing(Disarmed), probeFrames := {})
    case EndProbe => s.(sender := Probing(Ending(s.issued)))
    case BeginTracked => s.(sender := Tracking(Begun(s.issued)))
    case TakeTracked => if s.tracked.state in {Delivered, Failed} then s.(sender := Tracking(Take(s.tracked))) else s
    case ReadStatus => if s.pending then s.(sender := Reading(SawPending)) else s
    case Clear => s.(pending := false)
    case CheckLost(at) => s.(sender := Checking(CountsRead(at, s.issued)))
    case Restart =>
      GivenUp(s.(radio := s.radio.(answered := s.radio.accepted, losses := s.radio.losses + Awaiting(s))))
  }

  /** Entering resync: a frame still waiting will be reported failed. */
  function GivenUp(s: State): State {
    s.(frameLost := s.frameLost || s.tracked.state == Waiting, sender := Resyncing(Disarm))
  }

  const LOST_CALLBACK_MS: u32 := 1000

  function Checked(s: State, check: CheckStage): State {
    match check
    case CountsRead(at, issued) =>
      if After(At(issued), At(s.completed)) then s.(sender := Checking(Behind(at)))
      else s.(guard := s.guard.(lagging := false), sender := Idle)
    case Behind(at) =>
      if s.pending then s.(guard := s.guard.(lagging := false), sender := Idle)
      else if !s.guard.lagging then s.(guard := Guard(true, At(at)), sender := Idle)
      else if Since(At(at), s.guard.since) > LOST_CALLBACK_MS then GivenUp(s)
      else s.(sender := Idle)
  }

  /** `completed` is set to the number of sends: what the radio still owes survives it. */
  function Recounted(s: State, issued: nat): State {
    s.(completed := issued, radio := s.radio.(survivors := Awaiting(s), strays := 0, losses := 0))
  }

  function PurposeOf(sender: Sender): Purpose {
    match sender
    case Probing(_) => ForProbe
    case Tracking(_) => ForTracking
    case _ => Plain
  }

  function SentBy(s: State, sending: Sending): State {
    var purpose := PurposeOf(s.sender);
    match sending
    case Accepted =>
      var n := s.radio.accepted + 1;
      s.(radio := s.radio.(accepted := n), sender := Sent(purpose),
         probeFrames := if purpose == ForProbe then s.probeFrames + {n} else s.probeFrames,
         frame := if purpose == ForTracking then n else s.frame,
         frameSent := s.frameSent || purpose == ForTracking)
    case Rejected => if purpose == ForTracking then s.(sender := Tracking(End(true))) else s
    case Throttled => if purpose == ForTracking then s.(sender := Tracking(End(false))) else s
  }

  function Counted(s: State, purpose: Purpose): State {
    s.(issued := s.issued + 1,
       sender := match purpose
                 case Plain => Idle
                 case ForProbe => Probing(Armed)
                 case ForTracking => Tracking(End(true)))
  }

  function Probed(s: State, probe: ProbeStage): State {
    match probe
    case Disarmed => s.(sender := Probing(LoadedIssued(s.issued)))
    case LoadedIssued(issued) =>
      s.(sender := Probing(if After(At(s.completed), At(issued)) then Stray(issued) else NoStray))
    case Stray(issued) => Recounted(s, issued).(sender := Probing(NoStray))
    case NoStray => s.(sender := Probing(SetFirst(s.issued + 1)))
    case SetFirst(first) => s.(first := first, sender := Probing(SetLast(first)))
    case SetLast(first) => s.(last := first + OPEN_SPAN, sender := Probing(SetAck(first)))
    case SetAck(first) => s.(ack := first - 1, sender := Probing(Arm))
    case Arm => s.(pending := true, sender := Probing(Armed))
    case Armed => s
    case Ending(last) => s.(sender := Probing(if At(last) == At(s.first - 1) then NoneSent else Close(last)))
    case NoneSent => s.(pending := false, sender := Idle)
    case Close(last) => s.(last := last, sender := Idle)
  }

  function TrackedOn(s: State, track: TrackStage): State {
    match track
    case Begun(issued) =>
      s.(tracked := Tracked(issued + 1, Waiting), sender := Tracking(Open), frameSent := false, frameLost := false)
    case Open => s
    case End(attempted) =>
      s.(sender := if s.tracked.state == Waiting then Tracking(Compare(attempted, s.tracked)) else Idle)
    case Compare(attempted, current) =>
      s.(sender := if (s.issued + 1) % TRACK_NUMBERS != current.number % TRACK_NUMBERS then Idle
                   else Tracking(Swap(attempted, current)))
    case Swap(attempted, current) =>
      s.(tracked := if !SameWord(s.tracked, current) then s.tracked
                    else if attempted then current.(state := Failed) else NOTHING,
         sender := Idle)
    case Take(taken) =>
      if SameWord(s.tracked, taken) then s.(tracked := NOTHING, sender := Idle) else TakeAgain(s)
  }

  /** `take_tracked` after a failed exchange: it looks at the word it found. */
  function TakeAgain(s: State): State {
    s.(sender := if s.tracked.state in {Delivered, Failed} then Tracking(Take(s.tracked)) else Idle)
  }

  function Observed(s: State, status: StatusStage): State {
    match status
    case SawPending => s.(sender := Reading(HasLast(s.last)))
    case HasLast(last) =>
      s.(sender := if After(At(last), At(s.completed)) then Idle else Reading(AllComplete(Acking(s.callback))))
    case AllComplete(acking) => s.(sender := Reading(HasAck(acking, s.ack)))
    case HasAck(acking, ack) => s.(sender := Reading(HasFirst(acking, ack, s.first)))
    case HasFirst(_, _, _) => s.(sender := Idle)
  }

  function Resynced(s: State, resync: ResyncStage): State {
    match resync
    case Disarm => s.(pending := false, sender := Resyncing(Load))
    case Load => s.(sender := Resyncing(Store(s.issued)))
    case Store(issued) => Recounted(s, issued).(guard := s.guard.(lagging := false), sender := Resyncing(Read))
    case Read => s.(sender := if s.tracked.state == Waiting then Resyncing(Fail(s.tracked)) else Idle)
    case Fail(current) =>
      s.(tracked := if SameWord(s.tracked, current) then current.(state := Failed) else s.tracked, sender := Idle)
  }

  function Advanced(s: State): State {
    match s.sender
    case Idle => s
    case Sent(purpose) => Counted(s, purpose)
    case Probing(probe) => Probed(s, probe)
    case Tracking(track) => TrackedOn(s, track)
    case Reading(status) => Observed(s, status)
    case Checking(check) => Checked(s, check)
    case Resyncing(resync) => Resynced(s, resync)
  }

  // ---- What the calls return ----------------------------------------------------------

  /** The answer of `status` as its last load is made. */
  predicate AnswersAcked(s: State)
    requires s.sender.Reading? && s.sender.status.HasFirst?
  {
    InRange(s.sender.status.ack, s.sender.status.first, s.last)
  }

  /** `take_tracked` returns the state it exchanged for nothing. */
  predicate Takes(s: State, state: TrackState) {
    && s.sender.Tracking? && s.sender.track.Take?
    && SameWord(s.tracked, s.sender.track.taken) && s.sender.track.taken.state == state
  }

  // ---- The environment ----------------------------------------------------------------

  const MAX_OUTSTANDING: nat := 0x1000_0000
  const MAX_PROBE_AGE: nat := 0x4000_0000

  /** The number of the last callback that has finished, or of the one under way. */
  function Oldest(s: State): int {
    if s.callback.Quiet? then s.completed else Number(s.callback)
  }

  function Number(callback: Callback): int {
    match callback
    case Quiet => 0
    case LoadPending(n) => n
    case LoadFirst(n) => n
    case LoadLast(n, _) => n
    case StoreAck(n) => n
    case SwapTracked(n, _) => n
  }

  /** From arming the probe until end_probe has closed its range. */
  predicate Unclosed(sender: Sender) {
    || (sender.Sent? && sender.purpose == ForProbe)
    || (sender.Probing? &&
        (sender.probe.Armed? || sender.probe.Ending? || sender.probe.NoneSent? || sender.probe.Close?))
  }

  predicate MaySend(sender: Sender) {
    sender.Idle? || sender == Probing(Armed) || sender == Tracking(Open)
  }

  /**
   One callback at a time; at most 2^28 frames sent ahead of the callbacks counted, and 2^30 under
   one probe.
   */
  predicate Enabled(s: State, step: Step) {
    match step
    case Begin(call) => if call.EndProbe? then s.sender == Probing(Armed) else s.sender.Idle?
    case Send(sending) =>
      && MaySend(s.sender)
      && s.radio.accepted + 1 - Oldest(s) <= MAX_OUTSTANDING
      && (s.pending ==> s.radio.accepted + 1 < s.first + MAX_PROBE_AGE)
    case Advance => !MaySend(s.sender)
    case Retry => s.sender.Tracking? && s.sender.track.Take?
    case StartCallback(_) => s.callback.Quiet? && Awaiting(s) > 0
    case StrayCallback(_) => s.callback.Quiet?
    case LoseCallback => Awaiting(s) > 0
    case AdvanceCallback => !s.callback.Quiet?
  }

  function Next(s: State, step: Step): State
    requires Enabled(s, step)
  {
    match step
    case Begin(call) => Began(s, call)
    case Send(sending) => SentBy(s, sending)
    case Advance => Advanced(s)
    case Retry => TakeAgain(s)
    case StartCallback(ok) => CallbackStarted(s, ok)
    case StrayCallback(ok) => StrayStarted(s, ok)
    case LoseCallback => CallbackLost(s)
    case AdvanceCallback => CallbackAdvanced(s)
  }
}
