# Thermostat control logic: a verified model

This project models the decision logic of a thermostat firmware (a furnace controller and its
displays, talking over ESP-NOW and MQTT) and proves what that logic is for:

- **HVAC core.** `HvacRuntime` is the controller runtime: failsafe, minimum run, off and idle times,
  maximum run, fan circulation, filter time, remote commands. `EquipmentRuns` proves the timing of
  heating and cooling over whole runs in true time and `RestGuarantee` exactly when the minimum off time
  is sure; `MinuteAccounting` is about the minute tasks, `RelayInterlock` the relay stage behind the
  runtime, `SafetyChain` the two together, and `IdleGuarantee` says exactly when the idle time between
  heating and cooling is sure. `TickDecisions` says exactly what a tick decides: failsafe, the end of a
  run and its start.
- **Command protocol.** `CommandWords` packs words; `CommandOptions` says what a merged word means;
  `ThermostatDisplay` is the display; `CommandDelivery` proves that no change of the user is lost on a
  radio that throttles, rejects, loses or delivers, and `ChosenValue` that it arrives with the value
  chosen; `DisplayRuns` numbers its words and reports; `CommandAcceptance` proves which words the
  controller takes; `ProbeTracker` is the tracker of send callbacks beside the radio's own queue,
  `TrackerCalls` what its calls do when nothing interrupts them, `CallbackNumbering` says exactly when
  its numbers are right, `LostCallbackGuard` when it gives a frame up, and `ProbeAttribution` and
  `FrameTracking` what its answers then mean, in every interleaving; `DeliveryChain` is display and
  tracker as one machine; `FrameRing` and `InboundQueue` carry frames between tasks.
- **Telemetry.** `ControllerPublishing` sends it, `AppRuns` relates the app around the runtime to the
  runtime's own results, `TelemetryMirror` proves that a display mirrors it, `ReportedState` says what
  it tells of the runtime and what the display then shows, `AckRelay` that its acknowledgement is
  neither lost nor stale.
- **Channel agreement.** `ChannelPolicy` with `ChannelSearch` and `UndisturbedPass` (the polls find a
  stationary peer and end), `ChannelDecisions` (exactly what a poll decides) and `SuspendClock` (when a
  display leaves WiFi and comes back).
- **Outage policies.** `RebootGovernor` with `RebootLadder` and `RecoveryGrid`, `RecoveryPolicy`,
  `PublishCache`.
- **Calendar.** `Calendar` and `RtcTime`.

## How it is modelled

Objects whose methods update fields are classes; each method is proved to take the old state to the
new one given by a specification function on a datatype, and the theorems are about those functions
and about runs of them (`After`, `RuntimeAfter`, `AppAfter`, ...) over any sequence of events.

Time is an unbounded number of milliseconds `t`; the code sees `At(t)`, its residue mod 2^32
(`Clock`), so every theorem in true time holds across the wrap of `millis()`. Where a theorem needs
less than 2^32 ms (or 2^31) between two moments it says so.

The callback tracker, the ring and the pending acknowledgement are step relations: every load, store
and compare-exchange is a step, the tasks interleave freely, and the atomics are taken to be
sequentially consistent. (A method cannot be interrupted, so those three are not classes; the ring
and the display's own calls are also given as methods of classes.) Radio, network, clock and sensors
are parameters of the steps. Temperatures are in tenths of a degree. Masks and shifts by constants
are written as remainders and quotients by powers of two.

## Where the code does less than its description

Each is a lemma with the input that shows it, and with the exact condition under which the code does
what is described.

- A lockout stops equipment between two ticks without recording an off time, held or not. The minimum
  off time is therefore sure exactly after a run that a tick ended, or where what is left of the idle
  time is as long (`RestGuarantee.RestIsGuaranteedExactly`). After a lockout only the idle time is left:
  since the run's own start, and since each tick that found everything had to be off
  (`RestGuarantee.IdleTimeIsAllThatIsLeft`, `IdleTimeIsKept`).
- For the same reason the idle time between heating and cooling is sure exactly unless a lockout set
  since the tick before was lifted again by the tick at which the relay goes off, and nothing must be
  off there (`IdleGuarantee.IdleTimeIsGuaranteedExactly`).
- The relay stage waits when one relay directly replaces another, but after an all-off request the
  next request comes on at once (`RelayInterlock.AllOffForgoesTheWait`).
- A start waits for the residues mod 2^32 of the stamps' ages to reach the limits, so for 49.7 days
  that is the true time, and then an old stamp looks new and puts a start off once more
  (`EquipmentRuns.StartsExactlyWhenRested`).
- A circulation period or duration of 0, which the configuration topics refuse but the constructor takes,
  means that no window closes rather than that none opens: a fan that is on
  stays on until something heats, cools or must be off (`MinuteAccounting.TickCirculates`, exactly).
- The tracker counts callbacks; it does not know which frame they are for. The count is right exactly
  while none outlives a resync, none is stray and none is lost (`CallbackNumbering.NumberingIsExact`
  with the precise balance). When the lost-callback guard gives a frame up whose callback comes after
  all, the next frame is reported delivered on it (`LateCallbackReportsNextFrame`) or waits for good
  (`LateCallbackStrandsNextFrame`). What is proved of probes, of tracked frames and in `DeliveryChain`
  of delivery is about exact numbers. A restart of the radio makes them exact again, and the clamp of
  `begin_probe` does when nothing is awaited.
- A probe is reported failed although it was acknowledged exactly when its status is read between the
  two writes of the callback that acknowledges it (`ProbeAttribution.FailedIsWrongExactly`).
- A ring number of 0 remembered for a sender means "accept anything", so the word with number 0 is
  accepted again (`CommandAcceptance.ZeroAcceptsAnything`). A word of an earlier session that is
  delayed past a restart is adopted as new, and so is then the next of the newer session
  (`DelayedSessionReplays`). A word without session, such as the controller's own for MQTT, is judged
  by its number alone but makes the controller forget the session, so that any word with one is taken
  next, even an old one (`WordWithoutSessionReplays`); the default sender mixes the two. An old word is
  applied exactly when it has a session and not the one remembered, or the number remembered is 0
  (`OldWordAppliedExactly`), so nothing is applied twice while sessions come in order, none follows
  without one, and no multiple of 512 is taken (`NothingIsAppliedTwice`).
- News from the controller after the debounce overwrites a value the display still owes, and a setpoint
  stays behind when another bin's mode is chosen before delivery; the value chosen is shown, sent and
  delivered exactly while neither happens and no one edits it again (`ChosenValue.ChosenIsShownExactly`,
  `TelemetryOverwrites`, `SetpointStaysBehind`). Merging two commands equals sending them in turn
  exactly when no setpoint stays behind (`CommandOptions.MergedInOrder`).
- A setpoint set past the command word, from settings or by MQTT in mode Off, is not published before
  the next tick or command (`TelemetryMirror.LastReportIsCurrent`).
- The candidate list holds four channels, so 11 is missing exactly when the last good channel and the
  rendezvous are different and both outside {1, 6, 11} (`ChannelSearch.CandidatesAre`).
- The due times of the reboot governor stay within one period of now exactly when less than 2^32 ms
  passed since the mark (`RecoveryGrid.MarkKeepsUp`), so not "however long the condition lasts": a
  gap between polls has to stay one period below 2^32 ms.

## Model

The table names the results and the methods through which each class is entered. Every other method
of these classes is proved against its specification function in the same way.

| member | source | states |
|---|---|---|
| HvacRuntime.ControllerRuntime.SetHvacLockout | src/controller/controller_runtime.cpp:50-61 | a lockout makes the equipment idle and drops heat, cool and fan at once, but stamps neither an off time nor the idle time |
| HvacRuntime.ControllerRuntime.ResetRemoteCommandSequence | src/controller/controller_runtime.cpp:70-78 | every sender is forgotten, in the table and the default one |
| HvacRuntime.ControllerRuntime.ApplyRemoteCommand | src/controller/controller_runtime.cpp:80-206 | the new state and the verdict: stale, sync, or applied |
| HvacRuntime.ControllerRuntime.RunEquipment | src/controller/controller_runtime.cpp:283-343 | the equipment's next phase, timers and relays from its phase, the calls and the four kinds of time limit |
| HvacRuntime.ControllerRuntime.RunMinuteTasks | src/controller/controller_runtime.cpp:352-381 | the catch-up loop, which terminates, equals the recursive accounting of the minutes owed |
| HvacRuntime.ControllerRuntime.Tick | src/controller/controller_runtime.cpp:208-213 | the four parts of a tick in their order |
| EquipmentRuns.TickMoves | src/controller/controller_runtime.cpp:208-350 | for heating and cooling alike, what a tick may do: start only from idle with the idle and off times over, go on only before the maximum run, stop only for a stated reason and with its off time stamped; the relays show the phase; nothing runs when everything must be off |
| EquipmentRuns.EventMoves | src/controller/controller_runtime.cpp:50-343 | over a run, equipment starts and is timed only by ticks, and stops between ticks only by a lockout |
| EquipmentRuns.RestAfterRun | src/controller/controller_runtime.cpp:322-343 | after a run that a tick ended, the same equipment starts again no sooner than its minimum off time, in true time, whatever happens between |
| EquipmentRuns.WhyRunsEnd | src/controller/controller_runtime.cpp:283-320 | a run ends only by a lockout, by failsafe or lockout at a tick, after its maximum, or after its minimum with no call |
| EquipmentRuns.RunsAreBounded | src/controller/controller_runtime.cpp:286-295 | with ticks at most `gap` apart and maximum + gap below 2^32, no run lasts maximum + gap, and the tick after the maximum ends it |
| EquipmentRuns.StartsExactlyWhenRested | src/controller/controller_runtime.cpp:322-337 | called for alone with nothing that must be off, equipment starts at a tick exactly when the ages of its idle and off stamps mod 2^32 have reached their limits, which below 2^32 ms are the true ages |
| TickDecisions.BootIsBooted | include/controller/controller_runtime.h:111-149 | after boot everything is off, nothing is known of a heartbeat, lockout or windows, and 20.0 and 24.0 degrees are kept |
| TickDecisions.FailsafeExactly | src/controller/controller_runtime.cpp:257-270 | over any run from boot, failsafe is on after a tick exactly when the tick had no temperature or the last heartbeat event is overdue, by the clock |
| TickDecisions.OverdueInTime | src/thermostat/thermostat_state.cpp:31-37 | below 2^32 ms overdue means more than the timeout ago in true time, and without a heartbeat more than the timeout since the clock began |
| TickDecisions.MustBeOffExactly | src/controller/controller_runtime.cpp:272-282 | everything must be off at a tick exactly with no temperature, an overdue heartbeat, or the lockout last set |
| TickDecisions.OffReachesBackend | src/esp32_controller_main.cpp:3303-3323 | and then the backend has every relay off at that very pass |
| TickDecisions.LockedOutMeansOff | src/controller/controller_runtime.cpp:50-61 | over any run from boot nothing runs from the moment a lockout is set until it is lifted, not only from the next tick |
| TickDecisions.RunEndsExactly | src/controller/controller_runtime.cpp:283-320 | at a tick a run ends exactly when everything must be off, when its age has reached the maximum, or when it has reached the minimum and it is not called for; cooling is not while windows are open |
| TickDecisions.TickStartsExactly | src/controller/controller_runtime.cpp:322-343 | idle equipment starts exactly when called for and rested, heating before cooling, and waits exactly when called for and not |
| TickDecisions.StartsOnlyWhenCalled | src/controller/controller_runtime.cpp:322-343 | over any run equipment starts only at ticks that call for it with nothing that must be off |
| TickDecisions.FlagExactly | src/controller/controller_runtime.cpp:286-317 | the maximum-run flag is set exactly by a tick that ends a run for its age, and cleared by a start or a command that changes the mode |
| RestGuarantee.RestIsGuaranteedExactly | src/controller/controller_runtime.cpp:50-61 | after a run, every continuation rests for the minimum off time exactly when a tick ended the run or what is left of the idle time since its start is as long: after any other lockout-ended run some continuation restarts too soon |
| RestGuarantee.IdleTimeIsAllThatIsLeft | src/controller/controller_runtime.cpp:322-337 | while equipment that a lockout stopped is off, some continuation restarts it as soon as the idle time since the last stamp is over |
| RestGuarantee.HeldLockoutForgoesRest | src/controller/controller_runtime.cpp:392-408 | a lockout held for any number of ticks stamps no off time either, so that the same holds when it is lifted |
| RestGuarantee.IdleTimeIsKept | src/controller/controller_runtime.cpp:322-337 | what a lockout leaves: a restart comes no sooner than the idle time after the run's own start, and after every tick since that found everything had to be off |
| MinuteAccounting.CatchUpIsWhole | src/controller/controller_runtime.cpp:358-380 | the loop accounts for exactly the whole minutes owed and leaves the remainder, less than 60 s |
| MinuteAccounting.MinutesInTrueTime | src/controller/controller_runtime.cpp:352-381 | the mark moves by whole minutes and never past now; less than a minute stays owed exactly when less than 2^32 ms passed |
| MinuteAccounting.FilterTimeIsBounded | src/controller/controller_runtime.cpp:361-363 | over any run the filter time grows by at most 60 s per elapsed true minute |
| MinuteAccounting.FilterTimeExactly | src/controller/controller_runtime.cpp:358-363 | without a reset the filter time is exactly 60 s for each minute accounted for that began with a relay on, in 32 bits |
| MinuteAccounting.EquipmentCountsAll | src/controller/controller_runtime.cpp:358-363 | with heating or cooling on at every tick that is every minute |
| MinuteAccounting.PeriodHasDuration | src/controller/controller_runtime.cpp:370 | any `period` consecutive minutes have exactly min(duration, period) open windows |
| MinuteAccounting.CirculationShare | src/controller/controller_runtime.cpp:365-376 | circulating with no heating or cooling, the fan runs exactly min(duration, period) of any `period` minutes |
| MinuteAccounting.RunKeepsShare | src/controller/controller_runtime.cpp:352-381 | over a run of events in which circulation is free at every tick, the fan is on for exactly min(duration, period) of every `period` minutes accounted for, however they fall on ticks |
| MinuteAccounting.RunCountsTrueMinutes | src/controller/controller_runtime.cpp:352-381 | those minutes are the whole ones that truly passed, with ticks less than 2^32 ms less a minute apart and no mark at residue 0 |
| MinuteAccounting.FirstTickMarks | src/controller/controller_runtime.cpp:352-356 | from boot the first tick at another clock reading than 0 sets the mark there and counts nothing yet |
| MinuteAccounting.TickCirculates | src/controller/controller_runtime.cpp:345-376 | a tick under circulation leaves the fan off beside heating and cooling, and otherwise as the window of the last minute counted says; with a period or duration of 0 it leaves the fan as it was |
| MinuteAccounting.TickCountsWindows | src/controller/controller_runtime.cpp:365-379 | the windows are counted over the minutes accounted for while circulating, anew after any minute without circulation or with everything off |
| MinuteAccounting.TickRunsFan | src/controller/controller_runtime.cpp:345-349 | always on means the fan is on exactly when nothing runs and nothing must be off; automatic means off |
| RelayInterlock.ControllerRelayIo.Begin | src/controller/controller_relay_io.cpp:5-12 | everything off and nothing active or pending |
| RelayInterlock.ControllerRelayIo.Apply | src/controller/controller_relay_io.cpp:59-107 | the new state and what the backend is told, over all five cases |
| RelayInterlock.OutputIsSafe | src/controller/controller_relay_io.cpp:59-107 | the output is at most one relay, only one demanded, none when forced off |
| RelayInterlock.ChangeoverWaits | src/controller/controller_relay_io.cpp:22-30 | a relay that replaces another with no all-off request between waits out the heat wait, for heat, or the default wait, requested throughout and with everything off |
| RelayInterlock.ChangeoverComesExactly | src/controller/controller_relay_io.cpp:88-107 | requested throughout it is on, and alone, exactly from the first request at which that wait has passed |
| RelayInterlock.RequestIsFirst | src/controller/controller_relay_io.cpp:14-21 | a request is for the first demanded of heat, cool, fan and spare, and for none when forced off |
| RelayInterlock.AllOffForgoesTheWait | src/controller/controller_relay_io.cpp:66-86 | after an all-off request any relay comes on at the very next request, whatever was on before |
| SafetyChain.EveryPassIsSafe | src/esp32_controller_main.cpp:3303-3323 | at every pass of the loop the backend sees at most one relay, one the runtime demands, all off under failsafe or lockout; heat only in a heating run, cool only in a cooling run |
| SafetyChain.OffMeansIdle | src/esp32_controller_main.cpp:3303-3323 | a relay goes off only at a tick, and the runtime becomes idle at that very tick unless a lockout since the tick before was lifted again and nothing must be off |
| SafetyChain.ChangeoverTakesIdleTime | src/controller/controller_runtime.cpp:323-337 | but for such a lockout at the moment a relay goes off, the backend sees at least the minimum idle time before the other comes on, whatever lockouts come before or after |
| IdleGuarantee.IdleTimeIsGuaranteedExactly | src/controller/controller_runtime.cpp:50-61 | where the relay of heating goes off, every continuation keeps the idle time before cooling comes on exactly unless a lockout since the tick before was lifted and nothing must be off; the same the other way round, however long the run |
| CommandWords.DecodeOfEncode | src/espnow_cmd_word.cpp:16-52 | decoding an encoded word gives it with setpoint clamped and number and session masked |
| CommandWords.WordRoundTrip | src/espnow_cmd_word.cpp:16-52 | a word survives the wire exactly when its fields fit their bits |
| CommandWords.NewerMeansLater | src/espnow_cmd_word.cpp:54-57 | for numbers up to 256 ahead and 255 behind, the ring order is the order of the unbounded numbers |
| CommandWords.SeqCounts | src/espnow_cmd_word.cpp:10 | the next ring number stands for the next number |
| CommandWords.SessionsDiffer | src/espnow_cmd_word.cpp:12-14 | the next session is 1 to 31 and never the one before |
| CommandAcceptance.TableIsAMap | src/controller/controller_runtime.cpp:83-137 | the table of senders is a map: a word is judged by its sender's memory alone, renews it, and changes no other sender's |
| CommandAcceptance.RejectedChangesNothing | src/controller/controller_runtime.cpp:108-133 | a rejected word leaves the whole runtime as it was; an unknown sender is rejected exactly when the table is full |
| CommandAcceptance.VerdictTells | src/controller/controller_runtime.cpp:80-206 | the verdict tells what became of a word: untouched, a sync that changes only what is remembered of its sender, or applied, with the filter time reset exactly when it says so |
| CommandAcceptance.SendersStayDistinct | src/controller/controller_runtime.cpp:90-114 | active entries keep distinct MACs |
| CommandAcceptance.RingIsUnbounded | src/controller/controller_runtime.cpp:83-137 | however all senders' words interleave, whether a sender has sessions, none or both, a word is accepted exactly when its sender is known or finds a free entry and the word is of another session than the last one taken, is later in full numbers, or follows a multiple of 512 |
| CommandAcceptance.BootIsBlank | include/controller/controller_runtime.h:111-149 | a new runtime, and one whose numbers were reset, knows no sender |
| CommandAcceptance.AdmittedExactly | src/controller/controller_runtime.cpp:88-114 | from boot or a reset, the default sender is always admitted and of the others exactly the first to be heard, as many as there are entries |
| CommandAcceptance.RingIsUnboundedFromBoot | src/controller/controller_runtime.cpp:83-137 | so over every run from boot or a reset a word is accepted exactly when its sender is so admitted and the word is taken, with nothing taken at first |
| CommandAcceptance.TakenGrows | src/controller/controller_runtime.cpp:118-136 | while no word of an earlier session comes after one of a later, none without session after one with, and no multiple of 512 is taken, what is taken only moves forward |
| CommandAcceptance.NothingIsAppliedTwice | src/controller/controller_runtime.cpp:118-136 | so from boot on no word is accepted after itself or a later one |
| CommandAcceptance.OldWordAppliedExactly | src/controller/controller_runtime.cpp:118-137 | a word overtaken or applied already is applied after all exactly when it has a session and not the one remembered, or the number remembered is 0 |
| CommandAcceptance.DelayedSessionReplays | src/controller/controller_runtime.cpp:118-137 | a word of the session before, delayed past a restart, is applied, and then the last word of the new session once more |
| CommandAcceptance.WordWithoutSessionReplays | src/esp32_controller_main.cpp:3188-3193 | a newer word without session makes the controller forget the session, and the word before it is applied once more |
| CommandAcceptance.ZeroAcceptsAnything | src/controller/controller_runtime.cpp:128-133 | with ring number 0 remembered any word is accepted, even that one again |
| CommandAcceptance.NewSessionIsAdopted | src/controller/controller_runtime.cpp:118-136 | a sender that restarts with the next session is heard at once |
| CommandOptions.MergeIsUnion | src/thermostat/thermostat_app.cpp:277-290 | merged options change what either changes, and sync survives only alone |
| CommandOptions.MergeIsSemilattice | src/thermostat/thermostat_app.cpp:277-290 | merging is commutative and associative, and idempotent on normalised options |
| CommandOptions.WordMeansItsParts | src/controller/controller_runtime.cpp:139-203 | a word does what its single-field words for mode, fan, setpoint and filter reset do in that order |
| CommandOptions.MergedWordMeansBoth | src/thermostat/thermostat_app.cpp:277-308 | so does the word of merged options, for the union of the changes |
| CommandOptions.MergedInOrder | src/thermostat/thermostat_app.cpp:297-301 | a merged word equals the two words in turn, on every runtime, exactly when no setpoint change is followed by a mode change |
| ThermostatDisplay.ThermostatApp.TransmitCommand | src/thermostat/thermostat_app.cpp:297-320 | the word sent, and what becomes pending or unconfirmed |
| ThermostatDisplay.ThermostatApp.SetLocalSetpoint | src/thermostat/thermostat_app.cpp:134-152 | the clamped setpoint goes into the shown mode's bin and a setpoint-only change is requested |
| ThermostatDisplay.ThermostatApp.SendPendingCommand | src/thermostat/thermostat_app.cpp:250-275 | the report is taken and a pending word sent again |
| ThermostatDisplay.ThermostatApp.ResetLocalCommandSequence | src/thermostat/thermostat_app.cpp:177-186 | number 0, the next session, and nothing owed |
| ThermostatDisplay.ThermostatApp.OnControllerHeartbeat | src/thermostat/thermostat_app.cpp:35-48 | after a long silence the next report counts as first |
| ThermostatDisplay.ThermostatApp.OnControllerTelemetry | src/thermostat/thermostat_app.cpp:50-87 | a fresh report is mirrored and acknowledged, another only acknowledged with the latest number |
| ThermostatDisplay.ThermostatApp.OnControllerStateUpdate | src/thermostat/thermostat_app.cpp:89-113 | the same state by another way, without a number |
| CommandDelivery.NextWordCarries | src/thermostat/thermostat_app.cpp:297-313 | the packed word asks for exactly what is wanted and owing, with the values shown |
| CommandDelivery.NoChangeIsLost | src/thermostat/thermostat_app.cpp:250-320 | over any run exactly the changed fields not reported delivered are un-preserved in the pending or unconfirmed options, a resend or a report is still to come, the frame awaiting its report asks for just these, and at most 4 frames are attempted per command |
| CommandDelivery.NextWordCarriesOwed | src/thermostat/thermostat_app.cpp:297-313 | whatever is sent next asks for exactly what is owed, with the values shown then |
| CommandDelivery.ControllerGetsWhatIsShown | src/controller/controller_runtime.cpp:135-206 | a controller that accepts such a word has the shown values for the fields it asks for and its own for the others |
| DisplayRuns.WordsAreNumbered | src/thermostat/thermostat_app.cpp:177-186 | over any run of edits, resends and resets the words are numbered 1, 2, 3 and so on mod 512, again from 1 after each reset, and the sessions go round 1 to 31 from the one the seed gives |
| DisplayRuns.KnowsExactly | src/thermostat/thermostat_app.cpp:35-48 | over any run the display goes by report numbers exactly while it heard a report and no silence of the reconnect time ended since |
| DisplayRuns.SilenceInTime | src/thermostat/thermostat_app.cpp:42-46 | below 2^32 ms that silence is one of true time |
| DisplayRuns.ReportIsTakenExactly | src/thermostat/thermostat_app.cpp:50-87 | a report is mirrored exactly when it is the first since boot or a silence, or 1 to 32767 ahead of the last taken, and otherwise only the last one is acknowledged again |
| DisplayRuns.KnownExactly | src/thermostat/thermostat_app.cpp:66-95 | over any run the display says that it knows the controller's state exactly when it was told one since boot |
| DisplayRuns.UpdateIsMirrored | src/thermostat/thermostat_app.cpp:89-113 | an update by another way than the radio is mirrored at any time, and shown unless an edit is still within its debounce |
| ChosenValue.ChosenIsShownExactly | src/thermostat/thermostat_app.cpp:73-152 | what the user chose is shown all along exactly while nothing disturbs it: no other edit of the field, no mode whose setpoint is another, and, after the debounce, no news that says otherwise |
| ChosenValue.ClampedIsNearest | src/thermostat/thermostat_app.cpp:134-140 | the setpoint chosen is the one from 0.0 to 40.0 degrees nearest to what was asked for |
| ChosenValue.ChosenIsSent | src/thermostat/thermostat_app.cpp:297-313 | over any run without a reset, every word from an undisturbed choice on carries the value chosen, and the report to come is on that word |
| ChosenValue.ChosenIsDelivered | src/thermostat/thermostat_app.cpp:250-320 | an undisturbed choice stays owed until a word that asks for its field and carries the value chosen is reported delivered, or the last retry has failed |
| ChosenValue.AcceptedIsObeyed | src/controller/controller_runtime.cpp:135-206 | a controller that accepts such a word has the value chosen, a setpoint in the bin of its mode |
| ChosenValue.TelemetryOverwrites | src/thermostat/thermostat_app.cpp:73-84 | the shown values survive every report exactly while debouncing or when the report is not fresh |
| ChosenValue.SetpointStaysBehind | src/thermostat/thermostat_app.cpp:115-152 | a setpoint not yet delivered when any mode is chosen: the next word still asks for a setpoint, and carries the one chosen exactly when both modes share a bin or the other bin holds the same |
| CallbackNumbering.NumberingIsExact | include/transport/espnow_probe_tracker.h:27-40 | whatever the radio does, a callback's number exceeds that of the frame it is for by the callbacks that outlived the last resync and the stray ones, less the lost ones; with none lost it is exact if and only if there are neither |
| CallbackNumbering.ResyncIsExact | include/transport/espnow_probe_tracker.h:120-136 | a resync makes the numbering exact exactly when no frame awaits its callback |
| CallbackNumbering.RestartAwaitsNothing | include/transport/espnow_probe_tracker.h:120-136 | after a restart of the radio none does |
| CallbackNumbering.ClampIsDueExactly | include/transport/espnow_probe_tracker.h:69-82 | with nothing awaited begin_probe drops completions exactly when the count has run ahead |
| CallbackNumbering.ClampRestores | include/transport/espnow_probe_tracker.h:69-82 | that leaves the numbering off by the frames still awaited, so exact when there are none |
| CallbackNumbering.LateCallbackReportsNextFrame | include/transport/espnow_probe_tracker.h:108-136 | a callback that comes after the guard gave its frame up can report the next frame delivered |
| CallbackNumbering.LateCallbackStrandsNextFrame | include/transport/espnow_probe_tracker.h:108-136 | or leave the next frame waiting with no callback to come |
| CallbackNumbering.GuardNeedsLag | include/transport/espnow_probe_tracker.h:108-119 | the guard looks further exactly when completions are behind, so it never sees such a frame |
| LostCallbackGuard.GivesUpExactly | include/transport/espnow_probe_tracker.h:120-136 | over any run with looks less than 2^32 ms less a second apart, a look that finds completions behind and no probe pending gives the frame up exactly when some look more than 1000 ms before it found the same, and every look between, with no resync since |
| LostCallbackGuard.GivesUpByClock | include/transport/espnow_probe_tracker.h:120-136 | whatever the times, exactly when the first such look is more than 1000 ms ago by the clock |
| LostCallbackGuard.OnlyLagsGiveUp | include/transport/espnow_probe_tracker.h:103-136 | nothing else but a restart of the radio gives a frame up |
| LostCallbackGuard.BehindWasRead | include/transport/espnow_probe_tracker.h:120-127 | such a look has read fewer completions than sends |
| TrackerCalls.CallbackEnds | include/transport/espnow_probe_tracker.h:29-39 | a callback that nothing interrupts ends |
| TrackerCalls.CallbackWhole | include/transport/espnow_probe_tracker.h:29-39 | and has then taken the next number, recorded an acknowledgement within a pending probe's range, and reported on the frame waited for if it has that number |
| TrackerCalls.SenderEnds | include/transport/espnow_probe_tracker.h:41-136 | every call of the sending task ends, or waits for the radio to take a frame |
| TrackerCalls.BeginProbeWhole | include/transport/espnow_probe_tracker.h:69-82 | begin_probe, run to its end, drops what completions run ahead and opens the range at the next send, with no acknowledgement in it |
| TrackerCalls.EndProbeWhole | include/transport/espnow_probe_tracker.h:86-94 | end_probe closes the range at the last send, or clears a probe of which nothing was sent |
| TrackerCalls.BeginTrackedWhole | include/transport/espnow_probe_tracker.h:44 | begin_tracked waits for the next send |
| TrackerCalls.EndTrackedWhole | include/transport/espnow_probe_tracker.h:48-55 | end_tracked reports a frame that the radio rejected as failed, forgets one that was held back, and leaves one that was accepted |
| TrackerCalls.ReportIsKept | include/transport/espnow_probe_tracker.h:53-54 | a report that a callback makes after end_tracked looked is kept |
| TrackerCalls.SendWhole | include/transport/espnow_probe_tracker.h:27 | only an accepted frame takes a number |
| TrackerCalls.TakeWhole | include/transport/espnow_probe_tracker.h:57-64 | a report is taken exactly once |
| TrackerCalls.StatusWhole | include/transport/espnow_probe_tracker.h:96-101 | status answers none without a probe, pending while the range's last send is not completed, and then acked exactly when the acknowledgement recorded is in the range |
| TrackerCalls.ResyncWhole | include/transport/espnow_probe_tracker.h:108-116 | resync leaves no probe, every send completed, and a frame waited for reported failed |
| TrackerCalls.GivenUpResyncs | include/transport/espnow_probe_tracker.h:105-116 | giving a frame up and restarting the radio both lead to a resync, and after a restart nothing is awaited |
| ProbeAttribution.RangeIsExact | include/transport/espnow_probe_tracker.h:150-155 | the wrapped range test is the true one for the numbers that occur |
| ProbeAttribution.StepKeepsInv | include/transport/espnow_probe_tracker.h:27-136 | every atomic step of sender, callback and guard, a callback lost or given up included, keeps the attribution of callbacks to probes, as long as no callback begins with another frame's number |
| ProbeAttribution.AckedIsReal | include/transport/espnow_probe_tracker.h:96-101 | with the numbering exact since a clamp or the start, Acked means an ok callback for a frame of the current probe, in every interleaving |
| ProbeAttribution.FailedIsReal | include/transport/espnow_probe_tracker.h:96-101 | Failed means all frames counted and none acknowledged but possibly the one whose callback was running |
| ProbeAttribution.FailedIsWrongExactly | include/transport/espnow_probe_tracker.h:29-39 | Failed is wrong exactly when the callback under way at the read of the completions acknowledged a frame of the probe |
| ProbeAttribution.FailedMeansNoAck | include/transport/espnow_probe_tracker.h:29-39 | with the callback as one step, Failed means no frame acknowledged |
| ProbeAttribution.FailedCanMissAnAck | include/transport/espnow_probe_tracker.h:30-33 | interrupted, an acknowledged probe can be reported failed |
| FrameTracking.MatchIsExact | include/transport/espnow_probe_tracker.h:36-38 | the compare-exchange matches exactly the tracked frame's callback, although only 30 bits are kept |
| FrameTracking.ReportIsReal | include/transport/espnow_probe_tracker.h:44-64 | with the numbering exact since a frame was tracked, Delivered means an ok callback for exactly the last tracked frame; Failed means rejected, not acknowledged, or given up |
| FrameTracking.PendingOnlyWhileAwaited | include/transport/espnow_probe_tracker.h:44-64 | a frame stays pending only while its callback is under way or completions are behind, which the guard sees |
| DeliveryChain.DisplayRefines | src/thermostat/transport/espnow_thermostat_transport.cpp:150-170 | display and tracker as one machine, in every interleaving with callbacks, guard and other frames: what the display goes through is a run of the display on a radio that simply reports |
| DeliveryChain.NoChangeIsLost | src/thermostat/thermostat_app.cpp:250-320 | so exactly the changes owed stay in a word to be sent again or in one whose report is to come, with at most 4 frames |
| DeliveryChain.OwedUntilAcknowledged | src/thermostat/thermostat_app.cpp:250-272 | a change stays owed until the display takes a report on a frame that the radio acknowledged and whose word asks for that field, or the last retry has failed, or the display's numbers are reset |
| FrameRing.SpscRing.Push | include/spsc_ring.h:19-25 | appends, or fails exactly when full |
| FrameRing.SpscRing.Pop | include/spsc_ring.h:28-34 | takes the oldest, or fails exactly when empty |
| FrameRing.RefinesBoundedQueue | include/spsc_ring.h:19-34 | every atomic step of producer and consumer is a step of a bounded queue, across the wrap of the indices |
| FrameRing.UnreadSlotsAreKept | include/spsc_ring.h:22 | no unread slot is overwritten |
| FrameRing.WholePush | include/spsc_ring.h:19-25 | the four steps of a push lead to the end of the call and append the item, unless the queue is full |
| FrameRing.WholePop | include/spsc_ring.h:28-34 | and those of a pop take the oldest, unless there is none |
| FrameRing.PoppedIsPrefixOfPushed | include/spsc_ring.h:19-34 | in every interleaving what was popped is a prefix of what was pushed |
| InboundQueue.ControllerNode.Enqueue | src/controller/controller_node.cpp:72-88 | the frame is queued, or counted as dropped when the queue is full |
| InboundQueue.ControllerNode.DrainInbound | src/controller/controller_node.cpp:90-95 | the queue is emptied in order |
| InboundQueue.TallyOfDrain | src/controller/controller_node.cpp:90-129 | draining applies exactly the frames that pass the gate, counts the others, and records the longest wait |
| InboundQueue.FramesAreConserved | src/controller/controller_node.cpp:72-129 | frames received = applied + gated + dropped + queued, in every interleaving |
| InboundQueue.EachFrameHasItsTurn | src/controller/controller_node.cpp:90-129 | in every interleaving the frames are dealt with in the order they were queued, each gated exactly when it is a command word and command words are disabled at that moment, and applied otherwise |
| ControllerPublishing.ControllerApp.Publish | src/controller/controller_app.cpp:212-235 | an unchanged payload is not sent; a changed one is, with the next number that is not 0 |
| ControllerPublishing.ControllerApp.ComputeHvacCalls | src/controller/controller_app.cpp:171-210 | heat and cool calls with deadband and overrun |
| ControllerPublishing.CallsHaveHysteresis | src/controller/controller_app.cpp:171-210 | between its thresholds a call stays as the relay is, beyond them it does not depend on it, and heat and cool are never both called |
| ControllerPublishing.ControllerApp.Tick | src/controller/controller_app.cpp:125-145 | calls, a pending publish, the tick, and a publish |
| ControllerPublishing.ControllerApp.OnCommandWord | src/controller/controller_app.cpp:52-63 | the word is applied and a publish owed if it was accepted |
| ControllerPublishing.ControllerApp.SetHvacLockout | src/controller/controller_app.cpp:74-77 | the lockout, published |
| AppRuns.AppRunsRuntime | src/controller/controller_app.cpp:48-145 | over any run of the app its runtime goes through a run of the events that the equipment's results are about |
| AppRuns.TemperatureStarts | src/controller/controller_app.cpp:125-210 | idle and rested equipment starts at a tick exactly when the mode asks for it, the temperature is off the target by the deadband or more, and nothing must be off |
| AppRuns.TemperatureEnds | src/controller/controller_app.cpp:125-210 | and goes on exactly while nothing must be off, the maximum is not reached, and the minimum is not over or the temperature has not passed the target by the overrun |
| AppRuns.AckIsLatest | src/controller/controller_app.cpp:65-72 | the latest report acknowledged is remembered in full numbers through repeats and late arrivals |
| AppRuns.EarlyAckIsIgnored | src/controller/controller_app.cpp:66-68 | before any report an acknowledgement is ignored |
| TelemetryMirror.LastReportIsCurrent | src/controller/controller_app.cpp:132-145 | after every tick the last report is the runtime's current payload; in between too unless a command waits to be published, but for a setpoint set past the command word since, and then exactly while the reported setpoint is still the setpoint |
| TelemetryMirror.BumpCounts | src/controller/controller_app.cpp:226-229 | the numbers are 1 to 65535 over and over, never 0 |
| TelemetryMirror.ReportsAreNumbered | src/controller/controller_app.cpp:226-234 | the i-th report published has the i-th number and the last one published is remembered |
| TelemetryMirror.NewerExactly | src/thermostat/thermostat_app.cpp:30-33 | exactly how far ahead a report may be and count as newer, with the skipped 0; a repeat is not newer |
| TelemetryMirror.DisplayMirrorsLatest | src/thermostat/thermostat_app.cpp:50-87 | through losses of up to 32765 reports in a row, repeats and late arrivals, the display mirrors the latest report heard and owes an acknowledgement for no other |
| TelemetryMirror.MirrorIsCurrent | src/controller/controller_app.cpp:132-145 | end to end, a display that heard the last report mirrors the runtime |
| ReportedState.TickReportsExactly | src/controller/controller_runtime.cpp:222-229 | after a tick of any run from boot, which state is reported for which run, fan, mode and reason to be off, each exactly |
| ReportedState.CodesRoundTrip | src/thermostat/thermostat_app.cpp:205-230 | modes and fan modes survive their codes, but for the unnamed ones |
| ReportedState.DisplayShowsRuntime | src/thermostat/thermostat_app.cpp:50-87 | a display that hears a fresh report mirrors the runtime field by field, and past its debounce shows its mode, fan mode and setpoint |
| ReportedState.DebouncingExactly | src/thermostat/thermostat_app.cpp:73-77 | the debounce lasts exactly its time after an interaction, one at clock 0 excepted |
| AckRelay.OnlyLatestIsOwed | src/thermostat/thermostat_app.cpp:235-248 | every interleaved step keeps: only the latest number is pending, and until answered it is pending or in the loop's hands |
| AckRelay.NoAckIsLost | src/thermostat/thermostat_app.cpp:235-248 | between calls of the loop the latest number is still owed unless it was answered |
| AckRelay.HeardIsOwed | src/thermostat/thermostat_app.cpp:235-237 | what is heard is owed at once |
| AckRelay.CallAnswers | src/thermostat/thermostat_app.cpp:239-248 | a call of the loop answers the latest number, or leaves it owed when the frame is held back, and does nothing when none is owed |
| AckRelay.NewerIsOwedAfterCall | src/thermostat/thermostat_app.cpp:242-247 | a number heard while the loop has another in its hands is the one owed afterwards, sent or not |
| ChannelPolicy.EspNowChannelPolicy.BuildCandidates | src/transport/espnow_channel_policy.cpp:41-47 | the candidates in their order, at least one |
| ChannelPolicy.EspNowChannelPolicy.OnProbeResult | src/transport/espnow_channel_policy.cpp:49-54 | only a result for the outstanding probe counts |
| ChannelPolicy.EspNowChannelPolicy.RunSearch | src/transport/espnow_channel_policy.cpp:125-180 | a poll with the radio free |
| ChannelPolicy.EspNowChannelPolicy.PollAssociated | src/transport/espnow_channel_policy.cpp:101-115 | a poll on an access point, and when WiFi is left |
| ChannelPolicy.EspNowChannelPolicy.Poll | src/transport/espnow_channel_policy.cpp:56-181 | the whole poll |
| ChannelSearch.CandidatesAre | src/transport/espnow_channel_policy.cpp:31-47 | the candidates are distinct and are the last good channel, the rendezvous, 1, 6 and 11, of which 11 is missing exactly in one case |
| ChannelSearch.PassProbesEachOnce | src/transport/espnow_channel_policy.cpp:142-180 | a pass of the search without acknowledgement probes each candidate exactly once, in order |
| ChannelSearch.PassFindsPeer | src/transport/espnow_channel_policy.cpp:166-180 | a pass of the search ends holding on the one candidate whose probes are acknowledged |
| ChannelSearch.PassEnds | src/transport/espnow_channel_policy.cpp:149-180 | a pass of the search is over within as many rounds as it has candidates |
| UndisturbedPass.PolicyRunsSearch | src/transport/espnow_channel_policy.cpp:56-180 | undisturbed polls of the whole policy, WiFi clock included, from an ordinary poll with a pass due run exactly that search |
| UndisturbedPass.PollsProbeEachOnce | src/transport/espnow_channel_policy.cpp:142-180 | so without acknowledgement they probe each candidate exactly once, in order |
| UndisturbedPass.PollsFindPeer | src/transport/espnow_channel_policy.cpp:166-180 | a peer that acknowledges exactly the probes on one candidate is found: they end holding there |
| UndisturbedPass.PollsEnd | src/transport/espnow_channel_policy.cpp:149-180 | with polls at most `gap` apart the pass is over within four times probe timeout + 3 gaps |
| ChannelDecisions.ProbeIsDecidedExactly | src/transport/espnow_channel_policy.cpp:49-180 | over any run of undisturbed polls, a probe with no outcome reported for its channel is awaited exactly while less than the timeout has passed; acknowledged, the search holds there with that channel the last good one; otherwise it goes to the next candidate, or rests after the last |
| ChannelDecisions.NextPassExactly | src/transport/espnow_channel_policy.cpp:125-147 | the next pass begins exactly when the hold is over, if the peer was found, and the search interval has passed since the last one began; while it holds the radio stays, and otherwise it waits on the rendezvous |
| ChannelDecisions.LinkedExactly | src/transport/espnow_channel_policy.cpp:20-23 | below 2^32 ms the peer counts as heard exactly while its last frame is less than the link timeout ago |
| ChannelDecisions.WhereHeard | src/transport/espnow_channel_policy.cpp:96-123 | an access point on channel 1 to 14 owns the channel, which is the last good one exactly when the peer is heard there; heard off WiFi, the present channel is the last good one and the radio stays |
| ChannelDecisions.InterruptedBeginsAtOnce | src/transport/espnow_channel_policy.cpp:25-29 | after a poll that WiFi or the peer interrupted, the first poll with the radio free begins a pass at once, on the last good channel or else on the rendezvous |
| ChannelDecisions.BootProbesRendezvous | src/transport/espnow_channel_policy.cpp:12-18 | from boot the first poll with the radio free probes the rendezvous configured if that is 1 to 14, and channel 6 otherwise |
| SuspendClock.MovesOnlyWhenFree | src/transport/espnow_channel_policy.cpp:96-180 | the radio is moved or probes only off the access point and with the peer not heard |
| SuspendClock.SuspendTakesTime | src/transport/espnow_channel_policy.cpp:72-114 | WiFi is left only by a display that does not hear its peer, after at least the limit of true time on an access point with MQTT down |
| SuspendClock.SuspensionsAreSpaced | src/transport/espnow_channel_policy.cpp:60-114 | two suspensions are at least resume interval + resume window apart |
| SuspendClock.SuspendsExactly | src/transport/espnow_channel_policy.cpp:66-115 | over any run a display on WiFi and not on trial leaves it exactly when it is on an access point with MQTT down, does not hear its peer, and the time so counted has come to the limit: through breaks shorter than the reset gap, at most a second a poll |
| SuspendClock.CountsTrueTime | src/transport/espnow_channel_policy.cpp:74-85 | polled at least every second without a break, the time counted is the true time since MQTT was first seen down |
| SuspendClock.ResumesExactly | src/transport/espnow_channel_policy.cpp:86-94 | it goes back at the first poll at or after the resume interval and not before |
| SuspendClock.TrialLastsExactly | src/transport/espnow_channel_policy.cpp:60-64 | and is then on trial for exactly the resume window |
| RebootGovernor.NetworkRebootGovernor.TakeDue | src/network_reboot_governor.cpp:27-32 | whether a period has passed, and the mark moved by whole periods |
| RebootGovernor.NetworkRebootGovernor.MsUntilReboot | src/network_reboot_governor.cpp:34-39 | the time announced until the reboot |
| RebootGovernor.NetworkRebootGovernor.Poll | src/network_reboot_governor.cpp:41-102 | the whole poll |
| RebootLadder.RebootTakesThreshold | src/network_reboot_governor.cpp:92-99 | a reboot comes no sooner than its threshold into the isolation |
| RebootLadder.RebootsAreSpaced | src/network_reboot_governor.cpp:5-16 | over any number of boots, n reboots take at least the sum of the first n thresholds unless the device was healthy long enough |
| RebootLadder.AtMostThreeRebootsInADay | include/network_reboot_governor.h:20-23 | with the defaults an outage has at most three reboots in its first 24 hours |
| RebootLadder.OneRebootPerEpisode | src/network_reboot_governor.cpp:89-99 | within a boot two reboots are separated by a poll that was not isolated |
| RebootLadder.ColdBootNeverActs | src/network_reboot_governor.cpp:43-45 | a boot with count 0 and no network yet never acts |
| RebootLadder.HealthySince | src/network_reboot_governor.cpp:60-70 | healthy means no isolated poll since the time stamped |
| RecoveryGrid.MarkKeepsUp | src/network_reboot_governor.cpp:27-32 | the mark stays on its grid and not past now, and within one period exactly when less than 2^32 ms passed |
| RecoveryGrid.MarkStaysOnGrid | src/network_reboot_governor.cpp:49-58 | with gaps of at most 2^32 ms less one period the mark is the last grid point, however long MQTT is down and whichever polls are isolated |
| RecoveryGrid.LinkedPollRecoversExactly | src/network_reboot_governor.cpp:49-70 | a linked poll recovers exactly when a due time came since the poll before, so one seen by an isolated poll is skipped and not made up for |
| RecoveryGrid.RecoveriesCountPeriods | src/network_reboot_governor.cpp:49-70 | polled once per period or more often, the recoveries and the due times skipped while isolated are together exactly floor(elapsed / period) |
| RecoveryGrid.FirstRecoveryExactly | src/network_reboot_governor.cpp:74-101 | while isolated the first recovery comes at the first poll at least recover_after into it |
| RecoveryGrid.RecoveriesRepeatExactly | src/network_reboot_governor.cpp:89-101 | and then one at every poll since which a multiple of recover_repeat came, counted from the last multiple of recover_after |
| RecoveryGrid.CountExpiresExactly | src/network_reboot_governor.cpp:60-70 | the stored count expires exactly once the device was not isolated for the healthy time |
| RecoveryGrid.RebootComesAsAnnounced | src/network_reboot_governor.cpp:34-39 | if the reboot is announced in r > 0 ms and isolation lasts, it comes at the first poll at or after r and not before |
| RecoveryPolicy.NetworkRecoveryPolicy.Poll | src/controller/network_recovery_policy.cpp:5-49 | wait, connect, restart or reboot |
| RecoveryPolicy.NetworkRecoveryPolicy.OnConnectFailed | src/controller/network_recovery_policy.cpp:62-81 | one more failure and the next backoff from the attempt's start |
| RecoveryPolicy.NetworkRecoveryPolicy.OnDisconnected | src/controller/network_recovery_policy.cpp:83-97 | failures and backoff reset, restarts kept |
| RecoveryPolicy.BackoffDoubles | src/controller/network_recovery_policy.cpp:66-75 | doubling under a cap steps min(base * 2^(k-1), max) |
| RecoveryPolicy.BackoffIsClosedForm | src/controller/network_recovery_policy.cpp:5-97 | over any run of polls, failures, connections and drops the backoff after k failures in a row is min(base * 2^(k-1), max), and nothing is done sooner than that after the attempt began |
| RecoveryPolicy.PollActsExactly | src/controller/network_recovery_policy.cpp:5-49 | over any run, what a poll asks for: nothing with a connection or attempt under way, a reboot again once asked for, and otherwise, exactly from the last attempt + min(base * 2^(k-1), max) on, the next attempt while k < fails_before_restart, then a restart, or a reboot where enabled after enough restarts |
| RecoveryPolicy.FailsSeparateRestarts | src/controller/network_recovery_policy.cpp:27-43 | exactly fails_before_restart failed attempts separate two restarts with no connection or drop between |
| PublishCache.MqttPublishDedup.Hash | include/mqtt_publish_dedup.h:49-57 | the loop computes FNV-1a |
| PublishCache.MqttPublishDedup.Offer | include/mqtt_publish_dedup.h:23-40 | whether to send, and the entry recorded |
| PublishCache.FnvVectors | include/mqtt_publish_dedup.h:49-57 | the published test vectors of 32-bit FNV-1a |
| PublishCache.OfferIsSentExactly | include/mqtt_publish_dedup.h:23-40 | a payload is sent exactly when its topic has none recorded, or another one and the interval since has passed in true time |
| PublishCache.CacheAgreesWithBroker | src/esp32_controller_main.cpp:2247-2251 | through failed publishes and resets every cached entry matches what the broker retains |
| PublishCache.OfferedIsRetained | src/esp32_controller_main.cpp:2247-2251 | with no minimum interval an offered payload is retained unless its publish failed, and sent exactly when the broker holds another |
| PublishCache.HeldBackOnlyByInterval | include/mqtt_publish_dedup.h:33-36 | a changed payload is held back only by the interval |
| PublishCache.FailedIsResent | src/esp32_controller_main.cpp:2250 | after a failed publish the next offer is sent |
| PublishCache.ResetIsResent | src/esp32_controller_main.cpp:2258-2262 | after a reconnect or a refresh the next offer of every topic is sent |
| Calendar.DaysByMarchYear | include/controller/pcf85063_rtc.h:35-42 | the day number in eras is a plain formula in years beginning in March |
| Calendar.SuccessiveDays | include/controller/pcf85063_rtc.h:35-42 | day 0 is 1970-01-01 and each next date is one more, before and after |
| Calendar.YearOfEraIsExact | include/controller/pcf85063_rtc.h:49 | the year within an era is recovered on every day |
| Calendar.CivilOfDaysOfCivil | include/controller/pcf85063_rtc.h:35-56 | the date is recovered from its day number |
| Calendar.DaysOfCivilOfDays | include/controller/pcf85063_rtc.h:35-56 | every day number has a valid date that maps back to it |
| Calendar.ClosedFormCountsDays | include/controller/pcf85063_rtc.h:35-56 | both closed forms agree with a calendar that counts day by day |
| RtcTime.WeekdayCountsDays | include/controller/pcf85063_rtc.h:79-81 | the weekday counts from Thursday 1970-01-01, before it too |
| RtcTime.EpochRoundTrip | include/controller/pcf85063_rtc.h:59-83 | epoch to civil time and back is the identity exactly when the year fits 16 bits |
| RtcTime.CivilRoundTrip | include/controller/pcf85063_rtc.h:59-83 | valid civil time to epoch and back is the identity, the weekday being computed |
| RtcTime.EpochIsPosix | include/controller/pcf85063_rtc.h:59-63 | from 1970 on the epoch is the formula of section 4.16 (Seconds Since the Epoch) of IEEE Std 1003.1-2017 |
| RtcTime.BcdRoundTrip | include/controller/pcf85063_rtc.h:17-18 | a byte survives a masked BCD register exactly when its tens fit |
| RtcTime.RegistersRoundTrip | src/controller/pcf85063_rtc.cpp:5-25 | a time survives the registers exactly when it is storable |
| RtcTime.RegisterHoldsField | src/controller/pcf85063_rtc.cpp:17-25 | the registers 0x04 to 0x0A hold the digits of second, minute, hour, day, weekday, month and year in this order, tens in the high nibble |
| RtcTime.EpochThroughRegisters | src/controller/pcf85063_rtc.cpp:5-25 | epoch to registers and all the way back is the identity for 2000-2099 |
| RtcTime.Encode | src/controller/pcf85063_rtc.cpp:17-25 | the seven registers, oscillator flag clear |
| RtcTime.Decode | src/controller/pcf85063_rtc.cpp:5-15 | the time, and the oscillator flag |
| Clock.SinceIsElapsed | src/controller/controller_runtime.cpp:383-390 | a wrapped difference never overstates the time passed, and is exact below 2^32 ms |

## Left out

- Radio, WiFi, Ethernet, MQTT client, NVS, I2C, relay backend and OTA calls: parameters or environment steps.
- Web and LVGL user interfaces, discovery topics, weather, provisioning, most of the two main programs: no invariant to prove.
- Audit log, breadcrumbs, device registry, fail window, screen controller, MAC and key parsing: they would add easy members only.
- Weak memory ordering: atomics are sequentially consistent.
- Floating point: temperatures are integers in tenths, the filter time is compared in seconds where the code compares hours in `float`, and NaN and rounding are not modelled.
- Choice of the primary sensor and humidity in the controller app; persistence of the filter time.
- The fallback of a display whose radio is not initialised, which reports every command as sent: `CommandDelivery` is about a radio that reports delivery.
- ControllerPublishing.ControllerApp.Publish: compares the filter time in seconds, where the code compares hours in `float`.
- TelemetryMirror.MirrorIsCurrent: the packet's encoding of the setpoint and the filter time, which the display decodes again, is not modelled.
- The send throttle's own clock: `sent` and `Throttles` are the environment's choice.
- Overflow of diagnostic counters (passes, sends, drops in the interleaved queue) and of the `int` minute counter of the fan.
- RtcTime.EpochRoundTrip: `long` is unbounded here; on the target it has 32 bits, which is enough for the days and seconds of the range the clock supports.
- PublishCache.CacheAgreesWithBroker: FNV-1a is taken to be injective on the strings in use, and a publish that the client reports as sent to have reached the broker.
- RebootLadder.RebootsAreSpaced: requires fewer than 2^32 - 1 reboots, because the stored count wraps.
- RecoveryPolicy.BackoffIsClosedForm: requires base <= max < 2^31, because the code doubles in 32 bits before it caps.
- RecoveryPolicy.PollActsExactly: requires the same, fewer than 2^32 - 1 restarts since the last connection, and after failures a poll less than 2^31 ms past the due time, beyond which the code takes it for one to come.
- CommandAcceptance.RingIsUnbounded: requires, unless any word would be taken, that the sessions of a sender's word and of the last one taken are less than 31 restarts apart, and where numbers decide that it is at most 255 behind and 256 ahead, which is what five and nine bits can tell apart.
- CommandAcceptance.RingIsUnboundedFromBoot: the same.
- FrameTracking.ReportIsReal: requires that since the frame was tracked no callback began with another frame's number, and at most 2^28 callbacks outstanding; `CallbackNumbering` says exactly when that is so and what happens otherwise.
- FrameTracking.PendingOnlyWhileAwaited: the same.
- ProbeAttribution.AckedIsReal: requires the same since the start or a probe begun with the numbering exact, with at most 2^28 callbacks outstanding and 2^30 frames in a probe, far above what the radio queues.
- DeliveryChain.OwedUntilAcknowledged: requires that no callback begins with another frame's number, as FrameTracking does; the display hears telemetry between two calls of the tracker, as its one task does.
- MinuteAccounting.RunCountsTrueMinutes: excludes a mark at residue 0, which the code reads as no mark and sets anew at the next tick.
- LostCallbackGuard.GivesUpExactly: requires that sends and completions stay less than 2^31 apart, as far as the code can compare them.
- AppRuns.AckIsLatest: requires acknowledgements of the last 65534 reports, at most 32766 before or after the latest acknowledged, which is what 16 bits can tell apart.
- ChannelDecisions.NextPassExactly: requires a poll less than 2^32 ms after the last pass began.
- SuspendClock.SuspendsExactly: requires the time counted to stay below 2^32 ms.
- RecoveryGrid.RecoveriesRepeatExactly: requires the episode to be shorter than 2^32 ms less a repeat time, and no reboot in it so far.
