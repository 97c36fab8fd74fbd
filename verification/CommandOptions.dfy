/**
 What a display wants a command word to change, and what the controller makes of the word: a word
 for several changes means the single-field words for each of them.
 */
module CommandOptions {
  import opened CommandWords
  import opened HvacRuntime

  /** A field is changed unless it is preserved. */
  datatype Options = Options(
    syncRequest: bool, filterReset: bool, preserveMode: bool, preserveFan: bool, preserveSetpoint: bool)

  const MODE_CHANGE := Options(false, false, false, true, true)
  const FAN_CHANGE := Options(false, false, true, false, true)
  const SETPOINT_CHANGE := Options(false, false, true, true, false)
  const SYNC := Options(true, false, true, true, true)
  const FILTER_RESET := Options(false, true, true, true, true)

  datatype Field = ModeField | FanField | SetpointField | FilterField

  function Changes(o: Options): set<Field> {
    (if o.preserveMode then {} else {ModeField}) + (if o.preserveFan then {} else {FanField})
    + (if o.preserveSetpoint then {} else {SetpointField}) + (if o.filterReset then {FilterField} else {})
  }

  /** A sync request stands alone: the controller applies nothing else from its word. */
  predicate Normalised(o: Options) {
    o.syncRequest ==> Changes(o) == {}
  }

  function Merge(a: Options, b: Options): Options {
    var filterReset := a.filterReset || b.filterReset;
    var mode, fan := a.preserveMode && b.preserveMode, a.preserveFan && b.preserveFan;
    var setpoint := a.preserveSetpoint && b.preserveSetpoint;
    Options((a.syncRequest || b.syncRequest) && !filterReset && mode && fan && setpoint,
            filterReset, mode, fan, setpoint)
  }

  /** Merging is the union of the changes; a sync survives only when there are none. */
  lemma MergeIsUnion(a: Options, b: Options)
    ensures Changes(Merge(a, b)) == Changes(a) + Changes(b)
    ensures Normalised(Merge(a, b))
    ensures Merge(a, b).syncRequest <==> (a.syncRequest || b.syncRequest) && Changes(a) + Changes(b) == {}
  {
    forall f: Field ensures f in Changes(Merge(a, b)) <==> f in Changes(a) || f in Changes(b) {
    }
    assert Changes(a) + Changes(b) == {} <==> Changes(a) == {} && Changes(b) == {};
  }

  /** Two normalised options with the same changes and sync request are the same. */
  lemma ChangesDetermine(a: Options, b: Options)
    requires Changes(a) == Changes(b) && a.syncRequest == b.syncRequest
    ensures a == b
  {
    assert forall f: Field :: f in Changes(a) <==> f in Changes(b);
    assert a.preserveMode == b.preserveMode by {
      assert ModeField in Changes(a) <==> !a.preserveMode;
      assert ModeField in Changes(b) <==> !b.preserveMode;
    }
    assert a.preserveFan == b.preserveFan by {
      assert FanField in Changes(a) <==> !a.preserveFan;
      assert FanField in Changes(b) <==> !b.preserveFan;
    }
    assert a.preserveSetpoint == b.preserveSetpoint by {
      assert SetpointField in Changes(a) <==> !a.preserveSetpoint;
      assert SetpointField in Changes(b) <==> !b.preserveSetpoint;
    }
    assert a.filterReset == b.filterReset by {
      assert FilterField in Changes(a) <==> a.filterReset;
      assert FilterField in Changes(b) <==> b.filterReset;
    }
  }

  /** Commands merge in any order and any grouping, and merging one twice changes nothing. */
  lemma MergeIsSemilattice(a: Options, b: Options, c: Options)
    ensures Merge(a, b) == Merge(b, a)
    ensures Merge(Merge(a, b), c) == Merge(a, Merge(b, c))
    ensures Normalised(a) ==> Merge(a, a) == a
  {
    if Normalised(a) {
      MergeIsUnion(a, a);
      ChangesDetermine(Merge(a, a), a);
    }
    hide Changes;
  }

  // ---- Words --------------------------------------------------------------------------

  /** What the display shows: the setpoint is the one of the mode shown. */
  datatype Local = Local(mode: FurnaceMode, fan: FanMode, setpoint: nat)

  function WordOf(o: Options, v: Local, number: nat, session: nat): CommandWord {
    CommandWord(v.mode, v.fan, v.setpoint, number, o.filterReset, o.syncRequest,
                o.preserveMode, o.preserveFan, o.preserveSetpoint, session)
  }

  /** What an accepted word does to the runtime beyond the sender's entry. */
  function Executed(r: Runtime, cmd: CommandWord): Runtime {
    if cmd.syncRequest then r else Applied(r, cmd)
  }

  /** A rejected word does nothing; an accepted one is executed on the runtime with the sender's entry renewed. */
  lemma AcceptedIsExecuted(r: Runtime, cmd: CommandWord, mac: seq<bv8>)
    ensures var (tracking, accepted) := Checked(r.tracking, cmd, mac);
            Commanded(r, cmd, mac).0
                == if accepted then Executed(r.(tracking := tracking), cmd) else r.(tracking := tracking)
  {
    hide Checked, Applied;
  }

  function ExecutedAll(r: Runtime, words: seq<CommandWord>): Runtime
    decreases |words|
  {
    if words == [] then r else ExecutedAll(Executed(r, words[0]), words[1..])
  }

  lemma {:induction false} ExecutedInTurn(r: Runtime, first: seq<CommandWord>, rest: seq<CommandWord>)
    ensures ExecutedAll(r, first + rest) == ExecutedAll(ExecutedAll(r, first), rest)
    decreases |first|
  {
    hide Executed;
    if first == [] {
      assert first + rest == rest;
    } else {
      assert (first + rest)[0] == first[0] && (first + rest)[1..] == first[1..] + rest;
      ExecutedInTurn(Executed(r, first[0]), first[1..], rest);
    }
  }

  /** The word alone, if the change is wanted. */
  function Part(o: Options, f: Field, v: Local, number: nat, session: nat): seq<CommandWord> {
    if f !in Changes(o) then []
    else
      match f
      case ModeField => [WordOf(MODE_CHANGE, v, number, session)]
      case FanField => [WordOf(FAN_CHANGE, v, number, session)]
      case SetpointField => [WordOf(SETPOINT_CHANGE, v, number, session)]
      case FilterField => [WordOf(FILTER_RESET, v, number, session)]
  }

  /** The single-field words in the order mode, fan, setpoint, filter reset. */
  function Parts(o: Options, v: Local, number: nat, session: nat): seq<CommandWord> {
    Part(o, ModeField, v, number, session) + Part(o, FanField, v, number, session)
    + Part(o, SetpointField, v, number, session) + Part(o, FilterField, v, number, session)
  }

  lemma PartAlone(r: Runtime, o: Options, f: Field, v: Local, number: nat, session: nat)
    ensures ExecutedAll(r, Part(o, f, v, number, session))
            == if Part(o, f, v, number, session) == [] then r else Executed(r, Part(o, f, v, number, session)[0])
  {
    hide Executed, Changes;
  }

  /** A word for several changes does what the single-field words do, in the order mode, fan, setpoint, filter reset. */
  lemma WordMeansItsParts(r: Runtime, o: Options, v: Local, number: nat, session: nat)
    requires Normalised(o)
    ensures Executed(r, WordOf(o, v, number, session)) == ExecutedAll(r, Parts(o, v, number, session))
  {
    var p1, p2 := Part(o, ModeField, v, number, session), Part(o, FanField, v, number, session);
    var p3, p4 := Part(o, SetpointField, v, number, session), Part(o, FilterField, v, number, session);
    var r1 := ExecutedAll(r, p1);
    var r2 := ExecutedAll(r1, p2);
    var r3 := ExecutedAll(r2, p3);
    ExecutedInTurn(r, p1, p2);
    ExecutedInTurn(r, p1 + p2, p3);
    ExecutedInTurn(r, p1 + p2 + p3, p4);
    PartAlone(r, o, ModeField, v, number, session);
    PartAlone(r1, o, FanField, v, number, session);
    PartAlone(r2, o, SetpointField, v, number, session);
    PartAlone(r3, o, FilterField, v, number, session);
    StepsMakeWord(r, r1, r2, r3, o, v, number, session);
    hide Executed, Part;
  }

  lemma StepsMakeWord(r: Runtime, r1: Runtime, r2: Runtime, r3: Runtime, o: Options, v: Local, number: nat,
                      session: nat)
    requires Normalised(o)
    requires r1 == if o.preserveMode then r else Executed(r, WordOf(MODE_CHANGE, v, number, session))
    requires r2 == if o.preserveFan then r1 else Executed(r1, WordOf(FAN_CHANGE, v, number, session))
    requires r3 == if o.preserveSetpoint then r2 else Executed(r2, WordOf(SETPOINT_CHANGE, v, number, session))
    ensures Executed(r, WordOf(o, v, number, session))
            == if o.filterReset then Executed(r3, WordOf(FILTER_RESET, v, number, session)) else r3
  {
    if o.syncRequest {
      assert o.preserveMode by { assert ModeField !in Changes(o); }
      assert o.preserveFan by { assert FanField !in Changes(o); }
      assert o.preserveSetpoint by { assert SetpointField !in Changes(o); }
      assert !o.filterReset by { assert FilterField !in Changes(o); }
    }
    hide Changes;
  }

  /** In particular the word for two merged commands means the single-field words for either's changes. */
  lemma MergedWordMeansBoth(r: Runtime, a: Options, b: Options, v: Local, number: nat, session: nat)
    ensures var m := Merge(a, b);
            && Executed(r, WordOf(m, v, number, session)) == ExecutedAll(r, Parts(m, v, number, session))
            && Changes(m) == Changes(a) + Changes(b)
  {
    MergeIsUnion(a, b);
    WordMeansItsParts(r, Merge(a, b), v, number, session);
    hide Executed, Parts, Merge, Changes, WordOf;
  }

  // ---- One command after the other ----------------------------------------------------

  /** A merged word does what the two words do one after the other, on every runtime. */
  ghost predicate MeansOneAfterOther(a: Options, b: Options, v: Local, number: nat, session: nat) {
    forall r: Runtime ::
      OneAfterOther(r, a, b, v, number, session) == Executed(r, WordOf(Merge(a, b), v, number, session))
  }

  function OneAfterOther(r: Runtime, a: Options, b: Options, v: Local, number: nat, session: nat): Runtime {
    Executed(Executed(r, WordOf(a, v, number, session)), WordOf(b, v, number, session))
  }

  /** The first command sets the setpoint of the old mode and the second leaves that mode. */
  predicate LosesSetpoint(a: Options, b: Options) {
    !a.preserveSetpoint && a.preserveMode && !b.preserveMode
  }

  /**
   Merging two commands is the same as sending them in turn exactly when no setpoint change is
   followed by a mode change: then the merged word sets the new mode's setpoint and the old one is lost.
   */
  lemma MergedInOrder(a: Options, b: Options, v: Local, number: nat, session: nat)
    requires Normalised(a) && Normalised(b)
    ensures MeansOneAfterOther(a, b, v, number, session) <==> !LosesSetpoint(a, b)
  {
    if LosesSetpoint(a, b) {
      SetpointLost(a, b, v, number, session);
      var r := Elsewhere(v);
      assert OneAfterOther(r, a, b, v, number, session) != Executed(r, WordOf(Merge(a, b), v, number, session));
    } else {
      forall r: Runtime
        ensures OneAfterOther(r, a, b, v, number, session) == Executed(r, WordOf(Merge(a, b), v, number, session))
      {
        NothingLost(r, a, b, v, number, session);
      }
    }
    hide OneAfterOther, Executed, Merge, WordOf;
  }

  /** A runtime in another mode than the word's, with that mode's setpoint elsewhere. */
  function Elsewhere(v: Local): Runtime {
    var mode := if v.mode == Heat then Cool else Heat;
    Initial(60, 10).(settings := Settings(mode, Automatic, v.setpoint + 1, v.setpoint + 1))
  }

  lemma SetpointLost(a: Options, b: Options, v: Local, number: nat, session: nat)
    requires Normalised(a) && Normalised(b) && LosesSetpoint(a, b)
    ensures var r := Elsewhere(v);
            && Held(OneAfterOther(r, a, b, v, number, session), r.settings.mode) == v.setpoint
            && Held(Executed(r, WordOf(Merge(a, b), v, number, session)), r.settings.mode) == v.setpoint + 1
  {
    assert SetpointField in Changes(a) && ModeField in Changes(b);
    hide Changes, Initial;
  }

  function Held(r: Runtime, mode: FurnaceMode): int {
    if mode == Cool then r.settings.coolSetpoint else r.settings.heatSetpoint
  }

  lemma NothingLost(r: Runtime, a: Options, b: Options, v: Local, number: nat, session: nat)
    requires Normalised(a) && Normalised(b) && !LosesSetpoint(a, b)
    ensures OneAfterOther(r, a, b, v, number, session) == Executed(r, WordOf(Merge(a, b), v, number, session))
  {
    if !a.syncRequest && !b.syncRequest {
      AppliedInTurn(r, a, b, v, number, session);
      hide Applied, Normalised;
    } else {
      SyncAlone(a);
      SyncAlone(b);
      if Empty(a) {
        EmptyWord(r, a, v, number, session);
      }
      if Empty(b) {
        EmptyWord(r, b, v, number, session);
        EmptyWord(Executed(r, WordOf(a, v, number, session)), b, v, number, session);
      }
      hide Applied, Normalised;
    }
  }

  lemma SyncAlone(o: Options)
    requires Normalised(o)
    ensures o.syncRequest ==> o == SYNC
  {
    if o.syncRequest {
      assert Changes(SYNC) == {};
      ChangesDetermine(o, SYNC);
    }
  }

  predicate Empty(o: Options) {
    o.preserveMode && o.preserveFan && o.preserveSetpoint && !o.filterReset
  }

  lemma EmptyWord(r: Runtime, o: Options, v: Local, number: nat, session: nat)
    requires Empty(o)
    ensures Executed(r, WordOf(o, v, number, session)) == r
  {
  }

  lemma AppliedInTurn(r: Runtime, a: Options, b: Options, v: Local, number: nat, session: nat)
    requires !a.syncRequest && !b.syncRequest && !LosesSetpoint(a, b)
    ensures Applied(Applied(r, WordOf(a, v, number, session)), WordOf(b, v, number, session))
            == Applied(r, WordOf(Merge(a, b), v, number, session))
  {
    SettingsInTurn(r.settings, a, b, v, number, session);
    hide AppliedSettings;
    ModesInTurn(r.settings, a, b, v, number, session);
  }

  lemma SettingsInTurn(s: Settings, a: Options, b: Options, v: Local, number: nat, session: nat)
    requires !LosesSetpoint(a, b)
    ensures AppliedSettings(AppliedSettings(s, WordOf(a, v, number, session)), WordOf(b, v, number, session))
            == AppliedSettings(s, WordOf(Merge(a, b), v, number, session))
  {
  }

  lemma ModesInTurn(s: Settings, a: Options, b: Options, v: Local, number: nat, session: nat)
    ensures AppliedSettings(s, WordOf(a, v, number, session)).mode == if a.preserveMode then s.mode else v.mode
    ensures AppliedSettings(AppliedSettings(s, WordOf(a, v, number, session)), WordOf(b, v, number, session)).mode
            == if a.preserveMode && b.preserveMode then s.mode else v.mode
  {
  }
}
