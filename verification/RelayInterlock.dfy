/**
 The relay interlock behind the runtime: at most one relay on, and a wait with everything off
 when one relay directly replaces another.
 */
module RelayInterlock {
  import opened Clock
  import HvacRuntime

  type Relays = HvacRuntime.Relays

  datatype Config = Config(heatWait: u32, defaultWait: u32)

  const DEFAULT_CONFIG := Config(500, 1000)

  datatype Select = NoRelay | HeatRelay | CoolRelay | FanRelay | SpareRelay

  datatype Io = Io(initialized: bool, output: Relays, active: Select, pending: Select, pendingSince: u32)

  const ALL_OFF: Relays := HvacRuntime.ALL_OFF

  function PickSingle(demand: Relays): Select {
    if demand.heat then HeatRelay
    else if demand.cool then CoolRelay
    else if demand.fan then FanRelay
    else if demand.spare then SpareRelay
    else NoRelay
  }

  function WaitFor(c: Config, relay: Select): u32 {
    if relay == HeatRelay then c.heatWait else if relay == NoRelay then 0 else c.defaultWait
  }

  function ToDemand(relay: Select): Relays {
    match relay
    case NoRelay => ALL_OFF
    case HeatRelay => ALL_OFF.(heat := true)
    case CoolRelay => ALL_OFF.(cool := true)
    case FanRelay => ALL_OFF.(fan := true)
    case SpareRelay => ALL_OFF.(spare := true)
  }

  function Begun(): Io {
    Io(true, ALL_OFF, NoRelay, NoRelay, 0)
  }

  function Requested(desired: Relays, forceOff: bool): Select {
    if forceOff then NoRelay else PickSingle(desired)
  }

  function Applied(c: Config, start: Io, now: u32, desired: Relays, forceOff: bool): Io {
    var io := if start.initialized then start else Begun();
    var requested := Requested(desired, forceOff);
    if requested == NoRelay then Io(true, ALL_OFF, NoRelay, NoRelay, 0)
    else if requested == io.active then io.(pending := NoRelay, pendingSince := 0, output := ToDemand(io.active))
    else if io.active == NoRelay && io.pending == NoRelay then io.(active := requested, output := ToDemand(requested))
    else if io.pending != requested then Io(true, ALL_OFF, NoRelay, requested, now)
    else if Since(now, io.pendingSince) < WaitFor(c, io.pending) then io.(output := ALL_OFF)
    else Io(true, ToDemand(io.pending), io.pending, NoRelay, 0)
  }

  class ControllerRelayIo {
    const config: Config
    var initialized: bool
    var output: Relays
    var active: Select
    var pending: Select
    var pendingSinceMs: u32
    /** Everything written to the relay backend, in order. */
    ghost var written: seq<Relays>

    ghost function State(): Io
      reads this
    {
      Io(initialized, output, active, pending, pendingSinceMs)
    }

    constructor (config: Config)
      ensures this.config == config && State() == Io(false, ALL_OFF, NoRelay, NoRelay, 0) && written == []
    {
      this.config := config;
      initialized, output, active, pending, pendingSinceMs := false, ALL_OFF, NoRelay, NoRelay, 0;
      written := [];
    }

    method WriteOutputs(out: Relays)
      modifies this`output, this`written
      ensures output == out && written == old(written) + [out]
    {
      output := out;
      written := written + [out];
    }

    method Begin()
      modifies this
      ensures State() == Begun() && written == old(written) + [ALL_OFF]
    {
      WriteOutputs(ALL_OFF);
      initialized := true;
      active := NoRelay;
      pending := NoRelay;
      pendingSinceMs := 0;
    }

    method Apply(now: u32, desired: Relays, forceOff: bool)
      modifies this
      ensures State() == Applied(config, old(State()), now, desired, forceOff)
      ensures written == old(written) + (if old(initialized) then [] else [ALL_OFF]) + [output]
    {
      hide PickSingle, WaitFor, ToDemand;
      if !initialized {
        Begin();
      }
      var requested := if forceOff then NoRelay else PickSingle(desired);
      if requested == NoRelay {
        pending := NoRelay;
        pendingSinceMs := 0;
        active := NoRelay;
        WriteOutputs(ALL_OFF);
        return;
      }
      if requested == active {
        pending := NoRelay;
        pendingSinceMs := 0;
        WriteOutputs(ToDemand(active));
        return;
      }
      if active == NoRelay && pending == NoRelay {
        active := requested;
        WriteOutputs(ToDemand(active));
        return;
      }
      if pending != requested {
        pending := requested;
        pendingSinceMs := now;
        active := NoRelay;
        WriteOutputs(ALL_OFF);
        return;
      }
      var waitMs := WaitFor(config, pending);
      if Since(now, pendingSinceMs) < waitMs {
        WriteOutputs(ALL_OFF);
        return;
      }
      active := pending;
      pending := NoRelay;
      pendingSinceMs := 0;
      WriteOutputs(ToDemand(active));
    }
  }

  // ---- What the backend sees ----------------------------------------------------------

  predicate AtMostOne(r: Relays) {
    && !(r.heat && r.cool) && !(r.heat && r.fan) && !(r.heat && r.spare)
    && !(r.cool && r.fan) && !(r.cool && r.spare) && !(r.fan && r.spare)
  }

  predicate Within(r: Relays, demand: Relays) {
    (r.heat ==> demand.heat) && (r.cool ==> demand.cool) && (r.fan ==> demand.fan) && (r.spare ==> demand.spare)
  }

  /** The output follows the active relay, and nothing is pending beside it. */
  predicate Latched(io: Io) {
    io.initialized ==> io.output == ToDemand(io.active) && (io.pending != NoRelay ==> io.active == NoRelay)
  }

  /** Whatever was latched before, the output is one relay that is demanded now, or none. */
  lemma OutputIsSafe(c: Config, io: Io, now: u32, desired: Relays, forceOff: bool)
    requires Latched(io)
    ensures var after := Applied(c, io, now, desired, forceOff);
            && Latched(after) && after.initialized
            && AtMostOne(after.output) && Within(after.output, desired)
            && (forceOff ==> after.output == ALL_OFF)
            && after.active in {NoRelay, Requested(desired, forceOff)}
            && (after.active == NoRelay ==> after.pending == Requested(desired, forceOff))
  {
    hide Since;
  }

  // ---- Runs of the interlock alone ----------------------------------------------------

  datatype Call = Call(at: nat, desired: Relays, forceOff: bool)

  function After(c: Config, io: Io, calls: seq<Call>, n: nat): Io
    requires n <= |calls|
  {
    if n == 0 then io
    else Applied(c, After(c, io, calls, n - 1), At(calls[n - 1].at), calls[n - 1].desired, calls[n - 1].forceOff)
  }

  function RequestAt(calls: seq<Call>, i: nat): Select
    requires i < |calls|
  {
    Requested(calls[i].desired, calls[i].forceOff)
  }

  predicate Ordered(calls: seq<Call>) {
    forall i, j :: 0 <= i <= j < |calls| ==> calls[i].at <= calls[j].at
  }

  lemma {:induction false} StaysLatched(c: Config, io: Io, calls: seq<Call>, n: nat)
    requires Latched(io) && n <= |calls|
    ensures Latched(After(c, io, calls, n)) && (n > 0 ==> After(c, io, calls, n).initialized)
  {
    if n > 0 {
      StaysLatched(c, io, calls, n - 1);
      OutputIsSafe(c, After(c, io, calls, n - 1), At(calls[n - 1].at), calls[n - 1].desired, calls[n - 1].forceOff);
    }
    hide Applied, Latched;
  }

  /** While relays change over, the pending relay has been requested since the time it is stamped with. */
  lemma {:induction false} PendingSince(c: Config, io: Io, calls: seq<Call>, i: nat, n: nat) returns (p: nat)
    requires Latched(io) && i + 1 < n <= |calls|
    requires forall k :: i < k < n ==> RequestAt(calls, k) != NoRelay
    requires After(c, io, calls, i + 1).active != NoRelay
    requires forall k :: i + 1 < k <= n ==> After(c, io, calls, k).active == NoRelay
    ensures After(c, io, calls, n).pending != NoRelay
    ensures i < p < n && After(c, io, calls, n).pendingSince == At(calls[p].at)
    ensures forall k :: p <= k < n ==> RequestAt(calls, k) == After(c, io, calls, n).pending
    decreases n
  {
    var (call, before) := (calls[n - 1], After(c, io, calls, n - 1));
    StaysLatched(c, io, calls, n - 1);
    assert RequestAt(calls, n - 1) == Requested(call.desired, call.forceOff) != NoRelay;
    assert After(c, io, calls, n) == Applied(c, before, At(call.at), call.desired, call.forceOff);
    assert n > i + 2 ==> before.active == NoRelay;
    hide *;
    PendingStep(c, before, At(call.at), call.desired, call.forceOff);
    if n == i + 2 || After(c, io, calls, n).pending != After(c, io, calls, n - 1).pending {
      p := n - 1;
    } else {
      p := PendingSince(c, io, calls, i, n - 1);
    }
  }

  lemma PendingStep(c: Config, io: Io, now: u32, desired: Relays, forceOff: bool)
    requires Latched(io) && io.initialized && Requested(desired, forceOff) != NoRelay
    requires Applied(c, io, now, desired, forceOff).active == NoRelay
    ensures var after := Applied(c, io, now, desired, forceOff);
            && after.pending == Requested(desired, forceOff)
            && after.pendingSince
               == if io.active == NoRelay && io.pending == after.pending then io.pendingSince else now
  {
    hide Since;
  }

  /**
   A relay that directly replaces another, with no all-off request between, comes on only after the
   heat wait, for heat, or the default wait has passed with everything off and itself requested throughout.
   */
  lemma ChangeoverWaits(c: Config, io: Io, calls: seq<Call>, i: nat, j: nat) returns (p: nat)
    requires Latched(io) && i < j < |calls| && Ordered(calls)
    requires forall k :: i < k <= j ==> RequestAt(calls, k) != NoRelay
    requires After(c, io, calls, i + 1).active != NoRelay
    requires forall k :: i + 1 < k <= j ==> After(c, io, calls, k).active == NoRelay
    requires After(c, io, calls, j + 1).active !in {NoRelay, After(c, io, calls, i + 1).active}
    ensures i < p < j
    ensures calls[j].at - calls[p].at
            >= if After(c, io, calls, j + 1).active == HeatRelay then c.heatWait else c.defaultWait
    ensures forall k :: p <= k <= j ==> RequestAt(calls, k) == After(c, io, calls, j + 1).active
    ensures forall k :: p < k <= j ==> After(c, io, calls, k).output == ALL_OFF
  {
    StaysLatched(c, io, calls, j);
    var before := After(c, io, calls, j);
    if j == i + 1 {
      NoDirectChange(c, before, At(calls[j].at), calls[j].desired, calls[j].forceOff);
      assert false;
    }
    p := PendingSince(c, io, calls, i, j);
    SinceIsElapsed(calls[j].at, calls[p].at);
    ChangeStep(c, before, At(calls[j].at), calls[j].desired, calls[j].forceOff);
    forall k | p < k <= j ensures After(c, io, calls, k).output == ALL_OFF {
      StaysLatched(c, io, calls, k);
      assert After(c, io, calls, k).active == NoRelay;
    }
    hide Applied, At, Since, Latched;
  }

  lemma NoDirectChange(c: Config, io: Io, now: u32, desired: Relays, forceOff: bool)
    requires Latched(io) && io.initialized && io.active != NoRelay
    ensures Applied(c, io, now, desired, forceOff).active in {NoRelay, io.active}
  {
    hide Since;
  }

  lemma ChangeStep(c: Config, io: Io, now: u32, desired: Relays, forceOff: bool)
    requires Latched(io) && io.initialized && io.active == NoRelay && io.pending != NoRelay
    requires Applied(c, io, now, desired, forceOff).active != NoRelay
    ensures Applied(c, io, now, desired, forceOff).active == io.pending == Requested(desired, forceOff)
    ensures Since(now, io.pendingSince) >= WaitFor(c, io.pending)
  {
    hide Since;
  }

  /** The relay of a request: the first demanded of heat, cool, fan and spare. */
  lemma RequestIsFirst(desired: Relays, forceOff: bool)
    ensures var q := Requested(desired, forceOff);
            && (q == HeatRelay <==> !forceOff && desired.heat)
            && (q == CoolRelay <==> !forceOff && !desired.heat && desired.cool)
            && (q == FanRelay <==> !forceOff && !desired.heat && !desired.cool && desired.fan)
            && (q == SpareRelay <==> !forceOff && !desired.heat && !desired.cool && !desired.fan && desired.spare)
  {
  }

  /** That relay is on and no other. */
  predicate OnlyOn(output: Relays, q: Select) {
    && (output.heat <==> q == HeatRelay) && (output.cool <==> q == CoolRelay)
    && (output.fan <==> q == FanRelay) && (output.spare <==> q == SpareRelay)
  }

  /**
   It does come on: requested in place of another relay at `p` and at every call since, it is on, and
   alone, exactly from the first call at which its wait has passed; until then everything is off.
   */
  lemma {:induction false} ChangeoverComesExactly(c: Config, io: Io, calls: seq<Call>, p: nat, j: nat)
    requires Latched(io) && 0 < p < j < |calls| && Ordered(calls) && calls[j].at < calls[p].at + U32
    requires After(c, io, calls, p).active !in {NoRelay, RequestAt(calls, p)} && RequestAt(calls, p) != NoRelay
    requires forall k :: p <= k <= j ==> RequestAt(calls, k) == RequestAt(calls, p)
    ensures var (q, after) := (RequestAt(calls, p), After(c, io, calls, j + 1));
            var came := calls[j].at - calls[p].at >= if q == HeatRelay then c.heatWait else c.defaultWait;
            && OnlyOn(after.output, if came then q else NoRelay)
            && after == if came then Io(true, after.output, q, NoRelay, 0)
                        else Io(true, after.output, NoRelay, q, At(calls[p].at))
    decreases j
  {
    var q, call := RequestAt(calls, p), calls[j];
    assert Requested(call.desired, call.forceOff) == q by {
      assert RequestAt(calls, j) == q;
    }
    var before := After(c, io, calls, j);
    assert After(c, io, calls, j + 1) == Applied(c, before, At(call.at), call.desired, call.forceOff);
    StaysLatched(c, io, calls, p);
    if j == p + 1 {
      var first := calls[p];
      assert before == Applied(c, After(c, io, calls, p), At(first.at), first.desired, first.forceOff);
      hide After, Ordered;
      ChangeBegins(c, After(c, io, calls, p), At(first.at), first.desired, first.forceOff);
    } else {
      ChangeoverComesExactly(c, io, calls, p, j - 1);
      assert calls[p].at <= calls[j - 1].at <= call.at;
    }
    assert calls[p].at <= call.at;
    SinceIsElapsed(call.at, calls[p].at);
    hide After, Ordered, RequestAt, Applied, At, Since, Latched;
    ChangeGoesOn(c, before, At(call.at), call.desired, call.forceOff);
  }

  lemma ChangeBegins(c: Config, io: Io, now: u32, desired: Relays, forceOff: bool)
    requires Latched(io) && io.initialized && Requested(desired, forceOff) != NoRelay
    requires io.active !in {NoRelay, Requested(desired, forceOff)}
    ensures Applied(c, io, now, desired, forceOff) == Io(true, ALL_OFF, NoRelay, Requested(desired, forceOff), now)
  {
    hide Since;
  }

  lemma ChangeGoesOn(c: Config, io: Io, now: u32, desired: Relays, forceOff: bool)
    requires io.initialized && Requested(desired, forceOff) != NoRelay
    requires (io.active == NoRelay && io.pending == Requested(desired, forceOff))
             || (io.active == Requested(desired, forceOff) && io.pending == NoRelay && io.pendingSince == 0)
    ensures var (q, after) := (Requested(desired, forceOff), Applied(c, io, now, desired, forceOff));
            var came := io.active == q
                        || Since(now, io.pendingSince) >= if q == HeatRelay then c.heatWait else c.defaultWait;
            && OnlyOn(after.output, if came then q else NoRelay)
            && after == if came then Io(true, after.output, q, NoRelay, 0)
                        else Io(true, after.output, NoRelay, q, io.pendingSince)
  {
    hide Since;
  }

  /** An all-off request in between forgoes the wait: the very next request comes on at once. */
  lemma AllOffForgoesTheWait(c: Config, io: Io, calls: seq<Call>, i: nat)
    requires i + 1 < |calls| && RequestAt(calls, i) == NoRelay && RequestAt(calls, i + 1) != NoRelay
    ensures After(c, io, calls, i + 1).output == ALL_OFF
    ensures After(c, io, calls, i + 2).output == ToDemand(RequestAt(calls, i + 1)) != ALL_OFF
  {
    var (off, next) := (calls[i], calls[i + 1]);
    assert After(c, io, calls, i + 1) == Applied(c, After(c, io, calls, i), At(off.at), off.desired, off.forceOff);
    assert After(c, io, calls, i + 1) == Begun();
    assert After(c, io, calls, i + 2) == Applied(c, Begun(), At(next.at), next.desired, next.forceOff);
    hide After, At, Since;
  }
}
