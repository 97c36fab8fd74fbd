/**
 Reconnection with exponential backoff: connect attempts, subsystem restarts after repeated
 failures, and a reboot after repeated restarts.
 */
module RecoveryPolicy {
  import opened Clock
  import Division

  datatype Config = Config(
    baseBackoff: u32, maxBackoff: u32, failsBeforeRestart: u32, restartsBeforeReboot: u32, rebootEnabled: bool)

  datatype Action = None | Connect | RestartSubsystem | Reboot

  datatype Policy = Policy(
    connected: bool, attempting: bool, rebootRequested: bool, hasNext: bool,
    fails: u32, restarts: u32, backoff: u32, next: u32, attemptStart: u32)

  const INITIAL := Policy(false, false, false, false, 0, 0, 0, 0, 0)

  // ---- What each call does ------------------------------------------------------------

  function Polled(c: Config, p: Policy, now: u32): (Policy, Action) {
    if p.rebootRequested then (p, Reboot)
    else if p.connected || p.attempting then (p, None)
    else if p.hasNext && Since(now, p.next) >= 0x8000_0000 then (p, None)
    else if p.fails >= c.failsBeforeRestart then
      var r := p.(fails := 0, restarts := (p.restarts + 1) % U32, backoff := 0, next := 0, hasNext := false);
      if r.restarts > c.restartsBeforeReboot && c.rebootEnabled then (r.(rebootRequested := true), Reboot)
      else (r, RestartSubsystem)
    else (p.(attempting := true, attemptStart := now), Connect)
  }

  function NextBackoff(c: Config, backoff: u32): u32 {
    if backoff == 0 then c.baseBackoff
    else if backoff * 2 % U32 > c.maxBackoff then c.maxBackoff
    else backoff * 2 % U32
  }

  function Failed(c: Config, p: Policy): Policy {
    var backoff := NextBackoff(c, p.backoff);
    p.(attempting := false, fails := (p.fails + 1) % U32, backoff := backoff,
       next := (p.attemptStart + backoff) % U32, hasNext := true)
  }

  function Connected(p: Policy): Policy {
    p.(connected := true, attempting := false, rebootRequested := false, hasNext := false,
       fails := 0, restarts := 0, backoff := 0, next := 0)
  }

  function Disconnected(p: Policy): Policy {
    p.(connected := false, attempting := false, hasNext := false, fails := 0, backoff := 0, next := 0)
  }

  // ---- The object ---------------------------------------------------------------------

  class NetworkRecoveryPolicy {
    const config: Config
    var connected: bool
    var attemptInProgress: bool
    var rebootRequested: bool
    var hasNextAttempt: bool
    var consecutiveFails: u32
    var restartCount: u32
    var backoffMs: u32
    var nextAttemptMs: u32
    var attemptStartMs: u32

    ghost function State(): Policy
      reads this
    {
      Policy(connected, attemptInProgress, rebootRequested, hasNextAttempt, consecutiveFails, restartCount,
             backoffMs, nextAttemptMs, attemptStartMs)
    }

    constructor (config: Config)
      ensures this.config == config && State() == INITIAL
    {
      this.config := config;
      connected, attemptInProgress, rebootRequested, hasNextAttempt := false, false, false, false;
      consecutiveFails, restartCount, backoffMs, nextAttemptMs, attemptStartMs := 0, 0, 0, 0, 0;
    }

    method Poll(now: u32) returns (action: Action)
      modifies this
      ensures (State(), action) == Polled(config, old(State()), now)
    {
      if rebootRequested {
        return Reboot;
      }
      if connected {
        return None;
      }
      if attemptInProgress {
        return None;
      }
      if hasNextAttempt && Since(now, nextAttemptMs) >= 0x8000_0000 {
        return None;
      }
      if consecutiveFails >= config.failsBeforeRestart {
        consecutiveFails := 0;
        restartCount := (restartCount + 1) % U32;
        backoffMs := 0;
        nextAttemptMs := 0;
        hasNextAttempt := false;
        if restartCount > config.restartsBeforeReboot {
          if config.rebootEnabled {
            rebootRequested := true;
            return Reboot;
          }
          return RestartSubsystem;
        }
        return RestartSubsystem;
      }
      attemptInProgress := true;
      attemptStartMs := now;
      return Connect;
    }

    method OnConnected()
      modifies this
      ensures State() == Connected(old(State()))
    {
      connected := true;
      attemptInProgress := false;
      rebootRequested := false;
      hasNextAttempt := false;
      consecutiveFails := 0;
      restartCount := 0;
      backoffMs := 0;
      nextAttemptMs := 0;
    }

    method OnConnectFailed()
      modifies this
      ensures State() == Failed(config, old(State()))
    {
      attemptInProgress := false;
      consecutiveFails := (consecutiveFails + 1) % U32;
      if backoffMs == 0 {
        backoffMs := config.baseBackoff;
      } else {
        backoffMs := backoffMs * 2 % U32;
        if backoffMs > config.maxBackoff {
          backoffMs := config.maxBackoff;
        }
      }
      nextAttemptMs := (attemptStartMs + backoffMs) % U32;
      hasNextAttempt := true;
    }

    method OnDisconnected()
      modifies this
      ensures State() == Disconnected(old(State()))
    {
      connected := false;
      attemptInProgress := false;
      hasNextAttempt := false;
      consecutiveFails := 0;
      backoffMs := 0;
      nextAttemptMs := 0;
    }
  }

  // ---- Runs ---------------------------------------------------------------------------

  /** The caller polls, and reports a failed attempt, a connection, and a drop, also of an attempt under way. */
  datatype Event = Poll(at: nat) | Fail | Up | Down

  /** The policy and, as history, when the last attempt was issued and the last poll came. */
  datatype World = World(policy: Policy, attemptAt: nat, now: nat)

  function Step(c: Config, w: World, e: Event): World {
    match e
    case Poll(at) =>
      var (p, action) := Polled(c, w.policy, At(at));
      World(p, if action == Connect then at else w.attemptAt, at)
    case Fail => w.(policy := Failed(c, w.policy))
    case Up => w.(policy := Connected(w.policy))
    case Down => w.(policy := Disconnected(w.policy))
  }

  function After(c: Config, w: World, events: seq<Event>, n: nat): World
    requires n <= |events|
  {
    if n == 0 then w else Step(c, After(c, w, events, n - 1), events[n - 1])
  }

  function ActionAt(c: Config, w: World, events: seq<Event>, i: nat): Action
    requires i < |events|
  {
    if events[i].Poll? then Polled(c, After(c, w, events, i).policy, At(events[i].at)).1 else None
  }

  /** Polls go forward in time, and a failure is reported only for an attempt in progress. */
  predicate Legal(c: Config, w: World, events: seq<Event>) {
    forall i :: 0 <= i < |events| ==>
      match events[i]
      case Poll(at) => After(c, w, events, i).now <= at
      case Fail => After(c, w, events, i).policy.attempting
      case _ => true
  }

  /** How many attempts have failed since the last connection, drop, restart or reboot. */
  function FailsInARow(c: Config, w: World, events: seq<Event>, n: nat): nat
    requires n <= |events|
  {
    if n == 0 then w.policy.fails
    else
      var before := FailsInARow(c, w, events, n - 1);
      match events[n - 1]
      case Poll(_) => if ActionAt(c, w, events, n - 1) in {RestartSubsystem, Reboot} then 0 else before
      case Fail => before + 1
      case _ => 0
  }

  function Pow2(n: nat): nat {
    if n == 0 then 1 else 2 * Pow2(n - 1)
  }

  /** The backoff after `k` consecutive failures. */
  function Backoff(c: Config, k: nat): nat {
    if k == 0 then 0
    else if c.baseBackoff * Pow2(k - 1) <= c.maxBackoff then c.baseBackoff * Pow2(k - 1) else c.maxBackoff
  }

  /** What every step keeps. */
  predicate Inv(c: Config, w: World) {
    var p := w.policy;
    && p.backoff == Backoff(c, p.fails) && p.fails <= c.failsBeforeRestart
    && (p.attempting ==> p.fails < c.failsBeforeRestart && !p.rebootRequested)
    && (p.fails > 0 ==> p.hasNext && !p.rebootRequested)
    && (p.attempting || p.hasNext ==> p.attemptStart == At(w.attemptAt))
    && (p.hasNext ==> p.next == (p.attemptStart + p.backoff) % U32 || p.attempting)
    && w.attemptAt <= w.now
  }

  predicate Sensible(c: Config) {
    c.baseBackoff <= c.maxBackoff < 0x8000_0000
  }

  lemma {:induction false} BackoffBounds(c: Config, k: nat)
    requires Sensible(c)
    ensures Backoff(c, k) <= c.maxBackoff
    ensures k > 0 ==> (Backoff(c, k) == 0 <==> c.baseBackoff == 0)
  {
    if k > 0 {
      PowerPositive(k - 1);
      if c.baseBackoff > 0 {
        assert c.baseBackoff * Pow2(k - 1) > 0;
      }
    }
  }

  lemma {:induction false} PowerPositive(n: nat)
    ensures Pow2(n) > 0
  {
    if n > 0 {
      PowerPositive(n - 1);
    }
  }

  /** One more failure takes the closed form to its next value. */
  lemma BackoffDoubles(c: Config, k: nat)
    requires Sensible(c)
    ensures Backoff(c, k) < U32 && NextBackoff(c, Backoff(c, k)) == Backoff(c, k + 1)
  {
    BackoffBounds(c, k);
    if k > 0 {
      assert c.baseBackoff * Pow2(k) == 2 * (c.baseBackoff * Pow2(k - 1));
    }
  }

  lemma StepKeepsInv(c: Config, w: World, e: Event)
    requires Sensible(c) && Inv(c, w)
    requires match e case Poll(at) => w.now <= at case Fail => w.policy.attempting case _ => true
    ensures Inv(c, Step(c, w, e))
  {
    assert Backoff(c, 0) == 0;
    hide Backoff, At, NextBackoff, Since;
    if e.Fail? {
      BackoffDoubles(c, w.policy.fails);
    }
  }

  lemma {:induction false} Invariant(c: Config, w: World, events: seq<Event>, n: nat)
    requires Sensible(c) && Inv(c, w) && n <= |events| && Legal(c, w, events)
    ensures Inv(c, After(c, w, events, n))
  {
    hide Step, Inv;
    if n > 0 {
      Invariant(c, w, events, n - 1);
      StepKeepsInv(c, After(c, w, events, n - 1), events[n - 1]);
    }
  }

  /** A policy just made, at time `start`. */
  function Made(start: nat): World {
    World(INITIAL, start, start)
  }

  lemma MadeInOrder(c: Config, start: nat)
    ensures Inv(c, Made(start))
  {
  }

  lemma {:induction false} FailsAreInARow(c: Config, w: World, events: seq<Event>, n: nat)
    requires Sensible(c) && Inv(c, w) && n <= |events| && Legal(c, w, events)
    ensures After(c, w, events, n).policy.fails == FailsInARow(c, w, events, n)
  {
    hide Step, Polled, Inv, Legal;
    if n > 0 {
      FailsAreInARow(c, w, events, n - 1);
      Invariant(c, w, events, n - 1);
      LegalStep(c, w, events, n - 1);
      StepCountsFails(c, After(c, w, events, n - 1), events[n - 1]);
    }
  }

  /**
   After `k` failures in a row the backoff is min(base * 2^(k-1), max), and nothing is done earlier than
   that after the last attempt was issued, whatever connections and drops came before.
   */
  lemma BackoffIsClosedForm(c: Config, start: nat, events: seq<Event>, n: nat)
    requires Sensible(c) && n < |events| && Legal(c, Made(start), events) && events[n].Poll?
    ensures var (v, k) := (After(c, Made(start), events, n), FailsInARow(c, Made(start), events, n));
            && v.policy.backoff == Backoff(c, k)
            && (k > 0 && events[n].at < v.attemptAt + Backoff(c, k) ==> ActionAt(c, Made(start), events, n) == None)
  {
    var w := Made(start);
    MadeInOrder(c, start);
    Invariant(c, w, events, n);
    FailsAreInARow(c, w, events, n);
    hide After, Backoff, FailsInARow;
    EarlyPollIsIdle(c, After(c, w, events, n), events[n].at);
  }

  lemma EarlyPollIsIdle(c: Config, w: World, at: nat)
    requires Sensible(c) && Inv(c, w) && w.now <= at
    ensures w.policy.fails > 0 && at < w.attemptAt + w.policy.backoff ==> Polled(c, w.policy, At(at)).1 == None
  {
    BackoffBounds(c, w.policy.fails);
    hide At, Since, Backoff;
    if w.policy.fails > 0 && at < w.attemptAt + w.policy.backoff {
      NotYetDue(at, w.attemptAt, w.policy.backoff);
    }
  }

  /** A wrapped comparison with a time less than 2^31 ms ahead comes out negative. */
  lemma NotYetDue(t: nat, start: nat, wait: nat)
    requires start <= t < start + wait && wait < 0x8000_0000
    ensures Since(At(t), (At(start) + wait) % U32) >= 0x8000_0000
  {
    Division.Shift(At(start) + wait, U32, start / U32);
    assert (At(start) + wait) % U32 == At(start + wait);
    Division.Shift(t - start - wait, U32, 1);
    Division.Unique(t - start - wait + U32, U32, 0, t - start - wait + U32);
    Division.Shift(t - start - wait, U32, (start + wait) / U32 - t / U32);
    assert At(t) - At(start + wait) == t - start - wait + ((start + wait) / U32 - t / U32) * U32;
  }

  // ---- What a poll does ---------------------------------------------------------------

  /** Where the caller stands: nothing under way, an attempt, a connection, or a reboot asked for. */
  datatype Status = Free | Trying | Online | Rebooting

  /** By what was asked for and reported so far; a drop does not take back a reboot. */
  function StatusAt(c: Config, w: World, events: seq<Event>, n: nat): Status
    requires n <= |events|
  {
    if n == 0 then Free
    else
      var before := StatusAt(c, w, events, n - 1);
      match events[n - 1]
      case Up => Online
      case Down => if before == Rebooting then Rebooting else Free
      case Fail => Free
      case Poll(_) =>
        match ActionAt(c, w, events, n - 1)
        case Connect => Trying
        case Reboot => Rebooting
        case _ => before
  }

  /** The restarts and reboots asked for since the last connection. */
  function RestartsSoFar(c: Config, w: World, events: seq<Event>, n: nat): nat
    requires n <= |events|
  {
    if n == 0 then 0
    else
      var before := RestartsSoFar(c, w, events, n - 1);
      match events[n - 1]
      case Up => 0
      case Poll(_) =>
        var asked := StatusAt(c, w, events, n - 1) == Free
                     && ActionAt(c, w, events, n - 1) in {RestartSubsystem, Reboot};
        if asked then before + 1 else before
      case _ => before
  }

  /** When the last attempt was asked for. */
  function AttemptTime(c: Config, start: nat, events: seq<Event>, n: nat): nat
    requires n <= |events|
  {
    if n == 0 then start
    else if events[n - 1].Poll? && ActionAt(c, Made(start), events, n - 1) == Connect then events[n - 1].at
    else AttemptTime(c, start, events, n - 1)
  }

  predicate Stands(p: Policy, status: Status) {
    && (p.connected <==> status == Online) && (p.attempting <==> status == Trying)
    && (p.rebootRequested <==> status == Rebooting) && (p.fails == 0 && status == Free ==> !p.hasNext)
  }

  /** The status after one event. */
  function StatusNext(c: Config, w: World, status: Status, e: Event): Status {
    match e
    case Up => Online
    case Down => if status == Rebooting then Rebooting else Free
    case Fail => Free
    case Poll(at) =>
      match Polled(c, w.policy, At(at)).1
      case Connect => Trying
      case Reboot => Rebooting
      case _ => status
  }

  lemma StandsStep(c: Config, w: World, status: Status, e: Event)
    requires Inv(c, w) && Stands(w.policy, status) && (e.Fail? ==> status == Trying)
    ensures Stands(Step(c, w, e).policy, StatusNext(c, w, status, e))
    ensures var asked := e.Poll? && status == Free && Polled(c, w.policy, At(e.at)).1 in {RestartSubsystem, Reboot};
            Step(c, w, e).policy.restarts
              == if e.Up? then 0 else if asked then (w.policy.restarts + 1) % U32 else w.policy.restarts
  {
    hide At, Since, Backoff, NextBackoff;
  }

  lemma {:induction false} StatusIsPolicy(c: Config, start: nat, events: seq<Event>, n: nat)
    requires Sensible(c) && n <= |events| && Legal(c, Made(start), events)
    ensures var v := After(c, Made(start), events, n);
            && Stands(v.policy, StatusAt(c, Made(start), events, n))
            && v.policy.restarts == RestartsSoFar(c, Made(start), events, n) % U32
            && v.attemptAt == AttemptTime(c, start, events, n)
  {
    hide Step, Polled, Inv, Legal, Stands;
    var w := Made(start);
    if n == 0 {
      MadeStands(start);
    } else {
      var (before, e) := (After(c, w, events, n - 1), events[n - 1]);
      StatusIsPolicy(c, start, events, n - 1);
      MadeInOrder(c, start);
      Invariant(c, w, events, n - 1);
      LegalStep(c, w, events, n - 1);
      AttemptingTries(before.policy, StatusAt(c, w, events, n - 1));
      StandsStep(c, before, StatusAt(c, w, events, n - 1), e);
      AttemptStep(c, before, e);
      NextCount(RestartsSoFar(c, w, events, n - 1));
    }
  }

  lemma MadeStands(start: nat)
    ensures Stands(Made(start).policy, Free) && Made(start).policy.restarts == 0 == 0 % U32
  {
  }

  lemma AttemptingTries(p: Policy, status: Status)
    requires Stands(p, status)
    ensures p.attempting ==> status == Trying
  {
  }

  lemma AttemptStep(c: Config, w: World, e: Event)
    ensures Step(c, w, e).attemptAt
            == if e.Poll? && Polled(c, w.policy, At(e.at)).1 == Connect then e.at else w.attemptAt
  {
    hide Polled, Failed, Connected, Disconnected;
  }

  lemma NextCount(n: nat)
    ensures (n % U32 + 1) % U32 == (n + 1) % U32
  {
    Division.Shift(n % U32 + 1, U32, n / U32);
  }

  /** Connect, or after enough failures in a row restart, or reboot where enabled after enough restarts. */
  function Retry(c: Config, fails: nat, restarts: nat): Action {
    if fails < c.failsBeforeRestart then Connect
    else if c.rebootEnabled && restarts >= c.restartsBeforeReboot then Reboot
    else RestartSubsystem
  }

  /**
   What a poll asks for. Nothing with a connection or an attempt under way; a reboot once asked for,
   again and again; and otherwise the next attempt, restart or reboot, at once if nothing failed, and
   after `k` failures in a row exactly from the last attempt's time + min(base * 2^(k-1), max) on, for
   the 2^31 ms that the code can tell such a time is past.
   */
  lemma PollActsExactly(c: Config, start: nat, events: seq<Event>, n: nat)
    requires Sensible(c) && n < |events| && Legal(c, Made(start), events) && events[n].Poll?
    requires RestartsSoFar(c, Made(start), events, n) + 1 < U32
    requires var k := FailsInARow(c, Made(start), events, n);
             k > 0 ==> events[n].at < AttemptTime(c, start, events, n) + Backoff(c, k) + 0x8000_0000
    ensures var (w, at) := (Made(start), events[n].at);
            var (k, restarts) := (FailsInARow(c, w, events, n), RestartsSoFar(c, w, events, n));
            ActionAt(c, w, events, n)
            == match StatusAt(c, w, events, n)
               case Trying => None
               case Online => None
               case Rebooting => Reboot
               case Free =>
                 if k > 0 && at < AttemptTime(c, start, events, n) + Backoff(c, k) then None
                 else Retry(c, k, restarts)
  {
    var w := Made(start);
    MadeInOrder(c, start);
    Invariant(c, w, events, n);
    FailsAreInARow(c, w, events, n);
    StatusIsPolicy(c, start, events, n);
    var v, status := After(c, w, events, n), StatusAt(c, w, events, n);
    var restarts := RestartsSoFar(c, w, events, n);
    Division.Unique(restarts, U32, 0, restarts);
    assert v.now <= events[n].at;
    hide *;
    PolledExactly(c, v, status, events[n].at);
    assert ActionAt(c, w, events, n) == Polled(c, v.policy, At(events[n].at)).1 by {
      OfPoll(c, w, events, n);
    }
  }

  lemma OfPoll(c: Config, w: World, events: seq<Event>, n: nat)
    requires n < |events| && events[n].Poll?
    ensures ActionAt(c, w, events, n) == Polled(c, After(c, w, events, n).policy, At(events[n].at)).1
  {
  }

  lemma PolledExactly(c: Config, v: World, status: Status, at: nat)
    requires Sensible(c) && Inv(c, v) && Stands(v.policy, status) && v.now <= at && v.policy.restarts + 1 < U32
    requires v.policy.fails > 0 ==> at < v.attemptAt + Backoff(c, v.policy.fails) + 0x8000_0000
    ensures Polled(c, v.policy, At(at)).1
            == match status
               case Trying => None
               case Online => None
               case Rebooting => Reboot
               case Free =>
                 if v.policy.fails > 0 && at < v.attemptAt + Backoff(c, v.policy.fails) then None
                 else Retry(c, v.policy.fails, v.policy.restarts)
  {
    BackoffBounds(c, v.policy.fails);
    if status == Free && v.policy.fails > 0 {
      var wait := v.policy.backoff;
      if at < v.attemptAt + wait {
        NotYetDue(at, v.attemptAt, wait);
      } else {
        IsDue(at, v.attemptAt, wait);
      }
    }
    hide At, Since, Backoff;
  }

  lemma IsDue(t: nat, start: nat, wait: nat)
    requires start + wait <= t < start + wait + 0x8000_0000 && wait < U32
    ensures Since(At(t), (At(start) + wait) % U32) < 0x8000_0000
  {
    Division.Shift(At(start) + wait, U32, start / U32);
    assert (At(start) + wait) % U32 == At(start + wait);
    SinceIsElapsed(t, start + wait);
  }

  // ---- Restarts -----------------------------------------------------------------------

  predicate RestartAt(c: Config, w: World, events: seq<Event>, i: nat)
    requires i < |events|
  {
    ActionAt(c, w, events, i) == RestartSubsystem
  }

  /** No restart, reboot, connection or drop after event `i` and before event `j`. */
  predicate Uneventful(c: Config, w: World, events: seq<Event>, i: nat, j: nat)
    requires j <= |events|
  {
    forall k :: i < k < j ==>
      !RestartAt(c, w, events, k) && ActionAt(c, w, events, k) != Reboot && !events[k].Up? && !events[k].Down?
  }

  /** Failures reported by events `i` to `j - 1`. */
  function FailsBetween(events: seq<Event>, i: nat, j: nat): nat
    requires i <= j <= |events|
    decreases j
  {
    if i == j then 0 else FailsBetween(events, i, j - 1) + if events[j - 1].Fail? then 1 else 0
  }

  lemma {:induction false} FailsAreCounted(c: Config, w: World, events: seq<Event>, i: nat, j: nat)
    requires Sensible(c) && Inv(c, w) && i < j <= |events| && Legal(c, w, events)
    requires RestartAt(c, w, events, i)
    requires Uneventful(c, w, events, i, j)
    ensures After(c, w, events, j).policy.fails == FailsBetween(events, i, j)
    decreases j
  {
    hide Step, Polled, Inv, Legal;
    Invariant(c, w, events, j - 1);
    assert events[j - 1].Fail? ==> After(c, w, events, j - 1).policy.attempting by {
      LegalStep(c, w, events, j - 1);
    }
    if j > i + 1 {
      FailsAreCounted(c, w, events, i, j - 1);
    }
    StepCountsFails(c, After(c, w, events, j - 1), events[j - 1]);
    if j == i + 1 {
      assert FailsBetween(events, i, j) == 0;
    } else {
      assert !RestartAt(c, w, events, j - 1) && ActionAt(c, w, events, j - 1) != Reboot;
    }
  }

  lemma LegalStep(c: Config, w: World, events: seq<Event>, k: nat)
    requires k < |events| && Legal(c, w, events)
    ensures events[k].Fail? ==> After(c, w, events, k).policy.attempting
  {
    hide After;
  }

  lemma StepCountsFails(c: Config, w: World, e: Event)
    requires Inv(c, w) && (e.Fail? ==> w.policy.attempting)
    ensures e.Fail? ==> Step(c, w, e).policy.fails == w.policy.fails + 1
    ensures e.Poll? ==>
      Step(c, w, e).policy.fails
        == if Polled(c, w.policy, At(e.at)).1 in {RestartSubsystem, Reboot} then 0 else w.policy.fails
    ensures e.Up? || e.Down? ==> Step(c, w, e).policy.fails == 0
  {
    hide At, Since, Backoff, NextBackoff;
  }

  /** Exactly `fails_before_restart` failed attempts separate one restart from the next. */
  lemma FailsSeparateRestarts(c: Config, start: nat, events: seq<Event>, i: nat, j: nat)
    requires Sensible(c) && i < j < |events| && Legal(c, Made(start), events)
    requires RestartAt(c, Made(start), events, i) && RestartAt(c, Made(start), events, j)
    requires Uneventful(c, Made(start), events, i, j)
    ensures FailsBetween(events, i, j) == c.failsBeforeRestart
  {
    var w := Made(start);
    MadeInOrder(c, start);
    FailsAreCounted(c, w, events, i, j);
    Invariant(c, w, events, j);
    hide After, At, Since, Backoff, FailsBetween;
  }
}
