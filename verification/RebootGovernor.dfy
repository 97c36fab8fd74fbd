/**
 The network reboot governor: in-place recoveries and a ladder of reboots, driven by one
 poll per loop pass.
 */
module RebootGovernor {
  import opened Clock

  datatype Config = Config(
    recoverAfter: u32, recoverRepeat: u32, mqttDownRecover: u32,
    firstReboot: u32, secondReboot: u32, thirdReboot: u32, laterReboot: u32,
    healthyReset: u32)

  /** The defaults: 2 min, 30 min, 60 min; 10 min, 1 h, 4 h, 24 h; 10 min. */
  const DEFAULT_CONFIG := Config(120000, 1800000, 3600000, 600000, 3600000, 14400000, 86400000, 600000)

  datatype Action = None | RecoverInPlace | Reboot

  datatype Governor = Governor(
    rebootCount: u32, resetPending: bool,
    isolating: bool, isolationStart: u32, recoverMark: u32, recoverWait: u32, rebootIssued: bool,
    mqttDown: bool, mqttMark: u32,
    healthy: bool, healthySince: u32)

  /** A governor on a fresh boot, given the stored count. */
  function Fresh(count: u32): Governor {
    Governor(count, false, false, 0, 0, 0, false, false, 0, false, 0)
  }

  function Threshold(c: Config, count: nat): u32 {
    match count
    case 0 => c.firstReboot
    case 1 => c.secondReboot
    case 2 => c.thirdReboot
    case _ => c.laterReboot
  }

  // ---- Due times on a grid ------------------------------------------------------------

  predicate Due(now: u32, mark: u32, period: u32) {
    period != 0 && Since(now, mark) >= period
  }

  /** The mark after the due times up to `now` were consumed. */
  function Moved(now: u32, mark: u32, period: u32): u32 {
    if Due(now, mark, period) then (mark + period * (Since(now, mark) / period)) % U32 else mark
  }

  // ---- One poll -----------------------------------------------------------------------

  predicate Gated(g: Governor, ready: bool) {
    !ready && g.rebootCount == 0
  }

  predicate MqttRecoverDue(c: Config, g: Governor, now: u32, mqttUp: bool, ready: bool) {
    !mqttUp && !Gated(g, ready) && Due(now, if g.mqttDown then g.mqttMark else now, c.mqttDownRecover)
  }

  function PolledMqtt(c: Config, g: Governor, now: u32, mqttUp: bool, ready: bool): Governor {
    if mqttUp || Gated(g, ready) then g.(mqttDown := false)
    else g.(mqttDown := true, mqttMark := Moved(now, if g.mqttDown then g.mqttMark else now, c.mqttDownRecover))
  }

  predicate CountExpires(c: Config, g: Governor, now: u32) {
    g.healthy && g.rebootCount > 0 && Since(now, g.healthySince) >= c.healthyReset
  }

  function PolledHealthy(c: Config, g: Governor, now: u32): Governor {
    var h := g.(isolating := false, rebootIssued := false);
    if !g.healthy then h.(healthy := true, healthySince := now)
    else if CountExpires(c, g, now) then h.(rebootCount := 0, resetPending := true)
    else h
  }

  function Isolated(c: Config, g: Governor, now: u32): Governor {
    var h := g.(healthy := false);
    if h.isolating then h
    else h.(isolating := true, isolationStart := now, recoverMark := now, recoverWait := c.recoverAfter,
            rebootIssued := false)
  }

  predicate RebootDue(c: Config, h: Governor, now: u32) {
    !h.rebootIssued && Since(now, h.isolationStart) >= Threshold(c, h.rebootCount)
  }

  function PolledIsolated(c: Config, g: Governor, now: u32): (Governor, Action) {
    var h := Isolated(c, g, now);
    if h.rebootIssued then (h, None)
    else
      var due := Due(now, h.recoverMark, h.recoverWait);
      var i := h.(recoverMark := Moved(now, h.recoverMark, h.recoverWait),
                  recoverWait := if due then c.recoverRepeat else h.recoverWait);
      if RebootDue(c, h, now) then (i.(rebootIssued := true, rebootCount := (i.rebootCount + 1) % U32), Reboot)
      else (i, if due then RecoverInPlace else None)
  }

  function Polled(c: Config, g: Governor, now: u32, isolated: bool, mqttUp: bool, ready: bool): (Governor, Action) {
    var m := PolledMqtt(c, g, now, mqttUp, ready);
    if !isolated then
      (PolledHealthy(c, m, now), if MqttRecoverDue(c, g, now, mqttUp, ready) then RecoverInPlace else None)
    else if Gated(g, ready) then (m.(healthy := false, isolating := false), None)
    else PolledIsolated(c, m, now)
  }

  function UntilReboot(c: Config, g: Governor, now: u32): u32 {
    if !g.isolating || g.rebootIssued then 0
    else
      var elapsed := Since(now, g.isolationStart);
      if elapsed >= Threshold(c, g.rebootCount) then 0 else Threshold(c, g.rebootCount) - elapsed
  }

  // ---- The object ---------------------------------------------------------------------

  class NetworkRebootGovernor {
    const config: Config
    var rebootCount: u32
    var countResetPending: bool
    var isolating: bool
    var isolationStartMs: u32
    var recoverMarkMs: u32
    var recoverWaitMs: u32
    var rebootIssued: bool
    var mqttDown: bool
    var mqttRecoverMarkMs: u32
    var healthy: bool
    var healthySinceMs: u32

    ghost function State(): Governor
      reads this
    {
      Governor(rebootCount, countResetPending, isolating, isolationStartMs, recoverMarkMs, recoverWaitMs, rebootIssued,
               mqttDown, mqttRecoverMarkMs, healthy, healthySinceMs)
    }

    constructor (config: Config, persistedRebootCount: u32)
      ensures this.config == config && State() == Fresh(persistedRebootCount)
    {
      this.config := config;
      rebootCount := persistedRebootCount;
      countResetPending, isolating, rebootIssued, mqttDown, healthy := false, false, false, false, false;
      isolationStartMs, recoverMarkMs, recoverWaitMs, mqttRecoverMarkMs, healthySinceMs := 0, 0, 0, 0, 0;
    }

    /** True once after a reset by sustained health. */
    method TakeCountReset() returns (pending: bool)
      modifies this
      ensures pending == old(countResetPending)
      ensures State() == old(State()).(resetPending := false)
    {
      pending := countResetPending;
      countResetPending := false;
    }

    static method TakeDue(now: u32, mark: u32, period: u32) returns (due: bool, moved: u32)
      ensures due == Due(now, mark, period) && moved == Moved(now, mark, period)
    {
      var since := Since(now, mark);
      if period == 0 || since < period {
        return false, mark;
      }
      return true, (mark + period * (since / period)) % U32;
    }

    method MsUntilReboot(now: u32) returns (ms: u32)
      ensures ms == UntilReboot(config, State(), now)
    {
      if !isolating || rebootIssued {
        return 0;
      }
      var elapsed := Since(now, isolationStartMs);
      var threshold := Threshold(config, rebootCount);
      ms := if elapsed >= threshold then 0 else threshold - elapsed;
    }

    /** The MQTT-down schedule: a due time is consumed whether or not it fires. */
    method PollMqttDown(now: u32, mqttUp: bool, gated: bool) returns (due: bool)
      modifies this
      ensures !gated ==> State() == PolledMqtt(config, old(State()), now, mqttUp, true)
      ensures gated ==> State() == old(State()).(mqttDown := false)
      ensures due == (!mqttUp && !gated
                      && Due(now, if old(mqttDown) then old(mqttRecoverMarkMs) else now, config.mqttDownRecover))
    {
      due := false;
      if mqttUp || gated {
        mqttDown := false;
      } else {
        if !mqttDown {
          mqttDown := true;
          mqttRecoverMarkMs := now;
        }
        due, mqttRecoverMarkMs := TakeDue(now, mqttRecoverMarkMs, config.mqttDownRecover);
      }
    }

    method PollHealthy(now: u32)
      modifies this
      ensures State() == PolledHealthy(config, old(State()), now)
    {
      isolating := false;
      rebootIssued := false;
      if !healthy {
        healthy := true;
        healthySinceMs := now;
      } else if rebootCount > 0 && Since(now, healthySinceMs) >= config.healthyReset {
        rebootCount := 0;
        countResetPending := true;
      }
    }

    method PollIsolated(now: u32) returns (action: Action)
      modifies this
      ensures (State(), action) == PolledIsolated(config, old(State()), now)
    {
      hide Threshold;
      healthy := false;
      if !isolating {
        isolating := true;
        isolationStartMs := now;
        recoverMarkMs := now;
        recoverWaitMs := config.recoverAfter;
        rebootIssued := false;
      }
      if rebootIssued {
        return None;
      }
      var elapsed := Since(now, isolationStartMs);
      var recoverDue;
      recoverDue, recoverMarkMs := TakeDue(now, recoverMarkMs, recoverWaitMs);
      if recoverDue {
        recoverWaitMs := config.recoverRepeat;
      }
      if elapsed >= Threshold(config, rebootCount) {
        rebootIssued := true;
        rebootCount := (rebootCount + 1) % U32;
        return Reboot;
      }
      return if recoverDue then RecoverInPlace else None;
    }

    method Poll(now: u32, isolated: bool, mqttUp: bool, networkWasReady: bool) returns (action: Action)
      modifies this
      ensures (State(), action) == Polled(config, old(State()), now, isolated, mqttUp, networkWasReady)
    {
      hide PolledIsolated, PolledHealthy, Due, Moved;
      var gated := !networkWasReady && rebootCount == 0;
      var mqttRecoverDue := PollMqttDown(now, mqttUp, gated);
      if !isolated {
        PollHealthy(now);
        return if mqttRecoverDue then RecoverInPlace else None;
      }
      if gated {
        healthy := false;
        isolating := false;
        return None;
      }
      action := PollIsolated(now);
    }
  }
}
