/** What the controller tells the displays, and the order of its 16-bit numbers. */
module Telemetry {
  import opened Clock
  import opened CommandWords

  type u16 = n: nat | n < 0x1_0000

  datatype FurnaceState = IdleState | HeatMode | HeatOn | CoolMode | CoolOn | FanOn | ErrorState | HeatWait | CoolWait

  /** The setpoint is in tenths of a degree, the filter time in seconds. */
  datatype Payload = Payload(
    state: FurnaceState, filterSeconds: u32, lockout: bool, modeCode: nat, fanCode: nat, setpoint: int,
    windowsOpen: bool)

  datatype Report = Report(number: u16, payload: Payload)

  /** 1 to 32767 ahead in the ring of 65536. */
  predicate NewerU16(previous: u16, incoming: u16) {
    0 < (incoming - previous) % 0x1_0000 < 0x8000
  }

  function ModeCode(mode: FurnaceMode): nat {
    match mode case Heat => 1 case Cool => 2 case _ => 0
  }

  function FanCode(fan: FanMode): nat {
    match fan case AlwaysOn => 1 case Circulate => 2 case _ => 0
  }

  function ModeOfCode(code: nat): FurnaceMode {
    if code == 1 then Heat else if code == 2 then Cool else Off
  }

  function FanOfCode(code: nat): FanMode {
    if code == 1 then AlwaysOn else if code == 2 then Circulate else Automatic
  }
}
