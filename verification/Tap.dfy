// The JTAG port of the CPLD: the sixteen-state TAP controller of clause 6 of
// IEEE Std 1149.1-2001, the selected shift register, and as much of the XC2C64A
// behind it as reading and writing its memories needs: those commands act only
// between ISC_ENABLE and ISC_DISABLE.
//
// TDO changes and registers update on falling TCK edges; the state moves and
// the register shifts on rising edges.

module Tap {
  import opened Bytes

  datatype TapState =
    | Reset | Idle
    | SelectDr | CaptureDr | ShiftDr | Exit1Dr | PauseDr | Exit2Dr | UpdateDr
    | SelectIr | CaptureIr | ShiftIr | Exit1Ir | PauseIr | Exit2Ir | UpdateIr

  function NextState(s: TapState, tms: bool): TapState {
    match s
    case Reset => if tms then Reset else Idle
    case Idle => if tms then SelectDr else Idle
    case SelectDr => if tms then SelectIr else CaptureDr
    case CaptureDr => if tms then Exit1Dr else ShiftDr
    case ShiftDr => if tms then Exit1Dr else ShiftDr
    case Exit1Dr => if tms then UpdateDr else PauseDr
    case PauseDr => if tms then Exit2Dr else PauseDr
    case Exit2Dr => if tms then UpdateDr else ShiftDr
    case UpdateDr => if tms then SelectDr else Idle
    case SelectIr => if tms then Reset else CaptureIr
    case CaptureIr => if tms then Exit1Ir else ShiftIr
    case ShiftIr => if tms then Exit1Ir else ShiftIr
    case Exit1Ir => if tms then UpdateIr else PauseIr
    case PauseIr => if tms then Exit2Ir else PauseIr
    case Exit2Ir => if tms then UpdateIr else ShiftIr
    case UpdateIr => if tms then SelectDr else Idle
  }

  // Instructions, as the eight bits that are shifted in, first bit first.
  const ISC_WRITE: seq<bool> := Bits([0xE6])
  const ISC_SRAM_READ: seq<bool> := Bits([0xE7])
  const ISC_READ: seq<bool> := Bits([0xEE])
  const ISC_ENABLE: seq<bool> := Bits([0xE8])
  const ISC_DISABLE: seq<bool> := Bits([0xC0])
  const IDCODE: seq<bool> := Bits([0x01])

  const ROW_BITS: nat := 274
  const ADDRESS_BITS: nat := 7
  const DR_BITS: nat := 281

  type Row = r: seq<bool> | |r| == ROW_BITS witness Zeros(ROW_BITS)

  datatype Device = Device(
    state: TapState,
    tdo: bool,
    reg: seq<bool>,              // the register between TDI and TDO; bit 0 leaves next
    ir: seq<bool>,               // current instruction
    enabled: bool,               // between ISC_ENABLE and ISC_DISABLE
    sram: map<seq<bool>, Row>,   // rows by 7-bit address
    eeprom: map<seq<bool>, Row>, // nonvolatile rows, which no command here changes
    address: seq<bool>)          // row address latched for reading
  {
    function RowAt(a: seq<bool>): Row {
      if a in sram then sram[a] else Zeros(ROW_BITS)
    }

    function FlashRowAt(a: seq<bool>): Row {
      if a in eeprom then eeprom[a] else Zeros(ROW_BITS)
    }

    /** What Capture-DR loads. */
    function Captured(): (r: seq<bool>)
      ensures |r| >= 1
    {
      if !enabled then [false]
      else if ir == ISC_SRAM_READ then RowAt(address) + Zeros(ADDRESS_BITS)
      else if ir == ISC_READ then FlashRowAt(address) + Zeros(ADDRESS_BITS)
      else if ir == ISC_WRITE then Zeros(DR_BITS)
      else [false]
    }

    /** What Update-DR does. */
    function Updated(): Device {
      if !enabled then this
      else if ir == ISC_WRITE && |reg| == DR_BITS then this.(sram := sram[reg[ROW_BITS..] := reg[..ROW_BITS]])
      else if (ir == ISC_SRAM_READ || ir == ISC_READ) && |reg| == DR_BITS then this.(address := reg[ROW_BITS..])
      else this
    }

    /** What Update-IR does. */
    function Instructed(i: seq<bool>): Device {
      this.(ir := i, enabled := i == ISC_ENABLE || (enabled && i != ISC_DISABLE))
    }

    function Fall(): Device {
      match state
      case ShiftDr => if reg == [] then this else this.(tdo := reg[0])
      case ShiftIr => if reg == [] then this else this.(tdo := reg[0])
      case UpdateDr => Updated()
      case UpdateIr => Instructed(reg)
      case Reset => this.(ir := IDCODE, enabled := false)
      case _ => this
    }

    /** The register after a rising edge: loaded, shifted or kept. */
    function NextReg(tdi: bool): seq<bool> {
      match state
      case CaptureDr => Captured()
      case CaptureIr => [true, false] + Zeros(6)
      case ShiftDr => if reg == [] then reg else reg[1..] + [tdi]
      case ShiftIr => if reg == [] then reg else reg[1..] + [tdi]
      case _ => reg
    }

    function Rise(tms: bool, tdi: bool): Device {
      this.(state := NextState(state, tms), reg := NextReg(tdi))
    }

    /** One TCK cycle: falling edge, then rising edge. */
    function Clock(tms: bool, tdi: bool): Device {
      Fall().Rise(tms, tdi)
    }
  }

  lemma FallKeepsState(d: Device)
    ensures d.Fall().state == d.state
  {
  }

  /** Falling twice is falling once: nothing is lost if TCK starts low. */
  lemma FallIdempotent(d: Device)
    ensures d.Fall().Fall() == d.Fall()
  {
    if d.state == UpdateDr {
      UpdatedTwice(d);
    }
  }

  lemma UpdatedTwice(d: Device)
    ensures d.Updated().Updated() == d.Updated() && d.Updated().state == d.state
  {
  }

  /** Where nothing but the state changes on a clock. */
  lemma QuietMove(d: Device, tms: bool, tdi: bool)
    requires d.state in {Idle, SelectDr, Exit1Dr, PauseDr, Exit2Dr, SelectIr, Exit1Ir, PauseIr, Exit2Ir}
    ensures d.Clock(tms, tdi) == d.(state := NextState(d.state, tms))
  {
    hide Device.Captured, Device.Updated;
  }

  /** Where a register is loaded. */
  lemma Captures(d: Device, tdi: bool)
    ensures d.(state := CaptureDr).Clock(true, tdi) == d.(state := Exit1Dr, reg := d.Captured())
    ensures d.(state := CaptureDr).Clock(false, tdi) == d.(state := ShiftDr, reg := d.Captured())
    ensures d.(state := CaptureIr).Clock(false, tdi) == d.(state := ShiftIr, reg := [true, false] + Zeros(6))
  {
    assert d.(state := Exit1Dr).Captured() == d.Captured();
    assert d.(state := ShiftDr).Captured() == d.Captured();
  }

  /** Where an instruction takes effect. */
  lemma UpdatesIr(d: Device, tdi: bool)
    ensures d.(state := UpdateIr).Clock(true, tdi) == d.Instructed(d.reg).(state := SelectDr)
    ensures d.(state := UpdateIr).Clock(false, tdi) == d.Instructed(d.reg).(state := Idle)
  {
    hide Device.Captured, Device.Updated;
    assert d.(state := UpdateIr).Fall() == d.Instructed(d.reg).(state := UpdateIr);
  }

  /** Where data takes effect. */
  lemma UpdatesDr(d: Device, tdi: bool)
    ensures d.(state := UpdateDr).Clock(false, tdi) == d.Updated().(state := Idle)
  {
    hide Device.Captured;
  }

  function Repeat(v: bool, n: nat): (s: seq<bool>)
    ensures |s| == n && forall i :: 0 <= i < n ==> s[i] == v
  {
    seq(n, _ => v)
  }

  predicate Shifting(s: TapState) {
    s == ShiftDr || s == ShiftIr
  }

  /** Everything that passes through the register: its old contents, then the input bits. */
  function Stream(d: Device, bits: seq<bool>): seq<bool> {
    d.reg + bits
  }

  /** The device after the first n of the input bits have been shifted in: the register is a window
      moving along the stream, and TDO has just shown the bit before the window. */
  function Shifted(d: Device, bits: seq<bool>, n: nat): (e: Device)
    requires n <= |bits| && d.reg != []
    ensures e.state == d.state
  {
    if n == 0 then d
    else d.(reg := Stream(d, bits)[n..|d.reg| + n], tdo := Stream(d, bits)[n - 1])
  }

  lemma ShiftClock(d: Device, tms: bool, tdi: bool)
    requires Shifting(d.state) && d.reg != []
    ensures d.Fall() == d.(tdo := d.reg[0])
    ensures d.Clock(tms, tdi) == d.(state := NextState(d.state, tms), tdo := d.reg[0], reg := d.reg[1..] + [tdi])
  {
    hide NextState, Device.Captured;
  }

  /** One TCK cycle in a shift state shifts one more bit; TDO shows the stream. */
  lemma ShiftNext(d: Device, bits: seq<bool>, n: nat, tms: bool)
    requires Shifting(d.state) && d.reg != [] && n < |bits|
    ensures var e := Shifted(d, bits, n);
            && e.Fall().tdo == Stream(d, bits)[n]
            && e.Clock(tms, bits[n]) == Shifted(d, bits, n + 1).(state := NextState(d.state, tms))
  {
    hide Device.Clock, Device.Fall, NextState;
    var e := Shifted(d, bits, n);
    assert e.reg == Stream(d, bits)[n..|d.reg| + n];
    WindowMoves(d.reg, bits, n);
    ShiftClock(e, tms, bits[n]);
  }

  lemma WindowMoves(reg: seq<bool>, bits: seq<bool>, n: nat)
    requires reg != [] && n < |bits|
    ensures var window := (reg + bits)[n..|reg| + n];
            window[0] == (reg + bits)[n] && window[1..] + [bits[n]] == (reg + bits)[n + 1..|reg| + n + 1]
  {
  }

  /** Shifting exactly the register's length is an exchange: the register ends as the input, and the
      bits shown on TDO are the register's old contents. */
  lemma ShiftIsExchange(d: Device, bits: seq<bool>)
    requires d.reg != [] && |d.reg| == |bits|
    ensures Shifted(d, bits, |bits|).reg == bits && Stream(d, bits)[..|bits|] == d.reg
  {
    assert Stream(d, bits)[|bits|..|d.reg| + |bits|] == bits;
  }

  // ----- the wires

  /** One rising TCK edge: the state it leaves, and the level of TDI. The states of a sequence of pulses
      determine TMS, so together they are all that the device has seen. */
  datatype Pulse = Pulse(state: TapState, tdi: bool)

  /** Pulses that leave these states, with TDI held. */
  function Pulses(states: seq<TapState>, tdi: bool): (r: seq<Pulse>)
    ensures |r| == |states|
  {
    seq(|states|, i requires 0 <= i < |states| => Pulse(states[i], tdi))
  }

  /** Pulses in one state that bring in the given bits. */
  function ShiftPulses(s: TapState, bits: seq<bool>): (r: seq<Pulse>)
    ensures |r| == |bits|
  {
    seq(|bits|, i requires 0 <= i < |bits| => Pulse(s, bits[i]))
  }

  lemma ShiftPulsesNext(s: TapState, b: seq<bool>, start: nat, i: nat)
    requires start <= i < |b|
    ensures ShiftPulses(s, b[start..i + 1]) == ShiftPulses(s, b[start..i]) + [Pulse(s, b[i])]
    ensures ShiftPulses(s, b[..i + 1]) == ShiftPulses(s, b[..i]) + [Pulse(s, b[i])]
  {
  }

  function Stay(s: TapState, n: nat): (r: seq<TapState>)
    ensures |r| == n
  {
    seq(n, _ => s)
  }

  /** The device with the levels of its inputs after a rising TCK edge, and all pulses so far. */
  datatype Wire = Wire(dev: Device, tms: bool, tdi: bool, trace: seq<Pulse>)
  {
    /** One pulse of TCK. */
    function Clocked(): Wire {
      this.(dev := dev.Clock(tms, tdi), trace := trace + [Pulse(dev.state, tdi)])
    }

    /** One pulse with TMS at a level. */
    function Step(level: bool): Wire {
      this.(tms := level).Clocked()
    }
  }

  datatype Pin = TCK | TMS | TDI

  /** The four JTAG wires with the device behind them. */
  class Port {
    var tck: bool
    var tms: bool
    var tdi: bool
    var dev: Device
    ghost var trace: seq<Pulse>  // all rising TCK edges so far

    /** While TCK is low the falling edge has happened. */
    ghost predicate Valid()
      reads this
    {
      !tck ==> dev.Fall() == dev
    }

    constructor (dev: Device)
      ensures Valid() && this.dev == dev && tck
    {
      tck, tms, tdi := true, true, true;
      this.dev := dev;
      trace := [];
    }

    method SetPort(pin: Pin, v: bool)
      requires Valid()
      modifies this
      ensures Valid()
      ensures tms == if pin == TMS then v else old(tms)
      ensures tdi == if pin == TDI then v else old(tdi)
      ensures tck == if pin == TCK then v else old(tck)
      ensures pin != TCK ==> dev == old(dev)
      ensures pin == TCK && !v ==> dev == old(dev).Fall()
      ensures trace == old(trace) + if pin == TCK && v && !old(tck) then [Pulse(old(dev.state), tdi)] else []
      ensures pin == TCK && v ==> dev == if old(tck) then old(dev) else old(dev).Rise(tms, tdi)
    {
      if pin == TMS {
        tms := v;
      }
      if pin == TDI {
        tdi := v;
      }
      if pin == TCK {
        if tck && !v {
          FallIdempotent(dev);
          dev := dev.Fall();
        } else if !tck && v {
          trace := trace + [Pulse(dev.state, tdi)];
          dev := dev.Rise(tms, tdi);
        }
        tck := v;
      }
    }

    ghost function Wires(): Wire
      reads this
    {
      Wire(dev, tms, tdi, trace)
    }

    function ReadTdo(): bool
      reads this
    {
      dev.tdo
    }
  }
}
