// The CPLD driver (common/cpld_xc2c.c): hand-written TMS bit strings drive the
// TAP, bits are exchanged in place in a byte buffer, and the SRAM of the XC2C64A
// is written and then verified one row late.

module Cpld {
  import opened Bytes
  import opened Options
  import opened Tap

  const ROWS: nat := 98
  const BYTES_IN_ROW: nat := 35

  // ----- what short TMS strings do

  /** n TCK cycles with the given TMS and TDI bits, first bit first. */
  function ClocksUpTo(d: Device, tms: seq<bool>, tdi: seq<bool>, n: nat): Device
    requires n <= |tms| == |tdi|
  {
    if n == 0 then d else ClocksUpTo(d, tms, tdi, n - 1).Clock(tms[n - 1], tdi[n - 1])
  }

  const TO_SHIFT: seq<bool> := [true, false, false]          // 0b001
  const EXIT_TO_IDLE: seq<bool> := [true, false]             // 0b01
  const EXIT_PAUSE_UPDATE: seq<bool> := [false, true, true, false] // 0b0110

  function AfterTms(d: Device, tms: seq<bool>): Device {
    ClocksUpTo(d, tms, Zeros(|tms|), |tms|)
  }

  /** The state after n cycles with the given TMS bits, and the pulses of these cycles. */
  function StateUpTo(s: TapState, tms: seq<bool>, n: nat): TapState
    requires n <= |tms|
  {
    if n == 0 then s else NextState(StateUpTo(s, tms, n - 1), tms[n - 1])
  }

  function PathUpTo(s: TapState, tms: seq<bool>, tdi: seq<bool>, n: nat): seq<Pulse>
    requires n <= |tms| == |tdi|
  {
    if n == 0 then [] else PathUpTo(s, tms, tdi, n - 1) + [Pulse(StateUpTo(s, tms, n - 1), tdi[n - 1])]
  }

  function TmsPath(s: TapState, tms: seq<bool>): seq<Pulse> {
    PathUpTo(s, tms, Zeros(|tms|), |tms|)
  }

  lemma {:induction false} ClocksState(d: Device, tms: seq<bool>, tdi: seq<bool>, n: nat)
    requires n <= |tms| == |tdi|
    ensures ClocksUpTo(d, tms, tdi, n).state == StateUpTo(d.state, tms, n)
  {
    hide Device.Clock, NextState;
    if n > 0 {
      ClocksState(d, tms, tdi, n - 1);
      ClockMoves(ClocksUpTo(d, tms, tdi, n - 1), tms[n - 1], tdi[n - 1]);
    }
  }

  /** From Run-Test/Idle or Select-DR-Scan to a shift state with a freshly captured register. */
  function EnteredShift(d: Device): Device
    requires d.state == Idle || d.state == SelectDr
  {
    if d.state == Idle then d.(state := ShiftDr, reg := d.Captured())
    else d.(state := ShiftIr, reg := [true, false] + Zeros(6))
  }

  function EntryPath(s: TapState): seq<Pulse>
    requires s == Idle || s == SelectDr
  {
    Pulses(if s == Idle then [Idle, SelectDr, CaptureDr] else [SelectDr, SelectIr, CaptureIr], false)
  }

  lemma ToShift(d: Device)
    requires d.state == Idle || d.state == SelectDr
    ensures AfterTms(d, TO_SHIFT) == EnteredShift(d)
    ensures TmsPath(d.state, TO_SHIFT) == EntryPath(d.state)
  {
    hide Device.Clock;
    var z := Zeros(3);
    QuietMove(d, true, false);
    var e := d.(state := NextState(d.state, true));
    assert ClocksUpTo(d, TO_SHIFT, z, 1) == e;
    QuietMove(e, false, false);
    assert ClocksUpTo(d, TO_SHIFT, z, 2) == e.(state := NextState(e.state, false));
    Captures(d, false);
    assert PathUpTo(d.state, TO_SHIFT, z, 1) == [Pulse(d.state, false)];
    assert PathUpTo(d.state, TO_SHIFT, z, 2) == [Pulse(d.state, false), Pulse(e.state, false)];
  }

  predicate Exiting(s: TapState) {
    s == Exit1Dr || s == Exit2Dr || s == Exit1Ir || s == Exit2Ir
  }

  /** From an exit state through the update state to Run-Test/Idle. */
  function UpdatedIdle(d: Device): (r: Device)
    requires Exiting(d.state)
    ensures r.state == Idle
  {
    (if d.state == Exit1Dr || d.state == Exit2Dr then d.Updated() else d.Instructed(d.reg)).(state := Idle)
  }

  function UpdateOf(s: TapState): TapState {
    if s == Exit1Dr || s == Exit2Dr then UpdateDr else UpdateIr
  }

  lemma PauseDoesNotMatter(d: Device)
    ensures UpdatedIdle(d.(state := Exit2Dr)) == UpdatedIdle(d.(state := Exit1Dr))
    ensures UpdatedIdle(d.(state := Exit2Ir)) == UpdatedIdle(d.(state := Exit1Ir))
  {
  }

  lemma ExitToIdle(d: Device)
    requires Exiting(d.state)
    ensures AfterTms(d, EXIT_TO_IDLE) == UpdatedIdle(d)
    ensures TmsPath(d.state, EXIT_TO_IDLE) == Pulses([d.state, UpdateOf(d.state)], false)
  {
    hide Device.Clock;
    var z := Zeros(2);
    QuietMove(d, true, false);
    assert ClocksUpTo(d, EXIT_TO_IDLE, z, 1) == d.(state := NextState(d.state, true));
    UpdatesIr(d, false);
    UpdatesDr(d, false);
    assert PathUpTo(d.state, EXIT_TO_IDLE, z, 1) == [Pulse(d.state, false)];
  }

  const PAUSE_UPDATE: seq<TapState> := [Exit1Dr, PauseDr, Exit2Dr, UpdateDr]

  /** The non-IEEE path of the SRAM read: Exit1-DR, Pause-DR, Exit2-DR, Update-DR, Run-Test/Idle. */
  lemma ExitThroughPause(d: Device)
    requires d.state == Exit1Dr
    ensures AfterTms(d, EXIT_PAUSE_UPDATE) == d.Updated().(state := Idle)
    ensures TmsPath(Exit1Dr, EXIT_PAUSE_UPDATE) == Pulses(PAUSE_UPDATE, false)
  {
    PauseUpdatePath(4);
    assert PAUSE_UPDATE[..4] == PAUSE_UPDATE;
    hide Device.Clock;
    var z := Zeros(4);
    QuietMove(d, false, false);
    assert ClocksUpTo(d, EXIT_PAUSE_UPDATE, z, 1) == d.(state := PauseDr);
    QuietMove(d.(state := PauseDr), true, false);
    assert ClocksUpTo(d, EXIT_PAUSE_UPDATE, z, 2) == d.(state := Exit2Dr);
    QuietMove(d.(state := Exit2Dr), true, false);
    assert ClocksUpTo(d, EXIT_PAUSE_UPDATE, z, 3) == d.(state := UpdateDr);
    UpdatesDr(d, false);
  }

  lemma {:induction false} PauseUpdatePath(n: nat)
    requires n <= 4
    ensures StateUpTo(Exit1Dr, EXIT_PAUSE_UPDATE, n) == (PAUSE_UPDATE + [Idle])[n]
    ensures PathUpTo(Exit1Dr, EXIT_PAUSE_UPDATE, Zeros(4), n) == Pulses(PAUSE_UPDATE[..n], false)
  {
    if n > 0 {
      PauseUpdatePath(n - 1);
      assert PAUSE_UPDATE[..n] == PAUSE_UPDATE[..n - 1] + [PAUSE_UPDATE[n - 1]];
    }
  }

  /** Five TMS ones reach Test-Logic-Reset from every state. */
  lemma FiveOnes(d: Device)
    ensures AfterTms(d, Repeat(true, 5)).state == Reset && AfterTms(d, Repeat(true, 5)).eeprom == d.eeprom
    ensures d.state == Idle || d.state == Reset ==>
              AfterTms(d, Repeat(true, 5)).sram == d.sram && AfterTms(d, Repeat(true, 5)).address == d.address
  {
    hide Device.Clock, ClocksUpTo;
    Ones(d, 5, 5);
    FiveOnesState(d.state);
  }

  lemma FiveOnesState(s: TapState)
    ensures StateUpTo(s, Repeat(true, 5), 5) == Reset
  {
    hide NextState;
    var ones := Repeat(true, 5);
    assert StateUpTo(s, ones, 1) == NextState(s, true);
    assert StateUpTo(s, ones, 2) == NextState(StateUpTo(s, ones, 1), true);
    assert StateUpTo(s, ones, 3) == NextState(StateUpTo(s, ones, 2), true);
    assert StateUpTo(s, ones, 4) == NextState(StateUpTo(s, ones, 3), true);
    FiveSteps(s);
  }

  lemma FiveSteps(s: TapState)
    ensures var two := NextState(NextState(s, true), true);
            NextState(NextState(NextState(two, true), true), true) == Reset
  {
    TwoSteps(s);
    var two := NextState(NextState(s, true), true);
    assert NextState(two, true) in {SelectIr, Reset, SelectDr, UpdateDr, UpdateIr};
  }

  lemma TwoSteps(s: TapState)
    ensures NextState(NextState(s, true), true) in {Reset, SelectDr, SelectIr, UpdateDr, UpdateIr}
  {
  }

  lemma {:induction false} Ones(d: Device, n: nat, k: nat)
    requires n <= k
    ensures var e := ClocksUpTo(d, Repeat(true, k), Zeros(k), n);
            && e.state == StateUpTo(d.state, Repeat(true, k), n)
            && e.eeprom == d.eeprom
            && (d.state == Idle || d.state == Reset ==> e.sram == d.sram && e.address == d.address)
  {
    hide Device.Clock;
    if n > 0 {
      Ones(d, n - 1, k);
      ClockMoves(ClocksUpTo(d, Repeat(true, k), Zeros(k), n - 1), true, false);
      if d.state == Idle || d.state == Reset {
        OnesFromIdle(d.state, n - 1, k);
      }
    }
  }

  lemma {:induction false} OnesFromIdle(s: TapState, n: nat, k: nat)
    requires n <= k && (s == Idle || s == Reset)
    ensures StateUpTo(s, Repeat(true, k), n) in {Idle, SelectDr, SelectIr, Reset}
  {
    if n > 0 {
      OnesFromIdle(s, n - 1, k);
    }
  }

  lemma ClockMoves(d: Device, tms: bool, tdi: bool)
    ensures d.Clock(tms, tdi).state == NextState(d.state, tms) && d.Clock(tms, tdi).eeprom == d.eeprom
    ensures d.state != UpdateDr ==> d.Clock(tms, tdi).sram == d.sram && d.Clock(tms, tdi).address == d.address
  {
    hide Device.Fall, Device.Rise;
    FallKeeps(d);
    RiseKeeps(d.Fall(), tms, tdi);
  }

  lemma FallKeeps(d: Device)
    ensures d.Fall().state == d.state && d.Fall().eeprom == d.eeprom
    ensures d.state != UpdateDr ==> d.Fall().sram == d.sram && d.Fall().address == d.address
  {
  }

  lemma RiseKeeps(d: Device, tms: bool, tdi: bool)
    ensures d.Rise(tms, tdi).state == NextState(d.state, tms) && d.Rise(tms, tdi).eeprom == d.eeprom
    ensures d.Rise(tms, tdi).sram == d.sram && d.Rise(tms, tdi).address == d.address
  {
    hide NextState, Device.NextReg;
  }

  /** A word shifted in with TMS low except on its last bit: it follows what the register holds. */
  lemma {:induction false} ShiftedWord(d: Device, tms: seq<bool>, tdi: seq<bool>, n: nat)
    requires Shifting(d.state) && d.reg != [] && 1 <= n <= |tms| == |tdi|
    requires forall i :: 0 <= i < n - 1 ==> !tms[i]
    ensures ClocksUpTo(d, tms, tdi, n) == Shifted(d, tdi, n).(state := NextState(d.state, tms[n - 1]))
  {
    hide Device.Clock;
    if n > 1 {
      ShiftedWord(d, tms, tdi, n - 1);
    }
    ShiftNext(d, tdi, n - 1, tms[n - 1]);
  }

  /** The pulses of such a word all leave the shift state. */
  lemma {:induction false} StaysInShift(s: TapState, tms: seq<bool>, tdi: seq<bool>, n: nat)
    requires Shifting(s) && n <= |tms| == |tdi|
    requires forall i :: 0 <= i < |tms| - 1 ==> !tms[i]
    ensures n < |tms| ==> StateUpTo(s, tms, n) == s
    ensures PathUpTo(s, tms, tdi, n) == ShiftPulses(s, tdi[..n])
  {
    hide ShiftPulses;
    if n > 0 {
      StaysInShift(s, tms, tdi, n - 1);
      ShiftPulsesNext(s, tdi, 0, n - 1);
    } else {
      NoPulses(s, tdi[..0]);
    }
  }

  lemma NoPulses(s: TapState, bits: seq<bool>)
    requires bits == []
    ensures ShiftPulses(s, bits) == []
  {
  }

  // ----- clock and shift helpers

  method JtagClock(port: Port, tms: bool, tdi: bool) returns (tdo: bool)
    requires port.Valid()
    modifies port
    ensures port.Valid() && port.dev == old(port.dev).Clock(tms, tdi)
    ensures port.trace == old(port.trace) + [Pulse(old(port.dev.state), tdi)]
    ensures tdo == old(port.dev).Fall().tdo
  {
    hide Device.Fall, Device.Rise;
    FallKeepsState(port.dev);
    TdoKept(port.dev, tms, tdi);
    port.SetPort(TDI, tdi);
    port.SetPort(TMS, tms);
    port.SetPort(TCK, false);
    port.SetPort(TCK, true);
    tdo := port.ReadTdo();
  }

  /** TDO changes on falling edges only. */
  lemma TdoKept(d: Device, tms: bool, tdi: bool)
    ensures d.Clock(tms, tdi).tdo == d.Fall().tdo
  {
    hide Device.Fall;
  }

  /** One bit of the buffer is replaced. */
  lemma BitsUpdate(s: seq<bv8>, i: nat, v: bool)
    requires i < 8 * |s|
    ensures Bits(s[i / 8 := WithBit(s[i / 8], i % 8, v)]) == Bits(s)[i := v]
  {
    var t := s[i / 8 := WithBit(s[i / 8], i % 8, v)];
    forall j | 0 <= j < 8 * |s| ensures Bits(t)[j] == Bits(s)[i := v][j] {
      WithBitOf(s[i / 8], i % 8, v, j % 8);
    }
  }

  /** One turn of the shift loop: bit i of the buffer is sent and replaced by the bit received. */
  method ShiftBit(port: Port, buf: array<bv8>, i: nat, tms: bool)
    requires port.Valid() && i < 8 * buf.Length
    modifies port, buf
    ensures port.Valid() && port.dev == old(port.dev).Clock(tms, Bits(old(buf[..]))[i])
    ensures port.trace == old(port.trace) + [Pulse(old(port.dev.state), Bits(old(buf[..]))[i])]
    ensures Bits(buf[..]) == Bits(old(buf[..]))[i := old(port.dev).Fall().tdo]
  {
    var byteN, bitN := i / 8, i % 8;
    var tdo := JtagClock(port, tms, BitOf(buf[byteN], bitN));
    BitsUpdate(buf[..], i, tdo);
    buf[byteN] := WithBit(buf[byteN], bitN, tdo);
    assert buf[..] == old(buf[..])[byteN := buf[byteN]];
  }

  /** The buffer when bits [start, i) have been exchanged. */
  function Exchanged(b: seq<bool>, start: nat, stream: seq<bool>, i: nat): (r: seq<bool>)
    requires start <= i <= |b| && i - start <= |stream|
    ensures |r| == |b|
  {
    b[..start] + stream[..i - start] + b[i..]
  }

  lemma ExchangeNext(b: seq<bool>, start: nat, stream: seq<bool>, i: nat)
    requires start <= i < |b| && i - start < |stream|
    ensures Exchanged(b, start, stream, i)[i] == b[i]
    ensures Exchanged(b, start, stream, i)[i := stream[i - start]] == Exchanged(b, start, stream, i + 1)
  {
  }

  /** The device when n of the bits have been shifted with the given TMS. */
  function InShift(d: Device, bits: seq<bool>, n: nat, tms: bool): Device
    requires n <= |bits| && d.reg != []
  {
    if n == 0 then d else Shifted(d, bits, n).(state := NextState(d.state, tms))
  }

  lemma InShiftNext(d: Device, bits: seq<bool>, n: nat, tms: bool)
    requires Shifting(d.state) && d.reg != [] && n < |bits| && (tms ==> |bits| == 1)
    ensures InShift(d, bits, n, tms).state == d.state
    ensures InShift(d, bits, n, tms).Fall().tdo == Stream(d, bits)[n]
    ensures InShift(d, bits, n, tms).Clock(tms, bits[n]) == InShift(d, bits, n + 1, tms)
  {
    assert InShift(d, bits, n, tms) == Shifted(d, bits, n);
    ShiftNext(d, bits, n, tms);
  }

  /** One turn of the shift loop, in terms of the whole exchange. */
  method ExchangeBit(port: Port, buf: array<bv8>, ghost d0: Device, ghost b0: seq<bool>, start: nat, ghost end: nat,
                     i: nat, tms: bool)
    requires port.Valid() && start <= i < end <= |b0| == 8 * buf.Length
    requires Shifting(d0.state) && d0.reg != [] && (tms ==> end - start == 1)
    requires port.dev == InShift(d0, b0[start..end], i - start, tms)
    requires Bits(buf[..]) == Exchanged(b0, start, Stream(d0, b0[start..end]), i)
    modifies port, buf
    ensures port.Valid() && port.trace == old(port.trace) + [Pulse(d0.state, b0[i])]
    ensures port.dev == InShift(d0, b0[start..end], i + 1 - start, tms)
    ensures Bits(buf[..]) == Exchanged(b0, start, Stream(d0, b0[start..end]), i + 1)
  {
    hide InShift, Exchanged, Bits, Device.Clock, Device.Fall;
    InShiftNext(d0, b0[start..end], i - start, tms);
    ExchangeNext(b0, start, Stream(d0, b0[start..end]), i);
    ShiftBit(port, buf, i, tms);
  }

  /** Shifts bits [start, end) of the buffer through the device, in place. */
  method ShiftPtrTms(port: Port, buf: array<bv8>, start: nat, end: nat, tms: bool)
    requires port.Valid() && start <= end <= 8 * buf.Length
    requires Shifting(port.dev.state) && port.dev.reg != [] && (tms ==> end - start == 1)
    modifies port, buf
    ensures port.Valid()
    ensures var bits := Bits(old(buf[..]))[start..end];
            && port.trace == old(port.trace) + ShiftPulses(old(port.dev.state), bits)
            && port.dev == InShift(old(port.dev), bits, |bits|, tms)
            && Bits(buf[..]) == Exchanged(Bits(old(buf[..])), start, Stream(old(port.dev), bits), end)
  {
    hide Device.Clock, Shifted, InShift, Exchanged, ShiftPulses, Bits;
    ghost var d0, b0 := port.dev, Bits(buf[..]);
    NothingExchanged(d0, b0, start, b0[start..end], tms);
    for i := start to end
      invariant port.Valid() && port.trace == old(port.trace) + ShiftPulses(d0.state, b0[start..i])
      invariant port.dev == InShift(d0, b0[start..end], i - start, tms)
      invariant Bits(buf[..]) == Exchanged(b0, start, Stream(d0, b0[start..end]), i)
    {
      ShiftPulsesNext(d0.state, b0, start, i);
      ExchangeBit(port, buf, d0, b0, start, end, i, tms);
    }
  }

  lemma NothingExchanged(d: Device, b: seq<bool>, start: nat, bits: seq<bool>, tms: bool)
    requires start <= |b| && d.reg != []
    ensures InShift(d, bits, 0, tms) == d && Exchanged(b, start, Stream(d, bits), start) == b
    ensures ShiftPulses(d.state, b[start..start]) == []
  {
  }

  /** The complete in-place exchange of count bits, the last with TMS high. */
  method ShiftPtr(port: Port, buf: array<bv8>, count: nat)
    requires port.Valid() && count <= 8 * buf.Length && Shifting(port.dev.state) && port.dev.reg != []
    modifies port, buf
    ensures port.Valid()
    ensures port.trace == old(port.trace) + ShiftPulses(old(port.dev.state), Bits(old(buf[..]))[..count])
    ensures count == 0 ==> port.dev == old(port.dev) && buf[..] == old(buf[..])
    ensures count > 0 ==>
              var bits := Bits(old(buf[..]))[..count];
              && port.dev == Shifted(old(port.dev), bits, count).(state := NextState(old(port.dev.state), true))
              && Bits(buf[..]) == Exchanged(Bits(old(buf[..])), 0, Stream(old(port.dev), bits), count)
  {
    hide Shifted, InShift, Exchanged, Stream, Bits;
    if count > 0 {
      ghost var d0, b0 := port.dev, Bits(buf[..]);
      TwoShifts(d0, b0, count);
      ShiftPtrTms(port, buf, 0, count - 1, false);
      ShiftPtrTms(port, buf, count - 1, count, true);
    }
  }

  /** All bits but the last, then the last. */
  lemma TwoShifts(d: Device, b: seq<bool>, count: nat)
    requires Shifting(d.state) && d.reg != [] && 0 < count <= |b|
    ensures var e := InShift(d, b[0..count - 1], count - 1, false);
            var b1 := Exchanged(b, 0, Stream(d, b[0..count - 1]), count - 1);
            && b1[count - 1..count] == [b[count - 1]] && e.state == d.state && e.reg != []
            && InShift(e, [b[count - 1]], 1, true) == Shifted(d, b[..count], count).(state := NextState(d.state, true))
            && Exchanged(b1, count - 1, Stream(e, [b[count - 1]]), count)
               == Exchanged(b, 0, Stream(d, b[..count]), count)
  {
    hide NextState, Exchanged, InShift, Shifted;
    var n, last := count - 1, b[count - 1];
    var front := b[0..n];
    assert b[..count] == front + [last];
    AppendToStream(d.reg, front, last);
    FirstShift(d, front);
    ShiftedTwice(d, front, last);
    var e := InShift(d, front, n, false);
    ExchangedTwice(b, n, Stream(d, front), Stream(e, [last]), Stream(d, b[..count]));
  }

  lemma ShiftedTwice(d: Device, front: seq<bool>, last: bool)
    requires Shifting(d.state) && d.reg != []
    ensures var n, e := |front|, InShift(d, front, |front|, false);
            && e.reg != [] && Stream(e, [last]) == (d.reg + front)[n..] + [last]
            && InShift(e, [last], 1, true) == Shifted(d, front + [last], n + 1).(state := NextState(d.state, true))
  {
    AppendToStream(d.reg, front, last);
    FirstShift(d, front);
  }

  lemma ExchangedTwice(b: seq<bool>, n: nat, first: seq<bool>, second: seq<bool>, whole: seq<bool>)
    requires n < |b| && n <= |first| && 1 <= |second| && n < |whole|
    requires whole[..n + 1] == first[..n] + [whole[n]] && second[0] == whole[n]
    ensures Exchanged(b, 0, first, n)[n..n + 1] == [b[n]]
    ensures Exchanged(Exchanged(b, 0, first, n), n, second, n + 1) == Exchanged(b, 0, whole, n + 1)
  {
  }

  lemma AppendToStream(reg: seq<bool>, front: seq<bool>, last: bool)
    ensures var n, all := |front|, reg + (front + [last]);
            && all == reg + front + [last]
            && all[n..] == (reg + front)[n..] + [last]
            && all[n + 1..] == ((reg + front)[n..] + [last])[1..]
            && all[..n + 1] == (reg + front)[..n] + [all[n]]
  {
  }

  lemma FirstShift(d: Device, front: seq<bool>)
    requires Shifting(d.state) && d.reg != []
    ensures var e := InShift(d, front, |front|, false);
            e.state == d.state && e.reg == Stream(d, front)[|front|..] && e.reg != []
  {
  }

  /** Any short word: the bits of tms and tdi are clocked in, first bit first. */
  method ShiftWord(port: Port, tms: seq<bool>, tdi: seq<bool>)
    requires port.Valid() && |tms| == |tdi|
    modifies port
    ensures port.Valid() && port.dev == ClocksUpTo(old(port.dev), tms, tdi, |tms|)
    ensures port.trace == old(port.trace) + PathUpTo(old(port.dev.state), tms, tdi, |tms|)
  {
    hide Device.Clock;
    for i := 0 to |tms|
      invariant port.Valid() && port.dev == ClocksUpTo(old(port.dev), tms, tdi, i)
      invariant port.trace == old(port.trace) + PathUpTo(old(port.dev.state), tms, tdi, i)
    {
      ClocksState(old(port.dev), tms, tdi, i);
      var _ := JtagClock(port, tms[i], tdi[i]);
    }
  }

  /** A word that only drives TMS. */
  method DriveTms(port: Port, tms: seq<bool>)
    requires port.Valid()
    modifies port
    ensures port.Valid() && port.dev == AfterTms(old(port.dev), tms)
    ensures port.trace == old(port.trace) + TmsPath(old(port.dev.state), tms)
  {
    ShiftWord(port, tms, Zeros(|tms|));
  }

  predicate SelfLoop(s: TapState) {
    NextState(s, false) == s
  }

  /** TMS low for count cycles: Run-Test/Idle is not left. */
  method Clocks(port: Port, count: nat)
    requires port.Valid() && port.dev.state == Idle
    modifies port
    ensures port.Valid() && port.dev == old(port.dev)
    ensures port.trace == old(port.trace) + Pulses(Stay(Idle, count), false)
  {
    for i := 0 to count
      invariant port.Valid() && port.dev == old(port.dev)
      invariant port.trace == old(port.trace) + Pulses(Stay(Idle, i), false)
    {
      var _ := JtagClock(port, false, false);
    }
  }

  /** TMS low for count - 1 cycles, then high. */
  method Pause(port: Port, count: nat)
    requires port.Valid() && count > 0 && SelfLoop(port.dev.state)
    modifies port
    ensures port.Valid() && port.dev.state == NextState(old(port.dev.state), true)
    ensures port.trace == old(port.trace) + Pulses(Stay(old(port.dev.state), count), false)
    ensures old(port.dev.state) == PauseDr || old(port.dev.state) == PauseIr ==>
              port.dev == old(port.dev).(state := port.dev.state)
  {
    for i := 0 to count
      invariant port.Valid() && port.trace == old(port.trace) + Pulses(Stay(old(port.dev.state), i), false)
      invariant port.dev.state == if i < count then old(port.dev.state) else NextState(old(port.dev.state), true)
      invariant old(port.dev.state) == PauseDr || old(port.dev.state) == PauseIr ==>
                  port.dev == old(port.dev).(state := port.dev.state)
    {
      var _ := JtagClock(port, i == count - 1, false);
    }
  }

  /** Out of a scan: Exit1, perhaps the pause and Exit2, Update. */
  function ExitPath(s: TapState, pauseCount: nat): seq<Pulse> {
    var pause := if s == Exit1Dr then Stay(PauseDr, pauseCount) + [Exit2Dr]
                 else Stay(PauseIr, pauseCount) + [Exit2Ir];
    Pulses([s] + (if pauseCount > 0 then pause else []) + [UpdateOf(s)], false)
  }

  /** All pulses of a scan: in, the bits with the last one leaving for Exit1, and out. */
  function ScanPath(s: TapState, bits: seq<bool>, pauseCount: nat): seq<Pulse>
    requires s == Idle || s == SelectDr
  {
    EntryPath(s)
    + ShiftPulses(if s == Idle then ShiftDr else ShiftIr, bits)
    + ExitPath(if s == Idle then Exit1Dr else Exit1Ir, pauseCount)
  }

  /** The whole scan from Run-Test/Idle (data) or Select-DR-Scan (instruction) back to Run-Test/Idle.
      It ends there exactly when there is a bit to shift or a pause. */
  method ShiftDrIr(port: Port, buf: array<bv8>, bitCount: nat, pauseCount: nat)
    requires port.Valid() && bitCount <= 8 * buf.Length
    requires port.dev.state == Idle || port.dev.state == SelectDr
    modifies port, buf
    ensures port.Valid()
    ensures port.dev.state == Idle <==> bitCount > 0 || pauseCount > 0
    ensures bitCount > 0 ==>
              var d := EnteredShift(old(port.dev));
              var bits := Bits(old(buf[..]))[..bitCount];
              && port.trace == old(port.trace) + ScanPath(old(port.dev.state), bits, pauseCount)
              && port.dev == UpdatedIdle(Shifted(d, bits, bitCount).(state := NextState(d.state, true)))
              && Bits(buf[..]) == Exchanged(Bits(old(buf[..])), 0, Stream(d, bits), bitCount)
  {
    hide Device.Clock, Device.Updated, Device.Captured, Shifted, Exchanged, Bits, AfterTms;
    hide TmsPath, EntryPath, ShiftPulses, ExitPath, Stream;
    ToShift(port.dev);
    DriveTms(port, TO_SHIFT);
    ShiftPtr(port, buf, bitCount);
    LeaveShift(port, pauseCount);
  }

  /** The rest of the scan: an optional pause, then out through the update state. */
  method LeaveShift(port: Port, pauseCount: nat)
    requires port.Valid()
    requires port.dev.state == Exit1Dr || port.dev.state == Exit1Ir || Shifting(port.dev.state)
    modifies port
    ensures port.Valid()
    ensures old(Exiting(port.dev.state)) ==>
              && port.dev == UpdatedIdle(old(port.dev))
              && port.trace == old(port.trace) + ExitPath(old(port.dev.state), pauseCount)
    ensures port.dev.state == Idle <==> old(Exiting(port.dev.state)) || pauseCount > 0
  {
    hide Device.Clock, Device.Updated, AfterTms, TmsPath, ExitPath, UpdatedIdle, Pulses, Stay;
    PauseDoesNotMatter(port.dev);
    if Exiting(port.dev.state) {
      ExitPathIs(port.dev.state, pauseCount);
    }
    if pauseCount > 0 {
      ThroughPause(port, pauseCount);
    }
    if Exiting(port.dev.state) {
      ExitToIdle(port.dev);
    } else {
      StuckInPause(port.dev);
    }
    DriveTms(port, EXIT_TO_IDLE);
  }

  function PauseOf(s: TapState): TapState {
    if s == Exit1Dr then PauseDr else PauseIr
  }

  method ThroughPause(port: Port, pauseCount: nat)
    requires port.Valid() && pauseCount > 0
    requires port.dev.state == Exit1Dr || port.dev.state == Exit1Ir || Shifting(port.dev.state)
    modifies port
    ensures port.Valid() && Exiting(port.dev.state)
    ensures old(Exiting(port.dev.state)) ==>
              var pause := PauseOf(old(port.dev.state));
              && port.dev == old(port.dev).(state := NextState(pause, true))
              && port.trace == old(port.trace) + TmsPath(old(port.dev.state), [false])
                               + Pulses(Stay(pause, pauseCount), false)
  {
    hide Device.Clock, AfterTms, TmsPath, Pulses, Stay;
    OneLow(port.dev);
    DriveTms(port, [false]);
    Pause(port, pauseCount);
  }

  lemma ExitPathIs(s: TapState, n: nat)
    requires s == Exit1Dr || s == Exit1Ir
    ensures ExitPath(s, 0) == Pulses([s, UpdateOf(s)], false)
    ensures var pause := PauseOf(s);
            var exit := NextState(pause, true);
            n > 0 ==> ExitPath(s, n) == TmsPath(s, [false]) + Pulses(Stay(pause, n), false)
                                        + Pulses([exit, UpdateOf(exit)], false)
  {
    assert [s] + [] + [UpdateOf(s)] == [s, UpdateOf(s)];
    OneStep(s, false);
  }

  lemma OneStep(s: TapState, tms: bool)
    ensures TmsPath(s, [tms]) == Pulses([s], false)
  {
    assert PathUpTo(s, [tms], Zeros(1), 1) == PathUpTo(s, [tms], Zeros(1), 0) + [Pulse(s, false)];
  }

  /** One cycle with TMS low: from Exit1 to Pause, or one more shift. */
  lemma OneLow(d: Device)
    requires d.state == Exit1Dr || d.state == Exit1Ir || Shifting(d.state)
    ensures d.state == Exit1Dr ==> AfterTms(d, [false]) == d.(state := PauseDr)
    ensures d.state == Exit1Ir ==> AfterTms(d, [false]) == d.(state := PauseIr)
    ensures Shifting(d.state) ==> AfterTms(d, [false]).state == d.state
  {
    assert ClocksUpTo(d, [false], Zeros(1), 1) == ClocksUpTo(d, [false], Zeros(1), 0).Clock(false, false);
  }

  /** Without bits or pause the exit word leaves the shift state only as far as a pause state. */
  lemma StuckInPause(d: Device)
    requires Shifting(d.state)
    ensures AfterTms(d, EXIT_TO_IDLE).state == (if d.state == ShiftDr then PauseDr else PauseIr)
  {
    hide Device.Clock;
    var z, e := Zeros(2), d.Clock(true, false);
    ClockMoves(d, true, false);
    assert ClocksUpTo(d, EXIT_TO_IDLE, z, 1) == e;
    QuietMove(e, false, false);
    assert ClocksUpTo(d, EXIT_TO_IDLE, z, 2) == e.Clock(false, false);
  }

  // ----- instructions

  /** The instruction has taken effect, in Run-Test/Idle; SRAM and latched row address are as before. */
  ghost predicate Loaded(before: Device, after: Device, ir: bv8) {
    && after.state == Idle && after.ir == Bits([ir]) && after.enabled == before.Instructed(Bits([ir])).enabled
    && after.sram == before.sram && after.eeprom == before.eeprom && after.address == before.address
  }

  function InstructionPath(ir: bv8, pauseCount: nat): seq<Pulse> {
    Pulses([Idle], false) + ScanPath(SelectDr, Bits([ir]), pauseCount)
  }

  /** What an instruction scan captures: the two low bits are fixed by the standard. */
  const IR_CAPTURE: seq<bool> := [true, false] + Zeros(6)

  /** Loads an instruction; the SRAM and the latched row address are not touched. The value that came out
      is returned. */
  method LoadInstruction(port: Port, ir: bv8, pauseCount: nat) returns (value: bv8)
    requires port.Valid() && port.dev.state == Idle
    modifies port
    ensures port.Valid() && Loaded(old(port.dev), port.dev, ir) && Bits([value]) == IR_CAPTURE
    ensures port.trace == old(port.trace) + InstructionPath(ir, pauseCount)
  {
    hide Device.Clock, Shifted, Bits, Exchanged, ScanPath;
    SelectIrScan(port.dev);
    DriveTms(port, [true]);
    var buf := new bv8[1];
    buf[0] := ir;
    assert buf[..] == [ir];
    ghost var d := port.dev;
    assert Bits([ir])[..8] == Bits([ir]);
    ShiftDrIr(port, buf, 8, pauseCount);
    value := buf[0];
    assert buf[..] == [value];
    InstructionLoaded(d, ir);
  }

  lemma SelectIrScan(d: Device)
    requires d.state == Idle
    ensures AfterTms(d, [true]) == d.(state := SelectDr) && TmsPath(Idle, [true]) == Pulses([Idle], false)
  {
    OneStep(Idle, true);
    assert ClocksUpTo(d, [true], Zeros(1), 1) == ClocksUpTo(d, [true], Zeros(1), 0).Clock(true, false);
  }

  lemma InstructionLoaded(d: Device, ir: bv8)
    requires d.state == SelectDr
    ensures var e := EnteredShift(d);
            var u := UpdatedIdle(Shifted(e, Bits([ir])[..8], 8).(state := NextState(e.state, true)));
            Loaded(d.(state := Idle), u, ir)
    ensures Exchanged(Bits([ir]), 0, Stream(EnteredShift(d), Bits([ir])[..8]), 8) == IR_CAPTURE
  {
    var e := EnteredShift(d);
    assert Bits([ir])[..8] == Bits([ir]);
    ShiftIsExchange(e, Bits([ir]));
  }

  function ResetPath(s: TapState): seq<Pulse> {
    TmsPath(s, Repeat(true, 5))
  }

  /** Reset and then Run-Test/Idle. */
  method ResetAndIdle(port: Port)
    requires port.Valid()
    modifies port
    ensures port.Valid() && port.dev.state == Idle && port.dev.eeprom == old(port.dev.eeprom)
    ensures port.trace == old(port.trace) + ResetPath(old(port.dev.state)) + Pulses([Reset], false)
    ensures old(port.dev.state) == Idle || old(port.dev.state) == Reset ==>
              port.dev.sram == old(port.dev.sram) && port.dev.address == old(port.dev.address)
  {
    hide AfterTms, TmsPath;
    ResetTap(port);
    OneStep(Reset, false);
    LeaveReset(port.dev);
    DriveTms(port, [false]);
  }

  method ResetTap(port: Port)
    requires port.Valid()
    modifies port
    ensures port.Valid() && port.dev.state == Reset && port.dev.eeprom == old(port.dev.eeprom)
    ensures port.trace == old(port.trace) + ResetPath(old(port.dev.state))
    ensures old(port.dev.state) == Idle || old(port.dev.state) == Reset ==>
              port.dev.sram == old(port.dev.sram) && port.dev.address == old(port.dev.address)
  {
    hide AfterTms, TmsPath;
    FiveOnes(port.dev);
    DriveTms(port, Repeat(true, 5));
  }

  lemma LeaveReset(d: Device)
    requires d.state == Reset
    ensures var e := AfterTms(d, [false]);
            e.state == Idle && e.sram == d.sram && e.eeprom == d.eeprom && e.address == d.address
  {
    assert ClocksUpTo(d, [false], Zeros(1), 1) == ClocksUpTo(d, [false], Zeros(1), 0).Clock(false, false);
  }

  // ----- SRAM rows

  /** Ready for an SRAM write scan. */
  predicate Writable(d: Device) {
    d.state == Idle && d.enabled && d.ir == ISC_WRITE
  }

  /** Ready for an SRAM read scan. */
  predicate Readable(d: Device) {
    d.state == Idle && d.enabled && d.ir == ISC_SRAM_READ
  }

  function AddressBits(a: bv8): (r: seq<bool>)
    ensures |r| == ADDRESS_BITS
  {
    Bits([a])[..ADDRESS_BITS]
  }

  function RowBits(data: seq<bv8>): Row
    requires |data| == BYTES_IN_ROW
  {
    Bits(data)[..ROW_BITS]
  }

  const ADDRESS_TMS: seq<bool> := Zeros(6) + [true] // 0b1000000

  /** The pulses of a row scan: in, the row and the address, and out. */
  function RowPath(row: seq<bool>, address: seq<bool>, out: seq<TapState>): seq<Pulse> {
    EntryPath(Idle) + ShiftPulses(ShiftDr, row) + ShiftPulses(ShiftDr, address) + Pulses(out, false)
  }

  function SramWritePath(address: bv8, data: seq<bv8>): seq<Pulse>
    requires |data| == BYTES_IN_ROW
  {
    RowPath(RowBits(data), AddressBits(address), [Exit1Dr, UpdateDr])
  }

  /** Reading a row goes out through the pause. */
  function SramReadPath(sent: seq<bool>, nextAddress: bv8): seq<Pulse> {
    RowPath(sent, AddressBits(nextAddress), PAUSE_UPDATE)
  }

  lemma AddressPath(address: seq<bool>)
    requires |address| == ADDRESS_BITS
    ensures PathUpTo(ShiftDr, ADDRESS_TMS, address, ADDRESS_BITS) == ShiftPulses(ShiftDr, address)
  {
    StaysInShift(ShiftDr, ADDRESS_TMS, address, ADDRESS_BITS);
    assert address[..ADDRESS_BITS] == address;
  }

  /** 274 row bits, then 7 address bits, fill the 281-bit register exactly. */
  lemma RowScan(d: Device, row: Row, address: seq<bool>)
    requires d.state == Idle && |address| == ADDRESS_BITS && |d.Captured()| == DR_BITS
    ensures var e := EnteredShift(d);
            var f := InShift(e, row, ROW_BITS, false);
            && f.reg != [] && f.state == ShiftDr
            && ClocksUpTo(f, ADDRESS_TMS, address, ADDRESS_BITS).(tdo := false)
               == d.(state := Exit1Dr, reg := row + address, tdo := false)
            && Stream(e, row)[..ROW_BITS] == d.Captured()[..ROW_BITS]
  {
    hide Device.Clock, Device.Captured;
    var e := EnteredShift(d);
    var f := InShift(e, row, ROW_BITS, false);
    assert f.reg == Stream(e, row)[ROW_BITS..];
    ShiftedWord(f, ADDRESS_TMS, address, ADDRESS_BITS);
    assert Stream(f, address)[ADDRESS_BITS..] == row + address;
  }

  /** Writes one row. */
  method SramWriteRow(port: Port, address: bv8, data: seq<bv8>)
    requires port.Valid() && |data| == BYTES_IN_ROW && Writable(port.dev)
    modifies port
    ensures port.Valid() && Writable(port.dev)
    ensures port.dev.sram == old(port.dev.sram)[AddressBits(address) := RowBits(data)]
    ensures port.dev.address == old(port.dev.address) && port.dev.eeprom == old(port.dev.eeprom)
    ensures port.trace == old(port.trace) + SramWritePath(address, data)
  {
    hide Device.Clock, Device.Updated, Device.Captured, AfterTms, InShift, ClocksUpTo, Bits, Exchanged, Stream;
    hide TmsPath, PathUpTo, EntryPath, ShiftPulses, Pulses;
    var write := new bv8[BYTES_IN_ROW](i requires 0 <= i < BYTES_IN_ROW => data[i]);
    assert write[..] == data;
    ghost var d := port.dev;
    CapturedLength(d);
    RowScan(d, RowBits(data), AddressBits(address));
    ToShift(d);
    DriveTms(port, TO_SHIFT);
    assert Bits(data)[0..ROW_BITS] == RowBits(data);
    ShiftPtrTms(port, write, 0, ROW_BITS, false);
    AddressPath(AddressBits(address));
    ShiftWord(port, ADDRESS_TMS, AddressBits(address));
    ExitToIdle(port.dev);
    RowWritten(port.dev, d, RowBits(data), AddressBits(address));
    DriveTms(port, EXIT_TO_IDLE);
  }

  lemma CapturedLength(d: Device)
    ensures Writable(d) || Readable(d) ==> |d.Captured()| == DR_BITS
  {
  }

  lemma RowWritten(f: Device, d: Device, row: Row, address: seq<bool>)
    requires |address| == ADDRESS_BITS && Writable(d)
    requires f.(tdo := false) == d.(state := Exit1Dr, reg := row + address, tdo := false)
    ensures var u := UpdatedIdle(f);
            Writable(u) && u.sram == d.sram[address := row] && u.address == d.address && u.eeprom == d.eeprom
  {
    assert f.reg[ROW_BITS..] == address && f.reg[..ROW_BITS] == row;
  }

  /** Reads the row at the latched address into the buffer and latches the next address. The bits of
      the buffer beyond the row keep their value. */
  method SramReadRow(port: Port, data: array<bv8>, nextAddress: bv8)
    requires port.Valid() && data.Length == BYTES_IN_ROW && Readable(port.dev)
    modifies port, data
    ensures port.Valid() && Readable(port.dev)
    ensures port.dev.sram == old(port.dev.sram) && port.dev.address == AddressBits(nextAddress)
    ensures Bits(data[..]) == old(port.dev).RowAt(old(port.dev.address)) + Bits(old(data[..]))[ROW_BITS..]
    ensures port.trace == old(port.trace) + SramReadPath(Bits(old(data[..]))[..ROW_BITS], nextAddress)
  {
    hide Device.Clock, Device.Updated, Device.Captured, Device.RowAt, AfterTms, InShift, ClocksUpTo, Bits, Exchanged;
    hide TmsPath, PathUpTo, EntryPath, ShiftPulses, Pulses;
    ghost var d, b0 := port.dev, Bits(data[..]);
    assert b0[0..ROW_BITS] == b0[..ROW_BITS];
    CapturedLength(d);
    RowScan(d, b0[0..ROW_BITS], AddressBits(nextAddress));
    ToShift(d);
    DriveTms(port, TO_SHIFT);
    ShiftPtrTms(port, data, 0, ROW_BITS, false);
    RowExchanged(d, b0, Stream(EnteredShift(d), b0[0..ROW_BITS]));
    AddressPath(AddressBits(nextAddress));
    ShiftWord(port, ADDRESS_TMS, AddressBits(nextAddress));
    ExitThroughPause(port.dev);
    AddressLatched(port.dev, d, b0[0..ROW_BITS], AddressBits(nextAddress));
    DriveTms(port, EXIT_PAUSE_UPDATE);
  }

  lemma RowExchanged(d: Device, b: seq<bool>, stream: seq<bool>)
    requires Readable(d) && |b| == 8 * BYTES_IN_ROW && |stream| >= ROW_BITS
    requires stream[..ROW_BITS] == d.Captured()[..ROW_BITS]
    ensures Exchanged(b, 0, stream, ROW_BITS) == d.RowAt(d.address) + b[ROW_BITS..]
  {
    hide Device.RowAt;
    assert d.Captured() == d.RowAt(d.address) + Zeros(ADDRESS_BITS);
  }

  lemma AddressLatched(f: Device, d: Device, row: Row, address: seq<bool>)
    requires |address| == ADDRESS_BITS && Readable(d)
    requires f.(tdo := false) == d.(state := Exit1Dr, reg := row + address, tdo := false)
    ensures var u := f.Updated().(state := Idle);
            Readable(u) && u.sram == d.sram && u.address == address
  {
    ReadIsNotWrite();
    assert f.reg[ROW_BITS..] == address;
  }

  lemma ReadIsNotWrite()
    ensures ISC_SRAM_READ != ISC_WRITE
  {
    assert ISC_SRAM_READ[0] && !ISC_WRITE[0];
  }

  /** What a row read into a buffer of ones looks like. */
  function ReadBack(row: Row): (r: seq<bool>)
    ensures |r| == 8 * BYTES_IN_ROW
  {
    row + Repeat(true, 8 * BYTES_IN_ROW - ROW_BITS)
  }

  /** The mask-and-compare loop over two byte buffers. */
  method CompareBytes(read: array<bv8>, expected: seq<bv8>, mask: seq<bv8>) returns (matched: bool)
    requires read.Length == |expected| == |mask|
    ensures matched <==> Matches(Bits(read[..]), Bits(expected), Bits(mask))
  {
    matched := true;
    for i := 0 to read.Length
      invariant matched <==> forall j :: 0 <= j < i ==> !SignificantDifference(read[..][j], expected[j], mask[j])
    {
      matched := matched && !SignificantDifference(read[i], expected[i], mask[i]);
    }
    BytesMatch(read[..], expected, mask);
  }

  lemma AllOnes(n: nat)
    ensures Bits(seq(n, _ => 0xff)) == Repeat(true, 8 * n)
  {
  }

  /** Reads the row at the latched address, compares it under the mask if there is something to compare,
      and latches the next address. */
  method SramCompareRow(port: Port, expected: Option<seq<bv8>>, mask: Option<seq<bv8>>, nextAddress: bv8)
    returns (matched: bool)
    requires port.Valid() && Readable(port.dev)
    requires expected.Some? ==> |expected.value| == BYTES_IN_ROW
    requires mask.Some? ==> |mask.value| == BYTES_IN_ROW
    modifies port
    ensures port.Valid() && Readable(port.dev)
    ensures port.dev.sram == old(port.dev.sram) && port.dev.address == AddressBits(nextAddress)
    ensures expected.None? || mask.None? ==> matched
    ensures expected.Some? && mask.Some? ==>
              (matched <==> Matches(ReadBack(old(port.dev).RowAt(old(port.dev.address))),
                                    Bits(expected.value), Bits(mask.value)))
    ensures port.trace == old(port.trace) + SramReadPath(Repeat(true, ROW_BITS), nextAddress)
  {
    hide Device.RowAt, Bits, Matches, SramReadPath;
    var read := new bv8[BYTES_IN_ROW](_ => 0xff);
    assert read[..] == seq(BYTES_IN_ROW, _ => 0xff);
    AllOnes(BYTES_IN_ROW);
    assert Repeat(true, 8 * BYTES_IN_ROW)[..ROW_BITS] == Repeat(true, ROW_BITS);
    SramReadRow(port, read, nextAddress);
    assert Bits(read[..]) == ReadBack(old(port.dev).RowAt(old(port.dev.address)));
    matched := true;
    if expected.Some? && mask.Some? {
      matched := CompareBytes(read, expected.value, mask.value);
    }
  }

  // ----- the whole array

  datatype Verify = Verify(mask: seq<seq<bv8>>, maskIndex: seq<nat>)
  {
    predicate Valid() {
      && (forall m :: 0 <= m < |mask| ==> |mask[m]| == BYTES_IN_ROW) && |mask| > 0
      && |maskIndex| == ROWS && forall r :: 0 <= r < ROWS ==> maskIndex[r] < |mask|
    }

    function RowMask(r: nat): (m: seq<bv8>)
      requires Valid() && r < ROWS
      ensures |m| == BYTES_IN_ROW
    {
      mask[maskIndex[r]]
    }
  }

  type Program = p: seq<seq<bv8>> | |p| == ROWS && forall r :: 0 <= r < ROWS ==> |p[r]| == BYTES_IN_ROW
    witness seq(ROWS, _ => seq(BYTES_IN_ROW, _ => 0))

  /** The SRAM when the first n rows have been written, in order. */
  function Written(sram: map<seq<bool>, Row>, program: Program, addresses: seq<bv8>, n: nat): map<seq<bool>, Row>
    requires n <= ROWS == |addresses|
  {
    if n == 0 then sram
    else Written(sram, program, addresses, n - 1)[AddressBits(addresses[n - 1]) := RowBits(program[n - 1])]
  }

  predicate Distinct(addresses: seq<bv8>) {
    forall q, r :: 0 <= q < r < |addresses| ==> AddressBits(addresses[q]) != AddressBits(addresses[r])
  }

  /** At distinct addresses every row is stored. */
  lemma {:induction false} RowsAreStored(sram: map<seq<bool>, Row>, program: Program, addresses: seq<bv8>,
                                         n: nat, r: nat)
    requires r < n <= ROWS == |addresses| && Distinct(addresses)
    ensures var w := Written(sram, program, addresses, n);
            AddressBits(addresses[r]) in w && w[AddressBits(addresses[r])] == RowBits(program[r])
  {
    hide AddressBits, RowBits;
    if r < n - 1 {
      RowsAreStored(sram, program, addresses, n - 1, r);
    }
  }

  /** ISC_ENABLE, ISC_DISABLE and the like: an instruction followed by idle cycles. */
  method LoadAndWait(port: Port, ir: bv8, cycles: nat)
    requires port.Valid() && port.dev.state == Idle
    modifies port
    ensures port.Valid() && Loaded(old(port.dev), port.dev, ir)
    ensures port.trace == old(port.trace) + InstructionPath(ir, 0) + Pulses(Stay(Idle, cycles), false)
  {
    hide Bits, InstructionPath;
    var _ := LoadInstruction(port, ir, 0);
    Clocks(port, cycles);
  }

  function FinishPath(): seq<Pulse> {
    InstructionPath(0xC0, 0) + Pulses(Stay(Idle, 100), false) + InstructionPath(0xFF, 0) + ResetPath(Idle)
  }

  /** From a TAP state: reset, enable with its delay, and the instruction. */
  function BeginPath(s: TapState, ir: bv8): seq<Pulse> {
    ResetPath(s) + Pulses([Reset], false) + InstructionPath(0xE8, 0) + Pulses(Stay(Idle, 800), false)
    + InstructionPath(ir, 0)
  }

  /** Disable, bypass and reset end both commands. */
  method Finish(port: Port)
    requires port.Valid() && port.dev.state == Idle
    modifies port
    ensures port.Valid() && port.dev.state == Reset && port.dev.sram == old(port.dev.sram)
    ensures port.trace == old(port.trace) + FinishPath()
  {
    hide Bits, InstructionPath, ResetPath;
    LoadAndWait(port, 0xC0, 100);
    var _ := LoadInstruction(port, 0xFF, 0);
    ResetTap(port);
  }

  method Begin(port: Port, ir: bv8)
    requires port.Valid() && (ir == 0xE6 || ir == 0xE7)
    modifies port
    ensures port.Valid() && port.dev.state == Idle && port.dev.ir == Bits([ir]) && port.dev.enabled
    ensures port.trace == old(port.trace) + BeginPath(old(port.dev.state), ir)
    ensures old(port.dev.state) == Idle || old(port.dev.state) == Reset ==> port.dev.sram == old(port.dev.sram)
  {
    hide Bits, InstructionPath, ResetPath;
    NotDisable();
    ResetAndIdle(port);
    LoadAndWait(port, 0xE8, 800);
    var _ := LoadInstruction(port, ir, 0);
  }

  lemma NotDisable()
    ensures Bits([0xE6]) != ISC_DISABLE && Bits([0xE7]) != ISC_DISABLE && Bits([0xF0]) != ISC_DISABLE
  {
    assert Bits([0xE6])[1] && Bits([0xE7])[1] && !ISC_DISABLE[1];
    assert Bits([0xF0])[4] && !ISC_DISABLE[4];
  }

  /** The pulses of the first n rows, and of the whole command. */
  function RowsWritten(program: Program, addresses: seq<bv8>, n: nat): seq<Pulse>
    requires n <= ROWS == |addresses|
  {
    if n == 0 then [] else RowsWritten(program, addresses, n - 1) + SramWritePath(addresses[n - 1], program[n - 1])
  }

  function WritePath(s: TapState, program: Program, addresses: seq<bv8>): seq<Pulse>
    requires |addresses| == ROWS
  {
    BeginPath(s, 0xE6) + RowsWritten(program, addresses, ROWS) + FinishPath()
  }

  /** Writes every row, in order. */
  method SramWrite(port: Port, program: Program, addresses: seq<bv8>) returns (ghost before: map<seq<bool>, Row>)
    requires port.Valid() && |addresses| == ROWS
    modifies port
    ensures port.Valid() && port.dev.state == Reset
    ensures port.dev.sram == Written(before, program, addresses, ROWS)
    ensures old(port.dev.state) == Idle || old(port.dev.state) == Reset ==> before == old(port.dev.sram)
    ensures port.trace == old(port.trace) + WritePath(old(port.dev.state), program, addresses)
  {
    hide Bits, AddressBits, RowBits, BeginPath, SramWritePath, FinishPath;
    Begin(port, 0xE6);
    before := port.dev.sram;
    ghost var t := port.trace;
    for row := 0 to ROWS
      invariant port.Valid() && Writable(port.dev) && port.trace == t + RowsWritten(program, addresses, row)
      invariant port.dev.sram == Written(before, program, addresses, row)
    {
      SramWriteRow(port, addresses[row], program[row]);
    }
    Finish(port);
  }

  predicate RowMatches(sram: map<seq<bool>, Row>, program: Program, verify: Verify, addresses: seq<bv8>, r: nat)
    requires verify.Valid() && r < ROWS == |addresses|
  {
    var a := AddressBits(addresses[r]);
    var row := if a in sram then sram[a] else Zeros(ROW_BITS);
    Matches(ReadBack(row), Bits(program[r]), Bits(verify.RowMask(r)))
  }

  /** The address latched in step k of the verify loop: that of row k, and a dummy after the last. */
  function NextAddress(addresses: seq<bv8>, k: nat): bv8 {
    if k < |addresses| then addresses[k] else 0
  }

  /** The pulses of the first n steps, one more than there are rows, and of the whole command. */
  function RowsRead(addresses: seq<bv8>, n: nat): seq<Pulse> {
    if n == 0 then []
    else RowsRead(addresses, n - 1) + SramReadPath(Repeat(true, ROW_BITS), NextAddress(addresses, n - 1))
  }

  function VerifyPath(s: TapState, addresses: seq<bv8>): seq<Pulse> {
    BeginPath(s, 0xE7) + RowsRead(addresses, ROWS + 1) + FinishPath()
  }

  /** One turn of the verify loop: compares the row latched before and latches the next. */
  method VerifyStep(port: Port, program: Program, verify: Verify, addresses: seq<bv8>, addressRow: nat)
    returns (ok: bool)
    requires port.Valid() && addressRow <= ROWS == |addresses| && verify.Valid()
    requires Readable(port.dev)
    requires addressRow > 0 ==> port.dev.address == AddressBits(addresses[addressRow - 1])
    modifies port
    ensures port.Valid() && Readable(port.dev)
    ensures port.dev.sram == old(port.dev.sram)
    ensures addressRow < ROWS ==> port.dev.address == AddressBits(addresses[addressRow])
    ensures ok <==> addressRow > 0 ==> RowMatches(port.dev.sram, program, verify, addresses, addressRow - 1)
    ensures port.trace == old(port.trace) + SramReadPath(Repeat(true, ROW_BITS), NextAddress(addresses, addressRow))
  {
    hide Bits, Matches, AddressBits, ReadBack, SramReadPath;
    var dataRow := addressRow - 1;
    var expected := if dataRow >= 0 then Some(program[dataRow]) else None;
    var mask := if dataRow >= 0 then Some(verify.RowMask(dataRow)) else None;
    var nextAddress := if addressRow < ROWS then addresses[addressRow] else 0;
    ok := SramCompareRow(port, expected, mask, nextAddress);
  }

  /** The loop reads one row late: step k latches address k and compares row k - 1. The result is true
      exactly when every masked bit of every row of the SRAM matches, and the SRAM is not changed. */
  method SramVerify(port: Port, program: Program, verify: Verify, addresses: seq<bv8>) returns (matched: bool)
    requires port.Valid() && |addresses| == ROWS && verify.Valid()
    modifies port
    ensures port.Valid() && port.dev.state == Reset
    ensures matched <==> forall r :: 0 <= r < ROWS ==> RowMatches(port.dev.sram, program, verify, addresses, r)
    ensures old(port.dev.state) == Idle || old(port.dev.state) == Reset ==> port.dev.sram == old(port.dev.sram)
    ensures port.trace == old(port.trace) + VerifyPath(old(port.dev.state), addresses)
  {
    hide Bits, RowMatches, AddressBits, BeginPath, SramReadPath, FinishPath, NextAddress;
    Begin(port, 0xE7);
    ghost var sram, t := port.dev.sram, port.trace;
    matched := true;
    for addressRow := 0 to ROWS + 1
      invariant port.Valid() && Readable(port.dev) && port.dev.sram == sram
      invariant port.trace == t + RowsRead(addresses, addressRow)
      invariant 0 < addressRow <= ROWS ==> port.dev.address == AddressBits(addresses[addressRow - 1])
      invariant matched <==> forall r :: 0 <= r < addressRow - 1 ==> RowMatches(sram, program, verify, addresses, r)
    {
      var ok := VerifyStep(port, program, verify, addresses, addressRow);
      matched := matched && ok;
    }
    Finish(port);
  }

  /** The bits beyond the row that a mask selects must be ones in the program, because that is what
      comparing finds there. */
  predicate PaddingAgrees(program: Program, verify: Verify, r: nat)
    requires verify.Valid() && r < ROWS
  {
    forall i :: ROW_BITS <= i < 8 * BYTES_IN_ROW && Bits(verify.RowMask(r))[i] ==> Bits(program[r])[i]
  }

  lemma StoredRowMatches(sram: map<seq<bool>, Row>, program: Program, verify: Verify, addresses: seq<bv8>, r: nat)
    requires verify.Valid() && r < ROWS == |addresses|
    requires AddressBits(addresses[r]) in sram && sram[AddressBits(addresses[r])] == RowBits(program[r])
    ensures RowMatches(sram, program, verify, addresses, r) <==> PaddingAgrees(program, verify, r)
  {
    var bits := Bits(program[r]);
    var back := ReadBack(RowBits(program[r]));
    assert forall i :: 0 <= i < ROW_BITS ==> back[i] == bits[i];
    assert forall i :: ROW_BITS <= i < 8 * BYTES_IN_ROW ==> back[i];
  }

  /** Loading: write and verify. At distinct row addresses verification succeeds exactly when the masks
      select no zero padding bit, and in particular when they are zero on the padding. */
  method SramLoad(port: Port, program: Program, verify: Verify, addresses: seq<bv8>) returns (success: bool)
    requires port.Valid() && |addresses| == ROWS && verify.Valid()
    modifies port
    ensures port.Valid() && port.dev.state == Reset
    ensures Distinct(addresses) ==> forall r :: 0 <= r < ROWS ==>
              AddressBits(addresses[r]) in port.dev.sram
              && port.dev.sram[AddressBits(addresses[r])] == RowBits(program[r])
    ensures Distinct(addresses) ==>
              (success <==> forall r :: 0 <= r < ROWS ==> PaddingAgrees(program, verify, r))
    ensures success <==> forall r :: 0 <= r < ROWS ==> RowMatches(port.dev.sram, program, verify, addresses, r)
    ensures port.trace == old(port.trace) + WritePath(old(port.dev.state), program, addresses)
                          + VerifyPath(Reset, addresses)
  {
    hide AddressBits, RowBits, RowMatches, PaddingAgrees, Written, WritePath, VerifyPath;
    ghost var before := SramWrite(port, program, addresses);
    success := SramVerify(port, program, verify, addresses);
    if Distinct(addresses) {
      forall r | 0 <= r < ROWS
        ensures AddressBits(addresses[r]) in port.dev.sram
                && port.dev.sram[AddressBits(addresses[r])] == RowBits(program[r])
        ensures RowMatches(port.dev.sram, program, verify, addresses, r) <==> PaddingAgrees(program, verify, r)
      {
        RowsAreStored(before, program, addresses, ROWS, r);
        StoredRowMatches(port.dev.sram, program, verify, addresses, r);
      }
    }
  }

  // ----- the special initialization path

  const TO_SHIFT_IR: seq<bool> := [true, true, false, false]   // 0b0011
  const LAST_OF_EIGHT: seq<bool> := Zeros(7) + [true]          // 0x80
  const THROUGH_EMPTY_DR: seq<bool> := [true, true, true, false, true, true, false] // 0b0110111

  lemma ToShiftIr(d: Device)
    requires d.state == Idle
    ensures AfterTms(d, TO_SHIFT_IR) == d.(state := ShiftIr, reg := [true, false] + Zeros(6))
    ensures TmsPath(Idle, TO_SHIFT_IR) == Pulses([Idle, SelectDr, SelectIr, CaptureIr], false)
  {
    hide Device.Clock;
    var z := Zeros(4);
    QuietMove(d, true, false);
    assert ClocksUpTo(d, TO_SHIFT_IR, z, 1) == d.(state := SelectDr);
    QuietMove(d.(state := SelectDr), true, false);
    assert ClocksUpTo(d, TO_SHIFT_IR, z, 2) == d.(state := SelectIr);
    QuietMove(d.(state := SelectIr), false, false);
    assert ClocksUpTo(d, TO_SHIFT_IR, z, 3) == d.(state := CaptureIr);
    Captures(d, false);
    assert PathUpTo(Idle, TO_SHIFT_IR, z, 2) == Pulses([Idle, SelectDr], false);
    assert PathUpTo(Idle, TO_SHIFT_IR, z, 3) == Pulses([Idle, SelectDr, SelectIr], false);
  }

  lemma IntoSelectDr(d: Device)
    requires d.state == PauseIr
    ensures ClocksUpTo(d, THROUGH_EMPTY_DR, Zeros(7), 3) == d.Instructed(d.reg).(state := SelectDr)
  {
    hide Device.Clock;
    var z := Zeros(7);
    QuietMove(d, true, false);
    assert ClocksUpTo(d, THROUGH_EMPTY_DR, z, 1) == d.(state := Exit2Ir);
    QuietMove(d.(state := Exit2Ir), true, false);
    assert ClocksUpTo(d, THROUGH_EMPTY_DR, z, 2) == d.(state := UpdateIr);
    UpdatesIr(d, false);
  }

  /** The data scan behind it captures one bit and shifts nothing. */
  lemma EmptyDataScan(d: Device, e: Device)
    requires ClocksUpTo(d, THROUGH_EMPTY_DR, Zeros(7), 3) == e.(state := SelectDr)
    requires e.ir != ISC_WRITE && e.ir != ISC_SRAM_READ && e.ir != ISC_READ
    ensures AfterTms(d, THROUGH_EMPTY_DR) == e.(state := Idle, reg := [false])
  {
    hide Device.Clock;
    var z, f := Zeros(7), e.(reg := [false]);
    QuietMove(e.(state := SelectDr), false, false);
    assert ClocksUpTo(d, THROUGH_EMPTY_DR, z, 4) == e.(state := CaptureDr);
    Captures(e, false);
    assert ClocksUpTo(d, THROUGH_EMPTY_DR, z, 5) == f.(state := Exit1Dr);
    QuietMove(f.(state := Exit1Dr), true, false);
    assert ClocksUpTo(d, THROUGH_EMPTY_DR, z, 6) == f.(state := UpdateDr);
    UpdatesDr(f, false);
  }

  /** Pause-IR, Exit2-IR, Update-IR, Select-DR-Scan, Capture-DR, Exit1-DR, Update-DR, Run-Test/Idle: the
      instruction takes effect and an unshifted data register is updated. */
  lemma ThroughEmptyDr(d: Device)
    requires d.state == PauseIr && d.reg != ISC_WRITE && d.reg != ISC_SRAM_READ && d.reg != ISC_READ
    ensures AfterTms(d, THROUGH_EMPTY_DR) == d.Instructed(d.reg).(state := Idle, reg := [false])
    ensures TmsPath(PauseIr, THROUGH_EMPTY_DR) == Pulses(EMPTY_DR, false)
  {
    hide AfterTms, ClocksUpTo, TmsPath;
    EmptyDrIs();
    IntoSelectDr(d);
    EmptyDataScan(d, d.Instructed(d.reg));
  }

  lemma {:induction false} EmptyDrPath(n: nat)
    requires n <= 7
    ensures StateUpTo(PauseIr, THROUGH_EMPTY_DR, n) == (EMPTY_DR + [Idle])[n]
    ensures PathUpTo(PauseIr, THROUGH_EMPTY_DR, Zeros(7), n) == Pulses(EMPTY_DR[..n], false)
  {
    if n > 0 {
      EmptyDrPath(n - 1);
      assert EMPTY_DR[..n] == EMPTY_DR[..n - 1] + [EMPTY_DR[n - 1]];
    }
  }

  const EMPTY_DR: seq<TapState> := [PauseIr, Exit2Ir, UpdateIr, SelectDr, CaptureDr, Exit1Dr, UpdateDr]

  /** The states that the second load of the special initialization leaves. */
  function SecondInitPath(): seq<Pulse> {
    Pulses([Idle, SelectDr, SelectIr, CaptureIr], false) + ShiftPulses(ShiftIr, Bits([0xF0]))
    + Pulses([Exit1Ir], false) + Pulses(EMPTY_DR, false)
  }

  /** The second ISC_INIT: it updates through an unshifted data scan. */
  method InitAgain(port: Port)
    requires port.Valid() && port.dev.state == Idle
    modifies port
    ensures port.Valid() && Loaded(old(port.dev), port.dev, 0xF0)
    ensures port.trace == old(port.trace) + SecondInitPath()
  {
    hide Bits, AfterTms, TmsPath;
    ShiftInit(port);
    OneLow(port.dev);
    OneStep(Exit1Ir, false);
    DriveTms(port, [false]);
    InitIsNeither();
    ThroughEmptyDr(port.dev);
    DriveTms(port, THROUGH_EMPTY_DR);
  }

  /** Into Shift-IR, and the eight bits, the last leaving for Exit1-IR. */
  method ShiftInit(port: Port)
    requires port.Valid() && port.dev.state == Idle
    modifies port
    ensures port.Valid() && port.dev == old(port.dev).(state := Exit1Ir, reg := Bits([0xF0]), tdo := port.dev.tdo)
    ensures port.trace == old(port.trace) + Pulses([Idle, SelectDr, SelectIr, CaptureIr], false)
                          + ShiftPulses(ShiftIr, Bits([0xF0]))
  {
    hide Bits, AfterTms, ClocksUpTo, TmsPath, PathUpTo, Pulses, ShiftPulses;
    ToShiftIr(port.dev);
    DriveTms(port, TO_SHIFT_IR);
    ShiftedWord(port.dev, LAST_OF_EIGHT, Bits([0xF0]), 8);
    ShiftIsExchange(port.dev, Bits([0xF0]));
    StaysInShift(ShiftIr, LAST_OF_EIGHT, Bits([0xF0]), 8);
    assert Bits([0xF0])[..8] == Bits([0xF0]);
    ShiftWord(port, LAST_OF_EIGHT, Bits([0xF0]));
  }

  lemma EmptyDrIs()
    ensures TmsPath(PauseIr, THROUGH_EMPTY_DR) == Pulses(EMPTY_DR, false)
  {
    EmptyDrPath(7);
    assert EMPTY_DR[..7] == EMPTY_DR;
  }

  function InitPath(): seq<Pulse> {
    InstructionPath(0xF0, 0) + Pulses(Stay(Idle, 20), false) + SecondInitPath() + Pulses(Stay(Idle, 800), false)
  }

  /** The non-standard initialization: ISC_INIT is loaded, 20 clocks later loaded again through an
      unshifted data scan, and 800 clocks follow. */
  method InitSpecial(port: Port)
    requires port.Valid() && port.dev.state == Idle
    modifies port
    ensures port.Valid() && Loaded(old(port.dev), port.dev, 0xF0)
    ensures port.trace == old(port.trace) + InitPath()
  {
    hide Bits, InstructionPath, SecondInitPath;
    LoadAndWait(port, 0xF0, 20);
    InitAgain(port);
    Clocks(port, 800);
  }

  lemma InitIsNeither()
    ensures Bits([0xF0]) != ISC_WRITE && Bits([0xF0]) != ISC_SRAM_READ && Bits([0xF0]) != ISC_READ
  {
    assert !Bits([0xF0])[1] && ISC_WRITE[1] && ISC_SRAM_READ[1] && ISC_READ[1];
  }
}
