// One scan of the XSVF player (xsvfShift of common/xapp058/micro.c): going to the
// shift state, shifting, comparing, and trying again after a mismatch.
//
// The functions say what the scan does to the wires and to the capture buffer;
// the methods are proved to do exactly this.

module XsvfScan {
  import opened Bytes
  import opened Lenval
  import opened Tap
  import opened XsvfTap
  import opened XsvfShift

  /** What a shift is to be compared with. */
  datatype Expectation = Nothing | Expect(bytes: seq<bv8>, mask: seq<bv8>)
  {
    predicate MetBy(shown: seq<bv8>) {
      Expect? && |shown| >= |bytes| == |mask| ==> Matches(LsbBits(shown[..|bytes|]), LsbBits(bytes), LsbBits(mask))
    }
  }

  predicate IsShift(start: nat) {
    start == SHIFT_DR || start == SHIFT_IR
  }

  predicate IsEnd(start: nat, end: nat) {
    end == start || end == RUNTEST || end == PAUSE_DR || end == PAUSE_IR
  }

  predicate IsLong(time: int) {
    -0x8000_0000 <= time < 0x8000_0000
  }

  /** What is to be shifted: the bits, in n bytes, from the start state to the end state. */
  datatype Job = Job(start: nat, end: nat, bits: seq<bool>, n: nat, capture: bool, x: Expectation)
  {
    predicate Valid() {
      IsShift(start) && IsEnd(start, end) && n == AsBytes(|bits|) <= MAX_LEN && (x.Expect? ==> capture)
    }

    predicate Exits() {
      start != end
    }
  }

  /** lRunTestTime += lRunTestTime >> 2, in 32 bits. */
  function Grown(time: int): (t: int)
    ensures IsLong(t)
  {
    Signed32(time + time / 4)
  }

  lemma GrownIsNotZero(time: int)
    requires IsLong(time) && time != 0
    ensures Grown(time) != 0
  {
    assert -0xA000_0000 <= time + time / 4 < 0xA000_0000 && time + time / 4 != 0;
  }

  /** Waiting in Run-Test/Idle. */
  function Rested(w: Wire, time: int): (v: Wire)
    ensures Held(w) ==> v.dev.state == Idle && Held(v)
  {
    var idle := Gone(w, RUNTEST);
    IdleRests(idle, time);
    Waited(idle, time)
  }

  lemma IdleRests(w: Wire, time: int)
    requires Code(w.dev.state) == RUNTEST
    ensures Held(w) ==> Waited(w, time).dev.state == Idle && Held(Waited(w, time))
  {
    hide NextState;
    IsIdle(w.dev.state);
    if Held(w) {
      IdleIsStable();
      WaitedHere(w, time);
    }
  }

  lemma IdleIsStable()
    ensures Stable(Idle)
  {
  }

  lemma IsIdle(s: TapState)
    requires Code(s) == RUNTEST
    ensures s == Idle
  {
  }

  // ----- one attempt

  /** The bits have been shifted. */
  function Swept(j: Job, w: Wire): (v: Wire)
    requires j.Valid() && Held(w)
    ensures Held(v)
  {
    AtShift(j, w);
    ShiftedOut(Gone(w, j.start), j.bits, j.Exits())
  }

  lemma AtShift(j: Job, w: Wire)
    requires j.Valid() && Held(w)
    ensures var v := Gone(w, j.start); Code(v.dev.state) == j.start && Shifting(v.dev.state) && Held(v) && !v.tms
  {
    hide Gone, NextState;
    InShift(Gone(w, j.start));
  }

  lemma InShift(w: Wire)
    requires IsShift(Code(w.dev.state)) && Held(w)
    ensures Shifting(w.dev.state) && !w.tms
  {
  }

  /** The capture buffer afterwards. */
  function Seen(j: Job, w: Wire, b: Storage): Storage
    requires j.Valid()
  {
    if j.capture then Recaptured(b, ShownOut(Gone(w, j.start), j.bits), j.n) else b
  }

  /** After the last attempt: to the end state. Before a retry: through Pause-DR to Shift-DR. */
  function Left(j: Job, w: Wire, retry: bool): (v: Wire)
    requires j.Valid()
    ensures Held(w) ==> Held(v)
  {
    if !j.Exits() then w else if retry then Gone(Gone(w, PAUSE_DR), SHIFT_DR) else Gone(w, j.end)
  }

  function NextTime(j: Job, retry: bool, time: int): (t: int)
    requires IsLong(time)
    ensures IsLong(t)
  {
    if j.Exits() && retry then Grown(time) else time
  }

  /** One attempt with all that follows it, the wait included. */
  function Attempted(j: Job, w: Wire, retry: bool, time: int): (v: Wire)
    requires j.Valid() && Held(w) && IsLong(time)
    ensures Held(v)
  {
    var u, t := Left(j, Swept(j, w), retry), NextTime(j, retry, time);
    if j.Exits() && t != 0 then Rested(u, t) else u
  }

  // ----- all attempts

  /** The wires and the capture buffer in the end, and what the buffer held after each attempt. */
  datatype Outcome = Outcome(w: Wire, captured: Storage, tries: seq<seq<bv8>>)
  {
    function After(before: seq<seq<bv8>>): Outcome {
      this.(tries := before + tries)
    }
  }

  predicate Retries(mismatch: bool, time: int, left: nat) {
    mismatch && time != 0 && left > 0
  }

  /** Attempts until one agrees with what is expected, and at most left more after the first. */
  function Attempts(j: Job, w: Wire, b: Storage, time: int, left: nat): Outcome
    requires j.Valid() && Held(w) && IsLong(time)
    decreases left
  {
    var seen := Seen(j, w, b);
    var met := j.x.MetBy(seen.bytes);
    var retry := Retries(!met, time, left);
    var v := Attempted(j, w, retry, time);
    if met || left == 0 then Outcome(v, seen, [seen.bytes])
    else Attempts(j, v, seen, NextTime(j, retry, time), left - 1).After([seen.bytes])
  }

  /** At most left + 1 attempts are made. All but the last disagree with what is expected, and they stop
      early only when the last agrees. */
  lemma {:induction false} AttemptsTried(j: Job, w: Wire, b: Storage, time: int, left: nat)
    requires j.Valid() && Held(w) && IsLong(time)
    ensures var o := Attempts(j, w, b, time, left);
            && 1 <= |o.tries| <= left + 1 && o.tries[|o.tries| - 1] == o.captured.bytes
            && (forall i :: 0 <= i < |o.tries| - 1 ==> !j.x.MetBy(o.tries[i]))
            && (!j.x.MetBy(o.captured.bytes) ==> |o.tries| == left + 1)
            && Held(o.w)
            && (j.capture ==> o.captured.len == j.n)
    decreases left
  {
    hide Seen, Attempted, Expectation.MetBy, Held;
    var seen := Seen(j, w, b);
    var met := j.x.MetBy(seen.bytes);
    if j.capture {
      SeenLength(j, w, b);
    }
    if !met && left > 0 {
      var retry := Retries(!met, time, left);
      AttemptsTried(j, Attempted(j, w, retry, time), seen, NextTime(j, retry, time), left - 1);
    }
  }

  lemma SeenLength(j: Job, w: Wire, b: Storage)
    requires j.Valid() && j.capture
    ensures Seen(j, w, b).len == j.n
  {
  }

  /** The scan ends in Run-Test/Idle if there was a time to wait, else in its end state. */
  lemma {:induction false} AttemptsEnd(j: Job, w: Wire, b: Storage, time: int, left: nat)
    requires j.Valid() && Held(w) && IsLong(time)
    ensures Code(Attempts(j, w, b, time, left).w.dev.state) == if j.Exits() && time != 0 then RUNTEST else j.end
    decreases left
  {
    hide Seen, Expectation.MetBy, Held, Gone, Swept, Rested;
    var seen := Seen(j, w, b);
    var met := j.x.MetBy(seen.bytes);
    var retry := Retries(!met, time, left);
    if !j.Exits() {
      SweptStays(j, w);
    }
    NotTrapped(Swept(j, w).dev.state, j.end);
    if retry {
      GrownIsNotZero(time);
    }
    if !met && left > 0 {
      AttemptsEnd(j, Attempted(j, w, retry, time), seen, NextTime(j, retry, time), left - 1);
    }
  }

  lemma SweptStays(j: Job, w: Wire)
    requires j.Valid() && Held(w) && !j.Exits()
    ensures Code(Swept(j, w).dev.state) == j.start
  {
    AtShift(j, w);
  }

  lemma NotTrapped(s: TapState, target: nat)
    requires target != EXIT2_DR && target != EXIT2_IR
    ensures !Trapped(s, target)
  {
  }

  /** What a scan does: without bits it only waits. The retry count wraps at 256, so that a maximum of 255 is
      reported as a plain mismatch. */
  datatype Scanned = Scanned(outcome: Outcome, error: Error)

  function Scan(j: Job, w: Wire, b: Storage, time: int, maxRepeat: nat): (s: Scanned)
    requires j.Valid() && Held(w) && IsLong(time) && maxRepeat <= 255
    ensures Held(s.outcome.w)
  {
    if j.bits == [] then Scanned(Outcome(if time != 0 then Rested(w, time) else w, b, []), NoError)
    else
      var o := Attempts(j, w, b, time, maxRepeat);
      AttemptsTried(j, w, b, time, maxRepeat);
      Scanned(o, ErrorOf(j.x.MetBy(o.captured.bytes), maxRepeat))
  }

  function ErrorOf(met: bool, maxRepeat: nat): Error {
    if met then NoError else if 0 < maxRepeat < 255 then MaxRetries else TdoMismatch
  }

  // ----- scans from Run-Test/Idle and back

  lemma WentStep(w: Wire, target: nat)
    requires Reachable(w.dev.state, target) && Code(w.dev.state) != target
    ensures Reachable(NextState(w.dev.state, Toward(w.dev.state, target)), target)
    ensures w.Step(Toward(w.dev.state, target)).dev.state == NextState(w.dev.state, Toward(w.dev.state, target))
    ensures Went(w, target) == Went(w.Step(Toward(w.dev.state, target)), target)
  {
    hide Device.Clock;
    StepHolds(w, Toward(w.dev.state, target));
    Closer(w.dev.state, target);
  }

  lemma WentArrived(w: Wire, target: nat)
    requires Reachable(w.dev.state, target) && Code(w.dev.state) == target
    ensures Went(w, target) == w
  {
  }

  /** A step where nothing but the state changes. */
  function Moved(w: Wire, tms: bool, next: TapState): Wire {
    Wire(w.dev.(state := next), tms, w.tdi, w.trace + [Pulse(w.dev.state, w.tdi)])
  }

  lemma QuietStep(w: Wire, tms: bool)
    requires w.dev.state in {Idle, SelectDr, Exit1Dr, PauseDr, Exit2Dr, SelectIr, Exit1Ir, PauseIr, Exit2Ir}
    ensures w.Step(tms) == Moved(w, tms, NextState(w.dev.state, tms))
  {
    QuietMove(w.dev, tms, w.tdi);
  }

  /** One such step of a walk. */
  lemma WalkOn(w: Wire, target: nat, tms: bool, next: TapState)
    requires w.dev.state in {Idle, SelectDr, Exit1Dr, PauseDr, Exit2Dr, SelectIr, Exit1Ir, PauseIr, Exit2Ir}
    requires Reachable(w.dev.state, target) && Code(w.dev.state) != target
    requires tms == Toward(w.dev.state, target) && next == NextState(w.dev.state, tms)
    ensures Reachable(next, target) && Went(w, target) == Went(Moved(w, tms, next), target)
  {
    hide Device.Clock, Went, NextState, Toward, Code, Reachable;
    WentStep(w, target);
    QuietStep(w, tms);
  }

  lemma LastStep(w: Wire, target: nat)
    requires Reachable(w.dev.state, target) && Code(w.dev.state) != target
    requires Code(NextState(w.dev.state, Toward(w.dev.state, target))) == target
    ensures Went(w, target) == w.Step(Toward(w.dev.state, target))
  {
    hide Device.Clock, Went, NextState, Toward;
    WentStep(w, target);
    WentArrived(w.Step(Toward(w.dev.state, target)), target);
  }

  lemma IntoShiftDr(w: Wire)
    requires w.dev.state == Idle
    ensures Gone(w, SHIFT_DR) == Wire(w.dev.(state := ShiftDr, reg := w.dev.Captured()), false, w.tdi,
                                      w.trace + Pulses([Idle, SelectDr, CaptureDr], w.tdi))
  {
    hide Went, Distance, Device.Captured, Device.Clock;
    var u := Moved(w, true, SelectDr);
    var v := Moved(u, false, CaptureDr);
    WalkOn(w, SHIFT_DR, true, SelectDr);
    WalkOn(u, SHIFT_DR, false, CaptureDr);
    LastStep(v, SHIFT_DR);
    Captures(w.dev, w.tdi);
  }

  lemma OutOfExit1Dr(w: Wire)
    requires w.dev.state == Exit1Dr
    ensures Gone(w, RUNTEST) == Wire(w.dev.Updated().(state := Idle), false, w.tdi,
                                     w.trace + Pulses([Exit1Dr, UpdateDr], w.tdi))
  {
    hide Went, Distance, Device.Updated, Device.Clock;
    WalkOn(w, RUNTEST, true, UpdateDr);
    LastStep(Moved(w, true, UpdateDr), RUNTEST);
    UpdatesDr(w.dev, w.tdi);
  }

  lemma IntoPauseDr(w: Wire)
    requires w.dev.state == Exit1Dr
    ensures Gone(w, PAUSE_DR) == Wire(w.dev.(state := PauseDr), false, w.tdi, w.trace + Pulses([Exit1Dr], w.tdi))
  {
    hide Went, Distance, Device.Clock;
    LastStep(w, PAUSE_DR);
    QuietStep(w, false);
  }

  lemma OutOfPauseDr(w: Wire)
    requires w.dev.state == PauseDr
    ensures Gone(w, RUNTEST) == Wire(w.dev.Updated().(state := Idle), false, w.tdi,
                                     w.trace + Pulses([PauseDr, Exit2Dr, UpdateDr], w.tdi))
  {
    hide Went, Distance, Device.Updated, Device.Clock;
    var u := Moved(w, true, Exit2Dr);
    var v := Moved(u, true, UpdateDr);
    WalkOn(w, RUNTEST, true, Exit2Dr);
    WalkOn(u, RUNTEST, true, UpdateDr);
    LastStep(v, RUNTEST);
    UpdatesDr(w.dev, w.tdi);
  }

  lemma IntoShiftIr(w: Wire)
    requires w.dev.state == Idle
    ensures Gone(w, SHIFT_IR) == Wire(w.dev.(state := ShiftIr, reg := [true, false] + Zeros(6)), false, w.tdi,
                                      w.trace + Pulses([Idle, SelectDr, SelectIr, CaptureIr], w.tdi))
  {
    hide Went, Distance, Device.Clock;
    var u := Moved(w, true, SelectDr);
    var t := Moved(u, true, SelectIr);
    WalkOn(w, SHIFT_IR, true, SelectDr);
    WalkOn(u, SHIFT_IR, true, SelectIr);
    FromSelectIr(t);
  }

  lemma FromSelectIr(w: Wire)
    requires w.dev.state == SelectIr
    ensures Went(w, SHIFT_IR) == Wire(w.dev.(state := ShiftIr, reg := [true, false] + Zeros(6)), false, w.tdi,
                                      w.trace + [Pulse(SelectIr, w.tdi)] + [Pulse(CaptureIr, w.tdi)])
  {
    hide Went, Distance, Device.Clock;
    WalkOn(w, SHIFT_IR, false, CaptureIr);
    LastStep(Moved(w, false, CaptureIr), SHIFT_IR);
    Captures(w.dev, w.tdi);
  }

  lemma OutOfExit1Ir(w: Wire)
    requires w.dev.state == Exit1Ir
    ensures Gone(w, RUNTEST) == Wire(w.dev.Instructed(w.dev.reg).(state := Idle), false, w.tdi,
                                     w.trace + Pulses([Exit1Ir, UpdateIr], w.tdi))
  {
    hide Went, Distance, Device.Clock;
    WalkOn(w, RUNTEST, true, UpdateIr);
    LastStep(Moved(w, true, UpdateIr), RUNTEST);
    UpdatesIr(w.dev, w.tdi);
  }

  lemma IntoPauseIr(w: Wire)
    requires w.dev.state == Exit1Ir
    ensures Gone(w, PAUSE_IR) == Wire(w.dev.(state := PauseIr), false, w.tdi, w.trace + Pulses([Exit1Ir], w.tdi))
  {
    hide Went, Distance, Device.Clock;
    LastStep(w, PAUSE_IR);
    QuietStep(w, false);
  }

  lemma OutOfPauseIr(w: Wire)
    requires w.dev.state == PauseIr
    ensures Gone(w, RUNTEST) == Wire(w.dev.Instructed(w.dev.reg).(state := Idle), false, w.tdi,
                                     w.trace + Pulses([PauseIr, Exit2Ir, UpdateIr], w.tdi))
  {
    hide Went, Distance, Device.Clock;
    var u := Moved(w, true, Exit2Ir);
    var v := Moved(u, true, UpdateIr);
    WalkOn(w, RUNTEST, true, Exit2Ir);
    WalkOn(u, RUNTEST, true, UpdateIr);
    LastStep(v, RUNTEST);
    UpdatesIr(w.dev, w.tdi);
  }

  /** The pulses of a scan: in, the bits, out, and the wait. */
  function ScanPulses(into: seq<TapState>, shift: TapState, bits: seq<bool>, out: seq<TapState>, tdi: bool, time: int)
    : seq<Pulse>
    requires bits != []
  {
    var last := bits[|bits| - 1];
    Pulses(into, tdi) + ShiftPulses(shift, bits) + Pulses(out, last)
    + Pulses(Stay(Idle, if time > 0 then time else 0), last)
  }

  /** Waiting where one is. */
  lemma RestsIdle(w: Wire, time: int)
    requires w.dev.state == Idle && !w.tms && w.dev.reg != []
    ensures (if time != 0 then Rested(w, time) else w)
            == w.(trace := w.trace + Pulses(Stay(Idle, if time > 0 then time else 0), w.tdi))
  {
    hide Distance;
    WentArrived(w, RUNTEST);
    WaitedHere(w, time);
    if time != 0 {
      SameWires(w, time);
    }
  }

  lemma SameWires(w: Wire, time: int)
    requires w.dev.state == Idle && !w.tms && w.dev.reg != []
    ensures Rested(w, time) == Waited(w, time)
  {
    hide Distance, Waited;
    WentArrived(w, RUNTEST);
  }

  /** A whole exchange, on the wires. */
  lemma WholeShift(w: Wire, bits: seq<bool>)
    requires w.dev.reg != [] && |w.dev.reg| == |bits|
    ensures var v := ShiftedOut(w, bits, true);
            && v == Wire(w.dev.(state := NextState(w.dev.state, true), reg := bits, tdo := v.dev.tdo), true,
                         bits[|bits| - 1], w.trace + ShiftPulses(w.dev.state, bits))
            && ShownOut(w, bits) == w.dev.reg
  {
    Exchange(w, bits, true);
  }

  lemma SweptDr(j: Job, w: Wire)
    requires j.Valid() && j.start == SHIFT_DR && j.Exits() && j.bits != []
    requires w.dev.state == Idle && Held(w) && |w.dev.Captured()| == |j.bits|
    ensures var v := Swept(j, w);
            && v == Wire(w.dev.(state := Exit1Dr, reg := j.bits, tdo := v.dev.tdo), true, j.bits[|j.bits| - 1],
                         w.trace + Pulses([Idle, SelectDr, CaptureDr], w.tdi) + ShiftPulses(ShiftDr, j.bits))
            && ShownOut(Gone(w, SHIFT_DR), j.bits) == w.dev.Captured()
  {
    hide Gone, Device.Captured, ShiftedOut, ShownOut, Pulses, ShiftPulses;
    IntoShiftDr(w);
    WholeShift(Gone(w, SHIFT_DR), j.bits);
  }

  lemma SweptIr(j: Job, w: Wire)
    requires j.Valid() && j.start == SHIFT_IR && j.Exits() && |j.bits| == 8
    requires w.dev.state == Idle && Held(w)
    ensures var v := Swept(j, w);
            && v == Wire(w.dev.(state := Exit1Ir, reg := j.bits, tdo := v.dev.tdo), true, j.bits[7],
                         w.trace + Pulses([Idle, SelectDr, SelectIr, CaptureIr], w.tdi) + ShiftPulses(ShiftIr, j.bits))
  {
    hide Gone, ShiftedOut, ShownOut, Pulses, ShiftPulses;
    IntoShiftIr(w);
    WholeShift(Gone(w, SHIFT_IR), j.bits);
  }

  /** The states left from Exit1-DR on: to the end state, and from a pause to Run-Test/Idle if there is a time to
      wait. */
  function OutDr(end: nat, time: int): seq<TapState> {
    if end == RUNTEST then [Exit1Dr, UpdateDr]
    else if time == 0 then [Exit1Dr]
    else [Exit1Dr, PauseDr, Exit2Dr, UpdateDr]
  }

  function OutIr(end: nat, time: int): seq<TapState> {
    if end == RUNTEST then [Exit1Ir, UpdateIr]
    else if time == 0 then [Exit1Ir]
    else [Exit1Ir, PauseIr, Exit2Ir, UpdateIr]
  }

  /** The device when these bits have been scanned from Run-Test/Idle: they take effect, unless the scan ends in the
      pause. */
  function LoadedDr(d: Device, bits: seq<bool>, end: nat, time: int): Device {
    if end == RUNTEST || time != 0 then d.(reg := bits).Updated() else d.(reg := bits, state := PauseDr)
  }

  function LoadedIr(d: Device, bits: seq<bool>, end: nat, time: int): Device {
    if end == RUNTEST || time != 0 then d.Instructed(bits).(reg := bits) else d.(reg := bits, state := PauseIr)
  }

  /** From Exit1-DR to the end state, and the wait. */
  lemma LeavesDr(w: Wire, end: nat, time: int)
    requires w.dev.state == Exit1Dr && w.dev.reg != [] && (end == RUNTEST || end == PAUSE_DR)
    ensures var u := Gone(w, end);
            var v := if time != 0 then Rested(u, time) else u;
            && v.dev == (if end == RUNTEST || time != 0 then w.dev.Updated().(state := Idle)
                         else w.dev.(state := PauseDr))
            && v.trace == w.trace + Pulses(OutDr(end, time), w.tdi)
                          + Pulses(Stay(Idle, if time > 0 then time else 0), w.tdi)
            && v.tdi == w.tdi
  {
    hide Gone, Rested, Stay, Device.Updated;
    UpdatedReg(w.dev);
    if end == RUNTEST {
      OutOfExit1Dr(w);
      RestsIdle(Gone(w, RUNTEST), time);
    } else {
      IntoPauseDr(w);
      if time != 0 {
        OutOfPauseDr(Gone(w, PAUSE_DR));
        RestsFrom(Gone(w, PAUSE_DR), time);
        UpdatedStateless(w.dev);
        PulsesAdd(w.trace, [Exit1Dr], [PauseDr, Exit2Dr, UpdateDr], w.tdi);
      } else {
        NoTime(Gone(w, end), w.tdi);
      }
    }
  }

  lemma UpdatedReg(d: Device)
    ensures d.Updated().reg == d.reg
  {
  }

  lemma UpdatedStateless(d: Device)
    ensures forall s :: d.(state := s).Updated().(state := Idle) == d.Updated().(state := Idle)
  {
  }

  lemma PulsesAdd(trace: seq<Pulse>, a: seq<TapState>, b: seq<TapState>, tdi: bool)
    ensures trace + Pulses(a, tdi) + Pulses(b, tdi) == trace + Pulses(a + b, tdi)
  {
  }

  lemma NoTime(w: Wire, tdi: bool)
    ensures w.trace + Pulses(Stay(Idle, 0), tdi) == w.trace
  {
  }

  /** A rest begins by going to Run-Test/Idle. */
  lemma RestsFrom(w: Wire, time: int)
    requires Gone(w, RUNTEST).dev.state == Idle && !Gone(w, RUNTEST).tms && Gone(w, RUNTEST).dev.reg != []
    ensures var u := Gone(w, RUNTEST);
            Rested(w, time) == u.(trace := u.trace + Pulses(Stay(Idle, if time > 0 then time else 0), u.tdi))
  {
    hide Gone, Stay, Pulses;
    WaitedHere(Gone(w, RUNTEST), time);
  }

  lemma LeavesIr(w: Wire, end: nat, time: int)
    requires w.dev.state == Exit1Ir && w.dev.reg != [] && (end == RUNTEST || end == PAUSE_IR)
    ensures var u := Gone(w, end);
            var v := if time != 0 then Rested(u, time) else u;
            && v.dev == (if end == RUNTEST || time != 0 then w.dev.Instructed(w.dev.reg).(state := Idle)
                         else w.dev.(state := PauseIr))
            && v.trace == w.trace + Pulses(OutIr(end, time), w.tdi)
                          + Pulses(Stay(Idle, if time > 0 then time else 0), w.tdi)
  {
    hide Gone, Rested, Stay;
    if end == RUNTEST {
      OutOfExit1Ir(w);
      RestsIdle(Gone(w, RUNTEST), time);
    } else {
      IntoPauseIr(w);
      if time != 0 {
        OutOfPauseIr(Gone(w, PAUSE_IR));
        RestsFrom(Gone(w, PAUSE_IR), time);
        PulsesAdd(w.trace, [Exit1Ir], [PauseIr, Exit2Ir, UpdateIr], w.tdi);
      } else {
        NoTime(Gone(w, end), w.tdi);
      }
    }
  }

  lemma AttemptedDr(j: Job, w: Wire, time: int)
    requires j.Valid() && j.start == SHIFT_DR && (j.end == RUNTEST || j.end == PAUSE_DR) && j.bits != []
    requires w.dev.state == Idle && Held(w) && |w.dev.Captured()| == |j.bits| && IsLong(time)
    ensures var v := Attempted(j, w, false, time);
            && v.dev == LoadedDr(w.dev, j.bits, j.end, time).(tdo := v.dev.tdo)
            && v.trace == w.trace + ScanPulses([Idle, SelectDr, CaptureDr], ShiftDr, j.bits, OutDr(j.end, time),
                                               w.tdi, time)
            && v.tdi == j.bits[|j.bits| - 1]
  {
    hide Gone, Rested, Device.Captured, Swept, ShownOut, Waited, Pulses, ShiftPulses, Stay, Device.Updated, OutDr, Held,
         LoadedDr;
    SweptDr(j, w);
    var v := Swept(j, w);
    LeavesDr(v, j.end, time);
    LoadedAlike(v.dev, w.dev, j.bits, j.end, time);
  }

  lemma LoadedAlike(e: Device, d: Device, bits: seq<bool>, end: nat, time: int)
    requires e == d.(state := e.state, reg := bits, tdo := e.tdo) && d.state == Idle && bits != []
    ensures (if end == RUNTEST || time != 0 then e.Updated().(state := Idle) else e.(state := PauseDr))
            == LoadedDr(d, bits, end, time).(tdo := e.tdo)
    ensures e.Updated().reg != []
  {
    hide Device.Updated;
    UpdatesAlike(e, d, bits);
  }

  lemma UpdatesAlike(e: Device, d: Device, bits: seq<bool>)
    requires e == d.(state := e.state, reg := bits, tdo := e.tdo) && d.state == Idle && bits != []
    ensures e.Updated().(state := Idle) == d.(reg := bits).Updated().(tdo := e.tdo) && e.Updated().reg != []
  {
  }

  /** A data scan of the register's length, from Run-Test/Idle, that agrees with what is expected or is not to be tried
      again: the buffer holds what was captured, the bits shifted in take effect unless the scan ends in the pause, and
      these are all the pulses. It agrees exactly when the captured register does. */
  lemma DataScan(j: Job, w: Wire, b: Storage, time: int, maxRepeat: nat)
    requires j.Valid() && j.start == SHIFT_DR && (j.end == RUNTEST || j.end == PAUSE_DR) && j.bits != []
    requires w.dev.state == Idle && Held(w) && |w.dev.Captured()| == |j.bits| && IsLong(time) && maxRepeat <= 255
    ensures var s, seen := Scan(j, w, b, time, maxRepeat),
                           if j.capture then Recaptured(b, w.dev.Captured(), j.n) else b;
            && (maxRepeat == 0 ==> s.error == if j.x.MetBy(seen.bytes) then NoError else TdoMismatch)
            && (j.x.MetBy(seen.bytes) ==> s.error == NoError)
            && (maxRepeat == 0 || j.x.MetBy(seen.bytes) ==>
                  && s.outcome.captured == seen
                  && s.outcome.w.dev == LoadedDr(w.dev, j.bits, j.end, time).(tdo := s.outcome.w.dev.tdo)
                  && s.outcome.w.trace == w.trace + ScanPulses([Idle, SelectDr, CaptureDr], ShiftDr, j.bits,
                                                               OutDr(j.end, time), w.tdi, time)
                  && s.outcome.w.tdi == j.bits[|j.bits| - 1])
  {
    hide Gone, Rested, Recaptured, Device.Captured, Expectation.MetBy, Swept, ShownOut, Attempted, ScanPulses,
         Device.Updated, Held, LoadedDr, OutDr;
    SweptDr(j, w);
    AttemptedDr(j, w, time);
  }

  lemma AttemptedIr(j: Job, w: Wire, time: int)
    requires j.Valid() && j.start == SHIFT_IR && (j.end == RUNTEST || j.end == PAUSE_IR) && |j.bits| == 8
    requires w.dev.state == Idle && Held(w) && IsLong(time)
    ensures var v := Attempted(j, w, false, time);
            && v.dev == LoadedIr(w.dev, j.bits, j.end, time).(tdo := v.dev.tdo)
            && v.trace == w.trace + ScanPulses([Idle, SelectDr, SelectIr, CaptureIr], ShiftIr, j.bits,
                                               OutIr(j.end, time), w.tdi, time)
  {
    hide Gone, Rested, Swept, Waited, Pulses, ShiftPulses, Stay, OutIr, Device.Instructed;
    SweptIr(j, w);
    var v := Swept(j, w);
    LeavesIr(v, j.end, time);
    InstructedAlike(v.dev, w.dev, j.bits);
  }

  lemma InstructedAlike(e: Device, d: Device, bits: seq<bool>)
    requires e == d.(state := e.state, reg := bits, tdo := e.tdo) && d.state == Idle
    ensures e.Instructed(bits).(state := Idle) == d.Instructed(bits).(reg := bits, tdo := e.tdo)
  {
  }

  /** An instruction scan of eight bits from Run-Test/Idle loads the instruction, unless it ends in the pause. */
  lemma InstructionScan(j: Job, w: Wire, b: Storage, time: int)
    requires j.Valid() && j.start == SHIFT_IR && (j.end == RUNTEST || j.end == PAUSE_IR)
    requires j.x.Nothing? && |j.bits| == 8 && w.dev.state == Idle && Held(w) && IsLong(time)
    ensures var s := Scan(j, w, b, time, 0);
            && s.error == NoError
            && s.outcome.w.dev == LoadedIr(w.dev, j.bits, j.end, time).(tdo := s.outcome.w.dev.tdo)
            && s.outcome.w.trace == w.trace + ScanPulses([Idle, SelectDr, SelectIr, CaptureIr], ShiftIr, j.bits,
                                                         OutIr(j.end, time), w.tdi, time)
  {
    hide Gone, Attempted, Seen, ScanPulses, Held, LoadedIr, OutIr;
    AttemptedIr(j, w, time);
  }

  /** A scan that stays in Shift-DR: the register has moved on by these bits, the bits it showed are those it had
      captured, and they are all that is compared. */
  lemma StayScan(j: Job, w: Wire, b: Storage)
    requires j.Valid() && j.start == j.end == SHIFT_DR && j.bits != []
    requires w.dev.state == Idle && Held(w) && |j.bits| <= |w.dev.Captured()|
    ensures var s, captured, k := Scan(j, w, b, 0, 0), w.dev.Captured(), |j.bits|;
            var seen := if j.capture then Recaptured(b, captured[..k], j.n) else b;
            && s.error == (if j.x.MetBy(seen.bytes) then NoError else TdoMismatch)
            && s.outcome.w.dev == w.dev.(state := ShiftDr, reg := captured[k..] + j.bits, tdo := captured[k - 1])
            && s.outcome.w.trace == w.trace + Pulses([Idle, SelectDr, CaptureDr], w.tdi)
                                    + ShiftPulses(ShiftDr, j.bits)
  {
    hide Gone, Recaptured, Device.Captured, Expectation.MetBy, Pulses, ShiftPulses;
    IntoShiftDr(w);
    var u, captured, k := Gone(w, SHIFT_DR), w.dev.Captured(), |j.bits|;
    assert Stream(u.dev, j.bits)[..k] == captured[..k];
    assert Stream(u.dev, j.bits)[k..|captured| + k] == captured[k..] + j.bits;
  }

  // ----- a retry

  /** The wait after a mismatch is longer by a quarter. */
  lemma GrownByQuarter(time: int)
    requires IsLong(time)
    ensures -0x6666_6666 <= time < 0x6666_6666 ==> Grown(time) == time + time / 4
  {
  }

  /** What is in the register when one extra bit has been shifted. */
  function OneMore(bits: seq<bool>): seq<bool>
    requires bits != []
  {
    bits[1..] + [bits[|bits| - 1]]
  }

  lemma FromPauseToShift(w: Wire)
    requires w.dev.state == PauseDr
    ensures Gone(w, SHIFT_DR) == Wire(w.dev.(state := ShiftDr), false, w.tdi,
                                      w.trace + Pulses([PauseDr, Exit2Dr], w.tdi))
  {
    hide Went, Distance, Device.Clock;
    var u := Moved(w, true, Exit2Dr);
    WalkOn(w, SHIFT_DR, true, Exit2Dr);
    LastStep(u, SHIFT_DR);
    QuietStep(u, false);
  }

  lemma OneMoreBit(w: Wire)
    requires w.dev.state == ShiftDr && w.dev.reg != []
    ensures var v := w.Step(true);
            v == Wire(w.dev.(state := Exit1Dr, reg := w.dev.reg[1..] + [w.tdi], tdo := w.dev.reg[0]), true, w.tdi,
                      w.trace + [Pulse(ShiftDr, w.tdi)])
  {
    ShiftClock(w.dev, true, w.tdi);
  }

  lemma OutOfShiftDr(w: Wire)
    requires w.dev.state == ShiftDr && w.dev.reg != []
    ensures var d := w.dev.(reg := w.dev.reg[1..] + [w.tdi], tdo := w.dev.reg[0]);
            Gone(w, RUNTEST) == Wire(d.Updated().(state := Idle), false, w.tdi,
                                     w.trace + Pulses([ShiftDr, Exit1Dr, UpdateDr], w.tdi))
  {
    hide Went, Distance, Device.Updated, Device.Clock;
    OneMoreBit(w);
    WentStep(w, RUNTEST);
    var v := w.Step(true);
    OutOfExit1Dr(v);
    UpdatedStateless(v.dev);
  }

  /** An attempt that is tried again: through Pause-DR back to Shift-DR, where one extra bit is shifted, then by
      Update-DR, which puts the shifted value into effect, to Run-Test/Idle and the longer wait. */
  lemma RetriedDr(j: Job, w: Wire, time: int)
    requires j.Valid() && j.start == SHIFT_DR && j.Exits() && j.bits != []
    requires w.dev.state == Idle && Held(w) && |w.dev.Captured()| == |j.bits| && IsLong(time) && time != 0
    ensures var v, grown, last := Attempted(j, w, true, time), Grown(time), j.bits[|j.bits| - 1];
            && v.dev == w.dev.(reg := OneMore(j.bits)).Updated().(tdo := v.dev.tdo)
            && v.trace == w.trace + Pulses([Idle, SelectDr, CaptureDr], w.tdi) + ShiftPulses(ShiftDr, j.bits)
                          + Pulses([Exit1Dr, PauseDr, Exit2Dr, ShiftDr, Exit1Dr, UpdateDr], last)
                          + Pulses(Stay(Idle, if grown > 0 then grown else 0), last)
  {
    hide Gone, Rested, Device.Captured, Swept, ShownOut, Waited, ShiftPulses, Stay, Device.Updated, Grown;
    SweptDr(j, w);
    var v := Swept(j, w);
    GrownIsNotZero(time);
    Retrying(v, Grown(time));
    UpdatesAlike(v.dev.(reg := OneMore(j.bits), tdo := j.bits[0]), w.dev, OneMore(j.bits));
  }

  lemma Retrying(w: Wire, time: int)
    requires w.dev.state == Exit1Dr && w.dev.reg != []
    ensures var v := Rested(Gone(Gone(w, PAUSE_DR), SHIFT_DR), time);
            var d := w.dev.(reg := w.dev.reg[1..] + [w.tdi], tdo := w.dev.reg[0]);
            && v.dev == d.Updated().(state := Idle)
            && v.trace == w.trace + Pulses([Exit1Dr, PauseDr, Exit2Dr, ShiftDr, Exit1Dr, UpdateDr], w.tdi)
                          + Pulses(Stay(Idle, if time > 0 then time else 0), w.tdi)
  {
    hide Gone, Rested, Waited, Stay, Device.Updated;
    IntoPauseDr(w);
    var u := Gone(w, PAUSE_DR);
    FromPauseToShift(u);
    var v := Gone(u, SHIFT_DR);
    OutOfShiftDr(v);
    var d := w.dev.(reg := w.dev.reg[1..] + [w.tdi], tdo := w.dev.reg[0]);
    UpdatedReg(d);
    UpdatedStateless(d);
    UpdatedReg(d.(state := ShiftDr));
    RestsFrom(v, time);
    assert Pulses([Exit1Dr], w.tdi) + Pulses([PauseDr, Exit2Dr], w.tdi) + Pulses([ShiftDr, Exit1Dr, UpdateDr], w.tdi)
           == Pulses([Exit1Dr, PauseDr, Exit2Dr, ShiftDr, Exit1Dr, UpdateDr], w.tdi);
  }

  /** A shift that stays in Shift-DR and one that continues it are one shift: this is how XSDRB, XSDRC and
      XSDRE send a value in pieces. */
  lemma PiecesAreOneShift(w: Wire, b: Storage, first: seq<bool>, second: seq<bool>, end: nat)
    requires Held(w) && IsEnd(SHIFT_DR, end) && first != [] && second != [] && |first| + |second| <= 8 * MAX_LEN
    ensures var u := Scan(Piece(SHIFT_DR, first), w, b, 0, 0).outcome.w;
            && Held(u)
            && Scan(Piece(end, second), u, b, 0, 0).outcome.w == Scan(Piece(end, first + second), w, b, 0, 0).outcome.w
  {
    hide Went, Device.Clock;
    var j := Piece(SHIFT_DR, first);
    AtShift(j, w);
    var v := Gone(w, SHIFT_DR);
    var u := Swept(j, w);
    SweptStays(j, w);
    NotTrapped(u.dev.state, SHIFT_DR);
    WentArrived(u, SHIFT_DR);
    ShiftsCompose(v, first, second, SHIFT_DR != end);
  }

  /** Bits that are shifted without comparison. */
  function Piece(end: nat, bits: seq<bool>): (j: Job)
    requires IsEnd(SHIFT_DR, end) && |bits| <= 8 * MAX_LEN
    ensures j.Valid()
  {
    Job(SHIFT_DR, end, bits, AsBytes(|bits|), false, Nothing)
  }

  // ----- the implementation

  /** The buffers of one shift; only tdi is always there. */
  datatype Buffers = Buffers(tdi: LenVal, captured: LenVal?, expected: LenVal?, mask: LenVal?)
  {
    ghost predicate Valid()
      reads tdi, captured, expected, mask
    {
      && Separate(tdi, captured)
      && (expected != null ==> captured != null && Separate(expected, captured))
      && (mask != null ==> Separate(mask, captured))
    }

    ghost function Expects(): (x: Expectation)
      requires Valid()
      reads tdi, captured, expected, mask, if expected == null then {} else {expected.val}
      reads if mask == null then {} else {mask.val}
      ensures x.Expect? <==> expected != null
    {
      if expected == null then Nothing else Expect(expected.Contents(), MaskBytes(mask, expected.len))
    }

    /** The capture buffer, if there is one, holds b. */
    ghost predicate Holds(b: Storage)
      requires Valid()
      reads tdi, captured, expected, mask, if captured == null then {} else {captured.val}
    {
      captured != null ==> captured.Stored() == b
    }

    ghost function Work(start: nat, end: nat, numBits: nat): (j: Job)
      requires Valid() && tdi.len == AsBytes(numBits) && IsShift(start) && IsEnd(start, end)
      reads tdi, captured, expected, mask, tdi.val, if expected == null then {} else {expected.val}
      reads if mask == null then {} else {mask.val}
      ensures j.Valid() && |j.bits| == numBits
    {
      Job(start, end, ShiftBits(tdi.Contents(), numBits), tdi.len, captured != null, Expects())
    }
  }

  /** The shadow is true, and the wires hold the state. */
  ghost predicate Ready(port: Port, tapState: TapState)
    reads port
  {
    port.Valid() && tapState == port.dev.state && Held(port.Wires())
  }

  /** One attempt up to the comparison; the shadow is still the shift state. */
  method Attempt(port: Port, tapState: TapState, start: nat, end: nat, numBits: nat, b: Buffers, ghost before: Storage)
    returns (next: TapState, mismatch: bool, ghost seen: Storage)
    requires Ready(port, tapState) && b.Valid() && IsShift(start) && IsEnd(start, end)
    requires numBits > 0 && b.tdi.len == AsBytes(numBits) && b.Holds(before)
    modifies port, Frame(b.captured)
    ensures port.Valid() && b.Valid() && b.tdi.len == old(b.tdi.len)
    ensures b.Work(start, end, numBits) == old(b.Work(start, end, numBits))
    ensures var j := b.Work(start, end, numBits);
            && port.Wires() == Swept(j, old(port.Wires())) && Code(next) == start
            && seen == Seen(j, old(port.Wires()), before) && b.Holds(seen)
            && mismatch == !j.x.MetBy(seen.bytes)
  {
    hide Device.Clock, ShiftedOut, ShownOut, ShiftBits, Gone, LsbBits, Matches, NextState, Trapped, MaskBytes,
         Recaptured;
    ghost var j := b.Work(start, end, numBits);
    ghost var w := port.Wires();
    var error;
    NotTrapped(tapState, start);
    next, error := GotoTapState(port, tapState, start);
    AtShift(j, w);
    ShiftOnly(port, numBits, b.tdi, b.captured, start != end);
    seen := Seen(j, w, before);
    mismatch := Disagrees(b);
  }

  /** The comparison, if there is something to compare with. */
  method Disagrees(b: Buffers) returns (mismatch: bool)
    requires b.Valid()
    ensures b.expected == null ==> !mismatch
    ensures b.expected != null ==> mismatch == !b.Expects().MetBy(b.captured.Stored().bytes)
  {
    hide LsbBits, Matches, MaskBytes;
    mismatch := false;
    if b.expected != null {
      var equal := EqualLenVal(b.expected, b.captured, b.mask);
      mismatch := !equal;
      assert b.captured.val[..][..b.expected.len] == b.captured.val[..b.expected.len];
    }
  }

  /** Goes to Run-Test/Idle and waits there. */
  method WaitInIdle(port: Port, tapState: TapState, time: int) returns (next: TapState)
    requires Ready(port, tapState)
    modifies port
    ensures Ready(port, next) && port.Wires() == Rested(old(port.Wires()), time)
  {
    hide Device.Clock, Gone, Trapped, Held;
    NotTrapped(tapState, RUNTEST);
    var error;
    next, error := GotoTapState(port, tapState, RUNTEST);
    IsIdle(next);
    IdleRests(port.Wires(), time);
    WaitTime(port, time);
  }

  /** Out of the shift state, and the wait. */
  method Leave(port: Port, tapState: TapState, ghost j: Job, end: nat, retry: bool, runTestTime: int)
    returns (next: TapState, time: int)
    requires port.Valid() && Shifting(tapState) && port.dev.state == NextState(tapState, true) && Held(port.Wires())
    requires j.Valid() && j.Exits() && j.end == end && IsLong(runTestTime)
    modifies port
    ensures Ready(port, next) && time == NextTime(j, retry, runTestTime)
    ensures var u := Left(j, old(port.Wires()), retry);
            port.Wires() == if time != 0 then Rested(u, time) else u
  {
    hide Device.Clock, Gone, Trapped, Held, Rested;
    var error;
    next := if tapState == ShiftDr then Exit1Dr else Exit1Ir; // ++(*pucTapState)
    time := runTestTime;
    if retry {
      NotTrapped(next, PAUSE_DR);
      next, error := GotoTapState(port, next, PAUSE_DR);
      NotTrapped(next, SHIFT_DR);
      next, error := GotoTapState(port, next, SHIFT_DR);
      time := Grown(time);
    } else {
      NotTrapped(next, end);
      next, error := GotoTapState(port, next, end);
    }
    if time != 0 {
      next := WaitInIdle(port, next, time);
    }
  }

  /** The whole body of the retry loop. */
  method Try(port: Port, tapState: TapState, start: nat, end: nat, numBits: nat, b: Buffers, runTestTime: int,
             ghost left: nat, mayRetry: bool, ghost before: Storage)
    returns (next: TapState, time: int, mismatch: bool, ghost seen: Storage)
    requires Ready(port, tapState) && b.Valid() && IsShift(start) && IsEnd(start, end)
    requires numBits > 0 && b.tdi.len == AsBytes(numBits) && IsLong(runTestTime) && b.Holds(before)
    requires mayRetry <==> left > 0
    modifies port, Frame(b.captured)
    ensures Ready(port, next) && b.Valid() && b.tdi.len == old(b.tdi.len) && IsLong(time)
    ensures b.Work(start, end, numBits) == old(b.Work(start, end, numBits))
    ensures var j := b.Work(start, end, numBits);
            var retry := Retries(mismatch, runTestTime, left);
            && port.Wires() == Attempted(j, old(port.Wires()), retry, runTestTime)
            && seen == Seen(j, old(port.Wires()), before) && b.Holds(seen)
            && mismatch == !j.x.MetBy(seen.bytes) && time == NextTime(j, retry, runTestTime)
  {
    hide Device.Clock, Gone, LsbBits, Matches, Held, Left, Rested, Seen, Swept, Expectation.MetBy, Buffers.Work,
         NextTime, NextState, ShiftBits;
    ghost var j := b.Work(start, end, numBits);
    IsTheJob(b, start, end, numBits);
    SweptState(j, port.Wires());
    next, mismatch, seen := Attempt(port, tapState, start, end, numBits, b, before);
    time := runTestTime;
    CodeOfShift(next);
    if start != end {
      next, time := Leave(port, next, j, end, mismatch && time != 0 && mayRetry, runTestTime);
    } else {
      NotLeft(j, port.Wires(), time);
    }
  }

  lemma IsTheJob(b: Buffers, start: nat, end: nat, numBits: nat)
    requires b.Valid() && b.tdi.len == AsBytes(numBits) && IsShift(start) && IsEnd(start, end)
    ensures var j := b.Work(start, end, numBits); j.start == start && j.end == end
  {
  }

  lemma SweptState(j: Job, w: Wire)
    requires j.Valid() && Held(w)
    ensures forall s :: Code(s) == j.start ==> Swept(j, w).dev.state == NextState(s, j.Exits())
    ensures forall s :: Code(s) == j.start && !j.Exits() ==> Swept(j, w).dev.state == s
  {
    hide NextState, Gone;
    AtShift(j, w);
    SameCode(Gone(w, j.start).dev.state, j.start);
    StaysShifting(Gone(w, j.start).dev.state);
  }

  lemma SameCode(s: TapState, c: nat)
    requires Code(s) == c
    ensures forall t :: Code(t) == c ==> t == s
  {
  }

  lemma StaysShifting(s: TapState)
    requires Shifting(s)
    ensures NextState(s, false) == s
  {
  }

  lemma NotLeft(j: Job, w: Wire, time: int)
    requires j.Valid() && !j.Exits() && IsLong(time)
    ensures forall retry :: Left(j, w, retry) == w && NextTime(j, retry, time) == time
  {
  }

  lemma CodeOfShift(s: TapState)
    requires IsShift(Code(s))
    ensures Shifting(s)
  {
  }

  /** Shifts numBits bits from the start state to the end state, and repeats while the captured value is not
      as expected, at most maxRepeat times. */
  method Shift(port: Port, tapState: TapState, start: nat, end: nat, numBits: nat, b: Buffers, runTestTime: int,
               maxRepeat: nat, ghost before: Storage)
    returns (next: TapState, error: Error, ghost scanned: Scanned)
    requires Ready(port, tapState) && b.Valid() && IsShift(start) && IsEnd(start, end) && maxRepeat <= 255
    requires b.tdi.len == AsBytes(numBits) && IsLong(runTestTime) && b.Holds(before)
    modifies port, Frame(b.captured)
    ensures Ready(port, next) && b.Valid() && b.tdi.len == old(b.tdi.len)
    ensures b.Work(start, end, numBits) == old(b.Work(start, end, numBits))
    ensures scanned == Scan(b.Work(start, end, numBits), old(port.Wires()), before, runTestTime, maxRepeat)
    ensures port.Wires() == scanned.outcome.w && b.Holds(scanned.outcome.captured) && error == scanned.error
  {
    hide Device.Clock, Held, Rested, LsbBits, Matches, Attempts, Expectation.MetBy, Buffers.Work;
    ghost var j, w := b.Work(start, end, numBits), port.Wires();
    scanned := Scan(j, w, before, runTestTime, maxRepeat);
    if numBits == 0 {
      next, error := tapState, NoError;
      if runTestTime != 0 {
        next := WaitInIdle(port, tapState, runTestTime);
      }
    } else {
      ghost var o;
      next, error, o := Tries(port, tapState, start, end, numBits, b, runTestTime, maxRepeat, before);
    }
  }

  /** The retry loop. */
  method Tries(port: Port, tapState: TapState, start: nat, end: nat, numBits: nat, b: Buffers, runTestTime: int,
               maxRepeat: nat, ghost before: Storage)
    returns (next: TapState, error: Error, ghost o: Outcome)
    requires Ready(port, tapState) && b.Valid() && IsShift(start) && IsEnd(start, end) && maxRepeat <= 255
    requires numBits > 0 && b.tdi.len == AsBytes(numBits) && IsLong(runTestTime) && b.Holds(before)
    modifies port, Frame(b.captured)
    ensures Ready(port, next) && b.Valid() && b.tdi.len == old(b.tdi.len)
    ensures b.Work(start, end, numBits) == old(b.Work(start, end, numBits))
    ensures var j := b.Work(start, end, numBits);
            && o == Attempts(j, old(port.Wires()), before, runTestTime, maxRepeat)
            && port.Wires() == o.w && b.Holds(o.captured)
            && error == ErrorOf(j.x.MetBy(o.captured.bytes), maxRepeat)
  {
    hide Device.Clock, Held, Attempted, Seen, LsbBits, Matches, Expectation.MetBy, Buffers.Work;
    ghost var j, w := b.Work(start, end, numBits), port.Wires();
    ghost var seen, tries: seq<seq<bv8>> := before, [];
    next, error := tapState, NoError;
    var time, repeat, mismatch, again := runTestTime, 0, false, true;
    o := Attempts(j, w, before, runTestTime, maxRepeat);
    assert [] + o.tries == o.tries;
    while again
      invariant Ready(port, next) && b.Valid() && b.tdi.len == AsBytes(numBits) && b.Work(start, end, numBits) == j
      invariant IsLong(time) && b.Holds(seen)
      invariant again ==>
                  && repeat == |tries| <= maxRepeat
                  && o == Attempts(j, port.Wires(), seen, time, maxRepeat - repeat).After(tries)
      invariant !again ==>
                  && o == Outcome(port.Wires(), seen, tries) && mismatch == !j.x.MetBy(seen.bytes)
                  && repeat == (if mismatch then (maxRepeat + 1) % 256 else |tries| - 1)
      decreases maxRepeat + 1 - |tries|, again
    {
      ghost var left, w1 := maxRepeat - repeat, port.Wires();
      ghost var t1 := time;
      next, time, mismatch, seen := Try(port, next, start, end, numBits, b, time, left, repeat < maxRepeat, seen);
      AppendTry(tries, seen.bytes);
      tries := tries + [seen.bytes];
      again := mismatch && repeat < maxRepeat;
      repeat := if mismatch then (repeat + 1) % 256 else repeat;
    }
    if mismatch {
      error := if maxRepeat > 0 && repeat > maxRepeat then MaxRetries else TdoMismatch;
    }
  }

  lemma AppendTry(tries: seq<seq<bv8>>, seen: seq<bv8>)
    ensures forall o: Outcome :: o.After([seen]).After(tries) == o.After(tries + [seen])
    ensures forall w, b: Storage :: Outcome(w, b, [seen]).After(tries) == Outcome(w, b, tries + [seen])
  {
    forall o: Outcome ensures o.After([seen]).After(tries) == o.After(tries + [seen]) {
      assert tries + ([seen] + o.tries) == tries + [seen] + o.tries;
    }
  }
}
