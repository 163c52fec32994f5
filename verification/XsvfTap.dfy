// Driving the TAP from the XSVF player (common/xapp058/micro.c, ports.c): walks
// through the state diagram with a shadow of the TAP state, waiting, and the
// shift that captures TDO before the rising edge.

module XsvfTap {
  import opened Tap

  datatype Error = NoError | TdoMismatch | MaxRetries | IllegalCommand | IllegalState | DataOverflow

  // State codes, as in the command stream.
  const RESET: nat := 0x00
  const RUNTEST: nat := 0x01
  const SHIFT_DR: nat := 0x04
  const PAUSE_DR: nat := 0x06
  const EXIT2_DR: nat := 0x07
  const IR_STATES: nat := 0x09
  const SHIFT_IR: nat := 0x0B
  const PAUSE_IR: nat := 0x0D
  const EXIT2_IR: nat := 0x0E
  const LAST_STATE: nat := 0x0F

  function Code(s: TapState): (c: nat)
    ensures c <= LAST_STATE
  {
    match s
    case Reset => 0x00
    case Idle => 0x01
    case SelectDr => 0x02
    case CaptureDr => 0x03
    case ShiftDr => 0x04
    case Exit1Dr => 0x05
    case PauseDr => 0x06
    case Exit2Dr => 0x07
    case UpdateDr => 0x08
    case SelectIr => 0x09
    case CaptureIr => 0x0A
    case ShiftIr => 0x0B
    case Exit1Ir => 0x0C
    case PauseIr => 0x0D
    case Exit2Ir => 0x0E
    case UpdateIr => 0x0F
  }

  // ----- the walk towards a target

  /** The TMS level that leads from s towards the target. */
  function Toward(s: TapState, target: nat): bool {
    match s
    case SelectDr => target >= IR_STATES
    case CaptureDr => target != SHIFT_DR
    case Exit1Dr => target != PAUSE_DR
    case Exit2Dr => target != SHIFT_DR
    case UpdateDr => target != RUNTEST
    case CaptureIr => target != SHIFT_IR
    case Exit1Ir => target != PAUSE_IR
    case Exit2Ir => target != SHIFT_IR
    case UpdateIr => target != RUNTEST
    case _ => s in {Idle, ShiftDr, PauseDr, ShiftIr, PauseIr}
  }

  /** The targets that the walk can reach: Exit2 only from the pause before it. */
  predicate Reachable(s: TapState, target: nat) {
    && 0 < target <= LAST_STATE
    && (target == EXIT2_DR ==> s == PauseDr || s == Exit2Dr)
    && (target == EXIT2_IR ==> s == PauseIr || s == Exit2Ir)
  }

  function Column(s: TapState): nat {
    if Code(s) >= IR_STATES then Code(s) - IR_STATES else if Code(s) >= 2 then Code(s) - 2 else 0
  }

  /** A measure that every step towards the target decreases. */
  function Distance(s: TapState, target: nat): nat {
    var t := if target >= IR_STATES then target - IR_STATES else if target >= 2 then target - 2 else 0;
    if Code(s) == target then 0
    else if target == RUNTEST then (if s == Reset then 12 else 10 - Column(s))
    else if s == Reset then 52
    else if s == Idle then 51
    else if s == SelectDr then (if target >= IR_STATES then 15 else 10)
    else if (Code(s) >= IR_STATES) != (target >= IR_STATES) then 30 - Column(s)
    else if Column(s) < t then 10 - Column(s)
    else 70 - Column(s)
  }

  lemma Closer(s: TapState, target: nat)
    requires Reachable(s, target) && Code(s) != target
    ensures Reachable(NextState(s, Toward(s, target)), target)
    ensures Distance(NextState(s, Toward(s, target)), target) < Distance(s, target)
  {
  }

  /** The state after n steps of the walk. */
  function Walked(s: TapState, target: nat, n: nat): TapState
    decreases n
  {
    if n == 0 then s else Walked(NextState(s, Toward(s, target)), target, n - 1)
  }

  lemma {:induction false} WalkArrives(s: TapState, target: nat) returns (n: nat)
    requires Reachable(s, target)
    ensures Code(Walked(s, target, n)) == target
    decreases Distance(s, target)
  {
    n := 0;
    if Code(s) != target {
      Closer(s, target);
      n := WalkArrives(NextState(s, Toward(s, target)), target);
      n := n + 1;
    }
  }

  lemma {:induction false} WalkMisses(s: TapState, target: nat, n: nat)
    requires target > 0 && !Reachable(s, target)
    ensures Code(Walked(s, target, n)) != target
    decreases n
  {
    if n > 0 {
      StillUnreachable(s, target);
      WalkMisses(NextState(s, Toward(s, target)), target, n - 1);
    }
  }

  lemma StillUnreachable(s: TapState, target: nat)
    requires target > 0 && !Reachable(s, target)
    ensures !Reachable(NextState(s, Toward(s, target)), target)
  {
  }

  /** The walk reaches its target exactly when the target is a state code that the trap lets through: it
      runs forever for codes beyond 0x0F, and would without the trap for an Exit2 state. */
  lemma WalkTerminates(s: TapState, target: nat)
    requires target > 0
    ensures (exists n :: Code(Walked(s, target, n)) == target) <==> Reachable(s, target)
  {
    if Reachable(s, target) {
      var n := WalkArrives(s, target);
    } else {
      forall n ensures Code(Walked(s, target, n)) != target {
        WalkMisses(s, target, n);
      }
    }
  }

  // ----- the device on the walk

  lemma ClockMoves(w: Wire)
    ensures w.Clocked().dev.state == NextState(w.dev.state, w.tms)
    ensures w.dev.reg != [] ==> w.Clocked().dev.reg != []
  {
    hide NextState, Device.Captured;
  }

  /** A state that the TAP stays in while TMS is held. */
  predicate Stable(s: TapState) {
    NextState(s, false) == s || NextState(s, true) == s
  }

  /** The TMS level holds the state, if it can be held at all, and there is a register to shift. */
  predicate Held(w: Wire) {
    (Stable(w.dev.state) ==> NextState(w.dev.state, w.tms) == w.dev.state) && w.dev.reg != []
  }

  /** Every clock leaves TMS at the level that holds the state it leads to. */
  lemma ClockHolds(s: TapState, tms: bool)
    ensures Stable(NextState(s, tms)) ==> NextState(NextState(s, tms), tms) == NextState(s, tms)
  {
  }

  lemma StepHolds(w: Wire, tms: bool)
    ensures w.Step(tms).dev.state == NextState(w.dev.state, tms)
    ensures w.dev.reg != [] ==> Held(w.Step(tms))
  {
    hide NextState, Device.Clock;
    ClockMoves(w.(tms := tms));
    ClockHolds(w.dev.state, tms);
  }

  /** After the walk. */
  function Went(w: Wire, target: nat): (v: Wire)
    requires Reachable(w.dev.state, target)
    ensures Code(v.dev.state) == target && v.tdi == w.tdi && (Held(w) ==> Held(v))
    decreases Distance(w.dev.state, target)
  {
    if Code(w.dev.state) == target then w
    else
      StepHolds(w, Toward(w.dev.state, target));
      Closer(w.dev.state, target);
      Went(w.Step(Toward(w.dev.state, target)), target)
  }

  /** After n pulses with nothing else changed. */
  function Waited(w: Wire, n: int): (v: Wire)
    ensures v.tms == w.tms && v.tdi == w.tdi && (w.dev.reg != [] ==> v.dev.reg != [])
    decreases n
  {
    if n <= 0 then w else ClockMoves(Waited(w, n - 1)); Waited(w, n - 1).Clocked()
  }

  /** Waiting in a state that is held: all pulses happen there. */
  lemma {:induction false} WaitedHere(w: Wire, n: int)
    requires Held(w) && Stable(w.dev.state)
    ensures var v := Waited(w, n);
            && v.dev.state == w.dev.state && Held(v)
            && v.trace == w.trace + Pulses(Stay(w.dev.state, if n > 0 then n else 0), w.tdi)
            && (w.dev.state in {Idle, PauseDr, PauseIr} ==> v.dev == w.dev)
    decreases n
  {
    hide NextState, Device.Clock;
    if n > 0 {
      WaitedHere(w, n - 1);
      var v := Waited(w, n - 1);
      ClockMoves(v);
      if w.dev.state in {Idle, PauseDr, PauseIr} {
        HeldDevice(v);
      }
    }
  }

  lemma HeldDevice(w: Wire)
    requires w.dev.state in {Idle, PauseDr, PauseIr} && Held(w)
    ensures w.Clocked().dev == w.dev
  {
  }

  /** A wait leaves the state where it was exactly when the state can be held or there is nothing to wait:
      every other state is left by the first pulse and not entered again while TMS is held. */
  lemma WaitKeepsState(w: Wire, n: int)
    requires Held(w)
    ensures Waited(w, n).dev.state == w.dev.state <==> n <= 0 || Stable(w.dev.state)
  {
    if n > 0 {
      if Stable(w.dev.state) {
        WaitedHere(w, n);
      } else {
        WaitedStates(w, n);
        NeverBack(w.dev.state, w.tms, n);
      }
    }
  }

  function HeldFor(s: TapState, tms: bool, n: nat): TapState {
    if n == 0 then s else NextState(HeldFor(s, tms, n - 1), tms)
  }

  lemma {:induction false} WaitedStates(w: Wire, n: nat)
    ensures Waited(w, n).dev.state == HeldFor(w.dev.state, w.tms, n)
  {
    hide NextState, Device.Clock;
    if n > 0 {
      WaitedStates(w, n - 1);
      ClockMoves(Waited(w, n - 1));
    }
  }

  /** How far a state is from the state where TMS held leads. */
  function ToRest(s: TapState, tms: bool): nat {
    if NextState(s, tms) == s then 0
    else if tms then
      match s
      case SelectIr => 1
      case Idle => 3
      case SelectDr => 2
      case UpdateDr => 3
      case UpdateIr => 3
      case Exit1Dr => 4
      case Exit2Dr => 4
      case Exit1Ir => 4
      case Exit2Ir => 4
      case _ => 5
    else
      match s
      case Reset => 1
      case UpdateDr => 1
      case UpdateIr => 1
      case SelectDr => 2
      case SelectIr => 2
      case _ => 1
  }

  lemma Nearer(s: TapState, tms: bool)
    ensures NextState(s, tms) == s || ToRest(NextState(s, tms), tms) < ToRest(s, tms)
  {
  }

  lemma {:induction false} NeverBack(s: TapState, tms: bool, n: nat)
    requires n > 0 && NextState(s, tms) != s
    ensures ToRest(HeldFor(s, tms, n), tms) < ToRest(s, tms)
  {
    hide NextState, ToRest;
    if n == 1 {
      assert HeldFor(s, tms, 0) == s;
      Nearer(s, tms);
    } else {
      NeverBack(s, tms, n - 1);
      Nearer(HeldFor(s, tms, n - 1), tms);
    }
  }

  method TmsTransition(port: Port, tms: bool)
    requires port.Valid()
    modifies port
    ensures port.Valid() && port.Wires() == old(port.Wires()).Step(tms)
    ensures port.dev.state == NextState(old(port.dev.state), tms)
  {
    hide NextState, Device.Fall, Device.Rise;
    ClockMoves(port.Wires().(tms := tms));
    FallKeepsState(port.dev);
    port.SetPort(TMS, tms);
    port.SetPort(TCK, false);
    port.SetPort(TCK, true);
  }

  method PulseClock(port: Port)
    requires port.Valid()
    modifies port
    ensures port.Valid() && port.Wires() == old(port.Wires()).Clocked()
  {
    hide NextState, Device.Fall, Device.Rise;
    FallKeepsState(port.dev);
    port.SetPort(TCK, false);
    port.SetPort(TCK, true);
  }

  /** Waiting pulses TCK once per microsecond at the TMS level it finds. */
  method WaitTime(port: Port, microsec: int)
    requires port.Valid()
    modifies port
    ensures port.Valid() && port.Wires() == Waited(old(port.Wires()), microsec)
  {
    hide Device.Clock;
    var i := 0;
    while i < microsec
      invariant 0 <= i && (i > 0 ==> i <= microsec)
      invariant port.Valid() && port.Wires() == Waited(old(port.Wires()), i)
    {
      PulseClock(port);
      i := i + 1;
    }
  }

  /** One turn of the walk in the data column; the shadow is updated by hand in every case. */
  method StepDr(port: Port, tapState: TapState, target: nat) returns (next: TapState)
    requires port.Valid() && Code(tapState) < IR_STATES && tapState == port.dev.state
    modifies port
    ensures port.Valid() && port.Wires() == old(port.Wires()).Step(Toward(tapState, target))
    ensures next == port.dev.state == NextState(tapState, Toward(tapState, target))
  {
    hide Device.Clock;
    match tapState
    case Reset =>
      TmsTransition(port, false);
      next := Idle;
    case Idle =>
      TmsTransition(port, true);
      next := SelectDr;
    case SelectDr =>
      if target >= IR_STATES {
        TmsTransition(port, true);
        next := SelectIr;
      } else {
        TmsTransition(port, false);
        next := CaptureDr;
      }
    case CaptureDr =>
      if target == SHIFT_DR {
        TmsTransition(port, false);
        next := ShiftDr;
      } else {
        TmsTransition(port, true);
        next := Exit1Dr;
      }
    case ShiftDr =>
      TmsTransition(port, true);
      next := Exit1Dr;
    case Exit1Dr =>
      if target == PAUSE_DR {
        TmsTransition(port, false);
        next := PauseDr;
      } else {
        TmsTransition(port, true);
        next := UpdateDr;
      }
    case PauseDr =>
      TmsTransition(port, true);
      next := Exit2Dr;
    case Exit2Dr =>
      if target == SHIFT_DR {
        TmsTransition(port, false);
        next := ShiftDr;
      } else {
        TmsTransition(port, true);
        next := UpdateDr;
      }
    case UpdateDr =>
      if target == RUNTEST {
        TmsTransition(port, false);
        next := Idle;
      } else {
        TmsTransition(port, true);
        next := SelectDr;
      }
  }

  /** One turn of the walk in the instruction column. */
  method StepIr(port: Port, tapState: TapState, target: nat) returns (next: TapState)
    requires port.Valid() && Code(tapState) >= IR_STATES && tapState == port.dev.state
    modifies port
    ensures port.Valid() && port.Wires() == old(port.Wires()).Step(Toward(tapState, target))
    ensures next == port.dev.state == NextState(tapState, Toward(tapState, target))
  {
    hide Device.Clock;
    match tapState
    case SelectIr =>
      TmsTransition(port, false);
      next := CaptureIr;
    case CaptureIr =>
      if target == SHIFT_IR {
        TmsTransition(port, false);
        next := ShiftIr;
      } else {
        TmsTransition(port, true);
        next := Exit1Ir;
      }
    case ShiftIr =>
      TmsTransition(port, true);
      next := Exit1Ir;
    case Exit1Ir =>
      if target == PAUSE_IR {
        TmsTransition(port, false);
        next := PauseIr;
      } else {
        TmsTransition(port, true);
        next := UpdateIr;
      }
    case PauseIr =>
      TmsTransition(port, true);
      next := Exit2Ir;
    case Exit2Ir =>
      if target == SHIFT_IR {
        TmsTransition(port, false);
        next := ShiftIr;
      } else {
        TmsTransition(port, true);
        next := UpdateIr;
      }
    case UpdateIr =>
      if target == RUNTEST {
        TmsTransition(port, false);
        next := Idle;
      } else {
        TmsTransition(port, true);
        next := SelectDr;
      }
  }

  /** The paths that the trap refuses. */
  predicate Trapped(s: TapState, target: nat) {
    Code(s) != target
    && ((target == EXIT2_DR && s != PauseDr) || (target == EXIT2_IR && s != PauseIr))
  }

  /** Where goto leads: the reset sequence from anywhere; a pause that is already there is left and entered
      again. */
  function Gone(w: Wire, target: nat): (v: Wire)
    requires target <= LAST_STATE
    ensures Code(v.dev.state) == if target != RESET && Trapped(w.dev.state, target) then Code(w.dev.state) else target
    ensures v.tdi == w.tdi && (Held(w) ==> Held(v))
  {
    if target == RESET then
      ResetSequenceResets(w);
      Waited(w.Step(true), 5)
    else if Trapped(w.dev.state, target) then w
    else if Code(w.dev.state) == target && (target == PAUSE_DR || target == PAUSE_IR) then
      StepHolds(w, true);
      Went(w.Step(true), target)
    else Went(w, target)
  }

  /** Six pulses with TMS high reach Test-Logic-Reset from any state. */
  lemma ResetSequenceResets(w: Wire)
    ensures Waited(w.Step(true), 5).dev.state == Reset
    ensures w.dev.reg != [] ==> Held(Waited(w.Step(true), 5))
  {
    hide Device.Clock;
    var v := w.Step(true);
    ClockMoves(w.(tms := true));
    WaitedStates(v, 5);
    SixOnes(w.dev.state);
  }

  lemma SixOnes(s: TapState)
    ensures HeldFor(NextState(s, true), true, 5) == Reset
  {
    var t := NextState(s, true);
    assert HeldFor(t, true, 1) == NextState(t, true);
    assert HeldFor(t, true, 3) == NextState(NextState(HeldFor(t, true, 1), true), true);
  }

  method ResetSequence(port: Port)
    requires port.Valid()
    modifies port
    ensures port.Valid() && port.Wires() == Waited(old(port.Wires()).Step(true), 5)
  {
    hide Device.Clock;
    TmsTransition(port, true);
    for i := 0 to 5
      invariant port.Valid() && port.Wires() == Waited(old(port.Wires()).Step(true), i)
    {
      PulseClock(port);
    }
  }

  /** Goes to a state. The shadow equals the TAP state afterwards; the walk ends because it comes closer
      with every step. */
  method GotoTapState(port: Port, tapState: TapState, target: nat) returns (next: TapState, error: Error)
    requires port.Valid() && target <= LAST_STATE && (target == RESET || tapState == port.dev.state)
    modifies port
    ensures port.Valid() && next == port.dev.state && port.Wires() == Gone(old(port.Wires()), target)
    ensures error == if target != RESET && Trapped(tapState, target) then IllegalState else NoError
  {
    hide Device.Clock, Toward, Distance, NextState;
    next, error := tapState, NoError;
    if target == RESET {
      ResetSequenceResets(port.Wires());
      ResetSequence(port);
      next := Reset;
    } else if Trapped(next, target) {
      error := IllegalState;
    } else {
      next := LeavePause(port, next, target);
      next := Walk(port, next, target);
    }
  }

  /** The SVF rule for a pause state that is already the target. */
  method LeavePause(port: Port, tapState: TapState, target: nat) returns (next: TapState)
    requires port.Valid() && tapState == port.dev.state && 0 < target <= LAST_STATE && !Trapped(tapState, target)
    modifies port
    ensures port.Valid() && next == port.dev.state && Reachable(next, target)
    ensures Gone(old(port.Wires()), target) == Went(port.Wires(), target)
  {
    hide Device.Clock, Distance, Went;
    next := tapState;
    if target == Code(tapState) {
      if target == PAUSE_DR {
        TmsTransition(port, true);
        next := Exit2Dr;
      } else if target == PAUSE_IR {
        TmsTransition(port, true);
        next := Exit2Ir;
      }
    }
  }

  method Walk(port: Port, tapState: TapState, target: nat) returns (next: TapState)
    requires port.Valid() && tapState == port.dev.state && Reachable(tapState, target)
    modifies port
    ensures port.Valid() && next == port.dev.state && port.Wires() == Went(old(port.Wires()), target)
  {
    hide Device.Clock, Toward, Distance, NextState, Reachable, Code;
    next := tapState;
    while target != Code(next)
      invariant port.Valid() && next == port.dev.state && Reachable(next, target)
      invariant Went(port.Wires(), target) == Went(old(port.Wires()), target)
      decreases Distance(next, target)
    {
      Closer(next, target);
      if Code(next) < IR_STATES {
        next := StepDr(port, next, target);
      } else {
        next := StepIr(port, next, target);
      }
    }
  }
}
