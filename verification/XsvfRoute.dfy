// Which way the XSVF player walks through the state diagram of the TAP
// (xsvfGotoTapState of common/xapp058/micro.c): the shortest way that shifts
// nothing, pauses nowhere and does not reset on the way, and no other.

module XsvfRoute {
  import opened Tap
  import opened XsvfTap

  /** One TCK edge leads from s to t. */
  predicate Edge(s: TapState, t: TapState) {
    t == NextState(s, false) || t == NextState(s, true)
  }

  /** A state that may be passed. */
  predicate Quiet(s: TapState) {
    s !in {Reset, ShiftDr, PauseDr, ShiftIr, PauseIr}
  }

  /** A way from s to t whose inner states are quiet. */
  ghost predicate Way(path: seq<TapState>, s: TapState, t: TapState) {
    && path != [] && path[0] == s && path[|path| - 1] == t
    && (forall i :: 0 <= i < |path| - 1 ==> Edge(path[i], path[i + 1]))
    && (forall i :: 0 < i < |path| - 1 ==> Quiet(path[i]))
  }

  ghost predicate Shortest(path: seq<TapState>, s: TapState, t: TapState) {
    Way(path, s, t) && forall p :: Way(p, s, t) ==> |path| <= |p|
  }

  /** The states that a way leaves. */
  function Leaving(path: seq<TapState>): seq<TapState> {
    if path == [] then [] else path[..|path| - 1]
  }

  // ----- how long the way is

  /** Edges from s to Select-DR. */
  function ToSelect(s: TapState): nat {
    match s
    case Reset => 2
    case Idle => 1
    case SelectDr => 0
    case SelectIr => 4
    case UpdateDr => 1
    case UpdateIr => 1
    case Exit1Dr => 2
    case Exit2Dr => 2
    case Exit1Ir => 2
    case Exit2Ir => 2
    case _ => 3
  }

  /** Edges from Select-DR to t. */
  function FromSelect(t: TapState): nat {
    match t
    case SelectDr => 0
    case CaptureDr => 1
    case ShiftDr => 2
    case Exit1Dr => 2
    case PauseDr => 3
    case UpdateDr => 3
    case SelectIr => 1
    case CaptureIr => 2
    case ShiftIr => 3
    case Exit1Ir => 3
    case PauseIr => 4
    case UpdateIr => 4
    case _ => 4
  }

  /** Edges from s to t down one column; 0 if there is no such way. */
  function Down(s: TapState, t: TapState): nat {
    match s
    case CaptureDr => if t == ShiftDr || t == Exit1Dr then 1 else if t == PauseDr || t == UpdateDr then 2 else 0
    case ShiftDr => if t == Exit1Dr then 1 else if t == PauseDr || t == UpdateDr then 2 else 0
    case Exit1Dr => if t == PauseDr || t == UpdateDr then 1 else 0
    case PauseDr => if t == Exit2Dr then 1 else if t == ShiftDr || t == UpdateDr then 2 else 0
    case Exit2Dr => if t == ShiftDr || t == UpdateDr then 1 else 0
    case SelectIr => if t == CaptureIr then 1 else if t == ShiftIr || t == Exit1Ir then 2
                     else if t == PauseIr || t == UpdateIr then 3 else 0
    case CaptureIr => if t == ShiftIr || t == Exit1Ir then 1 else if t == PauseIr || t == UpdateIr then 2 else 0
    case ShiftIr => if t == Exit1Ir then 1 else if t == PauseIr || t == UpdateIr then 2 else 0
    case Exit1Ir => if t == PauseIr || t == UpdateIr then 1 else 0
    case PauseIr => if t == Exit2Ir then 1 else if t == ShiftIr || t == UpdateIr then 2 else 0
    case Exit2Ir => if t == ShiftIr || t == UpdateIr then 1 else 0
    case _ => 0
  }

  function Edges(s: TapState, t: TapState): nat {
    if s == t then 0
    else if Down(s, t) > 0 then Down(s, t)
    else if t == Idle then (if s == Reset then 1 else if s == SelectDr then 4 else ToSelect(s))
    else ToSelect(s) + FromSelect(t)
  }

  /** There is no way into an Exit2 state but from its pause, whose end the state may be. */
  predicate Open(s: TapState, t: TapState) {
    && t != Reset
    && (t == Exit2Dr ==> s == PauseDr || s == Exit2Dr)
    && (t == Exit2Ir ==> s == PauseIr || s == Exit2Ir)
  }

  lemma OpenIsReachable(s: TapState, t: TapState)
    ensures Open(s, t) <==> Reachable(s, Code(t))
  {
  }

  lemma CodeIsUnique(s: TapState, t: TapState)
    requires Code(s) == Code(t)
    ensures s == t
  {
  }

  /** The way the walk turns, in terms of its target state. */
  function Turn(s: TapState, t: TapState): bool {
    match s
    case SelectDr => t in {SelectIr, CaptureIr, ShiftIr, Exit1Ir, PauseIr, Exit2Ir, UpdateIr}
    case CaptureDr => t != ShiftDr
    case Exit1Dr => t != PauseDr
    case Exit2Dr => t != ShiftDr
    case UpdateDr => t != Idle
    case CaptureIr => t != ShiftIr
    case Exit1Ir => t != PauseIr
    case Exit2Ir => t != ShiftIr
    case UpdateIr => t != Idle
    case Reset => false
    case SelectIr => false
    case _ => true
  }

  lemma TurnIsToward(s: TapState, t: TapState)
    ensures Toward(s, Code(t)) == Turn(s, t)
  {
  }

  /** The walk passes quiet states only, and no Exit2 state to which there is no way. */
  lemma WalkIsQuiet(s: TapState, t: TapState, next: TapState)
    requires Open(s, t) && s != t && next == NextState(s, Turn(s, t))
    ensures (next == t || Quiet(next)) && Open(next, t)
  {
  }

  /** Its edges gain one each: down a column, to Run-Test/Idle, and round through Select-DR. */
  lemma DownGains(s: TapState, t: TapState, next: TapState)
    requires Open(s, t) && s != t && next == NextState(s, Turn(s, t)) && Down(s, t) > 0
    ensures Edges(s, t) == Edges(next, t) + 1
  {
  }

  lemma IdleGains(s: TapState, next: TapState)
    requires s != Idle && next == NextState(s, Turn(s, Idle))
    ensures Edges(s, Idle) == Edges(next, Idle) + 1
  {
  }

  lemma RoundGains(s: TapState, t: TapState, next: TapState)
    requires Open(s, t) && s != t && next == NextState(s, Turn(s, t)) && Down(s, t) == 0 && t != Idle
    ensures Edges(s, t) == Edges(next, t) + 1
  {
  }

  lemma WalkGains(s: TapState, t: TapState, next: TapState)
    requires Open(s, t) && s != t && next == NextState(s, Turn(s, t))
    ensures Edges(s, t) == Edges(next, t) + 1
  {
    hide *;
    if Down(s, t) > 0 {
      DownGains(s, t, next);
    } else if t == Idle {
      IdleGains(s, next);
    } else {
      RoundGains(s, t, next);
    }
  }

  /** The other edge gains less. */
  lemma OtherGainsLess(s: TapState, t: TapState, next: TapState)
    requires Open(s, t) && s != t && next == NextState(s, !Turn(s, t)) && (next == t || (Quiet(next) && Open(next, t)))
    ensures Edges(s, t) < Edges(next, t) + 1
  {
  }

  lemma StaysOpen(s: TapState, t: TapState, next: TapState)
    requires Edge(s, next) && (next == t || Quiet(next)) && Open(next, t)
    ensures Open(s, t)
  {
  }

  // ----- the only shortest way

  /** The states of the walk. */
  function Route(s: TapState, t: TapState): (path: seq<TapState>)
    requires Open(s, t)
    ensures path != [] && path[0] == s
    decreases Edges(s, t)
  {
    hide *;
    if s == t then [s]
    else
      var next := NextState(s, Turn(s, t));
      WalkIsQuiet(s, t, next);
      WalkGains(s, t, next);
      [s] + Route(next, t)
  }

  lemma {:induction false} RouteIsWay(s: TapState, t: TapState)
    requires Open(s, t)
    ensures Way(Route(s, t), s, t) && |Route(s, t)| == Edges(s, t) + 1
    decreases Edges(s, t)
  {
    hide NextState, Turn, Quiet, Open, Down, ToSelect, FromSelect;
    if s != t {
      var next := NextState(s, Turn(s, t));
      WalkIsQuiet(s, t, next);
      WalkGains(s, t, next);
      RouteIsWay(next, t);
      assert Edge(s, next);
    }
  }

  lemma Tail(path: seq<TapState>, s: TapState, t: TapState)
    requires Way(path, s, t) && |path| > 1
    ensures Way(path[1..], path[1], t) && Edge(s, path[1]) && (path[1] == t || Quiet(path[1]))
    ensures path == [s] + path[1..]
  {
    hide NextState, Quiet;
    var rest := path[1..];
    forall i | 0 <= i < |rest| - 1 ensures Edge(rest[i], rest[i + 1]) {
      assert Edge(path[i + 1], path[i + 2]);
    }
  }

  /** A way is open, no shorter than the walk, and the walk itself if it is no longer. */
  lemma {:induction false} NoShorter(path: seq<TapState>, s: TapState, t: TapState)
    requires Way(path, s, t) && t != Reset
    ensures Open(s, t) && |path| >= |Route(s, t)| && (|path| == |Route(s, t)| ==> path == Route(s, t))
    decreases |path|
  {
    hide NextState, Turn, Quiet, Open, Edges, Way;
    if |path| <= 1 {
      OneState(path, s, t);
    } else {
      Tail(path, s, t);
      var next := path[1];
      NoShorter(path[1..], next, t);
      StaysOpen(s, t, next);
      RouteIsWay(s, t);
      RouteIsWay(next, t);
      if s != t {
        NoShorterBy(s, t, next);
      } else {
        assert Route(s, t) == [s];
      }
    }
  }

  lemma OneState(path: seq<TapState>, s: TapState, t: TapState)
    requires Way(path, s, t) && |path| <= 1 && t != Reset
    ensures s == t && path == [s] && Open(s, t)
  {
  }

  lemma NoShorterBy(s: TapState, t: TapState, next: TapState)
    requires Open(s, t) && s != t && Edge(s, next) && (next == t || Quiet(next)) && Open(next, t)
    ensures Edges(s, t) <= Edges(next, t) + 1
    ensures Edges(s, t) == Edges(next, t) + 1 ==> Route(s, t) == [s] + Route(next, t)
  {
    hide NextState, Turn, Quiet, Open, Edges;
    if next == NextState(s, Turn(s, t)) {
      WalkGains(s, t, next);
    } else {
      OtherGainsLess(s, t, next);
    }
  }

  /** There is a shortest way exactly if no Exit2 state is in the way, and it is the walk. */
  lemma OnlyShortest(s: TapState, t: TapState)
    requires t != Reset
    ensures (exists path :: Way(path, s, t)) <==> Open(s, t)
    ensures Open(s, t) ==> forall path :: Shortest(path, s, t) <==> path == Route(s, t)
  {
    hide NextState, Turn, Quiet, Open, Edges, Way;
    forall path | Way(path, s, t)
      ensures Open(s, t) && |path| >= |Route(s, t)| && (|path| == |Route(s, t)| ==> path == Route(s, t))
    {
      NoShorter(path, s, t);
    }
    if Open(s, t) {
      RouteIsWay(s, t);
    }
  }

  // ----- the pulses

  lemma {:induction false} WentPulses(w: Wire, t: TapState)
    requires Open(w.dev.state, t) && Reachable(w.dev.state, Code(t))
    ensures Went(w, Code(t)).trace == w.trace + Pulses(Leaving(Route(w.dev.state, t)), w.tdi)
    decreases Edges(w.dev.state, t)
  {
    hide *;
    var s := w.dev.state;
    if s == t {
      WentNowhere(w, t);
    } else {
      var next := NextState(s, Turn(s, t));
      WalkGains(s, t, next);
      RouteOn(s, t, next);
      OpenIsReachable(next, t);
      WentOn(w, t, next);
      WentPulses(w.Step(Turn(s, t)), t);
      MorePulses(w.trace, s, Route(next, t), w.tdi);
    }
  }

  lemma WentNowhere(w: Wire, t: TapState)
    requires Reachable(w.dev.state, Code(t)) && w.dev.state == t && Open(t, t)
    ensures Went(w, Code(t)).trace == w.trace + Pulses(Leaving(Route(t, t)), w.tdi)
  {
    hide Reachable, Open, Edges;
    assert Leaving(Route(t, t)) == [];
  }

  lemma WentOn(w: Wire, t: TapState, next: TapState)
    requires Reachable(w.dev.state, Code(t)) && w.dev.state != t && next == NextState(w.dev.state, Turn(w.dev.state, t))
    requires Reachable(next, Code(t))
    ensures var v := w.Step(Turn(w.dev.state, t));
            && v.dev.state == next && v.tdi == w.tdi && v.trace == w.trace + [Pulse(w.dev.state, w.tdi)]
            && Went(w, Code(t)) == Went(v, Code(t))
  {
    hide NextState, Turn, Toward, Device.Clock, Reachable, Code, Distance;
    TurnIsToward(w.dev.state, t);
    if Code(w.dev.state) == Code(t) {
      CodeIsUnique(w.dev.state, t);
    }
    StepHolds(w, Turn(w.dev.state, t));
  }

  lemma MorePulses(trace: seq<Pulse>, s: TapState, path: seq<TapState>, tdi: bool)
    requires path != []
    ensures trace + [Pulse(s, tdi)] + Pulses(Leaving(path), tdi) == trace + Pulses(Leaving([s] + path), tdi)
  {
    assert Leaving([s] + path) == [s] + Leaving(path);
    FirstPulse(s, Leaving(path), tdi);
  }

  lemma FirstPulse(s: TapState, rest: seq<TapState>, tdi: bool)
    ensures Pulses([s] + rest, tdi) == [Pulse(s, tdi)] + Pulses(rest, tdi)
  {
  }

  /** Going to a state other than Test-Logic-Reset, unless it is a pause where the TAP is already: the pulses are those
      of the shortest way. */
  lemma GoesShortest(w: Wire, t: TapState, path: seq<TapState>)
    requires Shortest(path, w.dev.state, t) && t != Reset && !(w.dev.state == t && t in {PauseDr, PauseIr})
    ensures Gone(w, Code(t)).dev.state == t
    ensures Gone(w, Code(t)).trace == w.trace + Pulses(Leaving(path), w.tdi)
  {
    hide Way, Quiet, Edges, Open, Went, Route, Device.Clock;
    OnlyShortest(w.dev.state, t);
    OpenIsReachable(w.dev.state, t);
    WentPulses(w, t);
    CodeIsUnique(Gone(w, Code(t)).dev.state, t);
  }

  /** A pause where the TAP is already is left through Exit2 and the update state, and entered again. */
  lemma GoesRoundDr(w: Wire)
    requires w.dev.state == PauseDr
    ensures Gone(w, Code(PauseDr)).dev.state == PauseDr
    ensures Gone(w, Code(PauseDr)).trace
            == w.trace + Pulses([PauseDr, Exit2Dr, UpdateDr, SelectDr, CaptureDr, Exit1Dr], w.tdi)
  {
    hide Way, Edges, Open, Went, Route, Device.Clock;
    StepHolds(w, true);
    RoundDr();
    WentPulses(w.Step(true), PauseDr);
    FirstPulse(PauseDr, [Exit2Dr, UpdateDr, SelectDr, CaptureDr, Exit1Dr], w.tdi);
  }

  lemma GoesRoundIr(w: Wire)
    requires w.dev.state == PauseIr
    ensures Gone(w, Code(PauseIr)).dev.state == PauseIr
    ensures Gone(w, Code(PauseIr)).trace
            == w.trace + Pulses([PauseIr, Exit2Ir, UpdateIr, SelectDr, SelectIr, CaptureIr, Exit1Ir], w.tdi)
  {
    hide Way, Edges, Open, Went, Route, Device.Clock;
    StepHolds(w, true);
    RoundIr();
    WentPulses(w.Step(true), PauseIr);
    FirstPulse(PauseIr, [Exit2Ir, UpdateIr, SelectDr, SelectIr, CaptureIr, Exit1Ir], w.tdi);
  }

  lemma RouteOn(s: TapState, t: TapState, next: TapState)
    requires Open(s, t) && s != t && next == NextState(s, Turn(s, t))
    ensures Open(next, t) && Route(s, t) == [s] + Route(next, t)
  {
    hide Edges, Turn, NextState, Open, Quiet;
    WalkIsQuiet(s, t, next);
  }

  lemma RoundDr()
    ensures Open(Exit2Dr, PauseDr)
    ensures Leaving(Route(Exit2Dr, PauseDr)) == [Exit2Dr, UpdateDr, SelectDr, CaptureDr, Exit1Dr]
  {
    hide Route, Edges;
    RouteOn(Exit2Dr, PauseDr, UpdateDr);
    RouteOn(UpdateDr, PauseDr, SelectDr);
    RouteOn(SelectDr, PauseDr, CaptureDr);
    RouteOn(CaptureDr, PauseDr, Exit1Dr);
    RouteOn(Exit1Dr, PauseDr, PauseDr);
    RouteEnds(PauseDr);
  }

  lemma RoundIr()
    ensures Open(Exit2Ir, PauseIr)
    ensures Leaving(Route(Exit2Ir, PauseIr)) == [Exit2Ir, UpdateIr, SelectDr, SelectIr, CaptureIr, Exit1Ir]
  {
    hide Route, Edges;
    RouteOn(Exit2Ir, PauseIr, UpdateIr);
    RouteOn(UpdateIr, PauseIr, SelectDr);
    RouteOn(SelectDr, PauseIr, SelectIr);
    RouteOn(SelectIr, PauseIr, CaptureIr);
    RouteOn(CaptureIr, PauseIr, Exit1Ir);
    RouteOn(Exit1Ir, PauseIr, PauseIr);
    RouteEnds(PauseIr);
  }

  lemma RouteEnds(s: TapState)
    requires Open(s, s)
    ensures Route(s, s) == [s]
  {
  }

  /** To Test-Logic-Reset: six pulses with TMS high. */
  lemma GoesToReset(w: Wire)
    ensures Gone(w, Code(Reset)).dev.state == Reset
    ensures Gone(w, Code(Reset)).trace
            == w.trace + Pulses(seq(6, i requires 0 <= i < 6 => HeldFor(w.dev.state, true, i)), w.tdi)
  {
    hide NextState, Device.Clock;
    ResetSequenceResets(w);
    StepHolds(w, true);
    var v := w.Step(true);
    WaitPulses(v, 5);
    FromHeld(w.dev.state, 5);
    FirstPulse(w.dev.state, seq(5, i requires 0 <= i < 5 => HeldFor(v.dev.state, true, i)), w.tdi);
    CodeIsUnique(Gone(w, Code(Reset)).dev.state, Reset);
  }

  lemma {:induction false} WaitPulses(w: Wire, n: nat)
    ensures Waited(w, n).trace
            == w.trace + Pulses(seq(n, i requires 0 <= i < n => HeldFor(w.dev.state, w.tms, i)), w.tdi)
    ensures Waited(w, n).dev.state == HeldFor(w.dev.state, w.tms, n)
  {
    hide NextState, Device.Clock;
    if n > 0 {
      WaitPulses(w, n - 1);
      ClockMoves(Waited(w, n - 1));
    }
  }

  lemma {:induction false} FromHeld(s: TapState, n: nat)
    ensures seq(n + 1, i requires 0 <= i < n + 1 => HeldFor(s, true, i))
            == [s] + seq(n, i requires 0 <= i < n => HeldFor(NextState(s, true), true, i))
  {
    hide NextState;
    forall i | 0 <= i < n ensures HeldFor(s, true, i + 1) == HeldFor(NextState(s, true), true, i) {
      HeldOn(s, i);
    }
  }

  lemma {:induction false} HeldOn(s: TapState, i: nat)
    ensures HeldFor(s, true, i + 1) == HeldFor(NextState(s, true), true, i)
  {
    hide NextState;
    if i > 0 {
      HeldOn(s, i - 1);
    }
  }

  // ----- what going to a state means

  /** The states that are left on going to a state: six pulses with TMS high to Test-Logic-Reset, once round to a
      pause where the TAP is already, and the shortest way to any other. */
  ghost predicate Goes(s: TapState, t: TapState, left: seq<TapState>) {
    if t == Reset then left == seq(6, i requires 0 <= i < 6 => HeldFor(s, true, i))
    else if s == t == PauseDr then left == [PauseDr, Exit2Dr, UpdateDr, SelectDr, CaptureDr, Exit1Dr]
    else if s == t == PauseIr then left == [PauseIr, Exit2Ir, UpdateIr, SelectDr, SelectIr, CaptureIr, Exit1Ir]
    else exists path :: Shortest(path, s, t) && left == Leaving(path)
  }

  /** An Exit2 state is refused, except from itself and from its pause. */
  predicate Refused(s: TapState, target: nat) {
    || (target == Code(Exit2Dr) && s != PauseDr && s != Exit2Dr)
    || (target == Code(Exit2Ir) && s != PauseIr && s != Exit2Ir)
  }

  lemma GoesThere(w: Wire, t: TapState, left: seq<TapState>)
    requires Goes(w.dev.state, t, left)
    ensures Gone(w, Code(t)).dev.state == t
    ensures Gone(w, Code(t)).trace == w.trace + Pulses(left, w.tdi)
  {
    hide Gone, Shortest, Code;
    if t == Reset {
      GoesToReset(w);
    } else if w.dev.state == t == PauseDr {
      GoesRoundDr(w);
    } else if w.dev.state == t == PauseIr {
      GoesRoundIr(w);
    } else {
      var path :| Shortest(path, w.dev.state, t) && left == Leaving(path);
      GoesShortest(w, t, path);
    }
  }

  lemma SomeWay(s: TapState, t: TapState) returns (left: seq<TapState>)
    requires !Refused(s, Code(t))
    ensures Goes(s, t, left)
  {
    hide Shortest, Route;
    if t == Reset {
      left := seq(6, i requires 0 <= i < 6 => HeldFor(s, true, i));
    } else if s == t == PauseDr {
      left := [PauseDr, Exit2Dr, UpdateDr, SelectDr, CaptureDr, Exit1Dr];
    } else if s == t == PauseIr {
      left := [PauseIr, Exit2Ir, UpdateIr, SelectDr, SelectIr, CaptureIr, Exit1Ir];
    } else {
      RefusedIsClosed(s, t);
      OnlyShortest(s, t);
      left := Leaving(Route(s, t));
    }
  }

  lemma RefusedIsClosed(s: TapState, t: TapState)
    ensures t != Reset ==> (Refused(s, Code(t)) <==> !Open(s, t))
  {
  }

  /** From a state to its neighbour: one pulse. */
  lemma NextDoor(w: Wire, tms: bool, t: TapState)
    requires t == NextState(w.dev.state, tms) && t != w.dev.state && t != Reset
    ensures Gone(w, Code(t)) == w.Step(tms)
  {
    hide Device.Clock, Went, Reachable, Toward;
    IsNeighbour(w.dev.state, tms, t);
    TurnIsToward(w.dev.state, t);
    OpenIsReachable(w.dev.state, t);
    WentOneStep(w, t);
  }

  lemma IsNeighbour(s: TapState, tms: bool, t: TapState)
    requires t == NextState(s, tms) && t != s && t != Reset
    ensures Turn(s, t) == tms && Open(s, t) && !Trapped(s, Code(t))
  {
  }

  lemma WentOneStep(w: Wire, t: TapState)
    requires Reachable(w.dev.state, Code(t)) && Code(w.dev.state) != Code(t)
    requires NextState(w.dev.state, Toward(w.dev.state, Code(t))) == t
    ensures Went(w, Code(t)) == w.Step(Toward(w.dev.state, Code(t)))
  {
    hide Device.Clock, NextState, Toward, Code, Distance;
    StepHolds(w, Toward(w.dev.state, Code(t)));
    Closer(w.dev.state, Code(t));
    var v := w.Step(Toward(w.dev.state, Code(t)));
    assert Went(v, Code(t)) == v;
  }
}
