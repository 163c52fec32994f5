// Where the commands of an XSVF stream leave the TAP, and by which pulses
// (common/xapp058/micro.c): XSTATE, XWAIT, and the end states that XENDIR and
// XENDDR choose for the shifts after them.

module XsvfMoves {
  import opened Bytes
  import opened Lenval
  import opened Tap
  import opened XsvfTap
  import opened XsvfRoute
  import opened XsvfShift
  import opened XsvfScan
  import opened XsvfMask
  import opened XsvfStream
  import opened XsvfTable
  import opened XsvfEffects

  // ----- XSTATE

  /** XSTATE goes to its operand; only an Exit2 state asked for neither there nor from its pause is refused, and then
      nothing moves. */
  lemma StateReached(x: seq<bv8>, s: Snapshot)
    requires s.Playable(x) && x[s.pos] == XSTATE
    ensures s.pos + 1 < |x|
    ensures var t, q := Play(x, s), x[s.pos + 1] as nat;
            && t == s.(pos := s.pos + 2, wire := t.wire, error := t.error)
            && if Refused(s.wire.dev.state, q) then t.error == IllegalState && t.wire == s.wire
               else t.error == NoError && Code(t.wire.dev.state) == q && t.wire.tdi == s.wire.tdi
  {
    hide Held, Ones, LsbBits, Went, Waited, Code, Device.Clock;
    StateGoes(x, s);
    RefusedIsTrapped(s.wire.dev.state, x[s.pos + 1] as nat);
    if Refused(s.wire.dev.state, x[s.pos + 1] as nat) {
      NotReset(s.wire.dev.state, x[s.pos + 1] as nat);
    }
  }

  lemma StateGoes(x: seq<bv8>, s: Snapshot)
    requires s.Playable(x) && x[s.pos] == XSTATE
    ensures s.pos + 1 < |x| && x[s.pos + 1] as nat <= LAST_STATE
    ensures var q := x[s.pos + 1] as nat;
            Play(x, s) == s.(pos := s.pos + 2, wire := Gone(s.wire, q),
                             error := if q != RESET && Trapped(s.wire.dev.state, q) then IllegalState else NoError)
  {
    hide Held, Ones, LsbBits, Gone, Trapped;
  }

  lemma RefusedIsTrapped(s: TapState, target: nat)
    ensures Refused(s, target) <==> Trapped(s, target)
  {
  }

  lemma NotReset(s: TapState, target: nat)
    requires Refused(s, target)
    ensures target != RESET
  {
  }

  /** The pulses of XSTATE are those of the way to the state. */
  lemma StatePulses(x: seq<bv8>, s: Snapshot)
    requires s.Playable(x) && x[s.pos] == XSTATE && Play(x, s).error == NoError
    ensures var w, v := s.wire, Play(x, s).wire;
            && (exists left :: Goes(w.dev.state, v.dev.state, left))
            && forall left :: Goes(w.dev.state, v.dev.state, left) ==> v.trace == w.trace + Pulses(left, w.tdi)
  {
    hide Held, Ones, LsbBits, Gone, Trapped, Goes, Play, Refused, Pulses;
    StateReached(x, s);
    StateGoes(x, s);
    var w, v := s.wire, Play(x, s).wire;
    var way := SomeWay(w.dev.state, v.dev.state);
    forall left | Goes(w.dev.state, v.dev.state, left) ensures v.trace == w.trace + Pulses(left, w.tdi) {
      GoesThere(w, v.dev.state, left);
    }
  }

  /** XSTATE for a neighbour of the state is one clock of the device. */
  lemma StateNextDoor(x: seq<bv8>, s: Snapshot, tms: bool)
    requires s.Playable(x) && x[s.pos] == XSTATE
    requires var next := NextState(s.wire.dev.state, tms);
             x[s.pos + 1] as nat == Code(next) && next != s.wire.dev.state && next != Reset
    ensures Play(x, s).wire == s.wire.Step(tms) && Play(x, s).error == NoError
  {
    hide Held, Ones, LsbBits, Gone, Play, Device.Clock, Code, Trapped, NextState;
    StateGoes(x, s);
    NextDoor(s.wire, tms, NextState(s.wire.dev.state, tms));
    IsNeighbour(s.wire.dev.state, tms, NextState(s.wire.dev.state, tms));
  }

  // ----- XWAIT

  /** The states left on going to a state unless there. */
  ghost predicate Leads(s: TapState, t: TapState, left: seq<TapState>) {
    if s == t then left == [] else Goes(s, t, left)
  }

  lemma BroughtThere(w: Wire, t: TapState, left: seq<TapState>)
    requires Leads(w.dev.state, t, left)
    ensures Brought(w, Code(t)).dev.state == t
    ensures Brought(w, Code(t)).trace == w.trace + Pulses(left, w.tdi)
  {
    hide Gone, Goes, Code;
    if Code(w.dev.state) == Code(t) {
      CodeIsUnique(w.dev.state, t);
    } else {
      GoesThere(w, t, left);
    }
  }

  lemma BroughtNowhere(w: Wire, target: nat)
    requires target <= LAST_STATE && Refused(w.dev.state, target)
    ensures Brought(w, target) == w
  {
    hide Code;
    RefusedIsTrapped(w.dev.state, target);
    NotReset(w.dev.state, target);
  }

  lemma BroughtTdi(w: Wire, target: nat)
    requires target <= LAST_STATE
    ensures Brought(w, target).tdi == w.tdi
  {
    hide Went, Waited, Code, Device.Clock;
  }

  /** XWAIT goes to its wait state unless there, makes one pulse there for each microsecond, and goes to its end
      state unless there: these are all its pulses. An end state that is refused is left out, and not reported. */
  lemma WaitPulses(x: seq<bv8>, s: Snapshot, there: TapState, end: TapState, into: seq<TapState>, out: seq<TapState>)
    requires s.Playable(x) && x[s.pos] == XWAIT && s.pos + 7 <= |x|
    requires x[s.pos + 1] as nat == Code(there) && x[s.pos + 2] as nat == Code(end)
    requires Leads(s.wire.dev.state, there, into)
    requires if Refused(there, Code(end)) then out == [] else Leads(there, end, out)
    ensures var t, time := Play(x, s), Signed32(Number(x[s.pos + 3..s.pos + 7]));
            && t.error == NoError && t.wire.dev.state == (if Refused(there, Code(end)) then there else end)
            && t.wire.tdi == s.wire.tdi
            && t.wire.trace == s.wire.trace + Pulses(into, s.wire.tdi)
                               + Pulses(Stay(there, if time > 0 then time else 0), s.wire.tdi)
                               + Pulses(out, s.wire.tdi)
  {
    hide Held, Ones, LsbBits, Number, Signed32, Stay, StableCode, Leads, Brought, Waited, Code, Loaded, Refused;
    var time := Signed32(Number(x[s.pos + 3..s.pos + 7]));
    WaitPlays(x, s);
    BroughtThere(s.wire, there, into);
    BroughtTdi(s.wire, Code(there));
    var u := Brought(s.wire, Code(there));
    StillHeld(u, Code(there), time);
    if Refused(there, Code(end)) {
      BroughtNowhere(Waited(u, time), Code(end));
    } else {
      BroughtThere(Waited(u, time), end, out);
    }
    BroughtTdi(Waited(u, time), Code(end));
  }

  lemma WaitPlays(x: seq<bv8>, s: Snapshot)
    requires s.Playable(x) && x[s.pos] == XWAIT && s.pos + 7 <= |x|
    ensures var wait, end, time := x[s.pos + 1] as nat, x[s.pos + 2] as nat, Signed32(Number(x[s.pos + 3..s.pos + 7]));
            && wait <= LAST_STATE && end <= LAST_STATE && (StableCode(wait) || time <= 0) && Held(s.wire)
            && Play(x, s).wire == WaitedIn(s.wire, wait, end, time) && Play(x, s).error == NoError
            && Held(Brought(s.wire, wait))
  {
    hide Held, Ones, LsbBits, Number, Signed32, WaitedIn, StableCode, Loaded;
  }

  // ----- where shifts end

  /** Commands that stay in Shift-DR, and those that end without a wait. */
  predicate Stays(k: bv8) {
    k in {XSDRB, XSDRC, XSDRTDOB, XSDRTDOC}
  }

  predicate EndsAtOnce(k: bv8) {
    k == XSDRE || k == XSDRTDOE
  }

  /** Where a data shift of one bit or more leaves the TAP. */
  function EndOf(k: bv8, endDr: nat, time: int): nat {
    if Stays(k) then Code(ShiftDr) else if EndsAtOnce(k) || time == 0 then endDr else Code(Idle)
  }

  lemma PlanEnds(k: bv8, s: Settings)
    requires s.Valid() && (IsData(k) || k == XSDRINC)
    ensures var p := PlanOf(k, s);
            && p.start == SHIFT_DR
            && (if p.start != p.end && p.time != 0 then RUNTEST else p.end) == EndOf(k, s.endDr, s.time)
  {
  }

  lemma ShiftsEnd(s: Snapshot, p: Plan, numBits: nat)
    requires s.Valid() && p.Valid() && s.memory.tdi.len == AsBytes(numBits) && numBits > 0
    ensures Code(Shifts(s, p, numBits).wire.dev.state) == if p.start != p.end && p.time != 0 then RUNTEST else p.end
  {
    hide Attempts, Held, ShiftBits, ExpectationOf;
    AttemptsEnd(JobOf(s.memory, p, numBits), s.wire, s.memory.captured, p.time, p.repeats);
  }

  lemma DataEnds(x: seq<bv8>, s: Snapshot, k: bv8)
    requires s.Valid() && IsData(k) && !ParseValues(x, s.At(), BringsExpected(k)).Malformed? && s.bits > 0
    ensures Code(PlayData(x, s, k).wire.dev.state) == EndOf(k, s.settings.endDr, s.settings.time)
  {
    hide Shifts, Held, Ones, LsbBits, PlanOf, Code, EndOf;
    PlanEnds(k, s.settings);
    ShiftsEnd(WithOperands(x, s, BringsExpected(k)), PlanOf(k, s.settings), s.bits);
  }

  lemma IncEnds(x: seq<bv8>, s: Snapshot)
    requires s.Valid() && !ParseInc(x, s.At()).Malformed? && s.bits > 0
    ensures Code(PlayInc(x, s).wire.dev.state) == EndOf(XSDRINC, s.settings.endDr, s.settings.time)
  {
    hide Shifts, Held, Ones, LsbBits, PlanOf, Code, EndOf, IncTimes, DataBytes;
    var p := PlanOf(XSDRINC, s.settings);
    PlanEnds(XSDRINC, s.settings);
    ShiftsEnd(WithOperands(x, s, false), p, s.bits);
    var u := ShiftsValue(x, s, p, false);
    if u.error == NoError {
      TimesEnd(x, u.(pos := u.pos + 1), u.Width(), AsNat(x[u.pos]));
    }
  }

  lemma {:induction false} TimesEnd(x: seq<bv8>, s: Snapshot, k: nat, times: nat)
    requires s.Valid() && s.Fits() && s.memory.tdi.len == s.bytes && s.bits > 0
    requires s.pos + DataBytes(times, k) <= |x| && k == s.Width()
    requires Code(s.wire.dev.state) == EndOf(XSDRINC, s.settings.endDr, s.settings.time)
    ensures Code(IncTimes(x, s, k, times).wire.dev.state) == EndOf(XSDRINC, s.settings.endDr, s.settings.time)
    decreases times
  {
    hide Shifts, Held, Ones, LsbBits, PlanOf, Code, EndOf, Incremented;
    if times > 0 && s.error == NoError {
      PlanEnds(XSDRINC, s.settings);
      ShiftsEnd(Incremented(x, s, k), PlanOf(XSDRINC, s.settings), s.bits);
      TimesEnd(x, IncOnce(x, s, k), k, times - 1);
    }
  }

  /** After XENDDR, and as long as it is not played again, every data shift ends where its operand says: in
      Run-Test/Idle for 0 and in Pause-DR for 1. Only a time to wait takes it to Run-Test/Idle in any case, and only
      XSDRB, XSDRC, XSDRTDOB and XSDRTDOC stay in Shift-DR. */
  lemma EndDrObeyed(x: seq<bv8>, s: Snapshot, n: nat)
    requires s.Playable(x) && x[s.pos] == XENDDR && s.pos + 1 < |x| && (x[s.pos + 1] == 0 || x[s.pos + 1] == 1)
    requires n > 0 && NotAgain(x, s, XENDDR, n) && After(x, s, n).Playable(x) && After(x, s, n).bits > 0
    requires var k := x[After(x, s, n).pos]; IsData(k) || k == XSDRINC
    ensures var u := After(x, s, n);
            var k, end := x[u.pos], Play(x, u).wire.dev.state;
            if k in {XSDRB, XSDRC, XSDRTDOB, XSDRTDOC} then end == ShiftDr
            else if u.settings.time != 0 && k != XSDRE && k != XSDRTDOE then end == Idle
            else end == if x[s.pos + 1] == 0 then Idle else PauseDr
  {
    hide Held, Ones, LsbBits, PlayData, PlayInc, ParseOperands, OwnValues, OwnErrors, Next, Number;
    InForce(x, s, XENDDR, n);
    PlayHasOwnEffects(x, s);
    EndSet(x, s);
    var u := After(x, s, n);
    var v, k := u.(pos := u.pos + 1), x[u.pos];
    CommandEndsIn(x, u);
    StateOf(Play(x, u).wire.dev.state);
  }

  lemma EndSet(x: seq<bv8>, s: Snapshot)
    requires s.Playable(x) && s.pos + 1 < |x| && OwnEffects(x, s.(pos := s.pos + 1), x[s.pos], Play(x, s))
    ensures x[s.pos] == XENDDR ==>
              (x[s.pos + 1] == 0 ==> Next(x, s).settings.endDr == Code(Idle))
              && (x[s.pos + 1] == 1 ==> Next(x, s).settings.endDr == Code(PauseDr))
    ensures x[s.pos] == XENDIR ==>
              (x[s.pos + 1] == 0 ==> Next(x, s).settings.endIr == Code(Idle))
              && (x[s.pos + 1] == 1 ==> Next(x, s).settings.endIr == Code(PauseIr))
  {
    hide Play, OwnValues, OwnErrors, Snapshot.Playable, Number, NumBytes;
  }

  lemma StateOf(s: TapState)
    ensures forall t :: Code(s) == Code(t) ==> s == t
  {
  }

  lemma CommandEndsIn(x: seq<bv8>, u: Snapshot)
    requires u.Playable(x) && u.bits > 0 && (IsData(x[u.pos]) || x[u.pos] == XSDRINC)
    ensures Code(Play(x, u).wire.dev.state) == EndOf(x[u.pos], u.settings.endDr, u.settings.time)
  {
    hide Held, Ones, LsbBits, PlayData, PlayInc, ParseValues, ParseInc, EndOf, Code;
    var v, k := u.(pos := u.pos + 1), x[u.pos];
    if k == XSDRINC {
      IncEnds(x, v);
    } else {
      DataEnds(x, v, k);
    }
  }

  /** The same for XENDIR and instruction shifts. */
  lemma EndIrObeyed(x: seq<bv8>, s: Snapshot, n: nat)
    requires s.Playable(x) && x[s.pos] == XENDIR && s.pos + 1 < |x| && (x[s.pos + 1] == 0 || x[s.pos + 1] == 1)
    requires n > 0 && NotAgain(x, s, XENDIR, n) && After(x, s, n).Playable(x)
    requires var u := After(x, s, n);
             || (x[u.pos] == XSIR && u.pos + 1 < |x| && x[u.pos + 1] != 0)
             || (x[u.pos] == XSIR2 && u.pos + 3 <= |x| && 0 < Number(x[u.pos + 1..u.pos + 3]) <= MAX_BITS)
    ensures var u := After(x, s, n);
            Play(x, u).wire.dev.state
            == if u.settings.time != 0 || x[s.pos + 1] == 0 then Idle else PauseIr
  {
    hide Held, Ones, LsbBits, PlayIr, PlayIr2, ParseOperands, OwnValues, OwnErrors, Next, Number;
    InForce(x, s, XENDIR, n);
    PlayHasOwnEffects(x, s);
    EndSet(x, s);
    var u := After(x, s, n);
    InstructionEndsIn(x, u);
    StateOf(Play(x, u).wire.dev.state);
  }

  lemma InstructionEndsIn(x: seq<bv8>, u: Snapshot)
    requires u.Playable(x)
    requires || (x[u.pos] == XSIR && u.pos + 1 < |x| && x[u.pos + 1] != 0)
             || (x[u.pos] == XSIR2 && u.pos + 3 <= |x| && 0 < Number(x[u.pos + 1..u.pos + 3]) <= MAX_BITS)
    ensures Code(Play(x, u).wire.dev.state) == if u.settings.time != 0 then Code(Idle) else u.settings.endIr
  {
    hide Held, Ones, LsbBits, Number, Code, PlayIr, PlayIr2, ParseIr, ParseIr2;
    if x[u.pos] == XSIR {
      NotNothing(x[u.pos + 1]);
      IrEnds(x, u.(pos := u.pos + 1));
    } else {
      Ir2Ends(x, u.(pos := u.pos + 1));
    }
  }

  lemma IrEnds(x: seq<bv8>, v: Snapshot)
    requires v.Valid() && !ParseIr(x, v.At()).Malformed? && AsNat(x[v.pos]) != 0
    ensures Code(PlayIr(x, v).wire.dev.state) == if v.settings.time != 0 then Code(Idle) else v.settings.endIr
  {
    hide Held, Ones, LsbBits, Number, Code, Shifts, PlanOf;
    var numBits := AsNat(x[v.pos]);
    InstructionPlan(v.settings);
    ShiftsEnd(v.(pos := v.pos + 1).WithTdi(x, AsBytes(numBits)), PlanOf(XSIR, v.settings), numBits);
  }

  lemma Ir2Ends(x: seq<bv8>, v: Snapshot)
    requires v.Valid() && !ParseIr2(x, v.At()).Malformed? && 0 < Number(x[v.pos..v.pos + 2]) <= MAX_BITS
    ensures Code(PlayIr2(x, v).wire.dev.state) == if v.settings.time != 0 then Code(Idle) else v.settings.endIr
  {
    hide Held, Ones, LsbBits, Number, Code, Shifts, PlanOf;
    var numBits := Number(x[v.pos..v.pos + 2]);
    InstructionPlan(v.settings);
    ShiftsEnd(v.WithTdi(x, 2).WithTdi(x, AsBytes(numBits)), PlanOf(XSIR2, v.settings), numBits);
  }

  lemma InstructionPlan(s: Settings)
    requires s.Valid()
    ensures forall k :: k == XSIR || k == XSIR2 ==>
              var p := PlanOf(k, s);
              (if p.start != p.end && p.time != 0 then RUNTEST else p.end)
              == if s.time != 0 then Code(Idle) else s.endIr
  {
  }

  lemma NotNothing(b: bv8)
    requires b != 0
    ensures AsNat(b) != 0
  {
  }
}
