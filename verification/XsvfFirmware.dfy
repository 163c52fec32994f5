// The beginning of the stream that the firmware plays into its CPLD
// (cpld/sgpio_if/default.xsvf), command by command.

module XsvfFirmware {
  import opened Bytes
  import opened Lenval
  import opened Tap
  import opened XsvfTap
  import opened XsvfRoute
  import opened XsvfShift
  import opened XsvfScan
  import opened XsvfMask
  import opened XsvfStream
  import opened XsvfTable
  import opened XsvfEffects
  import opened XsvfMoves
  import opened XsvfLoads

  /** XREPEAT 0, XENDIR 0, XENDDR 0, XSTATE 0, XSTATE 1, XSIR 8 0x01, XSDRSIZE 32, XTDOMASK, XRUNTEST 0. */
  const HEAD: seq<bv8> := [0x07, 0x00, 0x13, 0x00, 0x14, 0x00, 0x12, 0x00, 0x12, 0x01, 0x02, 0x08, 0x01,
                           0x08, 0x00, 0x00, 0x00, 0x20, 0x01, 0x0f, 0xff, 0x8f, 0xff, 0x04, 0x00, 0x00, 0x00, 0x00]

  /** The stream begins so. */
  ghost predicate Begins(x: seq<bv8>) {
    |x| >= |HEAD| && forall i :: 0 <= i < |HEAD| ==> x[i] == HEAD[i]
  }

  /** There is nothing wrong, and the player is at this position. */
  ghost predicate GoesOn(s: Snapshot, pos: nat) {
    s.Valid() && s.Running() && s.pos == pos
  }

  // ----- command by command

  lemma RepeatPlays(x: seq<bv8>, s: Snapshot)
    requires Begins(x) && GoesOn(s, 0)
    ensures Next(x, s) == s.(pos := 2, settings := s.settings.(repeats := 0)) && GoesOn(Next(x, s), 2)
  {
    hide Held, Ones, LsbBits;
    var zero: bv8 := 0;
    assert zero as nat == 0;
  }

  lemma EndIrPlays(x: seq<bv8>, s: Snapshot)
    requires Begins(x) && GoesOn(s, 2)
    ensures Next(x, s) == s.(pos := 4, settings := s.settings.(endIr := RUNTEST)) && GoesOn(Next(x, s), 4)
  {
    hide Held, Ones, LsbBits;
  }

  lemma EndDrPlays(x: seq<bv8>, s: Snapshot)
    requires Begins(x) && GoesOn(s, 4)
    ensures Next(x, s) == s.(pos := 6, settings := s.settings.(endDr := RUNTEST)) && GoesOn(Next(x, s), 6)
  {
    hide Held, Ones, LsbBits;
  }

  lemma ResetPlays(x: seq<bv8>, s: Snapshot)
    requires Begins(x) && GoesOn(s, 6)
    ensures Next(x, s) == s.(pos := 8, wire := Gone(s.wire, RESET)) && GoesOn(Next(x, s), 8)
  {
    hide Held, Ones, LsbBits, Gone;
  }

  lemma IdlePlays(x: seq<bv8>, s: Snapshot)
    requires Begins(x) && GoesOn(s, 8)
    ensures Next(x, s) == s.(pos := 10, wire := Gone(s.wire, RUNTEST)) && GoesOn(Next(x, s), 10)
  {
    hide Held, Ones, LsbBits, Gone;
  }

  lemma InstructionPlays(x: seq<bv8>, s: Snapshot)
    requires Begins(x) && GoesOn(s, 10) && s.wire.dev.state == Idle && s.settings == Settings(RUNTEST, RUNTEST, 0, 0)
    ensures var t := Next(x, s);
            && GoesOn(t, 13) && t.settings == s.settings
            && t.wire.dev.state == Idle && t.wire.dev.ir == IDCODE
            && t.wire.trace == s.wire.trace + ScanPulses([Idle, SelectDr, SelectIr, CaptureIr], ShiftIr, IDCODE,
                                                         [Exit1Ir, UpdateIr], s.wire.tdi, 0)
  {
    hide Held, LsbBits, Ones, ScanPulses, Play;
    IsPlayable(x, s);
    LoadsInstruction(x, s);
    IsIdcode(x[12..13]);
    PlayHasOwnEffects(x, s);
    assert Play(x, s).Running();
    CommandLength(x, s);
    assert AsNat(8) == 8;
  }

  lemma IsPlayable(x: seq<bv8>, s: Snapshot)
    requires Begins(x) && GoesOn(s, 10)
    ensures s.Playable(x) && x[s.pos] == XSIR && x[s.pos + 1] == 8 && x[s.pos + 2] == 1 && [x[s.pos + 2]] == x[12..13]
  {
    hide Held, LsbBits, Ones;
    assert AsNat(8) == 8;
  }

  lemma IsIdcode(b: seq<bv8>)
    requires b == [0x01]
    ensures LsbBits(b) == IDCODE
  {
    hide BitOf;
  }

  lemma SizePlays(x: seq<bv8>, s: Snapshot)
    requires Begins(x) && GoesOn(s, 13)
    ensures var t := Next(x, s); t == s.(pos := 18, bits := 32, bytes := 4, memory := t.memory) && GoesOn(t, 18)
  {
    hide Held, Ones, LsbBits, Number, Loaded;
    ThirtyTwo(x[14..18]);
  }

  lemma ThirtyTwo(b: seq<bv8>)
    requires b == [0, 0, 0, 0x20]
    ensures Number(b) == 32
  {
    NoByte(b);
    NoByte(b[1..]);
    NoByte(b[1..][1..]);
    OneByte(b[1..][1..][1..]);
    assert b[1..][1..][1..] == [0x20];
    assert b[3] as nat == 32;
  }

  lemma MaskPlays(x: seq<bv8>, s: Snapshot)
    requires Begins(x) && GoesOn(s, 18) && s.bytes == 4
    ensures var t := Next(x, s);
            && t == s.(pos := 23, memory := t.memory) && GoesOn(t, 23)
            && t.memory.mask.Contents() == [0x0f, 0xff, 0x8f, 0xff]
  {
    hide Held, Ones, LsbBits;
    assert x[19..23] == [0x0f, 0xff, 0x8f, 0xff];
  }

  lemma TimePlays(x: seq<bv8>, s: Snapshot)
    requires Begins(x) && GoesOn(s, 23)
    ensures var t := Next(x, s);
            && t == s.(pos := 28, settings := s.settings.(time := 0), memory := t.memory) && GoesOn(t, 28)
            && t.memory.mask == s.memory.mask
  {
    hide Held, Ones, LsbBits, Number, Loaded;
    Zero(x[24..28]);
  }

  lemma Zero(b: seq<bv8>)
    requires b == [0, 0, 0, 0]
    ensures Number(b) == 0
  {
    NoByte(b);
    NoByte(b[1..]);
    NoByte(b[1..][1..]);
    OneByte(b[1..][1..][1..]);
    assert b[3] as nat == 0;
  }

  // ----- all of them

  lemma OneMoreCommand(x: seq<bv8>, s: Snapshot, n: nat)
    ensures After(x, s, 0) == s && After(x, s, n + 1) == Next(x, After(x, s, n))
  {
    hide Next;
  }

  /** Up to the two XSTATE: the reset pulses, and the step to Run-Test/Idle. */
  lemma FirstFive(x: seq<bv8>, s: Snapshot)
    requires Begins(x) && GoesOn(s, 0) && s.wire.dev.state == Reset && s.settings.time == 0
    ensures var t := After(x, s, 5);
            && t == s.(pos := 10, settings := Settings(RUNTEST, RUNTEST, 0, 0), wire := t.wire) && GoesOn(t, 10)
            && t.wire.dev.state == Idle && t.wire.tdi == s.wire.tdi
            && t.wire.trace == s.wire.trace + Pulses(Stay(Reset, 7), s.wire.tdi)
  {
    hide Next, Begins, GoesOn, Gone, After;
    OneMoreCommand(x, s, 0);
    RepeatPlays(x, s);
    OneMoreCommand(x, s, 1);
    EndIrPlays(x, After(x, s, 1));
    OneMoreCommand(x, s, 2);
    EndDrPlays(x, After(x, s, 2));
    OneMoreCommand(x, s, 3);
    ResetPlays(x, After(x, s, 3));
    OneMoreCommand(x, s, 4);
    IdlePlays(x, After(x, s, 4));
    ToIdle(s.wire);
  }

  lemma ToIdle(w: Wire)
    requires w.dev.state == Reset
    ensures var v := Gone(Gone(w, RESET), RUNTEST);
            && v.dev.state == Idle && v.tdi == w.tdi && v.trace == w.trace + Pulses(Stay(Reset, 7), w.tdi)
  {
    hide Device.Clock, Went, Waited;
    GoesToReset(w);
    InReset(6);
    var u := Gone(w, RESET);
    NextDoor(u, false, Idle);
    StepHolds(u, false);
    assert Pulses(Stay(Reset, 6), w.tdi) + [Pulse(Reset, w.tdi)] == Pulses(Stay(Reset, 7), w.tdi);
  }

  lemma InReset(n: nat)
    ensures seq(n, i requires 0 <= i < n => HeldFor(Reset, true, i)) == Stay(Reset, n)
  {
    forall i | 0 <= i < n ensures HeldFor(Reset, true, i) == Reset {
      HeldInReset(i);
    }
  }

  lemma {:induction false} HeldInReset(i: nat)
    ensures HeldFor(Reset, true, i) == Reset
  {
    if i > 0 {
      HeldInReset(i - 1);
    }
  }

  /** After the first nine commands, from any device: the TAP is in Run-Test/Idle with IDCODE in effect, by seven
      pulses in Test-Logic-Reset after those of the initialization and one instruction scan; the length is 32, the
      mask is set, shifts end in Run-Test/Idle without retries and without a wait. */
  lemma FirmwareStreamBegins(x: seq<bv8>, wire: Wire, memory: Memory)
    requires Begins(x) && wire.dev.reg != []
    ensures var s := Initial(0, wire, memory);
            var t := After(x, s, 9);
            && GoesOn(t, 28) && t.settings == Settings(Code(Idle), Code(Idle), 0, 0) && t.bits == 32 && t.bytes == 4
            && t.memory.mask.Contents() == [0x0f, 0xff, 0x8f, 0xff]
            && t.wire.dev.state == Idle && t.wire.dev.ir == IDCODE
            && t.wire.trace == s.wire.trace + Pulses(Stay(Reset, 7), s.wire.tdi)
                               + ScanPulses([Idle, SelectDr, SelectIr, CaptureIr], ShiftIr, IDCODE,
                                            [Exit1Ir, UpdateIr], s.wire.tdi, 0)
  {
    hide Next, Begins, Held, Gone, ScanPulses, Pulses, Stay, After;
    var s := Initial(0, wire, memory);
    FirstFive(x, s);
    OneMoreCommand(x, s, 5);
    InstructionPlays(x, After(x, s, 5));
    OneMoreCommand(x, s, 6);
    SizePlays(x, After(x, s, 6));
    OneMoreCommand(x, s, 7);
    MaskPlays(x, After(x, s, 7));
    OneMoreCommand(x, s, 8);
    TimePlays(x, After(x, s, 8));
  }
}
