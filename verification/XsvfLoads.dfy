// What the shifting commands of an XSVF stream compare and what they load into the
// device (common/xapp058/micro.c), from Run-Test/Idle and with as many bits as the
// register has, with all their pulses.

module XsvfLoads {
  import opened Bytes
  import opened Lenval
  import opened Tap
  import opened XsvfTap
  import opened XsvfShift
  import opened XsvfScan
  import opened XsvfMask
  import opened XsvfStream
  import opened XsvfTable
  import opened XsvfMoves

  // ----- one value

  /** The value that command k expects: its second operand, or for XSDR the last one. */
  ghost function Expected(x: seq<bv8>, s: Snapshot, k: bv8): seq<bv8>
    requires 0 <= s.bytes && (BringsExpected(k) ==> s.pos + 1 + 2 * s.bytes <= |x|)
  {
    if BringsExpected(k) then x[s.pos + 1 + s.bytes..s.pos + 1 + 2 * s.bytes] else s.memory.expected.Contents()
  }

  /** What the device captures agrees with what is expected: wherever the mask is set for XSDR and XSDRTDO, in
      every bit for XSDRTDOE; XSDRE expects nothing. */
  ghost predicate Agrees(x: seq<bv8>, s: Snapshot, k: bv8)
    requires 0 <= s.bytes <= MAX_LEN && (BringsExpected(k) ==> s.pos + 1 + 2 * s.bytes <= |x|)
    requires (k == XSDRE || |Expected(x, s, k)| == s.bytes) && |s.wire.dev.Captured()| <= 8 * s.bytes
  {
    if k == XSDRE then true
    else
      var captured, expected := Padded(s.wire.dev.Captured(), s.bytes), LsbBits(Expected(x, s, k));
      if k == XSDRTDOE then captured == expected
      else forall i :: 0 <= i < 8 * s.bytes && LsbBits(s.memory.mask.bytes[..s.bytes])[i] ==> captured[i] == expected[i]
  }

  /** The value has been shifted in, in all these pulses, and has taken effect unless the end is the pause. */
  ghost predicate Loads(w: Wire, v: Wire, bits: seq<bool>, end: nat, time: int)
    requires bits != []
  {
    && v.dev == LoadedDr(w.dev, bits, end, time).(tdo := v.dev.tdo)
    && v.trace == w.trace + ScanPulses([Idle, SelectDr, CaptureDr], ShiftDr, bits, OutDr(end, time), w.tdi, time)
  }

  /** A value of the register's length, from Run-Test/Idle: the command passes if the device agrees, and only then when
      it is not to be tried again. If it agrees or is not tried again, the first operand is loaded, by these pulses and
      no others; a mismatch is reported when the value is in the device already. */
  lemma CompareAndLoad(x: seq<bv8>, s: Snapshot)
    requires s.Playable(x) && x[s.pos] in {XSDR, XSDRTDO, XSDRE, XSDRTDOE}
    requires s.wire.dev.state == Idle && 0 < s.bits == |s.wire.dev.Captured()|
    requires x[s.pos] == XSDR ==> s.memory.expected.len == s.bytes
    ensures var n, k, pos, t := s.bytes, x[s.pos], s.pos + 1, Play(x, s);
            && 0 < n <= MAX_LEN && s.bits <= 8 * n && pos + (if BringsExpected(k) then 2 * n else n) <= |x|
            && (EndsAtOnce(k) || s.settings.repeats == 0 ==>
                  t.error == if Agrees(x, s, k) then NoError else TdoMismatch)
            && (Agrees(x, s, k) ==> t.error == NoError)
            && (EndsAtOnce(k) || s.settings.repeats == 0 || Agrees(x, s, k) ==>
                  Loads(s.wire, t.wire, ShiftBits(x[pos..pos + n], s.bits), s.settings.endDr,
                        if EndsAtOnce(k) then 0 else s.settings.time))
  {
    hide Held, Scan, LsbBits, Ones, Device.Captured, LoadedDr, OutDr, Padded, ShiftBits, Recaptured, Loaded,
         ScanPulses, Expectation.MetBy, WithOperands, JobOf, Agrees, OperandsThere, Play, Expectations;
    var n, k, w, p := s.bytes, x[s.pos], s.wire, PlanOf(x[s.pos], s.settings);
    PlayIsShift(x, s);
    ComparesUnless(x[s.pos], s.settings);
    OperandsRead(x, s, p);
    var u := WithOperands(x, s.(pos := s.pos + 1), BringsExpected(k));
    var j := JobOf(u.memory, p, s.bits);
    DataScan(j, w, u.memory.captured, p.time, p.repeats);
    MetExactly(x, s, p, j.x,
               if j.capture then Recaptured(u.memory.captured, w.dev.Captured(), n) else u.memory.captured);
  }

  ghost function Expectations(x: seq<bv8>, s: Snapshot, p: Plan): Expectation
    requires s.pos < |x| && 0 <= s.bytes && (BringsExpected(x[s.pos]) ==> s.pos + 1 + 2 * s.bytes <= |x|)
    requires s.bytes <= MAX_LEN && (p.compared ==> |Expected(x, s, x[s.pos])| == s.bytes)
  {
    if !p.compared then Nothing
    else Expect(Expected(x, s, x[s.pos]),
                if p.masked then s.memory.mask.bytes[..s.bytes] else seq(s.bytes, _ => 0xff))
  }

  /** The operands of a command that shifts one value are there. */
  ghost predicate OperandsThere(x: seq<bv8>, s: Snapshot) {
    s.pos < |x| && !ParseValues(x, s.(pos := s.pos + 1).At(), BringsExpected(x[s.pos])).Malformed?
  }

  lemma PlayIsShift(x: seq<bv8>, s: Snapshot)
    requires s.Playable(x) && x[s.pos] in {XSDR, XSDRTDO, XSDRE, XSDRTDOE}
    ensures OperandsThere(x, s) && s.Valid()
    ensures var k, u := x[s.pos], WithOperands(x, s.(pos := s.pos + 1), BringsExpected(x[s.pos]));
            Play(x, s) == Shifts(u, PlanOf(k, s.settings), s.bits)
  {
    hide Ones, LsbBits, Held, PlanOf, Shifts, WithOperands;
  }

  lemma ComparesUnless(k: bv8, s: Settings)
    requires s.Valid() && k in {XSDR, XSDRTDO, XSDRE, XSDRTDOE}
    ensures PlanOf(k, s).compared <==> k != XSDRE
  {
  }

  lemma OperandsRead(x: seq<bv8>, s: Snapshot, p: Plan)
    requires OperandsThere(x, s) && p.Valid()
    requires p.compared && !BringsExpected(x[s.pos]) ==> s.memory.expected.len == s.bytes
    ensures var n, k, pos := s.bytes, x[s.pos], s.pos + 1;
            && 0 <= n <= MAX_LEN && pos + (if BringsExpected(k) then 2 * n else n) <= |x| && 0 <= s.bits <= 8 * n
            && (p.compared ==> |Expected(x, s, k)| == n)
            && var u := WithOperands(x, s.(pos := pos), BringsExpected(k));
            && u == s.(pos := u.pos, memory := s.memory.(tdi := u.memory.tdi, expected := u.memory.expected))
            && u.memory.tdi.len == n
            && JobOf(u.memory, p, s.bits)
               == Job(p.start, p.end, ShiftBits(x[pos..pos + n], s.bits), n, p.compared, Expectations(x, s, p))
  {
    hide Ones, LsbBits, WithOperands, ShiftBits, ExpectationOf, Expectations;
    Operands(x, s);
    var u := WithOperands(x, s.(pos := s.pos + 1), BringsExpected(x[s.pos]));
    ExpectationsAre(x, s, p, u.memory);
  }

  lemma Operands(x: seq<bv8>, s: Snapshot)
    requires OperandsThere(x, s)
    ensures var n, k, pos := s.bytes, x[s.pos], s.pos + 1;
            && 0 <= n <= MAX_LEN && pos + (if BringsExpected(k) then 2 * n else n) <= |x| && 0 <= s.bits <= 8 * n
            && var u := WithOperands(x, s.(pos := pos), BringsExpected(k));
            && u.memory.expected.Contents() == Expected(x, s, k)
            && u.memory.tdi.Contents() == x[pos..pos + n]
  {
    hide Ones, LsbBits;
  }

  lemma ExpectationsAre(x: seq<bv8>, s: Snapshot, p: Plan, m: Memory)
    requires s.pos < |x| && 0 <= s.bytes <= MAX_LEN && (BringsExpected(x[s.pos]) ==> s.pos + 1 + 2 * s.bytes <= |x|)
    requires p.compared ==> |Expected(x, s, x[s.pos])| == s.bytes && m.mask == s.memory.mask
    requires m.expected.Contents() == Expected(x, s, x[s.pos])
    ensures ExpectationOf(m, p) == Expectations(x, s, p)
  {
  }

  lemma MetExactly(x: seq<bv8>, s: Snapshot, p: Plan, e: Expectation, seen: Storage)
    requires s.pos < |x| && x[s.pos] in {XSDR, XSDRTDO, XSDRE, XSDRTDOE} && s.settings.Valid()
    requires 0 <= s.bytes <= MAX_LEN && (BringsExpected(x[s.pos]) ==> s.pos + 1 + 2 * s.bytes <= |x|)
    requires |s.wire.dev.Captured()| <= 8 * s.bytes && (x[s.pos] == XSDRE || |Expected(x, s, x[s.pos])| == s.bytes)
    requires p == PlanOf(x[s.pos], s.settings) && e == Expectations(x, s, p)
    requires p.compared ==>
               seen.len == s.bytes && LsbBits(seen.Contents()) == Padded(s.wire.dev.Captured(), s.bytes)
    ensures e.MetBy(seen.bytes) <==> Agrees(x, s, x[s.pos])
  {
    hide LsbBits, Padded, Device.Captured;
    if p.compared {
      assert seen.bytes[..s.bytes] == seen.Contents();
      if !p.masked {
        AllSet(seq(s.bytes, _ => 0xff));
      }
    }
  }

  lemma AllSet(ff: seq<bv8>)
    requires forall i :: 0 <= i < |ff| ==> ff[i] == 0xff
    ensures forall i :: 0 <= i < 8 * |ff| ==> LsbBits(ff)[i]
  {
    forall i | 0 <= i < 8 * |ff| ensures LsbBits(ff)[i] {
      LsbBitAt(ff, |ff| - 1 - i / 8, i % 8);
    }
  }

  // ----- one instruction

  /** XSIR or XSIR2 with eight bits from Run-Test/Idle: the instruction is in effect unless the scan ends in the
      pause, with these pulses. */
  lemma LoadsInstruction(x: seq<bv8>, s: Snapshot)
    requires s.Playable(x) && s.wire.dev.state == Idle
    requires || (x[s.pos] == XSIR && s.pos + 1 < |x| && x[s.pos + 1] == 8)
             || (x[s.pos] == XSIR2 && s.pos + 3 <= |x| && x[s.pos + 1] == 0 && x[s.pos + 2] == 8)
    ensures var at := if x[s.pos] == XSIR then s.pos + 2 else s.pos + 3;
            && at < |x|
            && var t, bits := Play(x, s), LsbBits([x[at]]);
            && t.error == NoError
            && t.wire.dev == LoadedIr(s.wire.dev, bits, s.settings.endIr, s.settings.time).(tdo := t.wire.dev.tdo)
            && t.wire.trace == s.wire.trace + ScanPulses([Idle, SelectDr, SelectIr, CaptureIr], ShiftIr, bits,
                                                         OutIr(s.settings.endIr, s.settings.time), s.wire.tdi,
                                                         s.settings.time)
  {
    hide Held, LsbBits, Ones, ScanPulses, LoadedIr, OutIr, Number, Play;
    if x[s.pos] == XSIR {
      ShortForm(x, s);
      InstructionShift(x, s.(pos := s.pos + 2));
    } else {
      LongForm(x, s);
      InstructionShift(x, s.(pos := s.pos + 1).WithTdi(x, 2));
    }
  }

  lemma ShortForm(x: seq<bv8>, s: Snapshot)
    requires s.Playable(x) && x[s.pos] == XSIR && s.pos + 1 < |x| && x[s.pos + 1] == 8
    ensures s.pos + 2 < |x|
    ensures Play(x, s) == Shifts(s.(pos := s.pos + 2).WithTdi(x, 1), PlanOf(XSIR, s.settings), 8)
  {
    hide Held, LsbBits, Ones, Shifts, PlanOf;
    assert AsNat(8) == 8;
  }

  lemma LongForm(x: seq<bv8>, s: Snapshot)
    requires s.Playable(x) && x[s.pos] == XSIR2 && s.pos + 3 <= |x| && x[s.pos + 1] == 0 && x[s.pos + 2] == 8
    ensures s.pos + 3 < |x|
    ensures Play(x, s)
            == Shifts(s.(pos := s.pos + 1).WithTdi(x, 2).WithTdi(x, 1), PlanOf(XSIR2, s.settings), 8)
  {
    hide Held, LsbBits, Ones, Shifts, PlanOf, Number;
    Eight(x[s.pos + 1..s.pos + 3]);
  }

  lemma Eight(b: seq<bv8>)
    requires b == [0, 8]
    ensures Number(b) == 8
  {
    var one := b[1..];
    assert one == [8] && one[1..] == [];
    OneByte(one);
    NoByte(b);
  }

  lemma OneByte(b: seq<bv8>)
    requires |b| == 1
    ensures Number(b) == b[0] as nat
  {
    assert b[1..] == [] && Pow256(0) == 1;
  }

  lemma NoByte(b: seq<bv8>)
    requires b != [] && b[0] == 0
    ensures Number(b) == Number(b[1..])
  {
    assert b[0] as nat == 0;
  }

  /** The bits at the position, eight of them. */
  lemma InstructionShift(x: seq<bv8>, s: Snapshot)
    requires s.Valid() && s.Running() && s.pos < |x| && s.wire.dev.state == Idle
    ensures PlanOf(XSIR, s.settings) == PlanOf(XSIR2, s.settings)
    ensures var t, bits := Shifts(s.WithTdi(x, 1), PlanOf(XSIR, s.settings), 8), LsbBits([x[s.pos]]);
            && t.error == NoError
            && t.wire.dev == LoadedIr(s.wire.dev, bits, s.settings.endIr, s.settings.time).(tdo := t.wire.dev.tdo)
            && t.wire.trace == s.wire.trace + ScanPulses([Idle, SelectDr, SelectIr, CaptureIr], ShiftIr, bits,
                                                         OutIr(s.settings.endIr, s.settings.time), s.wire.tdi,
                                                         s.settings.time)
  {
    hide Held, Scan, LsbBits, Ones, ScanPulses, LoadedIr, OutIr;
    var p, u := PlanOf(XSIR, s.settings), s.WithTdi(x, 1);
    var j := JobOf(u.memory, p, 8);
    assert u.memory.tdi.Contents() == [x[s.pos]];
    assert ShiftBits(u.memory.tdi.Contents(), 8) == LsbBits([x[s.pos]]);
    InstructionScan(j, s.wire, u.memory.captured, p.time);
  }

  // ----- a value in pieces

  /** XSDRB and XSDRC shift their operand and stay; XSDRE shifts it and goes to the end state. */
  lemma PiecePlayed(x: seq<bv8>, s: Snapshot, b: Storage)
    requires s.Playable(x) && IsUncompared(x[s.pos]) && s.bits > 0
    ensures 0 <= s.bytes <= MAX_LEN && s.pos + 1 + s.bytes <= |x| && s.bits <= 8 * s.bytes
    ensures Held(s.wire) && s.settings.Valid()
    ensures var bits := ShiftBits(x[s.pos + 1..s.pos + 1 + s.bytes], s.bits);
            Play(x, s).wire
            == Scan(Piece(if x[s.pos] == XSDRE then s.settings.endDr else SHIFT_DR, bits), s.wire, b, 0, 0).outcome.w
  {
    hide Held, LsbBits, Ones, Scan, ShiftBits;
    var n, u := s.bytes, WithOperands(x, s.(pos := s.pos + 1), false);
    assert u.memory.tdi.Contents() == x[s.pos + 1..s.pos + 1 + n];
    var p := PlanOf(x[s.pos], s.settings);
    AnyBuffer(JobOf(u.memory, p, s.bits), s.wire, u.memory.captured, b);
  }

  /** XSDRTDOB and XSDRTDOC from Run-Test/Idle compare every bit of what the register shows with their second operand,
      and leave the register shifted by as many bits, in Shift-DR. */
  lemma PieceCompared(x: seq<bv8>, s: Snapshot)
    requires s.Playable(x) && (x[s.pos] == XSDRTDOB || x[s.pos] == XSDRTDOC)
    requires s.wire.dev.state == Idle && 0 < s.bits <= |s.wire.dev.Captured()|
    ensures var n, pos, t, captured := s.bytes, s.pos + 1, Play(x, s), s.wire.dev.Captured();
            && 0 < n <= MAX_LEN && s.bits <= 8 * n && pos + 2 * n <= |x|
            && var bits := ShiftBits(x[pos..pos + n], s.bits);
            && t.error == (if Padded(captured[..s.bits], n) == LsbBits(x[pos + n..pos + 2 * n]) then NoError
                           else TdoMismatch)
            && t.wire.dev == s.wire.dev.(state := ShiftDr, reg := captured[s.bits..] + bits,
                                         tdo := captured[s.bits - 1])
            && t.wire.trace == s.wire.trace + Pulses([Idle, SelectDr, CaptureDr], s.wire.tdi)
                               + ShiftPulses(ShiftDr, bits)
  {
    hide Held, Scan, LsbBits, Ones, Device.Captured, Padded, ShiftBits, Recaptured, Loaded, Pulses, ShiftPulses,
         Expectation.MetBy, WithOperands, JobOf, OperandsThere, Play, Expectations;
    var n, p := s.bytes, PlanOf(x[s.pos], s.settings);
    PieceIsShift(x, s);
    OperandsRead(x, s, p);
    var u := WithOperands(x, s.(pos := s.pos + 1), true);
    var j, captured := JobOf(u.memory, p, s.bits), s.wire.dev.Captured();
    StayScan(j, s.wire, u.memory.captured);
    var seen := Recaptured(u.memory.captured, captured[..s.bits], n);
    MetInFull(x, s, p, j.x, seen, Padded(captured[..s.bits], n));
  }

  lemma PieceIsShift(x: seq<bv8>, s: Snapshot)
    requires s.Playable(x) && (x[s.pos] == XSDRTDOB || x[s.pos] == XSDRTDOC)
    ensures OperandsThere(x, s) && s.Valid()
    ensures PlanOf(x[s.pos], s.settings) == Plan(SHIFT_DR, SHIFT_DR, 0, 0, true, false)
    ensures var u := WithOperands(x, s.(pos := s.pos + 1), true);
            Play(x, s) == Shifts(u, PlanOf(x[s.pos], s.settings), s.bits)
  {
    hide Ones, LsbBits, Held, Shifts, WithOperands;
  }

  lemma MetInFull(x: seq<bv8>, s: Snapshot, p: Plan, e: Expectation, seen: Storage, shown: seq<bool>)
    requires s.pos < |x| && 0 <= s.bytes <= MAX_LEN && BringsExpected(x[s.pos]) && s.pos + 1 + 2 * s.bytes <= |x|
    requires p.compared && !p.masked && e == Expectations(x, s, p)
    requires seen.len == s.bytes && LsbBits(seen.Contents()) == shown
    ensures e.MetBy(seen.bytes) <==> shown == LsbBits(x[s.pos + 1 + s.bytes..s.pos + 1 + 2 * s.bytes])
  {
    hide LsbBits;
    assert seen.bytes[..s.bytes] == seen.Contents();
    AllSet(seq(s.bytes, _ => 0xff));
  }

  lemma AnyBuffer(j: Job, w: Wire, b: Storage, c: Storage)
    requires j.Valid() && Held(w) && !j.capture
    ensures Scan(j, w, b, 0, 0).outcome.w == Scan(j, w, c, 0, 0).outcome.w
  {
    hide Held, Attempted;
  }

  /** A value that is sent with XSDRB or XSDRC and then with XSDRE, from Run-Test/Idle, is loaded as a whole. */
  lemma SentInPieces(x: seq<bv8>, s: Snapshot, u: Snapshot)
    requires s.Playable(x) && (x[s.pos] == XSDRB || x[s.pos] == XSDRC) && s.bits > 0
    requires u.Playable(x) && x[u.pos] == XSDRE && u.bits > 0 && u.wire == Play(x, s).wire
    requires s.wire.dev.state == Idle && s.bits + u.bits == |s.wire.dev.Captured()| <= 8 * MAX_LEN
    ensures 0 <= s.bytes && s.pos + 1 + s.bytes <= |x| && s.bits <= 8 * s.bytes
    ensures 0 <= u.bytes && u.pos + 1 + u.bytes <= |x| && u.bits <= 8 * u.bytes
    ensures Loads(s.wire, Play(x, u).wire,
                  ShiftBits(x[s.pos + 1..s.pos + 1 + s.bytes], s.bits)
                  + ShiftBits(x[u.pos + 1..u.pos + 1 + u.bytes], u.bits), u.settings.endDr, 0)
  {
    hide Held, LsbBits, Ones, Scan, ShiftBits, Play, Device.Captured, Loads, LoadedDr, OutDr, ScanPulses;
    var b := u.memory.captured;
    PiecePlayed(x, s, b);
    PiecePlayed(x, u, b);
    var first := ShiftBits(x[s.pos + 1..s.pos + 1 + s.bytes], s.bits);
    var second := ShiftBits(x[u.pos + 1..u.pos + 1 + u.bytes], u.bits);
    PiecesAreOneShift(s.wire, b, first, second, u.settings.endDr);
    WholePiece(s.wire, b, first + second, u.settings.endDr);
  }

  lemma WholePiece(w: Wire, b: Storage, bits: seq<bool>, end: nat)
    requires bits != [] && |bits| <= 8 * MAX_LEN && (end == RUNTEST || end == PAUSE_DR)
    requires w.dev.state == Idle && Held(w) && |w.dev.Captured()| == |bits|
    ensures Loads(w, Scan(Piece(end, bits), w, b, 0, 0).outcome.w, bits, end, 0)
  {
    hide Held, Scan, Device.Captured, LoadedDr, OutDr, ScanPulses, Recaptured;
    DataScan(Piece(end, bits), w, b, 0, 0);
  }
}
