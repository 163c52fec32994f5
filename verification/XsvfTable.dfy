// What the commands of an XSVF stream mean: the command table of the player
// (common/xapp058/micro.c) as functions from what there is before a command to
// what there is after it. The player of Xsvf is proved to do exactly this.

module XsvfTable {
  import opened Bytes
  import opened Lenval
  import opened Tap
  import opened XsvfTap
  import opened XsvfShift
  import opened XsvfScan
  import opened XsvfMask
  import opened XsvfStream

  /** The settings that later commands use, apart from the shift length. */
  datatype Settings = Settings(endIr: nat, endDr: nat, repeats: nat, time: int)
  {
    predicate Valid() {
      && (endIr == RUNTEST || endIr == PAUSE_IR) && (endDr == RUNTEST || endDr == PAUSE_DR)
      && repeats <= 255 && IsLong(time)
    }
  }

  /** The values that later commands use. */
  datatype Memory = Memory(tdi: Storage, captured: Storage, expected: Storage, mask: Storage, address: Storage,
                           data: Storage)

  /** All there is between two commands. */
  datatype Snapshot = Snapshot(pos: nat, bits: int, bytes: int, settings: Settings, memory: Memory, wire: Wire,
                               error: Error, complete: bool)
  {
    predicate Valid() {
      settings.Valid() && Held(wire)
    }

    /** What is left of the stream is well formed, or the run is over. */
    predicate Sound(x: seq<bv8>) {
      Valid() && (complete ==> error == NoError) && (Running() ==> WellFormed(x, At()))
    }

    /** There is a next command, with its operands. */
    predicate Playable(x: seq<bv8>) {
      Valid() && Running() && !ParseCommand(x, At()).Malformed?
    }

    predicate Running() {
      error == NoError && !complete
    }

    function At(): Cursor {
      Cursor(pos, bits, bytes, Ones(LsbBits(memory.data.Contents())), memory.data.len)
    }

    /** A shift of the present length stays within the buffers. */
    predicate Fits() {
      LengthFits(bits, bytes)
    }

    /** The bytes that hold as many bits as the data mask has ones. */
    function Width(): nat {
      AsBytes(Ones(LsbBits(memory.data.Contents())))
    }

    /** The count of repetitions and their data are there. */
    predicate RoomForData(x: seq<bv8>) {
      pos < |x| && pos + 1 + DataBytes(AsNat(x[pos]), Width()) <= |x|
    }

    /** Elsewhere in the stream, on other wires, perhaps with an error; only these two values are new. */
    function Moved(pos: nat, wire: Wire, error: Error, tdi: Storage, captured: Storage): Snapshot {
      this.(pos := pos, wire := wire, error := error, memory := memory.(tdi := tdi, captured := captured))
    }

    /** The next n bytes are read as the TDI value. */
    function WithTdi(x: seq<bv8>, n: nat): Snapshot
      requires pos + n <= |x| && n <= MAX_LEN
    {
      this.(pos := pos + n, memory := memory.(tdi := Loaded(memory.tdi, x[pos..pos + n])))
    }

    /** The next n bytes are read as a mask of XSDRINC. */
    function WithAddressMask(x: seq<bv8>, n: nat): Snapshot
      requires pos + n <= |x| && n <= MAX_LEN
    {
      this.(pos := pos + n, memory := memory.(address := Loaded(memory.address, x[pos..pos + n])))
    }

    function WithDataMask(x: seq<bv8>, n: nat): Snapshot
      requires pos + n <= |x| && n <= MAX_LEN
    {
      this.(pos := pos + n, memory := memory.(data := Loaded(memory.data, x[pos..pos + n])))
    }

    /** The next n bytes are read as the expected value. */
    function WithExpected(x: seq<bv8>, n: nat): Snapshot
      requires pos + n <= |x| && n <= MAX_LEN
    {
      this.(pos := pos + n, memory := memory.(expected := Loaded(memory.expected, x[pos..pos + n])))
    }
  }

  // ----- commands that shift

  /** A shift: where it starts and ends, how long to wait, how often to retry, what is compared. */
  datatype Plan = Plan(start: nat, end: nat, time: int, repeats: nat, compared: bool, masked: bool)
  {
    predicate Valid() {
      IsShift(start) && IsEnd(start, end) && IsLong(time) && repeats <= 255
    }
  }

  /** The commands that compare without the mask, and those that do not compare. */
  predicate IsUnmasked(k: bv8) {
    k == XSDRTDOB || k == XSDRTDOC || k == XSDRTDOE
  }

  predicate IsUncompared(k: bv8) {
    k == XSDRB || k == XSDRC || k == XSDRE
  }

  /** The commands that shift one value through the data register, and those that bring an expected value. */
  predicate IsData(k: bv8) {
    k == XSDR || k == XSDRTDO || IsUncompared(k) || IsUnmasked(k)
  }

  predicate BringsExpected(k: bv8) {
    k == XSDRTDO || IsUnmasked(k)
  }

  function PlanOf(k: bv8, s: Settings): (p: Plan)
    requires s.Valid()
    ensures p.Valid()
  {
    if k == XSIR || k == XSIR2 then Plan(SHIFT_IR, s.endIr, s.time, 0, false, false)
    else if k == XSDRE then Plan(SHIFT_DR, s.endDr, 0, 0, false, false)
    else if k == XSDRTDOE then Plan(SHIFT_DR, s.endDr, 0, 0, true, false)
    else if k == XSDRTDOB || k == XSDRTDOC then Plan(SHIFT_DR, SHIFT_DR, 0, 0, true, false)
    else if k == XSDRB || k == XSDRC then Plan(SHIFT_DR, SHIFT_DR, 0, 0, false, false)
    else Plan(SHIFT_DR, s.endDr, s.time, s.repeats, true, true)
  }

  /** What a plan compares with: the expected value, and the mask as far as that goes. */
  function ExpectationOf(m: Memory, p: Plan): Expectation {
    if !p.compared then Nothing
    else Expect(m.expected.Contents(),
                if p.masked then m.mask.bytes[..m.expected.len] else seq(m.expected.len, _ => 0xff))
  }

  function JobOf(m: Memory, p: Plan, numBits: nat): (j: Job)
    requires p.Valid() && m.tdi.len == AsBytes(numBits)
    ensures j.Valid()
  {
    Job(p.start, p.end, ShiftBits(m.tdi.Contents(), numBits), m.tdi.len, p.compared, ExpectationOf(m, p))
  }

  /** The TDI value is shifted by the plan. */
  function Shifts(s: Snapshot, p: Plan, numBits: nat): (t: Snapshot)
    requires s.Valid() && p.Valid() && s.memory.tdi.len == AsBytes(numBits)
    ensures t.Valid() && t == s.Moved(s.pos, t.wire, t.error, s.memory.tdi, t.memory.captured)
  {
    var r := Scan(JobOf(s.memory, p, numBits), s.wire, s.memory.captured, p.time, p.repeats);
    s.(wire := r.outcome.w, error := r.error,
       memory := s.memory.(captured := if p.compared then r.outcome.captured else s.memory.captured))
  }

  /** The operands are read: the TDI value, and the expected value if there is one. */
  function WithOperands(x: seq<bv8>, s: Snapshot, both: bool): (u: Snapshot)
    requires !ParseValues(x, s.At(), both).Malformed?
    ensures u == s.(pos := u.pos, memory := s.memory.(tdi := u.memory.tdi, expected := u.memory.expected))
    ensures s.Fits() && u.memory.tdi.len == s.bytes
  {
    var u := s.WithTdi(x, s.bytes);
    if both then u.WithExpected(x, s.bytes) else u
  }

  /** A value of the present length is shifted by a plan. */
  function ShiftsValue(x: seq<bv8>, s: Snapshot, p: Plan, both: bool): (t: Snapshot)
    requires s.Valid() && p.Valid() && !ParseValues(x, s.At(), both).Malformed?
    ensures t.Valid()
  {
    Shifts(WithOperands(x, s, both), p, s.bits)
  }

  function PlayData(x: seq<bv8>, s: Snapshot, k: bv8): (t: Snapshot)
    requires s.Valid() && IsData(k) && !ParseValues(x, s.At(), BringsExpected(k)).Malformed?
    ensures t.Valid()
  {
    ShiftsValue(x, s, PlanOf(k, s.settings), BringsExpected(k))
  }

  function PlayIr(x: seq<bv8>, s: Snapshot): (t: Snapshot)
    requires s.Valid() && !ParseIr(x, s.At()).Malformed?
    ensures t.Valid()
  {
    var numBits := AsNat(x[s.pos]);
    Shifts(s.(pos := s.pos + 1).WithTdi(x, AsBytes(numBits)), PlanOf(XSIR, s.settings), numBits)
  }

  /** The length has two bytes and may be too long. */
  function PlayIr2(x: seq<bv8>, s: Snapshot): (t: Snapshot)
    requires s.Valid() && !ParseIr2(x, s.At()).Malformed?
    ensures t.Valid()
  {
    var numBits, u := Number(x[s.pos..s.pos + 2]), s.WithTdi(x, 2);
    if AsBytes(numBits) > MAX_LEN then u.(error := DataOverflow)
    else Shifts(u.WithTdi(x, AsBytes(numBits)), PlanOf(XSIR2, s.settings), numBits)
  }

  /** The next k bytes of data, and the masked increment. */
  function Incremented(x: seq<bv8>, s: Snapshot, k: nat): (u: Snapshot)
    requires s.pos + k <= |x| && k == s.Width()
    ensures u == s.Moved(s.pos + k, s.wire, s.error, u.memory.tdi, s.memory.captured)
    ensures u.memory.tdi.len == s.memory.tdi.len
  {
    var m := s.memory;
    s.Moved(s.pos + k, s.wire, s.error, Masked(m.tdi, x[s.pos..s.pos + k], m.address, m.data), m.captured)
  }

  /** XSDRINC after its first shift. */
  function IncOnce(x: seq<bv8>, s: Snapshot, k: nat): (t: Snapshot)
    requires s.Valid() && s.Fits() && s.memory.tdi.len == s.bytes && s.pos + k <= |x| && k == s.Width()
    ensures t.Valid() && t == s.Moved(s.pos + k, t.wire, t.error, t.memory.tdi, t.memory.captured)
    ensures t.memory.tdi.len == s.bytes
  {
    hide Incremented, Scan, LsbBits, Ones, Held, ExpectationOf, Shifts, PlanOf;
    Shifts(Incremented(x, s, k), PlanOf(XSDRINC, s.settings), s.bits)
  }

  /** The repetitions, up to the first error. */
  function IncTimes(x: seq<bv8>, s: Snapshot, k: nat, times: nat): (t: Snapshot)
    requires s.Valid() && s.Fits() && s.memory.tdi.len == s.bytes
    requires s.pos + DataBytes(times, k) <= |x| && k == s.Width()
    ensures t.Valid() && t == s.Moved(t.pos, t.wire, t.error, t.memory.tdi, t.memory.captured)
    ensures t.error == NoError ==> t.pos == s.pos + DataBytes(times, k)
    decreases times
  {
    hide Masked, Scan, LsbBits, Ones, Held, ExpectationOf, IncOnce, Snapshot.Valid;
    if times == 0 || s.error != NoError then s else IncTimes(x, IncOnce(x, s, k), k, times - 1)
  }

  /** The count of repetitions, and these. */
  function IncRest(x: seq<bv8>, s: Snapshot): (t: Snapshot)
    requires s.Valid() && s.Fits() && s.memory.tdi.len == s.bytes && s.RoomForData(x)
    ensures t.Valid()
  {
    hide Held, Ones, LsbBits, IncTimes, DataBytes, AsNat;
    IncTimes(x, s.(pos := s.pos + 1), s.Width(), AsNat(x[s.pos]))
  }

  function PlayInc(x: seq<bv8>, s: Snapshot): (t: Snapshot)
    requires s.Valid() && !ParseInc(x, s.At()).Malformed?
    ensures t.Valid()
  {
    hide Held, Ones, LsbBits, Shifts, IncRest, DataBytes, PlanOf;
    var u := ShiftsValue(x, s, PlanOf(XSDRINC, s.settings), false);
    if u.error != NoError then u else IncRest(x, u)
  }

  // ----- settings and states

  function PlaySize(x: seq<bv8>, s: Snapshot): (t: Snapshot)
    requires s.Valid() && !ParseSize(x, s.At()).Malformed?
    ensures t.Valid()
  {
    var v := Signed32(Number(x[s.pos..s.pos + 4]));
    s.WithTdi(x, 4).(bits := v, bytes := NumBytes(v), error := if NumBytes(v) > MAX_LEN then DataOverflow else NoError)
  }

  function PlayMasks(x: seq<bv8>, s: Snapshot): (t: Snapshot)
    requires s.Valid() && !ParseMasks(x, s.At()).Malformed?
    ensures t.Valid()
  {
    s.WithAddressMask(x, s.bytes).WithDataMask(x, s.bytes)
  }

  /** Exactly RUNTEST and PAUSE are accepted, and each goes to its own column. */
  function PlayEnd(x: seq<bv8>, s: Snapshot, k: bv8): (t: Snapshot)
    requires s.Valid() && !ParseEnd(x, s.At()).Malformed?
    ensures t.Valid()
  {
    var e, u := x[s.pos], s.(pos := s.pos + 1);
    if e != 0 && e != 1 then u.(error := IllegalState)
    else if k == XENDIR then u.(settings := s.settings.(endIr := if e == 0 then RUNTEST else PAUSE_IR))
    else u.(settings := s.settings.(endDr := if e == 0 then RUNTEST else PAUSE_DR))
  }

  function PlayState(x: seq<bv8>, s: Snapshot): (t: Snapshot)
    requires s.Valid() && !ParseState(x, s.At()).Malformed?
    ensures t.Valid()
  {
    var target := x[s.pos] as nat;
    s.(pos := s.pos + 1, wire := Gone(s.wire, target),
       error := if target != RESET && Trapped(s.wire.dev.state, target) then IllegalState else NoError)
  }

  /** To a state unless there. */
  function Brought(w: Wire, target: nat): (v: Wire)
    requires target <= LAST_STATE
    ensures Held(w) ==> Held(v)
  {
    if Code(w.dev.state) != target then Gone(w, target) else w
  }

  /** XWAIT: to the wait state, the wait, to the end state. */
  function WaitedIn(w: Wire, wait: nat, end: nat, time: int): (v: Wire)
    requires wait <= LAST_STATE && end <= LAST_STATE && Held(w) && (StableCode(wait) || time <= 0)
    ensures Held(v)
  {
    StillHeld(Brought(w, wait), wait, time);
    Brought(Waited(Brought(w, wait), time), end)
  }

  lemma StillHeld(w: Wire, wait: nat, time: int)
    requires Held(w) && (StableCode(wait) ==> Code(w.dev.state) == wait) && (StableCode(wait) || time <= 0)
    ensures Held(Waited(w, time)) && Waited(w, time).dev.state == w.dev.state
    ensures Waited(w, time).trace == w.trace + Pulses(Stay(w.dev.state, if time > 0 then time else 0), w.tdi)
  {
    hide NextState;
    if time > 0 {
      StableIsStable(w.dev.state, wait);
      WaitedHere(w, time);
    }
  }

  lemma StableIsStable(s: TapState, code: nat)
    requires StableCode(code) && Code(s) == code
    ensures Stable(s)
  {
  }

  function PlayWait(x: seq<bv8>, s: Snapshot): (t: Snapshot)
    requires s.Valid() && !ParseWait(x, s.At()).Malformed?
    ensures t.Valid()
  {
    var time := Signed32(Number(x[s.pos + 2..s.pos + 6]));
    s.WithTdi(x, 1).WithTdi(x, 1).WithTdi(x, 4).(wire := WaitedIn(s.wire, x[s.pos] as nat, x[s.pos + 1] as nat, time))
  }

  // ----- the command table

  /** The operands of command k start at the snapshot's position. */
  function PlayOperands(x: seq<bv8>, s: Snapshot, k: bv8): (t: Snapshot)
    requires s.Valid() && !ParseOperands(x, s.At(), k).Malformed?
    ensures t.Valid()
  {
    hide Held, LsbBits, Ones, Signed32, Number, PlayIr, PlayIr2, PlayData, PlayInc, PlayOther, ParseComment;
    if k == XCOMPLETE then s.(complete := true)
    else if k == XTDOMASK then
      s.(pos := s.pos + s.bytes,
         memory := s.memory.(mask := Loaded(s.memory.mask, x[s.pos..s.pos + s.bytes])))
    else if k == XRUNTEST then
      s.WithTdi(x, 4).(settings := s.settings.(time := Signed32(Number(x[s.pos..s.pos + 4]))))
    else if k == XREPEAT then
      RepeatIsByte(x[s.pos]);
      s.(pos := s.pos + 1, settings := s.settings.(repeats := x[s.pos] as nat))
    else if k == XSIR then PlayIr(x, s)
    else if k == XSIR2 then PlayIr2(x, s)
    else if IsData(k) then PlayData(x, s, k)
    else if k == XSDRINC then PlayInc(x, s)
    else PlayOther(x, s, k)
  }

  lemma RepeatIsByte(b: bv8)
    ensures b as nat <= 255
  {
  }

  function PlayOther(x: seq<bv8>, s: Snapshot, k: bv8): (t: Snapshot)
    requires s.Valid() && !ParseOperands(x, s.At(), k).Malformed?
    ensures t.Valid()
  {
    hide Held, LsbBits, Ones, NumBytes, Signed32, Number, PlaySize, PlayMasks, PlayEnd, PlayState, PlayWait, ParseSize,
         ParseMasks, ParseEnd, ParseState, ParseWait, ParseComment;
    if k == XSDRSIZE then PlaySize(x, s)
    else if k == XSETSDRMASKS then PlayMasks(x, s)
    else if k == XENDIR || k == XENDDR then PlayEnd(x, s, k)
    else if k == XSTATE then PlayState(x, s)
    else if k == XWAIT then PlayWait(x, s)
    else if k == XCOMMENT then s.(pos := if ParseComment(x, s.At()).More? then ParseComment(x, s.At()).c.pos else s.pos)
    else s.(error := IllegalCommand)
  }

  /** One command. */
  function Play(x: seq<bv8>, s: Snapshot): (t: Snapshot)
    requires s.Valid() && s.Running() && !ParseCommand(x, s.At()).Malformed?
    ensures t.Valid()
  {
    hide Held, LsbBits, Ones, PlayOperands, ParseOperands;
    PlayOperands(x, s.(pos := s.pos + 1), x[s.pos])
  }

  // ----- whole streams

  /** The layout was right: what was played has consumed exactly the operands, or ended the run. */
  ghost predicate Follows(p: Parse, t: Snapshot) {
    && (p.Stop? ==> !t.Running())
    && (p.More? && t.Running() ==> t.At() == p.c)
    && (t.complete ==> p.Stop? && t.error == NoError)
  }

  lemma DataFollows(x: seq<bv8>, s: Snapshot, k: bv8)
    requires s.Valid() && s.Running() && IsData(k)
    requires !ParseValues(x, s.At(), BringsExpected(k)).Malformed?
    ensures Follows(ParseValues(x, s.At(), BringsExpected(k)), PlayData(x, s, k))
  {
    hide Shifts, PlanOf, Held, Ones, LsbBits;
  }

  lemma IrFollows(x: seq<bv8>, s: Snapshot)
    requires s.Valid() && s.Running()
    ensures !ParseIr(x, s.At()).Malformed? ==> Follows(ParseIr(x, s.At()), PlayIr(x, s))
    ensures !ParseIr2(x, s.At()).Malformed? ==> Follows(ParseIr2(x, s.At()), PlayIr2(x, s))
  {
    hide Shifts, PlanOf, Held, Ones, LsbBits, Number;
  }

  lemma IncFollows(x: seq<bv8>, s: Snapshot)
    requires s.Valid() && s.Running() && !ParseInc(x, s.At()).Malformed?
    ensures Follows(ParseInc(x, s.At()), PlayInc(x, s))
  {
    hide Shifts, PlanOf, Held, Ones, LsbBits, Number, IncTimes, DataBytes;
  }

  lemma OtherFollows(x: seq<bv8>, s: Snapshot, k: bv8)
    requires s.Valid() && s.Running() && !ParseOperands(x, s.At(), k).Malformed?
    requires !IsData(k) && k != XSIR && k != XSIR2 && k != XSDRINC
    ensures Follows(ParseOperands(x, s.At(), k), PlayOperands(x, s, k))
  {
    hide Held, NumBytes, Ones, LsbBits, Number, Signed32, Gone, WaitedIn, Trapped, ParseComment;
    if k == XCOMMENT {
      CommentKeeps(x, s.At());
    }
  }

  /** A comment moves the cursor on, and nothing else. */
  lemma {:induction false} CommentKeeps(x: seq<bv8>, c: Cursor)
    ensures var p := ParseComment(x, c); p.More? ==> p.c == c.(pos := p.c.pos)
    decreases |x| - c.pos
  {
    if c.pos < |x| && x[c.pos] != 0 {
      CommentKeeps(x, c.Skip(1));
    }
  }

  lemma PlayFollows(x: seq<bv8>, s: Snapshot)
    requires s.Valid() && s.Running() && !ParseCommand(x, s.At()).Malformed?
    ensures Follows(ParseCommand(x, s.At()), Play(x, s))
  {
    hide Held, Ones, LsbBits, PlayData, PlayIr, PlayIr2, PlayInc, PlayOther, ParseValues, ParseIr, ParseIr2,
         ParseInc, ParseMask, ParseMasks, ParseSize, ParseState, ParseEnd, ParseComment, ParseWait, ParseSkip, Follows;
    var k, u := x[s.pos], s.(pos := s.pos + 1);
    if IsData(k) {
      DataFollows(x, u, k);
    } else if k == XSIR || k == XSIR2 {
      IrFollows(x, u);
    } else if k == XSDRINC {
      IncFollows(x, u);
    } else {
      OtherFollows(x, u, k);
    }
  }

  /** One call of the player: a command, or nothing after completion or an error. */
  function Next(x: seq<bv8>, s: Snapshot): Snapshot {
    if s.Playable(x) then Play(x, s) else s
  }

  /** Commands up to the last, or up to the first error. */
  function PlayAll(x: seq<bv8>, s: Snapshot): (t: Snapshot)
    requires s.Sound(x)
    ensures t.Valid() && !t.Running() && (t.complete <==> t.error == NoError)
    decreases if s.Running() then |x| - s.pos + 1 else 0
  {
    hide Held, Ones, LsbBits, Play, ParseOperands;
    if !s.Running() then s
    else
      PlayFollows(x, s);
      PlayAll(x, Next(x, s))
  }

  /** A run plays in the order of the stream: playing on after one command is playing the rest. */
  lemma PlaysOn(x: seq<bv8>, s: Snapshot)
    requires s.Sound(x)
    ensures Next(x, s).Sound(x) && PlayAll(x, Next(x, s)) == PlayAll(x, s)
    ensures s.Running() ==> s.Playable(x) && s.pos < |x| && (Next(x, s).Running() ==> s.pos < Next(x, s).pos <= |x|)
  {
    hide Held, Ones, LsbBits, Play, ParseOperands;
    if s.Running() {
      PlayFollows(x, s);
    }
  }

  /** Before the first command: the initial settings, and Test-Logic-Reset. */
  function Initial(pos: nat, wire: Wire, memory: Memory): (s: Snapshot)
    requires wire.dev.reg != []
    ensures s.Valid() && s.Running() && s.wire.dev.state == Reset
  {
    IsReset(wire);
    Snapshot(pos, 0, 0, Settings(RUNTEST, RUNTEST, 0, 0), memory, Gone(wire, RESET), NoError, false)
  }

  lemma IsReset(w: Wire)
    requires w.dev.reg != []
    ensures Gone(w, RESET).dev.state == Reset && Held(Gone(w, RESET))
  {
    ResetSequenceResets(w);
  }
}
