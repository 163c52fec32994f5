// The XSVF player (common/xapp058/micro.c): commands from a byte stream, the
// shadow of the TAP state, and execution up to completion or the first error.
// Every command is proved to do what XsvfTable says.

module Xsvf {
  import opened Bytes
  import opened Lenval
  import opened Tap
  import opened XsvfTap
  import opened XsvfShift
  import opened XsvfScan
  import opened XsvfMask
  import opened XsvfStream
  import opened XsvfTable

  class Player {
    const port: Port
    const input: Input

    var complete: bool
    var command: bv8
    var commandCount: nat
    var errorCode: Error

    var tapState: TapState
    var endIr: nat
    var endDr: nat

    var maxRepeat: nat
    var runTestTime: int

    var shiftLengthBits: int
    var shiftLengthBytes: int

    const tdi: LenVal
    const tdoExpected: LenVal
    const tdoCaptured: LenVal
    const tdoMask: LenVal
    const addressMask: LenVal
    const dataMask: LenVal
    const nextData: LenVal

    /** The buffers do not overlap. */
    ghost predicate Laid() {
      && tdi !in {tdoExpected, tdoCaptured, tdoMask, addressMask, dataMask, nextData}
      && tdoExpected !in {tdoCaptured, tdoMask, addressMask, dataMask, nextData}
      && tdoCaptured !in {tdoMask, addressMask, dataMask, nextData}
      && tdoMask !in {addressMask, dataMask, nextData}
      && addressMask !in {dataMask, nextData}
      && dataMask !in {nextData}
      && tdi.val !in {tdoExpected.val, tdoCaptured.val, tdoMask.val, addressMask.val, dataMask.val, nextData.val}
      && tdoExpected.val !in {tdoCaptured.val, tdoMask.val, addressMask.val, dataMask.val, nextData.val}
      && tdoCaptured.val !in {tdoMask.val, addressMask.val, dataMask.val, nextData.val}
      && tdoMask.val !in {addressMask.val, dataMask.val, nextData.val}
      && addressMask.val !in {dataMask.val, nextData.val}
      && dataMask.val !in {nextData.val}
    }

    ghost predicate Buffered()
      reads tdi, tdoExpected, tdoCaptured, tdoMask, addressMask, dataMask, nextData
    {
      && tdi.Valid() && tdoExpected.Valid() && tdoCaptured.Valid() && tdoMask.Valid()
      && addressMask.Valid() && dataMask.Valid() && nextData.Valid()
    }

    ghost function Repr(): set<object> {
      {this, port, input, tdi, tdoExpected, tdoCaptured, tdoMask, addressMask, dataMask, nextData, tdi.val,
       tdoExpected.val, tdoCaptured.val, tdoMask.val, addressMask.val, dataMask.val, nextData.val}
    }

    ghost function Values(): Memory
      requires Buffered()
      reads tdi, tdoExpected, tdoCaptured, tdoMask, addressMask, dataMask, nextData
      reads tdi.val, tdoExpected.val, tdoCaptured.val, tdoMask.val, addressMask.val, dataMask.val
    {
      Memory(tdi.Stored(), tdoCaptured.Stored(), tdoExpected.Stored(), tdoMask.Stored(), addressMask.Stored(),
             dataMask.Stored())
    }

    /** All that the commands work on. */
    ghost function Snap(): Snapshot
      requires Buffered()
      reads this, port, input, tdi, tdoExpected, tdoCaptured, tdoMask, addressMask, dataMask, nextData
      reads tdi.val, tdoExpected.val, tdoCaptured.val, tdoMask.val, addressMask.val, dataMask.val
    {
      Snapshot(input.pos, shiftLengthBits, shiftLengthBytes, Settings(endIr, endDr, maxRepeat, runTestTime), Values(),
               port.Wires(), errorCode, complete)
    }

    /** Above all: the shadow is the state of the TAP. */
    ghost predicate Valid()
      reads Repr()
    {
      Laid() && Buffered() && input.Valid() && Ready(port, tapState) && Snap().Valid()
    }

    ghost predicate Running()
      reads Repr()
    {
      Valid() && Snap().Running()
    }

    constructor (port: Port, input: Input)
      requires port.Valid() && port.dev.reg != [] && input.Valid()
      ensures Laid() && Buffered() && fresh({tdi, tdoExpected, tdoCaptured, tdoMask, addressMask, dataMask, nextData})
      ensures fresh({tdi.val, tdoExpected.val, tdoCaptured.val, tdoMask.val, addressMask.val, dataMask.val,
                     nextData.val})
      ensures this.port == port && this.input == input && dataMask.len == 0
    {
      this.port, this.input := port, input;
      tdi := new LenVal();
      tdoExpected := new LenVal();
      tdoCaptured := new LenVal();
      tdoMask := new LenVal();
      addressMask := new LenVal();
      dataMask := new LenVal();
      nextData := new LenVal();
    }

    method InfoInit()
      modifies this
      ensures tapState == Reset && endIr == RUNTEST && endDr == RUNTEST && maxRepeat == 0 && runTestTime == 0
      ensures errorCode == NoError && !complete && shiftLengthBits == 0 && shiftLengthBytes == 0
    {
      complete, command, commandCount, errorCode := false, XCOMPLETE, 0, NoError;
      maxRepeat, tapState, endIr, endDr := 0, Reset, RUNTEST, RUNTEST;
      shiftLengthBits, shiftLengthBytes, runTestTime := 0, 0, 0;
    }

    /** Initializes the settings and resets the TAP, whatever state it is in. */
    method Initialize()
      requires Laid() && Buffered() && port.Valid() && port.dev.reg != [] && input.Valid()
      modifies this, port
      ensures Running() && Snap() == Initial(input.pos, old(port.Wires()), old(Values()))
      ensures endIr == endDr == Code(Idle) && maxRepeat == 0 && runTestTime == 0 && shiftLengthBits == 0
    {
      hide Gone, Held;
      IsReset(port.Wires());
      InfoInit();
      tapState, errorCode := GotoTapState(port, tapState, RESET);
    }

    // ----- settings

    method DoXcomplete()
      requires Running()
      modifies this`complete
      ensures Valid() && Snap() == old(Snap()).(complete := true)
    {
      complete := true;
    }

    method DoIllegalCmd()
      requires Running()
      modifies this`errorCode
      ensures Valid() && Snap() == old(Snap()).(error := IllegalCommand)
    {
      errorCode := IllegalCommand;
    }

    method DoXtdomask()
      requires Running() && !ParseOperands(input.bytes, Snap().At(), XTDOMASK).Malformed?
      modifies input, tdoMask, tdoMask.val
      ensures Valid() && Snap() == PlayOperands(input.bytes, old(Snap()), XTDOMASK)
    {
      hide Ones, LsbBits, Held;
      ReadVal(input, tdoMask, shiftLengthBytes);
    }

    /** The next bytes, as the TDI value. */
    method ReadTdi(numBytes: nat)
      requires Running() && input.pos + numBytes <= |input.bytes| && numBytes <= MAX_LEN
      modifies input, tdi, tdi.val
      ensures Running() && Snap() == old(Snap()).WithTdi(input.bytes, numBytes)
    {
      hide Held;
      ReadVal(input, tdi, numBytes);
    }

    method ReadByte() returns (b: bv8)
      requires Running() && input.pos < |input.bytes|
      modifies input
      ensures Running() && Snap() == old(Snap()).(pos := old(input.pos) + 1) && b == input.bytes[old(input.pos)]
    {
      hide Held;
      b := input.ReadByte();
    }

    /** A four-byte number, through the TDI buffer. */
    method ReadLong() returns (v: int)
      requires Running() && input.pos + 4 <= |input.bytes|
      modifies input, tdi, tdi.val
      ensures Running() && Snap() == old(Snap()).WithTdi(input.bytes, 4)
      ensures v == Signed32(Number(input.bytes[old(input.pos)..old(input.pos) + 4]))
    {
      hide Held, Number, Loaded;
      ReadTdi(4);
      assert tdi.Contents() == tdi.Stored().Contents();
      v := tdi.Value();
    }

    method DoXruntest()
      requires Running() && !ParseOperands(input.bytes, Snap().At(), XRUNTEST).Malformed?
      modifies this`runTestTime, input, tdi, tdi.val
      ensures Valid() && Snap() == PlayOperands(input.bytes, old(Snap()), XRUNTEST)
    {
      hide Laid, Ready, Values, Buffered, Held, LsbBits, Ones, Number, Loaded;
      runTestTime := ReadLong();
    }

    method DoXrepeat()
      requires Running() && !ParseOperands(input.bytes, Snap().At(), XREPEAT).Malformed?
      modifies this`maxRepeat, input
      ensures Valid() && Snap() == PlayOperands(input.bytes, old(Snap()), XREPEAT)
    {
      hide Laid, Ready, Values, Buffered, Held, LsbBits, Ones;
      var b := ReadByte();
      maxRepeat := b as nat;
    }

    /** A length whose number of bytes, as a short, is beyond the buffers stops the player. */
    method DoXsdrsize()
      requires Running() && !ParseSize(input.bytes, Snap().At()).Malformed?
      modifies this`shiftLengthBits, this`shiftLengthBytes, this`errorCode, input, tdi, tdi.val
      ensures Valid() && Snap() == PlaySize(input.bytes, old(Snap()))
    {
      hide Laid, Ready, Values, Buffered, Held, LsbBits, Ones, Number, Signed32, NumBytes, Loaded;
      var v := ReadLong();
      SetSize(v);
      if shiftLengthBytes > MAX_LEN {
        errorCode := DataOverflow;
      }
    }

    method SetSize(v: int)
      requires Running()
      modifies this`shiftLengthBits, this`shiftLengthBytes
      ensures Running() && Snap() == old(Snap()).(bits := v, bytes := NumBytes(v))
    {
      hide Laid, Ready, Values, Buffered, Held, NumBytes;
      shiftLengthBits := v;
      shiftLengthBytes := NumBytes(v);
    }

    method DoXsetsdrmasks()
      requires Running() && !ParseMasks(input.bytes, Snap().At()).Malformed?
      modifies input, addressMask, addressMask.val, dataMask, dataMask.val
      ensures Valid() && Snap() == PlayMasks(input.bytes, old(Snap()))
    {
      hide Laid, Ready, Values, Buffered, Held, LsbBits, Ones, Loaded;
      ReadAddressMask(shiftLengthBytes);
      ReadDataMask(shiftLengthBytes);
    }

    method ReadAddressMask(numBytes: nat)
      requires Running() && input.pos + numBytes <= |input.bytes| && numBytes <= MAX_LEN
      modifies input, addressMask, addressMask.val
      ensures Running() && Snap() == old(Snap()).WithAddressMask(input.bytes, numBytes)
    {
      hide Held;
      ReadVal(input, addressMask, numBytes);
    }

    method ReadDataMask(numBytes: nat)
      requires Running() && input.pos + numBytes <= |input.bytes| && numBytes <= MAX_LEN
      modifies input, dataMask, dataMask.val
      ensures Running() && Snap() == old(Snap()).WithDataMask(input.bytes, numBytes)
    {
      hide Held;
      ReadVal(input, dataMask, numBytes);
    }

    method DoXendxr()
      requires Running() && !ParseEnd(input.bytes, Snap().At()).Malformed? && (command == XENDIR || command == XENDDR)
      modifies this`endIr, this`endDr, this`errorCode, input
      ensures Valid() && Snap() == PlayEnd(input.bytes, old(Snap()), command)
    {
      hide Laid, Ready, Values, Buffered, Held, LsbBits, Ones;
      var endState := ReadByte();
      if endState != 0 && endState != 1 {
        errorCode := IllegalState;
      } else if command == XENDIR {
        endIr := if endState == 0 then RUNTEST else PAUSE_IR;
      } else {
        endDr := if endState == 0 then RUNTEST else PAUSE_DR;
      }
    }

    /** Skips the text up to and including its terminator. */
    method DoXcomment()
      requires Running() && !ParseComment(input.bytes, Snap().At()).Malformed?
      modifies this`errorCode, input
      ensures Valid() && Snap() == PlayOther(input.bytes, old(Snap()), XCOMMENT)
    {
      hide Ones, LsbBits, Held;
      ghost var s := Snap();
      var text := input.ReadByte();
      while text != 0
        invariant input.Valid() && s.pos < input.pos
        invariant ParseText(s.At().(pos := input.pos), text) == ParseComment(input.bytes, s.At())
        invariant !ParseText(s.At().(pos := input.pos), text).Malformed?
        decreases |input.bytes| - input.pos
      {
        text := input.ReadByte();
      }
      errorCode := NoError;
    }

    /** The rest of a comment when a text byte has been read. */
    ghost function ParseText(c: Cursor, text: bv8): Parse {
      if text == 0 then More(c) else ParseComment(input.bytes, c)
    }

    // ----- states

    method DoXstate()
      requires Running() && !ParseState(input.bytes, Snap().At()).Malformed?
      modifies this`tapState, this`errorCode, input, port
      ensures Valid() && Snap() == PlayState(input.bytes, old(Snap()))
    {
      hide Laid, Ready, Values, Buffered, Held, LsbBits, Ones, Gone, Trapped;
      var nextState := ReadByte();
      var error := Goto(nextState as nat);
      if error != NoError {
        errorCode := error;
      }
    }

    /** Goes to a state and updates the shadow. */
    method Goto(target: nat) returns (error: Error)
      requires Running() && target <= LAST_STATE
      modifies this`tapState, port
      ensures Running() && Snap() == old(Snap()).(wire := Gone(old(Snap()).wire, target))
      ensures error == if target != RESET && Trapped(old(Snap()).wire.dev.state, target) then IllegalState else NoError
    {
      hide Laid, Values, Buffered, Held, Gone, Trapped;
      tapState, error := GotoTapState(port, tapState, target);
    }

    /** A one-byte operand, through the TDI buffer. */
    method ReadTdiByte() returns (b: bv8)
      requires Running() && input.pos < |input.bytes|
      modifies input, tdi, tdi.val
      ensures Running() && Snap() == old(Snap()).WithTdi(input.bytes, 1) && b == input.bytes[old(input.pos)]
    {
      hide Held;
      ReadTdi(1);
      b := tdi.val[0];
      assert tdi.Stored().Contents()[0] == b;
    }

    /** The operands of XWAIT. */
    method ReadWait() returns (waitState: bv8, endState: bv8, time: int)
      requires Running() && input.pos + 6 <= |input.bytes|
      modifies input, tdi, tdi.val
      ensures Running()
      ensures Snap() == old(Snap()).WithTdi(input.bytes, 1).WithTdi(input.bytes, 1).WithTdi(input.bytes, 4)
      ensures waitState == input.bytes[old(input.pos)] && endState == input.bytes[old(input.pos) + 1]
      ensures time == Signed32(Number(input.bytes[old(input.pos) + 2..old(input.pos) + 6]))
    {
      hide Laid, Ready, Values, Buffered, Held, Number, Loaded;
      waitState := ReadTdiByte();
      endState := ReadTdiByte();
      time := ReadLong();
    }

    /** Goes to the wait state unless there, waits, and goes to the end state unless there. */
    method DoXwait()
      requires Running() && !ParseWait(input.bytes, Snap().At()).Malformed?
      modifies this`tapState, input, port, tdi, tdi.val
      ensures Valid() && Snap() == PlayWait(input.bytes, old(Snap()))
    {
      hide Laid, Ready, Values, Buffered, Held, LsbBits, Ones, Number, WaitedIn, StableCode, Loaded, Signed32;
      var waitState, endState, time := ReadWait();
      Wait(waitState as nat, endState as nat, time);
    }

    method Wait(wait: nat, end: nat, time: int)
      requires Running() && wait <= LAST_STATE && end <= LAST_STATE && (StableCode(wait) || time <= 0)
      modifies this`tapState, port
      ensures Running() && Snap() == old(Snap()).(wire := WaitedIn(old(Snap()).wire, wait, end, time))
    {
      hide Laid, Values, Buffered, Held, WaitedIn, StableCode;
      tapState := WaitIn(port, tapState, wait, end, time);
    }

    // ----- shifts

    /** Buffers of this player's: TDI, and the captured and expected buffers, the mask, or nothing. */
    ghost predicate Mine(b: Buffers) {
      && b.tdi == tdi && (b.captured == null || b.captured == tdoCaptured)
      && b.expected == (if b.captured == null then null else tdoExpected)
      && (b.mask == null || b.mask == tdoMask)
    }

    ghost function PlanWith(start: nat, end: nat, b: Buffers, time: int, repeats: nat): Plan {
      Plan(start, end, time, repeats, b.captured != null, b.mask != null)
    }

    lemma SameJob(start: nat, end: nat, numBits: nat, b: Buffers, p: Plan)
      requires Laid() && Buffered() && Mine(b) && p.Valid() && tdi.len == AsBytes(numBits)
      requires p == PlanWith(start, end, b, p.time, p.repeats)
      ensures b.Valid() && b.Work(start, end, numBits) == JobOf(Values(), p, numBits)
    {
      hide ShiftBits;
    }

    /** One shift on the player's buffers and wires. */
    method ShiftValue(start: nat, end: nat, numBits: nat, b: Buffers, time: int, repeats: nat) returns (error: Error)
      requires Laid() && Buffered() && Ready(port, tapState) && Mine(b)
      requires PlanWith(start, end, b, time, repeats).Valid() && tdi.len == AsBytes(numBits)
      modifies this`tapState, port, Frame(b.captured)
      ensures Buffered() && Ready(port, tapState)
      ensures var p := PlanWith(start, end, b, time, repeats);
              var r := Scan(JobOf(old(Values()), p, numBits), old(port.Wires()), old(Values()).captured, time, repeats);
              && port.Wires() == r.outcome.w && error == r.error
              && Values() == old(Values()).(captured := if p.compared then r.outcome.captured
                                                        else old(Values()).captured)
    {
      hide Held, ShiftBits, Scan, JobOf, Buffers.Work, MaskBytes;
      ghost var p, before := PlanWith(start, end, b, time, repeats), tdoCaptured.Stored();
      SameJob(start, end, numBits, b, p);
      ghost var scanned;
      tapState, error, scanned := Shift(port, tapState, start, end, numBits, b, time, repeats, before);
    }

    /** One shift from the player's state. */
    method RunShift(start: nat, end: nat, numBits: nat, b: Buffers, time: int, repeats: nat)
      returns (error: Error)
      requires Running() && Mine(b) && PlanWith(start, end, b, time, repeats).Valid()
      requires Snap().memory.tdi.len == AsBytes(numBits)
      modifies this`tapState, port, Frame(b.captured)
      ensures Running()
      ensures Snap().(error := error) == Shifts(old(Snap()), PlanWith(start, end, b, time, repeats), numBits)
    {
      hide Held, Scan, JobOf, Laid, AsBytes;
      error := ShiftValue(start, end, numBits, b, time, repeats);
    }

    /** The instruction shift of XSIR and XSIR2, the length being known. */
    method ShiftInstruction(numBits: nat) returns (error: Error)
      requires Running() && AsBytes(numBits) <= MAX_LEN && input.pos + AsBytes(numBits) <= |input.bytes|
      modifies this`tapState, input, port, tdi, tdi.val
      ensures Running()
      ensures Snap().(error := error)
              == Shifts(old(Snap()).WithTdi(input.bytes, AsBytes(numBits)), PlanOf(XSIR, old(Snap()).settings), numBits)
    {
      hide Laid, Ready, Values, Buffered, Held, LsbBits, Ones, Shifts;
      ReadTdi(AsBytes(numBits));
      error := RunShift(SHIFT_IR, endIr, numBits, Buffers(tdi, null, null, null), runTestTime, 0);
    }

    method DoXsir()
      requires Running() && !ParseIr(input.bytes, Snap().At()).Malformed?
      modifies this`tapState, this`errorCode, input, port, tdi, tdi.val
      ensures Valid() && Snap() == PlayIr(input.bytes, old(Snap()))
    {
      hide Laid, Ready, Values, Buffered, Held, LsbBits, Ones, Shifts, PlanOf, AsNat, Loaded, Number;
      var shiftIrBits := ReadByte();
      var error := ShiftInstruction(AsNat(shiftIrBits));
      if error != NoError {
        errorCode := error;
      }
    }

    /** A two-byte length, through the TDI buffer. */
    method ReadLength() returns (bits: nat)
      requires Running() && input.pos + 2 <= |input.bytes|
      modifies input, tdi, tdi.val
      ensures Running() && Snap() == old(Snap()).WithTdi(input.bytes, 2)
      ensures bits == Number(input.bytes[old(input.pos)..old(input.pos) + 2])
    {
      hide Held, Number, Loaded;
      ReadTdi(2);
      assert tdi.Contents() == tdi.Stored().Contents();
      TwoBytes(tdi.Contents());
      bits := tdi.Value();
    }

    /** As XSIR, with a two-byte length that may be too long. */
    method DoXsir2()
      requires Running() && !ParseIr2(input.bytes, Snap().At()).Malformed?
      modifies this`tapState, this`errorCode, input, port, tdi, tdi.val
      ensures Valid() && Snap() == PlayIr2(input.bytes, old(Snap()))
    {
      hide Laid, Ready, Values, Buffered, Held, LsbBits, Ones, Shifts, Number, Loaded, PlanOf;
      var shiftIrBits := ReadLength();
      if AsBytes(shiftIrBits) > MAX_LEN {
        errorCode := DataOverflow;
      } else {
        SamePlan();
        var error := ShiftInstruction(shiftIrBits);
        if error != NoError {
          errorCode := error;
        }
      }
    }

    lemma SamePlan()
      ensures forall s: Settings :: s.Valid() ==> PlanOf(XSIR, s) == PlanOf(XSIR2, s)
    {
    }

    /** The last expected value is kept and compared again. */
    method DoXsdr()
      requires Running() && !ParseValues(input.bytes, Snap().At(), false).Malformed?
      modifies this`tapState, this`errorCode, input, port, tdi, tdi.val, tdoCaptured, tdoCaptured.val
      ensures Valid() && Snap() == PlayData(input.bytes, old(Snap()), XSDR)
    {
      hide Laid, Ready, Values, Buffered, Held, LsbBits, Ones, Shifts, Loaded;
      ReadTdi(shiftLengthBytes);
      errorCode := RunShift(SHIFT_DR, endDr, shiftLengthBits, Buffers(tdi, tdoCaptured, tdoExpected, tdoMask),
                            runTestTime, maxRepeat);
    }

    /** The TDI value, and the expected value if there is one. */
    method ReadOperands(b: Buffers)
      requires Running() && Mine(b) && !ParseValues(input.bytes, Snap().At(), b.captured != null).Malformed?
      modifies input, tdi, tdi.val, Frame(b.expected)
      ensures Running() && Snap() == WithOperands(input.bytes, old(Snap()), b.captured != null)
    {
      hide Laid, Ready, Values, Buffered, Held, LsbBits, Ones, Loaded;
      ReadTdi(shiftLengthBytes);
      if b.expected != null {
        ReadExpected(shiftLengthBytes);
      }
    }

    /** The common part of the XSDR commands that bring their own values. */
    method BasicXsdrtdo(b: Buffers, end: nat, time: int, repeats: nat) returns (error: Error)
      requires Running() && Mine(b) && PlanWith(SHIFT_DR, end, b, time, repeats).Valid()
      requires !ParseValues(input.bytes, Snap().At(), b.captured != null).Malformed?
      modifies this`tapState, input, port, tdi, tdi.val, Frame(b.captured), Frame(b.expected)
      ensures Running()
      ensures Snap().(error := error)
              == ShiftsValue(input.bytes, old(Snap()), PlanWith(SHIFT_DR, end, b, time, repeats), b.captured != null)
    {
      hide Laid, Ready, Values, Buffered, Held, LsbBits, Ones, Shifts, WithOperands, ParseValues;
      ReadOperands(b);
      error := RunShift(SHIFT_DR, end, shiftLengthBits, b, time, repeats);
    }

    method ReadExpected(numBytes: nat)
      requires Running() && input.pos + numBytes <= |input.bytes| && numBytes <= MAX_LEN
      modifies input, tdoExpected, tdoExpected.val
      ensures Running() && Snap() == old(Snap()).WithExpected(input.bytes, numBytes)
    {
      hide Held;
      ReadVal(input, tdoExpected, numBytes);
    }

    method DoXsdrtdo()
      requires Running() && !ParseValues(input.bytes, Snap().At(), true).Malformed?
      modifies this`tapState, this`errorCode, input, port, tdi, tdi.val, tdoCaptured, tdoCaptured.val
      modifies tdoExpected, tdoExpected.val
      ensures Valid() && Snap() == PlayData(input.bytes, old(Snap()), XSDRTDO)
    {
      hide Laid, Ready, Values, Buffered, Held, LsbBits, Ones, ShiftsValue, ParseValues;
      var error := BasicXsdrtdo(Buffers(tdi, tdoCaptured, tdoExpected, tdoMask), endDr, runTestTime, maxRepeat);
      errorCode := error;
    }

    /** XSDRB, XSDRC and XSDRE: no comparison; only XSDRE leaves Shift-DR. */
    method DoXsdrbce()
      requires Running() && IsUncompared(command)
      requires !ParseValues(input.bytes, Snap().At(), BringsExpected(command)).Malformed?
      modifies this`tapState, this`errorCode, input, port, tdi, tdi.val
      ensures Valid() && Snap() == PlayData(input.bytes, old(Snap()), command)
    {
      hide Laid, Ready, Values, Buffered, Held, LsbBits, Ones, ShiftsValue, ParseValues;
      var end := if command == XSDRE then endDr else SHIFT_DR;
      var error := BasicXsdrtdo(Buffers(tdi, null, null, null), end, 0, 0);
      errorCode := error;
    }

    /** XSDRTDOB, XSDRTDOC and XSDRTDOE: compared without the mask; only XSDRTDOE leaves Shift-DR. */
    method DoXsdrtdobce()
      requires Running() && IsUnmasked(command)
      requires !ParseValues(input.bytes, Snap().At(), BringsExpected(command)).Malformed?
      modifies this`tapState, this`errorCode, input, port, tdi, tdi.val, tdoCaptured, tdoCaptured.val
      modifies tdoExpected, tdoExpected.val
      ensures Valid() && Snap() == PlayData(input.bytes, old(Snap()), command)
    {
      hide Laid, Ready, Values, Buffered, Held, LsbBits, Ones, ShiftsValue, ParseValues;
      var end := if command == XSDRTDOE then endDr else SHIFT_DR;
      var error := BasicXsdrtdo(Buffers(tdi, tdoCaptured, tdoExpected, null), end, 0, 0);
      errorCode := error;
    }

    // ----- XSDRINC

    /** Reads the next data and increments the TDI value. */
    method NextValue(dataBits: nat)
      requires Running() && AsBytes(dataBits) == Snap().Width() && Snap().memory.data.len <= 255
      requires input.pos + AsBytes(dataBits) <= |input.bytes|
      modifies input, tdi, tdi.val, nextData, nextData.val
      ensures Running() && Snap() == Incremented(input.bytes, old(Snap()), AsBytes(dataBits))
    {
      hide LsbBits, Deposited, Sum, Held;
      ReadVal(input, nextData, AsBytes(dataBits));
      ghost var left := DoSdrMasking(tdi, nextData, addressMask, dataMask);
    }

    /** One repetition: the next data, the masked increment, the shift. */
    method IncOne(dataBits: nat)
      requires Running() && Snap().Fits() && Snap().memory.tdi.len == shiftLengthBytes && Snap().memory.data.len <= 255
      requires AsBytes(dataBits) == Snap().Width() && input.pos + AsBytes(dataBits) <= |input.bytes|
      modifies this`tapState, this`errorCode, input, port, tdi, tdi.val, nextData, nextData.val
      modifies tdoCaptured, tdoCaptured.val
      ensures Valid() && Snap() == IncOnce(input.bytes, old(Snap()), AsBytes(dataBits))
    {
      hide Laid, Ready, Values, Buffered, Held, LsbBits, Ones, Incremented, Shifts;
      NextValue(dataBits);
      errorCode := RunShift(SHIFT_DR, endDr, shiftLengthBits, Buffers(tdi, tdoCaptured, tdoExpected, tdoMask),
                            runTestTime, maxRepeat);
    }

    /** The repetitions of XSDRINC, up to the first error. */
    method IncMany(dataBits: nat, numTimes: nat)
      requires Running() && Snap().Fits() && Snap().memory.tdi.len == shiftLengthBytes && Snap().memory.data.len <= 255
      requires AsBytes(dataBits) == Snap().Width()
      requires input.pos + DataBytes(numTimes, AsBytes(dataBits)) <= |input.bytes|
      modifies this`tapState, this`errorCode, input, port, tdi, tdi.val, nextData, nextData.val
      modifies tdoCaptured, tdoCaptured.val
      ensures Valid() && Snap() == IncTimes(input.bytes, old(Snap()), AsBytes(dataBits), numTimes)
    {
      hide Laid, Ready, Values, Buffered, Held, LsbBits, Ones, IncOnce;
      ghost var s, k := Snap(), AsBytes(dataBits);
      var i := 0;
      while i < numTimes && errorCode == NoError
        invariant 0 <= i <= numTimes && Valid() && !complete && Snap().Fits()
        invariant Snap().memory.tdi.len == shiftLengthBytes && Snap().memory.data.len <= 255 && k == Snap().Width()
        invariant input.pos + DataBytes(numTimes - i, k) <= |input.bytes|
        invariant IncTimes(input.bytes, Snap(), k, numTimes - i) == IncTimes(input.bytes, s, k, numTimes)
      {
        IncOne(dataBits);
        i := i + 1;
      }
    }

    /** XSDRINC after its first shift. */
    method PlayRest()
      requires Running() && Snap().Fits() && Snap().memory.tdi.len == shiftLengthBytes && Snap().memory.data.len <= 255
      requires Snap().RoomForData(input.bytes)
      modifies this`tapState, this`errorCode, input, port, tdi, tdi.val, nextData, nextData.val
      modifies tdoCaptured, tdoCaptured.val
      ensures Valid() && Snap() == IncRest(input.bytes, old(Snap()))
    {
      hide Laid, Ready, Values, Buffered, Held, LsbBits, Ones, IncTimes, DataBytes, AsNat;
      var dataMaskLen, numTimes := ReadTimes();
      IncMany(dataMaskLen, numTimes);
    }

    /** The population count of the data mask, and the number of repetitions. */
    method ReadTimes() returns (dataMaskLen: nat, numTimes: nat)
      requires Running() && Snap().memory.data.len <= 255 && input.pos < |input.bytes|
      modifies input
      ensures Running() && Snap() == old(Snap()).(pos := old(input.pos) + 1)
      ensures AsBytes(dataMaskLen) == Snap().Width() && numTimes == AsNat(input.bytes[old(input.pos)])
    {
      hide Ready, Held, LsbBits, Ones, AsNat;
      WidthIs();
      dataMaskLen := CountOnes(dataMask);
      var b := input.ReadByte();
      numTimes := AsNat(b);
    }

    lemma WidthIs()
      requires Buffered()
      ensures Snap().Width() == AsBytes(Ones(LsbBits(dataMask.Contents())))
    {
      assert dataMask.Stored().Contents() == dataMask.Contents();
    }

    /** The first value is shifted as XSDR does; if it agrees, the repetitions follow. */
    method DoXsdrinc()
      requires Running() && !ParseInc(input.bytes, Snap().At()).Malformed?
      modifies this`tapState, this`errorCode, input, port, tdi, tdi.val, nextData, nextData.val
      modifies tdoCaptured, tdoCaptured.val
      ensures Valid() && Snap() == PlayInc(input.bytes, old(Snap()))
    {
      hide Laid, Ready, Values, Buffered, Held, LsbBits, Ones, Shifts, IncRest, DataBytes, AsNat, Loaded;
      ReadTdi(shiftLengthBytes);
      errorCode := RunShift(SHIFT_DR, endDr, shiftLengthBits, Buffers(tdi, tdoCaptured, tdoExpected, tdoMask),
                            runTestTime, maxRepeat);
      if errorCode == NoError {
        PlayRest();
      }
    }

    // ----- the command table

    method PlayOne()
      requires Running() && !ParseOperands(input.bytes, Snap().At(), command).Malformed?
      modifies Repr()
      ensures Valid() && Snap() == PlayOperands(input.bytes, old(Snap()), old(command))
      ensures command == old(command) && commandCount == old(commandCount)
    {
      hide Laid, Ready, Values, Buffered, Held, LsbBits, Ones, Number, Signed32, ParseComment,
           PlayData, PlayIr, PlayIr2, PlayInc, PlayOther, ParseValues;
      if command == XCOMPLETE {
        DoXcomplete();
      } else if command == XTDOMASK {
        DoXtdomask();
      } else if command == XRUNTEST {
        DoXruntest();
      } else if command == XREPEAT {
        DoXrepeat();
      } else if command == XSIR {
        DoXsir();
      } else if command == XSIR2 {
        DoXsir2();
      } else if IsData(command) {
        PlayValue();
      } else if command == XSDRINC {
        DoXsdrinc();
      } else {
        PlayAnother();
      }
    }

    method PlayValue()
      requires Running() && IsData(command)
      requires !ParseValues(input.bytes, Snap().At(), BringsExpected(command)).Malformed?
      modifies Repr()
      ensures Valid() && Snap() == PlayData(input.bytes, old(Snap()), old(command))
      ensures command == old(command) && commandCount == old(commandCount)
    {
      hide Laid, Ready, Values, Buffered, Held, LsbBits, Ones, PlayData, ParseValues;
      if command == XSDR {
        DoXsdr();
      } else if command == XSDRTDO {
        DoXsdrtdo();
      } else if IsUncompared(command) {
        DoXsdrbce();
      } else {
        DoXsdrtdobce();
      }
    }

    method PlayAnother()
      requires Running() && !ParseOperands(input.bytes, Snap().At(), command).Malformed?
      requires !IsData(command) && command != XSIR && command != XSIR2 && command != XSDRINC
      requires command != XCOMPLETE && command != XTDOMASK && command != XRUNTEST && command != XREPEAT
      modifies Repr()
      ensures Valid() && Snap() == PlayOther(input.bytes, old(Snap()), old(command))
      ensures command == old(command) && commandCount == old(commandCount)
    {
      hide Ones, Held, LsbBits, Number, Signed32, ParseComment, PlaySize, PlayMasks, PlayEnd, PlayState, PlayWait,
           Laid, Ready;
      if command == XSDRSIZE {
        DoXsdrsize();
      } else if command == XSETSDRMASKS {
        DoXsetsdrmasks();
      } else if command == XENDIR || command == XENDDR {
        DoXendxr();
      } else if command == XSTATE {
        DoXstate();
      } else if command == XWAIT {
        DoXwait();
      } else if command == XCOMMENT {
        DoXcomment();
      } else {
        DoIllegalCmd();
      }
    }

    method ReadCommand()
      requires Running() && input.pos < |input.bytes|
      modifies this`command, this`commandCount, input
      ensures Running() && Snap() == old(Snap()).(pos := old(input.pos) + 1)
      ensures command == input.bytes[old(input.pos)] && commandCount == old(commandCount) + 1
    {
      hide Laid, Ready, Values, Buffered, Held;
      command := ReadByte();
      commandCount := commandCount + 1;
    }

    /** Plays one command, and keeps the shadow true. */
    method PlayNext()
      requires Valid() && Snap().Playable(input.bytes)
      modifies Repr()
      ensures Valid() && Snap() == Next(input.bytes, old(Snap()))
      ensures command == input.bytes[old(input.pos)] && commandCount == old(commandCount) + 1
    {
      hide Laid, Ready, Values, Buffered, Held, LsbBits, Ones, ParseOperands, PlayOperands;
      ReadCommand();
      PlayOne();
    }

    /** After completion or an error nothing happens. */
    method Run() returns (error: Error)
      requires Valid() && (Snap().Running() ==> Snap().Playable(input.bytes))
      modifies Repr()
      ensures Valid() && error == errorCode && Snap() == Next(input.bytes, old(Snap()))
      ensures commandCount == old(commandCount) + (if old(Snap().Running()) then 1 else 0)
      ensures old(errorCode != NoError || complete) ==> unchanged(Repr())
    {
      hide Laid, Ready, Values, Buffered, Snapshot.Valid, Play, ParseCommand;
      if errorCode == NoError && !complete {
        PlayNext();
      }
      error := errorCode;
    }

    /** Commands until the player is complete or an error is found. */
    method RunAll() returns (error: Error)
      requires Valid() && Snap().Sound(input.bytes)
      modifies Repr()
      ensures Valid() && error == errorCode && Snap() == PlayAll(input.bytes, old(Snap()))
    {
      hide Laid, Ready, Values, Buffered, Snapshot.Valid, Play, ParseOperands, Next;
      ghost var s := Snap();
      while errorCode == NoError && !complete
        invariant Valid() && Snap().Sound(input.bytes)
        invariant PlayAll(input.bytes, Snap()) == PlayAll(input.bytes, s)
        decreases if Snap().Running() then |input.bytes| - input.pos + 1 else 0
      {
        PlaysOn(input.bytes, Snap());
        var _ := Run();
      }
      error := errorCode;
    }
  }

  /** Plays a well-formed stream from any TAP state, up to completion or the first error. */
  method Execute(port: Port, input: Input) returns (error: Error, player: Player, ghost memory: Memory)
    requires port.Valid() && port.dev.reg != [] && input.Valid()
    requires WellFormed(input.bytes, Cursor(input.pos, 0, 0, 0, 0))
    modifies port, input
    ensures player.Valid() && player.port == port && player.tapState == port.dev.state
    ensures Initial(old(input.pos), old(port.Wires()), memory).Sound(input.bytes)
    ensures player.Snap() == PlayAll(input.bytes, Initial(old(input.pos), old(port.Wires()), memory))
    ensures error == player.errorCode && (error == NoError <==> player.complete)
  {
    hide Held, WellFormed, Initial, PlayAll;
    player := new Player(port, input);
    memory := player.Values();
    StartsSound(input.bytes, input.pos, port.Wires(), memory);
    player.Initialize();
    error := player.RunAll();
  }

  lemma StartsSound(x: seq<bv8>, pos: nat, w: Wire, memory: Memory)
    requires w.dev.reg != [] && memory.data.len == 0 && WellFormed(x, Cursor(pos, 0, 0, 0, 0))
    ensures Initial(pos, w, memory).Sound(x)
  {
    hide WellFormed, Gone;
    assert memory.data.Contents() == [];
    NoOnesYet();
  }

  lemma NoOnesYet()
    ensures Ones(LsbBits([])) == 0
  {
  }

  /** The part of XWAIT that moves. */
  method WaitIn(port: Port, tapState: TapState, waitState: nat, endState: nat, waitTime: int) returns (next: TapState)
    requires Ready(port, tapState) && waitState <= LAST_STATE && endState <= LAST_STATE
    requires StableCode(waitState) || waitTime <= 0
    modifies port
    ensures Ready(port, next) && port.Wires() == WaitedIn(old(port.Wires()), waitState, endState, waitTime)
  {
    hide Gone, Device.Clock, Held, StableCode;
    next := tapState;
    var error;
    NotTrappedWait(waitState);
    if Code(next) != waitState {
      next, error := GotoTapState(port, next, waitState);
    }
    StillHeld(port.Wires(), waitState, waitTime);
    WaitTime(port, waitTime);
    if Code(next) != endState {
      next, error := GotoTapState(port, next, endState);
    }
  }

  lemma NotTrappedWait(state: nat)
    ensures StableCode(state) ==> forall s :: !Trapped(s, state)
  {
  }

  /** A two-byte value is itself as a long. */
  lemma TwoBytes(s: seq<bv8>)
    requires |s| == 2
    ensures Number(s) < 0x1_0000 && Signed32(Number(s)) == Number(s)
  {
    NumberBound(s);
  }
}
