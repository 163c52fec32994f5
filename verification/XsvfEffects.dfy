// What the commands of an XSVF stream do (common/xapp058/micro.c), stated about
// playing them: which values, settings and errors each of them brings, how long a
// setting is in force, where a command leaves the TAP and by which pulses.

module XsvfEffects {
  import opened Bytes
  import opened Lenval
  import opened Tap
  import opened XsvfTap
  import opened XsvfRoute
  import opened XsvfShift
  import opened XsvfScan
  import opened XsvfMask
  import opened XsvfStream
  import opened XsvfTable

  // ----- what each command changes

  /** The expected value changes only with the commands that bring one, and is their second operand; the
      masks only with the commands that set them; the wires only with commands that shift or move. */
  ghost predicate OwnValues(x: seq<bv8>, s: Snapshot, k: bv8, t: Snapshot) {
    var m, n, pos := s.memory, t.memory, s.pos;
    && (if BringsExpected(k) then
          0 <= s.bytes <= MAX_LEN && pos + 2 * s.bytes <= |x|
          && n.expected.Contents() == x[pos + s.bytes..pos + 2 * s.bytes]
        else n.expected == m.expected)
    && (if k == XTDOMASK then
          0 <= s.bytes <= MAX_LEN && pos + s.bytes <= |x| && n.mask.Contents() == x[pos..pos + s.bytes]
        else n.mask == m.mask)
    && (if k == XSETSDRMASKS then
          0 <= s.bytes <= MAX_LEN && pos + 2 * s.bytes <= |x|
          && n.address.Contents() + n.data.Contents() == x[pos..pos + 2 * s.bytes]
        else n.address == m.address && n.data == m.data)
    && (!IsData(k) && k !in {XSIR, XSIR2, XSDRINC, XSTATE, XWAIT} ==> t.wire == s.wire)
  }

  /** What a command sets: an end state, the wait time, the retry limit or the length; nothing else does. */
  ghost predicate OwnSettings(x: seq<bv8>, s: Snapshot, k: bv8, t: Snapshot)
    requires k in {XENDIR, XENDDR, XREPEAT} ==> s.pos < |x|
    requires k in {XRUNTEST, XSDRSIZE} ==> s.pos + 4 <= |x|
  {
    var a, b, pos := s.settings, t.settings, s.pos;
    && b.endIr == (if k == XENDIR && x[pos] == 0 then Code(Idle)
                   else if k == XENDIR && x[pos] == 1 then Code(PauseIr) else a.endIr)
    && b.endDr == (if k == XENDDR && x[pos] == 0 then Code(Idle)
                   else if k == XENDDR && x[pos] == 1 then Code(PauseDr) else a.endDr)
    && b.repeats == (if k == XREPEAT then x[pos] as nat else a.repeats)
    && b.time == (if k == XRUNTEST then Signed32(Number(x[pos..pos + 4])) else a.time)
    && t.bits == (if k == XSDRSIZE then Signed32(Number(x[pos..pos + 4])) else s.bits)
    && t.bytes == (if k == XSDRSIZE then NumBytes(t.bits) else s.bytes)
  }

  /** The commands that are tried again after a mismatch. */
  predicate IsTriedAgain(k: bv8) {
    k == XSDR || k == XSDRTDO || k == XSDRINC
  }

  /** The errors: one for each way a command can be refused, a mismatch only with the commands that compare. */
  ghost predicate OwnErrors(x: seq<bv8>, s: Snapshot, k: bv8, t: Snapshot)
    requires k in {XENDIR, XENDDR} ==> s.pos < |x|
    requires k == XSIR2 ==> s.pos + 2 <= |x|
  {
    && (t.complete <==> k == XCOMPLETE)
    && (t.error == IllegalCommand <==> k > 23 || k == 5 || k == 6)
    && (k != XSTATE ==> (t.error == IllegalState <==> (k == XENDIR || k == XENDDR) && x[s.pos] != 0 && x[s.pos] != 1))
    && (t.error == DataOverflow <==>
          || (k == XSDRSIZE && t.bytes > MAX_LEN)
          || (k == XSIR2 && AsBytes(Number(x[s.pos..s.pos + 2])) > MAX_LEN))
    && (k == XSIR2 && t.error != NoError ==> t.wire == s.wire)
    && (t.error == TdoMismatch ==> IsUnmasked(k) || (IsTriedAgain(k) && s.settings.repeats in {0, 255}))
    && (t.error == MaxRetries ==> IsTriedAgain(k) && 0 < s.settings.repeats < 255)
  }

  /** All of these, the operands being there. */
  ghost predicate OwnEffects(x: seq<bv8>, s: Snapshot, k: bv8, t: Snapshot) {
    && (k in {XENDIR, XENDDR, XREPEAT} ==> s.pos < |x|)
    && (k in {XRUNTEST, XSDRSIZE} ==> s.pos + 4 <= |x|)
    && (k == XSIR2 ==> s.pos + 2 <= |x|)
    && OwnValues(x, s, k, t) && OwnSettings(x, s, k, t) && OwnErrors(x, s, k, t)
  }

  lemma PlayHasOwnEffects(x: seq<bv8>, s: Snapshot)
    requires s.Playable(x)
    ensures OwnEffects(x, s.(pos := s.pos + 1), x[s.pos], Play(x, s))
  {
    hide Held, Ones, LsbBits, PlayData, PlayIr, PlayIr2, PlayInc, PlayOther, ParseValues, ParseIr, ParseIr2,
         ParseInc, ParseMasks, ParseSize, ParseState, ParseEnd, ParseComment, ParseWait, OwnEffects;
    var k, u := x[s.pos], s.(pos := s.pos + 1);
    if IsData(k) {
      DataEffects(x, u, k);
    } else if k == XSIR || k == XSIR2 {
      IrEffects(x, u, k);
    } else if k == XSDRINC {
      IncEffects(x, u);
    } else {
      OtherEffects(x, u, k);
    }
  }

  /** A shift reports only mismatches, and these only if it compares. */
  lemma ShiftErrors(s: Snapshot, p: Plan, numBits: nat)
    requires s.Valid() && s.Running() && p.Valid() && s.memory.tdi.len == AsBytes(numBits)
    ensures Shifts(s, p, numBits).error in {NoError, TdoMismatch, MaxRetries}
    ensures !p.compared ==> Shifts(s, p, numBits).error == NoError
    ensures Shifts(s, p, numBits).error == TdoMismatch ==> p.repeats in {0, 255}
    ensures Shifts(s, p, numBits).error == MaxRetries ==> 0 < p.repeats < 255
  {
    hide Attempts, Rested, ShiftBits, Held;
  }

  lemma DataEffects(x: seq<bv8>, s: Snapshot, k: bv8)
    requires s.Valid() && s.Running() && IsData(k) && !ParseValues(x, s.At(), BringsExpected(k)).Malformed?
    ensures OwnEffects(x, s, k, PlayData(x, s, k))
  {
    hide Shifts, Held, Ones, LsbBits, WithOperands, ParseValues, PlanOf, OwnValues;
    ShiftErrors(WithOperands(x, s, BringsExpected(k)), PlanOf(k, s.settings), s.bits);
    NothingCompared(k, s.settings);
    DataValues(x, s, k);
  }

  lemma NothingCompared(k: bv8, s: Settings)
    requires s.Valid()
    ensures IsUncompared(k) ==> !PlanOf(k, s).compared
    ensures IsUncompared(k) || IsUnmasked(k) ==> PlanOf(k, s).repeats == 0
    ensures IsTriedAgain(k) ==> PlanOf(k, s).repeats == s.repeats
  {
  }

  lemma DataValues(x: seq<bv8>, s: Snapshot, k: bv8)
    requires s.Valid() && s.Running() && IsData(k) && !ParseValues(x, s.At(), BringsExpected(k)).Malformed?
    ensures OwnValues(x, s, k, PlayData(x, s, k))
  {
    hide Shifts, Held, Ones, LsbBits, PlanOf;
  }

  lemma IrEffects(x: seq<bv8>, s: Snapshot, k: bv8)
    requires s.Valid() && s.Running()
    ensures k == XSIR && !ParseIr(x, s.At()).Malformed? ==> OwnEffects(x, s, k, PlayIr(x, s))
    ensures k == XSIR2 && !ParseIr2(x, s.At()).Malformed? ==> OwnEffects(x, s, k, PlayIr2(x, s))
  {
    hide Shifts, Held, Ones, LsbBits, Number;
    forall u: Snapshot, n | u.Valid() && u.Running() && u.memory.tdi.len == AsBytes(n)
      ensures Shifts(u, PlanOf(XSIR, s.settings), n).error == NoError
      ensures Shifts(u, PlanOf(XSIR2, s.settings), n).error == NoError
    {
      ShiftErrors(u, PlanOf(XSIR, s.settings), n);
      ShiftErrors(u, PlanOf(XSIR2, s.settings), n);
    }
  }

  lemma IncEffects(x: seq<bv8>, s: Snapshot)
    requires s.Valid() && s.Running() && !ParseInc(x, s.At()).Malformed?
    ensures OwnEffects(x, s, XSDRINC, PlayInc(x, s))
  {
    hide PlayInc, Held, Ones, LsbBits, DataBytes;
    IncKeeps(x, s);
    IncReports(x, s);
  }

  lemma IncKeeps(x: seq<bv8>, s: Snapshot)
    requires s.Valid() && s.Running() && !ParseInc(x, s.At()).Malformed?
    ensures var t := PlayInc(x, s); t == s.Moved(t.pos, t.wire, t.error, t.memory.tdi, t.memory.captured)
  {
    hide Shifts, Held, Ones, LsbBits, IncTimes, DataBytes, PlanOf;
  }

  lemma IncReports(x: seq<bv8>, s: Snapshot)
    requires s.Valid() && s.Running() && !ParseInc(x, s.At()).Malformed?
    ensures var t := PlayInc(x, s);
            && t.error in {NoError, TdoMismatch, MaxRetries}
            && (t.error == TdoMismatch ==> s.settings.repeats in {0, 255})
            && (t.error == MaxRetries ==> 0 < s.settings.repeats < 255)
  {
    hide Shifts, Held, Ones, LsbBits, IncTimes, DataBytes, PlanOf;
    var p := PlanOf(XSDRINC, s.settings);
    var u := ShiftsValue(x, s, p, false);
    NothingCompared(XSDRINC, s.settings);
    ShiftErrors(WithOperands(x, s, false), p, s.bits);
    if u.error == NoError {
      IncErrors(x, u.(pos := u.pos + 1), u.Width(), AsNat(x[u.pos]));
    }
  }

  lemma {:induction false} IncErrors(x: seq<bv8>, s: Snapshot, k: nat, times: nat)
    requires s.Valid() && s.Fits() && s.memory.tdi.len == s.bytes && !s.complete
    requires s.pos + DataBytes(times, k) <= |x| && k == s.Width() && s.error in {NoError, TdoMismatch, MaxRetries}
    requires s.error == TdoMismatch ==> s.settings.repeats in {0, 255}
    requires s.error == MaxRetries ==> 0 < s.settings.repeats < 255
    ensures var t := IncTimes(x, s, k, times);
            && t.error in {NoError, TdoMismatch, MaxRetries}
            && (t.error == TdoMismatch ==> s.settings.repeats in {0, 255})
            && (t.error == MaxRetries ==> 0 < s.settings.repeats < 255)
    decreases times
  {
    hide Shifts, Held, Ones, LsbBits, Masked, PlanOf, Incremented;
    if times > 0 && s.error == NoError {
      NothingCompared(XSDRINC, s.settings);
      ShiftErrors(Incremented(x, s, k), PlanOf(XSDRINC, s.settings), s.bits);
      IncErrors(x, IncOnce(x, s, k), k, times - 1);
    }
  }

  lemma OtherEffects(x: seq<bv8>, s: Snapshot, k: bv8)
    requires s.Valid() && s.Running() && !ParseOperands(x, s.At(), k).Malformed?
    requires !IsData(k) && k != XSIR && k != XSIR2 && k != XSDRINC
    ensures OwnEffects(x, s, k, PlayOperands(x, s, k))
  {
    hide Held, NumBytes, Ones, LsbBits, Number, Signed32, Gone, WaitedIn, Trapped, ParseComment, Loaded, ParseWait,
         OwnValues, OwnSettings, OwnErrors;
    OtherValues(x, s, k);
    OtherSettings(x, s, k);
    OtherErrors(x, s, k);
  }

  lemma OtherValues(x: seq<bv8>, s: Snapshot, k: bv8)
    requires s.Valid() && s.Running() && !ParseOperands(x, s.At(), k).Malformed?
    requires !IsData(k) && k != XSIR && k != XSIR2 && k != XSDRINC
    ensures OwnValues(x, s, k, PlayOperands(x, s, k))
  {
    hide Held, NumBytes, Ones, LsbBits, Number, Signed32, Gone, WaitedIn, Trapped, ParseComment, Loaded, ParseWait,
         ParseSize, ParseEnd;
    if k == XTDOMASK || k == XSETSDRMASKS {
      MaskValues(x, s, k);
    }
  }

  lemma MaskValues(x: seq<bv8>, s: Snapshot, k: bv8)
    requires s.Valid() && s.Running() && !ParseOperands(x, s.At(), k).Malformed? && (k == XTDOMASK || k == XSETSDRMASKS)
    ensures OwnValues(x, s, k, PlayOperands(x, s, k))
  {
    hide Held, Ones, LsbBits, Loaded;
    var n, pos := s.bytes, s.pos;
    if k == XTDOMASK {
      assert PlayOperands(x, s, k).memory.mask.Contents() == x[pos..pos + n];
    } else {
      var t := PlayMasks(x, s);
      assert t.memory.address.Contents() == x[pos..pos + n];
      assert t.memory.data.Contents() == x[pos + n..pos + n + n];
      assert x[pos..pos + n] + x[pos + n..pos + n + n] == x[pos..pos + 2 * n];
    }
  }

  lemma OtherSettings(x: seq<bv8>, s: Snapshot, k: bv8)
    requires s.Valid() && s.Running() && !ParseOperands(x, s.At(), k).Malformed?
    requires !IsData(k) && k != XSIR && k != XSIR2 && k != XSDRINC
    ensures k in {XENDIR, XENDDR, XREPEAT} ==> s.pos < |x|
    ensures k in {XRUNTEST, XSDRSIZE} ==> s.pos + 4 <= |x|
    ensures OwnSettings(x, s, k, PlayOperands(x, s, k))
  {
    hide Held, NumBytes, Ones, LsbBits, Number, Signed32, Gone, WaitedIn, Trapped, ParseComment, Loaded, ParseWait;
  }

  lemma OtherErrors(x: seq<bv8>, s: Snapshot, k: bv8)
    requires s.Valid() && s.Running() && !ParseOperands(x, s.At(), k).Malformed?
    requires !IsData(k) && k != XSIR && k != XSIR2 && k != XSDRINC
    ensures OwnErrors(x, s, k, PlayOperands(x, s, k))
  {
    hide Held, NumBytes, Ones, LsbBits, Number, Signed32, Gone, WaitedIn, Trapped, ParseComment, Loaded, ParseWait;
  }

  // ----- how long a command is

  /** The bytes of the command at position pos, when the player goes on behind it. */
  ghost predicate CommandEnds(x: seq<bv8>, s: Snapshot, end: nat)
    requires s.pos < |x|
  {
    var k, pos := x[s.pos], s.pos;
    && (k in {XREPEAT, XENDIR, XENDDR, XSTATE} ==> end == pos + 2)
    && (k in {XRUNTEST, XSDRSIZE} ==> end == pos + 5)
    && (k == XWAIT ==> end == pos + 7)
    && (k in {XTDOMASK, XSDR, XSDRB, XSDRC, XSDRE} ==> end == pos + 1 + s.bytes)
    && (k in {XSETSDRMASKS, XSDRTDO, XSDRTDOB, XSDRTDOC, XSDRTDOE} ==> end == pos + 1 + 2 * s.bytes)
    && (k == XSIR ==> pos + 1 < |x| && end == pos + 2 + (AsNat(x[pos + 1]) + 7) / 8)
    && (k == XSIR2 ==> pos + 3 <= |x| && end == pos + 3 + (Number(x[pos + 1..pos + 3]) + 7) / 8)
    && (k == XSDRINC ==>
          && s.bytes >= 0 && pos + 1 + s.bytes < |x|
          && end == pos + 2 + s.bytes + AsNat(x[pos + 1 + s.bytes]) * s.Width())
    && (k == XCOMMENT ==>
          pos + 2 <= end <= |x| && x[end - 1] == 0 && forall i :: pos < i < end - 1 ==> x[i] != 0)
  }

  lemma CommandLength(x: seq<bv8>, s: Snapshot)
    requires s.Playable(x) && Play(x, s).Running()
    ensures s.pos < |x| && CommandEnds(x, s, Play(x, s).pos)
  {
    hide Held, Ones, LsbBits, Play, ParseOperands, CommandEnds;
    PlayFollows(x, s);
    OperandsLength(x, s);
  }

  lemma OperandsLength(x: seq<bv8>, s: Snapshot)
    requires s.pos < |x| && ParseOperands(x, s.At().Skip(1), x[s.pos]).More?
    ensures CommandEnds(x, s, ParseOperands(x, s.At().Skip(1), x[s.pos]).c.pos)
  {
    hide Ones, LsbBits, ParseOperands, CommandEnds;
    if x[s.pos] == XCOMMENT {
      CommentEnds(x, s);
    } else if x[s.pos] == XSDRINC {
      IncCommandEnds(x, s);
    } else {
      OtherEnds(x, s);
    }
  }

  lemma CommentEnds(x: seq<bv8>, s: Snapshot)
    requires s.pos < |x| && x[s.pos] == XCOMMENT && ParseOperands(x, s.At().Skip(1), x[s.pos]).More?
    ensures CommandEnds(x, s, ParseOperands(x, s.At().Skip(1), x[s.pos]).c.pos)
  {
    hide Ones, LsbBits, Number, ParseComment;
    CommentLength(x, s.At().Skip(1));
  }

  lemma IncCommandEnds(x: seq<bv8>, s: Snapshot)
    requires s.pos < |x| && x[s.pos] == XSDRINC && ParseOperands(x, s.At().Skip(1), x[s.pos]).More?
    ensures CommandEnds(x, s, ParseOperands(x, s.At().Skip(1), x[s.pos]).c.pos)
  {
    hide Ones, LsbBits, Number, DataBytes;
    DataLength(AsNat(x[s.pos + 1 + s.bytes]), s.Width());
  }

  lemma OtherEnds(x: seq<bv8>, s: Snapshot)
    requires s.pos < |x| && x[s.pos] != XCOMMENT && x[s.pos] != XSDRINC
    requires ParseOperands(x, s.At().Skip(1), x[s.pos]).More?
    ensures CommandEnds(x, s, ParseOperands(x, s.At().Skip(1), x[s.pos]).c.pos)
  {
    hide Ones, LsbBits, Number, Signed32, NumBytes, ParseComment, ParseInc;
  }

  lemma {:induction false} DataLength(times: nat, k: nat)
    ensures DataBytes(times, k) == times * k
  {
    if times > 0 {
      DataLength(times - 1, k);
    }
  }

  lemma {:induction false} CommentLength(x: seq<bv8>, c: Cursor)
    requires ParseComment(x, c).More?
    ensures var end := ParseComment(x, c).c.pos;
            c.pos < end <= |x| && x[end - 1] == 0 && forall i :: c.pos <= i < end - 1 ==> x[i] != 0
    decreases |x| - c.pos
  {
    if x[c.pos] != 0 {
      CommentLength(x, c.Skip(1));
    }
  }

  // ----- how long a setting is in force

  /** What there is after n more commands. */
  function After(x: seq<bv8>, s: Snapshot, n: nat): Snapshot {
    if n == 0 then s else Next(x, After(x, s, n - 1))
  }

  /** The end states, the retry limit, the wait time and the length. */
  function Setting(k: bv8, s: Snapshot): int {
    if k == XENDIR then s.settings.endIr else if k == XENDDR then s.settings.endDr
    else if k == XREPEAT then s.settings.repeats else if k == XRUNTEST then s.settings.time else s.bits
  }

  /** Command k is not played among the commands from the first to the last but one. */
  ghost predicate NotAgain(x: seq<bv8>, s: Snapshot, k: bv8, n: nat) {
    forall i :: 0 < i < n && After(x, s, i).Playable(x) ==>
      After(x, s, i).pos < |x| && x[After(x, s, i).pos] != k
  }

  lemma OnlyItsOwn(x: seq<bv8>, s: Snapshot, k: bv8)
    requires k in {XENDIR, XENDDR, XREPEAT, XRUNTEST, XSDRSIZE}
    requires s.Playable(x) ==> s.pos < |x| && x[s.pos] != k
    ensures Setting(k, Next(x, s)) == Setting(k, s)
  {
    hide Held, Ones, LsbBits, Play, ParseOperands, OwnValues, OwnErrors, Number, Signed32, NumBytes;
    if s.Playable(x) {
      PlayHasOwnEffects(x, s);
    }
  }

  /** A setting stays what it was after its command until that command is played again. */
  lemma {:induction false} InForce(x: seq<bv8>, s: Snapshot, k: bv8, n: nat)
    requires k in {XENDIR, XENDDR, XREPEAT, XRUNTEST, XSDRSIZE} && n > 0 && NotAgain(x, s, k, n)
    ensures Setting(k, After(x, s, n)) == Setting(k, Next(x, s))
    decreases n
  {
    hide Next, Setting, Snapshot.Playable;
    assert After(x, s, 0) == s;
    if n > 1 {
      InForce(x, s, k, n - 1);
      OnlyItsOwn(x, After(x, s, n - 1), k);
    }
  }
}
