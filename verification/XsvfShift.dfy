// Shifting data through the TAP (xsvfShiftOnly of common/xapp058/micro.c): the
// least significant bit goes first, and TDO is sampled while TCK is low.

module XsvfShift {
  import opened Bytes
  import opened Lenval
  import opened Tap
  import opened XsvfTap

  /** When the bits have been shifted in, the last with TMS high if the shift state is left. */
  function ShiftedOut(w: Wire, bits: seq<bool>, exit: bool): (v: Wire)
    requires w.dev.reg != []
    ensures v.dev.state == NextState(w.dev.state, exit) && (Shifting(w.dev.state) ==> Held(v))
  {
    Wire(Shifted(w.dev, bits, |bits|).(state := NextState(w.dev.state, exit)), exit,
         if bits == [] then w.tdi else bits[|bits| - 1], w.trace + ShiftPulses(w.dev.state, bits))
  }

  /** What appears on TDO meanwhile. */
  function ShownOut(w: Wire, bits: seq<bool>): (r: seq<bool>)
    ensures |r| == |bits|
  {
    Stream(w.dev, bits)[..|bits|]
  }

  /** Shifting as many bits as the register has is an exchange. */
  lemma Exchange(w: Wire, bits: seq<bool>, exit: bool)
    requires w.dev.reg != [] && |w.dev.reg| == |bits|
    ensures ShiftedOut(w, bits, exit).dev.reg == bits && ShownOut(w, bits) == w.dev.reg
  {
    ShiftIsExchange(w.dev, bits);
  }

  /** Two shifts in a row are one. */
  lemma ShiftsCompose(w: Wire, a: seq<bool>, b: seq<bool>, exit: bool)
    requires Shifting(w.dev.state) && w.dev.reg != []
    ensures ShiftedOut(ShiftedOut(w, a, false), b, exit) == ShiftedOut(w, a + b, exit)
    ensures ShownOut(w, a) + ShownOut(ShiftedOut(w, a, false), b) == ShownOut(w, a + b)
  {
    hide ShiftPulses, Shifted;
    PulsesCompose(w.trace, w.dev.state, a, b);
    DevicesCompose(w, a, b);
    assert b != [] ==> (a + b)[|a + b| - 1] == b[|b| - 1];
    assert b == [] ==> a + b == a;
  }

  lemma DevicesCompose(w: Wire, a: seq<bool>, b: seq<bool>)
    requires Shifting(w.dev.state) && w.dev.reg != []
    ensures var e := ShiftedOut(w, a, false).dev;
            && e.state == w.dev.state && Shifted(e, b, |b|) == Shifted(w.dev, a + b, |a + b|)
    ensures ShownOut(w, a) + ShownOut(ShiftedOut(w, a, false), b) == ShownOut(w, a + b)
  {
    hide ShiftPulses, NextState;
    StaysThere(w.dev.state);
    if a == [] {
      assert a + b == b;
    } else if b == [] {
      assert a + b == a;
      StreamsCompose(w, a, b);
    } else {
      StreamsCompose(w, a, b);
      LastShown(w, a, b);
    }
  }

  lemma StaysThere(s: TapState)
    requires Shifting(s)
    ensures NextState(s, false) == s
  {
  }

  lemma LastShown(w: Wire, a: seq<bool>, b: seq<bool>)
    requires Shifting(w.dev.state) && w.dev.reg != [] && a != [] && b != []
    ensures Stream(ShiftedOut(w, a, false).dev, b)[|b| - 1] == Stream(w.dev, a + b)[|a + b| - 1]
  {
    hide ShiftPulses, NextState;
    StreamsCompose(w, a, b);
  }

  lemma PulsesCompose(trace: seq<Pulse>, s: TapState, a: seq<bool>, b: seq<bool>)
    ensures trace + ShiftPulses(s, a) + ShiftPulses(s, b) == trace + ShiftPulses(s, a + b)
  {
  }

  lemma NothingShifted(w: Wire)
    requires Shifting(w.dev.state) && w.dev.reg != [] && !w.tms
    ensures ShiftedOut(w, [], false) == w && ShownOut(w, []) == []
  {
  }

  lemma StreamsCompose(w: Wire, a: seq<bool>, b: seq<bool>)
    requires Shifting(w.dev.state) && w.dev.reg != [] && a != []
    ensures var d, e := w.dev, ShiftedOut(w, a, false).dev;
            && Stream(e, b) == Stream(d, a + b)[|a|..]
            && Stream(d, a + b)[..|a|] == Stream(d, a)[..|a|]
            && |e.reg| == |d.reg|
            && Stream(e, b)[|b|..|e.reg| + |b|] == Stream(d, a + b)[|a + b|..|d.reg| + |a + b|]
  {
    var d, e := w.dev, ShiftedOut(w, a, false).dev;
    assert Stream(d, a + b) == Stream(d, a) + b;
    assert e.reg == Stream(d, a)[|a|..];
    assert Stream(e, b) == Stream(d, a + b)[|a|..];
  }

  /** One bit: TMS and TDI are set, TDO is sampled between the edges. */
  method ShiftOneBit(port: Port, exit: bool, tdi: bool, capture: bool) returns (tdo: bool)
    requires port.Valid()
    modifies port
    ensures port.Valid()
    ensures port.Wires() == old(port.Wires()).(tms := old(port.tms) || exit, tdi := tdi).Clocked()
    ensures tdo == (capture && old(port.dev).Fall().tdo)
  {
    hide Device.Fall, Device.Rise;
    if exit {
      port.SetPort(TMS, true);
    }
    port.SetPort(TDI, tdi);
    FallIdempotent(port.dev);
    FallKeepsState(port.dev);
    port.SetPort(TCK, false);
    tdo := false;
    if capture {
      tdo := port.ReadTdo();
    }
    port.SetPort(TCK, true);
  }

  lemma OrBit(b: bv8, i: nat, j: nat)
    requires i < 8 && j < 8
    ensures BitOf(b | BitMask(i), j) == (j == i || BitOf(b, j))
  {
  }

  /** What is left of the TDI byte after i bits. */
  predicate Remaining(rest: bv8, tdiByte: bv8, i: nat)
    requires i <= 8
  {
    forall k :: 0 <= k < 8 - i ==> BitOf(rest, k) == BitOf(tdiByte, k + i)
  }

  /** The TDO byte after i bits. */
  predicate Collected(b: bv8, i: nat, shown: seq<bool>)
    requires i <= |shown| <= 8
  {
    forall k :: 0 <= k < 8 ==> BitOf(b, k) == (k < i && shown[k])
  }

  function AtMost8(n: nat): nat {
    if n < 8 then n else 8
  }

  /** The inner loop: up to eight bits of one byte. */
  method ShiftByte(port: Port, tdiByte: bv8, numBits: nat, capture: bool, exitShift: bool)
    returns (tdoByte: bv8, left: nat)
    requires port.Valid() && !port.tms && Shifting(port.dev.state) && port.dev.reg != [] && numBits > 0
    modifies port
    ensures port.Valid() && left == numBits - AtMost8(numBits)
    ensures var bits := Bits([tdiByte])[..AtMost8(numBits)];
            && port.Wires() == ShiftedOut(old(port.Wires()), bits, exitShift && left == 0)
            && Bits([tdoByte])
               == (if capture then ShownOut(old(port.Wires()), bits) else Zeros(|bits|)) + Zeros(8 - |bits|)
  {
    hide Device.Clock, ShiftedOut, ShownOut, Recorded, Remaining, Collected, Bits;
    ghost var w, bits := port.Wires(), Bits([tdiByte])[..AtMost8(numBits)];
    ghost var shown := if capture then ShownOut(w, bits) else Zeros(|bits|);
    var tdi := tdiByte;
    tdoByte, left := 0, numBits;
    var i := 0;
    AtStart(w, tdiByte, shown);
    assert bits[..0] == [];
    while left > 0 && i < 8
      invariant 0 <= i <= |bits| == AtMost8(numBits) && left == numBits - i
      invariant port.Valid() && port.Wires() == ShiftedOut(w, bits[..i], exitShift && left == 0)
      invariant Remaining(tdi, tdiByte, i) && Collected(tdoByte, i, shown)
      decreases 8 - i
    {
      left := left - 1;
      var tdo;
      tdi, tdo := NextBit(port, w, bits, tdiByte, i, tdi, exitShift && left == 0, capture);
      AddBit(tdoByte, i, shown);
      tdoByte := Recorded(tdoByte, i, tdo);
      i := i + 1;
    }
    assert bits[..i] == bits;
    AtEnd(tdoByte, shown);
  }

  lemma AtStart(w: Wire, tdiByte: bv8, shown: seq<bool>)
    requires Shifting(w.dev.state) && w.dev.reg != [] && !w.tms && |shown| <= 8
    ensures ShiftedOut(w, [], false) == w && Remaining(tdiByte, tdiByte, 0) && Collected(0, 0, shown)
  {
    NothingShifted(w);
  }

  lemma AtEnd(b: bv8, shown: seq<bool>)
    requires |shown| <= 8 && Collected(b, |shown|, shown)
    ensures Bits([b]) == shown + Zeros(8 - |shown|)
  {
    hide BitOf;
  }

  /** tdoByte |= tdo << i */
  function Recorded(b: bv8, i: nat, v: bool): bv8
    requires i < 8
  {
    if v then b | BitMask(i) else b
  }

  lemma AddBit(b: bv8, i: nat, shown: seq<bool>)
    requires i < |shown| <= 8 && Collected(b, i, shown)
    ensures Collected(Recorded(b, i, shown[i]), i + 1, shown)
  {
    hide BitOf, BitMask;
    forall k | 0 <= k < 8 ensures BitOf(Recorded(b, i, shown[i]), k) == (k < i + 1 && shown[k]) {
      OrBit(b, i, k);
    }
  }

  lemma NextRemaining(rest: bv8, tdiByte: bv8, i: nat)
    requires i < 8 && Remaining(rest, tdiByte, i)
    ensures BitOf(rest, 0) == Bits([tdiByte])[i] && Remaining(rest >> 1, tdiByte, i + 1)
  {
    hide BitOf;
    var next := rest >> 1;
    forall k | 0 <= k < 8 - (i + 1) ensures BitOf(next, k) == BitOf(tdiByte, k + (i + 1)) {
      ShiftedRight(rest, k);
    }
  }

  /** One turn of the inner loop. */
  method NextBit(port: Port, ghost w: Wire, ghost bits: seq<bool>, ghost tdiByte: bv8, ghost i: nat, tdi: bv8,
                 exit: bool, capture: bool)
    returns (rest: bv8, tdo: bool)
    requires port.Valid() && Shifting(w.dev.state) && w.dev.reg != [] && i < |bits| <= 8
    requires bits == Bits([tdiByte])[..|bits|] && Remaining(tdi, tdiByte, i)
    requires port.Wires() == ShiftedOut(w, bits[..i], false)
    modifies port
    ensures port.Valid() && port.Wires() == ShiftedOut(w, bits[..i + 1], exit)
    ensures tdo == (capture && ShownOut(w, bits)[i])
    ensures Remaining(rest, tdiByte, i + 1)
  {
    hide Device.Clock, BitOf, Device.Fall, Bits, Remaining, ShiftedOut, ShownOut;
    StepShift(w, bits, i, exit);
    NextRemaining(tdi, tdiByte, i);
    tdo := ShiftOneBit(port, exit, BitOf(tdi, 0), capture);
    rest := tdi >> 1;
  }

  lemma StepShift(w: Wire, bits: seq<bool>, i: nat, exit: bool)
    requires Shifting(w.dev.state) && w.dev.reg != [] && i < |bits|
    ensures var v := ShiftedOut(w, bits[..i], false);
            && !v.tms && v.(tms := exit, tdi := bits[i]).Clocked() == ShiftedOut(w, bits[..i + 1], exit)
            && v.dev.Fall().tdo == ShownOut(w, bits)[i]
  {
    hide Device.Clock, Device.Fall, ShiftPulses, Shifted;
    PrefixShift(w.dev, bits, i);
    PrefixShift(w.dev, bits, i + 1);
    ShiftNext(w.dev, bits, i, exit);
    ShiftPulsesNext(w.dev.state, bits, 0, i);
  }

  lemma PrefixShift(d: Device, bits: seq<bool>, i: nat)
    requires d.reg != [] && i <= |bits|
    ensures Shifted(d, bits[..i], i) == Shifted(d, bits, i)
  {
    if i > 0 {
      assert Stream(d, bits)[i..|d.reg| + i] == Stream(d, bits[..i])[i..|d.reg| + i];
      assert Stream(d, bits)[i - 1] == Stream(d, bits[..i])[i - 1];
    }
  }

  /** The bits that are shifted in: the least significant ones of the value. */
  function ShiftBits(tdi: seq<bv8>, numBits: nat): (r: seq<bool>)
    requires numBits <= 8 * |tdi|
    ensures |r| == numBits
  {
    LsbBits(tdi)[..numBits]
  }

  function Padded(s: seq<bool>, bytes: nat): (r: seq<bool>)
    requires |s| <= 8 * bytes
    ensures |r| == 8 * bytes
  {
    s + Zeros(8 * bytes - |s|)
  }

  lemma NextByteBits(tdi: seq<bv8>, p: nat, numBits: nat)
    requires p < |tdi| && 8 * (|tdi| - 1 - p) < numBits <= 8 * |tdi|
    ensures var done := 8 * (|tdi| - 1 - p);
            ShiftBits(tdi, numBits)[done..done + AtMost8(numBits - done)] == Bits([tdi[p]])[..AtMost8(numBits - done)]
  {
    var done := 8 * (|tdi| - 1 - p);
    var m := AtMost8(numBits - done);
    forall k | 0 <= k < m ensures ShiftBits(tdi, numBits)[done..done + m][k] == Bits([tdi[p]])[k] {
      LsbBitAt(tdi, p, k);
    }
  }

  lemma NextByteShown(shown: seq<bool>, done: nat, m: nat, byte: bv8, rest: seq<bv8>)
    requires done == 8 * |rest| && done + m <= |shown| && m <= 8
    requires LsbBits(rest) == Padded(shown[..done], |rest|)
    requires Bits([byte]) == shown[done..done + m] + Zeros(8 - m)
    ensures LsbBits([byte] + rest) == Padded(shown[..done + m], |rest| + 1)
  {
    LsbBitsPrepend(byte, rest);
    assert shown[..done] + shown[done..done + m] == shown[..done + m];
    assert LsbBits(rest) == shown[..done];
  }

  ghost predicate Separate(tdi: LenVal, captured: LenVal?)
    reads tdi, captured
  {
    tdi.Valid() && (captured != null ==> captured.Valid() && captured != tdi && captured.val != tdi.val)
  }

  ghost function Frame(captured: LenVal?): set<object> {
    if captured == null then {} else {captured, captured.val}
  }

  /** One turn of the outer loop: the byte before p. */
  method ShiftOneByte(port: Port, tdi: LenVal, captured: LenVal?, exitShift: bool, numBits: nat, left: nat, p: nat,
                      ghost w: Wire)
    returns (leftAfter: nat)
    requires port.Valid() && Separate(tdi, captured) && p < tdi.len && Shifting(w.dev.state) && w.dev.reg != []
    requires captured != null ==> captured.len == tdi.len
    requires 0 < left && left == numBits - 8 * (tdi.len - 1 - p) && numBits <= 8 * tdi.len
    requires var bits := ShiftBits(tdi.Contents(), numBits);
             && !port.tms && port.Wires() == ShiftedOut(w, bits[..numBits - left], false)
             && (captured != null ==>
                  LsbBits(captured.val[p + 1..tdi.len]) == Padded(ShownOut(w, bits)[..numBits - left], tdi.len - 1 - p))
    modifies port, Frame(captured)
    ensures port.Valid() && Separate(tdi, captured) && leftAfter == left - AtMost8(left)
    ensures captured != null ==> captured.len == tdi.len && captured.val[tdi.len..] == old(captured.val[tdi.len..])
    ensures var bits := ShiftBits(tdi.Contents(), numBits);
            && port.Wires() == ShiftedOut(w, bits[..numBits - leftAfter], exitShift && leftAfter == 0)
            && (captured != null ==>
                  LsbBits(captured.val[p..tdi.len]) == Padded(ShownOut(w, bits)[..numBits - leftAfter], tdi.len - p))
  {
    hide Device.Clock, ShiftedOut, ShownOut, Bits, LsbBits, Padded, ShiftBits, NextState, Shifted, Stream,
         ShiftPulses, Shifting;
    ghost var bits, done, m := ShiftBits(tdi.Contents(), numBits), numBits - left, AtMost8(left);
    NextByteBits(tdi.Contents(), p, numBits);
    ComposeBytes(w, bits, done, m, exitShift && left == m);
    var tdo;
    tdo, leftAfter := ShiftByte(port, tdi.val[p], left, captured != null, exitShift);
    if captured != null {
      StoreByte(captured, p, tdo, ShownOut(w, bits), done, m);
    }
  }

  /** A byte is stored in front of those captured before. */
  method StoreByte(captured: LenVal, p: nat, tdo: bv8, ghost shown: seq<bool>, ghost done: nat, ghost m: nat)
    requires captured.Valid() && p < captured.len && done == 8 * (captured.len - 1 - p)
    requires done + m <= |shown| && m <= 8 && Bits([tdo]) == shown[done..done + m] + Zeros(8 - m)
    requires LsbBits(captured.val[p + 1..captured.len]) == Padded(shown[..done], captured.len - 1 - p)
    modifies captured.val
    ensures captured.val[captured.len..] == old(captured.val[captured.len..])
    ensures LsbBits(captured.val[p..captured.len]) == Padded(shown[..done + m], captured.len - p)
  {
    hide Bits, LsbBits, Padded;
    ghost var rest := captured.val[p + 1..captured.len];
    captured.val[p] := tdo;
    assert captured.val[p..captured.len] == [tdo] + rest;
    NextByteShown(shown, done, m, tdo, rest);
  }

  lemma ComposeBytes(w: Wire, bits: seq<bool>, done: nat, m: nat, exit: bool)
    requires Shifting(w.dev.state) && w.dev.reg != [] && done + m <= |bits|
    ensures var v := ShiftedOut(w, bits[..done], false);
            && ShiftedOut(v, bits[done..done + m], exit) == ShiftedOut(w, bits[..done + m], exit)
            && ShownOut(w, bits)[done..done + m] == ShownOut(v, bits[done..done + m])
            && v.dev.state == w.dev.state
  {
    hide ShiftedOut;
    var a, b := bits[..done], bits[done..done + m];
    assert a + b == bits[..done + m];
    ShiftsCompose(w, a, b, exit);
    assert ShownOut(w, bits[..done + m]) == ShownOut(w, bits)[..done + m] by {
      assert Stream(w.dev, bits)[..done + m] == Stream(w.dev, bits[..done + m])[..done + m];
    }
    var v := ShiftedOut(w, a, false);
    assert ShownOut(w, bits)[done..done + m] == (ShownOut(w, a) + ShownOut(v, b))[done..done + m];
  }

  /** The capture buffer afterwards: what was shown, padded with zeros to whole bytes; bytes beyond the
      length stay. */
  function Recaptured(b: Storage, shown: seq<bool>, n: nat): (c: Storage)
    requires |shown| <= 8 * n && n <= MAX_LEN
    ensures c.len == n && LsbBits(c.Contents()) == Padded(shown, n)
  {
    Loaded(b, Pack(Padded(shown, n), n))
  }

  lemma IsRecaptured(b: Storage, c: Storage, shown: seq<bool>, n: nat)
    requires |shown| <= 8 * n && n <= MAX_LEN && c.len == n
    requires LsbBits(c.Contents()) == Padded(shown, n) && c.bytes[n..] == b.bytes[n..]
    ensures c == Recaptured(b, shown, n)
  {
    hide LsbBits, Padded;
    LsbBitsInjective(c.Contents(), Pack(Padded(shown, n), n));
    assert c.bytes == c.bytes[..n] + c.bytes[n..];
  }

  /** Shifts numBits bits. */
  method ShiftOnly(port: Port, numBits: nat, tdi: LenVal, captured: LenVal?, exitShift: bool)
    requires port.Valid() && !port.tms && Shifting(port.dev.state) && port.dev.reg != []
    requires Separate(tdi, captured) && tdi.len == AsBytes(numBits)
    modifies port, Frame(captured)
    ensures port.Valid() && Separate(tdi, captured)
    ensures var bits := ShiftBits(tdi.Contents(), numBits);
            && port.Wires() == ShiftedOut(old(port.Wires()), bits, exitShift && numBits > 0)
            && (captured != null ==>
                  captured.Stored()
                  == Recaptured(old(captured.Stored()), ShownOut(old(port.Wires()), bits), tdi.len))
  {
    hide Device.Clock, ShiftedOut, ShownOut, Bits, Padded, ShiftBits, LsbBits, NextState, Recaptured, AsBytes,
         Shifted, Stream, ShiftPulses, Shifting;
    ghost var w, bits := port.Wires(), ShiftBits(tdi.Contents(), numBits);
    if captured != null {
      captured.len := tdi.len;
    }
    var left, p := numBits, tdi.len;
    NothingYet(w, bits);
    while left > 0
      invariant 0 <= p <= tdi.len && 0 <= left <= numBits && tdi.len == AsBytes(numBits)
      invariant left == if 8 * (tdi.len - p) <= numBits then numBits - 8 * (tdi.len - p) else 0
      invariant port.Valid() && Separate(tdi, captured) && bits == ShiftBits(tdi.Contents(), numBits)
      invariant left > 0 ==> !port.tms
      invariant port.Wires() == ShiftedOut(w, bits[..numBits - left], exitShift && left == 0 && numBits > 0)
      invariant captured != null ==>
                  && captured.len == tdi.len && captured.val[tdi.len..] == old(captured.val[tdi.len..])
                  && LsbBits(captured.val[p..tdi.len]) == Padded(ShownOut(w, bits)[..numBits - left], tdi.len - p)
    {
      p := p - 1;
      left := ShiftOneByte(port, tdi, captured, exitShift, numBits, left, p, w);
      ShiftedTms(w, bits[..numBits - left], exitShift && left == 0);
    }
    assert bits[..numBits] == bits && ShownOut(w, bits)[..numBits] == ShownOut(w, bits);
    if captured != null {
      assert captured.val[0..tdi.len] == captured.val[..tdi.len];
      IsRecaptured(old(captured.Stored()), captured.Stored(), ShownOut(w, bits), tdi.len);
    }
  }

  lemma ShiftedTms(w: Wire, bits: seq<bool>, exit: bool)
    requires w.dev.reg != []
    ensures ShiftedOut(w, bits, exit).tms == exit
  {
  }

  lemma NothingYet(w: Wire, bits: seq<bool>)
    requires Shifting(w.dev.state) && w.dev.reg != [] && !w.tms
    ensures ShiftedOut(w, bits[..0], false) == w && Padded(ShownOut(w, bits)[..0], 0) == [] && LsbBits([]) == []
  {
    NothingShifted(w);
    assert bits[..0] == [];
  }
}
