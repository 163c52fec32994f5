// What XSDRINC does (xsvfDoXSDRINC of common/xapp058/micro.c): it loads a value and
// then as many more as it announces, each the masked increment of the one before.

module XsvfIncrement {
  import opened Bytes
  import opened Lenval
  import opened Tap
  import opened XsvfTap
  import opened XsvfShift
  import opened XsvfScan
  import opened XsvfMask
  import opened XsvfStream
  import opened XsvfTable
  import opened XsvfLoads

  /** Each value is the one before with the address mask added and the next k bytes of the stream deposited where the
      data mask is set. */
  ghost predicate Increments(first: seq<bv8>, rest: seq<seq<bv8>>, x: seq<bv8>, pos: nat, k: nat, address: seq<bv8>,
                             mask: seq<bv8>)
    decreases |rest|
  {
    || rest == []
    || (&& pos + k <= |x| && |first| == |rest[0]| == |address| == |mask| && Ones(LsbBits(mask)) <= 8 * k
        && LsbBits(rest[0]) == Deposit(LsbBits(Sum(first, address)), LsbBits(x[pos..pos + k]), LsbBits(mask))
        && Increments(rest[0], rest[1..], x, pos + k, k, address, mask))
  }

  /** The pulses of loading values one after the other, from Run-Test/Idle and back each time. */
  function AllPulses(values: seq<seq<bool>>, tdi: bool, time: int): seq<Pulse>
    requires forall i :: 0 <= i < |values| ==> values[i] != []
    decreases |values|
  {
    if values == [] then []
    else ScanPulses([Idle, SelectDr, CaptureDr], ShiftDr, values[0], [Exit1Dr, UpdateDr], tdi, time)
         + AllPulses(values[1..], values[0][|values[0]| - 1], time)
  }

  /** The device when all of them have taken effect. */
  function AllLoaded(d: Device, values: seq<seq<bool>>): Device
    decreases |values|
  {
    if values == [] then d else AllLoaded(d.(reg := values[0]).Updated(), values[1..])
  }

  /** The bits of each value that are shifted. */
  function Shiftable(values: seq<seq<bv8>>, n: nat): (r: seq<seq<bool>>)
    requires forall i :: 0 <= i < |values| ==> n <= 8 * |values[i]|
    ensures |r| == |values| && forall i :: 0 <= i < |values| ==> |r[i]| == n
  {
    seq(|values|, i requires 0 <= i < |values| => ShiftBits(values[i], n))
  }

  /** The values are loaded: these are all the pulses, and the device is the one that has got all of them. */
  ghost predicate AllDone(w: Wire, v: Wire, values: seq<seq<bool>>, time: int)
    requires forall i :: 0 <= i < |values| ==> values[i] != []
  {
    && v.trace == w.trace + AllPulses(values, w.tdi, time)
    && v.dev == AllLoaded(w.dev, values).(tdo := v.dev.tdo)
  }

  // ----- one shift

  lemma SameLength(d: Device, bits: seq<bool>, tdo: bool)
    requires d.state == Idle
    ensures var e := d.(reg := bits).Updated().(tdo := tdo);
            e.state == Idle && |e.Captured()| == |d.Captured()|
  {
  }

  /** From Run-Test/Idle and back, with as many bits as the register has, and not to be tried again. */
  ghost predicate Simple(s: Snapshot) {
    && s.Valid() && s.settings.endDr == RUNTEST && s.settings.repeats == 0
    && s.wire.dev.state == Idle && 0 < s.bits == |s.wire.dev.Captured()|
    && s.memory.tdi.len == s.bytes == AsBytes(s.bits)
  }

  lemma ShiftLoads(s: Snapshot)
    requires Simple(s) && Shifts(s, PlanOf(XSDRINC, s.settings), s.bits).error == NoError
    ensures var t, bits := Shifts(s, PlanOf(XSDRINC, s.settings), s.bits), ShiftBits(s.memory.tdi.Contents(), s.bits);
            && Simple(t) && t.wire.tdi == bits[s.bits - 1]
            && Loads(s.wire, t.wire, bits, RUNTEST, s.settings.time)
  {
    hide Held, Scan, LsbBits, Device.Captured, ScanPulses, Recaptured, Expectation.MetBy, ExpectationOf, Device.Updated;
    var p := PlanOf(XSDRINC, s.settings);
    var j := JobOf(s.memory, p, s.bits);
    DataScan(j, s.wire, s.memory.captured, p.time, p.repeats);
    var t := Shifts(s, p, s.bits);
    SameLength(s.wire.dev, j.bits, t.wire.dev.tdo);
  }

  // ----- the repetitions

  lemma OneMoreDone(w: Wire, u: Wire, v: Wire, first: seq<bool>, rest: seq<seq<bool>>, time: int)
    requires first != [] && forall i :: 0 <= i < |rest| ==> rest[i] != []
    requires Loads(w, u, first, RUNTEST, time) && u.tdi == first[|first| - 1] && AllDone(u, v, rest, time)
    requires w.dev.state == Idle
    ensures AllDone(w, v, [first] + rest, time)
  {
    hide ScanPulses, Device.Updated;
    var all := [first] + rest;
    assert all[1..] == rest;
    TdoStays(w.dev.(reg := first).Updated(), u.dev.tdo, rest);
  }

  lemma {:induction false} TdoStays(d: Device, tdo: bool, values: seq<seq<bool>>)
    ensures AllLoaded(d.(tdo := tdo), values) == AllLoaded(d, values).(tdo := AllLoaded(d.(tdo := tdo), values).tdo)
    decreases |values|
  {
    if values != [] {
      UpdatedTdo(d.(reg := values[0]), tdo);
      TdoStays(d.(reg := values[0]).Updated(), tdo, values[1..]);
    }
  }

  lemma UpdatedTdo(d: Device, tdo: bool)
    ensures d.(tdo := tdo).Updated() == d.Updated().(tdo := tdo)
  {
  }

  lemma NextIncrement(x: seq<bv8>, s: Snapshot, k: nat)
    requires s.pos + k <= |x| && k == s.Width() && s.memory.address.len == s.memory.data.len == s.memory.tdi.len
    ensures Ones(LsbBits(s.memory.data.Contents())) <= 8 * k
    ensures LsbBits(Incremented(x, s, k).memory.tdi.Contents())
            == Deposit(LsbBits(Sum(s.memory.tdi.Contents(), s.memory.address.Contents())),
                       LsbBits(x[s.pos..s.pos + k]), LsbBits(s.memory.data.Contents()))
  {
    hide LsbBits, Deposit, Ones, Sum, Masked;
    MaskedContents(s.memory.tdi, x[s.pos..s.pos + k], s.memory.address, s.memory.data);
  }

  /** These values have been loaded, and the last is in the buffer. */
  ghost predicate Played(s: Snapshot, values: seq<seq<bv8>>, t: Snapshot) {
    && 0 < s.bits <= 8 * s.bytes && (forall i :: 0 <= i < |values| ==> |values[i]| == s.bytes)
    && t.memory.tdi.Contents() == ([s.memory.tdi.Contents()] + values)[|values|]
    && AllDone(s.wire, t.wire, Shiftable(values, s.bits), s.settings.time)
  }

  /** There is the data for so many repetitions. */
  ghost predicate CanRepeat(x: seq<bv8>, s: Snapshot, k: nat, times: nat) {
    && Simple(s) && s.Fits() && s.error == NoError && s.pos + DataBytes(times, k) <= |x| && k == s.Width()
    && s.memory.address.len == s.memory.data.len == s.bytes
  }

  lemma {:induction false} TimesPlayed(x: seq<bv8>, s: Snapshot, k: nat, times: nat) returns (values: seq<seq<bv8>>)
    requires CanRepeat(x, s, k, times) && IncTimes(x, s, k, times).error == NoError
    ensures |values| == times && Played(s, values, IncTimes(x, s, k, times))
    ensures Increments(s.memory.tdi.Contents(), values, x, s.pos, k, s.memory.address.Contents(),
                       s.memory.data.Contents())
    decreases times
  {
    hide Held, LsbBits, Ones, Deposit, Sum, Masked, Shifts, ScanPulses, Device.Captured, PlanOf, Loads, AllDone,
         ShiftBits;
    values := [];
    if times > 0 {
      var u, v := Incremented(x, s, k), IncOnce(x, s, k);
      OnlyWithoutError(x, v, k, times - 1);
      NextIncrement(x, s, k);
      ShiftLoads(u);
      var rest := TimesPlayed(x, v, k, times - 1);
      var next := u.memory.tdi.Contents();
      values := [next] + rest;
      assert values[1..] == rest;
      FirstShiftable(next, rest, s.bits);
      OneMoreDone(s.wire, v.wire, IncTimes(x, s, k, times).wire, ShiftBits(next, s.bits), Shiftable(rest, s.bits),
                  s.settings.time);
    } else {
      NothingDone(s.wire, s.settings.time);
    }
  }

  lemma NothingDone(w: Wire, time: int)
    ensures AllDone(w, w, [], time)
  {
  }

  lemma FirstShiftable(first: seq<bv8>, rest: seq<seq<bv8>>, n: nat)
    requires n <= 8 * |first| && forall i :: 0 <= i < |rest| ==> n <= 8 * |rest[i]|
    ensures Shiftable([first] + rest, n) == [ShiftBits(first, n)] + Shiftable(rest, n)
  {
    hide LsbBits;
  }

  lemma OnlyWithoutError(x: seq<bv8>, s: Snapshot, k: nat, times: nat)
    requires s.Valid() && s.Fits() && s.memory.tdi.len == s.bytes
    requires s.pos + DataBytes(times, k) <= |x| && k == s.Width() && IncTimes(x, s, k, times).error == NoError
    ensures s.error == NoError
  {
  }

  /** XSDRINC without an error: its operand and then as many values as it announces, each the masked increment of the
      one before, are loaded one after the other, in exactly these pulses, and the last one stays in the buffer. */
  lemma IncrementsPlayed(x: seq<bv8>, s: Snapshot) returns (values: seq<seq<bv8>>)
    requires s.Playable(x) && x[s.pos] == XSDRINC && Play(x, s).error == NoError
    requires s.wire.dev.state == Idle && 0 < s.bits == |s.wire.dev.Captured()|
    requires s.settings.endDr == RUNTEST && s.settings.repeats == 0
    requires s.memory.address.len == s.memory.data.len == s.bytes
    ensures s.pos + 1 + s.bytes < |x| && |values| == 1 + AsNat(x[s.pos + 1 + s.bytes])
    ensures forall i :: 0 <= i < |values| ==> |values[i]| == s.bytes && s.bits <= 8 * s.bytes
    ensures values[0] == x[s.pos + 1..s.pos + 1 + s.bytes]
    ensures Increments(values[0], values[1..], x, s.pos + 2 + s.bytes, s.Width(), s.memory.address.Contents(),
                       s.memory.data.Contents())
    ensures Play(x, s).memory.tdi.Contents() == values[|values| - 1]
    ensures AllDone(s.wire, Play(x, s).wire, Shiftable(values, s.bits), s.settings.time)
  {
    hide Held, LsbBits, Ones, Shifts, ScanPulses, Device.Captured, PlanOf, Loads, Increments, AllDone, IncTimes,
         DataBytes, ShiftBits;
    var u := WithOperands(x, s.(pos := s.pos + 1), false);
    var v := Shifts(u, PlanOf(XSDRINC, s.settings), s.bits);
    var first := u.memory.tdi.Contents();
    assert first == x[s.pos + 1..s.pos + 1 + s.bytes];
    ShiftLoads(u);
    var rest := TimesPlayed(x, v.(pos := v.pos + 1), v.Width(), AsNat(x[v.pos]));
    values := [first] + rest;
    assert values[1..] == rest;
    FirstShiftable(first, rest, s.bits);
    OneMoreDone(s.wire, v.wire, Play(x, s).wire, ShiftBits(first, s.bits), Shiftable(rest, s.bits), s.settings.time);
  }
}
