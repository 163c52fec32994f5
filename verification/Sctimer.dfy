// The antenna switching schedule (common/operacake_sctimer.c): a list of dwell
// times is compiled into match events of the SCTimer, which then runs alone.

module Sctimer {
  import opened Machine

  /** One entry of the schedule. */
  datatype Dwell = Dwell(dwell: u32, port: u8)

  // Event masks are modelled as sets of event numbers, pin masks as sets of pins.
  const PINS: set<nat> := {8, 11, 12, 13, 14}
  const EVENTS: nat := 16

  /** The timer's configuration registers. */
  datatype Config = Config(
    matches: seq<u32>,               // match register of event i
    enabled: seq<bool>,              // event i happens in state 1, on its match
    setBy: map<nat, set<nat>>,       // events that set each pin
    clrBy: map<nat, set<nat>>,       // events that clear each pin
    limit: set<nat>)                 // events that clear the counter
  {
    ghost predicate Valid() {
      |matches| == EVENTS && |enabled| == EVENTS && setBy.Keys == PINS && clrBy.Keys == PINS
    }

    predicate Happens(event: nat, counter: nat)
      requires Valid() && event < EVENTS
    {
      enabled[event] && matches[event] == counter
    }

    /** No pin is set and cleared by the same event. */
    ghost predicate NoConflict() {
      setBy.Keys == PINS && clrBy.Keys == PINS && forall p :: p in PINS ==> setBy[p] !! clrBy[p]
    }
  }

  /** The running part of the timer: the counter and the levels of the output pins. */
  datatype Running = Running(counter: nat, output: set<nat>)

  /** One counter clock in state 1: events match the counter, then the counter advances or is cleared. */
  ghost function Tick(c: Config, r: Running): Running
    requires c.Valid()
  {
    var happening := Happening(c, r.counter);
    var raised := set p | p in PINS && c.setBy[p] * happening != {};
    var lowered := set p | p in PINS && c.clrBy[p] * happening != {};
    Running(
      if c.limit * happening != {} then 0 else U32(r.counter + 1),
      r.output + raised - lowered)
  }

  ghost function Run(c: Config, r: Running, ticks: nat): Running
    requires c.Valid()
    decreases ticks
  {
    if ticks == 0 then r else Tick(c, Run(c, r, ticks - 1))
  }

  predicate Bit0(port: u8) { port % 2 == 1 }
  predicate Bit1(port: u8) { port / 2 % 2 == 1 }
  predicate Bit2(port: u8) { port / 4 % 2 == 1 }

  /** The pin levels that select a port: two pins for each of bits 0 and 1, bit 2 inverted on one pin. */
  function PortToOutput(port: u8): (pins: set<nat>)
    ensures pins <= PINS
  {
    (if Bit0(port) then {11, 13} else {}) + (if Bit1(port) then {8, 12} else {}) + (if Bit2(port) then {} else {14})
  }

  /** The pins of a port: 11 and 13 for odd ports, 8 and 12 for the upper half of each four, 14 for the lower half of
      each eight. */
  lemma PinsOfPort(port: u8)
    ensures forall pin :: pin in PortToOutput(port) <==>
              || ((pin == 11 || pin == 13) && port % 2 == 1)
              || ((pin == 8 || pin == 12) && port % 4 >= 2)
              || (pin == 14 && port % 8 < 4)
  {
  }

  /** The levels identify the port's three low bits. */
  lemma PortPatternsDiffer(p: u8, q: u8)
    ensures PortToOutput(p) == PortToOutput(q) <==> p % 8 == q % 8
  {
    PatternBits(p);
    PatternBits(q);
    LowBits(p);
    LowBits(q);
    if Bit0(p) == Bit0(q) && Bit1(p) == Bit1(q) && Bit2(p) == Bit2(q) {
      assert PortToOutput(p) == PortToOutput(q);
    }
  }

  lemma PatternBits(p: u8)
    ensures 11 in PortToOutput(p) <==> Bit0(p)
    ensures 8 in PortToOutput(p) <==> Bit1(p)
    ensures 14 in PortToOutput(p) <==> !Bit2(p)
  {
  }

  lemma LowBits(p: u8)
    ensures p % 8 == (if Bit0(p) then 1 else 0) + (if Bit1(p) then 2 else 0) + (if Bit2(p) then 4 else 0)
  {
  }

  /** The number of ticks before entry i, and the length of a whole period. */
  function StartOf(times: seq<Dwell>, i: nat): nat
    requires i <= |times|
  {
    if i == 0 then 0 else StartOf(times, i - 1) + times[i - 1].dwell
  }

  function Period(times: seq<Dwell>): nat {
    StartOf(times, |times|)
  }

  /** A schedule the timer can run: 1 to 16 entries, no empty dwell, a period below 2^32. */
  ghost predicate Schedulable(times: seq<Dwell>): (r: bool)
    ensures r ==> 1 <= |times| <= EVENTS
  {
    1 <= |times| <= EVENTS && (forall i :: 0 <= i < |times| ==> times[i].dwell >= 1) && Period(times) < W32
  }

  lemma {:induction false} StartsIncrease(times: seq<Dwell>, i: nat, j: nat)
    requires i < j <= |times| && forall k :: 0 <= k < |times| ==> times[k].dwell >= 1
    ensures StartOf(times, i) < StartOf(times, j)
  {
    if i < j - 1 {
      StartsIncrease(times, i, j - 1);
    }
  }

  /** The port selected when event i happens: that of the next entry. */
  function NextPort(times: seq<Dwell>, i: nat): u8
    requires i < |times|
  {
    if i == |times| - 1 then times[0].port else times[i + 1].port
  }

  /** The configuration compiled from a schedule, apart from stale higher events. */
  ghost predicate Compiled(c: Config, times: seq<Dwell>): (r: bool)
    requires 1 <= |times| <= EVENTS
    ensures r ==> c.Valid()
  {
    && c.Valid()
    && (forall i :: 0 <= i < |times| ==> c.enabled[i] && c.matches[i] == U32(StartOf(times, i + 1) - 1))
    && c.limit == {|times| - 1}
    && (forall p :: p in PINS ==>
          && c.setBy[p] == (set i: nat | i < |times| && p in PortToOutput(NextPort(times, i)))
          && c.clrBy[p] == (set i: nat | i < |times| && p !in PortToOutput(NextPort(times, i))))
  }

  lemma CompiledHasNoConflict(c: Config, times: seq<Dwell>)
    requires 1 <= |times| <= EVENTS && Compiled(c, times)
    ensures c.NoConflict()
  {
  }

  ghost function Happening(c: Config, counter: nat): set<nat>
    requires c.Valid()
  {
    set e: nat | e < EVENTS && c.Happens(e, counter)
  }

  /** Of the scheduled events only i happens inside entry i, and only at its last tick; stale
      higher-numbered events are in no mask. */
  lemma MaskHit(c: Config, times: seq<Dwell>, counter: nat, i: nat, mask: set<nat>)
    requires Schedulable(times) && Compiled(c, times) && i < |times|
    requires StartOf(times, i) <= counter < StartOf(times, i + 1)
    requires forall e :: e in mask ==> e < |times|
    ensures mask * Happening(c, counter) != {} <==> counter == StartOf(times, i + 1) - 1 && i in mask
  {
    var hit := mask * Happening(c, counter);
    forall e | e in hit ensures e == i && counter == StartOf(times, i + 1) - 1 {
      OnlyLastTickMatches(times, counter, i, e);
    }
    if counter == StartOf(times, i + 1) - 1 && i in mask {
      OnlyLastTickMatches(times, counter, i, i);
      assert i in hit;
    } else {
      assert hit == {};
    }
  }

  /** The timer's position: t ticks into entry i, showing that entry's pattern. */
  ghost predicate InEntry(times: seq<Dwell>, r: Running, i: nat, t: nat) {
    i < |times| && t < times[i].dwell && r == Running(StartOf(times, i) + t, PortToOutput(times[i].port))
  }

  /** The counter is t ticks into entry i; the pins may show anything. */
  ghost predicate Counting(times: seq<Dwell>, r: Running, i: nat, t: nat) {
    i < |times| && t < times[i].dwell && r.counter == StartOf(times, i) + t && r.output <= PINS
  }

  function After(times: seq<Dwell>, i: nat): nat {
    if i + 1 == |times| then 0 else i + 1
  }

  /** One tick keeps the pins, or at an entry's last tick shows the next entry's pattern. */
  lemma TickAnywhere(c: Config, times: seq<Dwell>, r: Running, i: nat, t: nat)
    requires Schedulable(times) && Compiled(c, times) && Counting(times, r, i, t)
    ensures if t + 1 < times[i].dwell then Counting(times, Tick(c, r), i, t + 1) && Tick(c, r).output == r.output
            else InEntry(times, Tick(c, r), After(times, i), 0)
  {
    BoundedStart(times, i + 1);
    MaskHit(c, times, r.counter, i, c.limit);
    PinsAfter(c, times, r, i, t);
  }

  /** One tick keeps the pattern, or at an entry's last tick moves to the next entry. */
  lemma TickInEntry(c: Config, times: seq<Dwell>, r: Running, i: nat, t: nat)
    requires Schedulable(times) && Compiled(c, times) && InEntry(times, r, i, t)
    ensures if t + 1 < times[i].dwell then InEntry(times, Tick(c, r), i, t + 1)
            else InEntry(times, Tick(c, r), After(times, i), 0)
  {
    TickAnywhere(c, times, r, i, t);
  }

  lemma PinsAfter(c: Config, times: seq<Dwell>, r: Running, i: nat, t: nat)
    requires Schedulable(times) && Compiled(c, times) && Counting(times, r, i, t)
    ensures Tick(c, r).output == if t + 1 < times[i].dwell then r.output else PortToOutput(NextPort(times, i))
  {
    var last, next := t + 1 == times[i].dwell, PortToOutput(NextPort(times, i));
    forall p | p in PINS
      ensures c.setBy[p] * Happening(c, r.counter) != {} <==> last && p in next
      ensures c.clrBy[p] * Happening(c, r.counter) != {} <==> last && p !in next
    {
      MaskHit(c, times, r.counter, i, c.setBy[p]);
      MaskHit(c, times, r.counter, i, c.clrBy[p]);
    }
    PinUpdate(c, r, last, next);
  }

  lemma PinUpdate(c: Config, r: Running, last: bool, next: set<nat>)
    requires c.Valid() && r.output <= PINS && next <= PINS
    requires forall p :: p in PINS ==>
               && (c.setBy[p] * Happening(c, r.counter) != {} <==> last && p in next)
               && (c.clrBy[p] * Happening(c, r.counter) != {} <==> last && p !in next)
    ensures Tick(c, r).output == if last then next else r.output
  {
    var out := Tick(c, r).output;
    forall p ensures p in out <==> p in if last then next else r.output {
      if p in PINS {
      } else {
        assert p !in r.output && p !in next;
      }
    }
  }

  lemma BoundedStart(times: seq<Dwell>, j: nat)
    requires Schedulable(times) && j <= |times|
    ensures StartOf(times, j) <= Period(times)
  {
    if j < |times| {
      StartsIncrease(times, j, |times|);
    }
  }

  lemma OnlyLastTickMatches(times: seq<Dwell>, counter: nat, i: nat, e: nat)
    requires Schedulable(times) && i < |times| && e < |times|
    requires StartOf(times, i) <= counter < StartOf(times, i + 1)
    ensures U32(StartOf(times, e + 1) - 1) == counter <==> counter == StartOf(times, i + 1) - 1 && e == i
  {
    BoundedStart(times, e + 1);
    StartsIncrease(times, 0, e + 1);
    if e < i {
      if e + 1 < i {
        StartsIncrease(times, e + 1, i);
      }
    } else if e > i {
      StartsIncrease(times, i + 1, e + 1);
    }
  }

  function StartOfPeriod(times: seq<Dwell>, k: nat): nat {
    if k == 0 then 0 else StartOfPeriod(times, k - 1) + Period(times)
  }

  lemma {:induction false} StartOfPeriodIs(times: seq<Dwell>, k: nat)
    ensures StartOfPeriod(times, k) == k * Period(times)
  {
    if k > 0 {
      StartOfPeriodIs(times, k - 1);
    }
  }

  /** From reset, in every period k, entry i's pattern is held for exactly its dwell ticks. */
  lemma DwellGuarantee(c: Config, times: seq<Dwell>, k: nat, i: nat, t: nat)
    requires Schedulable(times) && Compiled(c, times) && i < |times| && t < times[i].dwell
    ensures 0 <= k * Period(times)
    ensures Run(c, FirstPosition(times), k * Period(times) + StartOf(times, i) + t).output
            == PortToOutput(times[i].port)
  {
    hide Compiled, Config.Valid;
    StartOfPeriodIs(times, k);
    DwellSchedule(c, times, k, i, t);
  }

  lemma {:induction false} DwellSchedule(c: Config, times: seq<Dwell>, k: nat, i: nat, t: nat)
    requires Schedulable(times) && Compiled(c, times) && i < |times| && t < times[i].dwell
    ensures InEntry(times, Run(c, FirstPosition(times), StartOfPeriod(times, k) + StartOf(times, i) + t), i, t)
    decreases k, i, t
  {
    hide Compiled, Config.Valid, Schedulable, Run, InEntry, PortToOutput;
    if k > 0 || i > 0 || t > 0 {
      var k', i', t' := Predecessor(times, k, i, t);
      DwellSchedule(c, times, k', i', t');
      OneMoreTick(c, times, StartOfPeriod(times, k) + StartOf(times, i) + t, i', t');
    } else {
      AtFirst(c, times);
    }
  }

  lemma AtFirst(c: Config, times: seq<Dwell>)
    requires c.Valid() && |times| >= 1 && times[0].dwell >= 1
    ensures InEntry(times, Run(c, FirstPosition(times), StartOfPeriod(times, 0) + StartOf(times, 0) + 0), 0, 0)
  {
  }

  /** The tick before t ticks into entry i of period k. */
  lemma Predecessor(times: seq<Dwell>, k: nat, i: nat, t: nat) returns (k': nat, i': nat, t': nat)
    requires Schedulable(times) && i < |times| && t < times[i].dwell && (k > 0 || i > 0 || t > 0)
    ensures k' < k || (k' == k && (i' < i || (i' == i && t' < t)))
    ensures i' < |times| && t' < times[i'].dwell
    ensures StartOfPeriod(times, k') + StartOf(times, i') + t' + 1 == StartOfPeriod(times, k) + StartOf(times, i) + t
    ensures if t' + 1 < times[i'].dwell then i == i' && t == t' + 1
            else i == After(times, i') && t == 0
  {
    if t > 0 {
      return k, i, t - 1;
    } else if i > 0 {
      return k, i - 1, times[i - 1].dwell - 1;
    } else {
      return k - 1, |times| - 1, times[|times| - 1].dwell - 1;
    }
  }

  function FirstPosition(times: seq<Dwell>): Running
    requires |times| >= 1
  {
    Running(0, PortToOutput(times[0].port))
  }

  lemma OneMoreTick(c: Config, times: seq<Dwell>, now: nat, i: nat, t: nat)
    requires Schedulable(times) && Compiled(c, times) && now > 0
    requires InEntry(times, Run(c, FirstPosition(times), now - 1), i, t)
    ensures var r := Run(c, FirstPosition(times), now);
            if t + 1 < times[i].dwell then InEntry(times, r, i, t + 1)
            else InEntry(times, r, After(times, i), 0)
  {
    hide Compiled, Config.Valid;
    TickInEntry(c, times, Run(c, FirstPosition(times), now - 1), i, t);
  }

  /** The tick that is t ticks into entry i of period k. */
  function Moment(times: seq<Dwell>, k: nat, i: nat, t: nat): nat
    requires i <= |times|
  {
    StartOfPeriod(times, k) + StartOf(times, i) + t
  }

  // ----- without clearing the counter

  /** The entry in whose time a counter value lies. */
  function EntryAt(times: seq<Dwell>, counter: nat, n: nat): (i: nat)
    requires n <= |times| && counter < StartOf(times, n)
    ensures i < n && StartOf(times, i) <= counter < StartOf(times, i + 1)
  {
    if StartOf(times, n - 1) <= counter then n - 1 else EntryAt(times, counter, n - 1)
  }

  lemma EntryIsUnique(times: seq<Dwell>, counter: nat, i: nat)
    requires Schedulable(times) && i < |times| && StartOf(times, i) <= counter < StartOf(times, i + 1)
    ensures counter < Period(times) && EntryAt(times, counter, |times|) == i
  {
    BoundedStart(times, i + 1);
    var j := EntryAt(times, counter, |times|);
    if j + 1 < i {
      StartsIncrease(times, j + 1, i);
    } else if i + 1 < j {
      StartsIncrease(times, i + 1, j);
    }
  }

  /** The pattern that the schedule has for tick n. */
  function Pattern(times: seq<Dwell>, n: nat): (pins: set<nat>)
    requires Period(times) > 0
  {
    PortToOutput(times[EntryAt(times, n % Period(times), |times|)].port)
  }

  lemma PeriodIsPositive(times: seq<Dwell>)
    requires Schedulable(times)
    ensures Period(times) > 0
  {
    StartsIncrease(times, 0, |times|);
  }

  /** From reset the timer counts modulo the period and shows the schedule's pattern. */
  lemma {:induction false} FromReset(c: Config, times: seq<Dwell>, n: nat)
    requires Schedulable(times) && Compiled(c, times)
    ensures Period(times) > 0 && Run(c, FirstPosition(times), n) == Running(n % Period(times), Pattern(times, n))
  {
    hide PortToOutput, Tick, Compiled, Config.Valid;
    PeriodIsPositive(times);
    if n == 0 {
      EntryIsUnique(times, 0, 0);
    } else {
      FromReset(c, times, n - 1);
      var p, q := Period(times), (n - 1) % Period(times);
      var i := EntryAt(times, q, |times|);
      TickInEntry(c, times, Run(c, FirstPosition(times), n - 1), i, q - StartOf(times, i));
      NextEntry(times, n - 1);
    }
  }

  /** The entry of the next tick. */
  lemma NextEntry(times: seq<Dwell>, n: nat)
    requires Schedulable(times) && Period(times) > 0
    ensures var p := Period(times);
            var i := EntryAt(times, n % p, |times|);
            var q, j := (n + 1) % p, EntryAt(times, (n + 1) % p, |times|);
            if n % p + 1 < StartOf(times, i + 1) then q == n % p + 1 && j == i
            else j == After(times, i) && q == StartOf(times, j)
  {
    var p := Period(times);
    var q, i := n % p, EntryAt(times, n % p, |times|);
    NextInPeriod(n, p);
    BoundedStart(times, i + 1);
    if q + 1 < StartOf(times, i + 1) {
      EntryIsUnique(times, q + 1, i);
    } else if i + 1 < |times| {
      EntryIsUnique(times, q + 1, i + 1);
    } else {
      EntryIsUnique(times, 0, 0);
    }
  }

  lemma NextInPeriod(n: nat, p: nat)
    requires p > 0
    ensures (n + 1) % p == if n % p + 1 < p then n % p + 1 else 0
  {
    if n % p + 1 < p {
      DivUnique(n + 1, p, n / p, n % p + 1);
    } else {
      DivUnique(n + 1, p, n / p + 1, 0);
    }
  }

  lemma SameInPeriod(n: nat, x: nat, p: nat)
    requires p > 0
    ensures (n + p) % p == n % p && (x + n) % p == (x + n % p) % p
  {
    DivUnique(n + p, p, n / p + 1, n % p);
    var m := x + n % p;
    assert x + n == p * (n / p + m / p) + m % p;
    DivUnique(x + n, p, n / p + m / p, m % p);
  }

  lemma SamePattern(times: seq<Dwell>, n: nat, x: nat)
    requires Period(times) > 0
    ensures Pattern(times, n + Period(times)) == Pattern(times, n)
    ensures Pattern(times, x + n) == Pattern(times, x + n % Period(times))
  {
    SameInPeriod(n, x, Period(times));
  }

  /** Where the schedule is set with the counter at x. */
  function SetAt(times: seq<Dwell>, x: u32): Running
    requires |times| >= 1
  {
    Running(x, PortToOutput(times[0].port))
  }

  /** Inside the period: the first pattern stays until the entry that x lies in ends, and from then on the
      timer is x ticks ahead. */
  lemma {:induction false} AheadBy(c: Config, times: seq<Dwell>, x: u32, i: nat, n: nat)
    requires Schedulable(times) && Compiled(c, times)
    requires i < |times| && StartOf(times, i) <= x < StartOf(times, i + 1)
    ensures Run(c, SetAt(times, x), n) == if x + n < StartOf(times, i + 1) then Running(x + n, SetAt(times, x).output)
                                          else Run(c, FirstPosition(times), x + n)
  {
    hide PortToOutput, Tick, Compiled, Schedulable, Config.Valid;
    if n > 0 {
      AheadBy(c, times, x, i, n - 1);
      if x + n - 1 < StartOf(times, i + 1) {
        var before := Run(c, SetAt(times, x), n - 1);
        PinsOnly(times[0].port);
        TickAnywhere(c, times, before, i, before.counter - StartOf(times, i));
        if x + n == StartOf(times, i + 1) {
          ResetReaches(c, times, i);
        }
      }
    }
  }

  lemma PinsOnly(port: u8)
    ensures PortToOutput(port) <= PINS
  {
  }

  lemma ResetReaches(c: Config, times: seq<Dwell>, i: nat)
    requires Schedulable(times) && Compiled(c, times) && i < |times|
    ensures InEntry(times, Run(c, FirstPosition(times), StartOf(times, i + 1)), After(times, i), 0)
  {
    hide Compiled, Config.Valid, Schedulable, Run, InEntry, PortToOutput;
    var d := times[i].dwell;
    EntryBounds(times, i);
    DwellSchedule(c, times, 0, i, d - 1);
    OneMoreTick(c, times, StartOf(times, i + 1), i, d - 1);
  }

  /** Beyond the period: nothing happens until the counter wraps at 2^32, and then it is as after a reset. */
  lemma {:induction false} WrapsFirst(c: Config, times: seq<Dwell>, x: u32, n: nat)
    requires Schedulable(times) && Compiled(c, times) && x >= Period(times)
    ensures Run(c, SetAt(times, x), n) == if x + n < W32 then Running(x + n, SetAt(times, x).output)
                                          else Run(c, FirstPosition(times), x + n - W32)
  {
    hide PortToOutput, Tick, Compiled, Schedulable, Config.Valid;
    if n > 0 {
      WrapsFirst(c, times, x, n - 1);
      if x + n - 1 < W32 {
        PinsOnly(times[0].port);
        QuietTick(c, times, Run(c, SetAt(times, x), n - 1));
      }
    }
  }

  lemma QuietTick(c: Config, times: seq<Dwell>, r: Running)
    requires Schedulable(times) && Compiled(c, times) && r.counter >= Period(times) && r.output <= PINS
    ensures Tick(c, r) == Running(U32(r.counter + 1), r.output)
  {
    NothingHits(c, times, r.counter, c.limit);
    forall p | p in PINS
      ensures c.setBy[p] * Happening(c, r.counter) == {} && c.clrBy[p] * Happening(c, r.counter) == {}
    {
      NothingHits(c, times, r.counter, c.setBy[p]);
      NothingHits(c, times, r.counter, c.clrBy[p]);
    }
    PinUpdate(c, r, false, {});
  }

  lemma NothingHits(c: Config, times: seq<Dwell>, counter: nat, mask: set<nat>)
    requires Schedulable(times) && Compiled(c, times) && counter >= Period(times)
    requires forall e :: e in mask ==> e < |times|
    ensures mask * Happening(c, counter) == {}
  {
    forall e | e in mask ensures !c.Happens(e, counter) {
      BoundedStart(times, e + 1);
      StartsIncrease(times, 0, e + 1);
    }
  }

  /** At every tick the pins show the pattern that the schedule has for it. */
  ghost predicate OnPins(c: Config, times: seq<Dwell>, r: Running)
    requires c.Valid() && Period(times) > 0
  {
    forall n: nat :: Run(c, r, n).output == Pattern(times, n)
  }

  /** What a schedule must be for a counter value x left in the timer to do no harm: inside the period, one
      whose patterns repeat after x ticks; beyond it, one with a single pattern. */
  ghost predicate Harmless(times: seq<Dwell>, x: u32)
    requires Period(times) > 0
  {
    if x < Period(times) then forall n: nat :: n < Period(times) ==> Pattern(times, x + n) == Pattern(times, n)
    else forall i :: 0 <= i < |times| ==> PortToOutput(times[i].port) == PortToOutput(times[0].port)
  }

  /** Without clearing the counter the pins are right at every tick exactly for these schedules. */
  lemma CounterMatters(c: Config, times: seq<Dwell>, x: u32)
    requires Schedulable(times) && Compiled(c, times)
    ensures Period(times) > 0 && (OnPins(c, times, SetAt(times, x)) <==> Harmless(times, x))
  {
    hide OnPins, Harmless, Compiled;
    PeriodIsPositive(times);
    if x < Period(times) {
      if OnPins(c, times, SetAt(times, x)) {
        RepeatsAfter(c, times, x);
      }
      if Harmless(times, x) {
        AheadIsRight(c, times, x);
      }
    } else {
      if OnPins(c, times, SetAt(times, x)) {
        OnePattern(c, times, x);
      }
      if Harmless(times, x) {
        ConstantIsRight(c, times, x);
      }
    }
  }

  lemma EntryBounds(times: seq<Dwell>, i: nat)
    requires Schedulable(times) && i < |times|
    ensures StartOf(times, i) < StartOf(times, i + 1) <= Period(times)
  {
    BoundedStart(times, i + 1);
  }

  lemma PatternOf(times: seq<Dwell>, n: nat, i: nat)
    requires Schedulable(times) && i < |times| && StartOf(times, i) <= n < StartOf(times, i + 1)
    ensures Period(times) > 0 && Pattern(times, n) == PortToOutput(times[i].port)
  {
    EntryIsUnique(times, n, i);
    DivUnique(n, Period(times), 0, n);
  }

  lemma RepeatsAfter(c: Config, times: seq<Dwell>, x: u32)
    requires Schedulable(times) && Compiled(c, times) && x < Period(times) && OnPins(c, times, SetAt(times, x))
    ensures Harmless(times, x)
  {
    hide Pattern, Run, Compiled, Schedulable;
    forall n: nat | n < Period(times) ensures Pattern(times, x + n) == Pattern(times, n) {
      RepeatsAt(c, times, x, n);
      assert Run(c, SetAt(times, x), n + Period(times)).output == Pattern(times, n + Period(times));
    }
  }

  /** A period later the timer is certainly x ticks ahead. */
  lemma RepeatsAt(c: Config, times: seq<Dwell>, x: u32, n: nat)
    requires Schedulable(times) && Compiled(c, times) && x < Period(times)
    ensures Run(c, SetAt(times, x), n + Period(times)).output == Pattern(times, x + n)
    ensures Pattern(times, n + Period(times)) == Pattern(times, n)
  {
    hide Pattern, Run, Compiled, Schedulable, SetAt;
    var p, i := Period(times), EntryAt(times, x, |times|);
    EntryBounds(times, i);
    AheadBy(c, times, x, i, n + p);
    FromReset(c, times, x + n + p);
    SamePattern(times, x + n, 0);
    SamePattern(times, n, 0);
  }

  lemma AheadIsRight(c: Config, times: seq<Dwell>, x: u32)
    requires Schedulable(times) && Compiled(c, times) && x < Period(times) && Harmless(times, x)
    ensures OnPins(c, times, SetAt(times, x))
  {
    hide Pattern, Run, Compiled, Schedulable, Harmless;
    forall n: nat ensures Run(c, SetAt(times, x), n).output == Pattern(times, n) {
      RightAt(c, times, x, n);
    }
  }

  lemma RightAt(c: Config, times: seq<Dwell>, x: u32, n: nat)
    requires Schedulable(times) && Compiled(c, times) && x < Period(times) && Harmless(times, x)
    ensures Run(c, SetAt(times, x), n).output == Pattern(times, n)
  {
    hide Pattern, Run, Compiled, Schedulable, PortToOutput;
    var i := EntryAt(times, x, |times|);
    EntryBounds(times, i);
    AheadBy(c, times, x, i, n);
    if x + n < StartOf(times, i + 1) {
      EntryBounds(times, 0);
      PatternOf(times, x, i);
      PatternOf(times, x + n, i);
      PatternOf(times, 0, 0);
      assert Pattern(times, x + 0) == Pattern(times, 0) && Pattern(times, x + n) == Pattern(times, n);
    } else {
      FromReset(c, times, x + n);
      SamePattern(times, n, x);
      SamePattern(times, n, 0);
      assert Pattern(times, x + n % Period(times)) == Pattern(times, n % Period(times));
    }
  }

  lemma OnePattern(c: Config, times: seq<Dwell>, x: u32)
    requires Schedulable(times) && Compiled(c, times) && Period(times) <= x && OnPins(c, times, SetAt(times, x))
    ensures Harmless(times, x)
  {
    hide PortToOutput, Pattern, OnPins, Compiled, Schedulable;
    forall i | 0 <= i < |times| ensures PortToOutput(times[i].port) == PortToOutput(times[0].port) {
      EntryBounds(times, i);
      AllFirst(c, times, x, StartOf(times, i));
      PatternOf(times, StartOf(times, i), i);
    }
  }

  /** If the pins are right although the counter has to wrap first, every pattern is the first one. */
  lemma {:induction false} AllFirst(c: Config, times: seq<Dwell>, x: u32, n: nat)
    requires Schedulable(times) && Compiled(c, times) && Period(times) <= x && n < Period(times)
    requires OnPins(c, times, SetAt(times, x))
    ensures Pattern(times, n) == PortToOutput(times[0].port)
  {
    hide PortToOutput, Pattern, Compiled, Schedulable, Run;
    assert Run(c, SetAt(times, x), n).output == Pattern(times, n);
    WrapsFirst(c, times, x, n);
    if x + n >= W32 {
      var m := x + n - W32;
      FromReset(c, times, m);
      AllFirst(c, times, x, m);
    }
  }

  lemma ConstantIsRight(c: Config, times: seq<Dwell>, x: u32)
    requires Schedulable(times) && Compiled(c, times) && Period(times) > 0 && x >= Period(times) && Harmless(times, x)
    ensures OnPins(c, times, SetAt(times, x))
  {
    hide PortToOutput, Compiled, Schedulable, Config.Valid;
    forall n: nat ensures Run(c, SetAt(times, x), n).output == Pattern(times, n) {
      WrapsFirst(c, times, x, n);
      if x + n >= W32 {
        FromReset(c, times, x + n - W32);
      }
    }
  }

  // ----- the clock input

  /** The whole peripheral. The counter advances on every (prescale + 1)-th edge of its input, unless it is
      halted; events happen in state 1 only. */
  datatype Peripheral = Peripheral(
    config: Config, running: Running, halted: bool, state: nat, prescale: nat, phase: nat)

  ghost function Edge(p: Peripheral): Peripheral
    requires p.config.Valid()
  {
    if p.halted then p
    else if p.phase < p.prescale then p.(phase := p.phase + 1)
    else p.(phase := 0, running := if p.state == 1 then Tick(p.config, p.running)
                                   else p.running.(counter := U32(p.running.counter + 1)))
  }

  ghost function Edges(p: Peripheral, n: nat): (q: Peripheral)
    requires p.config.Valid()
    ensures q.config == p.config && q.halted == p.halted && q.state == p.state && q.prescale == p.prescale
  {
    if n == 0 then p else Edge(Edges(p, n - 1))
  }

  /** With the prescaler cleared every edge is a tick. */
  lemma {:induction false} EdgesAreTicks(p: Peripheral, n: nat)
    requires p.config.Valid() && !p.halted && p.state == 1 && p.prescale == 0
    ensures Edges(p, n).running == Run(p.config, p.running, n)
  {
    hide Compiled, Config.Valid, Tick;
    if n > 0 {
      EdgesAreTicks(p, n - 1);
    }
  }

  /** In every period, entry i's pattern is held for exactly its dwell, counted in edges. */
  ghost predicate Switches(p: Peripheral, times: seq<Dwell>)
    requires p.config.Valid()
  {
    forall k: nat, i: nat, t: nat ::
      i < |times| && t < times[i].dwell ==>
        Edges(p, Moment(times, k, i, t)).running.output == PortToOutput(times[i].port)
  }

  /** Every tick is one of these moments. */
  lemma SwitchesOnPins(p: Peripheral, times: seq<Dwell>)
    requires Schedulable(times) && p.config.Valid() && Period(times) > 0
    ensures Switches(p, times) <==> forall n: nat :: Edges(p, n).running.output == Pattern(times, n)
  {
    hide PortToOutput, Edges, Pattern;
    if Switches(p, times) {
      forall n: nat ensures Edges(p, n).running.output == Pattern(times, n) {
        var k, i, t := TickIsMoment(times, n);
        assert Moment(times, k, i, t) == n;
      }
    }
    if forall n: nat :: Edges(p, n).running.output == Pattern(times, n) {
      forall k: nat, i: nat, t: nat | i < |times| && t < times[i].dwell
        ensures Edges(p, Moment(times, k, i, t)).running.output == PortToOutput(times[i].port)
      {
        MomentPattern(times, k, i, t);
      }
    }
  }

  lemma MomentPattern(times: seq<Dwell>, k: nat, i: nat, t: nat)
    requires Schedulable(times) && Period(times) > 0 && i < |times| && t < times[i].dwell
    ensures Pattern(times, Moment(times, k, i, t)) == PortToOutput(times[i].port)
  {
    var p, q := Period(times), StartOf(times, i) + t;
    StartOfPeriodIs(times, k);
    BoundedStart(times, i + 1);
    EntryIsUnique(times, q, i);
    DivUnique(Moment(times, k, i, t), p, k, q);
  }

  lemma TickIsMoment(times: seq<Dwell>, n: nat) returns (k: nat, i: nat, t: nat)
    requires Schedulable(times) && Period(times) > 0
    ensures i < |times| && t < times[i].dwell && Moment(times, k, i, t) == n
    ensures Pattern(times, n) == PortToOutput(times[i].port)
  {
    var p := Period(times);
    k := n / p;
    i := EntryAt(times, n % p, |times|);
    t := n % p - StartOf(times, i);
    StartOfPeriodIs(times, k);
  }

  /** Timed switching with whatever the counter holds: right on the pins exactly for harmless schedules. */
  lemma SwitchesAnyway(p: Peripheral, times: seq<Dwell>)
    requires Schedulable(times) && Compiled(p.config, times) && p.running.counter < W32
    requires p.running == SetAt(times, p.running.counter) && !p.halted && p.state == 1 && p.prescale == 0
    ensures Period(times) > 0 && (Switches(p, times) <==> Harmless(times, p.running.counter))
  {
    hide PortToOutput, Edges, Pattern, Harmless, Compiled, Schedulable, Config.Valid;
    CounterMatters(p.config, times, p.running.counter);
    SwitchesOnPins(p, times);
    forall n: nat ensures Edges(p, n).running == Run(p.config, p.running, n) {
      EdgesAreTicks(p, n);
    }
  }

  lemma EdgesSwitch(p: Peripheral, times: seq<Dwell>)
    requires Schedulable(times) && Compiled(p.config, times) && p.running == FirstPosition(times)
    requires !p.halted && p.state == 1 && p.prescale == 0
    ensures Switches(p, times)
  {
    hide Compiled, Schedulable, Config.Valid, PortToOutput, Edges, Run;
    forall k: nat, i: nat, t: nat | i < |times| && t < times[i].dwell
      ensures Edges(p, Moment(times, k, i, t)).running.output == PortToOutput(times[i].port)
    {
      EdgesAreTicks(p, Moment(times, k, i, t));
      DwellSchedule(p.config, times, k, i, t);
    }
  }

  /** Events below i whose next port has the given bit (0, 1 or 2) at the given value. */
  function Mask(times: seq<Dwell>, i: nat, bit: nat, value: bool): set<nat>
    requires i <= |times|
  {
    if i == 0 then {}
    else Mask(times, i - 1, bit, value) + (if HasBit(NextPort(times, i - 1), bit) == value then {i - 1} else {})
  }

  lemma {:induction false} MaskMembers(times: seq<Dwell>, i: nat, bit: nat, value: bool)
    requires i <= |times|
    ensures forall e: nat :: e in Mask(times, i, bit, value) <==> e < i && HasBit(NextPort(times, e), bit) == value
  {
    if i > 0 {
      MaskMembers(times, i - 1, bit, value);
    }
  }

  predicate HasBit(port: u8, bit: nat) {
    if bit == 0 then Bit0(port) else if bit == 1 then Bit1(port) else Bit2(port)
  }

  lemma NextMatch(times: seq<Dwell>, i: nat)
    requires i < |times|
    ensures i > 0 ==> U32(U32(StartOf(times, i) - 1) + times[i].dwell) == U32(StartOf(times, i + 1) - 1)
    ensures i == 0 ==> U32(U32(0 + times[i].dwell) - 1) == U32(StartOf(times, i + 1) - 1)
  {
  }

  /** The six masks of the loop make up the compiled configuration. */
  lemma MasksCompile(c: Config, times: seq<Dwell>)
    requires 1 <= |times| <= EVENTS && c.Valid()
    requires forall i :: 0 <= i < |times| ==> c.enabled[i] && c.matches[i] == U32(StartOf(times, i + 1) - 1)
    requires var n := |times|;
             && c.limit == {n - 1}
             && c.setBy == map[13 := Mask(times, n, 0, true), 11 := Mask(times, n, 0, true),
                               12 := Mask(times, n, 1, true), 8 := Mask(times, n, 1, true),
                               14 := Mask(times, n, 2, false)]
             && c.clrBy == map[13 := Mask(times, n, 0, false), 11 := Mask(times, n, 0, false),
                               12 := Mask(times, n, 1, false), 8 := Mask(times, n, 1, false),
                               14 := Mask(times, n, 2, true)]
    ensures Compiled(c, times)
  {
    hide PortToOutput, NextPort, HasBit, StartOf, Mask;
    var n := |times|;
    forall bit: nat, value: bool
      ensures forall e: nat :: e in Mask(times, n, bit, value) <==> e < n && HasBit(NextPort(times, e), bit) == value
    {
      MaskMembers(times, n, bit, value);
    }
    forall p | p in PINS
      ensures c.setBy[p] == (set i: nat | i < n && p in PortToOutput(NextPort(times, i)))
      ensures c.clrBy[p] == (set i: nat | i < n && p !in PortToOutput(NextPort(times, i)))
    {
      forall i: nat | i < n
        ensures i in c.setBy[p] <==> p in PortToOutput(NextPort(times, i))
        ensures i in c.clrBy[p] <==> p !in PortToOutput(NextPort(times, i))
      {
        PinLevel(NextPort(times, i), p);
      }
    }
  }

  lemma PinLevel(port: u8, p: nat)
    requires p in PINS
    ensures p == 11 || p == 13 ==> (p in PortToOutput(port) <==> HasBit(port, 0))
    ensures p == 8 || p == 12 ==> (p in PortToOutput(port) <==> HasBit(port, 1))
    ensures p == 14 ==> (p in PortToOutput(port) <==> !HasBit(port, 2))
  {
  }

  /** The SCTimer peripheral with its configuration and running state. */
  class Timer {
    var halted: bool
    var prescale: nat
    var state: nat
    var config: Config
    var running: Running
    var defaultOutput: set<nat>

    ghost predicate Valid()
      reads this
    {
      config.Valid() && running.counter < W32
    }

    /** The peripheral's registers; what the prescaler has counted so far is left open. */
    ghost function Registers(phase: nat): Peripheral
      reads this
    {
      Peripheral(config, running, halted, state, prescale, phase)
    }

    constructor ()
      ensures Valid()
    {
      halted, prescale, state := false, 1, 0;
      var none := map p | p in PINS :: {};
      config := Config(seq(EVENTS, _ => 0), seq(EVENTS, _ => false), none, none, {});
      running := Running(0, {});
      defaultOutput := {};
    }

    /** Selects state 1 (schedule running) or state 0 (no event happens). */
    method Enable(enable: bool)
      requires Valid()
      modifies this
      ensures Valid() && state == (if enable then 1 else 0) && !halted
      ensures config == old(config) && running == old(running) && defaultOutput == old(defaultOutput)
      ensures prescale == 0
    {
      halted, prescale := true, 0;  // the whole control register is assigned
      state := if enable then 1 else 0;
      halted := false;
    }

    /** Compiles a schedule. Events at and above |times| keep their old, now unmasked, matches. */
    method SetDwellTimes(times: seq<Dwell>)
      requires Valid() && 1 <= |times| <= EVENTS
      modifies this
      ensures Valid() && Compiled(config, times) && !halted && prescale == 0 && state == old(state)
      ensures running.counter == old(running.counter)
      ensures running.output == defaultOutput == PortToOutput(times[0].port)
      ensures config.enabled[|times|..] == old(config.enabled)[|times|..]
      ensures config.matches[|times|..] == old(config.matches)[|times|..]
    {
      hide StartOf, PortToOutput, NextPort, HasBit, Compiled;
      var n := |times|;
      halted, prescale := true, 0;  // the whole control register is assigned

      var matches, enabled := MatchEvents(times, config.matches, config.enabled);
      var bit0Set, bit0Clr, bit1Set, bit1Clr, bit2Set, bit2Clr := PinEvents(times);
      config := Config(
        matches, enabled,
        map[13 := bit0Set, 11 := bit0Set, 12 := bit1Set, 8 := bit1Set, 14 := bit2Set],
        map[13 := bit0Clr, 11 := bit0Clr, 12 := bit1Clr, 8 := bit1Clr, 14 := bit2Clr],
        {n - 1});
      MasksCompile(config, times);

      defaultOutput := PortToOutput(times[0].port);
      running := running.(output := defaultOutput);
      halted := false;
    }

    /** The loop over the entries, part one: event i is enabled on its match. */
    static method MatchEvents(times: seq<Dwell>, matches0: seq<u32>, enabled0: seq<bool>)
      returns (matches: seq<u32>, enabled: seq<bool>)
      requires |times| <= EVENTS && |matches0| == |enabled0| == EVENTS
      ensures |matches| == |enabled| == EVENTS
      ensures forall e :: 0 <= e < |times| ==> enabled[e] && matches[e] == U32(StartOf(times, e + 1) - 1)
      ensures enabled[|times|..] == enabled0[|times|..] && matches[|times|..] == matches0[|times|..]
    {
      hide StartOf, U32;
      var counter: u32 := 0;
      matches, enabled := matches0, enabled0;
      for i := 0 to |times|
        invariant |matches| == |enabled| == EVENTS
        invariant counter == if i == 0 then 0 else U32(StartOf(times, i) - 1)
        invariant forall e :: 0 <= e < i ==> enabled[e] && matches[e] == U32(StartOf(times, e + 1) - 1)
        invariant forall e :: i <= e < EVENTS ==> enabled[e] == enabled0[e] && matches[e] == matches0[e]
      {
        enabled := enabled[i := true];
        NextMatch(times, i);
        counter := U32(counter + times[i].dwell);
        if i == 0 {
          counter := U32(counter - 1);
        }
        matches := matches[i := counter];
      }
    }

    /** The loop over the entries, part two: event i selects the pins of the next port. */
    static method PinEvents(times: seq<Dwell>)
      returns (bit0Set: set<nat>, bit0Clr: set<nat>, bit1Set: set<nat>, bit1Clr: set<nat>,
               bit2Set: set<nat>, bit2Clr: set<nat>)
      ensures bit0Set == Mask(times, |times|, 0, true) && bit0Clr == Mask(times, |times|, 0, false)
      ensures bit1Set == Mask(times, |times|, 1, true) && bit1Clr == Mask(times, |times|, 1, false)
      ensures bit2Set == Mask(times, |times|, 2, false) && bit2Clr == Mask(times, |times|, 2, true)
    {
      var n := |times|;
      bit0Set, bit0Clr, bit1Set, bit1Clr, bit2Set, bit2Clr := {}, {}, {}, {}, {}, {};
      for i := 0 to n
        invariant bit0Set == Mask(times, i, 0, true) && bit0Clr == Mask(times, i, 0, false)
        invariant bit1Set == Mask(times, i, 1, true) && bit1Clr == Mask(times, i, 1, false)
        invariant bit2Set == Mask(times, i, 2, false) && bit2Clr == Mask(times, i, 2, true)
      {
        var port := if i == n - 1 then times[0].port else times[i + 1].port;
        bit0Set := bit0Set + (if Bit0(port) then {i} else {});
        bit0Clr := bit0Clr + (if Bit0(port) then {} else {i});
        bit1Set := bit1Set + (if Bit1(port) then {i} else {});
        bit1Clr := bit1Clr + (if Bit1(port) then {} else {i});
        bit2Set := bit2Set + (if Bit2(port) then {} else {i});  // the pin is inverted
        bit2Clr := bit2Clr + (if Bit2(port) then {i} else {});
      }
    }

    /** Clears the counter and selects the first port again. */
    method ResetState()
      requires Valid()
      modifies this
      ensures Valid() && running == Running(0, defaultOutput) && !halted
      ensures config == old(config) && defaultOutput == old(defaultOutput) && state == old(state)
      ensures prescale == old(prescale)
    {
      halted := true;
      running := running.(counter := 0);
      running := running.(output := defaultOutput);
      halted := false;
    }

    /** The two calls that set up timed switching, which come from different requests of the host. */
    method SetUp(times: seq<Dwell>, enableFirst: bool)
      requires Valid() && Schedulable(times)
      modifies this
      ensures Valid() && Compiled(config, times) && state == 1 && prescale == 0 && !halted
      ensures running.counter == old(running.counter)
      ensures running.output == defaultOutput == PortToOutput(times[0].port)
    {
      if enableFirst {
        Enable(true);
      }
      SetDwellTimes(times);
      if !enableFirst {
        Enable(true);
      }
    }

    /** Set up in either order and then reset: from then on, in every period, entry i's pattern is held for
        exactly its dwell, counted in edges of the clock input. */
    method StartSwitching(times: seq<Dwell>, enableFirst: bool)
      requires Valid() && Schedulable(times)
      modifies this
      ensures Valid() && Compiled(config, times) && running == FirstPosition(times)
      ensures forall phase: nat :: Switches(Registers(phase), times)
    {
      SetUp(times, enableFirst);
      ResetState();
      forall phase: nat ensures Switches(Registers(phase), times) {
        EdgesSwitch(Registers(phase), times);
      }
    }

    /** Without the reset the same holds exactly when the counter's value is harmless. */
    method StartWithoutReset(times: seq<Dwell>, enableFirst: bool)
      requires Valid() && Schedulable(times)
      modifies this
      ensures Valid() && Compiled(config, times) && Period(times) > 0
      ensures forall phase: nat :: Switches(Registers(phase), times) <==> Harmless(times, old(running.counter))
    {
      SetUp(times, enableFirst);
      PeriodIsPositive(times);
      forall phase: nat ensures Switches(Registers(phase), times) <==> Harmless(times, running.counter) {
        SwitchesAnyway(Registers(phase), times);
      }
    }
  }
}
