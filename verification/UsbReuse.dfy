// Descriptors are memory of the pool's transfers (common/usb_queue.c), and a
// transfer is used again. A prime of UsbAppend may still be pending for a descriptor
// that is finished and returned; this is about the controller reading a transfer
// that the driver is filling for its next descriptor.

module UsbReuse {
  import opened UsbAppend

  /** What the driver has written: nothing, the link TERMINATE, the ACTIVE bit, the buffer pointers. */
  datatype Stage = Taken | Terminated | Activated | Filled

  /** The driver is filling transfer k; slot[d] is the transfer of descriptor d. */
  datatype Filling = Filling(b: State, slot: seq<nat>, k: nat, stage: Stage)

  function After(stage: Stage): Stage {
    match stage
    case Taken => Terminated
    case Terminated => Activated
    case Activated => Filled
    case Filled => Filled
  }

  /** The controller, serving a pending prime, will read transfer k next. */
  ghost predicate ReadsFilling(f: Filling) {
    f.b.priming && !f.b.ready && f.b.qhNext < |f.slot| && f.slot[f.b.qhNext] == f.k
  }

  /** It would find an active descriptor whose buffer pointers are still those of the last use. */
  ghost predicate LoadsHalfFilled(f: Filling) {
    ReadsFilling(f) && f.stage == Activated
  }

  /** It would find an inactive descriptor whose link has been cut off, and give up the prime. */
  ghost predicate LosesChain(f: Filling) {
    ReadsFilling(f) && f.stage == Terminated
  }

  /** Meanwhile the driver writes, transfers complete, and the controller works as long as it reads other
      transfers. */
  ghost predicate Step(f: Filling, g: Filling) {
    || g == f.(stage := After(f.stage))
    || (g == f.(b := g.b)
        && (CompleteOne(f.b, g.b) || OtherEndpoint(f.b, g.b) || ReadLink(f.b, g.b) || ActOnLink(f.b, g.b)
            || (LoadPrimed(f.b, g.b) && !ReadsFilling(f))))
  }

  /** A transfer has just been allocated: it belongs to no descriptor that is still on the software list. */
  ghost predicate Allocated(f: Filling) {
    && Inv(f.b) && f.b.pc == Idle && |f.slot| == |f.b.next| && f.stage == Taken
    && forall d :: f.b.completed <= d < |f.slot| ==> f.slot[d] != f.k
  }

  ghost predicate IsRunFrom(f: Filling, run: seq<Filling>) {
    |run| >= 1 && run[0] == f && forall i :: 0 <= i < |run| - 1 ==> Step(run[i], run[i + 1])
  }

  /** A prime is pending, and the transfer is that of a finished descriptor the prime still leads to. */
  ghost predicate Stale(f: Filling) {
    f.b.priming && exists d :: f.b.qhNext <= d < f.b.completed && d < |f.slot| && f.slot[d] == f.k
  }

  // ----- without such a prime it is never read

  /** What a step leaves, from the allocation f on. */
  ghost predicate Since(f: Filling, g: Filling) {
    && Inv(g.b) && g.b.pc == Idle && g == f.(b := g.b, stage := g.stage) && |g.b.next| == |f.b.next|
    && (g.b.priming ==> f.b.priming && f.b.qhNext <= g.b.qhNext)
  }

  lemma SinceStep(f: Filling, g: Filling, h: Filling)
    requires Allocated(f) && Since(f, g) && Step(g, h)
    ensures Since(f, h)
  {
    if h.b != g.b {
      StepInv(g.b, h.b);
      if LoadPrimed(g.b, h.b) {
        SkipsForward(g.b, h.b);
      }
    }
  }

  lemma StepInv(s: State, t: State)
    requires Inv(s) && s.pc == Idle
    requires CompleteOne(s, t) || OtherEndpoint(s, t) || ReadLink(s, t) || ActOnLink(s, t) || LoadPrimed(s, t)
    ensures Inv(t)
  {
    hide Inv;
    NextInv(s, t);
  }

  lemma SkipsForward(s: State, t: State)
    requires Inv(s) && LoadPrimed(s, t)
    ensures t.pc == s.pc && |t.next| == |s.next| && (t.priming ==> s.qhNext <= t.qhNext)
  {
  }

  lemma {:induction false} RunSince(f: Filling, run: seq<Filling>, i: nat)
    requires Allocated(f) && IsRunFrom(f, run) && i < |run|
    ensures Since(f, run[i])
    decreases i
  {
    hide Inv, Step;
    if i > 0 {
      RunSince(f, run, i - 1);
      SinceStep(f, run[i - 1], run[i]);
    }
  }

  lemma OnlyIfStale(f: Filling, g: Filling)
    requires Allocated(f) && Since(f, g) && ReadsFilling(g)
    ensures Stale(f)
  {
    assert f.slot[g.b.qhNext] == f.k;
  }

  // ----- with such a prime it can be

  /** The controller comes to the transfer: it finishes what it has, and then skips along the chain. */
  lemma {:induction false} ComesToIt(f: Filling, d: nat) returns (run: seq<Filling>)
    requires Inv(f.b) && f.b.pc == Idle && |f.slot| == |f.b.next| && f.b.priming
    requires f.b.qhNext <= d < f.b.completed && d < |f.slot| && f.slot[d] == f.k
    ensures IsRunFrom(f, run)
    ensures var g := run[|run| - 1]; ReadsFilling(g) && g.stage == f.stage
    decreases 2 * (|f.b.next| - |f.b.retired|) - (if f.b.hazard then 1 else 0), d - f.b.qhNext
  {
    if ReadsFilling(f) {
      run := [f];
    } else {
      var t := MoveOn(f, d);
      var g := f.(b := t);
      StepInv(f.b, t);
      var rest := ComesToIt(g, d);
      run := [f] + rest;
      Prepend(f, g, rest);
    }
  }

  lemma MoveOn(f: Filling, d: nat) returns (t: State)
    requires Inv(f.b) && f.b.pc == Idle && |f.slot| == |f.b.next| && f.b.priming && !ReadsFilling(f)
    requires f.b.qhNext <= d < f.b.completed && d < |f.slot| && f.slot[d] == f.k
    ensures ReadLink(f.b, t) || ActOnLink(f.b, t) || LoadPrimed(f.b, t)
    ensures t.priming && t.pc == Idle && t.completed == f.b.completed && |t.next| == |f.b.next|
    ensures f.b.qhNext <= t.qhNext <= d
    ensures var work, left := 2 * (|f.b.next| - |f.b.retired|) - (if f.b.hazard then 1 else 0),
                              2 * (|t.next| - |t.retired|) - (if t.hazard then 1 else 0);
            0 <= left && (left < work || (left == work && f.b.qhNext < t.qhNext))
  {
    var s := f.b;
    if s.ready && !s.hazard {
      t := s.(hazard := true, latched := s.next[s.cur], atdtw := false);
    } else if s.ready {
      t := s.(hazard := false, active := s.active[s.cur := false], retired := s.retired + [s.cur],
              ready := s.latched.To?, cur := if s.latched.To? then s.latched.td else s.cur);
    } else {
      assert s.qhNext < d && !s.active[s.qhNext] && s.next[s.qhNext] == To(s.qhNext + 1);
      t := s.(qhNext := s.qhNext + 1);
    }
  }

  lemma Prepend(f: Filling, g: Filling, rest: seq<Filling>)
    requires IsRunFrom(g, rest) && Step(f, g)
    ensures IsRunFrom(f, [f] + rest)
  {
    var run := [f] + rest;
    forall i | 0 <= i < |run| - 1 ensures Step(run[i], run[i + 1]) {
      if i > 0 {
        assert Step(rest[i - 1], rest[i]);
      }
    }
  }

  lemma Extend(f: Filling, run: seq<Filling>, g: Filling)
    requires IsRunFrom(f, run) && Step(run[|run| - 1], g)
    ensures IsRunFrom(f, run + [g])
  {
    var longer := run + [g];
    forall i | 0 <= i < |longer| - 1 ensures Step(longer[i], longer[i + 1]) {
      if i < |run| - 1 {
        assert Step(run[i], run[i + 1]);
      }
    }
  }

  lemma HalfFilledRun(f: Filling) returns (run: seq<Filling>)
    requires Allocated(f) && Stale(f)
    ensures IsRunFrom(f, run) && LoadsHalfFilled(run[|run| - 1])
  {
    var d :| f.b.qhNext <= d < f.b.completed && d < |f.slot| && f.slot[d] == f.k;
    run := ComesToIt(f, d);
    var g := run[|run| - 1];
    Extend(f, run, g.(stage := Terminated));
    run := run + [g.(stage := Terminated)];
    Extend(f, run, g.(stage := Activated));
    run := run + [g.(stage := Activated)];
  }

  /** A transfer can be loaded half filled, from its allocation on, if and only if at the allocation a prime is
      pending that still leads to the transfer's last descriptor. */
  lemma HalfFilledExactly(f: Filling)
    requires Allocated(f)
    ensures (exists run :: IsRunFrom(f, run) && LoadsHalfFilled(run[|run| - 1])) <==> Stale(f)
  {
    hide Allocated, Stale;
    if Stale(f) {
      var run := HalfFilledRun(f);
      assert IsRunFrom(f, run) && LoadsHalfFilled(run[|run| - 1]);
    }
    if run :| IsRunFrom(f, run) && LoadsHalfFilled(run[|run| - 1]) {
      RunSince(f, run, |run| - 1);
      OnlyIfStale(f, run[|run| - 1]);
    }
  }

  /** Otherwise the controller never reads the transfer while it is being filled, at any stage; in particular
      it does not find the chain behind a finished descriptor cut off. */
  lemma NoStaleNoRead(f: Filling, run: seq<Filling>, i: nat)
    requires Allocated(f) && !Stale(f) && IsRunFrom(f, run) && i < |run|
    ensures !ReadsFilling(run[i]) && !LosesChain(run[i]) && !LoadsHalfFilled(run[i])
  {
    hide Allocated, Stale;
    RunSince(f, run, i);
    if ReadsFilling(run[i]) {
      OnlyIfStale(f, run[i]);
    }
  }

  /** It happens: after the redundant prime of UsbAppend both transfers are returned, the second last, so
      that the free list gives it out next, while the prime for it is pending. */
  lemma ReuseTooEarly() returns (past: seq<State>, run: seq<Filling>)
    ensures IsRun(past) && past[0].skips && |run| >= 1
    ensures run[0] == Filling(past[|past| - 1], [0, 1], 1, Taken)
    ensures IsRunFrom(run[0], run) && LoadsHalfFilled(run[|run| - 1])
  {
    past := RedundantPrime(true);
    var t := past[|past| - 1];
    past := Then(past, t.(completed := 1));
    past := Then(past, t.(completed := 2));
    SkipsKept(past, |past| - 1);
    RunInv(past, |past| - 1);
    var f := Filling(past[|past| - 1], [0, 1], 1, Taken);
    assert f.slot[1] == 1;
    run := HalfFilledRun(f);
  }

  lemma {:induction false} SkipsKept(past: seq<State>, i: nat)
    requires IsRun(past) && i < |past|
    ensures past[0].skips == past[i].skips
    decreases i
  {
    hide Next, Init;
    if i > 0 {
      SkipsKept(past, i - 1);
      Lengthens(past[i - 1], past[i]);
    }
  }
}
