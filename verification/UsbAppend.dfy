// Appending to a running endpoint (common/usb.c, usb_endpoint_schedule_wait and
// usb_endpoint_schedule_append): the driver links a new transfer descriptor
// behind a chain that the controller is walking at the same time.
//
// Driver and controller interleave step by step. Descriptors are numbered in
// the order in which they are scheduled. The controller retires a descriptor in
// two steps, reading its link and then acting on it, and holds the tripwire bit
// ATDTW at zero in between.

module UsbAppend {
  /** Program counter of the driver. */
  datatype Pc =
    | Idle
    | WaitReady      // schedule_wait: wait until the endpoint is not ready
    | WaitTerminate  // schedule_wait: new_td->next := TERMINATE
    | Link           // append: tail_td->next := new_td
    | CheckPriming   // append: return if a prime is pending
    | SetTripwire    // append: ATDTW := 1
    | ReadReady      // append: done := endpoint ready
    | CheckTripwire  // append: repeat while ATDTW reads 0
    | ClearTripwire  // append: ATDTW := 0
    | PrimePointer   // prime: queue head points at the new descriptor
    | PrimeBit       // prime: request priming

  datatype Link = Terminate | To(td: nat)

  datatype State = State(
    // memory shared by the two: link and ACTIVE bit of each descriptor
    next: seq<Link>, active: seq<bool>,
    // driver: descriptors below completed have been taken off the software list
    pc: Pc, done: bool, completed: nat,
    // controller
    atdtw: bool, qhNext: nat, priming: bool, ready: bool, cur: nat, hazard: bool, latched: Link,
    // history: descriptors in the order the controller finished them
    retired: seq<nat>,
    // the kind of controller: does it skip a primed descriptor that is already finished?
    skips: bool)
  {
    /** The most recently scheduled descriptor; it is the one being appended while pc is not Idle. */
    function Last(): int {
      |next| - 1
    }
  }

  ghost predicate Init(s: State) {
    && s.next == [] && s.active == [] && s.retired == [] && s.completed == 0
    && s.pc == Idle && !s.priming && !s.ready && !s.hazard
  }

  // ----- the driver

  /** Scheduling takes the waiting path when the software list is empty, else the appending path. */
  ghost predicate StartSchedule(s: State, t: State) {
    && s.pc == Idle
    && t == s.(next := s.next + [Terminate], active := s.active + [true],
               pc := if s.completed == |s.next| then WaitReady else Link)
  }

  /** The completion interrupt takes the head off the software list once its ACTIVE bit is clear. */
  ghost predicate CompleteOne(s: State, t: State) {
    && s.pc == Idle && s.completed < |s.next| && s.completed < |s.active| && !s.active[s.completed]
    && t == s.(completed := s.completed + 1)
  }

  ghost predicate DriverStep(s: State, t: State) {
    match s.pc
    case Idle => StartSchedule(s, t) || CompleteOne(s, t)
    case WaitReady => t == if s.ready then s else s.(pc := WaitTerminate)
    case WaitTerminate => s.Last() >= 0 && t == s.(next := s.next[s.Last() := Terminate], pc := PrimePointer)
    case Link => s.Last() >= 1 && t == s.(next := s.next[s.Last() - 1 := To(s.Last())], pc := CheckPriming)
    case CheckPriming => t == s.(pc := if s.priming then Idle else SetTripwire)
    case SetTripwire => t == s.(atdtw := !s.hazard, pc := ReadReady)
    case ReadReady => t == s.(done := s.ready, pc := CheckTripwire)
    case CheckTripwire => t == s.(pc := if s.atdtw then ClearTripwire else SetTripwire)
    case ClearTripwire => t == s.(atdtw := false, pc := if s.done then Idle else PrimePointer)
    case PrimePointer => s.Last() >= 0 && t == s.(qhNext := s.Last(), pc := PrimeBit)
    case PrimeBit => t == s.(priming := true, pc := Idle)
  }

  // ----- the controller

  /** A pending prime is served while the endpoint is not ready: the queue head's descriptor becomes
      current. One whose ACTIVE bit is already clear is skipped along its link, or ends the prime. */
  ghost predicate LoadPrimed(s: State, t: State) {
    && s.priming && !s.ready && s.qhNext < |s.active| && s.qhNext < |s.next|
    && t == if s.active[s.qhNext] then s.(priming := false, ready := true, cur := s.qhNext)
            else if !s.skips then s.(priming := false)
            else match s.next[s.qhNext]
                 case To(td) => s.(qhNext := td)
                 case Terminate => s.(priming := false)
  }

  /** The current descriptor is finished: its link is read, and until it is acted on ATDTW is 0. */
  ghost predicate ReadLink(s: State, t: State) {
    && s.ready && !s.hazard && s.cur < |s.next|
    && t == s.(hazard := true, latched := s.next[s.cur], atdtw := false)
  }

  ghost predicate ActOnLink(s: State, t: State) {
    && s.ready && s.hazard && s.cur < |s.active|
    && t == s.(hazard := false, active := s.active[s.cur := false], retired := s.retired + [s.cur],
               ready := s.latched.To?, cur := if s.latched.To? then s.latched.td else s.cur)
  }

  /** Another endpoint's hazard also clears the tripwire bit, at any time. */
  ghost predicate OtherEndpoint(s: State, t: State) {
    t == s.(atdtw := false)
  }

  ghost predicate ControllerStep(s: State, t: State) {
    LoadPrimed(s, t) || ReadLink(s, t) || ActOnLink(s, t)
  }

  ghost predicate Next(s: State, t: State) {
    DriverStep(s, t) || ControllerStep(s, t) || OtherEndpoint(s, t)
  }

  // ----- what every reachable state satisfies

  /** The first k descriptor numbers, in order. */
  function UpTo(k: nat): seq<nat> {
    seq(k, i => i)
  }

  /** The links lead from descriptor i to descriptor j. */
  ghost predicate Linked(s: State, i: nat, j: int) {
    forall k :: i <= k < j && k < |s.next| ==> s.next[k] == To(k + 1)
  }

  /** The current descriptor is running, and what the controller latched is still what the link says. */
  ghost predicate Running(s: State) {
    s.ready && s.cur < |s.next| && (s.hazard ==> s.latched == s.next[s.cur])
  }

  predicate WaitPath(pc: Pc) {
    pc == WaitReady || pc == WaitTerminate
  }

  predicate TripwirePath(pc: Pc) {
    pc == SetTripwire || pc == ReadReady || pc == CheckTripwire
  }

  /** Descriptors finish in order, exactly once; all but the newest are linked up. */
  ghost predicate Ordered(s: State) {
    var n, r := |s.next|, |s.retired|;
    && |s.active| == n && s.completed <= r <= n && s.retired == UpTo(r)
    && (forall i :: 0 <= i < n ==> (s.active[i] <==> i >= r))
    && (forall i :: 0 <= i < n ==> s.next[i] == Terminate || s.next[i] == To(i + 1))
    && (n >= 1 ==> s.next[n - 1] == Terminate)
    && Linked(s, r, if s.pc == Link then n - 2 else n - 1)
  }

  /** What the controller holds. */
  ghost predicate ControllerInv(s: State) {
    var n, r := |s.next|, |s.retired|;
    && (s.ready ==> s.cur == r < n)
    && (s.hazard ==> s.ready)
    && (s.hazard && s.latched != s.next[s.cur] ==>
          s.latched == Terminate && (s.priming || (s.cur == n - 2 && (s.pc == CheckPriming || TripwirePath(s.pc)))))
    && (s.priming ==> s.qhNext < n && s.qhNext <= r)
    && (s.priming && !Unlinked(s) ==> Linked(s, s.qhNext, n - 1))
    && (s.priming && Unlinked(s) ==> Linked(s, s.qhNext, n - 2) && s.qhNext <= n - 2 && s.next[n - 2] == Terminate)
  }

  /** The newest descriptor is not behind the older ones yet. */
  ghost predicate Unlinked(s: State) {
    WaitPath(s.pc) || s.pc == Link || s.pc == PrimePointer
  }

  /** What the driver knows at each step. */
  ghost predicate DriverInv(s: State) {
    var n, r := |s.next|, |s.retired|;
    && (s.pc != Idle ==> n >= 1)
    && match s.pc
       case Idle => r < n ==> Running(s) || s.priming
       case WaitReady => r == n - 1 && !s.ready
       case WaitTerminate => r == n - 1 && !s.ready
       case Link => n >= 2 && s.next[n - 2] == Terminate && (r < n - 1 ==> Running(s) || s.priming)
       case CheckPriming => n >= 2 && (r < n - 1 ==> s.ready || s.priming)
       case SetTripwire => n >= 2 && !s.priming && (r < n - 1 ==> s.ready)
       case ReadReady => n >= 2 && !s.priming && (r < n - 1 ==> s.ready) && (s.atdtw ==> !s.hazard)
       case CheckTripwire => n >= 2 && !s.priming && (r < n - 1 ==> s.ready)
                             && (if s.done then s.atdtw ==> s.ready && !s.hazard else !s.ready)
       case ClearTripwire => n >= 2 && !s.priming && (if s.done then r < n ==> Running(s) else !s.ready && r >= n - 1)
       case PrimePointer => !s.ready && r >= n - 1 && (s.priming ==> r == n - 1)
       case PrimeBit => s.qhNext == n - 1 && r >= n - 1
  }

  ghost predicate Inv(s: State) {
    s.skips && Ordered(s) && ControllerInv(s) && DriverInv(s)
  }

  lemma InitInv(s: State)
    requires Init(s) && s.skips
    ensures Inv(s)
  {
  }

  lemma ScheduleInv(s: State, t: State)
    requires Inv(s) && StartSchedule(s, t)
    ensures Inv(t)
  {
  }

  lemma CompleteInv(s: State, t: State)
    requires Inv(s) && CompleteOne(s, t)
    ensures Inv(t)
  {
  }

  lemma WaitReadyInv(s: State, t: State)
    requires Inv(s) && s.pc == WaitReady && DriverStep(s, t)
    ensures Inv(t)
  {
  }

  lemma WaitTerminateInv(s: State, t: State)
    requires Inv(s) && s.pc == WaitTerminate && DriverStep(s, t)
    ensures Inv(t)
  {
  }

  lemma LinkInv(s: State, t: State)
    requires Inv(s) && s.pc == Link && DriverStep(s, t)
    ensures Inv(t)
  {
  }

  lemma CheckPrimingInv(s: State, t: State)
    requires Inv(s) && s.pc == CheckPriming && DriverStep(s, t)
    ensures Inv(t)
  {
  }

  lemma TripwireInv(s: State, t: State)
    requires Inv(s) && TripwirePath(s.pc) && DriverStep(s, t)
    ensures Inv(t)
  {
  }

  lemma ClearTripwireInv(s: State, t: State)
    requires Inv(s) && s.pc == ClearTripwire && DriverStep(s, t)
    ensures Inv(t)
  {
  }

  lemma PrimeInv(s: State, t: State)
    requires Inv(s) && (s.pc == PrimePointer || s.pc == PrimeBit) && DriverStep(s, t)
    ensures Inv(t)
  {
  }

  lemma LoadPrimedInv(s: State, t: State)
    requires Inv(s) && LoadPrimed(s, t)
    ensures Inv(t)
  {
    if s.active[s.qhNext] {
      LoadActiveInv(s, t);
    } else {
      SkipFinishedInv(s, t);
    }
  }

  lemma LoadActiveInv(s: State, t: State)
    requires Inv(s) && LoadPrimed(s, t) && s.active[s.qhNext]
    ensures Inv(t)
  {
    assert s.qhNext == |s.retired|;
  }

  lemma SkipFinishedInv(s: State, t: State)
    requires Inv(s) && LoadPrimed(s, t) && !s.active[s.qhNext]
    ensures Inv(t)
  {
    hide Ordered, ControllerInv, DriverInv;
    SkipOrdered(s, t);
    SkipController(s, t);
    SkipDriver(s, t);
  }

  lemma SkipOrdered(s: State, t: State)
    requires Inv(s) && LoadPrimed(s, t) && !s.active[s.qhNext]
    ensures Ordered(t) && t.skips
  {
    hide ControllerInv, DriverInv;
  }

  lemma SkipController(s: State, t: State)
    requires Inv(s) && LoadPrimed(s, t) && !s.active[s.qhNext]
    ensures ControllerInv(t)
  {
    hide DriverInv;
    assert s.qhNext < |s.retired|;
    assert s.next[s.qhNext] == Terminate || s.next[s.qhNext] == To(s.qhNext + 1);
  }

  lemma SkipDriver(s: State, t: State)
    requires Inv(s) && LoadPrimed(s, t) && !s.active[s.qhNext]
    ensures DriverInv(t)
  {
    assert s.qhNext < |s.retired|;
    assert s.next[s.qhNext] == Terminate || s.next[s.qhNext] == To(s.qhNext + 1);
  }

  lemma OtherEndpointInv(s: State, t: State)
    requires Inv(s) && OtherEndpoint(s, t)
    ensures Inv(t)
  {
    assert Ordered(t) && ControllerInv(t);
  }

  lemma ReadLinkInv(s: State, t: State)
    requires Inv(s) && ReadLink(s, t)
    ensures Inv(t)
  {
  }

  lemma ActOnLinkInv(s: State, t: State)
    requires Inv(s) && ActOnLink(s, t)
    ensures Inv(t)
  {
  }

  lemma DriverStepInv(s: State, t: State)
    requires Inv(s) && DriverStep(s, t)
    ensures Inv(t)
  {
    match s.pc
    case Idle => if StartSchedule(s, t) { ScheduleInv(s, t); } else { CompleteInv(s, t); }
    case WaitReady => WaitReadyInv(s, t);
    case WaitTerminate => WaitTerminateInv(s, t);
    case Link => LinkInv(s, t);
    case CheckPriming => CheckPrimingInv(s, t);
    case SetTripwire => TripwireInv(s, t);
    case ReadReady => TripwireInv(s, t);
    case CheckTripwire => TripwireInv(s, t);
    case ClearTripwire => ClearTripwireInv(s, t);
    case PrimePointer => PrimeInv(s, t);
    case PrimeBit => PrimeInv(s, t);
  }

  lemma NextInv(s: State, t: State)
    requires Inv(s) && Next(s, t)
    ensures Inv(t)
  {
    if DriverStep(s, t) {
      DriverStepInv(s, t);
    } else if LoadPrimed(s, t) {
      LoadPrimedInv(s, t);
    } else if ReadLink(s, t) {
      ReadLinkInv(s, t);
    } else if ActOnLink(s, t) {
      ActOnLinkInv(s, t);
    } else {
      OtherEndpointInv(s, t);
    }
  }

  /** A run: any interleaving of driver, controller and other endpoints. */
  ghost predicate IsRun(run: seq<State>) {
    |run| >= 1 && Init(run[0]) && forall i :: 0 <= i < |run| - 1 ==> Next(run[i], run[i + 1])
  }

  lemma {:induction false} RunInv(run: seq<State>, i: nat)
    requires IsRun(run) && run[0].skips && i < |run|
    ensures Inv(run[i])
    decreases i
  {
    if i == 0 {
      InitInv(run[0]);
    } else {
      RunInv(run, i - 1);
      NextInv(run[i - 1], run[i]);
    }
  }

  // ----- consequences

  /** A descriptor the controller will come to: under the pending prime, or from the current descriptor. */
  ghost predicate Reaches(s: State, td: nat) {
    || (s.priming && s.qhNext <= td && Linked(s, s.qhNext, td))
    || (Running(s) && s.cur <= td && Linked(s, s.cur, td))
  }

  /** Never lost: whenever scheduling has returned, every descriptor is finished or will be reached. */
  lemma NeverLost(run: seq<State>, i: nat, td: nat)
    requires IsRun(run) && run[0].skips && i < |run| && run[i].pc == Idle && td < |run[i].next|
    ensures td in run[i].retired || Reaches(run[i], td)
  {
    RunInv(run, i);
    var s := run[i];
    if td < |s.retired| {
      assert s.retired[td] == td;
    }
  }

  /** Exactly once and in order, at every moment of every run. */
  lemma RetiredInOrder(run: seq<State>, i: nat)
    requires IsRun(run) && run[0].skips && i < |run|
    ensures run[i].retired == UpTo(|run[i].retired|) && |run[i].retired| <= |run[i].next| == |run[i].active|
    ensures forall td :: 0 <= td < |run[i].next| ==> (run[i].active[td] <==> td !in run[i].retired)
  {
    RunInv(run, i);
    var s := run[i];
    forall td | 0 <= td < |s.next| ensures s.active[td] <==> td !in s.retired {
      if td < |s.retired| {
        assert s.retired[td] == td;
      }
    }
  }

  /** The driver primes only an endpoint at rest, with nothing older left to do. */
  lemma PrimesOnlyAtRest(run: seq<State>, i: nat)
    requires IsRun(run) && run[0].skips && i < |run| && run[i].pc == PrimePointer
    ensures !run[i].ready && |run[i].retired| >= |run[i].next| - 1
  {
    RunInv(run, i);
  }

  // ----- when a prime is redundant

  /** The controller is about to follow a link to the newest descriptor: one that it has latched, or one
      that it has skipped along. */
  ghost predicate Follows(s: State) {
    s.next != [] && ((s.hazard && s.latched == To(|s.next| - 1)) || (s.priming && s.qhNext == |s.next| - 1))
  }

  /** It has got there. */
  ghost predicate Reached(s: State) {
    s.next != [] && (Follows(s) || (s.ready && s.cur == |s.next| - 1) || |s.retired| == |s.next|)
  }

  predicate Scheduling(pc: Pc) {
    pc != Idle && pc != PrimeBit
  }

  lemma ReachedStep(s: State, t: State)
    requires Inv(s) && Next(s, t) && |s.next| == |t.next| && Scheduling(s.pc) && Scheduling(t.pc)
    ensures Reached(t) <==> Reached(s) || Follows(t)
  {
    hide LoadPrimed, ReadLink, ActOnLink, DriverStep;
    if DriverStep(s, t) {
      DriverReaches(s, t);
    } else if ControllerStep(s, t) {
      ControllerReaches(s, t);
    }
  }

  lemma DriverReaches(s: State, t: State)
    requires DriverStep(s, t) && |s.next| == |t.next| && Scheduling(s.pc) && Scheduling(t.pc)
    ensures Reached(t) <==> Reached(s)
    ensures Follows(t) ==> Reached(s)
  {
    hide DriverStep;
    if s.pc == PrimePointer {
      PrimeStep(s, t);
    } else {
      BusyFrame(s, t);
    }
  }

  lemma ControllerReaches(s: State, t: State)
    requires Inv(s) && ControllerStep(s, t) && Scheduling(s.pc)
    ensures Reached(t) <==> Reached(s) || Follows(t)
  {
  }

  lemma NotReachedYet(s: State, t: State)
    requires Inv(s) && StartSchedule(s, t)
    ensures !Reached(t)
  {
  }

  lemma SameOrNew(s: State, t: State)
    requires Next(s, t) && Scheduling(t.pc)
    ensures if |s.next| == |t.next| then Scheduling(s.pc) else StartSchedule(s, t) && |s.next| < |t.next|
  {
    hide DriverStep, LoadPrimed, ReadLink, ActOnLink, StartSchedule;
    if DriverStep(s, t) {
      DriverLengthens(s, t);
    } else {
      ControllerKeeps(s, t);
    }
  }

  lemma {:induction false} OlderIsShorter(run: seq<State>, j: nat, i: nat)
    requires IsRun(run) && j <= i < |run|
    ensures |run[j].next| <= |run[i].next|
    decreases i
  {
    hide Next, Init;
    if j < i {
      OlderIsShorter(run, j, i - 1);
      Lengthens(run[i - 1], run[i]);
    }
  }

  lemma Lengthens(s: State, t: State)
    requires Next(s, t)
    ensures |s.next| <= |t.next| && s.skips == t.skips
  {
    hide DriverStep, LoadPrimed, ReadLink, ActOnLink;
    if DriverStep(s, t) {
      DriverLengthens(s, t);
    } else {
      ControllerKeeps(s, t);
    }
  }

  lemma DriverLengthens(s: State, t: State)
    requires DriverStep(s, t)
    ensures s.skips == t.skips
    ensures if |s.next| == |t.next| then Scheduling(t.pc) ==> Scheduling(s.pc)
            else StartSchedule(s, t) && |s.next| < |t.next|
  {
    hide DriverStep;
    if s.pc == Idle {
      IdleLengthens(s, t);
    } else {
      BusyKeeps(s, t);
    }
  }

  lemma IdleLengthens(s: State, t: State)
    requires s.pc == Idle && DriverStep(s, t)
    ensures s.skips == t.skips
    ensures if |s.next| == |t.next| then t.pc == Idle else StartSchedule(s, t) && |s.next| < |t.next|
  {
    assert StartSchedule(s, t) || CompleteOne(s, t);
  }

  lemma BusyKeeps(s: State, t: State)
    requires s.pc != Idle && DriverStep(s, t)
    ensures s.skips == t.skips && |s.next| == |t.next| && (s.pc == PrimeBit ==> t.pc == Idle)
  {
    hide DriverStep;
    if s.pc == PrimePointer || s.pc == PrimeBit {
      PrimeStep(s, t);
    } else {
      BusyFrame(s, t);
    }
  }

  lemma PrimeStep(s: State, t: State)
    requires (s.pc == PrimePointer || s.pc == PrimeBit) && DriverStep(s, t)
    ensures t == s.(qhNext := t.qhNext, priming := t.priming, pc := if s.pc == PrimeBit then Idle else PrimeBit)
  {
  }

  /** Until it primes, the driver changes links and the tripwire only. */
  lemma BusyFrame(s: State, t: State)
    requires Scheduling(s.pc) && s.pc != PrimePointer && DriverStep(s, t)
    ensures |t.next| == |s.next| && t == s.(next := t.next, pc := t.pc, done := t.done, atdtw := t.atdtw)
  {
    hide DriverStep;
    if s.pc == WaitTerminate || s.pc == Link {
      LinkFrame(s, t);
    } else {
      TripwireFrame(s, t);
    }
  }

  lemma LinkFrame(s: State, t: State)
    requires (s.pc == WaitTerminate || s.pc == Link) && DriverStep(s, t)
    ensures |t.next| == |s.next| && t == s.(next := t.next, pc := t.pc)
  {
  }

  lemma TripwireFrame(s: State, t: State)
    requires s.pc == WaitReady || s.pc == CheckPriming || TripwirePath(s.pc) || s.pc == ClearTripwire
    requires DriverStep(s, t)
    ensures t == s.(pc := t.pc, done := t.done, atdtw := t.atdtw)
  {
  }

  lemma ControllerKeeps(s: State, t: State)
    requires ControllerStep(s, t) || OtherEndpoint(s, t)
    ensures |s.next| == |t.next| && s.skips == t.skips && s.pc == t.pc
  {
  }

  /** While a descriptor is being scheduled the controller has reached it exactly if it has followed a link
      to it since the scheduling began. */
  lemma {:induction false} ReachedBecause(run: seq<State>, i: nat)
    requires IsRun(run) && run[0].skips && i < |run| && Scheduling(run[i].pc)
    ensures Reached(run[i]) <==>
            exists j :: 0 <= j <= i && |run[j].next| == |run[i].next| && Follows(run[j])
    decreases i
  {
    hide Inv, Reached, Follows, StartSchedule, Next, Init;
    if i == 0 {
      FirstIsIdle(run);
    } else {
      RunInv(run, i - 1);
      SameOrNew(run[i - 1], run[i]);
      if |run[i - 1].next| == |run[i].next| {
        ReachedBecause(run, i - 1);
        ReachedStep(run[i - 1], run[i]);
      } else {
        NotReachedYet(run[i - 1], run[i]);
        FollowsIsReached(run[i]);
        forall j | 0 <= j < i ensures |run[j].next| != |run[i].next| {
          OlderIsShorter(run, j, i - 1);
        }
      }
    }
  }

  lemma FirstIsIdle(run: seq<State>)
    requires IsRun(run)
    ensures run[0].pc == Idle
  {
  }

  lemma FollowsIsReached(s: State)
    ensures Follows(s) ==> Reached(s)
  {
  }

  /** In every run: a descriptor is primed although it is already finished exactly if the controller followed
      a link to it while it was being scheduled. */
  lemma RedundantExactly(run: seq<State>, i: nat)
    requires IsRun(run) && run[0].skips && i < |run| && run[i].pc == PrimePointer
    ensures 0 < |run[i].next| == |run[i].active|
    ensures !run[i].active[|run[i].next| - 1] <==>
            exists j :: 0 <= j <= i && |run[j].next| == |run[i].next| && Follows(run[j])
  {
    hide Reached, Follows;
    RunInv(run, i);
    ReachedBecause(run, i);
    AtPrime(run[i]);
  }

  lemma AtPrime(s: State)
    requires Inv(s) && s.pc == PrimePointer
    ensures 0 < |s.next| == |s.active| && (Reached(s) <==> !s.active[|s.next| - 1])
  {
  }

  /** The controller's move, when the driver rests. */
  function ControllerMove(s: State): State {
    if s.ready && !s.hazard && s.cur < |s.next| then
      s.(hazard := true, latched := s.next[s.cur], atdtw := false)
    else if s.ready && s.hazard && s.cur < |s.active| then
      s.(hazard := false, active := s.active[s.cur := false], retired := s.retired + [s.cur],
         ready := s.latched.To?, cur := if s.latched.To? then s.latched.td else s.cur)
    else if s.priming && s.qhNext < |s.active| && s.qhNext < |s.next| then
      if s.active[s.qhNext] then s.(priming := false, ready := true, cur := s.qhNext)
      else if !s.skips then s.(priming := false)
      else match s.next[s.qhNext]
           case To(td) => s.(qhNext := td)
           case Terminate => s.(priming := false)
    else s
  }

  function ControllerMoves(s: State, k: nat): State
    decreases k
  {
    if k == 0 then s else ControllerMoves(ControllerMove(s), k - 1)
  }

  /** Bounds the controller moves left. */
  function Work(s: State): int {
    2 * (|s.next| - |s.retired|) - (if s.hazard then 1 else 0) + (if s.priming then |s.next| - s.qhNext else 0)
  }

  lemma MoveWorks(s: State)
    requires Inv(s) && s.pc == Idle && |s.retired| < |s.next|
    ensures ControllerStep(s, ControllerMove(s))
    ensures 0 <= Work(ControllerMove(s)) < Work(s)
    ensures ControllerMove(s).pc == Idle && |ControllerMove(s).next| == |s.next|
  {
  }

  /** Left alone, the controller finishes everything that has been scheduled. */
  lemma Drains(s: State) returns (k: nat)
    requires Inv(s) && s.pc == Idle
    ensures k <= 3 * |s.next| && ControllerMoves(s, k).retired == UpTo(|s.next|)
  {
    k := DrainsWithin(s);
  }

  lemma {:induction false} DrainsWithin(s: State) returns (k: nat)
    requires Inv(s) && s.pc == Idle
    ensures 0 <= Work(s) <= 3 * |s.next| && k <= Work(s)
    ensures ControllerMoves(s, k).retired == UpTo(|s.next|)
    decreases Work(s)
  {
    if |s.retired| == |s.next| {
      k := 0;
    } else {
      MoveWorks(s);
      ControllerStepKeepsInv(s, ControllerMove(s));
      var k' := DrainsWithin(ControllerMove(s));
      k := k' + 1;
    }
  }

  // ----- scheduling returns

  /** The driver's move, when the controller rests. */
  function DriverMove(s: State): State
    requires Inv(s) && s.pc != Idle
  {
    var n := |s.next|;
    match s.pc
    case WaitReady => s.(pc := WaitTerminate)
    case WaitTerminate => s.(next := s.next[n - 1 := Terminate], pc := PrimePointer)
    case Link => s.(next := s.next[n - 2 := To(n - 1)], pc := CheckPriming)
    case CheckPriming => if s.priming then s.(pc := Idle) else s.(pc := SetTripwire)
    case SetTripwire => s.(atdtw := !s.hazard, pc := ReadReady)
    case ReadReady => s.(done := s.ready, pc := CheckTripwire)
    case CheckTripwire => if s.atdtw then s.(pc := ClearTripwire) else s.(pc := SetTripwire)
    case ClearTripwire => if s.done then s.(atdtw := false, pc := Idle) else s.(atdtw := false, pc := PrimePointer)
    case PrimePointer => s.(qhNext := n - 1, pc := PrimeBit)
    case PrimeBit => s.(priming := true, pc := Idle)
  }

  lemma OnlyMove(s: State, t: State)
    requires Inv(s) && s.pc != Idle
    ensures DriverStep(s, t) <==> t == DriverMove(s)
  {
  }

  /** The driver's moves until it has returned. */
  function DriverMoves(s: State, k: nat): (t: State)
    requires Inv(s)
    ensures Inv(t)
    decreases k
  {
    hide Inv;
    if k == 0 || s.pc == Idle then s
    else
      OnlyMove(s, DriverMove(s));
      DriverStepInv(s, DriverMove(s));
      DriverMoves(DriverMove(s), k - 1)
  }

  /** How many moves the driver has left at most, if nothing clears the tripwire meanwhile. */
  function MovesLeft(s: State): (m: nat)
    ensures m <= 8 && (m == 0 <==> s.pc == Idle)
  {
    match s.pc
    case Idle => 0
    case WaitReady => 4
    case WaitTerminate => 3
    case Link => 8
    case CheckPriming => 7
    case SetTripwire => 6
    case ReadReady => if s.atdtw then 5 else 8
    case CheckTripwire => if s.atdtw then 4 else 7
    case ClearTripwire => 3
    case PrimePointer => 2
    case PrimeBit => 1
  }

  lemma FewerLeft(s: State, t: State)
    requires Inv(s) && s.pc != Idle && DriverStep(s, t)
    ensures t.pc != s.pc && t.hazard == s.hazard && (!s.hazard ==> MovesLeft(t) < MovesLeft(s))
  {
    hide DriverStep;
    OnlyMove(s, t);
  }

  /** Left alone, with no hazard on, scheduling returns within eight moves. */
  lemma {:induction false} Returns(s: State)
    requires Inv(s) && !s.hazard
    ensures DriverMoves(s, MovesLeft(s)).pc == Idle
    decreases MovesLeft(s)
  {
    hide Inv, DriverStep, MovesLeft, DriverMove;
    if s.pc != Idle {
      var t := DriverMove(s);
      OnlyMove(s, t);
      DriverStepInv(s, t);
      FewerLeft(s, t);
      Returns(t);
      OneMove(s, MovesLeft(s) - 1);
      AtLeast(t, MovesLeft(t), MovesLeft(s) - 1);
    }
  }

  lemma {:induction false} AtLeast(s: State, k: nat, n: nat)
    requires Inv(s) && k <= n && DriverMoves(s, k).pc == Idle
    ensures DriverMoves(s, n) == DriverMoves(s, k)
    decreases k
  {
    hide Inv, DriverStep, DriverMove;
    if s.pc != Idle {
      OnlyMove(s, DriverMove(s));
      DriverStepInv(s, DriverMove(s));
      AtLeast(DriverMove(s), k - 1, n - 1);
    }
  }

  /** Behind a running descriptor the new one is only linked up; the endpoint is primed exactly if it neither runs
      nor has a prime pending. */
  lemma AppendsAlone(s: State)
    requires Inv(s) && s.pc == Link && !s.hazard
    ensures var t := s.(next := s.next[s.Last() - 1 := To(s.Last())], pc := Idle);
            DriverMoves(s, 8)
            == if s.priming then t
               else if s.ready then t.(done := true, atdtw := false)
               else t.(done := false, atdtw := false, qhNext := s.Last(), priming := true)
  {
    hide Inv, DriverStep;
    var u := DriverMove(s);
    HasTail(s);
    OneMove(s, 7);
    assert u == s.(next := s.next[s.Last() - 1 := To(s.Last())], pc := CheckPriming);
    OneMove(u, 6);
    var v := DriverMove(u);
    if s.priming {
      assert v == u.(pc := Idle) && DriverMoves(v, 6) == v;
    } else {
      assert v == u.(pc := SetTripwire);
      TripwireAlone(v);
    }
  }

  lemma HasTail(s: State)
    requires Inv(s) && (s.pc == Link || s.pc == SetTripwire)
    ensures |s.next| >= 2 && (s.pc == SetTripwire ==> !s.priming)
  {
  }

  lemma OneMove(s: State, k: nat)
    requires Inv(s) && s.pc != Idle
    ensures Inv(DriverMove(s)) && DriverMoves(s, k + 1) == DriverMoves(DriverMove(s), k)
  {
    hide Inv, DriverStep, DriverMove;
    OnlyMove(s, DriverMove(s));
    DriverStepInv(s, DriverMove(s));
  }

  lemma TripwireAlone(s: State)
    requires Inv(s) && s.pc == SetTripwire && !s.hazard
    ensures DriverMoves(s, 6)
            == if s.ready then s.(pc := Idle, done := true, atdtw := false)
               else s.(pc := Idle, done := false, atdtw := false, qhNext := s.Last(), priming := true)
  {
    hide Inv, DriverStep;
    var t := DriverMove(s);
    OneMove(s, 5);
    OneMove(t, 4);
    OneMove(DriverMove(t), 3);
    var u := DriverMove(DriverMove(t));
    OneMove(u, 2);
    if !s.ready {
      OneMove(DriverMove(u), 1);
      OneMove(DriverMove(DriverMove(u)), 0);
    }
  }

  /** An endpoint whose software list is empty is primed with the new descriptor. */
  lemma WaitsAlone(s: State)
    requires Inv(s) && s.pc == WaitReady && !s.hazard
    ensures DriverMoves(s, 4) == s.(pc := Idle, qhNext := s.Last(), priming := true)
  {
    hide Inv, DriverStep;
    var t := DriverMove(s);
    LastEnds(s);
    OneMove(s, 3);
    OneMove(t, 2);
    OneMove(DriverMove(t), 1);
    OneMove(DriverMove(DriverMove(t)), 0);
  }

  lemma LastEnds(s: State)
    requires Inv(s) && s.pc == WaitReady
    ensures 0 < |s.next| && s.next[|s.next| - 1 := Terminate] == s.next
  {
  }

  /** What holds the driver up: the tripwire is cleared, or a hazard begins. */
  predicate Disturbs(s: State, t: State) {
    s.pc == t.pc && ((s.atdtw && !t.atdtw) || (!s.hazard && t.hazard))
  }

  function Disturbances(run: seq<State>, i: nat, j: nat): nat
    requires i <= j < |run|
    decreases j
  {
    if i == j then 0 else Disturbances(run, i, j - 1) + if Disturbs(run[j - 1], run[j]) then 1 else 0
  }

  /** The driver's moves while no hazard is on. */
  function Moved(run: seq<State>, i: nat, j: nat): nat
    requires i <= j < |run|
    decreases j
  {
    if i == j then 0
    else Moved(run, i, j - 1) + if run[j - 1].pc != run[j].pc && !run[j - 1].hazard then 1 else 0
  }

  lemma OthersKeep(s: State, t: State)
    requires ControllerStep(s, t) || OtherEndpoint(s, t)
    ensures t.pc == s.pc && (t.atdtw ==> s.atdtw)
    ensures MovesLeft(t) == MovesLeft(s) || Disturbs(s, t)
    ensures t.hazard && !s.hazard ==> Disturbs(s, t)
  {
  }

  /** In every run, whatever controller and other endpoints do: outside hazards a call of the driver takes at most
      eight moves, and eight more for each time that it is disturbed. */
  lemma {:induction false} HeldUp(run: seq<State>, i: nat, j: nat)
    requires IsRun(run) && run[0].skips && i <= j < |run|
    requires forall k :: i <= k < j ==> run[k].pc != Idle
    ensures Moved(run, i, j) <= 8 + 8 * Disturbances(run, i, j)
    ensures if run[j].hazard then Moved(run, i, j) <= 8 * Disturbances(run, i, j)
            else Moved(run, i, j) + MovesLeft(run[j]) <= 8 + 8 * Disturbances(run, i, j)
    decreases j
  {
    hide Inv, Init, DriverStep, ControllerStep, OtherEndpoint, MovesLeft;
    if i < j {
      HeldUp(run, i, j - 1);
      RunInv(run, j - 1);
      var s, t := run[j - 1], run[j];
      if DriverStep(s, t) {
        FewerLeft(s, t);
      } else {
        OthersKeep(s, t);
      }
    }
  }

  lemma ControllerStepKeepsInv(s: State, t: State)
    requires Inv(s) && ControllerStep(s, t)
    ensures Inv(t)
  {
    NextInv(s, t);
  }

  lemma Extend(run: seq<State>, t: State)
    requires IsRun(run) && Next(run[|run| - 1], t)
    ensures IsRun(run + [t])
  {
    var longer := run + [t];
    forall i | 0 <= i < |longer| - 1 ensures Next(longer[i], longer[i + 1]) {
      if i < |run| - 1 {
        assert Next(run[i], run[i + 1]);
      }
    }
  }

  /** Descriptor 0 is primed and loaded. */
  lemma PrimeFirst(skips: bool) returns (run: seq<State>)
    ensures IsRun(run)
    ensures run[|run| - 1]
            == State([Terminate], [true], Idle, false, 0, false, 0, false, true, 0, false, Terminate, [], skips)
  {
    var t := State([Terminate], [true], WaitReady, false, 0, false, 0, false, false, 0, false, Terminate, [], skips);
    run := [t.(next := [], active := [], pc := Idle)];
    run := Then(run, t);
    run := Then(run, t.(pc := WaitTerminate));
    assert t.next[0 := Terminate] == t.next;
    run := Then(run, t.(pc := PrimePointer));
    run := Then(run, t.(pc := PrimeBit));
    run := Then(run, t.(pc := Idle, priming := true));
    run := Then(run, t.(pc := Idle, ready := true));
  }

  /** Descriptor 1 is linked behind it. */
  lemma LinkSecond(skips: bool) returns (run: seq<State>)
    ensures IsRun(run)
    ensures run[|run| - 1] ==
            State([To(1), Terminate], [true, true], SetTripwire, false, 0, false, 0, false, true, 0, false,
                  Terminate, [], skips)
  {
    run := PrimeFirst(skips);
    var t := run[|run| - 1].(next := [Terminate, Terminate], active := [true, true], pc := Pc.Link);
    run := Then(run, t);
    t := t.(next := [To(1), Terminate], pc := CheckPriming);
    run := Then(run, t);
    run := Then(run, t.(pc := SetTripwire));
  }

  /** The controller finishes both before the driver looks. */
  lemma ControllerOvertakes(skips: bool) returns (run: seq<State>)
    ensures IsRun(run)
    ensures run[|run| - 1] ==
            State([To(1), Terminate], [false, false], SetTripwire, false, 0, false, 0, false, false, 1, false,
                  Terminate, [0, 1], skips)
  {
    run := LinkSecond(skips);
    var t := run[|run| - 1];
    run := Then(run, t.(hazard := true, latched := To(1)));
    t := t.(active := [false, true], retired := [0], cur := 1, latched := To(1));
    run := Then(run, t);
    run := Then(run, t.(hazard := true, latched := Terminate));
    t := t.(active := [false, false], retired := [0, 1], ready := false, latched := Terminate);
    run := Then(run, t);
  }

  /** The appending path can prime a descriptor that the controller has already finished: it was
      reached through the tail's link before the driver looked at the endpoint's state. */
  lemma RedundantPrime(skips: bool) returns (run: seq<State>)
    ensures IsRun(run)
    ensures run[|run| - 1] ==
            State([To(1), Terminate], [false, false], Idle, false, 0, false, 1, true, false, 1, false,
                  Terminate, [0, 1], skips)
  {
    run := ControllerOvertakes(skips);
    var t := run[|run| - 1];
    run := Then(run, t.(atdtw := true, pc := ReadReady));
    run := Then(run, t.(atdtw := true, pc := CheckTripwire));
    run := Then(run, t.(atdtw := true, pc := ClearTripwire));
    run := Then(run, t.(pc := PrimePointer));
    run := Then(run, t.(qhNext := 1, pc := PrimeBit));
    run := Then(run, t.(qhNext := 1, priming := true, pc := Idle));
  }

  /** The skip is needed: with a controller that gives up on a finished descriptor, the redundant prime
      swallows the descriptor that is appended while it is pending. */
  lemma LostWithoutSkip() returns (run: seq<State>)
    ensures IsRun(run)
    ensures var s := run[|run| - 1];
            s.pc == Idle && |s.next| == 3 && 2 !in s.retired && !s.ready && !s.priming && !Reaches(s, 2)
  {
    run := RedundantPrime(false);
    var t := run[|run| - 1].(next := [To(1), Terminate, Terminate], active := [false, false, true], pc := Pc.Link);
    run := Then(run, t);
    t := t.(next := [To(1), To(2), Terminate], pc := CheckPriming);
    run := Then(run, t);
    run := Then(run, t.(pc := Idle));
    run := Then(run, t.(pc := Idle, priming := false));
  }

  lemma Then(run: seq<State>, t: State) returns (longer: seq<State>)
    requires IsRun(run) && Next(run[|run| - 1], t)
    ensures IsRun(longer) && |longer| == |run| + 1 && longer[|run|] == t
  {
    Extend(run, t);
    longer := run + [t];
  }
}
