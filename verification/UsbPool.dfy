// The transfer pool of one endpoint (common/usb_queue.c): a lock-free free list
// that thread code pops and the completion interrupt pushes, an active list, and
// the transfer that thread code holds in between.
//
// Thread code runs step by step, in scheduling and in flushing; an interrupt
// comes between any two steps at which interrupts are not masked. Both builds of
// common/locking.h are covered: exclusive load and store (a pending exclusive
// access is lost when the interrupt completes one itself), and masking
// interrupts from load to store, where every store unmasks them.

module UsbPool {
  import opened Links
  import opened Options

  datatype Locking = Exclusive | InterruptsOff

  /** Program counter of the thread. */
  datatype Pc =
    | Idle
    // usb_transfer_schedule, after the test for NULL
    | LoadHead    // transfer := load_exclusive(free_transfers)
    | ReadNext    // read transfer->next
    | StoreHead   // store_exclusive(transfer->next, free_transfers)
    | ClearNext   // transfer->next := NULL
    | Fill        // the descriptor is filled in
    | Enqueue     // append to the active list, interrupts masked
    // usb_queue_flush_queue, after interrupts have been masked
    | FlushRead   // transfer := active, or done
    | FlushUnlink // active := transfer->next
    | FlushLoad   // transfer->next := load_exclusive(free_transfers)
    | FlushStore  // store_exclusive(transfer, free_transfers)

  datatype Pool = Pool(
    locking: Locking,
    next: seq<Option<nat>>,                  // the link of each transfer
    free: Option<nat>, active: Option<nat>,  // list heads
    pc: Pc, transfer: Option<nat>, succ: Option<nat>, monitor: bool,
    masked: bool)                            // interrupts are masked

  predicate Allocating(pc: Pc) {
    pc == LoadHead || pc == ReadNext || pc == StoreHead
  }

  predicate Flushing(pc: Pc) {
    pc == FlushRead || pc == FlushUnlink || pc == FlushLoad || pc == FlushStore
  }

  predicate InPool(s: Pool, k: Option<nat>) {
    k.Some? && k.value < |s.next|
  }

  // ----- steps

  ghost predicate Init(s: Pool) {
    && s.pc == Idle && s.active == None && !s.masked && !s.monitor
    && s.free == (if |s.next| == 0 then None else Some(0))
    && forall i :: 0 <= i < |s.next| ==> s.next[i] == if i + 1 < |s.next| then Some(i + 1) else None
  }

  /** The exclusive store is successful: always, when interrupts have been masked since the load. */
  predicate Undisturbed(s: Pool) {
    s.monitor || s.locking == InterruptsOff
  }

  /** A successful store_exclusive. In the masking build it unmasks, whatever was before. */
  function Stored(s: Pool, head: Option<nat>): Pool {
    s.(free := head, monitor := false, masked := s.masked && s.locking == Exclusive)
  }

  /** load_exclusive. */
  function Loading(s: Pool): Pool {
    s.(monitor := true, masked := s.masked || s.locking == InterruptsOff)
  }

  /** The NULL test of a scheduling call that finds a transfer, or the start of a flush. */
  ghost predicate StartAllocation(s: Pool, t: Pool) {
    s.pc == Idle && s.free.Some? && t == s.(pc := LoadHead)
  }

  ghost predicate StartFlush(s: Pool, t: Pool) {
    s.pc == Idle && t == s.(pc := FlushRead, masked := true)
  }

  ghost predicate ThreadStep(s: Pool, t: Pool) {
    match s.pc
    case Idle => StartAllocation(s, t) || StartFlush(s, t)
    case LoadHead => t == Loading(s).(transfer := s.free, pc := ReadNext)
    case ReadNext => InPool(s, s.transfer) && t == s.(succ := s.next[s.transfer.value], pc := StoreHead)
    case StoreHead => t == if Undisturbed(s) then Stored(s, s.succ).(pc := ClearNext) else s.(pc := LoadHead)
    case ClearNext => InPool(s, s.transfer) && t == s.(next := s.next[s.transfer.value := None], pc := Fill)
    case Fill => t == s.(pc := Enqueue)
    case Enqueue => InPool(s, s.transfer)
                    && exists xs: seq<nat> ::
                         IsList(s.next, s.active, xs) && Appended(s.(pc := Idle), t, s.transfer.value, xs)
    case FlushRead => t == if s.active == None then s.(masked := false, pc := Idle)
                           else s.(transfer := s.active, pc := FlushUnlink)
    case FlushUnlink => InPool(s, s.transfer) && t == s.(active := s.next[s.transfer.value], pc := FlushLoad)
    case FlushLoad => InPool(s, s.transfer)
                      && t == Loading(s).(next := s.next[s.transfer.value := s.free], pc := FlushStore)
    case FlushStore => t == if Undisturbed(s) then Stored(s, s.transfer).(pc := FlushRead) else s.(pc := FlushLoad)
  }

  /** k is linked behind the active list xs. */
  ghost predicate Appended(s: Pool, t: Pool, k: nat, xs: seq<nat>) {
    if xs == [] then t == s.(active := Some(k))
    else xs[|xs| - 1] < |s.next| && t == s.(next := s.next[xs[|xs| - 1] := Some(k)])
  }

  /** A push onto the free list by code that is not interrupted. Its exclusive store takes the
      monitor away from the interrupted thread. */
  function Push(s: Pool, k: nat): Pool
    requires k < |s.next|
  {
    s.(next := s.next[k := s.free], free := Some(k), monitor := false)
  }

  /** One completed transfer: unlinked from the active list, then pushed onto the free list. */
  ghost predicate CompletionInterrupt(s: Pool, t: Pool) {
    !s.masked && InPool(s, s.active) && t == Push(s.(active := s.next[s.active.value]), s.active.value)
  }

  /** What the queue must not meet while it allocates: interrupting code that schedules on it too. */
  ghost predicate InterruptingSchedule(s: Pool, t: Pool) {
    && !s.masked && InPool(s, s.free)
    && exists xs: seq<nat> ::
         IsList(Popped(s).next, s.active, xs) && Appended(Popped(s), t, s.free.value, xs)
  }

  /** A pop by code that is not interrupted. */
  function Popped(s: Pool): Pool
    requires InPool(s, s.free)
  {
    s.(next := s.next[s.free.value := None], free := s.next[s.free.value], monitor := false)
  }

  /** A step of the discipline: thread code, or the completion interrupt. */
  ghost predicate Next(s: Pool, t: Pool) {
    ThreadStep(s, t) || CompletionInterrupt(s, t)
  }

  // ----- conservation

  /** The transfer held by the thread: popped or unlinked, and on neither list. */
  function Held(s: Pool): seq<nat> {
    if s.pc in {ClearNext, Fill, Enqueue, FlushLoad, FlushStore} && s.transfer.Some? then [s.transfer.value] else []
  }

  /** Each of the pool's transfers is in exactly one place: the free list, the active list, or held. */
  ghost predicate Partition(s: Pool, free: seq<nat>, active: seq<nat>) {
    && IsList(s.next, s.free, free) && IsList(s.next, s.active, active)
    && OnePlace(|s.next|, free, active, Held(s))
  }

  /** When interrupts are masked, and what a flush has left if its first store has unmasked them. */
  ghost predicate Masking(s: Pool, active: seq<nat>) {
    && (!Flushing(s.pc) ==> (s.masked <==> s.locking == InterruptsOff && (s.pc == ReadNext || s.pc == StoreHead)))
    && (Flushing(s.pc) && s.locking == Exclusive ==> s.masked)
    && (s.locking == InterruptsOff ==>
          && (s.pc == FlushRead ==> if s.masked then |active| <= 1 else active == [])
          && (s.pc == FlushUnlink ==> s.masked && |active| == 1)
          && (s.pc == FlushLoad || s.pc == FlushStore ==> s.masked && active == []))
  }

  /** Everything but the free list's not being empty during an allocation. */
  ghost predicate Base(s: Pool, free: seq<nat>, active: seq<nat>) {
    && Partition(s, free, active) && Masking(s, active)
    && (s.pc != Idle && s.pc != LoadHead && s.pc != FlushRead ==> InPool(s, s.transfer))
    && (s.pc in {ReadNext, StoreHead} && Undisturbed(s) ==> s.transfer == s.free)
    && (s.pc == StoreHead && Undisturbed(s) ==> s.succ == s.next[s.transfer.value])
    && (s.pc in {Fill, Enqueue} ==> s.next[s.transfer.value] == None)
    && (s.pc == FlushUnlink ==> s.transfer == s.active)
    && (s.pc == FlushStore ==> s.monitor && s.next[s.transfer.value] == s.free)
  }

  ghost predicate Inv(s: Pool, free: seq<nat>, active: seq<nat>) {
    Base(s, free, active) && (Allocating(s.pc) ==> free != [])
  }

  /** Init: all of the pool is on the free list, in order. */
  lemma InitInv(s: Pool)
    requires Init(s)
    ensures Inv(s, UpFrom(0, |s.next|), [])
  {
    InOrder(s.next, 0);
    AllFree(|s.next|);
  }

  /** A successful store pops the current head and installs its current successor. */
  lemma PopIsCurrent(s: Pool, t: Pool, free: seq<nat>, active: seq<nat>)
    requires Base(s, free, active) && s.pc == StoreHead && ThreadStep(s, t) && t.pc == ClearNext
    ensures free != [] && s.transfer == Some(free[0]) && s.free == s.transfer
    ensures t.free == s.next[free[0]] && IsList(t.next, t.free, free[1..])
    ensures Base(t, free[1..], active)
  {
    PopHead(s.next, s.free, s.active, free, active, []);
    assert [] + [free[0]] == [free[0]];
  }

  lemma ClearNextInv(s: Pool, t: Pool, free: seq<nat>, active: seq<nat>)
    requires Base(s, free, active) && s.pc == ClearNext && ThreadStep(s, t)
    ensures Base(t, free, active)
  {
    var k := s.transfer.value;
    assert [] + [k] == [k];
    InHand(|s.next|, free, active, [], k);
    ListFrame(s.next, s.free, free, k, None);
    ListFrame(s.next, s.active, active, k, None);
  }

  /** Enqueueing walks to the real tail. */
  lemma EnqueueInv(s: Pool, t: Pool, free: seq<nat>, active: seq<nat>)
    requires Base(s, free, active) && s.pc == Enqueue && ThreadStep(s, t)
    ensures Base(t, free, active + [s.transfer.value])
  {
    hide OnePlace, Masking;
    var xs: seq<nat> :| IsList(s.next, s.active, xs) && Appended(s.(pc := Idle), t, s.transfer.value, xs);
    ListIsUnique(s.next, s.active, xs, active);
    EnqueuedInv(s, t, free, active);
  }

  lemma EnqueuedInv(s: Pool, t: Pool, free: seq<nat>, active: seq<nat>)
    requires Base(s, free, active) && s.pc == Enqueue && Appended(s.(pc := Idle), t, s.transfer.value, active)
    ensures Base(t, free, active + [s.transfer.value])
  {
    hide OnePlace, Appended, IsList;
    var k := s.transfer.value;
    assert [] + [k] == [k];
    AppendedLists(s.(pc := Idle), t, free, active, [], k);
  }

  lemma AppendedLists(s: Pool, t: Pool, free: seq<nat>, active: seq<nat>, held: seq<nat>, k: nat)
    requires IsList(s.next, s.free, free) && IsList(s.next, s.active, active)
    requires OnePlace(|s.next|, free, active, held + [k]) && k < |s.next| && s.next[k] == None
    requires Appended(s, t, k, active)
    ensures IsList(t.next, t.free, free) && IsList(t.next, t.active, active + [k])
    ensures OnePlace(|t.next|, free, active + [k], held) && |t.next| == |s.next|
    ensures t == s.(next := t.next, active := t.active)
  {
    InHand(|s.next|, free, active, held, k);
    if active == [] {
      assert active + [k] == [k] && [k][1..] == [];
    } else {
      AppendInHand(s.next, s.free, s.active, free, active, held, k);
    }
  }

  /** A completion moves the head of the active list to the free list, in the middle of anything the
      thread may be doing with interrupts unmasked. */
  lemma CompletionInv(s: Pool, t: Pool, free: seq<nat>, active: seq<nat>)
    requires Base(s, free, active) && CompletionInterrupt(s, t)
    ensures active != [] && Base(t, [active[0]] + free, active[1..])
  {
    MovedLists(s, t, free, active);
  }

  lemma MovedLists(s: Pool, t: Pool, free: seq<nat>, active: seq<nat>)
    requires Partition(s, free, active) && InPool(s, s.active)
    requires t == Push(s.(active := s.next[s.active.value]), s.active.value)
    ensures active != [] && active[0] == s.active.value && Partition(t, [active[0]] + free, active[1..])
    ensures active[0] !in Held(s)
  {
    var k := active[0];
    assert s.next[k := s.free] == t.next;
    TakeHeld(|s.next|, free, active, Held(s));
    PushInHand(s.next, s.free, s.next[k], free, active[1..], Held(s), k);
  }

  /** Taking the head of the active list, other transfers being held. */
  lemma TakeHeld(size: nat, free: seq<nat>, active: seq<nat>, held: seq<nat>)
    requires OnePlace(size, free, active, held) && active != []
    ensures OnePlace(size, free, active[1..], held + [active[0]])
    ensures active[0] !in held
  {
    HeadTail(active);
    var k := active[0];
    assert (multiset(free) + multiset(active) + multiset(held))[k] == if k < size then 1 else 0;
    assert multiset(free) + multiset(active[1..]) + multiset(held + [k])
           == multiset(free) + multiset(active) + multiset(held);
  }

  lemma UnlinkInv(s: Pool, t: Pool, free: seq<nat>, active: seq<nat>)
    requires Base(s, free, active) && s.pc == FlushUnlink && ThreadStep(s, t)
    ensures active != [] && Base(t, free, active[1..])
  {
    TakeHeld(|s.next|, free, active, []);
    assert [] + [active[0]] == [active[0]];
  }

  lemma FlushLoadInv(s: Pool, t: Pool, free: seq<nat>, active: seq<nat>)
    requires Base(s, free, active) && s.pc == FlushLoad && ThreadStep(s, t)
    ensures Base(t, free, active)
  {
    var k := s.transfer.value;
    assert [] + [k] == [k];
    PushInHand(s.next, s.free, s.active, free, active, [], k);
  }

  lemma FlushStoreInv(s: Pool, t: Pool, free: seq<nat>, active: seq<nat>)
    requires Base(s, free, active) && s.pc == FlushStore && ThreadStep(s, t)
    ensures Base(t, [s.transfer.value] + free, active)
  {
    var k := s.transfer.value;
    assert [] + [k] == [k];
    PushInHand(s.next, s.free, s.active, free, active, [], k);
    assert s.next[k := s.free] == s.next;
  }

  /** Where a flush may start: always with exclusive access; where stores unmask interrupts, with at most
      one active transfer. */
  ghost predicate FlushSafe(s: Pool) {
    s.locking == Exclusive || s.active == None || (s.active.value < |s.next| && s.next[s.active.value] == None)
  }

  lemma FlushSafeMeans(s: Pool, free: seq<nat>, active: seq<nat>)
    requires Partition(s, free, active)
    ensures FlushSafe(s) <==> s.locking == Exclusive || |active| <= 1
  {
    if |active| > 1 {
      assert IsList(s.next, s.next[active[0]], active[1..]) && active[1..] != [];
    } else if |active| == 1 {
      assert active[1..] == [] && IsList(s.next, s.next[active[0]], active[1..]);
    }
  }

  lemma StartInv(s: Pool, t: Pool, free: seq<nat>, active: seq<nat>)
    requires Base(s, free, active) && s.pc == Idle && ThreadStep(s, t) && (StartFlush(s, t) ==> FlushSafe(s))
    ensures Base(t, free, active)
  {
    hide OnePlace, IsList;
    FlushSafeMeans(s, free, active);
  }

  lemma LoadHeadInv(s: Pool, t: Pool, free: seq<nat>, active: seq<nat>)
    requires Base(s, free, active) && s.pc == LoadHead && free != [] && ThreadStep(s, t)
    ensures Base(t, free, active)
  {
    hide OnePlace;
    assert s.free == Some(free[0]) && free[0] < |s.next|;
  }

  lemma ReadNextInv(s: Pool, t: Pool, free: seq<nat>, active: seq<nat>)
    requires Base(s, free, active) && s.pc == ReadNext && ThreadStep(s, t)
    ensures Base(t, free, active)
  {
    hide OnePlace, IsList;
  }

  lemma RetryInv(s: Pool, t: Pool, free: seq<nat>, active: seq<nat>)
    requires Base(s, free, active) && s.pc == StoreHead && ThreadStep(s, t) && t.pc != ClearNext
    ensures Base(t, free, active)
  {
    hide OnePlace, IsList;
  }

  lemma FilledInv(s: Pool, t: Pool, free: seq<nat>, active: seq<nat>)
    requires Base(s, free, active) && s.pc == Fill && ThreadStep(s, t)
    ensures Base(t, free, active)
  {
    hide OnePlace, IsList;
  }

  lemma FlushReadInv(s: Pool, t: Pool, free: seq<nat>, active: seq<nat>)
    requires Base(s, free, active) && s.pc == FlushRead && ThreadStep(s, t)
    ensures Base(t, free, active)
  {
    hide OnePlace;
    if s.active != None {
      assert s.active == Some(active[0]) && active[0] < |s.next|;
    }
  }

  /** Steps that move no transfer. */
  lemma StillInv(s: Pool, t: Pool, free: seq<nat>, active: seq<nat>)
    requires Base(s, free, active) && ThreadStep(s, t) && (StartFlush(s, t) ==> FlushSafe(s))
    requires s.pc in {Idle, Fill, FlushRead} || (s.pc == LoadHead && free != []) || s.pc == ReadNext
             || (s.pc == StoreHead && t.pc != ClearNext)
    ensures Base(t, free, active)
  {
    hide Base, ThreadStep, FlushSafe;
    match s.pc
    case Idle => StartInv(s, t, free, active);
    case LoadHead => LoadHeadInv(s, t, free, active);
    case ReadNext => ReadNextInv(s, t, free, active);
    case StoreHead => RetryInv(s, t, free, active);
    case Fill => FilledInv(s, t, free, active);
    case FlushRead => FlushReadInv(s, t, free, active);
  }

  /** One step of the thread keeps everything, unless it loads NULL. */
  lemma ThreadInv(s: Pool, t: Pool, free: seq<nat>, active: seq<nat>) returns (free': seq<nat>, active': seq<nat>)
    requires Base(s, free, active) && ThreadStep(s, t) && (StartFlush(s, t) ==> FlushSafe(s))
    requires s.pc == LoadHead ==> free != []
    ensures Base(t, free', active') && |t.next| == |s.next|
    ensures Allocating(s.pc) && Allocating(t.pc) ==> free' == free
    ensures s.pc == Idle ==> free' == free && (Allocating(t.pc) ==> free != [])
  {
    hide Partition, Masking, Appended, OnePlace, IsList;
    SizeKept(s, t);
    free', active' := free, active;
    if s.pc == StoreHead && t.pc == ClearNext {
      PopIsCurrent(s, t, free, active);
      free' := free[1..];
    } else if s.pc == ClearNext {
      ClearNextInv(s, t, free, active);
    } else if s.pc == Enqueue {
      EnqueueInv(s, t, free, active);
      active' := active + [s.transfer.value];
    } else if s.pc == FlushUnlink {
      UnlinkInv(s, t, free, active);
      active' := active[1..];
    } else if s.pc == FlushLoad {
      FlushLoadInv(s, t, free, active);
    } else if s.pc == FlushStore {
      FlushStoreInv(s, t, free, active);
      free' := [s.transfer.value] + free;
    } else {
      StillInv(s, t, free, active);
      SomeFree(s, free, active);
    }
  }

  lemma SomeFree(s: Pool, free: seq<nat>, active: seq<nat>)
    requires Base(s, free, active)
    ensures s.free.Some? <==> free != []
  {
  }

  lemma SizeKept(s: Pool, t: Pool)
    requires Next(s, t) || InterruptingSchedule(s, t)
    ensures |t.next| == |s.next| && t.locking == s.locking
  {
  }

  lemma NextInv(s: Pool, t: Pool, free: seq<nat>, active: seq<nat>) returns (free': seq<nat>, active': seq<nat>)
    requires Inv(s, free, active) && Next(s, t) && (StartFlush(s, t) ==> FlushSafe(s))
    ensures Inv(t, free', active') && |t.next| == |s.next|
  {
    SizeKept(s, t);
    if ThreadStep(s, t) {
      free', active' := ThreadInv(s, t, free, active);
      if Allocating(t.pc) {
        EntersAllocation(s, t);
      }
    } else {
      CompletionInv(s, t, free, active);
      free', active' := [active[0]] + free, active[1..];
    }
  }

  lemma EntersAllocation(s: Pool, t: Pool)
    requires ThreadStep(s, t) && Allocating(t.pc)
    ensures s.pc == Idle || Allocating(s.pc)
  {
  }

  ghost predicate IsRun(run: seq<Pool>) {
    |run| >= 1 && Init(run[0]) && forall i :: 0 <= i < |run| - 1 ==> Next(run[i], run[i + 1])
  }

  ghost predicate FlushesSafely(run: seq<Pool>) {
    forall i :: 0 <= i < |run| - 1 && StartFlush(run[i], run[i + 1]) ==> FlushSafe(run[i])
  }

  /** Conservation: in every state of every run whose flushes start safely, the lists and the held transfer
      partition the pool. */
  lemma {:induction false} PoolConserved(run: seq<Pool>, i: nat) returns (free: seq<nat>, active: seq<nat>)
    requires IsRun(run) && FlushesSafely(run) && i < |run|
    ensures Inv(run[i], free, active) && |run[i].next| == |run[0].next|
    decreases i
  {
    if i == 0 {
      InitInv(run[0]);
      free, active := UpFrom(0, |run[0].next|), [];
    } else {
      free, active := PoolConserved(run, i - 1);
      free, active := NextInv(run[i - 1], run[i], free, active);
    }
  }

  // ----- the thread returns

  /** How many steps the thread has left at most, if no completion takes its exclusive access away; n transfers
      are active. */
  function StepsLeft(s: Pool, n: nat): nat {
    match s.pc
    case Idle => 0
    case LoadHead => 6
    case ReadNext => if Undisturbed(s) then 5 else 8
    case StoreHead => if Undisturbed(s) then 4 else 7
    case ClearNext => 3
    case Fill => 2
    case Enqueue => 1
    case FlushRead => 4 * n + 1
    case FlushUnlink => 4 * n
    case FlushLoad => 4 * n + 3
    case FlushStore => 4 * n + 2
  }

  /** Every step of the thread brings it nearer to its return. */
  lemma StepsOn(s: Pool, t: Pool, free: seq<nat>, active: seq<nat>) returns (free': seq<nat>, active': seq<nat>)
    requires Inv(s, free, active) && s.pc != Idle && ThreadStep(s, t)
    ensures Inv(t, free', active') && t.pc != s.pc && StepsLeft(t, |active'|) < StepsLeft(s, |active|)
  {
    hide Partition, Masking, Appended, OnePlace, IsList;
    if s.pc == FlushUnlink {
      UnlinkInv(s, t, free, active);
      free', active' := free, active[1..];
    } else if s.pc == FlushStore {
      FlushStoreInv(s, t, free, active);
      free', active' := [s.transfer.value] + free, active;
    } else if s.pc == FlushRead || s.pc == FlushLoad {
      free', active' := free, active;
      FlushGoesOn(s, t, free, active);
    } else {
      free', active' := NextInv(s, t, free, active);
      AllocationGoesOn(s, t, |active|, |active'|);
    }
  }

  lemma FlushGoesOn(s: Pool, t: Pool, free: seq<nat>, active: seq<nat>)
    requires Inv(s, free, active) && (s.pc == FlushRead || s.pc == FlushLoad) && ThreadStep(s, t)
    ensures Inv(t, free, active) && t.pc != s.pc && StepsLeft(t, |active|) < StepsLeft(s, |active|)
  {
    hide Base, Partition, Masking, OnePlace, IsList;
    if s.pc == FlushRead {
      FlushReadInv(s, t, free, active);
    } else {
      FlushLoadInv(s, t, free, active);
    }
  }

  lemma AllocationGoesOn(s: Pool, t: Pool, n: nat, n': nat)
    requires s.pc != Idle && !Flushing(s.pc) && ThreadStep(s, t)
    ensures t.pc != s.pc && StepsLeft(t, n') < StepsLeft(s, n)
  {
  }

  /** A completion costs the thread three steps at most. */
  lemma Interrupted(s: Pool, t: Pool, free: seq<nat>, active: seq<nat>) returns (free': seq<nat>, active': seq<nat>)
    requires Inv(s, free, active) && CompletionInterrupt(s, t)
    ensures Inv(t, free', active') && t.pc == s.pc && StepsLeft(t, |active'|) <= StepsLeft(s, |active|) + 3
  {
    hide Partition, Masking, OnePlace, IsList;
    CompletionInv(s, t, free, active);
    free', active' := [active[0]] + free, active[1..];
  }

  function ThreadSteps(run: seq<Pool>, i: nat, j: nat): nat
    requires i <= j < |run|
    decreases j
  {
    if i == j then 0 else ThreadSteps(run, i, j - 1) + if run[j - 1].pc != run[j].pc then 1 else 0
  }

  function Completions(run: seq<Pool>, i: nat, j: nat): nat
    requires i <= j < |run|
    decreases j
  {
    if i == j then 0 else Completions(run, i, j - 1) + if run[j - 1].pc == run[j].pc then 1 else 0
  }

  /** In every run the thread returns: from the NULL test within six steps, and from the start of a flush within one
      step and four for each active transfer, and three more for each completion that comes between. */
  lemma {:induction false} ThreadReturns(run: seq<Pool>, i: nat, j: nat, free: seq<nat>, active: seq<nat>)
    returns (free': seq<nat>, active': seq<nat>)
    requires IsRun(run) && i <= j < |run| && Inv(run[i], free, active)
    requires forall k :: i <= k < j ==> run[k].pc != Idle
    ensures Inv(run[j], free', active')
    ensures ThreadSteps(run, i, j) + StepsLeft(run[j], |active'|)
            <= StepsLeft(run[i], |active|) + 3 * Completions(run, i, j)
    decreases j
  {
    hide Inv, ThreadStep, CompletionInterrupt, Init, StepsLeft;
    if i == j {
      free', active' := free, active;
    } else {
      free', active' := ThreadReturns(run, i, j - 1, free, active);
      assert Next(run[j - 1], run[j]);
      if ThreadStep(run[j - 1], run[j]) {
        free', active' := StepsOn(run[j - 1], run[j], free', active');
      } else {
        free', active' := Interrupted(run[j - 1], run[j], free', active');
      }
    }
  }

  /** It is never stuck. */
  lemma NeverStuck(s: Pool, free: seq<nat>, active: seq<nat>) returns (t: Pool)
    requires Inv(s, free, active) && s.pc != Idle
    ensures ThreadStep(s, t)
  {
    hide OnePlace, Masking;
    if s.pc == Enqueue {
      t := AppendHeld(s, free, active);
    } else {
      t := match s.pc
        case LoadHead => Loading(s).(transfer := s.free, pc := ReadNext)
        case ReadNext => s.(succ := s.next[s.transfer.value], pc := StoreHead)
        case StoreHead => if Undisturbed(s) then Stored(s, s.succ).(pc := ClearNext) else s.(pc := LoadHead)
        case ClearNext => s.(next := s.next[s.transfer.value := None], pc := Fill)
        case Fill => s.(pc := Enqueue)
        case FlushRead => if s.active == None then s.(masked := false, pc := Idle)
                          else s.(transfer := s.active, pc := FlushUnlink)
        case FlushUnlink => s.(active := s.next[s.transfer.value], pc := FlushLoad)
        case FlushLoad => Loading(s).(next := s.next[s.transfer.value := s.free], pc := FlushStore)
        case FlushStore => if Undisturbed(s) then Stored(s, s.transfer).(pc := FlushRead) else s.(pc := FlushLoad);
    }
  }

  lemma AppendHeld(s: Pool, free: seq<nat>, active: seq<nat>) returns (t: Pool)
    requires Inv(s, free, active) && s.pc == Enqueue
    ensures ThreadStep(s, t)
  {
    hide Masking;
    var u, k := s.(pc := Idle), s.transfer.value;
    if active == [] {
      t := u.(active := Some(k));
    } else {
      TailKept(|s.next|, free, active, [k]);
      t := u.(next := u.next[active[|active| - 1] := Some(k)]);
    }
    assert IsList(s.next, s.active, active) && Appended(u, t, k, active);
  }

  // ----- flushing where every store unmasks interrupts

  /** Both lists are proper lists, and they and the held transfer partition the pool. */
  ghost predicate Conserved(s: Pool) {
    exists free: seq<nat>, active: seq<nat> :: Partition(s, free, active)
  }

  /** A flush from s, up to any point of it. */
  ghost predicate FlushRun(s: Pool, run: seq<Pool>) {
    && |run| >= 2 && run[0] == s && StartFlush(run[0], run[1])
    && (forall i :: 1 <= i < |run| - 1 ==> Flushing(run[i].pc) && Next(run[i], run[i + 1]))
  }

  lemma {:induction false} SafeFlush(s: Pool, free: seq<nat>, active: seq<nat>, run: seq<Pool>, i: nat)
    returns (free': seq<nat>, active': seq<nat>)
    requires Inv(s, free, active) && s.pc == Idle && FlushSafe(s) && FlushRun(s, run) && i < |run|
    ensures Inv(run[i], free', active')
    decreases i
  {
    if i == 0 {
      free', active' := free, active;
    } else {
      free', active' := SafeFlush(s, free, active, run, i - 1);
      free', active' := NextInv(run[i - 1], run[i], free', active');
    }
  }

  /** With two active transfers: the first turn frees one and its store unmasks interrupts; in the second
      turn the completion interrupt takes the head between reading and unlinking it. */
  function Broken(s: Pool, a: nat, b: nat): (run: seq<Pool>)
    requires a < |s.next| && b < |s.next|
  {
    var s1 := s.(pc := FlushRead, masked := true);
    var s2 := s1.(transfer := Some(a), pc := FlushUnlink);
    var s3 := s2.(active := Some(b), pc := FlushLoad);
    var s4 := s3.(next := s.next[a := s.free], monitor := true, pc := FlushStore);
    var s5 := s4.(free := Some(a), monitor := false, masked := false, pc := FlushRead);
    var s6 := s5.(transfer := Some(b), pc := FlushUnlink);
    var s7 := Push(s6.(active := s6.next[b]), b);
    [s, s1, s2, s3, s4, s5, s6, s7, s7.(active := Some(a), pc := FlushLoad)]
  }

  lemma BrokenRun(s: Pool, free: seq<nat>, active: seq<nat>)
    requires Inv(s, free, active) && s.pc == Idle && s.locking == InterruptsOff && |active| >= 2
    ensures active[0] < |s.next| && active[1] < |s.next| && FlushRun(s, Broken(s, active[0], active[1]))
  {
    var a, b := active[0], active[1];
    TwoHeads(s.next, s.active, active);
    TakeHeld(|s.next|, free, active, []);
    assert a != b by {
      InHand(|s.next|, free, active[1..], [], a);
      assert active[1..][0] == b;
    }
    BrokenSteps(s, a, b);
  }

  lemma BrokenSteps(s: Pool, a: nat, b: nat)
    requires s.pc == Idle && s.locking == InterruptsOff && a < |s.next| && b < |s.next| && a != b
    requires s.active == Some(a) && s.next[a] == Some(b)
    ensures FlushRun(s, Broken(s, a, b))
  {
    var run := Broken(s, a, b);
    assert StartFlush(run[0], run[1]);
    assert ThreadStep(run[1], run[2]) && ThreadStep(run[2], run[3]) && ThreadStep(run[3], run[4]);
    assert ThreadStep(run[4], run[5]) && ThreadStep(run[5], run[6]);
    assert CompletionInterrupt(run[6], run[7]) && ThreadStep(run[7], run[8]);
  }

  lemma TwoHeads(next: seq<Option<nat>>, head: Option<nat>, xs: seq<nat>)
    requires IsList(next, head, xs) && |xs| >= 2
    ensures head == Some(xs[0]) && xs[0] < |next| && next[xs[0]] == Some(xs[1]) && xs[1] < |next|
  {
    assert IsList(next, next[xs[0]], xs[1..]) && xs[1..][0] == xs[1];
  }

  /** At its end the free list and the active list share a transfer. */
  lemma BrokenAtEnd(s: Pool, a: nat, b: nat)
    requires s.locking == InterruptsOff && a < |s.next| && b < |s.next| && a != b
    ensures !Conserved(Broken(s, a, b)[8])
  {
    var t := Broken(s, a, b)[8];
    assert t.free == Some(b) && t.next[b] == Some(a) && t.active == Some(a);
    forall free: seq<nat>, active: seq<nat> ensures !Partition(t, free, active) {
      if Partition(t, free, active) {
        AtMostOnce(|t.next|, free, active, Held(t), a);
        OnBothLists(t.next, free, active, a, b);
      }
    }
  }

  lemma OnBothLists(next: seq<Option<nat>>, free: seq<nat>, active: seq<nat>, a: nat, b: nat)
    requires b < |next| && next[b] == Some(a) && IsList(next, Some(b), free) && IsList(next, Some(a), active)
    ensures a in free && a in active
  {
    assert IsList(next, next[b], free[1..]) && free[1..] != [] && free[1..][0] == a;
  }

  lemma AtMostOnce(size: nat, free: seq<nat>, active: seq<nat>, held: seq<nat>, k: nat)
    requires OnePlace(size, free, active, held)
    ensures multiset(free)[k] + multiset(active)[k] <= 1
  {
    assert (multiset(free) + multiset(active) + multiset(held))[k] <= 1;
  }

  /** A flush keeps the pool whole in every interleaving if and only if it has exclusive access, or at most
      one transfer is active when it starts. */
  lemma FlushConserves(s: Pool, free: seq<nat>, active: seq<nat>)
    requires Inv(s, free, active) && s.pc == Idle
    ensures (forall run, i :: FlushRun(s, run) && 0 <= i < |run| ==> Conserved(run[i]))
            <==> s.locking == Exclusive || |active| <= 1
  {
    FlushSafeMeans(s, free, active);
    if FlushSafe(s) {
      forall run, i | FlushRun(s, run) && 0 <= i < |run| ensures Conserved(run[i]) {
        var f, a := SafeFlush(s, free, active, run, i);
      }
    } else {
      TwoHeads(s.next, s.active, active);
      BrokenRun(s, free, active);
      var a, b := active[0], active[1];
      DistinctHeads(|s.next|, free, active);
      BrokenAtEnd(s, a, b);
      assert FlushRun(s, Broken(s, a, b)) && !Conserved(Broken(s, a, b)[8]);
    }
  }

  lemma DistinctHeads(size: nat, free: seq<nat>, active: seq<nat>)
    requires OnePlace(size, free, active, []) && |active| >= 2
    ensures active[0] != active[1]
  {
    TakeHeld(size, free, active, []);
    assert [] + [active[0]] == [active[0]];
    InHand(size, free, active[1..], [], active[0]);
    assert active[1..][0] == active[1];
  }

  // ----- interrupting code that schedules

  datatype Event = ThreadEvent | CompletionEvent | ScheduleEvent

  ghost predicate Step(s: Pool, e: Event, t: Pool) {
    match e
    case ThreadEvent => ThreadStep(s, t)
    case CompletionEvent => CompletionInterrupt(s, t)
    case ScheduleEvent => InterruptingSchedule(s, t)
  }

  /** One allocation from s, up to any point of it, with interrupts of both kinds in between. */
  ghost predicate AllocationRun(s: Pool, run: seq<Pool>, events: seq<Event>) {
    && |events| >= 1 && |run| == |events| + 1 && run[0] == s
    && events[0] == ThreadEvent && StartAllocation(run[0], run[1])
    && forall i :: 1 <= i < |events| ==> Allocating(run[i].pc) && Step(run[i], events[i], run[i + 1])
  }

  function Pops(events: seq<Event>): (n: nat)
    ensures n <= |events|
  {
    if events == [] then 0
    else Pops(events[..|events| - 1]) + if events[|events| - 1] == ScheduleEvent then 1 else 0
  }

  /** At its end the run is about to load NULL as the head of the free list. */
  ghost predicate LoadsNull(run: seq<Pool>) {
    run != [] && run[|run| - 1].pc == LoadHead && run[|run| - 1].free == None
  }

  lemma ScheduleInv(s: Pool, t: Pool, free: seq<nat>, active: seq<nat>)
    requires Base(s, free, active) && Allocating(s.pc) && InterruptingSchedule(s, t)
    ensures free != [] && Base(t, free[1..], active + [free[0]]) && t.pc == s.pc
  {
    hide OnePlace, IsList;
    SomeFree(s, free, active);
    PopHead(s.next, s.free, s.active, free, active, []);
    var k, u := free[0], Popped(s);
    var xs: seq<nat> :| IsList(u.next, s.active, xs) && Appended(u, t, k, xs);
    ListIsUnique(u.next, s.active, xs, active);
    AppendedLists(u, t, free[1..], active, [], k);
  }

  /** As long as fewer have been popped than were free at the start, some are left. */
  lemma {:induction false} SomeLeft(s: Pool, run: seq<Pool>, events: seq<Event>, free: seq<nat>, active: seq<nat>,
                                    i: nat)
    returns (free': seq<nat>, active': seq<nat>)
    requires Inv(s, free, active) && AllocationRun(s, run, events) && 1 <= i <= |events|
    requires Pops(events[..i]) < |free|
    ensures Allocating(run[i].pc) ==> Base(run[i], free', active') && |free'| + Pops(events[..i]) >= |free|
    decreases i
  {
    hide Base, StartAllocation, ThreadStep, InterruptingSchedule, CompletionInterrupt;
    free', active' := free, active;
    if i == 1 {
      assert events[..1][..0] == [];
      Started(s, run[1], free, active);
    } else {
      assert events[..i][..i - 1] == events[..i - 1];
      var f, a := SomeLeft(s, run, events, free, active, i - 1);
      free', active' := OneMore(run[i - 1], events[i - 1], run[i], f, a);
    }
  }

  lemma Started(s: Pool, t: Pool, free: seq<nat>, active: seq<nat>)
    requires Inv(s, free, active) && StartAllocation(s, t)
    ensures Base(t, free, active) && free != [] && ThreadStep(s, t)
  {
  }

  lemma OneMore(s: Pool, e: Event, t: Pool, free: seq<nat>, active: seq<nat>)
    returns (free': seq<nat>, active': seq<nat>)
    requires Base(s, free, active) && Allocating(s.pc) && Step(s, e, t) && free != []
    ensures Allocating(t.pc) ==>
              Base(t, free', active') && |free'| >= |free| - if e == ScheduleEvent then 1 else 0
  {
    hide Base, InterruptingSchedule, CompletionInterrupt;
    match e
    case ThreadEvent => free', active' := ThreadInv(s, t, free, active);
    case CompletionEvent =>
      CompletionInv(s, t, free, active);
      free', active' := [active[0]] + free, active[1..];
    case ScheduleEvent =>
      ScheduleInv(s, t, free, active);
      free', active' := free[1..], active + [free[0]];
  }

  /** The run that fails: after the test, every free transfer is taken by interrupting code. */
  lemma {:induction false} TakeAll(s: Pool, run: seq<Pool>, events: seq<Event>, free: seq<nat>, active: seq<nat>,
                                   n: nat)
    returns (run': seq<Pool>, events': seq<Event>)
    requires AllocationRun(s, run, events) && run[|events|].pc == LoadHead && !run[|events|].masked
    requires Base(run[|events|], free, active) && n == |free|
    ensures AllocationRun(s, run', events') && Pops(events') == Pops(events) + n && LoadsNull(run')
    decreases n
  {
    var last := run[|events|];
    SomeFree(last, free, active);
    if n == 0 {
      run', events' := run, events;
    } else {
      var t := AppendPopped(last, free, active);
      ScheduleInv(last, t, free, active);
      Longer(s, run, events, ScheduleEvent, t);
      assert (events + [ScheduleEvent])[..|events|] == events;
      run', events' := TakeAll(s, run + [t], events + [ScheduleEvent], free[1..], active + [free[0]], n - 1);
    }
  }

  lemma Longer(s: Pool, run: seq<Pool>, events: seq<Event>, e: Event, t: Pool)
    requires AllocationRun(s, run, events) && Allocating(run[|events|].pc) && Step(run[|events|], e, t)
    ensures AllocationRun(s, run + [t], events + [e])
  {
    hide Step, StartAllocation;
    var r, es := run + [t], events + [e];
    forall i | 1 <= i < |es| ensures Allocating(r[i].pc) && Step(r[i], es[i], r[i + 1]) {
      if i < |events| {
        assert Step(run[i], events[i], run[i + 1]);
      }
    }
  }

  /** An interrupting schedule is possible wherever something is free. */
  lemma AppendPopped(s: Pool, free: seq<nat>, active: seq<nat>) returns (t: Pool)
    requires Base(s, free, active) && s.pc == LoadHead && !s.masked && free != []
    ensures InterruptingSchedule(s, t) && t.pc == s.pc && !t.masked
  {
    hide OnePlace;
    PopHead(s.next, s.free, s.active, free, active, []);
    var u, k := Popped(s), free[0];
    if active == [] {
      t := u.(active := Some(k));
    } else {
      TailKept(|s.next|, free, active, []);
      t := u.(next := u.next[active[|active| - 1] := Some(k)]);
    }
    assert IsList(u.next, s.active, active) && Appended(u, t, k, active);
  }

  /** The allocation never loads NULL, whatever up to k interrupting pops do, if and only if more than k
      transfers are free at the test. */
  lemma PopsTolerated(s: Pool, free: seq<nat>, active: seq<nat>, k: nat)
    requires Inv(s, free, active) && s.pc == Idle && s.free.Some?
    ensures (forall run, events :: AllocationRun(s, run, events) && Pops(events) <= k ==> !LoadsNull(run))
            <==> |free| > k
  {
    hide Base, AllocationRun;
    if |free| > k {
      forall run, events | AllocationRun(s, run, events) && Pops(events) <= k ensures !LoadsNull(run) {
        NeverNull(s, run, events, free, active);
      }
    } else {
      var run, events := FailingRun(s, free, active);
      assert AllocationRun(s, run, events) && Pops(events) <= k && LoadsNull(run);
    }
  }

  lemma NeverNull(s: Pool, run: seq<Pool>, events: seq<Event>, free: seq<nat>, active: seq<nat>)
    requires Inv(s, free, active) && AllocationRun(s, run, events) && Pops(events) < |free|
    ensures !LoadsNull(run)
  {
    assert events[..|events|] == events;
    var f, a := SomeLeft(s, run, events, free, active, |events|);
    if Allocating(run[|events|].pc) {
      SomeFree(run[|events|], f, a);
    }
  }

  lemma FailingRun(s: Pool, free: seq<nat>, active: seq<nat>) returns (run: seq<Pool>, events: seq<Event>)
    requires Inv(s, free, active) && s.pc == Idle && s.free.Some?
    ensures AllocationRun(s, run, events) && Pops(events) == |free| && LoadsNull(run)
  {
    var t := s.(pc := LoadHead);
    Started(s, t, free, active);
    assert [ThreadEvent][..0] == [];
    assert AllocationRun(s, [s, t], [ThreadEvent]);
    run, events := TakeAll(s, [s, t], [ThreadEvent], free, active, |free|);
  }

  /** So it happens from the very beginning: a pool of n transfers is exhausted by n interrupting calls after
      the test for NULL. */
  lemma InterruptingPopBreaksAllocation(s: Pool) returns (run: seq<Pool>, events: seq<Event>)
    requires Init(s) && |s.next| >= 1
    ensures AllocationRun(s, run, events) && Pops(events) == |s.next| && LoadsNull(run)
  {
    InitInv(s);
    Counted(0, |s.next|);
    run, events := FailingRun(s, UpFrom(0, |s.next|), []);
  }

  lemma {:induction false} Counted(i: nat, n: nat)
    requires i <= n
    ensures |UpFrom(i, n)| == n - i
    decreases n - i
  {
    if i < n {
      Counted(i + 1, n);
    }
  }
}
