// The transfer queue of one endpoint (common/usb_queue.c), as sequential code:
// the loops over the linked lists, the descriptor chain kept beside the active
// list, and the completion routine whose callbacks may schedule again.
//
// The fields of the C array of transfers are one sequence each, indexed by
// transfer. What interrupts do between the steps is the subject of UsbPool, and
// what the controller does is the subject of UsbAppend.

module UsbQueue {
  import opened Machine
  import opened Links
  import opened Options

  /** A completion callback: the requests it schedules on the same queue when it runs. */
  datatype Callback = NoCallback | Schedules(requests: seq<Request>)

  datatype Request = Request(data: nat, maximumLength: u32, callback: Callback, userData: nat)

  /** One call of a completion callback. */
  datatype Completion = Completion(request: Request, transferred: u32)

  /** The 15-bit field of a descriptor with the bytes that are still to be transferred. */
  type Remaining = x: nat | x < 0x8000

  /** A step of a run: code schedules, the completion interrupt runs, the controller works, or the queue is
      flushed. */
  datatype Call =
    | ScheduleCall(r: Request)
    | CompleteCall(progress: seq<seq<Remaining>>)
    | ControllerRuns(counts: seq<Remaining>)
    | FlushCall

  function Requests(fired: seq<Completion>): (r: seq<Request>)
    ensures |r| == |fired|
  {
    seq(|fired|, i requires 0 <= i < |fired| => fired[i].request)
  }

  // ----- the queue without its lists

  /** How many transfers are free, the requests accepted and not called back, what the controller left of
      those it has finished (always the oldest), and the callbacks made. */
  datatype Abstract = Abstract(free: nat, active: seq<Request>, left: seq<Remaining>, fired: seq<Completion>)
  {
    ghost predicate Sound() {
      |left| <= |active|
    }

    /** All requests accepted, in order. */
    ghost function Accepted(): seq<Request> {
      Requests(fired) + active
    }
  }

  function Min(x: nat, y: nat): nat {
    if x < y then x else y
  }

  /** As many requests are accepted as transfers are free; the others are refused. */
  ghost function Accept(a: Abstract, requests: seq<Request>): Abstract {
    var k := Min(|requests|, a.free);
    a.(free := a.free - k, active := a.active + requests[..k])
  }

  /** The controller finishes requests from the oldest on. */
  ghost function Advance(a: Abstract, counts: seq<Remaining>): Abstract
    requires a.Sound()
  {
    a.(left := a.left + counts[..Min(|counts|, |a.active| - |a.left|)])
  }

  function Wanted(c: Callback): (r: seq<Request>)
    ensures c == if c.Schedules? then Schedules(r) else NoCallback
  {
    if c.Schedules? then c.requests else []
  }

  function Completed(r: Request, left: nat): Completion {
    Completion(r, U32(r.maximumLength - left))
  }

  /** The oldest request is called back. Its transfer is returned after the callback, which therefore
      cannot use it. */
  ghost function CompleteOne(a: Abstract): Abstract
    requires a.Sound() && a.left != []
  {
    var r := a.active[0];
    var b := Accept(Abstract(a.free, a.active[1..], a.left[1..], a.fired + [Completed(r, a.left[0])]),
                    Wanted(r.callback));
    b.(free := b.free + 1)
  }

  /** The completion routine. It stops at an unfinished request, and behind the last request that was there
      when the callback began: a request scheduled by that callback waits for the next interrupt. */
  ghost function Interrupt(a: Abstract, progress: seq<seq<Remaining>>): Abstract
    requires a.Sound()
    decreases |progress|, |a.left|
  {
    if a.active == [] then a
    else
      var b := if progress == [] then a else Advance(a, progress[0]);
      var rest := if progress == [] then [] else progress[1..];
      if b.left == [] then b
      else if |b.active| == 1 then CompleteOne(b)
      else Interrupt(CompleteOne(b), rest)
  }

  ghost function Step(a: Abstract, call: Call): (b: Abstract)
    requires a.Sound()
    ensures b.Sound()
  {
    match call
    case ScheduleCall(r) => Accept(a, [r])
    case CompleteCall(progress) => InterruptKeeps(a, progress); Interrupt(a, progress)
    case ControllerRuns(counts) => Advance(a, counts)
    case FlushCall => Abstract(a.free + |a.active|, [], [], a.fired)
  }

  ghost function Steps(a: Abstract, calls: seq<Call>): (b: Abstract)
    requires a.Sound()
    ensures b.Sound()
  {
    if calls == [] then a else Step(Steps(a, calls[..|calls| - 1]), calls[|calls| - 1])
  }

  /** No callback is lost or reordered by a turn: what was accepted stays, and transfers are conserved. */
  lemma OneKeeps(a: Abstract)
    requires a.Sound() && a.left != []
    ensures var b := CompleteOne(a);
            && b.Sound() && b.left == a.left[1..]
            && a.fired <= b.fired && a.Accepted() <= b.Accepted()
            && b.free + |b.active| == a.free + |a.active|
  {
    var r := a.active[0];
    var b := CompleteOne(a);
    assert Requests(b.fired) == Requests(a.fired) + [r];
    var k := Min(|Wanted(r.callback)|, a.free);
    assert b.Accepted() == a.Accepted() + Wanted(r.callback)[..k];
  }

  lemma {:induction false} InterruptKeeps(a: Abstract, progress: seq<seq<Remaining>>)
    requires a.Sound()
    ensures var b := Interrupt(a, progress);
            && b.Sound() && a.fired <= b.fired && a.Accepted() <= b.Accepted()
            && b.free + |b.active| == a.free + |a.active|
    decreases |progress|, |a.left|
  {
    if a.active != [] {
      var b := if progress == [] then a else Advance(a, progress[0]);
      if b.left != [] {
        OneKeeps(b);
        if |b.active| > 1 {
          InterruptKeeps(CompleteOne(b), if progress == [] then [] else progress[1..]);
        }
      }
    }
  }

  /** In every run the callbacks come in the order of acceptance, once for each request: callbacks and
      requests still active are always the accepted requests, which without a flush only grow at the end.
      Transfers are conserved. */
  lemma {:induction false} FirstInFirstOut(a: Abstract, calls: seq<Call>)
    requires a.Sound()
    ensures var b := Steps(a, calls);
            && a.fired <= b.fired
            && b.free + |b.active| == a.free + |a.active|
            && (FlushCall !in calls ==> a.Accepted() <= b.Accepted())
  {
    if calls != [] {
      var before := calls[..|calls| - 1];
      FirstInFirstOut(a, before);
      match calls[|calls| - 1]
      case CompleteCall(progress) => InterruptKeeps(Steps(a, before), progress);
      case ScheduleCall(r) =>
      case ControllerRuns(counts) =>
      case FlushCall =>
    }
  }

  /** The completions of finished requests. */
  ghost function AllCompleted(active: seq<Request>, left: seq<Remaining>): seq<Completion>
    requires |left| <= |active|
  {
    if left == [] then [] else [Completed(active[0], left[0])] + AllCompleted(active[1..], left[1..])
  }

  lemma {:induction false} MoreActive(active: seq<Request>, more: seq<Request>, left: seq<Remaining>)
    requires |left| <= |active|
    ensures AllCompleted(active + more, left) == AllCompleted(active, left)
  {
    if left != [] {
      assert (active + more)[1..] == active[1..] + more;
      MoreActive(active[1..], more, left[1..]);
    }
  }

  /** The interrupt calls back exactly the finished requests, each with its own byte count. */
  lemma {:induction false} InterruptFires(a: Abstract)
    requires a.Sound()
    ensures var b := Interrupt(a, []); b.left == [] && b.fired == a.fired + AllCompleted(a.active, a.left)
    decreases |a.left|
  {
    if a.left != [] {
      var b := CompleteOne(a);
      var wanted := Wanted(a.active[0].callback);
      MoreActive(a.active[1..], wanted[..Min(|wanted|, a.free)], a.left[1..]);
      OneKeeps(a);
      if |a.active| > 1 {
        InterruptFires(b);
        assert a.fired + [Completed(a.active[0], a.left[0])] + AllCompleted(a.active[1..], a.left[1..])
               == a.fired + AllCompleted(a.active, a.left);
      }
    }
  }

  // ----- the linked lists

  predicate Within(xs: seq<nat>, n: nat) {
    forall i :: 0 <= i < |xs| ==> xs[i] < n
  }

  /** The requests of the transfers on a list, in list order. */
  function RequestsOf(request: seq<Request>, xs: seq<nat>): (r: seq<Request>)
    requires Within(xs, |request|)
    ensures |r| == |xs|
  {
    seq(|xs|, i requires 0 <= i < |xs| => request[xs[i]])
  }

  class Queue {
    const size: nat
    var free: Option<nat>
    var active: Option<nat>
    var next: seq<Option<nat>>
    // transfer descriptors: link (None is TERMINATE), ACTIVE bit, bytes not transferred
    var tdNext: seq<Option<nat>>
    var tdActive: seq<bool>
    var tdRemaining: seq<nat>
    var request: seq<Request>
    // exclusive stores that will still fail
    var interference: nat

    ghost var freeList: seq<nat>
    ghost var activeList: seq<nat>
    ghost var finished: nat              // how many at the head of the active list the controller has finished
    ghost var scheduled: seq<Request>    // all requests accepted and not flushed
    ghost var remainders: seq<Remaining>       // the byte counts the controller left, in its order
    ghost var fired: seq<Completion>     // all callbacks made

    /** Both lists and the transfers in held partition the pool, and the descriptor chain is the active list. */
    ghost predicate Lists(held: seq<nat>)
      reads `next, `free, `active, `freeList, `activeList, `tdNext, `tdActive, `tdRemaining, `request
    {
      && |next| == |tdNext| == |tdActive| == |tdRemaining| == |request| == size
      && IsList(next, free, freeList)
      && IsList(next, active, activeList)
      && IsList(tdNext, active, activeList)
      && OnePlace(size, freeList, activeList, held)
      && Within(activeList, size)
    }

    /** Callbacks so far and requests still active, in this order, are the requests scheduled. */
    ghost predicate History()
      requires |request| == |tdActive| == |tdRemaining| && Within(activeList, |request|)
      reads `activeList, `request, `tdActive, `tdRemaining, `scheduled, `finished, `remainders, `fired
    {
      && scheduled == Requests(fired) + RequestsOf(request, activeList)
      && finished <= |activeList|
      && |remainders| == |fired| + finished
      && (forall i :: 0 <= i < |activeList| ==> (tdActive[activeList[i]] <==> i >= finished))
      && (forall i :: 0 <= i < finished ==> tdRemaining[activeList[i]] == remainders[|fired| + i])
      && (forall i :: 0 <= i < |fired| ==> fired[i].transferred == U32(fired[i].request.maximumLength - remainders[i]))
    }

    ghost predicate Valid(held: seq<nat>)
      reads this
    {
      Lists(held) && History()
    }

    ghost function Abs(held: seq<nat>): (a: Abstract)
      requires Valid(held)
      reads this
    {
      Abstract(|freeList|, RequestsOf(request, activeList), remainders[|fired|..], fired)
    }

    /** The requests on the active list are the accepted ones that have not been called back. */
    lemma ActiveRequests(held: seq<nat>)
      requires Valid(held)
      ensures Abs(held).Sound() && Abs(held).active == scheduled[|fired|..] && Abs(held).Accepted() == scheduled
    {
    }

    /** usb_queue_init: all transfers of the array are linked into the free list, in order. */
    constructor (poolSize: nat, interference: nat)
      requires poolSize >= 1
      ensures Valid([]) && size == poolSize && activeList == [] && fired == [] && scheduled == []
      ensures freeList == UpFrom(0, poolSize)
    {
      size := poolSize;
      free, active := Some(0), None;
      tdNext, tdActive, tdRemaining := seq(poolSize, _ => None), seq(poolSize, _ => false), seq(poolSize, _ => 0);
      request := seq(poolSize, _ => Request(0, 0, NoCallback, 0));
      this.interference := interference;
      activeList, finished, scheduled, remainders, fired := [], 0, [], [], [];
      freeList := UpFrom(0, poolSize);
      next := seq(poolSize, _ => None);
      new;
      var t := 0;
      while t < poolSize - 1
        invariant t <= poolSize - 1 && |next| == poolSize
        invariant forall i :: 0 <= i < t ==> next[i] == Some(i + 1)
        modifies this`next
      {
        next := next[t := Some(t + 1)];
        t := t + 1;
      }
      next := next[t := None];
      InOrder(next, 0);
      AllFree(poolSize);
    }

    /** store_exclusive after load_exclusive: it may fail, and then the access is retried. */
    method StoreExclusive(value: Option<nat>) returns (aborted: bool)
      modifies this`free, this`interference
      ensures aborted <==> old(interference) > 0
      ensures if aborted then free == old(free) && interference == old(interference) - 1
              else free == value && interference == old(interference)
    {
      if interference > 0 {
        interference := interference - 1;
        aborted := true;
      } else {
        free := value;
        aborted := false;
      }
    }

    /** Takes the head of the free list, if there is one. */
    method AllocateTransfer(ghost held: seq<nat>) returns (transfer: Option<nat>)
      requires Valid(held)
      modifies this`free, this`interference, this`next, this`freeList
      ensures old(freeList) == [] ==> transfer == None && Valid(held) && freeList == []
      ensures old(freeList) != [] ==> transfer == Some(old(freeList[0])) && freeList == old(freeList)[1..]
                                      && Valid(held + [transfer.value]) && transfer.value < size
    {
      if free == None {
        return None;
      }
      var aborted := true;
      transfer := free;
      while aborted
        invariant freeList == old(freeList) && next == old(next)
        invariant transfer == old(free) && free == if aborted then transfer else next[transfer.value]
        decreases aborted, interference
      {
        transfer := free;
        aborted := StoreExclusive(next[transfer.value]);
      }
      TakeFirst(size, freeList, activeList, held);
      ListFrame(next, free, freeList[1..], transfer.value, None);
      ListFrame(next, active, activeList, transfer.value, None);
      next := next[transfer.value := None];
      freeList := freeList[1..];
    }

    /** Puts a transfer that is on no list at the head of the free list. */
    method FreeTransfer(transfer: nat, ghost held: seq<nat>)
      requires Lists(held + [transfer])
      modifies this`free, this`interference, this`next, this`freeList
      ensures Lists(held) && freeList == [transfer] + old(freeList)
    {
      InHand(size, freeList, activeList, held, transfer);
      var aborted := true;
      ghost var next0 := next;
      while aborted
        invariant |next| == size && free == if aborted then old(free) else Some(transfer)
        invariant next == next0 || next == next0[transfer := old(free)]
        invariant !aborted ==> next[transfer] == old(free)
        invariant freeList == old(freeList)
        decreases aborted, interference
      {
        next := next[transfer := free];
        aborted := StoreExclusive(Some(transfer));
      }
      ListFrame(next0, old(free), freeList, transfer, old(free));
      ListFrame(next0, active, activeList, transfer, old(free));
      freeList := [transfer] + freeList;
      assert freeList[1..] == old(freeList);
    }

    /** Appends to the active list; the old tail is returned. */
    method EndpointQueueTransfer(transfer: nat, ghost held: seq<nat>) returns (tail: Option<nat>)
      requires Lists(held + [transfer])
      modifies this`next, this`active
      ensures |next| == size && IsList(next, free, freeList)
      ensures IsList(next, active, activeList + [transfer])
      ensures tail == if activeList == [] then None else Some(activeList[|activeList| - 1])
      ensures active == if activeList == [] then Some(transfer) else old(active)
    {
      InHand(size, freeList, activeList, held, transfer);
      ListFrame(next, free, freeList, transfer, None);
      ListFrame(next, active, activeList, transfer, None);
      next := next[transfer := None];
      if active != None {
        var t := active.value;
        ghost var i := 0;
        while next[t] != None
          invariant 0 <= i < |activeList| && t == activeList[i] < size
          invariant IsList(next, Some(t), activeList[i..])
          decreases |activeList| - i
        {
          assert activeList[i..][1..] == activeList[i + 1..];
          t := next[t].value;
          i := i + 1;
        }
        assert activeList[i..][1..] == [];
        TailKept(size, freeList, activeList, held + [transfer]);
        ListAppend(next, active, activeList, transfer);
        ListFrame(next, free, freeList, t, Some(transfer));
        next := next[t := Some(transfer)];
        tail := Some(t);
      } else {
        active := Some(transfer);
        assert activeList + [transfer] == [transfer] && [transfer][1..] == [];
        tail := None;
      }
    }

    /** usb_transfer_schedule: -1 when the pool is exhausted, else the request joins the end of the queue. */
    method Schedule(r: Request, ghost held: seq<nat>) returns (ret: int)
      requires Valid(held)
      modifies this
      ensures Valid(held) && fired == old(fired) && remainders == old(remainders) && finished == old(finished)
      ensures old(freeList) == [] ==> ret == -1 && scheduled == old(scheduled) && activeList == old(activeList)
                                      && freeList == []
      ensures old(freeList) != [] ==> ret == 0 && scheduled == old(scheduled) + [r]
                                      && activeList == old(activeList) + [old(freeList)[0]]
                                      && freeList == old(freeList)[1..]
      ensures old(active) != None ==> active == old(active)
    {
      var popped := AllocateTransfer(held);
      if popped == None {
        return -1;
      }
      Enqueue(popped.value, r, held);
      ret := 0;
    }

    /** The part of scheduling after a transfer has been allocated. */
    method Enqueue(transfer: nat, r: Request, ghost held: seq<nat>)
      requires Valid(held + [transfer]) && transfer < size
      modifies this`next, this`active, this`tdNext, this`tdActive, this`tdRemaining, this`request,
               this`activeList, this`scheduled
      ensures Valid(held) && scheduled == old(scheduled) + [r] && activeList == old(activeList) + [transfer]
      ensures old(active) != None ==> active == old(active)
    {
      hide OnePlace, RequestsOf, Requests;
      FillIn(transfer, r, held);
      QueueAndLink(transfer, held);
      InHand(size, freeList, activeList, held, transfer);
      Append(transfer);
    }

    /** The part with interrupts disabled: software list and descriptor chain are extended alike. */
    method QueueAndLink(transfer: nat, ghost held: seq<nat>)
      requires Lists(held + [transfer]) && transfer < size && tdNext[transfer] == None
      modifies this`next, this`active, this`tdNext
      ensures |next| == |tdNext| == size && IsList(next, free, freeList)
      ensures IsList(next, active, activeList + [transfer]) && IsList(tdNext, active, activeList + [transfer])
      ensures old(active) != None ==> active == old(active)
    {
      hide OnePlace;
      var tail := EndpointQueueTransfer(transfer, held);
      LinkDescriptor(transfer, tail, held);
    }

    /** The history of the appended transfer. */
    ghost method Append(transfer: nat)
      requires |tdActive| == |tdRemaining| == |request| && Within(activeList, |request|) && History()
      requires transfer < |request| && tdActive[transfer]
      modifies this`activeList, this`scheduled
      ensures activeList == old(activeList) + [transfer] && scheduled == old(scheduled) + [request[transfer]]
      ensures Within(activeList, |request|) && History()
    {
      assert RequestsOf(request, activeList + [transfer]) == RequestsOf(request, activeList) + [request[transfer]];
      scheduled := scheduled + [request[transfer]];
      activeList := activeList + [transfer];
    }

    /** The descriptor and the request are filled in. */
    method FillIn(transfer: nat, r: Request, ghost held: seq<nat>)
      requires Valid(held + [transfer]) && transfer < size
      modifies this`tdNext, this`tdActive, this`tdRemaining, this`request
      ensures Valid(held + [transfer]) && request[transfer] == r && tdActive[transfer] && tdNext[transfer] == None
      ensures tdRemaining[transfer] == r.maximumLength % 0x8000
    {
      InHand(size, freeList, activeList, held, transfer);
      ListFrame(tdNext, active, activeList, transfer, None);
      ghost var request0 := request;
      tdNext := tdNext[transfer := None];
      tdActive := tdActive[transfer := true];
      tdRemaining := tdRemaining[transfer := r.maximumLength % 0x8000];
      request := request[transfer := r];
      SameRequests(request0, activeList, transfer, r);
    }

    /** usb_endpoint_schedule_wait or usb_endpoint_schedule_append, as far as memory is concerned. */
    method LinkDescriptor(transfer: nat, tail: Option<nat>, ghost held: seq<nat>)
      requires |tdNext| == size && transfer < size && tdNext[transfer] == None
      requires OnePlace(size, freeList, activeList, held + [transfer])
      requires activeList != [] ==> IsList(tdNext, active, activeList)
      requires activeList == [] ==> active == Some(transfer)
      requires tail == if activeList == [] then None else Some(activeList[|activeList| - 1])
      modifies this`tdNext
      ensures |tdNext| == size && IsList(tdNext, active, activeList + [transfer])
    {
      match tail {
        case None =>
          tdNext := tdNext[transfer := None];
          assert activeList + [transfer] == [transfer] && [transfer][1..] == [];
        case Some(t) =>
          InHand(size, freeList, activeList, held, transfer);
          TailKept(size, freeList, activeList, held + [transfer]);
          ListAppend(tdNext, active, activeList, transfer);
          tdNext := tdNext[t := Some(transfer)];
      }
    }

    /** A completion callback: it schedules its requests on this queue, as many as transfers are free. */
    method RunCallback(callback: Callback, ghost held: seq<nat>)
      requires Valid(held)
      modifies this
      ensures Valid(held) && fired == old(fired) && remainders == old(remainders) && finished == old(finished)
      ensures var k := Min(|Wanted(callback)|, |old(freeList)|);
              && scheduled == old(scheduled) + Wanted(callback)[..k]
              && activeList == old(activeList) + old(freeList)[..k]
              && freeList == old(freeList)[k..]
      ensures old(active) != None ==> active == old(active)
    {
      hide OnePlace, RequestsOf, Requests, History, Lists;
      if callback.Schedules? {
        ghost var wanted, pool := callback.requests, freeList;
        for i := 0 to |callback.requests|
          invariant Valid(held) && fired == old(fired) && remainders == old(remainders) && finished == old(finished)
          invariant scheduled == old(scheduled) + wanted[..Min(i, |pool|)]
          invariant activeList == old(activeList) + pool[..Min(i, |pool|)]
          invariant freeList == pool[Min(i, |pool|)..]
          invariant old(active) != None ==> active == old(active)
        {
          var _ := Schedule(callback.requests[i], held);
        }
        assert wanted[..Min(|wanted|, |pool|)] == Wanted(callback)[..Min(|Wanted(callback)|, |old(freeList)|)];
      }
    }

    /** The controller finishes the oldest unfinished descriptor, leaving some bytes untransferred. */
    method ControllerFinishes(t: nat, remaining: Remaining)
      requires Valid([]) && finished < |activeList| && t == activeList[finished]
      modifies this`tdActive, this`tdRemaining, this`finished, this`remainders
      ensures Valid([]) && finished == old(finished) + 1 && remainders == old(remainders) + [remaining]
    {
      DistinctActive(size, freeList, activeList, []);
      tdActive := tdActive[t := false];
      tdRemaining := tdRemaining[t := remaining];
      remainders := remainders + [remaining];
      finished := finished + 1;
    }

    /** The head leaves both chains of the active list; it is held. */
    method UnlinkHead(transfer: nat)
      requires Lists([]) && active == Some(transfer)
      modifies this`active, this`activeList
      ensures Lists([transfer]) && old(activeList) != [] && transfer == old(activeList[0])
      ensures activeList == old(activeList)[1..] && (active == None <==> activeList == [])
    {
      SecondOf(next, active, activeList);
      SecondOf(tdNext, active, activeList);
      TakeActive(size, freeList, activeList);
      active := next[transfer];
      activeList := activeList[1..];
    }

    /** The history of one callback: the head's request, and what was transferred for it. */
    ghost method Record(transfer: nat, list: seq<nat>, transferred: u32)
      requires |request| == |tdActive| == |tdRemaining| && list != [] && Within(list, |request|)
      requires list[0] == transfer && activeList == list[1..] && finished > 0
      requires scheduled == Requests(fired) + RequestsOf(request, list)
      requires finished <= |list| && |remainders| == |fired| + finished
      requires forall i :: 0 <= i < |list| ==> (tdActive[list[i]] <==> i >= finished)
      requires forall i :: 0 <= i < finished ==> tdRemaining[list[i]] == remainders[|fired| + i]
      requires forall i :: 0 <= i < |fired| ==>
                 fired[i].transferred == U32(fired[i].request.maximumLength - remainders[i])
      requires transferred == U32(request[transfer].maximumLength - tdRemaining[transfer])
      modifies this`finished, this`fired
      ensures Within(activeList, |request|) && History()
      ensures finished == old(finished) - 1 && fired == old(fired) + [Completion(request[transfer], transferred)]
    {
      assert RequestsOf(request, list) == [request[transfer]] + RequestsOf(request, activeList);
      fired := fired + [Completion(request[transfer], transferred)];
      assert Requests(fired) == Requests(old(fired)) + [request[transfer]];
      finished := finished - 1;
    }

    /** A finished head leaves the active list and its completion is recorded. */
    method RetireHead(transfer: nat)
      requires Valid([]) && active == Some(transfer) && !tdActive[transfer]
      modifies this`active, this`activeList, this`finished, this`fired
      ensures Valid([transfer]) && (active == None <==> activeList == [])
      ensures 0 < old(finished) == finished + 1 && 0 < |old(activeList)| && activeList == old(activeList)[1..]
      ensures |old(fired)| < |remainders|
              && fired == old(fired) + [Completed(request[transfer], remainders[|old(fired)|])]
    {
      ghost var list := activeList;
      assert tdActive[list[0]] <==> 0 >= finished;
      UnlinkHead(transfer);
      var transferred := U32(request[transfer].maximumLength - tdRemaining[transfer]);
      Record(transfer, list, transferred);
    }

    /** One turn of the completion loop on a finished head; the next transfer is read before the callback. */
    method CompleteHead(transfer: nat) returns (nextTransfer: Option<nat>)
      requires Valid([]) && active == Some(transfer) && transfer < size && !tdActive[transfer]
      modifies this
      ensures Valid([]) && 0 < old(finished) == finished + 1 && remainders == old(remainders)
      ensures |old(fired)| < |remainders| && transfer < |old(request)|
              && fired == old(fired) + [Completed(old(request)[transfer], remainders[|old(fired)|])]
      ensures var wanted := Wanted(old(request)[transfer].callback);
              var k := Min(|wanted|, |old(freeList)|);
              && scheduled == old(scheduled) + wanted[..k]
              && 0 < |old(activeList)| && activeList == old(activeList)[1..] + old(freeList)[..k]
              && freeList == [transfer] + old(freeList)[k..]
      ensures if |old(activeList)| == 1 then nextTransfer == None else nextTransfer != None && nextTransfer == active
    {
      hide OnePlace, RequestsOf, Requests, History;
      RetireHead(transfer);
      nextTransfer := active;
      RunCallback(request[transfer].callback, [transfer]);
      assert [] + [transfer] == [transfer];
      FreeTransfer(transfer, []);
    }

    /** The turn on the queue without its lists. */
    method CompleteTurn(transfer: nat) returns (nextTransfer: Option<nat>)
      requires Valid([]) && active == Some(transfer) && transfer < size && !tdActive[transfer]
      modifies this
      ensures Valid([]) && finished == old(finished) - 1
      ensures old(Abs([])).Sound() && old(Abs([])).left != [] && Abs([]) == CompleteOne(old(Abs([])))
      ensures if |old(activeList)| == 1 then nextTransfer == None else nextTransfer != None && nextTransfer == active
    {
      ActiveRequests([]);
      assert transfer == activeList[0];
      nextTransfer := CompleteHead(transfer);
      ActiveRequests([]);
      var wanted := Wanted(old(request)[transfer].callback);
      NextTurn(old(scheduled), old(fired), fired, remainders, wanted[..Min(|wanted|, |old(freeList)|)]);
    }

    /** usb_queue_transfer_complete. progress[k] lists the byte counts left by the descriptors that the
        controller finishes just before the k-th test of a status. */
    method TransferComplete(progress: seq<seq<Remaining>>)
      requires Valid([])
      modifies this
      ensures Valid([]) && old(Abs([])).Sound() && Abs([]) == Interrupt(old(Abs([])), progress)
    {
      hide OnePlace, RequestsOf, Requests, CompleteOne, Advance;
      var transfer := active;
      var rest := progress;
      ActiveRequests([]);
      ghost var a0 := Abs([]);
      while transfer != None
        invariant Valid([]) && Abs([]).Sound()
        invariant transfer != None ==> transfer == active && Interrupt(Abs([]), rest) == Interrupt(a0, progress)
        invariant transfer == None ==> Abs([]) == Interrupt(a0, progress)
        decreases |rest|, finished
      {
        if rest != [] {
          ControllerAdvances(rest[0]);
          rest := rest[1..];
        }
        assert tdActive[activeList[0]] <==> 0 >= finished;
        if tdActive[transfer.value] {
          break;
        }
        transfer := CompleteTurn(transfer.value);
        ActiveRequests([]);
      }
    }

    /** The controller's walk to its oldest unfinished descriptor. */
    method OldestUnfinished() returns (t: Option<nat>)
      requires Valid([])
      ensures t == if finished < |activeList| then Some(activeList[finished]) else None
    {
      t := active;
      ghost var i := 0;
      while t != None && !tdActive[t.value]
        invariant i <= finished && IsList(tdNext, t, activeList[i..])
        invariant t == if i < |activeList| then Some(activeList[i]) else None
        decreases |activeList| - i
      {
        assert i < finished;
        SecondOf(tdNext, t, activeList[i..]);
        t := tdNext[t.value];
        i := i + 1;
        assert activeList[i - 1..][1..] == activeList[i..];
      }
    }

    /** The controller finishes descriptors in chain order, one for each byte count. */
    method ControllerAdvances(counts: seq<Remaining>)
      requires Valid([])
      modifies this`tdActive, this`tdRemaining, this`finished, this`remainders
      ensures Valid([]) && finished >= old(finished)
      ensures old(Abs([])).Sound() && Abs([]) == Advance(old(Abs([])), counts)
    {
      hide OnePlace, RequestsOf, Requests, Lists;
      ghost var room := |activeList| - finished;
      for k := 0 to |counts|
        invariant Valid([]) && finished == old(finished) + Min(k, room)
        invariant remainders == old(remainders) + counts[..Min(k, room)]
      {
        var t := OldestUnfinished();
        if t != None {
          ControllerFinishes(t.value, counts[k]);
        }
      }
    }

    /** usb_queue_flush_queue: every active transfer goes back to the pool, uncompleted. */
    method Flush()
      requires Valid([])
      modifies this
      ensures Valid([]) && active == None && activeList == [] && fired == old(fired)
      ensures freeList == Backwards(old(activeList)) + old(freeList)
      ensures old(Abs([])).Sound() && Abs([]) == Step(old(Abs([])), FlushCall)
    {
      hide OnePlace, Lists;
      FlushLists();
      Forget();
    }

    /** The loop. */
    method FlushLists()
      requires Lists([])
      modifies this`free, this`active, this`next, this`freeList, this`activeList, this`interference
      ensures Lists([]) && active == None && activeList == []
      ensures freeList == Backwards(old(activeList)) + old(freeList)
    {
      hide OnePlace;
      while active != None
        invariant Lists([])
        invariant Backwards(activeList) + freeList == Backwards(old(activeList)) + old(freeList)
        decreases |activeList|
      {
        MoveOver(activeList, freeList);
        FlushOne();
      }
    }

    method FlushOne()
      requires Lists([]) && active != None
      modifies this`free, this`active, this`next, this`freeList, this`activeList, this`interference
      ensures Lists([]) && old(activeList) != [] && activeList == old(activeList)[1..]
      ensures freeList == [old(activeList)[0]] + old(freeList)
    {
      var transfer := active.value;
      UnlinkHead(transfer);
      assert [] + [transfer] == [transfer];
      FreeTransfer(transfer, []);
    }

    /** What was active is no longer awaited. */
    ghost method Forget()
      requires Lists([]) && activeList == [] && |fired| <= |remainders|
      requires forall i :: 0 <= i < |fired| ==>
                 fired[i].transferred == U32(fired[i].request.maximumLength - remainders[i])
      modifies this`scheduled, this`remainders, this`finished
      ensures Valid([]) && Abs([]) == Abstract(|freeList|, [], [], fired)
    {
      scheduled := Requests(fired);
      remainders := remainders[..|fired|];
      finished := 0;
    }

    /** First in, first out, exactly once: the i-th callback is the i-th request's, with its own byte count. */
    lemma FifoExactlyOnce(held: seq<nat>)
      requires Valid(held)
      ensures |scheduled| == |fired| + |activeList| && |remainders| >= |fired|
      ensures forall i :: 0 <= i < |fired| ==>
                fired[i] == Completion(scheduled[i], U32(scheduled[i].maximumLength - remainders[i]))
    {
      forall i | 0 <= i < |fired|
        ensures fired[i] == Completion(scheduled[i], U32(scheduled[i].maximumLength - remainders[i]))
      {
        assert Requests(fired)[i] == fired[i].request == scheduled[i];
      }
    }

    /** Any run of calls, with callbacks that schedule again: the linked lists do what the queue without
        lists does, and the i-th callback is the i-th request's. */
    method AnyRun(calls: seq<Call>)
      requires Valid([])
      modifies this
      ensures Valid([]) && old(Abs([])).Sound() && Abs([]) == Steps(old(Abs([])), calls) && old(fired) <= fired
      ensures |scheduled| == |fired| + |activeList| && |remainders| >= |fired|
      ensures forall i :: 0 <= i < |fired| ==>
                fired[i] == Completion(scheduled[i], U32(scheduled[i].maximumLength - remainders[i]))
    {
      hide OnePlace, Lists, History, Requests, RequestsOf, Step;
      ActiveRequests([]);
      ghost var a0 := Abs([]);
      FirstInFirstOut(a0, calls);
      for k := 0 to |calls|
        invariant Valid([]) && Abs([]) == Steps(a0, calls[..k])
      {
        assert calls[..k + 1][..k] == calls[..k];
        ActiveRequests([]);
        DoCall(calls[k]);
      }
      assert calls[..|calls|] == calls;
      FifoExactlyOnce([]);
    }

    method DoCall(call: Call)
      requires Valid([])
      modifies this
      ensures Valid([]) && old(Abs([])).Sound() && Abs([]) == Step(old(Abs([])), call)
    {
      ActiveRequests([]);
      match call
      case ScheduleCall(r) =>
        var _ := Schedule(r, []);
        ActiveRequests([]);
      case CompleteCall(progress) => TransferComplete(progress);
      case ControllerRuns(counts) => ControllerAdvances(counts);
      case FlushCall => Flush();
    }
  }

  /** After one callback the requests not called back are those behind it and the new ones. */
  lemma NextTurn(scheduled: seq<Request>, fired: seq<Completion>, fired': seq<Completion>, remainders: seq<Remaining>,
                 more: seq<Request>)
    requires |fired| < |scheduled| && |fired| < |remainders| && |fired'| == |fired| + 1
    ensures (scheduled + more)[|fired'|..] == scheduled[|fired|..][1..] + more
    ensures remainders[|fired'|..] == remainders[|fired|..][1..]
  {
  }

  function Backwards(xs: seq<nat>): (r: seq<nat>)
    ensures |r| == |xs|
  {
    if xs == [] then [] else Backwards(xs[1..]) + [xs[0]]
  }

  lemma MoveOver(xs: seq<nat>, ys: seq<nat>)
    requires xs != []
    ensures Backwards(xs) + ys == Backwards(xs[1..]) + ([xs[0]] + ys)
  {
  }

  lemma SameRequests(request: seq<Request>, xs: seq<nat>, k: nat, r: Request)
    requires Within(xs, |request|) && k < |request| && k !in xs
    ensures RequestsOf(request[k := r], xs) == RequestsOf(request, xs)
  {
  }
}
