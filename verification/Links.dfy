// Singly linked lists of transfers. The transfers of a queue are one array, so a
// pointer is an index into it, and NULL is None.

module Links {
  import opened Options

  /** xs is the list that starts at head and follows next to NULL. */
  ghost predicate IsList(next: seq<Option<nat>>, head: Option<nat>, xs: seq<nat>)
    decreases |xs|
  {
    if xs == [] then head == None
    else head == Some(xs[0]) && xs[0] < |next| && IsList(next, next[xs[0]], xs[1..])
  }

  ghost predicate NoDuplicates(xs: seq<nat>) {
    forall x :: multiset(xs)[x] <= 1
  }

  lemma {:induction false} ListInBounds(next: seq<Option<nat>>, head: Option<nat>, xs: seq<nat>)
    requires IsList(next, head, xs)
    ensures forall x :: x in xs ==> x < |next|
    decreases |xs|
  {
    if xs != [] {
      ListInBounds(next, next[xs[0]], xs[1..]);
      assert xs == [xs[0]] + xs[1..];
    }
  }

  /** Writing a link outside a list does not change the list. */
  lemma {:induction false} ListFrame(next: seq<Option<nat>>, head: Option<nat>, xs: seq<nat>, k: nat, v: Option<nat>)
    requires IsList(next, head, xs) && k < |next| && k !in xs
    ensures IsList(next[k := v], head, xs)
    decreases |xs|
  {
    if xs != [] {
      ListFrame(next, next[xs[0]], xs[1..], k, v);
    }
  }

  lemma {:induction false} ListIsUnique(next: seq<Option<nat>>, head: Option<nat>, xs: seq<nat>, ys: seq<nat>)
    requires IsList(next, head, xs) && IsList(next, head, ys)
    ensures xs == ys
    decreases |xs|
  {
    if xs != [] {
      ListIsUnique(next, next[xs[0]], xs[1..], ys[1..]);
    }
  }

  /** Linking k behind the last transfer of a list appends it. */
  lemma {:induction false} ListAppend(next: seq<Option<nat>>, head: Option<nat>, xs: seq<nat>, k: nat)
    requires IsList(next, head, xs) && NoDuplicates(xs) && xs != []
    requires k < |next| && k !in xs && next[k] == None && xs[|xs| - 1] < |next|
    ensures IsList(next[xs[|xs| - 1] := Some(k)], head, xs + [k])
    decreases |xs|
  {
    var last := xs[|xs| - 1];
    var next' := next[last := Some(k)];
    assert (xs + [k])[1..] == xs[1..] + [k];
    assert xs == [xs[0]] + xs[1..];
    if |xs| == 1 {
      assert xs[1..] + [k] == [k] && [k][1..] == [];
    } else {
      assert xs[1..][|xs| - 2] == last;
      assert multiset(xs) == multiset{xs[0]} + multiset(xs[1..]);
      assert NoDuplicates(xs[1..]) by {
        forall x ensures multiset(xs[1..])[x] <= 1 {
          assert multiset(xs)[x] <= 1;
        }
      }
      assert xs[0] != last by {
        assert multiset(xs)[last] <= 1;
      }
      ListAppend(next, next[xs[0]], xs[1..], k);
    }
  }

  lemma HeadTail(xs: seq<nat>)
    requires xs != []
    ensures multiset(xs) == multiset{xs[0]} + multiset(xs[1..])
  {
    assert xs == [xs[0]] + xs[1..];
  }

  function UpFrom(i: nat, n: nat): seq<nat>
    decreases n - i
  {
    if i >= n then [] else [i] + UpFrom(i + 1, n)
  }

  lemma {:induction false} InOrder(next: seq<Option<nat>>, i: nat)
    requires i <= |next|
    requires forall k :: 0 <= k < |next| ==> next[k] == if k + 1 < |next| then Some(k + 1) else None
    ensures IsList(next, if i < |next| then Some(i) else None, UpFrom(i, |next|))
    decreases |next| - i
  {
    if i < |next| {
      InOrder(next, i + 1);
      var xs := UpFrom(i, |next|);
      assert xs[0] == i && xs[1..] == UpFrom(i + 1, |next|);
      assert IsList(next, next[i], xs[1..]);
    }
  }

  lemma {:induction false} CountUp(i: nat, n: nat, k: nat)
    ensures multiset(UpFrom(i, n))[k] == if i <= k < n then 1 else 0
    decreases n - i
  {
    if i < n {
      CountUp(i + 1, n, k);
      OneInFront(i, UpFrom(i + 1, n), k);
    }
  }

  lemma OneInFront(i: nat, rest: seq<nat>, k: nat)
    ensures multiset([i] + rest)[k] == multiset(rest)[k] + if i == k then 1 else 0
  {
    assert multiset([i] + rest) == multiset{i} + multiset(rest);
  }

  // ----- a pool of list elements

  /** Each of the size elements is in exactly one of the three places. */
  ghost predicate OnePlace(size: nat, free: seq<nat>, active: seq<nat>, held: seq<nat>) {
    forall k: nat :: (multiset(free) + multiset(active) + multiset(held))[k] == if k < size then 1 else 0
  }

  lemma TakeFirst(size: nat, free: seq<nat>, active: seq<nat>, held: seq<nat>)
    requires OnePlace(size, free, active, held) && free != []
    ensures OnePlace(size, free[1..], active, held + [free[0]])
    ensures free[0] < size && free[0] !in free[1..] && free[0] !in active
  {
    HeadTail(free);
    var k := free[0];
    assert (multiset(free) + multiset(active) + multiset(held))[k] == if k < size then 1 else 0;
    assert multiset(free[1..]) + multiset(active) + multiset(held + [k])
           == multiset(free) + multiset(active) + multiset(held);
  }

  lemma InHand(size: nat, free: seq<nat>, active: seq<nat>, held: seq<nat>, k: nat)
    requires OnePlace(size, free, active, held + [k])
    ensures k < size && k !in free && k !in active && k !in held
    ensures OnePlace(size, [k] + free, active, held)
    ensures OnePlace(size, free, active + [k], held)
    ensures NoDuplicates(active)
  {
    assert (multiset(free) + multiset(active) + multiset(held + [k]))[k] == if k < size then 1 else 0;
    assert multiset([k] + free) + multiset(active) + multiset(held)
           == multiset(free) + multiset(active) + multiset(held + [k]);
    assert multiset(free) + multiset(active + [k]) + multiset(held)
           == multiset(free) + multiset(active) + multiset(held + [k]);
    forall x ensures multiset(active)[x] <= 1 {
      if x >= 0 {
        assert (multiset(free) + multiset(active) + multiset(held + [k]))[x] <= 1;
      }
    }
  }

  lemma AllFree(n: nat)
    ensures OnePlace(n, UpFrom(0, n), [], [])
  {
    forall k: nat
      ensures (multiset(UpFrom(0, n)) + multiset([]) + multiset([]))[k] == if k < n then 1 else 0
    {
      CountUp(0, n, k);
    }
  }

  lemma TailKept(size: nat, free: seq<nat>, active: seq<nat>, held: seq<nat>)
    requires OnePlace(size, free, active, held) && active != []
    ensures active[|active| - 1] !in free && active[|active| - 1] < size && NoDuplicates(active)
  {
    var last := active[|active| - 1];
    assert last in active;
    assert (multiset(free) + multiset(active) + multiset(held))[last] <= 1;
    forall x ensures multiset(active)[x] <= 1 {
      if x >= 0 {
        assert (multiset(free) + multiset(active) + multiset(held))[x] <= 1;
      }
    }
  }

  lemma DistinctActive(size: nat, free: seq<nat>, active: seq<nat>, held: seq<nat>)
    requires OnePlace(size, free, active, held)
    ensures forall i, j :: 0 <= i < j < |active| ==> active[i] != active[j]
  {
    forall i, j | 0 <= i < j < |active| ensures active[i] != active[j] {
      assert (multiset(free) + multiset(active) + multiset(held))[active[i]] <= 1;
      assert active == active[..j] + [active[j]] + active[j + 1..];
      assert active[..j][i] == active[i];
      assert multiset(active) == multiset(active[..j]) + multiset{active[j]} + multiset(active[j + 1..]);
    }
  }

  lemma TakeActive(size: nat, free: seq<nat>, active: seq<nat>)
    requires OnePlace(size, free, active, []) && active != []
    ensures OnePlace(size, free, active[1..], [active[0]])
    ensures active[0] !in active[1..]
  {
    HeadTail(active);
    var k := active[0];
    assert (multiset(free) + multiset(active) + multiset([]))[k] == if k < size then 1 else 0;
    assert multiset(free) + multiset(active[1..]) + multiset([k]) == multiset(free) + multiset(active) + multiset([]);
  }

  lemma SecondOf(next: seq<Option<nat>>, head: Option<nat>, xs: seq<nat>)
    requires IsList(next, head, xs) && xs != []
    ensures head == Some(xs[0]) && xs[0] < |next|
    ensures next[xs[0]] == if |xs| > 1 then Some(xs[1]) else None
    ensures IsList(next, next[xs[0]], xs[1..])
  {
    if |xs| > 1 {
      assert xs[1..][0] == xs[1];
    }
  }

  /** Linking k, which is in hand, behind the active list. */
  lemma AppendInHand(next: seq<Option<nat>>, freeHead: Option<nat>, activeHead: Option<nat>, free: seq<nat>,
                     active: seq<nat>, held: seq<nat>, k: nat)
    requires IsList(next, freeHead, free) && IsList(next, activeHead, active)
    requires OnePlace(|next|, free, active, held + [k]) && k < |next| && next[k] == None && active != []
    ensures var last := active[|active| - 1];
            && last < |next|
            && IsList(next[last := Some(k)], activeHead, active + [k]) && IsList(next[last := Some(k)], freeHead, free)
            && OnePlace(|next|, free, active + [k], held)
  {
    InHand(|next|, free, active, held, k);
    TailKept(|next|, free, active, held + [k]);
    ListAppend(next, activeHead, active, k);
    ListFrame(next, freeHead, free, active[|active| - 1], Some(k));
  }

  /** Taking the head of the free list. */
  lemma PopHead(next: seq<Option<nat>>, freeHead: Option<nat>, activeHead: Option<nat>, free: seq<nat>,
                active: seq<nat>, held: seq<nat>)
    requires IsList(next, freeHead, free) && IsList(next, activeHead, active) && free != []
    requires OnePlace(|next|, free, active, held)
    ensures freeHead == Some(free[0]) && free[0] < |next|
    ensures OnePlace(|next|, free[1..], active, held + [free[0]])
    ensures IsList(next, next[free[0]], free[1..])
    ensures IsList(next[free[0] := None], next[free[0]], free[1..])
    ensures IsList(next[free[0] := None], activeHead, active)
  {
    TakeFirst(|next|, free, active, held);
    ListFrame(next, next[free[0]], free[1..], free[0], None);
    ListFrame(next, activeHead, active, free[0], None);
  }

  /** Pushing k, which is in hand, onto the free list. */
  lemma PushInHand(next: seq<Option<nat>>, freeHead: Option<nat>, activeHead: Option<nat>, free: seq<nat>,
                   active: seq<nat>, held: seq<nat>, k: nat)
    requires IsList(next, freeHead, free) && IsList(next, activeHead, active)
    requires OnePlace(|next|, free, active, held + [k])
    ensures k < |next|
    ensures IsList(next[k := freeHead], freeHead, free) && IsList(next[k := freeHead], Some(k), [k] + free)
    ensures IsList(next[k := freeHead], activeHead, active)
    ensures OnePlace(|next|, [k] + free, active, held)
  {
    InHand(|next|, free, active, held, k);
    ListFrame(next, freeHead, free, k, freeHead);
    ListFrame(next, activeHead, active, k, freeHead);
    assert ([k] + free)[1..] == free;
  }
}
