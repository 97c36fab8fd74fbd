/**
 The single-producer, single-consumer ring between the radio task and the loop task.

 `SpscRing` is the ring as one task at a time sees it. `Interleaved` is the ring with both
 tasks running: every load and store of an atomic index and every slot access is a step of
 its own, in any order. It is proved to behave as a bounded first-in first-out queue.
 */
module FrameRing {
  import opened Clock
  import Division

  /** Ring sizes: powers of two, so a wrapped index still selects the right slot. */
  predicate Capacity(n: nat) {
    2 <= n < U32 && U32 % n == 0
  }

  /** The slot of the `k`-th item ever pushed; `index & (N - 1)` with N a power of two. */
  function Slot(index: nat, n: nat): nat
    requires n > 0
  {
    index % n
  }

  lemma SlotOfWrapped(k: nat, n: nat)
    requires Capacity(n)
    ensures Slot(At(k), n) == Slot(k, n) < n
  {
    assert U32 == n * (U32 / n);
    Division.Nested(k, n, U32 / n);
  }

  lemma SlotsDiffer(j: nat, k: nat, n: nat)
    requires n > 0 && j < k < j + n
    ensures Slot(j, n) != Slot(k, n)
  {
    Division.Distinct(j, k, n);
  }

  lemma WrappedSuccessor(k: nat)
    ensures (At(k) + 1) % U32 == At(k + 1)
  {
    Division.Shift(At(k) + 1, U32, k / U32);
  }

  // ---- The object ---------------------------------------------------------------------

  class SpscRing<T(0)> {
    const items: array<T>
    var head: u32
    var tail: u32
    /** The items ever pushed and the number ever popped. */
    ghost var pushed: seq<T>
    ghost var popped: nat

    ghost predicate Valid()
      reads this, items
    {
      && Capacity(items.Length)
      && popped <= |pushed| <= popped + items.Length
      && head == At(|pushed|) && tail == At(popped)
      && forall k :: popped <= k < |pushed| ==> items[Slot(k, items.Length)] == pushed[k]
    }

    ghost function Contents(): seq<T>
      reads this, items
      requires Valid()
    {
      pushed[popped..]
    }

    constructor (n: nat)
      requires Capacity(n)
      ensures Valid() && Contents() == [] && items.Length == n && fresh(items)
    {
      items := new T[n];
      head, tail := 0, 0;
      pushed, popped := [], 0;
    }

    method Push(item: T) returns (ok: bool)
      requires Valid()
      modifies this, items
      ensures Valid()
      ensures ok == (|old(Contents())| < items.Length)
      ensures Contents() == if ok then old(Contents()) + [item] else old(Contents())
    {
      SinceIsElapsed(|pushed|, popped);
      if Since(head, tail) >= items.Length {
        return false;
      }
      SlotOfWrapped(|pushed|, items.Length);
      WrappedSuccessor(|pushed|);
      forall k | popped <= k < |pushed| ensures Slot(k, items.Length) != Slot(|pushed|, items.Length) {
        SlotsDiffer(k, |pushed|, items.Length);
      }
      hide At, Slot, Capacity;
      items[Slot(head, items.Length)] := item;
      head := (head + 1) % U32;
      pushed := pushed + [item];
      return true;
    }

    method Pop() returns (ok: bool, item: T)
      requires Valid()
      modifies this
      ensures Valid()
      ensures ok == (old(Contents()) != [])
      ensures ok ==> old(Contents()) == [item] + Contents()
      ensures !ok ==> Contents() == old(Contents())
    {
      item := items[0];
      SinceIsElapsed(|pushed|, popped);
      SlotOfWrapped(popped, items.Length);
      WrappedSuccessor(popped);
      if tail == head {
        return false, item;
      }
      hide At, Slot, Capacity, Since;
      item := items[Slot(tail, items.Length)];
      tail := (tail + 1) % U32;
      popped := popped + 1;
      return true, item;
    }
  }

  // ---- Both tasks at once -------------------------------------------------------------

  /** Where the producer stands inside `push`, with what it has loaded. */
  datatype Producer<T> =
    | Outside
    | LoadedHead(item: T, head: u32)
    | HasRoom(item: T, head: u32)
    | Stored(item: T, head: u32)

  /** Where the consumer stands inside `pop`. */
  datatype Consumer<T> =
    | Away
    | LoadedTail(tail: u32)
    | HasItem(tail: u32)
    | Copied(tail: u32, item: T)

  /** The ring and both tasks; `pushed` and `popped` are the history of completed calls. */
  datatype Interleaved<T> = Interleaved(
    items: seq<T>, head: u32, tail: u32, producer: Producer<T>, consumer: Consumer<T>,
    pushed: seq<T>, popped: seq<T>)

  datatype Step<T> =
    | BeginPush(item: T) | CheckRoom | StoreItem | StoreHead
    | BeginPop | CheckItem | CopyItem | StoreTail

  predicate Enabled<T>(r: Interleaved<T>, step: Step<T>) {
    match step
    case BeginPush(_) => r.producer.Outside?
    case CheckRoom => r.producer.LoadedHead?
    case StoreItem => r.producer.HasRoom?
    case StoreHead => r.producer.Stored?
    case BeginPop => r.consumer.Away?
    case CheckItem => r.consumer.LoadedTail?
    case CopyItem => r.consumer.HasItem?
    case StoreTail => r.consumer.Copied?
  }

  predicate FoundFull<T>(r: Interleaved<T>)
    requires r.producer.LoadedHead?
  {
    Since(r.producer.head, r.tail) >= |r.items|
  }

  predicate FoundEmpty<T>(r: Interleaved<T>)
    requires r.consumer.LoadedTail?
  {
    r.consumer.tail == r.head
  }

  function Next<T>(r: Interleaved<T>, step: Step<T>): Interleaved<T>
    requires |r.items| > 0 && Enabled(r, step)
  {
    match step
    case BeginPush(item) => r.(producer := LoadedHead(item, r.head))
    case CheckRoom => r.(producer := if FoundFull(r) then Outside else HasRoom(r.producer.item, r.producer.head))
    case StoreItem =>
      r.(items := r.items[Slot(r.producer.head, |r.items|) := r.producer.item],
         producer := Stored(r.producer.item, r.producer.head))
    case StoreHead =>
      r.(head := (r.producer.head + 1) % U32, producer := Outside, pushed := r.pushed + [r.producer.item])
    case BeginPop => r.(consumer := LoadedTail(r.tail))
    case CheckItem => r.(consumer := if FoundEmpty(r) then Away else HasItem(r.consumer.tail))
    case CopyItem => r.(consumer := Copied(r.consumer.tail, r.items[Slot(r.consumer.tail, |r.items|)]))
    case StoreTail =>
      r.(tail := (r.consumer.tail + 1) % U32, consumer := Away, popped := r.popped + [r.consumer.item])
  }

  /** What every step of either task keeps. */
  ghost predicate Inv<T>(r: Interleaved<T>) {
    var n, pushed, popped := |r.items|, |r.pushed|, |r.popped|;
    && Capacity(n)
    && popped <= pushed <= popped + n && r.popped == r.pushed[..popped]
    && r.head == At(pushed) && r.tail == At(popped)
    && (forall k :: popped <= k < pushed ==> r.items[Slot(k, n)] == r.pushed[k])
    && ProducerInv(r) && ConsumerInv(r)
  }

  ghost predicate ProducerInv<T>(r: Interleaved<T>)
    requires |r.items| > 0
  {
    match r.producer
    case Outside => true
    case LoadedHead(_, head) => head == r.head
    case HasRoom(_, head) => head == r.head && |r.pushed| < |r.popped| + |r.items|
    case Stored(item, head) =>
      && head == r.head && |r.pushed| < |r.popped| + |r.items|
      && r.items[Slot(|r.pushed|, |r.items|)] == item
  }

  ghost predicate ConsumerInv<T>(r: Interleaved<T>) {
    match r.consumer
    case Away => true
    case LoadedTail(tail) => tail == r.tail
    case HasItem(tail) => tail == r.tail && |r.popped| < |r.pushed|
    case Copied(tail, item) => tail == r.tail && |r.popped| < |r.pushed| && item == r.pushed[|r.popped|]
  }

  /** The queue the ring stands for. */
  function Queue<T>(r: Interleaved<T>): seq<T>
    requires |r.popped| <= |r.pushed|
  {
    r.pushed[|r.popped|..]
  }

  /** How the queue must change in a step: the abstract, bounded queue. */
  ghost predicate QueueStep<T>(r: Interleaved<T>, step: Step<T>)
    requires Enabled(r, step) && |r.items| > 0 && |r.popped| <= |r.pushed|
    requires |Next(r, step).popped| <= |Next(r, step).pushed|
  {
    var before, after := Queue(r), Queue(Next(r, step));
    match step
    case StoreHead => |before| < |r.items| && after == before + [r.producer.item]
    case StoreTail => before == [r.consumer.item] + after
    case CheckRoom => after == before && (Next(r, step).producer.Outside? <==> |before| == |r.items|)
    case CheckItem => after == before && (Next(r, step).consumer.Away? <==> before == [])
    case _ => after == before
  }

  lemma ProducerStep<T>(r: Interleaved<T>, step: Step<T>)
    requires Inv(r) && Enabled(r, step) && (step.BeginPush? || step.CheckRoom? || step.StoreItem? || step.StoreHead?)
    ensures Inv(Next(r, step)) && QueueStep(r, step)
  {
    var n, k := |r.items|, |r.pushed|;
    SinceIsElapsed(k, |r.popped|);
    SlotOfWrapped(k, n);
    WrappedSuccessor(k);
    hide At, Since, Slot, Capacity;
    assert n > 0;
    if step.StoreItem? {
      forall j | |r.popped| <= j < k ensures Slot(j, n) != Slot(k, n) {
        SlotsDiffer(j, k, n);
      }
    }
  }

  lemma LookStep<T>(r: Interleaved<T>, step: Step<T>)
    requires Inv(r) && Enabled(r, step) && (step.BeginPop? || step.CheckItem?)
    ensures Inv(Next(r, step)) && QueueStep(r, step)
  {
    SinceIsElapsed(|r.pushed|, |r.popped|);
    hide At, Since, Slot, Capacity;
    if step.CheckItem? && |r.popped| == |r.pushed| {
      assert FoundEmpty(r);
    }
  }

  lemma TakeStep<T>(r: Interleaved<T>, step: Step<T>)
    requires Inv(r) && Enabled(r, step) && (step.CopyItem? || step.StoreTail?)
    ensures Inv(Next(r, step)) && QueueStep(r, step)
  {
    SlotOfWrapped(|r.popped|, |r.items|);
    WrappedSuccessor(|r.popped|);
    hide At, Since, Slot, Capacity;
  }

  /**
   Refinement: a completed push appends to the queue when it has room, a push that gives up
   found the queue full, a completed pop takes the oldest item, a pop that gives up found the
   queue empty, and every other step leaves the queue alone.
   */
  lemma RefinesBoundedQueue<T>(r: Interleaved<T>, step: Step<T>)
    requires Inv(r) && Enabled(r, step)
    ensures Inv(Next(r, step)) && QueueStep(r, step)
  {
    hide Inv, Next, QueueStep, Enabled;
    if step.BeginPush? || step.CheckRoom? || step.StoreItem? || step.StoreHead? {
      ProducerStep(r, step);
    } else if step.BeginPop? || step.CheckItem? {
      LookStep(r, step);
    } else {
      TakeStep(r, step);
    }
  }

  /** A whole push, no matter what it finds the consumer doing: the item is appended unless the queue is full. */
  lemma WholePush<T>(r: Interleaved<T>, item: T)
    requires Inv(r) && r.producer.Outside?
    ensures Enabled(r, BeginPush(item)) && Enabled(Next(r, BeginPush(item)), CheckRoom)
    ensures var looked := Next(Next(r, BeginPush(item)), CheckRoom);
            if |Queue(r)| == |r.items| then looked == r
            else
              && Enabled(looked, StoreItem) && Enabled(Next(looked, StoreItem), StoreHead)
              && var pushed := Next(Next(looked, StoreItem), StoreHead);
                 Inv(pushed) && pushed.producer.Outside? && Queue(pushed) == Queue(r) + [item]
                 && pushed.consumer == r.consumer
  {
    var begun := Next(r, BeginPush(item));
    RefinesBoundedQueue(r, BeginPush(item));
    RefinesBoundedQueue(begun, CheckRoom);
    var looked := Next(begun, CheckRoom);
    if |Queue(r)| < |r.items| {
      RefinesBoundedQueue(looked, StoreItem);
      RefinesBoundedQueue(Next(looked, StoreItem), StoreHead);
    }
    hide Inv, FoundFull, Slot, At;
  }

  /** A whole pop, no matter what it finds the producer doing: the oldest item is taken unless there is none. */
  lemma WholePop<T>(r: Interleaved<T>)
    requires Inv(r) && r.consumer.Away?
    ensures Enabled(r, BeginPop) && Enabled(Next(r, BeginPop), CheckItem)
    ensures var looked := Next(Next(r, BeginPop), CheckItem);
            if Queue(r) == [] then looked == r
            else
              && Enabled(looked, CopyItem) && Enabled(Next(looked, CopyItem), StoreTail)
              && var popped := Next(Next(looked, CopyItem), StoreTail);
                 Inv(popped) && popped.consumer.Away? && Queue(r) == [popped.popped[|r.popped|]] + Queue(popped)
                 && popped.popped[..|r.popped|] == r.popped && popped.producer == r.producer
  {
    var begun := Next(r, BeginPop);
    RefinesBoundedQueue(r, BeginPop);
    RefinesBoundedQueue(begun, CheckItem);
    var looked := Next(begun, CheckItem);
    if Queue(r) != [] {
      RefinesBoundedQueue(looked, CopyItem);
      RefinesBoundedQueue(Next(looked, CopyItem), StoreTail);
    }
    hide Inv, FoundEmpty, Slot, At;
  }

  /** No slot that still holds an unread item is overwritten. */
  lemma UnreadSlotsAreKept<T>(r: Interleaved<T>, step: Step<T>, k: nat)
    requires Inv(r) && Enabled(r, step) && |r.popped| <= k < |r.pushed|
    ensures Next(r, step).items[Slot(k, |r.items|)] == r.items[Slot(k, |r.items|)] == r.pushed[k]
  {
    RefinesBoundedQueue(r, step);
    if step.StoreItem? {
      SlotOfWrapped(|r.pushed|, |r.items|);
      SlotsDiffer(k, |r.pushed|, |r.items|);
    }
    hide At, Slot, Capacity;
  }

  // ---- Runs ---------------------------------------------------------------------------

  function Empty<T>(items: seq<T>): Interleaved<T> {
    Interleaved(items, 0, 0, Outside, Away, [], [])
  }

  ghost predicate Run<T>(states: seq<Interleaved<T>>, steps: seq<Step<T>>) {
    && |states| == |steps| + 1
    && forall i :: 0 <= i < |steps| ==>
         |states[i].items| > 0 && Enabled(states[i], steps[i]) && states[i + 1] == Next(states[i], steps[i])
  }

  /** In every interleaving, what was popped is what was pushed, in order, from the front. */
  lemma {:induction false} PoppedIsPrefixOfPushed<T>(states: seq<Interleaved<T>>, steps: seq<Step<T>>, i: nat)
    requires Run(states, steps) && i < |states|
    requires Capacity(|states[0].items|) && states[0] == Empty(states[0].items)
    ensures Inv(states[i]) && states[i].popped <= states[i].pushed
  {
    hide Inv, Capacity, Next, Enabled;
    if i == 0 {
      EmptyInv(states[0].items);
    } else {
      PoppedIsPrefixOfPushed(states, steps, i - 1);
      RefinesBoundedQueue(states[i - 1], steps[i - 1]);
    }
    InvGivesPrefix(states[i]);
  }

  lemma EmptyInv<T>(items: seq<T>)
    requires Capacity(|items|)
    ensures Inv(Empty(items))
  {
  }

  lemma InvGivesPrefix<T>(r: Interleaved<T>)
    requires Inv(r)
    ensures r.popped <= r.pushed
  {
    hide At, Slot, Capacity;
  }
}
