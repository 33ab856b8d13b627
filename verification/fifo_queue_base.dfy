/**
 * The type-erased core of the kernel's fixed-capacity FIFO queue (class FifoQueueBase).
 *
 * The queue is a ring of `maxElements` element-sized slots between `storageBegin` and
 * `storageEnd`, walked by a read cursor and a write cursor. Two counting semaphores do the
 * bookkeeping: `popSemaphore` counts the elements available for reading and `pushSemaphore`
 * counts the free slots. Every operation waits on one of them, runs a type-erased functor on
 * the slot under its cursor, advances that cursor by one element (wrapping at `storageEnd`)
 * and posts the other semaphore.
 *
 * Positions are addresses counted in whole elements, so `p + 1` is the next element and
 * `storage[p - storageBegin]` is the slot at position `p`. A slot is `None` while its storage
 * is uninitialised and `Some(v)` while it holds a live element.
 */
module FifoQueueBase {
  import opened Wrappers
  import opened Semaphores

  /** The fields of FifoQueueBase, plus the contents of the storage array it points into. */
  datatype Queue<T> = Queue(
    popSemaphore: Semaphore,    // value == number of available elements
    pushSemaphore: Semaphore,   // value == number of free slots
    storageBegin: nat,
    storageEnd: nat,            // past-the-last element of the storage array
    readPosition: nat,          // first element available for reading
    writePosition: nat,         // first free slot available for writing
    storage: seq<Option<T>>)

  /** Which half of the queue an operation works on: it picks the semaphores and the cursor. */
  datatype Side = PopSide | PushSide

  /**
   * The per-type actions the typed entry points bind into a functor: copy- or move-construct
   * the caller's value into the slot (push), or swap the stored element into the caller's
   * object and destroy what is left in the slot (pop).
   */
  datatype Functor<T> = CopyConstruct(value: T) | MoveConstruct(value: T) | SwapDestroy(value: T)

  /**
   * The result of running a functor: the storage after its action, the cursor advanced by one
   * element, and the caller's object afterwards (None when it was moved from, a state the
   * model does not track).
   */
  datatype Invoked<T> = Invoked(storage: seq<Option<T>>, position: nat, caller: Option<T>)

  /** What push and pop give back: the new queue state, the return code and the caller's object. */
  datatype Outcome<T> = Outcome(queue: Queue<T>, code: int, caller: Option<T>)

  /** Number of slots in the ring (`maxElements`). */
  function Capacity<T>(q: Queue<T>): nat
  {
    |q.storage|
  }

  /** Ring index `i` places after index `first`, in a ring of `cap` slots. */
  function Offset(first: nat, i: nat, cap: nat): (k: nat)
    requires first < cap && i <= cap
    ensures k < cap
    ensures k == (first + i) % cap
  {
    if first + i < cap then first + i else first + i - cap
  }

  /** True iff ring index `k` is one of the `n` consecutive indices starting at `first`. */
  predicate InWindow(k: nat, first: nat, n: nat, cap: nat)
  {
    if first + n <= cap then first <= k < first + n
    else first <= k || k < first + n - cap
  }

  /** Number of slots of `slots` that are occupied (`occupied`) or empty (`!occupied`). */
  function CountSlots<T>(slots: seq<Option<T>>, occupied: bool): (n: nat)
    ensures n <= |slots|
  {
    if |slots| == 0 then 0
    else (if slots[0].Some? == occupied then 1 else 0) + CountSlots(slots[1..], occupied)
  }

  /** Bounds and cursors lie within a storage array of at least one slot. */
  predicate WellFormed<T>(q: Queue<T>)
  {
    && |q.storage| >= 1
    && q.storageEnd == q.storageBegin + |q.storage|
    && q.storageBegin <= q.readPosition < q.storageEnd
    && q.storageBegin <= q.writePosition < q.storageEnd
  }

  /** The semaphore an operation waits on and the one it posts: pop waits for an available element. */
  function SemaphorePair<T>(q: Queue<T>, side: Side): (Semaphore, Semaphore)
  {
    if side.PopSide? then (q.popSemaphore, q.pushSemaphore) else (q.pushSemaphore, q.popSemaphore)
  }

  /**
   * The invariant of FifoQueueBase between operations: bounds and cursors lie within the
   * storage array, both semaphores have `maxElements` as their maximum and their values add up
   * to it, the write cursor sits `available` slots after the read cursor, exactly the slots in
   * that window hold live elements, and `available` is the number of live elements.
   */
  ghost predicate Valid<T>(q: Queue<T>)
  {
    var cap := |q.storage|;
    var first := q.readPosition - q.storageBegin;
    && WellFormed(q)
    && q.popSemaphore.maxValue == cap
    && q.pushSemaphore.maxValue == cap
    && q.popSemaphore.value + q.pushSemaphore.value == cap
    && q.writePosition - q.storageBegin == Offset(first, q.popSemaphore.value, cap)
    && (forall k :: 0 <= k < cap ==> (q.storage[k].Some? <==> InWindow(k, first, q.popSemaphore.value, cap)))
    && CountSlots(q.storage, true) == q.popSemaphore.value
  }

  /** The elements in the queue, oldest first: the live slots from the read cursor onwards. */
  function Contents<T>(q: Queue<T>): (c: seq<T>)
    requires Valid(q)
    ensures |c| == q.popSemaphore.value
    ensures forall i :: 0 <= i < |c| ==>
      Some(c[i]) == q.storage[Offset(q.readPosition - q.storageBegin, i, Capacity(q))]
  {
    var first := q.readPosition - q.storageBegin;
    seq(q.popSemaphore.value, i requires 0 <= i < q.popSemaphore.value =>
      q.storage[Offset(first, i, |q.storage|)].value)
  }

  /**
   * The FifoQueueBase constructor: no element available, `maxElements` free slots, both
   * cursors at the start of the storage array, the end bound `maxElements` elements further.
   * The storage array starts uninitialised.
   */
  function Construct<T>(storageBegin: nat, maxElements: nat): (q: Queue<T>)
    requires maxElements >= 1
    ensures Valid(q)
    ensures Contents(q) == []
    ensures q.popSemaphore == Semaphore(0, maxElements)
    ensures q.pushSemaphore == Semaphore(maxElements, maxElements)
    ensures q.readPosition == q.writePosition == q.storageBegin == storageBegin
    ensures q.storageEnd == storageBegin + maxElements
    ensures CountSlots(q.storage, false) == maxElements
  {
    var storage: seq<Option<T>> := seq(maxElements, _ => None);
    AllEmpty(storage);
    Queue(Semaphore(0, maxElements), Semaphore(maxElements, maxElements),
          storageBegin, storageBegin + maxElements, storageBegin, storageBegin, storage)
  }

  /**
   * BoundedFunctor::operator(): runs the functor's action on the slot at `position`, then
   * advances the position by exactly one element. Only that slot changes.
   */
  function Invoke<T>(f: Functor<T>, storage: seq<Option<T>>, storageBegin: nat, position: nat): (v: Invoked<T>)
    requires storageBegin <= position < storageBegin + |storage|
    requires f.SwapDestroy? ==> storage[position - storageBegin].Some?
    ensures v.position == position + 1
    ensures |v.storage| == |storage|
    ensures forall k :: 0 <= k < |storage| && k != position - storageBegin ==> v.storage[k] == storage[k]
    ensures !f.SwapDestroy? ==> v.storage[position - storageBegin] == Some(f.value)
    ensures f.SwapDestroy? ==> v.storage[position - storageBegin].None? && v.caller == storage[position - storageBegin]
    ensures f.CopyConstruct? ==> v.caller == Some(f.value)
  {
    var slot := position - storageBegin;
    match f
    case CopyConstruct(value) => Invoked(storage[slot := Some(value)], position + 1, Some(value))
    case MoveConstruct(value) => Invoked(storage[slot := Some(value)], position + 1, None)
    case SwapDestroy(value) =>
      // the caller's object and the stored element trade places; the element now in the
      // slot (the caller's old value) is destroyed, leaving the slot uninitialised
      Invoked(storage[slot := None], position + 1, storage[slot])
  }

  /**
   * popPushImplementation(): wait on `waitSemaphore`; on failure return its code and touch
   * nothing else. Otherwise run the functor on the cursor, wrap the cursor to `storageBegin`
   * when it reaches `storageEnd`, post `postSemaphore` and return its code (0 on success).
   * Pop waits on popSemaphore, posts pushSemaphore and uses readPosition; push the reverse
   * with writePosition.
   */
  function PopPush<T>(q: Queue<T>, f: Functor<T>, side: Side, interrupted: bool): (r: Outcome<T>)
    requires WellFormed(q)
    requires f.SwapDestroy? <==> side.PopSide?
    requires side.PopSide? && q.popSemaphore.value > 0 ==> q.storage[q.readPosition - q.storageBegin].Some?
    ensures var (waitSemaphore, postSemaphore) := SemaphorePair(q, side);
      r.code == 0 <==> !interrupted && waitSemaphore.value > 0 && postSemaphore.value < postSemaphore.maxValue
    ensures var (waitSemaphore, _) := SemaphorePair(q, side);
      interrupted || waitSemaphore.value == 0 ==>
        && r.queue == q && r.caller == Some(f.value)
        && r.code == Code(if interrupted then Interrupted else WouldBlock)
    ensures r.queue.storageBegin == q.storageBegin && r.queue.storageEnd == q.storageEnd
    ensures |r.queue.storage| == |q.storage|
  {
    var (waitSemaphore, postSemaphore) := SemaphorePair(q, side);
    var position := if side.PopSide? then q.readPosition else q.writePosition;
    match Wait(waitSemaphore, interrupted)
    case Failure(e) => Outcome(q, Code(e), Some(f.value))
    case Success(waited) =>
      var invoked := Invoke(f, q.storage, q.storageBegin, position);
      var next := if invoked.position == q.storageEnd then q.storageBegin else invoked.position;
      var posted := Post(postSemaphore);
      var postedSemaphore := if posted.Success? then posted.value else postSemaphore;
      var code := if posted.Success? then 0 else Code(posted.error);
      var q' :=
        if side.PopSide? then
          q.(popSemaphore := waited, pushSemaphore := postedSemaphore, readPosition := next, storage := invoked.storage)
        else
          q.(pushSemaphore := waited, popSemaphore := postedSemaphore, writePosition := next, storage := invoked.storage);
      Outcome(q', code, invoked.caller)
  }

  /**
   * push(const T&): copy-constructs `value` at the write cursor. Succeeds (code 0) exactly when
   * a free slot exists and the wait is not interrupted; the value is then appended after the
   * existing elements and stored in the slot that was under the write cursor. On failure the
   * queue is unchanged. The caller's value is never altered.
   */
  function Push<T>(q: Queue<T>, value: T, interrupted: bool): (r: Outcome<T>)
    requires Valid(q)
    ensures Valid(r.queue)
    ensures r.queue.storageBegin == q.storageBegin && r.queue.storageEnd == q.storageEnd
    ensures Capacity(r.queue) == Capacity(q)
    ensures r.code == 0 <==> !interrupted && |Contents(q)| < Capacity(q)
    ensures r.code == 0 ==> Contents(r.queue) == Contents(q) + [value]
    ensures r.code == 0 ==> r.queue.storage[q.writePosition - q.storageBegin] == Some(value)
    ensures r.code == 0 ==>
      && r.queue.writePosition - q.storageBegin == (q.writePosition - q.storageBegin + 1) % Capacity(q)
      && r.queue.readPosition == q.readPosition
      && r.queue.pushSemaphore.value + 1 == q.pushSemaphore.value
      && r.queue.popSemaphore.value == q.popSemaphore.value + 1
      && (forall k :: 0 <= k < Capacity(q) && k != q.writePosition - q.storageBegin ==> r.queue.storage[k] == q.storage[k])
    ensures r.code != 0 ==> r.queue == q
    ensures r.code != 0 ==> r.code == Code(if interrupted then Interrupted else WouldBlock)
    ensures r.caller == Some(value)
  {
    if !interrupted && q.pushSemaphore.value > 0 then
      PushEffect(q, CopyConstruct(value));
      PushedContents(q, value);
      PopPush(q, CopyConstruct(value), PushSide, interrupted)
    else
      PopPush(q, CopyConstruct(value), PushSide, interrupted)
  }

  /**
   * push(T&&): move-constructs `value` at the write cursor; the same as the copy variant except
   * that after a successful push the caller's object is in a moved-from state.
   */
  function PushMove<T>(q: Queue<T>, value: T, interrupted: bool): (r: Outcome<T>)
    requires Valid(q)
    ensures Valid(r.queue)
    ensures r.queue.storageBegin == q.storageBegin && r.queue.storageEnd == q.storageEnd
    ensures Capacity(r.queue) == Capacity(q)
    ensures r.code == 0 <==> !interrupted && |Contents(q)| < Capacity(q)
    ensures r.code == 0 ==> Contents(r.queue) == Contents(q) + [value]
    ensures r.code == 0 ==> r.queue.storage[q.writePosition - q.storageBegin] == Some(value)
    ensures r.code == 0 ==>
      && r.queue.writePosition - q.storageBegin == (q.writePosition - q.storageBegin + 1) % Capacity(q)
      && r.queue.readPosition == q.readPosition
      && r.queue.pushSemaphore.value + 1 == q.pushSemaphore.value
      && r.queue.popSemaphore.value == q.popSemaphore.value + 1
      && (forall k :: 0 <= k < Capacity(q) && k != q.writePosition - q.storageBegin ==> r.queue.storage[k] == q.storage[k])
    ensures r.code == 0 ==> r.caller.None?
    ensures r.code != 0 ==> r.queue == q && r.caller == Some(value)
    ensures r.code != 0 ==> r.code == Code(if interrupted then Interrupted else WouldBlock)
  {
    if !interrupted && q.pushSemaphore.value > 0 then
      PushEffect(q, MoveConstruct(value));
      PushedContents(q, value);
      PopPush(q, MoveConstruct(value), PushSide, interrupted)
    else
      PopPush(q, MoveConstruct(value), PushSide, interrupted)
  }

  /**
   * pop(T&): takes the oldest element. Succeeds (code 0) exactly when an element is available
   * and the wait is not interrupted; the caller's object then holds the element that was first
   * in the queue, the rest stay in order, and the slot it came from is uninitialised again. On
   * failure neither the queue nor the caller's object changes.
   */
  function Pop<T>(q: Queue<T>, value: T, interrupted: bool): (r: Outcome<T>)
    requires Valid(q)
    ensures Valid(r.queue)
    ensures r.queue.storageBegin == q.storageBegin && r.queue.storageEnd == q.storageEnd
    ensures Capacity(r.queue) == Capacity(q)
    ensures r.code == 0 <==> !interrupted && |Contents(q)| > 0
    ensures r.code == 0 ==> r.caller == Some(Contents(q)[0]) && Contents(r.queue) == Contents(q)[1..]
    ensures r.code == 0 ==> r.queue.storage[q.readPosition - q.storageBegin].None?
    ensures r.code == 0 ==>
      && r.queue.readPosition - q.storageBegin == (q.readPosition - q.storageBegin + 1) % Capacity(q)
      && r.queue.writePosition == q.writePosition
      && r.queue.popSemaphore.value + 1 == q.popSemaphore.value
      && r.queue.pushSemaphore.value == q.pushSemaphore.value + 1
      && (forall k :: 0 <= k < Capacity(q) && k != q.readPosition - q.storageBegin ==> r.queue.storage[k] == q.storage[k])
    ensures r.code != 0 ==> r.queue == q && r.caller == Some(value)
    ensures r.code != 0 ==> r.code == Code(if interrupted then Interrupted else WouldBlock)
  {
    if !interrupted && q.popSemaphore.value > 0 then
      PopEffect(q, value);
      PoppedContents(q);
      PopPush(q, SwapDestroy(value), PopSide, interrupted)
    else
      PopPush(q, SwapDestroy(value), PopSide, interrupted)
  }

  // ----- proofs -----

  /** Every slot of an all-uninitialised array is empty. */
  lemma {:induction false} AllEmpty<T>(slots: seq<Option<T>>)
    requires forall k :: 0 <= k < |slots| ==> slots[k].None?
    ensures CountSlots(slots, true) == 0
    ensures CountSlots(slots, false) == |slots|
  {
    if |slots| > 0 {
      AllEmpty(slots[1..]);
    }
  }

  /** Each slot is either occupied or empty. */
  lemma {:induction false} CountSlotsSplit<T>(slots: seq<Option<T>>)
    ensures CountSlots(slots, true) + CountSlots(slots, false) == |slots|
  {
    if |slots| > 0 {
      CountSlotsSplit(slots[1..]);
    }
  }

  /** Overwriting one slot changes each count only by what that slot was and becomes. */
  lemma {:induction false} CountSlotsUpdate<T>(slots: seq<Option<T>>, k: nat, x: Option<T>, occupied: bool)
    requires k < |slots|
    ensures CountSlots(slots[k := x], occupied) + (if slots[k].Some? == occupied then 1 else 0)
         == CountSlots(slots, occupied) + (if x.Some? == occupied then 1 else 0)
  {
    if k == 0 {
      assert slots[k := x][1..] == slots[1..];
    } else {
      assert slots[k := x][1..] == slots[1..][k - 1 := x];
      CountSlotsUpdate(slots[1..], k - 1, x, occupied);
    }
  }

  /**
   * The counting part of the invariant: both semaphores have `maxElements` as their maximum,
   * the available count is the number of live elements, the free count is the number of empty
   * slots, and the two counts add up to `maxElements`.
   */
  lemma InvariantCounts<T>(q: Queue<T>)
    requires Valid(q)
    ensures q.popSemaphore.maxValue == q.pushSemaphore.maxValue == Capacity(q)
    ensures q.popSemaphore.value == CountSlots(q.storage, true) == |Contents(q)|
    ensures q.pushSemaphore.value == CountSlots(q.storage, false)
    ensures q.popSemaphore.value + q.pushSemaphore.value == Capacity(q)
  {
    CountSlotsSplit(q.storage);
  }

  /** Extending a window by one adds exactly the index just past it. */
  lemma WindowGrow(k: nat, first: nat, n: nat, cap: nat)
    requires first < cap && n < cap && k < cap
    ensures InWindow(k, first, n + 1, cap) <==> InWindow(k, first, n, cap) || k == Offset(first, n, cap)
  {
  }

  /** Dropping the first index of a window leaves the window starting one index later. */
  lemma WindowShrink(k: nat, first: nat, n: nat, cap: nat)
    requires first < cap && 0 < n <= cap && k < cap
    ensures InWindow(k, Offset(first, 1, cap), n - 1, cap) <==> InWindow(k, first, n, cap) && k != first
  {
  }

  /** The queue after a successful push of `value`: only the write side has changed. */
  function Pushed<T>(q: Queue<T>, value: T): Queue<T>
    requires WellFormed(q)
    requires q.pushSemaphore.value > 0
  {
    var cap := |q.storage|;
    var w := q.writePosition - q.storageBegin;
    q.(pushSemaphore := Semaphore(q.pushSemaphore.value - 1, cap),
       popSemaphore := Semaphore(q.popSemaphore.value + 1, cap),
       writePosition := q.storageBegin + Offset(w, 1, cap),
       storage := q.storage[w := Some(value)])
  }

  /** The queue after a successful pop: only the read side has changed. */
  function Popped<T>(q: Queue<T>): Queue<T>
    requires WellFormed(q)
    requires q.popSemaphore.value > 0
  {
    var cap := |q.storage|;
    var first := q.readPosition - q.storageBegin;
    q.(popSemaphore := Semaphore(q.popSemaphore.value - 1, cap),
       pushSemaphore := Semaphore(q.pushSemaphore.value + 1, cap),
       readPosition := q.storageBegin + Offset(first, 1, cap),
       storage := q.storage[first := None])
  }

  /** A push that gets past its wait returns 0 and leaves the queue as Pushed describes. */
  lemma PushEffect<T>(q: Queue<T>, f: Functor<T>)
    requires Valid(q)
    requires !f.SwapDestroy?
    requires q.pushSemaphore.value > 0
    ensures PopPush(q, f, PushSide, false).code == 0
    ensures PopPush(q, f, PushSide, false).queue == Pushed(q, f.value)
  {
  }

  /** A pop that gets past its wait returns 0, hands out the slot under the read cursor and leaves the queue as Popped describes. */
  lemma PopEffect<T>(q: Queue<T>, value: T)
    requires Valid(q)
    requires q.popSemaphore.value > 0
    ensures PopPush(q, SwapDestroy(value), PopSide, false).code == 0
    ensures PopPush(q, SwapDestroy(value), PopSide, false).caller == q.storage[q.readPosition - q.storageBegin]
    ensures PopPush(q, SwapDestroy(value), PopSide, false).queue == Popped(q)
  {
  }

  /** Filling the slot under the write cursor keeps the invariant. */
  lemma PushedValid<T>(q: Queue<T>, value: T)
    requires Valid(q)
    requires q.pushSemaphore.value > 0
    ensures Valid(Pushed(q, value))
  {
    var q' := Pushed(q, value);
    var cap := |q.storage|;
    var first := q.readPosition - q.storageBegin;
    var n := q.popSemaphore.value;
    var w := q.writePosition - q.storageBegin;
    forall k | 0 <= k < cap
      ensures q'.storage[k].Some? <==> InWindow(k, first, n + 1, cap)
    {
      WindowGrow(k, first, n, cap);
    }
    assert q.storage[w].None? by {
      assert !InWindow(w, first, n, cap);
    }
    CountSlotsUpdate(q.storage, w, Some(value), true);
  }

  /** Filling the slot under the write cursor appends `value` after the existing elements. */
  lemma PushedContents<T>(q: Queue<T>, value: T)
    requires Valid(q)
    requires q.pushSemaphore.value > 0
    ensures Valid(Pushed(q, value))
    ensures Contents(Pushed(q, value)) == Contents(q) + [value]
  {
    PushedValid(q, value);
    var cap := |q.storage|;
    var first := q.readPosition - q.storageBegin;
    var w := q.writePosition - q.storageBegin;
    var c := Contents(Pushed(q, value));
    var c0 := Contents(q);
    assert |c| == |c0| + 1;
    forall i | 0 <= i < |c|
      ensures c[i] == (c0 + [value])[i]
    {
      if i < |c0| {
        assert Offset(first, i, cap) != w;
      }
    }
  }

  /** Emptying the slot under the read cursor keeps the invariant. */
  lemma PoppedValid<T>(q: Queue<T>)
    requires Valid(q)
    requires q.popSemaphore.value > 0
    ensures Valid(Popped(q))
  {
    var q' := Popped(q);
    var cap := |q.storage|;
    var first := q.readPosition - q.storageBegin;
    var first' := Offset(first, 1, cap);
    var n := q.popSemaphore.value;
    forall k | 0 <= k < cap
      ensures q'.storage[k].Some? <==> InWindow(k, first', n - 1, cap)
    {
      WindowShrink(k, first, n, cap);
    }
    assert q.storage[first].Some? by {
      assert InWindow(first, first, n, cap);
    }
    CountSlotsUpdate(q.storage, first, None, true);
  }

  /** Emptying the slot under the read cursor removes the oldest element and keeps the rest in order. */
  lemma PoppedContents<T>(q: Queue<T>)
    requires Valid(q)
    requires q.popSemaphore.value > 0
    ensures Valid(Popped(q))
    ensures Some(Contents(q)[0]) == q.storage[q.readPosition - q.storageBegin]
    ensures Contents(Popped(q)) == Contents(q)[1..]
  {
    PoppedValid(q);
    var cap := |q.storage|;
    var first := q.readPosition - q.storageBegin;
    var first' := Offset(first, 1, cap);
    var c := Contents(Popped(q));
    var c0 := Contents(q);
    assert |c| == |c0| - 1;
    forall i | 0 <= i < |c|
      ensures c[i] == c0[i + 1]
    {
      assert Offset(first', i, cap) == Offset(first, i + 1, cap);
    }
  }
}
