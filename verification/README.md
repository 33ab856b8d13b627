# distortos FIFO queue core and SysTick start-up, in Dafny

This project models two pieces of the distortos real-time kernel.

1. **`FifoQueueBase`** is the type-erased core behind the kernel's fixed-capacity FIFO queue.
   It is a ring of `maxElements` slots between `storageBegin_` and `storageEnd_`. A read cursor
   and a write cursor walk the ring. Two counting semaphores keep the books: `popSemaphore_`
   counts the elements available and `pushSemaphore_` counts the free slots.
   - `push` waits on the free count, copy- or move-constructs the value at the write cursor,
     advances the cursor one element (wrapping at `storageEnd_`) and posts the available count.
   - `pop` does the reverse. It swaps the oldest element into the caller's object, destroys
     what is left in the slot, advances the read cursor and posts the free count.
2. **`startScheduling()`** for ARMv6-M/ARMv7-M sets the SysTick, PendSV and SVCall priorities.
   It also picks the SysTick reload value and control word for the configured tick frequency.

The queue is modelled as an immutable state (`FifoQueueBase.Queue`) plus pure functions for the
operations:
- Each semaphore is a `(value, maxValue)` pair.
- Each slot is `Option<T>`: `None` means uninitialised storage.
- Cursors are positions counted in whole elements.
- The type-erased functor is `FifoQueueBase.Invoke`: act on the slot under the cursor, then
  advance by one.
- `FifoQueueBase.PopPush` is the shared wait / act / wrap / post routine. It is modelled from its
  documented contract, because its body is not part of this model.

`FifoQueueBase.Valid` is the invariant between operations:
- the two counts add up to the capacity;
- the write cursor is `available` slots after the read cursor;
- exactly the slots in that window hold live elements;
- the number of live elements equals the available count.

`FifoOrder` compares the ring with a plain bounded FIFO of values (`FifoOrder.ReferenceRun`).
It proves that every run of calls behaves like the reference, and derives FIFO order from that,
across any number of wrap-arounds. A run may mix copy pushes, move pushes and pops, and any call
in it may be interrupted; an interrupted call is refused and changes nothing.

`SysTick.StartSchedulingAsWritten` is `startScheduling()` as written. It takes the AHB
frequency, the tick frequency and the optional kernel BASEPRI level, and returns the values it
would write, or the configuration error for which the build is rejected.
`SysTick.StartScheduling` is the corrected version: it also rejects a period of 0 or 1 cycles
(see "## Findings"), and otherwise returns exactly what the code as written returns.

The doc comment of `popPushImplementation` (FifoQueueBase.hpp:255-256 and 260-263) says that the
second semaphore "will be posted after the operation" and that the result is the error code of
the wait or of the post. So a post failure would be reported after the element had already been
transferred and the cursor advanced. `PopPush` models exactly that. The model then proves that on
a valid queue a post never fails.

## Model

| member | source | states |
|---|---|---|
| `FifoQueueBase.Construct` | include/distortos/scheduler/FifoQueueBase.hpp:134-144 | a new queue is valid and empty: available count 0 of max `maxElements`, free count `maxElements` of max `maxElements`, both cursors at the storage start, end bound `maxElements` elements later, every slot empty |
| `FifoQueueBase.Contents` | include/distortos/scheduler/FifoQueueBase.hpp:296-300 | the queued elements are the live slots read from the read cursor onwards; their number is the available count |
| `FifoQueueBase.InvariantCounts` | include/distortos/scheduler/FifoQueueBase.hpp:284-288 | the invariant `Valid` keeps the two semaphores' documented meaning: both have maximum `maxElements`, the available count is the number of live slots and of queued elements, the free count is the number of empty slots, and the two add up to `maxElements` |
| `FifoQueueBase.Invoke` | include/distortos/scheduler/FifoQueueBase.hpp:90-95 | the functor acts on the slot under the cursor only and then advances the cursor by exactly one element; construct stores the caller's value there, swap-and-destroy hands the stored element to the caller and leaves the slot uninitialised, copy leaves the caller's value as it was |
| `FifoQueueBase.PopPush` | include/distortos/scheduler/FifoQueueBase.hpp:248-266 | returns 0 exactly when the wait succeeds and the post does not overflow; an interrupted wait or a wait on a zero count returns that error and changes neither the queue nor the caller's object; storage bounds never change |
| `FifoQueueBase.Push` | include/distortos/scheduler/FifoQueueBase.hpp:183-204 | copy push keeps the invariant; it succeeds (0) iff not interrupted and a slot is free; on success the value is appended after the existing elements, the slot under the old write cursor holds it, only the write cursor moves (one element, wrapping), the free count drops by one and the available count rises by one, no other slot changes; on failure the queue is unchanged; the caller's value is never changed |
| `FifoQueueBase.PushMove` | include/distortos/scheduler/FifoQueueBase.hpp:206-228 | move push: the same as the copy variant, except that after a successful push the caller's object is moved-from; after a failed push it is unchanged |
| `FifoQueueBase.Pop` | include/distortos/scheduler/FifoQueueBase.hpp:157-181 | pop keeps the invariant; it succeeds (0) iff not interrupted and an element is available; on success the caller's object holds the oldest element, the rest stay in order, its slot is uninitialised again, only the read cursor moves (one element, wrapping), the available count drops by one and the free count rises by one; on failure neither the queue nor the caller's object changes |
| `FifoQueueBase.PushEffect` | include/distortos/scheduler/FifoQueueBase.hpp:279-282 | a push past its wait returns 0 and changes only the write side: free count, available count, write cursor and the slot under it |
| `FifoQueueBase.PopEffect` | include/distortos/scheduler/FifoQueueBase.hpp:243-246 | a pop past its wait returns 0, hands out the slot under the read cursor and changes only the read side |
| `FifoQueueBase.PushedValid` | include/distortos/scheduler/FifoQueueBase.hpp:284-300 | filling the slot under the write cursor and moving the counts keeps every part of the invariant |
| `FifoQueueBase.PushedContents` | include/distortos/scheduler/FifoQueueBase.hpp:188-203 | filling the slot under the write cursor appends exactly the pushed value to the contents |
| `FifoQueueBase.PoppedValid` | include/distortos/scheduler/FifoQueueBase.hpp:284-300 | emptying the slot under the read cursor and moving the counts keeps every part of the invariant |
| `FifoQueueBase.PoppedContents` | include/distortos/scheduler/FifoQueueBase.hpp:157-181 | the slot under the read cursor holds the oldest element; emptying it leaves the remaining elements in order |
| `FifoQueueBase.CountSlotsUpdate` | include/distortos/scheduler/FifoQueueBase.hpp:284-288 | overwriting one slot changes the live/empty counts only by what that slot was and becomes |
| `Semaphores.Wait` | include/distortos/scheduler/FifoQueueBase.hpp:260-263 | wait succeeds iff not interrupted and the count is positive, taking one unit; otherwise it reports Interrupted when interrupted and WouldBlock when the count is zero |
| `Semaphores.Post` | include/distortos/scheduler/FifoQueueBase.hpp:260-263 | post adds one unit unless the count is already at its maximum, which it reports as Overflow |
| `Semaphores.Code` | include/distortos/scheduler/FifoQueueBase.hpp:165-167 | every error is reported with a nonzero code, so 0 means success |
| `Semaphores.WaitThenPost` | include/distortos/scheduler/FifoQueueBase.hpp:284-288 | a successful wait followed by a post restores the semaphore |
| `Semaphores.PostThenWait` | include/distortos/scheduler/FifoQueueBase.hpp:284-288 | a successful post followed by a wait restores the semaphore |
| `FifoOrder.StepMatchesReference` | include/distortos/scheduler/FifoQueueBase.hpp:157-158 | one call on the ring (copy push, move push or pop, interrupted or not) does what it does on a plain bounded FIFO of the ring's contents: same contents afterwards, same reply; an interrupted call is refused with Interrupted and changes nothing |
| `FifoOrder.RunMatchesReference` | include/distortos/scheduler/FifoQueueBase.hpp:157-158 | any sequence of copy pushes, move pushes and pops, each interrupted or not, on the ring yields the replies and final contents of the same sequence on the bounded FIFO |
| `FifoOrder.PushAllThenPopAll` | include/distortos/scheduler/FifoQueueBase.hpp:157-158 | from any valid queue, pushing v1..vn that fit and then popping everything delivers the old contents followed by v1..vn in order, wherever the cursors start |
| `FifoOrder.WrapAround` | include/distortos/scheduler/FifoQueueBase.hpp:90-95 | any number of push-then-pop rounds on an empty queue, more than its capacity included, delivers each pushed value exactly once and in order |
| `FifoOrder.CapacityThreeScenario` | include/distortos/scheduler/FifoQueueBase.hpp:157-158 | on a new queue of capacity 3: pushes of 1, 2, 3 succeed, a push of 4 would block, a pop yields 1, the push of 4 then succeeds, and three pops yield 2, 3, 4 |
| `SysTick.StartScheduling` | source/architecture/ARM/ARMv6-M-ARMv7-M/ARMv6-M-ARMv7-M-startScheduling.cpp:27-52 | the corrected version: accepted exactly when the tick frequency is nonzero, the period `ahb / tick` is at least 2 and `period` or `period / 8` is at most 2^24; then SysTick and PendSV get 0xff, SVCall gets the BASEPRI level or 0, VAL is 0, ENABLE and TICKINT are set and every other CTRL bit is 0, CLKSOURCE is cleared iff `period > 2^24`, LOAD + 1 is `period` or `period / 8` accordingly, LOAD is at least 1 and fits the 24-bit counter, and times a tick within 8 cycles below the requested period |
| `SysTick.StartSchedulingAsWritten` | source/architecture/ARM/ARMv6-M-ARMv7-M/ARMv6-M-ARMv7-M-startScheduling.cpp:42-51 | the code as written is accepted exactly when the tick frequency is nonzero and `period` or `period / 8` is at most 2^24 |
| `SysTick.Ctrl` | source/architecture/ARM/ARMv6-M-ARMv7-M/ARMv6-M-ARMv7-M-startScheduling.cpp:50-51 | CTRL always has ENABLE and TICKINT; CLKSOURCE is clear exactly when dividing by eight; every other bit, reserved ones included, is 0 |
| `SysTick.CtrlDetermined` | source/architecture/ARM/ARMv6-M-ARMv7-M/ARMv6-M-ARMv7-M-startScheduling.cpp:50-51 | those three facts fix the word: any CTRL value with ENABLE and TICKINT set, no other bit set besides CLKSOURCE, and CLKSOURCE clear exactly when dividing by eight is the word the code writes |
| `SysTick.CorrectionOnlyRejectsShortPeriods` | source/architecture/ARM/ARMv6-M-ARMv7-M/ARMv6-M-ARMv7-M-startScheduling.cpp:46-48 | whenever the tick frequency is zero or the period is at least two cycles, the corrected function returns what the code as written returns |
| `SysTick.ZeroPeriodWrapsLoad` | source/architecture/ARM/ARMv6-M-ARMv7-M/ARMv6-M-ARMv7-M-startScheduling.cpp:47-48 | with AHB 1000 Hz and tick 2000 Hz the code as written is accepted and loads 0xffffffff, which does not fit the 24-bit counter |
| `SysTick.OneCyclePeriodLoadsZero` | source/architecture/ARM/ARMv6-M-ARMv7-M/ARMv6-M-ARMv7-M-startScheduling.cpp:47-48 | with AHB 1000 Hz and tick 1000 Hz the code as written is accepted and loads 0, with which the SysTick counter never fires |

## Left out

- Blocking and waking: a wait on a zero count does not suspend the caller. It fails with `WouldBlock` and leaves the state unchanged. Which waiter a post wakes is a scheduler decision and is not modelled.
- Cancelled and timed-out waits are one input flag, `interrupted`. The flag fails a wait whatever the count, so it also stands for any failure of a wait that does not depend on the count, reported as `Interrupted`; in the kernel a wait is cancelled only while it blocks on a zero count. Every such failure changes nothing. The kernel's Semaphore implementation is not part of this model.
- The error numbers 11, 4 and 75 are conventional errno values. The C library's own numbering is not part of this model.
- Concurrent callers: the model is sequential. It says nothing about two producers or two consumers racing on one cursor.
- Raw memory: `aligned_storage`, placement `new`, destructor calls, `reinterpret_cast` and `void*` arithmetic become `Option` slots and whole-element positions.
- Type erasure: the virtual dispatch through `TypeErasedFunctor`, `TypeTag` and `makeBoundedFunctor` become the `Functor` datatype.
- The empty destructor `~FifoQueueBase()` has no behaviour to model.
- FifoQueueBase.Construct: requires `maxElements >= 1`. The source does not check it; callers must pass at least one element.
- FifoQueueBase.PushMove: a moved-from object's state is unspecified, so the model records only that the caller's object was moved from (`None`).
- The typed `FifoQueue` facade that owns the storage array is not part of this model.
- The body of `popPushImplementation` is not part of this model. `PopPush` follows its documented contract.
- NVIC and SysTick register writes are returned as a record rather than performed. `NVIC_SetPriority` keeps only the implemented priority bits; that truncation is not modelled.
- The actual `chip::ahbFrequency` and `CONFIG_*` values are arguments. A negative `CONFIG_TICK_FREQUENCY` converted to unsigned is not modelled.
- The board LED configuration header contains only preprocessor constants and an external pin array. It has no behaviour to model.

## Findings

| source | as written | input that shows it | evidently intended | confidence | as-written member | corrected member |
|---|---|---|---|---|---|---|
| source/architecture/ARM/ARMv6-M-ARMv7-M/ARMv6-M-ARMv7-M-startScheduling.cpp:47-48 | the `static_assert` accepts a zero period, and `LOAD = period - 1` in `uint32_t` then wraps to 0xffffffff | any tick frequency above the AHB frequency, e.g. AHB 1000 Hz with tick 2000 Hz | reject the configuration at build time like the other unrepresentable periods, so LOAD always fits the 24-bit counter | medium, not executed | `SysTick.ZeroPeriodWrapsLoad` | `SysTick.StartScheduling` |
| source/architecture/ARM/ARMv6-M-ARMv7-M/ARMv6-M-ARMv7-M-startScheduling.cpp:47-48 | the `static_assert` accepts a period of one cycle, and `LOAD = period - 1` is then 0; by the SYST_RVR (reload value register) description in the ARMv7-M Architecture Reference Manual, a reload value of 0 leaves the counter without effect, so no tick interrupt is ever raised | AHB frequency equal to the tick frequency, e.g. 1000 Hz and 1000 Hz | reject a period below two cycles at build time, so LOAD is at least 1 | medium, not executed | `SysTick.OneCyclePeriodLoadsZero` | `SysTick.StartScheduling` |
