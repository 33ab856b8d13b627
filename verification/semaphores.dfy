/**
 * The counting semaphore that FifoQueueBase composes, reduced to its contract: a value and the
 * maximum value fixed at construction. Blocking and waking are scheduler concerns and are not
 * modelled; a wait that would suspend the caller is reported as `WouldBlock` instead.
 */
module Semaphores {
  import opened Wrappers

  /** A counting semaphore: its current value and the ceiling `post` may not exceed. */
  datatype Semaphore = Semaphore(value: nat, maxValue: nat)

  /** Why a semaphore operation did not take effect. */
  datatype Error =
    | WouldBlock    // wait() found the value at 0: a task would be suspended here
    | Interrupted   // wait() was ended from outside (cancellation or timeout) before taking a unit
    | Overflow      // post() found the value already at maxValue

  /**
   * The nonzero integer code the semaphore reports for each error. The numbers follow the usual
   * errno values (EAGAIN, EINTR, EOVERFLOW); the kernel's own Semaphore is not part of this model.
   */
  function Code(e: Error): (c: int)
    ensures c > 0
  {
    match e
    case WouldBlock => 11
    case Interrupted => 4
    case Overflow => 75
  }

  /** Distinct errors are reported with distinct codes, so a caller can tell them apart. */
  lemma CodesDistinct(e: Error, e': Error)
    ensures Code(e) == Code(e') ==> e == e'
  {
  }

  /**
   * wait(): takes one unit when the value is positive and nobody interrupts the caller;
   * otherwise fails and leaves the semaphore as it was.
   */
  function Wait(s: Semaphore, interrupted: bool): (r: Result<Semaphore, Error>)
    ensures r.Success? <==> !interrupted && s.value > 0
    ensures r.Success? ==> r.value.value + 1 == s.value && r.value.maxValue == s.maxValue
    ensures r.Failure? ==> r.error == (if interrupted then Interrupted else WouldBlock)
  {
    if interrupted then Failure(Interrupted)
    else if s.value == 0 then Failure(WouldBlock)
    else Success(s.(value := s.value - 1))
  }

  /** post(): gives back one unit unless that would exceed the maximum value. */
  function Post(s: Semaphore): (r: Result<Semaphore, Error>)
    ensures r.Success? <==> s.value < s.maxValue
    ensures r.Success? ==> r.value.value == s.value + 1 && r.value.maxValue == s.maxValue
    ensures r.Failure? ==> r.error == Overflow
  {
    if s.value >= s.maxValue then Failure(Overflow)
    else Success(s.(value := s.value + 1))
  }

  /** A successful wait followed by a post restores the semaphore. */
  lemma WaitThenPost(s: Semaphore)
    requires 0 < s.value <= s.maxValue
    ensures Wait(s, false).Success?
    ensures Post(Wait(s, false).value) == Success(s)
  {
  }

  /** A successful post followed by a wait restores the semaphore. */
  lemma PostThenWait(s: Semaphore)
    requires s.value < s.maxValue
    ensures Post(s).Success?
    ensures Wait(Post(s).value, false) == Success(s)
  {
  }
}
