/**
 * startScheduling() for ARMv6-M and ARMv7-M as a pure computation. Instead of writing the
 * NVIC priorities and the SysTick registers it returns the values it would write, and the
 * build-time configuration it reads (the AHB clock frequency, the tick frequency and the
 * optional kernel BASEPRI level) becomes its arguments.
 *
 * The SysTick counter reloads from a 24-bit LOAD register, so a tick period of at most 2^24
 * clock cycles can be timed directly. A longer period is timed on the reference clock, which
 * the code takes to run at one eighth of the AHB clock, with the period divided by eight.
 */
module SysTick {
  import opened Wrappers

  /** An unsigned 32-bit value (`uint32_t`). */
  type uint32 = x: int | 0 <= x < 0x1_0000_0000

  /** The longest period the 24-bit SysTick counter can time: `1 << 24` cycles. */
  const MaxSysTickPeriod: nat := 0x100_0000

  /**
   * The SysTick CTRL bits the code sets, as laid out in section B3.3.3 of the ARMv7-M
   * Architecture Reference Manual.
   */
  const CtrlEnable: bv32 := 1      // bit 0: the counter runs
  const CtrlTickInt: bv32 := 2     // bit 1: reaching zero raises the SysTick exception
  const CtrlClkSource: bv32 := 4   // bit 2: count the processor clock; clear: the reference clock

  /** The lowest exception priority (0xff), given to SysTick and PendSV. */
  const LowestPriority: uint32 := 0xff

  /** Everything startScheduling() writes to the hardware. */
  datatype Configuration = Configuration(
    sysTickPriority: uint32,
    pendSvPriority: uint32,
    svCallPriority: uint32,
    load: uint32,    // SysTick->LOAD
    val: uint32,     // SysTick->VAL
    ctrl: bv32)      // SysTick->CTRL

  /** Configurations that are rejected when the kernel is built. */
  datatype ConfigurationError =
    | ZeroTickFrequency            // the period is a constant expression dividing by zero
    | InvalidSysTickConfiguration  // the static_assert: neither candidate period fits the counter
    | PeriodTooShort               // the period is 0 or 1 cycle (only the corrected function rejects this)

  /** True iff the static_assert of the build accepts `period`: one of the two candidates fits. */
  predicate PeriodFits(period: nat)
  {
    period <= MaxSysTickPeriod || period / 8 <= MaxSysTickPeriod
  }

  /** SVCall runs at the configured kernel BASEPRI level when there is one, at priority 0 otherwise. */
  function SvCallPriority(kernelBasepri: Option<uint32>): uint32
  {
    match kernelBasepri
    case Some(level) => level
    case None => 0
  }

  /** True iff `c` counts the reference clock, that is, the tick period was divided by eight. */
  predicate DividedBy8(c: Configuration)
  {
    c.ctrl & CtrlClkSource == 0
  }

  /**
   * The length of one tick in AHB clock cycles under configuration `c`: the counter counts
   * LOAD down to 0 and reloads, so it wraps every LOAD + 1 counts. With LOAD 0 it never raises
   * the exception (the SYST_RVR description of the ARMv7-M Architecture Reference Manual), so
   * there is no tick length and LOAD must be at least 1.
   */
  function TickCycles(c: Configuration): nat
    requires c.load >= 1
  {
    (c.load + 1) * (if DividedBy8(c) then 8 else 1)
  }

  /**
   * The CTRL word: counter and exception always enabled, processor clock unless dividing by
   * eight, and every other bit (COUNTFLAG and the reserved ones) written as 0.
   */
  function Ctrl(divideBy8: bool): (ctrl: bv32)
    ensures ctrl & CtrlEnable != 0 && ctrl & CtrlTickInt != 0
    ensures ctrl & CtrlClkSource == 0 <==> divideBy8
    ensures ctrl & !(CtrlEnable | CtrlTickInt | CtrlClkSource) == 0
  {
    (if divideBy8 then 0 else CtrlClkSource) | CtrlEnable | CtrlTickInt
  }

  /** A CTRL word is fixed by its ENABLE, TICKINT and CLKSOURCE bits once every other bit is 0. */
  lemma CtrlDetermined(w: bv32, divideBy8: bool)
    requires w & CtrlEnable != 0 && w & CtrlTickInt != 0
    requires w & CtrlClkSource == 0 <==> divideBy8
    requires w & !(CtrlEnable | CtrlTickInt | CtrlClkSource) == 0
    ensures w == Ctrl(divideBy8)
  {
  }

  /**
   * startScheduling() as written: LOAD is `(period or period/8) - 1` computed in 32-bit
   * unsigned arithmetic, so a zero period wraps around to 0xffffffff.
   */
  function StartSchedulingAsWritten(ahbFrequency: uint32, tickFrequency: uint32, kernelBasepri: Option<uint32>)
    : (r: Result<Configuration, ConfigurationError>)
    ensures r.Success? <==> tickFrequency > 0 && PeriodFits(ahbFrequency / tickFrequency)
  {
    if tickFrequency == 0 then Failure(ZeroTickFrequency)
    else
      var period := ahbFrequency / tickFrequency;
      var periodDividedBy8 := period / 8;
      var divideBy8 := period > MaxSysTickPeriod;
      if !(period <= MaxSysTickPeriod || periodDividedBy8 <= MaxSysTickPeriod) then
        Failure(InvalidSysTickConfiguration)
      else
        var load := ((if divideBy8 then periodDividedBy8 else period) - 1) % 0x1_0000_0000;
        Success(Configuration(LowestPriority, LowestPriority, SvCallPriority(kernelBasepri), load, 0, Ctrl(divideBy8)))
  }

  /**
   * startScheduling() with periods of 0 and 1 cycle rejected alongside the static_assert. Every
   * accepted configuration gives SysTick and PendSV the lowest priority and SVCall the BASEPRI
   * level, clears the current value, enables the counter and its exception, divides by eight
   * exactly when the period exceeds 2^24 cycles, and loads a nonzero reload value that fits the
   * 24-bit counter and times one tick as close to the requested period as the divider allows.
   */
  function StartScheduling(ahbFrequency: uint32, tickFrequency: uint32, kernelBasepri: Option<uint32>)
    : (r: Result<Configuration, ConfigurationError>)
    ensures r.Success? <==>
      tickFrequency > 0 && ahbFrequency / tickFrequency >= 2 && PeriodFits(ahbFrequency / tickFrequency)
    ensures r.Failure? && tickFrequency > 0 ==>
      (r.error == PeriodTooShort <==> ahbFrequency / tickFrequency <= 1)
    ensures r.Success? ==>
      var c := r.value;
      var period := ahbFrequency / tickFrequency;
      && c.sysTickPriority == LowestPriority && c.pendSvPriority == LowestPriority
      && c.svCallPriority == (if kernelBasepri.Some? then kernelBasepri.value else 0)
      && c.val == 0
      && c.ctrl & CtrlEnable != 0 && c.ctrl & CtrlTickInt != 0
      && c.ctrl & !(CtrlEnable | CtrlTickInt | CtrlClkSource) == 0
      && (DividedBy8(c) <==> period > MaxSysTickPeriod)
      && c.load + 1 == (if DividedBy8(c) then period / 8 else period)
      && 1 <= c.load && c.load + 1 <= MaxSysTickPeriod
      && TickCycles(c) <= period < TickCycles(c) + 8
  {
    if tickFrequency == 0 then Failure(ZeroTickFrequency)
    else
      var period := ahbFrequency / tickFrequency;
      var periodDividedBy8 := period / 8;
      var divideBy8 := period > MaxSysTickPeriod;
      if !(period <= MaxSysTickPeriod || periodDividedBy8 <= MaxSysTickPeriod) then
        Failure(InvalidSysTickConfiguration)
      else if period <= 1 then
        Failure(PeriodTooShort)
      else
        var load := (if divideBy8 then periodDividedBy8 else period) - 1;
        Success(Configuration(LowestPriority, LowestPriority, SvCallPriority(kernelBasepri), load, 0, Ctrl(divideBy8)))
  }

  /** Wherever the period is at least two cycles, the corrected function is the code as written. */
  lemma CorrectionOnlyRejectsShortPeriods(ahbFrequency: uint32, tickFrequency: uint32, kernelBasepri: Option<uint32>)
    requires tickFrequency > 0 ==> ahbFrequency / tickFrequency >= 2
    ensures StartScheduling(ahbFrequency, tickFrequency, kernelBasepri)
         == StartSchedulingAsWritten(ahbFrequency, tickFrequency, kernelBasepri)
  {
  }

  /**
   * A tick frequency above the AHB frequency passes the static_assert with a zero period, and
   * the code as written then loads 0xffffffff, a value that does not fit the 24-bit counter.
   */
  lemma ZeroPeriodWrapsLoad()
    ensures StartSchedulingAsWritten(1000, 2000, None).Success?
    ensures StartSchedulingAsWritten(1000, 2000, None).value.load == 0xffff_ffff
    ensures StartSchedulingAsWritten(1000, 2000, None).value.load >= MaxSysTickPeriod
  {
  }

  /**
   * A tick frequency equal to the AHB frequency passes the static_assert with a one-cycle
   * period, and the code as written then loads 0, with which SysTick never fires.
   */
  lemma OneCyclePeriodLoadsZero()
    ensures StartSchedulingAsWritten(1000, 1000, None).Success?
    ensures StartSchedulingAsWritten(1000, 1000, None).value.load == 0
  {
  }
}
