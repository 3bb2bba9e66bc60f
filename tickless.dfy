/** The tickless-idle controller of App/App.c: the LPTIM1 tick source that
    replaces SysTick (`vPortSetupTimerInterrupt`, the compare-match callback)
    and the routine the kernel calls to suppress ticks and sleep in STOP1
    (`vPortSuppressTicksAndSleep`).

    Each routine is a method of `TicklessController` whose fields are the
    hardware state, and each method is proved equal to a specification
    function on the snapshot `Hw`; the lemmas in module TicklessProperties
    state what those functions promise. */
module Tickless {
  import opened LptimConfig
  import opened Hardware

  /** The three answers of the kernel's `eTaskConfirmSleepModeStatus`. */
  datatype SleepModeStatus =
    | AbortSleep              // a task became ready: do not sleep
    | StandardSleep           // a task waits on a timeout: bounded sleep
    | NoTasksWaitingTimeout   // nothing waits on a timeout: sleep until any interrupt

  /** The three answers of the kernel's `xTaskGetSchedulerState`. */
  datatype SchedulerState = NotStarted | Running | Suspended

  /** What reconciliation after a bounded sleep decides: the whole tick
      periods to credit, and the timeout the timer is re-armed with, if any. */
  datatype Wake = Wake(complete: uint32, rearm: Option<uint32>)

  datatype Option<T> = None | Some(value: T)

  /** The limit on the suppressible time: at most what the 16-bit timer can
      count. A longer request is shortened, never refused. */
  function ClampIdleTime(expectedIdleTime: uint32): (d: uint32)
    ensures d <= MaxPeriod && d <= expectedIdleTime
    ensures expectedIdleTime <= MaxPeriod ==> d == expectedIdleTime
    ensures MaxPeriod < expectedIdleTime ==> d == MaxPeriod
  {
    if expectedIdleTime > MaxPeriod then MaxPeriod else expectedIdleTime
  }

  /** Reconciliation after a bounded sleep of `d` tick periods, given the value
      of `ucTickFlag` seen on wake. With the flag set the whole period is
      credited and the timer is left alone. Otherwise the elapsed timer counts
      are taken to be the whole requested span, converted to tick periods and
      limited to `d`; a result of 0 re-arms the timer for one tick period, any
      other result re-arms it for the remainder, which is 0 counts because one
      timer count is one millisecond. Either way exactly `d` periods are
      credited, and the remainder never wraps below zero. */
  function Reconcile(d: uint32, flagSet: bool): (w: Wake)
    ensures w.complete == d
    ensures flagSet ==> w.rearm == None
    ensures !flagSet && d == 0 ==> w.rearm == Some(OneTickCounts())
    ensures !flagSet && d != 0 ==> w.rearm == Some(IdleCounts(d - w.complete)) && w.rearm == Some(0)
  {
    if flagSet then Wake(d, None)
    else
      var lptimCounts := d;
      var complete := lptimCounts / TicksPerMs;
      if complete == 0 then Wake(0, Some(OneTickCounts()))
      else
        var limited := if complete > d then d else complete;
        Wake(limited, Some(IdleCounts(Sub32(d, limited))))
  }

  /** `vPortSetupTimerInterrupt`: freeze LPTIM1 while the core is halted by a
      debugger and arm the first one-tick timeout. */
  function SetupSpec(h: Hw): Hw {
    StartTimeout(FreezeInDebug(h), MaxPeriod, OneTickCounts())
  }

  /** `HAL_LPTIM_CompareMatchCallback`: it asks the kernel for the scheduler
      state; once the scheduler has started, each compare match is one kernel
      tick, re-arms the timer for one tick period and writes `pdFALSE` to
      `ucTickFlag`; before that it does nothing more. */
  function CallbackSpec(h: Hw, scheduler: SchedulerState): Hw {
    var queried := SchedulerQuery(h);
    if scheduler != NotStarted then
      SetTickFlag(StartTimeout(KernelTick(queried), MaxPeriod, OneTickCounts()), false)
    else
      queried
  }

  /** `vPortSuppressTicksAndSleep`, with the kernel's sleep-mode answer
      `status` and the value `flagOnWake` of `ucTickFlag` that the interrupts
      run at wake-up leave behind. */
  function SuppressSpec(h: Hw, expectedIdleTime: uint32, status: SleepModeStatus, flagOnWake: bool): Hw {
    var d := ClampIdleTime(expectedIdleTime);
    var prepared := ConfirmSleep(MaskIrq(h));
    match status
    case AbortSleep =>
      UnmaskIrq(StartTimeout(prepared, MaxPeriod, OneTickCounts()))
    case NoTasksWaitingTimeout =>
      var woken := ResumeHalTick(ClockConfig(Stop1(SuspendHalTick(prepared))));
      KernelStep(ResumeHalTick(woken), 0)
    case StandardSleep =>
      KernelStep(ResumeHalTick(BoundedSleep(prepared, d, flagOnWake)), Reconcile(d, flagOnWake).complete)
  }

  /** The bounded branch of `vPortSuppressTicksAndSleep` up to the re-arm
      after wake: prepare the sleep, then wake and reconcile. */
  function BoundedSleep(prepared: Hw, d: uint32, flagOnWake: bool): Hw {
    WakeAndReconcile(ArmForSleep(prepared, d), d, flagOnWake)
  }

  /** Before STOP1 on the bounded branch: suspend the tick, stop the timer,
      clear `ucTickFlag` and the stale ARRM flag, and arm the timer for the
      whole idle span. */
  function ArmForSleep(prepared: Hw, d: uint32): Hw {
    var stopped := SetTickFlag(StopTimeout(SuspendHalTick(prepared)), false);
    StartTimeout(ClearArrmFlag(stopped), MaxPeriod, IdleCounts(d))
  }

  /** From STOP1 on the bounded branch: sleep, restore the clocks, re-enable
      interrupts (whose handlers leave `flagOnWake` in `ucTickFlag`), then
      reconcile and re-arm the timer if reconciliation asks for it. */
  function WakeAndReconcile(armed: Hw, d: uint32, flagOnWake: bool): Hw {
    var woken := UnmaskIrq(ClockConfig(Stop1(armed))).(tickFlag := flagOnWake);
    var w := Reconcile(d, woken.tickFlag);
    if w.rearm.Some? then StartTimeout(woken, MaxPeriod, w.rearm.value) else woken
  }

  class TicklessController {
    var timerRunning: bool
    var timerPeriod: uint32
    var timerTimeout: uint32
    var tickFlag: bool
    var arrmPending: bool
    var tickSuspended: bool
    var irqEnabled: bool
    var trace: Trace

    function State(): Hw
      reads this
    {
      Hw(timerRunning, timerPeriod, timerTimeout, tickFlag, arrmPending, tickSuspended, irqEnabled, trace)
    }

    predicate Valid()
      reads this
    {
      RegistersFit(State())
    }

    constructor ()
      ensures Valid() && State() == ResetState()
    {
      timerRunning, timerPeriod, timerTimeout := false, 0, 0;
      tickFlag, arrmPending := false, false;
      tickSuspended, irqEnabled := false, true;
      trace := Empty;
    }

    /** `vPortSetupTimerInterrupt`. */
    method SetupTimerInterrupt()
      requires Valid()
      modifies this
      ensures Valid()
      ensures State() == SetupSpec(old(State()))
    {
      Call(FreezeLptimInDebug);
      LptimStart(MaxPeriod, OneTickCounts());
    }

    /** `HAL_LPTIM_CompareMatchCallback`, run by the LPTIM1 interrupt. */
    method CompareMatchCallback(scheduler: SchedulerState)
      requires Valid()
      modifies this
      ensures Valid()
      ensures State() == CallbackSpec(old(State()), scheduler)
    {
      Call(QuerySchedulerState);
      if scheduler != NotStarted {
        Call(TickHandler);
        LptimStart(MaxPeriod, OneTickCounts());
        WriteFlag(false);
      }
    }

    /** `vPortSuppressTicksAndSleep`. The kernel's answer to the sleep-mode
        query is `status`; `flagOnWake` is the value of `ucTickFlag` once the
        interrupts held back during STOP1 have run. */
    method SuppressTicksAndSleep(expectedIdleTime: uint32, status: SleepModeStatus, flagOnWake: bool)
      requires Valid()
      modifies this
      ensures Valid()
      ensures State() == SuppressSpec(old(State()), expectedIdleTime, status, flagOnWake)
    {
      ghost var s0 := State();
      ghost var d := ClampIdleTime(expectedIdleTime);
      var completeTickPeriods: uint32 := 0;
      var idleTime := expectedIdleTime;

      if idleTime > MaxPeriod {
        idleTime := MaxPeriod;
      }

      assert idleTime == d;
      IrqDisable();
      Call(ConfirmSleepModeStatus);
      ghost var prepared := State();
      assert prepared == ConfirmSleep(MaskIrq(s0));

      if status == AbortSleep {
        LptimStart(MaxPeriod, OneTickCounts());
        IrqEnable();
        assert State() == SuppressSpec(s0, expectedIdleTime, status, flagOnWake);
        return;
      } else if status == NoTasksWaitingTimeout {
        HalSuspendTick();
        Call(EnterStop1);
        Call(RestoreClock);
        HalResumeTick();
        assert KernelStep(ResumeHalTick(State()), completeTickPeriods) == SuppressSpec(s0, expectedIdleTime, status, flagOnWake);
      } else {
        completeTickPeriods := SleepBounded(idleTime, flagOnWake);
        assert KernelStep(ResumeHalTick(State()), completeTickPeriods) == SuppressSpec(s0, expectedIdleTime, status, flagOnWake);
      }

      ghost var beforeResume := State();
      HalResumeTick();
      Call(StepTick(completeTickPeriods));
      assert State() == KernelStep(ResumeHalTick(beforeResume), completeTickPeriods);
    }

    /** The bounded branch of `SuppressTicksAndSleep`, from suspending the
        tick to the re-arm after wake; returns the tick periods to credit. */
    method SleepBounded(idleTime: uint32, flagOnWake: bool) returns (completeTickPeriods: uint32)
      requires Valid() && idleTime <= MaxPeriod
      modifies this
      ensures Valid()
      ensures State() == BoundedSleep(old(State()), idleTime, flagOnWake)
      ensures completeTickPeriods == Reconcile(idleTime, flagOnWake).complete
    {
      HalSuspendTick();
      LptimStop();
      WriteFlag(false);
      LptimClearArrm();
      LptimStart(MaxPeriod, IdleCounts(idleTime));
      ghost var armed := State();
      assert armed == ArmForSleep(old(State()), idleTime);
      Call(EnterStop1);
      Call(RestoreClock);
      IrqEnable();
      // Interrupts held back while asleep run here; what they leave in the
      // flag is the input.
      tickFlag := flagOnWake;

      if tickFlag {
        completeTickPeriods := idleTime;
      } else {
        var lptimCounts := idleTime;
        completeTickPeriods := lptimCounts / TicksPerMs;
        if completeTickPeriods == 0 {
          LptimStart(MaxPeriod, OneTickCounts());
        } else {
          if completeTickPeriods > idleTime {
            completeTickPeriods := idleTime;
          }
          LptimStart(MaxPeriod, IdleCounts(Sub32(idleTime, completeTickPeriods)));
        }
      }
    }

    // The collaborator calls, each proved to be its step function.

    /** `HAL_LPTIM_TimeOut_Start_IT`; the HAL accepts only 16-bit values. */
    method LptimStart(period: uint32, timeout: uint32)
      requires period <= MaxPeriod && timeout <= MaxPeriod
      modifies this
      ensures State() == StartTimeout(old(State()), period, timeout)
    {
      timerRunning, timerPeriod, timerTimeout := true, period, timeout;
      trace := Append(trace, StartTimer(period, timeout));
    }

    method LptimStop()
      modifies this
      ensures State() == StopTimeout(old(State()))
    {
      timerRunning := false;
      trace := Append(trace, StopTimer);
    }

    method LptimClearArrm()
      modifies this
      ensures State() == ClearArrmFlag(old(State()))
    {
      arrmPending := false;
      trace := Append(trace, ClearArrm);
    }

    method WriteFlag(value: bool)
      modifies this
      ensures State() == SetTickFlag(old(State()), value)
    {
      tickFlag := value;
      trace := Append(trace, WriteTickFlag(value));
    }

    method HalSuspendTick()
      modifies this
      ensures State() == SuspendHalTick(old(State()))
    {
      tickSuspended := true;
      trace := Append(trace, SuspendTick);
    }

    method HalResumeTick()
      modifies this
      ensures State() == ResumeHalTick(old(State()))
    {
      tickSuspended := false;
      trace := Append(trace, ResumeTick);
    }

    method IrqDisable()
      modifies this
      ensures State() == MaskIrq(old(State()))
    {
      irqEnabled := false;
      trace := Append(trace, DisableIrq);
    }

    method IrqEnable()
      modifies this
      ensures State() == UnmaskIrq(old(State()))
    {
      irqEnabled := true;
      trace := Append(trace, EnableIrq);
    }

    /** A call that changes nothing the model tracks except the trace. */
    method Call(op: Op)
      modifies this
      ensures State() == Record(old(State()), op)
    {
      trace := Append(trace, op);
    }
  }
}
