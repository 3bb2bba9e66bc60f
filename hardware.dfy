/** The hardware and kernel collaborators of the tickless-idle routines, seen
    as abstract state updates. Each call the C code makes into the STM32 HAL,
    the CMSIS intrinsics or the scheduler kernel is one step function on a
    snapshot `Hw`, and each appends one entry to the operation trace, so that
    ordering and branch structure can be stated about the trace. */
module Hardware {
  import opened LptimConfig

  /** One call made by the controller, in the order it is made. */
  datatype Op =
    | FreezeLptimInDebug            // __HAL_DBGMCU_FREEZE_LPTIM1
    | DisableIrq                    // __disable_irq
    | EnableIrq                     // __enable_irq
    | ConfirmSleepModeStatus        // eTaskConfirmSleepModeStatus
    | QuerySchedulerState           // xTaskGetSchedulerState
    | SuspendTick                   // HAL_SuspendTick
    | ResumeTick                    // HAL_ResumeTick
    | StopTimer                     // HAL_LPTIM_TimeOut_Stop_IT
    | ClearArrm                     // __HAL_LPTIM_CLEAR_FLAG(.., LPTIM_FLAG_ARRM)
    | StartTimer(period: uint32, timeout: uint32)  // HAL_LPTIM_TimeOut_Start_IT
    | WriteTickFlag(value: bool)    // ucTickFlag = ..
    | EnterStop1                    // HAL_PWREx_EnterSTOP1Mode
    | RestoreClock                  // SystemClock_Config
    | TickHandler                   // xPortSysTickHandler
    | StepTick(ticks: uint32)       // vTaskStepTick

  /** The calls made so far, most recent last. */
  datatype Trace = Empty | Append(before: Trace, last: Op)
  {
    /** This trace followed by `op`. */
    function Then(op: Op): Trace {
      Append(this, op)
    }
  }

  /** A snapshot of everything the routines touch: the LPTIM1 timer (running or
      stopped, its autoreload period and its compare timeout), the `ucTickFlag`
      global, the ARRM pending flag, whether the HAL tick is suspended, the
      global interrupt enable, and the trace of calls made so far. */
  datatype Hw = Hw(
    timerRunning: bool,
    timerPeriod: uint32,
    timerTimeout: uint32,
    tickFlag: bool,
    arrmPending: bool,
    tickSuspended: bool,
    irqEnabled: bool,
    trace: Trace)

  /** The 16-bit LPTIM registers hold what was programmed into them. */
  predicate RegistersFit(h: Hw) {
    h.timerPeriod <= MaxPeriod && h.timerTimeout <= MaxPeriod
  }

  /** State after reset: timer stopped, `ucTickFlag` at its static initial
      value `pdFALSE`, tick running, interrupts enabled, nothing called. */
  function ResetState(): (h: Hw)
    ensures RegistersFit(h) && h.trace == Empty
    ensures !h.tickFlag && !h.timerRunning && h.irqEnabled && !h.tickSuspended
  {
    Hw(false, 0, 0, false, false, false, true, Empty)
  }

  function Record(h: Hw, op: Op): Hw {
    h.(trace := Append(h.trace, op))
  }

  /** `HAL_LPTIM_TimeOut_Start_IT`: program period and timeout, start counting
      with the compare-match interrupt enabled. Re-arming a running timer just
      reprograms it. */
  function StartTimeout(h: Hw, period: uint32, timeout: uint32): Hw {
    h.(timerRunning := true, timerPeriod := period, timerTimeout := timeout,
       trace := Append(h.trace, StartTimer(period, timeout)))
  }

  /** `HAL_LPTIM_TimeOut_Stop_IT`. */
  function StopTimeout(h: Hw): Hw {
    h.(timerRunning := false, trace := Append(h.trace, StopTimer))
  }

  function ClearArrmFlag(h: Hw): Hw {
    h.(arrmPending := false, trace := Append(h.trace, ClearArrm))
  }

  function SetTickFlag(h: Hw, value: bool): Hw {
    h.(tickFlag := value, trace := Append(h.trace, WriteTickFlag(value)))
  }

  function SuspendHalTick(h: Hw): Hw {
    h.(tickSuspended := true, trace := Append(h.trace, SuspendTick))
  }

  function ResumeHalTick(h: Hw): Hw {
    h.(tickSuspended := false, trace := Append(h.trace, ResumeTick))
  }

  function MaskIrq(h: Hw): Hw {
    h.(irqEnabled := false, trace := Append(h.trace, DisableIrq))
  }

  function UnmaskIrq(h: Hw): Hw {
    h.(irqEnabled := true, trace := Append(h.trace, EnableIrq))
  }

  /** The calls below change nothing the model tracks besides the trace. */
  function FreezeInDebug(h: Hw): Hw { Record(h, FreezeLptimInDebug) }
  function ConfirmSleep(h: Hw): Hw { Record(h, ConfirmSleepModeStatus) }
  function Stop1(h: Hw): Hw { Record(h, EnterStop1) }
  function ClockConfig(h: Hw): Hw { Record(h, RestoreClock) }
  function KernelTick(h: Hw): Hw { Record(h, TickHandler) }
  function SchedulerQuery(h: Hw): Hw { Record(h, QuerySchedulerState) }
  function KernelStep(h: Hw, ticks: uint32): Hw { Record(h, StepTick(ticks)) }
}
