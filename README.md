# Tickless idle on LPTIM1: a Dafny model

This project models the tickless-idle controller of an STM32 FreeRTOS
application (`App/App.c`). The kernel's periodic SysTick is replaced by the
16-bit low-power timer LPTIM1. The model covers three routines:

- `vPortSetupTimerInterrupt` arms the first one-tick timeout.
- `HAL_LPTIM_CompareMatchCallback` asks the kernel whether the scheduler has
  started. Once it has, it turns each compare match into one kernel tick and
  re-arms the timer.
- `vPortSuppressTicksAndSleep` clamps the expected idle time to the 16-bit
  timer span and asks the kernel whether to sleep. It then aborts, sleeps in
  STOP1 without programming a deadline of its own, or sleeps for a bounded
  span. In the second case LPTIM1 keeps whatever timeout it had, such as
  the one-tick timeout armed by setup or by a compare match. At the end it steps
  the kernel's tick count by the periods it credits.

The files:

- `config.dfy` (module `LptimConfig`) holds the timer constants: a 32768 Hz
  input, prescaler 32, one count per millisecond, and a 16-bit maximum period.
  It also holds C's unsigned 32-bit `*` and `-`, written with explicit
  wrap-around.
- `hardware.dfy` (module `Hardware`) holds the snapshot `Hw` of everything the
  routines touch. That is the timer (running, period, timeout), `ucTickFlag`,
  the ARRM pending flag, whether the HAL tick is suspended, the global
  interrupt enable, and a trace of every collaborator call made so far. Each
  call into the HAL, the CMSIS intrinsics or the kernel is one step function
  on that snapshot and appends one `Op` to the trace.
- `tickless.dfy` (module `Tickless`) holds the specification functions of the
  routines and the class `TicklessController`. The class's fields are the
  hardware state. Each of its methods updates them step by step, in the
  order the C code does, and is proved to end in the state its specification
  function gives.
- `properties.dfy` (module `TicklessProperties`) holds the lemmas about
  those functions:
  - which calls each branch makes, and in which order;
  - the state in which STOP1 is entered and the routine returns;
  - the bounds on what is credited;
  - how the ticks credited to the kernel move over any sequence of sleeps
    and compare matches (an unbounded sum; the kernel's own 32-bit count is
    not modelled).

Three inputs are parameters of the methods:

- the kernel's answer to `eTaskConfirmSleepModeStatus`;
- the answer of `xTaskGetSchedulerState`;
- the value of `ucTickFlag` read right after `__enable_irq` on the bounded
  path.

The last one is whatever the interrupts that were held back during STOP1
leave behind. As written, `ucTickFlag` is `static` and this file only ever
writes `pdFALSE` to it (App/App.c:31, 61, 187), so the value read at
App/App.c:203 is always `pdFALSE` and the flag-set branch at App/App.c:203-205
cannot be reached from this file. `FlagSetOnWake` covers that branch for a
writer outside the code, and a flag value of true on wake is the only way
the model reaches `tickFlag == true`.

The model follows the code as written, including its quirks:

- The derived constants use C's unsigned division. So `TICKS_PER_MS` is
  32768 / 32 / 1000 = 1. The doc comment above `App_Init` speaks of a 1024 Hz
  counter from a 1024 prescaler, but the macros say prescaler 32. The model
  follows the macros.
- The elapsed count after a bounded sleep is taken to be the whole requested
  span (`lptimCounts = xExpectedIdleTime`). So both wake outcomes credit
  exactly the clamped span. When the flag is clear, the timer is re-armed for
  the remainder, which is 0 counts. When the span was 0, it is re-armed for
  one tick period instead.
- The no-timeout branch calls `HAL_ResumeTick` twice, steps the tick count by
  0, and returns with interrupts still disabled.
- The abort branch returns before `HAL_ResumeTick` and `vTaskStepTick`.
- The compare-match callback writes `pdFALSE` to `ucTickFlag`. The comment at
  the flag's declaration says the tick interrupt sets it, but nothing in the
  file ever writes `pdTRUE`.

## Model

The specification functions `SetupSpec`, `CallbackSpec`, `SuppressSpec`,
`BoundedSleep`, `ArmForSleep` and `WakeAndReconcile` in `Tickless` have no
rows of their own: the rows of the methods proved to end in their states, and
of the lemmas about them, cover them.

| member | source | states |
|---|---|---|
| LptimConfig.ConfigDerivation | App/App.c:20-23 | the counter frequency is input frequency / prescaler = 1024 Hz; `TICKS_PER_MS` is its integer division by 1000, which truncates the true 1.024 to 1 |
| LptimConfig.OneTickCounts | App/App.c:23-24 | `TICKS_PER_MS * TICK_INTERVAL_MS` is 1 count, non-zero and within the 16-bit period |
| LptimConfig.IdleCounts | App/App.c:191 | `TICKS_PER_MS * D` in 32-bit arithmetic equals D and never wraps; a clamped D gives a count within the 16-bit register |
| Hardware.ResetState | App/App.c:31 | at reset `ucTickFlag` is `pdFALSE`, the timer is stopped, the tick runs, interrupts are enabled, the registers are in range and no call has been made |
| Tickless.ClampIdleTime | App/App.c:161-163 | the clamped idle time is at most 0xFFFF and at most the request; it equals the request when that fits and is 0xFFFF otherwise |
| Tickless.Reconcile | App/App.c:203-231 | after a bounded sleep exactly D periods are credited; with the flag set the timer is not re-armed; with it clear it is re-armed for one tick period when D = 0 and for `TICKS_PER_MS * (D - complete)` = 0 counts otherwise, with no underflow |
| Tickless.TicklessController.constructor | App/App.c:31 | a new controller is in the reset state |
| Tickless.TicklessController.SetupTimerInterrupt | App/App.c:49-52 | the method's final state is `SetupSpec` of its initial state: debug freeze, then the one-tick timeout is armed |
| Tickless.TicklessController.CompareMatchCallback | App/App.c:55-63 | the method's final state is `CallbackSpec` of its initial state: a scheduler-state query, then, with the scheduler started, one tick-handler call, a one-tick re-arm and a `pdFALSE` write; otherwise only the query is recorded |
| Tickless.TicklessController.SuppressTicksAndSleep | App/App.c:156-240 | the method's final state is `SuppressSpec` of its initial state, for every sleep-mode answer and every flag value on wake; the registers stay in range |
| Tickless.TicklessController.SleepBounded | App/App.c:180-231 | the bounded branch from suspending the tick to the re-arm after wake ends in `BoundedSleep` of its initial state and returns the periods `Reconcile` credits |
| TicklessProperties.TicksMonotone | App/App.c:236-239 | from an earlier state of a trace to a later one, the ticks credited to the kernel and the number of `vTaskStepTick` calls never decrease |
| TicklessProperties.PrefixTransitive | App/App.c:165-239 | if one call history extends a second and the second extends a third, the first extends the third |
| TicklessProperties.BranchesExtend | App/App.c:165-239 | the calls of each branch (abort, no timeout, bounded with either flag value) are appended after the calls made before |
| TicklessProperties.EventExtendsTrace | App/App.c:55-240 | a call of the suppress routine on any branch, or of the compare-match callback, leaves the earlier call history in place and only appends to it |
| TicklessProperties.RunExtendsTrace | App/App.c:55-240 | over any sequence of sleeps and compare matches the call history is only appended to, so the credited ticks and the `vTaskStepTick` calls never go back (the two inequalities also follow from `RunAccountsTicks`; the prefix is the new part) |
| TicklessProperties.AbortCounts | App/App.c:169-172 | the calls of an aborted sleep neither add kernel ticks nor call `vTaskStepTick` |
| TicklessProperties.NoTimeoutCounts | App/App.c:173-178 | the calls of a no-timeout sleep call `vTaskStepTick` once and add no ticks |
| TicklessProperties.PrefixCounts | App/App.c:165-199 | nothing the bounded branch calls up to re-enabling interrupts touches the kernel count |
| TicklessProperties.BoundedCounts | App/App.c:203-239 | the calls of a bounded sleep of D periods call `vTaskStepTick` once and add exactly D ticks, whichever flag value is seen on wake |
| TicklessProperties.BoundedCallsFollowPrefix | App/App.c:180-199 | the calls of a bounded sleep begin with the whole sequence up to re-enabling interrupts |
| TicklessProperties.AbortBranch | App/App.c:165-172 | abort: the calls are mask, query, one-tick re-arm, unmask. The timer runs with period 0xFFFF and timeout `TICKS_PER_MS * 1` = 1. Interrupts are enabled. The tick is not suspended, STOP1 is not entered and `vTaskStepTick` is not called |
| TicklessProperties.NoTimeoutBranch | App/App.c:173-178 | no timeout: the calls are mask, query, suspend tick, STOP1, clock restore, two resumes, then a step by 0. Interrupts stay disabled and the timer is untouched, so it keeps whatever timeout it had |
| TicklessProperties.EntersStop1Armed | App/App.c:161-191 | bounded sleep: STOP1 is entered with interrupts masked, the tick suspended, `ucTickFlag` and ARRM cleared, the timer armed for the clamped span, and the kernel count unchanged |
| TicklessProperties.FlagSetOnWake | App/App.c:203-205 | bounded sleep with the flag set on wake: the calls are exactly the bounded prefix, a resume and a step by D. The timer keeps the timeout D. Exactly D ticks are added |
| TicklessProperties.FlagClearOnWake | App/App.c:206-231 | bounded sleep with the flag clear on wake: the timer is re-armed once after wake, for 1 count when D = 0 and 0 counts otherwise. Then the tick resumes and is stepped by D, so exactly D ticks are added |
| TicklessProperties.BoundedOrdering | App/App.c:180-199 | on the bounded branch the calls start: mask, query, suspend tick, stop timer, clear `ucTickFlag`, clear ARRM, arm for D, STOP1, clock restore, unmask |
| TicklessProperties.IdleCredit | App/App.c:157-163 | what one call credits is at most the request and at most 0xFFFF |
| TicklessProperties.StepsOnceAtEnd | App/App.c:236-239 | every non-abort call steps the tick count exactly once, as its last call, by the credit (the clamped span, or 0 with no timeout); an abort never steps it; the count moves by exactly the credit |
| TicklessProperties.SuppressKeepsRegistersFit | App/App.c:161-191 | nothing the suppress routine programs exceeds the 16-bit LPTIM registers |
| TicklessProperties.SetupArmsOneTick | App/App.c:49-52 | setup freezes LPTIM1 in debug and then arms period 0xFFFF with timeout `TICKS_PER_MS * TICK_INTERVAL_MS`; the flag, the interrupt mask and the tick count are untouched |
| TicklessProperties.CallbackTicksOnce | App/App.c:55-63 | once the scheduler has started, a compare match adds exactly one kernel tick, re-arms the one-tick timeout and leaves `ucTickFlag` false; before that only the `xTaskGetSchedulerState` query is added to the call history and nothing else changes |
| TicklessProperties.RunAccountsTicks | App/App.c:55-240 | over any sequence of sleeps and compare matches the kernel count grows by exactly the sum of the sleep credits and one per compare match once the scheduler runs |
| TicklessProperties.RunKeepsRegistersFit | App/App.c:55-240 | the timer registers stay in range over any such sequence |
| TicklessProperties.RepeatedAborts | App/App.c:169-172 | after any non-empty run of aborted sleeps the one-tick timeout is armed, interrupts are enabled, the tick suspension is as before and the kernel count is unchanged |

## Left out

- `App_Init`, `prvLEDBLINKTask` and `prvLOADTask` (App/App.c:90-152) are left out. They create the demo tasks and toggle an LED, with no logic beyond create-or-hang.
- `PreSleepProcessing` and `PostSleepProcessing` are left out. They are user hooks that the suppress routine never calls.
- The HAL, CMSIS and kernel calls are abstract state updates plus a trace entry. Their internals are left out: the LPTIM register programming, the STOP1 entry sequence, the clock tree configuration and the kernel's tick bookkeeping.
- `__HAL_DBGMCU_FREEZE_LPTIM1` is only a trace entry. The debugger is not modelled.
- Interrupt preemption is not modelled. The callback is a separate method that a run can interleave between routine calls. The interrupts held back during STOP1 and run at `__enable_irq` are not executed. Instead the flag value they leave, which is read at App/App.c:203, is an input. So the model does not show the compare-match callback running inside a bounded sleep and adding its own tick on top of `vTaskStepTick`.
- `volatile` semantics are left out, and the `uint8_t` flag is modelled as a boolean, as its only values `pdFALSE`/`pdTRUE` allow.
- The `hlptim` argument of the callback is ignored by the code and is not a parameter of the model.
- The kernel's tick count as a `TickType_t` is not modelled. `KernelTicks` is the unbounded sum of the ticks a trace credits: one per tick-handler call plus each `vTaskStepTick` argument. The kernel's own 32-bit count wraps at 2^32, and that wrap is not modelled.
- The timer's counting in real time is not modelled. No code in the core reads the counter: the read at App/App.c:215 is commented out in the source.
