/** What the tickless-idle routines promise, stated about their specification
    functions: the calls each branch makes and in which order, the state the
    timer, tick and interrupt mask are left in, and how many kernel ticks are
    accounted for, one sleep cycle at a time and over any run. */
module TicklessProperties {
  import opened LptimConfig
  import opened Hardware
  import opened Tickless

  // ---------------------------------------------------------------------
  // Counting over the trace

  /** Kernel ticks a call accounts for: `vTaskStepTick(n)` steps the count by
      `n`, each `xPortSysTickHandler` by one. */
  function TickWeight(o: Op): nat {
    match o
    case StepTick(n) => n
    case TickHandler => 1
    case _ => 0
  }

  /** The kernel ticks a trace accounts for. */
  function KernelTicks(t: Trace): nat {
    match t
    case Empty => 0
    case Append(before, op) => KernelTicks(before) + TickWeight(op)
  }

  /** The number of `vTaskStepTick` calls in a trace. */
  function StepCalls(t: Trace): nat {
    match t
    case Empty => 0
    case Append(before, op) => StepCalls(before) + (if op.StepTick? then 1 else 0)
  }

  /** `p` is an earlier state of trace `t`: `t` is `p` followed by more calls. */
  predicate IsPrefix(p: Trace, t: Trace) {
    p == t || (t.Append? && IsPrefix(p, t.before))
  }

  /** Along a trace, the ticks credited to the kernel and the number of
      `vTaskStepTick` calls never go back. */
  lemma {:induction false} TicksMonotone(p: Trace, t: Trace)
    requires IsPrefix(p, t)
    ensures KernelTicks(p) <= KernelTicks(t) && StepCalls(p) <= StepCalls(t)
  {
    if p != t {
      TicksMonotone(p, t.before);
    }
  }

  /** Being an earlier state of a trace is transitive. */
  lemma {:induction false} PrefixTransitive(a: Trace, b: Trace, c: Trace)
    requires IsPrefix(a, b) && IsPrefix(b, c)
    ensures IsPrefix(a, c)
  {
    if b != c {
      PrefixTransitive(a, b, c.before);
    }
  }

  /** One more call keeps every earlier state of a trace earlier. */
  lemma ExtendOne()
    ensures forall p: Trace, t: Trace, o: Op :: IsPrefix(p, t) ==> IsPrefix(p, Append(t, o))
  {
  }

  /** One more call adds that call's ticks and step calls, whatever came
      before; used for the trace shapes below. */
  lemma AppendOne()
    ensures forall t: Trace, o: Op :: KernelTicks(Append(t, o)) == KernelTicks(t) + TickWeight(o)
    ensures forall t: Trace, o: Op :: StepCalls(Append(t, o)) == StepCalls(t) + (if o.StepTick? then 1 else 0)
  {
  }

  // ---------------------------------------------------------------------
  // The calls each branch of the suppress routine makes

  /** Trace `t` followed by the calls of an aborted sleep. */
  function AbortCalls(t: Trace): Trace {
    t.Then(DisableIrq).Then(ConfirmSleepModeStatus).Then(StartTimer(MaxPeriod, OneTickCounts())).Then(EnableIrq)
  }

  /** Trace `t` followed by the calls of a sleep with no timeout pending. */
  function NoTimeoutCalls(t: Trace): Trace {
    t.Then(DisableIrq).Then(ConfirmSleepModeStatus).Then(SuspendTick).Then(EnterStop1)
      .Then(RestoreClock).Then(ResumeTick).Then(ResumeTick).Then(StepTick(0))
  }

  /** Trace `t` followed by the calls of the bounded branch before STOP1, for
      an armed count of `counts`. */
  function ArmedPrefix(t: Trace, counts: uint32): Trace {
    t.Then(DisableIrq).Then(ConfirmSleepModeStatus).Then(SuspendTick).Then(StopTimer)
      .Then(WriteTickFlag(false)).Then(ClearArrm).Then(StartTimer(MaxPeriod, counts))
  }

  /** The same, followed by the sleep itself up to re-enabling interrupts. */
  function BoundedPrefix(t: Trace, counts: uint32): Trace {
    ArmedPrefix(t, counts).Then(EnterStop1).Then(RestoreClock).Then(EnableIrq)
  }

  /** The timeout the bounded branch re-arms with when the flag is clear on
      wake: one tick period after a span of 0, the remainder otherwise. */
  function RearmCounts(d: uint32): uint32 {
    if d == 0 then OneTickCounts() else IdleCounts(d - d)
  }

  /** Trace `t` followed by all calls of a bounded sleep of `d` periods. */
  function BoundedCalls(t: Trace, d: uint32, flagOnWake: bool): Trace {
    var woken := BoundedPrefix(t, d);
    var rearmed := if flagOnWake then woken else woken.Then(StartTimer(MaxPeriod, RearmCounts(d)));
    rearmed.Then(ResumeTick).Then(StepTick(d))
  }

  /** The calls of an aborted sleep step nothing. */
  lemma AbortCounts(t: Trace)
    ensures KernelTicks(AbortCalls(t)) == KernelTicks(t) && StepCalls(AbortCalls(t)) == StepCalls(t)
  {
    AppendOne();
  }

  /** The calls of a sleep with no timeout pending step the count once, by 0. */
  lemma NoTimeoutCounts(t: Trace)
    ensures KernelTicks(NoTimeoutCalls(t)) == KernelTicks(t) && StepCalls(NoTimeoutCalls(t)) == StepCalls(t) + 1
  {
    AppendOne();
  }

  /** Nothing the bounded branch does before waking touches the count. */
  lemma PrefixCounts(t: Trace, d: uint32)
    ensures KernelTicks(ArmedPrefix(t, d)) == KernelTicks(t) && StepCalls(ArmedPrefix(t, d)) == StepCalls(t)
    ensures KernelTicks(BoundedPrefix(t, d)) == KernelTicks(t) && StepCalls(BoundedPrefix(t, d)) == StepCalls(t)
  {
    AppendOne();
  }

  /** The calls of a bounded sleep of `d` periods step the count once, by `d`. */
  lemma BoundedCounts(t: Trace, d: uint32, flagOnWake: bool)
    ensures KernelTicks(BoundedCalls(t, d, flagOnWake)) == KernelTicks(t) + d
    ensures StepCalls(BoundedCalls(t, d, flagOnWake)) == StepCalls(t) + 1
  {
    PrefixCounts(t, d);
    var p := BoundedPrefix(t, d);
    if !flagOnWake {
      var rearmed := p.Then(StartTimer(MaxPeriod, RearmCounts(d)));
      assert KernelTicks(rearmed) == KernelTicks(p) && StepCalls(rearmed) == StepCalls(p);
    }
  }

  /** Each branch of the suppress routine only appends to the trace. */
  lemma BranchesExtend(t: Trace, d: uint32, flagOnWake: bool)
    ensures IsPrefix(t, AbortCalls(t))
    ensures IsPrefix(t, NoTimeoutCalls(t))
    ensures IsPrefix(t, BoundedCalls(t, d, flagOnWake))
  {
    ExtendOne();
  }

  /** The bounded calls run through the whole prefix up to re-enabling
      interrupts before anything else happens. */
  lemma BoundedCallsFollowPrefix(t: Trace, d: uint32, flagOnWake: bool)
    ensures IsPrefix(BoundedPrefix(t, d), BoundedCalls(t, d, flagOnWake))
  {
    var p := BoundedPrefix(t, d);
    var rearmed := if flagOnWake then p else p.Then(StartTimer(MaxPeriod, RearmCounts(d)));
    assert IsPrefix(p, rearmed);
    assert IsPrefix(p, rearmed.Then(ResumeTick));
  }

  // ---------------------------------------------------------------------
  // One call of the suppress routine, branch by branch

  /** Abort: the timer is re-armed for one tick period and interrupts are
      re-enabled; the tick is not suspended, STOP1 is not entered and the tick
      count is not stepped. */
  lemma AbortBranch(h: Hw, expectedIdleTime: uint32, flagOnWake: bool)
    ensures var h' := SuppressSpec(h, expectedIdleTime, AbortSleep, flagOnWake);
      && h'.trace == AbortCalls(h.trace)
      && h'.timerRunning && h'.timerPeriod == MaxPeriod && h'.timerTimeout == OneTickCounts() == 1
      && h'.irqEnabled
      && h'.tickSuspended == h.tickSuspended && h'.tickFlag == h.tickFlag && h'.arrmPending == h.arrmPending
      && StepCalls(h'.trace) == StepCalls(h.trace)
      && KernelTicks(h'.trace) == KernelTicks(h.trace)
  {
    AbortCounts(h.trace);
  }

  /** No timeout pending: the tick is suspended and STOP1 is entered without
      programming a deadline of its own, so LPTIM1 keeps whatever timeout it
      had (one tick period after setup or a compare match, for example); the
      clocks are restored, the tick is resumed twice and
      the count is stepped by 0. Interrupts stay disabled on return, and the
      timer is not touched. */
  lemma NoTimeoutBranch(h: Hw, expectedIdleTime: uint32, flagOnWake: bool)
    ensures var h' := SuppressSpec(h, expectedIdleTime, NoTasksWaitingTimeout, flagOnWake);
      && h'.trace == NoTimeoutCalls(h.trace)
      && !h'.irqEnabled && !h'.tickSuspended
      && h'.timerRunning == h.timerRunning && h'.timerPeriod == h.timerPeriod
      && h'.timerTimeout == h.timerTimeout && h'.tickFlag == h.tickFlag
      && StepCalls(h'.trace) == StepCalls(h.trace) + 1
      && KernelTicks(h'.trace) == KernelTicks(h.trace)
  {
    NoTimeoutCounts(h.trace);
  }

  /** Bounded sleep: STOP1 is entered with interrupts masked, the tick
      suspended, `ucTickFlag` cleared, no stale ARRM flag pending and the timer
      armed for the clamped span, and the kernel count has not moved. */
  lemma EntersStop1Armed(h: Hw, expectedIdleTime: uint32)
    ensures var d := ClampIdleTime(expectedIdleTime);
      var a := ArmForSleep(ConfirmSleep(MaskIrq(h)), d);
      && a.trace == ArmedPrefix(h.trace, d)
      && !a.irqEnabled && a.tickSuspended && !a.tickFlag && !a.arrmPending
      && a.timerRunning && a.timerPeriod == MaxPeriod && a.timerTimeout == d <= MaxPeriod
      && StepCalls(a.trace) == StepCalls(h.trace)
      && KernelTicks(a.trace) == KernelTicks(h.trace)
  {
    PrefixCounts(h.trace, ClampIdleTime(expectedIdleTime));
  }

  /** Bounded sleep, flag set on wake: the whole clamped span is credited and
      the timer keeps the deadline armed before sleeping. */
  lemma FlagSetOnWake(h: Hw, expectedIdleTime: uint32)
    ensures var d := ClampIdleTime(expectedIdleTime);
      var h' := SuppressSpec(h, expectedIdleTime, StandardSleep, true);
      && h'.trace == BoundedCalls(h.trace, d, true)
      && h'.timerRunning && h'.timerTimeout == IdleCounts(d) == d
      && h'.irqEnabled && !h'.tickSuspended && !h'.arrmPending
      && StepCalls(h'.trace) == StepCalls(h.trace) + 1
      && KernelTicks(h'.trace) == KernelTicks(h.trace) + d
  {
    BoundedCounts(h.trace, ClampIdleTime(expectedIdleTime), true);
  }

  /** Bounded sleep, flag clear on wake: the clamped span is still credited in
      full; the timer is re-armed after wake, for one tick period when the
      span was 0 and for the (empty) remainder otherwise. */
  lemma FlagClearOnWake(h: Hw, expectedIdleTime: uint32)
    ensures var d := ClampIdleTime(expectedIdleTime);
      var h' := SuppressSpec(h, expectedIdleTime, StandardSleep, false);
      && h'.trace == BoundedCalls(h.trace, d, false)
      && h'.timerRunning && h'.timerTimeout == RearmCounts(d) == (if d == 0 then 1 else 0)
      && h'.irqEnabled && !h'.tickSuspended && !h'.tickFlag
      && StepCalls(h'.trace) == StepCalls(h.trace) + 1
      && KernelTicks(h'.trace) == KernelTicks(h.trace) + d
  {
    BoundedCounts(h.trace, ClampIdleTime(expectedIdleTime), false);
  }

  /** Bounded sleep, on either wake, the calls start in this order: mask
      interrupts, query the kernel, suspend the tick, stop the timer, clear
      `ucTickFlag`, clear the stale ARRM flag, arm the timer for the idle span,
      enter STOP1, restore the clocks, re-enable interrupts. So the flag is
      cleared strictly before the timer is armed and before STOP1 is entered,
      and STOP1 is entered with the tick suspended and interrupts masked. */
  lemma BoundedOrdering(h: Hw, expectedIdleTime: uint32, flagOnWake: bool)
    ensures IsPrefix(BoundedPrefix(h.trace, ClampIdleTime(expectedIdleTime)),
                     SuppressSpec(h, expectedIdleTime, StandardSleep, flagOnWake).trace)
  {
    BoundedCallsFollowPrefix(h.trace, ClampIdleTime(expectedIdleTime), flagOnWake);
    if flagOnWake {
      FlagSetOnWake(h, expectedIdleTime);
    } else {
      FlagClearOnWake(h, expectedIdleTime);
    }
  }

  /** The value credited to the kernel by one call: the clamped span on the
      bounded path, nothing otherwise. */
  function IdleCredit(expectedIdleTime: uint32, status: SleepModeStatus): (n: uint32)
    ensures n <= expectedIdleTime && n <= MaxPeriod
  {
    if status == StandardSleep then ClampIdleTime(expectedIdleTime) else 0
  }

  /** Every call that does not abort steps the tick count exactly once, as its
      last call, by at most the clamped span (0 when nothing waits on a
      timeout); an aborted call never steps it. In all cases the kernel count
      moves by exactly the credit. */
  lemma StepsOnceAtEnd(h: Hw, expectedIdleTime: uint32, status: SleepModeStatus, flagOnWake: bool)
    ensures var h' := SuppressSpec(h, expectedIdleTime, status, flagOnWake);
      && (status == AbortSleep ==> StepCalls(h'.trace) == StepCalls(h.trace))
      && (status != AbortSleep ==>
            StepCalls(h'.trace) == StepCalls(h.trace) + 1
            && h'.trace.Append? && h'.trace.last == StepTick(IdleCredit(expectedIdleTime, status)))
      && KernelTicks(h'.trace) == KernelTicks(h.trace) + IdleCredit(expectedIdleTime, status)
  {
    match status
    case AbortSleep => AbortBranch(h, expectedIdleTime, flagOnWake);
    case NoTasksWaitingTimeout => NoTimeoutBranch(h, expectedIdleTime, flagOnWake);
    case StandardSleep =>
      if flagOnWake {
        FlagSetOnWake(h, expectedIdleTime);
      } else {
        FlagClearOnWake(h, expectedIdleTime);
      }
  }

  /** Nothing the routines program overflows the 16-bit LPTIM registers. */
  lemma SuppressKeepsRegistersFit(h: Hw, expectedIdleTime: uint32, status: SleepModeStatus, flagOnWake: bool)
    requires RegistersFit(h)
    ensures RegistersFit(SuppressSpec(h, expectedIdleTime, status, flagOnWake))
  {
  }

  // ---------------------------------------------------------------------
  // The tick source outside sleep

  /** Timer setup arms a one-tick timeout with the full 16-bit period. */
  lemma SetupArmsOneTick(h: Hw)
    ensures var h' := SetupSpec(h);
      && h'.trace == h.trace.Then(FreezeLptimInDebug).Then(StartTimer(MaxPeriod, OneTickCounts()))
      && h'.timerRunning && h'.timerPeriod == 0xFFFF && h'.timerTimeout == TicksPerMs * TickIntervalMs
      && h'.tickFlag == h.tickFlag && h'.irqEnabled == h.irqEnabled
      && KernelTicks(h'.trace) == KernelTicks(h.trace)
  {
    AppendOne();
  }

  /** A compare match always asks for the scheduler state. Once the scheduler
      runs, it is also exactly one kernel tick, the timer is re-armed for one
      tick period and `ucTickFlag` is left false; before the scheduler starts
      only the query is recorded. */
  lemma CallbackTicksOnce(h: Hw, scheduler: SchedulerState)
    ensures var h' := CallbackSpec(h, scheduler);
      && (scheduler == NotStarted ==>
            && h' == h.(trace := h.trace.Then(QuerySchedulerState))
            && KernelTicks(h'.trace) == KernelTicks(h.trace)
            && StepCalls(h'.trace) == StepCalls(h.trace))
      && (scheduler != NotStarted ==>
            && h'.trace == h.trace.Then(QuerySchedulerState).Then(TickHandler).Then(StartTimer(MaxPeriod, OneTickCounts())).Then(WriteTickFlag(false))
            && h'.timerRunning && h'.timerTimeout == OneTickCounts()
            && !h'.tickFlag
            && KernelTicks(h'.trace) == KernelTicks(h.trace) + 1
            && StepCalls(h'.trace) == StepCalls(h.trace))
  {
    AppendOne();
  }

  // ---------------------------------------------------------------------
  // Runs: idle cycles interleaved with compare-match interrupts

  /** What can happen to the controller: the kernel calls the suppress
      routine, or the LPTIM1 compare-match interrupt runs the callback. */
  datatype Event =
    | Idle(expectedIdleTime: uint32, status: SleepModeStatus, flagOnWake: bool)
    | CompareMatch(scheduler: SchedulerState)

  function Apply(h: Hw, e: Event): Hw {
    match e
    case Idle(x, status, flag) => SuppressSpec(h, x, status, flag)
    case CompareMatch(scheduler) => CallbackSpec(h, scheduler)
  }

  function Run(h: Hw, es: seq<Event>): Hw
    decreases |es|
  {
    if es == [] then h else Run(Apply(h, es[0]), es[1..])
  }

  /** The ticks an event is meant to account for: the credit of a sleep, one
      per running-scheduler compare match. */
  function EventTicks(e: Event): nat {
    match e
    case Idle(x, status, _) => IdleCredit(x, status)
    case CompareMatch(scheduler) => if scheduler != NotStarted then 1 else 0
  }

  function SumTicks(es: seq<Event>): nat
    decreases |es|
  {
    if es == [] then 0 else EventTicks(es[0]) + SumTicks(es[1..])
  }

  /** Over any run of sleeps and compare matches, the kernel's tick count
      grows by exactly the sum of the sleep credits and the compare-match
      ticks. */
  lemma {:induction false} RunAccountsTicks(h: Hw, es: seq<Event>)
    ensures KernelTicks(Run(h, es).trace) == KernelTicks(h.trace) + SumTicks(es)
    decreases |es|
  {
    if es != [] {
      match es[0] {
        case Idle(x, status, flag) => StepsOnceAtEnd(h, x, status, flag);
        case CompareMatch(scheduler) => CallbackTicksOnce(h, scheduler);
      }
      RunAccountsTicks(Apply(h, es[0]), es[1..]);
    }
  }

  /** Whatever happens, the call history is only appended to: each
      routine leaves the calls made before it in place. */
  lemma EventExtendsTrace(h: Hw, e: Event)
    ensures IsPrefix(h.trace, Apply(h, e).trace)
  {
    match e {
      case Idle(x, status, flag) =>
        var d := ClampIdleTime(x);
        BranchesExtend(h.trace, d, flag);
        match status {
          case AbortSleep => AbortBranch(h, x, flag);
          case NoTasksWaitingTimeout => NoTimeoutBranch(h, x, flag);
          case StandardSleep =>
            if flag {
              FlagSetOnWake(h, x);
            } else {
              FlagClearOnWake(h, x);
            }
        }
      case CompareMatch(scheduler) =>
        CallbackTicksOnce(h, scheduler);
        ExtendOne();
    }
  }

  /** Over any run the call history is only appended to, so (through
      `TicksMonotone`) the ticks credited to the kernel and the
      `vTaskStepTick` calls never go back. The two inequalities also follow
      from `RunAccountsTicks`; the prefix is what this lemma adds. */
  lemma {:induction false} RunExtendsTrace(h: Hw, es: seq<Event>)
    ensures IsPrefix(h.trace, Run(h, es).trace)
    ensures KernelTicks(h.trace) <= KernelTicks(Run(h, es).trace)
    ensures StepCalls(h.trace) <= StepCalls(Run(h, es).trace)
    decreases |es|
  {
    if es != [] {
      var next := Apply(h, es[0]);
      EventExtendsTrace(h, es[0]);
      RunExtendsTrace(next, es[1..]);
      PrefixTransitive(h.trace, next.trace, Run(h, es).trace);
    }
    TicksMonotone(h.trace, Run(h, es).trace);
  }

  /** The registers stay in range over any run. */
  lemma {:induction false} RunKeepsRegistersFit(h: Hw, es: seq<Event>)
    requires RegistersFit(h)
    ensures RegistersFit(Run(h, es))
    decreases |es|
  {
    if es != [] {
      if es[0].Idle? {
        SuppressKeepsRegistersFit(h, es[0].expectedIdleTime, es[0].status, es[0].flagOnWake);
      }
      RunKeepsRegistersFit(Apply(h, es[0]), es[1..]);
    }
  }

  predicate AllAborts(es: seq<Event>) {
    forall i :: 0 <= i < |es| ==> es[i].Idle? && es[i].status == AbortSleep
  }

  /** Back-to-back aborted sleeps leave the one-tick timeout armed, interrupts
      enabled, the tick as it was and the kernel count unchanged. */
  lemma {:induction false} RepeatedAborts(h: Hw, es: seq<Event>)
    requires |es| > 0 && AllAborts(es)
    ensures var h' := Run(h, es);
      && h'.timerRunning && h'.timerTimeout == OneTickCounts() && h'.irqEnabled
      && h'.tickSuspended == h.tickSuspended
      && KernelTicks(h'.trace) == KernelTicks(h.trace)
      && StepCalls(h'.trace) == StepCalls(h.trace)
    decreases |es|
  {
    var e := es[0];
    AbortBranch(h, e.expectedIdleTime, e.flagOnWake);
    if |es| > 1 {
      assert AllAborts(es[1..]) by {
        forall i | 0 <= i < |es[1..]| ensures es[1..][i].Idle? && es[1..][i].status == AbortSleep {
          assert es[1..][i] == es[i + 1];
        }
      }
      RepeatedAborts(Apply(h, e), es[1..]);
    }
  }
}
