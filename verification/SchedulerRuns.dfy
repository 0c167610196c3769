// Runs of the scheduler: what every run keeps, fairness, and each task's share
// of the ticks. A scheduling call is one step; a tick may also arrive while the
// current task holds preemption off.
module SchedulerRuns {
  import opened Limits
  import opened Scheduler

  // HeldTick is a tick that finds preempt_count above 0. Die is `exit_process` before it calls `schedule`.
  datatype Event = Tick | HeldTick | Yield | Die | Fork

  const MAX_PRIORITY: int := 0x4000_0000

  ghost predicate Inv(s: State) {
    && 1 <= |s.tasks| <= NR_TASKS
    && s.current < |s.tasks|
    && s.tasks[0].state == Running
    && (forall i :: 0 <= i < |s.tasks| ==> TaskInv(s, i))
  }

  // A counter stays below twice the priority, and only tasks that are not current hold preemption off.
  ghost predicate TaskInv(s: State, i: int)
    requires 0 <= i < |s.tasks|
  {
    && 1 <= s.tasks[i].priority <= MAX_PRIORITY
    && s.tasks[i].counter <= 2 * s.tasks[i].priority - 1
    && s.tasks[i].preempt == if i == s.current then 0 else 1
  }

  // The state the kernel boots with: INIT_TASK alone.
  function Boot(): State {
    State([Task(Running, 0, 15, 0)], 0)
  }

  lemma BootInv()
    ensures Inv(Boot())
  {
  }

  // Counters that satisfy the invariant survive the assignment to `int c` unchanged.
  lemma NeverTruncates(s: State, i: int)
    requires Inv(s) && 0 <= i < |s.tasks| && s.tasks[i].counter > -1
    ensures ToInt(s.tasks[i].counter) == s.tasks[i].counter
  {
    assert TaskInv(s, i);
  }

  // The assignment to `int c` takes the one int that equals the counter up to multiples of 2^32.
  lemma ToIntWraps(x: int)
    ensures -0x8000_0000 <= ToInt(x) < 0x8000_0000 && (ToInt(x) - x) % 0x1_0000_0000 == 0
  {
  }

  lemma InvIsValid(s: State)
    requires Inv(s)
    ensures Valid(s)
  {
    forall i | 0 <= i < |s.tasks|
      ensures 1 <= s.tasks[i].priority <= INT_MAX && s.tasks[i].counter <= INT_MAX
    {
      assert TaskInv(s, i);
    }
  }

  // ----- One scheduling decision -----

  // The largest runnable counter is 0: `_schedule` is going to refill.
  ghost predicate Refills(s: State) {
    !AllNegative(s.tasks) && !SomePositive(s.tasks)
  }

  function AfterRefill(t: Task, refill: bool): int {
    if refill then t.counter / 2 + t.priority else t.counter
  }

  // `t` is `s` after one `_schedule`, seen from slot `i`.
  ghost predicate SlotAfter(s: State, t: State, refill: bool, i: int)
    requires 0 <= i < |s.tasks| == |t.tasks|
  {
    && t.tasks[i].state == s.tasks[i].state
    && t.tasks[i].priority == s.tasks[i].priority
    && t.tasks[i].counter == AfterRefill(s.tasks[i], refill)
    && t.tasks[i].preempt == s.tasks[i].preempt + (if i == s.current then 1 else 0) - (if i == t.current then 1 else 0)
  }

  ghost predicate Decides(s: State, t: State) {
    && |t.tasks| == |s.tasks| && t.current < |t.tasks|
    && (forall i :: 0 <= i < |s.tasks| ==> SlotAfter(s, t, Refills(s), i))
    && (AllNegative(s.tasks) ==> t.current == 0)
    && (!AllNegative(s.tasks) ==> Selects(t.tasks, Current(t).counter, t.current) && Current(t).counter > 0)
  }

  lemma ScheduleDecides(s: State)
    requires Valid(s)
    ensures Decides(s, ScheduleCore(s))
  {
    PreemptKeepsReady(s);
    var d := PreemptDisable(s).tasks;
    SettleSelects(d);
    var r := Settle(d);
    var t := ScheduleCore(s);
    assert forall i :: Runnable(d, i) <==> Runnable(s.tasks, i);
    assert AllNegative(d) == AllNegative(s.tasks);
    assert SomePositive(d) == SomePositive(s.tasks) by {
      if SomePositive(d) {
        var i :| Runnable(d, i) && d[i].counter > 0;
        assert Runnable(s.tasks, i);
      }
      if SomePositive(s.tasks) {
        var i :| Runnable(s.tasks, i) && s.tasks[i].counter > 0;
        assert Runnable(d, i);
      }
    }
    assert forall i :: 0 <= i < |s.tasks| ==> SlotAfter(s, t, Refills(s), i);
    assert forall i :: Runnable(t.tasks, i) <==> Runnable(r.0, i);
  }

  lemma ScheduleKeeps(s: State)
    requires Inv(s)
    ensures Valid(s) && Inv(ScheduleCore(s))
  {
    InvIsValid(s);
    ScheduleDecides(s);
    var t := ScheduleCore(s);
    hide ScheduleCore, Valid;
    forall i | 0 <= i < |t.tasks|
      ensures TaskInv(t, i)
    {
      assert TaskInv(s, i) && SlotAfter(s, t, Refills(s), i);
    }
    assert SlotAfter(s, t, Refills(s), 0);
  }

  lemma WithCounterKeeps(s: State, c: int)
    requires Inv(s) && (c <= Current(s).counter || c == 0)
    ensures Inv(WithCounter(s, c))
  {
    forall i | 0 <= i < |s.tasks|
      ensures TaskInv(WithCounter(s, c), i)
    {
      assert TaskInv(s, i);
    }
  }

  // ----- Runs -----

  predicate Enabled(s: State, e: Event) {
    match e
    case Die => s.current != 0
    case Fork => |s.tasks| < NR_TASKS
    case _ => true
  }

  function Tick1(s: State): (r: State)
    requires Inv(s)
    ensures Inv(r)
  {
    InvIsValid(s);
    assert TaskInv(s, s.current);
    WithCounterKeeps(s, 0);
    WithCounterKeeps(s, Current(s).counter - 1);
    ScheduleKeeps(WithCounter(s, 0));
    TimerTick(s)
  }

  // A tick while the current task has preemption off, between its `preempt_disable` and `preempt_enable`.
  function Tick2(s: State): (r: State)
    requires Inv(s)
    ensures r == WithCounter(s, Current(s).counter - 1)
  {
    InvIsValid(s);
    PreemptKeepsReady(s);
    assert TaskInv(s, s.current);
    PreemptEnable(TimerTick(PreemptDisable(s)))
  }

  function Step(s: State, e: Event): (r: State)
    requires Inv(s) && Enabled(s, e)
    ensures Inv(r)
  {
    InvIsValid(s);
    match e
    case Tick => Tick1(s)
    case HeldTick => WithCounterKeeps(s, Current(s).counter - 1); Tick2(s)
    case Yield => WithCounterKeeps(s, 0); ScheduleKeeps(WithCounter(s, 0)); Schedule(s)
    case Die => DieKeeps(s); MarkZombie(s)
    case Fork => ForkKeeps(s); AddChild(s)
  }

  lemma DieKeeps(s: State)
    requires Inv(s) && s.current != 0
    ensures Inv(MarkZombie(s))
  {
    forall i | 0 <= i < |s.tasks|
      ensures TaskInv(MarkZombie(s), i)
    {
      assert TaskInv(s, i);
    }
  }

  lemma ForkKeeps(s: State)
    requires Inv(s) && |s.tasks| < NR_TASKS
    ensures Inv(AddChild(s))
  {
    assert TaskInv(s, s.current);
    forall i | 0 <= i < |s.tasks|
      ensures TaskInv(AddChild(s), i)
    {
      assert TaskInv(s, i);
    }
  }

  predicate Legal(s: State, es: seq<Event>)
    requires Inv(s)
    decreases |es|
  {
    es == [] || (Enabled(s, es[0]) && Legal(Step(s, es[0]), es[1..]))
  }

  function After(s: State, es: seq<Event>): (r: State)
    requires Inv(s) && Legal(s, es)
    ensures Inv(r)
    decreases |es|
  {
    if es == [] then s else After(Step(s, es[0]), es[1..])
  }
}
