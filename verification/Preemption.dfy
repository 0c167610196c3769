// The preemption protocol, with ticks allowed between any two steps of the
// kernel. Each task has a stack of the kernel activities it is in; the last one
// is where it continues. `cpu` is the task on whose stack the processor works;
// the variable `current` runs ahead of it inside `switch_to`.
module Preemption {
  import opened Limits
  import opened Scheduler
  import SchedulerRuns

  // Where a task stands: its own code; `_schedule` before `preempt_disable`, in
  // the scan, in the refill, about to call `switch_to` with the task found, inside
  // it after `current = next`, and after `switch_to`; `ret_from_fork` before
  // `schedule_tail`; `copy_process` before and after it has added the child;
  // `exit_process` before and after it has marked the zombie, and after its
  // `preempt_enable`.
  datatype Frame =
    | Own
    | Enter
    | Scanning(i: nat, c: int, next: nat)
    | Refilling(i: nat)
    | Switching(c: int, next: nat)
    | Crossing
    | Resuming
    | NewTask
    | Forking(added: bool)
    | Exiting(marked: bool)
    | Exited

  datatype Machine = Machine(s: State, stacks: seq<seq<Frame>>, cpu: nat)

  // Every activity holds preemption off once, or not at all.
  predicate Holds(f: Frame) {
    match f
    case Own | Enter | Exited => false
    case _ => true
  }

  function Top(m: Machine, i: nat): Frame
    requires i < |m.stacks| && m.stacks[i] != []
  {
    m.stacks[i][|m.stacks[i]| - 1]
  }

  ghost predicate Shaped(m: Machine) {
    && |m.stacks| == |m.s.tasks|
    && m.s.current < |m.s.tasks| <= NR_TASKS && m.cpu < |m.s.tasks|
    && (forall i :: 0 <= i < |m.stacks| ==> m.stacks[i] != [])
  }

  function Put(m: Machine, stack: seq<Frame>): Machine
    requires m.cpu < |m.stacks|
  {
    m.(stacks := m.stacks[m.cpu := stack])
  }

  function Stack(m: Machine): seq<Frame>
    requires m.cpu < |m.stacks|
  {
    m.stacks[m.cpu]
  }

  function Push(m: Machine, f: Frame): Machine
    requires m.cpu < |m.stacks|
  {
    Put(m, Stack(m) + [f])
  }

  function Pop(m: Machine): Machine
    requires m.cpu < |m.stacks| && Stack(m) != []
  {
    Put(m, Stack(m)[..|Stack(m)| - 1])
  }

  function Become(m: Machine, f: Frame): Machine
    requires m.cpu < |m.stacks| && Stack(m) != []
  {
    Put(m, Stack(m)[|Stack(m)| - 1 := f])
  }

  // ----- Steps -----

  // Call is what a task may do in its own code; Run lets the current activity take its next step.
  datatype Event = Tick | CallSchedule | CallFork | CallExit | Run

  ghost predicate Enabled(m: Machine, e: Event)
    requires Shaped(m)
  {
    var f := Top(m, m.cpu);
    match e
    case Tick => true
    case CallSchedule => f == Own
    case CallFork => f == Own && |m.s.tasks| < NR_TASKS
    case CallExit => f == Own && m.cpu != 0
    case Run => f != Own
  }

  // `timer_tick`, which runs with interrupts off until it calls `_schedule`.
  function TickStep(m: Machine): Machine
    requires Shaped(m)
  {
    var c := Current(m.s).counter - 1;
    if c > 0 || Current(m.s).preempt > 0 then m.(s := WithCounter(m.s, c))
    else Push(m.(s := WithCounter(m.s, 0)), Enter)
  }

  function ScanStep(m: Machine, i: nat, c: int, next: nat): Machine
    requires Shaped(m)
  {
    var ts := m.s.tasks;
    if i < |ts| then
      if ts[i].state == Running && ts[i].counter > c then Become(m, Scanning(i + 1, ToInt(ts[i].counter), i))
      else Become(m, Scanning(i + 1, c, next))
    else if c != 0 then Become(m, Switching(c, next))
    else Become(m, Refilling(0))
  }

  function RefillStep(m: Machine, i: nat): Machine
    requires Shaped(m)
  {
    var ts := m.s.tasks;
    if i < |ts| then
      var t := ts[i].(counter := ts[i].counter / 2 + ts[i].priority);
      Become(m.(s := m.s.(tasks := ts[i := t])), Refilling(i + 1))
    else Become(m, Scanning(0, -1, 0))
  }

  function RunStep(m: Machine): Machine
    requires Shaped(m) && Enabled(m, Run)
  {
    match Top(m, m.cpu)
    case Own => m
    case Enter => Become(m.(s := PreemptDisable(m.s)), Scanning(0, -1, 0))
    case Scanning(i, c, next) => ScanStep(m, i, c, next)
    case Refilling(i) => RefillStep(m, i)
    case Switching(_, next) =>
      if next == m.s.current then Become(m, Resuming)
      else Become(m.(s := m.s.(current := next)), Crossing)
    case Crossing => Become(m, Resuming).(cpu := m.s.current)
    case Resuming => Pop(m.(s := PreemptEnable(m.s)))
    case NewTask => Pop(m.(s := PreemptEnable(m.s)))
    case Forking(added) =>
      if !added then
        var child := m.(s := AddChild(m.s), stacks := m.stacks + [[Own, NewTask]]);
        Become(child, Forking(true))
      else Pop(m.(s := PreemptEnable(m.s)))
    case Exiting(marked) =>
      if !marked then Become(m.(s := MarkZombie(m.s)), Exiting(true))
      else Become(m.(s := PreemptEnable(m.s)), Exited)
    case Exited => Become(m.(s := WithCounter(m.s, 0)), Enter)
  }

  function Step(m: Machine, e: Event): Machine
    requires Shaped(m) && Enabled(m, e)
  {
    match e
    case Tick => TickStep(m)
    case CallSchedule => Push(m.(s := WithCounter(m.s, 0)), Enter)
    case CallFork => Push(m.(s := PreemptDisable(m.s)), Forking(false))
    case CallExit => Push(m.(s := PreemptDisable(m.s)), Exiting(false))
    case Run => RunStep(m)
  }

  // ----- The invariant -----

  // Only the last activity can hold preemption off, and preempt_count says whether it does.
  ghost predicate Nested(m: Machine, i: nat)
    requires Shaped(m) && i < |m.stacks|
  {
    && m.stacks[i][0] == Own
    && (forall k :: 0 <= k < |m.stacks[i]| - 1 ==> !Holds(m.stacks[i][k]))
    && m.s.tasks[i].preempt == (if Holds(Top(m, i)) then 1 else 0)
  }

  // A task the processor is not on was switched out inside `_schedule`, or is new.
  ghost predicate Parked(m: Machine, i: nat)
    requires Shaped(m) && i < |m.stacks|
  {
    i != m.cpu ==> Top(m, i) == Resuming || Top(m, i) == NewTask
  }

  ghost predicate Sound(m: Machine, i: nat)
    requires Shaped(m) && i < |m.s.tasks|
  {
    1 <= m.s.tasks[i].priority <= SchedulerRuns.MAX_PRIORITY && m.s.tasks[i].counter <= 2 * m.s.tasks[i].priority - 1
  }

  // What a scan has found in the slots below `i`. The current task's own counter
  // may have been ticked down since the scan read it; nothing else moves.
  ghost predicate Found(s: State, i: nat, c: int, next: nat) {
    var ts, cur := s.tasks, s.current;
    && c >= -1 && i <= |ts| && next < |ts|
    && (forall k :: 0 <= k < i && k != cur && ts[k].state == Running ==> ts[k].counter <= c)
    && (c == -1 ==> next == 0)
    && (c >= 0 ==> next < i && ts[next].state == Running && ts[next].counter <= c)
    && (c >= 0 && next != cur ==> ts[next].counter == c)
    && (forall k :: 0 <= k < i && k != cur && ts[k].state == Running && ts[k].counter == c && c >= 0 ==> next <= k)
  }

  ghost predicate ScanSound(m: Machine)
    requires Shaped(m)
  {
    match Top(m, m.cpu)
    case Scanning(i, c, next) => Found(m.s, i, c, next)
    case Switching(c, next) => c != 0 && Found(m.s, |m.s.tasks|, c, next)
    case _ => true
  }

  ghost predicate Inv(m: Machine) {
    && Shaped(m)
    && m.s.tasks[0].state == Running
    && (forall i :: 0 <= i < |m.stacks| ==> Nested(m, i) && Parked(m, i) && Sound(m, i))
    && ScanSound(m)
    && (m.s.current != m.cpu <==> Top(m, m.cpu) == Crossing)
    && (Top(m, m.cpu).Exiting? ==> m.cpu != 0)
    && (Top(m, m.cpu) == Forking(false) ==> |m.s.tasks| < NR_TASKS)
  }

  // The machine when the kernel has booted: init runs its own code.
  function Start(): Machine {
    Machine(SchedulerRuns.Boot(), [[Own]], 0)
  }

  lemma StartInv()
    ensures Inv(Start())
  {
  }

  // Only the fields and the stack of the task the processor is on differ.
  ghost predicate Local(m: Machine, n: Machine) {
    && Shaped(m) && Shaped(n) && |n.stacks| == |m.stacks|
    && n.s.current == m.s.current == m.cpu == n.cpu
    && (forall i :: 0 <= i < |m.stacks| && i != m.cpu ==>
          n.stacks[i] == m.stacks[i] && n.s.tasks[i] == m.s.tasks[i])
  }

  lemma LocalKeepsOthers(m: Machine, n: Machine)
    requires Inv(m) && Local(m, n) && Top(n, n.cpu) != Crossing
    requires Nested(n, n.cpu) && Sound(n, n.cpu) && ScanSound(n)
    requires m.cpu == 0 ==> n.s.tasks[0].state == Running
    requires Top(n, n.cpu).Exiting? ==> n.cpu != 0
    requires Top(n, n.cpu) == Forking(false) ==> |n.s.tasks| < NR_TASKS
    ensures Inv(n)
  {
    forall i | 0 <= i < |m.stacks|
      ensures Nested(n, i) && Parked(n, i) && Sound(n, i)
    {
      assert Nested(m, i) && Parked(m, i) && Sound(m, i);
    }
  }

  lemma FoundSurvivesTick(s: State, i: nat, c: int, next: nat)
    requires s.current < |s.tasks| && Found(s, i, c, next)
    ensures Found(WithCounter(s, Current(s).counter - 1), i, c, next)
  {
  }

  // Ticks do not spoil a scan: they only lower the counter of the task that scans.
  lemma TickKeeps(m: Machine)
    requires Inv(m) && m.s.current == m.cpu
    ensures Inv(TickStep(m))
  {
    var n, cur := TickStep(m), m.cpu;
    assert Nested(m, cur) && Sound(m, cur);
    if n.stacks == m.stacks {
      TickedScanSound(m);
      hide ScanSound;
      assert Local(m, n) && Nested(n, cur);
      LocalKeepsOthers(m, n);
    } else {
      hide Found;
      assert Top(n, cur) == Enter && n.stacks[cur][..|n.stacks[cur]| - 1] == m.stacks[cur];
      LocalKeepsOthers(m, n);
    }
  }

  lemma TickedScanSound(m: Machine)
    requires Shaped(m) && m.s.current == m.cpu && ScanSound(m)
    ensures ScanSound(m.(s := WithCounter(m.s, Current(m.s).counter - 1)))
  {
    match Top(m, m.cpu) {
      case Scanning(i, c, next) => FoundSurvivesTick(m.s, i, c, next);
      case Switching(c, next) => FoundSurvivesTick(m.s, |m.s.tasks|, c, next);
      case _ =>
    }
  }

  // Between `current = next` and the switch of stacks a tick is charged to the new current task,
  // which still holds preemption off.
  lemma CrossingTick(m: Machine)
    requires Inv(m) && m.s.current != m.cpu
    ensures TickStep(m) == m.(s := WithCounter(m.s, Current(m.s).counter - 1)) && Inv(TickStep(m))
  {
    var n := TickStep(m);
    assert Nested(m, m.s.current) && Parked(m, m.s.current);
    forall i | 0 <= i < |m.stacks|
      ensures Nested(n, i) && Parked(n, i) && Sound(n, i)
    {
      assert Nested(m, i) && Parked(m, i) && Sound(m, i);
    }
  }

  lemma CallKeeps(m: Machine, e: Event)
    requires Inv(m) && Enabled(m, e) && (e == CallSchedule || e == CallFork || e == CallExit)
    ensures Inv(Step(m, e))
  {
    var n, i := Step(m, e), m.cpu;
    assert Nested(m, i) && Sound(m, i);
    LocalKeepsOthers(m, n);
  }

  // Steps of the current activity that stay within the current task.
  lemma LocalRunKeeps(m: Machine)
    requires Inv(m) && Enabled(m, Run)
    requires !Top(m, m.cpu).Scanning? && !Top(m, m.cpu).Refilling? && !Top(m, m.cpu).Switching?
    requires Top(m, m.cpu) != Forking(false) && Top(m, m.cpu) != Crossing
    ensures Inv(RunStep(m))
  {
    var n, i := RunStep(m), m.cpu;
    assert Nested(m, i) && Sound(m, i);
    LocalKeepsOthers(m, n);
  }

  lemma FoundGrows(m: Machine, i: nat, c: int, next: nat)
    requires Inv(m) && i < |m.s.tasks| && Found(m.s, i, c, next)
    ensures var t := m.s.tasks[i];
            if t.state == Running && t.counter > c then Found(m.s, i + 1, ToInt(t.counter), i)
            else Found(m.s, i + 1, c, next)
  {
    assert Sound(m, i);
    assert m.s.tasks[i].counter > c ==> ToInt(m.s.tasks[i].counter) == m.s.tasks[i].counter;
  }

  lemma ScanKeeps(m: Machine, i: nat, c: int, next: nat)
    requires Inv(m) && Top(m, m.cpu) == Scanning(i, c, next)
    ensures Inv(RunStep(m))
  {
    var n, cur := RunStep(m), m.cpu;
    assert Nested(m, cur) && Sound(m, cur) && Found(m.s, i, c, next);
    if i < |m.s.tasks| {
      FoundGrows(m, i, c, next);
    }
    assert i <= |m.s.tasks|;
    hide Found, ToInt;
    LocalKeepsOthers(m, n);
  }

  lemma RefillKeeps(m: Machine, i: nat)
    requires Inv(m) && Top(m, m.cpu) == Refilling(i)
    ensures Inv(RunStep(m))
  {
    var n, cur := RunStep(m), m.cpu;
    assert Top(n, cur) == (if i < |m.s.tasks| then Refilling(i + 1) else Scanning(0, -1, 0));
    forall k | 0 <= k < |m.stacks|
      ensures Nested(n, k) && Parked(n, k) && Sound(n, k)
    {
      assert Nested(m, k) && Parked(m, k) && Sound(m, k);
    }
    assert n.s.tasks[0].state == m.s.tasks[0].state;
  }

  // The two halves of `switch_to`.
  lemma SwitchKeeps(m: Machine)
    requires Inv(m) && (Top(m, m.cpu).Switching? || Top(m, m.cpu) == Crossing)
    ensures Inv(RunStep(m))
  {
    var n := RunStep(m);
    assert Top(n, m.cpu) == if Top(m, m.cpu).Switching? && n.s.current != m.cpu then Crossing else Resuming;
    forall k | 0 <= k < |m.stacks|
      ensures Nested(n, k) && Parked(n, k) && Sound(n, k)
    {
      assert Nested(m, k) && Parked(m, k) && Sound(m, k);
    }
    if Top(m, m.cpu) == Crossing {
      assert Parked(m, m.s.current);
    }
  }

  lemma ForkKeeps(m: Machine)
    requires Inv(m) && Top(m, m.cpu) == Forking(false)
    ensures Inv(RunStep(m))
  {
    var n, cur := RunStep(m), m.cpu;
    assert Top(n, cur) == Forking(true);
    assert Sound(m, cur);
    forall k | 0 <= k < |n.stacks|
      ensures Nested(n, k) && Parked(n, k) && Sound(n, k)
    {
      if k < |m.stacks| {
        assert Nested(m, k) && Parked(m, k) && Sound(m, k);
      }
    }
  }

  lemma StepKeeps(m: Machine, e: Event)
    requires Inv(m) && Enabled(m, e)
    ensures Inv(Step(m, e))
  {
    hide TickStep, RunStep, Nested, Parked, Sound, ScanSound;
    match e {
      case Tick => if m.s.current == m.cpu { TickKeeps(m); } else { CrossingTick(m); }
      case Run =>
        match Top(m, m.cpu) {
          case Scanning(i, c, next) => ScanKeeps(m, i, c, next);
          case Refilling(i) => RefillKeeps(m, i);
          case Switching(_, _) => SwitchKeeps(m);
          case Crossing => SwitchKeeps(m);
          case Forking(added) => if !added { ForkKeeps(m); } else { LocalRunKeeps(m); }
          case _ => LocalRunKeeps(m);
        }
      case _ => CallKeeps(m, e);
    }
  }

  // ----- Runs -----

  ghost predicate Legal(m: Machine, es: seq<Event>)
    decreases |es|
  {
    es == [] || (Shaped(m) && Enabled(m, es[0]) && Legal(Step(m, es[0]), es[1..]))
  }

  ghost function After(m: Machine, es: seq<Event>): Machine
    requires Legal(m, es)
    decreases |es|
  {
    if es == [] then m else After(Step(m, es[0]), es[1..])
  }

  lemma {:induction false} RunKeeps(m: Machine, es: seq<Event>)
    requires Inv(m) && Legal(m, es)
    ensures Inv(After(m, es))
    decreases |es|
  {
    if es == [] {
    } else {
      StepKeeps(m, es[0]);
      RunKeeps(Step(m, es[0]), es[1..]);
    }
  }

  // In every run, however the ticks fall: a task the processor is not on has
  // preempt_count exactly 1 and takes it back itself, in `_schedule` if it was
  // switched out there or in `schedule_tail` if it is new; the task it is on has
  // 1 exactly while it is inside such a section, and 0 otherwise. `current` is
  // that task, except between the two halves of `switch_to`.
  lemma PreemptCountNests(es: seq<Event>, i: nat)
    requires Legal(Start(), es) && i < |After(Start(), es).s.tasks|
    ensures var m := After(Start(), es);
            && Shaped(m)
            && (i != m.cpu ==> m.s.tasks[i].preempt == 1 && (Top(m, i) == Resuming || Top(m, i) == NewTask))
            && (i == m.cpu ==> m.s.tasks[i].preempt == if Holds(Top(m, i)) then 1 else 0)
            && (m.s.current != m.cpu <==> Top(m, m.cpu) == Crossing)
  {
    StartInv();
    RunKeeps(Start(), es);
    var m := After(Start(), es);
    assert Nested(m, i) && Parked(m, i);
  }

  // The scheduler's own sections.
  predicate InSchedule(f: Frame) {
    f.Scanning? || f.Refilling? || f.Switching? || f == Crossing
  }

  // `current` and the stack change only in `switch_to`, in this order. While a task is scanning,
  // refilling or switching, a tick takes 1 off the counter of `current` and does
  // nothing else, and no other task is inside a scan, refill or switch.
  lemma NoSwitchInsideScan(m: Machine, e: Event, i: nat)
    requires Inv(m) && Enabled(m, e) && i < |m.stacks|
    ensures Step(m, e).s.current != m.s.current ==> e == Run && Top(m, m.cpu).Switching?
    ensures Step(m, e).cpu != m.cpu ==> e == Run && Top(m, m.cpu) == Crossing && Step(m, e).cpu == m.s.current
    ensures InSchedule(Top(m, m.cpu)) ==>
              && Step(m, Tick) == m.(s := WithCounter(m.s, Current(m.s).counter - 1))
              && (i != m.cpu ==> Top(m, i) == Resuming || Top(m, i) == NewTask)
  {
    assert Nested(m, m.cpu) && Parked(m, i);
    if m.s.current != m.cpu {
      CrossingTick(m);
    }
  }

  // The choice that reaches `switch_to` is right although ticks came between the
  // reads: every other runnable task has at most the counter `c`; the task chosen
  // is runnable and, unless it is the current one, has exactly that counter and
  // the lowest number of those that have it; task 0 is the choice when all the
  // others are negative.
  lemma ChoiceSurvivesTicks(es: seq<Event>, c: int, next: nat, k: nat)
    requires Legal(Start(), es) && Shaped(After(Start(), es))
    requires var m := After(Start(), es); Top(m, m.cpu) == Switching(c, next) && Runnable(m.s.tasks, k)
    ensures var m := After(Start(), es);
            && m.s.current == m.cpu && Runnable(m.s.tasks, next)
            && (c == -1 || c > 0)
            && (c == -1 ==> next == 0)
            && (k != m.cpu ==> m.s.tasks[k].counter <= c)
            && (c > 0 && next != m.cpu ==> m.s.tasks[next].counter == c)
            && (c > 0 && k != m.cpu && m.s.tasks[k].counter == c ==> next <= k)
  {
    StartInv();
    RunKeeps(Start(), es);
  }

  // Also with ticks anywhere: an exited task that has been switched away from never runs again.
  ghost predicate Gone(m: Machine, j: nat) {
    j < |m.s.tasks| && m.s.tasks[j].state == Zombie && j != m.s.current && j != m.cpu
  }

  lemma GoneStep(m: Machine, e: Event, j: nat)
    requires Inv(m) && Enabled(m, e) && Gone(m, j)
    ensures Gone(Step(m, e), j)
  {
  }

  lemma {:induction false} ZombieNeverRuns(m: Machine, es: seq<Event>, j: nat)
    requires Inv(m) && Legal(m, es) && Gone(m, j)
    ensures Gone(After(m, es), j)
    decreases |es|
  {
    if es == [] {
    } else {
      StepKeeps(m, es[0]);
      GoneStep(m, es[0], j);
      ZombieNeverRuns(Step(m, es[0]), es[1..], j);
    }
  }
}
