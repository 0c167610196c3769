// The step machine of Preemption refines the machine of SchedulerRuns: a run in which no tick hits
// `_schedule` before its choice is made is a run of the latter, with each scheduling call as one event.
module AtomicRuns {
  import opened Scheduler
  import opened Preemption
  import opened AtomicSchedule
  import SchedulerRuns
  import Fairness

  // ----- The abstract state -----

  // What a scan has found so far leads to the same result as a scan from the start.
  ghost predicate OnCourse(m: Machine)
    requires Shaped(m)
  {
    var ts := m.s.tasks;
    match Top(m, m.cpu)
    case Scanning(i, c, next) => i <= |ts| && Scan(ts, i, c, next) == FullScan(ts)
    case Switching(c, next) => c != 0 && FullScan(ts) == (c, next)
    case Refilling(i) => i <= |ts| && Ready(RefillFrom(ts, i))
    case _ => true
  }

  // No call of `_schedule` is pending below the last activity of a stack.
  ghost predicate NonePending(m: Machine) {
    forall i, k :: 0 <= i < |m.stacks| && 0 <= k < |m.stacks[i]| - 1 ==> m.stacks[i][k] != Enter
  }

  ghost predicate Calm(m: Machine) {
    Inv(m) && NonePending(m) && OnCourse(m)
  }

  // The tasks and the task selected when the loop of `_schedule` has been left, with its preempt_enable.
  function Settled(ts: seq<Task>): State
    requires Ready(ts)
  {
    var r := Settle(ts);
    PreemptEnable(State(r.0, r.1))
  }

  lemma ReadyOf(m: Machine)
    requires Inv(m)
    ensures Scheduler.Valid(m.s) && Ready(m.s.tasks)
  {
    InvIsReady(m);
  }

  // The state in which the activity of the processor ends if no tick comes.
  ghost function Abstract(m: Machine): State
    requires Calm(m)
  {
    ReadyOf(m);
    match Top(m, m.cpu)
    case Own => m.s
    case Exited => m.s
    case Enter => ScheduleCore(m.s)
    case Scanning(_, _, _) => Settled(m.s.tasks)
    case Switching(_, _) => Settled(m.s.tasks)
    case Refilling(i) => Settled(RefillFrom(m.s.tasks, i))
    case _ => PreemptEnable(m.s)
  }

  // `_schedule` between its call and `current = next`.
  predicate Deciding(f: Frame) {
    f == Enter || f.Scanning? || f.Refilling? || f.Switching?
  }

  ghost predicate TickInside(m: Machine, e: Event)
    requires Shaped(m)
  {
    e == Tick && Deciding(Top(m, m.cpu))
  }

  // What a step is on the abstract machine; most steps are nothing.
  ghost function Emits(m: Machine, e: Event): seq<SchedulerRuns.Event>
    requires Shaped(m)
  {
    var f := Top(m, m.cpu);
    match e
    case Tick => if f == Own || f == Exited then [SchedulerRuns.Tick] else [SchedulerRuns.HeldTick]
    case CallSchedule => [SchedulerRuns.Yield]
    case CallFork => []
    case CallExit => []
    case Run =>
      if f == Forking(false) then [SchedulerRuns.Fork]
      else if f == Exiting(false) then [SchedulerRuns.Die]
      else if f == Exited then [SchedulerRuns.Yield]
      else []
  }

  // The abstract machine takes at most one step, from s to t.
  ghost predicate Takes(s: State, fs: seq<SchedulerRuns.Event>, t: State) {
    SchedulerRuns.Inv(s) &&
    if fs == [] then s == t else |fs| == 1 && SchedulerRuns.Enabled(s, fs[0]) && SchedulerRuns.Step(s, fs[0]) == t
  }

  // ----- One step -----

  lemma PendingAfter(m: Machine, e: Event)
    requires Inv(m) && NonePending(m) && Enabled(m, e) && !TickInside(m, e)
    ensures NonePending(Step(m, e))
  {
  }

  lemma TickProjects(m: Machine)
    requires Calm(m) && SchedulerRuns.Inv(Abstract(m)) && !TickInside(m, Tick)
    ensures Calm(TickStep(m)) && Takes(Abstract(m), Emits(m, Tick), Abstract(TickStep(m)))
  {
    StepKeeps(m, Tick);
    PendingAfter(m, Tick);
    ReadyOf(m);
    assert Nested(m, m.cpu) && Nested(m, m.s.current) && Parked(m, m.s.current);
  }

  lemma CallProjects(m: Machine, e: Event)
    requires Calm(m) && SchedulerRuns.Inv(Abstract(m)) && Enabled(m, e)
    requires e == CallSchedule || e == CallFork || e == CallExit
    ensures Calm(Step(m, e)) && Takes(Abstract(m), Emits(m, e), Abstract(Step(m, e)))
  {
    StepKeeps(m, e);
    PendingAfter(m, e);
    ReadyOf(m);
  }

  lemma EnterProjects(m: Machine)
    requires Calm(m) && Top(m, m.cpu) == Enter
    ensures Calm(RunStep(m)) && Abstract(RunStep(m)) == Abstract(m)
  {
    StepKeeps(m, Run);
    PendingAfter(m, Run);
    ReadyOf(m);
  }

  lemma ScanProjects(m: Machine)
    requires Calm(m) && Top(m, m.cpu).Scanning?
    ensures Calm(RunStep(m)) && Abstract(RunStep(m)) == Abstract(m)
  {
    StepKeeps(m, Run);
    PendingAfter(m, Run);
    ReadyOf(m);
    var ts, f := m.s.tasks, Top(m, m.cpu);
    if f.i == |ts| && f.c == 0 {
      RefillEndsLoop(ts);
      RefillFromZero(ts);
    }
  }

  lemma RefillProjects(m: Machine)
    requires Calm(m) && Top(m, m.cpu).Refilling?
    ensures Calm(RunStep(m)) && Abstract(RunStep(m)) == Abstract(m)
  {
    StepKeeps(m, Run);
    PendingAfter(m, Run);
  }

  lemma SwitchProjects(m: Machine)
    requires Calm(m) && (Top(m, m.cpu).Switching? || Top(m, m.cpu) == Crossing)
    ensures Calm(RunStep(m)) && Abstract(RunStep(m)) == Abstract(m)
  {
    StepKeeps(m, Run);
    PendingAfter(m, Run);
    ReadyOf(m);
    assert Parked(m, m.s.current);
  }

  // The end of `_schedule`, `schedule_tail` or `copy_process`.
  lemma ReturnProjects(m: Machine)
    requires Calm(m) && (Top(m, m.cpu) == Resuming || Top(m, m.cpu) == NewTask || Top(m, m.cpu) == Forking(true))
    ensures Calm(RunStep(m)) && Abstract(RunStep(m)) == Abstract(m) && Emits(m, Run) == []
  {
    StepKeeps(m, Run);
    PendingAfter(m, Run);
    ReadyOf(m);
    assert Nested(m, m.cpu);
    assert Top(RunStep(m), m.cpu) == Stack(m)[|Stack(m)| - 2];
  }

  lemma ForkProjects(m: Machine)
    requires Calm(m) && SchedulerRuns.Inv(Abstract(m)) && Top(m, m.cpu) == Forking(false)
    ensures Calm(RunStep(m)) && Takes(Abstract(m), Emits(m, Run), Abstract(RunStep(m)))
  {
    StepKeeps(m, Run);
    PendingAfter(m, Run);
    ReadyOf(m);
  }

  lemma ExitProjects(m: Machine)
    requires Calm(m) && SchedulerRuns.Inv(Abstract(m)) && (Top(m, m.cpu).Exiting? || Top(m, m.cpu) == Exited)
    ensures Calm(RunStep(m)) && Takes(Abstract(m), Emits(m, Run), Abstract(RunStep(m)))
  {
    StepKeeps(m, Run);
    PendingAfter(m, Run);
    ReadyOf(m);
  }

  lemma StepProjects(m: Machine, e: Event)
    requires Calm(m) && SchedulerRuns.Inv(Abstract(m)) && Enabled(m, e) && !TickInside(m, e)
    ensures Calm(Step(m, e)) && Takes(Abstract(m), Emits(m, e), Abstract(Step(m, e)))
  {
    assert Shaped(m);
    hide Calm, Abstract, RunStep, TickStep, SchedulerRuns.Inv;
    match e {
      case Tick => TickProjects(m);
      case Run =>
        match Top(m, m.cpu) {
          case Enter => EnterProjects(m);
          case Scanning(_, _, _) => ScanProjects(m);
          case Refilling(_) => RefillProjects(m);
          case Switching(_, _) => SwitchProjects(m);
          case Crossing => SwitchProjects(m);
          case Forking(added) => if added { ReturnProjects(m); } else { ForkProjects(m); }
          case Exiting(_) => ExitProjects(m);
          case Exited => ExitProjects(m);
          case _ => ReturnProjects(m);
        }
      case _ => CallProjects(m, e);
    }
  }

  // ----- Runs -----

  ghost predicate NoTickInside(m: Machine, es: seq<Event>)
    requires Legal(m, es)
    decreases |es|
  {
    es == [] || (!TickInside(m, es[0]) && NoTickInside(Step(m, es[0]), es[1..]))
  }

  // The run as the abstract machine sees it.
  ghost function Projection(m: Machine, es: seq<Event>): seq<SchedulerRuns.Event>
    requires Legal(m, es)
    decreases |es|
  {
    if es == [] then [] else Emits(m, es[0]) + Projection(Step(m, es[0]), es[1..])
  }

  lemma {:induction false} RunProjects(m: Machine, es: seq<Event>)
    requires Calm(m) && SchedulerRuns.Inv(Abstract(m)) && Legal(m, es) && NoTickInside(m, es)
    ensures Calm(After(m, es)) && SchedulerRuns.Legal(Abstract(m), Projection(m, es))
    ensures SchedulerRuns.After(Abstract(m), Projection(m, es)) == Abstract(After(m, es))
    decreases |es|
  {
    hide Step, SchedulerRuns.Step, SchedulerRuns.Enabled, SchedulerRuns.Inv, Calm, Abstract, Emits, TickInside;
    if es == [] {
      assert Projection(m, es) == [];
    } else {
      var n, fs := Step(m, es[0]), Emits(m, es[0]);
      StepProjects(m, es[0]);
      EmitsAtMostOne(m, es[0]);
      RunProjects(n, es[1..]);
      var rest := Projection(n, es[1..]);
      if fs == [] {
        assert fs + rest == rest;
      } else {
        assert (fs + rest)[1..] == rest && (fs + rest)[0] == fs[0];
      }
    }
  }

  lemma EmitsAtMostOne(m: Machine, e: Event)
    requires Calm(m) && SchedulerRuns.Inv(Abstract(m)) && Enabled(m, e) && !TickInside(m, e)
    ensures Calm(Step(m, e)) && SchedulerRuns.Inv(Abstract(Step(m, e)))
    ensures Emits(m, e) == [] || |Emits(m, e)| == 1
  {
    StepProjects(m, e);
  }

  // From boot: a run without such ticks is a run of the abstract machine. Whenever no choice is being
  // made the two machines agree on every field of every task, up to a preempt_enable still to come.
  lemma BootRunProjects(es: seq<Event>)
    requires Legal(Start(), es) && NoTickInside(Start(), es)
    ensures SchedulerRuns.Inv(SchedulerRuns.Boot())
    ensures SchedulerRuns.Legal(SchedulerRuns.Boot(), Projection(Start(), es))
    ensures var m, t := After(Start(), es), SchedulerRuns.After(SchedulerRuns.Boot(), Projection(Start(), es));
      && Shaped(m)
      && (!Deciding(Top(m, m.cpu)) ==> t == if Holds(Top(m, m.cpu)) then PreemptEnable(m.s) else m.s)
  {
    StartInv();
    SchedulerRuns.BootInv();
    assert Calm(Start()) && Abstract(Start()) == SchedulerRuns.Boot();
    RunProjects(Start(), es);
  }

  // So only a tick inside `_schedule` can leave a task that is off the processor in debt.
  lemma NoDebtWithoutTickInside(es: seq<Event>, i: nat)
    requires Legal(Start(), es) && NoTickInside(Start(), es)
    ensures var m := After(Start(), es);
      Shaped(m) && (i < |m.s.tasks| && i != m.cpu && i != m.s.current && !Deciding(Top(m, m.cpu))
        ==> m.s.tasks[i].counter >= 0)
  {
    BootRunProjects(es);
    Fairness.SolventRun(SchedulerRuns.Boot(), Projection(Start(), es), 15);
    var m, t := After(Start(), es), SchedulerRuns.After(SchedulerRuns.Boot(), Projection(Start(), es));
    hide SchedulerRuns.After, After, SchedulerRuns.Legal, Legal, NoTickInside, Projection, SchedulerRuns.Inv;
    if i < |m.s.tasks| && i != m.cpu && i != m.s.current && !Deciding(Top(m, m.cpu)) {
      assert t.current == m.s.current && t.tasks[i] == m.s.tasks[i];
    }
  }
}
