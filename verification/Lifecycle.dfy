// How tasks come and go in the runs of SchedulerRuns, stated on the fields of the tasks: a fork adds one
// task, an exit makes one a zombie for good, and nothing else does either.
module Lifecycle {
  import opened Scheduler
  import opened SchedulerRuns
  import Fairness
  import TickShare

  // Task i differs at most in its state.
  predicate SameButState(t: Task, u: Task) {
    u.counter == t.counter && u.priority == t.priority && u.preempt == t.preempt
  }

  // ----- One step -----

  // exit_process, up to its call of schedule(): the current task becomes a zombie, and nothing else changes.
  lemma DieMarks(s: State)
    requires Inv(s) && Enabled(s, Die)
    ensures var t := Step(s, Die);
      && t.current == s.current && |t.tasks| == |s.tasks|
      && Current(t).state == Zombie && SameButState(Current(s), Current(t))
      && forall i :: 0 <= i < |s.tasks| && i != s.current ==> t.tasks[i] == s.tasks[i]
  {
  }

  // copy_process: one task more, whose counter and priority are both its parent's priority; no task that
  // was there changes.
  lemma ForkAdds(s: State)
    requires Inv(s) && Enabled(s, Fork)
    ensures var t, n := Step(s, Fork), |s.tasks|;
      && t.current == s.current && |t.tasks| == n + 1
      && t.tasks[n].state == Running && t.tasks[n].preempt == 1
      && t.tasks[n].counter == t.tasks[n].priority == s.tasks[s.current].priority
      && forall i :: 0 <= i < n ==> t.tasks[i] == s.tasks[i]
  {
  }

  // A tick or schedule() changes neither which tasks there are nor their states and priorities.
  lemma TurnKeepsTasks(s: State, e: Event)
    requires Inv(s) && (e == Tick || e == Yield || e == HeldTick)
    ensures var t := Step(s, e);
      && |t.tasks| == |s.tasks|
      && forall i :: 0 <= i < |s.tasks| ==>
           t.tasks[i].state == s.tasks[i].state && t.tasks[i].priority == s.tasks[i].priority
  {
    var t := Step(s, e);
    if e != HeldTick {
      Fairness.StepDecides(s, e);
      if Fairness.CallsSchedule(s, e) {
        var x := Fairness.Expired(s);
        forall i | 0 <= i < |s.tasks|
          ensures t.tasks[i].state == s.tasks[i].state && t.tasks[i].priority == s.tasks[i].priority
        {
          assert SlotAfter(x, t, Refills(x), i);
        }
      }
    }
  }

  // What any step does to the tasks there are, their states and their priorities.
  ghost predicate TasksAfter(s: State, e: Event, t: State) {
    && |t.tasks| == |s.tasks| + (if e == Fork then 1 else 0)
    && (forall i :: 0 <= i < |s.tasks| ==>
          && t.tasks[i].priority == s.tasks[i].priority
          && (t.tasks[i].state == Zombie <==> s.tasks[i].state == Zombie || (e == Die && i == s.current)))
    && (e == Fork && s.current < |s.tasks| ==>
          t.tasks[|s.tasks|].state == Running && t.tasks[|s.tasks|].priority == s.tasks[s.current].priority)
  }

  lemma StepTasks(s: State, e: Event)
    requires Inv(s) && Enabled(s, e)
    ensures TasksAfter(s, e, Step(s, e))
  {
    hide Step, Inv, Enabled;
    match e {
      case Die => DieMarks(s);
      case Fork => ForkAdds(s);
      case _ => TurnKeepsTasks(s, e);
    }
  }

  // ----- Runs -----

  // Task j calls exit_process in the run.
  predicate Exits(s: State, es: seq<Event>, j: nat)
    requires Inv(s) && Legal(s, es)
    decreases |es|
  {
    es != [] && ((es[0] == Die && s.current == j) || Exits(Step(s, es[0]), es[1..], j))
  }

  // A task is a zombie after a run exactly if it was one before, or has exited in the run.
  lemma {:induction false} ZombieIffExited(s: State, es: seq<Event>, j: nat)
    requires Inv(s) && Legal(s, es) && j < |After(s, es).tasks|
    ensures After(s, es).tasks[j].state == Zombie <==>
      (j < |s.tasks| && s.tasks[j].state == Zombie) || Exits(s, es, j)
    decreases |es|
  {
    if es == [] {
    } else {
      StepTasks(s, es[0]);
      assert s.current < |s.tasks|;
      hide Step;
      ZombieIffExited(Step(s, es[0]), es[1..], j);
    }
  }

  // There is one task more for every fork, and a task keeps its priority.
  lemma {:induction false} TasksOnlyGrow(s: State, es: seq<Event>, i: nat)
    requires Inv(s) && Legal(s, es)
    ensures |After(s, es).tasks| == |s.tasks| + Fairness.Forks(es)
    ensures i < |s.tasks| ==> After(s, es).tasks[i].priority == s.tasks[i].priority
    decreases |es|
  {
    if es == [] {
    } else {
      StepTasks(s, es[0]);
      hide Step;
      TasksOnlyGrow(Step(s, es[0]), es[1..], i);
    }
  }

  // Every task inherits the priority of INIT_TASK.
  lemma {:induction false} AllPrioritiesAre(s: State, es: seq<Event>, p: int)
    requires Inv(s) && Legal(s, es) && forall i :: 0 <= i < |s.tasks| ==> s.tasks[i].priority == p
    ensures forall i :: 0 <= i < |After(s, es).tasks| ==> After(s, es).tasks[i].priority == p
    decreases |es|
  {
    if es == [] {
    } else {
      StepTasks(s, es[0]);
      assert s.current < |s.tasks|;
      hide Step;
      AllPrioritiesAre(Step(s, es[0]), es[1..], p);
    }
  }

  lemma BootPriorities(es: seq<Event>, i: nat)
    requires Inv(Boot()) && Legal(Boot(), es) && i < |After(Boot(), es).tasks|
    ensures After(Boot(), es).tasks[i].priority == 15
  {
    AllPrioritiesAre(Boot(), es, 15);
  }

  // exit_process with its schedule() gives the processor away, and no run brings the task back.
  lemma ExitIsForGood(s: State, es: seq<Event>)
    requires Inv(s) && Enabled(s, Die) && Legal(s, [Die, Yield] + es)
    ensures var t := After(s, [Die, Yield] + es);
      t.current != s.current && s.current < |t.tasks| && t.tasks[s.current].state == Zombie
  {
    var d := Step(s, Die);
    var y := Step(d, Yield);
    DieMarks(s);
    StepTasks(d, Yield);
    Fairness.StepDecides(d, Yield);
    assert ([Die, Yield] + es)[1..] == [Yield] + es && ([Yield] + es)[1..] == es;
    var x := Fairness.Expired(d);
    assert Decides(x, y) && SlotAfter(x, y, Refills(x), s.current);
    assert y.current == 0 || Runnable(y.tasks, y.current);
    hide Step;
    Fairness.ZombieNeverRuns(y, es, s.current);
  }

  // A fork, and then a run without refills in which the child does not yield, hold a tick off or exit: its
  // first turn, up to the tick that makes it give up the processor, takes its parent's priority in ticks.
  lemma ChildsFirstTurn(s: State, es: seq<Event>)
    requires Inv(s) && Enabled(s, Fork) && Legal(Step(s, Fork), es)
    requires TickShare.Undisturbed(Step(s, Fork), es, |s.tasks|)
    requires var u := After(Step(s, Fork), es); u.current == |s.tasks| && Fairness.CallsSchedule(u, Tick)
    ensures TickShare.TicksOf(Step(s, Fork), es, |s.tasks|) + 1 == s.tasks[s.current].priority
  {
    ForkAdds(s);
    assert TaskInv(s, s.current);
    hide Step;
    TickShare.CounterPaysTicks(Step(s, Fork), es, |s.tasks|);
  }
}
