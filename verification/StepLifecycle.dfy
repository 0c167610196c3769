// The same on the step machine of Preemption, with ticks between any two steps: how copy_process adds a
// task and exit_process ends one.
module StepLifecycle {
  import opened Scheduler
  import opened Preemption
  import Lifecycle

  // ----- One step -----

  // The store of TASK_ZOMBIE in exit_process.
  lemma ExitingMarks(m: Machine)
    requires Inv(m) && Top(m, m.cpu) == Exiting(false)
    ensures var n, j := Step(m, Run), m.cpu;
      && n.cpu == n.s.current == j && |n.s.tasks| == |m.s.tasks|
      && n.s.tasks[j].state == Zombie && Lifecycle.SameButState(m.s.tasks[j], n.s.tasks[j])
      && forall i :: 0 <= i < |m.s.tasks| && i != j ==> n.s.tasks[i] == m.s.tasks[i]
  {
  }

  // The end of copy_process: the child is the next in task[], about to return from its fork.
  lemma ForkingAdds(m: Machine)
    requires Inv(m) && Top(m, m.cpu) == Forking(false)
    ensures var n, k := Step(m, Run), |m.s.tasks|;
      && n.cpu == n.s.current == m.cpu && |n.s.tasks| == |n.stacks| == k + 1
      && n.s.tasks[k].state == Running && n.s.tasks[k].preempt == 1
      && n.s.tasks[k].counter == n.s.tasks[k].priority == m.s.tasks[m.cpu].priority
      && n.stacks[k] == [Own, NewTask]
      && forall i :: 0 <= i < k ==> n.s.tasks[i] == m.s.tasks[i]
  {
  }

  // A whole copy_process into which no tick falls: the task array grows by the child, and the parent's
  // preempt_count is what it was.
  lemma ForkCallAdds(m: Machine)
    requires Inv(m) && Enabled(m, CallFork)
    ensures Legal(m, [CallFork, Run, Run])
    ensures var n, p := After(m, [CallFork, Run, Run]), m.s.tasks[m.cpu].priority;
      && n.s.current == n.cpu == m.cpu && n.s.tasks == m.s.tasks + [Task(Running, p, p, 1)]
      && n.stacks == m.stacks + [[Own, NewTask]]
  {
    var m1 := Step(m, CallFork);
    StepKeeps(m, CallFork);
    var m2 := Step(m1, Run);
    StepKeeps(m1, Run);
    ForkingAdds(m1);
    var m3 := Step(m2, Run);
    assert Nested(m, m.cpu);
    assert m3.stacks[m.cpu] == m.stacks[m.cpu];
    assert m3.s.tasks[m.cpu] == m.s.tasks[m.cpu];
    assert [CallFork, Run, Run][1..] == [Run, Run] && [Run, Run][1..] == [Run] && [Run][1..] == [];
    hide Step, Inv;
    assert Legal(m3, []) && After(m3, []) == m3;
    assert Legal(m2, [Run]) && After(m2, [Run]) == m3;
    assert Legal(m1, [Run, Run]) && After(m1, [Run, Run]) == m3;
  }

  // A tick takes one off the counter of the current task. If preemption is not held off and nothing is left
  // of the counter, it becomes 0 and the task goes on in `_schedule`, above what it was doing; otherwise
  // nothing else changes.
  lemma TickDoes(m: Machine)
    requires Inv(m)
    ensures var n, c := Step(m, Tick), Current(m.s);
      && n.cpu == m.cpu && n.s.current == m.s.current && |n.s.tasks| == |m.s.tasks| && |n.stacks| == |m.stacks|
      && (forall i :: 0 <= i < |m.s.tasks| && i != m.s.current ==> n.s.tasks[i] == m.s.tasks[i])
      && Current(n.s).state == c.state && Current(n.s).priority == c.priority && Current(n.s).preempt == c.preempt
      && (if c.preempt == 0 && c.counter <= 1
          then Current(n.s).counter == 0 && n.stacks == m.stacks[m.cpu := m.stacks[m.cpu] + [Enter]]
          else Current(n.s).counter == c.counter - 1 && n.stacks == m.stacks)
  {
    assert Nested(m, m.s.current);
  }

  // The step at which task j of exit_process becomes a zombie, and the one that adds a task.
  ghost predicate Marks(m: Machine, e: Event, j: nat)
    requires Shaped(m)
  {
    e == Run && m.cpu == j && Top(m, m.cpu) == Exiting(false)
  }

  ghost predicate Adds(m: Machine, e: Event)
    requires Shaped(m)
  {
    e == Run && Top(m, m.cpu) == Forking(false)
  }

  ghost predicate TasksAfter(m: Machine, e: Event, n: Machine)
    requires Shaped(m)
  {
    && |n.s.tasks| == |m.s.tasks| + (if Adds(m, e) then 1 else 0)
    && (forall i :: 0 <= i < |m.s.tasks| ==>
          && n.s.tasks[i].priority == m.s.tasks[i].priority
          && (n.s.tasks[i].state == Zombie <==> m.s.tasks[i].state == Zombie || Marks(m, e, i)))
    && (Adds(m, e) ==>
          && n.s.tasks[|m.s.tasks|].state == Running
          && n.s.tasks[|m.s.tasks|].priority == m.s.tasks[m.cpu].priority)
  }

  lemma StepTasks(m: Machine, e: Event)
    requires Inv(m) && Enabled(m, e)
    ensures TasksAfter(m, e, Step(m, e))
  {
    if e == Run && Top(m, m.cpu) == Exiting(false) {
      ExitingMarks(m);
    } else if e == Run && Top(m, m.cpu) == Forking(false) {
      ForkingAdds(m);
    }
  }

  // ----- Runs -----

  ghost predicate Exits(m: Machine, es: seq<Event>, j: nat)
    requires Legal(m, es)
    decreases |es|
  {
    es != [] && (Marks(m, es[0], j) || Exits(Step(m, es[0]), es[1..], j))
  }

  // However the ticks fall, a task is a zombie after a run exactly if it was one before, or has exited.
  lemma {:induction false} ZombieIffExited(m: Machine, es: seq<Event>, j: nat)
    requires Inv(m) && Legal(m, es) && j < |After(m, es).s.tasks|
    ensures After(m, es).s.tasks[j].state == Zombie <==>
      (j < |m.s.tasks| && m.s.tasks[j].state == Zombie) || Exits(m, es, j)
    decreases |es|
  {
    if es == [] {
    } else {
      StepTasks(m, es[0]);
      StepKeeps(m, es[0]);
      assert Shaped(m);
      hide Step, Inv;
      ZombieIffExited(Step(m, es[0]), es[1..], j);
    }
  }

  // What a task that has called exit_process can still be at: that call, or the one of `_schedule` in it.
  predicate Ending(f: Frame) {
    f.Exiting? || f == Exited || f == Enter || f.Scanning? || f.Refilling? || f.Switching? || f == Crossing
  }

  // Task j is inside exit_process, or is a zombie; in any case it does not get back to its own code.
  ghost predicate Leaving(m: Machine, j: nat) {
    && Inv(m) && 0 < j < |m.s.tasks|
    && (m.s.tasks[j].state == Zombie || (m.cpu == m.s.current == j && Top(m, j) == Exiting(false)))
    && (m.cpu == j ==> Ending(Top(m, j)))
    && (m.s.current == j ==> m.cpu == j)
  }

  lemma LeavingStep(m: Machine, e: Event, j: nat)
    requires Leaving(m, j) && Enabled(m, e)
    ensures Leaving(Step(m, e), j)
  {
    StepKeeps(m, e);
    StepTasks(m, e);
    assert Nested(m, j) && Parked(m, m.s.current);
    if m.cpu == j && e == Run {
      EndingRun(m, j);
    }
  }

  // The choice of a zombie's last `_schedule` is never the zombie.
  lemma EndingRun(m: Machine, j: nat)
    requires Leaving(m, j) && m.cpu == j
    ensures var n := RunStep(m); (n.cpu == j ==> Ending(Top(n, j))) && (n.s.current == j ==> n.cpu == j)
  {
    match Top(m, j) {
      case Switching(c, next) => assert Found(m.s, |m.s.tasks|, c, next);
      case _ =>
    }
  }

  lemma {:induction false} LeavingRun(m: Machine, es: seq<Event>, j: nat)
    requires Leaving(m, j) && Legal(m, es)
    ensures Leaving(After(m, es), j)
    decreases |es|
  {
    hide Step, Leaving;
    if es == [] {
    } else {
      LeavingStep(m, es[0], j);
      LeavingRun(Step(m, es[0]), es[1..], j);
    }
  }

  // A task calls exit_process: it never gets back to its own code.
  lemma ExitNeverReturns(m: Machine, es: seq<Event>)
    requires Inv(m) && Enabled(m, CallExit) && Legal(Step(m, CallExit), es)
    ensures var n := After(Step(m, CallExit), es);
      Shaped(n) && (n.cpu == m.cpu ==> Top(n, n.cpu) != Own) && (n.s.current == m.cpu ==> n.cpu == m.cpu)
  {
    ExitStarts(m);
    hide Step;
    LeavingRun(Step(m, CallExit), es, m.cpu);
  }

  lemma ExitStarts(m: Machine)
    requires Inv(m) && Enabled(m, CallExit)
    ensures Leaving(Step(m, CallExit), m.cpu)
  {
    StepKeeps(m, CallExit);
  }

  // Once it is off the processor it never comes back, whatever happens and however the ticks fall.
  lemma ExitIsForGood(m: Machine, es: seq<Event>, fs: seq<Event>)
    requires Inv(m) && Enabled(m, CallExit) && Legal(Step(m, CallExit), es)
    requires var n := After(Step(m, CallExit), es); n.cpu != m.cpu && Legal(n, fs)
    ensures var o := After(After(Step(m, CallExit), es), fs);
      m.cpu < |o.s.tasks| && o.s.tasks[m.cpu].state == Zombie && o.cpu != m.cpu && o.s.current != m.cpu
  {
    ExitStarts(m);
    hide Step;
    LeavingRun(Step(m, CallExit), es, m.cpu);
    ZombieNeverRuns(After(Step(m, CallExit), es), fs, m.cpu);
  }
}
