// sched.c as the C code runs it: the task array and the task structures, updated in place by loops.
// Every method is tied to its function in Scheduler, about which the theorems are proved.
module SchedulerCode {
  import opened Limits
  import opened Scheduler

  // The scheduling fields of task_struct.
  class TaskStruct {
    var state: RunState
    var counter: int
    var priority: int
    var preemptCount: int

    function View(): Task
      reads this
    {
      Task(state, counter, priority, preemptCount)
    }

    constructor (state: RunState, counter: int, priority: int, preemptCount: int)
      ensures View() == Task(state, counter, priority, preemptCount)
    {
      this.state, this.counter, this.priority, this.preemptCount := state, counter, priority, preemptCount;
    }
  }

  ghost function Views(ts: seq<TaskStruct>): (r: seq<Task>)
    reads ts
    ensures |r| == |ts| && forall i :: 0 <= i < |ts| ==> r[i] == ts[i].View()
  {
    if ts == [] then [] else Views(ts[..|ts| - 1]) + [ts[|ts| - 1].View()]
  }

  // One round of the loop of _schedule, as Settle has it.
  lemma SettleUnfolds(ts: seq<Task>)
    requires Ready(ts)
    ensures FullScan(ts).0 != 0 ==> (Settle(ts).0, Settle(ts).1) == (ts, FullScan(ts).1)
    ensures FullScan(ts).0 == 0 ==>
      && Ready(Refill(ts)) && FullScan(Refill(ts)).0 != 0
      && (Settle(Refill(ts)).0, Settle(Refill(ts)).1) == (Settle(ts).0, Settle(ts).1)
  {
    if FullScan(ts).0 == 0 {
      RefillEndsLoop(ts);
    }
  }

  class Sched {
    const task: array<TaskStruct?>
    var current: TaskStruct
    var nrTasks: nat
    // task[0..nrTasks), and where current stands in it
    ghost var tasks: seq<TaskStruct>
    ghost var cur: nat

    // task[] holds the tasks in order, each once, and then NULL.
    ghost predicate Valid()
      reads this, task
    {
      && task.Length == NR_TASKS && nrTasks == |tasks| <= NR_TASKS
      && (forall i :: 0 <= i < NR_TASKS ==> task[i] == if i < nrTasks then tasks[i] else null)
      && (forall i, j :: 0 <= i < j < |tasks| ==> tasks[i] != tasks[j])
      && cur < |tasks| && current == tasks[cur]
    }

    ghost function View(): (s: State)
      reads this, task, tasks
      requires Valid()
      ensures s.current < |s.tasks|
    {
      State(Views(tasks), cur)
    }

    // The static initial values: init_task is current and the only task.
    constructor (init: TaskStruct)
      requires init.View() == Task(Running, 0, 15, 0)
      ensures Valid() && View() == State([Task(Running, 0, 15, 0)], 0) && current == init && fresh(task)
    {
      var slots := new TaskStruct?[NR_TASKS](_ => null);
      slots[0] := init;
      task, current, nrTasks := slots, init, 1;
      tasks, cur := [init], 0;
    }

    method SetCurrentPreempt(count: int)
      requires Valid()
      modifies current`preemptCount
      ensures Valid() && View() == WithCurrent(old(View()), Current(old(View())).(preempt := count))
    {
      current.preemptCount := count;
      assert Views(tasks) == WithCurrent(old(View()), Current(old(View())).(preempt := count)).tasks;
    }

    method PreemptDisable()
      requires Valid()
      modifies current`preemptCount
      ensures Valid() && View() == Scheduler.PreemptDisable(old(View()))
    {
      SetCurrentPreempt(current.preemptCount + 1);
    }

    method PreemptEnable()
      requires Valid()
      modifies current`preemptCount
      ensures Valid() && View() == Scheduler.PreemptEnable(old(View()))
    {
      SetCurrentPreempt(current.preemptCount - 1);
    }

    // The first loop of _schedule.
    method ScanTasks() returns (c: int, next: nat)
      requires Valid()
      ensures (c, next) == FullScan(View().tasks)
    {
      ghost var ts := Views(tasks);
      c, next := -1, 0;
      for i := 0 to NR_TASKS
        invariant if i <= |ts| then Scan(ts, i, c, next) == FullScan(ts) else (c, next) == FullScan(ts)
      {
        var p := task[i];
        if p != null && p.state == Running && p.counter > c {
          c := ToInt(p.counter);
          next := i;
        }
      }
    }

    // The second loop of _schedule.
    method RefillTasks()
      requires Valid()
      modifies tasks
      ensures Valid() && View() == old(View()).(tasks := Refill(old(View()).tasks))
    {
      for i := 0 to NR_TASKS
        invariant Valid()
        invariant forall k :: 0 <= k < |tasks| ==>
          tasks[k].View() == if k < i then old(Refill(Views(tasks))[k]) else old(tasks[k].View())
      {
        var p := task[i];
        if p != null {
          assert p == tasks[i];
          p.counter := p.counter / 2 + p.priority;
        }
      }
      assert Views(tasks) == Refill(old(Views(tasks)));
    }

    // The `while (1)` loop of _schedule.
    method PickNext() returns (next: nat)
      requires Valid() && Ready(View().tasks)
      modifies tasks
      ensures Valid() && View() == old(View()).(tasks := Settle(old(View()).tasks).0)
      ensures next == Settle(old(View()).tasks).1
    {
      hide FullScan, Refill, Settle, Ready, Views;
      ghost var was := View();
      var c;
      while true
        invariant Valid() && Ready(View().tasks) && View().current == was.current
        invariant (Settle(View().tasks).0, Settle(View().tasks).1) == (Settle(was.tasks).0, Settle(was.tasks).1)
        decreases if FullScan(View().tasks).0 == 0 then 1 else 0
      {
        c, next := ScanTasks();
        SettleUnfolds(View().tasks);
        if c != 0 {
          break;
        }
        RefillTasks();
      }
    }

    // _schedule.
    method ScheduleCore()
      requires Valid() && Ready(View().tasks)
      modifies `current, `cur, tasks
      ensures Valid() && View() == Scheduler.ScheduleCore(old(View()))
    {
      PreemptKeepsReady(View());
      hide Settle, Ready, Views, Scheduler.PreemptDisable, Scheduler.PreemptEnable;
      PreemptDisable();
      var next := PickNext();
      SwitchTo(task[next], next);
      PreemptEnable();
    }

    // set_pgd and cpu_switch_to are modelled in KernelMemory and Registers.
    method SwitchTo(next: TaskStruct, ghost index: nat)
      requires Valid() && index < |tasks| && tasks[index] == next
      modifies `current, `cur
      ensures Valid() && View() == old(View()).(current := index)
    {
      if current == next {
        return;
      }
      current, cur := next, index;
    }

    method ScheduleTail()
      requires Valid()
      modifies current`preemptCount
      ensures Valid() && View() == Scheduler.PreemptEnable(old(View()))
    {
      PreemptEnable();
    }

    method SetCurrentCounter(c: int)
      requires Valid()
      modifies current`counter
      ensures Valid() && View() == WithCounter(old(View()), c)
    {
      current.counter := c;
      assert Views(tasks) == WithCounter(old(View()), c).tasks;
    }

    method Schedule()
      requires Valid() && Ready(View().tasks)
      modifies `current, `cur, tasks
      ensures Valid() && View() == Scheduler.Schedule(old(View()))
    {
      WithCounterReady(View(), 0);
      SetCurrentCounter(0);
      ScheduleCore();
    }

    method TimerTick()
      requires Valid() && Ready(View().tasks)
      modifies `current, `cur, tasks
      ensures Valid() && View() == Scheduler.TimerTick(old(View()))
    {
      ghost var was := View();
      SetCurrentCounter(current.counter - 1);
      if current.counter > 0 || current.preemptCount > 0 {
        return;
      }
      SetCurrentCounter(0);
      assert View() == WithCounter(was, 0);
      WithCounterReady(was, 0);
      ScheduleCore();
    }

    // exit_process up to its preempt_enable: the current task is looked up in task[].
    method MarkCurrentZombie()
      requires Valid()
      modifies current`preemptCount, current`state
      ensures Valid() && View() == MarkZombie(old(View()))
    {
      ghost var was := View();
      PreemptDisable();
      for i := 0 to NR_TASKS
        invariant Valid() && i <= cur
        invariant View() == Scheduler.PreemptDisable(was)
      {
        if task[i] == current {
          current.state := Zombie;
          break;
        }
      }
      assert View() == MarkZombie(Scheduler.PreemptDisable(was));
      PreemptEnable();
      assert View() == MarkZombie(was);
    }

    method ExitProcess()
      requires Valid() && Ready(View().tasks)
      modifies `current, `cur, tasks
      ensures Valid() && View() == Scheduler.Schedule(MarkZombie(old(View())))
    {
      ZombieReady(View());
      hide Ready, Views, MarkZombie;
      MarkCurrentZombie();
      Schedule();
    }

    // The scheduling fields copy_process fills in, and the child's slot.
    method PushChild() returns (pid: nat)
      requires Valid() && nrTasks < NR_TASKS
      modifies `nrTasks, `tasks, task
      ensures Valid() && View() == Scheduler.AddChild(old(View())) && pid == old(nrTasks) && tasks[..pid] == old(tasks)
    {
      hide Views;
      ghost var views := Views(tasks);
      var p := new TaskStruct(Running, current.priority, current.priority, 1);
      pid := nrTasks;
      nrTasks := nrTasks + 1;
      task[pid] := p;
      tasks := tasks + [p];
      assert Views(tasks) == views + [p.View()];
    }

    // copy_process, as far as the scheduler sees it.
    method AddChild() returns (pid: nat)
      requires Valid() && nrTasks < NR_TASKS
      modifies `nrTasks, `tasks, task, current`preemptCount
      ensures Valid() && View() == Scheduler.AddChild(old(View())) && pid == old(nrTasks)
    {
      ghost var was := View();
      hide Views;
      PreemptDisable();
      pid := PushChild();
      PreemptEnable();
      assert View().tasks == Scheduler.AddChild(was).tasks;
    }
  }

  lemma ZombieReady(s: State)
    requires Scheduler.Valid(s)
    ensures Scheduler.Valid(MarkZombie(s))
  {
    assert forall i :: Runnable(MarkZombie(s).tasks, i) ==> Runnable(s.tasks, i);
  }
}
