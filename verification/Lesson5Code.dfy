// mm.c, fork.c, sys.c and exit_process of l5_UserProcesses_SystemCalls as the C code runs them: mem_map,
// the task array and the task structures updated in place. Tied to the functions of Lesson5.
module Lesson5Code {
  import opened Limits
  import opened PhysMem
  import opened Lesson5

  // The fields of task_struct that own pages; `user` is the history Lesson5 keeps.
  class TaskStruct {
    var page: nat
    var stack: nat
    var zombie: bool
    ghost var user: bool

    ghost function View(): Task
      reads this
    {
      Task(page, stack, user, zombie)
    }

    constructor (page: nat, stack: nat, ghost user: bool)
      ensures View() == Task(page, stack, user, false)
    {
      this.page, this.stack, this.zombie := page, stack, false;
      this.user := user;
    }
  }

  ghost function Views(ts: seq<TaskStruct>): (r: seq<Task>)
    reads ts
    ensures |r| == |ts| && forall i :: 0 <= i < |ts| ==> r[i] == ts[i].View()
  {
    if ts == [] then [] else Views(ts[..|ts| - 1]) + [ts[|ts| - 1].View()]
  }

  class Kernel {
    const memMap: array<nat>
    const task: array<TaskStruct?>
    var nrTasks: nat
    var current: TaskStruct
    // task[0..nrTasks), where current stands in it, and the pages malloc'd but not yet given to a clone
    ghost var tasks: seq<TaskStruct>
    ghost var cur: nat
    ghost var pending: set<nat>

    ghost predicate Valid()
      reads this, task
    {
      && memMap.Length == PAGING_PAGES && memMap as object != task
      && task.Length == NR_TASKS && nrTasks == |tasks| <= NR_TASKS
      && (forall i :: 0 <= i < NR_TASKS ==> task[i] == if i < nrTasks then tasks[i] else null)
      && (forall i, j :: 0 <= i < j < |tasks| ==> tasks[i] != tasks[j])
      && cur < |tasks| && current == tasks[cur]
    }

    ghost function View(): (s: State)
      reads this, memMap, task, tasks
      requires Valid()
      ensures s.current < |s.tasks| && |s.memMap| == PAGING_PAGES
    {
      State(memMap[..], Views(tasks), cur, pending)
    }

    // The static initial values: every page is free and init is the only task.
    constructor (init: TaskStruct)
      requires init.View() == Task(0, 0, false, false)
      ensures Valid() && View() == Boot() && current == init && fresh(memMap) && fresh(task)
    {
      memMap := new nat[PAGING_PAGES](_ => 0);
      var slots := new TaskStruct?[NR_TASKS](_ => null);
      slots[0] := init;
      task, current, nrTasks := slots, init, 1;
      tasks, cur, pending := [init], 0, {};
      new;
      assert memMap[..] == Boot().memMap;
    }

    method GetFreePage() returns (page: nat)
      requires memMap.Length == PAGING_PAGES
      modifies memMap
      ensures (memMap[..], page) == GetPage(old(memMap[..]))
    {
      ghost var was := memMap[..];
      for i := 0 to PAGING_PAGES
        invariant FirstFree(was, 0) == FirstFree(was, i) && memMap[..] == was
      {
        assert was[i] == memMap[i];
        if memMap[i] == 0 {
          memMap[i] := 1;
          return LOW_MEMORY + i * PAGE_SIZE;
        }
      }
      page := 0;
    }

    method FreePage(p: nat)
      requires memMap.Length == PAGING_PAGES && IsFrame(p)
      modifies memMap
      ensures memMap[..] == PutPage(old(memMap[..]), p)
    {
      memMap[(p - LOW_MEMORY) / PAGE_SIZE] := 0;
    }

    // sys_malloc; -1 as an unsigned long when there is no page.
    method SysMalloc() returns (addr: int)
      requires Valid()
      modifies memMap, `pending
      ensures Valid() && View() == Malloc(old(View()))
      ensures addr == if GetPage(old(memMap[..])).1 != 0 then GetPage(old(memMap[..])).1 else -1
    {
      hide GetPage, Views;
      addr := GetFreePage();
      if addr == 0 {
        return -1;
      }
      pending := pending + {addr};
    }

    // copy_process; for a kernel thread the stack field keeps what the page held.
    method CopyProcess(kthread: bool, stack: nat, garbage: nat) returns (pid: nat)
      requires Valid() && nrTasks < NR_TASKS
      modifies memMap, task, `nrTasks, `tasks, `pending
      ensures Valid()
      ensures View() == if kthread then KernelThread(old(View()), garbage) else Clone(old(View()), stack)
      ensures pid == if GetPage(old(memMap[..])).1 == 0 then 1 else old(nrTasks)
    {
      hide GetPage, Views;
      ghost var views := Views(tasks);
      var page := GetFreePage();
      if page == 0 {
        return 1;
      }
      var p := new TaskStruct(page, if kthread then garbage else stack, !kthread);
      pid := nrTasks;
      nrTasks := nrTasks + 1;
      task[pid] := p;
      tasks := tasks + [p];
      pending := if kthread then pending else pending - {stack};
      assert Views(tasks) == views + [p.View()];
    }

    method MoveToUserMode() returns (r: int)
      requires Valid()
      modifies memMap, current
      ensures Valid() && View() == Lesson5.MoveToUserMode(old(View()))
      ensures r == if GetPage(old(memMap[..])).1 == 0 then -1 else 0
    {
      hide GetPage, Views;
      ghost var was := View();
      var stack := GetFreePage();
      if stack == 0 {
        return -1;
      }
      SetStack(stack);
      return 0;
    }

    method SetStack(stack: nat)
      requires Valid()
      modifies current`stack, current`user
      ensures Valid()
      ensures View() ==
        old(View()).(tasks := old(View()).tasks[cur := Cur(old(View())).(stack := stack, user := true)])
    {
      ghost var views := Views(tasks);
      current.stack := stack;
      current.user := true;
      assert Views(tasks) == views[cur := views[cur].(stack := stack, user := true)];
    }

    // exit_process: the current task is looked up in task[], and its stack freed if it has one.
    method ExitProcess()
      requires Valid() && (current.stack != 0 ==> IsFrame(current.stack))
      modifies memMap, current`zombie
      ensures Valid() && View() == Exit(old(View()))
    {
      MarkZombie();
      hide Views, PutPage;
      if current.stack != 0 {
        FreePage(current.stack);
      }
    }

    method MarkZombie()
      requires Valid()
      modifies current`zombie
      ensures Valid() && View() == old(View()).(tasks := old(View()).tasks[cur := Cur(old(View())).(zombie := true)])
    {
      ghost var views := Views(tasks);
      for i := 0 to NR_TASKS
        invariant Valid() && i <= cur && Views(tasks) == views
      {
        if task[i] == current {
          current.zombie := true;
          break;
        }
      }
      assert Views(tasks) == views[cur := views[cur].(zombie := true)];
    }
  }
}
