// mm.c, and the memory side of fork.c, as the C code runs them: global arrays and task structures
// updated in place. Every method is tied to its function in PageTables, CopyMemory, CopyVirt or
// AddressSpaces, about which the theorems are proved.
module KernelMemory {
  import opened Limits
  import opened Bits
  import opened PhysMem
  import opened MemoryWords
  import opened Mmu
  import opened PageTables
  import opened CopyMemory
  import opened CopyVirt
  import opened AddressSpaces
  import Runs

  // The part of task_struct that memory management uses; mm_struct and its fixed-size arrays are
  // embedded, so no two tasks share them.
  class TaskStruct {
    var page: nat
    var hung: bool
    var pgd: nat
    var userPagesCount: nat
    var userPages: seq<UserPage>
    var kernelPagesCount: nat
    var kernelPages: seq<nat>

    ghost predicate Valid()
      reads this
    {
      && |userPages| == |kernelPages| == MAX_PROCESS_PAGES
      && userPagesCount <= MAX_PROCESS_PAGES && kernelPagesCount < MAX_PROCESS_PAGES
    }

    ghost function MmView(): Mm
      reads this
      requires Valid()
    {
      Mm(pgd, userPages[..userPagesCount], kernelPages[1..kernelPagesCount + 1])
    }

    ghost function View(): Task
      reads this
      requires Valid()
    {
      Task(page, MmView(), hung)
    }

    // A task_struct in a freshly zeroed page.
    constructor Zero(p: nat)
      ensures Valid() && View() == Task(p, EmptyMm, false)
    {
      page, hung, pgd := p, false, 0;
      userPagesCount, kernelPagesCount := 0, 0;
      userPages := seq(MAX_PROCESS_PAGES, _ => UserPage(0, 0));
      kernelPages := seq(MAX_PROCESS_PAGES, _ => 0);
    }

    method PushKernelPage(f: nat)
      requires Valid() && kernelPagesCount + 1 < MAX_PROCESS_PAGES
      modifies `kernelPages, `kernelPagesCount
      ensures Valid() && MmView() == old(MmView().(kernelPages := MmView().kernelPages + [f]))
    {
      kernelPagesCount := kernelPagesCount + 1;
      kernelPages := kernelPages[kernelPagesCount := f];
    }

    method PushUserPage(p: UserPage)
      requires Valid() && userPagesCount < MAX_PROCESS_PAGES
      modifies `userPages, `userPagesCount
      ensures Valid() && MmView() == old(MmView().(userPages := MmView().userPages + [p]))
    {
      userPages := userPages[userPagesCount := p];
      userPagesCount := userPagesCount + 1;
    }
  }

  ghost function Views(ts: seq<TaskStruct>): (r: seq<Task>)
    reads ts
    requires forall t :: t in ts ==> t.Valid()
    ensures |r| == |ts| && forall i :: 0 <= i < |ts| ==> r[i] == ts[i].View()
  {
    if ts == [] then [] else Views(ts[..|ts| - 1]) + [ts[|ts| - 1].View()]
  }

  // When only the task at position i has changed, so has only its view.
  lemma OneViewChanged(ts: seq<TaskStruct>, views: seq<Task>, i: nat)
    requires i < |ts| == |views| && (forall t :: t in ts ==> t.Valid())
    requires forall j :: 0 <= j < |ts| && j != i ==> ts[j].View() == views[j]
    ensures Views(ts) == views[i := ts[i].View()]
  {
  }

  // The kernel's fixed-size indexes have room for what mapping va adds.
  ghost predicate RoomFor(p: Phys, mm: Mm, va: nat)
    requires Shaped(p)
  {
    |mm.userPages| < MAX_PROCESS_PAGES && |MapTables(p, mm, va, 3).1.kernelPages| < MAX_PROCESS_PAGES
  }

  // What copy_virt_memory builds fits the child's fixed-size indexes.
  ghost predicate CopyFits(p: Phys, base: nat, ups: seq<UserPage>, m: Mm)
    requires Shaped(p)
  {
    var m' := CopyFrom(p, base, ups, m, 0).1;
    |m'.userPages| <= MAX_PROCESS_PAGES && |m'.kernelPages| < MAX_PROCESS_PAGES
  }

  class Kernel {
    const mem: array<Word>
    const memMap: array<nat>
    const task: array<TaskStruct?>
    var nrTasks: nat
    var current: TaskStruct
    var ttbr0: nat
    var ind: int
    // task[0..nrTasks), and where current stands in it
    ghost var tasks: seq<TaskStruct>
    ghost var cur: nat

    ghost predicate MemoryValid() {
      && mem.Length == MEM_WORDS && memMap.Length == PAGING_PAGES
      && mem as object != memMap && mem as object != task && memMap as object != task
    }

    ghost function PhysView(): (p: Phys)
      reads mem, memMap
      requires MemoryValid()
      ensures Shaped(p)
    {
      Phys(mem[..], memMap[..])
    }

    // task[] holds the tasks in order, each once, and then NULL.
    ghost predicate TableOk()
      reads `nrTasks, `tasks, `current, `cur, task
    {
      && task.Length == NR_TASKS && nrTasks == |tasks| <= NR_TASKS
      && (forall i :: 0 <= i < NR_TASKS ==> task[i] == if i < nrTasks then tasks[i] else null)
      && (forall i, j :: 0 <= i < j < |tasks| ==> tasks[i] != tasks[j])
      && cur < |tasks| && current == tasks[cur]
    }

    ghost predicate Valid()
      reads this, task, tasks
    {
      MemoryValid() && TableOk() && forall t :: t in tasks ==> t.Valid()
    }

    ghost function View(): (s: State)
      reads this, mem, memMap, task, tasks
      requires Valid()
      ensures WellFormed(s) && |s.tasks| == |tasks|
    {
      State(PhysView(), Views(tasks), cur, ttbr0, ind)
    }

    // The static initial values (sched.c:7-10, mm.c:106): init is the only task.
    constructor Boot(ram: array<Word>, pageMap: array<nat>, init: TaskStruct)
      requires ram.Length == MEM_WORDS && pageMap.Length == PAGING_PAGES && ram as object != pageMap
      requires init.Valid() && init.View() == Task(0, EmptyMm, false)
      ensures Valid() && View() == State(Phys(ram[..], pageMap[..]), [Task(0, EmptyMm, false)], 0, 0, 1)
      ensures mem == ram && memMap == pageMap && current == init && fresh(task)
    {
      mem, memMap := ram, pageMap;
      var slots := new TaskStruct?[NR_TASKS](_ => null);
      slots[0] := init;
      task, nrTasks, current := slots, 1, init;
      ttbr0, ind := 0, 1;
      tasks, cur := [init], 0;
      new;
      assert forall i :: 0 <= i < NR_TASKS ==> task[i] == if i < 1 then init else null;
      assert Valid();
      hide Valid, TaskStruct.View, TaskStruct.MmView;
      assert |Views(tasks)| == 1 && Views(tasks)[0] == init.View();
    }

    lemma CurrentListed()
      requires Valid()
      ensures nrTasks == |tasks| && cur < |tasks| && current == tasks[cur] && current.Valid()
      ensures View().tasks[cur] == current.View() && CurrentMm(View()) == current.MmView()
    {
    }

    // ----- mm.S -----

    method ReadWord(base: nat, w: nat) returns (v: Word)
      requires MemoryValid()
      ensures v == WordAt(mem[..], base, w)
    {
      v := if base / 8 + w < mem.Length then mem[base / 8 + w] else 0;
    }

    // A kernel load: the upper half is the direct map, the lower half goes through ttbr0.
    method LoadWord(va: nat) returns (v: Word)
      requires MemoryValid()
      ensures v == Load(mem[..], ttbr0, va)
    {
      if va >= VA_START {
        v := ReadWord(va - VA_START, 0);
      } else {
        match Walk(mem[..], ttbr0, va) {
          case Mapped(pa, _, _) => v := ReadWord(pa, 0);
          case Fault => v := 0;
        }
      }
    }

    // memcpy: copies a word, then tests.
    method MemCpy(dst: nat, src: nat, size: nat)
      requires MemoryValid() && dst >= VA_START
      modifies mem
      ensures mem[..] == CopyMemory.MemCpy(old(mem[..]), ttbr0, dst, src, size)
    {
      hide Load, SetWord;
      var x0, x1, x2: int := dst, src, size;
      ghost var done := CopyMemory.MemCpy(mem[..], ttbr0, dst, src, size);
      var x3 := LoadWord(x1);
      StoreWord(mem, x0 - VA_START, 0, x3);
      x0, x1, x2 := x0 + 8, x1 + 8, x2 - 8;
      while x2 > 0
        invariant x0 >= VA_START
        invariant if x2 > 0 then CopyMemory.MemCpy(mem[..], ttbr0, x0, x1, x2) == done else mem[..] == done
      {
        x3 := LoadWord(x1);
        StoreWord(mem, x0 - VA_START, 0, x3);
        x0, x1, x2 := x0 + 8, x1 + 8, x2 - 8;
      }
    }

    // ----- mm.c -----

    method GetFreePage() returns (page: nat)
      requires MemoryValid()
      modifies mem, memMap
      ensures (PhysView(), page) == PhysMem.GetFreePage(old(PhysView()))
    {
      hide Zeroed;
      ghost var was := memMap[..];
      for i := 0 to PAGING_PAGES
        invariant FirstFree(was, 0) == FirstFree(was, i)
        invariant mem[..] == old(mem[..]) && memMap[..] == was
      {
        assert was[i] == memMap[i];
        if memMap[i] == 0 {
          assert FirstFree(was, 0) == i;
          memMap[i] := 1;
          assert memMap[..] == was[i := 1];
          page := LOW_MEMORY + i * PAGE_SIZE;
          MemZero(mem, page, PAGE_SIZE);
          return;
        }
      }
      page := 0;
    }

    method FreePage(p: nat)
      requires MemoryValid() && IsFrame(p)
      modifies memMap
      ensures PhysView() == PhysMem.FreePage(old(PhysView()), p)
    {
      memMap[(p - LOW_MEMORY) / PAGE_SIZE] := 0;
    }

    method MapTableEntry(pte: nat, va: nat, pa: nat)
      requires MemoryValid() && IsPage(pa)
      modifies mem
      ensures mem[..] == PageTables.MapTableEntry(old(mem[..]), pte, va, pa)
    {
      var index := TableIndex(va, PAGE_SHIFT);
      var entry := Descriptor(pa, MMU_PTE_FLAGS);
      StoreWord(mem, pte, index, entry);
    }

    method MapTable(table: nat, shift: nat, va: nat) returns (next: nat, newTable: bool)
      requires MemoryValid()
      modifies mem, memMap
      ensures (PhysView(), next, newTable) == PageTables.MapTable(old(PhysView()), table, shift, va)
    {
      var index := TableIndex(va, shift);
      var entry := ReadWord(table, index);
      if entry == 0 {
        newTable := true;
        next := GetFreePage();
        StoreWord(mem, table, index, Descriptor(next, MM_TYPE_PAGE_TABLE));
      } else {
        newTable := false;
        next := PageBase(entry);
      }
    }

    // The first test of map_page: a task without a PGD gets one.
    method MapRoot(t: TaskStruct)
      requires MemoryValid() && t.Valid()
      requires |PageTables.MapRoot(PhysView(), t.MmView()).1.kernelPages| < MAX_PROCESS_PAGES
      modifies mem, memMap, t`pgd, t`kernelPages, t`kernelPagesCount
      ensures t.Valid() && t.userPages == old(t.userPages)
      ensures (PhysView(), t.MmView()) == PageTables.MapRoot(old(PhysView()), old(t.MmView()))
    {
      if t.pgd == 0 {
        t.pgd := GetFreePage();
        t.PushKernelPage(t.pgd);
      }
    }

    // A map_table call of map_page and the index update that follows it.
    method MapLevel(t: TaskStruct, table: nat, shift: nat, va: nat) returns (next: nat)
      requires MemoryValid() && t.Valid()
      requires |PageTables.MapLevel(PhysView(), t.MmView(), table, shift, va).1.kernelPages| < MAX_PROCESS_PAGES
      modifies mem, memMap, t`kernelPages, t`kernelPagesCount
      ensures t.Valid() && t.userPages == old(t.userPages)
      ensures (PhysView(), t.MmView(), next) ==
        PageTables.MapLevel(old(PhysView()), old(t.MmView()), table, shift, va)
    {
      var newTable;
      next, newTable := MapTable(table, shift, va);
      if newTable {
        t.PushKernelPage(next);
      }
    }

    method MapPage(t: TaskStruct, va: nat, page: nat)
      requires MemoryValid() && t.Valid() && IsPage(page) && RoomFor(PhysView(), t.MmView(), va)
      modifies mem, memMap, t`pgd, t`userPages, t`userPagesCount, t`kernelPages, t`kernelPagesCount
      ensures t.Valid()
      ensures (PhysView(), t.MmView()) == PageTables.MapPage(old(PhysView()), old(t.MmView()), va, page)
    {
      ghost var p0, m0 := PhysView(), t.MmView();
      IndexGrows(p0, m0, va);
      hide PageTables.MapTable, PhysMem.GetFreePage, PageTables.MapTableEntry, PageTables.MapLevel, Descriptor;
      MapRoot(t);
      assert (PhysView(), t.MmView(), t.pgd) == MapTables(p0, m0, va, 0);
      var pud := MapLevel(t, t.pgd, PGD_SHIFT, va);
      assert (PhysView(), t.MmView(), pud) == MapTables(p0, m0, va, 1);
      var pmd := MapLevel(t, pud, PUD_SHIFT, va);
      assert (PhysView(), t.MmView(), pmd) == MapTables(p0, m0, va, 2);
      var pte := MapLevel(t, pmd, PMD_SHIFT, va);
      assert (PhysView(), t.MmView(), pte) == MapTables(p0, m0, va, 3);
      MapTableEntry(pte, va, page);
      t.PushUserPage(UserPage(page, va));
    }

    method AllocateUserPage(t: TaskStruct, va: nat) returns (kernelVa: nat)
      requires MemoryValid() && t.Valid()
      requires var (q, page) := PhysMem.GetFreePage(PhysView()); page != 0 ==> RoomFor(q, t.MmView(), va)
      modifies mem, memMap, t`pgd, t`userPages, t`userPagesCount, t`kernelPages, t`kernelPagesCount
      ensures t.Valid()
      ensures var (q, page) := PhysMem.GetFreePage(old(PhysView()));
        && kernelVa == (if page == 0 then 0 else page + VA_START)
        && (PhysView(), t.MmView()) ==
          if page == 0 then (q, old(t.MmView())) else PageTables.MapPage(q, old(t.MmView()), va, page)
    {
      var page := GetFreePage();
      if page == 0 {
        return 0;
      }
      MapPage(t, va, page);
      return page + VA_START;
    }

    // A turn of copy_virt_memory's loop: a page for the child at va, and the parent's bytes in it.
    method CopyUserPage(dst: TaskStruct, va: nat) returns (ok: bool)
      requires MemoryValid() && dst.Valid()
      requires var (q, f) := PhysMem.GetFreePage(PhysView()); f != 0 ==> RoomFor(q, dst.MmView(), va)
      modifies mem, memMap, dst`pgd, dst`userPages, dst`userPagesCount, dst`kernelPages, dst`kernelPagesCount
      ensures dst.Valid()
      ensures var (q, f) := PhysMem.GetFreePage(old(PhysView()));
        && ok == (f != 0)
        && (PhysView(), dst.MmView()) ==
             (if ok then CopyOne(q, ttbr0, old(dst.MmView()), va, f) else (q, old(dst.MmView())))
    {
      hide PhysMem.GetFreePage, PageTables.MapPage, CopyMemory.MemCpy, RoomFor;
      var kernelVa := AllocateUserPage(dst, va);
      if kernelVa == 0 {
        return false;
      }
      MemCpy(kernelVa, va, PAGE_SIZE);
      return true;
    }

    // 0 when every page of the parent has been copied, and -1 when no page was free for the next one.
    method CopyVirtMemory(dst: TaskStruct) returns (r: int)
      requires Valid() && dst.Valid() && dst !in tasks
      requires CopyFits(PhysView(), ttbr0, current.MmView().userPages, dst.MmView())
      modifies mem, memMap, dst`pgd, dst`userPages, dst`userPagesCount, dst`kernelPages, dst`kernelPagesCount
      ensures dst.Valid()
      ensures (PhysView(), dst.MmView()) ==
        CopyFrom(old(PhysView()), ttbr0, current.MmView().userPages, old(dst.MmView()), 0)
      ensures r == (if dst.userPagesCount == old(dst.userPagesCount) + current.userPagesCount then 0 else -1)
      ensures r == -1 ==>
        dst.userPagesCount < old(dst.userPagesCount) + current.userPagesCount && PhysMem.GetFreePage(PhysView()).1 == 0
    {
      var src := current;
      ghost var ups := src.MmView().userPages;
      ghost var done := CopyFrom(PhysView(), ttbr0, ups, dst.MmView(), 0);
      hide PhysMem.GetFreePage, CopyOne, RoomFor;
      for i := 0 to src.userPagesCount
        invariant dst.Valid() && src.MmView().userPages == ups
        invariant CopyFrom(PhysView(), ttbr0, ups, dst.MmView(), i) == done
        invariant dst.userPagesCount == old(dst.userPagesCount) + i
      {
        ghost var p, m := PhysView(), dst.MmView();
        CopyFromFits(p, ttbr0, ups, m, i);
        assert src.userPages[i] == ups[i];
        var ok := CopyUserPage(dst, src.userPages[i].virt);
        if !ok {
          return -1;
        }
        CopyOneGrows(PhysMem.GetFreePage(p).0, ttbr0, m, ups[i].virt, PhysMem.GetFreePage(p).1);
      }
      return 0;
    }

    // ----- fork.c and the abort path, on memory -----

    // allocate_kernel_page, the child's address space and its slot in task[].
    method CopyProcess(kthread: bool) returns (pid: int)
      requires Valid() && nrTasks < NR_TASKS
      requires !kthread ==>
        var (q, page) := PhysMem.GetFreePage(PhysView());
        page != 0 ==> CopyFits(q, ttbr0, current.MmView().userPages, EmptyMm)
      modifies mem, memMap, task, `nrTasks, `tasks
      ensures Valid()
      ensures (View(), pid) == AddressSpaces.CopyProcess(old(View()), kthread)
    {
      hide PhysMem.GetFreePage, CopyFrom, Views, TableOk;
      CurrentListed();
      ghost var views := Views(tasks);
      var page := GetFreePage();
      assert Views(tasks) == views;
      if page == 0 {
        return 1;
      }
      var p := new TaskStruct.Zero(page);
      if !kthread {
        var _ := CopyVirtMemory(p);
      }
      assert Views(tasks) == views;
      pid := AddTask(p);
    }

    // `pid = nr_tasks++; task[pid] = p;`
    method AddTask(p: TaskStruct) returns (pid: nat)
      requires Valid() && nrTasks < NR_TASKS && p.Valid() && p !in tasks
      modifies task, `nrTasks, `tasks
      ensures Valid() && tasks == old(tasks) + [p] && pid == old(nrTasks)
      ensures View() == old(View()).(tasks := old(View()).tasks + [p.View()])
    {
      hide Views, TaskStruct.View, TaskStruct.MmView;
      ghost var views := Views(tasks);
      pid := nrTasks;
      nrTasks := nrTasks + 1;
      task[pid] := p;
      tasks := tasks + [p];
      assert Views(tasks) == views + [p.View()];
    }

    // map_page(current, va, page).
    method MapCurrentPage(va: nat, page: nat)
      requires Valid() && IsPage(page) && RoomFor(PhysView(), current.MmView(), va)
      modifies mem, memMap, current
      ensures Valid()
      ensures var (q, mm) := PageTables.MapPage(old(PhysView()), old(current.MmView()), va, page);
        View() == SetMm(old(View()), q, mm)
    {
      hide Views, PageTables.MapPage, RoomFor;
      ghost var views := Views(tasks);
      assert forall j :: 0 <= j < |tasks| && j != cur ==> tasks[j] != current;
      hide TableOk;
      MapPage(current, va, page);
      assert forall t :: t in tasks && t != current ==> t.Valid() && t.View() == old(t.View());
      OneViewChanged(tasks, views, cur);
    }

    // allocate_user_page(current, 0) is written out.
    method MoveToUserMode(start: nat, size: nat) returns (r: int)
      requires Valid()
      requires var (q, page) := PhysMem.GetFreePage(PhysView()); page != 0 ==> RoomFor(q, current.MmView(), 0)
      modifies mem, memMap, `ttbr0, current
      ensures Valid()
      ensures (View(), r) == AddressSpaces.MoveToUserMode(old(View()), start, size)
    {
      hide PhysMem.GetFreePage, PageTables.MapPage, CopyMemory.MemCpy, Views, TableOk, RoomFor, TaskStruct.View;
      CurrentListed();
      var codePage := GetFreePage();
      if codePage == 0 {
        return -1;
      }
      MapCurrentPage(0, codePage);
      LoadProgram(codePage + VA_START, start, size);
      r := 0;
    }

    // memcpy(code_page, start, size); set_pgd(current->mm.pgd);
    method LoadProgram(kernelVa: nat, start: nat, size: nat)
      requires Valid() && kernelVa >= VA_START
      modifies mem, `ttbr0
      ensures Valid()
      ensures var s := old(View());
        View() == s.(phys := s.phys.(mem := CopyMemory.MemCpy(s.phys.mem, s.ttbr0, kernelVa, start, size)),
                     ttbr0 := CurrentMm(s).pgd)
    {
      hide CopyMemory.MemCpy, Views;
      CurrentListed();
      ghost var views := Views(tasks);
      MemCpy(kernelVa, start, size);
      ttbr0 := current.pgd;
      assert Views(tasks) == views;
    }

    method DoMemAbort(addr: Word, esr: nat) returns (r: int)
      requires Valid()
      requires var (q, page) := PhysMem.GetFreePage(PhysView());
        IsTranslationFault(esr) && page != 0 ==> RoomFor(q, current.MmView(), PageBase(addr))
      modifies mem, memMap, `ind, current
      ensures Valid()
      ensures (View(), r) == AddressSpaces.DoMemAbort(old(View()), addr, esr)
    {
      hide PhysMem.GetFreePage, PageTables.MapPage, PageBase, Views, TableOk, RoomFor;
      CurrentListed();
      var dfs := And(esr, 0x3f);
      if And(dfs, 0x3c) == 4 {
        var page := GetFreePage();
        if page == 0 {
          return -1;
        }
        MapCurrentPage(PageBase(addr), page);
        ghost var views := Views(tasks);
        ind := ind + 1;
        assert Views(tasks) == views;
        if ind > 2 {
          return -1;
        }
        return 0;
      }
      return -1;
    }

    // el0_da: an abort that is not answered with 0 ends in err_hang.
    method El0DataAbort(addr: Word, esr: nat)
      requires Valid()
      requires var (q, page) := PhysMem.GetFreePage(PhysView());
        IsTranslationFault(esr) && page != 0 ==> RoomFor(q, current.MmView(), PageBase(addr))
      modifies mem, memMap, `ind, current
      ensures Valid()
      ensures View() == Runs.Apply(old(View()), Runs.Abort(addr, esr))
    {
      hide AddressSpaces.DoMemAbort, Views, PhysMem.GetFreePage, RoomFor, PageBase, TableOk;
      var r := DoMemAbort(addr, esr);
      CurrentListed();
      Stop(r);
    }

    // `cmp x0, 0`, and err_hang unless equal.
    method Stop(r: int)
      requires Valid()
      modifies current`hung
      ensures Valid() && View() == if r == 0 then old(View()) else Hang(old(View()))
    {
      hide Views;
      ghost var views := Views(tasks);
      assert forall j :: 0 <= j < |tasks| && j != cur ==> tasks[j] != current;
      if r != 0 {
        current.hung := true;
        OneViewChanged(tasks, views, cur);
      }
    }

    method SwitchTo(next: TaskStruct, ghost index: nat)
      requires Valid() && index < |tasks| && tasks[index] == next
      modifies `current, `cur, `ttbr0
      ensures Valid()
      ensures View() == AddressSpaces.SwitchTo(old(View()), index)
    {
      if current == next {
        return;
      }
      current, cur := next, index;
      ttbr0 := next.pgd;
    }
  }

  // The index only grows from level to level.
  lemma IndexGrows(p: Phys, mm: Mm, va: nat)
    requires Shaped(p)
    ensures |MapTables(p, mm, va, 0).1.kernelPages| <= |MapTables(p, mm, va, 1).1.kernelPages|
    ensures |MapTables(p, mm, va, 1).1.kernelPages| <= |MapTables(p, mm, va, 2).1.kernelPages|
    ensures |MapTables(p, mm, va, 2).1.kernelPages| <= |MapTables(p, mm, va, 3).1.kernelPages|
    ensures forall level :: 0 <= level <= 3 ==> MapTables(p, mm, va, level).1.userPages == mm.userPages
  {
    hide MapTable;
    assert MapTables(p, mm, va, 0).1.userPages == mm.userPages;
    assert MapTables(p, mm, va, 1).1.userPages == mm.userPages;
    assert MapTables(p, mm, va, 2).1.userPages == mm.userPages;
  }

  lemma MapPageGrows(p: Phys, mm: Mm, va: nat, page: nat)
    requires Shaped(p) && IsPage(page)
    ensures var m := PageTables.MapPage(p, mm, va, page).1;
      && |m.userPages| == |mm.userPages| + 1
      && |mm.kernelPages| <= |MapTables(p, mm, va, 3).1.kernelPages| == |m.kernelPages|
  {
    IndexGrows(p, mm, va);
  }

  lemma CopyOneGrows(q: Phys, base: nat, m: Mm, va: nat, f: nat)
    requires Shaped(q) && IsPage(f)
    ensures var m2 := CopyOne(q, base, m, va, f).1;
      && |m2.userPages| == |m.userPages| + 1
      && |m.kernelPages| <= |MapTables(q, m, va, 3).1.kernelPages| == |m2.kernelPages|
  {
    MapPageGrows(q, m, va, f);
  }

  lemma {:induction false} CopyFromGrows(p: Phys, base: nat, ups: seq<UserPage>, m: Mm, i: nat)
    requires Shaped(p) && i <= |ups|
    ensures var m' := CopyFrom(p, base, ups, m, i).1;
      |m.userPages| <= |m'.userPages| && |m.kernelPages| <= |m'.kernelPages|
    decreases |ups| - i
  {
    hide PhysMem.GetFreePage, CopyOne, MapTables;
    if i == |ups| {
    } else {
      var (q, f) := PhysMem.GetFreePage(p);
      if f != 0 {
        var (q2, m2) := CopyOne(q, base, m, ups[i].virt, f);
        CopyOneGrows(q, base, m, ups[i].virt, f);
        CopyFromGrows(q2, base, ups, m2, i + 1);
      }
    }
  }

  // If the whole copy fits, so does its next page.
  lemma CopyFromFits(p: Phys, base: nat, ups: seq<UserPage>, m: Mm, i: nat)
    requires Shaped(p) && i < |ups|
    requires var m' := CopyFrom(p, base, ups, m, i).1;
      |m'.userPages| <= MAX_PROCESS_PAGES && |m'.kernelPages| < MAX_PROCESS_PAGES
    ensures var (q, f) := PhysMem.GetFreePage(p);
      f != 0 ==> RoomFor(q, m, ups[i].virt)
  {
    hide PhysMem.GetFreePage, CopyOne, MapTables;
    var (q, f) := PhysMem.GetFreePage(p);
    if f != 0 {
      var (q2, m2) := CopyOne(q, base, m, ups[i].virt, f);
      CopyOneGrows(q, base, m, ups[i].virt, f);
      CopyFromGrows(q2, base, ups, m2, i + 1);
    }
  }
}
