// What the kernel's entry points leave in the machine state and return, field by field; what they do to
// memory is in Runs, Isolation and AliasedFault.
module EntryPoints {
  import opened Bits
  import opened PhysMem
  import opened Mmu
  import opened PageTables
  import opened CopyMemory
  import opened CopyVirt
  import opened AddressSpaces
  import opened Runs
  import opened Isolation
  import FaultRun

  // ----- switch_to -----

  // switch_to makes the given task current and loads its page table base; for the current task it does
  // nothing. It touches neither memory nor any task.
  lemma SwitchDoes(run: seq<State>, events: seq<Event>, i: nat)
    requires IsRun(run, events) && i < |events| && events[i].Switch?
    ensures var next := events[i].next;
      && next < |run[i].tasks| && run[i + 1].current == next
      && run[i + 1].ttbr0 == (if next == run[i].current then run[i].ttbr0 else run[i].tasks[next].mm.pgd)
      && run[i + 1].tasks == run[i].tasks && run[i + 1].phys == run[i].phys && run[i + 1].ind == run[i].ind
  {
    assert Enabled(run[i], events[i]) && run[i + 1] == Apply(run[i], events[i]);
  }

  // The target of the last switch before step n, or init.
  function LastSwitch(events: seq<Event>, n: nat): nat
    requires n <= |events|
  {
    if n == 0 then 0 else if events[n - 1].Switch? then events[n - 1].next else LastSwitch(events, n - 1)
  }

  lemma CurrentStays(s: State, e: Event)
    requires Enabled(s, e) && !e.Switch?
    ensures Apply(s, e).current == s.current && |s.tasks| <= |Apply(s, e).tasks|
    ensures Apply(s, e).tasks[s.current].mm.pgd == 0 ==>
      CurrentMm(s).pgd == 0 && (Apply(s, e).ttbr0 == s.ttbr0 || Apply(s, e).ttbr0 == 0)
  {
    if CurrentMm(s).pgd != 0 {
      if e.EnterUser? {
        FaultRun.PgdOfTables(GetFreePage(s.phys).0, CurrentMm(s), 0, 3);
      } else if e.Abort? {
        FaultRun.PgdOfTables(GetFreePage(s.phys).0, CurrentMm(s), PageBase(e.addr), 3);
      }
    }
    hide GetFreePage, MapTables, CopyFrom, MemCpy, Walk, IsTranslationFault, PageBase, SetWord, MapTableEntry;
  }

  // In every reachable state `current` is the target of the last switch, and ttbr0 is the page table base of
  // that task; only until the first switch to another task it may still be what boot has left.
  lemma {:induction false} CurrentIsLastSwitch(run: seq<State>, events: seq<Event>, n: nat)
    requires IsRun(run, events) && n <= |events|
    ensures WellFormed(run[n]) && run[n].current == LastSwitch(events, n)
    ensures run[n].ttbr0 == CurrentMm(run[n]).pgd
      || (run[n].ttbr0 == run[0].ttbr0 && forall i :: 0 <= i < n && events[i].Switch? ==> events[i].next == 0)
    decreases n
  {
    ReachableStates(run, events, n);
    hide IsRun, Isolated, Enabled, Apply;
    if n == 0 {
      InitIsCurrent(run, events);
    } else {
      CurrentIsLastSwitch(run, events, n - 1);
      StepOfRun(run, events, n - 1);
      if events[n - 1].Switch? {
        SwitchDoes(run, events, n - 1);
        OnlyToInit(events, n - 1);
      } else {
        CurrentStays(run[n - 1], events[n - 1]);
      }
    }
  }

  lemma {:induction false} OnlyToInit(events: seq<Event>, n: nat)
    requires n <= |events|
    ensures (forall i :: 0 <= i < n && events[i].Switch? ==> events[i].next == 0) ==> LastSwitch(events, n) == 0
  {
    if n == 0 {
    } else {
      OnlyToInit(events, n - 1);
    }
  }

  lemma StepOfRun(run: seq<State>, events: seq<Event>, i: nat)
    requires IsRun(run, events) && i < |events|
    ensures |run| == |events| + 1 && Enabled(run[i], events[i]) && run[i + 1] == Apply(run[i], events[i])
  {
  }

  lemma InitIsCurrent(run: seq<State>, events: seq<Event>)
    requires IsRun(run, events)
    ensures run[0].current == 0
  {
  }

  // ----- copy_process -----

  // The result of copy_process for either kind of task: the number of tasks before, which is the child's
  // index, if a page was free, and otherwise 1 with nothing changed. The child's page was free, and a kernel
  // thread starts with an empty address space. Apart from the child no task, and not `current`, changes.
  lemma ForkDoes(s: State, kthread: bool)
    requires WellFormed(s)
    ensures var (s', pid) := CopyProcess(s, kthread);
      if FreeCount(s.phys) == 0 then s' == s && pid == 1
      else
        && pid == |s.tasks| && |s'.tasks| == |s.tasks| + 1 && s'.tasks[..pid] == s.tasks
        && IsFrame(s'.tasks[pid].page) && !Marked(s.phys, s'.tasks[pid].page) && !s'.tasks[pid].hung
        && (kthread ==> s'.tasks[pid].mm == Mm(0, [], []))
        && s'.current == s.current && s'.ttbr0 == s.ttbr0 && s'.ind == s.ind
  {
    GetFreePageGivesZeroedFreeFrame(s.phys);
    hide GetFreePage, CopyFrom, FreeCount, Marked;
  }

  // ----- move_to_user_mode -----

  // It returns 0 exactly if a page was free, and then ttbr0 is the current task's table; otherwise -1, and
  // nothing changes. No other task, and not `current`, changes.
  lemma EnterUserDoes(s: State, start: nat, size: nat)
    requires WellFormed(s)
    ensures var (s', r) := MoveToUserMode(s, start, size);
      && (r == 0 <==> FreeCount(s.phys) > 0) && (r == 0 || r == -1) && (r == -1 ==> s' == s)
      && (r == 0 ==> WellFormed(s') && s'.ttbr0 == CurrentMm(s').pgd)
      && s'.current == s.current && s'.ind == s.ind && |s'.tasks| == |s.tasks|
      && (forall t :: 0 <= t < |s.tasks| ==> s'.tasks[t].page == s.tasks[t].page && s'.tasks[t].hung == s.tasks[t].hung)
      && (forall t :: 0 <= t < |s.tasks| && t != s.current ==> s'.tasks[t] == s.tasks[t])
  {
    GetFreePageGivesZeroedFreeFrame(s.phys);
    MapPageShaped(s, 0);
    hide GetFreePage, MapPage, MemCpy, FreeCount;
  }

  lemma MapPageShaped(s: State, va: nat)
    requires WellFormed(s)
    ensures var (q, page) := GetFreePage(s.phys); page != 0 ==> Shaped(MapPage(q, CurrentMm(s), va, page).0)
  {
  }

  // ----- the abort path -----

  // After a data abort the task hangs if and only if do_mem_abort did not return 0; no other task hangs or
  // is touched.
  lemma AbortHangsIff(run: seq<State>, events: seq<Event>, i: nat)
    requires IsRun(run, events) && i < |events| && events[i].Abort?
    ensures var (s, e, s') := (run[i], events[i], run[i + 1]);
      && WellFormed(s) && s'.current == s.current && |s'.tasks| == |s.tasks| && s'.ttbr0 == s.ttbr0
      && (s'.tasks[s.current].hung <==> DoMemAbort(s, e.addr, e.esr).1 != 0)
      && s'.tasks[s.current].page == s.tasks[s.current].page
      && (forall t :: 0 <= t < |s.tasks| && t != s.current ==> s'.tasks[t] == s.tasks[t])
  {
    StepOfRun(run, events, i);
    hide GetFreePage, MapPage, IsTranslationFault, PageBase, RoomToMap;
  }

  // An abort that is not a translation fault, or finds no free page, returns -1 and leaves the memory alone.
  lemma AbortRefused(s: State, addr: Word, esr: nat)
    requires WellFormed(s) && !(4 <= esr % 64 <= 7 && FreeCount(s.phys) > 0)
    ensures DoMemAbort(s, addr, esr) == (s, -1)
  {
    GetFreePageGivesZeroedFreeFrame(s.phys);
    hide GetFreePage, MapPage, PageBase, FreeCount;
  }

  // ----- free_page -----

  // free_page clears the mark of its page, and changes no other mark and no word.
  lemma FreePageUnmarks(p: Phys, f: nat, g: nat)
    requires Shaped(p) && IsFrame(f) && IsFrame(g)
    ensures var q := FreePage(p, f); Shaped(q) && q.mem == p.mem && (Marked(q, g) <==> Marked(p, g) && g != f)
  {
    FrameNumber(f);
    FrameNumber(g);
  }

  // ----- stores -----

  // A kernel store changes one word, that of the page of the given task.
  lemma KernelStoreDoes(s: State, own: Owners, t: nat, w: nat, v: Word, f: nat, u: nat)
    requires Inv(s, own) && 0 < t < |s.tasks| && w < 512 && IsFrame(f) && u < 512
    ensures var s' := KernelStore(s, t, w, v);
      && WordAt(s'.phys.mem, f, u) == (if f == s.tasks[t].page && u == w then v else WordAt(s.phys.mem, f, u))
      && s'.tasks == s.tasks && s'.phys.memMap == s.phys.memMap && s'.current == s.current && s'.ttbr0 == s.ttbr0
  {
    assert TaskOk(s, own, t) && PlaceOk(own, Struct(t));
    hide Inv;
    SetThenRead(s.phys.mem, s.tasks[t].page, w, v, f, u);
  }

  // A kernel store below LOW_MEMORY changes that word and nothing else.
  lemma LowStoreDoes(s: State, i: nat, v: Word, k: nat)
    requires WellFormed(s) && i < LOW_MEMORY / 8 && k < MEM_WORDS
    ensures var s' := LowStore(s, i, v);
      && |s'.phys.mem| == MEM_WORDS && s'.phys.mem[k] == (if k == i then v else s.phys.mem[k])
      && s'.tasks == s.tasks && s'.phys.memMap == s.phys.memMap && s'.current == s.current && s'.ttbr0 == s.ttbr0
  {
  }

  // A user store to an address the task cannot read changes nothing; any user store leaves the tasks, mem_map
  // and the kernel's memory below LOW_MEMORY alone.
  lemma UserStoreDoes(s: State, own: Owners, va: nat, v: Word)
    requires Inv(s, own) && CurrentMm(s).pgd != 0
    ensures UserRead(s, s.current, va).None? ==> UserStore(s, va, v) == s
    ensures var s' := UserStore(s, va, v);
      && s'.tasks == s.tasks && s'.phys.memMap == s.phys.memMap && s'.current == s.current && s'.ttbr0 == s.ttbr0
      && LowSame(s.phys.mem, s'.phys.mem)
  {
    StoreOk(s, own, va, v);
    hide Inv, LowSame, OthersKept;
  }
}
