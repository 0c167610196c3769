// A run in which do_mem_abort maps a page and fails all the same: the second fault of the first user
// task.
module FaultRun {
  import opened Bits
  import opened PhysMem
  import opened Mmu
  import opened PageTables
  import opened MapPages
  import opened CopyMemory
  import opened CopyVirt
  import opened AddressSpaces
  import opened Runs
  import opened Isolation

  lemma {:induction false} FewTables(mem: seq<Word>, mm: Mm, va: nat, level: nat)
    requires level <= 3
    ensures TablesToMake(mem, mm, va, level) <= level + 1
  {
    hide WalkTable;
    if level == 0 {
    } else {
      FewTables(mem, mm, va, level - 1);
    }
  }

  // What mapping a fresh page takes from the allocator and adds to the indexes: at most four tables.
  lemma MapTakes(s: State, own: Owners, va: nat)
    requires Inv(s, own) && RoomToMap(s, va) && GetFreePage(s.phys).1 != 0
    ensures var (q, page) := GetFreePage(s.phys);
      var (q2, mm) := PageTables.MapPage(q, CurrentMm(s), va, page);
      && FreeCount(q2) >= FreeCount(s.phys) - 5
      && |mm.userPages| == |CurrentMm(s).userPages| + 1
      && |mm.kernelPages| <= |CurrentMm(s).kernelPages| + 4
  {
    var t, mm := s.current, CurrentMm(s);
    var (q, page) := GetFreePage(s.phys);
    GetFreePageGivesZeroedFreeFrame(s.phys);
    var own1 := own[Loose(page) := page];
    NeedsMissing(s, own, va);
    assert TaskOk(s, own, t);
    TablesToMakeIsMissing(s.phys, own, t, mm, va, 3);
    FewTables(s.phys.mem, mm, va, 3);
    hide Inv, TaskOk, TablesIndexed, PagesIndexed, MissingTo, TablesToMake;
    TakesUnowned(s.phys, own);
    TakeFrame(s.phys, own, Loose(page));
    MissingWithLoose(own, t, va, page, 3);
    TablesWithLoose(own, t, mm, page);
    var own' := MapPageOk(q, own1, t, mm, va, page);
  }

  // Enough room for another page in a small address space.
  lemma SmallSpaceHasRoom(s: State, own: Owners, va: nat)
    requires Inv(s, own) && va < VA_LIMIT && UserRead(s, s.current, va).None?
    requires |CurrentMm(s).userPages| <= 2 && |CurrentMm(s).kernelPages| <= 8 && FreeCount(s.phys) >= 5
    ensures RoomToMap(s, va)
  {
    FewTables(s.phys.mem, CurrentMm(s), va, 3);
    assert TaskOk(s, own, s.current);
    TranslateIsTree(s.phys, own, s.current, CurrentMm(s), va);
  }

  // The user task is current and alive, with so much in its address space and so many frames free.
  ghost predicate Stage(s: State, pages: nat, tables: nat, free: nat) {
    && WellFormed(s) && s.current == 1 && !s.tasks[1].hung
    && |CurrentMm(s).userPages| <= pages && |CurrentMm(s).kernelPages| <= tables && FreeCount(s.phys) >= free
  }

  lemma Extend(run: seq<State>, events: seq<Event>, e: Event)
    requires IsRun(run, events) && Enabled(run[|events|], e)
    ensures IsRun(run + [Apply(run[|events|], e)], events + [e])
  {
    var run', events' := run + [Apply(run[|events|], e)], events + [e];
    forall i | 0 <= i < |events'|
      ensures Enabled(run'[i], events'[i]) && run'[i + 1] == Apply(run'[i], events'[i])
    {
      assert run'[i] == run[i];
    }
  }

  lemma {:induction false} AllFree(m: seq<nat>)
    requires forall i :: 0 <= i < |m| ==> m[i] == 0
    ensures |Free(m)| == |m|
  {
    if m == [] {
    } else {
      var n := |m| - 1;
      AllFree(m[..n]);
      assert Free(m) == Free(m[..n]) + {n};
    }
  }

  // A kernel thread is forked and switched to.
  lemma ThreadStarts(s: State) returns (run: seq<State>)
    requires Init(s)
    ensures IsRun(run, [Fork(true), Switch(1)]) && |run| == 3 && run[0] == s
    ensures Stage(run[2], 0, 0, 100) && CurrentMm(run[2]) == EmptyMm
  {
    AllFree(s.phys.memMap);
    GetFreePageGivesZeroedFreeFrame(s.phys);
    hide GetFreePage, FreeCount;
    assert IsRun([s], []);
    var s1 := Apply(s, Fork(true));
    Extend([s], [], Fork(true));
    assert [s] + [s1] == [s, s1] && [] + [Fork(true)] == [Fork(true)];
    var s2 := Apply(s1, Switch(1));
    Extend([s, s1], [Fork(true)], Switch(1));
    run := [s, s1] + [s2];
    assert [Fork(true)] + [Switch(1)] == [Fork(true), Switch(1)];
  }

  // It enters user mode: only page 0 is mapped then.
  lemma UserStarts(run: seq<State>) returns (s3: State)
    requires IsRun(run, [Fork(true), Switch(1)]) && Stage(run[2], 0, 0, 100) && CurrentMm(run[2]) == EmptyMm
    ensures IsRun(run + [s3], [Fork(true), Switch(1), EnterUser(VA_START, 8)])
    ensures Stage(s3, 1, 4, 95) && CurrentMm(s3).pgd != 0
    ensures forall va :: PAGE_SIZE <= va < VA_LIMIT ==> UserRead(s3, 1, va).None?
  {
    var events, e, s := [Fork(true), Switch(1)], EnterUser(VA_START, 8), run[2];
    var own := RunOk(run, events, 2);
    assert forall va :: UserRead(s, 1, va).None?;
    SmallSpaceHasRoom(s, own, 0);
    GetFreePageGivesZeroedFreeFrame(s.phys);
    MapTakes(s, own, 0);
    s3 := Apply(s, e);
    Extend(run, events, e);
    assert events + [e] == [Fork(true), Switch(1), e];
    hide GetFreePage, PageTables.MapPage, MemCpy, IsRun, UserRead, Enabled;
    forall va | PAGE_SIZE <= va < VA_LIMIT
      ensures UserRead(s3, 1, va).None?
    {
      EnterUserLoadsImage(run + [s3], [Fork(true), Switch(1), e], 2, va);
    }
    EnterUserLoadsImage(run + [s3], [Fork(true), Switch(1), e], 2, 0);
  }

  function FaultEvents(): seq<Event> {
    [Fork(true), Switch(1), EnterUser(VA_START, 8), Abort(0x1000, 4), Abort(0x2000, 4)]
  }

  // A fault at an unmapped page address of the user task can be taken and is serviced.
  lemma CanFault(run: seq<State>, events: seq<Event>, addr: Word)
    requires IsRun(run, events) && Stage(run[|events|], 2, 8, 20) && CurrentMm(run[|events|]).pgd != 0
    requires addr < VA_LIMIT && addr % PAGE_SIZE == 0 && UserRead(run[|events|], 1, addr).None?
    ensures Enabled(run[|events|], Abort(addr, 4)) && Serviced(run[|events|], Abort(addr, 4))
  {
    var s := run[|events|];
    var own := RunOk(run, events, |events|);
    SmallSpaceHasRoom(s, own, addr);
    GetFreePageGivesZeroedFreeFrame(s.phys);
  }

  // The first fault is answered with 0, so the task goes on with one page more.
  lemma FirstFault(run: seq<State>, events: seq<Event>, addr: Word, va: nat) returns (s': State)
    requires IsRun(run, events) && Stage(run[|events|], 1, 4, 95) && CurrentMm(run[|events|]).pgd != 0
    requires addr < VA_LIMIT && addr % PAGE_SIZE == 0 && UserRead(run[|events|], 1, addr).None?
    requires run[|events|].ind == 1
    requires va < VA_LIMIT && va / PAGE_SIZE != addr / PAGE_SIZE && UserRead(run[|events|], 1, va).None?
    ensures IsRun(run + [s'], events + [Abort(addr, 4)])
    ensures Stage(s', 2, 8, 90) && CurrentMm(s').pgd != 0 && UserRead(s', 1, va).None?
  {
    var n, s, e := |events|, run[|events|], Abort(addr, 4);
    CanFault(run, events, addr);
    s' := Apply(s, e);
    Extend(run, events, e);
    var own := RunOk(run, events, n);
    MapTakes(s, own, PageBase(addr));
    FaultAddsZeroPage(run + [s'], events + [e], n, va);
    PgdStays(s, own, addr);
  }

  lemma PgdStays(s: State, own: Owners, addr: Word)
    requires Inv(s, own) && Enabled(s, Abort(addr, 4)) && Serviced(s, Abort(addr, 4)) && s.ind == 1
    ensures var s' := Apply(s, Abort(addr, 4)); s'.current == s.current && CurrentMm(s').pgd != 0
  {
    var (q, page) := GetFreePage(s.phys);
    PgdOfTables(q, CurrentMm(s), PageBase(addr), 3);
  }

  lemma {:induction false} PgdOfTables(p: Phys, mm: Mm, va: nat, level: nat)
    requires Shaped(p) && level <= 3 && mm.pgd != 0
    ensures MapTables(p, mm, va, level).1.pgd == mm.pgd
  {
    hide MapTable;
    if level == 0 {
    } else {
      PgdOfTables(p, mm, va, level - 1);
    }
  }

  function FirstFaultEvents(): seq<Event> {
    [Fork(true), Switch(1), EnterUser(VA_START, 8), Abort(0x1000, 4)]
  }

  lemma OneFault(s: State) returns (run: seq<State>)
    requires Init(s)
    ensures IsRun(run, FirstFaultEvents()) && run[0] == s && |run| == 5
    ensures Serviced(run[3], Abort(0x1000, 4))
    ensures Stage(run[4], 2, 8, 90) && CurrentMm(run[4]).pgd != 0 && UserRead(run[4], 1, 0x2000).None?
  {
    hide IsRun, Enabled, UserRead, Serviced;
    var run2 := ThreadStarts(s);
    var s3 := UserStarts(run2);
    var run3, events3 := run2 + [s3], [Fork(true), Switch(1), EnterUser(VA_START, 8)];
    assert |run3| == 4 && run3[3] == s3;
    FirstInd(run3, events3);
    CanFault(run3, events3, 0x1000);
    var s4 := FirstFault(run3, events3, 0x1000, 0x2000);
    run := run3 + [s4];
    assert events3 + [Abort(0x1000, 4)] == FirstFaultEvents();
    assert run[3] == s3 && run[4] == s4;
  }

  // From any boot state: a kernel thread enters user mode and faults twice, at two addresses. Both
  // faults are serviced, so by SecondServicedFault the second one leaves its page mapped, the result
  // -1 and the task hanging.
  lemma TwoFaults(s: State) returns (run: seq<State>)
    requires Init(s)
    ensures IsRun(run, FaultEvents()) && run[0] == s && run[4].current == 1
    ensures Serviced(run[3], FaultEvents()[3]) && Serviced(run[4], FaultEvents()[4])
    ensures WellFormed(run[5]) && run[5].tasks[1].hung && UserRead(run[5], 1, 0x2000) == Some(0)
  {
    hide IsRun, Enabled, UserRead, Serviced;
    var run4 := OneFault(s);
    var events4 := FirstFaultEvents();
    CanFault(run4, events4, 0x2000);
    Extend(run4, events4, Abort(0x2000, 4));
    run := run4 + [Apply(run4[4], Abort(0x2000, 4))];
    assert events4 + [Abort(0x2000, 4)] == FaultEvents();
    assert forall i :: 0 <= i < 5 ==> run[i] == run4[i];
    SecondServicedFault(run, FaultEvents(), 3, 4, 0x2000);
  }

  lemma FirstInd(run: seq<State>, events: seq<Event>)
    requires IsRun(run, events) && events == [Fork(true), Switch(1), EnterUser(VA_START, 8)]
    ensures run[3].ind == 1
  {
    IndIsOneIff(run, events, 3);
  }
}
