// What holds in every reachable state, stated on the memory and the task list alone.
module Isolation {
  import opened PhysMem
  import opened Mmu
  import opened PageTables
  import opened MapPages
  import opened SideIndexes
  import opened CopyMemory
  import opened CopyVirt
  import opened AddressSpaces
  import opened Machine
  import opened Runs

  predicate IsUserFrame(s: State, t: nat, f: nat)
    requires t < |s.tasks|
  {
    exists i :: 0 <= i < |s.tasks[t].mm.userPages| && s.tasks[t].mm.userPages[i].phys == f
  }

  predicate IsTable(s: State, t: nat, f: nat)
    requires t < |s.tasks|
  {
    f in s.tasks[t].mm.kernelPages
  }

  predicate IsStruct(s: State, t: nat, f: nat)
    requires t < |s.tasks|
  {
    t > 0 && s.tasks[t].page == f
  }

  predicate Uses(s: State, t: nat, f: nat)
    requires t < |s.tasks|
  {
    IsUserFrame(s, t, f) || IsTable(s, t, f) || IsStruct(s, t, f)
  }

  // Every frame has at most one task and one role, no task maps a frame twice, and a frame is
  // marked in mem_map exactly when some task uses it.
  ghost predicate Isolated(s: State) {
    && Shaped(s.phys)
    && (forall t, u, f :: 0 <= t < |s.tasks| && 0 <= u < |s.tasks| && Uses(s, t, f) && Uses(s, u, f) ==> t == u)
    && (forall t, f :: 0 <= t < |s.tasks| ==>
      && !(IsUserFrame(s, t, f) && IsTable(s, t, f))
      && !(IsUserFrame(s, t, f) && IsStruct(s, t, f))
      && !(IsTable(s, t, f) && IsStruct(s, t, f)))
    && (forall t, i, j :: 0 <= t < |s.tasks| && 0 <= i < j < |s.tasks[t].mm.userPages| ==>
      s.tasks[t].mm.userPages[i].phys != s.tasks[t].mm.userPages[j].phys)
    && (forall t, f :: 0 <= t < |s.tasks| && Uses(s, t, f) ==> IsFrame(f))
    && (forall f :: IsFrame(f) ==> (Marked(s.phys, f) <==> Used(s, f)))
  }

  ghost predicate Used(s: State, f: nat) {
    exists t :: 0 <= t < |s.tasks| && Uses(s, t, f)
  }

  // The position of a frame in a given role.
  lemma UserFrameAt(s: State, own: Owners, t: nat, f: nat)
    requires Inv(s, own) && t < |s.tasks|
    ensures IsUserFrame(s, t, f) <==> exists k: nat :: Node(t, 4, k) in own && own[Node(t, 4, k)] == f
  {
    assert TaskOk(s, own, t);
    var ups := s.tasks[t].mm.userPages;
    if IsUserFrame(s, t, f) {
      var i :| 0 <= i < |ups| && ups[i].phys == f;
      assert PageEntryOk(own, t, ups[i]);
      assert own[Node(t, 4, Key(ups[i].virt, 4))] == f;
    }
    if k: nat :| Node(t, 4, k) in own && own[Node(t, 4, k)] == f {
      assert UserPage(f, k * PAGE_SIZE) in ups;
    }
  }

  lemma TableFrameAt(s: State, own: Owners, t: nat, f: nat)
    requires Inv(s, own) && t < |s.tasks|
    ensures IsTable(s, t, f) <==> IsTableFrame(own, t, f)
  {
    assert TaskOk(s, own, t);
    var ks := s.tasks[t].mm.kernelPages;
    assert forall i :: 0 <= i < |ks| ==> IsTableFrame(own, t, ks[i]);
  }

  ghost predicate HasOwner(own: Owners, t: nat, f: nat) {
    exists x :: x in own && own[x] == f && OwnedBy(x) == t
  }

  lemma UsesIsOwner(s: State, own: Owners, t: nat, f: nat)
    requires Inv(s, own) && t < |s.tasks|
    ensures Uses(s, t, f) <==> HasOwner(own, t, f)
  {
    UserFrameAt(s, own, t, f);
    TableFrameAt(s, own, t, f);
    assert TaskOk(s, own, t);
    if IsUserFrame(s, t, f) {
      var k: nat :| Node(t, 4, k) in own && own[Node(t, 4, k)] == f;
      assert OwnedBy(Node(t, 4, k)) == t;
    } else if IsTable(s, t, f) {
      var x :| x in own && IsTableOf(x, t) && own[x] == f;
      assert OwnedBy(x) == t;
    } else if IsStruct(s, t, f) {
      assert OwnedBy(Struct(t)) == t;
    }
    if x :| x in own && own[x] == f && OwnedBy(x) == t {
      assert PlaceOk(own, x);
      assert x.Node? ==> x == Node(t, x.depth, x.key);
    }
  }

  lemma OwnersAreUnique(own: Owners, t: nat, u: nat, f: nat)
    requires OwnersOk(own) && HasOwner(own, t, f) && HasOwner(own, u, f)
    ensures t == u
  {
  }

  lemma InvIsolates(s: State, own: Owners)
    requires Inv(s, own)
    ensures Isolated(s)
  {
    forall t, u, f | 0 <= t < |s.tasks| && 0 <= u < |s.tasks| && Uses(s, t, f) && Uses(s, u, f)
      ensures t == u
    {
      UsesIsOwner(s, own, t, f);
      UsesIsOwner(s, own, u, f);
      OwnersAreUnique(own, t, u, f);
    }
    forall t, f | 0 <= t < |s.tasks|
      ensures !(IsUserFrame(s, t, f) && IsTable(s, t, f))
      ensures !(IsUserFrame(s, t, f) && IsStruct(s, t, f))
      ensures !(IsTable(s, t, f) && IsStruct(s, t, f))
    {
      OneRole(s, own, t, f);
    }
    forall t, i, j | 0 <= t < |s.tasks| && 0 <= i < j < |s.tasks[t].mm.userPages|
      ensures s.tasks[t].mm.userPages[i].phys != s.tasks[t].mm.userPages[j].phys
    {
      DistinctPages(s, own, t, i, j);
    }
    forall t, f | 0 <= t < |s.tasks| && Uses(s, t, f)
      ensures IsFrame(f)
    {
      UsesIsOwner(s, own, t, f);
      var x :| x in own && own[x] == f;
      assert PlaceOk(own, x);
    }
    forall f | IsFrame(f)
      ensures Marked(s.phys, f) <==> Used(s, f)
    {
      MarkedIsUsed(s, own, f);
    }
  }

  lemma OneRole(s: State, own: Owners, t: nat, f: nat)
    requires Inv(s, own) && t < |s.tasks|
    ensures !(IsUserFrame(s, t, f) && IsTable(s, t, f))
    ensures !(IsUserFrame(s, t, f) && IsStruct(s, t, f))
    ensures !(IsTable(s, t, f) && IsStruct(s, t, f))
  {
    UserFrameAt(s, own, t, f);
    TableFrameAt(s, own, t, f);
    assert TaskOk(s, own, t);
  }

  lemma DistinctPages(s: State, own: Owners, t: nat, i: nat, j: nat)
    requires Inv(s, own) && t < |s.tasks| && i < j < |s.tasks[t].mm.userPages|
    ensures s.tasks[t].mm.userPages[i].phys != s.tasks[t].mm.userPages[j].phys
  {
    var ups := s.tasks[t].mm.userPages;
    assert TaskOk(s, own, t);
    assert PageEntryOk(own, t, ups[i]) && PageEntryOk(own, t, ups[j]);
    PageNumber(ups[i].virt);
    PageNumber(ups[j].virt);
  }

  lemma MarkedIsUsed(s: State, own: Owners, f: nat)
    requires Inv(s, own) && IsFrame(f)
    ensures Marked(s.phys, f) <==> Used(s, f)
  {
    if Marked(s.phys, f) {
      var x :| x in own && own[x] == f;
      assert HasOwner(own, OwnedBy(x), f);
      UsesIsOwner(s, own, OwnedBy(x), f);
    }
    if t :| 0 <= t < |s.tasks| && Uses(s, t, f) {
      UsesIsOwner(s, own, t, f);
      assert f in own.Values;
    }
  }

  // Every reachable state: frames are isolated and conserved, every task's side indexes list exactly
  // what its walks find, and the hardware walks the current task's tables.
  lemma ReachableStates(run: seq<State>, events: seq<Event>, n: nat)
    requires IsRun(run, events) && n <= |events|
    ensures Isolated(run[n]) && WellFormed(run[n])
    ensures forall t :: 0 <= t < |run[n].tasks| ==>
      TablesAgree(run[n].phys.mem, run[n].tasks[t].mm) && PagesAgree(run[n].phys.mem, run[n].tasks[t].mm)
    ensures CurrentMm(run[n]).pgd != 0 ==> run[n].ttbr0 == CurrentMm(run[n]).pgd
  {
    var s := run[n];
    var own := RunOk(run, events, n);
    InvIsolates(s, own);
    forall t | 0 <= t < |s.tasks|
      ensures TablesAgree(s.phys.mem, s.tasks[t].mm) && PagesAgree(s.phys.mem, s.tasks[t].mm)
    {
      assert TaskOk(s, own, t);
      TablesIndexedAgree(s.phys, own, t, s.tasks[t].mm);
      PagesIndexedAgree(s.phys, own, t, s.tasks[t].mm);
    }
  }

  // No kernel store of the run goes to the count low words from index `from` on.
  predicate Spares(events: seq<Event>, from: nat, count: nat) {
    forall k :: 0 <= k < |events| && events[k].LowWrite? ==> events[k].i < from || from + count <= events[k].i
  }

  // Below LOW_MEMORY only the kernel's own stores to it change a word: no frame that is handed out,
  // no table, page, image copy or user store reaches it.
  lemma {:induction false} LowMemoryKept(run: seq<State>, events: seq<Event>, n: nat, from: nat, count: nat)
    requires IsRun(run, events) && n <= |events| && Spares(events, from, count) && from + count <= LOW_MEMORY / 8
    ensures |run[n].phys.mem| == |run[0].phys.mem| == MEM_WORDS
    ensures forall i :: from <= i < from + count ==> run[n].phys.mem[i] == run[0].phys.mem[i]
  {
    if n == 0 {
    } else {
      LowMemoryKept(run, events, n - 1, from, count);
      var own := RunOk(run, events, n - 1);
      var own' := StepOk(run[n - 1], own, events[n - 1]);
      hide Inv, Enabled, Apply;
      assert LowKept(run[n - 1], events[n - 1], run[n]);
    }
  }

  // A fork that gets its frame gives the child a copy of what the parent reads at that moment, and
  // the copy stays until the child itself runs, whatever the parent and the others do meanwhile.
  lemma ForkSnapshot(run: seq<State>, events: seq<Event>, i: nat, n: nat, va: nat)
    requires IsRun(run, events) && i < n <= |events|
    requires events[i] == Fork(false) && |run[i + 1].tasks| > |run[i].tasks|
    requires forall k :: i < k < n ==> run[k].current != |run[i].tasks|
    ensures |run[i].tasks| < |run[n].tasks|
    ensures UserRead(run[n], |run[i].tasks|, va) == UserRead(run[i], run[i].current, va)
    ensures UserRead(run[i + 1], run[i].current, va) == UserRead(run[i], run[i].current, va)
  {
    var own := RunOk(run, events, i);
    var s := run[i];
    GetFreePageGivesZeroedFreeFrame(s.phys);
    assert Enabled(s, events[i]) && run[i + 1] == CopyProcess(s, false).0;
    ForkCopiesMeaning(s, own, va);
    OthersNeverChangeReads(run, events, i + 1, n, |s.tasks|, va);
  }

  // ----- what faults and the first entry to user mode add to an address space -----

  lemma AddedPageReads(s: State, own: Owners, s': State, own': Owners, va0: nat, va: nat)
    requires Inv(s, own) && Inv(s', own') && s'.current == s.current && va0 < VA_LIMIT && va < VA_LIMIT
    requires PathNode(s.current, 4, va0) in own'
    requires SamePagesBut(s.phys.mem, own, s'.phys.mem, own', s.current, Key(va0, 4))
    ensures UserRead(s', s.current, va) ==
      if va / PAGE_SIZE == va0 / PAGE_SIZE
      then Some(WordAt(s'.phys.mem, own'[PathNode(s.current, 4, va0)], va % PAGE_SIZE / 8))
      else UserRead(s, s.current, va)
  {
    ReadIsFrameWord(s, own, s.current, va);
    ReadIsFrameWord(s', own', s.current, va);
    PageNumber(va);
    PageNumber(va0);
    hide Inv, Key, UserRead;
    var x := PathNode(s.current, 4, va);
    if va / PAGE_SIZE != va0 / PAGE_SIZE && x in own {
      assert SameWords(s.phys.mem, own[x], s'.phys.mem, own[x]);
    }
  }

  // A translation fault that finds a frame adds one zero page at the faulting address, and changes
  // nothing else the task reads.
  lemma FaultAddsZeroPage(run: seq<State>, events: seq<Event>, i: nat, va: nat)
    requires IsRun(run, events) && i < |events| && events[i].Abort? && va < VA_LIMIT
    requires IsTranslationFault(events[i].esr) && FreeCount(run[i].phys) > 0
    ensures WellFormed(run[i + 1]) && run[i + 1].current == run[i].current
    ensures UserRead(run[i + 1], run[i].current, va) ==
      if va / PAGE_SIZE == events[i].addr / PAGE_SIZE then Some(0) else UserRead(run[i], run[i].current, va)
  {
    var s, addr, esr := run[i], events[i].addr, events[i].esr;
    var own := RunOk(run, events, i);
    assert Enabled(s, events[i]);
    GetFreePageGivesZeroedFreeFrame(s.phys);
    var own' := AbortOk(s, own, addr, esr);
    var (s', r) := DoMemAbort(s, addr, esr);
    assert s' != s by { assert s'.ind == s.ind + 1; }
    AddedPageReads(s, own, s', own', PageBase(addr), va);
    assert run[i + 1] == if r == 0 then s' else Hang(s');
  }

  // Entering user mode puts the image at address 0, zero-filled to the end of the page.
  lemma EnterUserLoadsImage(run: seq<State>, events: seq<Event>, i: nat, va: nat)
    requires IsRun(run, events) && i < |events| && events[i].EnterUser? && va < VA_LIMIT
    requires WellFormed(run[i]) && FreeCount(run[i].phys) > 0
    ensures WellFormed(run[i + 1]) && run[i + 1].current == run[i].current && CurrentMm(run[i + 1]).pgd != 0
    ensures InImage(events[i].start, events[i].size)
    ensures UserRead(run[i + 1], run[i].current, va) ==
      if va < PAGE_SIZE then Some(ImageWord(run[i], events[i].start, events[i].size, va / 8))
      else UserRead(run[i], run[i].current, va)
  {
    var s := run[i];
    var own := RunOk(run, events, i);
    assert Enabled(s, events[i]);
    GetFreePageGivesZeroedFreeFrame(s.phys);
    var own' := EnterUserOk(s, own, events[i].start, events[i].size);
    MapPageLists(s, events[i].start, events[i].size);
    hide Enabled, UserRead, Inv, OthersSame, ImageLoaded, MoveToUserMode, CurrentMm, WellFormed;
    assert ImageLoaded(s, own, run[i + 1], own', events[i].start, events[i].size);
    LoadedImageReads(s, own, run[i + 1], own', events[i].start, events[i].size, va);
  }

  // When the kernel never stores to the image, that is the image the machine booted with.
  lemma EnterUserLoadsBootImage(run: seq<State>, events: seq<Event>, i: nat, va: nat)
    requires IsRun(run, events) && i < |events| && events[i].EnterUser? && va < PAGE_SIZE
    requires WellFormed(run[i]) && FreeCount(run[i].phys) > 0 && events[i].start >= VA_START
    requires Spares(events, (events[i].start - VA_START) / 8, Steps(events[i].size))
    ensures InImage(events[i].start, events[i].size) && WellFormed(run[0]) && WellFormed(run[i + 1])
    ensures UserRead(run[i + 1], run[i].current, va) ==
      Some(ImageWord(run[0], events[i].start, events[i].size, va / 8))
  {
    var start, size := events[i].start, events[i].size;
    EnterUserLoadsImage(run, events, i, va);
    LowMemoryKept(run, events, i, (start - VA_START) / 8, Steps(size));
    ReachableStates(run, events, 0);
    hide IsRun, UserRead, Isolated, Spares;
    ImageWordSame(run[0], run[i], start, size, va / 8);
  }

  lemma ImageWordSame(s: State, s': State, start: nat, size: nat, w: nat)
    requires WellFormed(s) && WellFormed(s') && InImage(start, size)
    requires var from := (start - VA_START) / 8;
      forall i :: from <= i < from + Steps(size) ==> s'.phys.mem[i] == s.phys.mem[i]
    ensures ImageWord(s', start, size, w) == ImageWord(s, start, size, w)
  {
  }

  lemma LoadedImageReads(s: State, own: Owners, s': State, own': Owners, start: nat, size: nat, va: nat)
    requires Inv(s, own) && Inv(s', own') && va < VA_LIMIT && InImage(start, size)
    requires ImageLoaded(s, own, s', own', start, size)
    ensures s'.current == s.current && CurrentMm(s').pgd != 0
    ensures UserRead(s', s.current, va) ==
      if va < PAGE_SIZE then Some(ImageWord(s, start, size, va / 8)) else UserRead(s, s.current, va)
  {
    KeyOfZero();
    AddedPageReads(s, own, s', own', 0, va);
    hide Inv, Key, UserRead, ImageWord, SamePagesBut;
    assert va < PAGE_SIZE ==> va / PAGE_SIZE == 0 && va % PAGE_SIZE == va && va / 8 < 512;
  }

  lemma MapPageLists(s: State, start: nat, size: nat)
    requires WellFormed(s) && GetFreePage(s.phys).1 != 0
    ensures |CurrentMm(MoveToUserMode(s, start, size).0).userPages| == |CurrentMm(s).userPages| + 1
  {
    var (q, page) := GetFreePage(s.phys);
    MapTablesLists(q, CurrentMm(s), 0, 3);
  }

  lemma {:induction false} MapTablesLists(p: Phys, mm: Mm, va: nat, level: nat)
    requires Shaped(p)
    ensures MapTables(p, mm, va, level).1.userPages == mm.userPages
  {
    if level == 0 {
    } else {
      MapTablesLists(p, mm, va, level - 1);
    }
  }

  // ----- the static counter -----

  // A translation fault for which do_mem_abort gets a frame, and maps it.
  ghost predicate Serviced(s: State, e: Event) {
    WellFormed(s) && e.Abort? && IsTranslationFault(e.esr) && GetFreePage(s.phys).1 != 0
  }

  lemma IndStep(s: State, e: Event)
    requires Enabled(s, e)
    ensures Apply(s, e).ind == s.ind + if Serviced(s, e) then 1 else 0
  {
    hide GetFreePage, PageTables.MapPage, CopyFrom, MemCpy, Walk, IsTranslationFault, PageBase, SetWord;
  }

  // ind counts the serviced faults, from 1 on.
  lemma {:induction false} IndIsOneIff(run: seq<State>, events: seq<Event>, n: nat)
    requires IsRun(run, events) && n <= |events|
    ensures run[n].ind >= 1
    ensures run[n].ind == 1 <==> forall i :: 0 <= i < n ==> !Serviced(run[i], events[i])
  {
    hide Serviced, IsRun;
    RunLength(run, events);
    if n == 0 {
    } else {
      IndIsOneIff(run, events, n - 1);
      IndNext(run, events, n - 1);
      assert run[n].ind == 1 <==> run[n - 1].ind == 1 && !Serviced(run[n - 1], events[n - 1]);
    }
  }

  lemma RunLength(run: seq<State>, events: seq<Event>)
    requires IsRun(run, events)
    ensures |run| == |events| + 1 && run[0].ind == 1
  {
  }

  lemma IndNext(run: seq<State>, events: seq<Event>, i: nat)
    requires IsRun(run, events) && i < |events|
    ensures run[i + 1].ind == run[i].ind + if Serviced(run[i], events[i]) then 1 else 0
  {
    assert Enabled(run[i], events[i]) && run[i + 1] == Apply(run[i], events[i]);
    IndStep(run[i], events[i]);
  }

  // Exactly when do_mem_abort returns 0: on a fault it services, if it has serviced none before.
  lemma AbortReturnsZeroIff(run: seq<State>, events: seq<Event>, j: nat)
    requires IsRun(run, events) && j < |events| && events[j].Abort?
    ensures WellFormed(run[j])
    ensures DoMemAbort(run[j], events[j].addr, events[j].esr).1 == 0 <==>
      Serviced(run[j], events[j]) && forall i :: 0 <= i < j ==> !Serviced(run[i], events[i])
  {
    IndIsOneIff(run, events, j);
    assert Enabled(run[j], events[j]);
    hide GetFreePage, PageTables.MapPage, IsTranslationFault, PageBase, Apply;
  }

  // Hence the first fault that is serviced is the last abort of any task that goes well.
  lemma LaterAbortsHang(run: seq<State>, events: seq<Event>, i: nat, j: nat)
    requires IsRun(run, events) && i < j < |events| && Serviced(run[i], events[i]) && events[j].Abort?
    ensures WellFormed(run[j]) && DoMemAbort(run[j], events[j].addr, events[j].esr).1 == -1
    ensures WellFormed(run[j + 1]) && run[j + 1].tasks[run[j].current].hung
  {
    AbortReturnsZeroIff(run, events, j);
    ReachableStates(run, events, j + 1);
    assert Enabled(run[j], events[j]) && run[j + 1] == Apply(run[j], events[j]);
    hide GetFreePage, PageTables.MapPage, IsTranslationFault, PageBase;
  }

  // A second serviced fault fails although its page is there: it is mapped and reads as zero, the
  // result is -1, and the task hangs.
  lemma SecondServicedFault(run: seq<State>, events: seq<Event>, i: nat, j: nat, va: nat)
    requires IsRun(run, events) && i < j < |events| && Serviced(run[i], events[i]) && Serviced(run[j], events[j])
    requires va < VA_LIMIT && va / PAGE_SIZE == events[j].addr / PAGE_SIZE
    ensures WellFormed(run[j + 1]) && UserRead(run[j + 1], run[j].current, va) == Some(0)
    ensures DoMemAbort(run[j], events[j].addr, events[j].esr).1 == -1
    ensures run[j + 1].tasks[run[j].current].hung
  {
    GetFreePageGivesZeroedFreeFrame(run[j].phys);
    FaultAddsZeroPage(run, events, j, va);
    LaterAbortsHang(run, events, i, j);
  }
}
