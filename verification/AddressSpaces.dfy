// The whole machine: physical memory, the tasks' address spaces and the translation base, and the
// kernel entry points that change them. The invariant gives every handed-out frame one owner.
module AddressSpaces {
  import opened Bits
  import opened PhysMem
  import opened Mmu
  import opened PageTables
  import opened MapPages
  import opened SideIndexes
  import opened CopyMemory
  import opened CopyVirt

  const MAX_PROCESS_PAGES := 16

  // The page that holds the task_struct (0 for init, whose struct is static), its address space, and
  // whether the kernel has given up on it (err_hang).
  datatype Task = Task(page: nat, mm: Mm, hung: bool)

  datatype State = State(phys: Phys, tasks: seq<Task>, current: nat, ttbr0: nat, ind: int)

  predicate WellFormed(s: State) {
    Shaped(s.phys) && s.current < |s.tasks|
  }

  function CurrentMm(s: State): Mm
    requires WellFormed(s)
  {
    s.tasks[s.current].mm
  }

  function SetMm(s: State, p: Phys, mm: Mm): State
    requires WellFormed(s)
  {
    s.(phys := p, tasks := s.tasks[s.current := s.tasks[s.current].(mm := mm)])
  }

  // ----- the entry points -----

  // copy_process (fork.c:7-41): the state afterwards and the returned pid. A failing allocation of
  // the task_struct page returns 1.
  function CopyProcess(s: State, kthread: bool): (State, int)
    requires WellFormed(s)
  {
    var (q, page) := GetFreePage(s.phys);
    if page == 0 then (s, 1)
    else
      var (q2, mm) := if kthread then (q, EmptyMm) else CopyFrom(q, s.ttbr0, CurrentMm(s).userPages, EmptyMm, 0);
      (s.(phys := q2, tasks := s.tasks + [Task(page, mm, false)]), |s.tasks|)
  }

  // move_to_user_mode (fork.c:43-56), as far as memory is concerned.
  function MoveToUserMode(s: State, start: nat, size: nat): (State, int)
    requires WellFormed(s)
  {
    var (q, page) := GetFreePage(s.phys);
    if page == 0 then (s, -1)
    else
      var (q2, mm) := MapPage(q, CurrentMm(s), 0, page);
      var q3 := q2.(mem := MemCpy(q2.mem, s.ttbr0, VA_START + page, start, size));
      (SetMm(s, q3, mm).(ttbr0 := mm.pgd), 0)
  }

  // The DFSC field says "translation fault", level 0 to 3 (mm.c:110-111).
  function IsTranslationFault(esr: nat): (r: bool)
    ensures r <==> 4 <= esr % 64 <= 7
  {
    var dfs := And(esr, 0x3f);
    AndLowMask(esr, 6);
    Pow2Values();
    AndHighMask(dfs, 2, 6);
    And(dfs, 0x3c) == 4
  }

  // do_mem_abort (mm.c:106-124). Serviced faults are counted in ind, and only the first returns 0;
  // any other result stops the task.
  function DoMemAbort(s: State, addr: Word, esr: nat): (State, int)
    requires WellFormed(s)
  {
    if IsTranslationFault(esr) then
      var (q, page) := GetFreePage(s.phys);
      if page == 0 then (s, -1)
      else
        var (q2, mm) := MapPage(q, CurrentMm(s), PageBase(addr), page);
        var s2 := SetMm(s, q2, mm).(ind := s.ind + 1);
        (s2, if s2.ind > 2 then -1 else 0)
    else
      (s, -1)
  }

  function Hang(s: State): State
    requires WellFormed(s)
  {
    s.(tasks := s.tasks[s.current := s.tasks[s.current].(hung := true)])
  }

  // switch_to (sched.c:58-66): set_pgd and the new current.
  function SwitchTo(s: State, next: nat): State
    requires WellFormed(s) && next < |s.tasks|
  {
    if next == s.current then s else s.(current := next, ttbr0 := s.tasks[next].mm.pgd)
  }

  // A user-mode store through the current tables; a store that does not translate changes nothing.
  function UserStore(s: State, va: nat, v: Word): State
    requires WellFormed(s)
  {
    if va >= VA_LIMIT then s
    else
      match Walk(s.phys.mem, s.ttbr0, va)
      case Mapped(pa, _, true) => s.(phys := s.phys.(mem := SetWord(s.phys.mem, pa, 0, v)))
      case _ => s
  }

  // A kernel store to the page of task t (its task_struct and kernel stack).
  function KernelStore(s: State, t: nat, w: nat, v: Word): State
    requires WellFormed(s) && t < |s.tasks|
  {
    s.(phys := s.phys.(mem := SetWord(s.phys.mem, s.tasks[t].page, w, v)))
  }

  // The word that task t reads at va.
  datatype Option<T> = None | Some(value: T)

  function UserRead(s: State, t: nat, va: nat): Option<Word>
    requires t < |s.tasks|
  {
    match Translate(s.phys.mem, s.tasks[t].mm, va)
    case Mapped(pa, _, true) => Some(WordAt(s.phys.mem, pa, 0))
    case _ => None
  }

  // ----- the invariant -----

  ghost predicate TaskOk(s: State, own: Owners, t: nat)
    requires t < |s.tasks|
  {
    && TablesIndexed(own, t, s.tasks[t].mm)
    && PagesIndexed(own, t, s.tasks[t].mm.userPages)
    && (t > 0 ==> Struct(t) in own && own[Struct(t)] == s.tasks[t].page)
  }

  ghost predicate Inv(s: State, own: Owners) {
    && WellFormed(s) && PhysOk(s.phys, own)
    && (forall x :: x in own ==> OwnedBy(x) < |s.tasks| && (x.Struct? ==> x.task > 0) && !x.Loose?)
    && (forall t :: 0 <= t < |s.tasks| ==> TaskOk(s, own, t))
    && (CurrentMm(s).pgd != 0 ==> s.ttbr0 == CurrentMm(s).pgd)
  }

  function OwnedBy(x: Pos): nat {
    match x case Struct(t) => t case Node(t, _, _) => t case Loose(_) => 0
  }

  ghost predicate SameTree(own: Owners, own': Owners, t: nat) {
    forall x: Pos :: x.Node? && x.task == t ==> (x in own <==> x in own') && (x in own ==> own'[x] == own[x])
  }

  // Task t's address space is the same in both states, words included.
  ghost predicate SameSpace(s: State, own: Owners, s': State, own': Owners, t: nat) {
    && t < |s.tasks| <= |s'.tasks|
    && s'.tasks[t] == s.tasks[t]
    && SameTree(own, own', t)
    && (forall k :: Node(t, 4, k) in own ==>
      SameWords(s.phys.mem, own[Node(t, 4, k)], s'.phys.mem, own[Node(t, 4, k)]))
  }

  // A kernel store below LOW_MEMORY, to init's stack or to the kernel's own data.
  function LowStore(s: State, i: nat, v: Word): State
    requires WellFormed(s) && i < LOW_MEMORY / 8
  {
    s.(phys := s.phys.(mem := s.phys.mem[i := v]))
  }

  // Memory below LOW_MEMORY is the same.
  predicate LowSame(mem: seq<Word>, mem': seq<Word>) {
    |mem'| == |mem| == MEM_WORDS && mem'[..LOW_MEMORY / 8] == mem[..LOW_MEMORY / 8]
  }

  ghost predicate OthersKept(s: State, own: Owners, s': State, own': Owners) {
    forall t :: 0 <= t < |s.tasks| && t != s.current ==> SameSpace(s, own, s', own', t)
  }

  ghost predicate OthersSame(s: State, own: Owners, s': State, own': Owners) {
    LowSame(s.phys.mem, s'.phys.mem) && OthersKept(s, own, s', own')
  }

  // What a task reads, in terms of the owners.
  lemma ReadIsFrameWord(s: State, own: Owners, t: nat, va: nat)
    requires Inv(s, own) && t < |s.tasks| && va < VA_LIMIT
    ensures var x := PathNode(t, 4, va);
      UserRead(s, t, va) == if x in own then Some(WordAt(s.phys.mem, own[x], va % PAGE_SIZE / 8)) else None
  {
    assert TaskOk(s, own, t);
    TranslateIsTree(s.phys, own, t, s.tasks[t].mm, va);
    var x := PathNode(t, 4, va);
    if x in own {
      assert PlaceOk(own, x);
      WordOffset(s.phys.mem, own[x], va % PAGE_SIZE);
    }
  }

  lemma WordOffset(mem: seq<Word>, f: nat, off: nat)
    requires f % PAGE_SIZE == 0
    ensures WordAt(mem, f + off, 0) == WordAt(mem, f, off / 8)
  {
    var q := f / PAGE_SIZE;
    FrameNumber(f);
    FieldShift(512 * q, off, 8);
  }

  lemma SameSpaceReads(s: State, own: Owners, s': State, own': Owners, t: nat, va: nat)
    requires Inv(s, own) && Inv(s', own') && SameSpace(s, own, s', own', t)
    ensures UserRead(s', t, va) == UserRead(s, t, va)
  {
    if va < VA_LIMIT {
      ReadIsFrameWord(s, own, t, va);
      ReadIsFrameWord(s', own', t, va);
      hide Inv, Key, UserRead;
      var x := PathNode(t, 4, va);
      if x in own {
        assert SameWords(s.phys.mem, own[x], s'.phys.mem, own[x]);
      }
    }
  }

  lemma IndexedTransfer(own: Owners, own': Owners, t: nat, mm: Mm)
    requires SameTree(own, own', t) && TablesIndexed(own, t, mm) && PagesIndexed(own, t, mm.userPages)
    ensures TablesIndexed(own', t, mm) && PagesIndexed(own', t, mm.userPages)
  {
    hide Key;
    assert TablePositions(own', t) == TablePositions(own, t);
    forall i | 0 <= i < |mm.kernelPages|
      ensures IsTableFrame(own', t, mm.kernelPages[i])
    {
      assert IsTableFrame(own, t, mm.kernelPages[i]);
      var y :| y in own && IsTableOf(y, t) && own[y] == mm.kernelPages[i];
      assert own'[y] == own[y];
    }
    forall i | 0 <= i < |mm.userPages|
      ensures PageEntryOk(own', t, mm.userPages[i])
    {
      assert PageEntryOk(own, t, mm.userPages[i]);
    }
  }

  // ----- fork -----

  lemma WithStruct(own: Owners, c: nat, page: nat, t: nat, mm: Mm)
    requires Struct(c) !in own && TablesIndexed(own, t, mm) && PagesIndexed(own, t, mm.userPages)
    ensures TablesIndexed(own[Struct(c) := page], t, mm) && PagesIndexed(own[Struct(c) := page], t, mm.userPages)
  {
    IndexedTransfer(own, own[Struct(c) := page], t, mm);
  }

  lemma GraftKeepsTrees(own: Owners, own': Owners, s: nat, c: nat, page: nat, t: nat)
    requires Struct(c) !in own && Grafted(own[Struct(c) := page], own', s, c) && t != c
    ensures SameTree(own, own', t)
  {
    var own0 := own[Struct(c) := page];
    assert forall x: Pos :: x in own ==> x in own0 && own0[x] == own[x];
  }

  // The machine after a fork whose memory work ended in q2, own', mm.
  lemma ForkedInv(s: State, own: Owners, page: nat, q2: Phys, own': Owners, mm: Mm)
    requires Inv(s, own) && Struct(|s.tasks|) !in own
    requires Grafted(own[Struct(|s.tasks|) := page], own', s.current, |s.tasks|) && PhysOk(q2, own')
    requires TablesIndexed(own', |s.tasks|, mm) && PagesIndexed(own', |s.tasks|, mm.userPages)
    ensures Inv(s.(phys := q2, tasks := s.tasks + [Task(page, mm, false)]), own')
  {
    var c := |s.tasks|;
    var own0 := own[Struct(c) := page];
    var s' := s.(phys := q2, tasks := s.tasks + [Task(page, mm, false)]);
    hide PhysOk, TablesIndexed, PagesIndexed;
    forall t | 0 <= t < |s'.tasks|
      ensures TaskOk(s', own', t)
    {
      if t < c {
        assert TaskOk(s, own, t);
        GraftKeepsTrees(own, own', s.current, c, page, t);
        IndexedTransfer(own, own', t, s.tasks[t].mm);
        assert t > 0 ==> Struct(t) in own0;
      } else {
        assert Struct(c) in own0;
      }
    }
    forall x | x in own'
      ensures OwnedBy(x) < |s'.tasks| && (x.Struct? ==> x.task > 0) && !x.Loose?
    {
      assert x in own0 ==> x == Struct(c) || x in own;
    }
  }

  // Frames the allocator must still have when a fork gets past its first allocation.
  ghost predicate CanFork(s: State, kthread: bool)
    requires WellFormed(s)
  {
    FreeCount(s.phys) == 0 ||
    FreeCount(s.phys) >= 1 + if kthread then 0 else |CurrentMm(s).userPages| + |CurrentMm(s).kernelPages|
  }

  // The memory work of a fork, with the owners afterwards.
  lemma ForkMemory(s: State, own: Owners, kthread: bool) returns (own': Owners)
    requires Inv(s, own) && FreeCount(s.phys) > 0 && CanFork(s, kthread)
    ensures var (q, page) := GetFreePage(s.phys);
      && var c := |s.tasks|;
      && var own0 := own[Struct(c) := page];
      && Struct(c) !in own && page != 0
      && var (q2, mm) := if kthread then (q, EmptyMm) else CopyFrom(q, s.ttbr0, CurrentMm(s).userPages, EmptyMm, 0);
      && Grafted(own0, own', s.current, c) && PhysOk(q2, own')
      && TablesIndexed(own', c, mm) && PagesIndexed(own', c, mm.userPages)
      && KeepsOthers(s.phys.mem, q2.mem, own, c)
      && (!kthread ==> CopyState(q, own0, q2, own', s.current, c, CurrentMm(s), mm, |CurrentMm(s).userPages|))
  {
    var c, src := |s.tasks|, CurrentMm(s);
    var (q, page) := GetFreePage(s.phys);
    assert TaskOk(s, own, s.current);
    assert Struct(c) !in own by {
      assert forall x :: x in own ==> OwnedBy(x) < c;
    }
    TakeFrame(s.phys, own, Struct(c));
    var own0 := own[Struct(c) := page];
    NoNodes(s, own);
    if kthread {
      own' := own0;
      assert TablePositions(own', c) == {};
    } else {
      WithStruct(own, c, page, s.current, src);
      CopyBegins(q, own0, s.current, c, src);
      if src.pgd == 0 {
        NoPagesWithoutTables(own, s.current, src);
        own' := own0;
      } else {
        own' := CopyLoop(q, own0, q, own0, s.current, c, src, EmptyMm, 0);
      }
      KeepsTransitive(s.phys.mem, q.mem, CopyFrom(q, s.ttbr0, src.userPages, EmptyMm, 0).0.mem, own, own0, c);
    }
  }

  lemma NoNodes(s: State, own: Owners)
    requires Inv(s, own)
    ensures forall x :: x in own && x.Node? ==> x.task != |s.tasks|
  {
    assert forall x :: x in own ==> OwnedBy(x) < |s.tasks|;
  }

  // A task with no PGD has no pages to copy, so the loop reads nothing through ttbr0.
  lemma NoPagesWithoutTables(own: Owners, t: nat, mm: Mm)
    requires OwnersOk(own) && TablesIndexed(own, t, mm) && PagesIndexed(own, t, mm.userPages) && mm.pgd == 0
    ensures mm.userPages == []
  {
    assert forall x :: x in own ==> PlaceOk(own, x);
    if mm.userPages != [] {
      assert PageEntryOk(own, t, mm.userPages[0]);
      RootOwned(own, t, mm.userPages[0].virt, 4);
      assert false;
    }
  }

  lemma KeptWords(own: Owners, mem: seq<Word>, mem': seq<Word>, c: nat, x: Pos)
    requires KeepsOthers(mem, mem', own, c) && x in own && !IsTableOf(x, c)
    ensures SameWords(mem, own[x], mem', own[x])
  {
  }

  lemma KeptSpace(s: State, own: Owners, s': State, own': Owners, c: nat, t: nat)
    requires t < |s.tasks| <= |s'.tasks| && t != c && s'.tasks[t] == s.tasks[t] && SameTree(own, own', t)
    requires KeepsOthers(s.phys.mem, s'.phys.mem, own, c)
    ensures SameSpace(s, own, s', own', t)
  {
    forall k | Node(t, 4, k) in own
      ensures SameWords(s.phys.mem, own[Node(t, 4, k)], s'.phys.mem, own[Node(t, 4, k)])
    {
      KeptWords(own, s.phys.mem, s'.phys.mem, c, Node(t, 4, k));
    }
  }

  lemma ForkOk(s: State, own: Owners, kthread: bool) returns (own': Owners)
    requires Inv(s, own) && CanFork(s, kthread)
    ensures var s' := CopyProcess(s, kthread).0;
      && Inv(s', own')
      && (forall t :: 0 <= t < |s.tasks| ==> SameSpace(s, own, s', own', t))
      && (s' == s || |s'.tasks| == |s.tasks| + 1)
      && LowSame(s.phys.mem, s'.phys.mem)
  {
    var (q, page) := GetFreePage(s.phys);
    GetFreePageGivesZeroedFreeFrame(s.phys);
    var s' := CopyProcess(s, kthread).0;
    if page == 0 {
      own' := own;
    } else {
      own' := ForkMemory(s, own, kthread);
      var c := |s.tasks|;
      var (q2, mm) := if kthread then (q, EmptyMm) else CopyFrom(q, s.ttbr0, CurrentMm(s).userPages, EmptyMm, 0);
      hide PhysOk, TablesIndexed, PagesIndexed, KeepsOthers, Grafted, CopyState, GetFreePage, CopyFrom;
      ForkedInv(s, own, page, q2, own', mm);
      forall t | 0 <= t < |s.tasks|
        ensures SameSpace(s, own, s', own', t)
      {
        GraftKeepsTrees(own, own', s.current, c, page, t);
        KeptSpace(s, own, s', own', c, t);
      }
    }
  }

  // Fork copies meaning: right after it, the child reads at every address what the parent reads,
  // and the parent (like every other task) reads what it read before.
  lemma ForkCopiesMeaning(s: State, own: Owners, va: nat)
    requires Inv(s, own) && CanFork(s, false) && FreeCount(s.phys) > 0
    ensures var (s', pid) := CopyProcess(s, false);
      && pid == |s.tasks| == |s'.tasks| - 1
      && UserRead(s', pid, va) == UserRead(s, s.current, va) == UserRead(s', s.current, va)
  {
    var own' := ForkMemory(s, own, false);
    var (q, page) := GetFreePage(s.phys);
    var c, src := |s.tasks|, CurrentMm(s);
    var (q2, mm) := CopyFrom(q, s.ttbr0, src.userPages, EmptyMm, 0);
    var s' := CopyProcess(s, false).0;
    assert s' == s.(phys := q2, tasks := s.tasks + [Task(page, mm, false)]);
    assert TaskOk(s, own, s.current);
    ForkedInv(s, own, page, q2, own', mm);
    GraftKeepsTrees(own, own', s.current, c, page, s.current);
    KeptSpace(s, own, s', own', c, s.current);
    SameSpaceReads(s, own, s', own', s.current, va);
    if va < VA_LIMIT {
      ReadIsFrameWord(s, own, s.current, va);
      ReadIsFrameWord(s', own', c, va);
      ChildPage(s, own, q, own[Struct(c) := page], q2, own', mm, va);
    }
  }

  // The child's page at va, against the parent's.
  lemma ChildPage(s: State, own: Owners, q: Phys, own0: Owners, q2: Phys, own': Owners, mm: Mm, va: nat)
    requires Inv(s, own) && va < VA_LIMIT
    requires own0.Keys == own.Keys + {Struct(|s.tasks|)} && (forall x :: x in own ==> own0[x] == own[x])
    requires CopyState(q, own0, q2, own', s.current, |s.tasks|, CurrentMm(s), mm, |CurrentMm(s).userPages|)
    requires KeepsOthers(s.phys.mem, q.mem, own, |s.tasks|)
    ensures var x, y := PathNode(s.current, 4, va), PathNode(|s.tasks|, 4, va);
      && (x in own <==> y in own')
      && (x in own ==> SameWords(s.phys.mem, own[x], q2.mem, own'[y]))
  {
    var c, src := |s.tasks|, CurrentMm(s);
    var x, y := PathNode(s.current, 4, va), PathNode(c, 4, va);
    NoNodes(s, own);
    assert TaskOk(s, own, s.current);
    hide TablesIndexed, PhysOk, Inv;
    if x in own {
      PageNumber(va);
      assert UserPage(own[x], x.key * PAGE_SIZE) in src.userPages;
      var j :| 0 <= j < |src.userPages| && src.userPages[j] == UserPage(own[x], x.key * PAGE_SIZE);
      assert PageEntryOk(own', c, mm.userPages[j]);
      assert SameWords(q.mem, src.userPages[j].phys, q2.mem, mm.userPages[j].phys);
      KeptWords(own, s.phys.mem, q.mem, c, x);
    }
  }
}
