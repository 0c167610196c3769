// Events of the machine, its runs, and what holds in every reachable state.
module Runs {
  import opened Limits
  import opened Bits
  import opened PhysMem
  import opened Mmu
  import opened PageTables
  import opened MapPages
  import opened SideIndexes
  import opened CopyMemory
  import opened CopyVirt
  import opened AddressSpaces
  import opened Machine

  // Store is a store in user mode, KernelWrite one of the kernel to the page of any task,
  // LowWrite one to the memory below LOW_MEMORY, where init's stack and the kernel's data lie.
  // exit_process changes nothing that this machine holds, so an exit is the Switch that follows it.
  datatype Event =
    | Fork(kthread: bool)
    | EnterUser(start: nat, size: nat)
    | Abort(addr: Word, esr: nat)
    | Switch(next: nat)
    | Store(va: nat, value: Word)
    | KernelWrite(t: nat, w: nat, value: Word)
    | LowWrite(i: nat, value: Word)

  // Tables that no walk of va reaches yet, down to the given level.
  function TablesToMake(mem: seq<Word>, mm: Mm, va: nat, level: nat): nat
    requires level <= 3
  {
    (if level == 0 then 0 else TablesToMake(mem, mm, va, level - 1)) +
    (if WalkTable(mem, mm.pgd, va, level) == 0 then 1 else 0)
  }

  // The fixed-size indexes have room for what mapping va adds, and the allocator does not run dry half-way.
  ghost predicate Room(s: State, va: nat)
    requires WellFormed(s)
  {
    var mm := CurrentMm(s);
    var needed := TablesToMake(s.phys.mem, mm, va, 3);
    && |mm.userPages| < MAX_PROCESS_PAGES && |mm.kernelPages| + needed < MAX_PROCESS_PAGES
    && (FreeCount(s.phys) == 0 || FreeCount(s.phys) >= 1 + needed)
  }

  // What the kernel counts on when it maps a page.
  ghost predicate RoomToMap(s: State, va: nat)
    requires WellFormed(s)
  {
    va < VA_LIMIT && Translate(s.phys.mem, CurrentMm(s), va) == Fault && Room(s, va)
  }

  // The words of the user image that move_to_user_mode copies lie in the kernel image.
  predicate InImage(start: nat, size: nat) {
    && 1 <= size <= PAGE_SIZE && VA_START <= start && start % 8 == 0
    && start - VA_START + 8 * Steps(size) <= LOW_MEMORY
  }

  ghost predicate Enabled(s: State, e: Event) {
    && WellFormed(s)
    && var me := s.tasks[s.current];
    match e
    case Fork(kthread) => !me.hung && |s.tasks| < NR_TASKS && CanFork(s, kthread)
    case EnterUser(start, size) => !me.hung && InImage(start, size) && RoomToMap(s, 0)
    case Abort(addr, esr) =>
      !me.hung && me.mm.pgd != 0 && (IsTranslationFault(esr) ==> RoomToMap(s, PageBase(addr)))
    case Switch(next) => next < |s.tasks|
    case Store(va, _) => !me.hung && me.mm.pgd != 0
    case KernelWrite(t, w, _) => 0 < t < |s.tasks| && w < 512
    case LowWrite(i, _) => i < LOW_MEMORY / 8
  }

  // A fault that do_mem_abort does not answer with 0 leaves the task in err_hang.
  function Apply(s: State, e: Event): State
    requires WellFormed(s)
    requires e.Switch? ==> e.next < |s.tasks|
    requires e.KernelWrite? ==> e.t < |s.tasks|
    requires e.LowWrite? ==> e.i < LOW_MEMORY / 8
  {
    match e
    case Fork(kthread) => CopyProcess(s, kthread).0
    case EnterUser(start, size) => MoveToUserMode(s, start, size).0
    case Abort(addr, esr) => (var (s', r) := DoMemAbort(s, addr, esr); if r == 0 then s' else Hang(s'))
    case Switch(next) => SwitchTo(s, next)
    case Store(va, value) => UserStore(s, va, value)
    case KernelWrite(t, w, value) => KernelStore(s, t, w, value)
    case LowWrite(i, value) => LowStore(s, i, value)
  }

  // The machine as boot leaves it: no frame handed out, init the only task.
  predicate Init(s: State) {
    && Shaped(s.phys) && (forall i :: 0 <= i < PAGING_PAGES ==> s.phys.memMap[i] == 0)
    && s.tasks == [Task(0, EmptyMm, false)] && s.current == 0 && s.ind == 1
  }

  ghost predicate IsRun(run: seq<State>, events: seq<Event>) {
    && |run| == |events| + 1 && Init(run[0])
    && (forall i :: 0 <= i < |events| ==> Enabled(run[i], events[i]) && run[i + 1] == Apply(run[i], events[i]))
  }

  // ----- one step -----

  lemma {:induction false} TablesToMakeIsMissing(p: Phys, own: Owners, t: nat, mm: Mm, va: nat, level: nat)
    requires PhysOk(p, own) && TablesIndexed(own, t, mm) && level <= 3
    ensures TablesToMake(p.mem, mm, va, level) == MissingTo(own, t, va, level)
  {
    if level == 0 {
    } else {
      TablesToMakeIsMissing(p, own, t, mm, va, level - 1);
    }
    hide Key;
    if Node(t, 0, 0) in own {
      WalkTableFindsTree(p.mem, own, t, va, level);
      assert PathNode(t, level, va) in own ==> PlaceOk(own, PathNode(t, level, va));
    } else {
      NoWalkTable(p.mem, va, level);
      if PathNode(t, level, va) in own {
        RootOwned(own, t, va, level);
      }
    }
  }

  lemma InitOk(s: State)
    requires Init(s)
    ensures Inv(s, map[])
  {
    var own: Owners := map[];
    assert TablePositions(own, 0) == {};
    assert TaskOk(s, own, 0);
  }

  lemma KernelSource(mem: seq<Word>, ttbr0: nat, f: nat, start: nat, size: nat)
    requires |mem| == MEM_WORDS && IsFrame(f) && InImage(start, size)
    ensures SourceStable(mem, ttbr0, f, start, Steps(size))
    ensures forall j :: 0 <= j < Steps(size) ==> LoadNth(mem, ttbr0, start, j) == mem[(start - VA_START) / 8 + j]
  {
    forall mem': seq<Word>, j | SameBut(mem, mem', f) && 0 <= j < Steps(size)
      ensures LoadNth(mem', ttbr0, start, j) == mem[(start - VA_START) / 8 + j]
    {
      var i := (start - VA_START) / 8 + j;
      assert start + 8 * j >= VA_START && (start + 8 * j - VA_START) / 8 == i < LOW_MEMORY / 8;
      assert mem'[i] == mem'[..LOW_MEMORY / 8][i] && mem[i] == mem[..LOW_MEMORY / 8][i];
    }
    assert SameBut(mem, mem, f);
  }

  lemma KeyOfZero()
    ensures Key(0, 4) == 0
  {
  }

  lemma NeedsMissing(s: State, own: Owners, va: nat)
    requires Inv(s, own) && RoomToMap(s, va)
    ensures Shaped(s.phys) && va < VA_LIMIT && Translate(s.phys.mem, CurrentMm(s), va) == Fault
    ensures GetFreePage(s.phys).1 != 0 ==> FreeCount(s.phys) >= 1 + MissingTo(own, s.current, va, 3)
    ensures GetFreePage(s.phys).1 == 0 ==> GetFreePage(s.phys).0 == s.phys
  {
    assert TaskOk(s, own, s.current);
    TablesToMakeIsMissing(s.phys, own, s.current, CurrentMm(s), va, 3);
    GetFreePageGivesZeroedFreeFrame(s.phys);
  }

  // move_to_user_mode: page 0 of the task holds the image, zero-filled, and nothing else changes.
  lemma EnterUserOk(s: State, own: Owners, start: nat, size: nat) returns (own': Owners)
    requires Inv(s, own) && InImage(start, size) && RoomToMap(s, 0)
    ensures var s' := MoveToUserMode(s, start, size).0;
      && Inv(s', own') && OthersSame(s, own, s', own')
      && (s' != s ==> ImageLoaded(s, own, s', own', start, size))
  {
    NeedsMissing(s, own, 0);
    if GetFreePage(s.phys).1 == 0 {
      own' := own;
    } else {
      own' := MapFreshPage(s, own, 0);
      LoadImage(s, own, own', start, size);
    }
  }

  // Word w of a page that holds the image from start on.
  function ImageWord(s: State, start: nat, size: nat, w: nat): Word
    requires WellFormed(s) && InImage(start, size)
  {
    if w < Steps(size) then s.phys.mem[(start - VA_START) / 8 + w] else 0
  }

  // The task's page 0 holds the image's words and then zeros; its other pages are the same.
  ghost predicate ImageLoaded(s: State, own: Owners, s': State, own': Owners, start: nat, size: nat)
    requires WellFormed(s) && WellFormed(s') && InImage(start, size)
  {
    var x := PathNode(s.current, 4, 0);
    && s'.current == s.current && CurrentMm(s').pgd != 0
    && x in own'
    && (forall w :: 0 <= w < 512 ==> WordAt(s'.phys.mem, own'[x], w) == ImageWord(s, start, size, w))
    && SamePagesBut(s.phys.mem, own, s'.phys.mem, own', s.current, 0)
  }

  lemma LoadImage(s: State, own: Owners, own': Owners, start: nat, size: nat)
    requires Inv(s, own) && InImage(start, size) && FreshPageMapped(s, own, 0, own')
    ensures var s' := MoveToUserMode(s, start, size).0;
      Inv(s', own') && OthersSame(s, own, s', own') && ImageLoaded(s, own, s', own', start, size)
  {
    hide MemCpy, PhysOk, TablesIndexed, PagesIndexed, Key, MapPage, GetFreePage, MoveToUserMode;
    var t, x := s.current, PathNode(s.current, 4, 0);
    var (q, page) := GetFreePage(s.phys);
    var (q2, mm) := MapPage(q, CurrentMm(s), 0, page);
    var s1 := SetMm(s, q2, mm).(ttbr0 := mm.pgd);
    var mem' := MemCpy(q2.mem, s.ttbr0, VA_START + page, start, size);
    var s' := SetMm(s, q2.(mem := mem'), mm).(ttbr0 := mm.pgd);
    KeyOfZero();
    EntersWithPage(s, start, size);
    KernelSource(q2.mem, s.ttbr0, page, start, size);
    MemCpyCopies(q2.mem, s.ttbr0, page, start, size);
    FrameWriteOk(s1, own', x, mem');
    hide SourceStable;
    assert s' == s1.(phys := s1.phys.(mem := mem'));
    ImageWords(s, q2.mem, mem', page, start, size);
    InvOwners(s1, own');
    OtherPagesSame(s.phys.mem, own, q2.mem, mem', own', t, x);
    hide Inv, SameSpace, SamePagesBut, ImageWord, CopiedTo;
    OthersStaySame(s, own, SetMm(s, q2, mm), own', mm.pgd, s');
  }

  lemma InvOwners(s: State, own: Owners)
    requires Inv(s, own)
    ensures OwnersOk(own)
  {
  }

  lemma EntersWithPage(s: State, start: nat, size: nat)
    requires WellFormed(s) && GetFreePage(s.phys).1 != 0
    ensures var (q, page) := GetFreePage(s.phys);
      var (q2, mm) := MapPage(q, CurrentMm(s), 0, page);
      var mem' := MemCpy(q2.mem, s.ttbr0, VA_START + page, start, size);
      MoveToUserMode(s, start, size).0 == SetMm(s, q2.(mem := mem'), mm).(ttbr0 := mm.pgd)
  {
    hide MapPage, MemCpy, GetFreePage;
  }

  // Other tasks are the same after both steps of a change.
  lemma OthersStaySame(s: State, own: Owners, s1: State, own': Owners, pgd: nat, s': State)
    requires OthersSame(s, own, s1, own') && |s1.tasks| == |s.tasks| && LowSame(s1.phys.mem, s'.phys.mem)
    requires forall u :: 0 <= u < |s.tasks| && u != s.current ==> SameSpace(s1.(ttbr0 := pgd), own', s', own', u)
    ensures OthersSame(s, own, s', own')
  {
    hide SameTree, SameWords;
    forall u | 0 <= u < |s.tasks| && u != s.current
      ensures SameSpace(s, own, s', own', u)
    {
      assert SameSpace(s, own, s1, own', u) && SameSpace(s1.(ttbr0 := pgd), own', s', own', u);
      SameSpaceTransitive(s, own, s1.(ttbr0 := pgd), own', s', own', u);
    }
  }

  lemma ImageWords(s: State, mem: seq<Word>, mem': seq<Word>, page: nat, start: nat, size: nat)
    requires WellFormed(s) && InImage(start, size) && LowSame(s.phys.mem, mem) && IsFrame(page)
    requires forall w :: 0 <= w < 512 ==> WordAt(mem, page, w) == 0
    requires CopiedTo(mem, mem', s.ttbr0, page, start, Steps(size))
    ensures forall w :: 0 <= w < 512 ==> WordAt(mem', page, w) == ImageWord(s, start, size, w)
  {
    KernelSource(mem, s.ttbr0, page, start, size);
    forall w | 0 <= w < Steps(size)
      ensures WordAt(mem', page, w) == ImageWord(s, start, size, w)
    {
      var i := (start - VA_START) / 8 + w;
      assert mem[i] == mem[..LOW_MEMORY / 8][i] && s.phys.mem[i] == s.phys.mem[..LOW_MEMORY / 8][i];
    }
  }

  lemma OtherPagesSame(mem: seq<Word>, own: Owners, mem1: seq<Word>, mem2: seq<Word>, own': Owners, t: nat, x: Pos)
    requires OwnersOk(own') && x in own' && x.Node? && x.task == t && x.depth == 4 && SameBut(mem1, mem2, own'[x])
    requires SamePagesBut(mem, own, mem1, own', t, x.key)
    ensures SamePagesBut(mem, own, mem2, own', t, x.key)
  {
    forall j: nat | j != x.key && Node(t, 4, j) in own
      ensures SameWords(mem, own[Node(t, 4, j)], mem2, own[Node(t, 4, j)])
    {
      assert PlaceOk(own', Node(t, 4, j)) && own'[Node(t, 4, j)] != own'[x];
      assert SameWords(mem, own[Node(t, 4, j)], mem1, own[Node(t, 4, j)]);
    }
  }

  lemma SameSpaceTransitive(s: State, own: Owners, s1: State, own1: Owners, s2: State, own2: Owners, t: nat)
    requires SameSpace(s, own, s1, own1, t) && SameSpace(s1, own1, s2, own2, t)
    ensures SameSpace(s, own, s2, own2, t)
  {
    forall k | Node(t, 4, k) in own
      ensures SameWords(s.phys.mem, own[Node(t, 4, k)], s2.phys.mem, own[Node(t, 4, k)])
    {
      assert SameWords(s.phys.mem, own[Node(t, 4, k)], s1.phys.mem, own[Node(t, 4, k)]);
      assert SameWords(s1.phys.mem, own1[Node(t, 4, k)], s2.phys.mem, own1[Node(t, 4, k)]);
    }
  }

  lemma HangOk(s: State, own: Owners)
    requires Inv(s, own)
    ensures Inv(Hang(s), own)
  {
    forall t | 0 <= t < |s.tasks|
      ensures TaskOk(Hang(s), own, t)
    {
      assert TaskOk(s, own, t);
    }
  }

  // do_mem_abort on a translation fault: the faulting page appears, zero-filled, whatever is
  // returned, and nothing else changes; any other abort changes nothing.
  lemma AbortOk(s: State, own: Owners, addr: Word, esr: nat) returns (own': Owners)
    requires Inv(s, own) && CurrentMm(s).pgd != 0
    requires IsTranslationFault(esr) ==> RoomToMap(s, PageBase(addr))
    ensures var s' := DoMemAbort(s, addr, esr).0;
      && Inv(s', own') && OthersSame(s, own, s', own')
      && (s' != s ==> ZeroPageAdded(s, own, s', own', PageBase(addr)))
  {
    NeedsAligned(addr);
    hide Inv, RoomToMap, GetFreePage, MissingTo, FreeCount, OthersSame, ZeroPageAdded, DoMemAbort, PageBase,
      IsTranslationFault, Translate, FreshPageMapped;
    if IsTranslationFault(esr) && GetFreePage(s.phys).1 != 0 {
      NeedsMissing(s, own, PageBase(addr));
      own' := MapFreshPage(s, own, PageBase(addr));
      FaultServiced(s, own, own', addr, esr);
    } else {
      NothingMapped(s, own, addr, esr);
      own' := own;
    }
  }

  lemma NeedsAligned(addr: Word)
    ensures PageBase(addr) % PAGE_SIZE == 0 && PageBase(addr) / PAGE_SIZE == addr / PAGE_SIZE
  {
  }

  lemma NothingMapped(s: State, own: Owners, addr: Word, esr: nat)
    requires Inv(s, own) && !(IsTranslationFault(esr) && GetFreePage(s.phys).1 != 0)
    ensures DoMemAbort(s, addr, esr) == (s, -1) && OthersSame(s, own, s, own)
  {
    GetFreePageGivesZeroedFreeFrame(s.phys);
  }

  lemma FaultServiced(s: State, own: Owners, own': Owners, addr: Word, esr: nat)
    requires Inv(s, own) && CurrentMm(s).pgd != 0
    requires IsTranslationFault(esr) && FreshPageMapped(s, own, PageBase(addr), own')
    ensures var s' := DoMemAbort(s, addr, esr).0;
      Inv(s', own') && OthersSame(s, own, s', own') && ZeroPageAdded(s, own, s', own', PageBase(addr))
  {
    hide Inv, OthersSame, PhysOk, MapPage, GetFreePage, Key, PageBase, SamePagesBut;
    CurrentBase(s, own);
    var (q, page) := GetFreePage(s.phys);
    var (q2, mm) := MapPage(q, CurrentMm(s), PageBase(addr), page);
    var s1 := SetMm(s, q2, mm);
    assert s1.(ttbr0 := mm.pgd) == s1;
    CountedOk(s, own, s1, own', s.ind + 1);
  }

  lemma CurrentBase(s: State, own: Owners)
    requires Inv(s, own) && CurrentMm(s).pgd != 0
    ensures WellFormed(s) && s.ttbr0 == CurrentMm(s).pgd
  {
  }

  lemma CountedOk(s: State, own: Owners, s1: State, own': Owners, ind: int)
    requires Inv(s1, own') && OthersSame(s, own, s1, own')
    ensures Inv(s1.(ind := ind), own') && OthersSame(s, own, s1.(ind := ind), own')
  {
    hide PhysOk, TablesIndexed, PagesIndexed, SameTree, SameWords;
    var s2 := s1.(ind := ind);
    forall t | 0 <= t < |s1.tasks|
      ensures TaskOk(s2, own', t)
    {
      assert TaskOk(s1, own', t);
    }
    forall t | 0 <= t < |s.tasks| && t != s.current
      ensures SameSpace(s, own, s2, own', t)
    {
      assert SameSpace(s, own, s1, own', t);
    }
  }

  ghost predicate ZeroPageAdded(s: State, own: Owners, s': State, own': Owners, va: nat)
    requires WellFormed(s)
  {
    var x := PathNode(s.current, 4, va);
    && s'.current == s.current
    && x in own'
    && (forall w :: 0 <= w < 512 ==> WordAt(s'.phys.mem, own'[x], w) == 0)
    && SamePagesBut(s.phys.mem, own, s'.phys.mem, own', s.current, Key(va, 4))
  }

  // Of the memory below LOW_MEMORY only the word a LowWrite names changes.
  ghost predicate LowKept(s: State, e: Event, s': State) {
    && |s'.phys.mem| == |s.phys.mem| == MEM_WORDS
    && forall i :: 0 <= i < LOW_MEMORY / 8 && !(e.LowWrite? && e.i == i) ==> s'.phys.mem[i] == s.phys.mem[i]
  }

  lemma SameIsKept(s: State, e: Event, s': State)
    requires LowSame(s.phys.mem, s'.phys.mem)
    ensures LowKept(s, e, s')
  {
    var mem, mem' := s.phys.mem, s'.phys.mem;
    forall i | 0 <= i < LOW_MEMORY / 8
      ensures mem'[i] == mem[i]
    {
      assert mem'[..LOW_MEMORY / 8][i] == mem[..LOW_MEMORY / 8][i];
    }
  }

  // Every enabled step keeps the invariant and every other task's address space.
  lemma StepOk(s: State, own: Owners, e: Event) returns (own': Owners)
    requires Inv(s, own) && Enabled(s, e)
    ensures Inv(Apply(s, e), own') && OthersKept(s, own, Apply(s, e), own') && LowKept(s, e, Apply(s, e))
  {
    if e.LowWrite? {
      LowWriteOk(s, own, e.i, e.value);
      own' := own;
    } else {
      own' := QuietStepOk(s, own, e);
      SameIsKept(s, e, Apply(s, e));
    }
  }

  lemma QuietStepOk(s: State, own: Owners, e: Event) returns (own': Owners)
    requires Inv(s, own) && Enabled(s, e) && !e.LowWrite?
    ensures Inv(Apply(s, e), own') && OthersSame(s, own, Apply(s, e), own')
  {
    own' := own;
    match e {
      case Fork(kthread) =>
        own' := ForkOk(s, own, kthread);
        assert forall t :: 0 <= t < |s.tasks| ==> SameSpace(s, own, Apply(s, e), own', t);
      case EnterUser(start, size) =>
        own' := EnterUserOk(s, own, start, size);
      case Abort(addr, esr) =>
        own' := AbortOk(s, own, addr, esr);
        AbortedHang(s, own, own', addr, esr);
      case Switch(next) =>
        SwitchOk(s, own, next);
      case Store(va, value) =>
        StoreOk(s, own, va, value);
      case KernelWrite(t, w, value) =>
        KernelWriteOk(s, own, t, w, value);
    }
  }

  // Frames lie above the words a LowWrite can reach.
  lemma LowWriteOk(s: State, own: Owners, i: nat, value: Word)
    requires Inv(s, own) && i < LOW_MEMORY / 8
    ensures Inv(LowStore(s, i, value), own) && OthersKept(s, own, LowStore(s, i, value), own)
    ensures LowKept(s, LowWrite(i, value), LowStore(s, i, value))
  {
    var s' := LowStore(s, i, value);
    forall f: nat, w: nat | IsFrame(f) && w < 512
      ensures WordAt(s'.phys.mem, f, w) == WordAt(s.phys.mem, f, w)
    {
      assert f / 8 >= LOW_MEMORY / 8;
    }
    forall x | IsChild(x) && Parent(x) in own
      ensures SlotOk(s'.phys.mem, own, x)
    {
      assert SlotOk(s.phys.mem, own, x) && PlaceOk(own, Parent(x));
    }
    forall t | 0 <= t < |s.tasks|
      ensures TaskOk(s', own, t) && SameSpace(s, own, s', own, t)
    {
      assert TaskOk(s, own, t);
      forall k | Node(t, 4, k) in own
        ensures SameWords(s.phys.mem, own[Node(t, 4, k)], s'.phys.mem, own[Node(t, 4, k)])
      {
        assert PlaceOk(own, Node(t, 4, k));
      }
    }
  }

  lemma AbortedHang(s: State, own: Owners, own': Owners, addr: Word, esr: nat)
    requires Inv(s, own)
    requires var s' := DoMemAbort(s, addr, esr).0; Inv(s', own') && OthersSame(s, own, s', own')
    ensures Inv(Apply(s, Abort(addr, esr)), own') && OthersSame(s, own, Apply(s, Abort(addr, esr)), own')
  {
    var (s', r) := DoMemAbort(s, addr, esr);
    HangOk(s', own');
    forall u | 0 <= u < |s.tasks| && u != s.current
      ensures SameSpace(s, own, Hang(s'), own', u)
    {
      assert SameSpace(s, own, s', own', u);
    }
  }

  lemma SwitchOk(s: State, own: Owners, next: nat)
    requires Inv(s, own) && next < |s.tasks|
    ensures Inv(SwitchTo(s, next), own) && OthersSame(s, own, SwitchTo(s, next), own)
  {
    forall t | 0 <= t < |s.tasks|
      ensures TaskOk(SwitchTo(s, next), own, t)
    {
      assert TaskOk(s, own, t);
    }
  }

  lemma StoreOk(s: State, own: Owners, va: nat, value: Word)
    requires Inv(s, own) && CurrentMm(s).pgd != 0
    ensures Inv(UserStore(s, va, value), own) && OthersSame(s, own, UserStore(s, va, value), own)
  {
    if va < VA_LIMIT {
      UserStoreIs(s, own, va, value);
      var x := PathNode(s.current, 4, va);
      if x in own {
        assert PlaceOk(own, x);
        StoreElsewhere(s.phys.mem, own[x], va % PAGE_SIZE / 8, value);
        FrameWriteOk(s, own, x, UserStore(s, va, value).phys.mem);
      }
    }
  }

  // No address space has the page of a task_struct in it, so nobody reads the store.
  lemma KernelWriteOk(s: State, own: Owners, t: nat, w: nat, value: Word)
    requires Inv(s, own) && 0 < t < |s.tasks| && w < 512
    ensures var s' := KernelStore(s, t, w, value);
      Inv(s', own) && OthersSame(s, own, s', own) && forall u :: 0 <= u < |s.tasks| ==> SameSpace(s, own, s', own, u)
  {
    assert TaskOk(s, own, t);
    var x, s' := Struct(t), KernelStore(s, t, w, value);
    assert PlaceOk(own, x);
    StoreElsewhere(s.phys.mem, own[x], w, value);
    FrameWriteOk(s, own, x, s'.phys.mem);
    hide Inv;
    forall k | Node(t, 4, k) in own
      ensures SameWords(s.phys.mem, own[Node(t, 4, k)], s'.phys.mem, own[Node(t, 4, k)])
    {
      assert PlaceOk(own, Node(t, 4, k));
    }
    assert SameSpace(s, own, s', own, t);
  }

  // ----- runs -----

  lemma {:induction false} RunOk(run: seq<State>, events: seq<Event>, n: nat) returns (own: Owners)
    requires IsRun(run, events) && n <= |events|
    ensures Inv(run[n], own)
  {
    if n == 0 {
      InitOk(run[0]);
      own := map[];
    } else {
      var own1 := RunOk(run, events, n - 1);
      own := StepOk(run[n - 1], own1, events[n - 1]);
    }
  }

  // While task t is not current, nothing that happens changes what it reads: not forks, faults,
  // stores, first entries to user mode or kernel writes of other tasks.
  lemma {:induction false} OthersNeverChangeReads(run: seq<State>, events: seq<Event>, i: nat, n: nat, t: nat, va: nat)
    requires IsRun(run, events) && i <= n <= |events| && t < |run[i].tasks|
    requires forall k :: i <= k < n ==> run[k].current != t
    ensures t < |run[n].tasks| && UserRead(run[n], t, va) == UserRead(run[i], t, va)
    decreases n - i
  {
    if i == n {
    } else {
      OthersNeverChangeReads(run, events, i, n - 1, t, va);
      var own := RunOk(run, events, n - 1);
      var own' := StepOk(run[n - 1], own, events[n - 1]);
      assert SameSpace(run[n - 1], own, run[n], own', t);
      SameSpaceReads(run[n - 1], own, run[n], own', t, va);
    }
  }
}
