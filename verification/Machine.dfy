// Runs of the machine: every step keeps the ownership invariant, so in every reachable state frames
// are isolated and conserved, the side indexes agree with the tables in memory, and no task's step
// changes what another task reads.
module Machine {
  import opened Bits
  import opened PhysMem
  import opened Mmu
  import opened PageTables
  import opened MapPages
  import opened SideIndexes
  import opened CopyMemory
  import opened CopyVirt
  import opened AddressSpaces

  // The current task has one more page, zero-filled, at va; its other pages, the other tasks and
  // the kernel's memory are as before.
  ghost predicate FreshPageMapped(s: State, own: Owners, va: nat, own': Owners)
    requires WellFormed(s)
  {
    var (q, page) := GetFreePage(s.phys);
    && page != 0
    && var (q2, mm) := MapPage(q, CurrentMm(s), va, page);
    && var s' := SetMm(s, q2, mm);
    && mm.pgd != 0 && (CurrentMm(s).pgd != 0 ==> mm.pgd == CurrentMm(s).pgd)
    && PathNode(s.current, 4, va) in own' && own'[PathNode(s.current, 4, va)] == page
    && Inv(s'.(ttbr0 := mm.pgd), own') && OthersSame(s, own, s', own')
    && IsFrame(page) && (forall w :: 0 <= w < 512 ==> WordAt(q2.mem, page, w) == 0)
    && SamePagesBut(s.phys.mem, own, q2.mem, own', s.current, Key(va, 4))
    && LowSame(s.phys.mem, q2.mem)
  }

  // Mapping a fresh page for the current task, as move_to_user_mode and do_mem_abort do.
  lemma MapFreshPage(s: State, own: Owners, va: nat) returns (own': Owners)
    requires Inv(s, own) && va < VA_LIMIT && va % PAGE_SIZE == 0
    requires Translate(s.phys.mem, CurrentMm(s), va) == Fault
    requires FreeCount(s.phys) >= 1 + MissingTo(own, s.current, va, 3)
    ensures FreshPageMapped(s, own, va, own')
  {
    var t, mm0 := s.current, CurrentMm(s);
    var (q, page) := GetFreePage(s.phys);
    var own1 := own[Loose(page) := page];
    assert TaskOk(s, own, t);
    TakesUnowned(s.phys, own);
    TakeFrame(s.phys, own, Loose(page));
    MissingWithLoose(own, t, va, page, 3);
    TablesWithLoose(own, t, mm0, page);
    own' := MapPageOk(q, own1, t, mm0, va, page);
    var (q2, mm) := MapPage(q, mm0, va, page);
    TranslateIsTree(s.phys, own, t, mm0, va);
    IterationIndexes(own, own', t, va, page, mm0);
    MappedSteps(s, own, q, page, q2, own', mm, va);
    MappedRoot(own, own', t, mm0, mm, va, page);
    MappedInv(s, own, q2, own', mm, va, page);
    GetFreePageGivesZeroedFreeFrame(s.phys);
    KeptWords(own1, q.mem, q2.mem, t, Loose(page));
    MappedPages(s.phys.mem, own, q.mem, q2.mem, own', t, va, page);
  }

  // Task t's pages other than the one with key k are the same, words included.
  ghost predicate SamePagesBut(mem: seq<Word>, own: Owners, mem': seq<Word>, own': Owners, t: nat, k: nat) {
    forall j: nat :: j != k ==>
      && (Node(t, 4, j) in own' <==> Node(t, 4, j) in own)
      && (Node(t, 4, j) in own ==>
            && own'[Node(t, 4, j)] == own[Node(t, 4, j)]
            && SameWords(mem, own[Node(t, 4, j)], mem', own[Node(t, 4, j)]))
  }

  lemma MappedPages(mem: seq<Word>, own: Owners, mem1: seq<Word>, mem2: seq<Word>, own': Owners, t: nat, va: nat,
                    page: nat)
    requires MapsPage(own[Loose(page) := page], own', t, va, page) && Loose(page) !in own
    requires KeepsOthers(mem, mem1, own, t) && KeepsOthers(mem1, mem2, own[Loose(page) := page], t)
    ensures SamePagesBut(mem, own, mem2, own', t, Key(va, 4))
  {
    var own1 := own[Loose(page) := page];
    KeepsTransitive(mem, mem1, mem2, own, own1, t);
    forall j: nat | j != Key(va, 4)
      ensures Node(t, 4, j) in own' <==> Node(t, 4, j) in own
      ensures Node(t, 4, j) in own ==>
        own'[Node(t, 4, j)] == own[Node(t, 4, j)] && SameWords(mem, own[Node(t, 4, j)], mem2, own[Node(t, 4, j)])
    {
      MapsPageAt(own1, own', t, va, page, Node(t, 4, j));
      hide MapsPage, Key;
      if Node(t, 4, j) in own {
        KeptWords(own, mem, mem2, t, Node(t, 4, j));
      }
    }
  }

  lemma MappedRoot(own: Owners, own': Owners, t: nat, mm0: Mm, mm: Mm, va: nat, page: nat)
    requires OwnersOk(own') && TablesIndexed(own, t, mm0) && TablesIndexed(own', t, mm)
    requires MapsPage(own[Loose(page) := page], own', t, va, page)
    ensures mm.pgd != 0 && (mm0.pgd != 0 ==> mm.pgd == mm0.pgd)
  {
    RootOwned(own', t, va, 4);
    assert PlaceOk(own', Node(t, 0, 0));
    assert Node(t, 0, 0) in own ==> own[Loose(page) := page][Node(t, 0, 0)] == own[Node(t, 0, 0)];
  }

  lemma MappedSteps(s: State, own: Owners, q: Phys, page: nat, q2: Phys, own': Owners, mm: Mm, va: nat)
    requires Inv(s, own) && Loose(page) !in own && MapsPage(own[Loose(page) := page], own', s.current, va, page)
    requires KeepsOthers(s.phys.mem, q.mem, own, s.current)
    requires KeepsOthers(q.mem, q2.mem, own[Loose(page) := page], s.current)
    ensures OthersSame(s, own, SetMm(s, q2, mm), own')
  {
    var t, s', own1 := s.current, SetMm(s, q2, mm), own[Loose(page) := page];
    KeepsTransitive(s.phys.mem, q.mem, q2.mem, own, own1, t);
    forall u | 0 <= u < |s.tasks| && u != t
      ensures SameSpace(s, own, s', own', u)
    {
      MapKeepsTree(own, own', t, va, page, u);
      hide Key, KeepsOthers, MapsPage, Inv;
      KeptSpace(s, own, s', own', t, u);
    }
  }

  lemma MapKeepsTree(own: Owners, own': Owners, t: nat, va: nat, page: nat, u: nat)
    requires MapsPage(own[Loose(page) := page], own', t, va, page) && u != t
    ensures SameTree(own, own', u)
  {
    hide Key;
    var own1 := own[Loose(page) := page];
    assert forall x: Pos :: x in own && x.Node? ==> x in own1 && own1[x] == own[x];
  }

  lemma MappedInv(s: State, own: Owners, q2: Phys, own': Owners, mm: Mm, va: nat, page: nat)
    requires Inv(s, own) && PhysOk(q2, own') && MapsPage(own[Loose(page) := page], own', s.current, va, page)
    requires PathNode(s.current, 4, va) !in own && Loose(page) !in own
    requires TablesIndexed(own', s.current, mm) && PagesIndexed(own', s.current, mm.userPages)
    ensures Inv(SetMm(s, q2, mm).(ttbr0 := mm.pgd), own')
  {
    var t, s', own1 := s.current, SetMm(s, q2, mm).(ttbr0 := mm.pgd), own[Loose(page) := page];
    hide Key, PhysOk, TablesIndexed, PagesIndexed;
    forall u | 0 <= u < |s'.tasks|
      ensures TaskOk(s', own', u)
    {
      assert TaskOk(s, own, u);
      assert u > 0 ==> own1[Struct(u)] == own[Struct(u)];
      if u != t {
        MapKeepsTree(own, own', t, va, page, u);
        IndexedTransfer(own, own', u, s.tasks[u].mm);
      }
    }
  }

  // ----- stores -----

  // Writing a frame that is not a table keeps the invariant and every other frame's words.
  lemma FrameWriteOk(s: State, own: Owners, y: Pos, mem': seq<Word>)
    requires Inv(s, own) && y in own && (y.Node? ==> y.depth == 4) && SameBut(s.phys.mem, mem', own[y])
    ensures var s' := s.(phys := s.phys.(mem := mem'));
      && Inv(s', own)
      && (forall t :: 0 <= t < |s.tasks| && t != OwnedBy(y) ==> SameSpace(s, own, s', own, t))
  {
    var s' := s.(phys := s.phys.(mem := mem'));
    StoresKeepTree(s.phys, mem', own, y);
    forall t | 0 <= t < |s.tasks|
      ensures TaskOk(s', own, t)
    {
      assert TaskOk(s, own, t);
    }
    forall t, k | 0 <= t < |s.tasks| && t != OwnedBy(y) && Node(t, 4, k) in own
      ensures SameWords(s.phys.mem, own[Node(t, 4, k)], mem', own[Node(t, 4, k)])
    {
      assert PlaceOk(own, Node(t, 4, k)) && own[Node(t, 4, k)] != own[y];
    }
  }

  lemma StoreElsewhere(mem: seq<Word>, f: nat, w: nat, v: Word)
    requires |mem| == MEM_WORDS && IsFrame(f) && w < 512
    ensures SameBut(mem, SetWord(mem, f, w, v), f)
  {
    forall g, u | IsFrame(g) && g != f && 0 <= u < 512
      ensures WordAt(SetWord(mem, f, w, v), g, u) == WordAt(mem, g, u)
    {
      SetThenRead(mem, f, w, v, g, u);
    }
    WordsBelow(mem, f, w, v);
  }

  // A user store is a store to the frame the current task has at va, if it has one.
  lemma UserStoreIs(s: State, own: Owners, va: nat, v: Word)
    requires Inv(s, own) && CurrentMm(s).pgd != 0 && va < VA_LIMIT
    ensures var x := PathNode(s.current, 4, va);
      UserStore(s, va, v) ==
        if x in own then s.(phys := s.phys.(mem := SetWord(s.phys.mem, own[x], va % PAGE_SIZE / 8, v))) else s
  {
    assert TaskOk(s, own, s.current);
    TranslateIsTree(s.phys, own, s.current, CurrentMm(s), va);
    var x := PathNode(s.current, 4, va);
    if x in own {
      assert PlaceOk(own, x);
      WordOffset(s.phys.mem, own[x], va % PAGE_SIZE);
      StoreOffset(s.phys.mem, own[x], va % PAGE_SIZE, v);
    }
  }

  lemma StoreOffset(mem: seq<Word>, f: nat, off: nat, v: Word)
    requires f % PAGE_SIZE == 0
    ensures SetWord(mem, f + off, 0, v) == SetWord(mem, f, off / 8, v)
  {
    var q := f / PAGE_SIZE;
    FrameNumber(f);
    FieldShift(512 * q, off, 8);
  }

  // A user store changes one word of the storing task's address space, and no other word of it.
  lemma UserStoreUpdatesOneWord(s: State, own: Owners, va: nat, v: Word, va': nat)
    requires Inv(s, own) && CurrentMm(s).pgd != 0 && UserRead(s, s.current, va).Some?
    ensures UserRead(UserStore(s, va, v), s.current, va') ==
      if va' / 8 == va / 8 then Some(v) else UserRead(s, s.current, va')
  {
    var x, x' := PathNode(s.current, 4, va), PathNode(s.current, 4, va');
    ReadIsFrameWord(s, own, s.current, va);
    UserStoreIs(s, own, va, v);
    var s' := UserStore(s, va, v);
    assert PlaceOk(own, x);
    StoreElsewhere(s.phys.mem, own[x], va % PAGE_SIZE / 8, v);
    FrameWriteOk(s, own, x, s'.phys.mem);
    SameWordAddress(va, va');
    if va' < VA_LIMIT {
      ReadIsFrameWord(s, own, s.current, va');
      ReadIsFrameWord(s', own, s.current, va');
      if x' in own {
        assert PlaceOk(own, x');
        hide Inv, Key, UserRead;
        SetThenRead(s.phys.mem, own[x], va % PAGE_SIZE / 8, v, own[x'], va' % PAGE_SIZE / 8);
      }
    }
  }

  lemma SameWordAddress(va: nat, va': nat)
    requires va < VA_LIMIT
    ensures va' < VA_LIMIT ==>
      (va' / 8 == va / 8 <==> Key(va', 4) == Key(va, 4) && va' % PAGE_SIZE / 8 == va % PAGE_SIZE / 8)
    ensures va' >= VA_LIMIT ==> va' / 8 != va / 8
  {
    PageNumber(va);
    PageNumber(va');
    hide Key;
    WordOfPage(va);
    WordOfPage(va');
    SamePageSameWord(va / PAGE_SIZE, va % PAGE_SIZE / 8, va' / PAGE_SIZE, va' % PAGE_SIZE / 8);
  }

  lemma SamePageSameWord(q: nat, r: nat, q': nat, r': nat)
    requires r < 512 && r' < 512
    ensures 512 * q + r == 512 * q' + r' <==> q == q' && r == r'
  {
  }

  lemma WordOfPage(va: nat)
    ensures va / 8 == 512 * (va / PAGE_SIZE) + va % PAGE_SIZE / 8 && va % PAGE_SIZE / 8 < 512
  {
    FieldShift(512 * (va / PAGE_SIZE), va % PAGE_SIZE, 8);
  }
}
