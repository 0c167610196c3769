// Faults at addresses of 2^48 and above. far_el1 can hold them and do_mem_abort does not look at the
// bits above 47, so map_page takes the page whose address has the same low 48 bits.
module AliasedFault {
  import opened Bits
  import opened PhysMem
  import opened Mmu
  import opened PageTables
  import opened MapPages
  import opened SideIndexes
  import opened CopyVirt
  import opened AddressSpaces
  import opened Machine
  import opened Runs
  import opened Isolation
  import FaultRun

  // do_mem_abort gets a frame for the fault and has room to map it; any 64-bit address.
  ghost predicate CanService(s: State, addr: Word, esr: nat) {
    && WellFormed(s) && CurrentMm(s).pgd != 0 && IsTranslationFault(esr)
    && GetFreePage(s.phys).1 != 0 && Room(s, PageBase(addr))
  }

  // The page that addr selects with its low 48 bits.
  function Alias(addr: Word): nat {
    addr % VA_LIMIT
  }

  lemma AliasPage(addr: Word)
    ensures PageBase(addr) % VA_LIMIT / PAGE_SIZE == Alias(addr) / PAGE_SIZE
    ensures Key(PageBase(addr), 4) == Alias(addr) / PAGE_SIZE == Key(Alias(addr), 4)
    ensures PageBase(addr) % PAGE_SIZE == 0 && (PageBase(addr) < VA_LIMIT <==> addr < VA_LIMIT)
    ensures addr < VA_LIMIT ==> Alias(addr) == addr
    ensures addr >= VA_LIMIT ==> Alias(addr) / PAGE_SIZE != addr / PAGE_SIZE
  {
    var q, low := addr / PAGE_SIZE, addr % PAGE_SIZE;
    RemainderUnique(PageBase(addr), PAGE_SIZE, q, 0);
    PageNumber(addr);
    PageNumber(PageBase(addr));
    PageNumber(Alias(addr));
  }

  // The frame taken for the page, with its owners.
  lemma Taken(s: State, own: Owners, addr: Word, esr: nat)
    requires Inv(s, own) && CanService(s, addr, esr)
    ensures var (q, page) := GetFreePage(s.phys);
      && Loose(page) !in own && page !in own.Values && IsFrame(page) && PhysOk(q, own[Loose(page) := page])
      && TablesIndexed(own[Loose(page) := page], s.current, CurrentMm(s))
      && MissingTo(own[Loose(page) := page], s.current, PageBase(addr), 3) <= FreeCount(q)
      && KeepsOthers(s.phys.mem, q.mem, own, s.current)
      && forall w :: 0 <= w < 512 ==> WordAt(q.mem, page, w) == 0
  {
    var t, mm, va := s.current, CurrentMm(s), PageBase(addr);
    var page := GetFreePage(s.phys).1;
    GetFreePageGivesZeroedFreeFrame(s.phys);
    assert TaskOk(s, own, t);
    TablesToMakeIsMissing(s.phys, own, t, mm, va, 3);
    TakesUnowned(s.phys, own);
    TakeFrame(s.phys, own, Loose(page));
    MissingWithLoose(own, t, va, page, 3);
    TablesWithLoose(own, t, mm, page);
  }

  // Where the task's addresses lead after the fault.
  lemma ServicedTranslation(s: State, own: Owners, addr: Word, esr: nat, va: nat)
    requires Inv(s, own) && CanService(s, addr, esr) && va < VA_LIMIT
    ensures var s' := DoMemAbort(s, addr, esr).0;
      && WellFormed(s') && s'.current == s.current
      && Translate(s'.phys.mem, CurrentMm(s'), va) ==
           if va / PAGE_SIZE == Alias(addr) / PAGE_SIZE then Mapped(GetFreePage(s.phys).1 + va % PAGE_SIZE, 1, true)
           else Translate(s.phys.mem, CurrentMm(s), va)
  {
    var t, mm := s.current, CurrentMm(s);
    var (q, page) := GetFreePage(s.phys);
    Taken(s, own, addr, esr);
    AliasPage(addr);
    assert TaskOk(s, own, t);
    MapPageUpdatesTranslation(q, own[Loose(page) := page], t, mm, PageBase(addr), page, va);
    SameTranslation(s, own, q, page, va);
  }

  // Every other mapped address of the task still leads to the same place.
  ghost predicate KeepsMappings(s: State, s': State, addr: Word)
    requires WellFormed(s) && WellFormed(s')
  {
    forall va ::
      0 <= va < VA_LIMIT && va / PAGE_SIZE != addr / PAGE_SIZE && Translate(s.phys.mem, CurrentMm(s), va) != Fault
      ==> Translate(s'.phys.mem, CurrentMm(s'), va) == Translate(s.phys.mem, CurrentMm(s), va)
  }

  // What the page at a reads is replaced, and nothing else.
  ghost predicate Remaps(s: State, s': State, a: nat, page: nat)
    requires WellFormed(s) && WellFormed(s')
  {
    forall va :: 0 <= va < VA_LIMIT ==> RemapsAt(s, s', a, page, va)
  }

  ghost predicate RemapsAt(s: State, s': State, a: nat, page: nat, va: nat)
    requires WellFormed(s) && WellFormed(s')
  {
    Translate(s'.phys.mem, CurrentMm(s'), va) ==
      if va / PAGE_SIZE == a / PAGE_SIZE then Mapped(page + va % PAGE_SIZE, 1, true)
      else Translate(s.phys.mem, CurrentMm(s), va)
  }

  lemma ServicedRemaps(s: State, own: Owners, addr: Word, esr: nat)
    requires Inv(s, own) && CanService(s, addr, esr)
    ensures var s' := DoMemAbort(s, addr, esr).0;
      WellFormed(s') && s'.current == s.current && Remaps(s, s', Alias(addr), GetFreePage(s.phys).1)
  {
    assert WellFormed(s);
    hide Inv, CanService, DoMemAbort, Translate, GetFreePage, Alias, CurrentMm;
    var s' := DoMemAbort(s, addr, esr).0;
    ServicedTranslation(s, own, addr, esr, 0);
    forall va: nat | va < VA_LIMIT
      ensures RemapsAt(s, s', Alias(addr), GetFreePage(s.phys).1, va)
    {
      ServicedTranslation(s, own, addr, esr, va);
    }
  }

  // A page is mapped as a whole, and not at a frame that is free.
  lemma MappedAsWhole(s: State, own: Owners, a: nat, va: nat, page: nat)
    requires Inv(s, own) && a < VA_LIMIT && va < VA_LIMIT && va / PAGE_SIZE == a / PAGE_SIZE && page !in own.Values
    ensures Translate(s.phys.mem, CurrentMm(s), va) == Fault <==> Translate(s.phys.mem, CurrentMm(s), a) == Fault
    ensures Translate(s.phys.mem, CurrentMm(s), a) != Mapped(page + a % PAGE_SIZE, 1, true)
  {
    assert TaskOk(s, own, s.current);
    hide Inv, PhysOk, TablesIndexed, Key;
    TranslateIsTree(s.phys, own, s.current, CurrentMm(s), a);
    TranslateIsTree(s.phys, own, s.current, CurrentMm(s), va);
    PageNumber(va);
    PageNumber(a);
  }

  // A serviced fault leaves the task's other pages alone if and only if its address is below 2^48, or no
  // page is mapped at the address with the same low 48 bits.
  lemma FaultKeepsMappingsIff(s: State, own: Owners, addr: Word, esr: nat)
    requires Inv(s, own) && CanService(s, addr, esr)
    ensures var s' := DoMemAbort(s, addr, esr).0;
      && WellFormed(s')
      && (KeepsMappings(s, s', addr) <==>
            addr < VA_LIMIT || Translate(s.phys.mem, CurrentMm(s), Alias(addr)) == Fault)
  {
    assert WellFormed(s);
    ServicedRemaps(s, own, addr, esr);
    Taken(s, own, addr, esr);
    AliasPage(addr);
    var s', a, page := DoMemAbort(s, addr, esr).0, Alias(addr), GetFreePage(s.phys).1;
    assert a < VA_LIMIT;
    hide Inv, CanService, DoMemAbort, Translate, GetFreePage, Alias, CurrentMm, WellFormed, RemapsAt;
    MappedAsWhole(s, own, a, a, page);
    if addr < VA_LIMIT || Translate(s.phys.mem, CurrentMm(s), a) == Fault {
      forall va: nat |
        va < VA_LIMIT && va / PAGE_SIZE != addr / PAGE_SIZE && Translate(s.phys.mem, CurrentMm(s), va) != Fault
        ensures Translate(s'.phys.mem, CurrentMm(s'), va) == Translate(s.phys.mem, CurrentMm(s), va)
      {
        RemapsOrNot(s, s', a, page, va);
        if va / PAGE_SIZE == a / PAGE_SIZE {
          MappedAsWhole(s, own, a, va, page);
        }
      }
    } else {
      RemapsOrNot(s, s', a, page, a);
    }
  }

  lemma RemapsOrNot(s: State, s': State, a: nat, page: nat, va: nat)
    requires WellFormed(s) && WellFormed(s') && Remaps(s, s', a, page) && va < VA_LIMIT
    ensures Translate(s'.phys.mem, CurrentMm(s'), va) ==
      if va / PAGE_SIZE == a / PAGE_SIZE then Mapped(page + va % PAGE_SIZE, 1, true)
      else Translate(s.phys.mem, CurrentMm(s), va)
  {
    assert RemapsAt(s, s', a, page, va);
  }

  // The owners after the fault, and the words of the new page.
  lemma ServicedOwners(s: State, own: Owners, addr: Word, esr: nat) returns (own': Owners)
    requires Inv(s, own) && CanService(s, addr, esr)
    ensures var (q, page) := GetFreePage(s.phys);
      var (q2, mm2) := MapPage(q, CurrentMm(s), PageBase(addr), page);
      && PhysOk(q2, own') && OthersSame(s, own, SetMm(s, q2, mm2), own')
      && IsFrame(page) && forall w :: 0 <= w < 512 ==> WordAt(q2.mem, page, w) == 0
  {
    var (q, page) := GetFreePage(s.phys);
    var t, mm, own1 := s.current, CurrentMm(s), own[Loose(page) := page];
    var (q2, mm2) := MapPage(q, mm, PageBase(addr), page);
    Taken(s, own, addr, esr);
    assert WellFormed(s);
    hide Inv, CanService, GetFreePage, PageBase, MapPage, PhysOk, TablesIndexed, Key, MissingTo, FreeCount, OthersSame,
      KeepsOthers, MapsPage;
    own' := MapPageOk(q, own1, t, mm, PageBase(addr), page);
    MappedSteps(s, own, q, page, q2, own', mm2, PageBase(addr));
    KeptWords(own1, q.mem, q2.mem, t, Loose(page));
  }

  // In any case the page at the low 48 bits is then a new one that reads as zero, and no other task is
  // affected.
  lemma FaultTakesAlias(s: State, own: Owners, addr: Word, esr: nat) returns (own': Owners)
    requires Inv(s, own) && CanService(s, addr, esr)
    ensures var s' := DoMemAbort(s, addr, esr).0;
      && WellFormed(s') && PhysOk(s'.phys, own') && OthersSame(s, own, s', own')
      && UserRead(s', s.current, Alias(addr)) == Some(0)
  {
    assert WellFormed(s);
    hide Inv, CanService, DoMemAbort, Translate, GetFreePage, PageBase, MapPage, PhysOk, OthersSame, UserRead,
      WellFormed;
    var (q, page) := GetFreePage(s.phys);
    var (q2, mm2) := MapPage(q, CurrentMm(s), PageBase(addr), page);
    ServicedState(s, addr, esr);
    ServicedTranslation(s, own, addr, esr, Alias(addr));
    own' := ServicedOwners(s, own, addr, esr);
    IndIsNotRead(s, own, SetMm(s, q2, mm2), own', s.ind + 1);
    ReadsZero(DoMemAbort(s, addr, esr).0, Alias(addr), page);
  }

  lemma ServicedState(s: State, addr: Word, esr: nat)
    requires CanService(s, addr, esr)
    ensures var (q, page) := GetFreePage(s.phys);
      var (q2, mm2) := MapPage(q, CurrentMm(s), PageBase(addr), page);
      var s' := DoMemAbort(s, addr, esr).0;
      s' == SetMm(s, q2, mm2).(ind := s.ind + 1) && s'.phys == q2
  {
  }

  lemma IndIsNotRead(s: State, own: Owners, s1: State, own': Owners, ind: int)
    requires OthersSame(s, own, s1, own')
    ensures OthersSame(s, own, s1.(ind := ind), own')
  {
    forall u | 0 <= u < |s.tasks| && u != s.current
      ensures SameSpace(s, own, s1.(ind := ind), own', u)
    {
      assert SameSpace(s, own, s1, own', u);
    }
  }

  lemma ReadsZero(s: State, va: nat, page: nat)
    requires WellFormed(s) && Translate(s.phys.mem, CurrentMm(s), va) == Mapped(page + va % PAGE_SIZE, 1, true)
    requires IsFrame(page) && forall w :: 0 <= w < 512 ==> WordAt(s.phys.mem, page, w) == 0
    ensures UserRead(s, s.current, va) == Some(0)
  {
    WordOffset(s.phys.mem, page, va % PAGE_SIZE);
    assert va % PAGE_SIZE / 8 < 512;
  }

  // user_pages stays in agreement with the tables exactly if the address is below 2^48 and was not mapped.
  lemma FaultKeepsAgreementIff(s: State, own: Owners, addr: Word, esr: nat)
    requires Inv(s, own) && CanService(s, addr, esr)
    ensures var s' := DoMemAbort(s, addr, esr).0;
      && WellFormed(s') && PagesAgree(s.phys.mem, CurrentMm(s))
      && (PagesAgree(s'.phys.mem, CurrentMm(s')) <==>
            addr < VA_LIMIT && Translate(s.phys.mem, CurrentMm(s), PageBase(addr)) == Fault)
  {
    var (q, page) := GetFreePage(s.phys);
    ServicedState(s, addr, esr);
    Taken(s, own, addr, esr);
    assert WellFormed(s);
    hide Inv, CanService, DoMemAbort, Translate, GetFreePage, PageBase, MapPage, PhysOk, TablesIndexed, PagesAgree,
      MissingTo, FreeCount, Key;
    AliasPage(addr);
    AgreementTaken(s, own, q, page);
    MapPageKeepsAgreementIff(q, own[Loose(page) := page], s.current, CurrentMm(s), PageBase(addr), page);
    SameTranslation(s, own, q, page, PageBase(addr));
  }

  lemma SameTranslation(s: State, own: Owners, q: Phys, page: nat, va: nat)
    requires Inv(s, own) && Loose(page) !in own && PhysOk(q, own[Loose(page) := page])
    requires TablesIndexed(own[Loose(page) := page], s.current, CurrentMm(s))
    ensures Translate(q.mem, CurrentMm(s), va) == Translate(s.phys.mem, CurrentMm(s), va)
  {
    assert TaskOk(s, own, s.current);
    hide PhysOk, TablesIndexed, Key;
    if va < VA_LIMIT {
      TranslateIsTree(s.phys, own, s.current, CurrentMm(s), va);
      TranslateIsTree(q, own[Loose(page) := page], s.current, CurrentMm(s), va);
    }
  }

  lemma AgreementTaken(s: State, own: Owners, q: Phys, page: nat)
    requires Inv(s, own) && Loose(page) !in own && PhysOk(q, own[Loose(page) := page])
    requires TablesIndexed(own[Loose(page) := page], s.current, CurrentMm(s))
    ensures PagesAgree(s.phys.mem, CurrentMm(s)) && PagesAgree(q.mem, CurrentMm(s))
  {
    var t, mm, own1 := s.current, CurrentMm(s), own[Loose(page) := page];
    assert TaskOk(s, own, t);
    assert PagesIndexed(own1, t, mm.userPages) by {
      hide Key;
      assert forall i :: 0 <= i < |mm.userPages| ==> PageEntryOk(own, t, mm.userPages[i]);
    }
    hide PagesIndexed, PhysOk, TablesIndexed, PagesAgree;
    PagesIndexedAgree(s.phys, own, t, mm);
    PagesIndexedAgree(q, own1, t, mm);
  }

  // The instance: from every boot state, a user task that has just entered user mode and touches 2^48
  // gets 0 from do_mem_abort, finds its program's page replaced by zeros, and its user_pages no longer
  // agree with its tables.
  lemma ProgramPageLost(s: State) returns (run: seq<State>)
    requires Init(s)
    ensures IsRun(run, [Fork(true), Switch(1), EnterUser(VA_START, 8)]) && run[0] == s && run[3].current == 1
    ensures WellFormed(run[3]) && Translate(run[3].phys.mem, CurrentMm(run[3]), 0) != Fault
    ensures var (s', r) := DoMemAbort(run[3], VA_LIMIT, 4);
      && r == 0 && WellFormed(s') && !KeepsMappings(run[3], s', VA_LIMIT)
      && UserRead(s', 1, 0) == Some(0)
      && PagesAgree(run[3].phys.mem, CurrentMm(run[3])) && !PagesAgree(s'.phys.mem, CurrentMm(s'))
  {
    hide IsRun, UserRead, Enabled, DoMemAbort, Translate, PagesAgree, KeepsMappings, CanService, Inv;
    var events := [Fork(true), Switch(1), EnterUser(VA_START, 8)];
    var run2 := FaultRun.ThreadStarts(s);
    var s3 := FaultRun.UserStarts(run2);
    run := run2 + [s3];
    assert run[3] == s3 && run[2] == run2[2] && |run| == 4;
    EnterUserLoadsImage(run, events, 2, 0);
    MappedIfRead(s3, 0);
    FaultRun.FirstInd(run, events);
    var own := RunOk(run, events, 3);
    HasRoom(s3);
    FaultKeepsMappingsIff(s3, own, VA_LIMIT, 4);
    var own' := FaultTakesAlias(s3, own, VA_LIMIT, 4);
    FaultKeepsAgreementIff(s3, own, VA_LIMIT, 4);
    FirstAnswer(s3, VA_LIMIT, 4);
    assert Alias(VA_LIMIT) == 0;
  }

  lemma MappedIfRead(s: State, va: nat)
    requires WellFormed(s) && UserRead(s, s.current, va).Some?
    ensures Translate(s.phys.mem, CurrentMm(s), va) != Fault
  {
  }

  lemma HasRoom(s: State)
    requires FaultRun.Stage(s, 1, 4, 95) && CurrentMm(s).pgd != 0
    ensures CanService(s, VA_LIMIT, 4)
  {
    FaultRun.FewTables(s.phys.mem, CurrentMm(s), PageBase(VA_LIMIT), 3);
    GetFreePageGivesZeroedFreeFrame(s.phys);
  }

  lemma FirstAnswer(s: State, addr: Word, esr: nat)
    requires CanService(s, addr, esr) && s.ind == 1
    ensures DoMemAbort(s, addr, esr).1 == 0
  {
  }
}
