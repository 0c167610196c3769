// The fixed-size indexes of mm_struct never overflow in a run, and the imperative kernel can execute
// every event of a run: its methods' preconditions hold.
module Capacity {
  import opened Limits
  import opened PhysMem
  import opened Mmu
  import opened PageTables
  import opened MapPages
  import opened CopyVirt
  import opened AddressSpaces
  import opened Runs
  import KernelMemory

  ghost predicate MmFits(mm: Mm) {
    |mm.userPages| <= MAX_PROCESS_PAGES && |mm.kernelPages| < MAX_PROCESS_PAGES
  }

  ghost predicate Fits(s: State) {
    forall t :: 0 <= t < |s.tasks| ==> MmFits(s.tasks[t].mm)
  }

  // Mapping a fresh page adds one user page and the missing tables.
  lemma FreshPageCounts(s: State, own: Owners, va: nat)
    requires Inv(s, own) && RoomToMap(s, va) && GetFreePage(s.phys).1 != 0
    ensures var (q, page) := GetFreePage(s.phys);
      && MmFits(PageTables.MapPage(q, CurrentMm(s), va, page).1)
      && KernelMemory.RoomFor(q, CurrentMm(s), va)
  {
    var t, mm := s.current, CurrentMm(s);
    var (q, page) := GetFreePage(s.phys);
    var own1 := own[Loose(page) := page];
    NeedsMissing(s, own, va);
    assert TaskOk(s, own, t);
    TablesToMakeIsMissing(s.phys, own, t, mm, va, 3);
    hide Inv, TaskOk, TablesIndexed, PagesIndexed, MissingTo, TablesToMake;
    TakesUnowned(s.phys, own);
    TakeFrame(s.phys, own, Loose(page));
    MissingWithLoose(own, t, va, page, 3);
    TablesWithLoose(own, t, mm, page);
    var own' := MapPageOk(q, own1, t, mm, va, page);
    KernelMemory.MapPageGrows(q, mm, va, page);
  }

  // A child has as many user pages as its parent, and no more tables.
  lemma ForkCounts(s: State, own: Owners)
    requires Inv(s, own) && CanFork(s, false) && GetFreePage(s.phys).1 != 0 && MmFits(CurrentMm(s))
    ensures var q := GetFreePage(s.phys).0;
      KernelMemory.CopyFits(q, s.ttbr0, CurrentMm(s).userPages, EmptyMm)
  {
    GetFreePageGivesZeroedFreeFrame(s.phys);
    var (q, page) := GetFreePage(s.phys);
    var c := |s.tasks|;
    var own0 := own[Struct(c) := page];
    var own' := ForkMemory(s, own, false);
    var m := CopyFrom(q, s.ttbr0, CurrentMm(s).userPages, EmptyMm, 0).1;
    assert TaskOk(s, own, s.current);
    NoNodes(s, own);
    ChildTables(own0, own', s.current, c);
    assert TablePositions(own0, s.current) == TablePositions(own, s.current);
  }

  lemma ChildTables(own0: Owners, own': Owners, t: nat, c: nat)
    requires Grafted(own0, own', t, c) && t != c
    requires forall x :: x in own0 && x.Node? ==> x.task != c
    ensures |TablePositions(own', c)| <= |TablePositions(own0, t)|
  {
    forall p | p in TablePositions(own', c)
      ensures p in TablePositions(own0, t)
    {
      var x :| x in own' && IsTableOf(x, c) && (x.depth, x.key) == p;
      assert Node(t, x.depth, x.key) in own0;
    }
    SubsetSize(TablePositions(own', c), TablePositions(own0, t));
  }

  // What KernelMemory.Kernel requires of the state in which it executes an event.
  ghost predicate KernelReady(s: State, e: Event)
    requires WellFormed(s)
  {
    var (q, page) := GetFreePage(s.phys);
    match e
    case Fork(kthread) =>
      && |s.tasks| < NR_TASKS
      && (!kthread && page != 0 ==> KernelMemory.CopyFits(q, s.ttbr0, CurrentMm(s).userPages, EmptyMm))
    case EnterUser(_, _) => page != 0 ==> KernelMemory.RoomFor(q, CurrentMm(s), 0)
    case Abort(addr, esr) =>
      IsTranslationFault(esr) && page != 0 ==> KernelMemory.RoomFor(q, CurrentMm(s), PageBase(addr))
    case _ => true
  }

  lemma FitsStep(s: State, own: Owners, e: Event)
    requires Inv(s, own) && Fits(s) && Enabled(s, e)
    ensures KernelReady(s, e) && Fits(Apply(s, e))
  {
    var page := GetFreePage(s.phys).1;
    assert MmFits(s.tasks[s.current].mm);
    hide Inv, RoomToMap, GetFreePage, PageTables.MapPage, CopyFrom, KernelMemory.RoomFor, PageBase,
      IsTranslationFault, CanFork;
    match e {
      case Fork(kthread) => if !kthread && page != 0 { ForkCounts(s, own); }
      case EnterUser(_, _) => if page != 0 { FreshPageCounts(s, own, 0); }
      case Abort(addr, esr) => if IsTranslationFault(esr) && page != 0 { FreshPageCounts(s, own, PageBase(addr)); }
      case _ =>
    }
  }

  // In every run no task ever has more than 16 user pages or 15 tables, and the imperative kernel can
  // execute the next event.
  lemma {:induction false} CodeFitsInRuns(run: seq<State>, events: seq<Event>, n: nat)
    requires IsRun(run, events) && n <= |events|
    ensures WellFormed(run[n]) && Fits(run[n])
    ensures n < |events| ==> KernelReady(run[n], events[n])
  {
    hide Apply, Enabled, Fits;
    if n == 0 {
      InitFits(run[0]);
    } else {
      CodeFitsInRuns(run, events, n - 1);
      var before := RunOk(run, events, n - 1);
      FitsStep(run[n - 1], before, events[n - 1]);
    }
    var own := RunOk(run, events, n);
    if n < |events| {
      FitsStep(run[n], own, events[n]);
    }
  }

  lemma InitFits(s: State)
    requires Init(s)
    ensures Fits(s)
  {
  }
}
