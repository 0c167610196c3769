// copy_virt_memory (mm.c:93-104): the child gets a page of its own for every page of the parent, at
// the same virtual address and with the same words, and nothing the parent has changes.
module CopyVirt {
  import opened Bits
  import opened PhysMem
  import opened Mmu
  import opened PageTables
  import opened MapPages
  import opened SideIndexes
  import opened CopyMemory

  // The loop from its i-th iteration on; a failing allocation ends it.
  function CopyFrom(p: Phys, ttbr0: nat, ups: seq<UserPage>, dst: Mm, i: nat): (r: (Phys, Mm))
    requires Shaped(p) && i <= |ups|
    ensures Shaped(r.0)
    decreases |ups| - i
  {
    if i == |ups| then (p, dst)
    else
      var (q, f) := GetFreePage(p);
      if f == 0 then (q, dst)
      else
        var (q2, dst2) := CopyOne(q, ttbr0, dst, ups[i].virt, f);
        CopyFrom(q2, ttbr0, ups, dst2, i + 1)
  }

  // Mapping frame f for the child at va and copying the parent's page there.
  function CopyOne(q: Phys, ttbr0: nat, dst: Mm, va: nat, f: nat): (r: (Phys, Mm))
    requires Shaped(q) && IsPage(f)
    ensures Shaped(r.0)
  {
    var (q2, dst2) := MapPage(q, dst, va, f);
    (q2.(mem := MemCpy(q2.mem, ttbr0, VA_START + f, va, PAGE_SIZE)), dst2)
  }

  // Task c's nodes are new, and each stands where task s has one.
  ghost predicate Grafted(own0: Owners, own: Owners, s: nat, c: nat) {
    && (forall x :: x in own0 ==> x in own && own[x] == own0[x])
    && (forall x :: x in own && x !in own0 ==> x.Node? && x.task == c && Node(s, x.depth, x.key) in own0)
  }

  ghost predicate SameWords(mem: seq<Word>, f: nat, mem': seq<Word>, f': nat) {
    forall w :: 0 <= w < 512 ==> WordAt(mem', f', w) == WordAt(mem, f, w)
  }

  // What holds after i iterations that started in p0 and own0.
  ghost predicate CopyState(p0: Phys, own0: Owners, p: Phys, own: Owners, s: nat, c: nat, src: Mm, dst: Mm, i: nat) {
    && PhysOk(p, own) && TablesIndexed(own, c, dst) && PagesIndexed(own, c, dst.userPages)
    && |dst.userPages| == i <= |src.userPages|
    && (forall j :: 0 <= j < i ==> dst.userPages[j].virt == src.userPages[j].virt)
    && Grafted(own0, own, s, c)
    && KeepsOthers(p0.mem, p.mem, own0, c)
    && (forall j :: 0 <= j < i ==> SameWords(p0.mem, src.userPages[j].phys, p.mem, dst.userPages[j].phys))
    && FreeCount(p) + i + |dst.kernelPages| == FreeCount(p0)
  }

  // The situation in which the loop starts.
  ghost predicate CopyStart(p0: Phys, own0: Owners, s: nat, c: nat, src: Mm) {
    && PhysOk(p0, own0) && TablesIndexed(own0, s, src) && PagesIndexed(own0, s, src.userPages)
    && s != c && (forall x :: x in own0 && x.Node? ==> x.task != c)
    && FreeCount(p0) >= |src.userPages| + |src.kernelPages|
  }

  // ----- enough frames -----

  ghost function PathPositions(va: nat, level: nat): set<(nat, nat)> {
    (if level == 0 then {} else PathPositions(va, level - 1)) + {(level, Key(va, level))}
  }

  lemma {:induction false} PathPositionsDepth(va: nat, level: nat)
    ensures forall x :: x in PathPositions(va, level) ==> x.0 <= level && x.1 == Key(va, x.0)
  {
    if level == 0 {
    } else {
      PathPositionsDepth(va, level - 1);
    }
  }

  lemma {:induction false} MissingCounts(own: Owners, c: nat, va: nat, level: nat)
    requires level <= 3
    ensures |TablePositions(own, c) + PathPositions(va, level)| ==
      |TablePositions(own, c)| + MissingTo(own, c, va, level)
  {
    hide Key, TablePositions;
    var tp, x := TablePositions(own, c), (level, Key(va, level));
    IsPosition(own, c, x);
    if level == 0 {
      assert tp + PathPositions(va, level) == tp + {x};
      AddOne(tp, x);
    } else {
      var pp := PathPositions(va, level - 1);
      MissingCounts(own, c, va, level - 1);
      PathPositionsDepth(va, level - 1);
      assert x !in pp;
      assert tp + PathPositions(va, level) == tp + pp + {x};
      AddOne(tp + pp, x);
    }
  }

  lemma AddOne<T>(a: set<T>, x: T)
    ensures |a + {x}| == |a| + if x in a then 0 else 1
  {
    if x in a {
      assert a + {x} == a;
    }
  }

  lemma IsPosition(own: Owners, c: nat, x: (nat, nat))
    ensures x in TablePositions(own, c) <==> x.0 <= 3 && Node(c, x.0, x.1) in own
  {
    if x.0 <= 3 && Node(c, x.0, x.1) in own {
      assert IsTableOf(Node(c, x.0, x.1), c);
    }
  }

  lemma SubsetSize<T>(a: set<T>, b: set<T>)
    requires a <= b
    ensures |a| <= |b|
  {
    assert b == a + (b - a);
  }

  lemma {:induction false} PathOwned(own: Owners, s: nat, va: nat, level: nat)
    requires OwnersOk(own) && level <= 4 && PathNode(s, level, va) in own
    ensures forall d :: 0 <= d <= level ==> PathNode(s, d, va) in own
  {
    if level == 0 {
    } else {
      assert PlaceOk(own, PathNode(s, level, va));
      PathParent(s, level, va);
      PathOwned(own, s, va, level - 1);
    }
  }

  // The tables the child still needs are among the parent's.
  lemma EnoughTables(own0: Owners, own: Owners, s: nat, c: nat, src: Mm, dst: Mm, va: nat)
    requires OwnersOk(own0) && Grafted(own0, own, s, c) && s != c
    requires forall x :: x in own0 && x.Node? ==> x.task != c
    requires TablesIndexed(own0, s, src) && TablesIndexed(own, c, dst) && PathNode(s, 4, va) in own0
    ensures MissingTo(own, c, va, 3) <= |src.kernelPages| - |dst.kernelPages|
  {
    var a := TablePositions(own, c) + PathPositions(va, 3);
    PathOwned(own0, s, va, 4);
    PathPositionsDepth(va, 3);
    forall x | x in a
      ensures x in TablePositions(own0, s)
    {
      IsPosition(own, c, x);
      IsPosition(own0, s, x);
      hide TablePositions, Key;
      if x in TablePositions(own, c) {
        assert Node(c, x.0, x.1) in own;
      } else {
        assert PathNode(s, x.0, va) in own0;
      }
    }
    SubsetSize(a, TablePositions(own0, s));
    MissingCounts(own, c, va, 3);
  }

  // ----- one iteration -----

  // One iteration for the parent's entry at va: a fresh page, mapped for task c, with the parent's words.
  ghost predicate PageCopied(p: Phys, own: Owners, s: nat, c: nat, dst: Mm, va: nat, ttbr0: nat, own': Owners)
    requires Shaped(p)
  {
    var (q, f) := GetFreePage(p);
    && IsFrame(f) && f !in own.Values
    && var (q2, m2) := MapPage(q, dst, va, f);
    && var p' := q2.(mem := MemCpy(q2.mem, ttbr0, VA_START + f, va, PAGE_SIZE));
    && PhysOk(p', own') && TablesIndexed(own', c, m2) && MapsPage(own[Loose(f) := f], own', c, va, f)
    && m2.userPages == dst.userPages + [UserPage(f, va)]
    && |m2.kernelPages| == |dst.kernelPages| + MissingTo(own, c, va, 3)
    && FreeCount(p') == FreeCount(p) - 1 - MissingTo(own, c, va, 3)
    && KeepsOthers(p.mem, p'.mem, own, c)
    && PathNode(s, 4, va) in own && SameWords(p.mem, own[PathNode(s, 4, va)], p'.mem, f)
  }

  lemma MissingWithLoose(own: Owners, c: nat, va: nat, f: nat, level: nat)
    ensures MissingTo(own[Loose(f) := f], c, va, level) == MissingTo(own, c, va, level)
  {
    hide Key;
    if level == 0 {
    } else {
      MissingWithLoose(own, c, va, f, level - 1);
    }
  }

  lemma TablesWithLoose(own: Owners, c: nat, m: Mm, f: nat)
    requires TablesIndexed(own, c, m) && Loose(f) !in own
    ensures TablesIndexed(own[Loose(f) := f], c, m)
  {
    var own' := own[Loose(f) := f];
    assert TablePositions(own', c) == TablePositions(own, c);
    forall i | 0 <= i < |m.kernelPages|
      ensures IsTableFrame(own', c, m.kernelPages[i])
    {
      assert IsTableFrame(own, c, m.kernelPages[i]);
      var y :| y in own && IsTableOf(y, c) && own[y] == m.kernelPages[i];
      assert own'[y] == own[y];
    }
  }

  lemma CopyPage(p: Phys, own: Owners, s: nat, c: nat, dst: Mm, va: nat, ttbr0: nat) returns (own': Owners)
    requires PhysOk(p, own) && TablesIndexed(own, c, dst) && s != c
    requires MissingTo(own, c, va, 3) + 1 <= FreeCount(p)
    requires va < VA_LIMIT && va % PAGE_SIZE == 0 && PathNode(s, 4, va) in own
    requires Node(s, 0, 0) in own && ttbr0 == own[Node(s, 0, 0)]
    requires Loose(GetFreePage(p).1) !in own
    ensures PageCopied(p, own, s, c, dst, va, ttbr0, own')
  {
    hide OwnersOk, SlotsOk, TablesIndexed, MapsPage, KeepsOthers, Free, MissingTo, Key, SameWords, SameBut;
    hide MapPage, MemCpy, GetFreePage, PathNode;
    var (q, f) := GetFreePage(p);
    var own1 := own[Loose(f) := f];
    TakeFrame(p, own, Loose(f));
    MissingWithLoose(own, c, va, f, 3);
    TablesWithLoose(own, c, dst, f);
    own' := MapPageOk(q, own1, c, dst, va, f);
    var (q2, m2) := MapPage(q, dst, va, f);
    CopiedPage(p, q, q2, own, own', s, c, va, f);
    CopyInto(q2, own', s, c, va);
  }

  // The memcpy of one page, once the page is mapped for the child.
  lemma CopyInto(q: Phys, own: Owners, s: nat, c: nat, va: nat)
    requires PhysOk(q, own) && s != c && va < VA_LIMIT && va % PAGE_SIZE == 0
    requires Node(s, 0, 0) in own && PathNode(s, 4, va) in own && PathNode(c, 4, va) in own
    ensures var f, ttbr0 := own[PathNode(c, 4, va)], own[Node(s, 0, 0)];
      && IsFrame(f)
      && var mem' := MemCpy(q.mem, ttbr0, VA_START + f, va, PAGE_SIZE);
      && PhysOk(q.(mem := mem'), own) && SameBut(q.mem, mem', f)
      && SameWords(q.mem, own[PathNode(s, 4, va)], mem', f)
  {
    hide SlotsOk, Key, MemCpy, SourceStable, SameBut, LoadNth, WordAt;
    var y := PathNode(c, 4, va);
    assert PlaceOk(own, y);
    UserSource(q, own, s, va, y);
    MemCpyCopies(q.mem, own[Node(s, 0, 0)], own[y], va, PAGE_SIZE);
    StoresKeepTree(q, MemCpy(q.mem, own[Node(s, 0, 0)], VA_START + own[y], va, PAGE_SIZE), own, y);
  }

  lemma CopiedPage(p: Phys, q: Phys, q2: Phys, own: Owners, own': Owners, s: nat, c: nat, va: nat, f: nat)
    requires OwnersOk(own) && KeepsOthers(p.mem, q.mem, own, c) && KeepsOthers(q.mem, q2.mem, own[Loose(f) := f], c)
    requires IsFrame(f) && f !in own.Values && Loose(f) !in own && s != c
    requires MapsPage(own[Loose(f) := f], own', c, va, f)
    requires PathNode(s, 4, va) in own && Node(s, 0, 0) in own
    ensures PathNode(c, 4, va) in own' && own'[PathNode(c, 4, va)] == f
    ensures PathNode(s, 4, va) in own' && own'[PathNode(s, 4, va)] == own[PathNode(s, 4, va)]
    ensures Node(s, 0, 0) in own' && own'[Node(s, 0, 0)] == own[Node(s, 0, 0)]
    ensures forall mem' :: SameBut(q2.mem, mem', f) ==> KeepsOthers(p.mem, mem', own, c)
    ensures forall mem' :: SameWords(q2.mem, own[PathNode(s, 4, va)], mem', f) ==>
      SameWords(p.mem, own[PathNode(s, 4, va)], mem', f)
  {
    assert forall x :: x in own ==> PlaceOk(own, x) && own[x] != f;
    var own1 := own[Loose(f) := f];
    forall x, w | x in own && !IsTableOf(x, c) && 0 <= w < 512
      ensures WordAt(q2.mem, own[x], w) == WordAt(p.mem, own[x], w)
    {
      assert own1[x] == own[x] && WordAt(q2.mem, own1[x], w) == WordAt(q.mem, own1[x], w);
    }
  }

  // ----- the loop -----

  lemma CopyIteration(p0: Phys, own0: Owners, p: Phys, own: Owners, s: nat, c: nat, src: Mm, dst: Mm, i: nat)
    returns (own': Owners)
    requires CopyStart(p0, own0, s, c, src) && CopyState(p0, own0, p, own, s, c, src, dst, i)
    requires i < |src.userPages|
    ensures var va := src.userPages[i].virt;
      && var (q, f) := GetFreePage(p);
      && IsFrame(f)
      && var (q2, m2) := CopyOne(q, src.pgd, dst, va, f);
      && CopyState(p0, own0, q2, own', s, c, src, m2, i + 1)
  {
    hide OwnersOk, SlotsOk, TablesIndexed, MapsPage, Key, SameWords, MapPage, MemCpy, GetFreePage, Grafted,
      KeepsOthers, PagesIndexed, Free, MissingTo;
    var va := src.userPages[i].virt;
    var f := GetFreePage(p).1;
    CopyNeeds(p0, own0, p, own, s, c, src, dst, i);
    own' := CopyPage(p, own, s, c, dst, va, src.pgd);
    var (q2, m2) := MapPage(GetFreePage(p).0, dst, va, f);
    var mem' := MemCpy(q2.mem, src.pgd, VA_START + f, va, PAGE_SIZE);
    IterationIndexes(own, own', c, va, f, dst);
    IterationGraft(own0, own, own', s, c, va, f);
    IterationWords(p0, own0, p, own, mem', s, c, src, dst, i);
    SameWordsTransitive(p0.mem, src.userPages[i].phys, p.mem, mem', f);
  }

  lemma SameWordsTransitive(mem: seq<Word>, g: nat, mem1: seq<Word>, mem2: seq<Word>, f: nat)
    requires SameWords(mem, g, mem1, g) && SameWords(mem1, g, mem2, f)
    ensures SameWords(mem, g, mem2, f)
  {
  }

  // The iteration finds what it needs: the parent's page, a frame, and frames for the missing tables.
  lemma CopyNeeds(p0: Phys, own0: Owners, p: Phys, own: Owners, s: nat, c: nat, src: Mm, dst: Mm, i: nat)
    requires CopyStart(p0, own0, s, c, src) && CopyState(p0, own0, p, own, s, c, src, dst, i)
    requires i < |src.userPages|
    ensures var va := src.userPages[i].virt;
      && va < VA_LIMIT && va % PAGE_SIZE == 0
      && PathNode(s, 4, va) in own0
      && PathNode(s, 4, va) in own && own[PathNode(s, 4, va)] == src.userPages[i].phys
      && Node(s, 0, 0) in own && src.pgd == own[Node(s, 0, 0)]
      && MissingTo(own, c, va, 3) + 1 <= FreeCount(p)
      && PathNode(c, 4, va) !in own
      && Loose(GetFreePage(p).1) !in own
  {
    var va := src.userPages[i].virt;
    assert PageEntryOk(own0, s, src.userPages[i]);
    EnoughTables(own0, own, s, c, src, dst, va);
    RootOwned(own0, s, va, 4);
    NotListed(own, c, dst.userPages, va);
    TakesUnowned(p, own);
  }

  lemma TakesUnowned(p: Phys, own: Owners)
    requires PhysOk(p, own) && FreeCount(p) > 0
    ensures Loose(GetFreePage(p).1) !in own
  {
    GetFreePageGivesZeroedFreeFrame(p);
    assert forall x :: x in own ==> PlaceOk(own, x);
  }

  lemma IterationIndexes(own: Owners, own': Owners, c: nat, va: nat, f: nat, dst: Mm)
    requires PagesIndexed(own, c, dst.userPages) && MapsPage(own[Loose(f) := f], own', c, va, f)
    requires va < VA_LIMIT && va % PAGE_SIZE == 0 && PathNode(c, 4, va) !in own
    ensures PagesIndexed(own', c, dst.userPages + [UserPage(f, va)])
  {
    var own1 := own[Loose(f) := f];
    assert PagesIndexed(own1, c, dst.userPages) by {
      hide Key;
      assert forall i :: 0 <= i < |dst.userPages| ==> PageEntryOk(own, c, dst.userPages[i]);
    }
    MapPageIndexed(own1, own', c, va, f, dst.userPages);
  }

  lemma IterationGraft(own0: Owners, own: Owners, own': Owners, s: nat, c: nat, va: nat, f: nat)
    requires Grafted(own0, own, s, c) && MapsPage(own[Loose(f) := f], own', c, va, f)
    requires OwnersOk(own0) && PathNode(s, 4, va) in own0 && PathNode(c, 4, va) !in own && Loose(f) !in own
    ensures Grafted(own0, own', s, c)
  {
    PathOwned(own0, s, va, 4);
    hide Key;
    forall x | x in own' && x !in own0
      ensures x.Node? && x.task == c && Node(s, x.depth, x.key) in own0
    {
      if x !in own && x != PathNode(c, 4, va) {
        var d :| 0 <= d <= 3 && x == PathNode(c, d, va);
        assert PathNode(s, d, va) in own0;
      }
    }
  }

  lemma IterationWords(p0: Phys, own0: Owners, p: Phys, own: Owners, mem': seq<Word>, s: nat, c: nat, src: Mm, dst: Mm,
                       i: nat)
    requires CopyState(p0, own0, p, own, s, c, src, dst, i) && KeepsOthers(p.mem, mem', own, c)
    requires PagesIndexed(own0, s, src.userPages) && s != c
    ensures KeepsOthers(p0.mem, mem', own0, c)
    ensures forall j :: 0 <= j < i ==> SameWords(p0.mem, src.userPages[j].phys, mem', dst.userPages[j].phys)
    ensures i < |src.userPages| ==> SameWords(p0.mem, src.userPages[i].phys, p.mem, src.userPages[i].phys)
  {
    hide Key;
    assert Grafted(own0, own, s, c);
    KeepsTransitive(p0.mem, p.mem, mem', own0, own, c);
    forall j | 0 <= j < i
      ensures SameWords(p0.mem, src.userPages[j].phys, mem', dst.userPages[j].phys)
    {
      assert PageEntryOk(own, c, dst.userPages[j]);
      var x := PathNode(c, 4, dst.userPages[j].virt);
      assert forall w :: 0 <= w < 512 ==> WordAt(mem', own[x], w) == WordAt(p.mem, own[x], w);
      assert SameWords(p0.mem, src.userPages[j].phys, p.mem, dst.userPages[j].phys);
    }
    if i < |src.userPages| {
      assert PageEntryOk(own0, s, src.userPages[i]);
      var x := PathNode(s, 4, src.userPages[i].virt);
      assert forall w :: 0 <= w < 512 ==> WordAt(p.mem, own0[x], w) == WordAt(p0.mem, own0[x], w);
    }
  }

  lemma CopyStateShape(p0: Phys, own0: Owners, p: Phys, own: Owners, s: nat, c: nat, src: Mm, dst: Mm, i: nat)
    requires CopyState(p0, own0, p, own, s, c, src, dst, i)
    ensures Shaped(p) && i <= |src.userPages|
  {
  }

  // copy_virt_memory, with the owners afterwards.
  lemma {:induction false} CopyLoop(p0: Phys, own0: Owners, p: Phys, own: Owners, s: nat, c: nat, src: Mm, dst: Mm,
                                    i: nat)
    returns (own': Owners)
    requires CopyStart(p0, own0, s, c, src) && CopyState(p0, own0, p, own, s, c, src, dst, i)
    ensures var (p', m) := CopyFrom(p, src.pgd, src.userPages, dst, i);
      CopyState(p0, own0, p', own', s, c, src, m, |src.userPages|)
    decreases |src.userPages| - i
  {
    hide CopyState, CopyStart, CopyOne, GetFreePage;
    CopyStateShape(p0, own0, p, own, s, c, src, dst, i);
    if i == |src.userPages| {
      own' := own;
    } else {
      var (q, f) := GetFreePage(p);
      var own1 := CopyIteration(p0, own0, p, own, s, c, src, dst, i);
      var (q2, m2) := CopyOne(q, src.pgd, dst, src.userPages[i].virt, f);
      own' := CopyLoop(p0, own0, q2, own1, s, c, src, m2, i + 1);
    }
  }

  lemma CopyBegins(p: Phys, own: Owners, s: nat, c: nat, src: Mm)
    requires CopyStart(p, own, s, c, src)
    ensures CopyState(p, own, p, own, s, c, src, EmptyMm, 0)
  {
    assert TablePositions(own, c) == {};
  }
}
