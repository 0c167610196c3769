// map_page (mm.c:67-91) is a map update: the walk afterwards gives the new page on the page of va
// and the old answer everywhere else, and the two side indexes keep listing exactly what is in the
// tree.
module MapPages {
  import opened Bits
  import opened PhysMem
  import opened Mmu
  import opened PageTables

  // ----- the side indexes -----

  // Depths and keys of the tables of task t.
  ghost function TablePositions(own: Owners, t: nat): set<(nat, nat)> {
    set x | x in own && IsTableOf(x, t) :: (x.depth, x.key)
  }

  // kernel_pages[1..count] lists the tables of task t, each once.
  ghost predicate ListsTables(own: Owners, t: nat, ks: seq<nat>) {
    && |ks| == |TablePositions(own, t)|
    && (forall i, j :: 0 <= i < j < |ks| ==> ks[i] != ks[j])
    && (forall x :: x in own && IsTableOf(x, t) ==> own[x] in ks)
    && (forall i :: 0 <= i < |ks| ==> IsTableFrame(own, t, ks[i]))
  }

  ghost predicate IsTableFrame(own: Owners, t: nat, f: nat) {
    exists x :: x in own && IsTableOf(x, t) && own[x] == f
  }

  ghost predicate TablesIndexed(own: Owners, t: nat, mm: Mm) {
    && (if Node(t, 0, 0) in own then mm.pgd == own[Node(t, 0, 0)] else mm.pgd == 0)
    && ListsTables(own, t, mm.kernelPages)
  }

  predicate PageEntryOk(own: Owners, t: nat, e: UserPage) {
    && e.virt < VA_LIMIT && e.virt % PAGE_SIZE == 0
    && PathNode(t, 4, e.virt) in own && own[PathNode(t, 4, e.virt)] == e.phys
  }

  // user_pages[0..count) lists the mapped pages of task t, each virtual address once.
  ghost predicate PagesIndexed(own: Owners, t: nat, ups: seq<UserPage>) {
    && (forall i :: 0 <= i < |ups| ==> PageEntryOk(own, t, ups[i]))
    && (forall i, j :: 0 <= i < j < |ups| ==> ups[i].virt != ups[j].virt)
    && (forall k: nat :: Node(t, 4, k) in own ==> UserPage(own[Node(t, 4, k)], k * PAGE_SIZE) in ups)
  }

  // ----- the tables -----

  function MissingAt(own: Owners, t: nat, va: nat, depth: nat): nat {
    if PathNode(t, depth, va) in own then 0 else 1
  }

  lemma PositionsOneMore(own: Owners, t: nat, x: Pos, f: nat)
    requires x !in own && IsTableOf(x, t)
    ensures |TablePositions(own[x := f], t)| == |TablePositions(own, t)| + 1
  {
    assert TablePositions(own[x := f], t) == TablePositions(own, t) + {(x.depth, x.key)};
    assert (x.depth, x.key) !in TablePositions(own, t);
  }

  lemma ListOneMore(own: Owners, t: nat, ks: seq<nat>, x: Pos, f: nat)
    requires ListsTables(own, t, ks) && x !in own && IsTableOf(x, t) && f !in own.Values
    ensures ListsTables(own[x := f], t, ks + [f])
  {
    var own' := own[x := f];
    PositionsOneMore(own, t, x, f);
    hide TablePositions;
    forall i | 0 <= i < |ks + [f]|
      ensures IsTableFrame(own', t, (ks + [f])[i])
    {
      if i < |ks| {
        var y :| y in own && IsTableOf(y, t) && own[y] == ks[i];
        assert own'[y] == ks[i];
      } else {
        assert own'[x] == f;
      }
    }
    forall i | 0 <= i < |ks|
      ensures ks[i] != f
    {
      assert IsTableFrame(own, t, ks[i]);
    }
    forall y | y in own' && IsTableOf(y, t)
      ensures own'[y] in ks + [f]
    {
      if y != x {
        assert own[y] in ks;
      } else {
        assert (ks + [f])[|ks|] == f;
      }
    }
  }

  // What the owners map becomes when one frame is put at position x, unless it is taken already.
  function With(own: Owners, x: Pos, f: nat): Owners {
    if x in own then own else own[x := f]
  }

  lemma MapRootOk(p: Phys, own: Owners, t: nat, mm: Mm)
    requires PhysOk(p, own) && TablesIndexed(own, t, mm)
    requires Node(t, 0, 0) !in own ==> FreeCount(p) > 0
    ensures var (q, m) := MapRoot(p, mm);
      && var own' := With(own, Node(t, 0, 0), m.pgd);
      && PhysOk(q, own') && TablesIndexed(own', t, m) && own'[Node(t, 0, 0)] == m.pgd
      && m.userPages == mm.userPages
      && |m.kernelPages| == |mm.kernelPages| + MissingAt(own, t, 0, 0)
      && FreeCount(q) == FreeCount(p) - MissingAt(own, t, 0, 0)
      && KeepsOthers(p.mem, q.mem, own, t)
  {
    var root := Node(t, 0, 0);
    if root in own {
      assert PlaceOk(own, root);
    } else {
      TakeFrame(p, own, root);
      TablesOneMore(own, t, mm, root, GetFreePage(p).1);
    }
  }

  // One level: the next table of the path is there afterwards, and the call returns it.
  lemma MapLevelOk(p: Phys, own: Owners, t: nat, mm: Mm, va: nat, level: nat)
    requires PhysOk(p, own) && TablesIndexed(own, t, mm)
    requires level <= 2 && PathNode(t, level, va) in own
    requires PathNode(t, level + 1, va) !in own ==> FreeCount(p) > 0
    ensures var (q, m, next) := MapLevel(p, mm, own[PathNode(t, level, va)], ShiftOf(level), va);
      && var x := PathNode(t, level + 1, va);
      && var own' := With(own, x, next);
      && PhysOk(q, own') && TablesIndexed(own', t, m) && own'[x] == next
      && m.userPages == mm.userPages && m.pgd == mm.pgd
      && |m.kernelPages| == |mm.kernelPages| + MissingAt(own, t, va, level + 1)
      && FreeCount(q) == FreeCount(p) - MissingAt(own, t, va, level + 1)
      && KeepsOthers(p.mem, q.mem, own, t)
  {
    var x := PathNode(t, level + 1, va);
    PathParent(t, level + 1, va);
    if x in own {
      MapTableFinds(p, own, t, va, level);
    } else {
      GrowTable(p, own, x);
      MapTableMakes(p, own, t, va, level);
      hide PhysOk, TablesIndexed, KeepsOthers, FreeCount, Key, GetFreePage, MapTable;
      TablesOneMore(own, t, mm, x, GetFreePage(p).1);
    }
  }

  lemma MapTableFinds(p: Phys, own: Owners, t: nat, va: nat, level: nat)
    requires PhysOk(p, own) && level <= 2 && PathNode(t, level, va) in own && PathNode(t, level + 1, va) in own
    ensures MapTable(p, own[PathNode(t, level, va)], ShiftOf(level), va) == (p, own[PathNode(t, level + 1, va)], false)
  {
    TableIndexIsVaIndex(va, level);
    PathSlot(p.mem, own, t, va, level);
    TableDescriptor(own[PathNode(t, level + 1, va)]);
  }

  lemma MapTableMakes(p: Phys, own: Owners, t: nat, va: nat, level: nat)
    requires PhysOk(p, own) && level <= 2 && PathNode(t, level, va) in own && PathNode(t, level + 1, va) !in own
    requires IsFrame(GetFreePage(p).1)
    ensures var (x, table, (q, f)) := (PathNode(t, level + 1, va), own[PathNode(t, level, va)], GetFreePage(p));
      MapTable(p, table, ShiftOf(level), va) ==
        (q.(mem := SetWord(q.mem, table, x.key % 512, EntryFor(x, f))), f, true)
  {
    PathParent(t, level + 1, va);
    TableIndexIsVaIndex(va, level);
    PathSlot(p.mem, own, t, va, level);
  }

  lemma TablesOneMore(own: Owners, t: nat, mm: Mm, x: Pos, f: nat)
    requires TablesIndexed(own, t, mm) && x !in own && IsTableOf(x, t) && f !in own.Values
    ensures x != Node(t, 0, 0) ==> TablesIndexed(own[x := f], t, mm.(kernelPages := mm.kernelPages + [f]))
    ensures x == Node(t, 0, 0) ==> TablesIndexed(own[x := f], t, mm.(pgd := f, kernelPages := mm.kernelPages + [f]))
  {
    ListOneMore(own, t, mm.kernelPages, x, f);
  }

  // ----- the page entry -----

  // Page moves from its loose position to node x; a page that x held before becomes loose.
  function Relinked(own: Owners, x: Pos, page: nat): Owners {
    if x in own then (own - {Loose(page)})[x := page][Loose(own[x]) := own[x]]
    else (own - {Loose(page)})[x := page]
  }

  lemma LooseIsNew(own: Owners, x: Pos)
    requires OwnersOk(own) && x in own && !x.Loose?
    ensures Loose(own[x]) !in own
  {
    assert forall y :: y in own && y.Loose? ==> PlaceOk(own, y);
  }

  lemma RelinkedOwners(own: Owners, x: Pos, page: nat)
    requires OwnersOk(own) && Loose(page) in own
    requires IsChild(x) && x.depth == 4 && Parent(x) in own
    ensures OwnersOk(Relinked(own, x, page)) && Relinked(own, x, page).Values == own.Values
  {
    var own' := Relinked(own, x, page);
    assert PlaceOk(own, Loose(page));
    if x in own {
      LooseIsNew(own, x);
    }
    forall y | y in own'
      ensures PlaceOk(own', y)
    {
      if y in own {
        assert PlaceOk(own, y);
      } else {
        assert x in own ==> PlaceOk(own, x);
      }
    }
    forall f
      ensures f in own'.Values <==> f in own.Values
    {
      if f in own.Values {
        var y :| y in own && own[y] == f;
        assert if y == Loose(page) then own'[x] == f else if y == x then own'[Loose(f)] == f else own'[y] == f;
      }
    }
  }

  lemma LinkPage(p: Phys, own: Owners, t: nat, va: nat, page: nat)
    requires PhysOk(p, own) && Loose(page) in own && IsPage(page) && PathNode(t, 3, va) in own
    ensures var mem' := MapTableEntry(p.mem, own[PathNode(t, 3, va)], va, page);
      && PhysOk(p.(mem := mem'), Relinked(own, PathNode(t, 4, va), page))
      && KeepsOthers(p.mem, mem', own, t)
  {
    var x := PathNode(t, 4, va);
    var own' := Relinked(own, x, page);
    PathParent(t, 4, va);
    TableIndexIsVaIndex(va, 3);
    RelinkedOwners(own, x, page);
    assert PlaceOk(own, Loose(page));
    var mem' := MapTableEntry(p.mem, own[Parent(x)], va, page);
    assert mem' == SetWord(p.mem, own[Parent(x)], x.key % 512, EntryFor(x, page));
    forall y | IsChild(y) && Parent(y) in own'
      ensures SlotOk(mem', own', y)
    {
      LinkedSlot(p.mem, own, x, page, y);
    }
    WriteKeeps(p.mem, own, x, EntryFor(x, page));
  }

  lemma LinkedSlot(mem: seq<Word>, own: Owners, x: Pos, page: nat, y: Pos)
    requires |mem| == MEM_WORDS && OwnersOk(own) && SlotsOk(mem, own)
    requires IsFrame(page) && Loose(page) in own
    requires IsChild(x) && x.depth == 4 && Parent(x) in own
    requires IsChild(y) && Parent(y) in Relinked(own, x, page)
    ensures SlotOk(SetWord(mem, own[Parent(x)], x.key % 512, EntryFor(x, page)), Relinked(own, x, page), y)
  {
    if Parent(y) == x {
      assert false;
    }
    SlotWritten(mem, own, x, EntryFor(x, page), y);
    assert SlotOk(mem, own, y);
  }

  // ----- map_page -----

  // The owners after map_page(task t, va, page).
  ghost predicate MapsPage(own: Owners, own': Owners, t: nat, va: nat, page: nat) {
    var x := PathNode(t, 4, va);
    && x in own' && own'[x] == page && Loose(page) !in own'
    && (forall y :: y in own && y != x && y != Loose(page) ==> y in own' && own'[y] == own[y])
    && (forall y :: y in own' && y !in own ==>
      || y == x
      || (exists d :: 0 <= d <= 3 && y == PathNode(t, d, va))
      || (x in own && y == Loose(own[x])))
  }

  // The owners after making the tables on the path to va down to the given level.
  ghost predicate GrowsPath(own: Owners, own': Owners, t: nat, va: nat, level: nat) {
    && (forall y :: y in own ==> y in own' && own'[y] == own[y])
    && (forall y :: y in own' && y !in own ==> exists d :: 0 <= d <= level && y == PathNode(t, d, va))
  }

  function MissingTo(own: Owners, t: nat, va: nat, level: nat): nat {
    (if level == 0 then 0 else MissingTo(own, t, va, level - 1)) + MissingAt(own, t, va, level)
  }

  lemma KeepsTransitive(mem: seq<Word>, mem1: seq<Word>, mem2: seq<Word>, own: Owners, own1: Owners, t: nat)
    requires forall y :: y in own && !IsTableOf(y, t) ==> y in own1 && own1[y] == own[y]
    requires KeepsOthers(mem, mem1, own, t) && KeepsOthers(mem1, mem2, own1, t)
    ensures KeepsOthers(mem, mem2, own, t)
  {
    forall y, w | y in own && !IsTableOf(y, t) && 0 <= w < 512
      ensures WordAt(mem2, own[y], w) == WordAt(mem, own[y], w)
    {
      assert WordAt(mem2, own1[y], w) == WordAt(mem1, own1[y], w);
    }
  }

  lemma GrowsRoot(own: Owners, t: nat, va: nat, f: nat)
    ensures GrowsPath(own, With(own, Node(t, 0, 0), f), t, va, 0)
  {
    assert PathNode(t, 0, va) == Node(t, 0, 0);
  }

  lemma GrowsOneMore(own: Owners, own1: Owners, t: nat, va: nat, level: nat, f: nat)
    requires level > 0 && GrowsPath(own, own1, t, va, level - 1)
    ensures GrowsPath(own, With(own1, PathNode(t, level, va), f), t, va, level)
    ensures PathNode(t, level, va) in own1 <==> PathNode(t, level, va) in own
  {
  }

  // What MapTables achieves, with own' the owners afterwards.
  ghost predicate TablesMade(p: Phys, own: Owners, t: nat, mm: Mm, va: nat, level: nat, own': Owners)
    requires Shaped(p)
  {
    var (q, m, table) := MapTables(p, mm, va, level);
    && PhysOk(q, own') && TablesIndexed(own', t, m)
    && GrowsPath(own, own', t, va, level)
    && PathNode(t, level, va) in own' && own'[PathNode(t, level, va)] == table
    && m.userPages == mm.userPages
    && |m.kernelPages| == |mm.kernelPages| + MissingTo(own, t, va, level)
    && FreeCount(q) == FreeCount(p) - MissingTo(own, t, va, level)
    && KeepsOthers(p.mem, q.mem, own, t)
  }

  lemma {:induction false} MapTablesOk(p: Phys, own: Owners, t: nat, mm: Mm, va: nat, level: nat) returns (own': Owners)
    requires PhysOk(p, own) && TablesIndexed(own, t, mm)
    requires level <= 3 && MissingTo(own, t, va, level) <= FreeCount(p)
    ensures TablesMade(p, own, t, mm, va, level, own')
  {
    if level == 0 {
      MapRootOk(p, own, t, mm);
      own' := With(own, Node(t, 0, 0), MapRoot(p, mm).1.pgd);
      GrowsRoot(own, t, va, MapRoot(p, mm).1.pgd);
    } else {
      var own1 := MapTablesOk(p, own, t, mm, va, level - 1);
      own' := MapTablesStep(p, own, t, mm, va, level, own1);
    }
  }

  lemma MapTablesStep(p: Phys, own: Owners, t: nat, mm: Mm, va: nat, level: nat, own1: Owners) returns (own': Owners)
    requires Shaped(p) && 0 < level <= 3 && MissingTo(own, t, va, level) <= FreeCount(p)
    requires TablesMade(p, own, t, mm, va, level - 1, own1)
    ensures TablesMade(p, own, t, mm, va, level, own')
  {
    hide PhysOk, TablesIndexed, KeepsOthers, FreeCount, MapLevel, GrowsPath, Key, ShiftOf;
    var (q, m, table) := MapTables(p, mm, va, level - 1);
    var x := PathNode(t, level, va);
    var (q', m', next) := MapLevel(q, m, table, ShiftOf(level - 1), va);
    GrowsOneMore(own, own1, t, va, level, next);
    MapLevelOk(q, own1, t, m, va, level - 1);
    own' := With(own1, x, next);
    GrowsKeeps(own, own1, t, va, level - 1);
    KeepsTransitive(p.mem, q.mem, q'.mem, own, own1, t);
  }

  lemma GrowsKeeps(own: Owners, own1: Owners, t: nat, va: nat, level: nat)
    requires GrowsPath(own, own1, t, va, level)
    ensures forall y :: y in own && !IsTableOf(y, t) ==> y in own1 && own1[y] == own[y]
  {
  }

  lemma RelinkKeepsTables(own: Owners, t: nat, m: Mm, x: Pos, page: nat)
    requires TablesIndexed(own, t, m) && x.Node? && x.depth == 4 && Loose(page) in own
    ensures TablesIndexed(Relinked(own, x, page), t, m)
  {
    var own' := Relinked(own, x, page);
    assert TablePositions(own', t) == TablePositions(own, t);
    forall i | 0 <= i < |m.kernelPages|
      ensures IsTableFrame(own', t, m.kernelPages[i])
    {
      assert IsTableFrame(own, t, m.kernelPages[i]);
      var y :| y in own && IsTableOf(y, t) && own[y] == m.kernelPages[i];
      assert own'[y] == own[y];
    }
  }

  lemma RelinkMapsPage(own: Owners, own3: Owners, t: nat, va: nat, page: nat)
    requires OwnersOk(own3) && GrowsPath(own, own3, t, va, 3) && Loose(page) in own
    ensures MapsPage(own, Relinked(own3, PathNode(t, 4, va), page), t, va, page)
  {
    var x := PathNode(t, 4, va);
    assert PlaceOk(own3, Loose(page)) && own3[Loose(page)] == page;
    if x in own3 {
      LooseIsNew(own3, x);
    }
  }

  // What map_page achieves, with own' the owners afterwards.
  ghost predicate PageMapped(p: Phys, own: Owners, t: nat, mm: Mm, va: nat, page: nat, own': Owners)
    requires Shaped(p) && IsPage(page)
  {
    var (q, m) := MapPage(p, mm, va, page);
    && PhysOk(q, own') && TablesIndexed(own', t, m)
    && MapsPage(own, own', t, va, page)
    && m.userPages == mm.userPages + [UserPage(page, va)]
    && |m.kernelPages| == |mm.kernelPages| + MissingTo(own, t, va, 3)
    && FreeCount(q) == FreeCount(p) - MissingTo(own, t, va, 3)
    && KeepsOthers(p.mem, q.mem, own, t)
  }

  lemma MapPageOk(p: Phys, own: Owners, t: nat, mm: Mm, va: nat, page: nat) returns (own': Owners)
    requires PhysOk(p, own) && TablesIndexed(own, t, mm)
    requires Loose(page) in own && IsPage(page) && MissingTo(own, t, va, 3) <= FreeCount(p)
    ensures PageMapped(p, own, t, mm, va, page, own')
  {
    var own3 := MapTablesOk(p, own, t, mm, va, 3);
    hide TablesIndexed, KeepsOthers, FreeCount, MapTables, GrowsPath, MapsPage, MissingTo, MapTableEntry,
      OwnersOk, SlotsOk, Relinked, PathNode;
    var (q, m, pte) := MapTables(p, mm, va, 3);
    LinkPage(q, own3, t, va, page);
    GrowsKeeps(own, own3, t, va, 3);
    own' := Relinked(own3, PathNode(t, 4, va), page);
    RelinkKeepsTables(own3, t, m, PathNode(t, 4, va), page);
    RelinkMapsPage(own, own3, t, va, page);
    KeepsTransitive(p.mem, q.mem, MapTableEntry(q.mem, pte, va, page), own, own3, t);
  }

  // ----- what the walk sees -----

  // The walk of task mm: no table, no translation.
  function Translate(mem: seq<Word>, mm: Mm, va: nat): Translation {
    if mm.pgd == 0 || va >= VA_LIMIT then Fault else Walk(mem, mm.pgd, va)
  }

  lemma TranslateIsTree(p: Phys, own: Owners, t: nat, mm: Mm, va: nat)
    requires PhysOk(p, own) && TablesIndexed(own, t, mm) && va < VA_LIMIT
    ensures var x := PathNode(t, 4, va);
      Translate(p.mem, mm, va) == if x in own then Mapped(own[x] + va % PAGE_SIZE, 1, true) else Fault
  {
    if Node(t, 0, 0) in own {
      assert PlaceOk(own, Node(t, 0, 0));
      WalkFindsTree(p.mem, own, t, va);
    } else {
      NoPathBelow(own, t, va, 0);
    }
  }

  lemma PageNumber(va: nat)
    ensures Key(va, 4) == va % VA_LIMIT / PAGE_SIZE
    ensures va < VA_LIMIT ==> Key(va, 4) == va / PAGE_SIZE
  {
    var h, low := va / VA_LIMIT, va % VA_LIMIT;
    assert va == PAGE_SIZE * (0x10_0000_0000 * h) + low;
    Field(h, low, PAGE_SIZE, 0x10_0000_0000);
    assert low / PAGE_SIZE < 0x10_0000_0000;
  }

  lemma MapsPageAt(own: Owners, own': Owners, t: nat, va: nat, page: nat, y: Pos)
    requires MapsPage(own, own', t, va, page) && y.Node? && y.depth == 4
    ensures if y == PathNode(t, 4, va) then y in own' && own'[y] == page
      else (y in own' <==> y in own) && (y in own ==> own'[y] == own[y])
  {
  }

  // map_page is a map update: afterwards the page of va (by its low 48 bits) translates to the given
  // frame, every other page as before.
  lemma MapPageUpdatesTranslation(p: Phys, own: Owners, t: nat, mm: Mm, va: nat, page: nat, va': nat)
    requires PhysOk(p, own) && TablesIndexed(own, t, mm)
    requires Loose(page) in own && IsPage(page) && MissingTo(own, t, va, 3) <= FreeCount(p)
    requires va' < VA_LIMIT
    ensures var (q, m) := MapPage(p, mm, va, page);
      Translate(q.mem, m, va') ==
        if va' / PAGE_SIZE == va % VA_LIMIT / PAGE_SIZE then Mapped(page + va' % PAGE_SIZE, 1, true)
        else Translate(p.mem, mm, va')
  {
    var own' := MapPageOk(p, own, t, mm, va, page);
    hide PhysOk, TablesIndexed, KeepsOthers, FreeCount, MapPage, MapsPage, Translate, MissingTo, Key;
    MapsPageAt(own, own', t, va, page, PathNode(t, 4, va'));
    var (q, m) := MapPage(p, mm, va, page);
    TranslateIsTree(p, own, t, mm, va');
    TranslateIsTree(q, own', t, m, va');
    PageNumber(va);
    PageNumber(va');
  }
}
