// The side indexes of mm_struct against the tree in memory: kernel_pages lists exactly the tables
// that walks reach, user_pages exactly the mapped pages. map_page keeps this exactly when it is
// called with a page-aligned 48-bit address that was not mapped.
module SideIndexes {
  import opened Bits
  import opened PhysMem
  import opened Mmu
  import opened PageTables
  import opened MapPages

  ghost predicate ReachedTable(mem: seq<Word>, mm: Mm, f: nat) {
    f != 0 && exists va: nat, level: nat :: level <= 3 && WalkTable(mem, mm.pgd, va, level) == f
  }

  // Exactly the tables that some walk from the task's root consults, each once.
  ghost predicate TablesAgree(mem: seq<Word>, mm: Mm) {
    && (forall i, j :: 0 <= i < j < |mm.kernelPages| ==> mm.kernelPages[i] != mm.kernelPages[j])
    && (forall f: nat :: f in mm.kernelPages <==> ReachedTable(mem, mm, f))
  }

  // Exactly the pages that the task's walks end in, each virtual address once.
  ghost predicate PagesAgree(mem: seq<Word>, mm: Mm) {
    var ups := mm.userPages;
    && (forall i :: 0 <= i < |ups| ==>
      ups[i].virt % PAGE_SIZE == 0 && Translate(mem, mm, ups[i].virt) == Mapped(ups[i].phys, 1, true))
    && (forall i, j :: 0 <= i < j < |ups| ==> ups[i].virt != ups[j].virt)
    && (forall va: nat :: Translate(mem, mm, va) != Fault ==> HasEntry(ups, Translate(mem, mm, va), va))
  }

  predicate HasEntry(ups: seq<UserPage>, tr: Translation, va: nat) {
    tr.Mapped? && va % PAGE_SIZE <= tr.pa && UserPage(tr.pa - va % PAGE_SIZE, va - va % PAGE_SIZE) in ups
  }

  // ----- the tables -----

  lemma {:induction false} WalkTableFindsTree(mem: seq<Word>, own: Owners, t: nat, va: nat, level: nat)
    requires OwnersOk(own) && SlotsOk(mem, own) && Node(t, 0, 0) in own && level <= 3
    ensures WalkTable(mem, own[Node(t, 0, 0)], va, level) ==
      if PathNode(t, level, va) in own then own[PathNode(t, level, va)] else 0
  {
    if level == 0 {
    } else {
      var x := PathNode(t, level, va);
      WalkTableFindsTree(mem, own, t, va, level - 1);
      PathParent(t, level, va);
      if PathNode(t, level - 1, va) in own {
        assert PlaceOk(own, PathNode(t, level - 1, va));
        PathSlot(mem, own, t, va, level - 1);
        if x in own {
          TableDescriptor(own[x]);
        }
      } else {
        NoOrphan(own, x);
      }
    }
  }

  // An address whose path runs through the node (depth, key).
  function AddressOf(depth: nat, key: nat): nat {
    match depth
    case 0 => 0
    case 1 => key * 0x80_0000_0000
    case 2 => key * 0x4000_0000
    case 3 => key * 0x20_0000
    case _ => key * 0x1000
  }

  function Keys(depth: nat): nat {
    match depth case 0 => 1 case 1 => 512 case 2 => 0x4_0000 case 3 => 0x800_0000 case _ => 0x10_0000_0000
  }

  lemma {:induction false} KeyInRange(own: Owners, t: nat, depth: nat, key: nat)
    requires OwnersOk(own) && Node(t, depth, key) in own
    ensures depth <= 4 && key < Keys(depth)
  {
    assert PlaceOk(own, Node(t, depth, key));
    if depth == 0 {
    } else {
      KeyInRange(own, t, depth - 1, key / 512);
      assert key < 512 * (key / 512 + 1);
    }
  }

  lemma PathThrough(t: nat, depth: nat, key: nat)
    requires depth <= 4 && key < Keys(depth)
    ensures PathNode(t, depth, AddressOf(depth, key)) == Node(t, depth, key)
    ensures AddressOf(depth, key) < VA_LIMIT
  {
  }

  lemma TablesIndexedAgree(p: Phys, own: Owners, t: nat, mm: Mm)
    requires PhysOk(p, own) && TablesIndexed(own, t, mm)
    ensures TablesAgree(p.mem, mm)
  {
    forall f: nat
      ensures f in mm.kernelPages <==> ReachedTable(p.mem, mm, f)
    {
      if f in mm.kernelPages {
        ListedTableReached(p, own, t, mm, f);
      } else if ReachedTable(p.mem, mm, f) {
        ReachedTableListed(p, own, t, mm, f);
        assert false;
      }
    }
  }

  lemma ListedTableReached(p: Phys, own: Owners, t: nat, mm: Mm, f: nat)
    requires PhysOk(p, own) && TablesIndexed(own, t, mm) && f in mm.kernelPages
    ensures ReachedTable(p.mem, mm, f)
  {
    var i :| 0 <= i < |mm.kernelPages| && mm.kernelPages[i] == f;
    assert IsTableFrame(own, t, mm.kernelPages[i]);
    var x :| x in own && IsTableOf(x, t) && own[x] == f;
    assert PlaceOk(own, x);
    KeyInRange(own, t, x.depth, x.key);
    var va := AddressOf(x.depth, x.key);
    PathThrough(t, x.depth, x.key);
    RootOwned(own, t, va, x.depth);
    WalkTableFindsTree(p.mem, own, t, va, x.depth);
    assert WalkTable(p.mem, mm.pgd, va, x.depth) == f;
  }

  lemma ReachedTableListed(p: Phys, own: Owners, t: nat, mm: Mm, f: nat)
    requires PhysOk(p, own) && TablesIndexed(own, t, mm) && ReachedTable(p.mem, mm, f)
    ensures f in mm.kernelPages
  {
    var va: nat, level: nat :| level <= 3 && WalkTable(p.mem, mm.pgd, va, level) == f;
    if Node(t, 0, 0) in own {
      WalkTableFindsTree(p.mem, own, t, va, level);
    } else {
      NoWalkTable(p.mem, va, level);
    }
  }

  lemma {:induction false} NoWalkTable(mem: seq<Word>, va: nat, level: nat)
    requires level <= 3
    ensures WalkTable(mem, 0, va, level) == 0
  {
    if level == 0 {
    } else {
      NoWalkTable(mem, va, level - 1);
    }
  }

  lemma {:induction false} RootOwned(own: Owners, t: nat, va: nat, depth: nat)
    requires OwnersOk(own) && depth <= 4 && PathNode(t, depth, va) in own
    ensures Node(t, 0, 0) in own
  {
    if depth == 0 {
    } else {
      assert PlaceOk(own, PathNode(t, depth, va));
      PathParent(t, depth, va);
      RootOwned(own, t, va, depth - 1);
    }
  }

  // ----- the pages -----

  lemma PagesIndexedAgree(p: Phys, own: Owners, t: nat, mm: Mm)
    requires PhysOk(p, own) && TablesIndexed(own, t, mm)
    ensures PagesAgree(p.mem, mm) <==> PagesIndexed(own, t, mm.userPages)
  {
    if PagesIndexed(own, t, mm.userPages) {
      IndexedThenAgree(p, own, t, mm);
    } else if PagesAgree(p.mem, mm) {
      AgreeThenIndexed(p, own, t, mm);
      assert false;
    }
  }

  lemma IndexedThenAgree(p: Phys, own: Owners, t: nat, mm: Mm)
    requires PhysOk(p, own) && TablesIndexed(own, t, mm) && PagesIndexed(own, t, mm.userPages)
    ensures PagesAgree(p.mem, mm)
  {
    hide PhysOk, TablesIndexed, Translate;
    var ups := mm.userPages;
    forall i | 0 <= i < |ups|
      ensures ups[i].virt % PAGE_SIZE == 0 && Translate(p.mem, mm, ups[i].virt) == Mapped(ups[i].phys, 1, true)
    {
      assert PageEntryOk(own, t, ups[i]);
      TranslateIsTree(p, own, t, mm, ups[i].virt);
    }
    forall va: nat | Translate(p.mem, mm, va) != Fault
      ensures HasEntry(ups, Translate(p.mem, mm, va), va)
    {
      TranslationLimit(p.mem, mm, va);
      TranslateIsTree(p, own, t, mm, va);
      PageNumber(va);
      assert Key(va, 4) * PAGE_SIZE == va - va % PAGE_SIZE;
      assert Node(t, 4, Key(va, 4)) in own;
    }
  }

  lemma TranslationLimit(mem: seq<Word>, mm: Mm, va: nat)
    ensures Translate(mem, mm, va) != Fault ==> va < VA_LIMIT && mm.pgd != 0
  {
  }

  lemma AgreeThenIndexed(p: Phys, own: Owners, t: nat, mm: Mm)
    requires PhysOk(p, own) && TablesIndexed(own, t, mm) && PagesAgree(p.mem, mm)
    ensures PagesIndexed(own, t, mm.userPages)
  {
    var ups := mm.userPages;
    assert OwnersOk(own);
    hide PhysOk, TablesIndexed, Translate;
    forall i | 0 <= i < |ups|
      ensures PageEntryOk(own, t, ups[i])
    {
      assert Translate(p.mem, mm, ups[i].virt) == Mapped(ups[i].phys, 1, true);
      TranslationLimit(p.mem, mm, ups[i].virt);
      TranslateIsTree(p, own, t, mm, ups[i].virt);
    }
    forall k: nat | Node(t, 4, k) in own
      ensures UserPage(own[Node(t, 4, k)], k * PAGE_SIZE) in ups
    {
      MappedKeyListed(p, own, t, mm, k);
    }
  }

  lemma MappedKeyListed(p: Phys, own: Owners, t: nat, mm: Mm, k: nat)
    requires PhysOk(p, own) && TablesIndexed(own, t, mm) && PagesAgree(p.mem, mm)
    requires Node(t, 4, k) in own
    ensures UserPage(own[Node(t, 4, k)], k * PAGE_SIZE) in mm.userPages
  {
    var va, f := k * PAGE_SIZE, own[Node(t, 4, k)];
    PageKeyAddress(p, own, t, k);
    TranslateIsTree(p, own, t, mm, va);
    hide PhysOk, TablesIndexed, Translate, Key;
    assert Translate(p.mem, mm, va) == Mapped(f, 1, true);
    MappedPageListed(p.mem, mm, va, f);
  }

  lemma MappedPageListed(mem: seq<Word>, mm: Mm, va: nat, f: nat)
    requires PagesAgree(mem, mm) && va % PAGE_SIZE == 0 && Translate(mem, mm, va) == Mapped(f, 1, true)
    ensures UserPage(f, va) in mm.userPages
  {
    hide Translate;
    assert HasEntry(mm.userPages, Translate(mem, mm, va), va);
  }

  lemma PageKeyAddress(p: Phys, own: Owners, t: nat, k: nat)
    requires PhysOk(p, own) && Node(t, 4, k) in own
    ensures k * PAGE_SIZE < VA_LIMIT && k * PAGE_SIZE % PAGE_SIZE == 0
    ensures PathNode(t, 4, k * PAGE_SIZE) == Node(t, 4, k)
  {
    KeyInRange(own, t, 4, k);
    PathThrough(t, 4, k);
  }

  lemma MapPageIndexes(own: Owners, own': Owners, t: nat, va: nat, page: nat, ups: seq<UserPage>)
    requires MapsPage(own, own', t, va, page) && PagesIndexed(own, t, ups)
    ensures PagesIndexed(own', t, ups + [UserPage(page, va)]) <==>
      va < VA_LIMIT && va % PAGE_SIZE == 0 && PathNode(t, 4, va) !in own
  {
    var x := PathNode(t, 4, va);
    var ups' := ups + [UserPage(page, va)];
    PageNumber(va);
    if va < VA_LIMIT && va % PAGE_SIZE == 0 && x !in own {
      MapPageIndexed(own, own', t, va, page, ups);
    } else if PagesIndexed(own', t, ups') {
      assert ups'[|ups|] == UserPage(page, va);
      assert PageEntryOk(own', t, ups'[|ups|]);
      assert forall i :: 0 <= i < |ups| ==> ups'[i].virt != ups'[|ups|].virt;
      assert forall i :: 0 <= i < |ups| ==> ups'[i] == ups[i];
      NotListed(own, t, ups, va);
      assert false;
    }
  }

  lemma NotListed(own: Owners, t: nat, ups: seq<UserPage>, va: nat)
    requires PagesIndexed(own, t, ups) && va < VA_LIMIT && va % PAGE_SIZE == 0
    requires forall i :: 0 <= i < |ups| ==> ups[i].virt != va
    ensures PathNode(t, 4, va) !in own
  {
    PageNumber(va);
    assert Key(va, 4) * PAGE_SIZE == va;
  }

  lemma MapPageIndexed(own: Owners, own': Owners, t: nat, va: nat, page: nat, ups: seq<UserPage>)
    requires MapsPage(own, own', t, va, page) && PagesIndexed(own, t, ups)
    requires va < VA_LIMIT && va % PAGE_SIZE == 0 && PathNode(t, 4, va) !in own
    ensures PagesIndexed(own', t, ups + [UserPage(page, va)])
  {
    var x := PathNode(t, 4, va);
    var ups' := ups + [UserPage(page, va)];
    MapsPageAt(own, own', t, va, page, x);
    forall i | 0 <= i < |ups'|
      ensures PageEntryOk(own', t, ups'[i]) && (i < |ups| ==> ups[i].virt != va)
    {
      hide MapsPage, Key;
      if i < |ups| {
        assert PageEntryOk(own, t, ups[i]);
        MapsPageAt(own, own', t, va, page, PathNode(t, 4, ups[i].virt));
      }
    }
    forall k: nat | Node(t, 4, k) in own'
      ensures UserPage(own'[Node(t, 4, k)], k * PAGE_SIZE) in ups'
    {
      PageNumber(va);
      MapsPageAt(own, own', t, va, page, Node(t, 4, k));
      hide MapsPage, Key;
      if k == x.key {
        assert ups'[|ups|] == UserPage(page, va);
      }
    }
  }

  // The exact condition under which map_page keeps the side indexes in agreement with the tree.
  lemma MapPageKeepsAgreementIff(p: Phys, own: Owners, t: nat, mm: Mm, va: nat, page: nat)
    requires PhysOk(p, own) && TablesIndexed(own, t, mm) && PagesAgree(p.mem, mm)
    requires Loose(page) in own && IsPage(page) && MissingTo(own, t, va, 3) <= FreeCount(p)
    ensures var (q, m) := MapPage(p, mm, va, page);
      && TablesAgree(q.mem, m)
      && (PagesAgree(q.mem, m) <==>
        va < VA_LIMIT && va % PAGE_SIZE == 0 && Translate(p.mem, mm, va) == Fault)
  {
    var own' := MapPageOk(p, own, t, mm, va, page);
    var (q, m) := MapPage(p, mm, va, page);
    TablesIndexedAgree(q, own', t, m);
    PagesIndexedAgree(p, own, t, mm);
    PagesIndexedAgree(q, own', t, m);
    MapPageIndexes(own, own', t, va, page, mm.userPages);
    if va < VA_LIMIT {
      TranslateIsTree(p, own, t, mm, va);
    }
  }
}
