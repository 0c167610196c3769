// The four-level page tables of the tasks, and what mm.c does to them.
//
// Every frame the allocator has handed out is owned at exactly one position: it holds a task_struct,
// it is a node of one task's tree (depth 0 is the PGD, 1 to 3 the lower tables, 4 the user pages),
// or it is loose. The word in the slot of a node is determined by the owners map, so the owners map
// describes the tree that lies in memory.
module PageTables {
  import opened Bits
  import opened PhysMem
  import opened Mmu

  datatype Pos =
    | Struct(task: nat)
    | Node(task: nat, depth: nat, key: nat)
    | Loose(frame: nat)

  type Owners = map<Pos, nat>

  // The bits of a 48-bit virtual address that select a node of the given depth.
  function Key(va: nat, depth: nat): nat {
    match depth
    case 0 => 0
    case 1 => va / 0x80_0000_0000 % 512
    case 2 => va / 0x4000_0000 % 0x4_0000
    case 3 => va / 0x20_0000 % 0x800_0000
    case _ => va / 0x1000 % 0x10_0000_0000
  }

  // The node of task t at the given depth on the path to virtual address va.
  function PathNode(t: nat, depth: nat, va: nat): Pos {
    Node(t, depth, Key(va, depth))
  }

  predicate IsChild(x: Pos) {
    x.Node? && 1 <= x.depth <= 4
  }

  function Parent(x: Pos): Pos
    requires IsChild(x)
  {
    Node(x.task, x.depth - 1, x.key / 512)
  }

  predicate IsTableOf(x: Pos, t: nat) {
    x.Node? && x.task == t && x.depth <= 3
  }

  function EntryFor(x: Pos, f: nat): Word
    requires IsChild(x) && IsFrame(f)
  {
    if x.depth == 4 then PageDescriptor(f, 0); Descriptor(f, MMU_PTE_FLAGS)
    else TableDescriptor(f); Descriptor(f, MM_TYPE_PAGE_TABLE)
  }

  // The slot of child x in its parent's table.
  function Slot(mem: seq<Word>, own: Owners, x: Pos): Word
    requires IsChild(x) && Parent(x) in own
  {
    WordAt(mem, own[Parent(x)], x.key % 512)
  }

  predicate SlotOk(mem: seq<Word>, own: Owners, x: Pos)
    requires IsChild(x) && Parent(x) in own
  {
    if x in own then IsFrame(own[x]) && Slot(mem, own, x) == EntryFor(x, own[x])
    else Slot(mem, own, x) == 0
  }

  predicate PlaceOk(own: Owners, x: Pos)
    requires x in own
  {
    && IsFrame(own[x])
    && (x.Loose? ==> own[x] == x.frame)
    && (x.Node? ==> x.depth <= 4)
    && (x.Node? && x.depth == 0 ==> x.key == 0)
    && (IsChild(x) ==> Parent(x) in own)
  }

  ghost predicate OwnersOk(own: Owners) {
    && (forall x {:trigger PlaceOk(own, x)} :: x in own ==> PlaceOk(own, x))
    && (forall x, y :: x in own && y in own && own[x] == own[y] ==> x == y)
  }

  ghost predicate SlotsOk(mem: seq<Word>, own: Owners) {
    forall x {:trigger SlotOk(mem, own, x)} :: IsChild(x) && Parent(x) in own ==> SlotOk(mem, own, x)
  }

  ghost predicate PhysOk(p: Phys, own: Owners) {
    && Shaped(p)
    && OwnersOk(own)
    && SlotsOk(p.mem, own)
    && (forall f :: IsFrame(f) ==> (Marked(p, f) <==> f in own.Values))
  }

  // Only task t's own tables may differ between the two memories, among the frames owned before.
  ghost predicate KeepsOthers(mem: seq<Word>, mem': seq<Word>, own: Owners, t: nat) {
    && |mem'| == |mem| == MEM_WORDS
    && mem'[..LOW_MEMORY / 8] == mem[..LOW_MEMORY / 8]
    && forall x, w :: x in own && !IsTableOf(x, t) && 0 <= w < 512 ==>
      WordAt(mem', own[x], w) == WordAt(mem, own[x], w)
  }

  // ----- the tree in memory and the walk -----

  lemma PathParent(t: nat, depth: nat, va: nat)
    requires 1 <= depth <= 4
    ensures Parent(PathNode(t, depth, va)) == PathNode(t, depth - 1, va)
    ensures PathNode(t, depth, va).key % 512 == VaIndex(va, depth - 1)
  {
    match depth {
      case 1 => PathStep1(va);
      case 2 => PathStep2(va);
      case 3 => PathStep3(va);
      case _ => PathStep4(va);
    }
  }

  lemma PathStep1(va: nat)
    ensures Key(va, 1) / 512 == 0 && Key(va, 1) % 512 == VaIndex(va, 0)
  {
  }

  lemma PathStep2(va: nat)
    ensures Key(va, 2) / 512 == Key(va, 1) && Key(va, 2) % 512 == VaIndex(va, 1)
  {
    LowNineBits(va / 0x4000_0000, 512);
    assert va / 0x4000_0000 / 512 == va / 0x80_0000_0000;
  }

  lemma PathStep3(va: nat)
    ensures Key(va, 3) / 512 == Key(va, 2) && Key(va, 3) % 512 == VaIndex(va, 2)
  {
    LowNineBits(va / 0x20_0000, 0x4_0000);
    assert va / 0x20_0000 / 512 == va / 0x4000_0000;
  }

  lemma PathStep4(va: nat)
    ensures Key(va, 4) / 512 == Key(va, 3) && Key(va, 4) % 512 == VaIndex(va, 3)
  {
    LowNineBits(va / 0x1000, 0x800_0000);
    assert va / 0x1000 / 512 == va / 0x20_0000;
  }

  // The walk from a task's root finds exactly the page its tree has for the address.
  lemma WalkFindsTree(mem: seq<Word>, own: Owners, t: nat, va: nat)
    requires OwnersOk(own) && SlotsOk(mem, own) && Node(t, 0, 0) in own
    ensures var x := PathNode(t, 4, va);
      Walk(mem, own[Node(t, 0, 0)], va) ==
        if x in own then Mapped(own[x] + va % PAGE_SIZE, 1, true) else Fault
  {
    WalkFromFindsTree(mem, own, t, va, 0);
  }

  lemma PathSlot(mem: seq<Word>, own: Owners, t: nat, va: nat, level: nat)
    requires OwnersOk(own) && SlotsOk(mem, own) && level <= 3 && PathNode(t, level, va) in own
    ensures var x := PathNode(t, level + 1, va);
      var d := WordAt(mem, own[PathNode(t, level, va)], VaIndex(va, level));
      if x in own then IsFrame(own[x]) && d == EntryFor(x, own[x]) else d == 0
  {
    PathParent(t, level + 1, va);
    assert SlotOk(mem, own, PathNode(t, level + 1, va));
  }

  lemma {:induction false} WalkFromFindsTree(mem: seq<Word>, own: Owners, t: nat, va: nat, level: nat)
    requires OwnersOk(own) && SlotsOk(mem, own) && level <= 3 && PathNode(t, level, va) in own
    ensures var x := PathNode(t, 4, va);
      WalkFrom(mem, own[PathNode(t, level, va)], va, level) ==
        if x in own then Mapped(own[x] + va % PAGE_SIZE, 1, true) else Fault
    decreases 3 - level
  {
    var x := PathNode(t, level + 1, va);
    PathSlot(mem, own, t, va, level);
    WalkStep(mem, own[PathNode(t, level, va)], va, level);
    if x !in own {
      NoPathBelow(own, t, va, level + 1);
    } else if level == 3 {
      PageDescriptor(own[x], va);
    } else {
      TableDescriptor(own[x]);
      WalkFromFindsTree(mem, own, t, va, level + 1);
    }
  }

  lemma {:induction false} NoPathBelow(own: Owners, t: nat, va: nat, level: nat)
    requires OwnersOk(own) && level <= 4 && PathNode(t, level, va) !in own
    ensures PathNode(t, 4, va) !in own
    decreases 4 - level
  {
    if level >= 4 {
    } else {
      PathParent(t, level + 1, va);
      NoOrphan(own, PathNode(t, level + 1, va));
      NoPathBelow(own, t, va, level + 1);
    }
  }

  // ----- mm.c -----

  datatype UserPage = UserPage(phys: nat, virt: nat)

  // The part of mm_struct in use: user_pages[0..count) and kernel_pages[1..count].
  datatype Mm = Mm(pgd: nat, userPages: seq<UserPage>, kernelPages: seq<nat>)

  const EmptyMm := Mm(0, [], [])

  predicate IsPage(f: nat) {
    f % PAGE_SIZE == 0 && f < HIGH_MEMORY
  }

  // The memory after the call, the next-level table, and whether it is new.
  function MapTable(p: Phys, table: nat, shift: nat, va: nat): (r: (Phys, nat, bool))
    requires Shaped(p)
    ensures Shaped(r.0)
  {
    var index := TableIndex(va, shift);
    var entry := WordAt(p.mem, table, index);
    if entry == 0 then
      var (q, next) := GetFreePage(p);
      (q.(mem := SetWord(q.mem, table, index, Descriptor(next, MM_TYPE_PAGE_TABLE))), next, true)
    else
      (p, PageBase(entry), false)
  }

  function MapTableEntry(mem: seq<Word>, pte: nat, va: nat, pa: nat): (r: seq<Word>)
    requires IsPage(pa)
    ensures |r| == |mem|
  {
    SetWord(mem, pte, TableIndex(va, PAGE_SHIFT), Descriptor(pa, MMU_PTE_FLAGS))
  }

  // One level of map_page: find or make the next table, and list it when it is new.
  function MapLevel(p: Phys, mm: Mm, table: nat, shift: nat, va: nat): (r: (Phys, Mm, nat))
    requires Shaped(p)
    ensures Shaped(r.0)
  {
    var (q, next, isNew) := MapTable(p, table, shift, va);
    (q, if isNew then mm.(kernelPages := mm.kernelPages + [next]) else mm, next)
  }

  function MapRoot(p: Phys, mm: Mm): (r: (Phys, Mm))
    requires Shaped(p)
    ensures Shaped(r.0)
  {
    if mm.pgd != 0 then (p, mm)
    else
      var (q, pgd) := GetFreePage(p);
      (q, mm.(pgd := pgd, kernelPages := mm.kernelPages + [pgd]))
  }

  // The tables on the path to va down to the given level, and the table of that level.
  function MapTables(p: Phys, mm: Mm, va: nat, level: nat): (r: (Phys, Mm, nat))
    requires Shaped(p)
    ensures Shaped(r.0)
  {
    if level == 0 then
      var (q, m) := MapRoot(p, mm);
      (q, m, m.pgd)
    else
      var (q, m, table) := MapTables(p, mm, va, level - 1);
      MapLevel(q, m, table, ShiftOf(level - 1), va)
  }

  function MapPage(p: Phys, mm: Mm, va: nat, page: nat): (r: (Phys, Mm))
    requires Shaped(p) && IsPage(page)
    ensures Shaped(r.0)
  {
    var (q, m, pte) := MapTables(p, mm, va, 3);
    (q.(mem := MapTableEntry(q.mem, pte, va, page)),
     m.(userPages := m.userPages + [UserPage(page, va)]))
  }

  // ----- one more frame -----

  // Handing out a frame for a task_struct, for a task's PGD, or for no position yet.
  lemma TakeFrame(p: Phys, own: Owners, x: Pos)
    requires PhysOk(p, own) && FreeCount(p) > 0
    requires x !in own && !IsChild(x) && (x.Node? ==> x.depth == 0 && x.key == 0)
    requires x.Loose? ==> x.frame == GetFreePage(p).1
    ensures var (q, f) := GetFreePage(p);
      && IsFrame(f) && f !in own.Values
      && PhysOk(q, own[x := f]) && FreeCount(q) == FreeCount(p) - 1
      && (forall t :: KeepsOthers(p.mem, q.mem, own, t))
  {
    var (q, f) := GetFreePage(p);
    GetFreePageGivesZeroedFreeFrame(p);
    var own' := own[x := f];
    NewOwner(p, q, own, x, f);
    assert forall y :: y in own ==> PlaceOk(own, y);
    forall y | IsChild(y) && Parent(y) in own'
      ensures SlotOk(q.mem, own', y)
    {
      NewFrameSlots(p, q, own, x, f, y);
    }
  }

  lemma NewOwner(p: Phys, q: Phys, own: Owners, x: Pos, f: nat)
    requires PhysOk(p, own) && Shaped(q) && IsFrame(f) && !Marked(p, f) && Marked(q, f)
    requires forall g :: IsFrame(g) && g != f ==> Marked(q, g) == Marked(p, g)
    requires x !in own && (x.Loose? ==> x.frame == f) && (IsChild(x) ==> Parent(x) in own)
    requires x.Node? ==> x.depth <= 4 && (x.depth == 0 ==> x.key == 0)
    ensures f !in own.Values
    ensures OwnersOk(own[x := f])
    ensures forall g :: IsFrame(g) ==> (Marked(q, g) <==> g in own[x := f].Values)
  {
    var own' := own[x := f];
    assert f !in own.Values;
    forall y | y in own'
      ensures PlaceOk(own', y)
    {
      assert y in own ==> PlaceOk(own, y);
    }
    assert own'.Values == own.Values + {f} by {
      assert own'[x] == f;
      assert forall y :: y in own ==> own'[y] == own[y];
    }
  }

  lemma NewFrameSlots(p: Phys, q: Phys, own: Owners, x: Pos, f: nat, y: Pos)
    requires PhysOk(p, own) && Shaped(q) && IsFrame(f) && f !in own.Values
    requires forall w :: 0 <= w < 512 ==> WordAt(q.mem, f, w) == 0
    requires forall g, w :: IsFrame(g) && g != f && 0 <= w < 512 ==> WordAt(q.mem, g, w) == WordAt(p.mem, g, w)
    requires x !in own && IsChild(y) && Parent(y) in own[x := f] && y != x
    ensures SlotOk(q.mem, own[x := f], y)
  {
    if Parent(y) != x {
      assert SlotOk(p.mem, own, y);
      assert PlaceOk(own, Parent(y));
    } else {
      NoOrphan(own, y);
    }
  }

  lemma NoOrphan(own: Owners, y: Pos)
    requires OwnersOk(own) && IsChild(y) && Parent(y) !in own
    ensures y !in own
  {
    assert forall z :: z in own ==> PlaceOk(own, z);
  }

  // Handing out a frame for a table below an existing one, and linking it.
  lemma GrowTable(p: Phys, own: Owners, x: Pos)
    requires PhysOk(p, own) && FreeCount(p) > 0
    requires x !in own && IsChild(x) && x.depth <= 3 && Parent(x) in own
    ensures var (q, f) := GetFreePage(p);
      && IsFrame(f) && f !in own.Values
      && var mem' := SetWord(q.mem, own[Parent(x)], x.key % 512, EntryFor(x, f));
      && PhysOk(q.(mem := mem'), own[x := f]) && FreeCount(q) == FreeCount(p) - 1
      && KeepsOthers(p.mem, mem', own, x.task)
  {
    var (q, f) := GetFreePage(p);
    GetFreePageGivesZeroedFreeFrame(p);
    NewOwner(p, q, own, x, f);
    assert PlaceOk(own, Parent(x));
    assert forall y :: y in own ==> PlaceOk(own, y);
    var own' := own[x := f];
    var mem' := SetWord(q.mem, own[Parent(x)], x.key % 512, EntryFor(x, f));
    forall y | IsChild(y) && Parent(y) in own'
      ensures SlotOk(mem', own', y)
    {
      if y != x {
        NewFrameSlots(p, q, own, x, f, y);
      }
      SlotWritten(q.mem, own', x, EntryFor(x, f), y);
    }
    WriteKeeps(q.mem, own', x, EntryFor(x, f));
    WordsBelow(q.mem, own[Parent(x)], x.key % 512, EntryFor(x, f));
  }

  // Writing the slot of x changes the slot of no other node.
  lemma SlotWritten(mem: seq<Word>, own: Owners, x: Pos, v: Word, y: Pos)
    requires |mem| == MEM_WORDS && OwnersOk(own)
    requires IsChild(x) && Parent(x) in own && IsChild(y) && Parent(y) in own
    ensures var mem' := SetWord(mem, own[Parent(x)], x.key % 512, v);
      Slot(mem', own, y) == if y == x then v else Slot(mem, own, y)
  {
    assert PlaceOk(own, Parent(x)) && PlaceOk(own, Parent(y));
    SetThenRead(mem, own[Parent(x)], x.key % 512, v, own[Parent(y)], y.key % 512);
    if Parent(x) == Parent(y) && x.key % 512 == y.key % 512 {
      assert x.key == y.key;
    }
  }

  lemma WriteKeeps(mem: seq<Word>, own: Owners, x: Pos, v: Word)
    requires |mem| == MEM_WORDS && OwnersOk(own) && IsChild(x) && Parent(x) in own
    ensures KeepsOthers(mem, SetWord(mem, own[Parent(x)], x.key % 512, v), own, x.task)
  {
    var mem' := SetWord(mem, own[Parent(x)], x.key % 512, v);
    assert PlaceOk(own, Parent(x));
    WordsBelow(mem, own[Parent(x)], x.key % 512, v);
    forall y, w | y in own && !IsTableOf(y, x.task) && 0 <= w < 512
      ensures WordAt(mem', own[y], w) == WordAt(mem, own[y], w)
    {
      assert PlaceOk(own, y) && IsTableOf(Parent(x), x.task);
      SetThenRead(mem, own[Parent(x)], x.key % 512, v, own[y], w);
    }
  }

  lemma WordsBelow(mem: seq<Word>, f: nat, w: nat, v: Word)
    requires |mem| == MEM_WORDS && IsFrame(f)
    ensures SetWord(mem, f, w, v)[..LOW_MEMORY / 8] == mem[..LOW_MEMORY / 8]
  {
  }
}
