// memcpy and copy_virt_memory: duplicating an address space page by page.
module CopyMemory {
  import opened Bits
  import opened PhysMem
  import opened Mmu
  import opened PageTables

  // ----- memcpy (mm.S:1-7) -----

  // The word a kernel load at va reads: the upper half is the direct map, the lower half goes
  // through the tables that ttbr0 points at. A load that faults has no value; 0 stands for it.
  function Load(mem: seq<Word>, ttbr0: nat, va: nat): Word {
    if va >= VA_START then WordAt(mem, va - VA_START, 0)
    else
      match Walk(mem, ttbr0, va)
      case Mapped(pa, _, _) => WordAt(mem, pa, 0)
      case Fault => 0
  }

  function MemCpy(mem: seq<Word>, ttbr0: nat, dst: nat, src: nat, n: nat): (r: seq<Word>)
    requires dst >= VA_START
    ensures |r| == |mem|
    decreases n
  {
    var mem1 := SetWord(mem, dst - VA_START, 0, Load(mem, ttbr0, src));
    if n > 8 then MemCpy(mem1, ttbr0, dst + 8, src + 8, n - 8) else mem1
  }

  // The two memories differ at most in frame f.
  ghost predicate SameBut(mem: seq<Word>, mem': seq<Word>, f: nat) {
    && |mem'| == |mem| == MEM_WORDS
    && mem'[..LOW_MEMORY / 8] == mem[..LOW_MEMORY / 8]
    && (forall g, w :: IsFrame(g) && g != f && 0 <= w < 512 ==> WordAt(mem', g, w) == WordAt(mem, g, w))
  }

  function LoadNth(mem: seq<Word>, ttbr0: nat, src: nat, j: nat): Word {
    Load(mem, ttbr0, src + 8 * j)
  }

  // Stores into frame f do not change the words that the copy reads.
  ghost predicate SourceStable(mem: seq<Word>, ttbr0: nat, f: nat, src: nat, count: nat) {
    forall mem': seq<Word>, j :: SameBut(mem, mem', f) && 0 <= j < count ==>
      LoadNth(mem', ttbr0, src, j) == LoadNth(mem, ttbr0, src, j)
  }

  // Frame f holds the first i words of the source and is otherwise as in mem.
  ghost predicate CopiedTo(mem: seq<Word>, mem': seq<Word>, ttbr0: nat, f: nat, src: nat, i: nat) {
    && SameBut(mem, mem', f)
    && (forall w :: 0 <= w < 512 ==>
      WordAt(mem', f, w) == if w < i then LoadNth(mem, ttbr0, src, w) else WordAt(mem, f, w))
  }

  lemma {:induction false} MemCpyFrom(mem: seq<Word>, mem1: seq<Word>, ttbr0: nat, f: nat, src: nat, i: nat, n: nat)
    requires IsFrame(f) && 0 < n && 8 * i + n <= PAGE_SIZE
    requires SourceStable(mem, ttbr0, f, src, i + Steps(n)) && CopiedTo(mem, mem1, ttbr0, f, src, i)
    ensures CopiedTo(mem, MemCpy(mem1, ttbr0, VA_START + f + 8 * i, src + 8 * i, n), ttbr0, f, src, i + Steps(n))
    decreases n
  {
    hide CopiedTo, SetWord, Load, LoadNth, IsFrame;
    var mem2 := SetWord(mem1, f + 8 * i, 0, Load(mem1, ttbr0, src + 8 * i));
    CopyStep(mem, mem1, ttbr0, f, src, i);
    if n <= 8 {
    } else {
      MemCpyFrom(mem, mem2, ttbr0, f, src, i + 1, n - 8);
      assert i + 1 + Steps(n - 8) == i + Steps(n);
      assert VA_START + f + 8 * i + 8 == VA_START + f + 8 * (i + 1) && src + 8 * i + 8 == src + 8 * (i + 1);
    }
  }

  lemma CopyStep(mem: seq<Word>, mem1: seq<Word>, ttbr0: nat, f: nat, src: nat, i: nat)
    requires IsFrame(f) && 0 <= i < 512
    requires SourceStable(mem, ttbr0, f, src, i + 1) && CopiedTo(mem, mem1, ttbr0, f, src, i)
    ensures CopiedTo(mem, SetWord(mem1, f + 8 * i, 0, Load(mem1, ttbr0, src + 8 * i)), ttbr0, f, src, i + 1)
  {
    var v := Load(mem1, ttbr0, src + 8 * i);
    assert v == LoadNth(mem1, ttbr0, src, i) == LoadNth(mem, ttbr0, src, i);
    var mem2 := SetWord(mem1, f, i, v);
    assert mem2 == SetWord(mem1, f + 8 * i, 0, v);
    hide Load, LoadNth;
    forall g, w | IsFrame(g) && 0 <= w < 512
      ensures WordAt(mem2, g, w) == if g == f && w == i then v else WordAt(mem1, g, w)
    {
      SetThenRead(mem1, f, i, v, g, w);
    }
    WordsBelow(mem1, f, i, v);
  }

  // memcpy into a frame writes exactly the words it covers, with the words it read.
  lemma MemCpyCopies(mem: seq<Word>, ttbr0: nat, f: nat, src: nat, n: nat)
    requires |mem| == MEM_WORDS && IsFrame(f) && 0 < n <= PAGE_SIZE
    requires SourceStable(mem, ttbr0, f, src, Steps(n))
    ensures CopiedTo(mem, MemCpy(mem, ttbr0, VA_START + f, src, n), ttbr0, f, src, Steps(n))
  {
    MemCpyFrom(mem, mem, ttbr0, f, src, 0, n);
  }

  // ----- stores outside the tables -----

  lemma StoresKeepTree(p: Phys, mem': seq<Word>, own: Owners, y: Pos)
    requires PhysOk(p, own) && y in own && (y.Node? ==> y.depth == 4)
    requires SameBut(p.mem, mem', own[y])
    ensures PhysOk(p.(mem := mem'), own)
  {
    forall x | IsChild(x) && Parent(x) in own
      ensures SlotOk(mem', own, x)
    {
      assert SlotOk(p.mem, own, x) && PlaceOk(own, Parent(x));
      assert own[Parent(x)] != own[y];
    }
  }

  lemma SamePage(t: nat, va: nat, off: nat)
    requires va % PAGE_SIZE == 0 && off < PAGE_SIZE
    ensures PathNode(t, 4, va + off) == PathNode(t, 4, va) && (va + off) % PAGE_SIZE == off
  {
  }

  // Reading a mapped user page through its task's tables gives the words of its frame, whatever is
  // stored in another page.
  lemma UserSource(p: Phys, own: Owners, t: nat, va: nat, y: Pos)
    requires PhysOk(p, own) && va < VA_LIMIT && va % PAGE_SIZE == 0
    requires Node(t, 0, 0) in own && PathNode(t, 4, va) in own
    requires y in own && (y.Node? ==> y.depth == 4) && y != PathNode(t, 4, va)
    ensures var ttbr0, g := own[Node(t, 0, 0)], own[PathNode(t, 4, va)];
      && SourceStable(p.mem, ttbr0, own[y], va, 512)
      && (forall w :: 0 <= w < 512 ==> LoadNth(p.mem, ttbr0, va, w) == WordAt(p.mem, g, w))
  {
    var ttbr0, g := own[Node(t, 0, 0)], own[PathNode(t, 4, va)];
    assert PlaceOk(own, PathNode(t, 4, va));
    assert g != own[y];
    forall mem': seq<Word>, j | SameBut(p.mem, mem', own[y]) && 0 <= j < 512
      ensures LoadNth(mem', ttbr0, va, j) == WordAt(mem', g, j)
    {
      StoresKeepTree(p, mem', own, y);
      UserLoad(mem', own, t, va, j);
    }
    assert SameBut(p.mem, p.mem, own[y]);
  }

  lemma UserLoad(mem: seq<Word>, own: Owners, t: nat, va: nat, j: nat)
    requires |mem| == MEM_WORDS && OwnersOk(own) && SlotsOk(mem, own) && va < VA_LIMIT && va % PAGE_SIZE == 0 && j < 512
    requires Node(t, 0, 0) in own && PathNode(t, 4, va) in own
    ensures LoadNth(mem, own[Node(t, 0, 0)], va, j) == WordAt(mem, own[PathNode(t, 4, va)], j)
  {
    WalkFindsTree(mem, own, t, va + 8 * j);
    SamePage(t, va, 8 * j);
    assert PlaceOk(own, PathNode(t, 4, va));
  }
}
