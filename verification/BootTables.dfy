// The kernel's own translation tables, which boot.S builds in three pages at pg_dir before the MMU is
// on, and the direct map they give: a block of 2 MB per entry, the upper half of the address space.
// BootCode.dfy proves the assembly against MakeTables.
module BootTables {
  import opened Bits
  import opened PhysMem
  import opened Mmu
  import opened AddressSpaces
  import Runs
  import Isolation

  const DEVICE_BASE := 0x3f00_0000
  const PHYS_MEMORY_SIZE := 0x4000_0000
  const SECTION_SHIFT := 21
  const SECTION_SIZE := 0x20_0000
  const PG_DIR_SIZE := 3 * PAGE_SIZE

  // pg_dir is page-aligned and lies, like all of the kernel image, below LOW_MEMORY.
  predicate PgDirOk(pgDir: nat) {
    pgDir % PAGE_SIZE == 0 && pgDir + PG_DIR_SIZE <= LOW_MEMORY
  }

  // The macro create_table_entry: an entry of the table at tbl for the table in the page after it.
  function CreateTableEntry(mem: seq<Word>, tbl: nat, virt: nat, shift: nat): (r: seq<Word>)
    requires tbl % PAGE_SIZE == 0 && tbl + PAGE_SIZE < LOW_MEMORY
    ensures |r| == |mem|
  {
    SetWord(mem, tbl, TableIndex(virt, shift), Descriptor(tbl + PAGE_SIZE, MM_TYPE_PAGE_TABLE))
  }

  // 64-bit addition.
  function Add(x: Word, y: Word): Word {
    (x + y) % 0x1_0000_0000_0000_0000
  }

  // The loop at label 9999: store, advance index and address, go on while start <= end.
  function FillBlocks(mem: seq<Word>, tbl: nat, start: nat, end: nat, entry: Word): (r: seq<Word>)
    ensures |r| == |mem|
    decreases if start <= end then end - start + 1 else 0
  {
    var stored := SetWord(mem, tbl, start, entry);
    if start + 1 <= end then FillBlocks(stored, tbl, start + 1, end, Add(entry, SECTION_SIZE)) else stored
  }

  lemma BlockBase(phys: nat, flags: nat)
    requires phys < PHYS_MEMORY_SIZE && flags < PAGE_SIZE
    ensures Shr(phys, SECTION_SHIFT) < 512
    ensures var b := Shr(phys, SECTION_SHIFT) * SECTION_SIZE;
      b % PAGE_SIZE == 0 && b < PHYS_MEMORY_SIZE && (phys % SECTION_SIZE == 0 ==> b == phys)
  {
    Pow2Values();
    ShrIsDivision(phys, SECTION_SHIFT);
    hide Shr, Pow2;
    var k := phys / SECTION_SIZE;
    RemainderUnique(k * SECTION_SIZE, PAGE_SIZE, 512 * k, 0);
  }

  // The entry create_block_map starts with: `flags | (phys >> SECTION_SHIFT) << SECTION_SHIFT`
  function BlockEntry(phys: nat, flags: nat): (r: Word)
    requires phys < PHYS_MEMORY_SIZE && flags < PAGE_SIZE
    ensures phys % SECTION_SIZE == 0 ==> r == phys + flags
  {
    BlockBase(phys, flags);
    Descriptor(Shr(phys, SECTION_SHIFT) * SECTION_SIZE, flags)
  }

  // The macro create_block_map.
  function CreateBlockMap(mem: seq<Word>, tbl: nat, phys: nat, start: nat, end: nat, flags: nat): (r: seq<Word>)
    requires phys < PHYS_MEMORY_SIZE && flags < PAGE_SIZE
    ensures |r| == |mem|
  {
    FillBlocks(mem, tbl, TableIndex(start, SECTION_SHIFT), TableIndex(end, SECTION_SHIFT), BlockEntry(phys, flags))
  }

  // The empty tables with the two links from table to table.
  function LinkTables(mem: seq<Word>, pgDir: nat): (r: seq<Word>)
    requires PgDirOk(pgDir)
    ensures |r| == |mem|
  {
    PgDirWords(pgDir);
    CreateTableEntry(
      CreateTableEntry(Zeroed(mem, pgDir, PG_DIR_SIZE), pgDir, VA_START, PGD_SHIFT),
      pgDir + PAGE_SIZE, VA_START, PUD_SHIFT)
  }

  // __create_page_tables.
  function MakeTables(mem: seq<Word>, pgDir: nat): (r: seq<Word>)
    requires PgDirOk(pgDir)
    ensures |r| == |mem|
  {
    var pmd := pgDir + 2 * PAGE_SIZE;
    var normal := CreateBlockMap(LinkTables(mem, pgDir), pmd, 0,
                                 VA_START, VA_START + DEVICE_BASE - SECTION_SIZE, MMU_FLAGS);
    CreateBlockMap(normal, pmd, DEVICE_BASE,
                   VA_START + DEVICE_BASE, VA_START + PHYS_MEMORY_SIZE - SECTION_SIZE, MMU_DEVICE_FLAGS)
  }

  // ----- What the tables hold -----

  lemma {:induction false} FillBlocksAt(mem: seq<Word>, tbl: nat, start: nat, end: nat, entry: Word, i: nat)
    requires start <= end < PTRS_PER_TABLE && entry + (end - start) * SECTION_SIZE < 0x1_0000_0000
    requires tbl / 8 + PTRS_PER_TABLE <= |mem| && i < |mem|
    ensures var k := i - tbl / 8;
      FillBlocks(mem, tbl, start, end, entry)[i] ==
        if start <= k <= end then entry + (k - start) * SECTION_SIZE else mem[i]
    decreases end - start
  {
    if start == end {
    } else {
      FillBlocksAt(SetWord(mem, tbl, start, entry), tbl, start + 1, end, Add(entry, SECTION_SIZE), i);
    }
  }

  // Word k of the three pages, as the boot code is meant to leave it.
  function TableWord(pgDir: nat, k: nat): nat {
    if k == 0 then pgDir + PAGE_SIZE + 3
    else if k == 512 then pgDir + 2 * PAGE_SIZE + 3
    else if k < 1024 then 0
    else (k - 1024) * SECTION_SIZE + if k < 1024 + 504 then MMU_FLAGS else MMU_DEVICE_FLAGS
  }

  ghost predicate TablesHold(mem: seq<Word>, pgDir: nat) {
    forall k :: 0 <= k < 1536 ==> WordAt(mem, pgDir, k) == TableWord(pgDir, k)
  }

  lemma BootIndices()
    ensures TableIndex(VA_START, PGD_SHIFT) == 0 && TableIndex(VA_START, PUD_SHIFT) == 0
    ensures TableIndex(VA_START, SECTION_SHIFT) == 0
    ensures TableIndex(VA_START + DEVICE_BASE - SECTION_SIZE, SECTION_SHIFT) == 503
    ensures TableIndex(VA_START + DEVICE_BASE, SECTION_SHIFT) == 504
    ensures TableIndex(VA_START + PHYS_MEMORY_SIZE - SECTION_SIZE, SECTION_SHIFT) == 511
  {
    hide TableIndex, Shr, Pow2;
    Pow2Values();
  }

  // The pages of pg_dir in words.
  lemma PgDirWords(pgDir: nat)
    requires PgDirOk(pgDir)
    ensures pgDir % PAGE_SIZE == 0 && pgDir % 8 == 0 && pgDir / 8 + 1536 <= LOW_MEMORY / 8
    ensures (pgDir + PAGE_SIZE) % PAGE_SIZE == 0 && pgDir + 2 * PAGE_SIZE < LOW_MEMORY
    ensures (pgDir + PAGE_SIZE) / 8 == pgDir / 8 + 512 && (pgDir + 2 * PAGE_SIZE) / 8 == pgDir / 8 + 1024
  {
    FrameNumber(pgDir);
    var q := pgDir / PAGE_SIZE;
    RemainderUnique(pgDir + PAGE_SIZE, PAGE_SIZE, q + 1, 0);
    RemainderUnique(pgDir + PAGE_SIZE, 8, 512 * (q + 1), 0);
    RemainderUnique(pgDir + 2 * PAGE_SIZE, 8, 512 * (q + 2), 0);
  }

  lemma LinkedAt(mem: seq<Word>, pgDir: nat, i: nat)
    requires PgDirOk(pgDir) && |mem| == MEM_WORDS && i < |mem|
    ensures var k := i - pgDir / 8;
      LinkTables(mem, pgDir)[i] ==
        if k < 0 || k >= 1536 then mem[i]
        else if k == 0 then pgDir + PAGE_SIZE + 3
        else if k == 512 then pgDir + 2 * PAGE_SIZE + 3
        else 0
  {
    PgDirWords(pgDir);
    BootIndices();
    var q, zeroed := pgDir / 8, Zeroed(mem, pgDir, PG_DIR_SIZE);
    assert Steps(PG_DIR_SIZE) == 1536;
    assert zeroed[i] == if q <= i < q + 1536 then 0 else mem[i];
    hide Zeroed, Steps, TableIndex, Descriptor;
  }

  // Word i of memory after __create_page_tables.
  lemma MadeAt(mem: seq<Word>, pgDir: nat, i: nat)
    requires PgDirOk(pgDir) && |mem| == MEM_WORDS && i < |mem|
    ensures var k := i - pgDir / 8;
      MakeTables(mem, pgDir)[i] == if 0 <= k < 1536 then TableWord(pgDir, k) else mem[i]
  {
    PgDirWords(pgDir);
    BootIndices();
    LinkedAt(mem, pgDir, i);
    var pmd, linked := pgDir + 2 * PAGE_SIZE, LinkTables(mem, pgDir);
    hide PgDirOk, TableIndex, LinkTables, FillBlocks, BlockEntry;
    var normal := FillBlocks(linked, pmd, 0, 503, MMU_FLAGS);
    FillBlocksAt(linked, pmd, 0, 503, MMU_FLAGS, i);
    FillBlocksAt(normal, pmd, 504, 511, DEVICE_BASE + MMU_DEVICE_FLAGS, i);
  }

  // The tables come out as meant, and no other word of memory changes.
  lemma TablesMade(mem: seq<Word>, pgDir: nat)
    requires PgDirOk(pgDir) && |mem| == MEM_WORDS
    ensures TablesHold(MakeTables(mem, pgDir), pgDir)
    ensures forall i :: 0 <= i < |mem| && !(pgDir / 8 <= i < pgDir / 8 + 1536) ==> MakeTables(mem, pgDir)[i] == mem[i]
  {
    var r := MakeTables(mem, pgDir);
    PgDirWords(pgDir);
    hide MakeTables, PgDirOk, TableWord;
    forall k | 0 <= k < 1536
      ensures WordAt(r, pgDir, k) == TableWord(pgDir, k)
    {
      MadeAt(mem, pgDir, pgDir / 8 + k);
    }
    forall i | 0 <= i < |mem| && !(pgDir / 8 <= i < pgDir / 8 + 1536)
      ensures r[i] == mem[i]
    {
      MadeAt(mem, pgDir, i);
    }
  }

  // ----- What the hardware makes of them -----

  // The table indices of an upper-half address are those of its offset from VA_START.
  lemma UpperHalfIndex(off: nat)
    requires off < VA_LIMIT
    ensures VaIndex(VA_START + off, 0) == off / 0x80_0000_0000
    ensures VaIndex(VA_START + off, 1) == off / 0x4000_0000 % 512
    ensures VaIndex(VA_START + off, 2) == off / 0x20_0000 % 512
    ensures (VA_START + off) % SECTION_SIZE == off % SECTION_SIZE
  {
    FieldShift(0x1ff_fe00, off, 0x80_0000_0000);
    FieldShift(0x3_fffc_0000, off, 0x4000_0000);
    FieldShift(0x7ff_f800_0000, off, 0x20_0000);
    FieldShift(0xffff, off / 0x80_0000_0000, 512);
    FieldShift(0x1ff_fe00, off / 0x4000_0000, 512);
    FieldShift(0x3_fffc_0000, off / 0x20_0000, 512);
  }

  lemma LinkWalks(f: nat)
    requires f % PAGE_SIZE == 0 && f < LOW_MEMORY
    ensures (f + 3) % 4 == 3 && (f + 3) % 2 == 1 && OutputAddress(f + 3) == f
  {
    FrameNumber(f);
    Fields(f / PAGE_SIZE, 3);
    FieldShift(f / PAGE_SIZE, 3, PAGE_SIZE);
    LowBit(f + 3);
  }

  lemma BlockAddress(k: nat, flags: nat)
    requires k < 512 && flags < PAGE_SIZE
    ensures AlignDown(OutputAddress(k * SECTION_SIZE + flags), SECTION_SIZE) == k * SECTION_SIZE
  {
    FieldShift(512 * k, flags, PAGE_SIZE);
    assert k * SECTION_SIZE + flags == PAGE_SIZE * (512 * k) + flags;
    FieldShift(k, 0, SECTION_SIZE);
  }

  lemma BlockFields(k: nat, flags: nat)
    requires k < 512 && (flags == MMU_FLAGS || flags == MMU_DEVICE_FLAGS)
    ensures var d := k * SECTION_SIZE + flags;
      && d % 2 == 1 && d % 4 == 1 && d / 1024 % 2 == 1 && d / 64 % 2 == 0
      && d / 4 % 8 == if flags == MMU_FLAGS then 1 else 0
  {
    var d := k * SECTION_SIZE + flags;
    assert d == PAGE_SIZE * (512 * k) + flags;
    Fields(512 * k, flags);
    assert flags / 1024 % 2 == 1 && flags / 64 % 2 == 0 && flags / 4 % 8 == if flags == MMU_FLAGS then 1 else 0;
    LowBit(d);
  }

  lemma LowBit(d: nat)
    ensures d % 2 == d % 4 % 2
  {
    var r := d % 4;
    RemainderUnique(d, 2, 2 * (d / 4) + r / 2, r % 2);
  }

  // A 2 MB block descriptor.
  lemma BlockWalks(k: nat, flags: nat, va: nat)
    requires k < 512 && (flags == MMU_FLAGS || flags == MMU_DEVICE_FLAGS)
    ensures var d := k * SECTION_SIZE + flags;
      && d % 2 == 1 && d % 4 == 1
      && Leaf(d, va, SECTION_SIZE) ==
           Mapped(k * SECTION_SIZE + va % SECTION_SIZE, if flags == MMU_FLAGS then 1 else 0, false)
  {
    hide OutputAddress, AlignDown;
    BlockAddress(k, flags);
    BlockFields(k, flags);
  }

  lemma OffsetParts(off: nat)
    requires off < VA_LIMIT
    ensures off < PHYS_MEMORY_SIZE <==> off / 0x80_0000_0000 == 0 && off / 0x4000_0000 % 512 == 0
    ensures off < PHYS_MEMORY_SIZE ==>
      var k := off / 0x20_0000 % 512;
      k * SECTION_SIZE + off % SECTION_SIZE == off && (k < 504 <==> off < DEVICE_BASE)
    ensures off / 0x80_0000_0000 < 512
  {
  }

  // An upper-half address translates exactly when it is VA_START plus an offset below 1 GB; the
  // answer is that offset; it is device memory (attribute 0) exactly from DEVICE_BASE on; and user
  // mode may not use it.
  lemma DirectMap(mem: seq<Word>, pgDir: nat, off: nat)
    requires PgDirOk(pgDir) && TablesHold(mem, pgDir) && off < VA_LIMIT
    ensures Walk(mem, pgDir, VA_START + off) ==
      if off < PHYS_MEMORY_SIZE then Mapped(off, if off >= DEVICE_BASE then 0 else 1, false) else Fault
  {
    UpperHalfIndex(off);
    OffsetParts(off);
    PgDirWords(pgDir);
    LinkWalks(pgDir + PAGE_SIZE);
    LinkWalks(pgDir + 2 * PAGE_SIZE);
    var va, i, j, k := VA_START + off, off / 0x80_0000_0000, off / 0x4000_0000 % 512, off / 0x20_0000 % 512;
    hide VaIndex, OutputAddress, Leaf, PgDirOk, WalkFrom;
    assert WordAt(mem, pgDir, i) == TableWord(pgDir, i);
    assert WordAt(mem, pgDir + PAGE_SIZE, j) == WordAt(mem, pgDir, 512 + j) == TableWord(pgDir, 512 + j);
    assert WordAt(mem, pgDir + 2 * PAGE_SIZE, k) == WordAt(mem, pgDir, 1024 + k) == TableWord(pgDir, 1024 + k);
    WalkLevel(mem, pgDir, va, 0);
    WalkLevel(mem, pgDir + PAGE_SIZE, va, 1);
    WalkLevel(mem, pgDir + 2 * PAGE_SIZE, va, 2);
    var flags := if k < 504 then MMU_FLAGS else MMU_DEVICE_FLAGS;
    BlockWalks(k, flags, va);
    assert j == 0 || TableWord(pgDir, 512 + j) == 0;
    assert i == 0 || TableWord(pgDir, i) == 0;
  }

  // One level of the walk, with blocks.
  lemma WalkLevel(mem: seq<Word>, table: nat, va: nat, level: nat)
    requires level <= 2
    ensures var d := WordAt(mem, table, VaIndex(va, level));
      WalkFrom(mem, table, va, level) ==
        if d % 2 == 0 then Fault
        else if d % 4 == 3 then WalkFrom(mem, OutputAddress(d), va, level + 1)
        else if level == 0 then Fault
        else Leaf(d, va, Span(level))
  {
  }

  // ----- They stay -----

  // In every run that starts with these tables, and in which kernel code does not store to them, the
  // direct map never changes: no frame that is handed out is one of the tables.
  lemma DirectMapStays(run: seq<State>, events: seq<Runs.Event>, n: nat, pgDir: nat, off: nat)
    requires Runs.IsRun(run, events) && n <= |events| && Isolation.Spares(events, pgDir / 8, 1536)
    requires PgDirOk(pgDir) && TablesHold(run[0].phys.mem, pgDir) && off < VA_LIMIT
    ensures Walk(run[n].phys.mem, pgDir, VA_START + off) ==
      if off < PHYS_MEMORY_SIZE then Mapped(off, if off >= DEVICE_BASE then 0 else 1, false) else Fault
  {
    PgDirWords(pgDir);
    Isolation.LowMemoryKept(run, events, n, pgDir / 8, 1536);
    var mem, mem' := run[0].phys.mem, run[n].phys.mem;
    hide Runs.IsRun, PgDirOk, TableWord;
    forall k | 0 <= k < 1536
      ensures WordAt(mem', pgDir, k) == TableWord(pgDir, k)
    {
      assert WordAt(mem, pgDir, k) == TableWord(pgDir, k);
    }
    DirectMap(mem', pgDir, off);
  }
}
