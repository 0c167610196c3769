// __create_page_tables of boot.S on registers and words of physical memory. Each macro is a method
// tied to its function in BootTables.
module BootCode {
  import opened Bits
  import opened PhysMem
  import opened Mmu
  import opened MemoryWords
  import opened BootTables

  class Boot {
    const mem: array<Word>

    // create_table_entry; `tbl` is the register it advances to the next level's page.
    method CreateTableEntry(tbl: nat, virt: nat, shift: nat) returns (nextTbl: nat)
      requires tbl % PAGE_SIZE == 0 && tbl + PAGE_SIZE < LOW_MEMORY
      modifies mem
      ensures mem[..] == BootTables.CreateTableEntry(old(mem[..]), tbl, virt, shift) && nextTbl == tbl + PAGE_SIZE
    {
      var tmp1 := TableIndex(virt, shift);
      var tmp2 := Descriptor(tbl + PAGE_SIZE, MM_TYPE_PAGE_TABLE);
      StoreWord(mem, tbl, tmp1, tmp2);
      nextTbl := tbl + PAGE_SIZE;
    }

    // create_block_map
    method CreateBlockMap(tbl: nat, phys: nat, start: nat, end: nat, flags: nat)
      requires phys < PHYS_MEMORY_SIZE && flags < PAGE_SIZE
      modifies mem
      ensures mem[..] == BootTables.CreateBlockMap(old(mem[..]), tbl, phys, start, end, flags)
    {
      hide TableIndex, BlockEntry, FillBlocks;
      FillLoop(tbl, TableIndex(start, SECTION_SHIFT), TableIndex(end, SECTION_SHIFT), BlockEntry(phys, flags));
    }

    // The loop at label 9999.
    method FillLoop(tbl: nat, start: nat, end: nat, phys: Word)
      modifies mem
      ensures mem[..] == FillBlocks(old(mem[..]), tbl, start, end, phys)
    {
      hide SetWord, Add;
      var index, entry := start, phys;
      ghost var done := FillBlocks(mem[..], tbl, index, end, entry);
      StoreWord(mem, tbl, index, entry);
      index, entry := index + 1, Add(entry, SECTION_SIZE);
      while index <= end
        invariant done == if index <= end then FillBlocks(mem[..], tbl, index, end, entry) else mem[..]
      {
        StoreWord(mem, tbl, index, entry);
        index, entry := index + 1, Add(entry, SECTION_SIZE);
      }
    }

    // __create_page_tables
    method CreatePageTables(pgDir: nat)
      requires PgDirOk(pgDir)
      modifies mem
      ensures mem[..] == MakeTables(old(mem[..]), pgDir)
    {
      hide Zeroed, BootTables.CreateTableEntry, BootTables.CreateBlockMap, PgDirOk;
      PgDirWords(pgDir);
      MemZero(mem, pgDir, PG_DIR_SIZE);
      var x0 := CreateTableEntry(pgDir, VA_START, PGD_SHIFT);
      x0 := CreateTableEntry(x0, VA_START, PUD_SHIFT);
      CreateBlockMap(x0, 0, VA_START, VA_START + DEVICE_BASE - SECTION_SIZE, MMU_FLAGS);
      CreateBlockMap(x0, DEVICE_BASE, VA_START + DEVICE_BASE, VA_START + PHYS_MEMORY_SIZE - SECTION_SIZE,
                     MMU_DEVICE_FLAGS);
    }
  }
}
