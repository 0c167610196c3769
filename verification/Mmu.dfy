// Descriptors (arm/mmu.h) and the address translation the hardware performs on them: VMSAv8-64,
// 4 KB granule, 48-bit virtual addresses, the VMSAv8-64 chapter of the Arm Architecture
// Reference Manual (DDI 0487).
module Mmu {
  import opened Bits
  import opened PhysMem

  const VA_LIMIT := 0x1_0000_0000_0000
  const PGD_SHIFT := 39
  const PUD_SHIFT := 30
  const PMD_SHIFT := 21
  const PAGE_SHIFT := 12
  const PAGE_MASK: Word := 0xffff_ffff_ffff_f000
  const MM_TYPE_PAGE_TABLE := 3
  const MMU_PTE_FLAGS := 0x447
  const MMU_FLAGS := 0x405
  const MMU_DEVICE_FLAGS := 0x401

  // Bytes that one entry of a table at the given level covers.
  function Span(level: nat): (r: nat)
    ensures r > 0
  {
    match level
    case 0 => 0x80_0000_0000
    case 1 => 0x4000_0000
    case 2 => 0x20_0000
    case _ => 0x1000
  }

  // The index that a virtual address selects in a table at the given level.
  function VaIndex(va: nat, level: nat): (r: nat)
    ensures r < PTRS_PER_TABLE
  {
    match level
    case 0 => va / 0x80_0000_0000 % 512
    case 1 => va / 0x4000_0000 % 512
    case 2 => va / 0x20_0000 % 512
    case _ => va / 0x1000 % 512
  }

  function ShiftOf(level: nat): nat {
    match level case 0 => PGD_SHIFT case 1 => PUD_SHIFT case 2 => PMD_SHIFT case _ => PAGE_SHIFT
  }

  // `(va >> shift) & (PTRS_PER_TABLE - 1)`
  function TableIndex(va: nat, shift: nat): (r: nat)
    ensures r == va / Pow2(shift) % PTRS_PER_TABLE
  {
    ShrIsDivision(va, shift);
    AndLowMask(Shr(va, shift), 9);
    Pow2Values();
    And(Shr(va, shift), PTRS_PER_TABLE - 1)
  }

  // The index the C code computes is the one the hardware uses.
  lemma TableIndexIsVaIndex(va: nat, level: nat)
    requires level <= 3
    ensures TableIndex(va, ShiftOf(level)) == VaIndex(va, level)
  {
    Pow2Values();
  }

  // `pa | flags` for a page-aligned address.
  function Descriptor(pa: nat, flags: nat): (r: nat)
    requires pa % PAGE_SIZE == 0 && flags < PAGE_SIZE
    ensures r == pa + flags
  {
    Pow2Values();
    OrAligned(pa, flags, 12);
    Or(pa, flags)
  }

  // `entry & PAGE_MASK`
  function PageBase(entry: Word): (r: Word)
    ensures r == entry - entry % PAGE_SIZE
  {
    Pow2Values();
    AndHighMask(entry, 12, 64);
    And(entry, PAGE_MASK)
  }

  datatype Translation = Fault | Mapped(pa: nat, attr: nat, el0: bool)

  // Bits 47:12 of a descriptor, as an address.
  function OutputAddress(d: Word): nat {
    d / PAGE_SIZE % 0x10_0000_0000 * PAGE_SIZE
  }

  // x rounded down to a multiple of size.
  function AlignDown(x: nat, size: nat): (r: nat)
    requires size > 0
    ensures r <= x
  {
    x - x % size
  }

  // A block or page descriptor that covers size bytes; a clear access flag faults.
  function Leaf(d: Word, va: nat, size: nat): Translation
    requires size > 0
  {
    if d / 1024 % 2 == 0 then Fault
    else Mapped(AlignDown(OutputAddress(d), size) + va % size, d / 4 % 8, d / 64 % 2 == 1)
  }

  function WalkFrom(mem: seq<Word>, table: nat, va: nat, level: nat): Translation
    requires level <= 3
    decreases 3 - level
  {
    var d := WordAt(mem, table, VaIndex(va, level));
    if d % 2 == 0 then Fault
    else if level == 3 then (if d % 4 == 3 then Leaf(d, va, PAGE_SIZE) else Fault)
    else if d % 4 == 3 then WalkFrom(mem, OutputAddress(d), va, level + 1)
    else if level == 0 then Fault
    else Leaf(d, va, Span(level))
  }

  lemma WalkStep(mem: seq<Word>, table: nat, va: nat, level: nat)
    requires level <= 3
    ensures var d := WordAt(mem, table, VaIndex(va, level));
      && (d == 0 ==> WalkFrom(mem, table, va, level) == Fault)
      && (d % 4 == 3 && level < 3 ==>
        WalkFrom(mem, table, va, level) == WalkFrom(mem, OutputAddress(d), va, level + 1))
      && (d % 4 == 3 && level == 3 ==> WalkFrom(mem, table, va, level) == Leaf(d, va, PAGE_SIZE))
  {
    var d := WordAt(mem, table, VaIndex(va, level));
    assert d % 4 == 3 ==> d % 2 == 1;
  }

  function Walk(mem: seq<Word>, ttbr: nat, va: nat): Translation {
    WalkFrom(mem, ttbr, va, 0)
  }

  // The table that the walk of va consults at the given level, if the walk gets there.
  function WalkTable(mem: seq<Word>, ttbr: nat, va: nat, level: nat): (r: nat)
    requires level <= 3
  {
    if level == 0 then ttbr
    else
      var t := WalkTable(mem, ttbr, va, level - 1);
      var d := WordAt(mem, t, VaIndex(va, level - 1));
      if t == 0 || d % 4 != 3 then 0 else OutputAddress(d)
  }

  // Flags below bit 12 do not reach the address field, nor the address the flags.
  lemma Fields(q: nat, flags: nat)
    requires q < 0x10_0000_0000 && flags < PAGE_SIZE
    ensures var d := PAGE_SIZE * q + flags;
      && d / PAGE_SIZE == q && d % PAGE_SIZE == flags
      && d % 4 == flags % 4 && d / 4 % 8 == flags / 4 % 8
      && d / 64 % 2 == flags / 64 % 2 && d / 1024 % 2 == flags / 1024 % 2
  {
    var d := PAGE_SIZE * q + flags;
    FieldShift(q, flags, PAGE_SIZE);
    assert d % 4 == flags % 4 && d / 4 % 8 == flags / 4 % 8 by {
      assert d == 4 * (8 * (128 * q)) + flags;
      FieldShift(8 * (128 * q), flags, 4);
      Field(128 * q, flags, 4, 8);
    }
    assert d / 64 % 2 == flags / 64 % 2 by {
      assert d == 64 * (2 * (32 * q)) + flags;
      Field(32 * q, flags, 64, 2);
    }
    assert d / 1024 % 2 == flags / 1024 % 2 by {
      assert d == 1024 * (2 * (2 * q)) + flags;
      Field(2 * q, flags, 1024, 2);
    }
  }

  lemma Field(k: nat, flags: nat, lo: nat, width: nat)
    requires lo > 0 && width > 0
    ensures (lo * (width * k) + flags) / lo % width == flags / lo % width
  {
    FieldShift(width * k, flags, lo);
    FieldShift(k, flags / lo, width);
  }

  lemma FieldShift(h: nat, flags: nat, lo: nat)
    requires lo > 0
    ensures (lo * h + flags) / lo == h + flags / lo && (lo * h + flags) % lo == flags % lo
  {
    var y, r := flags / lo, flags % lo;
    assert flags == lo * y + r;
    assert lo * h + flags == lo * (h + y) + r;
    RemainderUnique(lo * h + flags, lo, h + y, r);
  }

  lemma TableDescriptor(f: nat)
    requires IsFrame(f)
    ensures var d := Descriptor(f, MM_TYPE_PAGE_TABLE);
      0 < d < HIGH_MEMORY && d % 4 == 3 && OutputAddress(d) == f && PageBase(d) == f
  {
    Fields(f / PAGE_SIZE, MM_TYPE_PAGE_TABLE);
  }

  lemma PageDescriptor(f: nat, va: nat)
    requires IsFrame(f)
    ensures var d := Descriptor(f, MMU_PTE_FLAGS);
      0 < d < HIGH_MEMORY && d % 4 == 3 && Leaf(d, va, PAGE_SIZE) == Mapped(f + va % PAGE_SIZE, 1, true)
  {
    var q := f / PAGE_SIZE;
    FrameNumber(f);
    assert Descriptor(f, MMU_PTE_FLAGS) == PAGE_SIZE * q + MMU_PTE_FLAGS;
    Fields(q, MMU_PTE_FLAGS);
    hide IsFrame;
  }
}
