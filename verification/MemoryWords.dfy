// Stores to physical memory held in an array, and memzero of mm.S. A kernel address is its offset
// from VA_START.
module MemoryWords {
  import opened Bits
  import opened PhysMem

  // str value, [base, w, lsl #3]; a store past the end of memory goes nowhere.
  method StoreWord(mem: array<Word>, base: nat, w: nat, value: Word)
    modifies mem
    ensures mem[..] == SetWord(old(mem[..]), base, w, value)
  {
    if base / 8 + w < mem.Length {
      mem[base / 8 + w] := value;
    }
  }

  // memzero: clears a word, then tests.
  method MemZero(mem: array<Word>, start: nat, size: nat)
    requires start % 8 == 0
    modifies mem
    ensures mem[..] == Zeroed(old(mem[..]), start, size)
  {
    var x0, x1: int := start, size;
    ghost var from, i: nat := start / 8, 1;
    ghost var was := mem[..];
    StoreWord(mem, x0, 0, 0);
    x0, x1 := x0 + 8, x1 - 8;
    while x1 > 0
      invariant x0 == start + 8 * i && x1 == size - 8 * i && 1 <= i <= Steps(size)
      invariant forall k :: 0 <= k < mem.Length ==> mem[k] == if from <= k < from + i then 0 else was[k]
      decreases x1
    {
      StoreWord(mem, x0, 0, 0);
      x0, x1, i := x0 + 8, x1 - 8, i + 1;
    }
  }
}
