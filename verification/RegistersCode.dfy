// kernel_entry, kernel_exit and cpu_switch_to, instruction by instruction: registers and memory words
// overwritten in order. Each sequence is tied to its function in Registers.
module RegistersCode {
  import opened Bits
  import opened PhysMem
  import opened Registers
  import opened StackLayout

  lemma PokeTwo(mem: seq<Word>, a: nat, ws: seq<Word>, v: Word, w: Word)
    requires Inside(mem, a, |ws| + 2)
    ensures Poke(mem, a, ws)[a / 8 + |ws| := v][a / 8 + |ws| + 1 := w] == Poke(mem, a, ws + [v, w])
  {
  }

  class Cpu {
    const x: array<Word>
    var sp: Word
    var spEl0: Word
    var elr: Word
    var spsr: Word
    const mem: array<Word>

    predicate Valid() {
      x.Length == 31 && x != mem
    }

    ghost function View(): (c: Core)
      reads this, x
      requires Valid()
      ensures WellFormed(c)
    {
      Core(x[..], sp, spEl0, elr, spsr)
    }

    // stp xi, xj, [addr]: the next pair of the block that is being written from address a on.
    method Stp(i: nat, j: nat, addr: nat, ghost was: seq<Word>, ghost a: nat, ghost ws: seq<Word>)
      returns (ghost rs: seq<Word>)
      requires Valid() && i < 31 && j < 31
      requires Inside(was, a, |ws| + 2) && addr == a + 8 * |ws| && mem[..] == Poke(was, a, ws)
      modifies mem
      ensures rs == ws + [x[i], x[j]] && mem[..] == Poke(was, a, rs)
    {
      PokeTwo(was, a, ws, x[i], x[j]);
      assert mem.Length == |was|;
      mem[addr / 8] := x[i];
      mem[addr / 8 + 1] := x[j];
      rs := ws + [x[i], x[j]];
    }

    // ldp xi, xj, [addr]
    method Ldp(i: nat, j: nat, addr: nat)
      requires Valid() && i < 31 && j < 31 && addr / 8 + 1 < mem.Length
      modifies x
      ensures x[..] == old(x[..])[i := mem[addr / 8]][j := mem[addr / 8 + 1]]
    {
      x[i] := mem[addr / 8];
      x[j] := mem[addr / 8 + 1];
    }

    // stp xi, x(i+1), [sp, #8 * i], the next of the run that saves x0..x29.
    method StpNext(i: nat, addr: nat, ghost was: seq<Word>)
      requires Valid() && i < 30 && addr == sp + 8 * i && Inside(was, sp, FRAME_WORDS)
      requires mem[..] == Poke(was, sp, x[..i])
      modifies mem
      ensures mem[..] == Poke(was, sp, x[..i + 2])
    {
      assert x[..i + 2] == x[..i] + [x[i], x[i + 1]];
      var _ := Stp(i, i + 1, addr, was, sp, x[..i]);
    }

    // ldp xi, x(i+1), [sp, #8 * i], the next of the run that restores x0..x29.
    method LdpNext(i: nat, addr: nat, ghost frame: seq<Word>)
      requires Valid() && i < 30 && addr == sp + 8 * i
      requires Inside(mem[..], sp, FRAME_WORDS) && frame == Peek(mem[..], sp, FRAME_WORDS) && x[..i] == frame[..i]
      modifies x
      ensures x[..i + 2] == frame[..i + 2] && (i < 29 ==> x[30] == old(x[30]))
    {
      Ldp(i, i + 1, addr);
      assert frame[i] == mem[addr / 8] && frame[i + 1] == mem[addr / 8 + 1];
      assert x[..i] == old(x[..i]);
    }

    // The fifteen stp instructions that open kernel_entry.
    method SaveLow(ghost was: seq<Word>)
      requires Valid() && mem[..] == was && Inside(was, sp, FRAME_WORDS)
      modifies mem
      ensures mem[..] == Poke(was, sp, x[..30])
    {
      assert Poke(was, sp, x[..0]) == was;
      hide Poke;
      StpNext(0, sp, was);
      StpNext(2, sp + 16 * 1, was);
      StpNext(4, sp + 16 * 2, was);
      StpNext(6, sp + 16 * 3, was);
      StpNext(8, sp + 16 * 4, was);
      StpNext(10, sp + 16 * 5, was);
      StpNext(12, sp + 16 * 6, was);
      StpNext(14, sp + 16 * 7, was);
      StpNext(16, sp + 16 * 8, was);
      StpNext(18, sp + 16 * 9, was);
      StpNext(20, sp + 16 * 10, was);
      StpNext(22, sp + 16 * 11, was);
      StpNext(24, sp + 16 * 12, was);
      StpNext(26, sp + 16 * 13, was);
      StpNext(28, sp + 16 * 14, was);
    }

    // The fifteen ldp instructions of kernel_exit that end with x29.
    method RestoreLow(ghost frame: seq<Word>)
      requires Valid() && Inside(mem[..], sp, FRAME_WORDS) && frame == Peek(mem[..], sp, FRAME_WORDS)
      modifies x
      ensures x[..30] == frame[..30] && x[30] == old(x[30])
    {
      hide Peek;
      LdpNext(0, sp, frame);
      LdpNext(2, sp + 16 * 1, frame);
      LdpNext(4, sp + 16 * 2, frame);
      LdpNext(6, sp + 16 * 3, frame);
      LdpNext(8, sp + 16 * 4, frame);
      LdpNext(10, sp + 16 * 5, frame);
      LdpNext(12, sp + 16 * 6, frame);
      LdpNext(14, sp + 16 * 7, frame);
      LdpNext(16, sp + 16 * 8, frame);
      LdpNext(18, sp + 16 * 9, frame);
      LdpNext(20, sp + 16 * 10, frame);
      LdpNext(22, sp + 16 * 11, frame);
      LdpNext(24, sp + 16 * 12, frame);
      LdpNext(26, sp + 16 * 13, frame);
      LdpNext(28, sp + 16 * 14, frame);
    }

    lemma FrameParts(c: Core, el: nat)
      requires WellFormed(c)
      ensures PtRegs(c, el) == c.x[..30] + [c.x[30], if el == 0 then c.spEl0 else c.sp] + [c.elr, c.spsr]
      ensures PtRegs(c, el)[31] == (if el == 0 then c.spEl0 else c.sp)
      ensures PtRegs(c, el)[32] == c.elr && PtRegs(c, el)[33] == c.spsr
    {
    }

    method KernelEntry(el: nat)
      requires Valid() && RoomForFrame(View(), mem[..])
      modifies this, x, mem
      ensures Valid()
      ensures (View(), mem[..]) == Registers.KernelEntry(el, old(View()), old(mem[..]))
    {
      hide Poke, PtRegs;
      ghost var was, c, low := mem[..], View(), x[..30];
      sp := sp - S_FRAME_SIZE;
      SaveLow(was);
      if el == 0 {
        x[21] := spEl0;
      } else {
        x[21] := sp + S_FRAME_SIZE;
      }
      x[22] := elr;
      x[23] := spsr;
      ghost var ws := Stp(30, 21, sp + 16 * 15, was, sp, low);
      ws := Stp(22, 23, sp + 16 * 16, was, sp, ws);
      FrameParts(c, el);
    }

    method KernelExit(el: nat)
      requires Valid() && FrameAtSp(View(), mem[..])
      modifies this, x
      ensures Valid() && View() == Registers.KernelExit(el, old(View()), mem[..])
    {
      ghost var frame := Peek(mem[..], sp, FRAME_WORDS);
      assert forall k :: 30 <= k < FRAME_WORDS ==> frame[k] == mem[sp / 8 + k];
      Ldp(22, 23, sp + 16 * 16);
      Ldp(30, 21, sp + 16 * 15);
      if el == 0 {
        spEl0 := x[21];
      }
      elr := x[22];
      spsr := x[23];
      assert x[30] == frame[30] && elr == frame[32] && spsr == frame[33];
      RestoreLow(frame);
      assert x[..] == frame[..30] + [frame[30]] == frame[..31];
      sp := sp + S_FRAME_SIZE;
    }

    // stp xi, x(i+1), [x8], #16, the next of the run that saves x19..x28.
    method StpPost(i: nat, ghost was: seq<Word>, ghost page: nat)
      requires Valid() && 19 <= i < 28 && RoomForContext(was, page)
      requires x[8] == page + 8 * (i - 19) && mem[..] == Poke(was, page, x[19..i])
      modifies x, mem
      ensures x[8] == old(x[8]) + 16 && x[9..] == old(x[9..]) && x[..8] == old(x[..8])
      ensures mem[..] == Poke(was, page, x[19..i + 2])
    {
      assert x[19..i + 2] == x[19..i] + [x[i], x[i + 1]];
      var _ := Stp(i, i + 1, x[8], was, page, x[19..i]);
      x[8] := x[8] + 16;
      assert x[19..i + 2] == x[9..][10..i - 7] == old(x[9..])[10..i - 7];
    }

    // The five stp instructions of cpu_switch_to that save x19..x28.
    method StoreCalleeSaved(ghost was: seq<Word>, page: nat)
      requires Valid() && RoomForContext(was, page) && mem[..] == was && x[8] == page
      modifies x, mem
      ensures x[8] == page + 80 && x[9..] == old(x[9..]) && x[..8] == old(x[..8])
      ensures mem[..] == Poke(was, page, x[19..29])
    {
      assert Poke(was, page, []) == was && x[19..19] == [];
      hide Poke;
      StpPost(19, was, page);
      StpPost(21, was, page);
      StpPost(23, was, page);
      StpPost(25, was, page);
      StpPost(27, was, page);
    }

    // The stores of cpu_switch_to.
    method StoreContext(page: nat)
      requires Valid() && RoomForContext(mem[..], page)
      modifies x, mem
      ensures x[..] == old(x[..])[10 := 0][8 := page + 96][9 := sp]
      ensures mem[..] == Poke(old(mem[..]), page, Context(old(View())))
    {
      ghost var was, c, r: seq<Word> := mem[..], View(), x[..];
      x[10] := 0;
      x[8] := page + x[10];
      x[9] := sp;
      ghost var r1: seq<Word> := x[..];
      assert r1 == r[10 := 0][8 := page][9 := sp];
      StoreCalleeSaved(was, page);
      hide Poke;
      assert forall i :: 0 <= i < 8 ==> x[i] == x[..8][i] == r1[..8][i] == r[i];
      assert forall i :: 9 <= i < 31 ==> x[i] == x[9..][i - 9] == r1[9..][i - 9] == r1[i];
      assert x[19..29] == c.x[19..29];
      ghost var ws := Stp(29, 9, x[8], was, page, x[19..29]);
      assert ws == c.x[19..29] + [c.x[29], c.sp];
      x[8] := x[8] + 16;
      Str(30, x[8], was, page, ws);
      assert ws + [x[30]] == Context(c);
      assert forall i :: 0 <= i < 31 ==> x[i] == r[10 := 0][8 := page + 96][9 := sp][i];
    }

    // str xi, [addr]: the last word of a block.
    method Str(i: nat, addr: nat, ghost was: seq<Word>, ghost a: nat, ghost ws: seq<Word>)
      requires Valid() && i < 31
      requires Inside(was, a, |ws| + 1) && addr == a + 8 * |ws| && mem[..] == Poke(was, a, ws)
      modifies mem
      ensures mem[..] == Poke(was, a, ws + [x[i]])
    {
      assert mem.Length == |was|;
      assert Poke(was, a, ws)[a / 8 + |ws| := x[i]] == Poke(was, a, ws + [x[i]]);
      mem[addr / 8] := x[i];
    }

    // ldp xi, x(i+1), [x8], #16, the next of the run that restores x19..x28.
    method LdpPost(i: nat, ghost k: seq<Word>, ghost page: nat)
      requires Valid() && 19 <= i < 28 && RoomForContext(mem[..], page) && k == Peek(mem[..], page, CONTEXT_WORDS)
      requires x[8] == page + 8 * (i - 19) && x[19..i] == k[..i - 19]
      modifies x
      ensures x[8] == old(x[8]) + 16 && x[19..i + 2] == k[..i - 17]
      ensures x[9..19] == old(x[9..19]) && x[..8] == old(x[..8])
    {
      Ldp(i, i + 1, x[8]);
      assert k[i - 19] == mem[page / 8 + (i - 19)] && k[i - 18] == mem[page / 8 + (i - 18)];
      assert x[19..i] == old(x[19..i]);
      assert x[19..i + 2] == x[19..i] + [x[i], x[i + 1]];
      x[8] := x[8] + 16;
      assert k[..i - 17] == k[..i - 19] + [k[i - 19], k[i - 18]];
      assert x[19..i + 2] == k[..i - 17];
    }

    // The five ldp instructions of cpu_switch_to that load x19..x28.
    method LoadCalleeSaved(ghost k: seq<Word>, page: nat)
      requires Valid() && RoomForContext(mem[..], page) && k == Peek(mem[..], page, CONTEXT_WORDS) && x[8] == page
      modifies x
      ensures x[8] == page + 80 && x[19..29] == k[..10]
      ensures x[9..19] == old(x[9..19]) && x[..8] == old(x[..8])
    {
      assert x[19..19] == k[..0];
      hide Peek;
      LdpPost(19, k, page);
      LdpPost(21, k, page);
      LdpPost(23, k, page);
      LdpPost(25, k, page);
      LdpPost(27, k, page);
    }

    // The loads of cpu_switch_to.
    method LoadContext(page: nat)
      requires Valid() && RoomForContext(mem[..], page) && x[10] == 0
      modifies x
      ensures var k, r := Peek(mem[..], page, CONTEXT_WORDS), old(x[..]);
        x[..] == r[..8] + [page + 96, k[11], 0] + r[11..19] + k[..11] + [k[12]]
    {
      ghost var k, r := Peek(mem[..], page, CONTEXT_WORDS), x[..];
      assert k[10] == mem[page / 8 + 10] && k[11] == mem[page / 8 + 11] && k[12] == mem[page / 8 + 12];
      x[8] := page + x[10];
      LoadCalleeSaved(k, page);
      hide Peek;
      assert forall i :: 0 <= i < 8 ==> x[i] == x[..8][i] == r[i];
      assert forall i :: 9 <= i < 19 ==> x[i] == x[9..19][i - 9] == r[i];
      assert forall i :: 19 <= i < 29 ==> x[i] == x[19..29][i - 19] == k[i - 19];
      assert x[10] == r[10] == 0;
      Ldp(29, 9, x[8]);
      x[8] := x[8] + 16;
      x[30] := mem[x[8] / 8];
      ghost var loaded := r[..8] + [page + 96, k[11], 0] + r[11..19] + k[..11] + [k[12]];
      assert forall i :: 0 <= i < 31 ==> x[i] == loaded[i];
    }

    method CpuSwitchTo(prev: nat, next: nat)
      requires Valid() && RoomForContext(mem[..], prev) && RoomForContext(mem[..], next)
      modifies this, x, mem
      ensures Valid()
      ensures (View(), mem[..]) == Registers.CpuSwitchTo(old(View()), old(mem[..]), prev, next)
    {
      hide Poke, Peek, Context;
      StoreContext(prev);
      LoadContext(next);
      sp := x[9];
    }

    // The registers copy_process stores for the child, in a page get_free_page has cleared.
    method StartChild(parent: nat, page: nat, kthread: bool, fn: Word, arg: Word)
      requires Valid() && mem.Length == MEM_WORDS && IsFrame(page) && (!kthread ==> IsFrame(parent) && parent != page)
      requires mem[..] == Zeroed(mem[..], page, PAGE_SIZE)
      modifies mem
      ensures mem[..] == ForkMemory(old(mem[..]), parent, page, kthread, fn, arg)
    {
      hide Zeroed, IsFrame, Poke, Started;
      FrameWords(page);
      ghost var m := Started(mem[..], parent, page, kthread, fn, arg);
      StoreStart(parent, page, kthread, fn, arg);
      PokeNothing(m, page + 88);
      PokeTwo(m, page + 88, [], TaskPtRegs(page), RET_FROM_FORK);
      hide TaskPtRegs;
      mem[page / 8 + 11] := TaskPtRegs(page);
      mem[page / 8 + 12] := RET_FROM_FORK;
    }

    // The test of PF_KTHREAD: x19 and x20, or the parent's frame with x0 = 0.
    method StoreStart(parent: nat, page: nat, kthread: bool, fn: Word, arg: Word)
      requires Valid() && mem.Length == MEM_WORDS && IsFrame(page) && (!kthread ==> IsFrame(parent) && parent != page)
      requires mem[..] == Zeroed(mem[..], page, PAGE_SIZE)
      modifies mem
      ensures mem[..] == Started(old(mem[..]), parent, page, kthread, fn, arg)
    {
      hide Zeroed, IsFrame, Poke, TaskPtRegs;
      FrameWords(page);
      ghost var was := mem[..];
      if kthread {
        PokeNothing(was, page);
        PokeTwo(was, page, [], fn, arg);
        mem[page / 8] := fn;
        mem[page / 8 + 1] := arg;
      } else {
        CopyUserFrame(parent, page);
        PokeFirst(was, TaskPtRegs(page), UserFrame(was, parent), 0);
        mem[TaskPtRegs(page) / 8] := 0;
      }
    }

    // `*childregs = *cur_regs`
    method CopyUserFrame(parent: nat, page: nat)
      requires Valid() && mem.Length == MEM_WORDS && IsFrame(page) && IsFrame(parent) && parent != page
      modifies mem
      ensures Inside(old(mem[..]), TaskPtRegs(page), FRAME_WORDS)
      ensures mem[..] == Poke(old(mem[..]), TaskPtRegs(page), UserFrame(old(mem[..]), parent))
    {
      FrameWords(page);
      FrameWords(parent);
      FramesApart(parent, page);
      CopyWords(TaskPtRegs(page), TaskPtRegs(parent), FRAME_WORDS);
    }

    // A structure assignment, as a copy of its words in order.
    method CopyWords(a: nat, b: nat, n: nat)
      requires Valid() && Inside(mem[..], a, n) && Inside(mem[..], b, n)
      requires a / 8 + n <= b / 8 || b / 8 + n <= a / 8
      modifies mem
      ensures mem[..] == Poke(old(mem[..]), a, Peek(old(mem[..]), b, n))
    {
      ghost var was, ws := mem[..], Peek(mem[..], b, n);
      var to, from := a / 8, b / 8;
      CopyLoop(to, from, n);
      assert mem[..] == Poke(was, a, ws);
    }

    method CopyLoop(to: nat, from: nat, n: nat)
      requires Valid() && to + n <= mem.Length && from + n <= mem.Length && (to + n <= from || from + n <= to)
      modifies mem
      ensures mem[..] == Copied(old(mem[..]), to, from, n)
    {
      ghost var was := mem[..];
      assert mem[..] == Copied(was, to, from, 0);
      hide Copied;
      for k := 0 to n
        invariant mem[..] == Copied(was, to, from, k)
      {
        CopiedStep(was, to, from, k);
        mem[to + k] := mem[from + k];
      }
    }
  }

  // k words at index `to` have been copied from index `from`.
  ghost function Copied(was: seq<Word>, to: nat, from: nat, k: nat): (r: seq<Word>)
    requires to + k <= |was| && from + k <= |was|
    ensures |r| == |was|
  {
    was[..to] + was[from..from + k] + was[to + k..]
  }

  lemma CopiedStep(was: seq<Word>, to: nat, from: nat, k: nat)
    requires to + k < |was| && from + k < |was| && (to + k < from || from + k < to)
    ensures Copied(was, to, from, k)[to + k := Copied(was, to, from, k)[from + k]] == Copied(was, to, from, k + 1)
  {
    assert Copied(was, to, from, k)[from + k] == was[from + k];
  }

  lemma PokeNothing(mem: seq<Word>, a: nat)
    requires Inside(mem, a, 0)
    ensures Poke(mem, a, []) == mem
    ensures forall v: Word, w: Word :: [] + [v, w] == [v, w]
  {
  }

  lemma PokeFirst(mem: seq<Word>, a: nat, ws: seq<Word>, v: Word)
    requires Inside(mem, a, |ws|) && |ws| > 0
    ensures Poke(mem, a, ws)[a / 8 := v] == Poke(mem, a, ws[0 := v])
  {
  }
}
