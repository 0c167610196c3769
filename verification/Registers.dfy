// What the assembly of entry.S and sched.S does to registers and memory, and the layouts it shares
// with the C structures pt_regs and cpu_context. A kernel address is its offset from VA_START.
// RegistersCode.dfy proves the instruction sequences against these functions.
module Registers {
  import opened Bits

  const THREAD_SIZE := 4096
  const S_FRAME_SIZE := 272
  const FRAME_WORDS := 34
  const CONTEXT_WORDS := 13
  const WORD_LIMIT := 0x1_0000_0000_0000_0000

  // x0..x30, the stack pointers of EL1 and EL0, and the two registers an exception saves.
  datatype Core = Core(x: seq<Word>, sp: Word, spEl0: Word, elr: Word, spsr: Word)

  predicate WellFormed(c: Core) {
    |c.x| == 31
  }

  // n words from address a lie in memory.
  predicate Inside(mem: seq<Word>, a: nat, n: nat) {
    a % 8 == 0 && a / 8 + n <= |mem|
  }

  function Peek(mem: seq<Word>, a: nat, n: nat): (r: seq<Word>)
    requires Inside(mem, a, n)
    ensures |r| == n
  {
    mem[a / 8..a / 8 + n]
  }

  function Poke(mem: seq<Word>, a: nat, ws: seq<Word>): (r: seq<Word>)
    requires Inside(mem, a, |ws|)
    ensures |r| == |mem|
  {
    mem[..a / 8] + ws + mem[a / 8 + |ws|..]
  }

  predicate Apart(a: nat, n: nat, b: nat, m: nat) {
    a + 8 * n <= b || b + 8 * m <= a
  }

  lemma PokeThenPeek(mem: seq<Word>, a: nat, ws: seq<Word>, b: nat, n: nat)
    requires Inside(mem, a, |ws|) && Inside(mem, b, n)
    ensures Peek(Poke(mem, a, ws), a, |ws|) == ws
    ensures Apart(a, |ws|, b, n) ==> Peek(Poke(mem, a, ws), b, n) == Peek(mem, b, n)
  {
    if Apart(a, |ws|, b, n) {
      assert a / 8 + |ws| <= b / 8 || b / 8 + n <= a / 8;
    }
  }

  // ----- entry.S -----

  // struct pt_regs as it lies in memory: x0..x30, sp, pc, pstate.
  function PtRegs(c: Core, el: nat): (r: seq<Word>)
    requires WellFormed(c)
    ensures |r| == FRAME_WORDS
  {
    c.x + [if el == 0 then c.spEl0 else c.sp, c.elr, c.spsr]
  }

  function TaskPtRegs(page: nat): nat {
    page + THREAD_SIZE - S_FRAME_SIZE
  }

  // Taking an exception saves the return address and the state (and changes no general register).
  function TakeException(c: Core, pc: Word, pstate: Word): Core {
    c.(elr := pc, spsr := pstate)
  }

  predicate RoomForFrame(c: Core, mem: seq<Word>) {
    c.sp >= S_FRAME_SIZE && Inside(mem, c.sp - S_FRAME_SIZE, FRAME_WORDS)
  }

  // The macro kernel_entry.
  function KernelEntry(el: nat, c: Core, mem: seq<Word>): (r: (Core, seq<Word>))
    requires WellFormed(c) && RoomForFrame(c, mem)
    ensures WellFormed(r.0) && |r.1| == |mem|
  {
    var frame := PtRegs(c, el);
    (c.(x := c.x[21 := frame[31]][22 := frame[32]][23 := frame[33]], sp := c.sp - S_FRAME_SIZE),
     Poke(mem, c.sp - S_FRAME_SIZE, frame))
  }

  predicate FrameAtSp(c: Core, mem: seq<Word>) {
    Inside(mem, c.sp, FRAME_WORDS) && c.sp + S_FRAME_SIZE < WORD_LIMIT
  }

  // The macro kernel_exit, up to its eret.
  function KernelExit(el: nat, c: Core, mem: seq<Word>): (r: Core)
    requires FrameAtSp(c, mem)
    ensures WellFormed(r)
  {
    var frame := Peek(mem, c.sp, FRAME_WORDS);
    Core(frame[..31], c.sp + S_FRAME_SIZE, if el == 0 then frame[31] else c.spEl0, frame[32], frame[33])
  }

  // What kernel_entry leaves in memory and in the registers: the 34 words of the frame, with the stack
  // pointer of the level the exception came from; x21 to x23 are used to store the last three.
  lemma EntryDoes(el: nat, c: Core, mem: seq<Word>, k: nat)
    requires WellFormed(c) && RoomForFrame(c, mem) && k < 31
    ensures var (r, m) := KernelEntry(el, c, mem);
      var base := (c.sp - S_FRAME_SIZE) / 8;
      && m[base + k] == c.x[k] && m[base + 31] == (if el == 0 then c.spEl0 else c.sp)
      && m[base + 32] == c.elr && m[base + 33] == c.spsr
      && r.sp == c.sp - S_FRAME_SIZE && r.spEl0 == c.spEl0 && r.elr == c.elr && r.spsr == c.spsr
      && r.x[k] == if k == 21 then m[base + 31] else if k == 22 then c.elr else if k == 23 then c.spsr else c.x[k]
  {
  }

  // kernel_entry writes its frame, and nothing else; whatever happens to the registers afterwards,
  // a kernel_exit at the same stack pointer that still finds the frame's words gives every one of
  // the registers back.
  lemma ExitUndoesEntry(el: nat, c: Core, mem: seq<Word>, c': Core, mem': seq<Word>, b: nat, n: nat)
    requires WellFormed(c) && RoomForFrame(c, mem) && Inside(mem, b, n)
    requires c'.sp == c.sp - S_FRAME_SIZE && |mem'| == |mem|
    requires Peek(mem', c'.sp, FRAME_WORDS) == Peek(KernelEntry(el, c, mem).1, c'.sp, FRAME_WORDS)
    ensures Apart(c.sp - S_FRAME_SIZE, FRAME_WORDS, b, n) ==> Peek(KernelEntry(el, c, mem).1, b, n) == Peek(mem, b, n)
    ensures Peek(KernelEntry(el, c, mem).1, c.sp - S_FRAME_SIZE, FRAME_WORDS) == PtRegs(c, el)
    ensures FrameAtSp(c', mem')
    ensures var r := KernelExit(el, c', mem');
      && r.x == c.x && r.sp == c.sp && r.elr == c.elr && r.spsr == c.spsr
      && (r.spEl0 == if el == 0 then c.spEl0 else c'.spEl0)
  {
    PokeThenPeek(mem, c.sp - S_FRAME_SIZE, PtRegs(c, el), b, n);
    assert PtRegs(c, el)[..31] == c.x;
  }

  // ----- sched.S -----

  // struct cpu_context as it lies in memory: x19..x28, fp, sp, pc.
  function Context(c: Core): (r: seq<Word>)
    requires WellFormed(c)
    ensures |r| == CONTEXT_WORDS
  {
    c.x[19..30] + [c.sp, c.x[30]]
  }

  predicate RoomForContext(mem: seq<Word>, page: nat) {
    Inside(mem, page, CONTEXT_WORDS) && page + 96 < WORD_LIMIT
  }

  // cpu_switch_to, with THREAD_CPU_CONTEXT = 0: the context of prev is stored, that of next loaded;
  // x8, x9 and x10 are scratch.
  function CpuSwitchTo(c: Core, mem: seq<Word>, prev: nat, next: nat): (r: (Core, seq<Word>))
    requires WellFormed(c) && RoomForContext(mem, prev) && RoomForContext(mem, next)
    ensures WellFormed(r.0) && |r.1| == |mem|
  {
    var mem' := Poke(mem, prev, Context(c));
    var k := Peek(mem', next, CONTEXT_WORDS);
    (c.(x := c.x[..8] + [next + 96, k[11], 0] + c.x[11..19] + k[..11] + [k[12]], sp := k[11]), mem')
  }

  // The callee-saved registers, the stack pointer and the return address after a switch are the
  // context stored for the task switched to, and the context of the task left is what it had.
  lemma SwitchLoadsContext(c: Core, mem: seq<Word>, prev: nat, next: nat, b: nat, n: nat)
    requires WellFormed(c) && RoomForContext(mem, prev) && RoomForContext(mem, next) && Inside(mem, b, n)
    requires Apart(prev, CONTEXT_WORDS, next, CONTEXT_WORDS)
    ensures var (c', mem') := CpuSwitchTo(c, mem, prev, next);
      && Context(c') == Peek(mem, next, CONTEXT_WORDS)
      && Peek(mem', prev, CONTEXT_WORDS) == Context(c)
      && (Apart(prev, CONTEXT_WORDS, b, n) ==> Peek(mem', b, n) == Peek(mem, b, n))
  {
    PokeThenPeek(mem, prev, Context(c), next, CONTEXT_WORDS);
    PokeThenPeek(mem, prev, Context(c), b, n);
    var c' := CpuSwitchTo(c, mem, prev, next).0;
    var k := Peek(mem, next, CONTEXT_WORDS);
    assert c'.x[19..30] == k[..11];
    assert k == k[..11] + [k[11], k[12]];
  }

  // Of the registers a C function need not keep, cpu_switch_to changes x8, x9 and x10 only, and no
  // register of an exception.
  lemma SwitchUsesScratch(c: Core, mem: seq<Word>, prev: nat, next: nat, k: nat)
    requires WellFormed(c) && RoomForContext(mem, prev) && RoomForContext(mem, next) && k < 19
    ensures var r := CpuSwitchTo(c, mem, prev, next).0;
      && r.x[k] == (if k == 8 then next + 96 else if k == 9 then r.sp else if k == 10 then 0 else c.x[k])
      && r.spEl0 == c.spEl0 && r.elr == c.elr && r.spsr == c.spsr
  {
  }
}
