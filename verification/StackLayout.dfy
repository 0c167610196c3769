// Where each task's saved registers lie: exception frames on its kernel stack and cpu_context at the
// start of its task_struct; and what copy_process writes to start a child.
//
// `levels` and `out` only record history: the exception frames now on a task's kernel stack with the
// words they should hold, and the context a task had when it was last switched out.
module StackLayout {
  import opened Bits
  import opened PhysMem
  import opened Registers

  const TASK_STRUCT_SIZE := 552
  const RET_FROM_FORK: Word := 0x8_0000

  datatype Level = Level(base: nat, el: nat, saved: seq<Word>)

  // A task_struct at `page`, below a kernel stack that grows down from `top`.
  datatype Info = Info(page: nat, top: nat, levels: seq<Level>, out: seq<Word>)

  datatype Sys = Sys(core: Core, mem: seq<Word>, tasks: seq<Info>, current: nat)

  function Bottom(i: Info): nat {
    if i.levels == [] then i.top else i.levels[|i.levels| - 1].base
  }

  // ----- The invariant -----

  // Where a task's structures lie; task 0 is init, whose stack is the boot stack.
  ghost predicate Placed(i: Info, t: nat) {
    && i.page % 8 == 0 && i.top % 8 == 0 && i.page + TASK_STRUCT_SIZE <= i.top <= HIGH_MEMORY
    && (if t == 0 then i.top == LOW_MEMORY else IsFrame(i.page) && i.top == i.page + THREAD_SIZE)
    && (forall k :: 0 <= k < |i.levels| ==> LevelPlaced(i, t, k))
    && (forall j, k :: 0 <= j < k < |i.levels| ==> i.levels[k].base + S_FRAME_SIZE <= i.levels[j].base)
  }

  // The first frame of a forked task comes from user mode and lies at task_pt_regs.
  ghost predicate LevelPlaced(i: Info, t: nat, k: nat)
    requires k < |i.levels|
  {
    var l := i.levels[k];
    && l.base % 8 == 0 && i.page + TASK_STRUCT_SIZE <= l.base && l.base + S_FRAME_SIZE <= i.top
    && |l.saved| == FRAME_WORDS
    && l.el == (if t > 0 && k == 0 then 0 else 1)
    && (t > 0 && k == 0 ==> l.base == TaskPtRegs(i.page))
  }

  ghost predicate Held(mem: seq<Word>, i: Info) {
    |mem| == MEM_WORDS && forall k :: 0 <= k < |i.levels| ==> FrameHeld(mem, i.levels[k])
  }

  ghost predicate FrameHeld(mem: seq<Word>, l: Level) {
    Inside(mem, l.base, FRAME_WORDS) && Peek(mem, l.base, FRAME_WORDS) == l.saved
  }

  ghost predicate SpOk(sp: nat, i: Info) {
    sp % 8 == 0 && i.page + TASK_STRUCT_SIZE <= sp <= Bottom(i)
  }

  // A task that is not current stands in kernel code, with its context in its task_struct.
  ghost predicate Parked(mem: seq<Word>, i: Info, t: nat) {
    && Inside(mem, i.page, CONTEXT_WORDS) && Peek(mem, i.page, CONTEXT_WORDS) == i.out
    && SpOk(i.out[11], i)
    && (t > 0 ==> i.levels != [])
  }

  // The current task runs on its own stack, and in user mode that stack is empty.
  ghost predicate Live(c: Core, i: Info, t: nat) {
    WellFormed(c) && SpOk(c.sp, i) && (t > 0 && i.levels == [] ==> c.sp == i.top)
  }

  ghost predicate Disjoint(i: Info, j: Info) {
    i.top <= j.page || j.top <= i.page
  }

  ghost predicate TaskOk(s: Sys, t: nat)
    requires t < |s.tasks|
  {
    && Placed(s.tasks[t], t) && Held(s.mem, s.tasks[t])
    && (t == s.current ==> Live(s.core, s.tasks[t], t))
    && (t != s.current ==> Parked(s.mem, s.tasks[t], t))
  }

  ghost predicate Inv(s: Sys) {
    && s.current < |s.tasks|
    && (forall t :: 0 <= t < |s.tasks| ==> TaskOk(s, t))
    && (forall t, u :: 0 <= t < u < |s.tasks| ==> Disjoint(s.tasks[t], s.tasks[u]))
  }

  // ----- copy_process -----

  // A frame in words.
  lemma FrameWords(f: nat)
    requires IsFrame(f)
    ensures f % 8 == 0 && f / 8 + 512 <= MEM_WORDS
    ensures TaskPtRegs(f) % 8 == 0 && TaskPtRegs(f) / 8 == f / 8 + 478
    ensures (f + 88) % 8 == 0 && (f + 88) / 8 == f / 8 + 11
    ensures TaskPtRegs(f) < WORD_LIMIT
  {
    FrameNumber(f);
    var q := f / PAGE_SIZE;
    RemainderUnique(TaskPtRegs(f), 8, 512 * q + 478, 0);
    RemainderUnique(f + 88, 8, 512 * q + 11, 0);
  }

  // The page after get_free_page, and after the registers of the child are in place.
  function Started(mem: seq<Word>, parent: nat, page: nat, kthread: bool, fn: Word, arg: Word): (r: seq<Word>)
    requires |mem| == MEM_WORDS && IsFrame(page) && (!kthread ==> IsFrame(parent))
    ensures |r| == |mem|
  {
    FrameWords(page);
    var zeroed := Zeroed(mem, page, PAGE_SIZE);
    if kthread then Poke(zeroed, page, [fn, arg])
    else
      FrameWords(parent);
      Poke(zeroed, TaskPtRegs(page), Peek(zeroed, TaskPtRegs(parent), FRAME_WORDS)[0 := 0])
  }

  // What copy_process writes: sp and pc are words 11 and 12 of cpu_context.
  function ForkMemory(mem: seq<Word>, parent: nat, page: nat, kthread: bool, fn: Word, arg: Word): (r: seq<Word>)
    requires |mem| == MEM_WORDS && IsFrame(page) && (!kthread ==> IsFrame(parent))
    ensures |r| == |mem|
  {
    FrameWords(page);
    Poke(Started(mem, parent, page, kthread, fn, arg), page + 88, [TaskPtRegs(page), RET_FROM_FORK])
  }

  // The frame at task_pt_regs.
  function UserFrame(mem: seq<Word>, page: nat): (r: seq<Word>)
    requires |mem| == MEM_WORDS && IsFrame(page)
    ensures |r| == FRAME_WORDS
  {
    FrameWords(page);
    Peek(mem, TaskPtRegs(page), FRAME_WORDS)
  }

  // The child as it should be found: the parent's frame with x0 = 0, and a context that starts in
  // ret_from_fork with x19 = 0 unless it is a kernel thread.
  function Child(mem: seq<Word>, parent: nat, page: nat, kthread: bool, fn: Word, arg: Word): Info
    requires |mem| == MEM_WORDS && IsFrame(page) && (!kthread ==> IsFrame(parent))
  {
    FrameWords(page);
    var frame := if kthread then seq(FRAME_WORDS, _ => 0) else UserFrame(mem, parent)[0 := 0];
    Info(page, page + THREAD_SIZE, [Level(TaskPtRegs(page), 0, frame)],
         [if kthread then fn else 0, if kthread then arg else 0, 0, 0, 0, 0, 0, 0, 0, 0, 0,
          TaskPtRegs(page), RET_FROM_FORK])
  }

  lemma PokeAt(mem: seq<Word>, a: nat, ws: seq<Word>, k: nat)
    requires Inside(mem, a, |ws|) && k < |mem|
    ensures Poke(mem, a, ws)[k] == if a / 8 <= k < a / 8 + |ws| then ws[k - a / 8] else mem[k]
  {
  }

  lemma ZeroedAt(mem: seq<Word>, page: nat, k: nat)
    requires k < |mem|
    ensures Zeroed(mem, page, PAGE_SIZE)[k] == if page / 8 <= k < page / 8 + 512 then 0 else mem[k]
  {
    assert Steps(PAGE_SIZE) == 512;
  }

  lemma FramesApart(f: nat, g: nat)
    requires IsFrame(f) && IsFrame(g) && f != g
    ensures f / 8 + 512 <= g / 8 || g / 8 + 512 <= f / 8
    ensures f + PAGE_SIZE <= g || g + PAGE_SIZE <= f
  {
    FrameNumber(f);
    FrameNumber(g);
    hide IsFrame;
  }

  // Word k of memory once the child's registers are in place.
  lemma StartedAt(mem: seq<Word>, parent: nat, page: nat, kthread: bool, fn: Word, arg: Word, k: nat)
    requires |mem| == MEM_WORDS && IsFrame(page) && k < |mem|
    requires !kthread ==> IsFrame(parent) && parent != page
    ensures Started(mem, parent, page, kthread, fn, arg)[k] ==
      var q := page / 8;
      if k < q || q + 512 <= k then mem[k]
      else if kthread then (if k == q then fn else if k == q + 1 then arg else 0)
      else if k > q + 478 then mem[parent / 8 + (k - q)] else 0
  {
    FrameWords(page);
    var q, z := page / 8, Zeroed(mem, page, PAGE_SIZE);
    ZeroedAt(mem, page, k);
    if kthread {
      PokeAt(z, page, [fn, arg], k);
    } else {
      FrameWords(parent);
      FramesApart(parent, page);
      hide IsFrame, Zeroed;
      var f := Peek(z, TaskPtRegs(parent), FRAME_WORDS)[0 := 0];
      PokeAt(z, TaskPtRegs(page), f, k);
      if q + 478 < k < q + 512 {
        ZeroedAt(mem, page, parent / 8 + (k - q));
        assert f[k - q - 478] == z[parent / 8 + (k - q)];
      }
    }
  }

  // Word k of memory after the fork: outside the page, in the context, in the frame.
  ghost predicate ForkedWord(mem: seq<Word>, r: seq<Word>, i: Info, k: nat)
    requires k < |mem| == |r| && |i.out| == CONTEXT_WORDS && |i.levels| == 1 && |i.levels[0].saved| == FRAME_WORDS
  {
    var q := i.page / 8;
    && (k < q || q + 512 <= k ==> r[k] == mem[k])
    && (q <= k < q + CONTEXT_WORDS ==> r[k] == i.out[k - q])
    && (q + 478 <= k < q + 512 ==> r[k] == i.levels[0].saved[k - q - 478])
  }

  lemma ChildWords(mem: seq<Word>, parent: nat, page: nat, kthread: bool, fn: Word, arg: Word)
    requires |mem| == MEM_WORDS && IsFrame(page) && (!kthread ==> IsFrame(parent))
    ensures var i := Child(mem, parent, page, kthread, fn, arg);
      && i.page == page && |i.out| == CONTEXT_WORDS && |i.levels| == 1
      && i.levels[0].base == TaskPtRegs(page) && |i.levels[0].saved| == FRAME_WORDS
      && i.out[0] == (if kthread then fn else 0) && i.out[1] == (if kthread then arg else 0)
      && (forall j :: 2 <= j < 11 ==> i.out[j] == 0)
      && i.out[11] == TaskPtRegs(page) && i.out[12] == RET_FROM_FORK
      && (forall j :: 0 <= j < FRAME_WORDS ==>
            i.levels[0].saved[j] == if kthread || j == 0 then 0 else mem[parent / 8 + 478 + j])
  {
    FrameWords(page);
    if !kthread {
      FrameWords(parent);
      hide IsFrame;
      assert forall j :: 0 <= j < FRAME_WORDS ==> UserFrame(mem, parent)[j] == mem[parent / 8 + 478 + j];
    }
  }

  lemma ForkAt(mem: seq<Word>, parent: nat, page: nat, kthread: bool, fn: Word, arg: Word, k: nat)
    requires |mem| == MEM_WORDS && IsFrame(page) && k < |mem|
    requires !kthread ==> IsFrame(parent) && parent != page
    ensures |Child(mem, parent, page, kthread, fn, arg).out| == CONTEXT_WORDS
    ensures |Child(mem, parent, page, kthread, fn, arg).levels| == 1
    ensures ForkedWord(mem, ForkMemory(mem, parent, page, kthread, fn, arg), Child(mem, parent, page, kthread, fn, arg),
                       k)
  {
    hide IsFrame, Started;
    FrameWords(page);
    StartedAt(mem, parent, page, kthread, fn, arg, k);
    ChildWords(mem, parent, page, kthread, fn, arg);
    var m, q, pair := Started(mem, parent, page, kthread, fn, arg), page / 8, [TaskPtRegs(page), RET_FROM_FORK];
    PokeAt(m, page + 88, pair, k);
    var r, i := ForkMemory(mem, parent, page, kthread, fn, arg), Child(mem, parent, page, kthread, fn, arg);
    assert r[k] == if k == q + 11 then TaskPtRegs(page) else if k == q + 12 then RET_FROM_FORK else m[k];
    hide Poke, Child, ForkMemory, TaskPtRegs;
    if q <= k < q + CONTEXT_WORDS {
      assert r[k] == i.out[k - q];
    } else if q + 478 <= k < q + 512 {
      assert r[k] == i.levels[0].saved[k - q - 478];
    }
  }

  // The child's page reads as its Info says, and nothing outside the page changes.
  lemma ForkWritesChild(mem: seq<Word>, parent: nat, page: nat, kthread: bool, fn: Word, arg: Word, b: nat, n: nat)
    requires |mem| == MEM_WORDS && IsFrame(page) && Inside(mem, b, n)
    requires !kthread ==> IsFrame(parent) && parent != page
    ensures var r, i := ForkMemory(mem, parent, page, kthread, fn, arg), Child(mem, parent, page, kthread, fn, arg);
      && Inside(r, page, CONTEXT_WORDS) && Peek(r, page, CONTEXT_WORDS) == i.out
      && Held(r, i)
      && (b + 8 * n <= page || page + PAGE_SIZE <= b ==> Peek(r, b, n) == Peek(mem, b, n))
  {
    var r, i := ForkMemory(mem, parent, page, kthread, fn, arg), Child(mem, parent, page, kthread, fn, arg);
    ChildWords(mem, parent, page, kthread, fn, arg);
    FrameWords(page);
    hide ForkMemory, Child, IsFrame;
    forall k | 0 <= k < |mem|
      ensures ForkedWord(mem, r, i, k)
    {
      ForkAt(mem, parent, page, kthread, fn, arg, k);
    }
    ForkedReads(mem, r, i, b, n);
  }

  lemma ForkedReads(mem: seq<Word>, r: seq<Word>, i: Info, b: nat, n: nat)
    requires |mem| == |r| == MEM_WORDS && Inside(mem, b, n) && Inside(mem, i.page, 512)
    requires |i.out| == CONTEXT_WORDS && |i.levels| == 1 && |i.levels[0].saved| == FRAME_WORDS
    requires i.levels[0].base == TaskPtRegs(i.page)
    requires forall k :: 0 <= k < |mem| ==> ForkedWord(mem, r, i, k)
    ensures Peek(r, i.page, CONTEXT_WORDS) == i.out && Held(r, i)
    ensures b + 8 * n <= i.page || i.page + PAGE_SIZE <= b ==> Peek(r, b, n) == Peek(mem, b, n)
  {
    var q, c := i.page / 8, b / 8;
    assert TaskPtRegs(i.page) / 8 == q + 478;
    forall k | 0 <= k < CONTEXT_WORDS
      ensures Peek(r, i.page, CONTEXT_WORDS)[k] == i.out[k]
    {
      assert ForkedWord(mem, r, i, q + k);
    }
    forall k | 0 <= k < FRAME_WORDS
      ensures Peek(r, TaskPtRegs(i.page), FRAME_WORDS)[k] == i.levels[0].saved[k]
    {
      assert ForkedWord(mem, r, i, q + 478 + k);
    }
    if b + 8 * n <= i.page || i.page + PAGE_SIZE <= b {
      assert c + n <= q || q + 512 <= c;
      forall k | 0 <= k < n
        ensures Peek(r, b, n)[k] == Peek(mem, b, n)[k]
      {
        assert ForkedWord(mem, r, i, c + k);
      }
    }
  }
}
