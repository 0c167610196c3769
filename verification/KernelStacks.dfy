// Runs of the exception and context-switch protocol. Kernel C code and user code are arbitrary register
// and memory steps that respect the calling convention and other tasks' saved state.
module KernelStacks {
  import opened Limits
  import opened Bits
  import opened PhysMem
  import opened Registers
  import opened StackLayout

  // ----- Steps -----

  datatype Event =
    | User(x: seq<Word>, spEl0: Word)
    | Trap(pc: Word, pstate: Word)
    | Irq(pc: Word, pstate: Word)
    | Leave
    | Compute(core: Core)
    | Write(a: nat, v: Word)
    | SetFrame(w: nat, v: Word)
    | Switch(next: nat)
    | Fork(page: nat, kthread: bool, fn: Word, arg: Word)
    | SyscallReturn

  function Cur(s: Sys): Info
    requires s.current < |s.tasks|
  {
    s.tasks[s.current]
  }

  predicate InUserMode(s: Sys)
    requires s.current < |s.tasks|
  {
    s.current > 0 && Cur(s).levels == []
  }

  // Address a lies in another task's stored context or in an exception frame.
  predicate Kept(s: Sys, a: nat) {
    || (exists t :: 0 <= t < |s.tasks| && t != s.current && s.tasks[t].page <= a < s.tasks[t].page + 8 * CONTEXT_WORDS)
    || (exists t :: 0 <= t < |s.tasks| && InFrame(s.tasks[t], a))
  }

  predicate InFrame(i: Info, a: nat) {
    exists k :: 0 <= k < |i.levels| && i.levels[k].base <= a < i.levels[k].base + S_FRAME_SIZE
  }

  ghost predicate Enabled(s: Sys, e: Event)
    requires Inv(s)
  {
    match e
    case User(x, _) => InUserMode(s) && |x| == 31
    case Trap(_, _) => InUserMode(s)
    case Irq(_, _) => !InUserMode(s) && s.core.sp >= Cur(s).page + TASK_STRUCT_SIZE + S_FRAME_SIZE
    case Leave => !InUserMode(s) && Cur(s).levels != [] && s.core.sp == LastLevel(Cur(s)).base
    case Compute(c) => !InUserMode(s) && WellFormed(c) && SpOk(c.sp, Cur(s))
    case Write(a, _) => !InUserMode(s) && Inside(s.mem, a, 1) && !Kept(s, a)
    case SetFrame(w, _) => !InUserMode(s) && s.current > 0 && w < FRAME_WORDS
    case Switch(next) => !InUserMode(s) && next < |s.tasks| && next != s.current
    case Fork(page, kthread, _, _) =>
      && !InUserMode(s) && IsFrame(page) && |s.tasks| < NR_TASKS
      && (forall t :: 0 <= t < |s.tasks| ==> s.tasks[t].page != page)
      && (!kthread ==> s.current > 0)
    case SyscallReturn => s.current > 0 && |Cur(s).levels| == 1 && s.core.sp == Cur(s).levels[0].base
  }

  function SetCur(s: Sys, i: Info): Sys
    requires s.current < |s.tasks|
  {
    s.(tasks := s.tasks[s.current := i])
  }

  function Enter(s: Sys, el: nat, c: Core): Sys
    requires s.current < |s.tasks| && WellFormed(c) && RoomForFrame(c, s.mem)
  {
    var (core, mem) := KernelEntry(el, c, s.mem);
    var i := Cur(s);
    SetCur(s, i.(levels := i.levels + [Level(core.sp, el, PtRegs(c, el))])).(core := core, mem := mem)
  }

  function LastLevel(i: Info): Level
    requires i.levels != []
  {
    i.levels[|i.levels| - 1]
  }

  function EndLevel(i: Info): Info
    requires i.levels != []
  {
    i.(levels := i.levels[..|i.levels| - 1])
  }

  // `kernel_exit`, at the frame the stack pointer has come back to.
  function LeaveLevel(s: Sys): Sys
    requires s.current < |s.tasks| && Cur(s).levels != [] && FrameAtSp(s.core, s.mem)
  {
    SetCur(s, EndLevel(Cur(s))).(core := KernelExit(LastLevel(Cur(s)).el, s.core, s.mem))
  }

  // A store through task_pt_regs(current), as in move_to_user_mode.
  function SetUserFrame(s: Sys, w: nat, v: Word): Sys
    requires s.current < |s.tasks| && Cur(s).levels != [] && w < FRAME_WORDS == |Cur(s).levels[0].saved|
    requires Inside(s.mem, TaskPtRegs(Cur(s).page) + 8 * w, 1)
  {
    var i, l := Cur(s), Cur(s).levels[0];
    var l' := l.(saved := l.saved[w := v]);
    SetCur(s, i.(levels := i.levels[0 := l'])).(mem := Poke(s.mem, TaskPtRegs(i.page) + 8 * w, [v]))
  }

  // ret_from_syscall: x0 is stored at S_X0 = 0 above the stack pointer.
  function StoreResult(s: Sys): Sys
    requires s.current < |s.tasks| && Cur(s).levels != [] && |Cur(s).levels[0].saved| == FRAME_WORDS
    requires WellFormed(s.core) && Inside(s.mem, s.core.sp, 1)
  {
    var i, l, x0 := Cur(s), Cur(s).levels[0], s.core.x[0];
    var l' := l.(saved := l.saved[0 := x0]);
    SetCur(s, i.(levels := i.levels[0 := l'])).(mem := Poke(s.mem, s.core.sp, [x0]))
  }

  function SwitchTo(s: Sys, next: nat): Sys
    requires s.current < |s.tasks| && next < |s.tasks| && WellFormed(s.core)
    requires RoomForContext(s.mem, Cur(s).page) && RoomForContext(s.mem, s.tasks[next].page)
  {
    var (core, mem) := CpuSwitchTo(s.core, s.mem, Cur(s).page, s.tasks[next].page);
    SetCur(s, Cur(s).(out := Context(s.core))).(core := core, mem := mem, current := next)
  }

  // copy_process: the child is the next in task[], and its number is left in x0.
  function ForkChild(s: Sys, page: nat, kthread: bool, fn: Word, arg: Word): Sys
    requires s.current < |s.tasks| < NR_TASKS && |s.mem| == MEM_WORDS && WellFormed(s.core)
    requires IsFrame(page) && (!kthread ==> IsFrame(Cur(s).page))
  {
    s.(core := s.core.(x := s.core.x[0 := |s.tasks|]),
       mem := ForkMemory(s.mem, Cur(s).page, page, kthread, fn, arg),
       tasks := s.tasks + [Child(s.mem, Cur(s).page, page, kthread, fn, arg)])
  }

  // The current task's structures lie where its step needs them.
  lemma CurrentPlaces(s: Sys)
    requires Inv(s)
    ensures |s.mem| == MEM_WORDS && WellFormed(s.core) && RoomForContext(s.mem, Cur(s).page)
    ensures s.core.sp >= S_FRAME_SIZE && s.core.sp % 8 == 0 && s.core.sp <= HIGH_MEMORY
    ensures s.current > 0 ==> IsFrame(Cur(s).page)
    ensures Cur(s).levels != [] && s.core.sp == LastLevel(Cur(s)).base ==> FrameAtSp(s.core, s.mem)
    ensures s.current > 0 && !InUserMode(s) ==> |Cur(s).levels[0].saved| == FRAME_WORDS
  {
    var i := Cur(s);
    assert TaskOk(s, s.current);
    if i.levels != [] {
      assert FrameHeld(s.mem, LastLevel(i));
      assert LevelPlaced(i, s.current, 0) && LevelPlaced(i, s.current, |i.levels| - 1);
    }
  }

  function Step(s: Sys, e: Event): Sys
    requires Inv(s) && Enabled(s, e)
  {
    CurrentPlaces(s);
    match e
    case User(x, spEl0) => s.(core := s.core.(x := x, spEl0 := spEl0))
    case Trap(pc, pstate) => Enter(s, 0, TakeException(s.core, pc, pstate))
    case Irq(pc, pstate) => Enter(s, 1, TakeException(s.core, pc, pstate))
    case Leave => LeaveLevel(s)
    case Compute(c) => s.(core := c)
    case Write(a, v) => s.(mem := Poke(s.mem, a, [v]))
    case SetFrame(w, v) => FrameWords(Cur(s).page); SetUserFrame(s, w, v)
    case Switch(next) => assert TaskOk(s, next); SwitchTo(s, next)
    case Fork(page, kthread, fn, arg) => ForkChild(s, page, kthread, fn, arg)
    case SyscallReturn => StoreResult(s)
  }
}
