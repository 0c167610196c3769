// Theorems over runs of the exception and context-switch protocol: a task that is switched out, or
// interrupted, or forked, gets its registers back whatever happens in between.
module Transparency {
  import opened Bits
  import opened PhysMem
  import opened Registers
  import opened StackLayout
  import opened KernelStacks
  import opened StackSafety

  // ----- Runs -----

  ghost function Next(s: Sys, e: Event): (r: Sys)
    requires Inv(s) && Enabled(s, e)
    ensures Inv(r)
  {
    StepKeeps(s, e);
    Step(s, e)
  }

  ghost predicate Legal(s: Sys, es: seq<Event>)
    requires Inv(s)
    decreases |es|
  {
    es == [] || (Enabled(s, es[0]) && Legal(Next(s, es[0]), es[1..]))
  }

  ghost function After(s: Sys, es: seq<Event>): (r: Sys)
    requires Inv(s) && Legal(s, es)
    ensures Inv(r)
    decreases |es|
  {
    if es == [] then s else After(Next(s, es[0]), es[1..])
  }

  // Init alone, on the boot stack.
  ghost predicate Booted(s: Sys) {
    && |s.mem| == MEM_WORDS && s.current == 0 && WellFormed(s.core)
    && |s.tasks| == 1 && s.tasks[0].levels == [] && s.tasks[0].top == LOW_MEMORY
    && s.tasks[0].page % 8 == 0 && s.tasks[0].page + TASK_STRUCT_SIZE <= s.core.sp <= LOW_MEMORY && s.core.sp % 8 == 0
  }

  lemma BootedInv(s: Sys)
    requires Booted(s)
    ensures Inv(s)
  {
  }

  // ----- Context switches -----

  // The registers a C function keeps for its caller, the stack pointer and the return address.
  predicate SameContext(c: Core, d: Core)
    requires WellFormed(c) && WellFormed(d)
  {
    c.sp == d.sp && forall k :: 19 <= k < 31 ==> c.x[k] == d.x[k]
  }

  // j exists and is never current, from s up to and including the end of the run.
  ghost predicate Away(s: Sys, es: seq<Event>, j: nat)
    requires Inv(s) && Legal(s, es)
    decreases |es|
  {
    j < |s.tasks| && j != s.current && (es == [] || Away(Next(s, es[0]), es[1..], j))
  }

  lemma OthersAreKept(s: Sys, e: Event, j: nat)
    requires Inv(s) && Enabled(s, e) && j < |s.tasks| && j != s.current
    ensures j < |Step(s, e).tasks| && Step(s, e).tasks[j] == s.tasks[j]
  {
    CurrentPlaces(s);
  }

  lemma {:induction false} AwayIsKept(s: Sys, es: seq<Event>, j: nat)
    requires Inv(s) && Legal(s, es) && Away(s, es, j)
    ensures j < |After(s, es).tasks| && After(s, es).tasks[j] == s.tasks[j] && After(s, es).current != j
    decreases |es|
  {
    if es == [] {
    } else {
      OthersAreKept(s, es[0], j);
      AwayIsKept(Next(s, es[0]), es[1..], j);
    }
  }

  lemma ContextSame(c: Core, d: Core)
    requires WellFormed(c) && WellFormed(d) && Context(c) == Context(d)
    ensures SameContext(c, d)
  {
    ContextParts(c);
    ContextParts(d);
    forall k | 19 <= k < 30
      ensures c.x[k] == d.x[k]
    {
      assert c.x[k] == c.x[19..30][k - 19] && d.x[k] == d.x[19..30][k - 19];
    }
  }

  lemma SwitchContexts(s: Sys, next: nat)
    requires Inv(s) && Enabled(s, Switch(next))
    ensures WellFormed(s.core) && Step(s, Switch(next)).tasks[s.current].out == Context(s.core)
    ensures WellFormed(Step(s, Switch(next)).core) && Context(Step(s, Switch(next)).core) == s.tasks[next].out
    ensures Step(s, Switch(next)).current == next && |Step(s, Switch(next)).tasks| == |s.tasks|
  {
    CurrentPlaces(s);
    assert TaskOk(s, next);
    SwitchKeeps(s, next);
  }

  // A task is switched out; whatever the others do, when it is switched to again it continues with
  // the x19-x28, frame pointer, stack pointer and return address it had.
  lemma SwitchIsTransparent(s: Sys, next: nat, es: seq<Event>)
    requires Inv(s) && Enabled(s, Switch(next))
    requires Legal(Next(s, Switch(next)), es) && Away(Next(s, Switch(next)), es, s.current)
    requires Enabled(After(Next(s, Switch(next)), es), Switch(s.current))
    ensures var r := Next(After(Next(s, Switch(next)), es), Switch(s.current));
      r.current == s.current && WellFormed(s.core) && WellFormed(r.core) && SameContext(r.core, s.core)
  {
    var s1 := Next(s, Switch(next));
    var s2 := After(s1, es);
    SwitchContexts(s, next);
    AwayIsKept(s1, es, s.current);
    SwitchContexts(s2, s.current);
    hide Context, Step;
    ContextSame(Next(s2, Switch(s.current)).core, s.core);
  }

  // ----- Exceptions -----

  // In every reachable state a task in user mode has an empty kernel stack, so the frame of the next
  // exception lies exactly at task_pt_regs and has the layout of struct pt_regs.
  lemma TrapFillsPtRegs(boot: Sys, es: seq<Event>, pc: Word, pstate: Word)
    requires Booted(boot) && Inv(boot) && Legal(boot, es) && InUserMode(After(boot, es))
    ensures var s := After(boot, es);
      && s.core.sp == Cur(s).page + THREAD_SIZE
      && Enabled(s, Trap(pc, pstate))
      && var r := Next(s, Trap(pc, pstate));
         && r.core.sp == TaskPtRegs(Cur(s).page)
         && Inside(r.mem, TaskPtRegs(Cur(s).page), FRAME_WORDS)
         && Peek(r.mem, TaskPtRegs(Cur(s).page), FRAME_WORDS) == s.core.x + [s.core.spEl0, pc, pstate]
  {
    var s := After(boot, es);
    CurrentPlaces(s);
    assert TaskOk(s, s.current);
    var r := Next(s, Trap(pc, pstate));
    assert TaskOk(r, r.current);
    assert FrameHeld(r.mem, Cur(r).levels[0]) && LevelPlaced(Cur(r), r.current, 0);
  }

  // Task j has more than d frames on its stack all along the run.
  ghost predicate Stays(s: Sys, es: seq<Event>, j: nat, d: nat)
    requires Inv(s) && Legal(s, es)
    decreases |es|
  {
    j < |s.tasks| && d < |s.tasks[j].levels| && (es == [] || Stays(Next(s, es[0]), es[1..], j, d))
  }

  // The step is a store to word w of the current task's frame at task_pt_regs.
  predicate Stores(e: Event, w: nat) {
    (e.SetFrame? && e.w == w) || (e.SyscallReturn? && w == 0)
  }

  // j stores to word w of its frame at task_pt_regs in the run.
  ghost predicate SetsWord(s: Sys, es: seq<Event>, j: nat, w: nat)
    requires Inv(s) && Legal(s, es)
    decreases |es|
  {
    es != [] && ((s.current == j && Stores(es[0], w)) || SetsWord(Next(s, es[0]), es[1..], j, w))
  }

  lemma LevelIsKept(s: Sys, e: Event, j: nat, d: nat, w: nat)
    requires Inv(s) && Enabled(s, e) && j < |s.tasks| && d < |s.tasks[j].levels| && w < FRAME_WORDS
    requires j < |Step(s, e).tasks| && d < |Step(s, e).tasks[j].levels|
    requires d > 0 || s.current != j || !Stores(e, w)
    ensures var l, l' := s.tasks[j].levels[d], Step(s, e).tasks[j].levels[d];
      && l'.base == l.base && l'.el == l.el && |l.saved| == |l'.saved| == FRAME_WORDS && l'.saved[w] == l.saved[w]
  {
    assert TaskOk(s, j) && LevelPlaced(s.tasks[j], j, d);
    if j != s.current {
      OthersAreKept(s, e, j);
    } else {
      CurrentPlaces(s);
    }
  }

  lemma {:induction false} FrameIsKept(s: Sys, es: seq<Event>, j: nat, d: nat, w: nat)
    requires Inv(s) && Legal(s, es) && Stays(s, es, j, d) && w < FRAME_WORDS
    requires d == 0 ==> !SetsWord(s, es, j, w)
    ensures j < |After(s, es).tasks| && d < |After(s, es).tasks[j].levels|
    ensures var l, l' := s.tasks[j].levels[d], After(s, es).tasks[j].levels[d];
      && l'.base == l.base && l'.el == l.el && |l.saved| == |l'.saved| == FRAME_WORDS && l'.saved[w] == l.saved[w]
    decreases |es|
  {
    if es == [] {
      assert TaskOk(s, j) && LevelPlaced(s.tasks[j], j, d);
    } else {
      LevelIsKept(s, es[0], j, d, w);
      hide Step;
      FrameIsKept(Next(s, es[0]), es[1..], j, d, w);
    }
  }

  // Word w of the registers an exception saves: x0..x30, the stack pointer the frame records, elr, spsr.
  function Saved(c: Core, el: nat, w: nat): Word
    requires WellFormed(c) && w < FRAME_WORDS
  {
    PtRegs(c, el)[w]
  }

  // kernel_exit gives back the words of the last frame.
  lemma LeaveRestores(s: Sys, w: nat)
    requires Inv(s) && Enabled(s, Leave) && w < FRAME_WORDS
    ensures var l, r := LastLevel(Cur(s)), Step(s, Leave);
      && WellFormed(r.core) && |l.saved| == FRAME_WORDS && r.core.sp == l.base + S_FRAME_SIZE
      && r.current == s.current && |r.tasks| == |s.tasks| && Cur(r).levels == Cur(s).levels[..|Cur(s).levels| - 1]
      && (w != 31 || l.el == 0 ==> Saved(r.core, l.el, w) == l.saved[w])
  {
    CurrentPlaces(s);
    var l := LastLevel(Cur(s));
    assert TaskOk(s, s.current) && FrameHeld(s.mem, l) && LevelPlaced(Cur(s), s.current, |Cur(s).levels| - 1);
    var f := Peek(s.mem, s.core.sp, FRAME_WORDS);
    assert f == l.saved;
    assert w < 31 ==> f[..31][w] == f[w];
  }

  // An exception from either level. When the run comes back to its frame, kernel_exit gives back
  // every word of the saved registers that was not deliberately stored through task_pt_regs, and
  // the stack pointer; nested interrupts, switches and forks in between make no difference.
  lemma ExceptionIsTransparent(s: Sys, e: Event, es: seq<Event>, w: nat)
    requires Inv(s) && Enabled(s, e) && (e.Trap? || e.Irq?) && w < FRAME_WORDS
    requires Legal(Next(s, e), es) && Stays(Next(s, e), es, s.current, |Cur(s).levels|)
    requires Cur(s).levels == [] ==> !SetsWord(Next(s, e), es, s.current, w)
    requires var m := After(Next(s, e), es);
      m.current == s.current && |Cur(m).levels| == |Cur(s).levels| + 1 && Enabled(m, Leave)
    ensures var r, c := Next(After(Next(s, e), es), Leave), TakeException(s.core, e.pc, e.pstate);
      var el := if e.Trap? then 0 else 1;
      && WellFormed(c) && WellFormed(r.core) && r.current == s.current && r.core.sp == s.core.sp
      && (w != 31 || el == 0 ==> Saved(r.core, el, w) == Saved(c, el, w))
  {
    var s1, d, c := Next(s, e), |Cur(s).levels|, TakeException(s.core, e.pc, e.pstate);
    var el := if e.Trap? then 0 else 1;
    CurrentPlaces(s);
    assert Cur(s1).levels[d] == Level(s.core.sp - S_FRAME_SIZE, el, PtRegs(c, el));
    hide Step, Enter, KernelEntry;
    FrameIsKept(s1, es, s.current, d, w);
    LeaveRestores(After(s1, es), w);
  }

  // ----- Fork -----

  datatype Target = ToUser | CallThread(fn: Word, arg: Word)

  // What ret_from_fork does after schedule_tail: `cbz x19, ret_to_user`, or `blr x19` with x20.
  function RetFromFork(c: Core): Target
    requires WellFormed(c)
  {
    if c.x[19] == 0 then ToUser else CallThread(c.x[19], c.x[20])
  }

  // The first switch to a forked task arrives in ret_from_fork, with the stack pointer at its frame;
  // the zeroed page makes it go to user mode unless it is a kernel thread.
  lemma ChildStartsInRetFromFork(s: Sys, page: nat, kthread: bool, fn: Word, arg: Word, es: seq<Event>)
    requires Inv(s) && Enabled(s, Fork(page, kthread, fn, arg))
    requires var f := Next(s, Fork(page, kthread, fn, arg));
      Legal(f, es) && Away(f, es, |s.tasks|) && Enabled(After(f, es), Switch(|s.tasks|))
    ensures var r := Next(After(Next(s, Fork(page, kthread, fn, arg)), es), Switch(|s.tasks|));
      && WellFormed(r.core) && r.core.x[30] == RET_FROM_FORK && r.core.sp == TaskPtRegs(page)
      && RetFromFork(r.core) == if kthread && fn != 0 then CallThread(fn, arg) else ToUser
  {
    var f, n := Next(s, Fork(page, kthread, fn, arg)), |s.tasks|;
    CurrentPlaces(s);
    ChildWords(s.mem, Cur(s).page, page, kthread, fn, arg);
    assert f.tasks[n] == Child(s.mem, Cur(s).page, page, kthread, fn, arg);
    hide Step, Child;
    AwayIsKept(f, es, n);
    SwitchContexts(After(f, es), n);
    ContextParts(Next(After(f, es), Switch(n)).core);
  }

  // Right after the fork the child's frame is the parent's with x0 = 0.
  lemma ChildFrame(s: Sys, page: nat, fn: Word, arg: Word)
    requires Inv(s) && Enabled(s, Fork(page, false, fn, arg))
    ensures var f := Next(s, Fork(page, false, fn, arg));
      && |f.tasks| == |s.tasks| + 1 && Cur(s).levels != [] && |Cur(s).levels[0].saved| == FRAME_WORDS
      && f.tasks[|s.tasks|].levels == [Level(TaskPtRegs(page), 0, Cur(s).levels[0].saved[0 := 0])]
  {
    CurrentPlaces(s);
    var i := Cur(s);
    assert TaskOk(s, s.current) && FrameHeld(s.mem, i.levels[0]) && LevelPlaced(i, s.current, 0);
    hide ForkMemory;
  }

  // The child's first return to user mode: the registers the parent had when it trapped, but x0 = 0.
  // s is the parent in user mode, es its system call up to the fork, es2 the run until the child's
  // kernel_exit.
  lemma ForkIsTransparent(s: Sys, pc: Word, pstate: Word, es: seq<Event>, page: nat, es2: seq<Event>, w: nat)
    requires Inv(s) && Enabled(s, Trap(pc, pstate)) && w < FRAME_WORDS
    requires var t := Next(s, Trap(pc, pstate));
      && Legal(t, es) && Stays(t, es, s.current, 0) && !SetsWord(t, es, s.current, w)
      && var p := After(t, es);
         && p.current == s.current && Enabled(p, Fork(page, false, 0, 0))
         && var f := Next(p, Fork(page, false, 0, 0));
            && Legal(f, es2) && Stays(f, es2, |p.tasks|, 0) && !SetsWord(f, es2, |p.tasks|, w)
            && var m := After(f, es2); m.current == |p.tasks| && |Cur(m).levels| == 1 && Enabled(m, Leave)
    ensures var p := After(Next(s, Trap(pc, pstate)), es);
      var r, c := Next(After(Next(p, Fork(page, false, 0, 0)), es2), Leave), TakeException(s.core, pc, pstate);
      && WellFormed(c) && WellFormed(r.core) && InUserMode(r) && r.core.sp == page + THREAD_SIZE
      && Saved(r.core, 0, w) == if w == 0 then 0 else Saved(c, 0, w)
  {
    var t := Next(s, Trap(pc, pstate));
    var p := After(t, es);
    var f := Next(p, Fork(page, false, 0, 0));
    var m := After(f, es2);
    CurrentPlaces(s);
    assert Cur(t).levels[0].saved == PtRegs(TakeException(s.core, pc, pstate), 0);
    hide Step, Enter, KernelEntry;
    FrameIsKept(t, es, s.current, 0, w);
    ChildFrame(p, page, 0, 0);
    FrameIsKept(f, es2, |p.tasks|, 0, w);
    LeaveRestores(m, w);
  }

  // A word stored through task_pt_regs is what the next return to user mode loads.
  lemma StoredWordIsRestored(s: Sys, w: nat, v: Word, es: seq<Event>)
    requires Inv(s) && Enabled(s, SetFrame(w, v))
    requires var n := Next(s, SetFrame(w, v));
      && Legal(n, es) && Stays(n, es, s.current, 0) && !SetsWord(n, es, s.current, w)
      && var q := After(n, es); q.current == s.current && |Cur(q).levels| == 1 && Enabled(q, Leave)
    ensures var r := Next(After(Next(s, SetFrame(w, v)), es), Leave);
      WellFormed(r.core) && InUserMode(r) && Saved(r.core, 0, w) == v
  {
    var n := Next(s, SetFrame(w, v));
    SetFrameStores(s, w, v);
    hide Step, SetUserFrame;
    FrameIsKept(n, es, s.current, 0, w);
    LeaveRestores(After(n, es), w);
  }

  // ----- The result of a system call -----

  // Code that leaves x0 alone: it does not return, switch or call copy_process.
  predicate LeavesX0(c: Core, e: Event)
    requires WellFormed(c)
  {
    e.Irq? || e.Write? || e.SetFrame? || (e.Compute? && WellFormed(e.core) && e.core.x[0] == c.x[0])
  }

  // Along the run j has at least d frames, and whenever it has exactly d and is not interrupted its own
  // steps leave x0 alone. What interrupt handlers and other tasks do is not restricted.
  ghost predicate Carries(s: Sys, es: seq<Event>, j: nat, d: nat)
    requires Inv(s) && Legal(s, es)
    decreases |es|
  {
    && j < |s.tasks| && d <= |s.tasks[j].levels|
    && (es != [] ==>
          && (s.current == j && |s.tasks[j].levels| == d ==> WellFormed(s.core) && LeavesX0(s.core, es[0]))
          && Carries(Next(s, es[0]), es[1..], j, d))
  }

  // j's x0 at depth d is v: in the register, or in the frame of the interrupt that came in between.
  ghost predicate X0Is(s: Sys, j: nat, d: nat, v: Word) {
    && j < |s.tasks| && d <= |s.tasks[j].levels|
    && (if |s.tasks[j].levels| == d then s.current == j && WellFormed(s.core) && s.core.x[0] == v
        else |s.tasks[j].levels[d].saved| == FRAME_WORDS && s.tasks[j].levels[d].saved[0] == v)
  }

  lemma X0Step(s: Sys, e: Event, j: nat, d: nat, v: Word)
    requires Inv(s) && Enabled(s, e) && X0Is(s, j, d, v) && d > 0
    requires s.current == j && |s.tasks[j].levels| == d ==> LeavesX0(s.core, e)
    requires j < |Step(s, e).tasks| && d <= |Step(s, e).tasks[j].levels|
    ensures X0Is(Step(s, e), j, d, v)
  {
    var s' := Step(s, e);
    if j != s.current {
      OthersAreKept(s, e, j);
    } else if |s.tasks[j].levels| == d {
      CurrentPlaces(s);
    } else if |s'.tasks[j].levels| > d {
      LevelIsKept(s, e, j, d, 0);
    } else {
      CurrentPlaces(s);
      assert e.Leave?;
      LeaveRestores(s, 0);
    }
  }

  // Interrupts taken on the way, and the switches, forks and system calls of other tasks made during
  // them, do not change x0.
  lemma {:induction false} X0IsCarried(s: Sys, es: seq<Event>, j: nat, d: nat, v: Word)
    requires Inv(s) && Legal(s, es) && Carries(s, es, j, d) && X0Is(s, j, d, v) && d > 0
    ensures X0Is(After(s, es), j, d, v)
    decreases |es|
  {
    if es == [] {
    } else {
      var s' := Next(s, es[0]);
      assert Carries(s', es[1..], j, d);
      X0Step(s, es[0], j, d, v);
      hide Step, X0Is;
      X0IsCarried(s', es[1..], j, d, v);
    }
  }

  // Right after the fork x0 is the child's number, which is the child's index in task[].
  lemma ForkLeavesPid(p: Sys, page: nat)
    requires Inv(p) && Enabled(p, Fork(page, false, 0, 0))
    ensures var f := Next(p, Fork(page, false, 0, 0));
      && (Cur(p).levels != [] ==> X0Is(f, p.current, |Cur(p).levels|, |p.tasks|))
      && |f.tasks| == |p.tasks| + 1 && f.tasks[|p.tasks|].page == page && Cur(f) == Cur(p)
  {
    CurrentPlaces(p);
    ChildWords(p.mem, Cur(p).page, page, false, 0, 0);
    hide ForkMemory, Child;
  }

  // The fork system call of the task current in s: es leads from the trap to copy_process, es2 from
  // there to ret_from_syscall.
  ghost predicate ForkCall(s: Sys, pc: Word, pstate: Word, es: seq<Event>, page: nat, es2: seq<Event>, p: Sys, m: Sys) {
    && Inv(s) && Enabled(s, Trap(pc, pstate))
    && var t := Next(s, Trap(pc, pstate));
       && Legal(t, es) && Stays(t, es, s.current, 0) && p == After(t, es)
       && p.current == s.current && |Cur(p).levels| == 1 && Enabled(p, Fork(page, false, 0, 0))
       && var f := Next(p, Fork(page, false, 0, 0));
          && Legal(f, es2) && Carries(f, es2, s.current, 1) && m == After(f, es2)
          && m.current == s.current && Enabled(m, SyscallReturn)
  }

  lemma {:induction false} CarriesStays(s: Sys, es: seq<Event>, j: nat, d: nat)
    requires Inv(s) && Legal(s, es) && Carries(s, es, j, d) && d > 0
    ensures Stays(s, es, j, d - 1)
    decreases |es|
  {
    if es == [] {
    } else {
      CarriesStays(Next(s, es[0]), es[1..], j, d);
    }
  }

  // A task keeps its place in task[] and its page.
  lemma {:induction false} PlaceIsKept(s: Sys, es: seq<Event>, t: nat)
    requires Inv(s) && Legal(s, es) && t < |s.tasks|
    ensures t < |After(s, es).tasks| && After(s, es).tasks[t].page == s.tasks[t].page
    decreases |es|
  {
    if es == [] {
    } else {
      CurrentPlaces(s);
      PlaceIsKept(Next(s, es[0]), es[1..], t);
    }
  }

  // ret_from_syscall and kernel_exit: user mode continues with x0 in x0, and what the frame held otherwise.
  lemma ResultReachesUser(m: Sys, w: nat)
    requires Inv(m) && Enabled(m, SyscallReturn) && w < FRAME_WORDS
    ensures WellFormed(m.core) && Cur(m).levels != [] && |Cur(m).levels[0].saved| == FRAME_WORDS
    ensures var n := Next(m, SyscallReturn);
      && Enabled(n, Leave)
      && var r := Next(n, Leave);
         && r.current == m.current && InUserMode(r) && WellFormed(r.core) && |r.tasks| == |m.tasks|
         && Saved(r.core, 0, w) == (if w == 0 then m.core.x[0] else Cur(m).levels[0].saved[w])
         && forall t :: 0 <= t < |m.tasks| ==> r.tasks[t].page == m.tasks[t].page
  {
    CurrentPlaces(m);
    ResultGoesToFrame(m);
    assert TaskOk(m, m.current) && LevelPlaced(Cur(m), m.current, 0);
    var n := Next(m, SyscallReturn);
    assert n.core == m.core && Cur(n).levels == [Cur(m).levels[0].(saved := Cur(m).levels[0].saved[0 := m.core.x[0]])];
    LeaveRestores(n, w);
    CurrentPlaces(n);
  }

  // The parent's side of a fork: it returns with its registers as they were at the system call, but
  // with the child's index in task[] in x0.
  lemma ParentGetsPid(s: Sys, pc: Word, pstate: Word, es: seq<Event>, page: nat, es2: seq<Event>, p: Sys, m: Sys,
                      w: nat)
    requires ForkCall(s, pc, pstate, es, page, es2, p, m) && w < FRAME_WORDS
    requires w > 0 ==> !SetsWord(Next(s, Trap(pc, pstate)), es, s.current, w)
    requires w > 0 ==> !SetsWord(Next(p, Fork(page, false, 0, 0)), es2, s.current, w)
    ensures Enabled(Next(m, SyscallReturn), Leave)
    ensures var r, c := Next(Next(m, SyscallReturn), Leave), TakeException(s.core, pc, pstate);
      && r.current == s.current && InUserMode(r) && WellFormed(c) && WellFormed(r.core)
      && Saved(r.core, 0, w) == (if w == 0 then |p.tasks| else Saved(c, 0, w))
      && 1 <= |p.tasks| < |r.tasks| && r.tasks[|p.tasks|].page == page
  {
    var j, t, f := s.current, Next(s, Trap(pc, pstate)), Next(p, Fork(page, false, 0, 0));
    CurrentPlaces(s);
    assert Cur(t).levels[0].saved == PtRegs(TakeException(s.core, pc, pstate), 0);
    hide Step, Enter, KernelEntry;
    ForkLeavesPid(p, page);
    X0IsCarried(f, es2, j, 1, |p.tasks|);
    CarriesStays(f, es2, j, 1);
    PlaceIsKept(f, es2, |p.tasks|);
    ResultReachesUser(m, w);
    if w > 0 {
      FrameIsKept(t, es, j, 0, w);
      FrameIsKept(f, es2, j, 0, w);
    }
  }

  // The three stores move_to_user_mode makes in the frame of a kernel thread: pc, pstate and sp.
  ghost predicate EntryStores(s: Sys, pc: Word, n: Sys) {
    && Inv(s) && Enabled(s, SetFrame(32, pc))
    && var s1 := Next(s, SetFrame(32, pc));
       && Enabled(s1, SetFrame(33, 0))
       && var s2 := Next(s1, SetFrame(33, 0));
          Enabled(s2, SetFrame(31, 8192)) && n == Next(s2, SetFrame(31, 8192))
  }

  // The kernel thread's return to user mode starts at pc, in EL0, with the stack at 2 * PAGE_SIZE.
  lemma KernelThreadEntersUserMode(s: Sys, pc: Word, n: Sys, es: seq<Event>)
    requires EntryStores(s, pc, n) && Inv(n) && Legal(n, es) && Stays(n, es, s.current, 0)
    requires !SetsWord(n, es, s.current, 31) && !SetsWord(n, es, s.current, 32) && !SetsWord(n, es, s.current, 33)
    requires var q := After(n, es); q.current == s.current && |Cur(q).levels| == 1 && Enabled(q, Leave)
    ensures var r := Next(After(n, es), Leave);
      InUserMode(r) && r.core.elr == pc && r.core.spsr == 0 && r.core.spEl0 == 8192
  {
    FrameStores(s, pc, n);
    hide Step, EntryStores;
    FrameIsKept(n, es, s.current, 0, 31);
    FrameIsKept(n, es, s.current, 0, 32);
    FrameIsKept(n, es, s.current, 0, 33);
    LeaveRestores(After(n, es), 31);
    LeaveRestores(After(n, es), 32);
    LeaveRestores(After(n, es), 33);
  }

  lemma FrameStores(s: Sys, pc: Word, n: Sys)
    requires EntryStores(s, pc, n)
    ensures n.current == s.current > 0 && Inv(n) && Cur(n).levels != [] && Cur(n).levels[0].el == 0
    ensures |Cur(n).levels[0].saved| == FRAME_WORDS
    ensures Cur(n).levels[0].saved[31] == 8192 && Cur(n).levels[0].saved[32] == pc && Cur(n).levels[0].saved[33] == 0
  {
    hide IsFrame;
    var s1 := Next(s, SetFrame(32, pc));
    var s2 := Next(s1, SetFrame(33, 0));
    SetFrameStores(s, 32, pc);
    SetFrameStores(s1, 33, 0);
    SetFrameStores(s2, 31, 8192);
  }

  lemma SetFrameStores(s: Sys, w: nat, v: Word)
    requires Inv(s) && Enabled(s, SetFrame(w, v))
    ensures var n := Next(s, SetFrame(w, v));
      && n.current == s.current && Cur(s).levels != [] && Cur(n).levels != [] && Cur(n).levels[0].el == 0
      && |Cur(s).levels[0].saved| == FRAME_WORDS && Cur(n).levels[0].saved == Cur(s).levels[0].saved[w := v]
  {
    CurrentPlaces(s);
    assert TaskOk(s, s.current) && LevelPlaced(Cur(s), s.current, 0);
  }

  // A store of C code changes its word, and no register, task or other word.
  lemma WriteDoes(s: Sys, a: nat, v: Word, b: nat)
    requires Inv(s) && Enabled(s, Write(a, v)) && Inside(s.mem, b, 1)
    ensures var n := Next(s, Write(a, v));
      && Inside(n.mem, b, 1) && Peek(n.mem, b, 1) == (if b == a then [v] else Peek(s.mem, b, 1))
      && n.core == s.core && n.tasks == s.tasks && n.current == s.current
  {
    PokeThenPeek(s.mem, a, [v], b, 1);
  }
}
