// Every step of the exception and context-switch protocol keeps every task's saved registers.
module StackSafety {
  import opened Bits
  import opened PhysMem
  import opened Registers
  import opened StackLayout
  import opened KernelStacks

  // The n words at a touch none of the task's saved words.
  ghost predicate Clear(i: Info, a: nat, n: nat) {
    Apart(a, n, i.page, CONTEXT_WORDS) && FramesClear(i, a, n)
  }

  ghost predicate FramesClear(i: Info, a: nat, n: nat) {
    forall k :: 0 <= k < |i.levels| ==> Apart(a, n, i.levels[k].base, FRAME_WORDS)
  }

  lemma HeldKeeps(mem: seq<Word>, a: nat, ws: seq<Word>, i: Info)
    requires Held(mem, i) && Inside(mem, a, |ws|) && FramesClear(i, a, |ws|)
    ensures Held(Poke(mem, a, ws), i)
  {
    forall k | 0 <= k < |i.levels|
      ensures FrameHeld(Poke(mem, a, ws), i.levels[k])
    {
      assert FrameHeld(mem, i.levels[k]);
      PokeThenPeek(mem, a, ws, i.levels[k].base, FRAME_WORDS);
    }
  }

  lemma ParkedKeeps(mem: seq<Word>, a: nat, ws: seq<Word>, i: Info, t: nat)
    requires Parked(mem, i, t) && Inside(mem, a, |ws|) && Apart(a, |ws|, i.page, CONTEXT_WORDS)
    ensures Parked(Poke(mem, a, ws), i, t)
  {
    PokeThenPeek(mem, a, ws, i.page, CONTEXT_WORDS);
  }

  // A write inside the current task's own page or stack is clear of every other task.
  lemma OwnRegionIsClear(s: Sys, t: nat, a: nat, n: nat)
    requires Inv(s) && t < |s.tasks| && t != s.current
    requires Cur(s).page <= a && a + 8 * n <= Cur(s).top
    ensures Clear(s.tasks[t], a, n)
  {
    var i := s.tasks[t];
    assert TaskOk(s, t) && Placed(i, t);
    assert Disjoint(Cur(s), i) || Disjoint(i, Cur(s));
    forall k | 0 <= k < |i.levels|
      ensures Apart(a, n, i.levels[k].base, FRAME_WORDS)
    {
      assert LevelPlaced(i, t, k);
    }
  }

  // After a store that is clear of the other tasks, only the current task is left to look at.
  lemma StoreKeeps(s: Sys, s': Sys, a: nat, ws: seq<Word>)
    requires Inv(s) && Inside(s.mem, a, |ws|)
    requires s'.mem == Poke(s.mem, a, ws) && s'.current < |s.tasks|
    requires |s'.tasks| == |s.tasks| && forall t :: 0 <= t < |s.tasks| && t != s.current ==> s'.tasks[t] == s.tasks[t]
    requires forall t :: 0 <= t < |s.tasks| && t != s.current ==> Clear(s.tasks[t], a, |ws|)
    requires Cur(s).page == s'.tasks[s.current].page && Cur(s).top == s'.tasks[s.current].top
    requires TaskOk(s', s.current) && TaskOk(s', s'.current)
    ensures Inv(s')
  {
    hide Placed, LevelPlaced, Poke, Peek, Held, Parked, Live;
    forall t | 0 <= t < |s.tasks|
      ensures TaskOk(s', t)
    {
      assert TaskOk(s, t);
      if t != s.current && t != s'.current {
        HeldKeeps(s.mem, a, ws, s.tasks[t]);
        ParkedKeeps(s.mem, a, ws, s.tasks[t], t);
      }
    }
    forall t, u | 0 <= t < u < |s.tasks|
      ensures Disjoint(s'.tasks[t], s'.tasks[u])
    {
      assert Disjoint(s.tasks[t], s.tasks[u]);
    }
  }

  // An exception, taken by the current task with its stack pointer where it may be.
  lemma EnterKeeps(s: Sys, el: nat, pc: Word, pstate: Word)
    requires Inv(s) && s.core.sp >= Cur(s).page + TASK_STRUCT_SIZE + S_FRAME_SIZE
    requires el == if InUserMode(s) then 0 else 1
    ensures WellFormed(s.core) && RoomForFrame(s.core, s.mem)
    ensures Inv(Enter(s, el, TakeException(s.core, pc, pstate)))
  {
    hide Placed, LevelPlaced, Parked, IsFrame, Clear;
    CurrentPlaces(s);
    var c, i := TakeException(s.core, pc, pstate), Cur(s);
    var s' := Enter(s, el, c);
    var base := s.core.sp - S_FRAME_SIZE;
    assert TaskOk(s, s.current);
    var l := Level(base, el, PtRegs(c, el));
    var i' := i.(levels := i.levels + [l]);
    assert s'.tasks[s.current] == i' && s'.mem == Poke(s.mem, base, l.saved);
    OwnFrameIsPlaced(i, s.current, s.core, l);
    assert forall k :: 0 <= k < |i.levels| ==> i'.levels[k] == i.levels[k];
    HeldKeeps(s.mem, base, l.saved, i);
    PokeThenPeek(s.mem, base, l.saved, base, FRAME_WORDS);
    assert FrameHeld(s'.mem, l);
    assert Held(s'.mem, i');
    hide Held, FrameHeld, Poke, Peek, FramesClear, KernelEntry;
    forall t | 0 <= t < |s.tasks| && t != s.current
      ensures Clear(s.tasks[t], base, FRAME_WORDS)
    {
      OwnRegionIsClear(s, t, base, FRAME_WORDS);
    }
    assert TaskOk(s', s.current);
    StoreKeeps(s, s', base, l.saved);
  }

  // The next frame lies below those on the stack, and the first at task_pt_regs.
  lemma OwnFrameIsPlaced(i: Info, t: nat, c: Core, l: Level)
    requires Placed(i, t) && Live(c, i, t) && c.sp >= i.page + TASK_STRUCT_SIZE + S_FRAME_SIZE
    requires l.base == c.sp - S_FRAME_SIZE && |l.saved| == FRAME_WORDS
    requires l.el == if t > 0 && i.levels == [] then 0 else 1
    ensures Placed(i.(levels := i.levels + [l]), t) && FramesClear(i, l.base, FRAME_WORDS)
    ensures i.page <= l.base && l.base + S_FRAME_SIZE <= i.top
    ensures t > 0 && i.levels == [] ==> l.base == TaskPtRegs(i.page)
  {
    hide IsFrame;
    var i', n := i.(levels := i.levels + [l]), |i.levels|;
    if n > 0 {
      assert LevelPlaced(i, t, n - 1);
    }
    forall k | 0 <= k < n
      ensures LevelPlaced(i', t, k) && l.base + S_FRAME_SIZE <= i.levels[k].base
    {
      assert LevelPlaced(i, t, k) && i'.levels[k] == i.levels[k];
      assert k < n - 1 ==> i.levels[n - 1].base + S_FRAME_SIZE <= i.levels[k].base;
    }
    assert LevelPlaced(i', t, n);
  }

  // Without its last frame a stack is still placed, and there is room for the stack pointer to go up.
  lemma EndLevelPlaced(i: Info, t: nat, mem: seq<Word>)
    requires Placed(i, t) && Held(mem, i) && i.levels != []
    ensures Placed(EndLevel(i), t) && Held(mem, EndLevel(i))
    ensures LastLevel(i).base % 8 == 0 && i.page + TASK_STRUCT_SIZE <= LastLevel(i).base
    ensures LastLevel(i).base + S_FRAME_SIZE <= Bottom(EndLevel(i))
    ensures t > 0 && |i.levels| == 1 ==> LastLevel(i).base + S_FRAME_SIZE == i.top
  {
    var n, i' := |i.levels|, EndLevel(i);
    assert LevelPlaced(i, t, n - 1);
    forall k | 0 <= k < n - 1
      ensures LevelPlaced(i', t, k) && FrameHeld(mem, i'.levels[k])
    {
      assert LevelPlaced(i, t, k) && FrameHeld(mem, i.levels[k]);
    }
  }

  lemma LeaveKeeps(s: Sys)
    requires Inv(s) && Cur(s).levels != [] && s.core.sp == LastLevel(Cur(s)).base
    ensures FrameAtSp(s.core, s.mem) && Inv(LeaveLevel(s))
  {
    hide Placed, Held, Parked;
    CurrentPlaces(s);
    var s' := LeaveLevel(s);
    assert TaskOk(s, s.current);
    EndLevelPlaced(Cur(s), s.current, s.mem);
    assert TaskOk(s', s.current);
    CoreKeeps(s, s');
  }

  // A step that leaves memory alone and changes no other task.
  lemma CoreKeeps(s: Sys, s': Sys)
    requires Inv(s) && s'.mem == s.mem && s'.current == s.current
    requires |s'.tasks| == |s.tasks| && forall t :: 0 <= t < |s.tasks| && t != s.current ==> s'.tasks[t] == s.tasks[t]
    requires Cur(s).page == Cur(s').page && Cur(s).top == Cur(s').top
    requires TaskOk(s', s.current)
    ensures Inv(s')
  {
    assert Poke(s.mem, 0, []) == s.mem;
    assert TaskOk(s, s.current);
    forall t | 0 <= t < |s.tasks| && t != s.current
      ensures Clear(s.tasks[t], 0, 0)
    {
    }
    StoreKeeps(s, s', 0, []);
  }

  lemma WriteKeeps(s: Sys, a: nat, v: Word)
    requires Inv(s) && Enabled(s, Write(a, v))
    ensures Inv(s.(mem := Poke(s.mem, a, [v])))
  {
    var s' := s.(mem := Poke(s.mem, a, [v]));
    forall t | 0 <= t < |s.tasks|
      ensures FramesClear(s.tasks[t], a, 1) && (t != s.current ==> Clear(s.tasks[t], a, 1))
    {
      assert TaskOk(s, t) && !InFrame(s.tasks[t], a);
      forall k | 0 <= k < |s.tasks[t].levels|
        ensures Apart(a, 1, s.tasks[t].levels[k].base, FRAME_WORDS)
      {
        assert LevelPlaced(s.tasks[t], t, k);
      }
    }
    assert TaskOk(s, s.current);
    HeldKeeps(s.mem, a, [v], Cur(s));
    assert TaskOk(s', s.current);
    StoreKeeps(s, s', a, [v]);
  }

  lemma PokeOneWord(mem: seq<Word>, b: nat, n: nat, w: nat, v: Word)
    requires Inside(mem, b, n) && w < n
    ensures Inside(mem, b + 8 * w, 1) && Peek(Poke(mem, b + 8 * w, [v]), b, n) == Peek(mem, b, n)[w := v]
  {
    RemainderUnique(b + 8 * w, 8, b / 8 + w, 0);
  }

  // The word stored through task_pt_regs changes in the first frame, and only there.
  lemma FrameWordStored(i: Info, t: nat, mem: seq<Word>, w: nat, v: Word)
    requires Placed(i, t) && Held(mem, i) && t > 0 && i.levels != [] && w < FRAME_WORDS
    ensures |i.levels[0].saved| == FRAME_WORDS && Inside(mem, TaskPtRegs(i.page) + 8 * w, 1)
    ensures var l := i.levels[0];
      var i' := i.(levels := i.levels[0 := l.(saved := l.saved[w := v])]);
      Placed(i', t) && Held(Poke(mem, TaskPtRegs(i.page) + 8 * w, [v]), i') && Bottom(i') == Bottom(i)
  {
    FrameWords(i.page);
    var l, a := i.levels[0], TaskPtRegs(i.page) + 8 * w;
    assert LevelPlaced(i, t, 0) && FrameHeld(mem, l);
    var i' := i.(levels := i.levels[0 := l.(saved := l.saved[w := v])]);
    var mem' := Poke(mem, a, [v]);
    PokeOneWord(mem, l.base, FRAME_WORDS, w, v);
    hide IsFrame, Poke, Peek;
    forall k | 0 <= k < |i.levels|
      ensures LevelPlaced(i', t, k) && FrameHeld(mem', i'.levels[k])
    {
      assert LevelPlaced(i, t, k) && FrameHeld(mem, i.levels[k]);
      if k > 0 {
        PokeThenPeek(mem, a, [v], i.levels[k].base, FRAME_WORDS);
      }
    }
  }

  lemma UserFramePlace(s: Sys, w: nat)
    requires Inv(s) && !InUserMode(s) && s.current > 0 && w < FRAME_WORDS
    ensures |Cur(s).levels[0].saved| == FRAME_WORDS && Inside(s.mem, TaskPtRegs(Cur(s).page) + 8 * w, 1)
    ensures Cur(s).page <= TaskPtRegs(Cur(s).page) + 8 * w && TaskPtRegs(Cur(s).page) + 8 * w + 8 <= Cur(s).top
  {
    CurrentPlaces(s);
    assert TaskOk(s, s.current);
    FrameWords(Cur(s).page);
  }

  lemma SetFrameKeeps(s: Sys, w: nat, v: Word)
    requires Inv(s) && !InUserMode(s) && s.current > 0 && w < FRAME_WORDS
    ensures |Cur(s).levels[0].saved| == FRAME_WORDS && Inside(s.mem, TaskPtRegs(Cur(s).page) + 8 * w, 1)
    ensures Inv(SetUserFrame(s, w, v))
  {
    hide Placed, Held, Poke, Clear, IsFrame, Parked, TaskPtRegs;
    UserFramePlace(s, w);
    var i, s', a := Cur(s), SetUserFrame(s, w, v), TaskPtRegs(Cur(s).page) + 8 * w;
    assert TaskOk(s, s.current);
    FrameWordStored(i, s.current, s.mem, w, v);
    forall t | 0 <= t < |s.tasks| && t != s.current
      ensures Clear(s.tasks[t], a, 1)
    {
      OwnRegionIsClear(s, t, a, 1);
    }
    assert TaskOk(s', s.current);
    StoreKeeps(s, s', a, [v]);
  }

  // The stack pointer of a system call about to return is at task_pt_regs, so its result goes to x0
  // of the frame there.
  lemma ResultGoesToFrame(s: Sys)
    requires Inv(s) && Enabled(s, SyscallReturn)
    ensures WellFormed(s.core) && !InUserMode(s) && s.current > 0 && s.core.sp == TaskPtRegs(Cur(s).page)
    ensures |Cur(s).levels[0].saved| == FRAME_WORDS && Inside(s.mem, s.core.sp, 1)
    ensures StoreResult(s) == SetUserFrame(s, 0, s.core.x[0])
  {
    CurrentPlaces(s);
    UserFramePlace(s, 0);
    assert TaskOk(s, s.current) && LevelPlaced(Cur(s), s.current, 0);
  }

  // Neither the places nor the frames depend on the recorded context.
  lemma OutIsOnlyRecorded(i: Info, t: nat, mem: seq<Word>, out: seq<Word>)
    requires Placed(i, t) && Held(mem, i)
    ensures Placed(i.(out := out), t) && Held(mem, i.(out := out))
    ensures Bottom(i.(out := out)) == Bottom(i)
  {
    var i' := i.(out := out);
    forall k | 0 <= k < |i.levels|
      ensures LevelPlaced(i', t, k) && FrameHeld(mem, i'.levels[k])
    {
      assert LevelPlaced(i, t, k) && FrameHeld(mem, i.levels[k]);
    }
  }

  // The context of the task left is stored clear of everything else.
  lemma ContextIsClear(s: Sys, t: nat)
    requires Inv(s) && t < |s.tasks|
    ensures FramesClear(s.tasks[t], Cur(s).page, CONTEXT_WORDS)
    ensures t != s.current ==> Clear(s.tasks[t], Cur(s).page, CONTEXT_WORDS)
  {
    var i := Cur(s);
    assert TaskOk(s, s.current);
    if t != s.current {
      OwnRegionIsClear(s, t, i.page, CONTEXT_WORDS);
    } else {
      assert forall k :: 0 <= k < |i.levels| ==> LevelPlaced(i, t, k);
    }
  }

  lemma SwitchKeeps(s: Sys, next: nat)
    requires Inv(s) && !InUserMode(s) && next < |s.tasks| && next != s.current
    ensures WellFormed(s.core) && RoomForContext(s.mem, Cur(s).page) && RoomForContext(s.mem, s.tasks[next].page)
    ensures Inv(SwitchTo(s, next)) && Context(SwitchTo(s, next).core) == s.tasks[next].out
  {
    hide Placed, LevelPlaced, Clear, IsFrame;
    CurrentPlaces(s);
    assert TaskOk(s, s.current) && TaskOk(s, next);
    var i, j, s', k := Cur(s), s.tasks[next], SwitchTo(s, next), Context(s.core);
    ContextIsClear(s, next);
    ContextIsClear(s, s.current);
    SwitchLoadsContext(s.core, s.mem, i.page, j.page, j.page, CONTEXT_WORDS);
    assert s'.mem == Poke(s.mem, i.page, k) && s'.tasks == s.tasks[s.current := i.(out := k)] && s'.current == next;
    assert WellFormed(s'.core);
    assert Inside(s'.mem, i.page, CONTEXT_WORDS);
    HeldKeeps(s.mem, i.page, k, i);
    HeldKeeps(s.mem, i.page, k, j);
    ContextParts(s.core);
    ContextParts(s'.core);
    OutIsOnlyRecorded(i, s.current, s'.mem, k);
    hide Held, Poke, Peek, FramesClear, Context, CpuSwitchTo;
    forall t | 0 <= t < |s.tasks| && t != s.current
      ensures Clear(s.tasks[t], i.page, CONTEXT_WORDS)
    {
      ContextIsClear(s, t);
    }
    assert TaskOk(s', s.current) && TaskOk(s', next);
    StoreKeeps(s, s', i.page, k);
  }

  lemma ContextParts(c: Core)
    requires WellFormed(c)
    ensures Context(c)[11] == c.sp && Context(c)[12] == c.x[30] && Context(c)[0] == c.x[19] && Context(c)[1] == c.x[20]
    ensures Context(c)[..11] == c.x[19..30]
  {
  }

  // ----- copy_process -----

  lemma ForkKeeps(s: Sys, page: nat, kthread: bool, fn: Word, arg: Word)
    requires Inv(s) && Enabled(s, Fork(page, kthread, fn, arg))
    ensures !kthread ==> IsFrame(Cur(s).page)
    ensures |s.mem| == MEM_WORDS && WellFormed(s.core) && Inv(ForkChild(s, page, kthread, fn, arg))
  {
    CurrentPlaces(s);
    var parent, s' := Cur(s).page, ForkChild(s, page, kthread, fn, arg);
    var n, child := |s.tasks|, Child(s.mem, parent, page, kthread, fn, arg);
    ChildIsPlaced(s, page, kthread, fn, arg);
    hide Child, ForkMemory;
    forall t | 0 <= t < n
      ensures TaskOk(s', t) && Disjoint(s.tasks[t], child)
    {
      TaskSurvivesFork(s, t, page, kthread, fn, arg);
    }
    hide TaskOk;
    forall t, u | 0 <= t < u < |s'.tasks|
      ensures Disjoint(s'.tasks[t], s'.tasks[u])
    {
      assert u < n ==> Disjoint(s.tasks[t], s.tasks[u]);
    }
    assert TaskOk(s', n);
  }

  lemma ChildIsPlaced(s: Sys, page: nat, kthread: bool, fn: Word, arg: Word)
    requires Inv(s) && Enabled(s, Fork(page, kthread, fn, arg))
    ensures |s.mem| == MEM_WORDS && WellFormed(s.core) && (!kthread ==> IsFrame(Cur(s).page))
    ensures var i, s' := Child(s.mem, Cur(s).page, page, kthread, fn, arg), ForkChild(s, page, kthread, fn, arg);
      && i.page == page && i.top == page + THREAD_SIZE && |s'.tasks| == |s.tasks| + 1
      && TaskOk(s', |s.tasks|)
  {
    CurrentPlaces(s);
    var parent := Cur(s).page;
    FrameWords(page);
    ChildWords(s.mem, parent, page, kthread, fn, arg);
    ForkWritesChild(s.mem, parent, page, kthread, fn, arg, page, 0);
    var i := Child(s.mem, parent, page, kthread, fn, arg);
    assert i.top == page + THREAD_SIZE;
    hide Child, ForkMemory;
    assert LevelPlaced(i, |s.tasks|, 0);
  }

  lemma TaskSurvivesFork(s: Sys, t: nat, page: nat, kthread: bool, fn: Word, arg: Word)
    requires Inv(s) && Enabled(s, Fork(page, kthread, fn, arg)) && t < |s.tasks|
    ensures |s.mem| == MEM_WORDS && WellFormed(s.core) && (!kthread ==> IsFrame(Cur(s).page))
    ensures TaskOk(ForkChild(s, page, kthread, fn, arg), t)
    ensures s.tasks[t].top <= page || page + THREAD_SIZE <= s.tasks[t].page
  {
    CurrentPlaces(s);
    var i, s', parent := s.tasks[t], ForkChild(s, page, kthread, fn, arg), Cur(s).page;
    assert TaskOk(s, t);
    if t > 0 {
      FramesApart(i.page, page);
    }
    forall k | 0 <= k < |i.levels|
      ensures FrameHeld(s'.mem, i.levels[k])
    {
      assert LevelPlaced(i, t, k) && FrameHeld(s.mem, i.levels[k]);
      ForkWritesChild(s.mem, parent, page, kthread, fn, arg, i.levels[k].base, FRAME_WORDS);
    }
    if t != s.current {
      ForkWritesChild(s.mem, parent, page, kthread, fn, arg, i.page, CONTEXT_WORDS);
    }
  }

  // ----- Runs -----

  lemma StepKeeps(s: Sys, e: Event)
    requires Inv(s) && Enabled(s, e)
    ensures Inv(Step(s, e))
  {
    CurrentPlaces(s);
    assert TaskOk(s, s.current);
    match e {
      case User(_, _) => CoreKeeps(s, Step(s, e));
      case Trap(pc, pstate) => EnterKeeps(s, 0, pc, pstate);
      case Irq(pc, pstate) => EnterKeeps(s, 1, pc, pstate);
      case Leave => LeaveKeeps(s);
      case Compute(_) => CoreKeeps(s, Step(s, e));
      case Write(a, v) => WriteKeeps(s, a, v);
      case SetFrame(w, v) => SetFrameKeeps(s, w, v);
      case Switch(next) => SwitchKeeps(s, next);
      case Fork(page, kthread, fn, arg) => ForkKeeps(s, page, kthread, fn, arg);
      case SyscallReturn =>
        ResultGoesToFrame(s);
        SetFrameKeeps(s, 0, s.core.x[0]);
    }
  }
}
