// The kernel's own code comes to an end: while a task waits, the steps between two calls or ticks are
// bounded. The outer loop of `_schedule` in particular does not go round for ever, although ticks may
// take away what a refill has given.
module Progress {
  import opened Limits
  import opened Scheduler
  import opened Preemption
  import opened Starvation
  import Fairness
  import SchedulerRuns

  const CALL_WORK := 202
  const REDO_WORK := 130

  // An upper bound on the steps an activity still takes, without a further refill; task[] has 64 slots.
  function FrameWork(f: Frame): int {
    match f
    case Own => 0
    case Enter => 199
    case Scanning(i, _, _) => 68 - i
    case Refilling(i) => if i <= NR_TASKS then 133 - i else 69
    case Switching(_, _) => 3
    case Crossing => 2
    case Resuming => 1
    case NewTask => 1
    case Forking(added) => if added then 1 else 3
    case Exiting(marked) => if marked then 201 else 202
    case Exited => 200
  }

  function StackWork(stack: seq<Frame>): int {
    if stack == [] then 0 else StackWork(stack[..|stack| - 1]) + FrameWork(stack[|stack| - 1])
  }

  function StackWorks(stacks: seq<seq<Frame>>): (w: seq<int>)
    ensures |w| == |stacks|
  {
    seq(|stacks|, i requires 0 <= i < |stacks| => StackWork(stacks[i]))
  }

  // A scan that can still lead to a refill takes so many steps more.
  ghost function Redo(m: Machine, j: nat): int
    requires Shaped(m) && j < |m.s.tasks|
  {
    if (Top(m, m.cpu).Scanning? || Top(m, m.cpu).Refilling?) && RefillLeft(m, j) then REDO_WORK else 0
  }

  ghost function Work(m: Machine, j: nat): int
    requires Shaped(m) && j < |m.s.tasks|
  {
    Fairness.Sum(StackWorks(m.stacks)) + Redo(m, j)
  }

  // ----- Changes of one stack -----

  lemma {:induction false} SumUpdate(w: seq<int>, i: nat, x: int)
    requires i < |w|
    ensures Fairness.Sum(w[i := x]) == Fairness.Sum(w) - w[i] + x
  {
    if i == 0 {
      assert w[i := x][1..] == w[1..];
    } else {
      assert w[i := x][1..] == w[1..][i - 1 := x];
      SumUpdate(w[1..], i - 1, x);
    }
  }

  lemma StackChange(stacks: seq<seq<Frame>>, i: nat, stack: seq<Frame>)
    requires i < |stacks|
    ensures Fairness.Sum(StackWorks(stacks[i := stack]))
      == Fairness.Sum(StackWorks(stacks)) - StackWork(stacks[i]) + StackWork(stack)
  {
    assert StackWorks(stacks[i := stack]) == StackWorks(stacks)[i := StackWork(stack)];
    SumUpdate(StackWorks(stacks), i, StackWork(stack));
  }

  lemma StackParts(stack: seq<Frame>, f: Frame)
    requires stack != []
    ensures StackWork(stack) == StackWork(stack[..|stack| - 1]) + FrameWork(stack[|stack| - 1])
    ensures StackWork(stack[|stack| - 1 := f]) == StackWork(stack[..|stack| - 1]) + FrameWork(f)
    ensures StackWork(stack + [f]) == StackWork(stack) + FrameWork(f)
  {
    assert stack[|stack| - 1 := f][..|stack| - 1] == stack[..|stack| - 1];
    assert (stack + [f])[..|stack|] == stack;
  }

  // The step replaces the last activity by f.
  lemma BecomeWork(m: Machine, f: Frame)
    requires Shaped(m)
    ensures Fairness.Sum(StackWorks(Become(m, f).stacks))
      == Fairness.Sum(StackWorks(m.stacks)) - FrameWork(Top(m, m.cpu)) + FrameWork(f)
  {
    StackParts(Stack(m), f);
    StackChange(m.stacks, m.cpu, Stack(m)[|Stack(m)| - 1 := f]);
  }

  lemma PushWork(m: Machine, f: Frame)
    requires Shaped(m)
    ensures Fairness.Sum(StackWorks(Push(m, f).stacks)) == Fairness.Sum(StackWorks(m.stacks)) + FrameWork(f)
  {
    StackParts(Stack(m), f);
    StackChange(m.stacks, m.cpu, Stack(m) + [f]);
  }

  lemma PopWork(m: Machine)
    requires Shaped(m)
    ensures Fairness.Sum(StackWorks(Pop(m).stacks)) == Fairness.Sum(StackWorks(m.stacks)) - FrameWork(Top(m, m.cpu))
  {
    StackParts(Stack(m), Own);
    StackChange(m.stacks, m.cpu, Stack(m)[..|Stack(m)| - 1]);
  }

  // ----- One step -----

  lemma ScanWork(m: Machine, j: nat)
    requires Waiting(m, j) && Top(m, m.cpu).Scanning?
    ensures Shaped(RunStep(m)) && j < |RunStep(m).s.tasks| && Work(RunStep(m), j) < Work(m, j)
  {
    ChoiceIsPositive(m, j);
    var f, g := Top(m, m.cpu), Top(RunStep(m), m.cpu);
    assert Found(m.s, f.i, f.c, f.next);
    hide Found, Inv, StackWorks;
    BecomeWork(m, g);
    assert RunStep(m) == Become(m, g);
  }

  lemma RefillWork(m: Machine, j: nat)
    requires Waiting(m, j) && Top(m, m.cpu).Refilling?
    ensures Shaped(RunStep(m)) && j < |RunStep(m).s.tasks| && Work(RunStep(m), j) < Work(m, j)
  {
    var g := Top(RunStep(m), m.cpu);
    assert Sound(m, j);
    hide Inv, StackWorks;
    BecomeWork(m, g);
    assert RunStep(m).stacks == Become(m, g).stacks;
  }

  lemma ForkWork(m: Machine, j: nat)
    requires Waiting(m, j) && Top(m, m.cpu) == Forking(false)
    ensures Shaped(RunStep(m)) && j < |RunStep(m).s.tasks| && Work(RunStep(m), j) < Work(m, j)
  {
    hide StackWorks, StackWork, Fairness.Sum;
    var child := m.(s := AddChild(m.s), stacks := m.stacks + [[Own, NewTask]]);
    assert Shaped(child) && Top(child, child.cpu) == Forking(false) && RunStep(m) == Become(child, Forking(true));
    assert Redo(m, j) == 0;
    AddedStack(m.stacks);
    BecomeWork(child, Forking(true));
    hide Inv, AddChild, Become;
    assert Top(RunStep(m), m.cpu) == Forking(true);
  }

  // The new task has one step to take, in schedule_tail.
  lemma AddedStack(stacks: seq<seq<Frame>>)
    ensures Fairness.Sum(StackWorks(stacks + [[Own, NewTask]])) == Fairness.Sum(StackWorks(stacks)) + 1
  {
    StackParts([Own], NewTask);
    StackParts([Own], Own);
    assert [Own] + [NewTask] == [Own, NewTask] && [Own][..0] == [];
    assert StackWorks(stacks + [[Own, NewTask]]) == StackWorks(stacks) + [StackWork([Own, NewTask])];
    Fairness.SumAppend(StackWorks(stacks), StackWork([Own, NewTask]));
  }

  lemma ReturnWork(m: Machine, j: nat)
    requires Waiting(m, j) && (Top(m, m.cpu) == Resuming || Top(m, m.cpu) == NewTask || Top(m, m.cpu) == Forking(true))
    ensures Shaped(RunStep(m)) && j < |RunStep(m).s.tasks| && Work(RunStep(m), j) < Work(m, j)
  {
    assert Nested(m, m.cpu);
    PopWork(m);
    hide Inv, StackWorks;
    assert RunStep(m).stacks == Pop(m).stacks;
  }

  lemma OtherWork(m: Machine, j: nat)
    requires Waiting(m, j) && Enabled(m, Run) && RunStep(m).s.current != j
    requires Top(m, m.cpu).Enter? || Top(m, m.cpu).Switching? || Top(m, m.cpu).Crossing? || Top(m, m.cpu).Exiting?
      || Top(m, m.cpu).Exited?
    ensures Shaped(RunStep(m)) && j < |RunStep(m).s.tasks| && Work(RunStep(m), j) < Work(m, j)
  {
    var g := Top(RunStep(m), m.cpu);
    assert Parked(m, m.s.current);
    hide Inv, StackWorks;
    BecomeWork(m, g);
    assert RunStep(m).stacks == Become(m, g).stacks;
  }

  lemma RunWork(m: Machine, j: nat)
    requires Waiting(m, j) && Enabled(m, Run) && RunStep(m).s.current != j
    ensures Shaped(RunStep(m)) && j < |RunStep(m).s.tasks| && Work(RunStep(m), j) < Work(m, j)
  {
    hide Work, RunStep;
    match Top(m, m.cpu) {
      case Scanning(_, _, _) => ScanWork(m, j);
      case Refilling(_) => RefillWork(m, j);
      case Forking(added) => if added { ReturnWork(m, j); } else { ForkWork(m, j); }
      case Resuming => ReturnWork(m, j);
      case NewTask => ReturnWork(m, j);
      case _ => OtherWork(m, j);
    }
  }

  // A call, or a tick that does not find preemption held off.
  ghost predicate Starts(m: Machine, e: Event)
    requires Shaped(m)
  {
    e != Run && (e == Tick ==> Current(m.s).preempt == 0)
  }

  lemma CallWork(m: Machine, e: Event, j: nat)
    requires Waiting(m, j) && Enabled(m, e) && e != Run
    ensures Shaped(Step(m, e)) && j < |Step(m, e).s.tasks|
    ensures Work(Step(m, e), j) <= Work(m, j) + if Starts(m, e) then CALL_WORK else 0
  {
    var n := Step(m, e);
    StepKeeps(m, e);
    assert Nested(m, m.cpu) && Nested(m, m.s.current) && Parked(m, m.s.current);
    if n.stacks != m.stacks {
      PushWork(m, Top(n, m.cpu));
    }
  }

  // ----- Runs -----

  ghost function Starters(m: Machine, es: seq<Event>): nat
    requires Legal(m, es)
    decreases |es|
  {
    if es == [] then 0 else (if Starts(m, es[0]) then 1 else 0) + Starters(Step(m, es[0]), es[1..])
  }

  function Steps(es: seq<Event>): nat {
    if es == [] then 0 else (if es[0] == Run then 1 else 0) + Steps(es[1..])
  }

  lemma WorkNotNegative(m: Machine, j: nat)
    requires Waiting(m, j)
    ensures Work(m, j) >= 0
  {
    var zero := seq(|m.stacks|, i => 0);
    Fairness.SumZero(zero);
    forall i | 0 <= i < |m.stacks|
      ensures StackWorks(m.stacks)[i] >= 0
    {
      assert Nested(m, i) && Parked(m, i);
      LowerWork(m.stacks[i][..|m.stacks[i]| - 1]);
    }
    Fairness.SumOrder(zero, StackWorks(m.stacks));
  }

  lemma {:induction false} LowerWork(stack: seq<Frame>)
    requires forall k :: 0 <= k < |stack| ==> !Holds(stack[k])
    ensures StackWork(stack) >= 0
  {
    if stack == [] {
    } else {
      LowerWork(stack[..|stack| - 1]);
    }
  }

  // While a task that owes no ticks waits, the kernel's code takes a bounded number of steps in all for
  // each call or tick that starts some of it, and for what it had begun before.
  lemma {:induction false} KernelCodeEnds(m: Machine, es: seq<Event>, j: nat)
    requires Waiting(m, j) && Legal(m, es) && !Selected(m, es, j)
    ensures Steps(es) <= Work(m, j) + CALL_WORK * Starters(m, es)
    decreases |es|
  {
    hide Step, Work, Starts;
    if es == [] {
      WorkNotNegative(m, j);
    } else {
      var e, n := es[0], Step(m, es[0]);
      assert n.s.current != j;
      WaitGoesOn(m, e, j);
      WorkStep(m, e, j);
      KernelCodeEnds(n, es[1..], j);
    }
  }

  lemma WaitGoesOn(m: Machine, e: Event, j: nat)
    requires Waiting(m, j) && Enabled(m, e) && Step(m, e).s.current != j
    ensures Waiting(Step(m, e), j)
  {
    forall i | 0 <= i < |m.s.tasks|
      ensures m.s.tasks[i].priority <= SchedulerRuns.MAX_PRIORITY
    {
      assert Sound(m, i);
    }
    StepPays(m, e, j, SchedulerRuns.MAX_PRIORITY);
  }

  lemma WorkStep(m: Machine, e: Event, j: nat)
    requires Waiting(m, j) && Enabled(m, e) && Waiting(Step(m, e), j)
    ensures Work(Step(m, e), j) <= Work(m, j)
      - (if e == Run then 1 else 0) + (if Starts(m, e) then CALL_WORK else 0)
  {
    hide Work, Inv;
    if e == Run {
      RunWork(m, j);
    } else {
      CallWork(m, e, j);
    }
  }
}
