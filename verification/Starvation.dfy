// No starvation with ticks between any two steps of the kernel: in the machine of Preemption, a
// runnable task that owes no ticks is selected after a bounded number of turns of the others.
// Debt.dfy shows what happens to one that does.
module Starvation {
  import opened Limits
  import opened Scheduler
  import opened Preemption
  import Fairness

  // `j` is runnable, neither on the processor nor about to be, and owes no ticks.
  ghost predicate Waiting(m: Machine, j: nat) {
    Inv(m) && Runnable(m.s.tasks, j) && j != m.cpu && j != m.s.current && m.s.tasks[j].counter >= 0
  }

  // ----- The potential -----

  // Task `i` returns to what it was doing without being chosen once more.
  ghost predicate Returns(m: Machine, i: nat)
    requires Shaped(m) && i < |m.s.tasks|
  {
    if i != m.cpu then i == m.s.current
    else
      match Top(m, i)
      case Enter | Refilling(_) | Crossing => false
      case Scanning(_, c, next) => c > 0 && next == i
      case Switching(c, next) => c > 0 && next == i
      case _ => true
  }

  // The turns that task `i` can still take before it is out: its counter, and one if ticks have run its
  // counter down where they could not make it give up the processor.
  ghost function Left(m: Machine, i: nat): nat
    requires Shaped(m) && i < |m.s.tasks|
  {
    if m.s.tasks[i].counter > 0 then m.s.tasks[i].counter else if Returns(m, i) then 1 else 0
  }

  // A refill is under way that has not come to slot `k` yet.
  ghost predicate RefillAhead(m: Machine, k: nat)
    requires Shaped(m)
  {
    Top(m, m.cpu).Refilling? && Top(m, m.cpu).i <= k
  }

  // There can be another refill before `j` is selected.
  ghost predicate RefillLeft(m: Machine, j: nat)
    requires Shaped(m) && j < |m.s.tasks|
  {
    m.s.tasks[j].counter == 0 && !RefillAhead(m, j)
  }

  // What refills can still add to the counter of task `i` before `j` is selected.
  ghost function Bonus(m: Machine, j: nat, i: nat): int
    requires Shaped(m) && i < |m.s.tasks| && j < |m.s.tasks|
  {
    (if RefillAhead(m, i) then m.s.tasks[i].priority else 0) +
    (if RefillLeft(m, j) then m.s.tasks[i].priority else 0)
  }

  ghost predicate Other(m: Machine, j: nat, i: nat)
    requires i < |m.s.tasks|
  {
    i != j && (m.s.tasks[i].state == Running || i == m.cpu || i == m.s.current)
  }

  ghost function Weight(m: Machine, j: nat, i: nat): int
    requires Shaped(m) && i < |m.s.tasks| && j < |m.s.tasks|
  {
    if Other(m, j, i) then Left(m, i) + Bonus(m, j, i) else 0
  }

  ghost function Weights(m: Machine, j: nat): (w: seq<int>)
    requires Shaped(m) && j < |m.s.tasks|
    ensures |w| == |m.s.tasks|
  {
    seq(|m.s.tasks|, i requires 0 <= i < |m.s.tasks| => Weight(m, j, i))
  }

  ghost function Potential(m: Machine, j: nat): int
    requires Shaped(m) && j < |m.s.tasks|
  {
    Fairness.Sum(Weights(m, j))
  }

  // A tick or a call of schedule() that finds the processor in a task's own code.
  ghost predicate Turn(m: Machine, e: Event)
    requires Shaped(m)
  {
    Top(m, m.cpu) == Own && (e == Tick || e == CallSchedule)
  }

  ghost predicate AddsTask(m: Machine, e: Event)
    requires Shaped(m)
  {
    e == Run && Top(m, m.cpu) == Forking(false)
  }

  // ----- One step -----

  ghost predicate Cheap(m: Machine, cap: int) {
    forall i :: 0 <= i < |m.s.tasks| ==> m.s.tasks[i].priority <= cap
  }

  // What a step that does not select `j` does to the weight of slot `i`.
  ghost predicate WeightFalls(m: Machine, e: Event, n: Machine, j: nat, i: nat)
    requires Shaped(m) && Shaped(n) && i < |m.s.tasks| <= |n.s.tasks| && j < |m.s.tasks|
  {
    Weight(n, j, i) <= Weight(m, j, i) - if Turn(m, e) && i == m.cpu then 1 else 0
  }

  lemma TickWeight(m: Machine, j: nat, i: nat)
    requires Waiting(m, j) && i < |m.s.tasks|
    ensures Shaped(TickStep(m)) && |TickStep(m).s.tasks| == |m.s.tasks|
    ensures WeightFalls(m, Tick, TickStep(m), j, i)
    ensures TickStep(m).s.tasks[j] == m.s.tasks[j] && TickStep(m).s.current == m.s.current && TickStep(m).cpu == m.cpu
  {
    assert Nested(m, m.cpu) && Nested(m, m.s.current) && Parked(m, m.s.current);
  }

  lemma CallWeight(m: Machine, e: Event, j: nat, i: nat)
    requires Waiting(m, j) && Enabled(m, e) && (e == CallSchedule || e == CallFork || e == CallExit)
    requires i < |m.s.tasks|
    ensures var n := Step(m, e);
      && Shaped(n) && |n.s.tasks| == |m.s.tasks| && WeightFalls(m, e, n, j, i)
      && n.s.tasks[j] == m.s.tasks[j] && n.s.current == m.s.current && n.cpu == m.cpu
  {
  }

  // The scan chooses only tasks with a positive counter, as `j` has not less than 0.
  lemma ChoiceIsPositive(m: Machine, j: nat)
    requires Waiting(m, j)
    ensures Top(m, m.cpu).Switching? ==>
      var next := Top(m, m.cpu).next;
      Top(m, m.cpu).c > 0 && Runnable(m.s.tasks, next) && (next != m.cpu ==> m.s.tasks[next].counter > 0)
    ensures Top(m, m.cpu).Scanning? && Top(m, m.cpu).i == |m.s.tasks| ==>
      Top(m, m.cpu).c >= 0 && (Top(m, m.cpu).c == 0 ==> m.s.tasks[j].counter == 0)
  {
  }

  lemma ScanWeight(m: Machine, j: nat, i: nat)
    requires Waiting(m, j) && Top(m, m.cpu).Scanning? && i < |m.s.tasks|
    ensures var n := RunStep(m);
      && Shaped(n) && n.s == m.s && n.cpu == m.cpu && WeightFalls(m, Run, n, j, i)
  {
    ChoiceIsPositive(m, j);
    var k := Top(m, m.cpu).i;
    assert Found(m.s, k, Top(m, m.cpu).c, Top(m, m.cpu).next);
    if k < |m.s.tasks| {
      assert Sound(m, k);
    }
    assert Sound(m, i);
    hide Found;
  }

  lemma RefillWeight(m: Machine, j: nat, i: nat)
    requires Waiting(m, j) && Top(m, m.cpu).Refilling? && i < |m.s.tasks|
    ensures var n := RunStep(m);
      && Shaped(n) && |n.s.tasks| == |m.s.tasks| && n.s.current == m.s.current && n.cpu == m.cpu
      && WeightFalls(m, Run, n, j, i)
      && n.s.tasks[j].state == Running && n.s.tasks[j].counter >= 0
  {
    assert Sound(m, i) && Sound(m, j);
  }

  lemma SwitchWeight(m: Machine, j: nat, i: nat)
    requires Waiting(m, j) && (Top(m, m.cpu).Switching? || Top(m, m.cpu) == Crossing) && i < |m.s.tasks|
    requires RunStep(m).s.current != j
    ensures var n := RunStep(m);
      && Shaped(n) && n.s.tasks == m.s.tasks && n.cpu != j && WeightFalls(m, Run, n, j, i)
  {
    ChoiceIsPositive(m, j);
    assert Sound(m, i) && Parked(m, m.s.current);
  }

  lemma OwnWeight(m: Machine, j: nat, i: nat)
    requires Waiting(m, j) && Enabled(m, Run) && i < |m.s.tasks|
    requires Top(m, m.cpu).Enter? || Top(m, m.cpu).Resuming? || Top(m, m.cpu).NewTask?
      || Top(m, m.cpu) == Forking(true) || Top(m, m.cpu).Exiting? || Top(m, m.cpu).Exited?
    ensures var n := RunStep(m);
      && Shaped(n) && |n.s.tasks| == |m.s.tasks| && n.s.current == m.s.current && n.cpu == m.cpu
      && n.s.tasks[j] == m.s.tasks[j] && WeightFalls(m, Run, n, j, i)
  {
    assert Nested(m, m.cpu);
  }

  lemma ForkWeight(m: Machine, j: nat, i: nat, cap: int)
    requires Waiting(m, j) && Top(m, m.cpu) == Forking(false) && Cheap(m, cap) && i < |m.s.tasks|
    ensures var n, k := RunStep(m), |m.s.tasks|;
      && Shaped(n) && |n.s.tasks| == k + 1 && n.s.current == m.s.current && n.cpu == m.cpu
      && n.s.tasks[j] == m.s.tasks[j] && WeightFalls(m, Run, n, j, i) && Weight(n, j, k) <= 2 * cap
      && n.s.tasks[k].priority == m.s.tasks[m.cpu].priority
  {
    assert Sound(m, m.cpu);
  }

  // No step but a fork adds a task; the new one's weight is at most twice the largest priority.
  lemma StepWeight(m: Machine, e: Event, j: nat, i: nat, cap: int)
    requires Waiting(m, j) && Enabled(m, e) && Cheap(m, cap) && i < |m.s.tasks| && Step(m, e).s.current != j
    ensures var n := Step(m, e);
      && Shaped(n) && |n.s.tasks| == |m.s.tasks| + (if AddsTask(m, e) then 1 else 0)
      && n.cpu != j && n.s.tasks[j].state == Running && n.s.tasks[j].counter >= 0
      && WeightFalls(m, e, n, j, i)
      && (AddsTask(m, e) ==> Weight(n, j, |m.s.tasks|) <= 2 * cap)
  {
    assert Shaped(m);
    hide TickStep, RunStep, WeightFalls, Inv;
    match e {
      case Tick => TickWeight(m, j, i);
      case Run =>
        match Top(m, m.cpu) {
          case Scanning(_, _, _) => ScanWeight(m, j, i);
          case Refilling(_) => RefillWeight(m, j, i);
          case Switching(_, _) => SwitchWeight(m, j, i);
          case Crossing => SwitchWeight(m, j, i);
          case Forking(added) => if added { OwnWeight(m, j, i); } else { ForkWeight(m, j, i, cap); }
          case _ => OwnWeight(m, j, i);
        }
      case _ => CallWeight(m, e, j, i);
    }
  }

  lemma StepKeepsCheap(m: Machine, e: Event, cap: int)
    requires Inv(m) && Enabled(m, e) && Cheap(m, cap)
    ensures Cheap(Step(m, e), cap)
  {
    assert forall i :: 0 <= i < |m.s.tasks| ==> Step(m, e).s.tasks[i].priority == m.s.tasks[i].priority;
  }

  // While `j` waits, the potential never rises but by a fork, and every turn lowers it.
  lemma StepPays(m: Machine, e: Event, j: nat, cap: int)
    requires Waiting(m, j) && Enabled(m, e) && Cheap(m, cap) && Step(m, e).s.current != j
    ensures Waiting(Step(m, e), j) && Cheap(Step(m, e), cap)
    ensures |Step(m, e).s.tasks| == |m.s.tasks| + (if AddsTask(m, e) then 1 else 0)
    ensures Potential(Step(m, e), j) <= Potential(m, j)
      + (if AddsTask(m, e) then 2 * cap else 0) - (if Turn(m, e) then 1 else 0)
  {
    var n, k := Step(m, e), |m.s.tasks|;
    StepKeeps(m, e);
    StepKeepsCheap(m, e, cap);
    StepWeight(m, e, j, m.cpu, cap);
    assert Shaped(m) && Shaped(n);
    hide Step, Inv, Cheap, Weight, Enabled, Top, Runnable, Turn, AddsTask;
    var before, after := Weights(m, j), Weights(n, j);
    forall i | 0 <= i < k
      ensures after[i] <= before[i] - if Turn(m, e) && i == m.cpu then 1 else 0
    {
      StepWeight(m, e, j, i, cap);
      assert WeightFalls(m, e, n, j, i);
    }
    SumFalls(before, after, m.cpu, Turn(m, e));
  }

  // The sum of a row that falls everywhere, with the entries added at the end.
  lemma SumFalls(before: seq<int>, after: seq<int>, cpu: nat, turn: bool)
    requires cpu < |before| <= |after| <= |before| + 1
    requires forall i :: 0 <= i < |before| ==> after[i] <= before[i] - if turn && i == cpu then 1 else 0
    ensures Fairness.Sum(after) <= Fairness.Sum(before)
      + (if |after| > |before| then after[|before|] else 0) - (if turn then 1 else 0)
  {
    var k := |before|;
    Fairness.SumOrder(after[..k], before);
    assert turn ==> after[..k][cpu] < before[cpu];
    if |after| > k {
      assert after == after[..k] + [after[k]];
      Fairness.SumAppend(after[..k], after[k]);
    } else {
      assert after == after[..k];
    }
  }

  // ----- Runs -----

  // `j` is `current` at some point of the run.
  ghost predicate Selected(m: Machine, es: seq<Event>, j: nat)
    requires Legal(m, es)
    decreases |es|
  {
    m.s.current == j || (es != [] && Selected(Step(m, es[0]), es[1..], j))
  }

  ghost function Turns(m: Machine, es: seq<Event>): nat
    requires Legal(m, es)
    decreases |es|
  {
    if es == [] then 0 else (if Turn(m, es[0]) then 1 else 0) + Turns(Step(m, es[0]), es[1..])
  }

  // The tasks that copy_process adds in the run.
  ghost function Forks(m: Machine, es: seq<Event>): nat
    requires Legal(m, es)
    decreases |es|
  {
    if es == [] then 0 else (if AddsTask(m, es[0]) then 1 else 0) + Forks(Step(m, es[0]), es[1..])
  }

  lemma PotentialNotNegative(m: Machine, j: nat)
    requires Inv(m) && j < |m.s.tasks|
    ensures Potential(m, j) >= 0
  {
    var zero := seq(|m.s.tasks|, i => 0);
    Fairness.SumZero(zero);
    forall i | 0 <= i < |m.s.tasks|
      ensures Weights(m, j)[i] >= zero[i]
    {
      assert Sound(m, i);
    }
    Fairness.SumOrder(zero, Weights(m, j));
  }

  lemma {:induction false} WaitIsPaidFor(m: Machine, es: seq<Event>, j: nat, cap: int)
    requires Waiting(m, j) && Legal(m, es) && Cheap(m, cap) && !Selected(m, es, j)
    ensures Turns(m, es) <= Potential(m, j) + 2 * cap * Forks(m, es)
    ensures Forks(m, es) <= NR_TASKS - |m.s.tasks|
    decreases |es|
  {
    hide Step, Cheap, Potential, Turn, AddsTask;
    if es == [] {
      PotentialNotNegative(m, j);
    } else {
      var n := Step(m, es[0]);
      assert n.s.current != j;
      StepPays(m, es[0], j, cap);
      WaitIsPaidFor(n, es[1..], j, cap);
      Fairness.Distribute(2 * cap, if AddsTask(m, es[0]) then 1 else 0, Forks(n, es[1..]));
    }
  }

  // ----- The bound in terms of counters and priorities -----

  // The counters of the others, where a task that still returns without being chosen counts at least 1.
  ghost function CountersOfOthers(m: Machine, j: nat): (w: seq<int>)
    requires Shaped(m)
    ensures |w| == |m.s.tasks|
  {
    seq(|m.s.tasks|, i requires 0 <= i < |m.s.tasks| => if Other(m, j, i) then Left(m, i) else 0)
  }

  ghost function PrioritiesOfOthers(m: Machine, j: nat): (w: seq<int>)
    ensures |w| == |m.s.tasks|
  {
    seq(|m.s.tasks|, i requires 0 <= i < |m.s.tasks| => if Other(m, j, i) then m.s.tasks[i].priority else 0)
  }

  // What the others can make `j` wait: their counters and, unless the processor is just refilling, their
  // priorities once.
  ghost function LongestWait(m: Machine, j: nat): int
    requires Shaped(m) && j < |m.s.tasks|
  {
    var c, p := Fairness.Sum(CountersOfOthers(m, j)), Fairness.Sum(PrioritiesOfOthers(m, j));
    c + p + if Top(m, m.cpu).Refilling? then p else 0
  }

  lemma PotentialBound(m: Machine, j: nat)
    requires Inv(m) && j < |m.s.tasks|
    ensures Potential(m, j) <= LongestWait(m, j)
  {
    var n, a, b := |m.s.tasks|, CountersOfOthers(m, j), PrioritiesOfOthers(m, j);
    var c := seq(n, i requires 0 <= i < n => a[i] + b[i]);
    Fairness.SumPlus(a, b, c);
    var d := seq(n, i requires 0 <= i < n => c[i] + if Top(m, m.cpu).Refilling? then b[i] else 0);
    if Top(m, m.cpu).Refilling? {
      Fairness.SumPlus(c, b, d);
    } else {
      assert d == c;
    }
    forall i | 0 <= i < n
      ensures Weights(m, j)[i] <= d[i]
    {
      assert Sound(m, i);
    }
    Fairness.SumOrder(Weights(m, j), d);
  }

  // No starvation, however the ticks fall: a runnable task that owes no ticks is selected before the
  // others have had more turns than their counters and priorities and twice the largest priority per
  // fork add up to; there are at most 63 forks. Ticks that hit the kernel's own code are not counted.
  lemma NoStarvation(m: Machine, es: seq<Event>, j: nat, cap: nat)
    requires Waiting(m, j) && Legal(m, es) && Cheap(m, cap)
    ensures Turns(m, es) > LongestWait(m, j) + 2 * cap * Forks(m, es) ==> Selected(m, es, j)
    ensures Turns(m, es) > LongestWait(m, j) + 2 * cap * 63 ==> Selected(m, es, j)
  {
    PotentialBound(m, j);
    if !Selected(m, es, j) {
      WaitIsPaidFor(m, es, j, cap);
      Fairness.MoreForksMoreTime(Forks(m, es), 63, cap);
    }
  }
}
