// What holds over every run of the scheduler in which a scheduling call is one step: zombies stay off the
// processor, and no runnable task starves. Starvation.dfy has ticks inside scheduling calls too.
module Fairness {
  import opened Limits
  import opened Scheduler
  import opened SchedulerRuns

  // ----- One tick or yield -----

  // The state in which a tick or yield calls `_schedule`.
  function Expired(s: State): State
    requires s.current < |s.tasks|
  {
    WithCounter(s, 0)
  }

  predicate CallsSchedule(s: State, e: Event)
    requires s.current < |s.tasks|
  {
    e == Yield || (e == Tick && Current(s).counter <= 1)
  }

  lemma StepDecides(s: State, e: Event)
    requires Inv(s) && (e == Tick || e == Yield)
    ensures if CallsSchedule(s, e) then Decides(Expired(s), Step(s, e))
            else Step(s, e) == WithCounter(s, Current(s).counter - 1)
  {
    assert TaskInv(s, s.current);
    InvIsValid(s);
    if CallsSchedule(s, e) {
      WithCounterReady(s, 0);
      ScheduleDecides(Expired(s));
    }
  }

  // ----- Zombies -----

  ghost predicate Gone(s: State, j: nat) {
    j < |s.tasks| && s.tasks[j].state == Zombie && j != s.current
  }

  lemma ZombieStep(s: State, e: Event, j: nat)
    requires Inv(s) && Enabled(s, e) && Gone(s, j)
    ensures Gone(Step(s, e), j)
  {
    if e == Tick || e == Yield {
      StepDecides(s, e);
      var t := Step(s, e);
      if CallsSchedule(s, e) {
        assert SlotAfter(Expired(s), t, Refills(Expired(s)), j);
        assert SlotAfter(Expired(s), t, Refills(Expired(s)), 0);
      }
    }
  }

  // A task other than init that has exited and been switched away from is never current again.
  lemma {:induction false} ZombieNeverRuns(s: State, es: seq<Event>, j: nat)
    requires Inv(s) && Legal(s, es) && Gone(s, j)
    ensures Gone(After(s, es), j)
    decreases |es|
  {
    if es == [] {
    } else {
      ZombieStep(s, es[0], j);
      ZombieNeverRuns(Step(s, es[0]), es[1..], j);
    }
  }

  // ----- Sums over the task array -----

  function Sum(w: seq<int>): int {
    if w == [] then 0 else w[0] + Sum(w[1..])
  }

  lemma {:induction false} SumOrder(a: seq<int>, b: seq<int>)
    requires |a| == |b| && forall i :: 0 <= i < |a| ==> a[i] <= b[i]
    ensures Sum(a) <= Sum(b)
    ensures (exists i :: 0 <= i < |a| && a[i] < b[i]) ==> Sum(a) < Sum(b)
  {
    if a == [] {
    } else {
      SumOrder(a[1..], b[1..]);
      if i :| 0 < i < |a| && a[i] < b[i] {
        assert a[1..][i - 1] < b[1..][i - 1];
      }
    }
  }

  lemma {:induction false} SumAppend(a: seq<int>, x: int)
    ensures Sum(a + [x]) == Sum(a) + x
  {
    if a == [] {
      assert a + [x] == [x];
    } else {
      assert (a + [x])[1..] == a[1..] + [x];
      SumAppend(a[1..], x);
    }
  }

  // ----- The potential -----

  // Slot `i` is not `j` and can still use the processor.
  predicate Other(s: State, j: nat, i: nat)
    requires i < |s.tasks|
  {
    i != j && (s.tasks[i].state == Running || i == s.current)
  }

  // The turns that slot `i` can still take before it is out: its counter, and one for a current task
  // whose counter ticks have run down while it held preemption off.
  function Left(s: State, i: nat): nat
    requires i < |s.tasks|
  {
    if s.tasks[i].counter > 0 then s.tasks[i].counter else if i == s.current then 1 else 0
  }

  // What slot `i` can still make task `j` wait: what it has left, and if `j` has
  // nothing left also the priority that the next refill adds to it.
  function Weight(s: State, j: nat, i: nat): int
    requires i < |s.tasks| && j < |s.tasks|
  {
    if !Other(s, j, i) then 0
    else Left(s, i) + if s.tasks[j].counter == 0 then s.tasks[i].priority else 0
  }

  function Weights(s: State, j: nat): seq<int>
    requires j < |s.tasks|
  {
    seq(|s.tasks|, i requires 0 <= i < |s.tasks| => Weight(s, j, i))
  }

  function Potential(s: State, j: nat): int
    requires j < |s.tasks|
  {
    Sum(Weights(s, j))
  }

  // `j` is runnable, not current, and owes no ticks.
  ghost predicate Waiting(s: State, j: nat) {
    Inv(s) && Runnable(s.tasks, j) && j != s.current && s.tasks[j].counter >= 0
  }

  predicate Cheap(s: State, cap: int) {
    forall i :: 0 <= i < |s.tasks| ==> s.tasks[i].priority <= cap
  }

  lemma PotentialPositive(s: State, j: nat)
    requires Waiting(s, j)
    ensures Potential(s, j) >= 1
  {
    var zero := seq(|s.tasks|, i => 0);
    SumZero(zero);
    forall i | 0 <= i < |s.tasks|
      ensures Weights(s, j)[i] >= 0
    {
      assert TaskInv(s, i);
    }
    assert Weights(s, j)[s.current] > zero[s.current] by {
      assert TaskInv(s, s.current);
    }
    SumOrder(zero, Weights(s, j));
  }

  lemma {:induction false} SumZero(a: seq<int>)
    requires forall i :: 0 <= i < |a| ==> a[i] == 0
    ensures Sum(a) == 0
  {
    if a == [] {
    } else {
      SumZero(a[1..]);
    }
  }

  // A tick or a yield that does not hand the processor to `j` lowers the potential.
  lemma TurnLowersPotential(s: State, e: Event, j: nat)
    requires Waiting(s, j) && (e == Tick || e == Yield) && Step(s, e).current != j
    ensures Waiting(Step(s, e), j) && Potential(Step(s, e), j) < Potential(s, j)
  {
    var t := Step(s, e);
    StepDecides(s, e);
    hide Step, Inv;
    assert Inv(s);
    var wt, ws := Weights(t, j), Weights(s, j);
    if CallsSchedule(s, e) {
      var x := Expired(s);
      assert Decides(x, t);
      DecideLowersWeights(s, t, j);
    } else {
      assert forall i :: Runnable(t.tasks, i) <==> Runnable(s.tasks, i);
      assert wt[s.current] < ws[s.current];
    }
    SumOrder(wt, ws);
  }

  // A tick that finds preemption held off does not raise it.
  lemma HeldTickKeepsPotential(s: State, j: nat)
    requires Waiting(s, j)
    ensures Waiting(Step(s, HeldTick), j) && Potential(Step(s, HeldTick), j) <= Potential(s, j)
  {
    var t := Step(s, HeldTick);
    assert t == WithCounter(s, Current(s).counter - 1);
    assert Runnable(t.tasks, j);
    SumOrder(Weights(t, j), Weights(s, j));
  }

  lemma DecideLowersWeights(s: State, t: State, j: nat)
    requires Waiting(s, j) && Decides(Expired(s), t) && t.current != j && Inv(t)
    ensures Waiting(t, j)
    ensures forall i :: 0 <= i < |s.tasks| ==> Weights(t, j)[i] <= Weights(s, j)[i]
    ensures Weights(t, j)[s.current] < Weights(s, j)[s.current]
  {
    var x := Expired(s);
    assert Runnable(x.tasks, j) && x.tasks[j].counter >= 0;
    assert Selects(t.tasks, Current(t).counter, t.current);
    forall i | 0 <= i < |s.tasks|
      ensures Weight(t, j, i) <= Weight(s, j, i) && (i == s.current ==> Weight(t, j, i) < Weight(s, j, i))
    {
      assert TaskInv(s, i) && TaskInv(s, j);
      assert SlotAfter(x, t, Refills(x), i) && SlotAfter(x, t, Refills(x), j);
      assert Runnable(t.tasks, t.current);
      if Refills(x) {
        assert !(Runnable(x.tasks, i) && x.tasks[i].counter > 0);
        assert !(Runnable(x.tasks, j) && x.tasks[j].counter > 0);
      }
    }
    assert SlotAfter(x, t, Refills(x), j) && TaskInv(s, j) && SlotAfter(x, t, Refills(x), s.current);
  }

  // A fork adds one task, whose counter and priority are its parent's priority.
  lemma ForkRaisesPotential(s: State, j: nat, cap: int)
    requires Waiting(s, j) && Enabled(s, Fork) && Cheap(s, cap)
    ensures Waiting(Step(s, Fork), j) && Cheap(Step(s, Fork), cap)
    ensures Potential(Step(s, Fork), j) <= Potential(s, j) + 2 * cap
  {
    var t := Step(s, Fork);
    assert t == AddChild(s);
    var n := |s.tasks|;
    assert Runnable(t.tasks, j);
    assert forall i :: Runnable(t.tasks, i) ==> i == n || Runnable(s.tasks, i);
    assert TaskInv(s, s.current);
    assert Weights(t, j) == Weights(s, j) + [Weight(t, j, n)];
    SumAppend(Weights(s, j), Weight(t, j, n));
  }

  lemma DieKeepsPotential(s: State, j: nat)
    requires Waiting(s, j) && Enabled(s, Die)
    ensures Waiting(Step(s, Die), j) && Potential(Step(s, Die), j) == Potential(s, j)
  {
    var t := Step(s, Die);
    assert t == MarkZombie(s);
    assert Runnable(t.tasks, j);
    assert forall i :: Runnable(t.tasks, i) ==> Runnable(s.tasks, i);
    assert Weights(t, j) == Weights(s, j);
  }

  // ----- Runs -----

  predicate NoHeldTick(es: seq<Event>) {
    HeldTick !in es
  }

  function Turns(es: seq<Event>): nat {
    if es == [] then 0 else (if es[0] == Tick || es[0] == Yield then 1 else 0) + Turns(es[1..])
  }

  function Forks(es: seq<Event>): nat {
    if es == [] then 0 else (if es[0] == Fork then 1 else 0) + Forks(es[1..])
  }

  // `j` is current at some point of the run.
  predicate Runs(s: State, es: seq<Event>, j: nat)
    requires Inv(s) && Legal(s, es)
    decreases |es|
  {
    s.current == j || (es != [] && Runs(Step(s, es[0]), es[1..], j))
  }

  // One step of a run in which `j` keeps waiting, and what it does to the potential.
  lemma StepPays(s: State, e: Event, j: nat, cap: int)
    requires Waiting(s, j) && Enabled(s, e) && Cheap(s, cap)
    requires Step(s, e).current != j
    ensures var t := Step(s, e);
            && Waiting(t, j) && Cheap(t, cap)
            && Potential(t, j) <= Potential(s, j) + (if e == Fork then 2 * cap else 0) - Turns([e])
            && |t.tasks| == |s.tasks| + Forks([e])
  {
    match e {
      case Fork => ForkRaisesPotential(s, j, cap);
      case Die => DieKeepsPotential(s, j); CheapStep(s, e, cap);
      case HeldTick => HeldTickKeepsPotential(s, j); CheapStep(s, e, cap);
      case _ => TurnLowersPotential(s, e, j); CheapStep(s, e, cap);
    }
  }

  lemma {:induction false} WaitIsPaidFor(s: State, es: seq<Event>, j: nat, cap: int)
    requires Waiting(s, j) && Legal(s, es) && Cheap(s, cap)
    requires !Runs(s, es, j)
    ensures Turns(es) < Potential(s, j) + ForkAllowance(es, 2 * cap)
    ensures Forks(es) <= NR_TASKS - |s.tasks|
    decreases |es|
  {
    hide Step, Cheap, Potential;
    if es == [] {
      PotentialPositive(s, j);
    } else {
      StepPays(s, es[0], j, cap);
      WaitIsPaidFor(Step(s, es[0]), es[1..], j, cap);
    }
  }

  // `d` for every fork of the run.
  function ForkAllowance(es: seq<Event>, d: int): int {
    if es == [] then 0 else (if es[0] == Fork then d else 0) + ForkAllowance(es[1..], d)
  }

  lemma {:induction false} ForkAllowanceIs(es: seq<Event>, d: int)
    ensures ForkAllowance(es, d) == d * Forks(es)
  {
    if es == [] {
    } else {
      ForkAllowanceIs(es[1..], d);
      Distribute(d, if es[0] == Fork then 1 else 0, Forks(es[1..]));
    }
  }

  lemma Distribute(a: int, b: int, c: int)
    ensures a * (b + c) == a * b + a * c
  {
  }

  lemma CheapStep(s: State, e: Event, cap: int)
    requires Inv(s) && Enabled(s, e) && Cheap(s, cap)
    ensures Cheap(Step(s, e), cap)
    ensures e != Fork ==> |Step(s, e).tasks| == |s.tasks|
  {
    if e == Tick || e == Yield {
      StepDecides(s, e);
      if CallsSchedule(s, e) {
        forall i | 0 <= i < |s.tasks|
          ensures Step(s, e).tasks[i].priority <= cap
        {
          assert SlotAfter(Expired(s), Step(s, e), Refills(Expired(s)), i);
        }
      }
    }
  }

  // ----- The bound in terms of counters and priorities -----

  // The counters of the others, the current one's counted as at least 1.
  function CountersOfOthers(s: State, j: nat): seq<int> {
    seq(|s.tasks|, i requires 0 <= i < |s.tasks| => if Other(s, j, i) then Left(s, i) else 0)
  }

  function PrioritiesOfOthers(s: State, j: nat): seq<int> {
    seq(|s.tasks|, i requires 0 <= i < |s.tasks| => if Other(s, j, i) then s.tasks[i].priority else 0)
  }

  lemma {:induction false} SumPlus(a: seq<int>, b: seq<int>, c: seq<int>)
    requires |a| == |b| == |c| && forall i :: 0 <= i < |a| ==> a[i] + b[i] == c[i]
    ensures Sum(a) + Sum(b) == Sum(c)
  {
    if a == [] {
    } else {
      SumPlus(a[1..], b[1..], c[1..]);
    }
  }

  lemma PotentialBound(s: State, j: nat)
    requires Inv(s) && j < |s.tasks|
    ensures Potential(s, j) <= Sum(CountersOfOthers(s, j)) + Sum(PrioritiesOfOthers(s, j))
  {
    var n, a, b := |s.tasks|, CountersOfOthers(s, j), PrioritiesOfOthers(s, j);
    var c := seq(n, i requires 0 <= i < n => a[i] + b[i]);
    SumPlus(a, b, c);
    forall i | 0 <= i < n
      ensures Weights(s, j)[i] <= c[i]
    {
      assert TaskInv(s, i);
    }
    SumOrder(Weights(s, j), c);
  }

  // No starvation: a waiting task is selected within as many ticks and yields
  // as the sum of the other tasks' counters and priorities, plus twice the
  // largest priority for every fork; there are at most 63 forks in a run. Ticks
  // that find preemption held off may come between scheduling calls, and are not counted.
  lemma NoStarvation(s: State, es: seq<Event>, j: nat, cap: nat)
    requires Waiting(s, j) && Legal(s, es) && Cheap(s, cap)
    ensures var wait := Sum(CountersOfOthers(s, j)) + Sum(PrioritiesOfOthers(s, j));
            && (Turns(es) >= wait + 2 * cap * Forks(es) ==> Runs(s, es, j))
            && (Turns(es) >= wait + 2 * cap * 63 ==> Runs(s, es, j))
  {
    PotentialBound(s, j);
    if !Runs(s, es, j) {
      WaitIsPaidFor(s, es, j, cap);
      ForkAllowanceIs(es, 2 * cap);
      MoreForksMoreTime(Forks(es), 63, cap);
    }
  }

  lemma MoreForksMoreTime(f: nat, g: nat, cap: nat)
    requires f <= g
    ensures 2 * cap * f <= 2 * cap * g
  {
  }

  // ----- From boot -----

  // Only the current task can have a negative counter.
  ghost predicate Solvent(s: State) {
    forall i :: 0 <= i < |s.tasks| && i != s.current ==> s.tasks[i].counter >= 0
  }

  lemma SolventStep(s: State, e: Event, cap: int)
    requires Inv(s) && Solvent(s) && Enabled(s, e) && Cheap(s, cap)
    ensures Solvent(Step(s, e)) && Cheap(Step(s, e), cap)
  {
    var t := Step(s, e);
    if e == Fork {
      assert t == AddChild(s);
      assert TaskInv(s, s.current);
    } else {
      CheapStep(s, e, cap);
    }
    if e == Tick || e == Yield {
      StepDecides(s, e);
      if CallsSchedule(s, e) {
        forall i | 0 <= i < |t.tasks|
          ensures t.tasks[i].counter >= 0
        {
          assert SlotAfter(Expired(s), t, Refills(Expired(s)), i) && TaskInv(s, i);
        }
      }
    }
  }

  lemma {:induction false} SolventRun(s: State, es: seq<Event>, cap: int)
    requires Inv(s) && Legal(s, es) && Solvent(s) && Cheap(s, cap)
    ensures Solvent(After(s, es)) && Cheap(After(s, es), cap)
    decreases |es|
  {
    if es == [] {
    } else {
      SolventStep(s, es[0], cap);
      SolventRun(Step(s, es[0]), es[1..], cap);
    }
  }

  // In the kernel as it boots: at any point of any such run, every runnable task is selected within the
  // ticks and yields that the others' counters and priorities and 30 per fork add up to.
  lemma EveryWaitEnds(before: seq<Event>, es: seq<Event>, j: nat)
    requires Inv(Boot()) && Legal(Boot(), before) && Runnable(After(Boot(), before).tasks, j)
    requires Legal(After(Boot(), before), es)
    ensures var s := After(Boot(), before);
            var wait := Sum(CountersOfOthers(s, j)) + Sum(PrioritiesOfOthers(s, j));
            Turns(es) >= wait + 30 * Forks(es) ==> Runs(s, es, j)
  {
    SolventRun(Boot(), before, 15);
    var s := After(Boot(), before);
    if j != s.current {
      NoStarvation(s, es, j, 15);
    }
  }

  ghost predicate NoDebt(s: State) {
    forall i :: 0 <= i < |s.tasks| ==> s.tasks[i].counter >= 0
  }

  // Without held ticks no counter is ever negative.
  lemma {:induction false} CountersStayNonNegative(s: State, es: seq<Event>)
    requires Inv(s) && Legal(s, es) && NoHeldTick(es) && NoDebt(s)
    ensures NoDebt(After(s, es))
    decreases |es|
  {
    if es == [] {
    } else {
      var e, t := es[0], Step(s, es[0]);
      assert TaskInv(s, s.current);
      if e == Tick || e == Yield {
        StepDecides(s, e);
        if CallsSchedule(s, e) {
          forall i | 0 <= i < |t.tasks|
            ensures t.tasks[i].counter >= 0
          {
            assert SlotAfter(Expired(s), t, Refills(Expired(s)), i) && TaskInv(s, i);
          }
        }
      }
      assert e != HeldTick;
      CountersStayNonNegative(t, es[1..]);
    }
  }
}
