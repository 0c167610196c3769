// Proportional share: between two refills a task that keeps running gets as many ticks as its priority says.
module TickShare {
  import opened Scheduler
  import opened SchedulerRuns
  import opened Fairness

  ghost predicate RefillStep(s: State, e: Event)
    requires s.current < |s.tasks|
  {
    CallsSchedule(s, e) && Refills(Expired(s))
  }

  // Event `e` is a tick that `j` is charged for.
  predicate Charged(s: State, e: Event, j: nat) {
    s.current == j && (e == Tick || e == HeldTick)
  }

  // The ticks of a run that find `j` current.
  function TicksOf(s: State, es: seq<Event>, j: nat): nat
    requires Inv(s) && Legal(s, es)
    decreases |es|
  {
    if es == [] then 0
    else (if Charged(s, es[0], j) then 1 else 0) + TicksOf(Step(s, es[0]), es[1..], j)
  }

  // While `j` is current it does not yield, exit or hold a tick off, and nothing in the run refills.
  ghost predicate Undisturbed(s: State, es: seq<Event>, j: nat)
    requires Inv(s) && Legal(s, es)
    decreases |es|
  {
    es == [] || (Quiet(s, es[0], j) && Undisturbed(Step(s, es[0]), es[1..], j))
  }

  ghost predicate Quiet(s: State, e: Event, j: nat)
    requires s.current < |s.tasks|
  {
    !RefillStep(s, e) && (s.current == j ==> e == Tick || e == Fork)
  }

  ghost predicate Holding(s: State, j: nat) {
    && Inv(s) && Runnable(s.tasks, j)
    && s.tasks[j].counter >= 0
    && (s.current == j ==> s.tasks[j].counter > 0)
  }

  lemma TickTakesOne(s: State, e: Event, j: nat)
    requires Holding(s, j) && Enabled(s, e) && Quiet(s, e, j)
    ensures Holding(Step(s, e), j)
    ensures s.tasks[j].counter == Step(s, e).tasks[j].counter + if Charged(s, e, j) then 1 else 0
  {
    if e == Tick || e == Yield {
      StepDecides(s, e);
      var x, t := Expired(s), Step(s, e);
      if CallsSchedule(s, e) {
        assert Runnable(x.tasks, j) && x.tasks[j].counter >= 0;
        assert SlotAfter(x, t, Refills(x), j);
      }
    }
  }

  lemma {:induction false} CounterPaysTicks(s: State, es: seq<Event>, j: nat)
    requires Holding(s, j) && Legal(s, es) && Undisturbed(s, es, j)
    ensures Holding(After(s, es), j)
    ensures s.tasks[j].counter == After(s, es).tasks[j].counter + TicksOf(s, es, j)
    decreases |es|
  {
    if es == [] {
    } else {
      TickTakesOne(s, es[0], j);
      CounterPaysTicks(Step(s, es[0]), es[1..], j);
    }
  }

  // At a refill every runnable counter that is not negative is exactly 0.
  lemma RefillAtZero(s: State, e: Event, j: nat)
    requires Inv(s) && RefillStep(s, e) && Runnable(s.tasks, j) && s.tasks[j].counter >= 0
    ensures Expired(s).tasks[j].counter == 0
    ensures Step(s, e).tasks[j].counter == s.tasks[j].priority && Holding(Step(s, e), j)
  {
    StepDecides(s, e);
    var x, t := Expired(s), Step(s, e);
    assert Runnable(x.tasks, j);
    assert SlotAfter(x, t, Refills(x), j);
    assert TaskInv(s, j);
  }

  // Event `first` refills, and so does the tick or yield `last` that comes after
  // the undisturbed run `es`: the ticks charged to `j` from the one refill up to
  // and including the tick that brings the next are exactly its priority.
  lemma ProportionalShare(s: State, first: Event, es: seq<Event>, last: Event, j: nat)
    requires Inv(s) && RefillStep(s, first) && Runnable(s.tasks, j) && s.tasks[j].counter >= 0
    requires Legal(Step(s, first), es) && Undisturbed(Step(s, first), es, j)
    requires var u := After(Step(s, first), es); RefillStep(u, last) && (u.current == j ==> last == Tick)
    ensures var t := Step(s, first);
            TicksOf(t, es, j) + (if Charged(After(t, es), last, j) then 1 else 0) == s.tasks[j].priority
  {
    RefillAtZero(s, first, j);
    CounterPaysTicks(Step(s, first), es, j);
    RefillAtZero(After(Step(s, first), es), last, j);
  }
}
