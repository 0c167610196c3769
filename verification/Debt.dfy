// Starvation by debt: a tick that falls into the scan of `_schedule` takes one off the counter of the
// task that scans, and it may leave the processor with a negative counter. Such a task can wait for
// ever; whether a task off the processor is always served depends on the sign of its counter alone.
module Debt {
  import opened Scheduler
  import opened Preemption
  import opened Starvation
  import SchedulerRuns
  import AtomicRuns

  // A legal run from m to n.
  ghost predicate Leads(m: Machine, es: seq<Event>, n: Machine) {
    Legal(m, es) && After(m, es) == n
  }

  lemma StepFirst(m: Machine, e: Event, es: seq<Event>, n: Machine)
    requires Shaped(m) && Enabled(m, e) && Leads(Step(m, e), es, n)
    ensures Leads(m, [e] + es, n)
    ensures Turns(m, [e] + es) == (if Turn(m, e) then 1 else 0) + Turns(Step(m, e), es)
    ensures forall j :: Selected(m, [e] + es, j) <==> m.s.current == j || Selected(Step(m, e), es, j)
  {
    hide Step;
    assert ([e] + es)[1..] == es;
  }

  lemma {:induction false} RunThenRun(m: Machine, es: seq<Event>, n: Machine, fs: seq<Event>, o: Machine)
    requires Leads(m, es, n) && Leads(n, fs, o)
    ensures Leads(m, es + fs, o) && Turns(m, es + fs) == Turns(m, es) + Turns(n, fs)
    ensures forall j :: Selected(m, es + fs, j) <==> Selected(m, es, j) || Selected(n, fs, j)
    decreases |es|
  {
    hide Step, Turn;
    if es == [] {
      assert es + fs == fs;
    } else {
      assert (es + fs)[1..] == es[1..] + fs;
      RunThenRun(Step(m, es[0]), es[1..], n, fs, o);
    }
  }

  lemma LeadsOn(m: Machine, es: seq<Event>, n: Machine, fs: seq<Event>, o: Machine)
    requires Leads(m, es, n) && Leads(n, fs, o)
    ensures Leads(m, es + fs, o)
  {
    RunThenRun(m, es, n, fs, o);
  }

  // ----- Two tasks -----

  // Task `me` is on the processor, with its stack; u is the other one.
  function On(me: nat, t: Task, stack: seq<Frame>, u: Task, other: seq<Frame>): Machine {
    if me == 0 then Machine(State([t, u], 0), [stack, other], 0)
    else Machine(State([u, t], 1), [other, stack], 1)
  }

  lemma OnChanges(me: nat, t: Task, f: Frame, u: Task, other: seq<Frame>, t': Task, g: Frame)
    requires me <= 1 && other != []
    ensures var m := On(me, t, [Own, f], u, other);
      && Shaped(m) && Top(m, me) == f && Current(m.s) == t
      && Become(m, g) == On(me, t, [Own, g], u, other)
      && Become(m.(s := WithCurrent(m.s, t')), g) == On(me, t', [Own, g], u, other)
      && m.(s := WithCurrent(m.s, t')) == On(me, t', [Own, f], u, other)
      && Pop(m.(s := WithCurrent(m.s, t'))) == On(me, t', [Own], u, other)
    ensures var m := On(me, t, [Own], u, other);
      && Shaped(m) && Top(m, me) == Own && Current(m.s) == t
      && Push(m.(s := WithCurrent(m.s, t')), g) == On(me, t', [Own, g], u, other)
  {
    assert [Own, f][1 := g] == [Own, g] && [Own] + [g] == [Own, g] && [Own, f][..1] == [Own];
  }

  // A running task of the priority all tasks inherit from init.
  function T(counter: int, preempt: int): Task {
    Task(Running, counter, 15, preempt)
  }

  function Ticks(k: nat): seq<Event> {
    seq(k, _ => Tick)
  }

  function Runs(k: nat): seq<Event> {
    if k == 0 then [] else [Run] + Runs(k - 1)
  }

  const ScanStart := Scanning(0, -1, 0)

  // A run in which j is not selected, with the given number of turns.
  ghost predicate PassesBy(m: Machine, es: seq<Event>, n: Machine, turns: nat, j: nat) {
    Leads(m, es, n) && Turns(m, es) == turns && !Selected(m, es, j)
  }

  lemma OneRun(m: Machine, e: Event, n: Machine, es: seq<Event>, o: Machine, turns: nat, j: nat)
    requires Shaped(m) && Enabled(m, e) && Step(m, e) == n && PassesBy(n, es, o, turns, j) && m.s.current != j
    ensures PassesBy(m, [e] + es, o, turns + (if Turn(m, e) then 1 else 0), j)
  {
    StepFirst(m, e, es, o);
  }

  lemma PassesOn(m: Machine, es: seq<Event>, n: Machine, t: nat, fs: seq<Event>, o: Machine, u: nat, j: nat)
    requires PassesBy(m, es, n, t, j) && PassesBy(n, fs, o, u, j)
    ensures PassesBy(m, es + fs, o, t + u, j)
  {
    RunThenRun(m, es, n, fs, o);
  }

  lemma NoRun(m: Machine, j: nat)
    requires m.s.current != j
    ensures PassesBy(m, [], m, 0, j)
  {
  }

  // schedule() up to the start of its scan.
  lemma CallsScan(me: nat, c: int, u: Task, other: seq<Frame>, j: nat)
    requires me <= 1 && other != [] && j != me
    ensures PassesBy(On(me, T(c, 0), [Own], u, other), [CallSchedule] + ([Run] + []),
                     On(me, T(0, 1), [Own, ScanStart], u, other), 1, j)
  {
    var m0, m1 := On(me, T(c, 0), [Own], u, other), On(me, T(0, 0), [Own, Enter], u, other);
    var m2 := On(me, T(0, 1), [Own, ScanStart], u, other);
    OnChanges(me, T(c, 0), Enter, u, other, T(0, 0), Enter);
    OnChanges(me, T(0, 0), Enter, u, other, T(0, 1), ScanStart);
    assert Step(m0, CallSchedule) == m1 && Step(m1, Run) == m2;
    hide Step, PassesBy, On;
    assert m0.s.current == m1.s.current == m2.s.current == me by { OnPlace(me, T(0, 0), [Own], u, other); }
    NoRun(m2, j);
    OneRun(m1, Run, m2, [], m2, 0, j);
    OneRun(m0, CallSchedule, m1, [Run] + [], m2, 0, j);
  }

  // Ticks that hit the scan before it has read any slot.
  lemma {:induction false} TicksInScan(me: nat, c: int, k: nat, u: Task, other: seq<Frame>, j: nat)
    requires me <= 1 && other != [] && j != me
    ensures PassesBy(On(me, T(c, 1), [Own, ScanStart], u, other), Ticks(k),
                     On(me, T(c - k, 1), [Own, ScanStart], u, other), 0, j)
    decreases k
  {
    var m, n := On(me, T(c, 1), [Own, ScanStart], u, other), On(me, T(c - 1, 1), [Own, ScanStart], u, other);
    if k == 0 {
      NoRun(m, j);
    } else {
      OnChanges(me, T(c, 1), ScanStart, u, other, T(c - 1, 1), ScanStart);
      assert Step(m, Tick) == n;
      TicksInScan(me, c - 1, k - 1, u, other, j);
      hide Step, PassesBy;
      OneRun(m, Tick, n, Ticks(k - 1), On(me, T(c - k, 1), [Own, ScanStart], u, other), 0, j);
      assert [Tick] + Ticks(k - 1) == Ticks(k);
    }
  }

  // A scan by init of negative counters only: it selects init itself.
  lemma NobodyElse(d: int, j: nat)
    requires d < 0 && j != 0
    ensures PassesBy(On(0, T(-1, 1), [Own, ScanStart], T(d, 1), [Own, Resuming]), Runs(5), Debtor(d), 0, j)
  {
    var u, other := T(d, 1), [Own, Resuming];
    var m0, m1 := On(0, T(-1, 1), [Own, ScanStart], u, other), On(0, T(-1, 1), [Own, Scanning(1, -1, 0)], u, other);
    var m2 := On(0, T(-1, 1), [Own, Scanning(2, -1, 0)], u, other);
    var m3 := On(0, T(-1, 1), [Own, Switching(-1, 0)], u, other);
    var m4, m5 := On(0, T(-1, 1), [Own, Resuming], u, other), Debtor(d);
    OnChanges(0, T(-1, 1), ScanStart, u, other, T(-1, 1), Scanning(1, -1, 0));
    OnChanges(0, T(-1, 1), Scanning(1, -1, 0), u, other, T(-1, 1), Scanning(2, -1, 0));
    OnChanges(0, T(-1, 1), Scanning(2, -1, 0), u, other, T(-1, 1), Switching(-1, 0));
    OnChanges(0, T(-1, 1), Switching(-1, 0), u, other, T(-1, 1), Resuming);
    OnChanges(0, T(-1, 1), Resuming, u, other, T(-1, 0), Own);
    assert Step(m0, Run) == m1 && Step(m1, Run) == m2 && Step(m2, Run) == m3;
    assert Step(m3, Run) == m4 && Step(m4, Run) == m5;
    hide Step, PassesBy;
    NoRun(m5, j);
    OneRun(m4, Run, m5, Runs(0), m5, 0, j);
    OneRun(m3, Run, m4, Runs(1), m5, 0, j);
    OneRun(m2, Run, m3, Runs(2), m5, 0, j);
    OneRun(m1, Run, m2, Runs(3), m5, 0, j);
    OneRun(m0, Run, m1, Runs(4), m5, 0, j);
  }

  // Init chooses task 1 when that has the only positive counter; task 1 chooses init when no counter is.
  predicate ChoosesOther(me: nat, c: int, x: int) {
    me <= 1 && c < 0 && if me == 0 then 0 < x <= 15 else x < 0
  }

  lemma ScanForOther(me: nat, c: int, x: int, other: seq<Frame>)
    requires ChoosesOther(me, c, x) && other != []
    ensures var best := if me == 0 then x else -1;
      Leads(On(me, T(c, 1), [Own, ScanStart], T(x, 1), other), Runs(3),
            On(me, T(c, 1), [Own, Switching(best, 1 - me)], T(x, 1), other))
  {
    var u, best := T(x, 1), if me == 0 then x else -1;
    var f2 := Scanning(2, best, 1 - me);
    var m0, m1 := On(me, T(c, 1), [Own, ScanStart], u, other), On(me, T(c, 1), [Own, Scanning(1, -1, 0)], u, other);
    var m2, m3 := On(me, T(c, 1), [Own, f2], u, other), On(me, T(c, 1), [Own, Switching(best, 1 - me)], u, other);
    OnChanges(me, T(c, 1), ScanStart, u, other, T(c, 1), Scanning(1, -1, 0));
    OnChanges(me, T(c, 1), Scanning(1, -1, 0), u, other, T(c, 1), f2);
    OnChanges(me, T(c, 1), f2, u, other, T(c, 1), Switching(best, 1 - me));
    assert Step(m0, Run) == m1 && Step(m1, Run) == m2 && Step(m2, Run) == m3;
    ThreeRuns(m0, m1, m2, m3);
  }

  // The two halves of switch_to.
  lemma Switches(me: nat, t: Task, best: int, u: Task, other: seq<Frame>)
    requires me <= 1 && other != []
    ensures var m0 := On(me, t, [Own, Switching(best, 1 - me)], u, other);
      var m1 := On(me, t, [Own, Crossing], u, other).(s := On(1 - me, u, other, t, [Own]).s);
      && Shaped(m0) && Enabled(m0, Run) && Step(m0, Run) == m1
      && Shaped(m1) && Enabled(m1, Run) && Step(m1, Run) == On(1 - me, u, other, t, [Own, Resuming])
  {
    OnChanges(me, t, Switching(best, 1 - me), u, other, t, Crossing);
    OnChanges(me, t, Crossing, u, other, t, Resuming);
  }

  // A task comes back to its own code.
  lemma ComesBack(me: nat, t: Task, f: Frame, u: Task, other: seq<Frame>)
    requires me <= 1 && other != [] && (f == Resuming || f == NewTask)
    ensures var m := On(me, t, [Own, f], u, other);
      Shaped(m) && Enabled(m, Run) && Step(m, Run) == On(me, t.(preempt := t.preempt - 1), [Own], u, other)
  {
    OnChanges(me, t, f, u, other, t.(preempt := t.preempt - 1), Own);
  }

  // switch_to the other task, which comes back to its own code.
  lemma SwitchToOther(me: nat, c: int, best: int, u: Task, g: Frame)
    requires me <= 1 && (g == Resuming || g == NewTask)
    ensures Leads(On(me, T(c, 1), [Own, Switching(best, 1 - me)], u, [Own, g]), Runs(3),
                  On(1 - me, u.(preempt := u.preempt - 1), [Own], T(c, 1), [Own, Resuming]))
  {
    var other, v := [Own, g], u.(preempt := u.preempt - 1);
    var m0 := On(me, T(c, 1), [Own, Switching(best, 1 - me)], u, other);
    var m1 := On(me, T(c, 1), [Own, Crossing], u, other).(s := On(1 - me, u, other, T(c, 1), [Own]).s);
    var m2 := On(1 - me, u, other, T(c, 1), [Own, Resuming]);
    var m3 := On(1 - me, v, [Own], T(c, 1), [Own, Resuming]);
    hide On, Step, Enabled;
    Switches(me, T(c, 1), best, u, other);
    ComesBack(1 - me, u, g, T(c, 1), [Own, Resuming]);
    ThreeRuns(m0, m1, m2, m3);
  }

  lemma ThreeRuns(m0: Machine, m1: Machine, m2: Machine, m3: Machine)
    requires Shaped(m0) && Shaped(m1) && Shaped(m2) && Enabled(m0, Run) && Enabled(m1, Run) && Enabled(m2, Run)
    requires Step(m0, Run) == m1 && Step(m1, Run) == m2 && Step(m2, Run) == m3
    ensures Leads(m0, Runs(3), m3)
  {
    hide Step, Enabled;
    StepFirst(m2, Run, Runs(0), m3);
    StepFirst(m1, Run, Runs(1), m3);
    StepFirst(m0, Run, Runs(2), m3);
  }

  // A whole schedule() with k ticks before its scan has read any slot, which gives the processor to the
  // other task: the caller leaves it with a counter of -k.
  lemma LateTicksLeaveDebt(me: nat, c: int, k: nat, x: int, g: Frame) returns (es: seq<Event>)
    requires ChoosesOther(me, 0 - k, x) && (g == Resuming || g == NewTask)
    ensures Leads(On(me, T(c, 0), [Own], T(x, 1), [Own, g]), es,
                  On(1 - me, T(x, 0), [Own], T(0 - k, 1), [Own, Resuming]))
  {
    hide On, Leads, Turns, Selected, Ticks, Runs;
    var u, other, best := T(x, 1), [Own, g], if me == 0 then x else -1;
    var m0, m1 := On(me, T(c, 0), [Own], u, other), On(me, T(0, 1), [Own, ScanStart], u, other);
    var m2 := On(me, T(0 - k, 1), [Own, ScanStart], u, other);
    var m3 := On(me, T(0 - k, 1), [Own, Switching(best, 1 - me)], u, other);
    var m4 := On(1 - me, T(x, 0), [Own], T(0 - k, 1), [Own, Resuming]);
    CallsScan(me, c, u, other, 1 - me);
    TicksInScan(me, 0, k, u, other, 1 - me);
    ScanForOther(me, 0 - k, x, other);
    SwitchToOther(me, 0 - k, best, u, g);
    var call := [CallSchedule] + ([Run] + []);
    LeadsOn(m0, call, m1, Ticks(k), m2);
    LeadsOn(m0, call + Ticks(k), m2, Runs(3), m3);
    LeadsOn(m0, call + Ticks(k) + Runs(3), m3, Runs(3), m4);
    es := call + Ticks(k) + Runs(3) + Runs(3);
  }

  lemma OnPlace(me: nat, t: Task, stack: seq<Frame>, u: Task, other: seq<Frame>)
    requires me <= 1
    ensures On(me, t, stack, u, other).s.current == me
  {
  }

  // ----- Starvation -----

  // Init in kernel_main's loop around schedule(); task 1 was switched out with counter d.
  function Debtor(d: int): Machine {
    On(0, T(-1, 0), [Own], T(d, 1), [Own, Resuming])
  }

  // schedule() with one tick before its scan has read any slot.
  function LateTick(): seq<Event> {
    [CallSchedule] + ([Run] + []) + Ticks(1) + Runs(5)
  }

  // It leads back to the same state, and task 1 has not been selected.
  lemma LateTickLoops(d: int)
    requires d < 0
    ensures PassesBy(Debtor(d), LateTick(), Debtor(d), 1, 1)
  {
    var u, other := T(d, 1), [Own, Resuming];
    var m1, m2 := On(0, T(0, 1), [Own, ScanStart], u, other), On(0, T(-1, 1), [Own, ScanStart], u, other);
    var call := [CallSchedule] + ([Run] + []);
    CallsScan(0, -1, u, other, 1);
    TicksInScan(0, 0, 1, u, other, 1);
    NobodyElse(d, 1);
    hide On, PassesBy;
    PassesOn(Debtor(d), call, m1, 1, Ticks(1), m2, 0, 1);
    PassesOn(Debtor(d), call + Ticks(1), m2, 1, Runs(5), Debtor(d), 0, 1);
  }

  function Times(k: nat): seq<Event> {
    if k == 0 then [] else LateTick() + Times(k - 1)
  }

  // Task 1 waits for ever: after as many turns as one likes it has not been selected.
  lemma {:induction false} WaitsForEver(d: int, k: nat)
    requires d < 0
    ensures PassesBy(Debtor(d), Times(k), Debtor(d), k, 1)
  {
    hide LateTick, PassesBy;
    if k == 0 {
      NoRun(Debtor(d), 1);
    } else {
      WaitsForEver(d, k - 1);
      LateTickLoops(d);
      PassesOn(Debtor(d), LateTick(), Debtor(d), 1, Times(k - 1), Debtor(d), k - 1, 1);
    }
  }

  // kernel_main forks: init and a new task.
  lemma FirstFork() returns (es: seq<Event>)
    ensures Leads(Start(), es, On(0, T(0, 0), [Own], T(15, 1), [Own, NewTask]))
  {
    var m0, m1 := Start(), Machine(State([T(0, 1)], 0), [[Own, Forking(false)]], 0);
    var u, other := T(15, 1), [Own, NewTask];
    var m2, m3 := On(0, T(0, 1), [Own, Forking(true)], u, other), On(0, T(0, 0), [Own], u, other);
    assert [Own] + [Forking(false)] == [Own, Forking(false)];
    assert Step(m0, CallFork) == m1;
    assert [Own, Forking(false)][1 := Forking(true)] == [Own, Forking(true)];
    assert Step(m1, Run) == m2;
    OnChanges(0, T(0, 1), Forking(true), u, other, T(0, 0), Own);
    assert Step(m2, Run) == m3;
    hide Step;
    StepFirst(m2, Run, Runs(0), m3);
    StepFirst(m1, Run, Runs(1), m3);
    StepFirst(m0, CallFork, Runs(2), m3);
    es := [CallFork] + Runs(2);
  }

  // From boot, task 1 can come to any debt.
  lemma DebtorReached(d: int) returns (es: seq<Event>)
    requires d < 0
    ensures Leads(Start(), es, Debtor(d))
  {
    var fork := FirstFork();
    var first := LateTicksLeaveDebt(0, 0, 1, 15, NewTask);
    var second := LateTicksLeaveDebt(1, 15, 0 - d, -1, Resuming);
    var m1, m2 := On(0, T(0, 0), [Own], T(15, 1), [Own, NewTask]), On(1, T(15, 0), [Own], T(-1, 1), [Own, Resuming]);
    RunThenRun(Start(), fork, m1, first, m2);
    RunThenRun(Start(), fork + first, m2, second, Debtor(d));
    es := fork + first + second;
  }

  // ----- Who is served -----

  ghost predicate ServedWithin(m: Machine, j: nat, turns: nat) {
    forall es :: Legal(m, es) && Turns(m, es) > turns ==> Selected(m, es, j)
  }

  // There is a number of turns after which `j` has been selected, whatever happens.
  ghost predicate Served(m: Machine, j: nat) {
    exists turns: nat :: ServedWithin(m, j, turns)
  }

  // In the machine after a run from boot, `j` is runnable, off the processor, and has counter d.
  ghost predicate Waits(es: seq<Event>, j: nat, d: int) {
    && Legal(Start(), es)
    && var m := After(Start(), es);
       Runnable(m.s.tasks, j) && j != m.cpu && j != m.s.current && m.s.tasks[j].counter == d
  }

  ghost predicate AlwaysServed(d: int) {
    forall es, j :: Waits(es, j, d) ==> Served(After(Start(), es), j)
  }

  lemma WaitingIsServed(m: Machine, j: nat)
    requires Waiting(m, j)
    ensures Served(m, j)
  {
    var cap := SchedulerRuns.MAX_PRIORITY;
    forall i | 0 <= i < |m.s.tasks|
      ensures m.s.tasks[i].priority <= cap
    {
      assert Sound(m, i);
    }
    assert Cheap(m, cap);
    PotentialNotNegative(m, j);
    PotentialBound(m, j);
    var turns: nat := LongestWait(m, j) + 2 * cap * 63;
    hide LongestWait, Waiting, Cheap;
    forall es | Legal(m, es) && Turns(m, es) > turns
      ensures Selected(m, es, j)
    {
      NoStarvation(m, es, j, cap);
    }
    assert ServedWithin(m, j, turns);
  }

  // Exactly the tasks that owe no ticks are served without fail.
  lemma ServedIff(d: int)
    ensures AlwaysServed(d) <==> d >= 0
  {
    if d >= 0 {
      forall es, j | Waits(es, j, d)
        ensures Served(After(Start(), es), j)
      {
        StartInv();
        RunKeeps(Start(), es);
        WaitingIsServed(After(Start(), es), j);
      }
    } else {
      var es := DebtorReached(d);
      assert Waits(es, 1, d);
      if Served(Debtor(d), 1) {
        var turns: nat :| ServedWithin(Debtor(d), 1, turns);
        WaitsForEver(d, turns + 1);
      }
    }
  }

  // After a run from boot in which no tick has hit a choice of `_schedule`, every task that waits is
  // served, however the ticks fall from then on.
  lemma CalmRunsServe(es: seq<Event>, j: nat, d: int)
    requires Waits(es, j, d) && AtomicRuns.NoTickInside(Start(), es)
    requires var m := After(Start(), es); Shaped(m) && !AtomicRuns.Deciding(Top(m, m.cpu))
    ensures d >= 0 && Served(After(Start(), es), j)
  {
    StartInv();
    RunKeeps(Start(), es);
    AtomicRuns.NoDebtWithoutTickInside(es, j);
    WaitingIsServed(After(Start(), es), j);
  }
}
