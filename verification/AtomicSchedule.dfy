// The two scheduler models agree: when no tick falls into it, the step-by-step execution of `_schedule`
// in Preemption is the single step Scheduler.ScheduleCore.
module AtomicSchedule {
  import opened Scheduler
  import opened Preemption

  // k steps of the current activity, without a tick, lead from m to n.
  ghost predicate RunsTo(m: Machine, n: Machine, k: nat)
    decreases k
  {
    if k == 0 then m == n else Shaped(m) && Enabled(m, Run) && RunsTo(RunStep(m), n, k - 1)
  }

  lemma {:induction false} RunsOn(m: Machine, n: Machine, o: Machine, j: nat, k: nat)
    requires RunsTo(m, n, j) && RunsTo(n, o, k)
    ensures RunsTo(m, o, j + k)
    decreases j
  {
    hide RunStep, Shaped, Enabled;
    if j == 0 {
    } else {
      RunsOn(RunStep(m), n, o, j - 1, k);
    }
  }

  // m with the tasks ts and the current task at activity f.
  function Scene(m: Machine, ts: seq<Task>, f: Frame): Machine
    requires m.cpu < |m.stacks| && Stack(m) != []
  {
    m.(s := m.s.(tasks := ts), stacks := m.stacks[m.cpu := Stack(m)[..|Stack(m)| - 1] + [f]])
  }

  lemma SceneShape(m: Machine, ts: seq<Task>, f: Frame, g: Frame)
    requires Shaped(m) && |ts| == |m.s.tasks|
    ensures var x := Scene(m, ts, f);
      Shaped(x) && x.s == m.s.(tasks := ts) && Top(x, x.cpu) == f && Become(x, g) == Scene(m, ts, g)
    ensures Top(m, m.cpu) == f && ts == m.s.tasks ==> m == Scene(m, ts, f)
  {
    var x, cur := Scene(m, ts, f), m.cpu;
    assert Stack(x)[|Stack(x)| - 1 := g] == Stack(m)[..|Stack(m)| - 1] + [g];
    assert Become(x, g).stacks == Scene(m, ts, g).stacks;
    if Top(m, cur) == f {
      assert Stack(m)[..|Stack(m)| - 1] + [f] == Stack(m);
    }
  }

  // The first loop of `_schedule`.
  lemma {:induction false} ScanRuns(m: Machine, ts: seq<Task>, i: nat, c: int, next: nat)
    requires Shaped(m) && |ts| == |m.s.tasks| && i <= |ts|
    ensures var r := Scan(ts, i, c, next);
      RunsTo(Scene(m, ts, Scanning(i, c, next)), Scene(m, ts, Scanning(|ts|, r.0, r.1)), |ts| - i)
    decreases |ts| - i
  {
    if i == |ts| {
    } else {
      var better := ts[i].state == Running && ts[i].counter > c;
      var f := if better then Scanning(i + 1, ToInt(ts[i].counter), i) else Scanning(i + 1, c, next);
      SceneShape(m, ts, Scanning(i, c, next), f);
      ScanRuns(m, ts, f.i, f.c, f.next);
    }
  }

  // The tasks with the slots from i on refilled.
  function RefillFrom(ts: seq<Task>, i: nat): (r: seq<Task>)
    ensures |r| == |ts|
    decreases |ts| - i
  {
    if i >= |ts| then ts
    else RefillFrom(ts[i := ts[i].(counter := ts[i].counter / 2 + ts[i].priority)], i + 1)
  }

  lemma {:induction false} RefillFromAt(ts: seq<Task>, i: nat, k: nat)
    requires k < |ts|
    ensures RefillFrom(ts, i)[k] == if k < i then ts[k] else ts[k].(counter := ts[k].counter / 2 + ts[k].priority)
    decreases |ts| - i
  {
    if i >= |ts| {
    } else {
      RefillFromAt(ts[i := ts[i].(counter := ts[i].counter / 2 + ts[i].priority)], i + 1, k);
    }
  }

  lemma RefillFromZero(ts: seq<Task>)
    ensures RefillFrom(ts, 0) == Refill(ts)
  {
    forall k | 0 <= k < |ts|
      ensures RefillFrom(ts, 0)[k] == Refill(ts)[k]
    {
      RefillFromAt(ts, 0, k);
    }
  }

  // The second loop of `_schedule`.
  lemma {:induction false} RefillRuns(m: Machine, ts: seq<Task>, i: nat)
    requires Shaped(m) && |ts| == |m.s.tasks| && i <= |ts|
    ensures RunsTo(Scene(m, ts, Refilling(i)), Scene(m, RefillFrom(ts, i), Refilling(|ts|)), |ts| - i)
    decreases |ts| - i
  {
    if i == |ts| {
    } else {
      var ts' := ts[i := ts[i].(counter := ts[i].counter / 2 + ts[i].priority)];
      SceneShape(m, ts, Refilling(i), Refilling(i));
      SceneShape(m, ts', Refilling(i), Refilling(i + 1));
      RefillRuns(m, ts', i + 1);
    }
  }

  // A step between the loops.
  lemma OneStep(m: Machine, ts: seq<Task>, f: Frame, g: Frame)
    requires Shaped(m) && |ts| == |m.s.tasks|
    requires (f.Refilling? && f.i == |ts| && g == Scanning(0, -1, 0))
      || (f.Scanning? && f.i == |ts| && g == if f.c != 0 then Switching(f.c, f.next) else Refilling(0))
    ensures RunsTo(Scene(m, ts, f), Scene(m, ts, g), 1)
  {
    SceneShape(m, ts, f, g);
    assert RunsTo(RunStep(Scene(m, ts, f)), Scene(m, ts, g), 0);
  }

  // The outer loop: from its start to the call of `switch_to`.
  lemma {:induction false} LoopRuns(m: Machine, ts: seq<Task>) returns (c: int, k: nat)
    requires Shaped(m) && |ts| == |m.s.tasks| && Ready(ts)
    ensures var r := Settle(ts);
      RunsTo(Scene(m, ts, Scanning(0, -1, 0)), Scene(m, r.0, Switching(c, r.1)), k)
    decreases if FullScan(ts).0 == 0 then 1 else 0
  {
    hide RunsTo, Scene;
    var n, scan := |ts|, FullScan(ts);
    ScanRuns(m, ts, 0, -1, 0);
    var start, scanned := Scene(m, ts, Scanning(0, -1, 0)), Scene(m, ts, Scanning(n, scan.0, scan.1));
    if scan.0 != 0 {
      c, k := scan.0, n + 1;
      OneStep(m, ts, Scanning(n, scan.0, scan.1), Switching(c, scan.1));
      RunsOn(start, scanned, Scene(m, ts, Switching(c, scan.1)), n, 1);
    } else {
      RefillEndsLoop(ts);
      RefillFromZero(ts);
      var ts' := Refill(ts);
      OneStep(m, ts, Scanning(n, scan.0, scan.1), Refilling(0));
      RunsOn(start, scanned, Scene(m, ts, Refilling(0)), n, 1);
      RefillRuns(m, ts, 0);
      RunsOn(start, Scene(m, ts, Refilling(0)), Scene(m, ts', Refilling(n)), n + 1, n);
      OneStep(m, ts', Refilling(n), Scanning(0, -1, 0));
      RunsOn(start, Scene(m, ts', Refilling(n)), Scene(m, ts', Scanning(0, -1, 0)), 2 * n + 1, 1);
      var j;
      c, j := LoopRuns(m, ts');
      k := 2 * n + 2 + j;
      var r := Settle(ts');
      RunsOn(start, Scene(m, ts', Scanning(0, -1, 0)), Scene(m, r.0, Switching(c, r.1)), 2 * n + 2, j);
    }
  }

  // A whole `_schedule` without a tick, up to the preempt_enable of the task it selects: the scheduling
  // state is that of the single step.
  lemma ScheduleRunsAtomically(m: Machine) returns (n: Machine, k: nat)
    requires Inv(m) && Top(m, m.cpu) == Enter
    ensures Scheduler.Valid(m.s) && RunsTo(m, n, k) && n.s == ScheduleCore(m.s)
  {
    InvIsReady(m);
    PreemptKeepsReady(m.s);
    var ts := PreemptDisable(m.s).tasks;
    var r := Settle(ts);
    var first := Scene(m, ts, Scanning(0, -1, 0));
    EnterRuns(m);
    hide RunsTo, Scene, Inv, Settle;
    var c, j := LoopRuns(m, ts);
    var last := Scene(m, r.0, Switching(c, r.1));
    RunsOn(m, first, last, 1, j);
    var rest;
    n, rest := SwitchRuns(m, r.0, c, r.1);
    k := j + 1 + rest;
    RunsOn(m, last, n, j + 1, rest);
  }

  lemma EnterRuns(m: Machine)
    requires Shaped(m) && Top(m, m.cpu) == Enter
    ensures RunsTo(m, Scene(m, PreemptDisable(m.s).tasks, Scanning(0, -1, 0)), 1)
  {
    var f := Scanning(0, -1, 0);
    assert Stack(m)[|Stack(m)| - 1 := f] == Stack(m)[..|Stack(m)| - 1] + [f];
    assert RunStep(m) == Scene(m, PreemptDisable(m.s).tasks, f);
    assert RunsTo(RunStep(m), Scene(m, PreemptDisable(m.s).tasks, f), 0);
  }

  // `switch_to`, and the preempt_enable of the task selected.
  lemma SwitchRuns(m: Machine, ts: seq<Task>, c: int, next: nat) returns (n: Machine, k: nat)
    requires Inv(m) && m.s.current == m.cpu && |ts| == |m.s.tasks| && next < |ts|
    ensures RunsTo(Scene(m, ts, Switching(c, next)), n, k) && n.s == PreemptEnable(State(ts, next))
  {
    if next == m.s.current {
      n := NoSwitchRuns(m, ts, c);
      k := 2;
    } else {
      n := CrossingRuns(m, ts, c, next);
      k := 3;
    }
  }

  lemma NoSwitchRuns(m: Machine, ts: seq<Task>, c: int) returns (n: Machine)
    requires Shaped(m) && m.s.current == m.cpu && |ts| == |m.s.tasks|
    ensures RunsTo(Scene(m, ts, Switching(c, m.cpu)), n, 2) && n.s == PreemptEnable(State(ts, m.cpu))
  {
    var x, y := Scene(m, ts, Switching(c, m.cpu)), Scene(m, ts, Resuming);
    SceneShape(m, ts, Switching(c, m.cpu), Resuming);
    SceneShape(m, ts, Resuming, Resuming);
    assert RunStep(x) == y;
    n := RunStep(y);
    hide Scene;
    assert RunsTo(n, n, 0) && RunsTo(y, n, 1);
  }

  lemma CrossingRuns(m: Machine, ts: seq<Task>, c: int, next: nat) returns (n: Machine)
    requires Inv(m) && m.s.current == m.cpu != next && |ts| == |m.s.tasks| && next < |ts|
    ensures RunsTo(Scene(m, ts, Switching(c, next)), n, 3) && n.s == PreemptEnable(State(ts, next))
  {
    var x, y := Scene(m, ts, Switching(c, next)), Scene(m, ts, Crossing).(s := State(ts, next));
    var z := Scene(m, ts, Resuming).(s := State(ts, next), cpu := next);
    SceneShape(m, ts, Switching(c, next), Crossing);
    SceneShape(m, ts, Crossing, Resuming);
    SceneShape(m, ts, Resuming, Resuming);
    assert Parked(m, next);
    assert Top(z, next) == Resuming || Top(z, next) == NewTask;
    assert RunStep(x) == y && RunStep(y) == z;
    n := RunStep(z);
    hide Scene, Inv;
    assert RunsTo(n, n, 0) && RunsTo(z, n, 1) && RunsTo(y, n, 2);
  }

  lemma InvIsReady(m: Machine)
    requires Inv(m)
    ensures Scheduler.Valid(m.s)
  {
    forall i | 0 <= i < |m.s.tasks|
      ensures 1 <= m.s.tasks[i].priority <= INT_MAX && m.s.tasks[i].counter <= INT_MAX
    {
      assert Sound(m, i);
    }
  }
}
