// The counter-driven scheduler of sched.c as a machine on values: the slots of
// `task` that hold a task, and the index of `current` among them.
// SchedulerCode.dfy proves the loops against these functions.
module Scheduler {
  const INT_MAX: int := 0x7fff_ffff
  const INT_SPAN: int := 0x1_0000_0000

  datatype RunState = Running | Zombie

  datatype Task = Task(state: RunState, counter: int, priority: int, preempt: int)

  datatype State = State(tasks: seq<Task>, current: nat)

  // Assigning a `long` to the `int` variable `c` keeps its low 32 bits.
  function ToInt(x: int): int {
    (x + INT_MAX + 1) % INT_SPAN - INT_MAX - 1
  }

  // ----- The scan and the refill of _schedule -----

  // One scan of the task array from slot `i` on, carrying `c` and `next`.
  function Scan(ts: seq<Task>, i: nat, c: int, next: nat): (int, nat)
    requires i <= |ts|
    decreases |ts| - i
  {
    if i == |ts| then (c, next)
    else if ts[i].state == Running && ts[i].counter > c then
      Scan(ts, i + 1, ToInt(ts[i].counter), i)
    else Scan(ts, i + 1, c, next)
  }

  function FullScan(ts: seq<Task>): (int, nat) {
    Scan(ts, 0, -1, 0)
  }

  // Every counter becomes half of itself, rounded down, plus the priority.
  function Refill(ts: seq<Task>): (r: seq<Task>)
    ensures |r| == |ts|
  {
    seq(|ts|, i requires 0 <= i < |ts| => ts[i].(counter := ts[i].counter / 2 + ts[i].priority))
  }

  ghost predicate Runnable(ts: seq<Task>, i: int) {
    0 <= i < |ts| && ts[i].state == Running
  }

  // What `_schedule` needs of its tasks. Any counter that fits in an `int` will do, also a negative one.
  ghost predicate Ready(ts: seq<Task>) {
    && |ts| > 0
    && (forall i :: 0 <= i < |ts| ==> 1 <= ts[i].priority <= INT_MAX)
    && (forall i :: Runnable(ts, i) ==> ts[i].counter <= INT_MAX)
  }

  // `k` is the lowest-numbered runnable task among those with the largest counter, which is `c`.
  ghost predicate Selects(ts: seq<Task>, c: int, k: int) {
    && Runnable(ts, k)
    && ts[k].counter == c
    && (forall i :: Runnable(ts, i) ==> ts[i].counter <= c && (ts[i].counter == c ==> k <= i))
  }

  // No runnable task has a counter of zero or more.
  ghost predicate AllNegative(ts: seq<Task>) {
    forall i :: Runnable(ts, i) ==> ts[i].counter < 0
  }

  ghost predicate SomePositive(ts: seq<Task>) {
    exists i :: Runnable(ts, i) && ts[i].counter > 0
  }

  lemma {:induction false} ScanFinds(ts: seq<Task>, i: nat, c: int, next: nat)
    requires Ready(ts) && i <= |ts|
    requires if c == -1 then next == 0 && AllNegative(ts[..i]) else c >= 0 && Selects(ts[..i], c, next)
    ensures var r := Scan(ts, i, c, next);
            if r.0 == -1 then r.1 == 0 && AllNegative(ts) else r.0 >= 0 && Selects(ts, r.0, r.1)
    decreases |ts| - i
  {
    if i == |ts| {
      assert ts[..i] == ts;
    } else {
      var p := ts[..i + 1];
      assert forall k :: 0 <= k < i ==> p[k] == ts[..i][k];
      assert forall k :: k != i ==> (Runnable(p, k) <==> Runnable(ts[..i], k));
      if ts[i].state == Running && ts[i].counter > c {
        assert Runnable(ts, i);
        assert ToInt(ts[i].counter) == ts[i].counter;
        assert Selects(p, ts[i].counter, i);
        ScanFinds(ts, i + 1, ts[i].counter, i);
      } else {
        ScanFinds(ts, i + 1, c, next);
      }
    }
  }

  lemma ScanResult(ts: seq<Task>)
    requires Ready(ts)
    ensures var r := FullScan(ts);
            if r.0 == -1 then r.1 == 0 && AllNegative(ts) else r.0 >= 0 && Selects(ts, r.0, r.1)
  {
    ScanFinds(ts, 0, -1, 0);
  }

  // After a scan whose best counter is 0, the refill makes the next scan end the loop.
  lemma RefillEndsLoop(ts: seq<Task>)
    requires Ready(ts) && FullScan(ts).0 == 0
    ensures Ready(Refill(ts)) && FullScan(Refill(ts)).0 > 0
    ensures !SomePositive(ts) && !AllNegative(ts)
  {
    ScanResult(ts);
    var k, r := FullScan(ts).1, Refill(ts);
    assert forall i :: Runnable(r, i) <==> Runnable(ts, i);
    assert Ready(r);
    ScanResult(r);
    assert Runnable(r, k) && r[k].counter >= 1;
  }

  // The `while (1)` loop of `_schedule`: the tasks it leaves, the slot it selects, and the scans it took.
  function Settle(ts: seq<Task>): (r: (seq<Task>, nat, nat))
    requires Ready(ts)
    ensures |r.0| == |ts| && r.1 < |ts| && 1 <= r.2
    decreases if FullScan(ts).0 == 0 then 1 else 0
  {
    ScanResult(ts);
    var scan := FullScan(ts);
    if scan.0 != 0 then (ts, scan.1, 1)
    else
      RefillEndsLoop(ts);
      var rest := Settle(Refill(ts));
      (rest.0, rest.1, rest.2 + 1)
  }

  // `_schedule` scans at most twice. It refills exactly when the largest counter
  // of a runnable task is 0; it selects the lowest-numbered runnable task of
  // maximal positive counter, and task 0 when every runnable counter is negative.
  lemma SettleSelects(ts: seq<Task>)
    requires Ready(ts)
    ensures var r := Settle(ts);
            && r.2 <= 2
            && (AllNegative(ts) ==> r == (ts, 0, 1))
            && (SomePositive(ts) ==> r.0 == ts && r.2 == 1)
            && (!AllNegative(ts) && !SomePositive(ts) ==> r.0 == Refill(ts) && r.2 == 2)
            && (!AllNegative(ts) ==> Selects(r.0, r.0[r.1].counter, r.1) && r.0[r.1].counter > 0)
  {
    ScanResult(ts);
    if FullScan(ts).0 == 0 {
      RefillEndsLoop(ts);
      ScanResult(Refill(ts));
    }
  }

  // ----- The operations of sched.c -----

  ghost predicate Valid(s: State) {
    s.current < |s.tasks| && Ready(s.tasks)
  }

  function Current(s: State): Task
    requires s.current < |s.tasks|
  {
    s.tasks[s.current]
  }

  function WithCurrent(s: State, t: Task): (r: State)
    requires s.current < |s.tasks|
    ensures |r.tasks| == |s.tasks| && r.current == s.current
  {
    s.(tasks := s.tasks[s.current := t])
  }

  function PreemptDisable(s: State): State
    requires s.current < |s.tasks|
  {
    WithCurrent(s, Current(s).(preempt := Current(s).preempt + 1))
  }

  function PreemptEnable(s: State): State
    requires s.current < |s.tasks|
  {
    WithCurrent(s, Current(s).(preempt := Current(s).preempt - 1))
  }

  lemma PreemptKeepsReady(s: State)
    requires Valid(s)
    ensures Valid(PreemptDisable(s)) && Valid(PreemptEnable(s))
  {
    forall d | d == PreemptDisable(s).tasks || d == PreemptEnable(s).tasks
      ensures Ready(d)
    {
      assert forall i :: Runnable(d, i) <==> Runnable(s.tasks, i);
    }
  }

  // `_schedule`, in the order the processor executes it: after the switch it is
  // the task just selected that takes its own preempt_count back.
  function ScheduleCore(s: State): State
    requires Valid(s)
  {
    PreemptKeepsReady(s);
    var settled := Settle(PreemptDisable(s).tasks);
    PreemptEnable(State(settled.0, settled.1))
  }

  function WithCounter(s: State, c: int): State
    requires s.current < |s.tasks|
  {
    WithCurrent(s, Current(s).(counter := c))
  }

  lemma WithCounterReady(s: State, c: int)
    requires Valid(s) && c <= INT_MAX
    ensures Valid(WithCounter(s, c))
  {
    var d := WithCounter(s, c).tasks;
    assert forall i :: Runnable(d, i) <==> Runnable(s.tasks, i);
  }

  function Schedule(s: State): State
    requires Valid(s)
  {
    WithCounterReady(s, 0);
    ScheduleCore(WithCounter(s, 0))
  }

  function TimerTick(s: State): State
    requires Valid(s)
  {
    var c := Current(s).counter - 1;
    if c > 0 || Current(s).preempt > 0 then WithCounter(s, c) else Schedule(s)
  }

  // The first half of `exit_process`, up to `preempt_enable`.
  function MarkZombie(s: State): State
    requires s.current < |s.tasks|
  {
    WithCurrent(s, Current(s).(state := Zombie))
  }

  // The scheduling fields `copy_process` gives the child.
  function AddChild(s: State): State
    requires s.current < |s.tasks|
  {
    s.(tasks := s.tasks + [Task(Running, Current(s).priority, Current(s).priority, 1)])
  }
}
