// The page-freeing exit of l5_UserProcesses_SystemCalls: who owns each frame in a run of mallocs,
// clones, first entries to user mode and exits.
//
// `user` and `pending` only record history: the task has had its user stack, and the pages sys_malloc
// has handed out that no clone has been given.
module Lesson5 {
  import opened Limits
  import opened PhysMem

  datatype Task = Task(page: nat, stack: nat, user: bool, zombie: bool)

  datatype State = State(memMap: seq<nat>, tasks: seq<Task>, current: nat, pending: set<nat>)

  // ----- mm.c -----

  // get_free_page of this lesson: it does not clear the page.
  function GetPage(m: seq<nat>): (r: (seq<nat>, nat))
    ensures |r.0| == |m| && (r.1 == 0 ==> r.0 == m)
  {
    var i := FirstFree(m, 0);
    if i < |m| then (m[i := 1], FrameAddr(i)) else (m, 0)
  }

  function PutPage(m: seq<nat>, f: nat): (r: seq<nat>)
    requires |m| == PAGING_PAGES && IsFrame(f)
    ensures |r| == |m|
  {
    m[FrameIndex(f) := 0]
  }

  predicate Marked(m: seq<nat>, f: nat)
    requires |m| == PAGING_PAGES && IsFrame(f)
  {
    m[FrameIndex(f)] != 0
  }

  lemma FrameIndexing(f: nat, g: nat)
    requires IsFrame(f) && IsFrame(g)
    ensures FrameIndex(f) < PAGING_PAGES && FrameAddr(FrameIndex(f)) == f
    ensures f != g ==> FrameIndex(f) != FrameIndex(g)
  {
  }

  lemma GetPageFresh(m: seq<nat>)
    requires |m| == PAGING_PAGES
    ensures var p := GetPage(m).1; p != 0 ==> IsFrame(p) && !Marked(m, p)
  {
  }

  lemma GetPageMarks(m: seq<nat>, f: nat)
    requires |m| == PAGING_PAGES && IsFrame(f)
    ensures var (m', p) := GetPage(m); Marked(m', f) <==> Marked(m, f) || f == p
  {
    var i := FirstFree(m, 0);
    if i < |m| {
      FrameIndexing(f, FrameAddr(i));
    }
  }

  lemma PutPageUnmarks(m: seq<nat>, p: nat, f: nat)
    requires |m| == PAGING_PAGES && IsFrame(f) && IsFrame(p)
    ensures Marked(PutPage(m, p), f) <==> Marked(m, f) && f != p
  {
    FrameIndexing(f, p);
  }

  // ----- Ownership -----

  // Task t, which has not exited, has a stack page.
  predicate HasStack(s: State, t: int) {
    0 <= t < |s.tasks| && s.tasks[t].user && !s.tasks[t].zombie && s.tasks[t].stack != 0
  }

  // Task t has its task_struct in a page of its own; init's is static.
  predicate HasPage(s: State, t: int) {
    0 < t < |s.tasks|
  }

  ghost predicate Owned(s: State, f: nat) {
    || (exists t :: HasPage(s, t) && s.tasks[t].page == f)
    || (exists t :: HasStack(s, t) && s.tasks[t].stack == f)
    || f in s.pending
  }

  // No frame is owned twice.
  ghost predicate OwnersApart(s: State) {
    && (forall t, u :: HasPage(s, t) && HasPage(s, u) && t != u ==> s.tasks[t].page != s.tasks[u].page)
    && (forall t, u :: HasStack(s, t) && HasStack(s, u) && t != u ==> s.tasks[t].stack != s.tasks[u].stack)
    && (forall t, u :: HasPage(s, t) && HasStack(s, u) ==> s.tasks[t].page != s.tasks[u].stack)
    && (forall t :: HasPage(s, t) ==> s.tasks[t].page !in s.pending)
    && (forall t :: HasStack(s, t) ==> s.tasks[t].stack !in s.pending)
  }

  ghost predicate OwnersAreFrames(s: State) {
    && (forall t :: HasPage(s, t) ==> IsFrame(s.tasks[t].page))
    && (forall t :: HasStack(s, t) ==> IsFrame(s.tasks[t].stack))
    && (forall f :: f in s.pending ==> IsFrame(f))
  }

  // Conservation: a frame is marked exactly when it is a task_struct page, the stack of a task that
  // has not exited, or a malloc'd page that no clone has been given; and it is only one of these.
  ghost predicate Conserved(s: State) {
    && |s.memMap| == PAGING_PAGES && 0 < |s.tasks| <= NR_TASKS && s.current < |s.tasks|
    && !s.tasks[0].user && OwnersAreFrames(s) && OwnersApart(s)
    && (forall f :: IsFrame(f) ==> (Marked(s.memMap, f) <==> Owned(s, f)))
  }

  // ----- The operations -----

  function Cur(s: State): Task
    requires s.current < |s.tasks|
  {
    s.tasks[s.current]
  }

  // sys_malloc
  function Malloc(s: State): State {
    var (m, f) := GetPage(s.memMap);
    if f == 0 then s else s.(memMap := m, pending := s.pending + {f})
  }

  // copy_process for a user task: `stack` is what sys_clone was given.
  function Clone(s: State, stack: nat): State {
    var (m, f) := GetPage(s.memMap);
    if f == 0 then s
    else s.(memMap := m, tasks := s.tasks + [Task(f, stack, true, false)], pending := s.pending - {stack})
  }

  // copy_process for a kernel thread: the page is not cleared, so `stack` is whatever it held.
  function KernelThread(s: State, garbage: nat): State {
    var (m, f) := GetPage(s.memMap);
    if f == 0 then s else s.(memMap := m, tasks := s.tasks + [Task(f, garbage, false, false)])
  }

  // move_to_user_mode
  function MoveToUserMode(s: State): State
    requires s.current < |s.tasks|
  {
    var (m, f) := GetPage(s.memMap);
    if f == 0 then s
    else s.(memMap := m, tasks := s.tasks[s.current := Cur(s).(stack := f, user := true)])
  }

  // exit_process, before it calls schedule
  function Exit(s: State): State
    requires s.current < |s.tasks| && |s.memMap| == PAGING_PAGES && (Cur(s).stack != 0 ==> IsFrame(Cur(s).stack))
  {
    var m := if Cur(s).stack != 0 then PutPage(s.memMap, Cur(s).stack) else s.memMap;
    s.(memMap := m, tasks := s.tasks[s.current := Cur(s).(zombie := true)])
  }

  datatype Event = DoMalloc | DoClone(stack: nat) | DoThread(garbage: nat) | EnterUser | DoExit | Switch(next: nat)

  // System calls come from user mode, and an exited task only calls schedule.
  predicate Enabled(s: State, e: Event)
    requires s.current < |s.tasks|
  {
    match e
    case DoMalloc => Cur(s).user && !Cur(s).zombie
    case DoClone(stack) => Cur(s).user && !Cur(s).zombie && |s.tasks| < NR_TASKS && (stack == 0 || stack in s.pending)
    case DoThread(_) => !Cur(s).user && !Cur(s).zombie && |s.tasks| < NR_TASKS
    case EnterUser => !Cur(s).user && !Cur(s).zombie && s.current > 0
    case DoExit => Cur(s).user && !Cur(s).zombie
    case Switch(next) => next < |s.tasks| && !s.tasks[next].zombie
  }

  // ----- What each operation keeps -----

  lemma MallocKeeps(s: State)
    requires Conserved(s)
    ensures Conserved(Malloc(s))
  {
    hide IsFrame, GetPage, Marked;
    var s' := Malloc(s);
    var (m, p) := GetPage(s.memMap);
    if p != 0 {
      GetPageFresh(s.memMap);
      FreshOwner(s, p);
      PendingMore(s, s', p);
      hide Owned, OwnersApart, OwnersAreFrames;
      forall f | IsFrame(f)
        ensures Marked(m, f) <==> Owned(s', f)
      {
        GetPageMarks(s.memMap, f);
      }
    }
  }

  lemma PendingMore(s: State, s': State, p: nat)
    requires OwnersApart(s) && OwnersAreFrames(s) && IsFrame(p)
    requires forall t :: HasPage(s, t) ==> s.tasks[t].page != p
    requires forall t :: HasStack(s, t) ==> s.tasks[t].stack != p
    requires s'.tasks == s.tasks && s'.pending == s.pending + {p}
    ensures OwnersApart(s') && OwnersAreFrames(s')
    ensures forall f :: Owned(s', f) <==> Owned(s, f) || f == p
  {
    hide IsFrame;
    assert forall t :: (HasPage(s', t) <==> HasPage(s, t)) && (HasStack(s', t) <==> HasStack(s, t));
    forall f
      ensures Owned(s', f) <==> Owned(s, f) || f == p
    {
      hide HasPage, HasStack;
    }
  }

  // A frame that was not marked belongs to nobody.
  lemma FreshOwner(s: State, p: nat)
    requires Conserved(s) && IsFrame(p) && !Marked(s.memMap, p)
    ensures !Owned(s, p) && p !in s.pending
    ensures forall t :: HasPage(s, t) ==> s.tasks[t].page != p
    ensures forall t :: HasStack(s, t) ==> s.tasks[t].stack != p
  {
  }

  // A task more, in a fresh page; `given` is the page its stack comes from, or 0.
  lemma AddedTaskKeeps(s: State, s': State, p: nat, t: Task, given: nat)
    requires Conserved(s) && GetPage(s.memMap) == (s'.memMap, p) && p != 0 && |s.tasks| < NR_TASKS
    requires t.page == p && !t.zombie && s'.tasks == s.tasks + [t] && s'.current == s.current
    requires s'.pending == s.pending - {given} && (t.user ==> t.stack == given)
    requires given == 0 || (t.user && given in s.pending)
    ensures Conserved(s')
  {
    assert 0 !in s.pending;
    hide IsFrame, GetPage, Owned, Marked;
    GetPageFresh(s.memMap);
    FreshOwner(s, p);
    AddedApart(s, s', p, t, given);
    forall f | IsFrame(f)
      ensures Marked(s'.memMap, f) <==> Owned(s', f)
    {
      GetPageMarks(s.memMap, f);
      OwnedAfterAdd(s, s', p, t, given, f);
    }
  }

  lemma AddedApart(s: State, s': State, p: nat, t: Task, given: nat)
    requires OwnersApart(s) && OwnersAreFrames(s) && |s.tasks| > 0 && IsFrame(p) && p !in s.pending
    requires forall u :: HasPage(s, u) ==> s.tasks[u].page != p
    requires forall u :: HasStack(s, u) ==> s.tasks[u].stack != p
    requires t.page == p && !t.zombie && s'.tasks == s.tasks + [t]
    requires s'.pending == s.pending - {given} && (t.user ==> t.stack == given)
    requires given == 0 || (t.user && given in s.pending)
    ensures OwnersApart(s') && OwnersAreFrames(s')
  {
    hide IsFrame;
    var n := |s.tasks|;
    assert forall u :: u != n ==> (HasPage(s', u) <==> HasPage(s, u)) && (HasStack(s', u) <==> HasStack(s, u));
    assert HasPage(s', n) && (HasStack(s', n) <==> t.user && given != 0);
    assert forall u :: HasStack(s, u) ==> s.tasks[u].stack != given || given == 0;
    assert forall u :: 0 <= u < n ==> s'.tasks[u] == s.tasks[u];
  }

  lemma OwnedAfterAdd(s: State, s': State, p: nat, t: Task, given: nat, f: nat)
    requires t.page == p && !t.zombie && s'.tasks == s.tasks + [t] && |s.tasks| > 0
    requires s'.pending == s.pending - {given} && (t.user ==> t.stack == given)
    requires given == 0 || (t.user && given in s.pending)
    requires 0 !in s.pending
    ensures Owned(s', f) <==> Owned(s, f) || f == p
  {
    var n := |s.tasks|;
    if f == p {
      assert HasPage(s', n);
    } else if f == given != 0 {
      assert HasStack(s', n);
    } else if Owned(s, f) {
      if t0 :| HasPage(s, t0) && s.tasks[t0].page == f {
        assert HasPage(s', t0) && s'.tasks[t0] == s.tasks[t0];
      } else if t0 :| HasStack(s, t0) && s.tasks[t0].stack == f {
        assert HasStack(s', t0) && s'.tasks[t0] == s.tasks[t0];
      }
    } else {
      assert forall u :: u != n ==> (HasPage(s', u) <==> HasPage(s, u)) && (HasStack(s', u) <==> HasStack(s, u));
    }
  }

  // sys_clone keeps frames conserved exactly when it is given a malloc'd page that no other clone has
  // been given, or no stack at all.
  lemma CloneKeepsIff(s: State, stack: nat)
    requires Conserved(s) && |s.tasks| < NR_TASKS && GetPage(s.memMap).1 != 0
    ensures Conserved(Clone(s, stack)) <==> stack == 0 || stack in s.pending
  {
    var s', p, n := Clone(s, stack), GetPage(s.memMap).1, |s.tasks|;
    if stack == 0 || stack in s.pending {
      AddedTaskKeeps(s, s', p, Task(p, stack, true, false), stack);
    } else if Conserved(s') {
      // The new stack would be a marked frame: the child's own page, or one that was owned before.
      assert HasStack(s', n) && s'.tasks[n].stack == stack && HasPage(s', n) && s'.tasks[n].page == p;
      assert forall t :: HasPage(s, t) ==> HasPage(s', t) && s'.tasks[t] == s.tasks[t];
      assert forall t :: HasStack(s, t) ==> HasStack(s', t) && s'.tasks[t] == s.tasks[t];
      assert forall t :: HasStack(s, t) ==> t != n;
      GetPageMarks(s.memMap, stack);
    }
  }

  lemma EnterKeeps(s: State)
    requires Conserved(s) && Enabled(s, EnterUser)
    ensures Conserved(MoveToUserMode(s))
  {
    hide IsFrame, GetPage, Owned, Marked;
    var s', c := MoveToUserMode(s), s.current;
    var (m, p) := GetPage(s.memMap);
    if p != 0 {
      GetPageFresh(s.memMap);
      FreshOwner(s, p);
      assert forall u :: HasPage(s', u) <==> HasPage(s, u);
      assert forall u :: u != c ==> (HasStack(s', u) <==> HasStack(s, u));
      assert forall u :: HasPage(s, u) ==> s'.tasks[u].page == s.tasks[u].page;
      forall f | IsFrame(f)
        ensures Marked(m, f) <==> Owned(s', f)
      {
        GetPageMarks(s.memMap, f);
        OwnedAfterStackChange(s, s', f);
        OwnedWithout(s, f);
        assert HasStack(s', c) && !HasStack(s, c);
      }
    }
  }

  // Only the current task's stack differs.
  lemma OwnedAfterStackChange(s: State, s': State, f: nat)
    requires s.current < |s.tasks| == |s'.tasks| && s'.pending == s.pending
    requires forall u :: 0 <= u < |s.tasks| && u != s.current ==> s'.tasks[u] == s.tasks[u]
    requires s'.tasks[s.current].page == s.tasks[s.current].page
    ensures var c := s.current;
      Owned(s', f) <==>
        || (exists t :: HasPage(s, t) && s.tasks[t].page == f)
        || (exists t :: t != c && HasStack(s, t) && s.tasks[t].stack == f)
        || (HasStack(s', c) && s'.tasks[c].stack == f)
        || f in s.pending
  {
    var c := s.current;
    assert forall u :: HasPage(s', u) <==> HasPage(s, u);
    assert forall u :: HasPage(s, u) ==> s'.tasks[u].page == s.tasks[u].page;
    assert forall u :: u != c ==> (HasStack(s', u) <==> HasStack(s, u));
    if t :| HasPage(s, t) && s.tasks[t].page == f {
      assert HasPage(s', t) && s'.tasks[t].page == f;
    }
    if t :| t != c && HasStack(s, t) && s.tasks[t].stack == f {
      assert HasStack(s', t) && s'.tasks[t].stack == f;
    }
  }

  // An exit frees the task's own stack, which was marked, and no other frame; nobody owns it any more.
  lemma ExitKeeps(s: State)
    requires Conserved(s) && Enabled(s, DoExit)
    ensures Cur(s).stack != 0 ==> IsFrame(Cur(s).stack) && Marked(s.memMap, Cur(s).stack)
    ensures Conserved(Exit(s))
    ensures Cur(s).stack != 0 ==> !Marked(Exit(s).memMap, Cur(s).stack) && !Owned(Exit(s), Cur(s).stack)
    ensures forall f :: IsFrame(f) && f != Cur(s).stack ==> (Marked(Exit(s).memMap, f) <==> Marked(s.memMap, f))
  {
    assert !IsFrame(0);
    hide IsFrame, PutPage, Marked;
    var c, p := s.current, Cur(s).stack;
    if p != 0 {
      assert HasStack(s, c);
      assert Owned(s, p);
    }
    var s' := Exit(s);
    hide Owned;
    ExitOwners(s, s');
    forall f | IsFrame(f)
      ensures Marked(s'.memMap, f) <==> Marked(s.memMap, f) && f != p
      ensures Owned(s', f) <==> Owned(s, f) && f != p
    {
      if p != 0 {
        PutPageUnmarks(s.memMap, p, f);
      }
      OwnedAfterStackChange(s, s', f);
      OwnedWithout(s, f);
    }
  }

  lemma ExitOwners(s: State, s': State)
    requires Conserved(s) && Cur(s).user && !Cur(s).zombie
    requires s'.tasks == s.tasks[s.current := Cur(s).(zombie := true)] && s'.pending == s.pending
    ensures OwnersAreFrames(s') && OwnersApart(s') && !HasStack(s', s.current)
    ensures Cur(s).stack != 0 ==> HasStack(s, s.current) && Owned(s, Cur(s).stack)
  {
    hide IsFrame, Marked;
    var c := s.current;
    assert Cur(s).stack != 0 ==> HasStack(s, c);
    assert forall u :: HasPage(s', u) <==> HasPage(s, u);
    assert forall u :: HasPage(s, u) ==> s'.tasks[u].page == s.tasks[u].page;
    assert forall u :: u != c ==> (HasStack(s', u) <==> HasStack(s, u));
  }

  // The owners, with the current task's stack apart.
  lemma OwnedWithout(s: State, f: nat)
    requires Conserved(s) && IsFrame(f)
    ensures var c := s.current;
      Owned(s, f) && !(HasStack(s, c) && s.tasks[c].stack == f) <==>
        || (exists t :: HasPage(s, t) && s.tasks[t].page == f)
        || (exists t :: t != c && HasStack(s, t) && s.tasks[t].stack == f)
        || f in s.pending
  {
  }

  // ----- Runs -----

  function Step(s: State, e: Event): State
    requires Conserved(s) && Enabled(s, e)
  {
    match e
    case DoMalloc => Malloc(s)
    case DoClone(stack) => Clone(s, stack)
    case DoThread(garbage) => KernelThread(s, garbage)
    case EnterUser => MoveToUserMode(s)
    case DoExit => ExitKeeps(s); Exit(s)
    case Switch(next) => s.(current := next)
  }

  lemma SwitchKeeps(s: State, next: nat)
    requires Conserved(s) && next < |s.tasks|
    ensures Conserved(s.(current := next))
  {
    var s' := s.(current := next);
    assert forall t :: (HasPage(s', t) <==> HasPage(s, t)) && (HasStack(s', t) <==> HasStack(s, t));
    assert forall f :: Owned(s', f) <==> Owned(s, f);
  }

  lemma StepKeeps(s: State, e: Event)
    requires Conserved(s) && Enabled(s, e)
    ensures Conserved(Step(s, e))
  {
    match e {
      case DoMalloc => MallocKeeps(s);
      case DoClone(stack) =>
        if GetPage(s.memMap).1 != 0 {
          CloneKeepsIff(s, stack);
        }
      case DoThread(garbage) =>
        var p := GetPage(s.memMap).1;
        if p != 0 {
          AddedTaskKeeps(s, KernelThread(s, garbage), p, Task(p, garbage, false, false), 0);
        }
      case EnterUser => EnterKeeps(s);
      case DoExit => ExitKeeps(s);
      case Switch(next) => SwitchKeeps(s, next);
    }
  }

  // The kernel at boot: every frame is free, init is the only task.
  function Boot(): State {
    State(seq(PAGING_PAGES, _ => 0), [Task(0, 0, false, false)], 0, {})
  }

  ghost predicate Legal(s: State, es: seq<Event>)
    decreases |es|
  {
    es == [] || (Conserved(s) && Enabled(s, es[0]) && Legal(Step(s, es[0]), es[1..]))
  }

  ghost function After(s: State, es: seq<Event>): State
    requires Legal(s, es)
    decreases |es|
  {
    if es == [] then s else After(Step(s, es[0]), es[1..])
  }

  lemma BootConserved()
    ensures Conserved(Boot())
  {
    assert forall t :: !HasPage(Boot(), t) && !HasStack(Boot(), t);
  }

  lemma {:induction false} RunKeeps(s: State, es: seq<Event>)
    requires Conserved(s) && Legal(s, es)
    ensures Conserved(After(s, es))
    decreases |es|
  {
    if es == [] {
    } else {
      StepKeeps(s, es[0]);
      RunKeeps(Step(s, es[0]), es[1..]);
    }
  }

  // Conservation in every run.
  lemma FramesAreConserved(es: seq<Event>, f: nat)
    requires Legal(Boot(), es) && IsFrame(f)
    ensures var s := After(Boot(), es);
      && |s.memMap| == PAGING_PAGES
      && (Marked(s.memMap, f) <==>
            || (exists t :: HasPage(s, t) && s.tasks[t].page == f)
            || (exists t :: HasStack(s, t) && s.tasks[t].stack == f)
            || f in s.pending)
  {
    BootConserved();
    RunKeeps(Boot(), es);
  }

  // A run that starts a user task, whose own stack page then serves as the stack of a clone.
  function OneUserTask(garbage: nat): seq<Event> {
    [DoThread(garbage), Switch(1), EnterUser]
  }

  function FirstUser(): State {
    State(seq(PAGING_PAGES, _ => 0)[0 := 1][1 := 1],
          [Task(0, 0, false, false), Task(FrameAddr(0), FrameAddr(1), true, false)], 1, {})
  }

  lemma OneUserTaskRuns(garbage: nat)
    ensures Legal(Boot(), OneUserTask(garbage)) && After(Boot(), OneUserTask(garbage)) == FirstUser()
  {
    hide Conserved;
    var s, es := Boot(), OneUserTask(garbage);
    BootConserved();
    assert GetPage(s.memMap) == (s.memMap[0 := 1], FrameAddr(0));
    StepKeeps(s, es[0]);
    var s1 := Step(s, es[0]);
    assert es[1..] == [Switch(1), EnterUser];
    assert s1.tasks == [Task(0, 0, false, false), Task(FrameAddr(0), garbage, false, false)];
    StepKeeps(s1, es[1]);
    var s2 := Step(s1, es[1]);
    assert es[1..][1..] == [EnterUser];
    assert FirstFree(s2.memMap, 1) == 1;
    assert GetPage(s2.memMap) == (s2.memMap[1 := 1], FrameAddr(1));
    var s3 := Step(s2, EnterUser);
    assert s3.tasks == [Task(0, 0, false, false), Task(FrameAddr(0), FrameAddr(1), true, false)];
    assert s3 == FirstUser();
    assert [EnterUser][1..] == [];
    assert Legal(s3, []) && After(s3, []) == s3;
    assert Legal(s2, [EnterUser]) && After(s2, [EnterUser]) == s3;
  }

  // sys_clone does not look at the stack it is given. A task that passes its own stack page loses it
  // when the clone exits: the page is free again, and still the task's stack.
  lemma OwnStackClonedIsLost(garbage: nat)
    ensures Legal(Boot(), OneUserTask(garbage)) && After(Boot(), OneUserTask(garbage)) == FirstUser()
    ensures var p, c := Cur(FirstUser()).stack, Clone(FirstUser(), Cur(FirstUser()).stack);
      && HasStack(FirstUser(), 1) && IsFrame(p) && p !in FirstUser().pending && !Conserved(c)
      && |c.tasks| == 3 && |c.memMap| == PAGING_PAGES && c.tasks[2].stack == p && Marked(c.memMap, p)
      && var e := Exit(c.(current := 2)); HasStack(e, 1) && e.tasks[1].stack == p && !Marked(e.memMap, p)
  {
    OneUserTaskRuns(garbage);
    BootConserved();
    RunKeeps(Boot(), OneUserTask(garbage));
    var s := FirstUser();
    ThirdPageIsNext(s);
    CloneKeepsIff(s, Cur(s).stack);
  }

  lemma ThirdPageIsNext(s: State)
    requires s == FirstUser()
    ensures GetPage(s.memMap).1 == FrameAddr(2) && FrameAddr(1) !in s.pending
  {
    assert FirstFree(s.memMap, 2) == 2 && FirstFree(s.memMap, 1) == 2 && FirstFree(s.memMap, 0) == 2;
  }

  // How often task t exits in the run; each exit frees its stack, by ExitKeeps.
  ghost function Exits(s: State, es: seq<Event>, t: nat): nat
    requires Legal(s, es)
    decreases |es|
  {
    if es == [] then 0
    else (if es[0] == DoExit && s.current == t then 1 else 0) + Exits(Step(s, es[0]), es[1..], t)
  }

  predicate IsZombie(s: State, t: nat) {
    t < |s.tasks| && s.tasks[t].zombie
  }

  lemma ZombieStep(s: State, e: Event, t: nat)
    requires Conserved(s) && Enabled(s, e)
    ensures IsZombie(Step(s, e), t) <==> IsZombie(s, t) || (e == DoExit && s.current == t)
  {
  }

  // Every stack is freed exactly once: a task exits at most once in a run, and exactly once if it is
  // a zombie in the end.
  lemma {:induction false} StackFreedOnce(s: State, es: seq<Event>, t: nat)
    requires Conserved(s) && Legal(s, es) && !IsZombie(s, t)
    ensures Exits(s, es, t) == if IsZombie(After(s, es), t) then 1 else 0
    decreases |es|
  {
    if es == [] {
    } else {
      ZombieStep(s, es[0], t);
      StepKeeps(s, es[0]);
      if IsZombie(Step(s, es[0]), t) {
        ZombieStays(Step(s, es[0]), es[1..], t);
      } else {
        StackFreedOnce(Step(s, es[0]), es[1..], t);
      }
    }
  }

  lemma {:induction false} ZombieStays(s: State, es: seq<Event>, t: nat)
    requires Conserved(s) && Legal(s, es) && IsZombie(s, t)
    ensures IsZombie(After(s, es), t) && Exits(s, es, t) == 0
    decreases |es|
  {
    if es == [] {
    } else {
      ZombieStep(s, es[0], t);
      StepKeeps(s, es[0]);
      ZombieStays(Step(s, es[0]), es[1..], t);
    }
  }
}
