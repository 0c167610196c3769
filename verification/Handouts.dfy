// What the allocating operations of lesson 5 hand out, stated on the marks, the tasks and the pages that
// are waiting for a clone.
module Handouts {
  import opened PhysMem
  import opened Lesson5

  ghost predicate SomeFree(m: seq<nat>)
    requires |m| == PAGING_PAGES
  {
    exists f :: IsFrame(f) && !Lesson5.Marked(m, f)
  }

  // p was free and nobody's, and is the only frame whose mark differs afterwards.
  ghost predicate Takes(s: State, m: seq<nat>, p: nat)
    requires |s.memMap| == PAGING_PAGES
  {
    && |m| == PAGING_PAGES && IsFrame(p) && !Lesson5.Marked(s.memMap, p) && !Owned(s, p)
    && forall f :: IsFrame(f) ==> (Lesson5.Marked(m, f) <==> Lesson5.Marked(s.memMap, f) || f == p)
  }

  // get_free_page gives 0 exactly if every page is marked.
  lemma PageIff(m: seq<nat>)
    requires |m| == PAGING_PAGES
    ensures GetPage(m).1 != 0 <==> SomeFree(m)
  {
    var i := FirstFree(m, 0);
    if i < |m| {
      GetPageFresh(m);
      assert IsFrame(FrameAddr(i)) && !Lesson5.Marked(m, FrameAddr(i));
    } else if f :| IsFrame(f) && !Lesson5.Marked(m, f) {
      FrameIndexing(f, f);
    }
  }

  lemma PageTaken(s: State)
    requires Conserved(s) && SomeFree(s.memMap)
    ensures Takes(s, GetPage(s.memMap).0, GetPage(s.memMap).1)
  {
    hide GetPage, Lesson5.Marked, IsFrame;
    PageIff(s.memMap);
    var (m, p) := GetPage(s.memMap);
    GetPageFresh(s.memMap);
    FreshOwner(s, p);
    forall f | IsFrame(f)
      ensures Lesson5.Marked(m, f) <==> Lesson5.Marked(s.memMap, f) || f == p
    {
      GetPageMarks(s.memMap, f);
    }
  }

  // ----- One operation -----

  // sys_malloc: a page that was free and nobody's is marked and waits for a clone, and nothing else changes;
  // it is the page get_free_page has found. Without a free page nothing changes.
  lemma MallocDoes(s: State)
    requires Conserved(s) && Enabled(s, DoMalloc)
    ensures var t, p := Step(s, DoMalloc), GetPage(s.memMap).1;
      && t.tasks == s.tasks && t.current == s.current
      && (SomeFree(s.memMap) ==> Takes(s, t.memMap, p) && p !in s.pending && t.pending == s.pending + {p})
      && (!SomeFree(s.memMap) ==> t == s && p == 0)
  {
    PageIff(s.memMap);
    if SomeFree(s.memMap) {
      PageTaken(s);
    }
    hide GetPage, SomeFree, Conserved;
  }

  // sys_clone: a task more, in a page that was free and nobody's, with the stack it is given, which no longer
  // waits for a clone.
  lemma CloneDoes(s: State, stack: nat)
    requires Conserved(s) && Enabled(s, DoClone(stack))
    ensures var t := Step(s, DoClone(stack));
      if !SomeFree(s.memMap) then t == s
      else
        && |t.tasks| == |s.tasks| + 1 && t.tasks[..|s.tasks|] == s.tasks && t.current == s.current
        && var c := t.tasks[|s.tasks|];
           && Takes(s, t.memMap, c.page) && c.stack == stack && c.user && !c.zombie
           && t.pending == s.pending - {stack}
  {
    PageIff(s.memMap);
    if SomeFree(s.memMap) {
      PageTaken(s);
    }
    hide GetPage, SomeFree, Conserved;
  }

  // copy_process for a kernel thread: a task more, in a page that was free and nobody's, and the field for
  // its stack holds what was in that page.
  lemma ThreadDoes(s: State, garbage: nat)
    requires Conserved(s) && Enabled(s, DoThread(garbage))
    ensures var t := Step(s, DoThread(garbage));
      if !SomeFree(s.memMap) then t == s
      else
        && |t.tasks| == |s.tasks| + 1 && t.tasks[..|s.tasks|] == s.tasks && t.current == s.current
        && var c := t.tasks[|s.tasks|];
           && Takes(s, t.memMap, c.page) && c.stack == garbage && !c.user && !c.zombie
           && t.pending == s.pending
  {
    PageIff(s.memMap);
    if SomeFree(s.memMap) {
      PageTaken(s);
    }
    hide GetPage, SomeFree, Conserved;
  }

  // move_to_user_mode: the current task becomes a user task whose stack is a page that was free and nobody's.
  lemma EnterDoes(s: State)
    requires Conserved(s) && Enabled(s, EnterUser)
    ensures var t, c := Step(s, EnterUser), s.current;
      if !SomeFree(s.memMap) then t == s
      else
        && |t.tasks| == |s.tasks| && t.current == c && t.pending == s.pending
        && Takes(s, t.memMap, t.tasks[c].stack) && t.tasks[c].user
        && t.tasks[c].page == s.tasks[c].page && t.tasks[c].zombie == s.tasks[c].zombie
        && forall i :: 0 <= i < |s.tasks| && i != c ==> t.tasks[i] == s.tasks[i]
  {
    PageIff(s.memMap);
    if SomeFree(s.memMap) {
      PageTaken(s);
    }
    hide GetPage, SomeFree, Conserved;
  }

  // exit_process: the current task becomes a zombie, and no other task changes.
  lemma ExitDoes(s: State)
    requires Conserved(s) && Enabled(s, DoExit)
    ensures var t, c := Step(s, DoExit), s.current;
      && |t.tasks| == |s.tasks| && t.current == c && t.pending == s.pending && t.tasks[c].zombie
      && t.tasks[c].page == s.tasks[c].page && t.tasks[c].stack == s.tasks[c].stack
      && t.tasks[c].user == s.tasks[c].user
      && forall i :: 0 <= i < |s.tasks| && i != c ==> t.tasks[i] == s.tasks[i]
  {
  }

  // ----- Runs -----

  // A task whose stack is page p exits in the run.
  ghost predicate Frees(s: State, es: seq<Event>, p: nat)
    requires Legal(s, es)
    decreases |es|
  {
    es != [] && ((es[0] == DoExit && Cur(s).stack == p) || Frees(Step(s, es[0]), es[1..], p))
  }

  // A page that has an owner keeps one, unless a task whose stack it is exits.
  lemma OwnedStep(s: State, e: Event, p: nat)
    requires Conserved(s) && Enabled(s, e) && IsFrame(p) && Owned(s, p) && !(e == DoExit && Cur(s).stack == p)
    ensures Conserved(Step(s, e)) && Owned(Step(s, e), p)
  {
    StepKeeps(s, e);
    var t := Step(s, e);
    assert Lesson5.Marked(t.memMap, p) by {
      hide Lesson5.Marked, IsFrame, Owned, OwnersApart, OwnersAreFrames, GetPage;
      assert Lesson5.Marked(s.memMap, p);
      match e {
        case DoExit => ExitKeeps(s);
        case Switch(_) =>
        case _ => GetPageMarks(s.memMap, p);
      }
    }
  }

  lemma {:induction false} OwnedRun(s: State, es: seq<Event>, p: nat)
    requires Conserved(s) && Legal(s, es) && IsFrame(p) && Owned(s, p) && !Frees(s, es, p)
    ensures Conserved(After(s, es)) && Owned(After(s, es), p)
    decreases |es|
  {
    hide Step, Enabled, Conserved, Owned, IsFrame;
    if es == [] {
    } else {
      StartsConserved(s, es);
      OwnedStep(s, es[0], p);
      OwnedRun(Step(s, es[0]), es[1..], p);
    }
  }

  lemma StartsConserved(s: State, es: seq<Event>)
    requires Conserved(s) && Legal(s, es) && es != []
    ensures s.current < |s.tasks| && Enabled(s, es[0])
  {
  }

  // The pages two calls of sys_malloc hand out differ, unless a task that has got the first as its stack has
  // exited in between.
  lemma MallocsDiffer(s: State, es: seq<Event>)
    requires Conserved(s) && CanMalloc(s) && Legal(Step(s, DoMalloc), es)
    requires CanMalloc(After(Step(s, DoMalloc), es)) && !Frees(Step(s, DoMalloc), es, GetPage(s.memMap).1)
    ensures var p, q := GetPage(s.memMap).1, GetPage(After(Step(s, DoMalloc), es).memMap).1;
      IsFrame(p) && IsFrame(q) && p != q
  {
    var t, p := Step(s, DoMalloc), GetPage(s.memMap).1;
    MallocDoes(s);
    StepKeeps(s, DoMalloc);
    assert Owned(t, p);
    OwnedRun(t, es, p);
    hide Step;
    MallocDoes(After(t, es));
  }

  ghost predicate CanMalloc(s: State) {
    s.current < |s.tasks| && Enabled(s, DoMalloc) && |s.memMap| == PAGING_PAGES && SomeFree(s.memMap)
  }

  // In every run, a page that sys_malloc has handed out and no clone has been given is no task's
  // task_struct and no running task's stack.
  lemma PendingIsNobodys(es: seq<Event>, p: nat, t: nat)
    requires Legal(Boot(), es) && p in After(Boot(), es).pending
    ensures IsFrame(p) && |After(Boot(), es).memMap| == PAGING_PAGES && Lesson5.Marked(After(Boot(), es).memMap, p)
    ensures var s := After(Boot(), es);
      && (HasPage(s, t) ==> s.tasks[t].page != p) && (HasStack(s, t) ==> s.tasks[t].stack != p)
  {
    BootConserved();
    RunKeeps(Boot(), es);
    assert Owned(After(Boot(), es), p);
  }

  // switch_to makes the given task current, and changes nothing else.
  lemma SwitchDoes(s: State, next: nat)
    requires Conserved(s) && Enabled(s, Switch(next))
    ensures var t := Step(s, Switch(next));
      t.current == next && t.tasks == s.tasks && t.memMap == s.memMap && t.pending == s.pending
  {
  }
}
