/** Kernel stacks: who owns which page, across the process table and the page allocator. */
module StackPages {
  import opened ProcModel
  import opened ProcSafety
  import opened PmmModel
  import ContextSwitch

  /** The stack of p, if it has one, is a whole used page above the first megabyte. */
  ghost predicate StackOk(p: Proc, pages: Pages) {
    p.kstack != 0 ==>
      && p.kstack % PAGE_SIZE == 0
      && p.kstack >= LOW_PAGES * PAGE_SIZE
      && p.kstack / PAGE_SIZE in pages.used
  }

  /** Slots own pairwise different pages; slots 0 and 1 own none. */
  ghost predicate Owned(s: Sched) {
    && Sized(s) && Counted(s.pages)
    && s.table[0].kstack == 0 && s.table[1].kstack == 0
    && (forall i :: 0 <= i < MAX_PROCESSES ==> StackOk(s.table[i], s.pages))
    && (forall i, j :: 0 <= i < j < MAX_PROCESSES && s.table[i].kstack != 0 ==> s.table[i].kstack != s.table[j].kstack)
  }

  ghost predicate Good(s: Sched) { Safe(s) && Owned(s) }

  /** Events other than spawn and kill touch neither a stack field nor the allocator. */
  lemma SameStacks(s: Sched, e: Event)
    requires Sized(s) && !e.EvSpawn? && !e.EvKill?
    ensures var r := Step(s, e);
            r.pages == s.pages && forall i :: 0 <= i < MAX_PROCESSES ==> r.table[i].kstack == s.table[i].kstack
  {
    match e
    case EvTick =>
      TickedFrame(s);
      TickIs(s);
      ScheduleFrame(Ticked(s).(slice := 0));
    case EvYield => ScheduleFrame(s);
    case EvSleep(ticks) => if TaskRuns(s) { ScheduleFrame(Asleep(s, ticks)); }
    case EvReturn => if TaskRuns(s) { ScheduleFrame(Returned(s)); }
  }

  /** A spawn takes the lowest free page; a failed one changes nothing at all. */
  lemma SpawnStack(s: Sched, entry: nat)
    requires Good(s)
    ensures var r := Spawn(s, entry);
            && Owned(r.s)
            && (r.rc < 0 <==> (forall i :: 0 <= i < MAX_PROCESSES ==> Live(s, i)) || |s.pages.used| == MAX_PAGES)
            && (r.rc < 0 ==> r.s == s)
            && (r.rc >= 0 ==>
                  var t := FreeSlot(s); var k := r.s.table[t].kstack;
                  && LivePid(r.s, t, r.rc) && k != 0 && k / PAGE_SIZE !in s.pages.used
                  && r.s.pages.used == s.pages.used + {k / PAGE_SIZE}
                  && r.s.table[t].savedEsp == k + ContextSwitch.KSTACK_SIZE - ContextSwitch.FRAME_SIZE)
  {
    AllocCounted(s.pages);
    var r := Spawn(s, entry);
    var t := FreeSlot(s);
    if r.rc < 0 {
      assert r.s == s;
    } else {
      assert Live(s, 0) && Live(s, 1);
      var k := r.s.table[t].kstack;
      forall i | 0 <= i < MAX_PROCESSES
        ensures StackOk(r.s.table[i], r.s.pages)
        ensures i != t ==> r.s.table[i] == s.table[i] && r.s.table[i].kstack != k
      {
        assert StackOk(s.table[i], s.pages);
      }
    }
  }

  /** A kill returns exactly the page of the slot it removes. */
  lemma KillStack(s: Sched, pid: nat)
    requires Good(s)
    ensures var r := Kill(s, pid);
            && Owned(r.s)
            && (r.rc == 0 <==> pid > 1 && exists i :: LivePid(s, i, pid))
            && (r.rc != 0 ==> r.s == s)
            && (r.rc == 0 ==>
                  var k := s.table[FindSlot(s, pid)].kstack;
                  r.s.pages.used == if k == 0 then s.pages.used else s.pages.used - {k / PAGE_SIZE})
  {
    var slot := FindSlot(s, pid);
    if slot >= 0 && pid > 1 {
      var r := Kill(s, pid).s;
      var k := s.table[slot].kstack;
      assert StackOk(s.table[slot], s.pages);
      if k != 0 { FreeCounted(s.pages, k); }
      forall i | 0 <= i < MAX_PROCESSES
        ensures StackOk(r.table[i], r.pages)
      {
        assert StackOk(s.table[i], s.pages);
        if i != slot && s.table[i].kstack != 0 && k != 0 { DifferentPages(s.table[i].kstack, k); }
      }
    }
  }

  lemma DifferentPages(a: nat, b: nat)
    requires a % PAGE_SIZE == 0 && b % PAGE_SIZE == 0 && a != b
    ensures a / PAGE_SIZE != b / PAGE_SIZE
  {
  }

  lemma StepOwned(s: Sched, e: Event)
    requires Good(s)
    ensures Good(Step(s, e))
  {
    StepKeeps(s, e);
    match e
    case EvSpawn(entry) => SpawnStack(s, entry);
    case EvKill(pid) => KillStack(s, pid);
    case _ =>
      SameStacks(s, e);
      var r := Step(s, e);
      forall i | 0 <= i < MAX_PROCESSES ensures StackOk(r.table[i], r.pages) { assert StackOk(s.table[i], s.pages); }
  }

  lemma {:induction false} RunOwned(s: Sched, es: seq<Event>)
    requires Good(s)
    ensures Good(Run(s, es))
    decreases |es|
  {
    if es != [] {
      StepOwned(s, es[0]);
      RunOwned(Step(s, es[0]), es[1..]);
    }
  }

  lemma BootOwned(pages: Pages, tick: nat, slice: nat, charged: nat)
    requires Counted(pages) && slice < TIME_SLICE_TICKS
    ensures Good(Booted(pages, tick, slice, charged))
  {
    BootedSafe(pages, tick, slice, charged);
    assert forall i :: 0 <= i < MAX_PROCESSES ==> Booted(pages, tick, slice, charged).table[i].kstack == 0;
  }

  /** In every reachable state the stacks are pairwise different, page-aligned, used pages. */
  lemma EveryRunOwned(pages: Pages, tick: nat, slice: nat, charged: nat, es: seq<Event>)
    requires Counted(pages) && slice < TIME_SLICE_TICKS
    ensures Good(Run(Booted(pages, tick, slice, charged), es))
  {
    BootOwned(pages, tick, slice, charged);
    RunOwned(Booted(pages, tick, slice, charged), es);
  }

  /** Stacks of different slots do not overlap, which is what the context switch relies on. */
  lemma StacksApart(s: Sched, i: int, j: int)
    requires Owned(s) && 0 <= i < MAX_PROCESSES && 0 <= j < MAX_PROCESSES && i != j
    requires s.table[i].kstack != 0 && s.table[j].kstack != 0
    ensures var a := s.table[i].kstack; var b := s.table[j].kstack;
            a + ContextSwitch.KSTACK_SIZE <= b || b + ContextSwitch.KSTACK_SIZE <= a
  {
    assert StackOk(s.table[i], s.pages) && StackOk(s.table[j], s.pages);
    DifferentPages(s.table[i].kstack, s.table[j].kstack);
  }

  // ---- From spawn to kill ----

  /** PID q in slot t owns page p. */
  ghost predicate Owns(s: Sched, t: int, q: nat, p: nat) {
    LivePid(s, t, q) && s.table[t].kstack == p * PAGE_SIZE != 0
  }

  /** No event of the run ends q. */
  predicate Survives(s: Sched, es: seq<Event>, q: nat)
    requires Sized(s)
    decreases |es|, s
  {
    es != [] ==> es[0] != EvKill(q) && !(es[0] == EvReturn && s.cur == q) && Survives(Step(s, es[0]), es[1..], q)
  }

  lemma TickOwns(s: Sched, t: int, q: nat, p: nat)
    requires Sized(s) && Owns(s, t, q, p)
    ensures Owns(Tick(s), t, q, p)
  {
    TickedFrame(s);
    TickIs(s);
    ScheduleFrame(Ticked(s).(slice := 0));
  }

  lemma ScheduleOwns(s: Sched, t: int, q: nat, p: nat)
    requires Sized(s) && Owns(s, t, q, p)
    ensures Owns(Schedule(s), t, q, p)
  {
    ScheduleFrame(s);
  }

  lemma StepOwns(s: Sched, e: Event, t: int, q: nat, p: nat)
    requires Good(s) && Owns(s, t, q, p) && e != EvKill(q) && !(e == EvReturn && s.cur == q)
    ensures Owns(Step(s, e), t, q, p)
  {
    match e
    case EvTick => TickOwns(s, t, q, p);
    case EvYield => ScheduleOwns(s, t, q, p);
    case EvSleep(ticks) => if TaskRuns(s) { ScheduleOwns(Asleep(s, ticks), t, q, p); }
    case EvSpawn(entry) => assert FreeSlot(s) != t;
    case EvKill(pid) => assert FindSlot(s, pid) != t;
    case EvReturn => if TaskRuns(s) { ScheduleOwns(Returned(s), t, q, p); }
  }

  lemma {:induction false} RunOwns(s: Sched, es: seq<Event>, t: int, q: nat, p: nat)
    requires Good(s) && Owns(s, t, q, p) && Survives(s, es, q)
    ensures Owns(Run(s, es), t, q, p)
    decreases |es|
  {
    if es != [] {
      StepOwns(s, es[0], t, q, p);
      StepOwned(s, es[0]);
      RunOwns(Step(s, es[0]), es[1..], t, q, p);
    }
  }

  /** Whatever happens in between, killing a spawned process gives back exactly the page its spawn took. */
  lemma SpawnThenKill(s: Sched, entry: nat, es: seq<Event>)
    requires Good(s) && Spawn(s, entry).rc >= 0 && Survives(Spawn(s, entry).s, es, Spawn(s, entry).rc)
    ensures var a := Spawn(s, entry); var p := LowestFree(s.pages.used, 0); var r := Run(a.s, es);
            && a.s.pages.used == s.pages.used + {p} && p !in s.pages.used
            && p in r.pages.used
            && Kill(r, a.rc).rc == 0 && Kill(r, a.rc).s.pages.used == r.pages.used - {p}
  {
    SpawnStack(s, entry);
    AllocCounted(s.pages);
    StepOwned(s, EvSpawn(entry));
    var a := Spawn(s, entry);
    var t := FreeSlot(s);
    var p := LowestFree(s.pages.used, 0);
    assert p * PAGE_SIZE / PAGE_SIZE == p;
    assert Owns(a.s, t, a.rc, p);
    RunOwns(a.s, es, t, a.rc, p);
    RunOwned(a.s, es);
    var r := Run(a.s, es);
    FindIs(r, t);
    assert StackOk(r.table[t], r.pages);
    KillStack(r, a.rc);
  }

  /**
   A process that kills itself frees the stack it goes on running on: its page is free at once, and
   the next spawn is given it exactly when no lower page is free.
   */
  lemma SelfKillFreesStack(s: Sched, entry: nat)
    requires Good(s) && TaskRuns(s) && s.table[FindSlot(s, s.cur)].kstack != 0
    ensures var r := Kill(s, s.cur).s; var a := Spawn(r, entry); var k := s.table[FindSlot(s, s.cur)].kstack;
            && k / PAGE_SIZE in s.pages.used && k / PAGE_SIZE !in r.pages.used
            && a.rc >= 0
            && (a.s.table[FreeSlot(r)].kstack == k <==> forall p :: 0 <= p < k / PAGE_SIZE ==> p in s.pages.used)
  {
    var slot := FindSlot(s, s.cur);
    var k := s.table[slot].kstack;
    var r := Kill(s, s.cur).s;
    KillStack(s, s.cur);
    StepOwned(s, EvKill(s.cur));
    assert StackOk(s.table[slot], s.pages);
    assert !Live(r, slot);
    UsedBound(r.pages);
    SpawnStack(r, entry);
    var p := LowestFree(r.pages.used, 0);
    AllocCounted(r.pages);
    assert Spawn(r, entry).s.table[FreeSlot(r)].kstack == p * PAGE_SIZE && k == k / PAGE_SIZE * PAGE_SIZE;
    LowestAfterRemoval(s.pages.used, k / PAGE_SIZE);
  }

  lemma LowestAfterRemoval(used: set<int>, x: nat)
    requires x in used && x < MAX_PAGES
    ensures var p := LowestFree(used - {x}, 0);
            p <= x && (p == x <==> forall q :: 0 <= q < x ==> q in used)
  {
    var rest := used - {x};
    var p := LowestFree(rest, 0);
    assert p > x ==> x in rest;
    assert p < x ==> p !in rest && p !in used;
    forall q | 0 <= q < p ensures q in used { assert q in rest; }
  }

  // ---- A task that returns from its entry ----

  /** Page p is used, and no live slot owns it. */
  ghost predicate Lost(s: Sched, p: nat) {
    p in s.pages.used && forall i :: Live(s, i) ==> s.table[i].kstack != p * PAGE_SIZE
  }

  /** The exit path gives up the slot but not its page. */
  lemma ReturnLosesPage(s: Sched, t: int, p: nat)
    requires Good(s) && TaskRuns(s) && Owns(s, t, s.cur, p)
    ensures Lost(ReturnFromEntry(s), p)
  {
    FindIs(s, t);
    SameStacks(s, EvReturn);
    assert StackOk(s.table[t], s.pages);
    assert p * PAGE_SIZE / PAGE_SIZE == p;
    var r := Returned(s);
    assert forall i :: Live(r, i) ==> Live(s, i) && i != t && r.table[i].kstack == s.table[i].kstack;
    var u := ReturnFromEntry(s);
    assert forall i :: Live(u, i) <==> Live(r, i);
  }

  lemma StepLost(s: Sched, e: Event, p: nat)
    requires Good(s) && p >= LOW_PAGES && Lost(s, p)
    ensures Lost(Step(s, e), p)
  {
    var r := Step(s, e);
    match e
    case EvSpawn(entry) =>
      SpawnStack(s, entry);
      var t := FreeSlot(s);
      if Spawn(s, entry).rc >= 0 {
        assert r.table[t].kstack / PAGE_SIZE != p;
        assert p * PAGE_SIZE / PAGE_SIZE == p;
        assert forall i :: Live(r, i) && i != t ==> Live(s, i) && r.table[i] == s.table[i];
      }
    case EvKill(pid) =>
      KillStack(s, pid);
      var t := FindSlot(s, pid);
      if Kill(s, pid).rc == 0 {
        assert StackOk(s.table[t], s.pages);
        if s.table[t].kstack != 0 { DifferentPages(s.table[t].kstack, p * PAGE_SIZE); }
        assert p * PAGE_SIZE / PAGE_SIZE == p;
        assert forall i :: Live(r, i) ==> Live(s, i) && r.table[i] == s.table[i];
      }
    case _ =>
      SameStacks(s, e);
      assert forall i :: Live(r, i) ==> Live(s, i) by { LiveOnlyShrinks(s, e); }
  }

  lemma LiveOnlyShrinks(s: Sched, e: Event)
    requires Sized(s) && !e.EvSpawn?
    ensures forall i :: Live(Step(s, e), i) ==> Live(s, i)
  {
    match e
    case EvTick =>
      TickedFrame(s);
      TickIs(s);
      ScheduleFrame(Ticked(s).(slice := 0));
    case EvYield => ScheduleFrame(s);
    case EvSleep(ticks) => if TaskRuns(s) { ScheduleFrame(Asleep(s, ticks)); }
    case EvKill(pid) => assert forall i :: Live(Kill(s, pid).s, i) ==> Live(s, i);
    case EvReturn => if TaskRuns(s) { ScheduleFrame(Returned(s)); }
  }

  /** A page lost that way stays used for good. */
  lemma {:induction false} LostForever(s: Sched, es: seq<Event>, p: nat)
    requires Good(s) && p >= LOW_PAGES && Lost(s, p)
    ensures Lost(Run(s, es), p)
    decreases |es|
  {
    if es != [] {
      StepLost(s, es[0], p);
      StepOwned(s, es[0]);
      LostForever(Step(s, es[0]), es[1..], p);
    }
  }
}
