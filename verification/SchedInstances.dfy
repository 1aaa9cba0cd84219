/** Concrete runs from boot in which the process table does something unexpected. */
module SchedInstances {
  import opened ProcModel
  import opened ProcSafety
  import opened BoundedWait
  import opened Starvation
  import opened StackPages
  import opened SleepTicks
  import opened PmmModel

  /** Two spawns, then the shell yields: PID 2 runs, with a page of its own, and no tick has passed. */
  function SecondRuns(entry: nat): seq<Event> { [EvSpawn(entry)] + [EvSpawn(entry)] + [EvYield] }

  lemma SecondIsRunning(pages: Pages, entry: nat)
    requires Counted(pages) && |pages.used| + 2 <= MAX_PAGES
    ensures var s := Run(Booted(pages, 0, 0, 0), SecondRuns(entry));
            Good(s) && s.cur == 2 && LivePid(s, 2, 2) && s.table[2].kstack != 0 && FindSlot(s, 2) == 2 && s.tick == 0
  {
    var s0 := Booted(pages, 0, 0, 0);
    var two := [EvSpawn(entry)] + [EvSpawn(entry)];
    TrapReachable(pages, entry);
    FirstPass(Run(s0, two), 2, 3);
    RunAppend(s0, two, [EvYield]);
    LastYield(Run(s0, two));
    FindIs(Schedule(Run(s0, two)), 2);
    RunTicks(s0, SecondRuns(entry));
    NoTicks(entry);
  }

  lemma LastYield(s: Sched)
    requires Sized(s)
    ensures Run(s, [EvYield]) == Schedule(s)
  {
    Cons(s, EvYield, [], 0);
    assert [EvYield] + [] == [EvYield];
  }

  lemma NoTicks(entry: nat)
    ensures AllTicks(SecondRuns(entry)) == 0
  {
    var es := SecondRuns(entry);
    assert es[1..] == [EvSpawn(entry)] + [EvYield] && es[1..][1..] == [EvYield];
    assert AllTicks(es[1..][1..]) == AllTicks(es[1..][1..][1..]) == 0;
    assert AllTicks(es[1..]) == AllTicks(es[1..][1..]);
  }

  /** sleep(0) at tick 0: the sleeper is never READY again, whatever happens, unless it is killed. */
  lemma SleepZeroNeverEnds(pages: Pages, entry: nat, es: seq<Event>)
    requires Counted(pages) && |pages.used| + 2 <= MAX_PAGES && NotKilled(es, 2)
    ensures var s := Run(Booted(pages, 0, 0, 0), SecondRuns(entry));
            SleepsUntil(Run(Sleep(s, 0), es), 2, 2, 0)
  {
    SecondIsRunning(pages, entry);
    SleepZero(Run(Booted(pages, 0, 0, 0), SecondRuns(entry)), es);
  }

  /** PID 2 returns from its entry: its page is used for good and nobody's. */
  lemma PageIsLost(pages: Pages, entry: nat, es: seq<Event>)
    requires Counted(pages) && |pages.used| + 2 <= MAX_PAGES
    ensures var s := Run(Booted(pages, 0, 0, 0), SecondRuns(entry));
            Lost(Run(ReturnFromEntry(s), es), s.table[2].kstack / PAGE_SIZE)
  {
    SecondIsRunning(pages, entry);
    LosesItsPage(Run(Booted(pages, 0, 0, 0), SecondRuns(entry)), es);
  }

  lemma LosesItsPage(s: Sched, es: seq<Event>)
    requires Good(s) && s.cur == 2 && LivePid(s, 2, 2) && s.table[2].kstack != 0 && FindSlot(s, 2) == 2
    ensures Lost(Run(ReturnFromEntry(s), es), s.table[2].kstack / PAGE_SIZE)
  {
    var p := s.table[2].kstack / PAGE_SIZE;
    assert StackOk(s.table[2], s.pages);
    ReturnLosesPage(s, 2, p);
    StepOwned(s, EvReturn);
    LostForever(ReturnFromEntry(s), es, p);
  }

  /** The page of a spawn and all below it are used, and stay used when more processes are spawned. */
  lemma LowPagesTaken(s: Sched, entry: nat, next: nat)
    requires Good(s) && Spawn(s, entry).rc >= 0
    ensures var r := Spawn(s, entry).s; var t := FreeSlot(s); var u := Spawn(r, next).s;
            && Good(r) && u.table[t] == r.table[t]
            && forall p :: 0 <= p <= r.table[t].kstack / PAGE_SIZE ==> p in u.pages.used
  {
    SpawnStack(s, entry);
    AllocCounted(s.pages);
    StepOwned(s, EvSpawn(entry));
    var r := Spawn(s, entry).s;
    SpawnStack(r, next);
    assert Live(r, FreeSlot(s));
  }

  /** PID 2 kills itself: the page it runs on goes to the next spawn. */
  lemma StackGivenAway(pages: Pages, entry: nat)
    requires Counted(pages) && |pages.used| + 2 <= MAX_PAGES
    ensures var s := Run(Booted(pages, 0, 0, 0), SecondRuns(entry)); var r := Kill(s, 2).s; var a := Spawn(r, entry);
            s.table[2].kstack != 0 && a.rc >= 0 && a.s.table[FreeSlot(r)].kstack == s.table[2].kstack
  {
    var s0 := Booted(pages, 0, 0, 0);
    var s := Run(s0, SecondRuns(entry));
    SecondIsRunning(pages, entry);
    FirstSpawn(pages, entry);
    LowPagesTaken(s0, entry, entry);
    TwoSpawns(s0, entry);
    var two := [EvSpawn(entry)] + [EvSpawn(entry)];
    RunAppend(s0, two, [EvYield]);
    LastYield(Run(s0, two));
    ScheduleFrame(Run(s0, two));
    SelfKillFreesStack(s, entry);
  }

  lemma FirstSpawn(pages: Pages, entry: nat)
    requires Counted(pages) && |pages.used| < MAX_PAGES
    ensures var s := Booted(pages, 0, 0, 0); Good(s) && FreeSlot(s) == 2 && Spawn(s, entry).rc >= 0
  {
    var s := Booted(pages, 0, 0, 0);
    BootOwned(pages, 0, 0, 0);
    assert Live(s, 0) && Live(s, 1) && !Live(s, 2);
    AllocCounted(pages);
  }
}
