/**
 Why the bound of BoundedWait counts deaths of the current process: every death restarts the scan
 at slot 0. A task in slot 2 that is dispatched, killed and spawned again, over and over, keeps the
 READY slot 3 waiting through any number of scheduling passes.
 */
module Starvation {
  import opened ProcModel
  import opened ProcSafety
  import opened BoundedWait
  import opened StackPages
  import opened PmmModel

  /** The shell runs, PID p stands ready with a stack in slot 2, PID q waits in slot 3. */
  ghost predicate Trap(s: Sched, p: nat, q: nat) {
    Good(s) && s.cur == 1 && Waits(s, 2, p) && s.table[2].kstack != 0 && Waits(s, 3, q)
  }

  function Cycle(p: nat, entry: nat): seq<Event> { [EvYield, EvKill(p), EvYield, EvSpawn(entry)] }

  /** m rounds; each kills the process the previous one spawned. */
  function Cycles(p: nat, next: nat, entry: nat, m: nat): seq<Event>
    decreases m, next
  {
    if m == 0 then [] else Cycle(p, entry) + Cycles(next, next + 1, entry, m - 1)
  }

  lemma FirstPass(s: Sched, p: nat, q: nat)
    requires Trap(s, p, q)
    ensures var r := Schedule(s);
            Good(r) && r.cur == p > 1 && p != q && LivePid(r, 2, p) && r.table[2].kstack == s.table[2].kstack
            && Waits(r, 3, q) && r.next == s.next && r.pages == s.pages
  {
    assert Live(s, 0) && Live(s, 1);
    FindIs(s, 1);
    assert CurSlot(s) == 1;
    assert Around(1, 1) == 2 && ReadyAt(s, Around(1, 1));
    assert ScanFrom(s, 1, 1) == 1;
    assert Schedule(s) == SwitchTo(s, 1, 2);
    StepOwned(s, EvYield);
    ScheduleFrame(s);
  }

  lemma KillSelf(s: Sched, p: nat, q: nat)
    requires Good(s) && s.cur == p > 1 && p != q && LivePid(s, 2, p) && s.table[2].kstack != 0 && Waits(s, 3, q)
    ensures var r := Kill(s, p).s;
            Good(r) && FindSlot(r, r.cur) < 0 && !Live(r, 2) && Waits(r, 3, q) && r.next == s.next && r.cur == p
            && |r.pages.used| < MAX_PAGES
  {
    FindIs(s, 2);
    StepOwned(s, EvKill(p));
    KillStack(s, p);
    assert StackOk(s.table[2], s.pages);
    UsedBound(s.pages);
    var r := Kill(s, p).s;
    assert s.table[2].kstack / PAGE_SIZE in s.pages.used;
    UsedBound(r.pages);
    assert s.table[2].kstack / PAGE_SIZE !in r.pages.used;
    assert forall i :: LivePid(r, i, p) ==> Live(s, i) && i != 2;
  }

  lemma SecondPass(s: Sched, q: nat)
    requires Good(s) && FindSlot(s, s.cur) < 0 && !Live(s, 2) && Waits(s, 3, q) && |s.pages.used| < MAX_PAGES
    ensures var r := Schedule(s);
            Good(r) && r.cur == 1 && !Live(r, 2) && Waits(r, 3, q) && r.next == s.next && r.pages == s.pages
  {
    ScheduleSwitches(s);
    StepOwned(s, EvYield);
    ScheduleFrame(s);
    var r := Schedule(s);
    SafeIsPre(s);
    PassShrinks(s, 3, q);
    FindIs(s, 3);
    FindIs(s, 1);
    assert q != 1;
  }

  lemma SpawnAgain(s: Sched, entry: nat, q: nat)
    requires Good(s) && s.cur == 1 && !Live(s, 2) && Waits(s, 3, q) && |s.pages.used| < MAX_PAGES
    ensures var r := Spawn(s, entry).s;
            Trap(r, s.next, q) && r.next == s.next + 1
  {
    assert Live(s, 0) && Live(s, 1);
    assert FreeSlot(s) == 2;
    SpawnStack(s, entry);
    StepOwned(s, EvSpawn(entry));
  }

  /** One event in front of a run. */
  lemma Cons(s: Sched, e: Event, es: seq<Event>, q: nat)
    requires Sized(s)
    ensures var r := Step(s, e);
            && Run(s, [e] + es) == Run(r, es)
            && AllPasses(s, [e] + es) == Passes(s, e) + AllPasses(r, es)
            && (Dispatched(s, [e] + es, q) <==> s.cur == q || Dispatched(r, es, q))
  {
    assert ([e] + es)[1..] == es;
  }

  lemma CycleIs(p: nat, entry: nat, rest: seq<Event>)
    ensures Cycle(p, entry) + rest == [EvYield] + ([EvKill(p)] + ([EvYield] + ([EvSpawn(entry)] + rest)))
  {
  }

  lemma ThirdIsNotFirst(s: Sched, q: nat)
    requires Good(s) && Waits(s, 3, q)
    ensures q != 1
  {
    FindIs(s, 3);
    FindIs(s, 1);
  }

  /** One cycle leads back into a trap, without dispatching slot 3. */
  lemma CycleRuns(s: Sched, p: nat, q: nat, entry: nat, rest: seq<Event>) returns (r: Sched)
    requires Trap(s, p, q)
    ensures Trap(r, s.next, q) && r.next == s.next + 1
    ensures var es := Cycle(p, entry) + rest;
            && Run(s, es) == Run(r, rest)
            && AllPasses(s, es) == 2 + AllPasses(r, rest)
            && (Dispatched(s, es, q) <==> Dispatched(r, rest, q))
  {
    ThirdIsNotFirst(s, q);
    FirstPass(s, p, q);
    var s1 := Schedule(s);
    KillSelf(s1, p, q);
    var s2 := Kill(s1, p).s;
    SecondPass(s2, q);
    var s3 := Schedule(s2);
    SpawnAgain(s3, entry, q);
    r := Spawn(s3, entry).s;
    CycleIs(p, entry, rest);
    Cons(s, EvYield, [EvKill(p)] + ([EvYield] + ([EvSpawn(entry)] + rest)), q);
    Cons(s1, EvKill(p), [EvYield] + ([EvSpawn(entry)] + rest), q);
    Cons(s2, EvYield, [EvSpawn(entry)] + rest, q);
    Cons(s3, EvSpawn(entry), rest, q);
  }

  lemma {:induction false} CyclesSpare(p: nat, next: nat, entry: nat, m: nat, q: nat)
    requires p != q && q < next
    ensures NotKilled(Cycles(p, next, entry, m), q)
    decreases m
  {
    if m > 0 { CyclesSpare(next, next + 1, entry, m - 1, q); }
  }

  lemma TrapApart(s: Sched, p: nat, q: nat)
    requires Trap(s, p, q)
    ensures p != q && q != 1 && q < s.next && s.cur != q
  {
    FirstPass(s, p, q);
    ThirdIsNotFirst(s, q);
    assert SlotOk(s, 3);
  }

  /** Slot 3 stays READY and is never dispatched in m cycles, which make 2 m passes. */
  ghost predicate Starving(s: Sched, p: nat, q: nat, entry: nat, m: nat)
    requires Sized(s)
  {
    var es := Cycles(p, s.next, entry, m);
    AllPasses(s, es) == 2 * m && !Dispatched(s, es, q) && Waits(Run(s, es), 3, q)
  }

  lemma {:induction false} StarvesOn(s: Sched, p: nat, q: nat, entry: nat, m: nat)
    requires Trap(s, p, q)
    ensures Starving(s, p, q, entry, m)
    decreases m
  {
    if m == 0 {
      TrapApart(s, p, q);
    } else {
      var rest := Cycles(s.next, s.next + 1, entry, m - 1);
      var r := CycleRuns(s, p, q, entry, rest);
      StarvesOn(r, s.next, q, entry, m - 1);
      assert Cycles(p, s.next, entry, m) == Cycle(p, entry) + rest;
    }
  }

  /** For every m there is a run of 2 m passes, killing others only, in which slot 3 is never dispatched. */
  lemma Starves(s: Sched, p: nat, q: nat, entry: nat, m: nat)
    requires Trap(s, p, q)
    ensures var es := Cycles(p, s.next, entry, m);
            && NotKilled(es, q) && AllPasses(s, es) == 2 * m
            && !Dispatched(s, es, q) && Waits(Run(s, es), 3, q)
  {
    TrapApart(s, p, q);
    CyclesSpare(p, s.next, entry, m, q);
    StarvesOn(s, p, q, entry, m);
  }

  lemma SpawnIn(s: Sched, entry: nat, slot: int)
    requires Good(s) && |s.pages.used| < MAX_PAGES && 2 <= slot < MAX_PROCESSES && s.cur == 1
    requires !Live(s, slot) && forall i :: 0 <= i < slot ==> Live(s, i)
    ensures var r := Spawn(s, entry).s;
            && Good(r) && r.cur == 1 && Waits(r, slot, s.next) && r.table[slot].kstack != 0 && r.next == s.next + 1
            && (forall i :: 0 <= i < MAX_PROCESSES && i != slot ==> r.table[i] == s.table[i])
            && |r.pages.used| == |s.pages.used| + 1
  {
    assert FreeSlot(s) == slot;
    SpawnStack(s, entry);
    StepOwned(s, EvSpawn(entry));
  }

  /** The trap is reachable: two spawns after boot set it up. */
  lemma TrapReachable(pages: Pages, entry: nat)
    requires Counted(pages) && |pages.used| + 2 <= MAX_PAGES
    ensures var s := Run(Booted(pages, 0, 0, 0), [EvSpawn(entry)] + [EvSpawn(entry)]);
            Trap(s, 2, 3)
  {
    var s0 := Booted(pages, 0, 0, 0);
    BootOwned(pages, 0, 0, 0);
    assert Live(s0, 0) && Live(s0, 1) && !Live(s0, 2) && !Live(s0, 3);
    SpawnIn(s0, entry, 2);
    var s1 := Spawn(s0, entry).s;
    assert Live(s1, 0) && Live(s1, 1) && Live(s1, 2) && !Live(s1, 3);
    SpawnIn(s1, entry, 3);
    TwoSpawns(s0, entry);
  }

  lemma TwoSpawns(s: Sched, entry: nat)
    requires Sized(s)
    ensures Run(s, [EvSpawn(entry)] + [EvSpawn(entry)]) == Spawn(Spawn(s, entry).s, entry).s
  {
    Cons(s, EvSpawn(entry), [EvSpawn(entry)], 0);
    var s1 := Spawn(s, entry).s;
    assert [EvSpawn(entry)] + [] == [EvSpawn(entry)];
    Cons(s1, EvSpawn(entry), [], 0);
  }
}
