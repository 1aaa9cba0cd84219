/** What spawn and kill leave, slot by slot, and what a task finds when it first runs. */
module ProcCalls {
  import opened ProcModel
  import opened ProcSafety
  import opened BoundedWait
  import opened StackPages
  import opened PmmModel

  /** A spawn that succeeds fills the lowest free slot with a READY process of the next PID, and touches no other. */
  lemma SpawnOutcome(s: Sched, entry: nat)
    requires Good(s) && Spawn(s, entry).rc >= 0
    ensures var r := Spawn(s, entry); var t := FreeSlot(s); var p := r.s.table[t];
            && r.rc == s.next && Waits(r.s, t, s.next) && p.entry == entry && p.ticksUsed == 0 && p.wakeTick == 0
            && p.kstack == LowestFree(s.pages.used, 0) * 4096 && p.savedEsp == p.kstack + 4096 - 36
            && r.s == s.(table := r.s.table, next := s.next + 1, pages := r.s.pages)
            && forall i :: 0 <= i < 16 && i != t ==> r.s.table[i] == s.table[i]
  {
    SpawnStack(s, entry);
  }

  /** A kill that succeeds removes that PID from the table, and touches no other slot. */
  lemma KillOutcome(s: Sched, pid: nat)
    requires Good(s) && Kill(s, pid).rc == 0
    ensures var r := Kill(s, pid).s; var t := FindSlot(s, pid);
            && LivePid(s, t, pid) && t >= 2 && (forall i :: !LivePid(r, i, pid)) && r.table[t].kstack == 0
            && r == s.(table := r.table, pages := r.pages)
            && forall i :: 0 <= i < 16 && i != t ==> r.table[i] == s.table[i]
  {
    var t := FindSlot(s, pid);
    assert LivePid(s, 0, 0) && LivePid(s, 1, 1);
    var r := Kill(s, pid).s;
    forall i ensures !LivePid(r, i, pid) {
      if LivePid(r, i, pid) { FindIs(s, i); }
    }
  }

  /** No event that leaves a process in the table changes its entry. */
  lemma EntryKept(s: Sched, e: Event, t: int, q: nat)
    requires Good(s) && LivePid(s, t, q) && e != EvKill(q) && !(e == EvReturn && s.cur == q)
    ensures LivePid(Step(s, e), t, q) && Step(s, e).table[t].entry == s.table[t].entry
  {
    match e
    case EvTick => TickedEntry(s, t);
    case EvYield => ScheduleFrame(s);
    case EvSleep(ticks) => if TaskRuns(s) { ScheduleFrame(Asleep(s, ticks)); }
    case EvSpawn(entry) => assert FreeSlot(s) != t;
    case EvKill(pid) => assert FindSlot(s, pid) != t;
    case EvReturn => if TaskRuns(s) { ReturnEntry(s, t, q); }
  }

  lemma TickedEntry(s: Sched, t: int)
    requires Sized(s) && 0 <= t < MAX_PROCESSES
    ensures var r := Tick(s);
            r.table[t].entry == s.table[t].entry && r.table[t].inUse == s.table[t].inUse && r.table[t].pid == s.table[t].pid
  {
    TickedFrame(s);
    TickIs(s);
    ScheduleFrame(Ticked(s).(slice := 0));
  }

  lemma ReturnEntry(s: Sched, t: int, q: nat)
    requires Good(s) && TaskRuns(s) && LivePid(s, t, q) && s.cur != q
    ensures LivePid(ReturnFromEntry(s), t, q) && ReturnFromEntry(s).table[t].entry == s.table[t].entry
  {
    ScheduleFrame(Returned(s));
    assert FindSlot(s, s.cur) != t;
  }

  lemma {:induction false} RunEntry(s: Sched, es: seq<Event>, t: int, q: nat)
    requires Good(s) && LivePid(s, t, q) && Survives(s, es, q)
    ensures LivePid(Run(s, es), t, q) && Run(s, es).table[t].entry == s.table[t].entry
    decreases |es|
  {
    if es != [] {
      EntryKept(s, es[0], t, q);
      StepOwned(s, es[0]);
      RunEntry(Step(s, es[0]), es[1..], t, q);
    }
  }

  /** Whenever a spawned process is current, the wrapper finds in its slot the entry it was spawned with. */
  lemma EntryFound(s: Sched, entry: nat, es: seq<Event>)
    requires Good(s) && Spawn(s, entry).rc >= 0 && Survives(Spawn(s, entry).s, es, Spawn(s, entry).rc)
    ensures var a := Spawn(s, entry); var r := Run(a.s, es);
            FindSlot(r, a.rc) >= 0 && r.table[FindSlot(r, a.rc)].entry == entry
  {
    var a := Spawn(s, entry);
    SpawnOutcome(s, entry);
    StepOwned(s, EvSpawn(entry));
    RunEntry(a.s, es, FreeSlot(s), a.rc);
    RunOwned(a.s, es);
    FindIs(Run(a.s, es), FreeSlot(s));
  }
}
