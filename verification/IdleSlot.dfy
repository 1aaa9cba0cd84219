/**
 Slot 0, the kernel's own: RUNNING from the start although it never runs. It keeps out of the round
 exactly until a scheduling pass is made on behalf of a process that is gone. Such a pass scans from
 slot 0, stores the context of the dead process there and makes slot 0 READY, so that it is dispatched
 from then on like any other.
 */
module IdleSlot {
  import opened ProcModel
  import opened ProcSafety
  import opened BoundedWait
  import PmmModel

  ghost predicate Quiet(s: Sched) { Sized(s) && s.table[0].state == Running && s.cur != 0 }

  /** Event e makes a scheduling pass whose caller is no longer in the table. */
  predicate OrphanPass(s: Sched, e: Event)
    requires Sized(s)
  {
    match e
    case EvTick => s.slice + 1 >= TIME_SLICE_TICKS && FindSlot(s, s.cur) < 0
    case EvYield => FindSlot(s, s.cur) < 0
    case EvReturn => TaskRuns(s)
    case _ => false
  }

  predicate AnyOrphanPass(s: Sched, es: seq<Event>)
    requires Sized(s)
    decreases |es|, s
  {
    es != [] && (OrphanPass(s, es[0]) || AnyOrphanPass(Step(s, es[0]), es[1..]))
  }

  /** What one pass does to slot 0. */
  lemma PassAtZero(s: Sched)
    requires PreSchedule(s)
    ensures Quiet(s) ==> (Quiet(Schedule(s)) <==> FindSlot(s, s.cur) >= 0)
    ensures !Quiet(s) ==> !Quiet(Schedule(s))
  {
    ScheduleTarget(s);
    var c := CurSlot(s);
    var n := Around(c, ScanFrom(s, c, 1));
    assert LivePid(s, 0, 0);
    if FindSlot(s, s.cur) >= 0 { FindIs(s, c); }
    if s.cur == 0 { FindIs(s, 0); }
    if Live(s, n) && n != 0 { assert s.table[n].pid != 0; }
  }

  lemma TickAtZero(s: Sched)
    requires Safe(s)
    ensures var u := Ticked(s).(slice := 0);
            PreSchedule(u) && (Quiet(u) <==> Quiet(s)) && FindSlot(u, u.cur) == FindSlot(s, s.cur)
  {
    var u := Ticked(s).(slice := 0);
    TickedFrame(s);
    ProcessTickPre(s);
    SameFind(s, u, s.cur);
  }

  lemma StepAtZero(s: Sched, e: Event)
    requires Safe(s)
    ensures Quiet(Step(s, e)) <==> Quiet(s) && !OrphanPass(s, e)
  {
    assert LivePid(s, 0, 0);
    match e
    case EvTick =>
      TickAtZero(s);
      PassAtZero(Ticked(s).(slice := 0));
    case EvYield =>
      SafeIsPre(s);
      PassAtZero(s);
    case EvSleep(ticks) =>
      if TaskRuns(s) {
        AsleepPre(s, ticks);
        StillThere(s, Asleep(s, ticks));
        PassAtZero(Asleep(s, ticks));
      }
    case EvSpawn(entry) => assert Quiet(Spawn(s, entry).s) <==> Quiet(s);
    case EvKill(pid) => assert Quiet(Kill(s, pid).s) <==> Quiet(s);
    case EvReturn => if TaskRuns(s) { ReturnAtZero(s); }
  }

  lemma StillThere(s: Sched, a: Sched)
    requires Sized(s) && Sized(a) && a.cur == s.cur
    requires forall i :: 0 <= i < MAX_PROCESSES ==> a.table[i].pid == s.table[i].pid && a.table[i].inUse == s.table[i].inUse
    ensures FindSlot(a, a.cur) == FindSlot(s, s.cur)
  {
    SameFind(s, a, s.cur);
  }

  lemma ReturnAtZero(s: Sched)
    requires Safe(s) && TaskRuns(s)
    ensures !Quiet(ReturnFromEntry(s))
  {
    var a := Returned(s);
    var slot := FindSlot(s, s.cur);
    assert Live(s, 0) && Live(s, 1);
    DropKeeps(s, slot, a.table[slot]);
    SafeIsPre(a);
    assert forall i :: LivePid(a, i, s.cur) ==> LivePid(s, i, s.cur) && i != slot;
    PassAtZero(a);
  }

  lemma {:induction false} RunAtZero(s: Sched, es: seq<Event>)
    requires Safe(s)
    ensures Quiet(Run(s, es)) <==> Quiet(s) && !AnyOrphanPass(s, es)
    decreases |es|
  {
    if es != [] {
      StepAtZero(s, es[0]);
      StepKeeps(s, es[0]);
      RunAtZero(Step(s, es[0]), es[1..]);
    }
  }

  /** In every run, slot 0 stays out of the round exactly as long as no pass is made for a process that is gone. */
  lemma IdleStaysOut(pages: PmmModel.Pages, tick: nat, slice: nat, charged: nat, es: seq<Event>)
    requires slice < TIME_SLICE_TICKS
    ensures var s := Booted(pages, tick, slice, charged);
            Quiet(Run(s, es)) <==> !AnyOrphanPass(s, es)
  {
    var s := Booted(pages, tick, slice, charged);
    BootedSafe(pages, tick, slice, charged);
    RunAtZero(s, es);
  }

  /** Once it is in the round it is dispatched like any other READY slot. */
  lemma OrphanRunsAsKernel(s: Sched, es: seq<Event>)
    requires Safe(s) && !Quiet(s)
    requires AllPasses(s, es) >= 16 + 15 * AllDeaths(s, es)
    ensures Dispatched(s, es, 0)
  {
    if s.cur != 0 { DispatchedByPasses(s, es, 0, 0); }
  }
}
