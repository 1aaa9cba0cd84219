/** What every run of the scheduler keeps once scheduling is on. */
module ProcSafety {
  import opened ProcModel
  import PmmModel

  ghost predicate SlotOk(s: Sched, i: int)
    requires 0 <= i < |s.table|
  {
    var p := s.table[i];
    p.inUse ==>
      && p.pid < s.next
      && p.state in {Running, Ready, Blocked}
      && (p.state == Running && i != 0 ==> p.pid == s.cur)
      && (p.pid == s.cur ==> p.state == Running)
  }

  ghost predicate PidsDistinct(s: Sched) {
    forall i, j :: Live(s, i) && Live(s, j) && i != j ==> s.table[i].pid != s.table[j].pid
  }

  /**
   Live PIDs are distinct and below next_pid; a live RUNNING slot is slot 0 or the current one;
   PID 0 stays in slot 0; PID 1 stays in slot 1, RUNNING exactly when current and else READY.
   */
  ghost predicate Safe(s: Sched) {
    && Sized(s) && s.enabled && s.slice < TIME_SLICE_TICKS
    && s.next >= 2 && s.cur < s.next
    && LivePid(s, 0, 0) && s.table[0].state in {Running, Ready}
    && LivePid(s, 1, 1) && s.table[1].state == (if s.cur == 1 then Running else Ready)
    && PidsDistinct(s)
    && (forall i :: 0 <= i < MAX_PROCESSES ==> SlotOk(s, i))
  }

  lemma BootedSafe(pages: PmmModel.Pages, tick: nat, slice: nat, charged: nat)
    requires slice < TIME_SLICE_TICKS
    ensures Safe(Booted(pages, tick, slice, charged))
  {
  }

  /** The lookup finds the one slot of a live PID. */
  lemma FindIs(s: Sched, i: int)
    requires Sized(s) && PidsDistinct(s) && Live(s, i)
    ensures FindSlot(s, s.table[i].pid) == i
  {
    assert LivePid(s, i, s.table[i].pid);
  }

  /** What a scheduling pass may start from: as Safe, but the current slot may just have been suspended or given up. */
  ghost predicate PreSchedule(s: Sched) {
    && Sized(s) && s.enabled && s.slice < TIME_SLICE_TICKS
    && s.next >= 2 && s.cur < s.next
    && LivePid(s, 0, 0) && s.table[0].state in {Running, Ready}
    && LivePid(s, 1, 1) && s.table[1].state == (if s.cur == 1 then Running else Ready)
    && PidsDistinct(s)
    && (forall i :: 0 <= i < MAX_PROCESSES ==> SlotOk(s, i) || (Live(s, i) && s.table[i].pid == s.cur > 1 && s.table[i].state == Blocked))
  }

  /** Where the pass goes: with another current PID than 1 it always finds someone else. */
  lemma ScheduleTarget(s: Sched)
    requires PreSchedule(s)
    ensures var c := CurSlot(s); var d := ScanFrom(s, c, 1); var n := Around(c, d);
            && (s.cur != 1 ==> d != 0 && n != c)
            && (d != 0 && n != c ==> ReadyAt(s, n) && s.table[n].pid != s.cur)
            && (FindSlot(s, s.cur) < 0 ==> d == 1 && n == 1)
  {
    var c := CurSlot(s);
    var d := ScanFrom(s, c, 1);
    var n := Around(c, d);
    if FindSlot(s, s.cur) >= 0 {
      FindIs(s, c);
      assert SlotOk(s, c) || s.table[c].state == Blocked;
      assert !ReadyAt(s, c);
      if s.cur != 1 {
        Reach(c, 1);
        assert ReadyAt(s, 1);
      }
      if d != 0 { FindIs(s, n); }
    } else {
      assert s.cur != 1 by { assert LivePid(s, 1, 1); }
      assert ReadyAt(s, 1);
      assert Around(0, 1) == 1;
      assert d == 1;
    }
  }

  /** Steps from slot c on to reach slot t, a full circle when they are the same. */
  function Dist(c: int, t: int): (d: nat)
    requires 0 <= c < MAX_PROCESSES && 0 <= t < MAX_PROCESSES
    ensures 1 <= d <= MAX_PROCESSES
  {
    if t > c then t - c else t - c + MAX_PROCESSES
  }

  lemma Reach(c: int, t: int)
    requires 0 <= c < MAX_PROCESSES && 0 <= t < MAX_PROCESSES
    ensures Around(c, Dist(c, t)) == t
  {
  }

  lemma ScheduleKeeps(s: Sched)
    requires PreSchedule(s)
    ensures Safe(Schedule(s))
  {
    ScheduleTarget(s);
    var c := CurSlot(s);
    var d := ScanFrom(s, c, 1);
    var n := Around(c, d);
    var r := Schedule(s);
    if d != 0 && n != c {
      SwitchKeeps(s, c, n);
    } else {
      StayKeeps(s);
    }
  }

  lemma StayKeeps(s: Sched)
    requires PreSchedule(s) && s.cur == 1
    ensures Safe(s)
  {
    forall i | 0 <= i < MAX_PROCESSES ensures SlotOk(s, i) {
      if !SlotOk(s, i) { assert false; }
    }
  }

  lemma SwitchKeeps(s: Sched, c: int, n: int)
    requires PreSchedule(s) && c == CurSlot(s) && 0 <= n < MAX_PROCESSES && n != c && ReadyAt(s, n)
    ensures Safe(SwitchTo(s, c, n))
  {
    var r := SwitchTo(s, c, n);
    assert forall i :: 0 <= i < MAX_PROCESSES ==> r.table[i].inUse == s.table[i].inUse && r.table[i].pid == s.table[i].pid;
    assert forall i :: Live(r, i) <==> Live(s, i);
    forall i | 0 <= i < MAX_PROCESSES
      ensures SlotOk(r, i)
    {
      assert SlotOk(s, i) || s.table[i].state == Blocked;
      if Live(s, i) {
        if i != n { assert s.table[i].pid != s.table[n].pid; }
        if i != c && FindSlot(s, s.cur) >= 0 { assert s.table[i].pid != s.table[c].pid; }
      }
    }
  }

  lemma SpawnKeeps(s: Sched, entry: nat)
    requires Safe(s)
    ensures Safe(Spawn(s, entry).s)
  {
    var r := Spawn(s, entry).s;
    var slot := FreeSlot(s);
    forall i | 0 <= i < MAX_PROCESSES
      ensures SlotOk(r, i)
    {
      assert SlotOk(s, i);
    }
    forall i, j | Live(r, i) && Live(r, j) && i != j
      ensures r.table[i].pid != r.table[j].pid
    {
      assert i != slot ==> Live(s, i) && SlotOk(s, i);
      assert j != slot ==> Live(s, j) && SlotOk(s, j);
    }
  }

  /** Giving up a slot of a PID above 1. */
  lemma DropKeeps(s: Sched, i: int, p: Proc)
    requires Safe(s) && Live(s, i) && s.table[i].pid > 1 && !p.inUse
    ensures Safe(SetProc(s, i, p))
  {
    var r := SetProc(s, i, p);
    assert i != 0 && i != 1;
    forall j | 0 <= j < MAX_PROCESSES
      ensures SlotOk(r, j)
    {
      assert SlotOk(s, j);
    }
    assert forall j :: Live(r, j) ==> Live(s, j) && r.table[j] == s.table[j];
  }

  /** Changing clock, pages and charges, and waking sleepers, changes nothing the invariant is about. */
  lemma SafeTransfer(s: Sched, r: Sched)
    requires Safe(s) && Sized(r) && r.slice < TIME_SLICE_TICKS
    requires r.cur == s.cur && r.next == s.next && r.enabled == s.enabled
    requires forall i :: 0 <= i < MAX_PROCESSES ==>
               && r.table[i].pid == s.table[i].pid && r.table[i].inUse == s.table[i].inUse
               && (r.table[i].state == s.table[i].state || (s.table[i].state == Blocked && r.table[i].state == Ready))
    ensures Safe(r)
  {
    assert forall i :: Live(r, i) <==> Live(s, i);
    forall i | 0 <= i < MAX_PROCESSES
      ensures SlotOk(r, i)
    {
      assert SlotOk(s, i);
    }
  }

  lemma KillKeeps(s: Sched, pid: nat)
    requires Safe(s)
    ensures Safe(Kill(s, pid).s)
  {
    var slot := FindSlot(s, pid);
    if slot >= 0 && pid > 1 {
      var p := s.table[slot].(state := Terminated, inUse := false, kstack := 0);
      DropKeeps(s, slot, p);
      SafeTransfer(SetProc(s, slot, p), Kill(s, pid).s);
    }
  }

  lemma SafeIsPre(s: Sched)
    requires Safe(s)
    ensures PreSchedule(s)
  {
  }

  lemma TickedKeeps(s: Sched)
    requires Safe(s)
    ensures Safe(Ticked(s).(slice := 0))
  {
    TickedFrame(s);
    SafeTransfer(s, Ticked(s).(slice := 0));
  }

  lemma TickKeeps(s: Sched)
    requires Safe(s)
    ensures Safe(Tick(s))
  {
    TickedKeeps(s);
    var t := Ticked(s);
    if t.slice >= TIME_SLICE_TICKS {
      SafeIsPre(t.(slice := 0));
      ScheduleKeeps(t.(slice := 0));
    } else {
      SliceBack(t);
    }
  }

  lemma SliceBack(t: Sched)
    requires Safe(t.(slice := 0)) && t.slice < TIME_SLICE_TICKS
    ensures Safe(t)
  {
    SafeTransfer(t.(slice := 0), t);
  }

  lemma SleepKeeps(s: Sched, ticks: nat)
    requires Safe(s)
    ensures Safe(Sleep(s, ticks))
  {
    if TaskRuns(s) {
      var a := Asleep(s, ticks);
      assert forall i :: 0 <= i < MAX_PROCESSES ==> a.table[i].inUse == s.table[i].inUse && a.table[i].pid == s.table[i].pid;
      assert forall i :: Live(a, i) <==> Live(s, i);
      forall i | 0 <= i < MAX_PROCESSES
        ensures SlotOk(a, i) || (Live(a, i) && a.table[i].pid == a.cur > 1 && a.table[i].state == Blocked)
      {
        assert SlotOk(s, i);
      }
      ScheduleKeeps(a);
    }
  }

  lemma ReturnKeeps(s: Sched)
    requires Safe(s)
    ensures Safe(ReturnFromEntry(s))
  {
    if TaskRuns(s) {
      var slot := FindSlot(s, s.cur);
      assert slot > 1;
      assert s.table[slot].pid > 1 by { assert Live(s, 0) && Live(s, 1); }
      DropKeeps(s, slot, Returned(s).table[slot]);
      SafeIsPre(Returned(s));
      ScheduleKeeps(Returned(s));
    }
  }

  /** Every event keeps the invariant. */
  lemma StepKeeps(s: Sched, e: Event)
    requires Safe(s)
    ensures Safe(Step(s, e))
  {
    match e
    case EvTick => TickKeeps(s);
    case EvYield => SafeIsPre(s); ScheduleKeeps(s);
    case EvSleep(ticks) => SleepKeeps(s, ticks);
    case EvSpawn(entry) => SpawnKeeps(s, entry);
    case EvKill(pid) => KillKeeps(s, pid);
    case EvReturn => ReturnKeeps(s);
  }

  lemma {:induction false} RunKeeps(s: Sched, es: seq<Event>)
    requires Safe(s)
    ensures Safe(Run(s, es))
    decreases |es|
  {
    if es != [] {
      StepKeeps(s, es[0]);
      RunKeeps(Step(s, es[0]), es[1..]);
    }
  }

  /** From the start of the shell on, whatever happens in whatever order. */
  lemma EveryRun(pages: PmmModel.Pages, tick: nat, slice: nat, charged: nat, es: seq<Event>)
    requires slice < TIME_SLICE_TICKS
    ensures Safe(Run(Booted(pages, tick, slice, charged), es))
    ensures |Run(Booted(pages, tick, slice, charged), es).table| == 16
  {
    BootedSafe(pages, tick, slice, charged);
    RunKeeps(Booted(pages, tick, slice, charged), es);
  }

  /**
   A scheduling pass always leaves a current process other than PID 1, and goes straight to PID 1
   when the current process is gone.
   */
  lemma ScheduleSwitches(s: Sched)
    requires Safe(s)
    ensures s.cur != 1 ==> Schedule(s).cur != s.cur
    ensures FindSlot(s, s.cur) < 0 ==> Schedule(s).cur == 1
  {
    SafeIsPre(s);
    ScheduleTarget(s);
    var c := CurSlot(s);
    var n := Around(c, ScanFrom(s, c, 1));
    if FindSlot(s, s.cur) < 0 { assert LivePid(s, 1, 1); }
  }
}
