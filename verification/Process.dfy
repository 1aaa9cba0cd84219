/** src/process.c and src/timer.c: the static tables and counters, and the calls that update them in place. */
module Process {
  import opened ProcModel
  import ContextSwitch
  import Pmm

  class Kernel {
    const table: array<Proc>
    const pmm: Pmm.Allocator
    var cur: nat
    var next: nat
    var enabled: bool
    var tick: nat
    var slice: nat

    ghost predicate Valid()
      reads this, table, pmm, pmm.bitmap
    {
      table.Length == MAX_PROCESSES && pmm.Valid()
    }

    ghost function State(): (s: Sched)
      requires Valid()
      reads this, table, pmm, pmm.bitmap
      ensures Sized(s)
    {
      Sched(table[..], cur, next, enabled, tick, slice, pmm.State())
    }

    /** process_init; scheduling is off until SetSchedulingEnabled. */
    constructor (pmm: Pmm.Allocator)
      requires pmm.Valid()
      ensures Valid() && fresh(table) && this.pmm == pmm
      ensures State() == Booted(pmm.State(), 0, 0, 0).(enabled := false)
    {
      table := new Proc[MAX_PROCESSES](_ => EmptyProc());
      this.pmm := pmm;
      cur, next := 0, 1;
      enabled := false;
      tick, slice := 0, 0;
      new;
      table[0] := table[0].(pid := 0);
      table[0] := table[0].(state := Running);
      table[0] := table[0].(inUse := true);
      table[1] := table[1].(pid := 1);
      table[1] := table[1].(state := Running);
      table[1] := table[1].(inUse := true);
      cur, next := 1, 2;
      assert table[..] == Booted(pmm.State(), 0, 0, 0).table;
    }

    method SetSchedulingEnabled(on: bool)
      requires Valid()
      modifies this
      ensures Valid() && State() == old(State()).(enabled := on)
    {
      enabled := on;
    }

    method FindSlotByPid(pid: nat) returns (r: int)
      requires Valid()
      ensures r == FindSlot(State(), pid)
    {
      for i := 0 to MAX_PROCESSES
        invariant forall j :: 0 <= j < i ==> !LivePid(State(), j, pid)
      {
        assert LivePid(State(), i, pid) == (table[i].inUse && table[i].pid == pid);
        if table[i].inUse && table[i].pid == pid { return i; }
      }
      return -1;
    }

    /** process_create_kernel, up to the words it writes on the new stack. */
    method CreateKernel(entry: nat) returns (rc: int)
      requires Valid()
      modifies this, table, pmm, pmm.bitmap
      ensures Valid() && Ret(State(), rc) == Spawn(old(State()), entry)
    {
      ghost var s := State();
      var slot := FindFreeSlot();
      if slot < 0 { return -1; }
      var stack := pmm.AllocPage();
      if stack == 0 { return -1; }
      table[slot] := table[slot].(pid := next);
      next := next + 1;
      table[slot] := table[slot].(state := Ready);
      table[slot] := table[slot].(ticksUsed := 0);
      table[slot] := table[slot].(wakeTick := 0);
      table[slot] := table[slot].(kstack := stack);
      table[slot] := table[slot].(entry := entry);
      table[slot] := table[slot].(inUse := true);
      table[slot] := table[slot].(savedEsp := stack + ContextSwitch.KSTACK_SIZE - ContextSwitch.FRAME_SIZE);
      assert table[..] == Spawn(s, entry).s.table;
      return table[slot].pid;
    }

    method FindFreeSlot() returns (r: int)
      requires Valid()
      ensures r == FreeSlot(State())
    {
      for i := 0 to MAX_PROCESSES
        invariant forall j :: 0 <= j < i ==> Live(State(), j)
      {
        assert Live(State(), i) == table[i].inUse;
        if !table[i].inUse { return i; }
      }
      return -1;
    }

    method Terminate(pid: nat) returns (rc: int)
      requires Valid()
      modifies this, table, pmm, pmm.bitmap
      ensures Valid() && Ret(State(), rc) == Kill(old(State()), pid)
    {
      ghost var s := State();
      var slot := FindSlotByPid(pid);
      if slot < 0 || pid <= 1 { return -1; }
      table[slot] := table[slot].(state := Terminated);
      table[slot] := table[slot].(inUse := false);
      if table[slot].kstack != 0 {
        pmm.FreePage(table[slot].kstack);
        table[slot] := table[slot].(kstack := 0);
      }
      assert table[..] == Kill(s, pid).s.table;
      return 0;
    }

    method Account()
      requires Valid()
      modifies table
      ensures Valid() && State() == ProcModel.ProcessTick(old(State()))
    {
      ghost var s := State();
      var slot := FindSlotByPid(cur);
      if slot >= 0 { table[slot] := table[slot].(ticksUsed := table[slot].ticksUsed + 1); }
      ghost var c := table[..];
      assert c == Charge(s).table;
      var now := tick;
      for i := 0 to MAX_PROCESSES
        invariant forall j :: 0 <= j < MAX_PROCESSES ==> table[j] == if j < i then Woken(c[j], now) else c[j]
      {
        if table[i].inUse && table[i].state == Blocked && table[i].wakeTick != 0 && now >= table[i].wakeTick {
          table[i] := table[i].(state := Ready);
          table[i] := table[i].(wakeTick := 0);
        }
      }
      assert table[..] == WakeAll(c, now);
    }

    /** schedule, up to the stack switch itself. */
    method DoSchedule()
      requires Valid()
      modifies this, table
      ensures Valid() && State() == Schedule(old(State()))
    {
      ghost var s := State();
      if !enabled { return; }
      var curSlot := FindSlotByPid(cur);
      if curSlot < 0 { curSlot := 0; }
      var nextSlot := NextReady(curSlot);
      if nextSlot < 0 { return; }
      if nextSlot == curSlot { return; }
      if table[curSlot].state == Running { table[curSlot] := table[curSlot].(state := Ready); }
      table[nextSlot] := table[nextSlot].(state := Running);
      cur := table[nextSlot].pid;
      assert table[..] == SwitchTo(s, curSlot, nextSlot).table;
    }

    /** The scan of schedule. */
    method NextReady(c: int) returns (r: int)
      requires Valid() && 0 <= c < MAX_PROCESSES
      ensures var d := ScanFrom(State(), c, 1); r == if d == 0 then -1 else Around(c, d)
    {
      for i := 1 to MAX_PROCESSES + 1
        invariant ScanFrom(State(), c, 1) == ScanFrom(State(), c, i)
      {
        var s := (c + i) % MAX_PROCESSES;
        if table[s].inUse && table[s].state == Ready { return s; }
      }
      return -1;
    }

    /** process_sleep; PIDs 0 and 1 wait for the ticks to pass, which changes nothing here. */
    method SleepFor(ticks: nat)
      requires Valid()
      modifies this, table
      ensures Valid() && State() == Sleep(old(State()), ticks)
    {
      ghost var s := State();
      var slot := FindSlotByPid(cur);
      if slot < 0 || cur <= 1 { return; }
      table[slot] := table[slot].(state := Blocked);
      table[slot] := table[slot].(wakeTick := tick + ticks);
      assert table[..] == Asleep(s, ticks).table;
      DoSchedule();
    }

    method TimerCallback()
      requires Valid()
      modifies this, table
      ensures Valid() && State() == Tick(old(State()))
    {
      ghost var s := State();
      tick := tick + 1;
      slice := slice + 1;
      assert State() == s.(tick := s.tick + 1, slice := s.slice + 1);
      Account();
      assert State() == Ticked(s);
      if slice >= TIME_SLICE_TICKS {
        slice := 0;
        if enabled { DoSchedule(); }
      }
    }

    /** The part of process_entry_wrapper behind the task's function, with its first yield. */
    method EntryReturned()
      requires Valid() && TaskRuns(State())
      modifies this, table
      ensures Valid() && State() == ReturnFromEntry(old(State()))
    {
      ghost var s := State();
      var slot := FindSlotByPid(cur);
      if slot >= 0 {
        table[slot] := table[slot].(state := Terminated);
        table[slot] := table[slot].(inUse := false);
      }
      assert table[..] == Returned(s).table;
      DoSchedule();
    }
  }
}
