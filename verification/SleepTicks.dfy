/** Sleeping ends at the right tick, and every tick is charged to somebody or accounted as lost. */
module SleepTicks {
  import opened ProcModel
  import opened ProcSafety
  import opened BoundedWait

  // ---- Sleep ----

  /** PID q in slot t sleeps until tick w. */
  ghost predicate SleepsUntil(s: Sched, t: int, q: nat, w: nat) {
    LivePid(s, t, q) && s.table[t].state == Blocked && s.table[t].wakeTick == w
  }

  ghost predicate AwakeNow(s: Sched, t: int, q: nat) {
    LivePid(s, t, q) && (s.table[t].state == Ready || (s.table[t].state == Running && s.cur == q))
  }

  /** A pass does not touch a sleeper. */
  lemma PassKeepsSleeper(s: Sched, t: int, q: nat, w: nat)
    requires Sized(s) && SleepsUntil(s, t, q, w)
    ensures SleepsUntil(Schedule(s), t, q, w)
  {
    var c := CurSlot(s);
    var n := Around(c, ScanFrom(s, c, 1));
    assert ReadyAt(s, n) ==> n != t;
  }

  /** A pass leaves a READY slot READY or makes it the current one. */
  lemma PassKeepsReady(s: Sched, t: int, q: nat)
    requires PreSchedule(s) && Waits(s, t, q)
    ensures AwakeNow(Schedule(s), t, q)
  {
    PassShrinks(s, t, q);
    ScheduleKeeps(s);
    var r := Schedule(s);
    assert r.table[t].pid == q && r.table[t].inUse;
    if r.cur == q { assert SlotOk(r, t); }
  }

  lemma TickOnSleeper(s: Sched, t: int, q: nat, w: nat)
    requires Safe(s) && SleepsUntil(s, t, q, w)
    ensures w == 0 || s.tick + 1 < w ==> SleepsUntil(Tick(s), t, q, w)
    ensures w > 0 && s.tick + 1 >= w ==> AwakeNow(Tick(s), t, q)
    ensures w > 0 && s.tick + 1 >= w ==>
              Waits(Ticked(s), t, q)
  {
    var u := Ticked(s);
    TickedFrame(s);
    TickIs(s);
    assert SlotOk(s, t);
    if w == 0 || s.tick + 1 < w {
      assert SleepsUntil(u, t, q, w);
      PassKeepsSleeper(u.(slice := 0), t, q, w);
    } else {
      assert Waits(u, t, q);
      ProcessTickPre(s);
      PassKeepsReady(u.(slice := 0), t, q);
    }
  }

  lemma OtherEventOnSleeper(s: Sched, e: Event, t: int, q: nat, w: nat)
    requires Safe(s) && SleepsUntil(s, t, q, w) && e != EvKill(q) && e != EvTick
    ensures SleepsUntil(Step(s, e), t, q, w)
  {
    assert SlotOk(s, t);
    assert s.cur != q;
    match e
    case EvYield => PassKeepsSleeper(s, t, q, w);
    case EvSleep(ticks) =>
      if TaskRuns(s) {
        assert FindSlot(s, s.cur) != t;
        PassKeepsSleeper(Asleep(s, ticks), t, q, w);
      }
    case EvSpawn(entry) => assert FreeSlot(s) != t;
    case EvKill(pid) => assert FindSlot(s, pid) != t;
    case EvReturn =>
      if TaskRuns(s) {
        assert FindSlot(s, s.cur) != t;
        PassKeepsSleeper(Returned(s), t, q, w);
      }
  }

  lemma TicksOnlyByTick(s: Sched, e: Event)
    requires Sized(s)
    ensures Step(s, e).tick == s.tick + Ticks(e)
  {
    match e
    case EvTick => assert Tick(s).tick == s.tick + 1;
    case EvYield => assert Schedule(s).tick == s.tick;
    case EvSleep(ticks) => assert Sleep(s, ticks).tick == s.tick;
    case EvSpawn(entry) => assert Spawn(s, entry).s.tick == s.tick;
    case EvKill(pid) => assert Kill(s, pid).s.tick == s.tick;
    case EvReturn => assert ReturnFromEntry(s).tick == s.tick;
  }

  lemma {:induction false} RunTicks(s: Sched, es: seq<Event>)
    requires Sized(s)
    ensures Run(s, es).tick == s.tick + AllTicks(es)
    decreases |es|
  {
    if es != [] {
      TicksOnlyByTick(s, es[0]);
      RunTicks(Step(s, es[0]), es[1..]);
    }
  }

  lemma SleeperIsTask(s: Sched, t: int, q: nat, w: nat)
    requires Safe(s) && SleepsUntil(s, t, q, w)
    ensures q > 1
  {
    assert Live(s, 0) && Live(s, 1);
  }

  /** As long as tick w has not come, the sleeper sleeps, whatever else happens; w = 0 never comes. */
  lemma {:induction false} SleepsThrough(s: Sched, es: seq<Event>, t: int, q: nat, w: nat)
    requires Safe(s) && SleepsUntil(s, t, q, w) && NotKilled(es, q)
    requires w == 0 || AllTicks(es) == 0 || s.tick + AllTicks(es) < w
    ensures SleepsUntil(Run(s, es), t, q, w)
    decreases |es|
  {
    if es != [] {
      NotKilledRest(es, q);
      SleeperIsTask(s, t, q, w);
      StepKeeps(s, es[0]);
      TicksOnlyByTick(s, es[0]);
      if es[0] == EvTick {
        TickOnSleeper(s, t, q, w);
      } else {
        OtherEventOnSleeper(s, es[0], t, q, w);
      }
      SleepsThrough(Step(s, es[0]), es[1..], t, q, w);
    }
  }

  /** The state right after a PID above 1 has gone to sleep. */
  lemma FallsAsleep(s: Sched, k: nat)
    requires Safe(s) && TaskRuns(s)
    ensures var r := Sleep(s, k); var t := FindSlot(s, s.cur);
            SleepsUntil(r, t, s.cur, s.tick + k) && r.tick == s.tick && r.cur != s.cur
  {
    var a := Asleep(s, k);
    var t := FindSlot(s, s.cur);
    AsleepPre(s, k);
    ScheduleTarget(a);
    PassKeepsSleeper(a, t, s.cur, s.tick + k);
  }

  /**
   Sleep is exact: a PID of 2 or more that sleeps k >= 1 ticks from tick T on is BLOCKED in every
   state before tick T + k and is READY (or already dispatched again) at that tick.
   */
  lemma SleepIsExact(s: Sched, k: nat, es: seq<Event>)
    requires Safe(s) && FindSlot(s, s.cur) >= 0 && s.cur >= 2 && k >= 1
    requires NotKilled(es, s.cur) && AllTicks(es) < k
    ensures var r := Run(Sleep(s, k), es); var t := FindSlot(s, s.cur);
            && r.tick == s.tick + AllTicks(es)
            && SleepsUntil(r, t, s.cur, s.tick + k)
            && (AllTicks(es) == k - 1 ==> AwakeNow(Tick(r), t, s.cur) && Tick(r).tick == s.tick + k)
  {
    var a := Sleep(s, k);
    var t := FindSlot(s, s.cur);
    FallsAsleep(s, k);
    StepKeeps(s, EvSleep(k));
    RunTicks(a, es);
    SleepsThrough(a, es, t, s.cur, s.tick + k);
    RunKeeps(a, es);
    TickOnSleeper(Run(a, es), t, s.cur, s.tick + k);
    TicksOnlyByTick(Run(a, es), EvTick);
  }

  /** Sleeping 0 ticks lasts to the next tick, except at tick 0, when it never ends. */
  lemma SleepZero(s: Sched, es: seq<Event>)
    requires Safe(s) && FindSlot(s, s.cur) >= 0 && s.cur >= 2 && NotKilled(es, s.cur)
    ensures var t := FindSlot(s, s.cur);
            && (s.tick > 0 && AllTicks(es) == 0 ==>
                  SleepsUntil(Run(Sleep(s, 0), es), t, s.cur, s.tick) && AwakeNow(Tick(Run(Sleep(s, 0), es)), t, s.cur))
            && (s.tick == 0 ==> SleepsUntil(Run(Sleep(s, 0), es), t, s.cur, 0))
  {
    var a := Sleep(s, 0);
    var t := FindSlot(s, s.cur);
    FallsAsleep(s, 0);
    StepKeeps(s, EvSleep(0));
    if s.tick == 0 || AllTicks(es) == 0 {
      SleepsThrough(a, es, t, s.cur, s.tick);
      RunTicks(a, es);
      RunKeeps(a, es);
      TickOnSleeper(Run(a, es), t, s.cur, s.tick);
    }
  }

  /** A pass blocks nobody. */
  lemma PassBlocks(s: Sched, i: int)
    requires Sized(s) && Live(Schedule(s), i) && Schedule(s).table[i].state == Blocked
    ensures s.table[i].state == Blocked
  {
  }

  /** After every tick no live BLOCKED slot has a wake tick that has passed. */
  lemma NobodyOversleeps(s: Sched, i: int)
    requires Safe(s)
    ensures var r := Tick(s);
            Live(r, i) && r.table[i].state == Blocked && r.table[i].wakeTick != 0 ==> r.table[i].wakeTick > r.tick
  {
    var u := Ticked(s);
    TickedFrame(s);
    TickIs(s);
    ScheduleFrame(u.(slice := 0));
    if Live(Tick(s), i) && Tick(s).table[i].state == Blocked {
      PassBlocks(u.(slice := 0), i);
    }
  }

  // ---- Conservation of ticks ----

  function Held(p: Proc): nat { if p.inUse then p.ticksUsed else 0 }

  /** Ticks held by the live slots among the first n. */
  function HeldBy(t: seq<Proc>, n: nat): nat
    requires n <= |t|
    decreases n, t
  {
    if n == 0 then 0 else HeldBy(t, n - 1) + Held(t[n - 1])
  }

  function AllHeld(s: Sched): nat { HeldBy(s.table, |s.table|) }

  lemma {:induction false} HeldUpdate(t: seq<Proc>, i: nat, p: Proc, n: nat)
    requires i < |t| && n <= |t|
    ensures HeldBy(t[i := p], n) == HeldBy(t, n) + (if i < n then Held(p) - Held(t[i]) else 0)
    decreases n
  {
    if n > 0 { HeldUpdate(t, i, p, n - 1); }
  }

  lemma {:induction false} HeldSame(t: seq<Proc>, u: seq<Proc>, n: nat)
    requires n <= |t| == |u| && forall i :: 0 <= i < n ==> Held(t[i]) == Held(u[i])
    ensures HeldBy(t, n) == HeldBy(u, n)
    decreases n
  {
    if n > 0 { HeldSame(t, u, n - 1); }
  }

  /** Ticks that leave with a slot that e removes. */
  function Removed(s: Sched, e: Event): nat
    requires Sized(s)
  {
    match e
    case EvKill(pid) => if FindSlot(s, pid) >= 0 && pid > 1 then s.table[FindSlot(s, pid)].ticksUsed else 0
    case EvReturn => if TaskRuns(s) then s.table[FindSlot(s, s.cur)].ticksUsed else 0
    case _ => 0
  }

  /** A tick that finds no live current process is charged to nobody. */
  function Uncharged(s: Sched, e: Event): nat
    requires Sized(s)
  {
    if e.EvTick? && FindSlot(s, s.cur) < 0 then 1 else 0
  }

  function AllRemoved(s: Sched, es: seq<Event>): nat
    requires Sized(s)
    decreases |es|, s
  {
    if es == [] then 0 else Removed(s, es[0]) + AllRemoved(Step(s, es[0]), es[1..])
  }

  function AllUncharged(s: Sched, es: seq<Event>): nat
    requires Sized(s)
    decreases |es|, s
  {
    if es == [] then 0 else Uncharged(s, es[0]) + AllUncharged(Step(s, es[0]), es[1..])
  }

  lemma ScheduleHeld(s: Sched)
    requires Sized(s)
    ensures AllHeld(Schedule(s)) == AllHeld(s)
  {
    HeldSame(Schedule(s).table, s.table, MAX_PROCESSES);
  }

  lemma TickHeld(s: Sched)
    requires Sized(s)
    ensures AllHeld(Tick(s)) + Uncharged(s, EvTick) == AllHeld(s) + 1
  {
    var v := s.(tick := s.tick + 1, slice := s.slice + 1);
    var slot := FindSlot(v, v.cur);
    SameFind(s, v, s.cur);
    if slot >= 0 {
      HeldUpdate(v.table, slot, v.table[slot].(ticksUsed := v.table[slot].ticksUsed + 1), MAX_PROCESSES);
    }
    var u := ProcessTick(v);
    HeldSame(Charge(v).table, u.table, MAX_PROCESSES);
    ScheduleHeld(u.(slice := 0));
  }

  lemma StepConserves(s: Sched, e: Event)
    requires Sized(s)
    ensures AllHeld(Step(s, e)) + Removed(s, e) + Uncharged(s, e) == AllHeld(s) + Ticks(e)
  {
    match e
    case EvTick => TickHeld(s);
    case EvYield => ScheduleHeld(s);
    case EvSleep(ticks) =>
      if TaskRuns(s) {
        HeldSame(Asleep(s, ticks).table, s.table, MAX_PROCESSES);
        ScheduleHeld(Asleep(s, ticks));
      }
    case EvSpawn(entry) =>
      var slot := FreeSlot(s);
      if slot >= 0 { HeldUpdate(s.table, slot, Spawn(s, entry).s.table[slot], MAX_PROCESSES); }
      if Spawn(s, entry).rc < 0 { assert Spawn(s, entry).s.table == s.table; }
    case EvKill(pid) =>
      var slot := FindSlot(s, pid);
      if slot >= 0 { HeldUpdate(s.table, slot, Kill(s, pid).s.table[slot], MAX_PROCESSES); }
    case EvReturn =>
      if TaskRuns(s) {
        var slot := FindSlot(s, s.cur);
        HeldUpdate(s.table, slot, Returned(s).table[slot], MAX_PROCESSES);
        ScheduleHeld(Returned(s));
      }
  }

  /**
   Conservation: the ticks that pass are those that live slots hold in the end over what they held,
   plus those that left with removed slots, plus those that found no live current process.
   */
  lemma {:induction false} TicksConserved(s: Sched, es: seq<Event>)
    requires Sized(s)
    ensures AllHeld(Run(s, es)) + AllRemoved(s, es) + AllUncharged(s, es) == AllHeld(s) + (Run(s, es).tick - s.tick)
    decreases |es|
  {
    if es != [] {
      StepConserves(s, es[0]);
      TicksOnlyByTick(s, es[0]);
      TicksConserved(Step(s, es[0]), es[1..]);
    }
  }
}
