/**
 Round-robin fairness: a READY slot that is not killed waits for a bounded number of scheduling
 passes. The measure is the cyclic distance from the current slot; it shrinks with every pass, is
 untouched by ticks, spawns and kills of others, and can only grow when the current process dies.
 */
module BoundedWait {
  import opened ProcModel
  import opened ProcSafety

  /** Slot t holds PID q and waits for the processor. */
  ghost predicate Waits(s: Sched, t: int, q: nat) { LivePid(s, t, q) && s.table[t].state == Ready }

  /** Scheduling passes that event e makes in state s. */
  function Passes(s: Sched, e: Event): nat
    requires Sized(s)
  {
    match e
    case EvTick => if s.slice + 1 >= TIME_SLICE_TICKS then 1 else 0
    case EvYield => 1
    case EvSleep(_) => if TaskRuns(s) then 1 else 0
    case EvSpawn(_) => 0
    case EvKill(_) => 0
    case EvReturn => if TaskRuns(s) then 1 else 0
  }

  /** Whether event e ends the current process. */
  function Deaths(s: Sched, e: Event): nat
    requires Sized(s)
  {
    match e
    case EvKill(pid) => if pid == s.cur && pid > 1 && FindSlot(s, pid) >= 0 then 1 else 0
    case EvReturn => if TaskRuns(s) then 1 else 0
    case _ => 0
  }

  function Ticks(e: Event): nat { if e.EvTick? then 1 else 0 }

  function AllPasses(s: Sched, es: seq<Event>): nat
    requires Sized(s)
    decreases |es|, s
  {
    if es == [] then 0 else Passes(s, es[0]) + AllPasses(Step(s, es[0]), es[1..])
  }

  function AllDeaths(s: Sched, es: seq<Event>): nat
    requires Sized(s)
    decreases |es|, s
  {
    if es == [] then 0 else Deaths(s, es[0]) + AllDeaths(Step(s, es[0]), es[1..])
  }

  function AllTicks(es: seq<Event>): nat {
    if es == [] then 0 else Ticks(es[0]) + AllTicks(es[1..])
  }

  /** Some state of the run, the first and last included, has q as its current process. */
  predicate Dispatched(s: Sched, es: seq<Event>, q: nat)
    requires Sized(s)
    decreases |es|, s
  {
    s.cur == q || (es != [] && Dispatched(Step(s, es[0]), es[1..], q))
  }

  /** No event of the run kills q; attempts on PIDs 0 and 1 fail and do not matter. */
  predicate NotKilled(es: seq<Event>, q: nat) {
    q <= 1 || forall k :: 0 <= k < |es| ==> es[k] != EvKill(q)
  }

  lemma NotKilledRest(es: seq<Event>, q: nat)
    requires NotKilled(es, q) && es != []
    ensures NotKilled(es[1..], q) && (q <= 1 || es[0] != EvKill(q))
  {
    assert forall k :: 0 <= k < |es[1..]| ==> es[1..][k] == es[k + 1];
  }

  function Wait(s: Sched, t: int): nat
    requires Sized(s) && 0 <= t < MAX_PROCESSES
  {
    Dist(CurSlot(s), t)
  }

  /** One pass dispatches the waiting slot or brings the current slot closer to it. */
  lemma PassShrinks(s: Sched, t: int, q: nat)
    requires PreSchedule(s) && Waits(s, t, q)
    ensures var r := Schedule(s);
            r.cur == q || (Waits(r, t, q) && Wait(r, t) < Wait(s, t))
  {
    var c := CurSlot(s);
    var d := ScanFrom(s, c, 1);
    var n := Around(c, d);
    Reach(c, t);
    assert ReadyAt(s, Around(c, Dist(c, t)));
    assert 0 < d <= Dist(c, t);
    ScheduleTarget(s);
    if FindSlot(s, s.cur) >= 0 { FindIs(s, c); }
    assert t != c || FindSlot(s, s.cur) < 0;
    if n != c && n != t {
      var r := Schedule(s);
      assert r == SwitchTo(s, c, n);
      ScheduleKeeps(s);
      assert LivePid(r, n, r.cur);
      FindIs(r, n);
      Closer(c, d, t);
    }
  }

  lemma Closer(c: int, d: int, t: int)
    requires 0 <= c < MAX_PROCESSES && 0 <= t < MAX_PROCESSES && 0 < d <= Dist(c, t)
    requires Around(c, d) != t
    ensures Dist(Around(c, d), t) == Dist(c, t) - d
  {
  }

  /** A tick that makes no pass leaves the current slot and the waiting slot as they are. */
  lemma TickWaits(s: Sched, t: int, q: nat)
    requires Safe(s) && Waits(s, t, q)
    ensures var u := Ticked(s);
            Waits(u, t, q) && CurSlot(u) == CurSlot(s) && u.cur == s.cur
  {
    var v := s.(tick := s.tick + 1, slice := s.slice + 1);
    var u := ProcessTick(v);
    assert forall i, p :: LivePid(u, i, p) <==> LivePid(s, i, p);
    assert forall i, p :: LivePid(v, i, p) <==> LivePid(s, i, p);
    SameFind(s, v, s.cur);
    SameFind(s, u, s.cur);
  }

  lemma SameFind(s: Sched, u: Sched, pid: nat)
    requires Sized(s) && Sized(u) && forall i :: 0 <= i < MAX_PROCESSES ==> (LivePid(s, i, pid) <==> LivePid(u, i, pid))
    ensures FindSlot(s, pid) == FindSlot(u, pid)
  {
    var a := FindSlot(s, pid);
    var b := FindSlot(u, pid);
    if a >= 0 { assert LivePid(u, a, pid); }
    if b >= 0 { assert LivePid(s, b, pid); }
  }

  lemma TickShrinks(s: Sched, t: int, q: nat)
    requires Safe(s) && Waits(s, t, q)
    ensures Progress(s, EvTick, t, q)
  {
    TickWaits(s, t, q);
    var u := Ticked(s);
    if u.slice >= TIME_SLICE_TICKS {
      var v := u.(slice := 0);
      ProcessTickPre(s);
      assert forall i, p :: LivePid(u, i, p) <==> LivePid(v, i, p);
      SameFind(u, v, s.cur);
      PassShrinks(v, t, q);
    }
  }

  lemma ProcessTickPre(s: Sched)
    requires Safe(s)
    ensures PreSchedule(Ticked(s).(slice := 0))
  {
    TickedKeeps(s);
    SafeIsPre(Ticked(s).(slice := 0));
  }

  /** Event e dispatches the waiting slot, or its wait shrinks by the passes made, up to the deaths of current processes. */
  ghost predicate Progress(s: Sched, e: Event, t: int, q: nat)
    requires Sized(s) && 0 <= t < MAX_PROCESSES
  {
    var r := Step(s, e);
    r.cur == q || (Waits(r, t, q) && Wait(r, t) + Passes(s, e) <= Wait(s, t) + 15 * Deaths(s, e))
  }

  lemma SpawnWaits(s: Sched, entry: nat, t: int, q: nat)
    requires Safe(s) && Waits(s, t, q)
    ensures Progress(s, EvSpawn(entry), t, q)
  {
    var r := Spawn(s, entry).s;
    var slot := FreeSlot(s);
    assert slot != t;
    forall i | 0 <= i < MAX_PROCESSES
      ensures LivePid(s, i, s.cur) <==> LivePid(r, i, s.cur)
    {
      assert SlotOk(s, i);
    }
    SameFind(s, r, s.cur);
  }

  lemma KillWaits(s: Sched, pid: nat, t: int, q: nat)
    requires Safe(s) && Waits(s, t, q) && (q <= 1 || pid != q)
    ensures Progress(s, EvKill(pid), t, q)
  {
    var r := Kill(s, pid).s;
    var slot := FindSlot(s, pid);
    if slot >= 0 && pid > 1 {
      assert slot != t;
      if pid != s.cur {
        forall i | 0 <= i < MAX_PROCESSES
          ensures LivePid(s, i, s.cur) <==> LivePid(r, i, s.cur)
        {
        }
        SameFind(s, r, s.cur);
      }
    }
  }

  lemma SleepWaits(s: Sched, ticks: nat, t: int, q: nat)
    requires Safe(s) && Waits(s, t, q)
    ensures Progress(s, EvSleep(ticks), t, q)
  {
    if TaskRuns(s) {
      var a := Asleep(s, ticks);
      AsleepPre(s, ticks);
      var slot := FindSlot(s, s.cur);
      FindIs(s, slot);
      assert SlotOk(s, slot);
      assert slot != t;
      forall i | 0 <= i < MAX_PROCESSES
        ensures LivePid(s, i, s.cur) <==> LivePid(a, i, s.cur)
      {
      }
      SameFind(s, a, s.cur);
      PassShrinks(a, t, q);
    }
  }

  lemma AsleepPre(s: Sched, ticks: nat)
    requires Safe(s) && TaskRuns(s)
    ensures PreSchedule(Asleep(s, ticks))
  {
    var a := Asleep(s, ticks);
    assert forall i :: 0 <= i < MAX_PROCESSES ==> a.table[i].inUse == s.table[i].inUse && a.table[i].pid == s.table[i].pid;
    assert forall i :: Live(a, i) <==> Live(s, i);
    forall i | 0 <= i < MAX_PROCESSES
      ensures SlotOk(a, i) || (Live(a, i) && a.table[i].pid == a.cur > 1 && a.table[i].state == Blocked)
    {
      assert SlotOk(s, i);
    }
  }

  /** When a task returns, PID 1 runs next: the waiting slot is it, or is at most 15 slots away. */
  lemma ReturnWaits(s: Sched, t: int, q: nat)
    requires Safe(s) && Waits(s, t, q)
    ensures Progress(s, EvReturn, t, q)
  {
    if TaskRuns(s) {
      var slot := FindSlot(s, s.cur);
      var a := Returned(s);
      assert slot > 1;
      assert s.table[slot].pid > 1 by { assert Live(s, 0) && Live(s, 1); }
      assert SlotOk(s, slot);
      assert slot != t;
      DropKeeps(s, slot, a.table[slot]);
      SafeIsPre(a);
      assert Waits(a, t, q);
      PassShrinks(a, t, q);
      assert Wait(a, t) <= MAX_PROCESSES;
    }
  }

  lemma StepProgress(s: Sched, e: Event, t: int, q: nat)
    requires Safe(s) && Waits(s, t, q) && (q <= 1 || e != EvKill(q))
    ensures Progress(s, e, t, q)
  {
    match e
    case EvTick => TickShrinks(s, t, q);
    case EvYield => SafeIsPre(s); PassShrinks(s, t, q);
    case EvSleep(ticks) => SleepWaits(s, ticks, t, q);
    case EvSpawn(entry) => SpawnWaits(s, entry, t, q);
    case EvKill(pid) => KillWaits(s, pid, t, q);
    case EvReturn => ReturnWaits(s, t, q);
  }

  /** Bounded waiting, counted in scheduling passes; each death of a current process costs at most 15 more. */
  lemma {:induction false} DispatchedByPasses(s: Sched, es: seq<Event>, t: int, q: nat)
    requires Safe(s) && Waits(s, t, q) && NotKilled(es, q)
    requires AllPasses(s, es) >= Wait(s, t) + 15 * AllDeaths(s, es)
    ensures Dispatched(s, es, q)
    decreases |es|
  {
    if es != [] && s.cur != q {
      var r := Step(s, es[0]);
      NotKilledRest(es, q);
      StepProgress(s, es[0], t, q);
      StepKeeps(s, es[0]);
      if r.cur != q { DispatchedByPasses(r, es[1..], t, q); }
    }
  }

  /** Ten ticks bring at least one pass: the slice counter carries over. */
  lemma {:induction false} TicksBringPasses(s: Sched, es: seq<Event>)
    requires Safe(s)
    ensures TIME_SLICE_TICKS * AllPasses(s, es) + Run(s, es).slice >= AllTicks(es) + s.slice
    decreases |es|
  {
    if es != [] {
      StepKeeps(s, es[0]);
      SliceStep(s, es[0]);
      TicksBringPasses(Step(s, es[0]), es[1..]);
    }
  }

  lemma SliceStep(s: Sched, e: Event)
    requires Safe(s)
    ensures TIME_SLICE_TICKS * Passes(s, e) + Step(s, e).slice >= Ticks(e) + s.slice
  {
    match e
    case EvTick =>
    case EvYield => assert Schedule(s).slice == s.slice;
    case EvSleep(ticks) => assert Sleep(s, ticks).slice == s.slice;
    case EvSpawn(entry) => assert Spawn(s, entry).s.slice == s.slice;
    case EvKill(pid) => assert Kill(s, pid).s.slice == s.slice;
    case EvReturn => assert ReturnFromEntry(s).slice == s.slice;
  }

  /**
   Bounded waiting in time: 150 ticks are enough for a READY process that nobody kills, and 150 more
   for every current process that dies meanwhile, under any mix of events.
   */
  lemma DispatchedInTime(s: Sched, es: seq<Event>, t: int, q: nat)
    requires Safe(s) && Waits(s, t, q) && NotKilled(es, q)
    requires FindSlot(s, s.cur) >= 0
    requires AllTicks(es) >= 150 + 150 * AllDeaths(s, es)
    ensures Dispatched(s, es, q)
  {
    TicksBringPasses(s, es);
    RunKeeps(s, es);
    FindIs(s, CurSlot(s));
    assert SlotOk(s, CurSlot(s));
    assert Wait(s, t) <= 15;
    DispatchedByPasses(s, es, t, q);
  }
}
