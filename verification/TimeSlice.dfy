/** Who gets how many ticks: the slice of ten, who is charged, and when the timer makes a pass. */
module TimeSlice {
  import opened ProcModel
  import opened ProcSafety
  import opened BoundedWait

  /** A tick makes a pass exactly when it is the tenth of the slice; otherwise only the clock moves. */
  lemma TickExact(s: Sched)
    requires Safe(s)
    ensures s.slice <= 9
    ensures Tick(s) == if s.slice == 9 then Schedule(Ticked(s).(slice := 0)) else Ticked(s)
  {
  }

  /** The clock part charges the current process, if it is in the table, and nobody else. */
  lemma TickCharges(s: Sched, i: int)
    requires Safe(s) && 0 <= i < MAX_PROCESSES
    ensures var p := s.table[i]; var u := Ticked(s);
            && u.cur == s.cur && u.slice == s.slice + 1 && u.tick == s.tick + 1
            && u.table[i].ticksUsed == p.ticksUsed + (if p.inUse && p.pid == s.cur then 1 else 0)
  {
    var v := s.(tick := s.tick + 1, slice := s.slice + 1);
    if LivePid(s, i, s.cur) { FindIs(v, i); }
    var c := FindSlot(v, v.cur);
    assert c >= 0 ==> LivePid(v, c, v.cur);
  }

  /** Passes the timer makes in a run: one per tick that finds the slice at 9. */
  function TimerPasses(s: Sched, es: seq<Event>): nat
    requires Sized(s)
    decreases |es|, s
  {
    if es == [] then 0 else (if es[0].EvTick? && s.slice == 9 then 1 else 0) + TimerPasses(Step(s, es[0]), es[1..])
  }

  /** Ten ticks to a pass, no more and no fewer, over every run: nothing but the timer touches the slice. */
  lemma {:induction false} TenTicksAPass(s: Sched, es: seq<Event>)
    requires Safe(s)
    ensures AllTicks(es) + s.slice == 10 * TimerPasses(s, es) + Run(s, es).slice
    ensures Run(s, es).slice <= 9
    decreases |es|
  {
    if es != [] {
      StepKeeps(s, es[0]);
      SliceExact(s, es[0]);
      TenTicksAPass(Step(s, es[0]), es[1..]);
    }
  }

  lemma SliceExact(s: Sched, e: Event)
    requires Safe(s)
    ensures Step(s, e).slice == if !e.EvTick? then s.slice else if s.slice == 9 then 0 else s.slice + 1
  {
    match e
    case EvTick => TickExact(s);
    case EvYield => assert Schedule(s).slice == s.slice;
    case EvSleep(ticks) => assert Sleep(s, ticks).slice == s.slice;
    case EvSpawn(entry) => assert Spawn(s, entry).s.slice == s.slice;
    case EvKill(pid) => assert Kill(s, pid).s.slice == s.slice;
    case EvReturn => assert ReturnFromEntry(s).slice == s.slice;
  }

  function TicksOf(k: nat): (es: seq<Event>)
    ensures |es| == k
  {
    if k == 0 then [] else TicksOf(k - 1) + [EvTick]
  }

  /** p after k more ticks that bring no pass, of which `mine` are charged to it. */
  function Aged(p: Proc, now: nat, k: nat, mine: bool): Proc {
    if k == 0 then p else Woken(p, now + k).(ticksUsed := p.ticksUsed + (if mine then k else 0))
  }

  lemma RunLast(s: Sched, k: nat)
    requires Sized(s)
    ensures Run(s, TicksOf(k + 1)) == Tick(Run(s, TicksOf(k)))
  {
    RunAppend(s, TicksOf(k), [EvTick]);
    OneTick(Run(s, TicksOf(k)), [EvTick]);
  }

  lemma OneTick(s: Sched, es: seq<Event>)
    requires Sized(s) && es == [EvTick]
    ensures Run(s, es) == Tick(s)
  {
    assert es[1..] == [];
    assert Run(Tick(s), es[1..]) == Tick(s);
  }

  /** The slot of the current process holds nobody else, and keeps its PID. */
  lemma AgedOnce(s: Sched, r: Sched, k: nat, i: int)
    requires Safe(s) && Safe(r) && 0 <= i < MAX_PROCESSES && r.cur == s.cur && r.tick == s.tick + k
    requires r.table[i] == Aged(s.table[i], s.tick, k, LivePid(s, i, s.cur))
    ensures Ticked(r).table[i] == Aged(s.table[i], s.tick, k + 1, LivePid(s, i, s.cur))
  {
    TickedFrame(r);
    TickCharges(r, i);
  }

  /**
   Within a slice the current process keeps the processor: up to the ninth tick nothing changes but
   the clock, its own charge, and sleepers that become READY.
   */
  lemma {:induction false} SliceIsKept(s: Sched, k: nat)
    requires Safe(s) && s.slice + k <= 9
    ensures var r := Run(s, TicksOf(k));
            && Safe(r) && r == s.(tick := s.tick + k, slice := s.slice + k, table := r.table)
            && forall i :: 0 <= i < MAX_PROCESSES ==> r.table[i] == Aged(s.table[i], s.tick, k, LivePid(s, i, s.cur))
    decreases k
  {
    if k > 0 {
      SliceIsKept(s, k - 1);
      var r := Run(s, TicksOf(k - 1));
      RunLast(s, k - 1);
      TickExact(r);
      TickedFrame(r);
      StepKeeps(r, EvTick);
      forall i | 0 <= i < MAX_PROCESSES
        ensures Ticked(r).table[i] == Aged(s.table[i], s.tick, k, LivePid(s, i, s.cur))
      {
        AgedOnce(s, r, k - 1, i);
      }
    }
  }

  /** The tick that fills the slice makes the one pass, and the slice starts again. */
  lemma SliceEnds(s: Sched)
    requires Safe(s)
    ensures var r := Run(s, TicksOf(9 - s.slice));
            && r.cur == s.cur
            && Run(s, TicksOf(10 - s.slice)) == Schedule(Ticked(r).(slice := 0))
            && Run(s, TicksOf(10 - s.slice)).slice == 0
            && TimerPasses(s, TicksOf(9 - s.slice)) == 0 && TimerPasses(s, TicksOf(10 - s.slice)) == 1
  {
    var k := 9 - s.slice;
    SliceIsKept(s, k);
    RunLast(s, k);
    var r := Run(s, TicksOf(k));
    TickExact(r);
    ScheduleFrame(Ticked(r).(slice := 0));
    AllAreTicks(k);
    AllAreTicks(k + 1);
    TenTicksAPass(s, TicksOf(k));
    TenTicksAPass(s, TicksOf(k + 1));
  }

  lemma {:induction false} TicksAppend(a: seq<Event>, b: seq<Event>)
    ensures AllTicks(a + b) == AllTicks(a) + AllTicks(b)
  {
    if a == [] {
      assert a + b == b;
    } else {
      assert (a + b)[1..] == a[1..] + b;
      TicksAppend(a[1..], b);
    }
  }

  lemma {:induction false} AllAreTicks(k: nat)
    ensures AllTicks(TicksOf(k)) == k
  {
    if k > 0 {
      AllAreTicks(k - 1);
      TicksAppend(TicksOf(k - 1), [EvTick]);
      assert [EvTick][1..] == [];
    }
  }
}
