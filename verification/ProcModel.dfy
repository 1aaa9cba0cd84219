/**
 The process table, the scheduler (src/process.c) and the timer that drives them (src/timer.c) as a
 state machine over whole events. Each event is one atomic step.
 */
module ProcModel {
  import opened Search
  import ContextSwitch
  import PmmModel

  const MAX_PROCESSES := 16
  const TIME_SLICE_TICKS := 10

  datatype Status = Unused | Running | Ready | Blocked | Terminated

  datatype Proc = Proc(
    pid: nat,
    state: Status,
    savedEsp: nat,
    kstack: nat,
    ticksUsed: nat,
    wakeTick: nat,
    entry: nat,
    inUse: bool
  )

  /** cur and next are current_pid and next_pid; tick and slice belong to the timer. */
  datatype Sched = Sched(
    table: seq<Proc>,
    cur: nat,
    next: nat,
    enabled: bool,
    tick: nat,
    slice: nat,
    pages: PmmModel.Pages
  )

  /** The state a call leaves and the number it returns. */
  datatype Ret = Ret(s: Sched, rc: int)

  predicate Sized(s: Sched) { |s.table| == MAX_PROCESSES }

  predicate Live(s: Sched, i: int) { 0 <= i < |s.table| && s.table[i].inUse }

  predicate LivePid(s: Sched, i: int, pid: nat) { Live(s, i) && s.table[i].pid == pid }

  function FindSlot(s: Sched, pid: nat): (r: int)
    requires Sized(s)
    ensures r == -1 || LivePid(s, r, pid)
    ensures forall j :: 0 <= j < (if r == -1 then MAX_PROCESSES else r) ==> !LivePid(s, j, pid)
  {
    First(s.table, (p: Proc) => p.inUse && p.pid == pid, 0)
  }

  function FreeSlot(s: Sched): (r: int)
    requires Sized(s)
    ensures r == -1 || (0 <= r < MAX_PROCESSES && !Live(s, r))
    ensures forall j :: 0 <= j < (if r == -1 then MAX_PROCESSES else r) ==> Live(s, j)
  {
    First(s.table, (p: Proc) => !p.inUse, 0)
  }

  function SetProc(s: Sched, i: int, p: Proc): Sched
    requires 0 <= i < |s.table|
  {
    s.(table := s.table[i := p])
  }

  // ---- The calls ----

  /** process_create_kernel; entry is the address of the task's function. */
  function Spawn(s: Sched, entry: nat): (r: Ret)
    requires Sized(s)
    ensures Sized(r.s)
  {
    var slot := FreeSlot(s);
    if slot < 0 then Ret(s, -1)
    else
      var a := PmmModel.Alloc(s.pages);
      if a.addr == 0 then Ret(s.(pages := a.pages), -1)
      else
        var p := Proc(s.next, Ready, a.addr + ContextSwitch.KSTACK_SIZE - ContextSwitch.FRAME_SIZE, a.addr, 0, 0, entry, true);
        Ret(SetProc(s, slot, p).(next := s.next + 1, pages := a.pages), s.next)
  }

  /** process_terminate. */
  function Kill(s: Sched, pid: nat): (r: Ret)
    requires Sized(s)
    ensures Sized(r.s)
  {
    var slot := FindSlot(s, pid);
    if slot < 0 || pid <= 1 then Ret(s, -1)
    else
      var p := s.table[slot];
      Ret(SetProc(s, slot, p.(state := Terminated, inUse := false, kstack := 0))
          .(pages := if p.kstack != 0 then PmmModel.Free(s.pages, p.kstack) else s.pages), 0)
  }

  function Charge(s: Sched): (r: Sched)
    requires Sized(s)
    ensures Sized(r)
  {
    var slot := FindSlot(s, s.cur);
    if slot >= 0 then SetProc(s, slot, s.table[slot].(ticksUsed := s.table[slot].ticksUsed + 1)) else s
  }

  function Woken(p: Proc, now: nat): Proc {
    if p.inUse && p.state == Blocked && p.wakeTick != 0 && now >= p.wakeTick
    then p.(state := Ready, wakeTick := 0) else p
  }

  function WakeAll(t: seq<Proc>, now: nat): (r: seq<Proc>)
    ensures |r| == |t| && forall i :: 0 <= i < |t| ==> r[i] == Woken(t[i], now)
  {
    seq(|t|, i requires 0 <= i < |t| => Woken(t[i], now))
  }

  /** process_tick. */
  function ProcessTick(s: Sched): (r: Sched)
    requires Sized(s)
    ensures Sized(r)
  {
    var c := Charge(s);
    c.(table := WakeAll(c.table, s.tick))
  }

  /** The slot schedule starts its scan from. */
  function CurSlot(s: Sched): (r: int)
    requires Sized(s)
    ensures 0 <= r < MAX_PROCESSES
  {
    var c := FindSlot(s, s.cur);
    if c < 0 then 0 else c
  }

  predicate ReadyAt(s: Sched, i: int) { Live(s, i) && s.table[i].state == Ready }

  /** The slot j steps further round than c. */
  function Around(c: int, j: int): int { (c + j) % MAX_PROCESSES }

  /** The first offset from i on, up to a full circle, at which a READY slot stands, or 0. */
  function ScanFrom(s: Sched, c: int, i: nat): (r: nat)
    requires Sized(s) && 0 <= c && 1 <= i <= MAX_PROCESSES + 1
    ensures r == 0 || (i <= r <= MAX_PROCESSES && ReadyAt(s, Around(c, r)))
    ensures forall j :: i <= j < (if r == 0 then MAX_PROCESSES + 1 else r) ==> !ReadyAt(s, Around(c, j))
    decreases MAX_PROCESSES + 1 - i, s
  {
    if i > MAX_PROCESSES then 0
    else if ReadyAt(s, Around(c, i)) then i
    else ScanFrom(s, c, i + 1)
  }

  function SwitchTo(s: Sched, c: int, n: int): (r: Sched)
    requires Sized(s) && 0 <= c < MAX_PROCESSES && 0 <= n < MAX_PROCESSES
    ensures Sized(r)
  {
    var t := if s.table[c].state == Running then SetProc(s, c, s.table[c].(state := Ready)) else s;
    SetProc(t, n, t.table[n].(state := Running)).(cur := t.table[n].pid)
  }

  /** schedule, up to the stack switch itself. */
  function Schedule(s: Sched): (r: Sched)
    requires Sized(s)
    ensures Sized(r)
  {
    if !s.enabled then s
    else
      var c := CurSlot(s);
      var d := ScanFrom(s, c, 1);
      if d == 0 || Around(c, d) == c then s
      else SwitchTo(s, c, Around(c, d))
  }

  /** timer_callback. */
  function Tick(s: Sched): (r: Sched)
    requires Sized(s)
    ensures Sized(r)
  {
    var t := Ticked(s);
    if t.slice >= TIME_SLICE_TICKS then
      (if t.enabled then Schedule(t.(slice := 0)) else t.(slice := 0))
    else t
  }

  /** The clock part of timer_callback, before it looks at the slice. */
  function Ticked(s: Sched): (r: Sched)
    requires Sized(s)
    ensures Sized(r)
  {
    ProcessTick(s.(tick := s.tick + 1, slice := s.slice + 1))
  }

  /** The current process is live and is neither the kernel nor the shell: a task under process_entry_wrapper. */
  predicate TaskRuns(s: Sched)
    requires Sized(s)
  {
    FindSlot(s, s.cur) >= 0 && s.cur > 1
  }

  function Asleep(s: Sched, ticks: nat): (r: Sched)
    requires Sized(s) && TaskRuns(s)
    ensures Sized(r)
  {
    var slot := FindSlot(s, s.cur);
    SetProc(s, slot, s.table[slot].(state := Blocked, wakeTick := s.tick + ticks))
  }

  /** process_sleep; PIDs 0 and 1 wait actively, which changes nothing here. */
  function Sleep(s: Sched, ticks: nat): (r: Sched)
    requires Sized(s)
    ensures Sized(r)
  {
    if TaskRuns(s) then Schedule(Asleep(s, ticks)) else s
  }

  function Returned(s: Sched): (r: Sched)
    requires Sized(s) && TaskRuns(s)
    ensures Sized(r)
  {
    var slot := FindSlot(s, s.cur);
    SetProc(s, slot, s.table[slot].(state := Terminated, inUse := false))
  }

  /** The exit path of process_entry_wrapper: the slot is given up, the stack page is not, then it yields. */
  function ReturnFromEntry(s: Sched): (r: Sched)
    requires Sized(s)
    ensures Sized(r)
  {
    if TaskRuns(s) then Schedule(Returned(s)) else s
  }

  // ---- What the calls leave alone ----

  /** The two states differ in nothing but the states of slots and the current PID. */
  ghost predicate OnlyStates(s: Sched, r: Sched) {
    && |r.table| == |s.table|
    && r == s.(table := r.table, cur := r.cur)
    && forall i :: 0 <= i < |s.table| ==> r.table[i] == s.table[i].(state := r.table[i].state)
  }

  lemma ScheduleFrame(s: Sched)
    requires Sized(s)
    ensures OnlyStates(s, Schedule(s))
  {
  }

  lemma TickedFrame(s: Sched)
    requires Sized(s)
    ensures var u := Ticked(s);
            && u == s.(tick := s.tick + 1, slice := s.slice + 1, table := u.table)
            && forall i :: 0 <= i < MAX_PROCESSES ==>
                 u.table[i] == Woken(s.table[i], s.tick + 1).(ticksUsed := u.table[i].ticksUsed)
  {
  }

  /** A tick is its clock part, with a scheduling pass behind it when the slice is used up. */
  lemma TickIs(s: Sched)
    requires Sized(s)
    ensures var u := Ticked(s);
            Tick(s) in {u, u.(slice := 0), Schedule(u.(slice := 0))}
  {
  }

  // ---- Events and runs ----

  datatype Event = EvTick | EvYield | EvSleep(ticks: nat) | EvSpawn(entry: nat) | EvKill(pid: nat) | EvReturn

  function Step(s: Sched, e: Event): (r: Sched)
    requires Sized(s)
    ensures Sized(r)
  {
    match e
    case EvTick => Tick(s)
    case EvYield => Schedule(s)
    case EvSleep(ticks) => Sleep(s, ticks)
    case EvSpawn(entry) => Spawn(s, entry).s
    case EvKill(pid) => Kill(s, pid).s
    case EvReturn => ReturnFromEntry(s)
  }

  function Run(s: Sched, es: seq<Event>): (r: Sched)
    requires Sized(s)
    ensures Sized(r)
    decreases |es|, s
  {
    if es == [] then s else Run(Step(s, es[0]), es[1..])
  }

  function EmptyProc(): Proc { Proc(0, Unused, 0, 0, 0, 0, 0, false) }

  /**
   process_init, with scheduling then switched on as kernel_main does before it starts the shell. By
   then `tick` ticks have passed; those since process_init are charged to the shell.
   */
  function Booted(pages: PmmModel.Pages, tick: nat, slice: nat, charged: nat): (s: Sched)
    ensures Sized(s)
  {
    var kernel := EmptyProc().(pid := 0, state := Running, inUse := true);
    var shell := EmptyProc().(pid := 1, state := Running, ticksUsed := charged, inUse := true);
    Sched(seq(MAX_PROCESSES, i => if i == 0 then kernel else if i == 1 then shell else EmptyProc()),
          1, 2, true, tick, slice, pages)
  }

  /** Until scheduling is switched on, a tick leads from one such state to the next. */
  lemma TickBeforeScheduling(pages: PmmModel.Pages, tick: nat, slice: nat, charged: nat)
    requires slice < TIME_SLICE_TICKS
    ensures Tick(Booted(pages, tick, slice, charged).(enabled := false))
            == Booted(pages, tick + 1, if slice + 1 == TIME_SLICE_TICKS then 0 else slice + 1, charged + 1).(enabled := false)
  {
    var s := Booted(pages, tick, slice, charged).(enabled := false);
    assert LivePid(s, 1, 1) && !LivePid(s, 0, 1);
    var r := Booted(pages, tick + 1, 0, charged + 1);
    assert Ticked(s).table == r.table;
  }

  lemma {:induction false} RunAppend(s: Sched, a: seq<Event>, b: seq<Event>)
    requires Sized(s)
    ensures Run(s, a + b) == Run(Run(s, a), b)
    decreases |a|
  {
    if a == [] {
      assert a + b == b;
    } else {
      assert (a + b)[0] == a[0] && (a + b)[1..] == a[1..] + b;
      RunAppend(Step(s, a[0]), a[1..], b);
    }
  }
}
