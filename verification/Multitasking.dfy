/**
 Allocator, scheduler and stack switch together. A world is the process table next to the machine on
 which the tasks run. As long as no process kills itself, every move of the scheduler is one that the
 stack switch is safe for: every task of every run is resumed with exactly the context it left with,
 every spawned one starts in the wrapper on its own page, and a task that returns from its entry goes
 on as PID 0, on a page that nobody else is ever given.
 */
module Multitasking {
  import opened ProcModel
  import opened ProcSafety
  import opened BoundedWait
  import opened IdleSlot
  import opened StackPages
  import opened PmmModel
  import C = ContextSwitch
  import T = TaskSwitching

  /** What the kernel image fixes: the addresses of the saved_esp fields, the shell's stack [lo, hi), the wrapper. */
  datatype Image = Image(saved: seq<nat>, lo: nat, hi: nat, wrapper: nat)

  ghost predicate InImage(f: Image, a: nat) { a in f.saved || f.lo <= a < f.hi }

  ghost predicate ImageOk(f: Image) {
    && |f.saved| == MAX_PROCESSES && f.lo < f.hi
    && (forall i, j :: 0 <= i < j < MAX_PROCESSES ==> f.saved[i] != f.saved[j])
    && (forall i :: 0 <= i < MAX_PROCESSES ==> !(f.lo <= f.saved[i] < f.hi))
  }

  /** The pages of the image are used, and no slot owns one of them. */
  ghost predicate ImageKept(f: Image, s: Sched) {
    && Sized(s)
    && (forall a: nat :: InImage(f, a) ==> a / PAGE_SIZE in s.pages.used)
    && (forall a: nat, i :: InImage(f, a) && 0 <= i < MAX_PROCESSES && s.table[i].kstack != 0 ==>
          s.table[i].kstack / PAGE_SIZE != a / PAGE_SIZE)
  }

  /** A stack on a page that is used but that no live slot owns. */
  ghost predicate LostStack(s: Sched, t: T.Task) {
    && t.lo % PAGE_SIZE == 0 && t.lo / PAGE_SIZE >= LOW_PAGES && t.hi == t.lo + C.KSTACK_SIZE
    && Lost(s, t.lo / PAGE_SIZE)
  }

  /** Task t of slot i has the shell's stack, its own page, or, in slot 0, the page of a task that has returned. */
  ghost predicate StackOf(f: Image, s: Sched, i: int, t: T.Task)
    requires 0 <= i < |s.table|
  {
    if i == 0 then LostStack(s, t)
    else if i == 1 then t.lo == f.lo && t.hi == f.hi
    else s.table[i].kstack != 0 && t.lo == s.table[i].kstack && t.hi == s.table[i].kstack + C.KSTACK_SIZE
  }

  /** Slot 0 has no task of its own, and gets one when a task returns. */
  ghost predicate HasTask(s: Sched, i: int) { Live(s, i) && (i == 0 ==> !Quiet(s)) }

  /** The machine's tasks are those of the table, each on its own stack. */
  ghost predicate Matches(f: Image, s: Sched, y: T.Sys) {
    && Sized(s) && |y.tasks| == MAX_PROCESSES && y.cur == CurSlot(s)
    && (forall i :: 0 <= i < MAX_PROCESSES ==> (y.tasks[i].live <==> HasTask(s, i)))
    && (forall i :: 0 <= i < MAX_PROCESSES && y.tasks[i].live ==> StackOf(f, s, i, y.tasks[i]))
  }

  datatype World = World(s: Sched, y: T.Sys)

  /** Sound, with a current process that is in the table. */
  ghost predicate Steady(s: Sched) { Good(s) && FindSlot(s, s.cur) >= 0 }

  ghost predicate WorldOk(f: Image, w: World) {
    ImageOk(f) && Steady(w.s) && ImageKept(f, w.s) && Matches(f, w.s, w.y) && T.Inv(f.saved, w.y)
  }

  // ---- Moves ----

  /** Work is anything the running task computes; an event is one of the scheduler's. */
  datatype Move = Work(cpu: C.Cpu, mem: C.Memory) | Happens(e: Event)

  /** The running process frees the stack it runs on. */
  predicate KillsItself(s: Sched, e: Event) { e == EvKill(s.cur) && s.cur > 1 }

  /** The running task returns from its entry. */
  predicate Leaves(s: Sched, e: Event)
    requires Sized(s)
  {
    e.EvReturn? && TaskRuns(s)
  }

  predicate Switches(s: Sched, e: Event)
    requires Sized(s)
  {
    CurSlot(Step(s, e)) != CurSlot(s)
  }

  lemma LeaverIsTask(f: Image, w: World, e: Event)
    requires WorldOk(f, w) && Leaves(w.s, e)
    ensures w.y.cur >= 2 && T.Allowed(f.saved, w.y, T.Adopt(0))
  {
    assert LivePid(w.s, 0, 0) && LivePid(w.s, 1, 1);
  }

  /** The machine as schedule sees it: a task that has returned counts as that of slot 0. */
  ghost function Caller(f: Image, w: World, m: Move): T.Sys
    requires WorldOk(f, w)
  {
    if m.Happens? && Leaves(w.s, m.e) then
      LeaverIsTask(f, w, m.e);
      T.Do(f.saved, w.y, T.Adopt(0))
    else w.y
  }

  lemma CallerIs(f: Image, w: World, m: Move)
    requires WorldOk(f, w)
    ensures var y := Caller(f, w, m); var gone := m.Happens? && Leaves(w.s, m.e);
            && T.Inv(f.saved, y) && y.cpu == w.y.cpu && y.mem == w.y.mem && |y.tasks| == MAX_PROCESSES
            && y.cur == (if gone then 0 else w.y.cur)
            && (forall i :: 0 <= i < MAX_PROCESSES && !(gone && i in {0, w.y.cur}) ==> y.tasks[i] == w.y.tasks[i])
            && (gone ==> w.y.cur >= 2 && y.tasks[0] == w.y.tasks[w.y.cur] && y.tasks[w.y.cur] == w.y.tasks[w.y.cur].(live := false))
  {
    if m.Happens? && Leaves(w.s, m.e) {
      LeaverIsTask(f, w, m.e);
      T.StepKeeps(f.saved, w.y, T.Adopt(0));
    }
  }

  /** schedule has called context_switch(&proc_table[cur].saved_esp, proc_table[n].saved_esp) on a stack with room. */
  ghost predicate Called(f: Image, y: T.Sys, n: int)
    requires |f.saved| == |y.tasks| && y.cur < |f.saved| && 0 <= n < |f.saved|
  {
    var e := y.cpu.esp; var t := y.tasks[y.cur];
    && t.lo + 32 <= e && e + 12 <= t.hi
    && C.Load(y.mem, e + 4) == f.saved[y.cur]
    && C.Load(y.mem, e + 8) == C.Load(y.mem, f.saved[n])
  }

  ghost predicate MoveOk(f: Image, w: World, m: Move)
    requires WorldOk(f, w)
  {
    match m
    case Work(_, mem) => T.Tame(f.saved, w.y, mem)
    case Happens(e) =>
      CallerIs(f, w, m);
      !KillsItself(w.s, e) && (Switches(w.s, e) ==> Called(f, Caller(f, w, m), CurSlot(Step(w.s, e))))
  }

  /** What the move does to the machine. */
  ghost function ActOf(f: Image, w: World, m: Move): T.Act
    requires WorldOk(f, w)
  {
    match m
    case Work(cpu, mem) => T.Compute(cpu, mem)
    case Happens(e) =>
      if e.EvSpawn? && Spawn(w.s, e.entry).rc >= 0 then
        var t := FreeSlot(w.s);
        T.Start(t, Spawn(w.s, e.entry).s.table[t].kstack, f.wrapper)
      else if e.EvKill? && Kill(w.s, e.pid).rc == 0 then T.Stop(FindSlot(w.s, e.pid))
      else if Switches(w.s, e) then T.Switch(CurSlot(Step(w.s, e)))
      else T.Compute(w.y.cpu, w.y.mem)
  }

  ghost function NextSched(s: Sched, m: Move): (r: Sched)
    requires Sized(s)
    ensures Sized(r)
  {
    if m.Happens? then Step(s, m.e) else s
  }

  ghost function Moved(f: Image, w: World, m: Move): World
    requires WorldOk(f, w) && MoveOk(f, w, m)
  {
    ActAllowed(f, w, m);
    World(NextSched(w.s, m), T.Do(f.saved, Caller(f, w, m), ActOf(f, w, m)))
  }

  // ---- What an event does to the slots ----

  /** The same processes are in the table, with the same stacks. */
  ghost predicate SameSlots(s: Sched, r: Sched) {
    && Sized(s) && Sized(r) && r.pages == s.pages
    && forall i :: 0 <= i < MAX_PROCESSES ==>
         r.table[i].inUse == s.table[i].inUse && r.table[i].pid == s.table[i].pid && r.table[i].kstack == s.table[i].kstack
  }

  lemma PassCurrent(s: Sched)
    requires PreSchedule(s) && FindSlot(s, s.cur) >= 0
    ensures SameSlots(s, Schedule(s)) && FindSlot(Schedule(s), Schedule(s).cur) >= 0
  {
    ScheduleFrame(s);
    var c := CurSlot(s);
    var n := Around(c, ScanFrom(s, c, 1));
    var r := Schedule(s);
    assert LivePid(s, c, s.cur);
    if r.cur == s.cur {
      assert LivePid(r, c, r.cur);
    } else {
      assert LivePid(r, n, r.cur);
    }
  }

  lemma TickSlots(s: Sched)
    requires Safe(s) && FindSlot(s, s.cur) >= 0
    ensures var u := Ticked(s);
            SameSlots(s, u) && FindSlot(u, u.cur) >= 0 && PreSchedule(u.(slice := 0)) && FindSlot(u.(slice := 0), u.cur) >= 0
  {
    TickedFrame(s);
    ProcessTickPre(s);
    var u := Ticked(s);
    SameFind(s, u, s.cur);
    SameFind(s, u.(slice := 0), s.cur);
  }

  /** A pass for a live caller leaves a live current process and the slots as they are. */
  lemma PassSlots(s: Sched, e: Event)
    requires Steady(s) && !Leaves(s, e) && !e.EvSpawn? && !e.EvKill?
    ensures SameSlots(s, Step(s, e)) && FindSlot(Step(s, e), Step(s, e).cur) >= 0
  {
    match e
    case EvTick =>
      TickSlots(s);
      PassCurrent(Ticked(s).(slice := 0));
    case EvYield =>
      SafeIsPre(s);
      PassCurrent(s);
    case EvSleep(ticks) =>
      if TaskRuns(s) {
        AsleepPre(s, ticks);
        StillThere(s, Asleep(s, ticks));
        PassCurrent(Asleep(s, ticks));
      }
    case EvReturn =>
  }

  /** A return takes its own slot out of the table, keeps the page, and goes straight to the shell. */
  ghost predicate SlotLeft(s: Sched, r: Sched, c: int) {
    && Sized(s) && Sized(r) && r.pages == s.pages && 2 <= c < MAX_PROCESSES && r.cur == 1 && CurSlot(r) == 1
    && forall i :: 0 <= i < MAX_PROCESSES ==>
         r.table[i].inUse == (s.table[i].inUse && i != c) && r.table[i].pid == s.table[i].pid && r.table[i].kstack == s.table[i].kstack
  }

  lemma ReturnSlots(s: Sched)
    requires Steady(s) && TaskRuns(s)
    ensures SlotLeft(s, ReturnFromEntry(s), CurSlot(s)) && FindSlot(ReturnFromEntry(s), 1) >= 0
  {
    var a := Returned(s);
    var c := CurSlot(s);
    assert LivePid(s, 0, 0) && LivePid(s, 1, 1) && LivePid(s, c, s.cur);
    DropKeeps(s, c, a.table[c]);
    NoOther(s, a, c);
    ScheduleSwitches(a);
    ScheduleFrame(a);
    SafeIsPre(a);
    ScheduleKeeps(a);
    FindIs(Schedule(a), 1);
  }

  lemma NoOther(s: Sched, a: Sched, c: int)
    requires Safe(s) && LivePid(s, c, s.cur) && Sized(a) && a.cur == s.cur && !a.table[c].inUse
    requires forall i :: 0 <= i < MAX_PROCESSES && i != c ==> a.table[i] == s.table[i]
    ensures FindSlot(a, a.cur) < 0
  {
    assert forall i :: LivePid(a, i, s.cur) ==> LivePid(s, i, s.cur) && i != c;
  }

  lemma OthersKeepCurrent(s: Sched, e: Event)
    requires Steady(s) && !KillsItself(s, e) && (e.EvSpawn? || e.EvKill?)
    ensures var r := Step(s, e); r.cur == s.cur && FindSlot(r, r.cur) == FindSlot(s, s.cur)
  {
    var r := Step(s, e);
    forall i | 0 <= i < MAX_PROCESSES
      ensures LivePid(s, i, s.cur) <==> LivePid(r, i, s.cur)
    {
      assert SlotOk(s, i);
    }
    SameFind(s, r, s.cur);
  }

  /** Every event but a suicide leads from a steady state to a steady state; slot 0 gets a task by returns only. */
  lemma StaysSteady(s: Sched, e: Event)
    requires Steady(s) && !KillsItself(s, e)
    ensures Steady(Step(s, e)) && (Quiet(Step(s, e)) <==> Quiet(s) && !Leaves(s, e))
  {
    StepOwned(s, e);
    StepAtZero(s, e);
    if e.EvSpawn? || e.EvKill? {
      OthersKeepCurrent(s, e);
    } else if Leaves(s, e) {
      ReturnSlots(s);
    } else {
      PassSlots(s, e);
    }
  }

  /** The current process stands in its slot, and that slot has a task. */
  lemma CurrentHasTask(s: Sched)
    requires Steady(s)
    ensures LivePid(s, CurSlot(s), s.cur) && HasTask(s, CurSlot(s))
  {
    assert LivePid(s, 0, 0);
  }

  // ---- What the machine needs of each event ----

  /** A new stack is apart from the image and from every stack in use. */
  lemma NewStackApart(f: Image, w: World, entry: nat)
    requires WorldOk(f, w) && Spawn(w.s, entry).rc >= 0
    ensures var t := FreeSlot(w.s); var k := Spawn(w.s, entry).s.table[t].kstack;
            && 2 <= t < MAX_PROCESSES && !w.y.tasks[t].live && k != 0
            && T.Allowed(f.saved, w.y, T.Start(t, k, f.wrapper))
            && ImageKept(f, Spawn(w.s, entry).s)
  {
    var t := FreeSlot(w.s);
    var r := Spawn(w.s, entry).s;
    var k := r.table[t].kstack;
    SpawnStack(w.s, entry);
    assert Live(w.s, 0) && Live(w.s, 1);
    CurrentHasTask(w.s);
    assert StackOk(r.table[t], r.pages);
    var top := T.NewTask(k, f.wrapper);
    forall a: nat | InImage(f, a)
      ensures !T.Holds(top, a)
    {
      assert a / PAGE_SIZE in w.s.pages.used;
      PageOf(k, a);
    }
    forall i | 0 <= i < MAX_PROCESSES
      ensures !T.Holds(top, f.saved[i])
      ensures w.y.tasks[i].live ==> T.Apart(top, w.y.tasks[i])
    {
      assert InImage(f, f.saved[i]);
      if w.y.tasks[i].live {
        assert StackOf(f, w.s, i, w.y.tasks[i]);
        if i == 1 {
          ApartFromRange(f, top);
        } else {
          assert StackOk(w.s.table[i], w.s.pages);
          assert w.y.tasks[i].lo / PAGE_SIZE in w.s.pages.used;
          DifferentPageStacks(k, w.y.tasks[i].lo);
        }
      }
    }
  }

  lemma PageOf(k: nat, a: nat)
    requires k % PAGE_SIZE == 0 && a / PAGE_SIZE != k / PAGE_SIZE
    ensures !(k <= a < k + C.KSTACK_SIZE)
  {
  }

  lemma DifferentPageStacks(a: nat, b: nat)
    requires a % PAGE_SIZE == 0 && b % PAGE_SIZE == 0 && a / PAGE_SIZE != b / PAGE_SIZE
    ensures a + C.KSTACK_SIZE <= b || b + C.KSTACK_SIZE <= a
  {
  }

  /** A non-empty range that shares no address with a page-sized stack lies on one side of it. */
  lemma ApartFromRange(f: Image, t: T.Task)
    requires forall a: nat :: InImage(f, a) ==> !T.Holds(t, a)
    requires t.lo < t.hi && f.lo < f.hi
    ensures t.hi <= f.lo || f.hi <= t.lo
  {
    if f.lo < t.hi && t.lo < f.hi {
      var a := if f.lo < t.lo then t.lo else f.lo;
      assert InImage(f, a);
    }
  }

  /** The switch goes to another live slot of the machine. */
  lemma TargetLive(f: Image, w: World, e: Event)
    requires WorldOk(f, w) && !KillsItself(w.s, e) && Switches(w.s, e)
    ensures var n := CurSlot(Step(w.s, e)); var y := Caller(f, w, Happens(e));
            && n != y.cur && |y.tasks| == MAX_PROCESSES && y.tasks[n].live && y.tasks[n] == w.y.tasks[n]
            && (Leaves(w.s, e) ==> n == 1)
  {
    StaysSteady(w.s, e);
    CallerIs(f, w, Happens(e));
    CurrentHasTask(Step(w.s, e));
    if e.EvSpawn? || e.EvKill? {
      OthersKeepCurrent(w.s, e);
    } else if Leaves(w.s, e) {
      ReturnSlots(w.s);
    } else {
      PassSlots(w.s, e);
    }
  }

  lemma VictimIsAnother(f: Image, w: World, pid: nat)
    requires WorldOk(f, w) && !KillsItself(w.s, EvKill(pid)) && Kill(w.s, pid).rc == 0
    ensures 2 <= FindSlot(w.s, pid) < MAX_PROCESSES && FindSlot(w.s, pid) != w.y.cur
  {
    CurrentHasTask(w.s);
    assert LivePid(w.s, 0, 0) && LivePid(w.s, 1, 1) && LivePid(w.s, FindSlot(w.s, pid), pid);
  }

  /** Every move is one the stack switch is safe for. */
  lemma ActAllowed(f: Image, w: World, m: Move)
    requires WorldOk(f, w) && MoveOk(f, w, m)
    ensures T.Allowed(f.saved, Caller(f, w, m), ActOf(f, w, m))
  {
    CallerIs(f, w, m);
    if m.Happens? {
      if m.e.EvSpawn? && Spawn(w.s, m.e.entry).rc >= 0 {
        NewStackApart(f, w, m.e.entry);
      } else if m.e.EvKill? && Kill(w.s, m.e.pid).rc == 0 {
        VictimIsAnother(f, w, m.e.pid);
      } else if Switches(w.s, m.e) {
        TargetLive(f, w, m.e);
      }
    }
  }

  /** A task that has returned keeps its page through every event. */
  lemma LostStackKept(s: Sched, e: Event, t: T.Task)
    requires Good(s) && LostStack(s, t)
    ensures LostStack(Step(s, e), t)
  {
    StepLost(s, e, t.lo / PAGE_SIZE);
  }

  lemma SpawnMatches(f: Image, w: World, entry: nat)
    requires WorldOk(f, w) && MoveOk(f, w, Happens(EvSpawn(entry))) && Spawn(w.s, entry).rc >= 0
    ensures var v := Moved(f, w, Happens(EvSpawn(entry)));
            ImageKept(f, v.s) && Matches(f, v.s, v.y)
  {
    NewStackApart(f, w, entry);
    OthersKeepCurrent(w.s, EvSpawn(entry));
    StaysSteady(w.s, EvSpawn(entry));
    var v := Moved(f, w, Happens(EvSpawn(entry)));
    var t := FreeSlot(w.s);
    forall i | 0 <= i < MAX_PROCESSES
      ensures v.y.tasks[i].live <==> HasTask(v.s, i)
      ensures v.y.tasks[i].live ==> StackOf(f, v.s, i, v.y.tasks[i])
    {
      if i != t {
        assert v.s.table[i] == w.s.table[i] && v.y.tasks[i] == w.y.tasks[i];
        if i == 0 && w.y.tasks[0].live { LostStackKept(w.s, EvSpawn(entry), w.y.tasks[0]); }
      }
    }
  }

  lemma KillMatches(f: Image, w: World, pid: nat)
    requires WorldOk(f, w) && MoveOk(f, w, Happens(EvKill(pid))) && Kill(w.s, pid).rc == 0
    ensures var v := Moved(f, w, Happens(EvKill(pid)));
            ImageKept(f, v.s) && Matches(f, v.s, v.y)
  {
    VictimIsAnother(f, w, pid);
    OthersKeepCurrent(w.s, EvKill(pid));
    StaysSteady(w.s, EvKill(pid));
    KillStack(w.s, pid);
    var v := Moved(f, w, Happens(EvKill(pid)));
    var t := FindSlot(w.s, pid);
    forall i | 0 <= i < MAX_PROCESSES
      ensures v.y.tasks[i].live <==> HasTask(v.s, i)
      ensures v.y.tasks[i].live ==> StackOf(f, v.s, i, v.y.tasks[i])
      ensures v.s.table[i].kstack != 0 ==> v.s.table[i].kstack == w.s.table[i].kstack
    {
      if i != t {
        assert v.s.table[i] == w.s.table[i] && v.y.tasks[i] == w.y.tasks[i];
        if i == 0 && w.y.tasks[0].live { LostStackKept(w.s, EvKill(pid), w.y.tasks[0]); }
      }
    }
  }

  lemma SameSlotsMatch(f: Image, w: World, r: Sched, y: T.Sys)
    requires WorldOk(f, w) && SameSlots(w.s, r) && (Quiet(r) <==> Quiet(w.s)) && y.cur == CurSlot(r) && |y.tasks| == MAX_PROCESSES
    requires forall i :: 0 <= i < MAX_PROCESSES ==>
               y.tasks[i].live == w.y.tasks[i].live && y.tasks[i].lo == w.y.tasks[i].lo && y.tasks[i].hi == w.y.tasks[i].hi
    ensures ImageKept(f, r) && Matches(f, r, y)
  {
    assert forall i :: Live(r, i) <==> Live(w.s, i);
    forall i | 0 <= i < MAX_PROCESSES
      ensures y.tasks[i].live <==> HasTask(r, i)
      ensures y.tasks[i].live ==> StackOf(f, r, i, y.tasks[i])
    {
      assert y.tasks[i].live ==> StackOf(f, w.s, i, w.y.tasks[i]);
    }
  }

  lemma RefusedChangesNothing(s: Sched, e: Event)
    requires Good(s)
    ensures e.EvSpawn? && Spawn(s, e.entry).rc < 0 ==> Step(s, e) == s
    ensures e.EvKill? && Kill(s, e.pid).rc != 0 ==> Step(s, e) == s
  {
    if e.EvSpawn? { SpawnStack(s, e.entry); }
    if e.EvKill? { KillStack(s, e.pid); }
  }

  /** The page of a task that returns becomes the stack of slot 0. */
  lemma LeaverKeepsPage(f: Image, w: World)
    requires WorldOk(f, w) && TaskRuns(w.s)
    ensures LostStack(ReturnFromEntry(w.s), w.y.tasks[w.y.cur])
  {
    CurrentHasTask(w.s);
    LeaverIsTask(f, w, EvReturn);
    var c := w.y.cur;
    assert StackOf(f, w.s, c, w.y.tasks[c]) && StackOk(w.s.table[c], w.s.pages);
    ReturnLosesPage(w.s, c, w.s.table[c].kstack / PAGE_SIZE);
  }

  lemma LeaveMatches(f: Image, w: World)
    requires WorldOk(f, w) && MoveOk(f, w, Happens(EvReturn)) && TaskRuns(w.s)
    ensures var v := Moved(f, w, Happens(EvReturn));
            ImageKept(f, v.s) && Matches(f, v.s, v.y)
  {
    CallerIs(f, w, Happens(EvReturn));
    ReturnSlots(w.s);
    StaysSteady(w.s, EvReturn);
    LeaverKeepsPage(f, w);
    LeaveMatchesSlots(f, w, Moved(f, w, Happens(EvReturn)));
  }

  lemma LeaveMatchesSlots(f: Image, w: World, v: World)
    requires WorldOk(f, w) && SlotLeft(w.s, v.s, w.y.cur) && Safe(v.s) && !Quiet(v.s) && LostStack(v.s, w.y.tasks[w.y.cur])
    requires v.y.cur == 1 && |v.y.tasks| == MAX_PROCESSES
    requires v.y.tasks[0].live && v.y.tasks[0].lo == w.y.tasks[w.y.cur].lo && v.y.tasks[0].hi == w.y.tasks[w.y.cur].hi
    requires !v.y.tasks[w.y.cur].live
    requires forall i :: 1 <= i < MAX_PROCESSES && i != w.y.cur ==> v.y.tasks[i] == w.y.tasks[i]
    ensures ImageKept(f, v.s) && Matches(f, v.s, v.y)
  {
    assert Live(v.s, 0);
    forall i | 1 <= i < MAX_PROCESSES
      ensures v.y.tasks[i].live <==> HasTask(v.s, i)
      ensures v.y.tasks[i].live ==> StackOf(f, v.s, i, v.y.tasks[i])
    {
      assert w.y.tasks[i].live ==> StackOf(f, w.s, i, w.y.tasks[i]);
    }
  }

  lemma EventMatches(f: Image, w: World, e: Event)
    requires WorldOk(f, w) && MoveOk(f, w, Happens(e))
    ensures var v := Moved(f, w, Happens(e));
            ImageKept(f, v.s) && Matches(f, v.s, v.y)
  {
    var v := Moved(f, w, Happens(e));
    if e.EvSpawn? && Spawn(w.s, e.entry).rc >= 0 {
      SpawnMatches(f, w, e.entry);
    } else if e.EvKill? && Kill(w.s, e.pid).rc == 0 {
      KillMatches(f, w, e.pid);
    } else if Leaves(w.s, e) {
      LeaveMatches(f, w);
    } else {
      RefusedChangesNothing(w.s, e);
      StaysSteady(w.s, e);
      if !e.EvSpawn? && !e.EvKill? { PassSlots(w.s, e); }
      SameSlotsMatch(f, w, v.s, v.y);
    }
  }

  /** Every move leads from a sound world to a sound world; a switch resumes the context kept for its target. */
  lemma MoveKeeps(f: Image, w: World, m: Move)
    requires WorldOk(f, w) && MoveOk(f, w, m)
    ensures WorldOk(f, Moved(f, w, m))
    ensures m.Happens? && Switches(w.s, m.e) ==> Moved(f, w, m).y.cpu == w.y.tasks[CurSlot(Moved(f, w, m).s)].ctx
  {
    ActAllowed(f, w, m);
    CallerIs(f, w, m);
    T.StepKeeps(f.saved, Caller(f, w, m), ActOf(f, w, m));
    if m.Happens? {
      StaysSteady(w.s, m.e);
      EventMatches(f, w, m.e);
      if m.e.EvSpawn? || m.e.EvKill? { OthersKeepCurrent(w.s, m.e); }
      if Switches(w.s, m.e) { TargetLive(f, w, m.e); }
    } else {
      SameSlotsMatch(f, w, w.s, Moved(f, w, m).y);
    }
  }

  // ---- Runs ----

  /** The world after a move, which is sound again. */
  ghost function After(f: Image, w: World, m: Move): (r: World)
    requires WorldOk(f, w) && MoveOk(f, w, m)
    ensures WorldOk(f, r)
  {
    MoveKeeps(f, w, m);
    Moved(f, w, m)
  }

  ghost predicate RunOk(f: Image, w: World, ms: seq<Move>)
    requires WorldOk(f, w)
    decreases |ms|, w
  {
    ms != [] ==> MoveOk(f, w, ms[0]) && RunOk(f, After(f, w, ms[0]), ms[1..])
  }

  ghost function RunWorld(f: Image, w: World, ms: seq<Move>): (r: World)
    requires WorldOk(f, w) && RunOk(f, w, ms)
    ensures WorldOk(f, r)
    decreases |ms|, w
  {
    if ms == [] then w else RunWorld(f, After(f, w, ms[0]), ms[1..])
  }

  /** PID q waits in slot j for the context ctx. */
  ghost predicate Parked(w: World, j: int, q: nat, ctx: C.Cpu) {
    LivePid(w.s, j, q) && w.s.cur != q && j < |w.y.tasks| && w.y.tasks[j].ctx == ctx
  }

  /** The move kills q, or, when q is PID 0, gives it the context of a task that returns. */
  predicate Disturbs(s: Sched, m: Move, q: nat)
    requires Sized(s)
  {
    m.Happens? && ((m.e == EvKill(q) && q > 1) || (q == 0 && Leaves(s, m.e)))
  }

  /** In no state of the run is q current, and no move disturbs it. */
  ghost predicate Idles(f: Image, w: World, ms: seq<Move>, q: nat)
    requires WorldOk(f, w) && RunOk(f, w, ms)
    decreases |ms|, w
  {
    w.s.cur != q && (ms != [] ==> !Disturbs(w.s, ms[0], q) && Idles(f, After(f, w, ms[0]), ms[1..], q))
  }

  /** An act changes only the context of the task that runs, of one it starts and of one it takes over. */
  lemma ContextKept(saved: seq<nat>, y: T.Sys, a: T.Act, j: nat)
    requires T.Allowed(saved, y, a) && j < |y.tasks| && j != y.cur && !((a.Start? || a.Adopt?) && a.slot == j)
    ensures var r := T.Do(saved, y, a); |r.tasks| == |y.tasks| && r.tasks[j].ctx == y.tasks[j].ctx
  {
  }

  lemma PidKept(s: Sched, e: Event, j: int, q: nat)
    requires Steady(s) && !KillsItself(s, e) && LivePid(s, j, q) && q != s.cur && (q <= 1 || e != EvKill(q))
    ensures LivePid(Step(s, e), j, q)
    ensures e.EvSpawn? && Spawn(s, e.entry).rc >= 0 ==> j != FreeSlot(s)
  {
    if e.EvSpawn? {
      NewSlotIsFree(s, e.entry);
    } else if e.EvKill? {
      assert e.pid > 1 ==> FindSlot(s, e.pid) != j;
    } else if Leaves(s, e) {
      CurrentHasTask(s);
      ReturnSlots(s);
    } else {
      PassSlots(s, e);
    }
  }

  lemma MoveParks(f: Image, w: World, m: Move, j: int, q: nat, ctx: C.Cpu)
    requires WorldOk(f, w) && MoveOk(f, w, m) && Parked(w, j, q, ctx) && !Disturbs(w.s, m, q)
    requires After(f, w, m).s.cur != q
    ensures Parked(After(f, w, m), j, q, ctx)
  {
    if m.Happens? { PidKept(w.s, m.e, j, q); }
    ParkedIsNotCurrent(f, w, j, q, ctx);
    MoveKeepsContext(f, w, m, j);
  }

  lemma ParkedIsNotCurrent(f: Image, w: World, j: int, q: nat, ctx: C.Cpu)
    requires WorldOk(f, w) && Parked(w, j, q, ctx)
    ensures j != w.y.cur && (j == 0 ==> q == 0)
  {
    CurrentHasTask(w.s);
    assert LivePid(w.s, 0, 0);
  }

  lemma MoveKeepsContext(f: Image, w: World, m: Move, j: nat)
    requires WorldOk(f, w) && MoveOk(f, w, m) && j < |w.y.tasks| && j != w.y.cur
    requires m.Happens? && m.e.EvSpawn? && Spawn(w.s, m.e.entry).rc >= 0 ==> j != FreeSlot(w.s)
    requires m.Happens? && Leaves(w.s, m.e) ==> j != 0
    ensures var r := After(f, w, m).y; |r.tasks| == |w.y.tasks| && r.tasks[j].ctx == w.y.tasks[j].ctx
  {
    ActAllowed(f, w, m);
    CallerIs(f, w, m);
    ContextKept(f.saved, Caller(f, w, m), ActOf(f, w, m), j);
  }

  lemma NewSlotIsFree(s: Sched, entry: nat)
    requires Good(s)
    ensures var r := Spawn(s, entry).s;
            forall j :: Live(s, j) ==> r.table[j] == s.table[j] && (Spawn(s, entry).rc >= 0 ==> j != FreeSlot(s))
  {
    SpawnStack(s, entry);
  }

  lemma {:induction false} RunParks(f: Image, w: World, ms: seq<Move>, j: int, q: nat, ctx: C.Cpu)
    requires WorldOk(f, w) && RunOk(f, w, ms) && Parked(w, j, q, ctx) && Idles(f, w, ms, q)
    ensures Parked(RunWorld(f, w, ms), j, q, ctx)
    decreases |ms|
  {
    if ms != [] {
      MoveParks(f, w, ms[0], j, q, ctx);
      RunParks(f, After(f, w, ms[0]), ms[1..], j, q, ctx);
    }
  }

  /** Whoever is dispatched while parked goes on with the context it is parked with. */
  lemma Dispatches(f: Image, w: World, e: Event, j: int, q: nat, ctx: C.Cpu)
    requires WorldOk(f, w) && MoveOk(f, w, Happens(e)) && Parked(w, j, q, ctx) && Step(w.s, e).cur == q
    ensures After(f, w, Happens(e)).y.cpu == ctx
  {
    MoveKeeps(f, w, Happens(e));
    DispatchSwitches(w.s, e, j, q);
  }

  lemma DispatchSwitches(s: Sched, e: Event, j: int, q: nat)
    requires Steady(s) && !KillsItself(s, e) && LivePid(s, j, q) && s.cur != q && Step(s, e).cur == q
    ensures Switches(s, e) && CurSlot(Step(s, e)) == j
  {
    CurrentHasTask(s);
    StaysSteady(s, e);
    if e.EvSpawn? || e.EvKill? {
      OthersKeepCurrent(s, e);
    } else {
      if Leaves(s, e) { ReturnSlots(s); } else { PassSlots(s, e); }
      assert LivePid(Step(s, e), j, q);
      FindIs(Step(s, e), j);
    }
  }

  /** Switching away parks the caller with its own context. */
  lemma SwitchParks(f: Image, w: World, e: Event)
    requires WorldOk(f, w) && MoveOk(f, w, Happens(e)) && Switches(w.s, e) && !Leaves(w.s, e)
    ensures Parked(After(f, w, Happens(e)), CurSlot(w.s), w.s.cur, T.ContextOf(w.y))
  {
    CurrentHasTask(w.s);
    TargetLive(f, w, e);
    if e.EvSpawn? || e.EvKill? { OthersKeepCurrent(w.s, e); } else { PassSlots(w.s, e); }
    StaysSteady(w.s, e);
    CurrentHasTask(Step(w.s, e));
  }

  /** Returning parks PID 0 with the context of the task that returned. */
  lemma LeaveParks(f: Image, w: World)
    requires WorldOk(f, w) && MoveOk(f, w, Happens(EvReturn)) && TaskRuns(w.s)
    ensures Parked(After(f, w, Happens(EvReturn)), 0, 0, T.ContextOf(w.y))
  {
    ReturnSlots(w.s);
    StaysSteady(w.s, EvReturn);
    assert LivePid(Step(w.s, EvReturn), 0, 0);
    LeaverContext(f, w);
  }

  lemma LeaverContext(f: Image, w: World)
    requires WorldOk(f, w) && MoveOk(f, w, Happens(EvReturn)) && Leaves(w.s, EvReturn)
    ensures var y := After(f, w, Happens(EvReturn)).y; |y.tasks| == MAX_PROCESSES && y.tasks[0].ctx == T.ContextOf(w.y)
  {
    CallerIs(f, w, Happens(EvReturn));
    ReturnSlots(w.s);
    ActAllowed(f, w, Happens(EvReturn));
    SwitchStoresContext(f.saved, Caller(f, w, Happens(EvReturn)), 1);
  }

  lemma SwitchStoresContext(saved: seq<nat>, y: T.Sys, n: nat)
    requires T.Allowed(saved, y, T.Switch(n))
    ensures var r := T.Do(saved, y, T.Switch(n)); |r.tasks| == |y.tasks| && r.tasks[y.cur].ctx == T.ContextOf(y)
  {
  }

  /** From v on, q idles through ms, and then the event dispatches it. */
  ghost predicate NextDispatch(f: Image, v: World, ms: seq<Move>, e: Event, q: nat)
    requires WorldOk(f, v)
  {
    && RunOk(f, v, ms) && Idles(f, v, ms, q)
    && MoveOk(f, RunWorld(f, v, ms), Happens(e)) && Step(RunWorld(f, v, ms).s, e).cur == q
  }

  lemma DispatchedNext(f: Image, v: World, ms: seq<Move>, e: Event, j: int, q: nat, ctx: C.Cpu)
    requires WorldOk(f, v) && NextDispatch(f, v, ms, e, q) && Parked(v, j, q, ctx)
    ensures After(f, RunWorld(f, v, ms), Happens(e)).y.cpu == ctx
  {
    RunParks(f, v, ms, j, q, ctx);
    Dispatches(f, RunWorld(f, v, ms), e, j, q, ctx);
  }

  /**
   Multitasking is transparent: whenever a process that was switched away from is dispatched again,
   after any run of computing, ticks, yields, sleeps, spawns, kills of others and returns of others,
   the processor goes on at its return address with the registers and the stack pointer it had.
   */
  lemma ResumesItself(f: Image, w: World, e: Event, ms: seq<Move>, back: Event)
    requires WorldOk(f, w) && MoveOk(f, w, Happens(e)) && Switches(w.s, e) && !Leaves(w.s, e)
    requires NextDispatch(f, After(f, w, Happens(e)), ms, back, w.s.cur)
    ensures After(f, RunWorld(f, After(f, w, Happens(e)), ms), Happens(back)).y.cpu
            == C.Cpu(w.y.cpu.regs, w.y.cpu.esp + 4, C.Load(w.y.mem, w.y.cpu.esp))
  {
    SwitchParks(f, w, e);
    DispatchedNext(f, After(f, w, Happens(e)), ms, back, CurSlot(w.s), w.s.cur, T.ContextOf(w.y));
  }

  /** A task that has returned from its entry goes on when PID 0 is dispatched next, behind its own last yield. */
  lemma LeaverGoesOnAsKernel(f: Image, w: World, ms: seq<Move>, back: Event)
    requires WorldOk(f, w) && MoveOk(f, w, Happens(EvReturn)) && TaskRuns(w.s)
    requires NextDispatch(f, After(f, w, Happens(EvReturn)), ms, back, 0)
    ensures After(f, RunWorld(f, After(f, w, Happens(EvReturn)), ms), Happens(back)).y.cpu
            == C.Cpu(w.y.cpu.regs, w.y.cpu.esp + 4, C.Load(w.y.mem, w.y.cpu.esp))
  {
    LeaveParks(f, w);
    DispatchedNext(f, After(f, w, Happens(EvReturn)), ms, back, 0, 0, T.ContextOf(w.y));
  }

  lemma SpawnParks(f: Image, w: World, entry: nat)
    requires WorldOk(f, w) && MoveOk(f, w, Happens(EvSpawn(entry))) && Spawn(w.s, entry).rc >= 0
    ensures Parked(After(f, w, Happens(EvSpawn(entry))), FreeSlot(w.s), Spawn(w.s, entry).rc, FreshContext(f, w.s))
  {
    NewStackApart(f, w, entry);
    assert SlotOk(w.s, CurSlot(w.s));
  }

  /** In the wrapper, with zeroed registers, at the top of the page that a spawn would take. */
  ghost function FreshContext(f: Image, s: Sched): C.Cpu {
    C.Cpu(C.Regs(0, 0, 0, 0, 0, 0, 0), LowestFree(s.pages.used, 0) * PAGE_SIZE + C.KSTACK_SIZE, f.wrapper)
  }

  /** The first dispatch of a spawned process enters the wrapper with zeroed registers at the top of its own page. */
  lemma StartsFresh(f: Image, w: World, entry: nat, ms: seq<Move>, first: Event)
    requires WorldOk(f, w) && MoveOk(f, w, Happens(EvSpawn(entry))) && Spawn(w.s, entry).rc >= 0
    requires NextDispatch(f, After(f, w, Happens(EvSpawn(entry))), ms, first, Spawn(w.s, entry).rc)
    ensures After(f, RunWorld(f, After(f, w, Happens(EvSpawn(entry))), ms), Happens(first)).y.cpu == FreshContext(f, w.s)
  {
    SpawnParks(f, w, entry);
    DispatchedNext(f, After(f, w, Happens(EvSpawn(entry))), ms, first, FreeSlot(w.s), Spawn(w.s, entry).rc, FreshContext(f, w.s));
  }

  // ---- Boot ----

  /** The machine when the shell starts: it alone has a stack. */
  function BootTasks(f: Image, cpu: C.Cpu): seq<T.Task> {
    seq(MAX_PROCESSES, i => if i == 1 then T.Task(true, f.lo, f.hi, cpu) else T.Task(false, 0, 0, cpu))
  }

  /** After pmm_init on a sane memory map, a kernel image below its end symbol makes the boot a sound world. */
  lemma BootWorld(f: Image, b: BootInfo, kernelEnd: nat, tick: nat, slice: nat, charged: nat, cpu: C.Cpu, mem: C.Memory)
    requires ImageOk(f) && slice < TIME_SLICE_TICKS
    requires kernelEnd < MAX_PAGES * PAGE_SIZE && forall a: nat :: InImage(f, a) ==> a < kernelEnd
    requires Counted(Started(b, kernelEnd))
    ensures WorldOk(f, World(Booted(Started(b, kernelEnd), tick, slice, charged), T.Sys(cpu, mem, 1, BootTasks(f, cpu))))
  {
    var pages := Started(b, kernelEnd);
    var s := Booted(pages, tick, slice, charged);
    BootOwned(pages, tick, slice, charged);
    assert LivePid(s, 0, 0) && LivePid(s, 1, 1);
    FindIs(s, 1);
    forall a: nat | InImage(f, a) ensures a / PAGE_SIZE in pages.used {
      assert IsReserved(a / PAGE_SIZE, kernelEnd);
    }
    assert forall i :: 0 <= i < MAX_PROCESSES ==> s.table[i].kstack == 0;
  }

  // ---- The hypotheses can be met ----

  /** Room for a call of context_switch: its frame, the return address and two arguments. */
  const CALL_SIZE := 44

  /** Both arguments of the call, at the top of the running task's stack. */
  ghost function WithCall(f: Image, y: T.Sys, e: nat, n: int): C.Memory
    requires |f.saved| == |y.tasks| && y.cur < |f.saved| && 0 <= n < |f.saved|
  {
    y.mem[e + 4 := f.saved[y.cur]][e + 8 := C.Load(y.mem, f.saved[n])]
  }

  /** Writing them is tame, and makes the call, when the stack has room. */
  lemma CallIsTame(f: Image, y: T.Sys, e: nat, n: int)
    requires T.Layout(f.saved, y) && 0 <= n < |f.saved|
    requires var t := y.tasks[y.cur]; t.lo + 32 <= e && e + 12 == t.hi
    ensures T.Tame(f.saved, y, WithCall(f, y, e, n))
    ensures C.Load(WithCall(f, y, e, n), f.saved[n]) == C.Load(y.mem, f.saved[n])
  {
    var t := y.tasks[y.cur];
    var mem := WithCall(f, y, e, n);
    assert forall a: nat :: !T.Holds(t, a) ==> C.Load(mem, a) == C.Load(y.mem, a);
    forall j | 0 <= j < |f.saved|
      ensures C.Load(mem, f.saved[j]) == C.Load(y.mem, f.saved[j])
    {
      assert !T.Holds(t, f.saved[j]);
    }
    forall j | 0 <= j < |f.saved| && y.tasks[j].live && j != y.cur
      ensures T.SameStack(y.mem, mem, y.tasks[j])
    {
      assert T.Apart(y.tasks[j], t);
    }
  }

  /** With room on its stack, the running task can always get to the point where schedule has called context_switch. */
  lemma CanCall(f: Image, w: World, n: int) returns (m: Move)
    requires WorldOk(f, w) && 0 <= n < MAX_PROCESSES
    requires w.y.tasks[w.y.cur].lo + CALL_SIZE <= w.y.tasks[w.y.cur].hi
    ensures m.Work? && MoveOk(f, w, m)
    ensures After(f, w, m).s == w.s && After(f, w, m).y.tasks == w.y.tasks && Called(f, After(f, w, m).y, n)
  {
    var e := w.y.tasks[w.y.cur].hi - 12;
    CallIsTame(f, w.y, e, n);
    m := Work(w.y.cpu.(esp := e), WithCall(f, w.y, e, n));
  }

  /** The shell runs, slot 2 is READY, and no higher slot is taken. */
  ghost predicate TwoTasks(s: Sched, q: nat) {
    Steady(s) && Quiet(s) && s.cur == 1 && Waits(s, 2, q) && forall i :: 3 <= i < MAX_PROCESSES ==> !Live(s, i)
  }

  lemma YieldThere(s: Sched, q: nat)
    requires TwoTasks(s, q)
    ensures var r := Step(s, EvYield);
            && r.cur == q != 1 && CurSlot(s) == 1 && CurSlot(r) == 2 && Steady(r)
            && Step(r, EvYield).cur == 1 && CurSlot(Step(r, EvYield)) == 1
  {
    CurrentHasTask(s);
    FindIs(s, 1);
    FindIs(s, 2);
    assert Around(1, 1) == 2;
    assert ScanFrom(s, 1, 1) == 1;
    var r := Step(s, EvYield);
    assert r == SwitchTo(s, 1, 2);
    StaysSteady(s, EvYield);
    FindIs(r, 2);
    assert r.table[0] == s.table[0] && r.table[1].state == Ready && r.table[2].state == Running;
    forall i | 3 <= i < MAX_PROCESSES ensures !ReadyAt(r, i) { assert !Live(s, i); }
    assert Around(2, 15) == 1 && ReadyAt(r, Around(2, 15));
    var d := ScanFrom(r, 2, 1);
    assert ReadyAt(r, Around(2, d));
    StaysSteady(r, EvYield);
    FindIs(Step(r, EvYield), 1);
  }

  /** Such a world has a run that switches away from the shell and back to it. */
  lemma ThereAndBack(f: Image, w: World, q: nat) returns (call: Move, ms: seq<Move>)
    requires WorldOk(f, w) && TwoTasks(w.s, q) && f.lo + CALL_SIZE <= f.hi
    ensures MoveOk(f, w, call)
    ensures var v := After(f, w, call);
            && MoveOk(f, v, Happens(EvYield)) && Switches(v.s, EvYield)
            && NextDispatch(f, After(f, v, Happens(EvYield)), ms, EvYield, v.s.cur)
  {
    YieldThere(w.s, q);
    assert StackOf(f, w.s, 1, w.y.tasks[1]);
    call := CanCall(f, w, 2);
    ms := FromTaskToShell(f, After(f, After(f, w, call), Happens(EvYield)));
  }

  lemma FromTaskToShell(f: Image, u: World) returns (ms: seq<Move>)
    requires WorldOk(f, u) && CurSlot(u.s) == 2 && u.s.cur != 1
    requires Step(u.s, EvYield).cur == 1 && CurSlot(Step(u.s, EvYield)) == 1
    ensures NextDispatch(f, u, ms, EvYield, 1)
  {
    CurrentHasTask(u.s);
    assert StackOf(f, u.s, 2, u.y.tasks[2]);
    var again := CanCall(f, u, 1);
    ms := [again];
    BackAfter(f, u, again, 1);
  }

  lemma BackAfter(f: Image, u: World, m: Move, q: nat)
    requires WorldOk(f, u) && m.Work? && MoveOk(f, u, m) && After(f, u, m).s == u.s && u.s.cur != q
    requires MoveOk(f, After(f, u, m), Happens(EvYield)) && Step(u.s, EvYield).cur == q
    ensures NextDispatch(f, u, [m], EvYield, q)
  {
    var rest := [m][1..];
    assert rest == [];
    assert RunOk(f, After(f, u, m), rest);
    assert RunWorld(f, After(f, u, m), rest) == After(f, u, m);
    assert RunWorld(f, u, [m]) == After(f, u, m);
  }
}
