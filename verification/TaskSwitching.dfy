/**
 Many tasks sharing one processor through context_switch. Each task keeps a private context; the
 machine keeps only stacks and one saved_esp word per slot. Every run of the machine resumes each
 task with exactly the context it left with, as long as tasks stay off each other's stacks.
 */
module TaskSwitching {
  import opened ContextSwitch

  /** A slot: its stack is [lo, hi); ctx is where the task goes on when it is switched to. */
  datatype Task = Task(live: bool, lo: nat, hi: nat, ctx: Cpu)

  datatype Sys = Sys(cpu: Cpu, mem: Memory, cur: nat, tasks: seq<Task>)

  ghost predicate Apart(a: Task, b: Task) { a.hi <= b.lo || b.hi <= a.lo }

  ghost predicate Holds(t: Task, a: nat) { t.lo <= a < t.hi }

  /** The saved_esp word of j leads to an intact frame on j's own stack, for exactly j's context. */
  ghost predicate Suspended(m: Memory, saved: nat, t: Task) {
    var base := Load(m, saved);
    t.lo <= base && base + FRAME_SIZE <= t.hi && t.ctx.esp == base + FRAME_SIZE
    && FrameAt(m, base, t.ctx.regs, t.ctx.eip)
  }

  /** saved[i] is the address of slot i's saved_esp field. */
  ghost predicate Layout(saved: seq<nat>, s: Sys) {
    && |saved| == |s.tasks| && s.cur < |s.tasks| && s.tasks[s.cur].live
    && (forall i, j :: 0 <= i < j < |saved| ==> saved[i] != saved[j])
    && (forall i, j :: 0 <= i < |saved| && 0 <= j < |saved| && s.tasks[j].live ==> !Holds(s.tasks[j], saved[i]))
    && (forall i, j :: 0 <= i < |saved| && 0 <= j < |saved| && i != j && s.tasks[i].live && s.tasks[j].live ==>
          Apart(s.tasks[i], s.tasks[j]))
  }

  ghost predicate Inv(saved: seq<nat>, s: Sys) {
    && Layout(saved, s)
    && (forall j :: 0 <= j < |saved| && s.tasks[j].live && j != s.cur ==> Suspended(s.mem, saved[j], s.tasks[j]))
  }

  /**
   Compute is anything the running task does between two switches. Adopt makes the running task that of
   another slot: its own slot is given up, and whatever the other slot held is forgotten.
   */
  datatype Act =
    | Compute(cpu: Cpu, mem: Memory)
    | Switch(to: nat)
    | Start(slot: nat, stack: nat, wrapper: nat)
    | Stop(slot: nat)
    | Adopt(slot: nat)

  ghost predicate SameStack(m: Memory, k: Memory, t: Task) {
    forall a: nat :: Holds(t, a) ==> Load(m, a) == Load(k, a)
  }

  /** The running task may do as it likes except on the stacks of suspended tasks and in saved_esp fields. */
  ghost predicate Tame(saved: seq<nat>, s: Sys, k: Memory)
    requires |saved| == |s.tasks|
  {
    && (forall j :: 0 <= j < |saved| && s.tasks[j].live && j != s.cur ==> SameStack(s.mem, k, s.tasks[j]))
    && (forall j :: 0 <= j < |saved| ==> Load(k, saved[j]) == Load(s.mem, saved[j]))
  }

  /** The call schedule makes: return address and both arguments on a stack with room for the frame. */
  ghost predicate CallReady(saved: seq<nat>, s: Sys, n: nat)
    requires |saved| == |s.tasks| && s.cur < |saved| && n < |saved|
  {
    var e := s.cpu.esp; var t := s.tasks[s.cur];
    && n != s.cur && s.tasks[n].live
    && t.lo + 32 <= e && e + 12 <= t.hi
    && Load(s.mem, e + 4) == saved[s.cur]
    && Load(s.mem, e + 8) == Load(s.mem, saved[n])
  }

  function NewTask(stack: nat, wrapper: nat): Task {
    Task(true, stack, stack + KSTACK_SIZE, Cpu(Regs(0, 0, 0, 0, 0, 0, 0), stack + KSTACK_SIZE, wrapper))
  }

  ghost predicate Allowed(saved: seq<nat>, s: Sys, a: Act) {
    && Layout(saved, s)
    && match a
       case Compute(_, k) => Tame(saved, s, k)
       case Switch(n) => n < |saved| && CallReady(saved, s, n)
       case Start(j, stack, wrapper) =>
         && j < |saved| && j != s.cur && !s.tasks[j].live
         && (forall i :: 0 <= i < |saved| ==> !Holds(NewTask(stack, wrapper), saved[i]))
         && (forall i :: 0 <= i < |saved| && s.tasks[i].live ==> Apart(NewTask(stack, wrapper), s.tasks[i]))
       case Stop(j) => j < |saved| && j != s.cur
       case Adopt(j) => j < |saved| && j != s.cur
  }

  /** Where the running task will go on: after its call, with the registers it has now. */
  function ContextOf(s: Sys): Cpu { Cpu(s.cpu.regs, s.cpu.esp + 4, Load(s.mem, s.cpu.esp)) }

  ghost function Do(saved: seq<nat>, s: Sys, a: Act): Sys
    requires Allowed(saved, s, a)
  {
    match a
    case Compute(c, k) => s.(cpu := c, mem := k)
    case Switch(n) =>
      Sys(SwitchCpu(s.cpu, s.mem), SwitchMem(s.cpu, s.mem), n, s.tasks[s.cur := s.tasks[s.cur].(ctx := ContextOf(s))])
    case Start(j, stack, wrapper) =>
      s.(mem := Prepared(s.mem, stack, wrapper)[saved[j] := stack + KSTACK_SIZE - FRAME_SIZE],
         tasks := s.tasks[j := NewTask(stack, wrapper)])
    case Stop(j) => s.(tasks := s.tasks[j := s.tasks[j].(live := false)])
    case Adopt(j) => s.(cur := j, tasks := s.tasks[j := s.tasks[s.cur]][s.cur := s.tasks[s.cur].(live := false)])
  }

  lemma StillSuspended(m: Memory, k: Memory, saved: nat, t: Task)
    requires Suspended(m, saved, t) && SameStack(m, k, t) && Load(k, saved) == Load(m, saved)
    ensures Suspended(k, saved, t)
  {
    var base := Load(m, saved);
    forall i | 0 <= i <= 8 ensures Load(m, Word(base, i)) == Load(k, Word(base, i)) {
      assert Holds(t, Word(base, i));
    }
    FrameKept(m, k, base, t.ctx.regs, t.ctx.eip);
  }

  lemma ComputeKeeps(saved: seq<nat>, s: Sys, a: Act)
    requires Inv(saved, s) && a.Compute? && Allowed(saved, s, a)
    ensures Inv(saved, Do(saved, s, a))
  {
    forall j | 0 <= j < |saved| && s.tasks[j].live && j != s.cur
      ensures Suspended(a.mem, saved[j], s.tasks[j])
    {
      StillSuspended(s.mem, a.mem, saved[j], s.tasks[j]);
    }
  }

  /** The switch resumes the target's context. */
  lemma SwitchTarget(saved: seq<nat>, s: Sys, n: nat)
    requires Inv(saved, s) && Allowed(saved, s, Switch(n))
    ensures SwitchCpu(s.cpu, s.mem) == s.tasks[n].ctx
  {
    var t := s.tasks[s.cur];
    assert !Holds(t, saved[s.cur]);
    var base := Load(s.mem, saved[n]);
    assert Suspended(s.mem, saved[n], s.tasks[n]);
    assert Apart(s.tasks[n], t) && !Holds(s.tasks[n], saved[s.cur]);
    SwitchResumes(s.cpu, s.mem, base, s.tasks[n].ctx.regs, s.tasks[n].ctx.eip);
  }

  /** It leaves the frames of the other suspended tasks alone. */
  lemma SwitchOthers(saved: seq<nat>, s: Sys, n: nat, j: nat)
    requires Inv(saved, s) && Allowed(saved, s, Switch(n))
    requires j < |saved| && s.tasks[j].live && j != s.cur
    ensures Suspended(SwitchMem(s.cpu, s.mem), saved[j], s.tasks[j])
  {
    var t := s.tasks[s.cur];
    SwitchSaves(s.cpu, s.mem);
    assert Apart(s.tasks[j], t) && !Holds(s.tasks[j], saved[s.cur]) && !Holds(t, saved[j]) && !Holds(t, saved[s.cur]);
    assert saved[j] != saved[s.cur];
    StillSuspended(s.mem, SwitchMem(s.cpu, s.mem), saved[j], s.tasks[j]);
  }

  /** It suspends the caller with the caller's own context. */
  lemma SwitchCaller(saved: seq<nat>, s: Sys, n: nat)
    requires Inv(saved, s) && Allowed(saved, s, Switch(n))
    ensures Suspended(SwitchMem(s.cpu, s.mem), saved[s.cur], s.tasks[s.cur].(ctx := ContextOf(s)))
  {
    assert !Holds(s.tasks[s.cur], saved[s.cur]);
    SwitchSaves(s.cpu, s.mem);
  }

  lemma SwitchKeeps(saved: seq<nat>, s: Sys, n: nat)
    requires Inv(saved, s) && Allowed(saved, s, Switch(n))
    ensures Inv(saved, Do(saved, s, Switch(n)))
    ensures Do(saved, s, Switch(n)).cpu == s.tasks[n].ctx
  {
    var r := Do(saved, s, Switch(n));
    SwitchTarget(saved, s, n);
    SwitchCaller(saved, s, n);
    LayoutSwitch(saved, s, n);
    forall j | 0 <= j < |saved| && r.tasks[j].live && j != r.cur
      ensures Suspended(r.mem, saved[j], r.tasks[j])
    {
      if j != s.cur { SwitchOthers(saved, s, n, j); }
    }
  }

  lemma LayoutSwitch(saved: seq<nat>, s: Sys, n: nat)
    requires Inv(saved, s) && Allowed(saved, s, Switch(n))
    ensures Layout(saved, Do(saved, s, Switch(n)))
  {
    var r := Do(saved, s, Switch(n));
    assert forall i :: 0 <= i < |saved| ==> r.tasks[i].live == s.tasks[i].live && r.tasks[i].lo == s.tasks[i].lo && r.tasks[i].hi == s.tasks[i].hi;
    forall i, j | 0 <= i < |saved| && 0 <= j < |saved| && r.tasks[j].live ensures !Holds(r.tasks[j], saved[i]) {
      assert !Holds(s.tasks[j], saved[i]);
    }
    forall i, j | 0 <= i < |saved| && 0 <= j < |saved| && i != j && r.tasks[i].live && r.tasks[j].live ensures Apart(r.tasks[i], r.tasks[j]) {
      assert Apart(s.tasks[i], s.tasks[j]);
    }
  }

  lemma StartKeeps(saved: seq<nat>, s: Sys, a: Act)
    requires Inv(saved, s) && a.Start? && Allowed(saved, s, a)
    ensures Inv(saved, Do(saved, s, a))
  {
    var r := Do(saved, s, a);
    FirstFrame(s.mem, a.stack, a.wrapper);
    var p := Prepared(s.mem, a.stack, a.wrapper);
    var t := NewTask(a.stack, a.wrapper);
    var base := a.stack + KSTACK_SIZE - FRAME_SIZE;
    assert !Holds(t, saved[a.slot]);
    assert SameFrame(p, r.mem, base) by {
      forall i | 0 <= i <= 8 ensures Load(p, Word(base, i)) == Load(r.mem, Word(base, i)) {
        assert Holds(t, Word(base, i));
      }
    }
    FrameKept(p, r.mem, base, t.ctx.regs, t.ctx.eip);
    forall j | 0 <= j < |saved| && r.tasks[j].live && j != r.cur
      ensures Suspended(r.mem, saved[j], r.tasks[j])
    {
      if j != a.slot {
        assert Apart(t, s.tasks[j]) && !Holds(s.tasks[j], saved[a.slot]) && !Holds(t, saved[j]);
        assert saved[j] != saved[a.slot];
        StillSuspended(s.mem, r.mem, saved[j], s.tasks[j]);
      }
    }
  }

  lemma AdoptKeeps(saved: seq<nat>, s: Sys, j: nat)
    requires Inv(saved, s) && Allowed(saved, s, Adopt(j))
    ensures Inv(saved, Do(saved, s, Adopt(j)))
  {
    var r := Do(saved, s, Adopt(j));
    assert forall i :: 0 <= i < |saved| && i != j ==> r.tasks[i] == s.tasks[i].(live := r.tasks[i].live) && (r.tasks[i].live ==> s.tasks[i].live);
    assert r.tasks[j] == s.tasks[s.cur] && !r.tasks[s.cur].live;
  }

  /** Every allowed act keeps the invariant. */
  lemma StepKeeps(saved: seq<nat>, s: Sys, a: Act)
    requires Inv(saved, s) && Allowed(saved, s, a)
    ensures Inv(saved, Do(saved, s, a))
    ensures a.Switch? ==> Do(saved, s, a).cpu == s.tasks[a.to].ctx
  {
    match a
    case Compute(_, _) => ComputeKeeps(saved, s, a);
    case Switch(n) => SwitchKeeps(saved, s, n);
    case Start(_, _, _) => StartKeeps(saved, s, a);
    case Stop(j) =>
    case Adopt(j) => AdoptKeeps(saved, s, j);
  }

  ghost predicate RunAllowed(saved: seq<nat>, s: Sys, acts: seq<Act>)
    decreases |acts|, s
  {
    acts != [] ==> Allowed(saved, s, acts[0]) && RunAllowed(saved, Do(saved, s, acts[0]), acts[1..])
  }

  ghost function Run(saved: seq<nat>, s: Sys, acts: seq<Act>): Sys
    requires RunAllowed(saved, s, acts)
    decreases |acts|, s
  {
    if acts == [] then s else Run(saved, Do(saved, s, acts[0]), acts[1..])
  }

  /** No act of the run concerns slot j: it is neither switched to, nor started, stopped or taken over. */
  predicate LeavesAlone(acts: seq<Act>, j: nat) {
    forall k :: 0 <= k < |acts| ==> acts[k] != Stop(j) && acts[k] != Switch(j) && acts[k] != Adopt(j) && !(acts[k].Start? && acts[k].slot == j)
  }

  /** A suspended task keeps its context whatever the others do. */
  lemma {:induction false} ContextWaits(saved: seq<nat>, s: Sys, acts: seq<Act>, j: nat)
    requires Inv(saved, s) && RunAllowed(saved, s, acts) && LeavesAlone(acts, j)
    requires j < |saved| && j != s.cur && s.tasks[j].live
    ensures var r := Run(saved, s, acts);
            Inv(saved, r) && r.cur != j && r.tasks[j] == s.tasks[j]
    decreases |acts|
  {
    if acts != [] {
      assert acts[0] != Switch(j);
      StepKeeps(saved, s, acts[0]);
      assert forall k :: 0 <= k < |acts[1..]| ==> acts[1..][k] == acts[k + 1];
      ContextWaits(saved, Do(saved, s, acts[0]), acts[1..], j);
    }
  }

  /**
   Save and resume: a task that switches away goes on, when it is switched back to after any run of
   the others, at its own return address with the registers and stack pointer of its call.
   */
  lemma SavesAndResumes(saved: seq<nat>, s: Sys, n: nat, acts: seq<Act>)
    requires Inv(saved, s) && Allowed(saved, s, Switch(n))
    requires RunAllowed(saved, Do(saved, s, Switch(n)), acts) && LeavesAlone(acts, s.cur)
    requires Allowed(saved, Run(saved, Do(saved, s, Switch(n)), acts), Switch(s.cur))
    ensures Do(saved, Run(saved, Do(saved, s, Switch(n)), acts), Switch(s.cur)).cpu
            == Cpu(s.cpu.regs, s.cpu.esp + 4, Load(s.mem, s.cpu.esp))
  {
    var s1 := Do(saved, s, Switch(n));
    StepKeeps(saved, s, Switch(n));
    ContextWaits(saved, s1, acts, s.cur);
    StepKeeps(saved, Run(saved, s1, acts), Switch(s.cur));
  }

  /** The first switch into a started task enters the wrapper with zeroed registers on an empty stack. */
  lemma StartsInWrapper(saved: seq<nat>, s: Sys, j: nat, stack: nat, wrapper: nat, acts: seq<Act>)
    requires Inv(saved, s) && Allowed(saved, s, Start(j, stack, wrapper))
    requires RunAllowed(saved, Do(saved, s, Start(j, stack, wrapper)), acts) && LeavesAlone(acts, j)
    requires Allowed(saved, Run(saved, Do(saved, s, Start(j, stack, wrapper)), acts), Switch(j))
    ensures Do(saved, Run(saved, Do(saved, s, Start(j, stack, wrapper)), acts), Switch(j)).cpu
            == Cpu(Regs(0, 0, 0, 0, 0, 0, 0), stack + KSTACK_SIZE, wrapper)
  {
    var s1 := Do(saved, s, Start(j, stack, wrapper));
    StepKeeps(saved, s, Start(j, stack, wrapper));
    ContextWaits(saved, s1, acts, j);
    StepKeeps(saved, Run(saved, s1, acts), Switch(j));
  }
}
