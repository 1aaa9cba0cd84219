/**
 src/context_switch.s and the stack that src/process.c prepares for a new task: saving a frame on one
 stack and resuming from the frame on another. Memory is a map from word-aligned addresses to words.
 */
module ContextSwitch {
  /** What a suspended task occupies on its stack: eight registers and a return address. */
  const FRAME_SIZE := 36
  const KSTACK_SIZE := 4096

  /** The general registers besides ESP. */
  datatype Regs = Regs(eax: nat, ecx: nat, edx: nat, ebx: nat, ebp: nat, esi: nat, edi: nat)

  datatype Cpu = Cpu(regs: Regs, esp: nat, eip: nat)

  type Memory = map<nat, nat>

  function Load(m: Memory, a: nat): nat { if a in m then m[a] else 0 }

  /** PUSHAD (section 4.3 of volume 2B of the Intel SDM): EAX at the highest address, EDI at the lowest. */
  function Pushed(c: Cpu, m: Memory): Memory
    requires c.esp >= 32
  {
    var e := c.esp;
    m[e - 4 := c.regs.eax][e - 8 := c.regs.ecx][e - 12 := c.regs.edx][e - 16 := c.regs.ebx]
     [e - 20 := e][e - 24 := c.regs.ebp][e - 28 := c.regs.esi][e - 32 := c.regs.edi]
  }

  /** POPAD reads the registers back and skips the ESP word. */
  function Popped(m: Memory, e: nat): Regs {
    Regs(Load(m, e + 28), Load(m, e + 24), Load(m, e + 20), Load(m, e + 16), Load(m, e + 8), Load(m, e + 4), Load(m, e))
  }

  /** Memory after the two saves of context_switch. */
  function SwitchMem(c: Cpu, m: Memory): Memory
    requires c.esp >= 32
  {
    var p := Pushed(c, m);
    p[Load(p, c.esp + 4) := c.esp - 32]
  }

  /** The processor when context_switch returns, on the new stack. */
  function SwitchCpu(c: Cpu, m: Memory): Cpu
    requires c.esp >= 32
  {
    Resumed(SwitchMem(c, m), c.esp + 8)
  }

  /** The processor after the frame whose address stands at a has been popped. */
  function Resumed(s: Memory, a: nat): Cpu {
    var n := Load(s, a);
    Cpu(Popped(s, n), n + FRAME_SIZE, Load(s, n + 32))
  }

  lemma SwitchMemIs(c: Cpu, m: Memory, p: Memory)
    requires c.esp >= 32 && p == Pushed(c, m)
    ensures SwitchMem(c, m) == p[Load(p, c.esp + 4) := c.esp - 32]
  {
  }

  class Machine {
    var regs: Regs
    var esp: nat
    var eip: nat
    var mem: Memory

    ghost function State(): Cpu
      reads this
    {
      Cpu(regs, esp, eip)
    }

    method Push(v: nat)
      requires esp >= 4
      modifies this`esp, this`mem
      ensures esp == old(esp) - 4 && mem == old(mem)[esp := v]
    {
      esp := esp - 4;
      mem := mem[esp := v];
    }

    method Pop() returns (v: nat)
      modifies this`esp
      ensures esp == old(esp) + 4 && v == Load(mem, old(esp))
    {
      v := Load(mem, esp);
      esp := esp + 4;
    }

    method Pushad()
      requires esp >= 32
      modifies this`esp, this`mem
      ensures esp == old(esp) - 32 && mem == Pushed(old(State()), old(mem))
    {
      var temp := esp;
      Push(regs.eax);
      Push(regs.ecx);
      Push(regs.edx);
      Push(regs.ebx);
      Push(temp);
      Push(regs.ebp);
      Push(regs.esi);
      Push(regs.edi);
    }

    method Popad()
      modifies this`esp, this`regs
      ensures esp == old(esp) + 32 && regs == Popped(mem, old(esp))
    {
      var edi := Pop();
      var esi := Pop();
      var ebp := Pop();
      var skipped := Pop();
      var ebx := Pop();
      var edx := Pop();
      var ecx := Pop();
      var eax := Pop();
      regs := Regs(eax, ecx, edx, ebx, ebp, esi, edi);
    }

    /** The six instructions; [esp] is the return address, [esp + 4] old_esp_ptr, [esp + 8] new_esp. */
    method Switch()
      requires esp >= 32
      modifies this
      ensures State() == SwitchCpu(old(State()), old(mem)) && mem == SwitchMem(old(State()), old(mem))
    {
      ghost var c, m := State(), mem;
      Pushad();
      SaveEsp();
      SwitchMemIs(c, m, Pushed(c, m));
      LoadAndReturn();
    }

    /** The first two moves, with the eight registers already on the stack. */
    method SaveEsp()
      modifies this`regs, this`mem
      ensures mem == old(mem)[Load(old(mem), esp + 36) := esp]
    {
      regs := regs.(eax := Load(mem, esp + 36));
      mem := mem[regs.eax := esp];
    }

    /** The third move, POPAD and RET. */
    method LoadAndReturn()
      modifies this`esp, this`regs, this`eip
      ensures State() == Resumed(mem, old(esp) + 40)
    {
      esp := Load(mem, esp + 40);
      Popad();
      eip := Pop();
    }

    /** The words process_create_kernel writes on a new stack; returns saved_esp. */
    method PrepareStack(stack: nat, wrapper: nat) returns (sp: nat)
      modifies this`mem
      ensures sp == stack + KSTACK_SIZE - FRAME_SIZE
      ensures mem == Prepared(old(mem), stack, wrapper)
    {
      sp := stack + KSTACK_SIZE;
      sp := sp - 4;
      mem := mem[sp := wrapper];
      for i := 0 to 8
        invariant sp == stack + KSTACK_SIZE - 4 - 4 * i
        invariant mem == Zeroed(old(mem)[stack + KSTACK_SIZE - 4 := wrapper], stack + KSTACK_SIZE - 4, i)
      {
        sp := sp - 4;
        mem := mem[sp := 0];
      }
    }
  }

  /** n zero words below address top. */
  function Zeroed(m: Memory, top: nat, n: nat): Memory
    requires 4 * n <= top
    decreases n, m
  {
    if n == 0 then m else Zeroed(m, top, n - 1)[top - 4 * n := 0]
  }

  function Prepared(m: Memory, stack: nat, wrapper: nat): Memory {
    Zeroed(m[stack + KSTACK_SIZE - 4 := wrapper], stack + KSTACK_SIZE - 4, 8)
  }

  lemma {:induction false} ZeroedAt(m: Memory, top: nat, n: nat, a: nat)
    requires 4 * n <= top
    ensures Load(Zeroed(m, top, n), a) == if top - 4 * n <= a < top && (top - a) % 4 == 0 then 0 else Load(m, a)
    decreases n
  {
    if n > 0 { ZeroedAt(m, top, n - 1, a); }
  }

  // ---- What a switch saves and what it resumes ----

  /** The nine words from base on hold a suspended task that continues with these registers at eip. */
  ghost predicate FrameAt(m: Memory, base: nat, regs: Regs, eip: nat) {
    Popped(m, base) == regs && Load(m, base + 32) == eip
  }

  /** The two memories agree on the nine words of the frame at base. */
  ghost predicate SameFrame(m: Memory, k: Memory, base: nat) {
    forall i :: 0 <= i <= 8 ==> Load(m, Word(base, i)) == Load(k, Word(base, i))
  }

  function Word(base: nat, i: nat): nat { base + 4 * i }

  lemma FrameKept(m: Memory, k: Memory, base: nat, regs: Regs, eip: nat)
    requires FrameAt(m, base, regs, eip) && SameFrame(m, k, base)
    ensures FrameAt(k, base, regs, eip)
  {
    assert Word(base, 0) == base && Word(base, 1) == base + 4 && Word(base, 2) == base + 8;
    assert Word(base, 4) == base + 16 && Word(base, 5) == base + 20 && Word(base, 6) == base + 24;
    assert Word(base, 7) == base + 28 && Word(base, 8) == base + 32;
  }

  /** What context_switch leaves behind on the old stack is a frame of the caller at its return address. */
  lemma SwitchSaves(c: Cpu, m: Memory)
    requires c.esp >= 32
    requires var ptr := Load(m, c.esp + 4); !(c.esp - 32 <= ptr < c.esp + 4)
    ensures var s := SwitchMem(c, m); var ptr := Load(m, c.esp + 4);
            && FrameAt(s, c.esp - 32, c.regs, Load(m, c.esp))
            && Load(s, ptr) == c.esp - 32
            && forall a: nat :: a != ptr && !(c.esp - 32 <= a < c.esp) ==> Load(s, a) == Load(m, a)
  {
    var p := Pushed(c, m);
    assert Load(p, c.esp + 4) == Load(m, c.esp + 4);
  }

  /**
   The words of the frame, lowest address first, in the order of PUSHAD (section 4.3 of volume 2B of the
   Intel SDM): EDI, ESI, EBP, the stack pointer before, EBX, EDX, ECX, EAX, and the return address.
   */
  lemma FrameWords(c: Cpu, m: Memory)
    requires c.esp >= 32
    requires var ptr := Load(m, c.esp + 4); !(c.esp - 32 <= ptr < c.esp + 4)
    ensures var s := SwitchMem(c, m); var e := Load(s, Load(m, c.esp + 4)); var r := c.regs;
            && Load(s, e) == r.edi && Load(s, e + 4) == r.esi && Load(s, e + 8) == r.ebp && Load(s, e + 12) == e + 32
            && Load(s, e + 16) == r.ebx && Load(s, e + 20) == r.edx && Load(s, e + 24) == r.ecx && Load(s, e + 28) == r.eax
            && Load(s, e + 32) == Load(m, c.esp)
  {
    SwitchSaves(c, m);
    PushedWord(c, m);
  }

  lemma PushedWord(c: Cpu, m: Memory)
    requires c.esp >= 32
    requires var ptr := Load(m, c.esp + 4); !(c.esp - 32 <= ptr < c.esp + 4)
    ensures Load(SwitchMem(c, m), c.esp - 20) == c.esp
  {
    assert Load(Pushed(c, m), c.esp + 4) == Load(m, c.esp + 4);
  }

  /** A switch to an intact frame resumes exactly the task that the frame was saved for. */
  lemma SwitchResumes(c: Cpu, m: Memory, base: nat, regs: Regs, eip: nat)
    requires c.esp >= 32
    requires var ptr := Load(m, c.esp + 4);
             !(c.esp - 32 <= ptr < c.esp + 12) && !(base <= ptr < base + FRAME_SIZE)
    requires Load(m, c.esp + 8) == base && FrameAt(m, base, regs, eip)
    requires base + FRAME_SIZE <= c.esp - 32 || c.esp <= base
    ensures SwitchCpu(c, m) == Cpu(regs, base + FRAME_SIZE, eip)
  {
    FrameUntouched(c, m, base);
    FrameKept(m, SwitchMem(c, m), base, regs, eip);
    ResumesFrame(SwitchMem(c, m), c.esp + 8, base, regs, eip);
  }

  lemma ResumesFrame(s: Memory, a: nat, base: nat, regs: Regs, eip: nat)
    requires Load(s, a) == base && FrameAt(s, base, regs, eip)
    ensures Resumed(s, a) == Cpu(regs, base + FRAME_SIZE, eip)
  {
  }

  lemma FrameUntouched(c: Cpu, m: Memory, base: nat)
    requires c.esp >= 32
    requires var ptr := Load(m, c.esp + 4);
             !(c.esp - 32 <= ptr < c.esp + 12) && !(base <= ptr < base + FRAME_SIZE)
    requires base + FRAME_SIZE <= c.esp - 32 || c.esp <= base
    ensures SameFrame(m, SwitchMem(c, m), base)
    ensures Load(SwitchMem(c, m), c.esp + 8) == Load(m, c.esp + 8)
  {
    SwitchSaves(c, m);
  }

  /** The first switch into a new task enters the wrapper with zeroed registers at the top of its stack. */
  lemma FirstFrame(m: Memory, stack: nat, wrapper: nat)
    ensures var base := stack + 4096 - 36;
            && FrameAt(Prepared(m, stack, wrapper), base, Regs(0, 0, 0, 0, 0, 0, 0), wrapper)
            && base == stack + KSTACK_SIZE - FRAME_SIZE
            && forall a: nat :: !(base <= a < stack + 4096) ==> Load(Prepared(m, stack, wrapper), a) == Load(m, a)
  {
    var k := m[stack + KSTACK_SIZE - 4 := wrapper];
    forall a: nat
      ensures Load(Prepared(m, stack, wrapper), a) ==
              if stack + KSTACK_SIZE - FRAME_SIZE <= a < stack + KSTACK_SIZE - 4 && (stack + KSTACK_SIZE - 4 - a) % 4 == 0 then 0 else Load(k, a)
    {
      ZeroedAt(k, stack + KSTACK_SIZE - 4, 8, a);
    }
  }
}
