/**
  kernel/scheduler/switch.asm and the initial frame of task_create: switching stacks is
  invisible to the tasks that share the processor.
 */
module ContextSwitch {
  import opened TaskRing

  /** The callee-saved registers and the flags. */
  datatype Regs = Regs(r15: int, r14: int, r13: int, r12: int, rbx: int, rbp: int, rflags: int)
  datatype Cpu = Cpu(regs: Regs, rsp: int, rip: int)

  /** The 8-byte word at each address. */
  type Memory = map<int, int>

  const STACK_SIZE := 8192
  const FRAME := 56

  // ----- switch_context -----

  /** The words switch_context finds when it pops a frame at rsp, and where it leaves the processor. */
  predicate Readable(mem: Memory, rsp: int) {
    {rsp, rsp + 8, rsp + 16, rsp + 24, rsp + 32, rsp + 40, rsp + 48, rsp + 56} <= mem.Keys
  }

  function Resume(mem: Memory, rsp: int): Cpu
    requires Readable(mem, rsp)
  {
    Cpu(Regs(mem[rsp], mem[rsp + 8], mem[rsp + 16], mem[rsp + 24], mem[rsp + 32], mem[rsp + 40], mem[rsp + 48]),
        rsp + FRAME + 8, mem[rsp + FRAME])
  }

  function Save(mem: Memory, rsp: int, r: Regs): Memory {
    mem[rsp - 8 := r.rflags][rsp - 16 := r.rbp][rsp - 24 := r.rbx][rsp - 32 := r.r12]
       [rsp - 40 := r.r13][rsp - 48 := r.r14][rsp - 56 := r.r15]
  }

  /** Where the task goes on once the call of switch_context returns: the return address is on top of its stack. */
  function Yielded(mem: Memory, cpu: Cpu): Cpu
    requires cpu.rsp in mem
  {
    Cpu(cpu.regs, cpu.rsp + 8, mem[cpu.rsp])
  }

  /** What is saved is what will be resumed. */
  lemma ResumeSaved(mem: Memory, cpu: Cpu)
    requires cpu.rsp in mem
    ensures var m := Save(mem, cpu.rsp, cpu.regs);
            Readable(m, cpu.rsp - FRAME) && Resume(m, cpu.rsp - FRAME) == Yielded(mem, cpu)
    ensures forall a :: a in mem && !(cpu.rsp - FRAME <= a < cpu.rsp) ==>
              a in Save(mem, cpu.rsp, cpu.regs) && Save(mem, cpu.rsp, cpu.regs)[a] == mem[a]
  {
  }

  class Processor {
    var mem: Memory
    var regs: Regs
    var rsp: int
    var rip: int

    constructor (mem: Memory, regs: Regs, rsp: int, rip: int)
      ensures this.mem == mem && this.regs == regs && this.rsp == rsp && this.rip == rip
    {
      this.mem, this.regs, this.rsp, this.rip := mem, regs, rsp, rip;
    }

    method Push(v: int)
      modifies this`mem, this`rsp
      ensures rsp == old(rsp) - 8 && mem == old(mem)[rsp := v]
    {
      rsp := rsp - 8;
      mem := mem[rsp := v];
    }

    method Pop() returns (v: int)
      requires rsp in mem
      modifies this`rsp
      ensures rsp == old(rsp) + 8 && v == mem[old(rsp)]
    {
      v := mem[rsp];
      rsp := rsp + 8;
    }

    /** switch_context; `oldRsp` is what it stores through its first argument. */
    method SwitchContext(newRsp: int) returns (oldRsp: int)
      requires Readable(Save(mem, rsp, regs), newRsp)
      modifies this
      ensures mem == Save(old(mem), old(rsp), old(regs)) && oldRsp == old(rsp) - FRAME
      ensures Cpu(regs, rsp, rip) == Resume(mem, newRsp)
    {
      SaveRegisters();
      oldRsp := rsp;
      rsp := newRsp;
      RestoreRegisters();
      rip := Pop();
    }

    /** The part of task_create that lays out the first frame on a new stack; returns the saved stack pointer. */
    method FirstFrame(base: int, entry: int, exit: int) returns (stack: int)
      modifies this`mem
      ensures mem == InitialFrame(old(mem), base, entry, exit) && stack == base + STACK_SIZE - FRAME - 16
    {
      stack := base + STACK_SIZE;
      stack := PushOn(stack, exit);
      stack := PushOn(stack, entry);
      stack := PushOn(stack, 0x202);
      stack := PushOn(stack, 0);
      stack := PushOn(stack, 0);
      stack := PushOn(stack, 0);
      stack := PushOn(stack, 0);
      stack := PushOn(stack, 0);
      stack := PushOn(stack, 0);
    }

    /** *(--stack) = v */
    method PushOn(stack: int, v: int) returns (low: int)
      modifies this`mem
      ensures low == stack - 8 && mem == old(mem)[low := v]
    {
      low := stack - 8;
      mem := mem[low := v];
    }

    method SaveRegisters()
      modifies this`mem, this`rsp
      ensures mem == Save(old(mem), old(rsp), regs) && rsp == old(rsp) - FRAME
    {
      Push(regs.rflags);
      Push(regs.rbp);
      Push(regs.rbx);
      Push(regs.r12);
      Push(regs.r13);
      Push(regs.r14);
      Push(regs.r15);
    }

    method RestoreRegisters()
      requires Readable(mem, rsp)
      modifies this`regs, this`rsp
      ensures regs == Resume(mem, old(rsp)).regs && rsp == old(rsp) + FRAME
    {
      var r15 := Pop();
      var r14 := Pop();
      var r13 := Pop();
      var r12 := Pop();
      var rbx := Pop();
      var rbp := Pop();
      var rflags := Pop();
      regs := Regs(r15, r14, r13, r12, rbx, rbp, rflags);
    }
  }

  // ----- the machine with its tasks -----

  /** A task's saved stack pointer and its stack, [base, top). */
  datatype Stack = Stack(rsp: int, base: int, top: int)

  datatype System = System(ring: Ring, cpu: Cpu, mem: Memory, tasks: seq<Stack>)

  ghost predicate Within(s: Stack, a: int) { s.base <= a < s.top }

  ghost predicate Backed(mem: Memory, s: Stack) { forall a :: Within(s, a) ==> a in mem }

  ghost predicate Disjoint(s: Stack, t: Stack) { s.top <= t.base || t.top <= s.base }

  /** A suspended task's whole frame lies in its own stack. */
  ghost predicate Suspended(s: Stack) { s.base <= s.rsp && s.rsp + FRAME + 8 <= s.top }

  ghost predicate OnStack(cpu: Cpu, s: Stack) { s.base <= cpu.rsp <= s.top }

  /** The running task has called switch_context, and its stack has room for the frame. */
  ghost predicate HasRoom(cpu: Cpu, s: Stack) { s.base + FRAME <= cpu.rsp && cpu.rsp + 8 <= s.top }

  ghost predicate Inv(s: System) {
    && TaskRing.Inv(s.ring) && |s.tasks| == |s.ring.states|
    && OnStack(s.cpu, s.tasks[s.ring.cur])
    && (forall i :: 0 <= i < |s.tasks| ==> Backed(s.mem, s.tasks[i]))
    && (forall i :: 0 <= i < |s.tasks| && i != s.ring.cur ==> Suspended(s.tasks[i]))
    && (forall i, j :: 0 <= i < |s.tasks| && 0 <= j < |s.tasks| && i != j ==> Disjoint(s.tasks[i], s.tasks[j]))
  }

  /** The memories agree on a stack. */
  ghost predicate SameStack(m: Memory, n: Memory, s: Stack) {
    forall a :: Within(s, a) && a in m ==> a in n && n[a] == m[a]
  }

  /** What a task does between two yields: anything to the processor, to its own stack and to memory shared by the
      tasks, but nothing to the stacks of the others. */
  ghost predicate Works(s: System, cpu: Cpu, mem: Memory)
    requires s.ring.cur < |s.tasks|
  {
    && mem.Keys == s.mem.Keys && OnStack(cpu, s.tasks[s.ring.cur])
    && forall i :: 0 <= i < |s.tasks| && i != s.ring.cur ==> SameStack(s.mem, mem, s.tasks[i])
  }

  datatype Event = Work(cpu: Cpu, mem: Memory) | Yields | Exits | Creates(entry: int, exit: int, base: int)

  /** The first frame of a task: it will return to `entry`, with `exit` as the return address there. */
  function InitialFrame(mem: Memory, base: int, entry: int, exit: int): Memory {
    var top := base + STACK_SIZE;
    mem[top - 8 := exit][top - 16 := entry][top - 24 := 0x202][top - 32 := 0][top - 40 := 0]
       [top - 48 := 0][top - 56 := 0][top - 64 := 0][top - 72 := 0]
  }

  ghost predicate Enabled(s: System, e: Event)
    requires s.ring.cur < |s.tasks|
  {
    match e
    case Work(cpu, mem) => Works(s, cpu, mem)
    case Yields => HasRoom(s.cpu, s.tasks[s.ring.cur])
    case Exits => HasRoom(s.cpu, s.tasks[s.ring.cur])
    case Creates(_, _, base) =>
      // kmalloc returns memory outside every other stack
      var t := Stack(base + STACK_SIZE - 72, base, base + STACK_SIZE);
      Backed(s.mem, t) && forall i :: 0 <= i < |s.tasks| ==> Disjoint(s.tasks[i], t)
  }

  /** The switch that ends yield, from the ring r the scheduler has left. */
  function SwitchTo(s: System, r: Ring): System
    requires s.ring.cur < |s.tasks| && r.cur < |s.tasks|
  {
    if r.cur == s.ring.cur then s.(ring := r)
    else
      var m := Save(s.mem, s.cpu.rsp, s.cpu.regs);
      var rsp := s.tasks[r.cur].rsp;
      System(r, if Readable(m, rsp) then Resume(m, rsp) else s.cpu, m,
             s.tasks[s.ring.cur := s.tasks[s.ring.cur].(rsp := s.cpu.rsp - FRAME)])
  }

  /** One stack for each task of the ring. */
  ghost predicate Shape(s: System) { s.ring.cur < |s.ring.states| == |s.tasks| }

  ghost function Next(s: System, e: Event): (n: System)
    requires Shape(s)
    ensures Shape(n)
  {
    match e
    case Work(cpu, mem) => s.(cpu := cpu, mem := mem)
    case Yields => SwitchTo(s, Step(s.ring, YieldOp))
    case Exits => SwitchTo(s, Step(s.ring, ExitOp))
    case Creates(entry, exit, base) =>
      s.(ring := Step(s.ring, CreateOp), mem := InitialFrame(s.mem, base, entry, exit),
         tasks := s.tasks + [Stack(base + STACK_SIZE - 72, base, base + STACK_SIZE)])
  }

  // ----- what every event keeps -----

  lemma SaveKeepsStacks(s: System)
    requires Inv(s) && HasRoom(s.cpu, s.tasks[s.ring.cur])
    ensures var m := Save(s.mem, s.cpu.rsp, s.cpu.regs);
            && (forall a :: a in s.mem ==> a in m)
            && (forall i :: 0 <= i < |s.tasks| && i != s.ring.cur ==> SameStack(s.mem, m, s.tasks[i]))
  {
    var m, c := Save(s.mem, s.cpu.rsp, s.cpu.regs), s.tasks[s.ring.cur];
    ResumeSaved(s.mem, s.cpu);
    forall i | 0 <= i < |s.tasks| && i != s.ring.cur ensures SameStack(s.mem, m, s.tasks[i]) {
      assert Disjoint(s.tasks[i], c);
    }
  }

  lemma ReadableFrame(mem: Memory, s: Stack)
    requires Backed(mem, s) && Suspended(s)
    ensures Readable(mem, s.rsp)
  {
    assert Within(s, s.rsp) && Within(s, s.rsp + 8) && Within(s, s.rsp + 16) && Within(s, s.rsp + 24);
    assert Within(s, s.rsp + 32) && Within(s, s.rsp + 40) && Within(s, s.rsp + 48) && Within(s, s.rsp + 56);
  }

  /** Frames that agree resume alike. */
  lemma SameResume(m: Memory, n: Memory, s: Stack)
    requires Backed(m, s) && Suspended(s) && SameStack(m, n, s)
    ensures Readable(m, s.rsp) && Readable(n, s.rsp) && Resume(n, s.rsp) == Resume(m, s.rsp)
  {
    ReadableFrame(m, s);
    assert Within(s, s.rsp) && Within(s, s.rsp + 8) && Within(s, s.rsp + 16) && Within(s, s.rsp + 24);
    assert Within(s, s.rsp + 32) && Within(s, s.rsp + 40) && Within(s, s.rsp + 48) && Within(s, s.rsp + 56);
  }

  /** A task that another task's switch leaves alone keeps its stack pointer and its whole stack. */
  lemma Untouched(s: System, e: Event, i: nat)
    requires Inv(s) && Enabled(s, e) && i < |s.tasks| && i != s.ring.cur
    ensures var n := Next(s, e);
            i < |n.tasks| && n.tasks[i] == s.tasks[i] && SameStack(s.mem, n.mem, s.tasks[i])
  {
    match e
    case Work(cpu, mem) =>
    case Yields => SaveKeepsStacks(s);
    case Exits => SaveKeepsStacks(s);
    case Creates(entry, exit, base) =>
      assert Disjoint(s.tasks[i], Stack(base + STACK_SIZE - 72, base, base + STACK_SIZE));
  }

  lemma SwitchToKeepsInv(s: System, r: Ring)
    requires Inv(s) && HasRoom(s.cpu, s.tasks[s.ring.cur]) && TaskRing.Inv(r) && |r.states| == |s.tasks|
    ensures Inv(SwitchTo(s, r))
  {
    if r.cur != s.ring.cur {
      SaveKeepsStacks(s);
      var n, m := SwitchTo(s, r), Save(s.mem, s.cpu.rsp, s.cpu.regs);
      SameResume(s.mem, m, s.tasks[r.cur]);
      forall i | 0 <= i < |n.tasks| ensures Backed(n.mem, n.tasks[i]) {
        assert Backed(s.mem, s.tasks[i]);
        assert forall a :: Within(n.tasks[i], a) ==> Within(s.tasks[i], a);
      }
      forall i, j | 0 <= i < |n.tasks| && 0 <= j < |n.tasks| && i != j ensures Disjoint(n.tasks[i], n.tasks[j]) {
        assert Disjoint(s.tasks[i], s.tasks[j]);
      }
      assert Suspended(s.tasks[r.cur]);
    }
  }

  /** The whole system invariant is kept by every event. */
  lemma NextKeepsInv(s: System, e: Event)
    requires Inv(s) && Enabled(s, e)
    ensures Inv(Next(s, e))
  {
    match e
    case Work(cpu, mem) =>
      forall i | 0 <= i < |s.tasks| ensures Backed(mem, s.tasks[i]) { assert Backed(s.mem, s.tasks[i]); }
    case Yields =>
      StepKeepsInv(s.ring, YieldOp);
      SwitchToKeepsInv(s, Step(s.ring, YieldOp));
    case Exits =>
      StepKeepsInv(s.ring, ExitOp);
      SwitchToKeepsInv(s, Step(s.ring, ExitOp));
    case Creates(entry, exit, base) =>
      StepKeepsInv(s.ring, CreateOp);
      CreateKeepsInv(s, entry, exit, base);
  }

  lemma CreateKeepsInv(s: System, entry: int, exit: int, base: int)
    requires Inv(s) && Enabled(s, Creates(entry, exit, base)) && TaskRing.Inv(Step(s.ring, CreateOp))
    ensures Inv(Next(s, Creates(entry, exit, base)))
  {
    var n := Next(s, Creates(entry, exit, base));
    var k := |s.tasks|;
    forall i | 0 <= i < |n.tasks| ensures Backed(n.mem, n.tasks[i]) {
      if i < k { assert Backed(s.mem, s.tasks[i]); }
    }
    forall i, j | 0 <= i < |n.tasks| && 0 <= j < |n.tasks| && i != j ensures Disjoint(n.tasks[i], n.tasks[j]) {
      if i < k && j < k { assert Disjoint(s.tasks[i], s.tasks[j]); }
      else if i < k { assert Disjoint(s.tasks[i], n.tasks[k]); }
      else { assert Disjoint(s.tasks[j], n.tasks[k]); }
    }
  }

  // ----- switching is invisible -----

  /** A task that gives up the processor has exactly its yield point saved, and its stack above the
      return address is as it was. */
  lemma LeavesSaved(s: System, r: Ring)
    requires s.cpu.rsp in s.mem && s.ring.cur < |s.tasks| && r.cur < |s.tasks| && r.cur != s.ring.cur
    ensures var i, n := s.ring.cur, SwitchTo(s, r);
            && i < |n.tasks| && ResumesAt(n.mem, n.tasks[i].rsp, Yielded(s.mem, s.cpu))
            && SameAbove(s.mem, n.mem, s.cpu.rsp)
  {
    var n := SwitchTo(s, r);
    assert n.tasks[s.ring.cur].rsp == s.cpu.rsp - FRAME && n.mem == Save(s.mem, s.cpu.rsp, s.cpu.regs);
    SavedResumes(s.mem, s.cpu);
  }

  ghost predicate ResumesAt(mem: Memory, rsp: int, cpu: Cpu) { Readable(mem, rsp) && Resume(mem, rsp) == cpu }

  ghost predicate SameAbove(m: Memory, n: Memory, low: int) {
    forall a :: a in m && low <= a ==> a in n && n[a] == m[a]
  }

  lemma SavedResumes(mem: Memory, cpu: Cpu)
    requires cpu.rsp in mem
    ensures var m := Save(mem, cpu.rsp, cpu.regs);
            ResumesAt(m, cpu.rsp - FRAME, Yielded(mem, cpu)) && SameAbove(mem, m, cpu.rsp)
  {
    ResumeSaved(mem, cpu);
  }

  /** A task that is switched to goes on where its frame says. */
  lemma ArrivesResumed(s: System, e: Event)
    requires Inv(s) && Enabled(s, e) && Next(s, e).ring.cur != s.ring.cur
    ensures var i := Next(s, e).ring.cur;
            i < |s.tasks| && Readable(s.mem, s.tasks[i].rsp) && Next(s, e).cpu == Resume(s.mem, s.tasks[i].rsp)
  {
    var i := Next(s, e).ring.cur;
    SaveKeepsStacks(s);
    SameResume(s.mem, Save(s.mem, s.cpu.rsp, s.cpu.regs), s.tasks[i]);
  }

  /** Each event can happen in the state the events before it have led to. */
  ghost predicate RunOk(s: System, es: seq<Event>)
    requires Shape(s)
    decreases |es|
  {
    es != [] ==> Enabled(s, es[0]) && RunOk(Next(s, es[0]), es[1..])
  }

  ghost function RunTo(s: System, es: seq<Event>): (n: System)
    requires Shape(s)
    ensures Shape(n)
    decreases |es|
  {
    if es == [] then s else RunTo(Next(s, es[0]), es[1..])
  }

  lemma {:induction false} RunKeepsInv(s: System, es: seq<Event>)
    requires Inv(s) && RunOk(s, es)
    ensures Inv(RunTo(s, es))
    decreases |es|
  {
    if es != [] {
      NextKeepsInv(s, es[0]);
      RunKeepsInv(Next(s, es[0]), es[1..]);
    }
  }

  /** Task i is suspended in s and in every state the run goes through except perhaps the last. */
  ghost predicate Waits(s: System, es: seq<Event>, i: nat)
    requires Shape(s)
    decreases |es|
  {
    es != [] ==> s.ring.cur != i && Waits(Next(s, es[0]), es[1..], i)
  }

  /** While a task waits, whatever the others do, it will resume from the same point with the same stack. */
  lemma {:induction false} WaitingKeeps(s: System, es: seq<Event>, i: nat)
    requires Inv(s) && RunOk(s, es) && Waits(s, es, i) && i < |s.tasks|
    requires RunTo(s, es).ring.cur != i
    ensures var n := RunTo(s, es);
            i < |n.tasks| && n.tasks[i] == s.tasks[i] && SameStack(s.mem, n.mem, s.tasks[i])
    decreases |es|
  {
    if es != [] {
      Untouched(s, es[0], i);
      NextKeepsInv(s, es[0]);
      var n := Next(s, es[0]);
      WaitingKeeps(n, es[1..], i);
      StackTrans(s.mem, n.mem, RunTo(s, es).mem, s.tasks[i]);
    }
  }

  lemma StackTrans(m: Memory, n: Memory, o: Memory, s: Stack)
    requires SameStack(m, n, s) && SameStack(n, o, s)
    ensures SameStack(m, o, s)
  {
  }

  /** The memories agree on the part of a stack from `low` on. */
  ghost predicate SameFrom(m: Memory, n: Memory, s: Stack, low: int) {
    forall a :: a in m && Within(s, a) && low <= a ==> a in n && n[a] == m[a]
  }

  /** Context switching is invisible: if the current task yields in s, others run through es, and the
      event e switches back to it, then it goes on with the registers, flags, stack pointer and return
      address it had, and with its stack as it left it. */
  lemma ResumedAsYielded(s: System, es: seq<Event>, e: Event)
    requires Inv(s) && Enabled(s, Yields) && Next(s, Yields).ring.cur != s.ring.cur && RunOk(Next(s, Yields), es)
    requires Waits(Next(s, Yields), es, s.ring.cur)
    requires var u := RunTo(Next(s, Yields), es);
             && u.ring.cur != s.ring.cur
             && Enabled(u, e) && Next(u, e).ring.cur == s.ring.cur
    ensures var i, n := s.ring.cur, Next(RunTo(Next(s, Yields), es), e);
            && s.cpu.rsp in s.mem && n.cpu == Yielded(s.mem, s.cpu) && SameFrom(s.mem, n.mem, s.tasks[i], s.cpu.rsp)
  {
    var i, t := s.ring.cur, Next(s, Yields);
    NextKeepsInv(s, Yields);
    RunKeepsInv(t, es);
    var u := RunTo(t, es);
    assert Within(s.tasks[i], s.cpu.rsp) && Backed(s.mem, s.tasks[i]);
    LeavesSaved(s, Step(s.ring, YieldOp));
    WaitingKeeps(t, es, i);
    assert Backed(t.mem, t.tasks[i]) && Suspended(t.tasks[i]);
    SameResume(t.mem, u.mem, t.tasks[i]);
    ArrivesResumed(u, e);
    var n := Next(u, e);
    SwitchedStack(u, e);
    StackTrans(t.mem, u.mem, n.mem, t.tasks[i]);
    forall a | a in s.mem && Within(s.tasks[i], a) && s.cpu.rsp <= a ensures a in n.mem && n.mem[a] == s.mem[a] {
      assert Within(t.tasks[i], a);
    }
  }

  lemma SwitchedStack(s: System, e: Event)
    requires Inv(s) && Enabled(s, e) && Next(s, e).ring.cur != s.ring.cur
    ensures var i := Next(s, e).ring.cur; i < |s.tasks| && SameStack(s.mem, Next(s, e).mem, s.tasks[i])
  {
    SaveKeepsStacks(s);
  }

  /** The first frame of a new task. */
  lemma CreatedFrame(s: System, entry: int, exit: int, base: int)
    requires Inv(s) && Enabled(s, Creates(entry, exit, base))
    ensures var n := Next(s, Creates(entry, exit, base));
            var k := |s.tasks|;
            && k < |n.tasks| && Readable(n.mem, n.tasks[k].rsp)
            && Resume(n.mem, n.tasks[k].rsp) == Cpu(Regs(0, 0, 0, 0, 0, 0, 0x202), base + STACK_SIZE - 8, entry)
            && Within(n.tasks[k], base + STACK_SIZE - 8)
            && base + STACK_SIZE - 8 in n.mem && n.mem[base + STACK_SIZE - 8] == exit
  {
  }

  /** Whatever the others do before, a new task starts at its entry with zeroed registers and interrupts
      enabled, the address of task_exit as its return address. */
  lemma NewTaskStarts(s: System, entry: int, exit: int, base: int, es: seq<Event>, e: Event)
    requires Inv(s) && Enabled(s, Creates(entry, exit, base)) && RunOk(Next(s, Creates(entry, exit, base)), es)
    requires Waits(Next(s, Creates(entry, exit, base)), es, |s.tasks|)
    requires var u := RunTo(Next(s, Creates(entry, exit, base)), es);
             && u.ring.cur != |s.tasks|
             && Enabled(u, e) && Next(u, e).ring.cur == |s.tasks|
    ensures var n := Next(RunTo(Next(s, Creates(entry, exit, base)), es), e);
            var top := base + 8192;
            && n.cpu == Cpu(Regs(0, 0, 0, 0, 0, 0, 0x202), top - 8, entry)
            && top - 8 in n.mem && n.mem[top - 8] == exit
  {
    var t, k := Next(s, Creates(entry, exit, base)), |s.tasks|;
    var u := RunTo(t, es);
    CreatedFrame(s, entry, exit, base);
    NextKeepsInv(s, Creates(entry, exit, base));
    RunKeepsInv(t, es);
    WaitingKeeps(t, es, k);
    assert Backed(t.mem, t.tasks[k]) && Suspended(t.tasks[k]);
    SameResume(t.mem, u.mem, t.tasks[k]);
    ArrivesResumed(u, e);
    SwitchedStack(u, e);
    StackTrans(t.mem, u.mem, Next(u, e).mem, t.tasks[k]);
  }
}
