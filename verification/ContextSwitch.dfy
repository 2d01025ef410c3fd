/**
 Saved contexts on task stacks: the `switch_to` instruction sequence, the synthetic frame
 `Task::new` lays down, and what every sequence of switches preserves.  Stack alignment at entry is
 section 3.2.2 of the System V AMD64 psABI.
 */
module ContextSwitch {

  const STACK_SIZE: nat := 32768
  const FRAME_BYTES: nat := 72
  const FRESH_RFLAGS: nat := 0x202

  // Callee-saved registers and flags.
  datatype Regs = Regs(rbx: nat, rbp: nat, r12: nat, r13: nat, r14: nat, r15: nat, rflags: nat)

  // 8-byte words by address; every access here is 8-byte aligned.
  type Mem = map<nat, nat>

  datatype Machine = Machine(regs: Regs, rsp: nat, rip: nat, mem: Mem)

  function Load(mem: Mem, a: nat): nat {
    if a in mem then mem[a] else 0
  }

  // Bit 9 of rflags.
  predicate InterruptsOn(rflags: nat) {
    (rflags / 0x200) % 2 == 1
  }

  lemma InterruptBit(high: nat, bit: nat, low: nat)
    requires bit <= 1 && low < 0x200
    ensures InterruptsOn(high * 0x400 + bit * 0x200 + low) <==> bit == 1
  {
  }

  // Memory after the seven pushes of `switch_to` with the stack pointer at `rsp`.
  function Saved(mem: Mem, rsp: nat, r: Regs): Mem
    requires rsp >= 56
  {
    mem[rsp - 8 := r.rflags][rsp - 16 := r.rbx][rsp - 24 := r.rbp][rsp - 32 := r.r12][rsp - 40 := r.r13]
       [rsp - 48 := r.r14][rsp - 56 := r.r15]
  }

  // Registers popped from a save frame at `s`.
  function Restored(mem: Mem, s: nat): Regs {
    Regs(Load(mem, s + 40), Load(mem, s + 32), Load(mem, s + 24), Load(mem, s + 16), Load(mem, s + 8), Load(mem, s),
         Load(mem, s + 48))
  }

  // `switch_to(prev, next)`: save, store the stack pointer at `prev`, restore from `next`, return.
  function SwitchTo(m: Machine, prev: nat, next: nat): Machine
    requires m.rsp >= 56
  {
    var mem := Saved(m.mem, m.rsp, m.regs)[prev := m.rsp - 56];
    Machine(Restored(mem, next), next + 64, Load(mem, next + 56), mem)
  }

  // Memory after `Task::new` has built its frame under a stack top.
  function FreshFrame(mem: Mem, top: nat, entry: nat): Mem
    requires top >= FRAME_BYTES
  {
    var s := top - FRAME_BYTES;
    mem[s := 0][s + 8 := 0][s + 16 := 0][s + 24 := 0][s + 32 := 0][s + 40 := 0]
       [s + 48 := FRESH_RFLAGS][s + 56 := entry][s + 64 := 0]
  }

  // --- the code ---------------------------------------------------------------------------

  class Cpu {
    var regs: Regs
    var rsp: nat
    var rip: nat
    var mem: Mem

    constructor (m: Machine)
      ensures View() == m
    {
      regs, rsp, rip, mem := m.regs, m.rsp, m.rip, m.mem;
    }

    ghost function View(): Machine
      reads this
    {
      Machine(regs, rsp, rip, mem)
    }

    method Push(v: nat)
      requires rsp >= 8
      modifies this`rsp, this`mem
      ensures rsp == old(rsp) - 8 && mem == old(mem)[rsp := v]
    {
      rsp := rsp - 8;
      mem := mem[rsp := v];
    }

    method Pop() returns (v: nat)
      modifies this`rsp
      ensures rsp == old(rsp) + 8 && v == Load(mem, old(rsp))
    {
      v := Load(mem, rsp);
      rsp := rsp + 8;
    }

    method PushAll()
      requires rsp >= 56
      modifies this`rsp, this`mem
      ensures rsp == old(rsp) - 56 && mem == Saved(old(mem), old(rsp), regs)
    {
      Push(regs.rflags);
      Push(regs.rbx);
      Push(regs.rbp);
      Push(regs.r12);
      Push(regs.r13);
      Push(regs.r14);
      Push(regs.r15);
    }

    method PopAll()
      modifies this`rsp, this`regs, this`rip
      ensures regs == Restored(mem, old(rsp)) && rip == Load(mem, old(rsp) + 56) && rsp == old(rsp) + 64
    {
      var r15 := Pop();
      var r14 := Pop();
      var r13 := Pop();
      var r12 := Pop();
      var rbp := Pop();
      var rbx := Pop();
      var rflags := Pop();
      regs := Regs(rbx, rbp, r12, r13, r14, r15, rflags);
      rip := Pop();
    }

    // The instruction sequence.
    method SwitchStacks(rdi: nat, rsi: nat)
      requires rsp >= 56
      modifies this
      ensures View() == SwitchTo(old(View()), rdi, rsi)
    {
      hide Saved, Restored, Load;
      PushAll();
      mem := mem[rdi := rsp];
      rsp := rsi;
      PopAll();
    }

    // The stores of `Task::new`.
    method BuildFrame(top: nat, entry: nat) returns (savedRsp: nat)
      requires top >= FRAME_BYTES
      modifies this`mem
      ensures savedRsp == top - FRAME_BYTES && mem == FreshFrame(old(mem), top, entry)
    {
      savedRsp := top - FRAME_BYTES;
      ghost var mem0 := mem;
      for i := 0 to 6
        invariant mem == ZeroWords(mem0, savedRsp, i)
      {
        mem := mem[savedRsp + 8 * i := 0];
      }
      SixZeroWords(mem0, savedRsp);
      mem := mem[savedRsp + 48 := FRESH_RFLAGS];
      mem := mem[savedRsp + 56 := entry];
      mem := mem[savedRsp + 64 := 0];
    }
  }

  function ZeroWords(mem: Mem, s: nat, n: nat): Mem {
    if n == 0 then mem else ZeroWords(mem, s, n - 1)[s + 8 * (n - 1) := 0]
  }

  lemma SixZeroWords(mem: Mem, s: nat)
    ensures ZeroWords(mem, s, 6) == mem[s := 0][s + 8 := 0][s + 16 := 0][s + 24 := 0][s + 32 := 0][s + 40 := 0]
  {
    assert ZeroWords(mem, s, 1) == mem[s := 0];
    assert ZeroWords(mem, s, 2) == mem[s := 0][s + 8 := 0];
    assert ZeroWords(mem, s, 4) == mem[s := 0][s + 8 := 0][s + 16 := 0][s + 24 := 0];
  }

  // --- a world of tasks -------------------------------------------------------------------

  // Where a task's stack is, and the address of its `saved_rsp` field.
  datatype Task = Task(lo: nat, hi: nat, slot: nat)

  // What a suspended task must find when it runs again.
  datatype Context = Context(regs: Regs, rsp: nat, rip: nat)

  datatype World = World(m: Machine, current: nat, tasks: map<nat, Task>, saved: map<nat, Context>)

  predicate OnStack(a: nat, t: Task) {
    t.lo <= a < t.hi
  }

  // Stacks are disjoint, saved_rsp fields are distinct and on no stack.
  ghost predicate Layout(tasks: map<nat, Task>) {
    && (forall i, j, a :: i in tasks && j in tasks && i != j && OnStack(a, tasks[i]) ==> !OnStack(a, tasks[j]))
    && (forall i, j :: i in tasks && j in tasks && i != j ==> tasks[i].slot != tasks[j].slot)
    && (forall i, j :: i in tasks && j in tasks ==> !OnStack(tasks[i].slot, tasks[j]))
  }

  // A save frame for c lies at s on t's stack.
  ghost predicate FrameAt(mem: Mem, s: nat, t: Task, c: Context) {
    && t.lo <= s && s + 64 <= t.hi
    && Restored(mem, s) == c.regs && Load(mem, s + 56) == c.rip && s + 64 == c.rsp
  }

  ghost predicate Inv(w: World) {
    && Layout(w.tasks)
    && w.current in w.tasks
    && w.saved.Keys == w.tasks.Keys - {w.current}
    && (forall i :: i in w.saved ==> FrameAt(w.m.mem, Load(w.m.mem, w.tasks[i].slot), w.tasks[i], w.saved[i]))
  }

  // The current task computes: registers change at will, memory only off the other tasks' stacks
  // and off the saved_rsp fields.
  ghost predicate MayCompute(w: World, m': Machine) {
    && (forall i, a :: i in w.tasks && i != w.current && OnStack(a, w.tasks[i]) ==> Load(m'.mem, a) == Load(w.m.mem, a))
    && (forall i :: i in w.tasks ==> Load(m'.mem, w.tasks[i].slot) == Load(w.m.mem, w.tasks[i].slot))
  }

  // Room on the current stack for a return address and a save frame.
  ghost predicate HasRoom(w: World) {
    w.current in w.tasks && w.tasks[w.current].lo + 64 <= w.m.rsp <= w.tasks[w.current].hi
  }

  // The current task calls switch_to with another task's saved stack pointer; `ret` is the return
  // address the call pushes.
  ghost function Switch(w: World, next: nat, ret: nat): World
    requires Inv(w) && HasRoom(w) && next in w.saved
  {
    var me := w.tasks[w.current];
    var called := w.m.(rsp := w.m.rsp - 8, mem := w.m.mem[w.m.rsp - 8 := ret]);
    w.(m := SwitchTo(called, me.slot, Load(w.m.mem, w.tasks[next].slot)),
    current := next,
    saved := w.saved[w.current := Context(w.m.regs, w.m.rsp, ret)] - {next})
  }

  // A stack and a saved_rsp field that nobody uses yet.
  ghost predicate FreshTask(w: World, id: nat, t: Task) {
    id !in w.tasks && t.hi == t.lo + STACK_SIZE && t.hi % 16 == 0 && Layout(w.tasks[id := t])
  }

  ghost function Spawn(w: World, id: nat, t: Task, entry: nat): World
    requires FreshTask(w, id, t)
  {
    w.(m := w.m.(mem := FreshFrame(w.m.mem, t.hi, entry)[t.slot := t.hi - FRAME_BYTES]),
    tasks := w.tasks[id := t],
    saved := w.saved[id := Context(Regs(0, 0, 0, 0, 0, 0, FRESH_RFLAGS), t.hi - 8, entry)])
  }

  // A frame survives any change to memory off its stack.
  lemma FrameKept(mem: Mem, mem': Mem, s: nat, t: Task, c: Context)
    requires FrameAt(mem, s, t, c)
    requires forall a :: OnStack(a, t) ==> Load(mem', a) == Load(mem, a)
    ensures FrameAt(mem', s, t, c)
  {
    assert OnStack(s, t) && OnStack(s + 8, t) && OnStack(s + 16, t) && OnStack(s + 24, t);
    assert OnStack(s + 32, t) && OnStack(s + 40, t) && OnStack(s + 48, t) && OnStack(s + 56, t);
  }

  lemma ComputeInv(w: World, m': Machine)
    requires Inv(w) && MayCompute(w, m')
    ensures Inv(w.(m := m'))
  {
    forall i | i in w.saved
      ensures FrameAt(m'.mem, Load(m'.mem, w.tasks[i].slot), w.tasks[i], w.saved[i])
    {
      FrameKept(w.m.mem, m'.mem, Load(w.m.mem, w.tasks[i].slot), w.tasks[i], w.saved[i]);
    }
  }

  // What the switch leaves in memory: the caller's frame on its own stack and its saved_rsp field;
  // every other word is as before.
  lemma Apart(tasks: map<nat, Task>, me: nat)
    requires Layout(tasks) && me in tasks
    ensures !OnStack(tasks[me].slot, tasks[me])
    ensures forall i, a :: i in tasks && i != me && OnStack(a, tasks[i]) ==>
      !OnStack(a, tasks[me]) && a != tasks[me].slot
    ensures forall i :: i in tasks && i != me ==> !OnStack(tasks[i].slot, tasks[me]) && tasks[i].slot != tasks[me].slot
  {
  }

  lemma SwitchStores(mem: Mem, r: Regs, rsp: nat, ret: nat, slot: nat, a: nat)
    requires rsp >= 64 && !(rsp - 64 <= slot < rsp)
    ensures var mem' := Saved(mem[rsp - 8 := ret], rsp - 8, r)[slot := rsp - 64];
      && Load(mem', slot) == rsp - 64
      && Restored(mem', rsp - 64) == r && Load(mem', rsp - 8) == ret
      && (!(rsp - 64 <= a < rsp) && a != slot ==> Load(mem', a) == Load(mem, a))
  {
  }

  // The heart of the matter: a switch gives the resumed task exactly the registers, flags, stack
  // pointer and return address it had when it was suspended, and suspends the caller the same way.
  lemma SwitchInv(w: World, next: nat, ret: nat)
    requires Inv(w) && HasRoom(w) && next in w.saved
    ensures Inv(Switch(w, next, ret))
    ensures var m := Switch(w, next, ret).m; Context(m.regs, m.rsp, m.rip) == w.saved[next]
  {
    hide Saved, Restored, Load, Layout;
    var w' := Switch(w, next, ret);
    var me := w.tasks[w.current];
    var mem, mem', rsp := w.m.mem, w'.m.mem, w.m.rsp;
    Apart(w.tasks, w.current);
    assert !(rsp - 64 <= me.slot < rsp);
    forall i, a | i in w.saved && OnStack(a, w.tasks[i]) ensures Load(mem', a) == Load(mem, a) {
      SwitchStores(mem, w.m.regs, rsp, ret, me.slot, a);
      assert !OnStack(a, me) && a != me.slot;
    }
    forall i | i in w.saved
      ensures FrameAt(mem', Load(mem', w.tasks[i].slot), w.tasks[i], w.saved[i])
    {
      SwitchStores(mem, w.m.regs, rsp, ret, me.slot, w.tasks[i].slot);
      assert !OnStack(w.tasks[i].slot, me);
      FrameKept(mem, mem', Load(mem, w.tasks[i].slot), w.tasks[i], w.saved[i]);
    }
    SwitchStores(mem, w.m.regs, rsp, ret, me.slot, 0);
  }

  lemma SpawnStores(mem: Mem, t: Task, entry: nat, a: nat)
    requires t.hi == t.lo + STACK_SIZE && !OnStack(t.slot, t)
    ensures var mem' := FreshFrame(mem, t.hi, entry)[t.slot := t.hi - FRAME_BYTES];
      && Load(mem', t.slot) == t.hi - FRAME_BYTES
      && Restored(mem', t.hi - FRAME_BYTES) == Regs(0, 0, 0, 0, 0, 0, FRESH_RFLAGS)
      && Load(mem', t.hi - 16) == entry
      && (!OnStack(a, t) && a != t.slot ==> Load(mem', a) == Load(mem, a))
  {
  }

  lemma SpawnInv(w: World, id: nat, t: Task, entry: nat)
    requires Inv(w) && FreshTask(w, id, t)
    ensures Inv(Spawn(w, id, t, entry))
  {
    hide FreshFrame, Restored, Load, Layout;
    var w' := Spawn(w, id, t, entry);
    Apart(w'.tasks, id);
    var mem, mem' := w.m.mem, w'.m.mem;
    assert t == w'.tasks[id];
    forall i, a | i in w.saved && OnStack(a, w.tasks[i]) ensures Load(mem', a) == Load(mem, a) {
      SpawnStores(mem, t, entry, a);
      assert w'.tasks[i] == w.tasks[i];
    }
    forall i | i in w.saved
      ensures FrameAt(mem', Load(mem', w.tasks[i].slot), w.tasks[i], w.saved[i])
    {
      assert w'.tasks[i] == w.tasks[i];
      SpawnStores(mem, t, entry, w.tasks[i].slot);
      FrameKept(mem, mem', Load(mem, w.tasks[i].slot), w.tasks[i], w.saved[i]);
    }
    SpawnStores(mem, t, entry, 0);
  }

  // Interrupts on, the reserved bit 1 set, and every other flag clear, the trap and direction flags among
  // them.
  predicate FreshFlags(rflags: nat) {
    rflags % 2 == 0 && rflags / 2 % 2 == 1 && rflags / 4 % 0x80 == 0 && rflags / 0x200 == 1
  }

  // A fresh task starts at its entry point with cleared registers, fresh flags and, on its own stack, the
  // alignment the ABI asks for.
  lemma FreshEntry(w: World, id: nat, t: Task, entry: nat)
    requires FreshTask(w, id, t)
    ensures var c := Spawn(w, id, t, entry).saved[id];
      && c.rip == entry && InterruptsOn(c.regs.rflags) && c.rsp % 16 == 8 && t.lo < c.rsp < t.hi
      && c.regs == Regs(0, 0, 0, 0, 0, 0, c.regs.rflags) && FreshFlags(c.regs.rflags)
  {
  }

  // --- whole runs -------------------------------------------------------------------------

  datatype Step = Compute(m: Machine) | DoSwitch(next: nat, ret: nat) | DoSpawn(id: nat, t: Task, entry: nat)

  ghost predicate Enabled(w: World, step: Step) {
    match step
    case Compute(m) => MayCompute(w, m)
    case DoSwitch(next, ret) => HasRoom(w) && next in w.saved
    case DoSpawn(id, t, entry) => FreshTask(w, id, t)
  }

  ghost function Apply(w: World, step: Step): World
    requires Inv(w)
  {
    if !Enabled(w, step) then w else
    match step
    case Compute(m) => w.(m := m)
    case DoSwitch(next, ret) => Switch(w, next, ret)
    case DoSpawn(id, t, entry) => Spawn(w, id, t, entry)
  }

  lemma ApplyInv(w: World, step: Step)
    requires Inv(w)
    ensures Inv(Apply(w, step))
  {
    hide Layout, FrameAt, SwitchTo, FreshFrame;
    if Enabled(w, step) {
      match step
      case Compute(m) => ComputeInv(w, m);
      case DoSwitch(next, ret) => SwitchInv(w, next, ret);
      case DoSpawn(id, t, entry) => SpawnInv(w, id, t, entry);
    }
  }

  ghost function Run(w: World, steps: seq<Step>): (r: World)
    requires Inv(w)
    ensures Inv(r)
    decreases |steps|
  {
    if steps == [] then w
    else
      ApplyInv(w, steps[0]);
      Run(Apply(w, steps[0]), steps[1..])
  }

  // While nobody switches to a suspended task, its context stays what it was.
  lemma {:induction false} SuspendedKept(w: World, steps: seq<Step>, i: nat)
    requires Inv(w) && i in w.saved
    requires forall k :: 0 <= k < |steps| && steps[k].DoSwitch? ==> steps[k].next != i
    ensures i in Run(w, steps).saved && Run(w, steps).saved[i] == w.saved[i]
    decreases |steps|
  {
    hide Layout, FrameAt, SwitchTo, FreshFrame;
    if steps != [] {
      ApplyInv(w, steps[0]);
      SuspendedKept(Apply(w, steps[0]), steps[1..], i);
    }
  }

  // Suspend a task, let the others switch, compute and spawn in any way, and resume it: it sees the
  // same callee-saved registers, flags, stack pointer and return address.
  lemma SwitchRoundTrip(w: World, next: nat, ret: nat, steps: seq<Step>, ret': nat)
    requires Inv(w) && HasRoom(w) && next in w.saved
    requires forall k :: 0 <= k < |steps| && steps[k].DoSwitch? ==> steps[k].next != w.current
    ensures Inv(Switch(w, next, ret))
    ensures var w' := Run(Switch(w, next, ret), steps);
      && w.current in w'.saved
      && (HasRoom(w') ==>
            var m := Switch(w', w.current, ret').m;
            m.regs == w.m.regs && m.rsp == w.m.rsp && m.rip == ret)
  {
    hide Layout, FrameAt, SwitchTo, FreshFrame;
    SwitchInv(w, next, ret);
    var w1 := Switch(w, next, ret);
    SuspendedKept(w1, steps, w.current);
    var w' := Run(w1, steps);
    if HasRoom(w') {
      SwitchInv(w', w.current, ret');
    }
  }

  // A fresh task, spawned and later first switched to, enters with interrupts on and rsp = 8 mod 16.
  lemma FreshRoundTrip(w: World, id: nat, t: Task, entry: nat, steps: seq<Step>, ret: nat)
    requires Inv(w) && FreshTask(w, id, t)
    requires forall k :: 0 <= k < |steps| && steps[k].DoSwitch? ==> steps[k].next != id
    ensures Inv(Spawn(w, id, t, entry))
    ensures var w' := Run(Spawn(w, id, t, entry), steps);
      && id in w'.saved
      && (HasRoom(w') ==>
            var m := Switch(w', id, ret).m;
            m.rip == entry && FreshFlags(m.regs.rflags) && InterruptsOn(m.regs.rflags) && m.rsp % 16 == 8)
  {
    hide Layout, FrameAt, SwitchTo, FreshFrame;
    SpawnInv(w, id, t, entry);
    FreshEntry(w, id, t, entry);
    SuspendedKept(Spawn(w, id, t, entry), steps, id);
    var w' := Run(Spawn(w, id, t, entry), steps);
    if HasRoom(w') {
      SwitchInv(w', id, ret);
    }
  }
}
