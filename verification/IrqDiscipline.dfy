/**
 The interrupt-flag and lock discipline of the scheduler on one core, one step per lock operation.
 `IrqGuard` saves and clears IF around every use of the runqueue; the timer handler enters only
 with IF set.  So the handler never asks for the lock its own core holds, and `yield_now` gives
 every caller back its own IF however tasks are switched in between.
 */
module IrqDiscipline {
  import opened SeqFacts
  import Sched = Scheduler

  // Who runs the rotation: a task inside an IrqGuard holding its caller's IF, or the timer handler
  // over the code it interrupted.
  datatype Owner = Guard(flag: bool) | Handler(under: Pc)

  // Where the core is.
  datatype Pc =
    | Code                             // outside the scheduler
    | Entered(under: Pc)               // timer handler, before its slice test
    | SpawnWant(t: nat, flag: bool)    // spawn: about to lock
    | SpawnHold(t: nat, flag: bool)    // spawn: lock held, about to push and unlock
    | Want1(who: Owner)                 // rotation: about to lock for the pop
    | Hold1(who: Owner)                 // lock held, about to pop and unlock
    | Popped(who: Owner, next: nat)     // about to install `next` as current
    | Want2(who: Owner, prev: nat)      // about to lock for the push
    | Hold2(who: Owner, prev: nat)      // lock held, about to push `prev` and unlock
    | Switching(who: Owner, prev: nat)  // about to call switch_to
    | Leaving(who: Owner)               // about to drop the guard or return from the interrupt

  // What switch_to finds when a task is switched in.
  datatype Suspended = Fresh | Resumes(who: Owner)

  datatype State = State(
    flag: bool, locked: bool,
    current: nat, queue: seq<nat>,
    running: nat, pc: Pc,              // the task whose stack is in use, and where it is
    saved: map<nat, Suspended>,
    callers: map<nat, bool>,           // IF when each task last called into the scheduler
    ticks: nat, lastSwitch: nat)       // 64-bit words; `preempt_count` is zero throughout

  datatype Act = SetFlag(b: bool) | CallSpawn(t: nat) | CallYield | Timer | Advance

  // --- steps ------------------------------------------------------------------------------

  predicate WantsLock(pc: Pc) {
    pc.SpawnWant? || pc.Want1? || pc.Want2?
  }

  predicate HoldsLock(pc: Pc) {
    pc.SpawnHold? || pc.Hold1? || pc.Hold2?
  }

  // The timer fires whenever IF is set, wherever the core is.
  function Next(s: State, a: Act): State {
    match a
    case SetFlag(b) => if s.pc.Code? then s.(flag := b) else s
    case CallSpawn(t) =>
      if s.pc.Code? && t !in s.saved && t != s.running
      then s.(pc := SpawnWant(t, s.flag), flag := false, callers := s.callers[s.running := s.flag]) else s
    case CallYield =>
      if s.pc.Code?
      then s.(pc := Want1(Guard(s.flag)), flag := false, callers := s.callers[s.running := s.flag]) else s
    case Timer => if s.flag then s.(pc := Entered(s.pc), flag := false, ticks := Counted(s.ticks)) else s
    case Advance => Continue(s)
  }

  function Counted(ticks: nat): nat {
    if ticks + 1 == Sched.TICK_SPACE then 0 else ticks + 1
  }

  // The slice test of `preempt`.
  predicate SliceUsed(ticks: nat, lastSwitch: nat) {
    Sched.WrappingSub(ticks, lastSwitch) >= Sched.SLICE_TICKS
  }

  // The next step of scheduler code.  A lock that is taken makes the core spin where it is.
  function Continue(s: State): State {
    match s.pc
    case Code => s
    case Entered(under) =>
      if SliceUsed(s.ticks, s.lastSwitch) then s.(pc := Want1(Handler(under))) else s.(pc := Leaving(Handler(under)))
    case SpawnWant(t, f) => if s.locked then s else s.(locked := true, pc := SpawnHold(t, f))
    case SpawnHold(t, f) =>
      s.(queue := s.queue + [t], saved := s.saved[t := Fresh], locked := false, pc := Leaving(Guard(f)))
    case Want1(who) => if s.locked then s else s.(locked := true, pc := Hold1(who))
    case Hold1(who) =>
      if s.queue == [] then s.(locked := false, pc := Leaving(who))
      else s.(queue := s.queue[1..], locked := false, pc := Popped(who, s.queue[0]))
    case Popped(who, next) => s.(current := next, pc := Want2(who, s.current), lastSwitch := s.ticks)
    case Want2(who, prev) => if s.locked then s else s.(locked := true, pc := Hold2(who, prev))
    case Hold2(who, prev) => s.(queue := s.queue + [prev], locked := false, pc := Switching(who, prev))
    case Switching(who, prev) => SwitchIn(s.(saved := s.saved[prev := Resumes(who)]))
    case Leaving(who) =>
      match who
      case Guard(f) => s.(flag := f, pc := Code)
      case Handler(under) => s.(flag := true, pc := under)
  }

  // switch_to restores the flags it saved: IF clear inside the scheduler, set for a fresh task.
  function SwitchIn(s: State): State {
    if s.current !in s.saved then s
    else
      var s' := s.(running := s.current, saved := s.saved - {s.current});
      match s.saved[s.current]
      case Fresh => s'.(flag := true, pc := Code)
      case Resumes(who) => s'.(flag := false, pc := Leaving(who))
  }

  // --- invariant --------------------------------------------------------------------------

  // A task popped and not yet installed, or replaced and not yet pushed.
  function InHand(pc: Pc): seq<nat> {
    match pc
    case Popped(_, next) => [next]
    case Want2(_, prev) => [prev]
    case Hold2(_, prev) => [prev]
    case _ => []
  }

  function AllTasks(s: State): seq<nat> {
    InHand(s.pc) + [s.current] + s.queue
  }

  // The guard on a task's stack holds the IF that task called with; a handler sits on plain code.
  ghost predicate OwnerOk(who: Owner, callers: map<nat, bool>, t: nat) {
    match who
    case Guard(f) => t in callers && callers[t] == f
    case Handler(under) => under == Code
  }

  ghost predicate PcOk(s: State) {
    match s.pc
    case Code => s.running == s.current
    case Entered(under) => under == Code && s.running == s.current
    case SpawnWant(t, f) => s.running == s.current && OwnerOk(Guard(f), s.callers, s.running) && t !in AllTasks(s)
    case SpawnHold(t, f) => s.running == s.current && OwnerOk(Guard(f), s.callers, s.running) && t !in AllTasks(s)
    case Want1(who) => s.running == s.current && OwnerOk(who, s.callers, s.running)
    case Hold1(who) => s.running == s.current && OwnerOk(who, s.callers, s.running)
    case Popped(who, next) => s.running == s.current && OwnerOk(who, s.callers, s.running)
    case Want2(who, prev) => s.running == prev && OwnerOk(who, s.callers, s.running)
    case Hold2(who, prev) => s.running == prev && OwnerOk(who, s.callers, s.running)
    case Switching(who, prev) => s.running == prev && prev != s.current && OwnerOk(who, s.callers, s.running)
    case Leaving(who) => s.running == s.current && OwnerOk(who, s.callers, s.running)
  }

  ghost predicate SavedOk(s: State) {
    && s.saved.Keys == Elems(AllTasks(s)) - {s.running}
    && (forall t :: t in s.saved && s.saved[t].Resumes? ==> OwnerOk(s.saved[t].who, s.callers, t))
  }

  ghost predicate Inv(s: State) {
    && (s.flag ==> s.pc.Code?)
    && (s.locked <==> HoldsLock(s.pc))
    && NoDup(AllTasks(s)) && s.running in AllTasks(s)
    && PcOk(s)
    && SavedOk(s)
  }

  function Init(idle: nat): State {
    State(false, false, idle, [], idle, Code, map[], map[], 0, 0)
  }

  lemma InitInv(idle: nat)
    ensures Inv(Init(idle))
  {
  }

  lemma CallInv(s: State, a: Act)
    requires Inv(s) && !a.Advance?
    ensures Inv(Next(s, a)) && Elems(AllTasks(Next(s, a))) == Elems(AllTasks(s))
  {
    var s' := Next(s, a);
    assert InHand(s'.pc) == InHand(s.pc);
    if s.pc.Code? {
      assert s.running in Elems(AllTasks(s)) && s.running !in s.saved.Keys;
      assert forall t :: t in Elems(AllTasks(s)) ==> t in s.saved.Keys || t == s.running;
    }
  }

  // The same tasks in another order.
  lemma SameTasks(s: State, s': State)
    requires NoDup(AllTasks(s)) && multiset(AllTasks(s)) == multiset(AllTasks(s'))
    ensures NoDup(AllTasks(s')) && Elems(AllTasks(s')) == Elems(AllTasks(s))
  {
    NoDupMultiset(AllTasks(s), AllTasks(s'));
  }

  lemma InvFrom(s: State, s': State)
    requires Inv(s) && NoDup(AllTasks(s')) && Elems(AllTasks(s')) == Elems(AllTasks(s))
    requires s'.running == s.running && s'.saved == s.saved && s'.callers == s.callers
    requires (s'.flag ==> s'.pc.Code?) && (s'.locked <==> HoldsLock(s'.pc)) && PcOk(s')
    ensures Inv(s')
  {
    assert s.running in Elems(AllTasks(s));
    assert s'.running in AllTasks(s');
  }

  // Steps that move tasks between the queue, the hand and `current`.
  lemma MoveInv(s: State)
    requires Inv(s) && (s.pc.Hold1? || s.pc.Popped? || s.pc.Hold2?)
    ensures Inv(Continue(s)) && Elems(AllTasks(Continue(s))) == Elems(AllTasks(s))
  {
    hide SavedOk, NoDup, Elems, AllTasks, PcOk;
    MoveTasks(s);
    SameTasks(s, Continue(s));
    MovePc(s);
    InvFrom(s, Continue(s));
  }

  lemma MovePc(s: State)
    requires Inv(s) && (s.pc.Hold1? || s.pc.Popped? || s.pc.Hold2?)
    ensures PcOk(Continue(s))
  {
    if s.pc.Hold2? {
      assert AllTasks(s)[0] == s.pc.prev && AllTasks(s)[1] == s.current;
    }
  }

  lemma SwapFront(x: nat, y: nat, q: seq<nat>)
    ensures multiset([x] + [y] + q) == multiset([y] + [x] + q)
  {
  }

  lemma FrontToBack(x: nat, y: nat, q: seq<nat>)
    ensures multiset([x] + [y] + q) == multiset([y] + (q + [x]))
  {
    assert [y] + (q + [x]) == [y] + q + [x];
  }

  // Both task lists, spelled out.
  lemma MoveLists(s: State)
    requires s.pc.Hold1? || s.pc.Popped? || s.pc.Hold2?
    ensures s.pc.Hold1? && s.queue == [] ==> AllTasks(Continue(s)) == AllTasks(s)
    ensures s.pc.Hold1? && s.queue != [] ==>
      && AllTasks(s) == [s.current] + [s.queue[0]] + s.queue[1..]
      && AllTasks(Continue(s)) == [s.queue[0]] + [s.current] + s.queue[1..]
    ensures s.pc.Popped? ==>
      && AllTasks(s) == [s.pc.next] + [s.current] + s.queue
      && AllTasks(Continue(s)) == [s.current] + [s.pc.next] + s.queue
    ensures s.pc.Hold2? ==>
      && AllTasks(s) == [s.pc.prev] + [s.current] + s.queue
      && AllTasks(Continue(s)) == [s.current] + (s.queue + [s.pc.prev])
  {
  }

  lemma MoveTasks(s: State)
    requires s.pc.Hold1? || s.pc.Popped? || s.pc.Hold2?
    ensures multiset(AllTasks(Continue(s))) == multiset(AllTasks(s))
  {
    hide AllTasks, Continue;
    MoveLists(s);
    if s.pc.Hold1? {
      if s.queue != [] {
        SwapFront(s.current, s.queue[0], s.queue[1..]);
      }
    } else if s.pc.Popped? {
      SwapFront(s.pc.next, s.current, s.queue);
    } else {
      FrontToBack(s.pc.prev, s.current, s.queue);
    }
  }

  lemma SpawnPushInv(s: State)
    requires Inv(s) && s.pc.SpawnHold?
    ensures Inv(Continue(s)) && Elems(AllTasks(Continue(s))) == Elems(AllTasks(s)) + {s.pc.t}
  {
    var s', t := Continue(s), s.pc.t;
    assert AllTasks(s') == AllTasks(s) + [t];
    assert Elems([t]) == {t};
    assert t !in Elems(AllTasks(s));
    NoDupJoin(AllTasks(s), [t]);
    assert s.running in Elems(AllTasks(s));
  }

  lemma SwitchInv(s: State)
    requires Inv(s) && s.pc.Switching?
    ensures Inv(Continue(s)) && Elems(AllTasks(Continue(s))) == Elems(AllTasks(s))
    ensures Continue(s).running == s.current
  {
    var s', prev := Continue(s), s.pc.prev;
    assert AllTasks(s)[0] == s.current;
    assert s.current in Elems(AllTasks(s)) && s.current in s.saved.Keys;
    assert AllTasks(s') == AllTasks(s);
    assert s'.saved.Keys == s.saved.Keys + {prev} - {s.current};
  }

  lemma ContinueInv(s: State)
    requires Inv(s)
    ensures Inv(Continue(s))
    ensures Elems(AllTasks(Continue(s))) ==
            Elems(AllTasks(s)) + (if s.pc.SpawnHold? then {s.pc.t} else {})
  {
    if s.pc.Hold1? || s.pc.Popped? || s.pc.Hold2? {
      MoveInv(s);
    } else if s.pc.SpawnHold? {
      SpawnPushInv(s);
    } else if s.pc.Switching? {
      SwitchInv(s);
    } else {
      OtherInv(s);
    }
  }

  // Taking the lock, entering and leaving.
  lemma OtherInv(s: State)
    requires Inv(s)
    requires s.pc.Code? || s.pc.Entered? || WantsLock(s.pc) || s.pc.Leaving?
    ensures Inv(Continue(s)) && Elems(AllTasks(Continue(s))) == Elems(AllTasks(s))
  {
    assert AllTasks(Continue(s)) == AllTasks(s);
    if s.pc.Leaving? && s.pc.who.Handler? {
      assert s.pc.who.under == Code;
    }
  }

  // --- the rotation is atomic -------------------------------------------------------------

  // Current and queue as an outside observer may count them: a popped task is still in front until
  // it is installed, and the replaced one is at the back from then on.
  function Observed(s: State): (nat, seq<nat>) {
    match s.pc
    case Popped(_, next) => (s.current, [next] + s.queue)
    case Want2(_, prev) => (s.current, s.queue + [prev])
    case Hold2(_, prev) => (s.current, s.queue + [prev])
    case _ => (s.current, s.queue)
  }

  // The timer handler has counted its tick and not yet decided what to do about it.
  predicate TickOpen(pc: Pc) {
    pc.Entered? || ((pc.Want1? || pc.Hold1? || pc.Popped?) && pc.who.Handler?)
  }

  // The scheduler as of the last finished tick, rotation or spawn.
  function Abstract(s: State): Sched.Sched {
    var before := if s.ticks == 0 then Sched.TICK_SPACE - 1 else s.ticks - 1;
    Sched.Sched(Observed(s).0, Observed(s).1, if TickOpen(s.pc) then before else s.ticks, s.lastSwitch, 0)
  }

  // The counters are words, and a handler past its slice test has a slice that is used up.
  ghost predicate TicksOk(s: State) {
    && s.ticks < Sched.TICK_SPACE && s.lastSwitch < Sched.TICK_SPACE
    && (TickOpen(s.pc) && !s.pc.Entered? ==> SliceUsed(s.ticks, s.lastSwitch))
  }

  lemma NextTicks(s: State, a: Act)
    requires TicksOk(s)
    requires s.pc.Leaving? && s.pc.who.Handler? ==> s.pc.who.under == Code
    ensures TicksOk(Next(s, a)) && Sched.WordTicks(Abstract(s))
  {
  }

  lemma ObservedContinue(s: State)
    requires s.pc.Leaving? && s.pc.who.Handler? ==> s.pc.who.under == Code
    ensures s.pc.Popped? ==> Observed(Continue(s)) == (s.pc.next, s.queue + [s.current])
    ensures s.pc.SpawnHold? ==> Observed(Continue(s)) == (s.current, s.queue + [s.pc.t])
    ensures !s.pc.Popped? && !s.pc.SpawnHold? ==> Observed(Continue(s)) == Observed(s)
  {
    if s.pc.Hold1? && s.queue != [] {
      assert s.queue == [s.queue[0]] + s.queue[1..];
    }
  }

  lemma ObservedCall(s: State, a: Act)
    requires !a.Advance? && (s.flag ==> s.pc.Code?)
    ensures Observed(Next(s, a)) == Observed(s)
  {
  }

  // What a micro-step finishes: a tick, with or without a rotation; a yield's rotation; a spawn.
  function Finished(s: State, a: Act): seq<Sched.Event> {
    if !a.Advance? then []
    else match s.pc
      case Entered(_) => if SliceUsed(s.ticks, s.lastSwitch) then [] else [Sched.ETick]
      case Hold1(who) => if s.queue == [] && who.Handler? then [Sched.ETick] else []
      case Popped(who, _) => if who.Handler? then [Sched.ETick] else [Sched.EYield]
      case SpawnHold(t, _) => [Sched.ESpawn(t)]
      case _ => []
  }

  // Every micro-step is one whole tick, yield or spawn of the abstract scheduler, or nothing.
  lemma StepRefines(s: State, a: Act)
    requires Inv(s) && TicksOk(s)
    ensures Sched.WordTicks(Abstract(s))
    ensures Abstract(Next(s, a)) == Sched.Run(Abstract(s), Finished(s, a))
  {
    hide SavedOk, NoDup, Continue;
    NextTicks(s, a);
    OneEvent(Abstract(s), Finished(s, a));
    if a.Advance? {
      ObservedContinue(s);
      AdvanceRefines(s);
    } else {
      ObservedCall(s, a);
    }
  }

  lemma OneEvent(s: Sched.Sched, es: seq<Sched.Event>)
    requires Sched.WordTicks(s) && |es| <= 1
    ensures Sched.Run(s, es) == if es == [] then s else Sched.Step(s, es[0])
  {
    if es != [] {
      assert es[1..] == [];
      assert Sched.Run(Sched.Step(s, es[0]), []) == Sched.Step(s, es[0]);
    }
  }

  lemma RotationRefines(s: State)
    requires TicksOk(s) && Sched.WordTicks(Abstract(s)) && s.pc.Popped?
    ensures Abstract(Continue(s)) == Sched.Step(Abstract(s), Finished(s, Advance)[0])
  {
    assert ([s.pc.next] + s.queue)[1..] == s.queue;
  }

  lemma OtherRefines(s: State)
    requires TicksOk(s) && Sched.WordTicks(Abstract(s)) && !s.pc.Popped?
    requires s.pc.Leaving? && s.pc.who.Handler? ==> s.pc.who.under == Code
    ensures Abstract(Continue(s)) ==
      var es := Finished(s, Advance);
      if es == [] then Abstract(s) else Sched.Step(Abstract(s), es[0])
  {
    ObservedContinue(s);
    assert s.pc.SpawnHold? || s.pc.Hold1? ==> Observed(s) == (s.current, s.queue);
    hide Observed;
  }

  lemma AdvanceRefines(s: State)
    requires TicksOk(s) && Sched.WordTicks(Abstract(s))
    requires s.pc.Leaving? && s.pc.who.Handler? ==> s.pc.who.under == Code
    ensures Abstract(Continue(s)) ==
      var es := Finished(s, Advance);
      if es == [] then Abstract(s) else Sched.Step(Abstract(s), es[0])
  {
    hide TicksOk, Abstract, Continue;
    if s.pc.Popped? {
      RotationRefines(s);
    } else {
      OtherRefines(s);
    }
  }

  // --- whole runs -------------------------------------------------------------------------

  lemma NextInv(s: State, a: Act)
    requires Inv(s)
    ensures Inv(Next(s, a))
    ensures Elems(AllTasks(Next(s, a))) ==
            Elems(AllTasks(s)) + (if a.Advance? && s.pc.SpawnHold? then {s.pc.t} else {})
  {
    hide Inv, Elems, AllTasks, Continue;
    if a.Advance? {
      ContinueInv(s);
    } else {
      CallInv(s, a);
    }
  }

  lemma NextBoth(s: State, a: Act)
    requires Inv(s) && TicksOk(s)
    ensures Inv(Next(s, a)) && TicksOk(Next(s, a))
    ensures Elems(AllTasks(s)) <= Elems(AllTasks(Next(s, a)))
  {
    hide SavedOk, NoDup, Continue, Next, TicksOk;
    NextInv(s, a);
    NextTicks(s, a);
  }

  ghost function Run(s: State, acts: seq<Act>): (r: State)
    requires Inv(s) && TicksOk(s)
    ensures Inv(r) && TicksOk(r) && Elems(AllTasks(s)) <= Elems(AllTasks(r))
    decreases |acts|
  {
    if acts == [] then s
    else
      NextBoth(s, acts[0]);
      Run(Next(s, acts[0]), acts[1..])
  }

  // The abstract events of a run.
  ghost function Trace(s: State, acts: seq<Act>): seq<Sched.Event>
    requires Inv(s) && TicksOk(s)
    decreases |acts|
  {
    if acts == [] then []
    else
      NextBoth(s, acts[0]);
      Finished(s, acts[0]) + Trace(Next(s, acts[0]), acts[1..])
  }

  // Every run of the interruptible scheduler is a run of the abstract one.
  lemma {:induction false} RunRefines(s: State, acts: seq<Act>)
    requires Inv(s) && TicksOk(s)
    ensures Sched.WordTicks(Abstract(s))
    ensures Abstract(Run(s, acts)) == Sched.Run(Abstract(s), Trace(s, acts))
    decreases |acts|
  {
    hide Inv, TicksOk, Next, Finished, Abstract;
    StepRefines(s, if acts == [] then Advance else acts[0]);
    if acts != [] {
      NextBoth(s, acts[0]);
      RunRefines(Next(s, acts[0]), acts[1..]);
      Sched.RunJoin(Abstract(s), Finished(s, acts[0]), Trace(Next(s, acts[0]), acts[1..]));
    }
  }

  ghost predicate EverCurrent(s: State, t: nat, acts: seq<Act>)
    requires Inv(s) && TicksOk(s)
    decreases |acts|
  {
    s.current == t ||
    (acts != [] && (NextBoth(s, acts[0]); EverCurrent(Next(s, acts[0]), t, acts[1..])))
  }

  lemma {:induction false} EverLifts(s: State, t: nat, acts: seq<Act>)
    requires Inv(s) && TicksOk(s) && Sched.WordTicks(Abstract(s)) && Sched.EverCurrent(Abstract(s), t, Trace(s, acts))
    ensures EverCurrent(s, t, acts)
    decreases |acts|
  {
    hide Inv, TicksOk, Next, Finished, Abstract;
    SameCurrent(s);
    if s.current != t {
      assert acts != [];
      var s' := Next(s, acts[0]);
      NextBoth(s, acts[0]);
      StepRefines(s, acts[0]);
      AtMostOne(s, acts[0]);
      OneEvent(Abstract(s), Finished(s, acts[0]));
      StepRefines(s', Advance);
      var es, rest := Finished(s, acts[0]), Trace(s', acts[1..]);
      if es == [] {
        assert es + rest == rest;
      } else {
        assert (es + rest)[0] == es[0] && (es + rest)[1..] == rest;
      }
      EverLifts(s', t, acts[1..]);
    }
  }

  lemma SameCurrent(s: State)
    ensures Abstract(s).current == s.current
  {
  }

  lemma AtMostOne(s: State, a: Act)
    ensures |Finished(s, a)| <= 1
  {
  }

  // So waiting is bounded with interrupts at every point IF allows: a task at position k becomes
  // current in every run that finishes (k + 1) * SLICE_TICKS ticks.
  lemma InterruptibleServed(s: State, t: nat, k: nat, acts: seq<Act>)
    requires Inv(s) && TicksOk(s) && Sched.Waiting(Abstract(s), t, k)
    requires Sched.Elapsed(Abstract(s)) != Sched.TICK_SPACE - 1
    requires Sched.Ticks(Trace(s, acts)) >= (k + 1) * Sched.SLICE_TICKS
    ensures EverCurrent(s, t, acts)
  {
    hide Inv, TicksOk, Next, Finished, Abstract;
    Sched.ServedWithin(Abstract(s), t, k, Trace(s, acts));
    EverLifts(s, t, acts);
  }

  // Every timer interrupt of a run is a finished tick, but for one still in its handler.
  ghost function Fired(s: State, acts: seq<Act>): nat
    requires Inv(s) && TicksOk(s)
    decreases |acts|
  {
    if acts == [] then 0
    else
      NextBoth(s, acts[0]);
      (if acts[0].Timer? && s.flag then 1 else 0) + Fired(Next(s, acts[0]), acts[1..])
  }

  lemma TicksJoin(a: seq<Sched.Event>, b: seq<Sched.Event>)
    requires |a| <= 1
    ensures Sched.Ticks(a + b) == Sched.Ticks(a) + Sched.Ticks(b)
  {
    if a == [] {
      assert a + b == b;
    } else {
      assert (a + b)[1..] == b && a[1..] == [];
    }
  }

  lemma FiredStep(s: State, a: Act)
    requires Inv(s)
    ensures (if a.Timer? && s.flag then 1 else 0) + (if TickOpen(s.pc) then 1 else 0)
         == Sched.Ticks(Finished(s, a)) + if TickOpen(Next(s, a).pc) then 1 else 0
  {
    hide SavedOk, NoDup, AllTasks;
  }

  lemma {:induction false} FiredTicks(s: State, acts: seq<Act>)
    requires Inv(s) && TicksOk(s)
    ensures Fired(s, acts) + (if TickOpen(s.pc) then 1 else 0)
         == Sched.Ticks(Trace(s, acts)) + if TickOpen(Run(s, acts).pc) then 1 else 0
    decreases |acts|
  {
    hide Inv, TicksOk, Next, Finished, TickOpen;
    if acts != [] {
      NextBoth(s, acts[0]);
      FiredStep(s, acts[0]);
      AtMostOne(s, acts[0]);
      TicksJoin(Finished(s, acts[0]), Trace(Next(s, acts[0]), acts[1..]));
      FiredTicks(Next(s, acts[0]), acts[1..]);
    }
  }

  // In every run: the lock is held only with IF clear, so nobody - the timer handler included -
  // ever asks for a lock this core holds; current, queue and the task in hand are distinct; and a
  // guard about to be dropped holds the IF its task called with.
  lemma EveryRunIsSafe(idle: nat, acts: seq<Act>)
    ensures Inv(Init(idle))
    ensures var s := Run(Init(idle), acts);
      && (s.locked ==> !s.flag)
      && (WantsLock(s.pc) ==> !s.locked)
      && NoDup(AllTasks(s))
      && (s.pc.Leaving? && s.pc.who.Guard? ==>
            s.running in s.callers && Continue(s).flag == s.callers[s.running] && Continue(s).pc.Code?)
  {
    hide Run;
    InitInv(idle);
    var s := Run(Init(idle), acts);
  }

  // The guard is what makes this so: without clearing IF, the timer can fire inside `spawn`'s locked
  // section, and its handler then waits for a lock that cannot be released.
  lemma WithoutGuardHandlerSpins(s: State)
    requires s.pc.SpawnHold? && s.locked && s.flag && SliceUsed(Counted(s.ticks), s.lastSwitch)
    ensures var h := Next(Next(s, Timer), Advance);
      WantsLock(h.pc) && h.locked && Next(h, Advance) == h && Next(h, Timer) == h
  {
  }
}
