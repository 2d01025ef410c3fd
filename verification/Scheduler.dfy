/**
 Round-robin rotation: `spawn`, `yield_now` and the timer's `preempt`, with the wrapping tick
 counters of the code, and how long a waiting task waits.
 */
module Scheduler {
  import opened SeqFacts

  const SLICE_TICKS: nat := 10
  // Ticks are counted in a 64-bit word.
  const TICK_SPACE: nat := 0x1_0000_0000_0000_0000

  datatype Sched = Sched(current: nat, queue: seq<nat>, ticks: nat, lastSwitch: nat, preemptCount: nat)

  predicate WordTicks(s: Sched) {
    s.ticks < TICK_SPACE && s.lastSwitch < TICK_SPACE
  }

  // `now.wrapping_sub(last)`
  function WrappingSub(now: nat, last: nat): int {
    if last <= now then now - last else now + TICK_SPACE - last
  }

  function Elapsed(s: Sched): nat
    requires WordTicks(s)
  {
    WrappingSub(s.ticks, s.lastSwitch)
  }

  // Front of the queue becomes current, the old current goes to the back; nothing if it is empty.
  function Rotate(s: Sched): Sched {
    if s.queue == [] then s
    else s.(current := s.queue[0], queue := s.queue[1..] + [s.current], lastSwitch := s.ticks)
  }

  function Count(s: Sched): Sched {
    s.(ticks := if s.ticks + 1 == TICK_SPACE then 0 else s.ticks + 1)
  }

  function Tick(s: Sched): Sched
    requires WordTicks(s)
  {
    var c := Count(s);
    if c.preemptCount > 0 || Elapsed(c) < SLICE_TICKS then c else Rotate(c)
  }

  function Spawn(s: Sched, t: nat): Sched {
    s.(queue := s.queue + [t])
  }

  // --- the code ---------------------------------------------------------------------------

  class Cpu {
    var current: nat
    var runqueue: seq<nat>
    var ticks: nat
    var lastSwitchTick: nat
    var preemptCount: nat

    ghost function View(): Sched
      reads this
    {
      Sched(current, runqueue, ticks, lastSwitchTick, preemptCount)
    }

    // `init`: idle is the current task and the queue is what was spawned before.
    constructor (idle: nat, runqueue: seq<nat>)
      ensures View() == Sched(idle, runqueue, 0, 0, 0)
    {
      current, this.runqueue, ticks, lastSwitchTick, preemptCount := idle, runqueue, 0, 0, 0;
    }

    method SpawnTask(t: nat)
      modifies this`runqueue
      ensures View() == Spawn(old(View()), t)
    {
      runqueue := runqueue + [t];
    }

    method YieldNow()
      modifies this`current, this`runqueue, this`lastSwitchTick
      ensures View() == Rotate(old(View()))
    {
      if runqueue == [] {
        return;
      }
      var next := runqueue[0];
      runqueue := runqueue[1..];
      var prev := current;
      current := next;
      lastSwitchTick := ticks;
      runqueue := runqueue + [prev];
    }

    // The timer handler: count the tick, then `preempt`.
    method TimerTick()
      requires WordTicks(View())
      modifies this
      ensures View() == Tick(old(View())) && WordTicks(View())
    {
      ticks := if ticks + 1 == TICK_SPACE then 0 else ticks + 1;
      if preemptCount > 0 {
        return;
      }
      var now, last := ticks, lastSwitchTick;
      var elapsed := WrappingSub(now, last);
      if elapsed < SLICE_TICKS {
        return;
      }
      if runqueue == [] {
        return;
      }
      var next := runqueue[0];
      runqueue := runqueue[1..];
      var prev := current;
      current := next;
      lastSwitchTick := now;
      runqueue := runqueue + [prev];
    }
  }

  // --- whole runs -------------------------------------------------------------------------

  datatype Event = ETick | EYield | ESpawn(t: nat)

  function Step(s: Sched, e: Event): Sched
    requires WordTicks(s)
  {
    match e
    case ETick => Tick(s)
    case EYield => Rotate(s)
    case ESpawn(t) => Spawn(s, t)
  }

  function Run(s: Sched, es: seq<Event>): (r: Sched)
    requires WordTicks(s)
    ensures WordTicks(r)
    decreases |es|
  {
    if es == [] then s else Run(Step(s, es[0]), es[1..])
  }

  lemma {:induction false} RunJoin(s: Sched, a: seq<Event>, b: seq<Event>)
    requires WordTicks(s)
    ensures Run(Run(s, a), b) == Run(s, a + b)
    decreases |a|
  {
    if a == [] {
      assert a + b == b;
    } else {
      RunJoin(Step(s, a[0]), a[1..], b);
      assert (a + b)[1..] == a[1..] + b && (a + b)[0] == a[0];
    }
  }

  function Spawned(es: seq<Event>): seq<nat> {
    if es == [] then []
    else (if es[0].ESpawn? then [es[0].t] else []) + Spawned(es[1..])
  }

  function Ticks(es: seq<Event>): nat {
    if es == [] then 0 else (if es[0].ETick? then 1 else 0) + Ticks(es[1..])
  }

  function AllTasks(s: Sched): seq<nat> {
    [s.current] + s.queue
  }

  lemma RotateTasks(s: Sched)
    ensures multiset(AllTasks(Rotate(s))) == multiset(AllTasks(s))
  {
    if s.queue != [] {
      var q, rest := s.queue, s.queue[1..];
      assert q == [q[0]] + rest;
      assert AllTasks(Rotate(s)) == [q[0]] + rest + [s.current];
      assert AllTasks(s) == [s.current] + [q[0]] + rest;
    }
  }

  lemma StepTasks(s: Sched, e: Event)
    requires WordTicks(s)
    ensures multiset(AllTasks(Step(s, e))) == multiset(AllTasks(s)) + multiset(if e.ESpawn? then [e.t] else [])
  {
    hide Rotate, Elapsed;
    match e
    case ETick =>
      RotateTasks(Count(s));
    case EYield =>
      RotateTasks(s);
    case ESpawn(t) =>
      assert AllTasks(Step(s, e)) == AllTasks(s) + [t];
  }

  // In every run, current plus queue is exactly what there was plus what was spawned: nothing is
  // lost or doubled, and only spawning enlarges it.
  lemma {:induction false} RunKeepsTasks(s: Sched, es: seq<Event>)
    requires WordTicks(s)
    ensures multiset(AllTasks(Run(s, es))) == multiset(AllTasks(s)) + multiset(Spawned(es))
    decreases |es|
  {
    if es != [] {
      StepTasks(s, es[0]);
      RunKeepsTasks(Step(s, es[0]), es[1..]);
    }
  }

  lemma RunNoDuplicates(s: Sched, es: seq<Event>)
    requires WordTicks(s) && NoDup(AllTasks(s) + Spawned(es))
    ensures NoDup(AllTasks(Run(s, es)))
    ensures Elems(AllTasks(Run(s, es))) == Elems(AllTasks(s)) + Elems(Spawned(es))
  {
    RunKeepsTasks(s, es);
    var all, now := AllTasks(s) + Spawned(es), AllTasks(Run(s, es));
    assert multiset(now) == multiset(all);
    NoDupMultiset(all, now);
    ElemsConcat(AllTasks(s), Spawned(es));
  }

  // The idle task is rotated like any other: in every run from boot it is queued exactly when it is
  // not current.
  lemma IdleIsQueued(idle: nat, queue: seq<nat>, es: seq<Event>)
    requires NoDup([idle] + queue + Spawned(es))
    ensures var s := Run(Sched(idle, queue, 0, 0, 0), es);
      idle in s.queue <==> s.current != idle
  {
    var s0 := Sched(idle, queue, 0, 0, 0);
    var s := Run(s0, es);
    RunNoDuplicates(s0, es);
    assert AllTasks(s0)[0] == idle && idle in Elems(AllTasks(s0));
    assert idle in AllTasks(s);
    assert AllTasks(s)[0] == s.current && forall i :: 0 <= i < |s.queue| ==> AllTasks(s)[i + 1] == s.queue[i];
  }

  // --- bounded waiting --------------------------------------------------------------------

  // t is current now or at some point of the run.
  predicate EverCurrent(s: Sched, t: nat, es: seq<Event>)
    requires WordTicks(s)
    decreases |es|
  {
    s.current == t || (es != [] && EverCurrent(Step(s, es[0]), t, es[1..]))
  }

  // Ticks until the task at position k runs, if nobody yields.
  function Need(k: nat, elapsed: nat): nat {
    SLICE_TICKS * k + if elapsed + 1 >= SLICE_TICKS then 1 else SLICE_TICKS - elapsed
  }

  ghost predicate Waiting(s: Sched, t: nat, k: nat) {
    WordTicks(s) && s.preemptCount == 0 && k < |s.queue| && s.queue[k] == t
  }

  lemma RotateWaiting(s: Sched, t: nat, k: nat)
    requires Waiting(s, t, k)
    ensures k == 0 ==> Rotate(s).current == t
    ensures k > 0 ==> Waiting(Rotate(s), t, k - 1) && Elapsed(Rotate(s)) == 0
  {
  }

  // Counted exactly: yields, spawns and never-yielding tasks only ever bring the turn forward.
  lemma {:induction false} ServedWithin(s: Sched, t: nat, k: nat, es: seq<Event>)
    requires Waiting(s, t, k) && Elapsed(s) < TICK_SPACE - 1
    requires Ticks(es) >= Need(k, Elapsed(s))
    ensures EverCurrent(s, t, es)
    decreases |es|
  {
    assert es != [];
    var s' := Step(s, es[0]);
    match es[0]
    case ETick =>
      var c := Count(s);
      assert Elapsed(c) == Elapsed(s) + 1 && Waiting(c, t, k);
      if Elapsed(c) < SLICE_TICKS {
        ServedWithin(s', t, k, es[1..]);
      } else {
        RotateWaiting(c, t, k);
        if k > 0 {
          ServedWithin(s', t, k - 1, es[1..]);
        } else {
          assert EverCurrent(s', t, es[1..]);
        }
      }
    case EYield =>
      RotateWaiting(s, t, k);
      if k > 0 {
        ServedWithin(s', t, k - 1, es[1..]);
      } else {
        assert EverCurrent(s', t, es[1..]);
      }
    case ESpawn(x) =>
      ServedWithin(s', t, k, es[1..]);
  }

  // n ticks and nothing else.
  function OnlyTicks(n: nat): (es: seq<Event>)
    ensures |es| == n && Ticks(es) == n
  {
    if n == 0 then [] else [ETick] + OnlyTicks(n - 1)
  }

  lemma {:induction false} NotBefore(s: Sched, t: nat, k: nat, n: nat)
    requires Waiting(s, t, k) && NoDup(AllTasks(s)) && Elapsed(s) < TICK_SPACE - 1
    requires n < Need(k, Elapsed(s))
    ensures !EverCurrent(s, t, OnlyTicks(n))
    decreases n
  {
    assert AllTasks(s)[k + 1] == t && AllTasks(s)[0] == s.current;
    if n > 0 {
      var es := OnlyTicks(n);
      assert es[0] == ETick && es[1..] == OnlyTicks(n - 1);
      var c := Count(s);
      assert Elapsed(c) == Elapsed(s) + 1 && Waiting(c, t, k);
      if Elapsed(c) < SLICE_TICKS {
        NotBefore(c, t, k, n - 1);
      } else {
        RotateWaiting(c, t, k);
        RotateNoDup(c);
        NotBefore(Rotate(c), t, k - 1, n - 1);
      }
    }
  }

  // While preemption is held off ticks only count: nobody is switched, however long it takes.
  lemma {:induction false} HeldOff(s: Sched, n: nat)
    requires WordTicks(s) && s.preemptCount > 0
    ensures var r := Run(s, OnlyTicks(n));
      && r.current == s.current && r.queue == s.queue && r.lastSwitch == s.lastSwitch
      && r.preemptCount == s.preemptCount && r.ticks == (s.ticks + n) % TICK_SPACE
    decreases n
  {
    if n > 0 {
      var es := OnlyTicks(n);
      assert es[0] == ETick && es[1..] == OnlyTicks(n - 1);
      HeldOff(Step(s, ETick), n - 1);
    }
  }

  lemma RotateNoDup(s: Sched)
    requires NoDup(AllTasks(s))
    ensures NoDup(AllTasks(Rotate(s)))
  {
    if s.queue != [] {
      var a, b := AllTasks(s), AllTasks(Rotate(s));
      assert forall i :: 0 <= i < |s.queue| ==> b[i] == a[i + 1];
      assert b[|s.queue|] == a[0];
    }
  }

  // A task at position k runs within (k + 1) * SLICE_TICKS ticks in every run - exactly when the
  // tick counter is not one short of a full lap ahead of the last switch.  (That needs 2^64 - 1
  // ticks with an empty queue; the next tick then reads as no time at all.)
  lemma BoundedWaiting(s: Sched, t: nat, k: nat)
    requires Waiting(s, t, k) && NoDup(AllTasks(s))
    ensures (forall es :: Ticks(es) >= (k + 1) * SLICE_TICKS ==> EverCurrent(s, t, es))
       <==> Elapsed(s) != TICK_SPACE - 1
  {
    if Elapsed(s) != TICK_SPACE - 1 {
      forall es | Ticks(es) >= (k + 1) * SLICE_TICKS ensures EverCurrent(s, t, es) {
        ServedWithin(s, t, k, es);
      }
    } else {
      var n := (k + 1) * SLICE_TICKS;
      var es := OnlyTicks(n);
      assert Ticks(es) >= (k + 1) * SLICE_TICKS;
      assert es[0] == ETick && es[1..] == OnlyTicks(n - 1);
      assert AllTasks(s)[k + 1] == t && AllTasks(s)[0] == s.current;
      var c := Count(s);
      assert Elapsed(c) == 0 && Waiting(c, t, k);
      NotBefore(c, t, k, n - 1);
      assert !EverCurrent(s, t, es);
    }
  }
}
