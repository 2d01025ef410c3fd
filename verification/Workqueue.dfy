/**
 The LinuxKPI workqueue: any number of queuers and cancellers and one runner over a shared queue and
 one atomic state byte per work, one atomic access at a time.
 */
module Workqueue {
  import opened SeqFacts

  datatype WorkState = Idle | Pending | Running

  // `drain_one`: between the pop and the RUNNING store, between that store and the body, and between
  // the body and the IDLE store.
  datatype Runner = RIdle | RPopped(w: nat) | RStored(w: nat) | RRan(w: nat)

  datatype State = State(
    states: map<nat, WorkState>,        // every initialised work
    queue: seq<nat>,
    pushing: seq<nat>,                  // queue_work calls past their exchange, not yet pushed
    cancelling: seq<nat>,               // cancel_work calls past their exchange, not yet filtered
    runner: Runner,
    enqueued: seq<nat>,                 // true results of queue_work
    ran: seq<nat>,                      // bodies run
    cancelled: seq<nat>,                // true results of cancel_work
    removed: seq<nat>,                  // queue entries cancel_work has deleted
    overran: seq<nat>,                  // RUNNING stores over an IDLE byte
    pushed: seq<nat>)                   // entries pushed, in order

  datatype Act = Cas(w: nat) | PushBack(i: nat) | RunnerStep | CancelCas(w: nat) | Retain(i: nat)

  function WithState(s: State, w: nat, x: WorkState): State {
    s.(states := s.states[w := x])
  }

  function Drop(q: seq<nat>, i: nat): seq<nat>
    requires i < |q|
  {
    q[..i] + q[i + 1..]
  }

  predicate Byte(s: State, w: nat, x: WorkState) {
    w in s.states && s.states[w] == x
  }

  function Next(s: State, a: Act): State {
    match a
    case Cas(w) =>
      if Byte(s, w, Idle)
      then WithState(s, w, Pending).(pushing := s.pushing + [w], enqueued := s.enqueued + [w]) else s
    case PushBack(i) =>
      if i < |s.pushing|
      then s.(pushing := Drop(s.pushing, i), queue := s.queue + [s.pushing[i]], pushed := s.pushed + [s.pushing[i]])
      else s
    case RunnerStep => RunnerNext(s)
    case CancelCas(w) =>
      if Byte(s, w, Pending) then WithState(s, w, Idle).(cancelling := s.cancelling + [w]) else s
    case Retain(i) =>
      if i < |s.cancelling| then
        var w := s.cancelling[i];
        s.(cancelling := Drop(s.cancelling, i), queue := Without(s.queue, w), cancelled := s.cancelled + [w],
        removed := s.removed + Copies(s.queue, w))
      else s
  }

  function RunnerNext(s: State): State {
    match s.runner
    case RIdle => if s.queue == [] then s else s.(runner := RPopped(s.queue[0]), queue := s.queue[1..])
    case RPopped(w) =>
      WithState(s, w, Running).(runner := RStored(w), overran := s.overran + if Byte(s, w, Idle) then [w] else [])
    case RStored(w) => s.(runner := RRan(w), ran := s.ran + [w])
    case RRan(w) => WithState(s, w, Idle).(runner := RIdle)
  }

  // `retain(|x| x != w)`, and what it deletes.
  function Without(q: seq<nat>, w: nat): seq<nat> {
    if q == [] then [] else (if q[0] == w then [] else [q[0]]) + Without(q[1..], w)
  }

  function Copies(q: seq<nat>, w: nat): seq<nat> {
    if q == [] then [] else (if q[0] == w then [w] else []) + Copies(q[1..], w)
  }

  // --- counting ---------------------------------------------------------------------------

  function Count(q: seq<nat>, w: nat): nat {
    if q == [] then 0 else (if q[0] == w then 1 else 0) + Count(q[1..], w)
  }

  lemma {:induction false} CountJoin(a: seq<nat>, b: seq<nat>, w: nat)
    ensures Count(a + b, w) == Count(a, w) + Count(b, w)
    decreases |a|
  {
    if a == [] {
      assert a + b == b;
    } else {
      CountJoin(a[1..], b, w);
      assert (a + b)[1..] == a[1..] + b;
    }
  }

  lemma CountSnoc(q: seq<nat>, x: nat, w: nat)
    ensures Count(q + [x], w) == Count(q, w) + if x == w then 1 else 0
  {
    CountJoin(q, [x], w);
  }

  lemma CountDrop(q: seq<nat>, i: nat, w: nat)
    requires i < |q|
    ensures Count(q, w) == Count(Drop(q, i), w) + if q[i] == w then 1 else 0
  {
    assert q == q[..i] + ([q[i]] + q[i + 1..]);
    CountJoin(q[..i], [q[i]] + q[i + 1..], w);
    CountJoin([q[i]], q[i + 1..], w);
    CountJoin(q[..i], q[i + 1..], w);
  }

  lemma {:induction false} CountFilter(q: seq<nat>, x: nat, w: nat)
    ensures Count(Without(q, x), w) == if x == w then 0 else Count(q, w)
    ensures Count(Copies(q, x), w) == if x == w then Count(q, w) else 0
    decreases |q|
  {
    if q != [] {
      CountFilter(q[1..], x, w);
      CountJoin(if q[0] == x then [] else [q[0]], Without(q[1..], x), w);
      CountJoin(if q[0] == x then [x] else [], Copies(q[1..], x), w);
    }
  }

  lemma {:induction false} CountMember(q: seq<nat>, w: nat)
    ensures Count(q, w) > 0 <==> w in q
    decreases |q|
  {
    if q != [] {
      CountMember(q[1..], w);
      assert q == [q[0]] + q[1..];
    }
  }

  lemma {:induction false} CountOnce(q: seq<nat>)
    requires forall w :: w in q ==> Count(q, w) <= 1
    ensures NoDup(q)
    decreases |q|
  {
    if q != [] {
      var rest := q[1..];
      assert q == [q[0]] + rest;
      forall w | w in rest ensures Count(rest, w) <= 1 {
        assert w in q;
      }
      CountOnce(rest);
      CountMember(rest, q[0]);
      assert q[0] in q;
    }
  }

  // --- the ledger of one work ---------------------------------------------------------------

  // The work the runner has taken and not run.
  function Taken(r: Runner): seq<nat> {
    match r
    case RPopped(w) => [w]
    case RStored(w) => [w]
    case _ => []
  }

  // Entries waiting to run, wherever they are.
  function Entries(s: State, w: nat): nat {
    Count(Taken(s.runner), w) + Count(s.queue, w) + Count(s.pushing, w)
  }

  // Whether the byte says there is one.
  function Claim(s: State, w: nat): nat {
    if Byte(s, w, Pending) || s.runner == RStored(w) then 1 else 0
  }

  // Every true queue_work is a run, a deleted entry or a waiting entry.  Entries the byte does not
  // claim come from won cancels, and go by deletion or by running over an IDLE byte.  RUNNING is the
  // runner's alone.
  ghost predicate Law(s: State, w: nat) {
    && Count(s.enqueued, w) == Count(s.ran, w) + Count(s.removed, w) + Entries(s, w)
    && Entries(s, w) - Claim(s, w) ==
       Count(s.cancelling, w) + Count(s.cancelled, w) - Count(s.removed, w) - Count(s.overran, w)
    && (Byte(s, w, Running) <==> s.runner == RStored(w) || s.runner == RRan(w))
  }

  ghost predicate Known(s: State) {
    && (forall i :: 0 <= i < |s.queue| ==> s.queue[i] in s.states)
    && (forall i :: 0 <= i < |s.pushing| ==> s.pushing[i] in s.states)
    && (s.runner.RIdle? || s.runner.w in s.states)
  }

  ghost predicate Laws(s: State) {
    Known(s) && forall w :: w in s.states ==> Law(s, w)
  }

  function Init(works: set<nat>): State {
    State(map w | w in works :: Idle, [], [], [], RIdle, [], [], [], [], [], [])
  }

  lemma InitLaws(works: set<nat>)
    ensures Laws(Init(works))
  {
  }

  lemma {:induction false} WithoutKnown(q: seq<nat>, w: nat, known: set<nat>)
    requires forall i :: 0 <= i < |q| ==> q[i] in known
    ensures forall i :: 0 <= i < |Without(q, w)| ==> Without(q, w)[i] in known
    decreases |q|
  {
    if q != [] {
      WithoutKnown(q[1..], w, known);
    }
  }

  lemma NextKnown(s: State, a: Act)
    requires Known(s)
    ensures Known(Next(s, a)) && Next(s, a).states.Keys == s.states.Keys
  {
    hide Without, Copies;
    if a.Retain? && a.i < |s.cancelling| {
      WithoutKnown(s.queue, s.cancelling[a.i], s.states.Keys);
    }
  }

  lemma CasLaw(s: State, x: nat, w: nat)
    requires Law(s, w)
    ensures Law(Next(s, Cas(x)), w)
  {
    hide Count;
    CountSnoc(s.pushing, x, w);
    CountSnoc(s.enqueued, x, w);
  }

  lemma PushBackLaw(s: State, i: nat, w: nat)
    requires Law(s, w)
    ensures Law(Next(s, PushBack(i)), w)
  {
    hide Count, Drop;
    if i < |s.pushing| {
      CountDrop(s.pushing, i, w);
      CountSnoc(s.queue, s.pushing[i], w);
    }
  }

  lemma PopLaw(s: State, w: nat)
    requires Law(s, w) && s.runner.RIdle?
    ensures Law(Next(s, RunnerStep), w)
  {
    if s.queue != [] {
      assert Count([s.queue[0]], w) == if s.queue[0] == w then 1 else 0;
    }
  }

  lemma StoreLaw(s: State, w: nat)
    requires Law(s, w) && s.runner.RPopped? && s.runner.w in s.states
    ensures Law(Next(s, RunnerStep), w)
  {
    CountSnoc(s.overran, s.runner.w, w);
    assert Count([s.runner.w], w) == if s.runner.w == w then 1 else 0;
    hide Count;
    assert s.overran + [] == s.overran;
  }

  lemma BodyLaw(s: State, w: nat)
    requires Law(s, w) && s.runner.RStored?
    ensures Law(Next(s, RunnerStep), w)
  {
    CountSnoc(s.ran, s.runner.w, w);
    assert Count([s.runner.w], w) == if s.runner.w == w then 1 else 0;
  }

  lemma FinishLaw(s: State, w: nat)
    requires Law(s, w) && s.runner.RRan?
    ensures Law(Next(s, RunnerStep), w)
  {
  }

  lemma RunnerLaw(s: State, w: nat)
    requires Known(s) && Law(s, w)
    ensures Law(Next(s, RunnerStep), w)
  {
    hide Law, Next;
    if s.runner.RIdle? {
      PopLaw(s, w);
    } else if s.runner.RPopped? {
      StoreLaw(s, w);
    } else if s.runner.RStored? {
      BodyLaw(s, w);
    } else {
      FinishLaw(s, w);
    }
  }

  lemma CancelCasLaw(s: State, x: nat, w: nat)
    requires Law(s, w)
    ensures Law(Next(s, CancelCas(x)), w)
  {
    hide Count;
    CountSnoc(s.cancelling, x, w);
  }

  lemma RetainLaw(s: State, i: nat, w: nat)
    requires Law(s, w)
    ensures Law(Next(s, Retain(i)), w)
  {
    hide Count, Drop, Without, Copies;
    if i < |s.cancelling| {
      var x := s.cancelling[i];
      CountDrop(s.cancelling, i, w);
      CountSnoc(s.cancelled, x, w);
      CountFilter(s.queue, x, w);
      CountJoin(s.removed, Copies(s.queue, x), w);
    }
  }

  lemma NextLaw(s: State, a: Act, w: nat)
    requires Known(s) && Law(s, w)
    ensures Law(Next(s, a), w)
  {
    hide Law, Known, Next;
    match a
    case Cas(x) => CasLaw(s, x, w);
    case PushBack(i) => PushBackLaw(s, i, w);
    case RunnerStep => RunnerLaw(s, w);
    case CancelCas(x) => CancelCasLaw(s, x, w);
    case Retain(i) => RetainLaw(s, i, w);
  }

  lemma NextLaws(s: State, a: Act)
    requires Laws(s)
    ensures Laws(Next(s, a))
  {
    hide Law, Known, Next;
    NextKnown(s, a);
    forall w | w in Next(s, a).states ensures Law(Next(s, a), w) {
      assert w in s.states.Keys;
      NextLaw(s, a, w);
    }
  }

  // --- whole runs -------------------------------------------------------------------------

  function Run(s: State, acts: seq<Act>): State
    decreases |acts|
  {
    if acts == [] then s else Run(Next(s, acts[0]), acts[1..])
  }

  lemma {:induction false} RunLaws(s: State, acts: seq<Act>)
    requires Laws(s)
    ensures Laws(Run(s, acts))
    decreases |acts|
  {
    if acts != [] {
      NextLaws(s, acts[0]);
      RunLaws(Next(s, acts[0]), acts[1..]);
    }
  }

  // What callers are promised of a work with no cancel in flight: the byte claims exactly the entry
  // there is, and every true queue_work is one run, one true cancel or one waiting entry.
  ghost predicate Sound(s: State, w: nat) {
    && Count(s.cancelling, w) == 0
    && Entries(s, w) == Claim(s, w)
    && Count(s.enqueued, w) == Count(s.ran, w) + Count(s.cancelled, w) + Entries(s, w)
  }

  // Under every interleaving of single accesses the ledger holds; so with no cancel in flight a work
  // is sound if and only if its cancels deleted one entry each on balance and the runner never ran
  // it over an IDLE byte.
  lemma EveryInterleaving(works: set<nat>, acts: seq<Act>, w: nat)
    requires w in works
    ensures var s := Run(Init(works), acts);
      && w in s.states && Law(s, w)
      && (Count(s.cancelling, w) == 0 ==>
            (Sound(s, w) <==> Count(s.removed, w) == Count(s.cancelled, w) && Count(s.overran, w) == 0))
  {
    InitLaws(works);
    RunLaws(Init(works), acts);
    RunKeys(Init(works), acts);
  }

  lemma {:induction false} RunKeys(s: State, acts: seq<Act>)
    requires Known(s)
    ensures Known(Run(s, acts)) && Run(s, acts).states.Keys == s.states.Keys
    decreases |acts|
  {
    hide Known, Next;
    if acts != [] {
      NextKnown(s, acts[0]);
      RunKeys(Next(s, acts[0]), acts[1..]);
    }
  }

  lemma SoundIff(s: State, w: nat)
    requires Law(s, w) && Count(s.cancelling, w) == 0
    ensures Sound(s, w) <==> Count(s.removed, w) == Count(s.cancelled, w) && Count(s.overran, w) == 0
  {
  }

  // --- first in, first out --------------------------------------------------------------------

  // a picks the elements of b at the positions idx, in order.
  ghost predicate IsSub(a: seq<nat>, b: seq<nat>, idx: seq<nat>) {
    && |idx| == |a|
    && (forall i :: 0 <= i < |idx| ==> idx[i] < |b| && b[idx[i]] == a[i])
    && (forall i, j :: 0 <= i < j < |idx| ==> idx[i] < idx[j])
  }

  // What has been run, what the runner has taken and what is queued, in that order.
  function History(s: State): seq<nat> {
    s.ran + Taken(s.runner) + s.queue
  }

  lemma SubSnoc(a: seq<nat>, b: seq<nat>, idx: seq<nat>, x: nat)
    requires IsSub(a, b, idx)
    ensures IsSub(a + [x], b + [x], idx + [|b|])
  {
  }

  lemma SubDrop(a: seq<nat>, b: seq<nat>, idx: seq<nat>, i: nat)
    requires IsSub(a, b, idx) && i < |a|
    ensures IsSub(Drop(a, i), b, Drop(idx, i))
  {
    var a', idx' := Drop(a, i), Drop(idx, i);
    assert forall k :: 0 <= k < |idx'| ==>
      idx'[k] == (if k < i then idx[k] else idx[k + 1]) && a'[k] == (if k < i then a[k] else a[k + 1]);
  }

  lemma {:induction false} SubWithout(done: seq<nat>, q: seq<nat>, w: nat, b: seq<nat>, idx: seq<nat>)
    returns (idx': seq<nat>)
    requires IsSub(done + q, b, idx)
    ensures IsSub(done + Without(q, w), b, idx')
    decreases |q|
  {
    assert |idx| == |done + q|;
    hide IsSub;
    if q == [] {
      idx' := idx;
    } else if q[0] == w {
      SubDrop(done + q, b, idx, |done|);
      assert Drop(done + q, |done|) == done + q[1..];
      idx' := SubWithout(done, q[1..], w, b, Drop(idx, |done|));
      assert Without(q, w) == Without(q[1..], w);
    } else {
      assert done + q == done + [q[0]] + q[1..];
      idx' := SubWithout(done + [q[0]], q[1..], w, b, idx);
      assert done + [q[0]] + Without(q[1..], w) == done + Without(q, w);
    }
  }

  lemma OrderStep(s: State, a: Act, idx: seq<nat>) returns (idx': seq<nat>)
    requires IsSub(History(s), s.pushed, idx)
    ensures IsSub(History(Next(s, a)), Next(s, a).pushed, idx')
  {
    hide IsSub, Without, Copies, Drop;
    idx' := idx;
    var s' := Next(s, a);
    match a
    case Cas(w) =>
    case PushBack(i) =>
      if i < |s.pushing| {
        SubSnoc(History(s), s.pushed, idx, s.pushing[i]);
        assert History(s') == History(s) + [s.pushing[i]];
        idx' := idx + [|s.pushed|];
      }
    case RunnerStep =>
      assert History(s') == History(s);
    case CancelCas(w) =>
    case Retain(i) =>
      if i < |s.cancelling| {
        idx' := SubWithout(s.ran + Taken(s.runner), s.queue, s.cancelling[i], s.pushed, idx);
      }
  }

  lemma {:induction false} OrderRun(s: State, acts: seq<Act>, idx: seq<nat>) returns (idx': seq<nat>)
    requires IsSub(History(s), s.pushed, idx)
    ensures IsSub(History(Run(s, acts)), Run(s, acts).pushed, idx')
    decreases |acts|
  {
    hide IsSub, Next;
    idx' := idx;
    if acts != [] {
      idx' := OrderStep(s, acts[0], idx);
      idx' := OrderRun(Next(s, acts[0]), acts[1..], idx');
    }
  }

  // Leaving out the works of c.
  function Only(q: seq<nat>, c: set<nat>): seq<nat> {
    if q == [] then [] else (if q[0] in c then [] else [q[0]]) + Only(q[1..], c)
  }

  lemma {:induction false} OnlyJoin(a: seq<nat>, b: seq<nat>, c: set<nat>)
    ensures Only(a + b, c) == Only(a, c) + Only(b, c)
    decreases |a|
  {
    if a == [] {
      assert a + b == b;
    } else {
      OnlyJoin(a[1..], b, c);
      assert (a + b)[1..] == a[1..] + b;
    }
  }

  lemma {:induction false} OnlyWithout(q: seq<nat>, w: nat, c: set<nat>)
    requires w in c
    ensures Only(Without(q, w), c) == Only(q, c)
    decreases |q|
  {
    if q != [] {
      OnlyWithout(q[1..], w, c);
      OnlyJoin(if q[0] == w then [] else [q[0]], Without(q[1..], w), c);
    }
  }

  lemma {:induction false} OnlyNone(q: seq<nat>)
    ensures Only(q, {}) == q
    decreases |q|
  {
    if q != [] {
      OnlyNone(q[1..]);
      assert q == [q[0]] + q[1..];
    }
  }

  lemma OthersStep(s: State, a: Act, c: set<nat>)
    requires Only(History(s), c) == Only(s.pushed, c)
    requires forall w :: w in Next(s, a).cancelled ==> w in c
    ensures Only(History(Next(s, a)), c) == Only(Next(s, a).pushed, c)
    ensures forall w :: w in s.cancelled ==> w in c
  {
    hide Without, Copies, Drop, Only;
    var s' := Next(s, a);
    match a
    case Cas(w) =>
    case PushBack(i) =>
      if i < |s.pushing| {
        var x := s.pushing[i];
        assert History(s') == History(s) + [x];
        OnlyJoin(History(s), [x], c);
        OnlyJoin(s.pushed, [x], c);
      }
    case RunnerStep =>
      assert History(s') == History(s);
    case CancelCas(w) =>
    case Retain(i) =>
      if i < |s.cancelling| {
        var w, done := s.cancelling[i], s.ran + Taken(s.runner);
        assert s'.cancelled[|s.cancelled|] == w;
        OnlyWithout(s.queue, w, c);
        OnlyJoin(done, s.queue, c);
        OnlyJoin(done, Without(s.queue, w), c);
      }
      forall w | w in s.cancelled ensures w in c {
        assert w in s'.cancelled;
      }
  }

  lemma {:induction false} CancelledGrows(s: State, acts: seq<Act>)
    ensures forall w :: w in s.cancelled ==> w in Run(s, acts).cancelled
    decreases |acts|
  {
    if acts != [] {
      CancelledGrows(Next(s, acts[0]), acts[1..]);
    }
  }

  lemma {:induction false} OthersRun(s: State, acts: seq<Act>, c: set<nat>)
    requires Only(History(s), c) == Only(s.pushed, c)
    requires forall w :: w in Run(s, acts).cancelled ==> w in c
    ensures Only(History(Run(s, acts)), c) == Only(Run(s, acts).pushed, c)
    decreases |acts|
  {
    hide Next, Only, History;
    if acts != [] {
      CancelledGrows(Next(s, acts[0]), acts[1..]);
      OthersStep(s, acts[0], c);
      OthersRun(Next(s, acts[0]), acts[1..], c);
    }
  }

  // In every interleaving works are run in the order they were pushed: what has run, is taken and is queued
  // is, in that order, a subsequence of what was pushed.
  lemma FirstInFirstOut(works: set<nat>, acts: seq<Act>) returns (idx: seq<nat>)
    ensures var s := Run(Init(works), acts); IsSub(s.ran + Taken(s.runner) + s.queue, s.pushed, idx)
  {
    idx := OrderRun(Init(works), acts, []);
  }

  // And for the works nobody has cancelled it is all of what was pushed; with no cancel at all, the pushes
  // themselves.
  lemma NothingOvertakes(works: set<nat>, acts: seq<Act>, c: set<nat>)
    requires forall w :: w in Run(Init(works), acts).cancelled ==> w in c
    ensures var s := Run(Init(works), acts);
      && Only(s.ran + Taken(s.runner) + s.queue, c) == Only(s.pushed, c)
      && (s.cancelled == [] ==> s.ran + Taken(s.runner) + s.queue == s.pushed)
  {
    OthersRun(Init(works), acts, c);
    var s := Run(Init(works), acts);
    if s.cancelled == [] {
      OthersRun(Init(works), acts, {});
      OnlyNone(s.ran + Taken(s.runner) + s.queue);
      OnlyNone(s.pushed);
    }
  }

  // --- a cancel and what happens inside it --------------------------------------------------

  // No other cancel of w wins its exchange or filters the queue.
  predicate NoCancel(s: State, acts: seq<Act>, w: nat)
    decreases |acts|
  {
    acts == [] || (!Cancels(s, acts[0], w) && NoCancel(Next(s, acts[0]), acts[1..], w))
  }

  predicate Cancels(s: State, a: Act, w: nat) {
    a == CancelCas(w) || (a.Retain? && a.i < |s.cancelling| && s.cancelling[a.i] == w)
  }

  // How often w is popped, wins a queue_work, is pushed.
  function Pops(s: State, acts: seq<Act>, w: nat): nat
    decreases |acts|
  {
    if acts == [] then 0
    else
      (if acts[0].RunnerStep? && s.runner.RIdle? && s.queue != [] && s.queue[0] == w then 1 else 0)
      + Pops(Next(s, acts[0]), acts[1..], w)
  }

  function Wins(s: State, acts: seq<Act>, w: nat): nat
    decreases |acts|
  {
    if acts == [] then 0
    else (if acts[0] == Cas(w) && Byte(s, w, Idle) then 1 else 0) + Wins(Next(s, acts[0]), acts[1..], w)
  }

  function Pushes(s: State, acts: seq<Act>, w: nat): nat
    decreases |acts|
  {
    if acts == [] then 0
    else
      (if acts[0].PushBack? && acts[0].i < |s.pushing| && s.pushing[acts[0].i] == w then 1 else 0)
      + Pushes(Next(s, acts[0]), acts[1..], w)
  }

  // One step inside the window, seen from w.
  lemma StepInside(s: State, a: Act, w: nat)
    requires !Cancels(s, a, w)
    ensures var s' := Next(s, a);
      && Count(s'.cancelling, w) == Count(s.cancelling, w)
      && Count(s'.cancelled, w) == Count(s.cancelled, w) && Count(s'.removed, w) == Count(s.removed, w)
      && Count(s'.queue, w) == Count(s.queue, w) + Pushes(s, [a], w) - Pops(s, [a], w)
      && Count(s'.pushing, w) == Count(s.pushing, w) + Wins(s, [a], w) - Pushes(s, [a], w)
  {
    hide Drop, Without, Copies;
    assert Pushes(Next(s, a), [], w) == Pops(Next(s, a), [], w) == Wins(Next(s, a), [], w) == 0;
    match a
    case Cas(x) => CountSnoc(s.pushing, x, w);
    case PushBack(i) =>
      if i < |s.pushing| {
        CountDrop(s.pushing, i, w);
        CountSnoc(s.queue, s.pushing[i], w);
      }
    case RunnerStep =>
    case CancelCas(x) => CountSnoc(s.cancelling, x, w);
    case Retain(i) =>
      if i < |s.cancelling| {
        var x := s.cancelling[i];
        CountDrop(s.cancelling, i, w);
        CountSnoc(s.cancelled, x, w);
        CountFilter(s.queue, x, w);
        CountJoin(s.removed, Copies(s.queue, x), w);
      }
  }

  lemma {:induction false} RunInside(s: State, acts: seq<Act>, w: nat)
    requires NoCancel(s, acts, w)
    ensures var s' := Run(s, acts);
      && Count(s'.cancelling, w) == Count(s.cancelling, w)
      && Count(s'.cancelled, w) == Count(s.cancelled, w) && Count(s'.removed, w) == Count(s.removed, w)
      && Count(s'.queue, w) == Count(s.queue, w) + Pushes(s, acts, w) - Pops(s, acts, w)
      && Count(s'.pushing, w) == Count(s.pushing, w) + Wins(s, acts, w) - Pushes(s, acts, w)
    decreases |acts|
  {
    hide Count, Next;
    if acts != [] {
      StepInside(s, acts[0], w);
      assert [acts[0]][1..] == [];
      RunInside(Next(s, acts[0]), acts[1..], w);
    }
  }

  // Without a pop of w the runner cannot run it over.
  lemma {:induction false} NotRunOver(s: State, acts: seq<Act>, w: nat)
    requires s.runner != RPopped(w) && Pops(s, acts, w) == 0
    ensures Count(Run(s, acts).overran, w) == Count(s.overran, w)
    decreases |acts|
  {
    hide Count;
    if acts != [] {
      if acts[0].RunnerStep? && s.runner.RPopped? {
        CountSnoc(s.overran, s.runner.w, w);
        assert s.overran + [] == s.overran;
      }
      NotRunOver(Next(s, acts[0]), acts[1..], w);
    }
  }

  // `cancel_work(w)` whose exchange wins on a sound work, anything but another cancel of w, then its
  // filtering: the result is sound if and only if the filter finds exactly one entry and the runner
  // did not in between store RUNNING over the IDLE byte.
  lemma CancelSoundIff(s: State, w: nat, inside: seq<Act>, i: nat)
    requires Laws(s) && Sound(s, w) && Byte(s, w, Pending)
    requires var s1 := Next(s, CancelCas(w));
      NoCancel(s1, inside, w) && i < |Run(s1, inside).cancelling| && Run(s1, inside).cancelling[i] == w
    ensures var s2 := Run(Next(s, CancelCas(w)), inside);
      Sound(Next(s2, Retain(i)), w) <==> Count(s2.queue, w) == 1 && Count(s2.overran, w) == Count(s.overran, w)
  {
    hide Count, Known, Law, Next, Sound;
    var s1 := Next(s, CancelCas(w));
    var s2 := Run(s1, inside);
    NextLaws(s, CancelCas(w));
    RunLaws(s1, inside);
    RunKeys(s1, inside);
    NextKnown(s, CancelCas(w));
    assert w in s.states.Keys && w in s2.states.Keys;
    NextLaw(s2, Retain(i), w);
    RunInside(s1, inside, w);
    Exchanged(s, w);
    Filtered(s2, i, w);
    CountsOfSound(s, w);
    SoundIff(Next(s2, Retain(i)), w);
  }

  lemma CountsOfSound(s: State, w: nat)
    requires Law(s, w) && Sound(s, w)
    ensures Count(s.cancelling, w) == 0 && Count(s.removed, w) == Count(s.cancelled, w) && Count(s.overran, w) == 0
  {
  }

  lemma Exchanged(s: State, w: nat)
    requires Byte(s, w, Pending)
    ensures var s1 := Next(s, CancelCas(w));
      && Count(s1.cancelling, w) == Count(s.cancelling, w) + 1 && s1.cancelled == s.cancelled
      && s1.removed == s.removed && s1.overran == s.overran && s1.queue == s.queue && s1.pushing == s.pushing
      && s1.runner == s.runner
  {
    CountSnoc(s.cancelling, w, w);
  }

  lemma Filtered(s: State, i: nat, w: nat)
    requires i < |s.cancelling| && s.cancelling[i] == w
    ensures var s' := Next(s, Retain(i));
      && Count(s'.cancelling, w) == Count(s.cancelling, w) - 1
      && Count(s'.cancelled, w) == Count(s.cancelled, w) + 1
      && Count(s'.removed, w) == Count(s.removed, w) + Count(s.queue, w) && s'.overran == s.overran
  {
    hide Drop, Without, Copies;
    CountDrop(s.cancelling, i, w);
    CountSnoc(s.cancelled, w, w);
    CountFilter(s.queue, w, w);
    CountJoin(s.removed, Copies(s.queue, w), w);
  }

  // For a work that was in the queue, in terms of what others did to it meanwhile: with no win of the
  // exchange, sound iff it was not popped; with no pop, sound iff no new entry was pushed; with
  // neither, sound.
  lemma CancelWindow(s: State, w: nat, inside: seq<Act>, i: nat)
    requires Laws(s) && Sound(s, w) && w in s.queue
    requires var s1 := Next(s, CancelCas(w));
      NoCancel(s1, inside, w) && i < |Run(s1, inside).cancelling| && Run(s1, inside).cancelling[i] == w
    ensures var s1 := Next(s, CancelCas(w));
      var sound := Sound(Next(Run(s1, inside), Retain(i)), w);
      && Byte(s, w, Pending)
      && (Wins(s1, inside, w) == 0 ==> (sound <==> Pops(s1, inside, w) == 0))
      && (Pops(s1, inside, w) == 0 ==> (sound <==> Pushes(s1, inside, w) == 0))
  {
    hide Laws, Sound, Next;
    QueuedOnce(s, w);
    var s1 := Next(s, CancelCas(w));
    Exchanged(s, w);
    RunInside(s1, inside, w);
    CancelSoundIff(s, w, inside, i);
    if Pops(s1, inside, w) == 0 {
      NotRunOver(s1, inside, w);
    }
  }

  lemma QueuedOnce(s: State, w: nat)
    requires Laws(s) && Sound(s, w) && w in s.queue
    ensures Byte(s, w, Pending) && Count(s.queue, w) == 1 && Count(s.pushing, w) == 0
    ensures s.runner != RPopped(w)
  {
    CountMember(s.queue, w);
    assert Law(s, w);
    assert s.runner == RPopped(w) || s.runner == RStored(w) ==> Count(Taken(s.runner), w) == 1;
  }

  // --- the failing runs -------------------------------------------------------------------

  lemma RunCons(s: State, a: Act, rest: seq<Act>)
    ensures Run(s, [a] + rest) == Run(Next(s, a), rest)
  {
    assert ([a] + rest)[1..] == rest;
  }

  // A run of five accesses, spelled out.
  lemma RunFive(s: State, a: Act, b: Act, c: Act, d: Act, e: Act)
    ensures Run(s, [a, b, c, d, e]) == Next(Next(Next(Next(Next(s, a), b), c), d), e)
  {
    hide Next, Run;
    assert [a, b, c, d, e] == [a] + [b, c, d, e];
    RunCons(s, a, [b, c, d, e]);
    assert [b, c, d, e] == [b] + [c, d, e];
    RunCons(Next(s, a), b, [c, d, e]);
    assert [c, d, e] == [c] + [d, e];
    RunCons(Next(Next(s, a), b), c, [d, e]);
    assert [d, e] == [d] + [e];
    RunCons(Next(Next(Next(s, a), b), c), d, [e]);
    assert [e] == [e] + [];
    RunCons(Next(Next(Next(Next(s, a), b), c), d), e, []);
    RunNone(Next(Next(Next(Next(Next(s, a), b), c), d), e));
  }

  lemma RunNone(s: State)
    ensures Run(s, []) == s
  {
  }

  // The runner takes and runs the work inside the cancel: it is cancelled with success and has run.
  lemma CancelledButRan(s: State, w: nat)
    requires Laws(s) && Sound(s, w) && s.queue != [] && s.queue[0] == w && s.runner.RIdle? && s.cancelling == []
    ensures var f := Run(s, [CancelCas(w), RunnerStep, RunnerStep, RunnerStep, Retain(0)]);
      && f.ran == s.ran + [w] && f.cancelled == s.cancelled + [w] && f.enqueued == s.enqueued
      && !Sound(f, w)
  {
    hide Without, Copies, Laws, Run;
    QueuedOnce(s, w);
    RunFive(s, CancelCas(w), RunnerStep, RunnerStep, RunnerStep, Retain(0));
    CountSnoc(s.ran, w, w);
    CountSnoc(s.cancelled, w, w);
    assert Entries(s, w) == 1;
  }

  // Popped before the exchange, the work is out of the cancel's reach.
  lemma CancelledStillRuns(s: State, w: nat)
    requires Laws(s) && Sound(s, w) && s.runner == RPopped(w) && s.cancelling == []
    ensures Byte(s, w, Pending)
    ensures var f := Run(s, [CancelCas(w), Retain(0), RunnerStep, RunnerStep, RunnerStep]);
      f.ran == s.ran + [w] && f.cancelled == s.cancelled + [w] && f.enqueued == s.enqueued && !Sound(f, w)
  {
    hide Without, Copies, Run;
    assert Count([w], w) == 1;
    assert Law(s, w);
    RunFive(s, CancelCas(w), Retain(0), RunnerStep, RunnerStep, RunnerStep);
    CountSnoc(s.ran, w, w);
    CountSnoc(s.cancelled, w, w);
  }

  // Another caller queues the work again inside the cancel, and the filter deletes its entry too:
  // the byte says PENDING and there is no entry.
  lemma RequeuedAndLost(s: State, w: nat)
    requires Laws(s) && Sound(s, w) && w in s.queue && s.pushing == [] && s.cancelling == []
    ensures var f := Next(Next(Next(Next(s, CancelCas(w)), Cas(w)), PushBack(0)), Retain(0));
      Stuck(f, w) && f.enqueued == s.enqueued + [w] && f.cancelled == s.cancelled + [w] && !Sound(f, w)
  {
    hide Without, Copies, Laws, Run, Count;
    QueuedOnce(s, w);
    var s4 := Next(Next(Next(Next(s, CancelCas(w)), Cas(w)), PushBack(0)), Retain(0));
    assert Drop([w], 0) == [];
    assert s4.queue == Without(s.queue + [w], w);
    CountFilter(s.queue + [w], w, w);
    NothingLeft(s, s4, w);
  }

  lemma NothingLeft(s: State, s4: State, w: nat)
    requires Laws(s) && Sound(s, w) && Count(s.queue, w) == 1 && w in s.states
    requires s4.runner == s.runner && Byte(s4, w, Pending) && Count(s4.queue, w) == 0 && s4.pushing == []
    requires s4.cancelling == []
    ensures Stuck(s4, w)
  {
    assert Law(s, w);
  }

  // PENDING, and waiting nowhere.
  ghost predicate Stuck(s: State, w: nat) {
    Byte(s, w, Pending) && Entries(s, w) == 0 && Count(s.cancelling, w) == 0 && s.runner != RRan(w)
  }

  lemma StuckStep(s: State, a: Act, w: nat)
    requires Stuck(s, w) && a != CancelCas(w)
    ensures Stuck(Next(s, a), w) && Count(Next(s, a).ran, w) == Count(s.ran, w)
  {
    hide Drop, Without, Copies;
    match a
    case Cas(x) => CountSnoc(s.pushing, x, w);
    case PushBack(i) =>
      if i < |s.pushing| {
        CountDrop(s.pushing, i, w);
        CountSnoc(s.queue, s.pushing[i], w);
      }
    case RunnerStep =>
      if s.runner.RStored? {
        CountSnoc(s.ran, s.runner.w, w);
        assert Count([s.runner.w], w) == if s.runner.w == w then 1 else 0;
      } else if s.runner.RIdle? && s.queue != [] {
        assert Count([s.queue[0]], w) == if s.queue[0] == w then 1 else 0;
      }
    case CancelCas(x) => CountSnoc(s.cancelling, x, w);
    case Retain(i) =>
      if i < |s.cancelling| {
        CountDrop(s.cancelling, i, w);
        CountFilter(s.queue, s.cancelling[i], w);
      }
  }

  // Until somebody cancels it, stuck work never runs and queue_work always refuses it.
  lemma {:induction false} StuckForever(s: State, acts: seq<Act>, w: nat)
    requires Stuck(s, w) && CancelCas(w) !in acts
    ensures Stuck(Run(s, acts), w) && Count(Run(s, acts).ran, w) == Count(s.ran, w)
    ensures Next(Run(s, acts), Cas(w)) == Run(s, acts)
    decreases |acts|
  {
    hide Stuck, Count;
    if acts != [] {
      assert acts[0] in acts && forall a :: a in acts[1..] ==> a in acts;
      StuckStep(s, acts[0], w);
      StuckForever(Next(s, acts[0]), acts[1..], w);
    } else {
      StuckRefused(s, w);
    }
  }

  lemma StuckRefused(s: State, w: nat)
    requires Stuck(s, w)
    ensures Next(s, Cas(w)) == s
  {
  }

  // A pop and a new win inside one cancel can make up for each other: the conditions of CancelWindow
  // do not extend to a window with both.
  lemma PopAndRequeueBalance(s: State, w: nat)
    requires Laws(s) && Sound(s, w) && s.queue == [w] && s.runner.RIdle? && s.pushing == [] && s.cancelling == []
    ensures Sound(Run(s, [CancelCas(w), RunnerStep, Cas(w), PushBack(0), Retain(0)]), w)
  {
    hide Laws, Run;
    QueuedOnce(s, w);
    RunFive(s, CancelCas(w), RunnerStep, Cas(w), PushBack(0), Retain(0));
    CountSnoc(s.enqueued, w, w);
    CountSnoc(s.cancelled, w, w);
    assert Drop([w], 0) == [] && s.queue[1..] == [] && Without([w], w) == [];
    var f := Next(Next(Next(Next(Next(s, CancelCas(w)), RunnerStep), Cas(w)), PushBack(0)), Retain(0));
    assert f.runner == RPopped(w) && f.queue == [] && f.pushing == [] && f.cancelling == [] && Byte(f, w, Pending);
    assert Count([w], w) == 1;
  }

  // A body that queues its own work is refused: the byte is RUNNING from before the body to after it.
  lemma RequeueFromBodyRefused(s: State)
    requires Laws(s) && (s.runner.RStored? || s.runner.RRan?)
    ensures Next(s, Cas(s.runner.w)) == s && Next(s, CancelCas(s.runner.w)) == s
  {
    assert Law(s, s.runner.w);
  }

  // --- cancel_work_sync ---------------------------------------------------------------------

  // Its result, from whether its cancel_work won and what its last load of the byte sees.
  function SyncResult(won: bool, last: WorkState): bool {
    won || last != Idle
  }

  // The runner is at the work's body, or through with it; nothing else is waiting.
  ghost predicate Finishing(s: State, w: nat) {
    && Count(s.queue, w) == 0 && Count(s.pushing, w) == 0
    && (|| ((s.runner == RStored(w) || s.runner == RRan(w)) && Byte(s, w, Running))
        || ((s.runner.RIdle? || s.runner.w != w) && Byte(s, w, Idle)))
  }

  lemma FinishingStep(s: State, a: Act, w: nat)
    requires Finishing(s, w) && !(a == Cas(w) && Byte(s, w, Idle))
    ensures Finishing(Next(s, a), w)
  {
    hide Drop, Without, Copies;
    match a
    case Cas(x) => CountSnoc(s.pushing, x, w);
    case PushBack(i) =>
      if i < |s.pushing| {
        CountDrop(s.pushing, i, w);
        CountSnoc(s.queue, s.pushing[i], w);
      }
    case RunnerStep =>
    case CancelCas(x) =>
    case Retain(i) =>
      if i < |s.cancelling| {
        CountFilter(s.queue, s.cancelling[i], w);
      }
  }

  lemma {:induction false} FinishingRun(s: State, acts: seq<Act>, w: nat)
    requires Finishing(s, w) && Wins(s, acts, w) == 0
    ensures Finishing(Run(s, acts), w)
    decreases |acts|
  {
    hide Finishing, Next, Count;
    if acts != [] {
      FinishingStep(s, acts[0], w);
      FinishingRun(Next(s, acts[0]), acts[1..], w);
    }
  }

  // In every state: the byte is not IDLE exactly when the runner is between the body and its IDLE store, or
  // more has been queued than run and cancelled, not counting runs over an IDLE byte.
  lemma ByteIff(s: State, w: nat)
    requires Law(s, w) && w in s.states
    ensures s.states[w] != Idle <==>
      || s.runner == RRan(w)
      || Count(s.enqueued, w) + Count(s.overran, w) >
         Count(s.ran, w) + Count(s.cancelled, w) + Count(s.cancelling, w)
  {
  }

  // So in every run and whatever is cancelled, its result is true if and only if its own exchange won, or
  // at its last load the runner is at such a point, or there is such an excess.
  lemma SyncIff(works: set<nat>, acts: seq<Act>, w: nat, won: bool)
    requires w in works
    ensures var s := Run(Init(works), acts);
      && w in s.states
      && (SyncResult(won, s.states[w]) <==>
            || won
            || s.runner == RRan(w)
            || Count(s.enqueued, w) + Count(s.overran, w) >
               Count(s.ran, w) + Count(s.cancelled, w) + Count(s.cancelling, w))
  {
    hide Law;
    EveryInterleaving(works, acts, w);
    ByteIff(Run(Init(works), acts), w);
  }

  // Called while the body runs, it loses its exchange and waits; unless somebody queues the work again
  // before its last load, it then reports that there was nothing to wait for.
  lemma SyncMissesRunning(s: State, w: nat, acts: seq<Act>)
    requires Laws(s) && Sound(s, w) && (s.runner == RStored(w) || s.runner == RRan(w))
    requires Wins(s, acts, w) == 0 && !Byte(Run(s, acts), w, Running)
    ensures Next(s, CancelCas(w)) == s
    ensures Byte(Run(s, acts), w, Idle) && !SyncResult(false, Run(s, acts).states[w])
  {
    hide Run, Wins;
    assert Law(s, w);
    assert s.runner == RStored(w) ==> Count(Taken(s.runner), w) == 1;
    FinishingRun(s, acts, w);
  }

  // --- works nobody cancels, and quiet moments ----------------------------------------------

  lemma UncancelledStep(s: State, a: Act, w: nat)
    requires Known(s) && Law(s, w) && Sound(s, w) && Count(s.cancelled, w) == 0 && a != CancelCas(w)
    ensures Sound(Next(s, a), w) && Count(Next(s, a).cancelled, w) == 0
  {
    hide Law, Next;
    CountsOfSound(s, w);
    NextLaw(s, a, w);
    NotCancelling(s, a, w);
    StepInside(s, a, w);
    if s.runner == RPopped(w) {
      PoppedIsPending(s, w);
    }
    OverranStep(s, a, w);
    SoundIff(Next(s, a), w);
  }

  lemma NotCancelling(s: State, a: Act, w: nat)
    requires Count(s.cancelling, w) == 0 && a != CancelCas(w)
    ensures !Cancels(s, a, w)
  {
    CountMember(s.cancelling, w);
  }

  lemma PoppedIsPending(s: State, w: nat)
    requires Law(s, w) && Sound(s, w) && s.runner == RPopped(w)
    ensures Byte(s, w, Pending)
  {
    assert Count([w], w) == 1;
  }

  lemma OverranStep(s: State, a: Act, w: nat)
    requires s.runner == RPopped(w) ==> Byte(s, w, Pending)
    ensures Count(Next(s, a).overran, w) == Count(s.overran, w)
  {
    hide Count;
    if a.RunnerStep? && s.runner.RPopped? {
      CountSnoc(s.overran, s.runner.w, w);
      assert s.overran + [] == s.overran;
    }
  }

  lemma {:induction false} UncancelledRun(s: State, acts: seq<Act>, w: nat)
    requires Laws(s) && w in s.states && Sound(s, w) && Count(s.cancelled, w) == 0 && CancelCas(w) !in acts
    ensures Sound(Run(s, acts), w) && Count(Run(s, acts).cancelled, w) == 0
    decreases |acts|
  {
    hide Law, Known, Next, Sound, Count;
    if acts != [] {
      assert acts[0] in acts && forall a :: a in acts[1..] ==> a in acts;
      UncancelledStep(s, acts[0], w);
      NextLaws(s, acts[0]);
      NextKnown(s, acts[0]);
      assert w in s.states.Keys;
      UncancelledRun(Next(s, acts[0]), acts[1..], w);
    }
  }

  // A work nobody cancels is sound under every interleaving, whatever is done to the others: each true
  // queue_work is one run or the one waiting entry.
  lemma NeverCancelled(works: set<nat>, acts: seq<Act>, w: nat)
    requires w in works && CancelCas(w) !in acts
    ensures var s := Run(Init(works), acts);
      Sound(s, w) && Count(s.enqueued, w) == Count(s.ran, w) + Entries(s, w) && Entries(s, w) <= 1
  {
    InitLaws(works);
    UncancelledRun(Init(works), acts, w);
  }

  ghost predicate AllSound(s: State) {
    Laws(s) && forall w :: w in s.states ==> Sound(s, w)
  }

  // When every work is sound the queue holds no work twice, and only pending ones.
  lemma SoundQueue(s: State)
    requires AllSound(s)
    ensures NoDup(s.queue) && forall w :: w in s.queue ==> Byte(s, w, Pending)
  {
    hide Count;
    forall w | w in s.queue ensures Byte(s, w, Pending) && Count(s.queue, w) <= 1 {
      assert w in s.states;
      QueuedOnce(s, w);
    }
    CountOnce(s.queue);
  }

  // Between operations a sound work is in the queue exactly when its byte says PENDING.
  lemma QuiescentQueue(s: State, w: nat)
    requires Laws(s) && Sound(s, w) && w in s.states && s.pushing == [] && s.runner == RIdle
    ensures Byte(s, w, Pending) <==> w in s.queue
    ensures Byte(s, w, Pending) ==> Count(s.queue, w) == 1
    ensures !Byte(s, w, Running)
  {
    CountMember(s.queue, w);
    assert Law(s, w);
  }

  // --- the code, one whole operation at a time ----------------------------------------------

  // A whole queue_work, drain_one or undisturbed cancel_work keeps every other work as it was.
  lemma WholeSound(s: State, s': State, w: nat)
    requires Laws(s) && Laws(s') && w in s.states && w in s'.states && Sound(s, w)
    requires Count(s'.cancelling, w) == 0 && Count(s'.overran, w) == Count(s.overran, w)
    requires Count(s'.removed, w) - Count(s.removed, w) == Count(s'.cancelled, w) - Count(s.cancelled, w)
    ensures Sound(s', w)
  {
    assert Law(s, w) && Law(s', w);
    SoundIff(s, w);
    SoundIff(s', w);
  }

  ghost function Queued(s: State, w: nat): State {
    Next(Next(s, Cas(w)), PushBack(0))
  }

  ghost function Cancelled(s: State, w: nat): State {
    Next(Next(s, CancelCas(w)), Retain(0))
  }

  ghost function Drained(s: State): State {
    Next(Next(Next(Next(s, RunnerStep), RunnerStep), RunnerStep), RunnerStep)
  }

  // Nobody is inside an operation.
  ghost predicate Between(s: State) {
    AllSound(s) && s.pushing == [] && s.cancelling == [] && s.runner == RIdle
  }

  lemma QueuedKeeps(s: State, w: nat)
    requires Between(s)
    ensures Between(Queued(s, w))
  {
    hide Law, Known, Sound, Count;
    NextLaws(s, Cas(w));
    NextLaws(Next(s, Cas(w)), PushBack(0));
    var s' := Queued(s, w);
    assert Drop([w], 0) == [];
    assert s'.states.Keys == s.states.Keys;
    forall x | x in s'.states ensures Sound(s', x) {
      assert x in s.states.Keys;
      NoneOf(x);
      WholeSound(s, s', x);
    }
  }

  lemma NoneOf(x: nat)
    ensures Count([], x) == 0
  {
  }

  lemma CancelledKeeps(s: State, w: nat)
    requires Between(s)
    ensures Between(Cancelled(s, w))
  {
    hide Law, Known, Sound, Count, Without, Copies;
    NextLaws(s, CancelCas(w));
    NextLaws(Next(s, CancelCas(w)), Retain(0));
    var s' := Cancelled(s, w);
    assert Drop([w], 0) == [];
    assert s'.states.Keys == s.states.Keys;
    forall x | x in s'.states ensures Sound(s', x) {
      assert x in s.states.Keys;
      NoneOf(x);
      QuiescentQueue(s, x);
      CountFilter(s.queue, w, x);
      CountSnoc(s.cancelled, w, x);
      CountJoin(s.removed, Copies(s.queue, w), x);
      WholeSound(s, s', x);
    }
  }

  lemma DrainedKeeps(s: State)
    requires Between(s) && s.queue != []
    ensures Between(Drained(s))
    ensures Drained(s).ran == s.ran + [s.queue[0]] && Drained(s).queue == s.queue[1..]
    ensures Drained(s).states == s.states[s.queue[0] := Idle]
  {
    hide Law, Known, Sound, Count;
    var w := s.queue[0];
    var s1 := Next(s, RunnerStep);
    var s2 := Next(s1, RunnerStep);
    NextLaws(s, RunnerStep);
    NextLaws(s1, RunnerStep);
    NextLaws(s2, RunnerStep);
    NextLaws(Next(s2, RunnerStep), RunnerStep);
    HeadPending(s);
    var s' := Drained(s);
    assert s'.states == s.states[w := Idle];
    assert s'.overran == s.overran;
    forall x | x in s'.states ensures Sound(s', x) {
      NoneOf(x);
      WholeSound(s, s', x);
    }
  }

  lemma HeadPending(s: State)
    requires AllSound(s) && s.queue != []
    ensures Byte(s, s.queue[0], Pending)
  {
    assert s.queue[0] in s.queue;
    QueuedOnce(s, s.queue[0]);
  }

  class Shim {
    var states: map<nat, WorkState>
    var pending: seq<nat>
    ghost var m: State

    ghost predicate Valid()
      reads this
    {
      m.states == states && m.queue == pending && Between(m)
    }

    constructor (works: set<nat>)
      ensures Valid() && m == Init(works)
    {
      states := map w | w in works :: Idle;
      pending := [];
      m := Init(works);
      new;
      InitLaws(works);
    }

    // `queue_work` on an initialised work.
    method QueueWork(w: nat) returns (r: bool)
      requires Valid() && w in states
      modifies this
      ensures Valid() && (r <==> old(states)[w] == Idle)
      ensures m == Queued(old(m), w)
      ensures r ==> pending == old(pending) + [w] && states == old(states)[w := Pending]
      ensures !r ==> pending == old(pending) && states == old(states)
    {
      hide Between, AllSound;
      QueuedKeeps(m, w);
      assert m.pushing == [] by { Empty(m); }
      assert Drop([w], 0) == [];
      m := Queued(m, w);
      if states[w] == Idle {
        states := states[w := Pending];
        pending := pending + [w];
        return true;
      }
      return false;
    }

    method CancelWork(w: nat) returns (r: bool)
      requires Valid() && w in states
      modifies this
      ensures Valid() && (r <==> old(states)[w] == Pending)
      ensures m == Cancelled(old(m), w)
      ensures r ==> states == old(states)[w := Idle] && w !in pending
      ensures r ==> exists i :: 0 <= i < |old(pending)| && old(pending)[i] == w
                           && pending == old(pending)[..i] + old(pending)[i + 1..]
      ensures !r ==> pending == old(pending) && states == old(states)
    {
      hide Between, AllSound, Without, Copies;
      CancelledKeeps(m, w);
      assert m.cancelling == [] by { Empty(m); }
      QueuedWhere(m, w);
      m := Cancelled(m, w);
      if states[w] == Pending {
        states := states[w := Idle];
        pending := Without(pending, w);
        return true;
      }
      return false;
    }

    // The body's own calls into the workqueue come as separate operations.
    method DrainOne() returns (r: bool)
      requires Valid()
      modifies this
      ensures Valid() && (r <==> old(pending) != [])
      ensures r ==> m == Drained(old(m)) && m.ran == old(m.ran) + [old(pending)[0]] && pending == old(pending)[1..]
      ensures r ==> states == old(states)[old(pending)[0] := Idle]
      ensures !r ==> m == old(m) && pending == old(pending) && states == old(states)
    {
      hide Between, AllSound, Drained;
      if pending == [] {
        return false;
      }
      DrainedKeeps(m);
      var w := pending[0];
      pending := pending[1..];
      states := states[w := Running];
      states := states[w := Idle];
      m := Drained(m);
      return true;
    }
  }

  // Between operations pending work is in the queue at one place, and filtering takes it from there.
  lemma QueuedWhere(s: State, w: nat)
    requires Between(s) && w in s.states
    ensures Byte(s, w, Pending) ==>
      && w !in Without(s.queue, w)
      && exists i :: 0 <= i < |s.queue| && s.queue[i] == w && Without(s.queue, w) == s.queue[..i] + s.queue[i + 1..]
  {
    if Byte(s, w, Pending) {
      QuiescentQueue(s, w);
      var i := WithoutOne(s.queue, w);
      CountFilter(s.queue, w, w);
      CountMember(Without(s.queue, w), w);
    }
  }

  lemma {:induction false} WithoutOne(q: seq<nat>, w: nat) returns (i: nat)
    requires Count(q, w) == 1
    ensures i < |q| && q[i] == w && Without(q, w) == q[..i] + q[i + 1..]
    decreases |q|
  {
    if q[0] == w {
      i := 0;
      NoneToDrop(q[1..], w);
      assert q[..0] + q[1..] == q[1..];
    } else {
      var j := WithoutOne(q[1..], w);
      i := j + 1;
      assert [q[0]] + (q[1..][..j] + q[1..][j + 1..]) == q[..i] + q[i + 1..];
    }
  }

  lemma {:induction false} NoneToDrop(q: seq<nat>, w: nat)
    requires Count(q, w) == 0
    ensures Without(q, w) == q
    decreases |q|
  {
    if q != [] {
      NoneToDrop(q[1..], w);
      assert q == [q[0]] + q[1..];
    }
  }

  lemma Empty(s: State)
    requires Between(s)
    ensures s.pushing == [] && s.cancelling == [] && s.runner == RIdle
  {
  }
}
