/**
 The keyboard ring: one producer and one consumer sharing a 256-byte buffer through `head` and
 `tail`, interleaved at the granularity of single loads and stores.
 */
module KbdRing {
  import opened SeqFacts

  const RING_SIZE: nat := 256

  // `ring_push(b)`: before the tail load, before the buffer store, before the head store.
  datatype Producer = PIdle | PLoadedHead(b: nat, head: nat) | PMayWrite(b: nat, head: nat) | PWrote(b: nat, head: nat)

  // `ring_pop()`: before the head load, before the buffer load, before the tail store.
  datatype Consumer = CIdle | CLoadedTail(tail: nat) | CMayRead(tail: nat) | CRead(tail: nat, b: nat)

  datatype State = State(
    buf: seq<nat>, head: nat, tail: nat, dropped: nat,
    producer: Producer, consumer: Consumer,
    pushes: nat,                        // finished calls of ring_push
    accepted: seq<nat>,                 // bytes whose push was published
    delivered: seq<nat>)                // bytes ring_pop has returned

  datatype Act = Push(b: nat) | ProducerStep | Pop | ConsumerStep

  function Bump(i: nat): nat {
    if i + 1 >= RING_SIZE then 0 else i + 1
  }

  function Init(): State {
    State(seq(RING_SIZE, i => 0), 0, 0, 0, PIdle, CIdle, 0, [], [])
  }

  // --- single loads and stores ------------------------------------------------------------

  function Next(s: State, a: Act): State {
    match a
    case Push(b) => if s.producer.PIdle? then s.(producer := PLoadedHead(b, s.head)) else s
    case ProducerStep =>
      (match s.producer
       case PIdle => s
       case PLoadedHead(b, h) =>
         if Bump(h) == s.tail then s.(producer := PIdle, dropped := s.dropped + 1, pushes := s.pushes + 1)
         else s.(producer := PMayWrite(b, h))
       case PMayWrite(b, h) => if h < |s.buf| then s.(buf := s.buf[h := b], producer := PWrote(b, h)) else s
       case PWrote(b, h) =>
         s.(head := Bump(h), producer := PIdle, pushes := s.pushes + 1, accepted := s.accepted + [b]))
    case Pop => if s.consumer.CIdle? then s.(consumer := CLoadedTail(s.tail)) else s
    case ConsumerStep =>
      match s.consumer
      case CIdle => s
      case CLoadedTail(t) => if s.head == t then s.(consumer := CIdle) else s.(consumer := CMayRead(t))
      case CMayRead(t) => if t < |s.buf| then s.(consumer := CRead(t, s.buf[t])) else s
      case CRead(t, b) => s.(tail := Bump(t), consumer := CIdle, delivered := s.delivered + [b])
  }

  // --- invariant --------------------------------------------------------------------------

  ghost predicate Inv(s: State) {
    && |s.buf| == RING_SIZE
    && |s.delivered| <= |s.accepted| < |s.delivered| + RING_SIZE
    && s.head == Slot(|s.accepted|, RING_SIZE) && s.tail == Slot(|s.delivered|, RING_SIZE)
    && (forall k :: 0 <= k < |s.delivered| ==> s.delivered[k] == s.accepted[k])
    && (forall k :: |s.delivered| <= k < |s.accepted| ==> s.buf[Slot(k, RING_SIZE)] == s.accepted[k])
    && s.pushes == |s.accepted| + s.dropped
    && ProducerOk(s)
    && ConsumerOk(s)
  }

  // The producer's copy of `head` is current; past the full test there is room for one more.
  ghost predicate ProducerOk(s: State)
    requires |s.buf| == RING_SIZE
  {
    match s.producer
    case PIdle => true
    case PLoadedHead(b, h) => h == s.head
    case PMayWrite(b, h) => h == s.head && |s.accepted| + 1 < |s.delivered| + RING_SIZE
    case PWrote(b, h) =>
      h == s.head && |s.accepted| + 1 < |s.delivered| + RING_SIZE && s.buf[Slot(|s.accepted|, RING_SIZE)] == b
  }

  // The consumer's copy of `tail` is current; past the empty test there is a byte.
  ghost predicate ConsumerOk(s: State) {
    match s.consumer
    case CIdle => true
    case CLoadedTail(t) => t == s.tail
    case CMayRead(t) => t == s.tail && |s.delivered| < |s.accepted|
    case CRead(t, b) => t == s.tail && |s.delivered| < |s.accepted| && b == s.accepted[|s.delivered|]
  }

  lemma BumpSlot(k: nat)
    ensures Bump(Slot(k, RING_SIZE)) == Slot(k + 1, RING_SIZE)
  {
    NextSlot(k, RING_SIZE);
  }

  lemma InitInv()
    ensures Inv(Init())
  {
  }

  // `next_head == tail` exactly when one more byte would fill the ring.
  lemma FullTest(accepted: nat, delivered: nat)
    requires delivered <= accepted < delivered + RING_SIZE
    ensures Slot(accepted + 1, RING_SIZE) == Slot(delivered, RING_SIZE) <==> accepted + 1 == delivered + RING_SIZE
  {
    if accepted + 1 < delivered + RING_SIZE {
      if delivered < accepted + 1 {
        SlotsApart(delivered, accepted + 1, RING_SIZE);
      }
    } else {
      assert Slot(delivered + RING_SIZE, RING_SIZE) == Slot(delivered, RING_SIZE);
    }
  }

  lemma EmptyTest(accepted: nat, delivered: nat)
    requires delivered <= accepted < delivered + RING_SIZE
    ensures Slot(accepted, RING_SIZE) == Slot(delivered, RING_SIZE) <==> accepted == delivered
  {
    if delivered < accepted {
      SlotsApart(delivered, accepted, RING_SIZE);
    }
  }

  lemma ProducerInv(s: State)
    requires Inv(s)
    ensures Inv(Next(s, ProducerStep))
  {
    hide Slot;
    BumpSlot(|s.accepted|);
    FullTest(|s.accepted|, |s.delivered|);
    if s.producer.PMayWrite? {
      forall k | |s.delivered| <= k < |s.accepted| ensures Slot(k, RING_SIZE) != Slot(|s.accepted|, RING_SIZE) {
        SlotsApart(k, |s.accepted|, RING_SIZE);
      }
    }
  }

  lemma ConsumerInv(s: State)
    requires Inv(s)
    ensures Inv(Next(s, ConsumerStep))
  {
    hide Slot;
    BumpSlot(|s.delivered|);
    EmptyTest(|s.accepted|, |s.delivered|);
  }

  lemma NextInv(s: State, a: Act)
    requires Inv(s)
    ensures Inv(Next(s, a))
  {
    match a
    case Push(b) =>
    case ProducerStep => ProducerInv(s);
    case Pop =>
    case ConsumerStep => ConsumerInv(s);
  }

  ghost function Run(s: State, acts: seq<Act>): (r: State)
    requires Inv(s)
    ensures Inv(r)
    decreases |acts|
  {
    if acts == [] then s
    else
      NextInv(s, acts[0]);
      Run(Next(s, acts[0]), acts[1..])
  }

  // The bytes in the ring that have not been delivered, oldest first.
  ghost function Queued(s: State): seq<nat>
    requires |s.delivered| <= |s.accepted|
  {
    s.accepted[|s.delivered|..]
  }

  // Under every interleaving the consumer gets exactly the accepted bytes in order; every push is
  // delivered, queued or counted as dropped; and a producer about to store and a consumer about to
  // load are at different slots.
  lemma EveryInterleaving(acts: seq<Act>)
    ensures Inv(Init())
    ensures var s := Run(Init(), acts);
      && s.delivered <= s.accepted
      && s.delivered + Queued(s) == s.accepted
      && s.pushes == |s.delivered| + |Queued(s)| + s.dropped
      && (s.producer.PMayWrite? && s.consumer.CMayRead? ==> s.producer.head != s.consumer.tail)
  {
    InitInv();
    var s := Run(Init(), acts);
    EmptyTest(|s.accepted|, |s.delivered|);
  }

  // --- whole calls ------------------------------------------------------------------------

  // The producer's accesses with nothing in between.
  function WholePush(s: State, b: nat): State {
    Next(Next(Next(Next(s, Push(b)), ProducerStep), ProducerStep), ProducerStep)
  }

  function WholePop(s: State): State {
    Next(Next(Next(Next(s, Pop), ConsumerStep), ConsumerStep), ConsumerStep)
  }

  lemma WholePushIs(s: State, b: nat)
    requires Inv(s) && s.producer == PIdle
    ensures Inv(WholePush(s, b)) && s.head < |s.buf|
    ensures Bump(s.head) == s.tail <==> |Queued(s)| == RING_SIZE - 1
    ensures WholePush(s, b) ==
      if Bump(s.head) == s.tail then s.(dropped := s.dropped + 1, pushes := s.pushes + 1)
      else s.(buf := s.buf[s.head := b], head := Bump(s.head), pushes := s.pushes + 1, accepted := s.accepted + [b])
  {
    hide Slot;
    BumpSlot(|s.accepted|);
    FullTest(|s.accepted|, |s.delivered|);
    NextInv(s, Push(b));
    var s1 := Next(s, Push(b));
    NextInv(s1, ProducerStep);
    NextInv(Next(s1, ProducerStep), ProducerStep);
    NextInv(Next(Next(s1, ProducerStep), ProducerStep), ProducerStep);
  }

  lemma WholePopIs(s: State)
    requires Inv(s) && s.consumer == CIdle
    ensures Inv(WholePop(s)) && s.tail < |s.buf|
    ensures s.head == s.tail <==> |s.delivered| == |s.accepted|
    ensures WholePop(s) ==
      if s.head == s.tail then s else s.(tail := Bump(s.tail), delivered := s.delivered + [s.buf[s.tail]])
  {
    hide Slot;
    EmptyTest(|s.accepted|, |s.delivered|);
    NextInv(s, Pop);
    var s1 := Next(s, Pop);
    NextInv(s1, ConsumerStep);
    NextInv(Next(s1, ConsumerStep), ConsumerStep);
    NextInv(Next(Next(s1, ConsumerStep), ConsumerStep), ConsumerStep);
  }

  // --- the code ---------------------------------------------------------------------------

  datatype Popped = Nothing | Byte(b: nat)

  class KeyboardRing {
    const buf: array<nat>
    var head: nat
    var tail: nat
    var dropped: nat
    ghost var m: State

    ghost predicate Valid()
      reads this, buf
    {
      && m.buf == buf[..] && m.head == head && m.tail == tail && m.dropped == dropped
      && m.producer == PIdle && m.consumer == CIdle && Inv(m)
    }

    constructor ()
      ensures Valid() && m == Init() && fresh(buf)
    {
      buf := new nat[RING_SIZE](i => 0);
      head, tail, dropped := 0, 0, 0;
      m := Init();
      new;
      InitInv();
    }

    // A whole `ring_push`: the byte is appended, or counted as dropped when the ring already holds 255.
    method RingPush(b: nat)
      requires Valid()
      modifies this`head, this`dropped, this`m, buf
      ensures Valid() && m == WholePush(old(m), b)
    {
      hide Inv;
      WholePushIs(m, b);
      var h := head;
      var t := tail;
      var nextHead := Bump(h);
      m := WholePush(m, b);
      if nextHead == t {
        dropped := dropped + 1;
        return;
      }
      buf[h] := b;
      head := nextHead;
    }

    method RingPop() returns (r: Popped)
      requires Valid()
      modifies this`tail, this`m
      ensures Valid() && m == WholePop(old(m))
      ensures r.Nothing? <==> |old(m).delivered| == |old(m).accepted|
      ensures r.Byte? ==> m.delivered == old(m).delivered + [r.b]
    {
      hide Inv;
      WholePopIs(m);
      var t := tail;
      var h := head;
      ghost var before := m;
      m := WholePop(m);
      if h == t {
        return Nothing;
      }
      var b := buf[t];
      tail := Bump(t);
      return Byte(b);
    }
  }

  // --- a second producer ------------------------------------------------------------------

  // `inject` runs in a task as `ring.producer`; the keyboard interrupt pushes through `irq`, and while
  // its handler is active the task does not move.
  datatype Two = Two(
    ring: State,
    irq: Producer,
    over: nat,                          // bytes the interrupt has published since inject loaded head
    undone: nat)                        // bytes put outside the ring again by storing a stale head

  datatype TwoAct = Main(a: Act) | IrqPush(b: nat) | IrqStep

  function TwoNext(t: Two, a: TwoAct): Two {
    match a
    case Main(m) =>
      if (m.Push? || m.ProducerStep?) && !t.irq.PIdle? then t
      else if m.ProducerStep? && t.ring.producer.PWrote? then StoreHead(t)
      else
        var ring := Next(t.ring, m);
        t.(ring := ring, over := if ring.producer.PIdle? then 0 else t.over)
    case IrqPush(b) => if t.irq.PIdle? then t.(irq := PLoadedHead(b, t.ring.head)) else t
    case IrqStep =>
      var ring := Next(t.ring.(producer := t.irq), ProducerStep);
      t.(ring := ring.(producer := t.ring.producer), irq := ring.producer,
      over := if t.irq.PWrote? && !t.ring.producer.PIdle? then t.over + 1 else t.over)
  }

  // Inject stores its own head plus one, whatever head is by now: the bytes published since are
  // outside the ring again, and what its slot holds is what counts.
  function StoreHead(t: Two): Two {
    var ring := Next(t.ring, ProducerStep);
    var h := t.ring.producer;
    if t.over <= |t.ring.accepted| && h.PWrote? && h.head < |t.ring.buf| then
      t.(ring := ring.(accepted := t.ring.accepted[..|t.ring.accepted| - t.over] + [t.ring.buf[h.head]]),
      over := 0, undone := t.undone + t.over)
    else t
  }

  function TwoRun(t: Two, acts: seq<TwoAct>): Two
    decreases |acts|
  {
    if acts == [] then t else TwoRun(TwoNext(t, acts[0]), acts[1..])
  }

  // Head and tail are where the counts say.  `accepted` is what head makes of the pushes: its length goes
  // back when a stale head is stored.
  ghost predicate Accounts(t: Two) {
    var r := t.ring;
    && |r.buf| == RING_SIZE && t.over <= |r.accepted|
    && r.head == Slot(|r.accepted|, RING_SIZE) && r.tail == Slot(|r.delivered|, RING_SIZE)
    && (r.producer.PIdle? ==> t.over == 0)
    && (!r.producer.PIdle? ==> r.producer.head == Slot(|r.accepted| - t.over, RING_SIZE))
    && (!t.irq.PIdle? ==> t.irq.head == r.head)
    && (!r.consumer.CIdle? ==> r.consumer.tail == r.tail)
    && r.pushes == |r.accepted| + r.dropped + t.undone
  }

  lemma TwoNextAccounts(t: Two, a: TwoAct)
    requires Accounts(t)
    ensures Accounts(TwoNext(t, a))
  {
    hide Slot;
    BumpSlot(|t.ring.accepted|);
    BumpSlot(|t.ring.accepted| - t.over);
    BumpSlot(|t.ring.delivered|);
  }

  // The bytes the ring offers, going by its indices.
  function Distance(head: nat, tail: nat): int {
    if tail <= head then head - tail else head + RING_SIZE - tail
  }

  lemma {:induction false} DistanceIs(accepted: nat, delivered: nat)
    requires delivered <= accepted < delivered + RING_SIZE
    ensures Distance(Slot(accepted, RING_SIZE), Slot(delivered, RING_SIZE)) == accepted - delivered
    decreases delivered
  {
    if delivered >= RING_SIZE {
      DistanceIs(accepted - RING_SIZE, delivered - RING_SIZE);
    } else if accepted >= RING_SIZE {
      assert Slot(accepted, RING_SIZE) == Slot(accepted - RING_SIZE, RING_SIZE) == accepted - RING_SIZE;
    }
  }

  // --- when head stays ahead of tail --------------------------------------------------------

  // Head is not behind tail nor a lap ahead, and a producer past its test has room.
  ghost predicate Ahead(t: Two) {
    var n, d := |t.ring.accepted|, |t.ring.delivered|;
    && Accounts(t) && d <= n < d + RING_SIZE
    && (t.ring.producer.PMayWrite? || t.ring.producer.PWrote? ==> n - t.over + 1 < d + RING_SIZE)
    && (t.irq.PMayWrite? || t.irq.PWrote? ==> n + 1 < d + RING_SIZE)
  }

  // The two steps that put head behind tail: inject stores a head the consumer has passed, and the
  // consumer, past its test, stores a tail when head has come back to it.
  predicate PutsBehind(t: Two, a: TwoAct) {
    || (&& a == Main(ProducerStep) && t.irq.PIdle? && t.ring.producer.PWrote?
        && |t.ring.delivered| > |t.ring.accepted| - t.over + 1)
    || (a == Main(ConsumerStep) && t.ring.consumer.CRead? && t.ring.head == t.ring.tail)
  }

  lemma ProducerAhead(t: Two)
    requires Ahead(t) && !PutsBehind(t, Main(ProducerStep))
    ensures Ahead(TwoNext(t, Main(ProducerStep)))
  {
    hide Slot;
    TwoNextAccounts(t, Main(ProducerStep));
    BumpSlot(|t.ring.accepted| - t.over);
    RoomTest(|t.ring.accepted| - t.over, |t.ring.delivered|);
  }

  lemma IrqAhead(t: Two)
    requires Ahead(t)
    ensures Ahead(TwoNext(t, IrqStep))
  {
    hide Slot;
    TwoNextAccounts(t, IrqStep);
    BumpSlot(|t.ring.accepted|);
    RoomTest(|t.ring.accepted|, |t.ring.delivered|);
  }

  // A head that fails the full test is not 255 ahead.
  lemma RoomTest(head: nat, delivered: nat)
    ensures Slot(head + 1, RING_SIZE) != Slot(delivered, RING_SIZE) ==> head + 1 != delivered + RING_SIZE
  {
    assert Slot(delivered + RING_SIZE, RING_SIZE) == Slot(delivered, RING_SIZE);
  }

  lemma ConsumerAhead(t: Two)
    requires Ahead(t) && !PutsBehind(t, Main(ConsumerStep))
    ensures Ahead(TwoNext(t, Main(ConsumerStep)))
  {
    hide Slot;
    TwoNextAccounts(t, Main(ConsumerStep));
    EmptyTest(|t.ring.accepted|, |t.ring.delivered|);
  }

  lemma AheadStep(t: Two, a: TwoAct)
    requires Ahead(t)
    ensures !PutsBehind(t, a) ==> Ahead(TwoNext(t, a))
    ensures PutsBehind(t, a) ==> |TwoNext(t, a).ring.delivered| > |TwoNext(t, a).ring.accepted|
  {
    hide Slot;
    if !PutsBehind(t, a) {
      TwoNextAccounts(t, a);
      match a
      case Main(m) =>
        if m.ProducerStep? {
          ProducerAhead(t);
        } else if m.ConsumerStep? {
          ConsumerAhead(t);
        }
      case IrqPush(b) =>
      case IrqStep => IrqAhead(t);
    } else if a == Main(ConsumerStep) {
      EmptyTest(|t.ring.accepted|, |t.ring.delivered|);
    }
  }

  // No step of the run puts head behind tail.
  predicate NeverBehind(t: Two, acts: seq<TwoAct>)
    decreases |acts|
  {
    acts == [] || (!PutsBehind(t, acts[0]) && NeverBehind(TwoNext(t, acts[0]), acts[1..]))
  }

  // At every point of the run, no more has been delivered than head says was pushed.
  predicate AlwaysCovered(t: Two, acts: seq<TwoAct>)
    decreases |acts|
  {
    |t.ring.delivered| <= |t.ring.accepted| && (acts == [] || AlwaysCovered(TwoNext(t, acts[0]), acts[1..]))
  }

  lemma {:induction false} AheadRun(t: Two, acts: seq<TwoAct>)
    requires Ahead(t)
    ensures NeverBehind(t, acts) <==> AlwaysCovered(t, acts)
    ensures NeverBehind(t, acts) ==> Ahead(TwoRun(t, acts))
    decreases |acts|
  {
    hide Accounts;
    if acts != [] {
      AheadStep(t, acts[0]);
      if !PutsBehind(t, acts[0]) {
        AheadRun(TwoNext(t, acts[0]), acts[1..]);
      }
    }
  }

  function Start(): Two {
    Two(Init(), PIdle, 0, 0)
  }

  lemma StartAhead()
    ensures Ahead(Start()) && Carries(Start(), {})
  {
  }

  // For every interleaving of injects, interrupts and pops: head stays ahead of tail at every point if
  // and only if no inject stores a head the consumer has passed and no consumer already past its test
  // stores a tail at an emptied ring.
  lemma HeadStaysAheadIff(acts: seq<TwoAct>)
    ensures AlwaysCovered(Start(), acts) <==> NeverBehind(Start(), acts)
  {
    AheadRun(Start(), acts);
  }

  // --- what is lost -------------------------------------------------------------------------

  // No inject stores head after the interrupt has published behind its back.
  predicate NoneOvertaken(t: Two, acts: seq<TwoAct>)
    decreases |acts|
  {
    acts == [] ||
    (&& !(acts[0] == Main(ProducerStep) && t.irq.PIdle? && t.ring.producer.PWrote? && t.over > 0)
     && NoneOvertaken(TwoNext(t, acts[0]), acts[1..]))
  }

  lemma {:induction false} RunAccounts(t: Two, acts: seq<TwoAct>)
    requires Accounts(t)
    ensures Accounts(TwoRun(t, acts)) && TwoRun(t, acts).undone >= t.undone
    ensures TwoRun(t, acts).undone == t.undone <==> NoneOvertaken(t, acts)
    decreases |acts|
  {
    if acts != [] {
      TwoNextAccounts(t, acts[0]);
      RunAccounts(TwoNext(t, acts[0]), acts[1..]);
    }
  }

  // While head stays ahead, at every fill level: each finished push has been delivered, is in the ring by
  // its indices, or was counted as dropped - if and only if no inject stores head after the interrupt
  // has published since that inject loaded it.
  lemma TwoProducersAccount(acts: seq<TwoAct>)
    requires NeverBehind(Start(), acts)
    ensures var r := TwoRun(Start(), acts).ring;
      && r.pushes >= |r.delivered| + Distance(r.head, r.tail) + r.dropped
      && (r.pushes == |r.delivered| + Distance(r.head, r.tail) + r.dropped <==> NoneOvertaken(Start(), acts))
  {
    hide Slot;
    StartAhead();
    RunAccounts(Start(), acts);
    AheadRun(Start(), acts);
    var r := TwoRun(Start(), acts).ring;
    DistanceIs(|r.accepted|, |r.delivered|);
  }

  // An inject nobody overtakes cannot fall behind either.
  lemma {:induction false} NoneOvertakenAhead(t: Two, acts: seq<TwoAct>)
    requires Ahead(t) && NoneOvertaken(t, acts) && (t.ring.consumer.CMayRead? || t.ring.consumer.CRead?
             ==> |t.ring.delivered| < |t.ring.accepted|)
    ensures NeverBehind(t, acts)
    decreases |acts|
  {
    hide Slot;
    if acts != [] {
      EmptyTest(|t.ring.accepted|, |t.ring.delivered|);
      AheadStep(t, acts[0]);
      NoneOvertakenAhead(TwoNext(t, acts[0]), acts[1..]);
    }
  }

  // Producers that never overtake lose nothing and keep head ahead.
  lemma NothingLost(acts: seq<TwoAct>)
    requires NoneOvertaken(Start(), acts)
    ensures NeverBehind(Start(), acts)
    ensures var r := TwoRun(Start(), acts).ring;
      r.pushes == |r.delivered| + Distance(r.head, r.tail) + r.dropped
  {
    StartAhead();
    NoneOvertakenAhead(Start(), acts);
    TwoProducersAccount(acts);
  }

  // --- only pushed bytes --------------------------------------------------------------------

  // The bytes of the pushes begun in a run.
  function Begun(t: Two, acts: seq<TwoAct>): set<nat>
    decreases |acts|
  {
    if acts == [] then {} else Begins(t, acts[0]) + Begun(TwoNext(t, acts[0]), acts[1..])
  }

  function Begins(t: Two, a: TwoAct): set<nat> {
    match a
    case Main(m) => if m.Push? && t.ring.producer.PIdle? && t.irq.PIdle? then {m.b} else {}
    case IrqPush(b) => if t.irq.PIdle? then {b} else {}
    case IrqStep => {}
  }

  // Whatever is or was offered is one of `bytes`.
  ghost predicate Carries(t: Two, bytes: set<nat>) {
    var r := t.ring;
    && |r.buf| == RING_SIZE
    && (forall k :: |r.delivered| <= k < |r.accepted| ==> r.buf[Slot(k, RING_SIZE)] in bytes)
    && (forall i :: 0 <= i < |r.delivered| ==> r.delivered[i] in bytes)
    && (!r.producer.PIdle? ==> r.producer.b in bytes)
    && (!t.irq.PIdle? ==> t.irq.b in bytes)
    && (r.producer.PWrote? ==> r.producer.head < |r.buf| && r.buf[r.producer.head] in bytes)
    && (t.irq.PWrote? ==> t.irq.head < |r.buf| && r.buf[t.irq.head] in bytes)
    && (r.consumer.CMayRead? ==> r.consumer.tail < |r.buf| && r.buf[r.consumer.tail] in bytes)
    && (r.consumer.CRead? ==> r.consumer.b in bytes)
  }

  lemma CarriesMore(t: Two, bytes: set<nat>, more: set<nat>)
    requires Carries(t, bytes)
    ensures Carries(t, bytes + more)
  {
  }

  lemma ProducersCarry(t: Two, a: TwoAct, bytes: set<nat>)
    requires Ahead(t) && Carries(t, bytes) && !PutsBehind(t, a) && Begins(t, a) <= bytes
    requires a == Main(ProducerStep) || !a.Main? || a.a.Push?
    ensures Carries(TwoNext(t, a), bytes)
  {
    hide Slot;
    var n := |t.ring.accepted| - t.over;
    BumpSlot(n);
  }

  lemma ConsumerCarries(t: Two, a: TwoAct, bytes: set<nat>)
    requires Ahead(t) && Carries(t, bytes) && !PutsBehind(t, a)
    requires a == Main(Pop) || a == Main(ConsumerStep)
    ensures Carries(TwoNext(t, a), bytes)
  {
    hide Slot;
    EmptyTest(|t.ring.accepted|, |t.ring.delivered|);
  }

  lemma {:induction false} RunCarries(t: Two, acts: seq<TwoAct>, bytes: set<nat>)
    requires Ahead(t) && Carries(t, bytes) && NeverBehind(t, acts)
    ensures Carries(TwoRun(t, acts), bytes + Begun(t, acts))
    decreases |acts|
  {
    hide Slot, Carries, Ahead;
    if acts == [] {
      assert bytes + Begun(t, acts) == bytes;
    } else {
      var more := bytes + Begins(t, acts[0]);
      CarriesMore(t, bytes, Begins(t, acts[0]));
      if acts[0] == Main(Pop) || acts[0] == Main(ConsumerStep) {
        ConsumerCarries(t, acts[0], more);
      } else {
        ProducersCarry(t, acts[0], more);
      }
      AheadStep(t, acts[0]);
      RunCarries(TwoNext(t, acts[0]), acts[1..], more);
      assert bytes + Begun(t, acts) == more + Begun(TwoNext(t, acts[0]), acts[1..]);
    }
  }

  // While head stays ahead of tail, the ring delivers and offers only bytes that were pushed, however
  // the producers overlap.
  lemma OnlyPushedBytes(acts: seq<TwoAct>)
    requires NeverBehind(Start(), acts)
    ensures var r := TwoRun(Start(), acts).ring;
      && |r.buf| == RING_SIZE && |r.delivered| <= |r.accepted|
      && (forall i :: 0 <= i < |r.delivered| ==> r.delivered[i] in Begun(Start(), acts))
      && (forall k :: |r.delivered| <= k < |r.accepted| ==> r.buf[Slot(k, RING_SIZE)] in Begun(Start(), acts))
  {
    hide Slot;
    StartAhead();
    RunCarries(Start(), acts, {});
    AheadRun(Start(), acts);
    assert {} + Begun(Start(), acts) == Begun(Start(), acts);
  }

  // --- producers that do not overlap --------------------------------------------------------

  // The interrupt arrives only while no inject is under way.
  predicate Apart(t: Two, acts: seq<TwoAct>)
    decreases |acts|
  {
    acts == [] || ((acts[0].IrqPush? ==> t.ring.producer.PIdle?) && Apart(TwoNext(t, acts[0]), acts[1..]))
  }

  // The one producer at work.
  function Merged(t: Two): State {
    if t.irq.PIdle? then t.ring else t.ring.(producer := t.irq)
  }

  ghost predicate OneAtATime(t: Two) {
    (t.irq.PIdle? || t.ring.producer.PIdle?) && t.over == 0 && t.undone == 0 && Inv(Merged(t))
  }

  lemma ApartStep(t: Two, a: TwoAct)
    requires OneAtATime(t) && (a.IrqPush? ==> t.ring.producer.PIdle?)
    ensures OneAtATime(TwoNext(t, a))
  {
    hide Slot, Inv;
    match a
    case Main(m) =>
      NextInv(Merged(t), m);
      if m.ProducerStep? && t.ring.producer.PWrote? && t.irq.PIdle? {
        StoreApart(t);
      }
    case IrqPush(b) => NextInv(Merged(t), Push(b));
    case IrqStep => NextInv(Merged(t), ProducerStep);
  }

  lemma StoreApart(t: Two)
    requires OneAtATime(t) && t.ring.producer.PWrote? && t.irq.PIdle?
    ensures StoreHead(t) == t.(ring := Next(t.ring, ProducerStep))
  {
    assert t.ring.accepted[..|t.ring.accepted|] == t.ring.accepted;
  }

  lemma {:induction false} ApartRun(t: Two, acts: seq<TwoAct>)
    requires OneAtATime(t) && Apart(t, acts)
    ensures OneAtATime(TwoRun(t, acts))
    decreases |acts|
  {
    hide OneAtATime;
    if acts != [] {
      ApartStep(t, acts[0]);
      ApartRun(TwoNext(t, acts[0]), acts[1..]);
    }
  }

  // Then the ring is as good as with one producer.
  lemma ApartIsSafe(acts: seq<TwoAct>)
    requires Apart(Start(), acts)
    ensures var r := TwoRun(Start(), acts).ring;
      && r.delivered <= r.accepted && r.delivered + Queued(r) == r.accepted
      && r.pushes == |r.delivered| + |Queued(r)| + r.dropped
  {
    InitInv();
    ApartRun(Start(), acts);
  }

  // --- one interrupt inside one inject ------------------------------------------------------

  // The interrupt handler's whole push.
  function IrqWhole(t: Two, c: nat): Two {
    TwoNext(TwoNext(TwoNext(TwoNext(t, IrqPush(c)), IrqStep), IrqStep), IrqStep)
  }

  // The inject with the handler running after p of its four accesses: load head, load tail, store
  // the byte, store head.
  function InjectAround(t: Two, b: nat, c: nat, p: nat): Two {
    var t0 := if p == 0 then IrqWhole(t, c) else t;
    var t1 := TwoNext(t0, Main(Push(b)));
    var t2 := TwoNext(if p == 1 then IrqWhole(t1, c) else t1, Main(ProducerStep));
    var t3 := TwoNext(if p == 2 then IrqWhole(t2, c) else t2, Main(ProducerStep));
    var t4 := TwoNext(if p == 3 then IrqWhole(t3, c) else t3, Main(ProducerStep));
    if p == 4 then IrqWhole(t4, c) else t4
  }

  // Whatever inject is doing, the handler's push is a whole push of the ring as it stands.
  lemma IrqWholeIs(t: Two, c: nat)
    requires t.irq == PIdle && Inv(t.ring.(producer := PIdle))
    ensures var full := Bump(t.ring.head) == t.ring.tail;
      IrqWhole(t, c) == t.(
        ring := WholePush(t.ring.(producer := PIdle), c).(producer := t.ring.producer),
        over := if full || t.ring.producer.PIdle? then t.over else t.over + 1)
  {
    hide Slot;
    WholePushIs(t.ring.(producer := PIdle), c);
  }

  lemma IdleInv(s: State)
    requires Inv(s)
    ensures Inv(s.(producer := PIdle))
  {
  }

  // What is left of an inject that loaded the head h of s before the handler ran there: one of the two
  // bytes ends up at h, and head one further.
  ghost predicate OneOfTwo(s: State, f: State, x: nat) {
    && f.pushes == s.pushes + 2 && f.producer == PIdle && f.delivered == s.delivered
    && (if Bump(s.head) == s.tail then f.accepted == s.accepted && f.dropped == s.dropped + 2
        else f.accepted == s.accepted + [x] && f.dropped == s.dropped)
  }

  // The handler's push on s, whatever inject is doing and whatever it has written at head.
  lemma HandlerPush(s: State, p: Producer, c: nat)
    requires Inv(s) && s.producer == PIdle
    ensures var t := Two(s.(producer := p), PIdle, 0, 0);
      IrqWhole(t, c) ==
      if Bump(s.head) == s.tail then t.(ring := t.ring.(dropped := s.dropped + 1, pushes := s.pushes + 1))
      else t.(ring := t.ring.(buf := s.buf[s.head := c], head := Bump(s.head), pushes := s.pushes + 1,
              accepted := s.accepted + [c]), over := if p.PIdle? then 0 else 1)
    ensures s.head < |s.buf|
  {
    hide Slot, Inv;
    WholePushIs(s, c);
    assert s.(producer := p).(producer := PIdle) == s;
    IrqWholeIs(Two(s.(producer := p), PIdle, 0, 0), c);
  }

  lemma AfterHeadLoad(s: State, b: nat, c: nat)
    requires Inv(s) && s.producer == PIdle
    ensures OneOfTwo(s, InjectAround(Two(s, PIdle, 0, 0), b, c, 1).ring, b)
  {
    hide Slot, Inv, IrqWhole;
    HandlerPush(s, PLoadedHead(b, s.head), c);
    assert (s.accepted + [c])[..|s.accepted|] == s.accepted;
  }

  lemma AfterTailLoad(s: State, b: nat, c: nat)
    requires Inv(s) && s.producer == PIdle
    ensures OneOfTwo(s, InjectAround(Two(s, PIdle, 0, 0), b, c, 2).ring, b)
  {
    hide Slot, Inv, IrqWhole;
    HandlerPush(s, PMayWrite(b, s.head), c);
    assert (s.accepted + [c])[..|s.accepted|] == s.accepted;
    NextInv(s, Push(b));
    NextInv(Next(s, Push(b)), ProducerStep);
    if Bump(s.head) == s.tail {
      HandlerPush(s.(dropped := s.dropped + 1, pushes := s.pushes + 1), PIdle, c);
    }
  }

  lemma AfterByteStore(s: State, b: nat, c: nat)
    requires Inv(s) && s.producer == PIdle
    ensures OneOfTwo(s, InjectAround(Two(s, PIdle, 0, 0), b, c, 3).ring, c)
  {
    hide Slot, Inv, IrqWhole;
    NextInv(s, Push(b));
    NextInv(Next(s, Push(b)), ProducerStep);
    var s2 := Next(Next(s, Push(b)), ProducerStep);
    NextInv(s2, ProducerStep);
    var s3 := Next(s2, ProducerStep);
    IdleInv(s3);
    HandlerPush(s3.(producer := PIdle), s3.producer, c);
    WholePushIs(s, b);
    assert (s.accepted + [c])[..|s.accepted|] == s.accepted;
  }

  lemma UninterruptedAt(s: State, b: nat, c: nat, p: nat)
    requires Inv(s) && s.producer == PIdle && (p == 0 || p == 4)
    ensures var f := InjectAround(Two(s, PIdle, 0, 0), b, c, p).ring;
      f == if p == 0 then WholePush(WholePush(s, c), b) else WholePush(WholePush(s, b), c)
  {
    hide Slot, Inv;
    if p == 0 {
      IrqWholeIs(Two(s, PIdle, 0, 0), c);
      WholePushIs(s, c);
      WholeByTask(Two(WholePush(s, c), PIdle, 0, 0), b);
    } else {
      WholeByTask(Two(s, PIdle, 0, 0), b);
      WholePushIs(s, b);
      IrqWholeIs(Two(WholePush(s, b), PIdle, 0, 0), c);
    }
  }

  lemma WholeByTask(t: Two, b: nat)
    requires t.irq == PIdle && t.over == 0 && t.undone == 0 && Inv(t.ring) && t.ring.producer == PIdle
    ensures var t1 := TwoNext(TwoNext(t, Main(Push(b))), Main(ProducerStep));
      TwoNext(TwoNext(t1, Main(ProducerStep)), Main(ProducerStep)) == t.(ring := WholePush(t.ring, b))
  {
    hide Slot, Inv;
    WholePushIs(t.ring, b);
    assert t.ring.accepted[..|t.ring.accepted|] == t.ring.accepted;
  }

  lemma InjectAccounts(t: Two, b: nat, c: nat, p: nat)
    requires Accounts(t)
    ensures Accounts(InjectAround(t, b, c, p))
  {
    hide Accounts, TwoNext;
    var t0 := if p == 0 then IrqWhole(t, c) else t;
    IrqAccounts(t, c);
    TwoNextAccounts(t0, Main(Push(b)));
    var t1 := TwoNext(t0, Main(Push(b)));
    IrqAccounts(t1, c);
    var u1 := if p == 1 then IrqWhole(t1, c) else t1;
    TwoNextAccounts(u1, Main(ProducerStep));
    var t2 := TwoNext(u1, Main(ProducerStep));
    IrqAccounts(t2, c);
    var u2 := if p == 2 then IrqWhole(t2, c) else t2;
    TwoNextAccounts(u2, Main(ProducerStep));
    var t3 := TwoNext(u2, Main(ProducerStep));
    IrqAccounts(t3, c);
    var u3 := if p == 3 then IrqWhole(t3, c) else t3;
    TwoNextAccounts(u3, Main(ProducerStep));
    IrqAccounts(TwoNext(u3, Main(ProducerStep)), c);
  }

  lemma IrqAccounts(t: Two, c: nat)
    requires Accounts(t)
    ensures Accounts(IrqWhole(t, c))
  {
    hide Accounts, TwoNext;
    TwoNextAccounts(t, IrqPush(c));
    var t1 := TwoNext(t, IrqPush(c));
    TwoNextAccounts(t1, IrqStep);
    var t2 := TwoNext(t1, IrqStep);
    TwoNextAccounts(t2, IrqStep);
    TwoNextAccounts(TwoNext(t2, IrqStep), IrqStep);
  }

  // What the two pushes leave, going by `accepted`.
  ghost predicate BothCounted(s: State, f: State, counted: bool) {
    && f.pushes == s.pushes + 2 && f.delivered == s.delivered
    && |f.delivered| <= |f.accepted| < |f.delivered| + RING_SIZE
    && (f.pushes == |f.accepted| + f.dropped <==> counted)
  }

  lemma InsideCounts(s: State, b: nat, c: nat, p: nat)
    requires Inv(s) && s.producer == PIdle && 1 <= p <= 3
    ensures BothCounted(s, InjectAround(Two(s, PIdle, 0, 0), b, c, p).ring, |Queued(s)| == RING_SIZE - 1)
  {
    WholePushIs(s, b);
    hide Slot, InjectAround, WholePush;
    if p == 1 {
      AfterHeadLoad(s, b, c);
    } else if p == 2 {
      AfterTailLoad(s, b, c);
    } else {
      AfterByteStore(s, b, c);
    }
  }

  lemma OutsideCounts(s: State, b: nat, c: nat, p: nat)
    requires Inv(s) && s.producer == PIdle && (p == 0 || p == 4)
    ensures BothCounted(s, InjectAround(Two(s, PIdle, 0, 0), b, c, p).ring, true)
  {
    UninterruptedAt(s, b, c, p);
    hide Slot, InjectAround, WholePush;
    WholePushIs(s, b);
    WholePushIs(s, c);
    WholePushIs(WholePush(s, b), c);
    WholePushIs(WholePush(s, c), b);
  }

  // At every fill level, one interrupt inside one inject: both pushes are in the ring by its indices or
  // counted as dropped if and only if the ring was full or the handler ran before inject's first access
  // or after its last.
  lemma OneInterrupt(s: State, b: nat, c: nat, p: nat)
    requires Inv(s) && s.producer == PIdle && p <= 4
    ensures var f := InjectAround(Two(s, PIdle, 0, 0), b, c, p).ring;
      && f.pushes == s.pushes + 2 && f.delivered == s.delivered
      && (f.pushes == |f.delivered| + Distance(f.head, f.tail) + f.dropped <==>
            |Queued(s)| == RING_SIZE - 1 || p == 0 || p == 4)
  {
    hide Slot, InjectAround;
    if 1 <= p <= 3 {
      InsideCounts(s, b, c, p);
    } else {
      OutsideCounts(s, b, c, p);
    }
    InjectAccounts(Two(s, PIdle, 0, 0), b, c, p);
    var f := InjectAround(Two(s, PIdle, 0, 0), b, c, p).ring;
    DistanceIs(|f.accepted|, |f.delivered|);
  }

  // --- a consumer that gets ahead -------------------------------------------------------------

  // A whole pop, on the two-producer state.
  function PopTwo(t: Two): Two {
    TwoNext(TwoNext(TwoNext(TwoNext(t, Main(Pop)), Main(ConsumerStep)), Main(ConsumerStep)), Main(ConsumerStep))
  }

  // Two interrupts inside an inject on an empty ring.
  lemma TwoPushed(s: State, b: nat, c: nat, d: nat)
    requires Inv(s) && s.producer == PIdle && s.consumer == CIdle && |s.delivered| == |s.accepted|
    ensures s.head == s.tail && s.head < |s.buf| && Bump(s.head) < |s.buf|
    ensures var t := TwoNext(Two(s, PIdle, 0, 0), Main(Push(b)));
      var pushed := s.(buf := s.buf[s.head := c][Bump(s.head) := d], head := Bump(Bump(s.head)),
                       pushes := s.pushes + 2, accepted := s.accepted + [c] + [d]);
      Inv(pushed) && IrqWhole(IrqWhole(t, c), d) == Two(pushed.(producer := PLoadedHead(b, s.head)), PIdle, 2, 0)
  {
    hide Slot, Inv;
    WholePopIs(s);
    WholePushIs(s, c);
    var t, s1 := TwoNext(Two(s, PIdle, 0, 0), Main(Push(b))), WholePush(s, c);
    IrqWholeIs(t, c);
    WholePushIs(s1, d);
    assert IrqWhole(t, c).ring.(producer := PIdle) == s1;
    IrqWholeIs(IrqWhole(t, c), d);
  }

  // And the consumer takes both.
  lemma TwoPopped(s: State, c: nat, d: nat, p: Producer)
    requires Inv(s) && s.producer == PIdle && s.consumer == CIdle && !p.PIdle?
    requires |s.accepted| == |s.delivered| + 2 && s.tail < |s.buf| && Bump(s.tail) < |s.buf|
    requires s.buf[s.tail] == c && s.buf[Bump(s.tail)] == d
    ensures var t := Two(s.(producer := p), PIdle, 2, 0);
      PopTwo(PopTwo(t)) ==
      t.(ring := t.ring.(tail := Bump(Bump(s.tail)), delivered := s.delivered + [c] + [d]))
  {
    hide Slot, Inv, PopTwo;
    var t, s1 := Two(s.(producer := p), PIdle, 2, 0), WholePop(s);
    assert t.ring.(producer := PIdle) == s;
    WholePopIs(s);
    PopTwoIs(t);
    WholePopIs(s1);
    assert PopTwo(t).ring.(producer := PIdle) == s1;
    PopTwoIs(PopTwo(t));
  }

  // The inject around two interrupts and two pops.
  function InjectPassed(s: State, b: nat, c: nat, d: nat): Two {
    var t := TwoNext(Two(s, PIdle, 0, 0), Main(Push(b)));
    var u := PopTwo(PopTwo(IrqWhole(IrqWhole(t, c), d)));
    TwoNext(TwoNext(TwoNext(u, Main(ProducerStep)), Main(ProducerStep)), Main(ProducerStep))
  }

  // Two interrupts and two pops inside one inject on an empty ring: head ends one behind tail, inject's
  // byte is outside, the ring looks all but full, and the next pop delivers a byte of an earlier lap.
  lemma HeadFallsBehind(s: State, b: nat, c: nat, d: nat)
    requires Inv(s) && s.producer == PIdle && s.consumer == CIdle && |s.delivered| == |s.accepted|
    ensures var f := InjectPassed(s, b, c, d).ring;
      && f.delivered == s.delivered + [c, d] && f.accepted == s.accepted + [b]
      && f.tail == Bump(f.head) && Distance(f.head, f.tail) == RING_SIZE - 1
    ensures var next := Bump(Bump(s.head));
      && next < |s.buf|
      && PopTwo(InjectPassed(s, b, c, d)).ring.delivered == s.delivered + [c, d] + [s.buf[next]]
  {
    hide Slot, Inv, PopTwo, IrqWhole;
    TwoPushed(s, b, c, d);
    var pushed := s.(buf := s.buf[s.head := c][Bump(s.head) := d], head := Bump(Bump(s.head)),
                     pushes := s.pushes + 2, accepted := s.accepted + [c] + [d]);
    TwoPopped(pushed, c, d, PLoadedHead(b, s.head));
    assert (s.accepted + [c] + [d])[..|s.accepted|] == s.accepted;
    assert s.delivered + [c] + [d] == s.delivered + [c, d];
    Wide(s);
    BehindPops(InjectPassed(s, b, c, d));
  }

  lemma Wide(s: State)
    requires Inv(s)
    ensures |s.buf| == RING_SIZE && s.head < RING_SIZE
  {
  }

  lemma BehindPops(t: Two)
    requires t.ring.consumer == CIdle && t.ring.producer == PIdle && t.over == 0
    requires t.ring.head != t.ring.tail && t.ring.tail < |t.ring.buf|
    ensures PopTwo(t).ring.delivered == t.ring.delivered + [t.ring.buf[t.ring.tail]]
  {
  }

  // On a new ring that byte was never pushed: with any bytes but zero, the consumer gets a zero.
  lemma OffersUnpushed(b: nat, c: nat, d: nat)
    requires b != 0 && c != 0 && d != 0
    ensures PopTwo(InjectPassed(Init(), b, c, d)).ring.delivered == [c, d, 0]
  {
    InitInv();
    HeadFallsBehind(Init(), b, c, d);
    assert [] + [c, d] + [0] == [c, d, 0];
  }

  lemma PopTwoIs(t: Two)
    requires Inv(t.ring.(producer := PIdle)) && t.ring.consumer == CIdle
    requires t.ring.producer.PIdle? ==> t.over == 0
    ensures PopTwo(t) == t.(ring := WholePop(t.ring.(producer := PIdle)).(producer := t.ring.producer))
  {
    hide Slot;
    WholePopIs(t.ring.(producer := PIdle));
  }
}
