/**
 The keyboard poller's loop over both rings.  It re-arms the endpoint for every Transfer Event it takes,
 whichever device the event is from, so each foreign one adds a report to those outstanding.
 */
module XhciReports {
  import opened XhciTransferRing

  // A Transfer Event of the keyboard's endpoint, one of another device, or any other event.
  datatype Event = Own | Foreign | Other

  datatype Poller = Poller(
    ep: State,            // the endpoint's transfer ring
    events: seq<Event>,   // every event posted past the poller's starting cursor
    seen: nat)            // how many of them the poller has taken

  datatype Act = DriverWrite | ControllerLook(short: bool) | Post(e: Event) | Service(p: Payload)

  function Count(events: seq<Event>, e: Event): nat {
    if events == [] then 0
    else Count(events[..|events| - 1], e) + (if events[|events| - 1] == e then 1 else 0)
  }

  // The endpoint is configured and `arm_report` has been called once.
  function Begin(baseLo: nat, baseHi: nat, p: Payload): Poller {
    Poller(Start(Init(baseLo, baseHi), p), [], 0)
  }

  // The poller takes an event only between calls of `arm_report`; the controller reports the TRBs it
  // executes that ask for it, and posts the events of other devices and ports at any time.
  ghost function Next(r: Poller, a: Act): Poller
    requires Shape(r.ep)
  {
    match a
    case DriverWrite => if r.ep.pc.Idle? then r else r.(ep := Write(r.ep))
    case ControllerLook(short) =>
      var ep := Controller(r.ep);
      r.(ep := ep, events := if |ep.fetched| > |r.ep.fetched| && Reports(r.ep.ring[r.ep.deq], short)
                             then r.events + [Own] else r.events)
    case Post(e) => if e.Own? then r else r.(events := r.events + [e])
    case Service(p) =>
      if !r.ep.pc.Idle? || r.seen >= |r.events| then r
      else if r.events[r.seen].Other? then r.(seen := r.seen + 1)
      else r.(seen := r.seen + 1, ep := Start(r.ep, p))
  }

  function Busy(r: Poller): nat {
    if r.ep.pc.Idle? then 0 else 1
  }

  function Taken(r: Poller, e: Event): nat
    requires r.seen <= |r.events|
  {
    Count(r.events[..r.seen], e)
  }

  // Every Transfer Event taken, and the first call, has armed or is arming one TRB; every TRB executed
  // has posted one event.
  ghost predicate Ledger(r: Poller) {
    && Shape(r.ep) && r.seen <= |r.events|
    && Count(r.events, Own) == |r.ep.fetched|
    && |r.ep.armed| + Busy(r) == 1 + Taken(r, Own) + Taken(r, Foreign)
  }

  lemma BeginLedger(baseLo: nat, baseHi: nat, p: Payload)
    ensures Ledger(Begin(baseLo, baseHi, p)) && Inv(Begin(baseLo, baseHi, p).ep)
  {
    hide SlotOk, LinkOk, Partial;
    InitInv(baseLo, baseHi);
    StartInv(Init(baseLo, baseHi), p);
    InvShape(Begin(baseLo, baseHi, p).ep);
  }

  lemma CountSnoc(events: seq<Event>, x: Event, e: Event)
    ensures Count(events + [x], e) == Count(events, e) + (if x == e then 1 else 0)
  {
    assert (events + [x])[..|events|] == events;
  }

  lemma {:induction false} CountPrefix(events: seq<Event>, n: nat, e: Event)
    requires n <= |events|
    ensures Count(events[..n], e) <= Count(events, e)
    decreases |events|
  {
    if n == |events| {
      assert events[..n] == events;
    } else {
      CountPrefix(events[..|events| - 1], n, e);
      assert events[..|events| - 1][..n] == events[..n];
    }
  }

  lemma PostedLedger(r: Poller, x: Event, e: Event)
    requires r.seen <= |r.events|
    ensures (r.events + [x])[..r.seen] == r.events[..r.seen]
    ensures Count(r.events + [x], e) == Count(r.events, e) + (if x == e then 1 else 0)
  {
    CountSnoc(r.events, x, e);
  }

  lemma TakenStep(r: Poller, e: Event)
    requires r.seen < |r.events|
    ensures Count(r.events[..r.seen + 1], e) == Count(r.events[..r.seen], e) + (if r.events[r.seen] == e then 1 else 0)
  {
    assert r.events[..r.seen + 1] == r.events[..r.seen] + [r.events[r.seen]];
    CountSnoc(r.events[..r.seen], r.events[r.seen], e);
  }

  lemma NextLedger(r: Poller, a: Act)
    requires Ledger(r)
    ensures Ledger(Next(r, a))
  {
    hide Shape, Count, Write, Controller;
    match a
    case DriverWrite =>
      if !r.ep.pc.Idle? {
        WriteShape(r.ep);
      }
    case ControllerLook(short) =>
      ControllerShape(r.ep);
      PostedLedger(r, Own, Own);
      PostedLedger(r, Own, Foreign);
    case Post(e) =>
      PostedLedger(r, e, Own);
      PostedLedger(r, e, Foreign);
    case Service(p) =>
      if r.ep.pc.Idle? && r.seen < |r.events| {
        TakenStep(r, Own);
        TakenStep(r, Foreign);
        StartShape(r.ep, p);
      }
  }

  ghost function Run(r: Poller, acts: seq<Act>): (r': Poller)
    requires Ledger(r)
    ensures Ledger(r')
    decreases |acts|
  {
    if acts == [] then r
    else
      NextLedger(r, acts[0]);
      Run(Next(r, acts[0]), acts[1..])
  }

  // Reports armed or being armed and not executed, and executed ones whose event the poller has not
  // taken.
  ghost function Outstanding(r: Poller): int {
    |r.ep.armed| + Busy(r) - |r.ep.fetched|
  }

  ghost function Unseen(r: Poller): int
    requires r.seen <= |r.events|
  {
    Count(r.events, Own) - Taken(r, Own)
  }

  // In every run, outstanding reports and unseen own events make one plus the foreign Transfer Events
  // taken: at most one report is out, with none unseen, if and only if none was taken.
  lemma OneReportAndTheForeign(baseLo: nat, baseHi: nat, p: Payload, acts: seq<Act>)
    ensures Ledger(Begin(baseLo, baseHi, p))
    ensures var r := Run(Begin(baseLo, baseHi, p), acts);
      && Outstanding(r) + Unseen(r) == 1 + Taken(r, Foreign)
      && Unseen(r) >= 0
      && (Outstanding(r) + Unseen(r) <= 1 <==> Taken(r, Foreign) == 0)
  {
    hide Shape, Count;
    BeginLedger(baseLo, baseHi, p);
    var r := Run(Begin(baseLo, baseHi, p), acts);
    CountPrefix(r.events, r.seen, Own);
  }

  // --- how many foreign events the ring bears -------------------------------------------------

  lemma NextKeepsRing(r: Poller, a: Act)
    requires Ledger(r) && Inv(r.ep) && Ledger(Next(r, a)) && Taken(Next(r, a), Foreign) < LAST
    ensures Inv(Next(r, a).ep)
  {
    hide SlotOk, LinkOk, Partial, Count, Write, Controller, Shape;
    match a
    case DriverWrite => ApplyInv(r.ep, DoWrite);
    case ControllerLook(short) => ControllerInv(r.ep);
    case Post(e) =>
    case Service(p) =>
      if r.ep.pc.Idle? && r.seen < |r.events| && !r.events[r.seen].Other? {
        TakenStep(r, Own);
        TakenStep(r, Foreign);
        CountPrefix(r.events, r.seen + 1, Own);
        StartInv(r.ep, p);
      }
  }

  lemma TakenGrows(r: Poller, a: Act)
    requires Ledger(r)
    ensures Ledger(Next(r, a)) && Taken(r, Foreign) <= Taken(Next(r, a), Foreign)
  {
    hide Shape, Count, Write, Controller;
    NextLedger(r, a);
    if r.seen < |r.events| {
      TakenStep(r, Foreign);
    }
    PostedLedger(r, Own, Foreign);
    PostedLedger(r, Foreign, Foreign);
    PostedLedger(r, Other, Foreign);
  }

  lemma {:induction false} RunGrows(r: Poller, acts: seq<Act>)
    requires Ledger(r)
    ensures Taken(r, Foreign) <= Taken(Run(r, acts), Foreign)
    decreases |acts|
  {
    hide Ledger, Count, Next;
    if acts != [] {
      TakenGrows(r, acts[0]);
      Small(r);
      Small(Next(r, acts[0]));
      RunGrows(Next(r, acts[0]), acts[1..]);
    }
  }

  lemma Small(r: Poller)
    requires Ledger(r)
    ensures r.seen <= |r.events| && Shape(r.ep)
  {
  }

  lemma {:induction false} RunKeepsRing(r: Poller, acts: seq<Act>)
    requires Ledger(r) && Inv(r.ep) && Taken(Run(r, acts), Foreign) < LAST
    ensures Inv(Run(r, acts).ep)
    decreases |acts|
  {
    hide Count, Next, Inv, Shape;
    if acts != [] {
      NextLedger(r, acts[0]);
      RunGrows(Next(r, acts[0]), acts[1..]);
      NextKeepsRing(r, acts[0]);
      RunKeepsRing(Next(r, acts[0]), acts[1..]);
    }
  }

  lemma {:induction false} RunJoin(r: Poller, a: seq<Act>, b: seq<Act>)
    requires Ledger(r)
    ensures Run(Run(r, a), b) == Run(r, a + b)
    decreases |a|
  {
    hide Shape, Count, Next;
    if a == [] {
      assert a + b == b;
    } else {
      NextLedger(r, a[0]);
      RunJoin(Next(r, a[0]), a[1..], b);
      assert (a + b)[1..] == a[1..] + b && (a + b)[0] == a[0];
    }
  }

  // --- serving in order -------------------------------------------------------------------------

  // The controller has executed a prefix of the armed TRBs, and executes the next within two looks.
  ghost predicate Serves(s: State) {
    && Shape(s) && s.fetched <= s.armed
    && (|s.fetched| < |s.armed| ==>
          var next := s.fetched + [s.armed[|s.fetched|]];
          Controller(s).fetched == next || (Shape(Controller(s)) && Controller(Controller(s)).fetched == next))
  }

  lemma InvServes(s: State)
    requires Inv(s)
    ensures Serves(s)
  {
    hide SlotOk, LinkOk, Partial, Shape;
    InvShape(s);
    ControllerShape(s);
    if |s.fetched| < |s.armed| {
      ControllerProgress(s);
    }
  }

  // The writes left of the call under way.
  ghost function WriteAll(s: State): State
    requires Shape(s)
    decreases if s.pc.Idle? then 0 else if s.pc.Filling? then 4 - s.pc.i else 8 - s.pc.i
  {
    if s.pc.Idle? then s
    else
      WriteShape(s);
      WriteAll(Write(s))
  }

  lemma WriteOne(s: State)
    requires Shape(s) && !s.pc.Idle?
    ensures Shape(Write(s)) && WriteAll(s) == WriteAll(Write(s))
  {
    WriteShape(s);
  }

  lemma WriteAllArm(s: State, p: Payload)
    requires Shape(s) && s.pc.Idle?
    ensures Shape(Start(s, p)) && WriteAll(Start(s, p)) == Arm(s, p)
  {
    StartShape(s, p);
    var s0 := Start(s, p);
    if s.enq == LAST {
      LinkWrites(s0);
      FourWrites(s0);
      FillWrites(Write(Write(Write(Write(s0)))));
      FourWrites(Write(Write(Write(Write(s0)))));
    } else {
      FillWrites(s0);
      FourWrites(s0);
    }
    hide WriteAll;
    ArmIs(s, p);
    Written(Arm(s, p));
  }

  lemma Written(s: State)
    requires Shape(s) && s.pc.Idle?
    ensures WriteAll(s) == s
  {
  }

  lemma FourWrites(s: State)
    requires Shape(s) && !s.pc.Idle? && s.pc.i == 0
    ensures Shape(Write(s)) && Shape(Write(Write(s))) && Shape(Write(Write(Write(s))))
    ensures !Write(s).pc.Idle? && !Write(Write(s)).pc.Idle? && !Write(Write(Write(s))).pc.Idle?
    ensures Shape(Write(Write(Write(Write(s))))) && WriteAll(s) == WriteAll(Write(Write(Write(Write(s)))))
  {
    hide WriteAll;
    WriteOne(s);
    WriteOne(Write(s));
    WriteOne(Write(Write(s)));
    WriteOne(Write(Write(Write(s))));
  }

  // --- runs ---------------------------------------------------------------------------------------

  // Driver writes to the end of the call under way.
  lemma {:induction false} Finish(r: Poller) returns (acts: seq<Act>)
    requires Ledger(r)
    ensures Run(r, acts) == r.(ep := WriteAll(r.ep))
    decreases if r.ep.pc.Idle? then 0 else if r.ep.pc.Filling? then 4 - r.ep.pc.i else 8 - r.ep.pc.i
  {
    hide Count;
    acts := [];
    if !r.ep.pc.Idle? {
      NextLedger(r, DriverWrite);
      WriteShape(r.ep);
      var rest := Finish(Next(r, DriverWrite));
      acts := [DriverWrite] + rest;
      assert acts[1..] == rest;
    }
  }

  lemma OneAct(r: Poller, a: Act)
    requires Ledger(r)
    ensures Ledger(Next(r, a)) && Run(r, [a]) == Next(r, a)
  {
    hide Shape, Count, Next;
    NextLedger(r, a);
    assert [a][1..] == [];
  }

  lemma RunCons(r: Poller, a: Act, rest: seq<Act>)
    requires Ledger(r)
    ensures Ledger(Next(r, a)) && Run(r, [a] + rest) == Run(Next(r, a), rest)
  {
    hide Shape, Count, Next;
    NextLedger(r, a);
    assert ([a] + rest)[1..] == rest;
  }

  // The first n events are foreign Transfer Events.
  ghost predicate Lined(r: Poller, n: nat) {
    n <= |r.events| && forall i :: 0 <= i < n ==> r.events[i] == Foreign
  }

  lemma {:induction false} LinedTaken(events: seq<Event>, k: nat)
    requires k <= |events| && forall i :: 0 <= i < k ==> events[i] == Foreign
    ensures Count(events[..k], Foreign) == k
    decreases k
  {
    if k > 0 {
      LinedTaken(events, k - 1);
      assert events[..k] == events[..k - 1] + [Foreign];
      CountSnoc(events[..k - 1], Foreign, Foreign);
    }
  }

  // Post n of them.
  lemma {:induction false} LineUp(r: Poller, n: nat) returns (acts: seq<Act>)
    requires Ledger(r) && r.events == []
    ensures var f := Run(r, acts); f.ep == r.ep && f.seen == r.seen && |f.events| == n && Lined(f, n)
    decreases n
  {
    hide Shape, Count;
    acts := [];
    if n > 0 {
      var before := LineUp(r, n - 1);
      acts := before + [Post(Foreign)];
      RunJoin(r, before, [Post(Foreign)]);
      OneAct(Run(r, before), Post(Foreign));
    }
  }

  // The poller takes a foreign Transfer Event and arms for it.
  lemma TakeForeign(r: Poller, p: Payload) returns (acts: seq<Act>)
    requires Ledger(r) && r.ep.pc.Idle? && r.seen < |r.events| && r.events[r.seen] == Foreign
    ensures Run(r, acts) == r.(ep := Arm(r.ep, p), seen := r.seen + 1)
  {
    hide Shape, Count, WriteAll, Arm;
    NextLedger(r, Service(p));
    var rest := Finish(Next(r, Service(p)));
    acts := [Service(p)] + rest;
    RunCons(r, Service(p), rest);
    WriteAllArm(r.ep, p);
  }

  // The controller executes the next TRB.
  lemma Execute(r: Poller) returns (acts: seq<Act>)
    requires Ledger(r) && Inv(r.ep) && r.ep.pc.Idle? && |r.ep.fetched| < |r.ep.armed|
    ensures var f := Run(r, acts);
      && Inv(f.ep) && f.ep.pc.Idle? && f.ep.armed == r.ep.armed && |f.ep.fetched| == |r.ep.fetched| + 1
      && f.events == r.events + [Own] && f.seen == r.seen
  {
    hide SlotOk, LinkOk, Partial, Shape, Count, Controller;
    ControllerProgress(r.ep);
    ControllerInv(r.ep);
    ControllerShape(r.ep);
    OneAct(r, ControllerLook(false));
    var r1 := Next(r, ControllerLook(false));
    if |r1.ep.fetched| > |r.ep.fetched| {
      acts := [ControllerLook(false)];
    } else {
      ControllerInv(r1.ep);
      ControllerShape(r1.ep);
      OneAct(r1, ControllerLook(false));
      RunCons(r, ControllerLook(false), [ControllerLook(false)]);
      acts := [ControllerLook(false)] + [ControllerLook(false)];
    }
  }

  // x foreign events taken, f TRBs executed.
  ghost predicate Stands(r: Poller, n: nat, x: nat, f: nat) {
    && Ledger(r) && Inv(r.ep) && r.ep.pc.Idle? && Lined(r, n)
    && r.seen == x && |r.ep.armed| == x + 1 && |r.ep.fetched| == f
  }

  lemma StepTaken(r: Poller, p: Payload, n: nat, x: nat, f: nat) returns (acts: seq<Act>)
    requires Stands(r, n, x, f) && x < n && x + 1 < f + LAST
    ensures Stands(Run(r, acts), n, x + 1, f)
  {
    hide SlotOk, LinkOk, Partial, Count;
    acts := TakeForeign(r, p);
    ArmInvIff(r.ep, p);
    ArmIs(r.ep, p);
  }

  lemma StepExecuted(r: Poller, n: nat, x: nat, f: nat) returns (acts: seq<Act>)
    requires Stands(r, n, x, f) && f <= x
    ensures Stands(Run(r, acts), n, x, f + 1)
  {
    hide SlotOk, LinkOk, Partial, Count, Shape;
    acts := Execute(r);
  }

  // The controller keeps up with f foreign events; then j more are taken while it does not look.
  lemma {:induction false} Fall(baseLo: nat, baseHi: nat, p: Payload, n: nat, f: nat, j: nat) returns (acts: seq<Act>)
    requires f + j <= n && j < LAST
    ensures Ledger(Begin(baseLo, baseHi, p)) && Stands(Run(Begin(baseLo, baseHi, p), acts), n, f + j, f)
    decreases f, j
  {
    hide Stands, Ledger;
    var begin := Begin(baseLo, baseHi, p);
    BeginLedger(baseLo, baseHi, p);
    if f == 0 && j == 0 {
      acts := Stand(baseLo, baseHi, p, n);
    } else {
      var before, rest;
      if j > 0 {
        before := Fall(baseLo, baseHi, p, n, f, j - 1);
        rest := StepTaken(Run(begin, before), p, n, f + j - 1, f);
      } else {
        before := Fall(baseLo, baseHi, p, n, f - 1, 0);
        var look := StepExecuted(Run(begin, before), n, f - 1, f - 1);
        RunJoin(begin, before, look);
        before := before + look;
        rest := StepTaken(Run(begin, before), p, n, f - 1, f);
      }
      RunJoin(begin, before, rest);
      acts := before + rest;
    }
  }

  lemma Stand(baseLo: nat, baseHi: nat, p: Payload, n: nat) returns (acts: seq<Act>)
    ensures Ledger(Begin(baseLo, baseHi, p)) && Stands(Run(Begin(baseLo, baseHi, p), acts), n, 0, 0)
  {
    hide SlotOk, LinkOk, Partial, Count, WriteAll;
    var begin := Begin(baseLo, baseHi, p);
    BeginLedger(baseLo, baseHi, p);
    var line := LineUp(begin, n);
    var rest := Finish(Run(begin, line));
    RunJoin(begin, line, rest);
    acts := line + rest;
    InitInv(baseLo, baseHi);
    InvShape(Init(baseLo, baseHi));
    WriteAllArm(Init(baseLo, baseHi), p);
    ArmInvIff(Init(baseLo, baseHi), p);
    ArmIs(Init(baseLo, baseHi), p);
  }

  // One foreign Transfer Event is enough for two outstanding reports.
  lemma TwoReportsOutstanding(baseLo: nat, baseHi: nat, p: Payload) returns (acts: seq<Act>)
    ensures Ledger(Begin(baseLo, baseHi, p))
    ensures var r := Run(Begin(baseLo, baseHi, p), acts);
      Taken(r, Foreign) == 1 && Outstanding(r) == 2
  {
    hide SlotOk, LinkOk, Partial, Shape, Count;
    acts := Fall(baseLo, baseHi, p, 1, 0, 1);
    LinedTaken(Run(Begin(baseLo, baseHi, p), acts).events, 1);
  }

  // n of them, for any n above 254, can bring the controller to a halt with TRBs waiting.
  lemma Halted(baseLo: nat, baseHi: nat, p: Payload, n: nat) returns (acts: seq<Act>)
    requires n >= LAST
    ensures Ledger(Begin(baseLo, baseHi, p))
    ensures var r := Run(Begin(baseLo, baseHi, p), acts);
      && Taken(r, Foreign) == n && Shape(r.ep)
      && |r.ep.fetched| < |r.ep.armed| && Controller(r.ep) == r.ep && !Serves(r.ep)
  {
    hide SlotOk, LinkOk, Partial, Count;
    var begin := Begin(baseLo, baseHi, p);
    var before := Fall(baseLo, baseHi, p, n, n - LAST, LAST - 1);
    var r := Run(begin, before);
    var last := TakeForeign(r, p);
    RunJoin(begin, before, last);
    acts := before + last;
    OneTooMany(r.ep, p);
    ArmIs(r.ep, p);
    LinedTaken(r.events, n);
    assert Controller(Arm(r.ep, p)).fetched == r.ep.fetched;
  }

  // The controller serves the endpoint's TRBs in order in every run with n foreign Transfer Events taken
  // if and only if n is at most 254.
  lemma ForeignBound(baseLo: nat, baseHi: nat, p: Payload, n: nat)
    ensures Ledger(Begin(baseLo, baseHi, p))
    ensures (forall acts :: Taken(Run(Begin(baseLo, baseHi, p), acts), Foreign) == n
                        ==> Serves(Run(Begin(baseLo, baseHi, p), acts).ep))
       <==> n < LAST
  {
    hide Inv, Shape, Count, Serves;
    BeginLedger(baseLo, baseHi, p);
    var begin := Begin(baseLo, baseHi, p);
    if n < LAST {
      forall acts | Taken(Run(begin, acts), Foreign) == n ensures Serves(Run(begin, acts).ep) {
        RunKeepsRing(begin, acts);
        InvServes(Run(begin, acts).ep);
      }
    } else {
      var acts := Halted(baseLo, baseHi, p, n);
      assert Taken(Run(begin, acts), Foreign) == n && !Serves(Run(begin, acts).ep);
    }
  }
}
