/**
 The keyboard poller over the real event ring: XhciReports with the sixteen-slot ring of XhciEventRing in
 place of a queue.  While the poller keeps up nothing changes; one that first looks too late takes
 nothing, and so never re-arms.
 */
module XhciKeyboard {
  import E = XhciEventRing
  import L = LapRing
  import T = XhciTransferRing
  import R = XhciReports

  const TRB_TYPE_TRANSFER: nat := 32

  datatype Kbd = Kbd(
    ring: E.Ring, c: E.Cursor,
    ep: T.State,
    tags: seq<R.Event>)     // whose event each posted one is

  datatype Act =
    | DriverWrite
    | Look(short: bool, status: nat)                      // the controller at the endpoint
    | Device(e: R.Event, status: nat, control: nat)       // an event of another device or port
    | FirstLoad
    | SecondLoad(p: T.Payload)

  function PostEvent(r: E.Ring, status: nat, control: nat): E.Ring {
    E.Post(E.Post(r, E.WriteStatus(status)), E.WriteControl(control))
  }

  function IsTransfer(control: nat): bool {
    E.Kind(control) == TRB_TYPE_TRANSFER
  }

  // `service` polls only between calls of `arm_report`, and re-arms for every Transfer Event.
  ghost function Next(k: Kbd, a: Act): Kbd
    requires T.Shape(k.ep)
  {
    match a
    case DriverWrite => if k.ep.pc.Idle? then k else k.(ep := T.Write(k.ep))
    case Look(short, status) =>
      var ep := T.Controller(k.ep);
      if |ep.fetched| > |k.ep.fetched| && T.Reports(k.ep.ring[k.ep.deq], short)
      then k.(ep := ep, ring := PostEvent(k.ring, status, TRB_TYPE_TRANSFER * 0x400), tags := k.tags + [R.Own])
      else k.(ep := ep)
    case Device(e, status, control) =>
      if e.Own? || (e.Foreign? <==> !IsTransfer(control)) then k
      else k.(ring := PostEvent(k.ring, status, control), tags := k.tags + [e])
    case FirstLoad => if k.ep.pc.Idle? then k.(c := E.Load(k.ring, k.c)) else k
    case SecondLoad(p) =>
      if !k.ep.pc.Idle? then k
      else
        var c := E.Take(k.ring, k.c);
        if |c.seen| > |k.c.seen| && c.seen[|k.c.seen|].kind == TRB_TYPE_TRANSFER
        then k.(c := c, ep := T.Start(k.ep, p)) else k.(c := c)
  }

  ghost predicate Tagged(r: E.Ring, tags: seq<R.Event>) {
    && |r.statuses| == |r.controls| == |tags|
    && (forall i :: 0 <= i < |tags| ==> (tags[i].Other? <==> !IsTransfer(r.controls[i])))
  }

  ghost predicate KInv(k: Kbd) {
    T.Shape(k.ep) && E.CursorOk(k.ring, k.c) && Tagged(k.ring, k.tags)
  }

  // --- posting --------------------------------------------------------------------------------

  lemma PostedEvent(r: E.Ring, c: E.Cursor, tags: seq<R.Event>, status: nat, control: nat, e: R.Event)
    requires E.CursorOk(r, c) && Tagged(r, tags) && (e.Other? <==> !IsTransfer(control))
    ensures var r' := PostEvent(r, status, control);
      && E.CursorOk(r', c) && Tagged(r', tags + [e]) && |r'.controls| == |r.controls| + 1
  {
    hide E.CursorOk, E.RingOk, E.WithBit, E.Kind;
    var r1 := E.Post(r, E.WriteStatus(status));
    E.PostKeepsCursor(r, E.WriteStatus(status), c);
    E.PostKeepsCursor(r1, E.WriteControl(control), c);
    E.Ready(r, c);
    E.Ready(r1, c);
    E.BitCleared(control, r1.bit);
    assert PostEvent(r, status, control).controls == r.controls + [E.WithBit(control, r1.bit)];
  }

  lemma OwnKind()
    ensures IsTransfer(TRB_TYPE_TRANSFER * 0x400)
  {
  }

  lemma NextKInv(k: Kbd, a: Act)
    requires KInv(k)
    ensures KInv(Next(k, a))
  {
    hide E.CursorOk, T.Shape, Tagged, E.Take, E.Load, PostEvent, T.Controller, T.Write, IsTransfer;
    match a
    case DriverWrite =>
      if !k.ep.pc.Idle? {
        T.WriteShape(k.ep);
      }
    case Look(short, status) =>
      T.ControllerShape(k.ep);
      OwnKind();
      PostedEvent(k.ring, k.c, k.tags, status, TRB_TYPE_TRANSFER * 0x400, R.Own);
    case Device(e, status, control) =>
      if e.Other? <==> !IsTransfer(control) {
        PostedEvent(k.ring, k.c, k.tags, status, control, e);
      }
    case FirstLoad => E.LoadOk(k.ring, k.c);
    case SecondLoad(p) =>
      E.TakeOk(k.ring, k.c);
      if k.ep.pc.Idle? {
        T.StartShape(k.ep, p);
      }
  }

  // --- a poller that keeps up -------------------------------------------------------------------

  // The events past the poller's start, as a queue.
  ghost function Queue(k: Kbd): R.Poller
    requires k.c.start <= k.c.taken <= |k.tags|
  {
    R.Poller(k.ep, k.tags[k.c.start..], k.c.taken - k.c.start)
  }

  lemma InOrder(k: Kbd)
    requires KInv(k)
    ensures k.c.start <= k.c.taken <= |k.tags|
  {
  }

  // What the second load does, in terms of the tags.
  lemma TakeTagged(k: Kbd)
    requires KInv(k)
    ensures var c := E.Take(k.ring, k.c);
      && c.start == k.c.start
      && (!c.late ==>
            || (c.taken == k.c.taken && |c.seen| == |k.c.seen|)
            || (&& c.taken == k.c.taken + 1 <= |k.tags| && |c.seen| == |k.c.seen| + 1
                && (c.seen[|k.c.seen|].kind == TRB_TYPE_TRANSFER <==> !k.tags[k.c.taken].Other?)))
  {
    hide L.Posted, L.Lap, E.Holds, E.SeenOk, E.Kind, E.Code;
    if k.c.loaded.Status? {
      E.Indexed(k.ring, k.c);
      E.TakeKeeps(k.ring, k.c);
      if !E.TooFar(k.ring, k.c) {
        E.TakeIs(k.ring, k.c);
      }
    }
  }

  lemma LateStays(k: Kbd, a: Act)
    requires T.Shape(k.ep) && k.c.late
    ensures Next(k, a).c.late
  {
    hide E.Kind, E.Code, PostEvent, T.Controller, T.Write;
  }

  lemma MoreTags(tags: seq<R.Event>, start: nat, e: R.Event)
    requires start <= |tags|
    ensures (tags + [e])[start..] == tags[start..] + [e]
  {
  }

  // While the poller has not been late, its queue makes the step XhciReports allows, or none.
  lemma LedgerStep(k: Kbd, a: Act)
    requires KInv(k) && k.c.start <= k.c.taken <= |k.tags| && R.Ledger(Queue(k)) && !Next(k, a).c.late
    ensures var k' := Next(k, a); k'.c.start <= k'.c.taken <= |k'.tags| && R.Ledger(Queue(k'))
  {
    hide E.CursorOk, T.Shape, Tagged, E.Take, PostEvent, T.Controller, T.Write, IsTransfer, R.Ledger;
    NextKInv(k, a);
    InOrder(Next(k, a));
    var q := Queue(k);
    match a
    case DriverWrite => R.NextLedger(q, R.DriverWrite);
    case Look(short, status) =>
      R.NextLedger(q, R.ControllerLook(short));
      MoreTags(k.tags, k.c.start, R.Own);
    case Device(e, status, control) =>
      R.NextLedger(q, R.Post(e));
      MoreTags(k.tags, k.c.start, e);
    case FirstLoad =>
    case SecondLoad(p) =>
      TakeTagged(k);
      R.NextLedger(q, R.Service(p));
      if k.c.taken < |k.tags| {
        assert k.tags[k.c.start..][k.c.taken - k.c.start] == k.tags[k.c.taken];
      }
  }

  ghost function Run(k: Kbd, acts: seq<Act>): (r: Kbd)
    requires KInv(k)
    ensures KInv(r)
    decreases |acts|
  {
    if acts == [] then k
    else
      NextKInv(k, acts[0]);
      Run(Next(k, acts[0]), acts[1..])
  }

  lemma {:induction false} LateRun(k: Kbd, acts: seq<Act>)
    requires KInv(k) && k.c.late
    ensures Run(k, acts).c.late
    decreases |acts|
  {
    hide E.CursorOk, T.Shape, Tagged, Next;
    if acts != [] {
      NextKInv(k, acts[0]);
      LateStays(k, acts[0]);
      LateRun(Next(k, acts[0]), acts[1..]);
    }
  }

  lemma {:induction false} LedgerRun(k: Kbd, acts: seq<Act>)
    requires KInv(k) && k.c.start <= k.c.taken <= |k.tags| && R.Ledger(Queue(k)) && !Run(k, acts).c.late
    ensures var f := Run(k, acts); f.c.start <= f.c.taken <= |f.tags| && R.Ledger(Queue(f))
    decreases |acts|
  {
    hide E.CursorOk, T.Shape, Tagged, Next, R.Ledger, Queue;
    if acts != [] {
      NextKInv(k, acts[0]);
      if Next(k, acts[0]).c.late {
        LateRun(Next(k, acts[0]), acts[1..]);
      }
      LedgerStep(k, acts[0]);
      LedgerRun(Next(k, acts[0]), acts[1..]);
    }
  }

  // In every run in which the poller never looked with more than sixteen events beyond it, the ring is
  // the queue of XhciReports: outstanding reports and unseen own events make one plus the foreign
  // Transfer Events taken.
  lemma KeepsUp(k: Kbd, acts: seq<Act>)
    requires KInv(k) && k.c.start <= k.c.taken <= |k.tags| && R.Ledger(Queue(k)) && !Run(k, acts).c.late
    ensures var f := Run(k, acts);
      && f.c.start <= f.c.taken <= |f.tags|
      && R.Outstanding(Queue(f)) + R.Unseen(Queue(f)) == 1 + R.Taken(Queue(f), R.Foreign)
  {
    hide E.CursorOk, T.Shape, Tagged, R.Count;
    LedgerRun(k, acts);
  }

  // --- a poller that is late --------------------------------------------------------------------

  // More than sixteen events beyond the cursor, and not more than thirty-two however many of the
  // outstanding reports complete.
  ghost predicate Dead(k: Kbd) {
    && KInv(k) && T.Inv(k.ep) && k.ep.pc.Idle?
    && k.c.taken + E.EVENT_RING_TRBS < |k.ring.controls|
    && |k.ring.controls| + (|k.ep.armed| - |k.ep.fetched|) <= k.c.taken + 2 * E.EVENT_RING_TRBS
  }

  lemma DeadStep(k: Kbd, a: Act)
    requires Dead(k) && !a.Device?
    ensures var k' := Next(k, a);
      Dead(k') && k'.ep.armed == k.ep.armed && k'.c.taken == k.c.taken && k'.c.seen == k.c.seen
  {
    hide E.CursorOk, T.Shape, T.Inv, Tagged, E.Take, PostEvent, T.Controller, T.Write, IsTransfer;
    Covered(k);
    NextKInv(k, a);
    match a
    case DriverWrite =>
    case Look(short, status) =>
      T.ControllerInv(k.ep);
      T.ControllerShape(k.ep);
      OwnKind();
      PostedEvent(k.ring, k.c, k.tags, status, TRB_TYPE_TRANSFER * 0x400, R.Own);
    case FirstLoad =>
    case SecondLoad(p) =>
      if k.c.loaded.Status? {
        E.TakeAtAnyLag(k.ring, k.c, 1);
      } else {
        assert E.Take(k.ring, k.c) == k.c by { NotLoaded(k); }
      }
  }

  lemma NotLoaded(k: Kbd)
    requires !k.c.loaded.Status?
    ensures E.Take(k.ring, k.c) == k.c
  {
  }

  // As long as no other device posts: the poller takes nothing and arms nothing more, for ever, so the
  // keyboard can report no more than it had outstanding.
  lemma {:induction false} DeadForever(k: Kbd, acts: seq<Act>)
    requires Dead(k) && forall i :: 0 <= i < |acts| ==> !acts[i].Device?
    ensures var f := Run(k, acts);
      && Dead(f) && f.ep.armed == k.ep.armed && f.c.taken == k.c.taken && f.c.seen == k.c.seen
      && |f.ep.fetched| <= |k.ep.armed|
    decreases |acts|
  {
    hide KInv, Next, T.Inv;
    if acts != [] {
      Alive(k);
      DeadStep(k, acts[0]);
      DeadForever(Next(k, acts[0]), acts[1..]);
    } else {
      Covered(k);
    }
  }

  lemma Alive(k: Kbd)
    requires Dead(k)
    ensures KInv(k) && T.Shape(k.ep)
  {
  }

  lemma Covered(k: Kbd)
    requires Dead(k)
    ensures |k.ep.fetched| <= |k.ep.armed|
  {
  }

  // An event of another device or port that is posted.
  predicate Posts(a: Act) {
    a.Device? && !a.e.Own? && (a.e.Foreign? <==> IsTransfer(a.control))
  }

  lemma {:induction false} PostedMany(k: Kbd, acts: seq<Act>)
    requires KInv(k) && forall i :: 0 <= i < |acts| ==> Posts(acts[i])
    ensures var f := Run(k, acts);
      f.ep == k.ep && f.c == k.c && |f.ring.controls| == |k.ring.controls| + |acts|
    decreases |acts|
  {
    hide E.CursorOk, T.Shape, Tagged, PostEvent, IsTransfer;
    if acts != [] {
      var a := acts[0];
      NextKInv(k, a);
      PostedEvent(k.ring, k.c, k.tags, a.status, a.control, a.e);
      PostedMany(Next(k, a), acts[1..]);
    }
  }

  // So enumeration of later ports that posts 17 to 31 events before the poller's first look, with its one
  // report outstanding, leaves the keyboard dead.
  lemma DeadOnArrival(k: Kbd, acts: seq<Act>)
    requires KInv(k) && T.Inv(k.ep) && k.ep.pc.Idle? && |k.ep.armed| == |k.ep.fetched| + 1
    requires k.c.taken == |k.ring.controls|
    requires E.EVENT_RING_TRBS < |acts| < 2 * E.EVENT_RING_TRBS && forall i :: 0 <= i < |acts| ==> Posts(acts[i])
    ensures Dead(Run(k, acts))
  {
    hide KInv, T.Inv, T.Shape;
    PostedMany(k, acts);
  }
}
