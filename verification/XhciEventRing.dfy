/**
 The xHCI event ring.  The controller writes an event's status dword and then its control dword, whose
 cycle bit is the lap bit of LapRing.  Readers - the enumerator, and the keyboard poller that copies its
 cursor - load the status dword and then the control dword, so the controller can come between.
 */
module XhciEventRing {
  import opened SeqFacts
  import opened LapRing

  const EVENT_RING_TRBS: nat := 16

  datatype Event = Event(kind: nat, completion: nat)

  // Bit 0 of the control dword.
  function CycleBit(control: nat): bool {
    control % 2 == 1
  }

  function Kind(control: nat): nat {
    (control / 0x400) % 0x40
  }

  function Code(status: nat): nat {
    (status / 0x100_0000) % 0x100
  }

  // The type is bits 15-10 of the control dword, the completion code bits 31-24 of the status dword.
  lemma FieldsOfEvent(high: nat, field: nat, low: nat)
    ensures field < 0x40 && low < 0x400 ==> Kind(high * 0x1_0000 + field * 0x400 + low) == field
    ensures field < 0x100 && low < 0x100_0000 ==> Code(high * 0x1_0000_0000 + field * 0x100_0000 + low) == field
  {
    if field < 0x40 && low < 0x400 {
      DivModUnique(high * 0x1_0000 + field * 0x400 + low, 0x400, high * 0x40 + field, low);
      DivModUnique(high * 0x40 + field, 0x40, high, field);
    }
    if field < 0x100 && low < 0x100_0000 {
      DivModUnique(high * 0x1_0000_0000 + field * 0x100_0000 + low, 0x100_0000, high * 0x100 + field, low);
      DivModUnique(high * 0x100 + field, 0x100, high, field);
    }
  }

  function BitOf(b: bool): nat {
    if b then 1 else 0
  }

  function WithBit(control: nat, bit: nat): nat {
    control - control % 2 + bit
  }

  lemma BitCleared(control: nat, bit: nat)
    requires bit <= 1
    ensures CycleBit(WithBit(control, bit)) == (bit == 1)
    ensures Kind(WithBit(control, bit)) == Kind(control)
  {
    var q, r := control / 0x400, control % 0x400;
    assert control == q * 0x400 + r;
    assert control % 2 == r % 2;
    DivModUnique(WithBit(control, bit), 0x400, q, r - r % 2 + bit);
  }

  // --- the controller -----------------------------------------------------------------------

  datatype Ring = Ring(
    status: seq<nat>, control: seq<nat>,      // dwords 2 and 3 of each slot
    slot: nat, bit: nat,                      // the controller's enqueue slot and cycle state
    statuses: seq<nat>, controls: seq<nat>)   // every dword 2 and dword 3 written, in order

  datatype Posting = WriteStatus(v: nat) | WriteControl(v: nat)

  function Empty(): Ring {
    Ring(seq(EVENT_RING_TRBS, i => 0), seq(EVENT_RING_TRBS, i => 0), 0, 1, [], [])
  }

  function Post(r: Ring, p: Posting): Ring {
    match p
    case WriteStatus(v) =>
      if |r.statuses| == |r.controls| && r.slot < |r.status|
      then r.(status := r.status[r.slot := v], statuses := r.statuses + [v]) else r
    case WriteControl(v) =>
      if |r.statuses| == |r.controls| + 1 && r.slot < |r.control| then
        var c := WithBit(v, r.bit);
        var wraps := r.slot + 1 == EVENT_RING_TRBS;
        r.(control := r.control[r.slot := c], controls := r.controls + [c],
        slot := if wraps then 0 else r.slot + 1, bit := if wraps then 1 - r.bit % 2 else r.bit)
      else r
  }

  function PostAll(r: Ring, ps: seq<Posting>): Ring
    decreases |ps|
  {
    if ps == [] then r else PostAll(Post(r, ps[0]), ps[1..])
  }

  // The status dwords of the latest sixteen events begun; zero where none was.
  ghost predicate Holds(status: seq<nat>, statuses: seq<nat>) {
    && |status| == EVENT_RING_TRBS
    && (forall k :: 0 <= k < |statuses| && |statuses| - EVENT_RING_TRBS <= k ==>
          status[Slot(k, EVENT_RING_TRBS)] == statuses[k])
    && (forall s :: |statuses| <= s < EVENT_RING_TRBS ==> status[s] == 0)
  }

  ghost predicate RingOk(r: Ring) {
    && |r.control| == EVENT_RING_TRBS && Posted(r.control, r.controls, CycleBit)
    && Holds(r.status, r.statuses)
    && |r.controls| <= |r.statuses| <= |r.controls| + 1
    && r.slot == Slot(|r.controls|, EVENT_RING_TRBS)
    && r.bit == BitOf(Lap(|r.controls|, EVENT_RING_TRBS))
  }

  lemma EmptyOk()
    ensures RingOk(Empty())
  {
    PostedInit(Empty().control, CycleBit);
  }

  lemma HoldsStep(status: seq<nat>, statuses: seq<nat>, v: nat)
    requires Holds(status, statuses)
    ensures Holds(status[Slot(|statuses|, EVENT_RING_TRBS) := v], statuses + [v])
  {
    var m := |statuses|;
    forall k | 0 <= k < m && m + 1 - EVENT_RING_TRBS <= k
      ensures Slot(k, EVENT_RING_TRBS) != Slot(m, EVENT_RING_TRBS)
    {
      SlotsApart(k, m, EVENT_RING_TRBS);
    }
    assert m < EVENT_RING_TRBS ==> Slot(m, EVENT_RING_TRBS) == m;
  }

  lemma PostOk(r: Ring, p: Posting)
    requires RingOk(r)
    ensures RingOk(Post(r, p))
    ensures r.statuses <= Post(r, p).statuses && r.controls <= Post(r, p).controls
  {
    hide Posted, Holds, Slot, Lap, WithBit;
    match p
    case WriteStatus(v) => HoldsStep(r.status, r.statuses, v);
    case WriteControl(v) =>
      BitCleared(v, r.bit);
      PostedStep(r.control, r.controls, CycleBit, WithBit(v, r.bit));
      NextSlot(|r.controls|, EVENT_RING_TRBS);
      NextLap(|r.controls|, EVENT_RING_TRBS);
  }

  // --- a reader -----------------------------------------------------------------------------

  // What the first load saw, and how many events had been begun then.
  datatype Loaded = NotYet | Status(v: nat, begun: nat)

  datatype Cursor = Cursor(
    deq: nat, ccs: nat, loaded: Loaded,
    start: nat, taken: nat,                   // events posted before this cursor, and passed by it
    seen: seq<Event>,
    early: seq<bool>,                         // whether each one's status was written before it was loaded
    late: bool)                               // it has looked with more than sixteen events beyond it

  // The status dword.
  function Load(r: Ring, c: Cursor): Cursor {
    if c.deq < |r.status| then c.(loaded := Status(r.status[c.deq], |r.statuses|)) else c
  }

  // The control dword, its test, and the advance.
  function Take(r: Ring, c: Cursor): Cursor {
    if !c.loaded.Status? || c.deq >= |r.control| then c
    else
      var c' := c.(loaded := NotYet, late := c.late || TooFar(r, c));
      var control := r.control[c.deq];
      if control % 2 != c.ccs then c'
      else
        var wraps := c.deq + 1 == EVENT_RING_TRBS;
        c'.(deq := if wraps then 0 else c.deq + 1, ccs := if wraps then 1 - c.ccs % 2 else c.ccs,
        taken := c.taken + 1, seen := c.seen + [Event(Kind(control), Code(c.loaded.v))],
        early := c.early + [c.taken < c.loaded.begun])
  }

  predicate TooFar(r: Ring, c: Cursor)
    requires c.loaded.Status?
  {
    |r.controls| > c.taken + EVENT_RING_TRBS || c.loaded.begun > c.taken + EVENT_RING_TRBS
  }

  // What the slot of event k held before it: the status of the event a lap earlier.
  function Stale(statuses: seq<nat>, k: nat): nat {
    if k < EVENT_RING_TRBS || k - EVENT_RING_TRBS >= |statuses| then 0 else statuses[k - EVENT_RING_TRBS]
  }

  // The event a reader makes of posted event k.
  function Read(statuses: seq<nat>, controls: seq<nat>, k: nat, early: bool): Event
    requires k < |controls| <= |statuses|
  {
    Event(Kind(controls[k]), Code(if early then statuses[k] else Stale(statuses, k)))
  }

  ghost predicate Position(r: Ring, c: Cursor) {
    && c.deq == Slot(c.taken, EVENT_RING_TRBS) && c.ccs == BitOf(Lap(c.taken, EVENT_RING_TRBS))
    && c.start + |c.seen| == c.taken <= |r.controls| && |c.early| == |c.seen|
  }

  ghost predicate LoadedOk(r: Ring, c: Cursor) {
    c.loaded.Status? ==>
      && c.taken <= c.loaded.begun <= |r.statuses|
      && (c.taken < c.loaded.begun <= c.taken + EVENT_RING_TRBS ==> c.loaded.v == r.statuses[c.taken])
      && (c.loaded.begun == c.taken ==> c.loaded.v == Stale(r.statuses, c.taken))
  }

  ghost predicate SeenOk(r: Ring, c: Cursor)
    requires |r.controls| <= |r.statuses| && c.start + |c.seen| <= |r.controls| && |c.early| == |c.seen|
  {
    !c.late ==> forall j :: 0 <= j < |c.seen| ==> c.seen[j] == Read(r.statuses, r.controls, c.start + j, c.early[j])
  }

  ghost predicate CursorOk(r: Ring, c: Cursor) {
    RingOk(r) && Position(r, c) && LoadedOk(r, c) && SeenOk(r, c)
  }

  lemma LoadOk(r: Ring, c: Cursor)
    requires CursorOk(r, c)
    ensures CursorOk(r, Load(r, c)) && Load(r, c).loaded.Status?
  {
    hide Posted, SeenOk, Lap;
    var k := c.taken;
    if |r.statuses| == k {
      if k < EVENT_RING_TRBS {
        assert Slot(k, EVENT_RING_TRBS) == k;
      } else {
        assert Slot(k, EVENT_RING_TRBS) == Slot(k - EVENT_RING_TRBS, EVENT_RING_TRBS);
      }
    }
    SeenSame(r, r, c, Load(r, c));
  }

  lemma SeenSame(r: Ring, r': Ring, c: Cursor, c': Cursor)
    requires |r.controls| <= |r.statuses| && c.start + |c.seen| <= |r.controls| && |c.early| == |c.seen|
    requires r.statuses <= r'.statuses && r.controls <= r'.controls && |r'.controls| <= |r'.statuses|
    requires c'.seen == c.seen && c'.start == c.start && c'.early == c.early && (c.late ==> c'.late) && SeenOk(r, c)
    ensures SeenOk(r', c')
  {
    forall j | 0 <= j < |c.seen|
      ensures Read(r'.statuses, r'.controls, c.start + j, c.early[j]) ==
              Read(r.statuses, r.controls, c.start + j, c.early[j])
    {
      assert r'.controls[c.start + j] == r.controls[c.start + j];
    }
  }

  // A posting changes nothing for a cursor: what it has loaded and seen stands.
  lemma PostKeepsCursor(r: Ring, p: Posting, c: Cursor)
    requires CursorOk(r, c)
    ensures CursorOk(Post(r, p), c)
  {
    hide RingOk, SeenOk, Slot, Lap;
    PostOk(r, p);
    Sizes(r);
    Sizes(Post(r, p));
    SeenSame(r, Post(r, p), c, c);
    assert c.loaded.Status? && c.loaded.begun == c.taken ==>
      Stale(Post(r, p).statuses, c.taken) == Stale(r.statuses, c.taken);
  }

  lemma Sizes(r: Ring)
    requires RingOk(r)
    ensures |r.controls| <= |r.statuses| <= |r.controls| + 1
    ensures |r.control| == |r.status| == EVENT_RING_TRBS
  {
  }

  // The control load of a cursor that is not too far behind: it finds something exactly when there is
  // an event, and then the right one.
  lemma TakeIs(r: Ring, c: Cursor)
    requires CursorOk(r, c) && c.loaded.Status? && !TooFar(r, c)
    ensures c.taken == |r.controls| ==> Take(r, c) == c.(loaded := NotYet)
    ensures c.taken < |r.controls| ==>
      && Take(r, c).taken == c.taken + 1
      && Take(r, c).seen == c.seen + [Read(r.statuses, r.controls, c.taken, c.taken < c.loaded.begun)]
  {
    hide Posted, Holds, Slot, Lap, SeenOk;
    BitTellsNew(r.control, r.controls, CycleBit, c.taken);
  }

  // A cursor never passes the controller.
  lemma NotPast(r: Ring, c: Cursor)
    requires CursorOk(r, c)
    ensures Take(r, c).taken <= |r.controls|
  {
    hide Slot, Lap, SeenOk;
    if c.taken == |r.controls| {
      BitTellsNew(r.control, r.controls, CycleBit, c.taken);
    }
  }

  lemma TakeSeen(r: Ring, c: Cursor)
    requires CursorOk(r, c) && c.loaded.Status? && Position(r, Take(r, c))
    ensures SeenOk(r, Take(r, c))
  {
    hide RingOk, Slot, Lap, Take;
    Sizes(r);
    var c' := Take(r, c);
    TakeKeeps(r, c);
    if !c'.late {
      TakeIs(r, c);
      if c.taken < |r.controls| {
        forall j | 0 <= j < |c'.seen|
          ensures c'.seen[j] == Read(r.statuses, r.controls, c'.start + j, c'.early[j])
        {
          if j < |c.seen| {
            assert c'.seen[j] == c.seen[j] && c'.early[j] == c.early[j];
          }
        }
      }
    }
  }

  lemma TakeKeeps(r: Ring, c: Cursor)
    requires c.loaded.Status? && c.deq < |r.control|
    ensures var c' := Take(r, c);
      && c'.start == c.start && (!c'.late <==> !c.late && !TooFar(r, c))
      && (c'.taken == c.taken + 1 ==> c'.early == c.early + [c.taken < c.loaded.begun])
      && c'.loaded == NotYet
  {
  }

  lemma TakeOk(r: Ring, c: Cursor)
    requires CursorOk(r, c)
    ensures CursorOk(r, Take(r, c))
  {
    hide RingOk, Slot, Lap, SeenOk;
    Sizes(r);
    if c.loaded.Status? {
      NextSlot(c.taken, EVENT_RING_TRBS);
      NextLap(c.taken, EVENT_RING_TRBS);
      NotPast(r, c);
      TakeSeen(r, c);
    }
  }

  // However far behind it is: a cursor m laps short of the last event reads the kind m laps after the
  // one it is due, if m is even, and reads nothing if m is odd.
  lemma TakeAtAnyLag(r: Ring, c: Cursor, m: nat)
    requires CursorOk(r, c) && c.loaded.Status?
    requires c.taken + m * EVENT_RING_TRBS < |r.controls| <= c.taken + m * EVENT_RING_TRBS + EVENT_RING_TRBS
    ensures m % 2 == 1 ==> Take(r, c).taken == c.taken && Take(r, c).seen == c.seen
    ensures m % 2 == 0 ==>
      && Take(r, c).taken == c.taken + 1
      && Take(r, c).seen[..|c.seen|] == c.seen
      && Take(r, c).seen[|c.seen|..] ==
         [Event(Kind(r.controls[c.taken + m * EVENT_RING_TRBS]), Code(c.loaded.v))]
  {
    hide Posted, Holds, Slot, Lap, SeenOk;
    OverrunSees(r.control, r.controls, CycleBit, c.taken, m);
  }

  // The controller posts a whole event between the two loads: its kind comes with the completion code
  // of the event a lap earlier.
  lemma StaleCompletion(r: Ring, c: Cursor, status: nat, control: nat)
    requires CursorOk(r, c) && c.taken == |r.controls| == |r.statuses|
    ensures var r' := Post(Post(r, WriteStatus(status)), WriteControl(control));
      var c' := Take(r', Load(r, c));
      && c'.seen == c.seen + [Event(Kind(control), Code(Stale(r.statuses, c.taken)))]
      && (c'.seen == c.seen + [Event(Kind(control), Code(status))] <==>
            Code(Stale(r.statuses, c.taken)) == Code(status))
  {
    hide CursorOk, RingOk, Posted, Holds, Slot, Lap, Code, Kind, WithBit;
    var r1 := Post(r, WriteStatus(status));
    var r' := Post(r1, WriteControl(control));
    var l := Load(r, c);
    LoadOk(r, c);
    PostKeepsCursor(r, WriteStatus(status), l);
    PostKeepsCursor(r1, WriteControl(control), l);
    Ready(r, c);
    Ready(r1, l);
    BitCleared(control, r1.bit);
    assert r'.controls == r.controls + [WithBit(control, r1.bit)] && r'.statuses == r.statuses + [status];
    assert Stale(r'.statuses, c.taken) == Stale(r.statuses, c.taken);
    TakeIs(r', l);
    var a, b := Event(Kind(control), Code(Stale(r.statuses, c.taken))), Event(Kind(control), Code(status));
    assert (c.seen + [a])[|c.seen|] == a && (c.seen + [b])[|c.seen|] == b;
  }

  lemma Ready(r: Ring, c: Cursor)
    requires CursorOk(r, c)
    ensures r.slot < |r.status| == |r.control| && r.bit <= 1 && c.deq < |r.status|
  {
  }

  // Loaded the other way round, as the No-Op drain does, the status is the event's own whatever the
  // controller writes in between, unless it comes round to the slot again.
  lemma ControlFirstIsRight(r: Ring, c: Cursor, between: seq<Posting>)
    requires CursorOk(r, c) && c.taken < |r.controls|
    requires |PostAll(r, between).statuses| <= c.taken + EVENT_RING_TRBS
    ensures c.taken < |r.statuses| && c.deq < |r.control| == |PostAll(r, between).status|
    ensures r.control[c.deq] == r.controls[c.taken]
    ensures PostAll(r, between).status[c.deq] == r.statuses[c.taken]
  {
    hide Posted, Lap, SeenOk, PostAll;
    PostsOk(r, between);
    BitTellsNew(r.control, r.controls, CycleBit, c.taken);
  }

  lemma {:induction false} PostsOk(r: Ring, ps: seq<Posting>)
    requires RingOk(r)
    ensures RingOk(PostAll(r, ps))
    ensures r.statuses <= PostAll(r, ps).statuses && r.controls <= PostAll(r, ps).controls
    decreases |ps|
  {
    hide RingOk;
    if ps != [] {
      PostOk(r, ps[0]);
      PostsOk(Post(r, ps[0]), ps[1..]);
    }
  }

  // --- several readers on one ring ------------------------------------------------------------

  datatype System = System(ring: Ring, cursors: seq<Cursor>)

  datatype Act = Controller(p: Posting) | FirstLoad(i: nat) | SecondLoad(i: nat) | Copy(i: nat)

  // A second cursor is made by copying a first between two polls, as `setup_hid_keyboard` does.
  function Copied(c: Cursor): Cursor {
    c.(loaded := NotYet, start := c.taken, seen := [], early := [], late := false)
  }

  function Next(s: System, a: Act): System {
    match a
    case Controller(p) => s.(ring := Post(s.ring, p))
    case FirstLoad(i) =>
      if i < |s.cursors| then s.(cursors := s.cursors[i := Load(s.ring, s.cursors[i])]) else s
    case SecondLoad(i) =>
      if i < |s.cursors| then s.(cursors := s.cursors[i := Take(s.ring, s.cursors[i])]) else s
    case Copy(i) => if i < |s.cursors| then s.(cursors := s.cursors + [Copied(s.cursors[i])]) else s
  }

  function Run(s: System, acts: seq<Act>): System
    decreases |acts|
  {
    if acts == [] then s else Run(Next(s, acts[0]), acts[1..])
  }

  function Init(): System {
    System(Empty(), [Cursor(0, 1, NotYet, 0, 0, [], [], false)])
  }

  ghost predicate Inv(s: System) {
    RingOk(s.ring) && forall i :: 0 <= i < |s.cursors| ==> CursorOk(s.ring, s.cursors[i])
  }

  lemma CopyOk(r: Ring, c: Cursor)
    requires CursorOk(r, c)
    ensures CursorOk(r, Copied(c))
  {
  }

  lemma NextInv(s: System, a: Act)
    requires Inv(s)
    ensures Inv(Next(s, a))
  {
    hide RingOk, CursorOk;
    match a
    case Controller(p) =>
      PostOk(s.ring, p);
      forall i | 0 <= i < |s.cursors| ensures CursorOk(Post(s.ring, p), s.cursors[i]) {
        PostKeepsCursor(s.ring, p, s.cursors[i]);
      }
    case FirstLoad(i) =>
      if i < |s.cursors| {
        LoadOk(s.ring, s.cursors[i]);
      }
    case SecondLoad(i) =>
      if i < |s.cursors| {
        TakeOk(s.ring, s.cursors[i]);
      }
    case Copy(i) =>
      if i < |s.cursors| {
        CopyOk(s.ring, s.cursors[i]);
      }
  }

  lemma {:induction false} RunInv(s: System, acts: seq<Act>)
    requires Inv(s)
    ensures Inv(Run(s, acts))
    decreases |acts|
  {
    hide Inv;
    if acts != [] {
      NextInv(s, acts[0]);
      RunInv(Next(s, acts[0]), acts[1..]);
    }
  }

  // Under every interleaving of dword writes, dword loads and cursor copies: a cursor that never looked
  // with more than sixteen events beyond it has seen the events posted since it was made, each once and
  // in order, with the right kind - and with the right completion code for those whose status was
  // written before it was loaded, and otherwise the code a lap earlier.
  lemma EveryCursorSees(acts: seq<Act>, i: nat)
    requires i < |Run(Init(), acts).cursors| && !Run(Init(), acts).cursors[i].late
    ensures var s := Run(Init(), acts);
      var c := s.cursors[i];
      && c.start + |c.seen| == c.taken <= |s.ring.controls| <= |s.ring.statuses| && |c.early| == |c.seen|
      && (forall j :: 0 <= j < |c.seen| ==>
            && c.seen[j].kind == Kind(s.ring.controls[c.start + j])
            && (c.seen[j].completion == Code(s.ring.statuses[c.start + j]) <==>
                  || c.early[j]
                  || Code(Stale(s.ring.statuses, c.start + j)) == Code(s.ring.statuses[c.start + j])))
  {
    hide Posted, Holds, Slot, Lap;
    EmptyOk();
    RunInv(Init(), acts);
    var s := Run(Init(), acts);
    var c := s.cursors[i];
    assert CursorOk(s.ring, c);
    forall j | 0 <= j < |c.seen|
      ensures c.seen[j].kind == Kind(s.ring.controls[c.start + j])
      ensures c.seen[j].completion == Code(s.ring.statuses[c.start + j]) <==>
              c.early[j] || Code(Stale(s.ring.statuses, c.start + j)) == Code(s.ring.statuses[c.start + j])
    {
      assert c.seen[j] == Read(s.ring.statuses, s.ring.controls, c.start + j, c.early[j]);
    }
  }

  // --- the code -------------------------------------------------------------------------------

  class EventRing {
    const status: array<nat>
    const control: array<nat>
    var slot: nat
    var bit: nat
    // The controller has written a status dword and not yet its control dword.
    var half: bool
    ghost var statuses: seq<nat>
    ghost var controls: seq<nat>

    ghost function View(): Ring
      reads this, status, control
    {
      Ring(status[..], control[..], slot, bit, statuses, controls)
    }

    ghost predicate Valid()
      reads this, status, control
    {
      status != control && RingOk(View()) && (half <==> |statuses| == |controls| + 1)
    }

    constructor ()
      ensures Valid() && View() == Empty() && fresh(status) && fresh(control)
    {
      status := new nat[EVENT_RING_TRBS](i => 0);
      control := new nat[EVENT_RING_TRBS](i => 0);
      slot, bit, half, statuses, controls := 0, 1, false, [], [];
      new;
      EmptyOk();
      assert View() == Empty();
    }

    // One dword write of the controller; out of turn it writes nothing.
    method ControllerWrite(p: Posting)
      requires Valid()
      modifies this, status, control
      ensures Valid() && View() == Post(old(View()), p)
    {
      hide RingOk, WithBit;
      PostOk(View(), p);
      Sizes(View());
      InRange(View());
      match p
      case WriteStatus(v) =>
        if !half {
          half := true;
          status[slot] := v;
          statuses := statuses + [v];
        }
      case WriteControl(v) =>
        if half {
          half := false;
          var c := WithBit(v, bit);
          control[slot] := c;
          controls := controls + [c];
          slot := slot + 1;
          if slot == EVENT_RING_TRBS {
            slot, bit := 0, 1 - bit;
          }
        }
    }

    method ControllerWrites(ps: seq<Posting>)
      requires Valid()
      modifies this, status, control
      ensures Valid() && View() == PostAll(old(View()), ps)
      decreases |ps|
    {
      if ps != [] {
        ControllerWrite(ps[0]);
        ControllerWrites(ps[1..]);
      }
    }
  }

  datatype Polled = Nothing | Got(event: Event)

  // A consumer of the ring: `Xhci` while it enumerates, `HidState` from then on.
  class EventReader {
    const ring: EventRing
    var eventDeq: nat
    var eventCcs: nat
    ghost var c: Cursor

    ghost predicate Valid()
      reads this, ring, ring.status, ring.control
    {
      ring.Valid() && c.deq == eventDeq && c.ccs == eventCcs && c.loaded == NotYet && CursorOk(ring.View(), c)
    }

    constructor (ring: EventRing)
      requires ring.Valid() && ring.View() == Empty()
      ensures Valid() && this.ring == ring && c == Init().cursors[0]
    {
      this.ring, eventDeq, eventCcs, c := ring, 0, 1, Init().cursors[0];
    }

    // The poller starts where the enumerator is.
    constructor CopyOf(other: EventReader)
      requires other.Valid()
      ensures Valid() && ring == other.ring && c == Copied(other.c)
    {
      ring, eventDeq, eventCcs, c := other.ring, other.eventDeq, other.eventCcs, Copied(other.c);
      new;
      hide CursorOk, RingOk;
      CopyOk(ring.View(), other.c);
    }

    // `try_event`, with `between` what the controller writes after the first load and before the second.
    method TryEvent(between: seq<Posting>) returns (r: Polled)
      requires Valid()
      modifies this`eventDeq, this`eventCcs, this`c, ring, ring.status, ring.control
      ensures Valid() && ring.View() == PostAll(old(ring.View()), between)
      ensures c == Take(ring.View(), Load(old(ring.View()), old(c)))
      ensures r == if c.seen == old(c.seen) then Nothing else Got(c.seen[|old(c.seen)|])
      ensures !c.late ==> (r == Nothing <==> old(c.taken) == |ring.controls|)
    {
      hide RingOk, CursorOk, PostAll, Kind, Code, Slot, Lap, SeenOk;
      ghost var r0, c0, l := ring.View(), c, Load(ring.View(), c);
      LoadOk(r0, c);
      Indexed(r0, c);
      var status := ring.status[eventDeq];
      ring.ControllerWrites(between);
      PostsKeepCursor(r0, between, l);
      TakeOk(ring.View(), l);
      Indexed(ring.View(), l);
      Taken(ring.View(), l);
      var control := ring.control[eventDeq];
      c := Take(ring.View(), l);
      if control % 2 != eventCcs {
        return Nothing;
      }
      eventDeq := eventDeq + 1;
      if eventDeq == EVENT_RING_TRBS {
        eventDeq, eventCcs := 0, 1 - eventCcs;
      }
      assert c.seen[|c0.seen|] == Event(Kind(control), Code(status));
      return Got(Event(Kind(control), Code(status)));
    }

    // `service`: take events until there is none, while the controller goes on posting.
    method Drain(schedule: seq<seq<Posting>>) returns (events: seq<Event>)
      requires Valid()
      modifies this`eventDeq, this`eventCcs, this`c, ring, ring.status, ring.control
      ensures Valid() && c.start == old(c.start) && c.seen == old(c.seen) + events
      ensures !c.late ==> c.taken == |ring.controls|
    {
      hide RingOk, CursorOk, PostAll, Take, Load;
      events := [];
      var i := 0;
      while true
        invariant Valid() && c.start == old(c.start) && c.seen == old(c.seen) + events
        decreases |schedule| - i, |ring.controls| - c.taken
      {
        ghost var before := c;
        var posts := if i < |schedule| then schedule[i] else [];
        Advances(ring.View(), posts, c);
        var r := TryEvent(posts);
        if r == Nothing {
          return;
        }
        events := events + [r.event];
        i := if i < |schedule| then i + 1 else i;
      }
    }
  }

  lemma {:induction false} PostsKeepCursor(r: Ring, ps: seq<Posting>, c: Cursor)
    requires CursorOk(r, c)
    ensures CursorOk(PostAll(r, ps), c)
    decreases |ps|
  {
    hide CursorOk;
    if ps != [] {
      PostKeepsCursor(r, ps[0], c);
      PostsKeepCursor(Post(r, ps[0]), ps[1..], c);
    }
  }

  // One poll, as the draining loop sees it.
  lemma Advances(r: Ring, ps: seq<Posting>, c: Cursor)
    requires CursorOk(r, c)
    ensures ps == [] ==> PostAll(r, ps) == r
    ensures var r' := PostAll(r, ps);
      var c' := Take(r', Load(r, c));
      && c'.start == c.start && c'.taken <= |r'.controls|
      && (|| (c'.seen == c.seen && c'.taken == c.taken)
          || (c'.taken == c.taken + 1 && c'.seen == c.seen + [c'.seen[|c.seen|]]))
  {
    hide CursorOk, PostAll;
    LoadOk(r, c);
    PostsKeepCursor(r, ps, Load(r, c));
    NotPast(PostAll(r, ps), Load(r, c));
    NonePosted(r);
  }

  lemma NonePosted(r: Ring)
    ensures PostAll(r, []) == r
  {
  }

  lemma Indexed(r: Ring, c: Cursor)
    requires CursorOk(r, c)
    ensures c.deq < EVENT_RING_TRBS == |r.status| == |r.control| && c.ccs <= 1
  {
  }

  lemma Taken(r: Ring, c: Cursor)
    requires CursorOk(r, c) && c.loaded.Status?
    ensures var c' := Take(r, c);
      !c'.late ==> (c'.seen == c.seen <==> c.taken == |r.controls|)
  {
    hide RingOk, Slot, Lap, SeenOk, Take;
    Indexed(r, c);
    TakeKeeps(r, c);
    if !TooFar(r, c) {
      TakeIs(r, c);
      assert c.taken < |r.controls| ==> |Take(r, c).seen| == |c.seen| + 1;
    }
  }

  lemma InRange(r: Ring)
    requires RingOk(r)
    ensures r.slot < EVENT_RING_TRBS && r.bit <= 1
  {
  }
}
