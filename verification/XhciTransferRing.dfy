/**
 The keyboard endpoint's transfer ring (sections 4.9.2 and 4.11.5.1 of xHCI 1.2): 255 Normal TRBs
 and a Link TRB with Toggle Cycle.  The driver writes one dword at a time; the controller may look
 at the ring between any two writes and goes by cycle bits alone.
 */
module XhciTransferRing {

  const EP_RING_TRBS: nat := 256
  const LAST: nat := 255

  datatype Payload = Payload(d0: nat, d1: nat, d2: nat)

  datatype Trb = Trb(d0: nat, d1: nat, d2: nat, d3: nat)

  // Where `arm_report` is: between calls, or about to write dword i of the Link or the Normal TRB.
  datatype Pc = Idle | Linking(i: nat, p: Payload) | Filling(i: nat, p: Payload)

  datatype State = State(
    ring: seq<Trb>, baseLo: nat, baseHi: nat,
    enq: nat, cycle: nat, pc: Pc,             // driver
    deq: nat, ccs: nat,                       // controller
    armed: seq<Payload>, fetched: seq<Payload>, // completed arms; TRBs the controller executed
    links: nat, followed: nat,                // Link TRBs written; Link TRBs followed
    writes: seq<nat>)                         // per slot, how often its last dword was written

  // IOC, ISP and type 1 (Normal).
  function NormalD3(bit: nat): nat {
    bit + 4 + 32 + 1 * 1024
  }

  // Toggle Cycle and type 6 (Link).
  function LinkD3(bit: nat): nat {
    bit + 2 + 6 * 1024
  }

  function Full(p: Payload, bit: nat): Trb {
    Trb(p.d0, p.d1, p.d2, NormalD3(bit))
  }

  function Cycle(t: Trb): nat {
    t.d3 % 2
  }

  function Kind(t: Trb): nat {
    (t.d3 / 1024) % 64
  }

  // Interrupt On Completion, bit 5, and Interrupt on Short Packet, bit 2.
  function OnCompletion(t: Trb): bool {
    (t.d3 / 32) % 2 == 1
  }

  function OnShort(t: Trb): bool {
    (t.d3 / 4) % 2 == 1
  }

  // Whether the controller posts a Transfer Event for a TRB it has executed.
  function Reports(t: Trb, short: bool): bool {
    OnCompletion(t) || (short && OnShort(t))
  }

  // The controller's reading of a last dword: type in bits 15-10, and single bits 5, 2, 1 and 0; a completed
  // TRB is reported if it asks for that, or came up short and asks for that.
  lemma TrbFields(t: Trb, high: nat, kind: nat, mid: nat, ioc: nat, gap: nat, isp: nat, tc: nat, c: nat)
    requires kind < 64 && mid < 16 && ioc <= 1 && gap < 4 && isp <= 1 && tc <= 1 && c <= 1
    requires t.d3 == high * 0x1_0000 + kind * 0x400 + mid * 64 + ioc * 32 + gap * 8 + isp * 4 + tc * 2 + c
    ensures Kind(t) == kind && Cycle(t) == c && (TogglesCycle(t) <==> tc == 1)
    ensures (OnCompletion(t) <==> ioc == 1) && (OnShort(t) <==> isp == 1)
    ensures (Reports(t, false) <==> ioc == 1) && (Reports(t, true) <==> ioc == 1 || isp == 1)
  {
    var d1 := t.d3 / 2;
    assert d1 == high * 0x8000 + kind * 0x200 + mid * 32 + ioc * 16 + gap * 4 + isp * 2 + tc;
    var d2 := t.d3 / 4;
    assert d2 == high * 0x4000 + kind * 0x100 + mid * 16 + ioc * 8 + gap * 2 + isp;
    var d5 := t.d3 / 32;
    assert d5 == high * 0x800 + kind * 0x20 + mid * 2 + ioc;
    assert t.d3 / 1024 == high * 64 + kind;
  }

  // The last dword of a Normal TRB, bit by bit: cycle, ISP and IOC as asked, type 1, and nothing else.
  lemma NormalBits(bit: nat)
    requires bit <= 1
    ensures var d3 := NormalD3(bit);
      && d3 % 2 == bit && d3 / 2 % 2 == 0 && d3 / 4 % 2 == 1 && d3 / 8 % 4 == 0
      && d3 / 32 % 2 == 1 && d3 / 64 % 16 == 0 && d3 / 0x400 == 1
  {
  }

  // And of a Link: cycle, Toggle Cycle, type 6, and nothing else.
  lemma LinkBits(bit: nat)
    requires bit <= 1
    ensures var d3 := LinkD3(bit);
      d3 % 2 == bit && d3 / 2 % 2 == 1 && d3 / 4 % 256 == 0 && d3 / 0x400 == 6
  {
  }

  function TogglesCycle(t: Trb): bool {
    (t.d3 / 2) % 2 == 1
  }

  function Init(baseLo: nat, baseHi: nat): State {
    State(seq(EP_RING_TRBS, i => Trb(0, 0, 0, 0)), baseLo, baseHi, 0, 1, Idle, 0, 1, [], [], 0, 0,
          seq(EP_RING_TRBS, i => 0))
  }

  function WriteDword(t: Trb, i: nat, p: Payload, d3: nat): Trb {
    if i == 0 then t.(d0 := p.d0) else if i == 1 then t.(d1 := p.d1) else if i == 2 then t.(d2 := p.d2)
    else t.(d3 := d3)
  }

  // --- steps ------------------------------------------------------------------------------

  // A call of `arm_report` begins.
  function Start(s: State, p: Payload): State
    requires s.pc.Idle?
  {
    s.(pc := if s.enq == LAST then Linking(0, p) else Filling(0, p))
  }

  // Fewer than 255 transfers are outstanding.
  predicate CanStart(s: State) {
    s.pc.Idle? && |s.armed| < |s.fetched| + LAST
  }

  // The driver's next dword write, with the index and cycle updates that follow the last one.
  function Write(s: State): State
    requires !s.pc.Idle? && s.enq < |s.ring| == |s.writes|
  {
    match s.pc
    case Linking(i, p) =>
      var t := WriteDword(s.ring[s.enq], i, Payload(s.baseLo, s.baseHi, 0), LinkD3(s.cycle));
      var s' := s.(ring := s.ring[s.enq := t]);
      if i < 3 then s'.(pc := Linking(i + 1, p))
      else s'.(enq := 0, cycle := 1 - s.cycle % 2, pc := Filling(0, p), links := s.links + 1,
      writes := s.writes[s.enq := s.writes[s.enq] + 1])
    case Filling(i, p) =>
      var t := WriteDword(s.ring[s.enq], i, p, NormalD3(s.cycle));
      var s' := s.(ring := s.ring[s.enq := t]);
      if i < 3 then s'.(pc := Filling(i + 1, p))
      else s'.(enq := s.enq + 1, pc := Idle, armed := s.armed + [p],
      writes := s.writes[s.enq := s.writes[s.enq] + 1])
  }

  // The controller reads the TRB at its dequeue pointer and acts on it if the cycle bit is its own.
  function Controller(s: State): State
    requires s.deq < |s.ring|
  {
    var t := s.ring[s.deq];
    if Cycle(t) != s.ccs then s
    else if Kind(t) == 6 then
      if t.d0 == s.baseLo && t.d1 == s.baseHi then
        s.(deq := 0, ccs := if TogglesCycle(t) then 1 - s.ccs % 2 else s.ccs, followed := s.followed + 1)
      else s
    else if Kind(t) == 1 then
      s.(deq := s.deq + 1, fetched := s.fetched + [Payload(t.d0, t.d1, t.d2)])
    else s
  }

  // --- invariant --------------------------------------------------------------------------

  ghost predicate Counts(s: State) {
    && |s.ring| == |s.writes| == EP_RING_TRBS
    && s.cycle == 1 - s.links % 2 && s.ccs == 1 - s.followed % 2
    && |s.armed| == s.enq + LAST * s.links && s.enq <= LAST
    && |s.fetched| == s.deq + LAST * s.followed && s.deq <= LAST
    && |s.fetched| <= |s.armed| <= |s.fetched| + LAST
    && (!s.pc.Idle? ==> |s.armed| < |s.fetched| + LAST)
    && (s.pc.Filling? ==> s.enq < LAST && s.pc.i <= 3)
    && (s.pc.Linking? ==> s.enq == LAST && s.pc.i <= 3)
    && s.followed <= s.links <= s.followed + 1
  }

  // The number of completed writes to a Normal slot follows from how many arms there have been.
  ghost predicate WriteCount(slot: nat, writes: nat, armed: nat) {
    && armed <= LAST * writes + slot
    && (writes > 0 ==> LAST * (writes - 1) + slot < armed)
  }

  // A slot's cycle bit is the parity of its completed writes; a slot whose latest arm is not yet
  // fetched holds that arm in full.
  ghost predicate SlotOk(s: State, slot: nat)
    requires slot < |s.ring| == |s.writes|
  {
    var w := s.writes[slot];
    && WriteCount(slot, w, |s.armed|)
    && Cycle(s.ring[slot]) == w % 2
    && (w > 0 && LAST * (w - 1) + slot >= |s.fetched| ==>
          s.ring[slot] == Full(s.armed[LAST * (w - 1) + slot], w % 2))
  }

  ghost predicate LinkOk(s: State)
    requires |s.ring| == |s.writes| == EP_RING_TRBS
  {
    && s.writes[LAST] == s.links
    && Cycle(s.ring[LAST]) == s.links % 2 && (s.links == 0 ==> s.ring[LAST].d3 == 0)
    && (s.links > 0 ==>
          && s.ring[LAST].d3 == LinkD3(s.links % 2)
          && s.ring[LAST].d0 == s.baseLo && s.ring[LAST].d1 == s.baseHi)
  }

  // The dwords of the TRB being written that are already in place.
  ghost predicate Partial(s: State)
    requires s.enq < |s.ring|
  {
    match s.pc
    case Idle => true
    case Linking(i, p) =>
      (i > 0 ==> s.ring[s.enq].d0 == s.baseLo) && (i > 1 ==> s.ring[s.enq].d1 == s.baseHi)
    case Filling(i, p) =>
      && (i > 0 ==> s.ring[s.enq].d0 == p.d0) && (i > 1 ==> s.ring[s.enq].d1 == p.d1)
      && (i > 2 ==> s.ring[s.enq].d2 == p.d2)
  }

  // Every Normal TRB on the ring reports its completion, short or not.
  ghost predicate AllReport(ring: seq<Trb>) {
    forall i :: 0 <= i < |ring| && Kind(ring[i]) == 1 ==> OnCompletion(ring[i]) && OnShort(ring[i])
  }

  lemma WriteReports(s: State)
    requires AllReport(s.ring) && !s.pc.Idle? && s.enq < |s.ring| == |s.writes| && s.cycle <= 1
    ensures AllReport(Write(s).ring)
  {
    NormalBits(s.cycle);
    LinkBits(s.cycle);
  }

  ghost predicate Inv(s: State) {
    && Counts(s) && AllReport(s.ring)
    && s.fetched == s.armed[..|s.fetched|]
    && (forall slot :: 0 <= slot < LAST ==> SlotOk(s, slot))
    && LinkOk(s)
    && Partial(s)
  }

  lemma InitInv(baseLo: nat, baseHi: nat)
    ensures Inv(Init(baseLo, baseHi))
  {
  }

  lemma StartInv(s: State, p: Payload)
    requires Inv(s) && CanStart(s)
    ensures Inv(Start(s, p))
  {
    hide AllReport;
    forall slot | 0 <= slot < LAST ensures SlotOk(Start(s, p), slot) {
      assert SlotOk(s, slot);
    }
  }

  // Writing any dword but the last leaves every cycle bit, and every unfetched TRB, alone.
  lemma EarlyWriteInv(s: State)
    requires Inv(s) && !s.pc.Idle? && s.pc.i < 3
    ensures Inv(Write(s))
  {
    WriteReports(s);
    hide AllReport;
    var s' := Write(s);
    forall slot | 0 <= slot < LAST ensures SlotOk(s', slot) {
      assert SlotOk(s, slot);
    }
  }

  lemma LinkDoneInv(s: State)
    requires Inv(s) && s.pc.Linking? && s.pc.i == 3
    ensures Inv(Write(s))
  {
    WriteReports(s);
    hide AllReport;
    var s' := Write(s);
    forall slot | 0 <= slot < LAST ensures SlotOk(s', slot) {
      assert SlotOk(s, slot);
    }
  }

  // Completing a Normal TRB publishes it; no other slot changes its status.
  lemma FillDoneSlot(s: State, slot: nat)
    requires Inv(s) && s.pc.Filling? && s.pc.i == 3 && slot < LAST
    ensures SlotOk(Write(s), slot)
  {
    hide AllReport;
    hide LinkOk;
    assert SlotOk(s, slot);
    if slot == s.enq {
      var w := s.writes[slot];
      assert w == s.links;
      assert Write(s).ring[slot] == Full(s.pc.p, s.cycle);
    }
  }

  lemma FillDoneInv(s: State)
    requires Inv(s) && s.pc.Filling? && s.pc.i == 3
    ensures Inv(Write(s))
  {
    WriteReports(s);
    hide AllReport;
    hide SlotOk;
    forall slot | 0 <= slot < LAST ensures SlotOk(Write(s), slot) {
      FillDoneSlot(s, slot);
    }
  }

  // What the controller finds: a Normal slot shows its cycle bit exactly when an armed TRB has not
  // been fetched, and then holds that TRB in full; the Link slot shows it exactly when the wrap has
  // been published.
  lemma ControllerSees(s: State)
    requires Inv(s)
    ensures s.deq < LAST ==>
      && (Cycle(s.ring[s.deq]) == s.ccs <==> |s.fetched| < |s.armed|)
      && (|s.fetched| < |s.armed| ==> s.ring[s.deq] == Full(s.armed[|s.fetched|], s.ccs))
    ensures s.deq == LAST ==>
      && (Cycle(s.ring[s.deq]) == s.ccs <==> s.links == s.followed + 1)
      && (|s.fetched| < |s.armed| ==> s.links == s.followed + 1)
  {
    hide AllReport;
    if s.deq < LAST {
      assert SlotOk(s, s.deq);
    }
  }

  lemma ControllerInv(s: State)
    requires Inv(s)
    ensures Inv(Controller(s))
  {
    hide AllReport;
    ControllerSees(s);
    var s' := Controller(s);
    forall slot | 0 <= slot < LAST ensures SlotOk(s', slot) {
      assert SlotOk(s, slot);
    }
  }

  // --- whole runs -------------------------------------------------------------------------

  datatype Step = DoStart(p: Payload) | DoWrite | DoController

  ghost function Apply(s: State, step: Step): State
    requires Inv(s)
  {
    match step
    case DoStart(p) => if CanStart(s) then Start(s, p) else s
    case DoWrite => if s.pc.Idle? then s else Write(s)
    case DoController => Controller(s)
  }

  lemma ApplyInv(s: State, step: Step)
    requires Inv(s)
    ensures Inv(Apply(s, step))
    ensures s.armed <= Apply(s, step).armed && s.fetched <= Apply(s, step).fetched
  {
    hide SlotOk, LinkOk, Partial;
    match step
    case DoStart(p) =>
      if CanStart(s) {
        StartInv(s, p);
      }
    case DoWrite =>
      if !s.pc.Idle? {
        if s.pc.i < 3 {
          EarlyWriteInv(s);
        } else if s.pc.Linking? {
          LinkDoneInv(s);
        } else {
          FillDoneInv(s);
        }
      }
    case DoController => ControllerInv(s);
  }

  // Any interleaving of calls, single dword writes and controller looks.
  ghost function Run(s: State, steps: seq<Step>): (r: State)
    requires Inv(s)
    ensures Inv(r) && s.armed <= r.armed && s.fetched <= r.fetched
    decreases |steps|
  {
    if steps == [] then s
    else
      ApplyInv(s, steps[0]);
      Run(Apply(s, steps[0]), steps[1..])
  }

  // The ring refines an unbounded queue: in every run, over any number of wraps, the controller has
  // executed exactly a prefix of the armed TRBs, in order and once each, and it finds a valid
  // Normal TRB only where the next one is.
  lemma RunRefinesFifo(baseLo: nat, baseHi: nat, steps: seq<Step>)
    ensures Inv(Init(baseLo, baseHi))
    ensures var s := Run(Init(baseLo, baseHi), steps);
      && s.fetched <= s.armed
      && (s.deq < LAST && Cycle(s.ring[s.deq]) == s.ccs ==>
            |s.fetched| < |s.armed| && s.ring[s.deq] == Full(s.armed[|s.fetched|], s.ccs))
  {
    hide SlotOk, LinkOk, Partial;
    InitInv(baseLo, baseHi);
    ControllerSees(Run(Init(baseLo, baseHi), steps));
  }

  // An armed TRB is never missed: the controller's next look fetches it, or follows the link and
  // the look after that does.
  lemma ControllerProgress(s: State)
    requires Inv(s) && |s.fetched| < |s.armed|
    ensures var s1 := Controller(s);
      || s1.fetched == s.fetched + [s.armed[|s.fetched|]]
      || (Inv(s1) && Controller(s1).fetched == s.fetched + [s.armed[|s.fetched|]])
  {
    hide SlotOk, Partial;
    ControllerSees(s);
    ControllerInv(s);
    if s.deq == LAST {
      ControllerSees(Controller(s));
    }
  }

  // The four writes of a Normal TRB.
  ghost function Fill(s: State): State
    requires s.pc.Filling? && s.pc.i == 0 && s.enq < |s.ring| == |s.writes|
  {
    Write(Write(Write(Write(s))))
  }

  // --- the driver's code ------------------------------------------------------------------

  // What holds however many transfers are outstanding.
  ghost predicate Shape(s: State) {
    && |s.ring| == |s.writes| == EP_RING_TRBS
    && s.enq <= LAST && s.deq <= LAST && s.cycle <= 1
    && (s.pc.Filling? ==> s.enq < LAST && s.pc.i <= 3)
    && (s.pc.Linking? ==> s.enq == LAST && s.pc.i <= 3)
    && Kind(s.ring[LAST]) != 1 && AllReport(s.ring)
  }

  lemma InvShape(s: State)
    requires Inv(s)
    ensures Shape(s)
  {
  }

  lemma StartShape(s: State, p: Payload)
    requires Shape(s) && s.pc.Idle?
    ensures Shape(Start(s, p))
  {
  }

  lemma WriteShape(s: State)
    requires Shape(s) && !s.pc.Idle?
    ensures Shape(Write(s)) && Write(s).fetched == s.fetched
    ensures |Write(s).armed| + (if Write(s).pc.Idle? then 0 else 1) == |s.armed| + 1
  {
    WriteReports(s);
    hide AllReport;
  }

  lemma ControllerShape(s: State)
    requires Shape(s)
    ensures Shape(Controller(s)) && Controller(s).armed == s.armed && Controller(s).pc == s.pc
    ensures |s.fetched| <= |Controller(s).fetched| <= |s.fetched| + 1
    ensures |Controller(s).fetched| > |s.fetched| ==> forall short :: Reports(s.ring[s.deq], short)
  {
  }

  // A whole call of `arm_report` when nothing comes between.
  ghost function Arm(s: State, p: Payload): (r: State)
    requires Shape(s) && s.pc.Idle?
  {
    if s.enq == LAST then Fill(Write(Write(Write(Write(Start(s, p)))))) else Fill(Start(s, p))
  }

  // What it leaves: the TRB in its slot, on a wrap with a Link before it.
  lemma ArmIs(s: State, p: Payload)
    requires Shape(s) && s.pc.Idle?
    ensures var r := Arm(s, p);
      && Shape(r) && r.pc.Idle? && r.armed == s.armed + [p] && r.fetched == s.fetched
      && r.deq == s.deq && r.ccs == s.ccs
      && r.ring == if s.enq < LAST then s.ring[s.enq := Full(p, s.cycle)]
                   else s.ring[LAST := Trb(s.baseLo, s.baseHi, 0, LinkD3(s.cycle))][0 := Full(p, 1 - s.cycle)]
  {
    var s0 := Start(s, p);
    if s.enq == LAST {
      LinkWrites(s0);
      FillWrites(Write(Write(Write(Write(s0)))));
    } else {
      FillWrites(s0);
    }
  }

  lemma FillWrites(s: State)
    requires Shape(s) && s.pc.Filling? && s.pc.i == 0
    ensures Fill(s) == s.(ring := s.ring[s.enq := Full(s.pc.p, s.cycle)], enq := s.enq + 1, pc := Idle,
                          armed := s.armed + [s.pc.p], writes := s.writes[s.enq := s.writes[s.enq] + 1])
    ensures Shape(Fill(s))
  {
    var w1, w2, w3 := Write(s), Write(Write(s)), Write(Write(Write(s)));
    assert w1.ring == s.ring[s.enq := s.ring[s.enq].(d0 := s.pc.p.d0)];
    assert w2.ring == s.ring[s.enq := s.ring[s.enq].(d0 := s.pc.p.d0, d1 := s.pc.p.d1)];
    assert w3.ring == s.ring[s.enq := s.ring[s.enq].(d0 := s.pc.p.d0, d1 := s.pc.p.d1, d2 := s.pc.p.d2)];
  }

  lemma LinkWrites(s: State)
    requires Shape(s) && s.pc.Linking? && s.pc.i == 0
    ensures var link := Trb(s.baseLo, s.baseHi, 0, LinkD3(s.cycle));
      Write(Write(Write(Write(s)))) ==
      s.(ring := s.ring[LAST := link], enq := 0, cycle := 1 - s.cycle, pc := Filling(0, s.pc.p), links := s.links + 1,
         writes := s.writes[LAST := s.writes[LAST] + 1])
    ensures Shape(Write(Write(Write(Write(s)))))
  {
    var w1, w2, w3 := Write(s), Write(Write(s)), Write(Write(Write(s)));
    assert w1.ring == s.ring[LAST := s.ring[LAST].(d0 := s.baseLo)];
    assert w2.ring == s.ring[LAST := s.ring[LAST].(d0 := s.baseLo, d1 := s.baseHi)];
    assert w3.ring == s.ring[LAST := s.ring[LAST].(d0 := s.baseLo, d1 := s.baseHi, d2 := 0)];
  }

  // Arming keeps the ring a queue if and only if fewer than 255 transfers are outstanding.
  lemma ArmInvIff(s: State, p: Payload)
    requires Inv(s) && s.pc.Idle?
    ensures Shape(s) && (Inv(Arm(s, p)) <==> |s.armed| < |s.fetched| + LAST)
  {
    hide SlotOk, LinkOk, Partial;
    InvShape(s);
    ArmIs(s, p);
    if CanStart(s) {
      StartInv(s, p);
      var s0 := Start(s, p);
      if s.enq == LAST {
        LinkInv(s0);
        FillInv(Write(Write(Write(Write(s0)))));
      } else {
        FillInv(s0);
      }
    }
  }

  // Where a full ring has its two ends, and the cycle bits they stand for.
  lemma FullRing(s: State)
    requires Counts(s) && |s.armed| == |s.fetched| + LAST
    ensures s.enq < LAST ==> s.deq == s.enq && s.cycle != s.ccs
    ensures s.enq == LAST ==> (s.deq == 0 && s.cycle == s.ccs) || (s.deq == LAST && s.cycle != s.ccs)
    ensures s.cycle <= 1 && s.ccs <= 1
    ensures s.deq == LAST ==> s.links == s.followed + 1
  {
    assert s.enq - s.deq == LAST * (s.followed + 1 - s.links);
    assert s.links == s.followed || s.links == s.followed + 1;
  }

  // With 255 outstanding, one more turns back the cycle bit the controller is waiting for - of the
  // oldest unfetched TRB, or of the Link before it - and the controller stops there.
  lemma OneTooMany(s: State, p: Payload)
    requires Inv(s) && s.pc.Idle? && |s.armed| == |s.fetched| + LAST
    ensures Shape(s) && Cycle(s.ring[s.deq]) == s.ccs
    ensures Cycle(Arm(s, p).ring[s.deq]) != s.ccs && Controller(Arm(s, p)) == Arm(s, p)
  {
    hide Inv, Counts, Arm, AllReport;
    FullNow(s);
    FullRing(s);
    InvShape(s);
    ControllerSees(s);
    ArmIs(s, p);
  }

  lemma FullNow(s: State)
    requires Inv(s)
    ensures Counts(s)
  {
  }

  lemma LinkInv(s: State)
    requires Inv(s) && s.pc.Linking? && s.pc.i == 0
    ensures var r := Write(Write(Write(Write(s))));
      && Inv(r) && r.pc == Filling(0, s.pc.p) && r.armed == s.armed && r.fetched == s.fetched
  {
    hide SlotOk, LinkOk, Partial;
    EarlyWriteInv(s);
    EarlyWriteInv(Write(s));
    EarlyWriteInv(Write(Write(s)));
    LinkDoneInv(Write(Write(Write(s))));
  }

  lemma FillInv(s: State)
    requires Inv(s) && s.pc.Filling? && s.pc.i == 0
    ensures Inv(Fill(s)) && Fill(s).pc.Idle? && Fill(s).armed == s.armed + [s.pc.p] && Fill(s).fetched == s.fetched
  {
    hide SlotOk, LinkOk, Partial;
    EarlyWriteInv(s);
    EarlyWriteInv(Write(s));
    EarlyWriteInv(Write(Write(s)));
    FillDoneInv(Write(Write(Write(s))));
  }

  const DWORD: nat := 0x1_0000_0000

  // The low and the high half of an address.
  function Low(phys: nat): nat {
    phys % DWORD
  }

  function High(phys: nat): nat {
    phys / DWORD
  }

  // A Normal TRB for the eight-byte boot report.
  function ReportAt(phys: nat): (p: Payload)
    ensures p.d0 + DWORD * p.d1 == phys && p.d0 < DWORD && p.d2 == 8
  {
    Payload(Low(phys), High(phys), 8)
  }

  class EpRing {
    const ring: array<Trb>
    const ringPhys: nat
    const reportPhys: nat
    var epEnqueue: nat
    var epCycle: nat
    ghost var m: State

    ghost predicate Matches()
      reads this, ring
    {
      && m.ring == ring[..] && m.baseLo == Low(ringPhys) && m.baseHi == High(ringPhys)
      && m.enq == epEnqueue && m.cycle == epCycle
    }

    ghost predicate Valid()
      reads this, ring
    {
      Matches() && Shape(m) && m.pc.Idle?
    }

    constructor (ringPhys: nat, reportPhys: nat)
      ensures Valid() && m == Init(Low(ringPhys), High(ringPhys)) && fresh(ring)
      ensures m.baseLo + DWORD * m.baseHi == ringPhys && m.baseLo < DWORD
      ensures this.ringPhys == ringPhys && this.reportPhys == reportPhys
    {
      ring := new Trb[EP_RING_TRBS](i => Trb(0, 0, 0, 0));
      this.ringPhys, this.reportPhys := ringPhys, reportPhys;
      epEnqueue, epCycle := 0, 1;
      m := Init(Low(ringPhys), High(ringPhys));
    }

    // The method writes the dwords in the order the model interleaves with the controller.  The TRB it
    // leaves points at the report buffer, asks for eight bytes, and reports its completion.
    method ArmReport()
      requires Valid()
      modifies this`epEnqueue, this`epCycle, this`m, ring
      ensures Valid() && m == Arm(old(m), ReportAt(reportPhys))
      ensures Inv(old(m)) ==> (Inv(m) <==> |old(m).armed| < |old(m).fetched| + LAST)
      ensures 0 < epEnqueue <= ring.Length
      ensures var t := ring[epEnqueue - 1];
        && t.d0 + DWORD * t.d1 == reportPhys && t.d0 < DWORD && t.d2 == 8
        && t.d3 % 2 == epCycle && t.d3 / 4 % 2 == 1 && t.d3 / 32 % 2 == 1 && t.d3 / 0x400 == 1
    {
      hide Inv, AllReport;
      ghost var before := m;
      var p := ReportAt(reportPhys);
      ArmIs(m, p);
      if Inv(m) {
        ArmInvIff(m, p);
      }
      m := Start(m, p);
      if epEnqueue == LAST {
        LinkWrites(m);
        WriteLink();
        epEnqueue := 0;
        epCycle := 1 - epCycle;
      }
      FillWrites(m);
      WriteNormal(p);
      epEnqueue := epEnqueue + 1;
      assert m == Arm(before, p);
      NormalBits(epCycle);
    }

    method WriteLink()
      requires Matches() && ring.Length == |m.writes| == EP_RING_TRBS && epEnqueue == LAST
      requires m.pc.Linking? && m.pc.i == 0
      modifies this`m, ring
      ensures m == old(Write(Write(Write(Write(m)))))
      ensures m.ring == ring[..]
    {
      var e := epEnqueue;
      ring[e] := ring[e].(d0 := Low(ringPhys));
      m := Write(m);
      ring[e] := ring[e].(d1 := High(ringPhys));
      m := Write(m);
      ring[e] := ring[e].(d2 := 0);
      m := Write(m);
      ring[e] := ring[e].(d3 := LinkD3(epCycle));
      m := Write(m);
    }

    method WriteNormal(p: Payload)
      requires Matches() && ring.Length == |m.writes| == EP_RING_TRBS && epEnqueue < LAST
      requires m.pc == Filling(0, p)
      modifies this`m, ring
      ensures m == old(Fill(m))
      ensures m.ring == ring[..]
    {
      var e := epEnqueue;
      ring[e] := ring[e].(d0 := p.d0);
      m := Write(m);
      ring[e] := ring[e].(d1 := p.d1);
      m := Write(m);
      ring[e] := ring[e].(d2 := p.d2);
      m := Write(m);
      ring[e] := ring[e].(d3 := NormalD3(epCycle));
      m := Write(m);
    }
  }
}
