/**
 The queue's memory one store at a time.  The driver stores each field of each descriptor, then the
 available slot, then the available index; to reclaim, one link a descriptor.  The device stores a used
 element and then the used index.  Either may look between any two stores of the other: nothing it goes
 by changes until the index is stored, and then everything is there.
 */
module VirtqueueStores {
  import opened SeqFacts
  import opened VirtqueueProtocol
  import opened Virtqueue

  // Where the driver is: a push, or the reclaim of a completed chain, with the table and available ring
  // it started from and the stores it has made.
  datatype Driver =
    | Quiet
    | Pushing(desc: seq<Desc>, avail: seq<nat>, parts: seq<Part>, stores: nat)
    | Reclaiming(desc: seq<Desc>, head: nat, stores: nat)

  // Whether the device has stored a used element and not yet the index.
  datatype Device = Waiting | Completing(used: seq<UsedElem>, h: nat, len: nat)

  datatype State = State(mem: Mem, proto: Proto, driver: Driver, device: Device)

  datatype Act =
    | BeginPush(parts: seq<Part>) | BeginReclaim | DriverStore
    | DeviceTake | StoreElement(h: nat, len: nat) | StoreUsedIndex

  // One field of a descriptor.
  function SetField(d: Desc, want: Desc, k: nat): Desc {
    if k == 0 then d.(addr := want.addr) else if k == 1 then d.(len := want.len)
    else if k == 2 then d.(flags := want.flags) else d.(next := want.next)
  }

  // The table after n field stores, four to a descriptor.
  function Fields(desc: seq<Desc>, r: Request, n: nat): (out: seq<Desc>)
    requires n <= 4 * |r.descs| && |r.descs| == |r.parts| && Below(r.descs, |desc|)
    ensures |out| == |desc|
  {
    if n == 0 then desc
    else
      var before := Fields(desc, r, n - 1);
      var d := r.descs[(n - 1) / 4];
      before[d := SetField(before[d], DescOf(r, (n - 1) / 4), (n - 1) % 4)]
  }

  lemma {:induction false} FieldsSame(desc: seq<Desc>, r: Request, n: nat)
    requires n <= 4 * |r.descs| && |r.descs| == |r.parts| && Below(r.descs, |desc|)
    ensures SameOutside(desc, Fields(desc, r, n), Elems(r.descs))
    decreases n
  {
    if n > 0 {
      FieldsSame(desc, r, n - 1);
      assert r.descs[(n - 1) / 4] in Elems(r.descs);
    }
  }

  // Four stores make a descriptor, so all of them make the request.
  lemma FourSets(t0: seq<Desc>, t1: seq<Desc>, t2: seq<Desc>, t3: seq<Desc>, t4: seq<Desc>, d: nat, want: Desc)
    requires d < |t0| == |t1| == |t2| == |t3|
    requires t1 == t0[d := SetField(t0[d], want, 0)] && t2 == t1[d := SetField(t1[d], want, 1)]
    requires t3 == t2[d := SetField(t2[d], want, 2)] && t4 == t3[d := SetField(t3[d], want, 3)]
    ensures t4 == t0[d := want]
  {
    assert t4[d] == want;
    assert forall j :: 0 <= j < |t0| && j != d ==> t4[j] == t0[j];
  }

  lemma FourFields(desc: seq<Desc>, r: Request, i: nat)
    requires i < |r.descs| == |r.parts| && Below(r.descs, |desc|)
    ensures Fields(desc, r, 4 * i + 4) == Fields(desc, r, 4 * i)[r.descs[i] := DescOf(r, i)]
  {
    hide Fields, DescOf;
    var n := 4 * i;
    FieldStep(desc, r, n, i, 0);
    FieldStep(desc, r, n + 1, i, 1);
    FieldStep(desc, r, n + 2, i, 2);
    FieldStep(desc, r, n + 3, i, 3);
    var t0, t1, t2, t3 := Fields(desc, r, n), Fields(desc, r, n + 1), Fields(desc, r, n + 2), Fields(desc, r, n + 3);
    assert t1 == t0[r.descs[i] := SetField(t0[r.descs[i]], DescOf(r, i), 0)];
    assert t2 == t1[r.descs[i] := SetField(t1[r.descs[i]], DescOf(r, i), 1)];
    assert t3 == t2[r.descs[i] := SetField(t2[r.descs[i]], DescOf(r, i), 2)];
    FourSets(t0, t1, t2, t3, Fields(desc, r, n + 4), r.descs[i], DescOf(r, i));
  }

  lemma {:induction false} FieldsFill(desc: seq<Desc>, r: Request, i: nat)
    requires i <= |r.descs| == |r.parts| && Below(r.descs, |desc|)
    ensures Fields(desc, r, 4 * i) == Fill(desc, r, i)
    decreases i
  {
    if i > 0 {
      FieldsFill(desc, r, i - 1);
      FourFields(desc, r, i - 1);
      hide Fields;
      assert 4 * (i - 1) + 4 == 4 * i;
    }
  }

  lemma FieldStep(desc: seq<Desc>, r: Request, n: nat, i: nat, k: nat)
    requires n == 4 * i + k && k < 4 && i < |r.descs| == |r.parts| && Below(r.descs, |desc|)
    ensures Fields(desc, r, n + 1) ==
            Fields(desc, r, n)[r.descs[i] := SetField(Fields(desc, r, n)[r.descs[i]], DescOf(r, i), k)]
  {
    assert n / 4 == i && n % 4 == k;
  }

  // --- steps ----------------------------------------------------------------------------------

  // Total stores of fields; then one of the slot and one of the index.
  function FieldStores(parts: seq<Part>): nat {
    4 * |parts|
  }

  // The request being written, on the first free descriptors.
  function Writing(s: State): Request
    requires s.driver.Pushing? && |s.driver.parts| <= |s.proto.free|
  {
    Request(s.proto.free[..|s.driver.parts|], s.driver.parts)
  }

  // The memory without the stores of operations under way.
  function Clean(s: State): Mem {
    s.mem.(desc := if s.driver.Quiet? then s.mem.desc else s.driver.desc,
    avail := if s.driver.Pushing? then s.driver.avail else s.mem.avail,
    used := if s.device.Completing? then s.device.used else s.mem.used)
  }

  // How much of the memory is a push's doing.
  ghost predicate Pushed(s: State) {
    s.driver.Pushing? ==>
      var n := |s.driver.parts|;
      && 0 < n <= |s.proto.free| && Below(s.proto.free[..n], |s.driver.desc|) && |s.driver.avail| > 0
      && s.driver.stores <= FieldStores(s.driver.parts) + 1
      && s.mem.desc == Fields(s.driver.desc, Writing(s), Min(s.driver.stores, FieldStores(s.driver.parts)))
      && s.mem.avail == (if s.driver.stores <= FieldStores(s.driver.parts) then s.driver.avail
                         else s.driver.avail[Slot(s.mem.availIdx, |s.driver.avail|) := s.proto.free[0]])
  }

  // How much is a reclaim's.
  ghost predicate Reclaimed(s: State) {
    s.driver.Reclaiming? ==>
      && s.proto.popped < |s.proto.used| && s.driver.head == s.proto.used[s.proto.popped].id
      && s.driver.head in s.proto.chains
      && var descs := s.proto.chains[s.driver.head].descs;
         && s.driver.stores <= |descs| && Below(descs, |s.driver.desc|)
         && s.mem.desc == Unchain(s.driver.desc, descs, s.mem.freeHead, s.driver.stores)
  }

  // And how much a completion's.
  ghost predicate Completed(s: State) {
    s.device.Completing? ==>
      && s.device.h in s.proto.held && |s.device.used| > 0
      && s.mem.used == s.device.used[Slot(s.mem.usedIdx, |s.device.used|) := UsedElem(s.device.h, s.device.len)]
  }

  ghost predicate StoresOk(s: State) {
    Repr(Clean(s), s.proto) && Pushed(s) && Reclaimed(s) && Completed(s)
  }

  function Min(a: nat, b: nat): nat {
    if a < b then a else b
  }

  // The next store of a push; the last one publishes it, and the driver's own free list moves on.
  ghost function PushStore(s: State): State
    requires StoresOk(s) && s.driver.Pushing?
  {
    var parts, k := s.driver.parts, s.driver.stores;
    var r := Writing(s);
    if k < FieldStores(parts) then
      s.(mem := s.mem.(desc := Fields(s.driver.desc, r, k + 1)),
      driver := Pushing(s.driver.desc, s.driver.avail, parts, k + 1))
    else if k == FieldStores(parts) then
      s.(mem := s.mem.(avail := s.driver.avail[Slot(s.mem.availIdx, |s.driver.avail|) := r.descs[0]]),
      driver := Pushing(s.driver.desc, s.driver.avail, parts, k + 1))
    else
      s.(mem := s.mem.(availIdx := WrappingIncr(s.mem.availIdx),
                       freeHead := s.driver.desc[r.descs[|r.descs| - 1]].next,
                       numFree := |s.proto.free| - |parts|),
      proto := Push(s.proto, parts), driver := Quiet)
  }

  // The next link of a reclaim; after the last, the driver's own fields move on.
  ghost function ReclaimStore(s: State): State
    requires StoresOk(s) && s.driver.Reclaiming?
  {
    var descs, k := s.proto.chains[s.driver.head].descs, s.driver.stores;
    if k < |descs| then
      s.(mem := s.mem.(desc := Unchain(s.driver.desc, descs, s.mem.freeHead, k + 1)),
      driver := Reclaiming(s.driver.desc, s.driver.head, k + 1))
    else
      ReprPop(Clean(s), s.proto);
      s.(mem := MemPop(Clean(s), descs).(used := s.mem.used), proto := Pop(s.proto), driver := Quiet)
  }

  // The device goes by the memory: it takes the head in the next available slot when the indices
  // differ.  So does the driver with the used ring.
  ghost predicate DeviceHasWork(s: State) {
    s.mem.deviceIdx != s.mem.availIdx
  }

  ghost predicate DriverHasWork(s: State) {
    s.mem.lastUsedIdx != s.mem.usedIdx && |s.mem.used| > 0
  }

  ghost function Next(s: State, a: Act): State
    requires StoresOk(s)
  {
    match a
    case BeginPush(parts) =>
      if s.driver.Quiet? && 0 < |parts| <= |s.proto.free|
      then s.(driver := Pushing(s.mem.desc, s.mem.avail, parts, 0)) else s
    case BeginReclaim =>
      if s.driver.Quiet? && DriverHasWork(s)
      then s.(driver := Reclaiming(s.mem.desc, s.mem.used[Slot(s.mem.lastUsedIdx, |s.mem.used|)].id, 0)) else s
    case DriverStore =>
      if s.driver.Pushing? then PushStore(s) else if s.driver.Reclaiming? then ReclaimStore(s) else s
    case DeviceTake =>
      if DeviceHasWork(s) && s.proto.fetched < |s.proto.offered|
      then s.(mem := s.mem.(deviceIdx := WrappingIncr(s.mem.deviceIdx)), proto := Fetch(s.proto)) else s
    case StoreElement(h, len) =>
      if s.device.Waiting? && h in s.proto.held && |s.mem.used| > 0
      then s.(mem := s.mem.(used := s.mem.used[Slot(s.mem.usedIdx, |s.mem.used|) := UsedElem(h, len)]),
              device := Completing(s.mem.used, h, len)) else s
    case StoreUsedIndex =>
      if s.device.Completing?
      then s.(mem := s.mem.(usedIdx := WrappingIncr(s.mem.usedIdx)),
              proto := Complete(s.proto, s.device.h, s.device.len), device := Waiting) else s
  }

  // --- what each side sees --------------------------------------------------------------------

  // At every store of the driver: the indices say exactly whether a published head is waiting, its slot
  // holds it, and every request the device may look at is in the table unharmed.
  lemma DeviceSees(s: State)
    requires StoresOk(s)
    ensures DeviceHasWork(s) <==> s.proto.fetched < |s.proto.offered|
    ensures |s.mem.avail| == s.proto.size > 0
    ensures DeviceHasWork(s) ==>
      s.mem.avail[Slot(s.mem.deviceIdx, |s.mem.avail|)] == s.proto.offered[s.proto.fetched]
    ensures forall h :: h in s.proto.held || h in s.proto.offered[Min(s.proto.fetched, |s.proto.offered|)..] ==>
      h in s.proto.chains && Encodes(s.mem.desc, s.proto.chains[h])
  {
    hide AllEncoded, Inv, Fields, Encodes, Unchain;
    FetchReady(Clean(s), s.proto);
    QueueShape(Clean(s), s.proto);
    if s.driver.Pushing? && s.proto.fetched < |s.proto.offered| {
      AvailSlotApart(s);
    }
    forall h | h in s.proto.held || h in s.proto.offered[Min(s.proto.fetched, |s.proto.offered|)..]
      ensures h in s.proto.chains && Encodes(s.mem.desc, s.proto.chains[h])
    {
      Owned(s, h);
      Unharmed(s, h);
    }
  }

  lemma AvailSlotApart(s: State)
    requires StoresOk(s) && s.driver.Pushing? && s.proto.fetched < |s.proto.offered|
    ensures Slot(s.mem.deviceIdx, s.proto.size) != Slot(s.mem.availIdx, s.proto.size)
  {
    hide AllEncoded, Inv, Fields;
    RingRoom(s.proto);
    WrapIndex(s.proto.fetched, s.proto.size);
    WrapIndex(|s.proto.offered|, s.proto.size);
    SlotsApart(s.proto.fetched, |s.proto.offered|, s.proto.size);
  }

  // A head that is pending or held is outstanding, and not the one being reclaimed.
  lemma Owned(s: State, h: nat)
    requires StoresOk(s)
    requires h in s.proto.held || h in s.proto.offered[Min(s.proto.fetched, |s.proto.offered|)..]
    ensures h in s.proto.chains && (s.driver.Reclaiming? ==> h != s.driver.head)
  {
    hide AllEncoded, Partition, Chains, Fields, Unchain;
    Counts(s.proto);
    Stage(s.proto, h);
  }

  lemma Stage(p: Proto, h: nat)
    requires Inv(p) && p.fetched <= |p.offered| && (h in p.held || h in p.offered[p.fetched..])
    ensures h in p.chains && (p.popped < |p.used| ==> h != p.used[p.popped].id)
  {
    hide Partition, Chains;
    StagesSplit(p);
    var pending, held, unread := multiset(p.offered[p.fetched..]), multiset(p.held), multiset(Ids(p.used[p.popped..]));
    assert pending[h] + held[h] >= 1;
    assert multiset(p.chains.Keys)[h] <= 1;
    if p.popped < |p.used| {
      var ids := Ids(p.used[p.popped..]);
      assert ids[0] == p.used[p.popped].id && ids[0] in ids;
    }
  }

  lemma Unharmed(s: State, h: nat)
    requires StoresOk(s) && h in s.proto.chains && (s.driver.Reclaiming? ==> h != s.driver.head)
    ensures Encodes(s.mem.desc, s.proto.chains[h])
  {
    hide Conserved, Fields, Unchain, FreeLinks;
    assert Encodes(Clean(s).desc, s.proto.chains[h]);
    if s.driver.Pushing? {
      UnharmedByPush(s, h);
    } else if s.driver.Reclaiming? {
      UnharmedByReclaim(s, h);
    }
  }

  lemma UnharmedByPush(s: State, h: nat)
    requires StoresOk(s) && h in s.proto.chains && s.driver.Pushing?
    ensures Encodes(s.mem.desc, s.proto.chains[h])
  {
    hide Conserved, Fields, Encodes;
    var r := Writing(s);
    FieldsSame(s.driver.desc, r, Min(s.driver.stores, FieldStores(s.driver.parts)));
    ElemsSplit(s.proto.free, |s.driver.parts|);
    AllEncodedFrame(s.driver.desc, s.mem.desc, s.proto.owner, s.proto.chains, Elems(r.descs));
  }

  lemma UnharmedByReclaim(s: State, h: nat)
    requires StoresOk(s) && h in s.proto.chains && s.driver.Reclaiming? && h != s.driver.head
    ensures Encodes(s.mem.desc, s.proto.chains[h])
  {
    hide Conserved, Unchain, FreeLinks;
    var descs, k := s.proto.chains[s.driver.head].descs, s.driver.stores;
    UnchainSame(s.driver.desc, descs, s.mem.freeHead, k);
    assert OwnsChain(s.proto.owner, h, s.proto.chains[h]);
    assert OwnsChain(s.proto.owner, s.driver.head, s.proto.chains[s.driver.head]);
    forall i | 0 <= i < |s.proto.chains[h].descs| ensures s.proto.chains[h].descs[i] !in Elems(descs[..k]) {
      assert s.proto.owner[s.proto.chains[h].descs[i]] == h;
    }
    EncodesFrame(s.driver.desc, s.mem.desc, s.proto.chains[h], Elems(descs[..k]));
  }

  // At every store of the device: the used index says exactly whether a completion is unread, and its slot
  // holds the oldest.
  lemma DriverSees(s: State)
    requires StoresOk(s)
    ensures DriverHasWork(s) <==> s.proto.popped < |s.proto.used|
    ensures DriverHasWork(s) ==>
      var e := s.mem.used[Slot(s.mem.lastUsedIdx, |s.mem.used|)];
      e == s.proto.used[s.proto.popped] && e.id in s.proto.chains
  {
    hide AllEncoded, Inv, Fields, Encodes, Unchain;
    PopReady(Clean(s), s.proto);
    QueueShape(Clean(s), s.proto);
    if s.device.Completing? && s.proto.popped < |s.proto.used| {
      UsedSlotApart(s);
    }
  }

  lemma UsedSlotApart(s: State)
    requires StoresOk(s) && s.device.Completing? && s.proto.popped < |s.proto.used|
    ensures Slot(s.mem.lastUsedIdx, s.proto.size) != Slot(s.mem.usedIdx, s.proto.size)
  {
    hide AllEncoded, Inv, Fields, Unchain;
    RingRoom(s.proto);
    WrapIndex(s.proto.popped, s.proto.size);
    WrapIndex(|s.proto.used|, s.proto.size);
    SlotsApart(s.proto.popped, |s.proto.used|, s.proto.size);
  }

  // --- every interleaving ---------------------------------------------------------------------

  lemma BeginPushOk(s: State, parts: seq<Part>)
    requires StoresOk(s)
    ensures StoresOk(Next(s, BeginPush(parts)))
  {
    hide AllEncoded, Inv, FreeLinks, RingHolds;
    if s.driver.Quiet? && 0 < |parts| <= |s.proto.free| {
      QueueShape(Clean(s), s.proto);
      FreePrefix(Clean(s), s.proto, |parts|);
      assert Clean(Next(s, BeginPush(parts))) == Clean(s);
    }
  }

  lemma BeginReclaimOk(s: State)
    requires StoresOk(s)
    ensures StoresOk(Next(s, BeginReclaim))
  {
    hide Repr;
    if s.driver.Quiet? && DriverHasWork(s) {
      DriverSees(s);
      ReprPop(Clean(s), s.proto);
      assert Clean(Next(s, BeginReclaim)) == Clean(s);
    }
  }

  lemma PushStoreOk(s: State)
    requires StoresOk(s) && s.driver.Pushing?
    ensures StoresOk(PushStore(s))
  {
    hide Repr, Fields;
    if s.driver.stores <= FieldStores(s.driver.parts) {
      assert Clean(PushStore(s)) == Clean(s);
    } else {
      PublishOk(s);
    }
  }

  // The last store of a push: but for what the device is doing, the memory is now the whole push of the
  // memory it began with.
  lemma PublishOk(s: State)
    requires StoresOk(s) && s.driver.Pushing? && s.driver.stores == FieldStores(s.driver.parts) + 1
    ensures StoresOk(PushStore(s))
  {
    hide Repr, Fields;
    var parts, r := s.driver.parts, Writing(s);
    QueueShape(Clean(s), s.proto);
    FieldsFill(s.driver.desc, r, |parts|);
    ReprPush(Clean(s), s.proto, parts);
    assert Clean(PushStore(s)) == MemPush(Clean(s), r.descs, parts);
  }

  lemma ReclaimStoreOk(s: State)
    requires StoresOk(s) && s.driver.Reclaiming?
    ensures StoresOk(ReclaimStore(s))
  {
    hide Repr, Unchain;
    var descs := s.proto.chains[s.driver.head].descs;
    if s.driver.stores < |descs| {
      assert Clean(ReclaimStore(s)) == Clean(s);
    } else {
      ReprPop(Clean(s), s.proto);
      assert Clean(ReclaimStore(s)) == MemPop(Clean(s), descs);
      assert Pop(s.proto).held == s.proto.held;
    }
  }

  lemma DeviceOk(s: State, a: Act)
    requires StoresOk(s) && (a.DeviceTake? || a.StoreElement? || a.StoreUsedIndex?)
    ensures StoresOk(Next(s, a))
  {
    hide Repr, Fields, Unchain;
    var s' := Next(s, a);
    match a
    case DeviceTake =>
      if DeviceHasWork(s) && s.proto.fetched < |s.proto.offered| {
        ReprFetch(Clean(s), s.proto);
        assert Clean(s') == Clean(s).(deviceIdx := WrappingIncr(s.mem.deviceIdx));
      }
    case StoreElement(h, len) =>
      assert Clean(s') == Clean(s);
    case StoreUsedIndex =>
      if s.device.Completing? {
        ReprComplete(Clean(s), s.proto, s.device.h, s.device.len);
        assert Clean(s') == Clean(s).(used := s.mem.used, usedIdx := WrappingIncr(s.mem.usedIdx));
      }
  }

  lemma NextOk(s: State, a: Act)
    requires StoresOk(s)
    ensures StoresOk(Next(s, a))
  {
    hide Repr, Pushed, Reclaimed, Completed;
    match a
    case BeginPush(parts) => BeginPushOk(s, parts);
    case BeginReclaim => BeginReclaimOk(s);
    case DriverStore =>
      if s.driver.Pushing? {
        PushStoreOk(s);
      } else if s.driver.Reclaiming? {
        ReclaimStoreOk(s);
      }
    case DeviceTake => DeviceOk(s, a);
    case StoreElement(h, len) => DeviceOk(s, a);
    case StoreUsedIndex => DeviceOk(s, a);
  }

  ghost function Run(s: State, acts: seq<Act>): (r: State)
    requires StoresOk(s)
    ensures StoresOk(r)
    decreases |acts|
  {
    if acts == [] then s
    else
      NextOk(s, acts[0]);
      Run(Next(s, acts[0]), acts[1..])
  }

  // In every interleaving of the two sides' single stores, from any state between operations: the device
  // finds exactly the published heads, each once and in order, and each with its whole request; the
  // driver finds exactly the completions, oldest first; nothing half written is ever seen.
  lemma NeverHalfWritten(m: Mem, p: Proto, acts: seq<Act>)
    requires Repr(m, p)
    ensures StoresOk(State(m, p, Quiet, Waiting))
    ensures var s := Run(State(m, p, Quiet, Waiting), acts);
      && Repr(Clean(s), s.proto)
      && (DeviceHasWork(s) <==> s.proto.fetched < |s.proto.offered|)
      && (DeviceHasWork(s) && |s.mem.avail| > 0 ==>
            s.mem.avail[Slot(s.mem.deviceIdx, |s.mem.avail|)] == s.proto.offered[s.proto.fetched])
      && (forall h :: h in s.proto.held ==> h in s.proto.chains && Encodes(s.mem.desc, s.proto.chains[h]))
      && (DriverHasWork(s) <==> s.proto.popped < |s.proto.used|)
      && (DriverHasWork(s) ==>
            s.mem.used[Slot(s.mem.lastUsedIdx, |s.mem.used|)] == s.proto.used[s.proto.popped])
  {
    hide Repr, Encodes;
    assert Clean(State(m, p, Quiet, Waiting)) == m;
    var s := Run(State(m, p, Quiet, Waiting), acts);
    DeviceSees(s);
    DriverSees(s);
  }
}
