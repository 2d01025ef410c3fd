/**
 The kernel's split virtqueue: a descriptor table whose unused entries carry the free chain in
 their `next` fields, an available ring and a used ring reached through wrapping 16-bit indices.
 Every operation is proved to be exactly the corresponding step of VirtqueueProtocol.
 */
module Virtqueue {
  import opened SeqFacts
  import opened VirtqueueProtocol

  const INDEX_SPACE: nat := 0x1_0000
  const FRAME_BYTES: nat := 4096
  const MAX_CHAIN: nat := 8

  datatype Desc = Desc(addr: nat, len: nat, flags: nat, next: nat)

  datatype PushResult = Full | ChainTooLong | Head(idx: nat)

  // `wrapping_add(1)` on a u16.
  function WrappingIncr(i: nat): nat {
    if i + 1 == INDEX_SPACE then 0 else i + 1
  }

  // The powers of two whose three rings fit one frame; see QueueLayout.
  predicate IsQueueSize(n: nat) {
    n <= 128 && IsPowerOfTwo(n)
  }

  predicate IsPowerOfTwo(n: nat) {
    n == 1 || (n > 1 && n % 2 == 0 && IsPowerOfTwo(n / 2))
  }

  // Every queue size divides the 16-bit index space.
  lemma IndexSpaceMultiple(n: nat) returns (m: nat)
    requires IsQueueSize(n)
    ensures m > 0 && m * n == INDEX_SPACE
  {
    if n == 1 {
      m := INDEX_SPACE;
    } else {
      SizeCases(n);
      m := INDEX_SPACE / n;
    }
  }

  lemma SizeCases(n: nat)
    requires IsQueueSize(n)
    ensures n == 1 || n == 2 || n == 4 || n == 8 || n == 16 || n == 32 || n == 64 || n == 128
  {
    if n > 1 {
      SizeCases(n / 2);
    }
  }

  // VIRTQ_DESC_F_NEXT is bit 0.
  function ClearNext(flags: nat): nat {
    flags - flags % 2
  }

  // What position i of a published request looks like in the descriptor table.
  function DescOf(r: Request, i: nat): Desc
    requires i < |r.descs| == |r.parts|
  {
    var part := r.parts[i];
    if i + 1 < |r.descs|
    then Desc(part.addr, part.len, ClearNext(part.flags) + 1, r.descs[i + 1])
    else Desc(part.addr, part.len, ClearNext(part.flags), 0)
  }

  // A descriptor says what its part says: the caller's flags on every bit but 0, and bit 0 exactly when
  // another descriptor follows.
  ghost predicate Says(d: Desc, part: Part, more: bool) {
    && d.addr == part.addr && d.len == part.len
    && d.flags / 2 == part.flags / 2
    && (d.flags % 2 == 1 <==> more)
  }

  // What a device makes of a part: the driver owns the NEXT flag.
  ghost predicate ReadAs(read: Part, part: Part) {
    read.addr == part.addr && read.len == part.len && read.flags / 2 == part.flags / 2 && read.flags % 2 == 0
  }

  ghost predicate FreeLinks(desc: seq<Desc>, free: seq<nat>, head: nat) {
    && Below(free, |desc|)
    && (free != [] ==> head == free[0])
    && (forall i :: 0 <= i < |free| - 1 ==> desc[free[i]].next == free[i + 1])
  }

  ghost predicate Encodes(desc: seq<Desc>, r: Request) {
    && |r.descs| == |r.parts|
    && Below(r.descs, |desc|)
    && (forall i :: 0 <= i < |r.descs| ==> desc[r.descs[i]] == DescOf(r, i))
  }

  ghost predicate AllEncoded(desc: seq<Desc>, chains: map<nat, Request>) {
    forall h :: h in chains ==> Encodes(desc, chains[h])
  }

  ghost predicate Table(desc: seq<Desc>, freeHead: nat, p: Proto) {
    |desc| == p.size && FreeLinks(desc, p.free, freeHead) && AllEncoded(desc, p.chains)
  }

  // The queue's memory and index fields as one value.
  datatype Mem = Mem(
    desc: seq<Desc>, freeHead: nat, numFree: nat,
    avail: seq<nat>, availIdx: nat, deviceIdx: nat,
    used: seq<UsedElem>, usedIdx: nat, lastUsedIdx: nat)

  ghost predicate AvailSide(m: Mem, p: Proto) {
    && |m.avail| == p.size
    && RingHolds(m.avail, p.offered, p.fetched)
    && m.availIdx == Slot(|p.offered|, INDEX_SPACE)
    && m.deviceIdx == Slot(p.fetched, INDEX_SPACE)
  }

  ghost predicate UsedSide(m: Mem, p: Proto) {
    && |m.used| == p.size
    && RingHolds(m.used, p.used, p.popped)
    && m.usedIdx == Slot(|p.used|, INDEX_SPACE)
    && m.lastUsedIdx == Slot(p.popped, INDEX_SPACE)
  }

  // The memory is in the state the protocol says.
  ghost predicate Repr(m: Mem, p: Proto) {
    && Inv(p)
    && IsQueueSize(p.size)
    && Table(m.desc, m.freeHead, p)
    && m.numFree == |p.free|
    && AvailSide(m, p)
    && UsedSide(m, p)
  }

  ghost predicate SameOutside(a: seq<Desc>, b: seq<Desc>, touched: set<nat>) {
    |a| == |b| && (forall d: nat :: d < |a| && d !in touched ==> a[d] == b[d])
  }

  // The ring still holds every history entry from `from` on.
  ghost predicate RingHolds<T>(ring: seq<T>, history: seq<T>, from: nat) {
    && |ring| > 0
    && (forall k :: from <= k < |history| ==> ring[Slot(k, |ring|)] == history[k])
  }

  lemma RingAppend<T>(ring: seq<T>, history: seq<T>, from: nat, x: T)
    requires RingHolds(ring, history, from) && from <= |history| < from + |ring|
    ensures RingHolds(ring[Slot(|history|, |ring|) := x], history + [x], from)
  {
    forall k | from <= k < |history| ensures Slot(k, |ring|) != Slot(|history|, |ring|) {
      SlotsApart(k, |history|, |ring|);
    }
  }

  lemma RingAdvance<T>(ring: seq<T>, history: seq<T>, from: nat)
    requires RingHolds(ring, history, from)
    ensures RingHolds(ring, history, from + 1)
  {
  }

  // Reducing a count to 16 bits first does not change the slot it names.
  lemma WrapIndex(k: nat, size: nat)
    requires IsQueueSize(size)
    ensures Slot(Slot(k, INDEX_SPACE), size) == Slot(k, size)
  {
    var m := IndexSpaceMultiple(size);
    WrapSlot(k, m, size);
  }

  // Wrapped counts agree exactly when the counts do, as long as they are less than 2^16 apart.
  lemma WrappedEqual(a: nat, b: nat)
    requires a <= b < a + INDEX_SPACE
    ensures Slot(a, INDEX_SPACE) == Slot(b, INDEX_SPACE) <==> a == b
  {
    if a < b {
      SlotsApart(a, b, INDEX_SPACE);
    }
  }

  // Taking n descriptors off the free chain leaves the rest linked from the last one's successor.
  lemma FreeLinksDrop(desc: seq<Desc>, desc': seq<Desc>, free: seq<nat>, head: nat, n: nat)
    requires FreeLinks(desc, free, head) && NoDup(free) && 0 < n <= |free|
    requires SameOutside(desc, desc', Elems(free[..n]))
    ensures FreeLinks(desc', free[n..], desc[free[n - 1]].next)
  {
    ElemsSplit(free, n);
    var rest := free[n..];
    forall i | 0 <= i < |rest| - 1 ensures desc'[rest[i]].next == rest[i + 1] {
      assert rest[i] in Elems(rest) && rest[i] == free[n + i];
    }
  }

  lemma EncodesFrame(desc: seq<Desc>, desc': seq<Desc>, r: Request, touched: set<nat>)
    requires Encodes(desc, r) && SameOutside(desc, desc', touched)
    requires forall i :: 0 <= i < |r.descs| ==> r.descs[i] !in touched
    ensures Encodes(desc', r)
  {
  }

  lemma AllEncodedFrame(desc: seq<Desc>, desc': seq<Desc>, owner: map<nat, nat>, chains: map<nat, Request>,
                        touched: set<nat>)
    requires Chains(owner, chains) && AllEncoded(desc, chains) && SameOutside(desc, desc', touched)
    requires touched !! owner.Keys
    ensures AllEncoded(desc', chains)
  {
    forall h | h in chains ensures Encodes(desc', chains[h]) {
      assert OwnsChain(owner, h, chains[h]);
      EncodesFrame(desc, desc', chains[h], touched);
    }
  }

  // Table entries outside the free prefix keep their meaning when the prefix becomes a chain.
  lemma TablePush(desc: seq<Desc>, desc': seq<Desc>, freeHead: nat, p: Proto, parts: seq<Part>)
    requires Partition(p) && Chains(p.owner, p.chains) && Table(desc, freeHead, p) && 0 < |parts| <= |p.free|
    requires Encodes(desc', Request(p.free[..|parts|], parts))
    requires SameOutside(desc, desc', Elems(p.free[..|parts|]))
    ensures Table(desc', desc[p.free[|parts| - 1]].next, Push(p, parts))
  {
    SplitsTake(p.free, p.owner.Keys, UpTo(p.size), |parts|);
    FreeLinksDrop(desc, desc', p.free, freeHead, |parts|);
    AllEncodedFrame(desc, desc', p.owner, p.chains, Elems(p.free[..|parts|]));
  }

  // The table after the first i descriptors of a request have been filled in.
  function Fill(desc: seq<Desc>, r: Request, i: nat): (out: seq<Desc>)
    requires i <= |r.descs| == |r.parts| && Below(r.descs, |desc|)
    ensures |out| == |desc|
  {
    if i == 0 then desc else Fill(desc, r, i - 1)[r.descs[i - 1] := DescOf(r, i - 1)]
  }

  lemma SameOutsideStep(a: seq<Desc>, b: seq<Desc>, touched: set<nat>, d: nat, v: Desc)
    requires SameOutside(a, b, touched) && d < |b|
    ensures SameOutside(a, b[d := v], touched + {d})
  {
  }

  lemma {:induction false} FillSame(desc: seq<Desc>, r: Request, i: nat)
    requires i <= |r.descs| == |r.parts| && Below(r.descs, |desc|)
    ensures SameOutside(desc, Fill(desc, r, i), Elems(r.descs[..i]))
  {
    if i > 0 {
      FillSame(desc, r, i - 1);
      SameOutsideStep(desc, Fill(desc, r, i - 1), Elems(r.descs[..i - 1]), r.descs[i - 1], DescOf(r, i - 1));
      ElemsSnoc(r.descs, i - 1);
    }
  }

  lemma ElemsSnoc<T>(s: seq<T>, i: nat)
    requires i < |s|
    ensures Elems(s[..i + 1]) == Elems(s[..i]) + {s[i]}
  {
    assert s[..i + 1] == s[..i] + [s[i]];
    ElemsConcat(s[..i], [s[i]]);
  }

  lemma {:induction false} FillEncodes(desc: seq<Desc>, r: Request, i: nat)
    requires i <= |r.descs| == |r.parts| && Below(r.descs, |desc|) && NoDup(r.descs)
    ensures forall j :: 0 <= j < i ==> Fill(desc, r, i)[r.descs[j]] == DescOf(r, j)
  {
    if i > 0 {
      FillEncodes(desc, r, i - 1);
      var before, after := Fill(desc, r, i - 1), Fill(desc, r, i);
      forall j | 0 <= j < i ensures after[r.descs[j]] == DescOf(r, j) {
        if j < i - 1 {
          assert r.descs[j] != r.descs[i - 1];
        }
      }
    }
  }

  // The table after the first i descriptors of a chain have been put back on the free chain.
  function Unchain(desc: seq<Desc>, descs: seq<nat>, head: nat, i: nat): (out: seq<Desc>)
    requires i <= |descs| && Below(descs, |desc|)
    ensures |out| == |desc|
  {
    if i == 0 then desc
    else
      var before := Unchain(desc, descs, head, i - 1);
      var d := descs[i - 1];
      before[d := before[d].(next := if i == 1 then head else descs[i - 2])]
  }

  lemma ReverseSnoc<T>(s: seq<T>, i: nat)
    requires i < |s|
    ensures Reverse(s[..i + 1]) == [s[i]] + Reverse(s[..i])
  {
    assert s[..i + 1] == s[..i] + [s[i]];
    var a, b := Reverse(s[..i + 1]), [s[i]] + Reverse(s[..i]);
    assert forall k :: 0 <= k < |a| ==> a[k] == b[k];
  }

  lemma FreeLinksCons(desc: seq<Desc>, free: seq<nat>, head: nat, d: nat)
    requires FreeLinks(desc, free, head) && d < |desc| && d !in Elems(free)
    ensures FreeLinks(desc[d := desc[d].(next := head)], [d] + free, d)
  {
    var desc' := desc[d := desc[d].(next := head)];
    var free' := [d] + free;
    forall i | 0 <= i < |free'| - 1 ensures desc'[free'[i]].next == free'[i + 1] {
      if i > 0 {
        assert free'[i] == free[i - 1] && free[i - 1] in Elems(free);
      }
    }
  }

  lemma {:induction false} UnchainSame(desc: seq<Desc>, descs: seq<nat>, head: nat, i: nat)
    requires i <= |descs| && Below(descs, |desc|)
    ensures SameOutside(desc, Unchain(desc, descs, head, i), Elems(descs[..i]))
  {
    if i > 0 {
      UnchainSame(desc, descs, head, i - 1);
      var before, d := Unchain(desc, descs, head, i - 1), descs[i - 1];
      SameOutsideStep(desc, before, Elems(descs[..i - 1]), d, Unchain(desc, descs, head, i)[d]);
      ElemsSnoc(descs, i - 1);
    }
  }

  // A descriptor of the chain is not among those already put back, nor on the old free chain.
  lemma NotYetFreed(descs: seq<nat>, free: seq<nat>, i: nat)
    requires i < |descs| && NoDup(descs) && Elems(descs) !! Elems(free)
    ensures descs[i] !in Elems(Reverse(descs[..i]) + free)
  {
    ReverseFacts(descs[..i]);
    ElemsConcat(Reverse(descs[..i]), free);
    assert descs[i] in Elems(descs);
    assert forall k :: 0 <= k < i ==> descs[k] != descs[i];
  }

  lemma {:induction false} UnchainLinks(desc: seq<Desc>, descs: seq<nat>, free: seq<nat>, head: nat, i: nat)
    requires i <= |descs| && Below(descs, |desc|) && NoDup(descs) && FreeLinks(desc, free, head)
    requires Elems(descs) !! Elems(free)
    ensures FreeLinks(Unchain(desc, descs, head, i), Reverse(descs[..i]) + free, if i == 0 then head else descs[i - 1])
  {
    hide FreeLinks, Reverse, NoDup, Elems;
    if i == 0 {
      assert descs[..0] == [];
      assert Reverse(descs[..0]) + free == free;
    } else {
      UnchainLinks(desc, descs, free, head, i - 1);
      NotYetFreed(descs, free, i - 1);
      FreeLinksCons(Unchain(desc, descs, head, i - 1), Reverse(descs[..i - 1]) + free,
                    if i == 1 then head else descs[i - 2], descs[i - 1]);
      ReverseSnoc(descs, i - 1);
      assert [descs[i - 1]] + (Reverse(descs[..i - 1]) + free) == Reverse(descs[..i]) + free;
    }
  }

  // --- one lemma per operation: the memory after it represents the protocol after it -------

  lemma ReprInit(m: Mem, n: nat)
    requires IsQueueSize(n)
    requires |m.desc| == |m.avail| == |m.used| == n
    requires forall j :: 0 <= j < n - 1 ==> m.desc[j].next == j + 1
    requires m.freeHead == m.availIdx == m.deviceIdx == m.usedIdx == m.lastUsedIdx == 0 && m.numFree == n
    ensures Repr(m, Init(n)) && Init(n).size == n
  {
    InitInv(n);
  }

  lemma QueueShape(m: Mem, p: Proto)
    requires Repr(m, p)
    ensures |m.desc| == |m.avail| == |m.used| == p.size > 0
    ensures m.numFree == |p.free|
  {
  }

  lemma NextIndex(k: nat)
    ensures WrappingIncr(Slot(k, INDEX_SPACE)) == Slot(k + 1, INDEX_SPACE)
  {
    NextSlot(k, INDEX_SPACE);
  }

  // The i-th free descriptor and its link.
  lemma FreeAt(m: Mem, p: Proto, i: nat)
    requires Repr(m, p) && i < |p.free|
    ensures p.free[0] == m.freeHead
    ensures p.free[i] < |m.desc|
    ensures i + 1 < |p.free| ==> m.desc[p.free[i]].next == p.free[i + 1]
  {
  }

  lemma FreePrefix(m: Mem, p: Proto, n: nat)
    requires Repr(m, p) && n <= |p.free|
    ensures Below(p.free[..n], |m.desc|)
  {
  }

  lemma AvailPush(m: Mem, p: Proto, h: nat)
    requires AvailSide(m, p) && IsQueueSize(p.size) && p.fetched <= |p.offered| < p.fetched + p.size
    ensures AvailSide(m.(avail := m.avail[Slot(m.availIdx, |m.avail|) := h], availIdx := WrappingIncr(m.availIdx)),
                      p.(offered := p.offered + [h]))
  {
    WrapIndex(|p.offered|, p.size);
    RingAppend(m.avail, p.offered, p.fetched, h);
    NextIndex(|p.offered|);
  }

  lemma FilledTable(m: Mem, p: Proto, parts: seq<Part>)
    requires Repr(m, p) && 0 < |parts| <= |p.free|
    ensures Below(p.free[..|parts|], |m.desc|)
    ensures Table(Fill(m.desc, Request(p.free[..|parts|], parts), |parts|), m.desc[p.free[|parts| - 1]].next,
                  Push(p, parts))
  {
    var n := |parts|;
    var r := Request(p.free[..n], parts);
    ElemsSplit(p.free, n);
    FillSame(m.desc, r, n);
    FillEncodes(m.desc, r, n);
    assert r.descs[..n] == r.descs;
    TablePush(m.desc, Fill(m.desc, r, n), m.freeHead, p, parts);
  }

  lemma ReprPush(m: Mem, p: Proto, parts: seq<Part>)
    requires Repr(m, p) && 0 < |parts| <= |p.free|
    requires Below(p.free[..|parts|], |m.desc|)
    ensures Repr(MemPush(m, p.free[..|parts|], parts), Push(p, parts)) && Push(p, parts).size == p.size
  {
    hide Inv, FreeLinks, AllEncoded, RingHolds;
    FilledTable(m, p, parts);
    RingRoom(p);
    AvailPush(m, p, p.free[0]);
    PushInv(p, parts);
  }

  // Memory after a push that takes the descriptors `descs`.
  function MemPush(m: Mem, descs: seq<nat>, parts: seq<Part>): Mem
    requires 0 < |parts| == |descs| <= m.numFree && Below(descs, |m.desc|) && |m.avail| > 0
  {
    m.(desc := Fill(m.desc, Request(descs, parts), |parts|),
    freeHead := m.desc[descs[|descs| - 1]].next,
    numFree := m.numFree - |parts|,
    avail := m.avail[Slot(m.availIdx, |m.avail|) := descs[0]],
    availIdx := WrappingIncr(m.availIdx))
  }

  function MemPushOne(m: Mem, part: Part): Mem
    requires m.numFree > 0 && m.freeHead < |m.desc| && |m.avail| > 0
  {
    m.(desc := m.desc[m.freeHead := Desc(part.addr, part.len, ClearNext(part.flags), 0)],
    freeHead := m.desc[m.freeHead].next,
    numFree := m.numFree - 1,
    avail := m.avail[Slot(m.availIdx, |m.avail|) := m.freeHead],
    availIdx := WrappingIncr(m.availIdx))
  }

  lemma ReprPushOne(m: Mem, p: Proto, part: Part)
    requires Repr(m, p) && m.numFree > 0
    ensures m.freeHead < |m.desc| && m.freeHead == p.free[0] && |m.avail| == |m.desc| > 0
    ensures Repr(MemPushOne(m, part), Push(p, [part])) && Push(p, [part]).size == p.size
  {
    hide Inv, AllEncoded, RingHolds;
    FreeAt(m, p, 0);
    QueueShape(m, p);
    assert p.free[..1] == [m.freeHead];
    ReprPush(m, p, [part]);
    var r := Request([m.freeHead], [part]);
    assert Fill(m.desc, r, 1) == Fill(m.desc, r, 0)[r.descs[0] := DescOf(r, 0)];
  }

  lemma PopReady(m: Mem, p: Proto)
    requires Repr(m, p)
    ensures p.popped <= |p.used|
    ensures m.usedIdx == m.lastUsedIdx <==> p.popped == |p.used|
    ensures p.popped < |p.used| ==>
      var e := m.used[Slot(m.lastUsedIdx, |m.used|)];
      && e == p.used[p.popped]
      && e.id in p.chains && 0 < |p.chains[e.id].descs|
      && e.id == p.chains[e.id].descs[0]
      && Encodes(m.desc, p.chains[e.id])
  {
    RingRoom(p);
    WrappedEqual(p.popped, |p.used|);
    WrapIndex(p.popped, p.size);
    if p.popped < |p.used| {
      PopEnabled(p);
      assert OwnsChain(p.owner, p.used[p.popped].id, p.chains[p.used[p.popped].id]);
    }
  }

  lemma ChainAt(m: Mem, p: Proto, h: nat, i: nat)
    requires Repr(m, p) && h in p.chains && i < |p.chains[h].descs|
    ensures |p.chains[h].descs| == |p.chains[h].parts|
    ensures p.chains[h].descs[i] < |m.desc|
    ensures m.desc[p.chains[h].descs[i]] == DescOf(p.chains[h], i)
  {
    assert Encodes(m.desc, p.chains[h]);
  }

  lemma ChainOwned(m: Mem, p: Proto, h: nat)
    requires Repr(m, p) && h in p.chains
    ensures 0 < |p.chains[h].descs| && NoDup(p.chains[h].descs) && p.chains[h].descs[0] == h
    ensures Encodes(m.desc, p.chains[h])
  {
    assert OwnsChain(p.owner, h, p.chains[h]);
  }

  // A descriptor of a chain still carries its link while the ones before it are put back.
  lemma StillLinked(table: seq<Desc>, chain: Request, start: nat, i: nat)
    requires Encodes(table, chain) && NoDup(chain.descs) && i < |chain.descs|
    ensures |chain.descs| == |chain.parts| && Below(chain.descs, |table|)
    ensures Unchain(table, chain.descs, start, i)[chain.descs[i]] == DescOf(chain, i)
  {
    UnchainSame(table, chain.descs, start, i);
  }

  lemma NextFlag(r: Request, i: nat)
    requires i < |r.descs| == |r.parts|
    ensures Says(DescOf(r, i), r.parts[i], i + 1 < |r.descs|)
    ensures i + 1 < |r.descs| ==> DescOf(r, i).next == r.descs[i + 1]
  {
  }

  // In the table of a queue every published request can be read off, part by part: address, length, the
  // caller's flags, and NEXT and the successor on all but the last.
  lemma PublishedSays(m: Mem, p: Proto, h: nat, i: nat)
    requires Repr(m, p) && h in p.chains && i < |p.chains[h].descs|
    ensures |p.chains[h].descs| == |p.chains[h].parts| && p.chains[h].descs[0] == h
    ensures p.chains[h].descs[i] < |m.desc|
    ensures var d := m.desc[p.chains[h].descs[i]];
      && Says(d, p.chains[h].parts[i], i + 1 < |p.chains[h].descs|)
      && (i + 1 < |p.chains[h].descs| ==> d.next == p.chains[h].descs[i + 1])
  {
    hide Repr, DescOf, Says;
    ChainOwned(m, p, h);
    ChainAt(m, p, h, i);
    NextFlag(p.chains[h], i);
  }

  lemma PushedAs(p: Proto, parts: seq<Part>)
    requires 0 < |parts| <= |p.free|
    ensures var q := Push(p, parts);
      && q.offered == p.offered + [p.free[0]] && p.free[0] in q.chains && q.chains[p.free[0]].parts == parts
  {
  }

  function MemPop(m: Mem, descs: seq<nat>): Mem
    requires 0 < |descs| && Below(descs, |m.desc|)
  {
    m.(desc := Unchain(m.desc, descs, m.freeHead, |descs|),
    freeHead := descs[|descs| - 1],
    numFree := m.numFree + |descs|,
    lastUsedIdx := WrappingIncr(m.lastUsedIdx))
  }

  lemma ReleasedTable(m: Mem, p: Proto, h: nat)
    requires Repr(m, p) && h in p.chains
    ensures Below(p.chains[h].descs, |m.desc|)
    ensures var descs := p.chains[h].descs;
      && AllEncoded(Unchain(m.desc, descs, m.freeHead, |descs|), p.chains - {h})
      && FreeLinks(Unchain(m.desc, descs, m.freeHead, |descs|), Reverse(descs) + p.free, descs[|descs| - 1])
  {
    var descs := p.chains[h].descs;
    assert OwnsChain(p.owner, h, p.chains[h]) && Encodes(m.desc, p.chains[h]);
    assert Elems(descs) <= p.owner.Keys;
    assert descs[..|descs|] == descs;
    UnchainSame(m.desc, descs, m.freeHead, |descs|);
    UnchainLinks(m.desc, descs, p.free, m.freeHead, |descs|);
    ReleaseChains(p.owner, p.chains, h);
    AllEncodedFrame(m.desc, Unchain(m.desc, descs, m.freeHead, |descs|), p.owner - Elems(descs),
                    p.chains - {h}, Elems(descs));
  }

  lemma ReprPop(m: Mem, p: Proto)
    requires Repr(m, p) && p.popped < |p.used|
    ensures p.used[p.popped].id in p.chains
    ensures var descs := p.chains[p.used[p.popped].id].descs;
      && 0 < |descs| && Below(descs, |m.desc|)
      && Repr(MemPop(m, descs), Pop(p)) && Pop(p).size == p.size
  {
    hide Inv, FreeLinks, AllEncoded, RingHolds;
    PopInv(p);
    var h := p.used[p.popped].id;
    ChainOwned(m, p, h);
    ReleasedTable(m, p, h);
    RingAdvance(m.used, p.used, p.popped);
    NextIndex(p.popped);
  }

  lemma FetchReady(m: Mem, p: Proto)
    requires Repr(m, p)
    ensures p.fetched <= |p.offered|
    ensures m.deviceIdx == m.availIdx <==> p.fetched == |p.offered|
    ensures p.fetched < |p.offered| ==> m.avail[Slot(m.deviceIdx, |m.avail|)] == p.offered[p.fetched]
  {
    RingRoom(p);
    WrappedEqual(p.fetched, |p.offered|);
    WrapIndex(p.fetched, p.size);
  }

  lemma ReprFetch(m: Mem, p: Proto)
    requires Repr(m, p) && p.fetched < |p.offered|
    ensures Repr(m.(deviceIdx := WrappingIncr(m.deviceIdx)), Fetch(p))
  {
    hide Inv, FreeLinks, AllEncoded, RingHolds;
    FetchInv(p);
    RingAdvance(m.avail, p.offered, p.fetched);
    NextIndex(p.fetched);
  }

  lemma ReprComplete(m: Mem, p: Proto, h: nat, len: nat)
    requires Repr(m, p) && h in p.held
    ensures Repr(m.(used := m.used[Slot(m.usedIdx, |m.used|) := UsedElem(h, len)],
                 usedIdx := WrappingIncr(m.usedIdx)), Complete(p, h, len))
  {
    hide Inv, FreeLinks, AllEncoded, RingHolds;
    RingRoom(p);
    WrapIndex(|p.used|, p.size);
    RingAppend(m.used, p.used, p.popped, UsedElem(h, len));
    NextIndex(|p.used|);
    CompleteInv(p, h, len);
  }

  lemma HalfOf(flags: nat)
    ensures (flags - flags % 2) / 2 == flags / 2 && (flags - flags % 2) % 2 == 0
  {
  }

  class Virtqueue {
    const size: nat
    const desc: array<Desc>
    const availRing: array<nat>
    const usedRing: array<UsedElem>
    var availIdx: nat
    var usedIdx: nat
    var freeHead: nat
    var numFree: nat
    var lastUsedIdx: nat
    // The device's own count of available entries it has read.
    var deviceIdx: nat
    ghost var proto: Proto

    ghost function View(): Mem
      reads this, desc, availRing, usedRing
    {
      Mem(desc[..], freeHead, numFree, availRing[..], availIdx, deviceIdx, usedRing[..], usedIdx, lastUsedIdx)
    }

    ghost predicate Valid()
      reads this, desc, availRing, usedRing
    {
      && size == proto.size
      && desc as object != availRing && desc as object != usedRing && availRing as object != usedRing
      && Repr(View(), proto)
    }

    // `new` asserts a power of two whose three rings fit one frame; see QueueLayout.
    constructor (n: nat)
      requires IsQueueSize(n)
      ensures Valid() && fresh(desc) && fresh(availRing) && fresh(usedRing)
      ensures size == n && proto == Init(n)
    {
      size := n;
      desc := new Desc[n](i => Desc(0, 0, 0, 0));
      availRing := new nat[n](i => 0);
      usedRing := new UsedElem[n](i => UsedElem(0, 0));
      availIdx, usedIdx, lastUsedIdx, deviceIdx := 0, 0, 0, 0;
      freeHead, numFree := 0, n;
      proto := Init(n);
      new;
      hide Repr, IsPowerOfTwo, Init;
      LinkFreeChain();
      ReprInit(View(), n);
    }

    // Chain every descriptor to the next; the last one's link is 0, so only the count ends the chain.
    method LinkFreeChain()
      modifies desc
      ensures forall j :: 0 <= j < desc.Length - 1 ==> desc[j].next == j + 1
      ensures desc.Length > 0 ==> desc[desc.Length - 1].next == 0
    {
      for i := 0 to desc.Length
        invariant i == desc.Length > 0 ==> desc[i - 1].next == 0
        invariant forall j :: 0 <= j < i && j < desc.Length - 1 ==> desc[j].next == j + 1
      {
        desc[i] := desc[i].(next := if i == desc.Length - 1 then 0 else i + 1);
      }
    }

    method PushDescriptor(addr: nat, len: nat, flags: nat) returns (r: Option<nat>)
      requires Valid()
      modifies this`availIdx, this`freeHead, this`numFree, this`proto, desc, availRing
      ensures Valid()
      ensures r.None? <==> old(|proto.free|) == 0
      ensures r.None? ==> proto == old(proto)
      ensures r.Some? ==> r.value == old(proto).free[0] && proto == Push(old(proto), [Part(addr, len, flags)])
      ensures r.Some? ==>
        && proto.offered == old(proto).offered + [r.value] && r.value in proto.chains
        && proto.chains[r.value].parts == [Part(addr, len, flags)]
        && r.value < desc.Length && Says(desc[r.value], Part(addr, len, flags), false)
    {
      hide Repr, Push, Slot;
      QueueShape(View(), proto);
      if numFree == 0 {
        return None;
      }
      ghost var m, part := View(), Part(addr, len, flags);
      ReprPushOne(m, proto, part);
      var idx := freeHead;
      freeHead := desc[idx].next;
      desc[idx] := Desc(addr, len, ClearNext(flags), 0);
      numFree := numFree - 1;
      availRing[Slot(availIdx, size)] := idx;
      availIdx := WrappingIncr(availIdx);
      assert View() == MemPushOne(m, part);
      PushedAs(proto, [part]);
      proto := Push(proto, [part]);
      return Some(idx);
    }

    // The first n descriptors on the free chain, and what follows them.
    method FirstFree(n: nat) returns (indices: seq<nat>, rest: nat)
      requires Valid() && 0 < n <= |proto.free|
      ensures indices == proto.free[..n]
      ensures indices[n - 1] < desc.Length && rest == desc[indices[n - 1]].next
    {
      hide Repr;
      indices := [];
      rest := freeHead;
      FreeAt(View(), proto, 0);
      while |indices| < n
        invariant |indices| <= n && indices == proto.free[..|indices|]
        invariant |indices| < |proto.free| ==> rest == proto.free[|indices|]
        invariant indices != [] ==>
          indices[|indices| - 1] < desc.Length && rest == desc[indices[|indices| - 1]].next
      {
        FreeAt(View(), proto, |indices|);
        indices := indices + [rest];
        rest := desc[rest].next;
      }
    }

    method FillChain(indices: seq<nat>, parts: seq<Part>)
      requires |indices| == |parts| && Below(indices, desc.Length)
      modifies desc
      ensures desc[..] == Fill(old(desc[..]), Request(indices, parts), |parts|)
    {
      ghost var req := Request(indices, parts);
      for i := 0 to |parts|
        invariant desc[..] == Fill(old(desc[..]), req, i)
      {
        var next := if i + 1 < |parts| then indices[i + 1] else 0;
        var bit := if i + 1 < |parts| then 1 else 0;
        desc[indices[i]] := Desc(parts[i].addr, parts[i].len, ClearNext(parts[i].flags) + bit, next);
      }
    }

    // A length that only fits after truncation to 16 bits passes the first test and fails the
    // assert on the chain cap.
    method PushChain(parts: seq<Part>) returns (r: PushResult)
      requires Valid()
      modifies this`availIdx, this`freeHead, this`numFree, this`proto, desc, availRing
      ensures Valid()
      ensures r.Full? <==> parts == [] || |parts| % INDEX_SPACE > old(|proto.free|)
      ensures r.ChainTooLong? <==> !r.Full? && |parts| > MAX_CHAIN
      ensures !r.Head? ==> proto == old(proto)
      ensures r.Head? ==> |parts| <= old(|proto.free|)
      ensures r.Head? ==> r.idx == old(proto).free[0] && proto == Push(old(proto), parts)
      ensures r.Head? ==>
        && proto.offered == old(proto).offered + [r.idx] && r.idx in proto.chains
        && proto.chains[r.idx].parts == parts
    {
      hide Repr, Push, Slot;
      QueueShape(View(), proto);
      if parts == [] || |parts| % INDEX_SPACE > numFree {
        return Full;
      }
      if |parts| > MAX_CHAIN {
        return ChainTooLong;
      }
      ghost var m := View();
      var indices, rest := FirstFree(|parts|);
      FreePrefix(m, proto, |parts|);
      freeHead := rest;
      numFree := numFree - |parts|;
      FillChain(indices, parts);
      availRing[Slot(availIdx, size)] := indices[0];
      availIdx := WrappingIncr(availIdx);
      assert View() == MemPush(m, indices, parts);
      ReprPush(m, proto, parts);
      PushedAs(proto, parts);
      proto := Push(proto, parts);
      return Head(indices[0]);
    }

    // Put every descriptor of a chain at the front of the free chain, following NEXT flags.
    method FreeChain(head: nat, ghost chain: Request)
      requires 0 < |chain.descs| && NoDup(chain.descs) && head == chain.descs[0]
      requires Encodes(desc[..], chain)
      modifies this`freeHead, this`numFree, desc
      ensures desc[..] == Unchain(old(desc[..]), chain.descs, old(freeHead), |chain.descs|)
      ensures freeHead == chain.descs[|chain.descs| - 1]
      ensures numFree == old(numFree) + |chain.descs|
    {
      hide DescOf, Encodes, NoDup;
      ghost var table, start, i := desc[..], freeHead, 0;
      StillLinked(table, chain, start, 0);
      var cur := head;
      while true
        invariant i < |chain.descs| && cur == chain.descs[i]
        invariant desc[..] == Unchain(table, chain.descs, start, i)
        invariant freeHead == if i == 0 then start else chain.descs[i - 1]
        invariant numFree == old(numFree) + i
        decreases |chain.descs| - i
      {
        StillLinked(table, chain, start, i);
        NextFlag(chain, i);
        var d := desc[cur];
        desc[cur] := d.(next := freeHead);
        freeHead := cur;
        numFree := numFree + 1;
        if d.flags % 2 == 0 {
          break;
        }
        cur := d.next;
        i := i + 1;
      }
    }

    method PopUsed() returns (r: Option<UsedElem>)
      requires Valid()
      modifies this`freeHead, this`numFree, this`lastUsedIdx, this`proto, desc
      ensures Valid()
      ensures r.None? <==> old(proto).popped == |old(proto).used|
      ensures r.None? ==> proto == old(proto)
      ensures r.Some? ==> r.value == old(proto).used[old(proto).popped] && r.value.id in old(proto).chains
      ensures r.Some? ==> proto == Pop(old(proto))
    {
      hide Repr, Pop, Slot, Inv, Encodes;
      ghost var m := View();
      QueueShape(m, proto);
      PopReady(m, proto);
      if usedIdx == lastUsedIdx {
        return None;
      }
      var elem := usedRing[Slot(lastUsedIdx, size)];
      lastUsedIdx := WrappingIncr(lastUsedIdx);
      ReprPop(m, proto);
      ghost var chain := proto.chains[elem.id];
      ChainOwned(m, proto, elem.id);
      FreeChain(elem.id, chain);
      assert View() == MemPop(m, chain.descs);
      proto := Pop(proto);
      return Some(elem);
    }

    // --- the device's side of the shared memory -------------------------------------------

    // Take the next published head, if the available index shows one.
    method DeviceFetch() returns (r: Option<nat>)
      requires Valid()
      modifies this`deviceIdx, this`proto
      ensures Valid()
      ensures r.None? <==> old(proto).fetched == |old(proto).offered|
      ensures r.None? ==> proto == old(proto)
      ensures r.Some? ==> r.value == old(proto).offered[old(proto).fetched] && proto == Fetch(old(proto))
    {
      hide Repr, Slot, Inv;
      ghost var m := View();
      QueueShape(m, proto);
      FetchReady(m, proto);
      if deviceIdx == availIdx {
        return None;
      }
      var h := availRing[Slot(deviceIdx, size)];
      deviceIdx := WrappingIncr(deviceIdx);
      ReprFetch(m, proto);
      proto := Fetch(proto);
      assert View() == m.(deviceIdx := WrappingIncr(m.deviceIdx));
      return Some(h);
    }

    // Read back the request at `h` by following NEXT flags through the table.
    method DeviceReadChain(h: nat) returns (parts: seq<Part>)
      requires Valid() && h in proto.chains
      ensures |parts| == |proto.chains[h].parts|
      ensures forall i :: 0 <= i < |parts| ==> ReadAs(parts[i], proto.chains[h].parts[i])
    {
      hide Repr, Slot, Inv, Encodes, DescOf;
      ghost var m, chain := View(), proto.chains[h];
      ChainOwned(m, proto, h);
      ChainAt(m, proto, h, 0);
      parts := [];
      var cur := h;
      while true
        invariant |parts| < |chain.descs| == |chain.parts| && cur == chain.descs[|parts|]
        invariant forall i :: 0 <= i < |parts| ==> ReadAs(parts[i], chain.parts[i])
        decreases |chain.descs| - |parts|
      {
        PublishedSays(m, proto, h, |parts|);
        var d := desc[cur];
        HalfOf(d.flags);
        parts := parts + [Part(d.addr, d.len, d.flags - d.flags % 2)];
        if d.flags % 2 == 0 {
          break;
        }
        cur := d.next;
      }
    }

    // Complete any head the device holds.
    method DeviceComplete(h: nat, len: nat)
      requires Valid() && h in proto.held
      modifies this`usedIdx, this`proto, usedRing
      ensures Valid() && proto == Complete(old(proto), h, len)
      ensures proto.used == old(proto).used + [UsedElem(h, len)]
    {
      hide Repr, Slot, Inv;
      ghost var m := View();
      QueueShape(m, proto);
      usedRing[Slot(usedIdx, size)] := UsedElem(h, len);
      usedIdx := WrappingIncr(usedIdx);
      ReprComplete(m, proto, h, len);
      proto := Complete(proto, h, len);
      assert View() == m.(used := m.used[Slot(m.usedIdx, |m.used|) := UsedElem(h, len)],
                          usedIdx := WrappingIncr(m.usedIdx));
    }
  }
}
