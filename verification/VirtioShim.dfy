/**
 The LinuxKPI shim's virtqueue: a token per outstanding head and a shadow free count over the
 kernel's queue, and the choice of a queue size the kernel's asserts accept.
 */
module VirtioShim {
  import opened SeqFacts
  import opened VirtqueueProtocol
  import Vq = Virtqueue

  const NULL: nat := 0

  // --- queue sizing -----------------------------------------------------------------------

  function Pow2(k: nat): (r: nat)
    ensures r > 0
  {
    if k == 0 then 1 else 2 * Pow2(k - 1)
  }

  // 16 - n.leading_zeros() for a u16.
  function BitLength(n: nat): (b: nat)
    ensures n > 0 ==> b > 0
  {
    if n == 0 then 0 else 1 + BitLength(n / 2)
  }

  // `1 << (15 - capped.leading_zeros())`
  function Pow2AtMost(n: nat): nat {
    if n == 0 then 0
    else
      var capped := if n < 128 then n else 128;
      Pow2(BitLength(capped) - 1)
  }

  lemma {:induction false} HighBit(n: nat)
    requires n > 0
    ensures Pow2(BitLength(n) - 1) <= n < 2 * Pow2(BitLength(n) - 1)
  {
    if n > 1 {
      HighBit(n / 2);
      assert BitLength(n) - 1 == BitLength(n / 2);
    } else {
      assert BitLength(1) == 1;
    }
  }

  lemma {:induction false} Pow2IsPower(k: nat)
    ensures Vq.IsPowerOfTwo(Pow2(k))
  {
    if k > 0 {
      Pow2IsPower(k - 1);
    }
  }

  // The chosen size is the largest power of two not above the device's maximum or 128.
  lemma SizeChosen(n: nat)
    requires 0 < n < 0x1_0000
    ensures Vq.IsQueueSize(Pow2AtMost(n)) && Pow2AtMost(n) <= n
    ensures forall s: nat :: Vq.IsQueueSize(s) && s <= n ==> s <= Pow2AtMost(n)
  {
    var capped := if n < 128 then n else 128;
    var r := Pow2AtMost(n);
    HighBit(capped);
    Pow2IsPower(BitLength(capped) - 1);
    forall s: nat | Vq.IsQueueSize(s) && s <= n ensures s <= r {
      if r < s {
        PowersApart(r, s);
      }
    }
  }

  lemma {:induction false} PowersApart(a: nat, b: nat)
    requires Vq.IsPowerOfTwo(a) && Vq.IsPowerOfTwo(b) && a < b
    ensures 2 * a <= b
  {
    if a > 1 {
      PowersApart(a / 2, b / 2);
    }
  }

  // A descriptor, an available entry and a used element, and the flags and index before each ring.
  const DESC_BYTES: nat := 8 + 4 + 2 + 2
  const AVAIL_BYTES: nat := 2
  const USED_BYTES: nat := 4 + 4
  const RING_HEADER: nat := 2 + 2

  // Byte offsets inside the queue's frame.
  function AvailOffset(n: nat): nat {
    16 * n
  }

  function UsedOffset(n: nat): nat {
    (16 * n + (4 + 2 * n) + 3) / 4 * 4
  }

  function LayoutBytes(n: nat): nat {
    UsedOffset(n) + (4 + 8 * n)
  }

  // The asserts in `Virtqueue::new` accept exactly the powers of two up to 128, and for those the three
  // areas are aligned, follow one another without overlap, and are inside the frame.
  lemma QueueLayout(n: nat)
    requires n < 0x1_0000
    ensures Vq.IsPowerOfTwo(n) && LayoutBytes(n) <= Vq.FRAME_BYTES <==> Vq.IsQueueSize(n)
    ensures AvailOffset(n) % 2 == 0 && UsedOffset(n) % 4 == 0
    ensures DESC_BYTES * n <= AvailOffset(n)
    ensures AvailOffset(n) + RING_HEADER + AVAIL_BYTES * n <= UsedOffset(n)
    ensures UsedOffset(n) < AvailOffset(n) + RING_HEADER + AVAIL_BYTES * n + 4
    ensures LayoutBytes(n) == UsedOffset(n) + RING_HEADER + USED_BYTES * n
  {
    hide Vq.IsPowerOfTwo;
    if Vq.IsPowerOfTwo(n) && n > 128 {
      assert Vq.IsPowerOfTwo(128) by { Power128(); }
      PowersApart(128, n);
    }
  }

  lemma Power128()
    ensures Vq.IsPowerOfTwo(128)
  {
    assert Vq.IsPowerOfTwo(8);
    assert Vq.IsPowerOfTwo(32);
  }

  // --- tokens and the shadow count --------------------------------------------------------

  // A scatterlist entry.
  datatype Segment = Segment(addr: nat, len: nat)

  // Each entry as a part, flagged for the device to write or to read.
  function PartsOf(sg: seq<Segment>, write: bool): (r: seq<Part>)
    ensures |r| == |sg| && Carries(r, sg, write)
  {
    if sg == [] then []
    else [Part(sg[0].addr, sg[0].len, if write then 2 else 0)] + PartsOf(sg[1..], write)
  }

  // The parts are the entries, in order, writable by the device exactly if asked (VIRTQ_DESC_F_WRITE is
  // bit 1), with no other flag.
  predicate Carries(parts: seq<Part>, sg: seq<Segment>, write: bool) {
    && |parts| == |sg|
    && (forall i :: 0 <= i < |sg| ==>
          && parts[i].addr == sg[i].addr && parts[i].len == sg[i].len
          && (parts[i].flags / 2 % 2 == 1 <==> write) && parts[i].flags % 2 == 0 && parts[i].flags / 4 == 0)
  }

  // `given` is the token passed in when each outstanding head was added; `short` says whether the
  // shadow count is below the kernel's.
  ghost predicate ShimTable(p: Proto, tokens: seq<nat>, numFree: nat, given: map<nat, nat>, short: bool) {
    && |tokens| == p.size
    && given.Keys == p.chains.Keys
    && (forall h :: h in given ==> h < |tokens| && tokens[h] == given[h])
    && numFree <= |p.free|
    && (short <==> numFree < |p.free|)
  }

  function SaturatingSub(a: nat, b: nat): nat {
    if a < b then 0 else a - b
  }

  function Min(a: nat, b: nat): nat {
    if a < b then a else b
  }

  // An add takes n from both counts, the shadow stopping at zero: it catches up exactly when the add
  // uses up the queue.
  lemma ShimPush(p: Proto, tokens: seq<nat>, numFree: nat, given: map<nat, nat>, short: bool,
                 parts: seq<Part>, token: nat)
    requires Inv(p) && ShimTable(p, tokens, numFree, given, short) && 0 < |parts| <= |p.free|
    ensures p.free[0] < |tokens| && p.free[0] !in given
    ensures ShimTable(Push(p, parts), tokens[p.free[0] := token], SaturatingSub(numFree, |parts|),
                      given[p.free[0] := token], short && |parts| < |p.free|)
  {
    hide Inv, Push;
    PushedHead(p, parts);
  }

  lemma PushedHead(p: Proto, parts: seq<Part>)
    requires Inv(p) && 0 < |parts| <= |p.free|
    ensures p.free[0] < p.size && p.free[0] !in p.chains
    ensures Push(p, parts).chains.Keys == p.chains.Keys + {p.free[0]}
    ensures Push(p, parts).size == p.size && |Push(p, parts).free| == |p.free| - |parts|
  {
    hide Conserved;
    FreshHead(p);
    assert p.free[0] in Elems(p.free);
  }

  lemma ShadowBelow(p: Proto, tokens: seq<nat>, numFree: nat, given: map<nat, nat>, short: bool)
    requires ShimTable(p, tokens, numFree, given, short)
    ensures numFree <= |p.free|
  {
  }

  lemma AddDeficit(free: nat, numFree: nat, n: nat)
    requires numFree <= free && n <= free
    ensures free - n - SaturatingSub(numFree, n) == Min(free - numFree, free - n)
  {
  }

  // A completion returns the whole chain to the kernel and one to the shadow: it falls behind exactly
  // when the chain is longer than one.
  lemma ShimPop(p: Proto, tokens: seq<nat>, numFree: nat, given: map<nat, nat>, short: bool)
    requires Inv(p) && ShimTable(p, tokens, numFree, given, short)
    requires p.popped < |p.used| && p.used[p.popped].id in p.chains
    ensures var h := p.used[p.popped].id;
      var n := |p.chains[h].descs|;
      && h in given && h < |tokens| && tokens[h] == given[h] && n > 0
      && ShimTable(Pop(p), tokens[h := NULL], numFree + 1, given - {h}, short || n > 1)
      && |Pop(p).free| - (numFree + 1) == |p.free| - numFree + n - 1
  {
    var h := p.used[p.popped].id;
    assert OwnsChain(p.owner, h, p.chains[h]);
    assert Pop(p).chains.Keys == p.chains.Keys - {h};
  }

  class ShimQueue {
    const queue: Vq.Virtqueue
    const tokens: array<nat>
    var numFree: nat
    ghost var given: map<nat, nat>
    // A request of more than one segment has completed since an add last used up the queue.
    ghost var short: bool

    ghost predicate Valid()
      reads this, tokens, queue, queue.desc, queue.availRing, queue.usedRing
    {
      && tokens != queue.availRing && tokens as object != queue.desc && tokens as object != queue.usedRing
      && tokens.Length == queue.size
      && queue.Valid() && Inv(queue.proto)
      && ShimTable(queue.proto, tokens[..], numFree, given, short)
    }

    // How far the shadow count is behind.
    ghost function Deficit(): int
      reads this, queue
    {
      |queue.proto.free| - numFree
    }

    constructor (q: Vq.Virtqueue)
      requires q.Valid() && Inv(q.proto) && q.proto == Init(q.size)
      ensures Valid() && queue == q && given == map[] && !short && numFree == q.size && fresh(tokens)
    {
      queue := q;
      tokens := new nat[q.size](i => NULL);
      numFree := q.size;
      given := map[];
      short := false;
      new;
      hide Vq.Repr, Inv;
    }

    // `virtqueue_add_outbuf` / `virtqueue_add_inbuf`: one segment or a chain of up to eight, for the device
    // to read or to write, with `data` remembered under the head the queue chose.
    method Add(sg: seq<Segment>, write: bool, data: nat) returns (r: int)
      requires Valid()
      modifies this`numFree, this`given, this`short, tokens
      modifies queue`availIdx, queue`freeHead, queue`numFree, queue`proto, queue.desc, queue.availRing
      ensures Valid()
      ensures r == 0 || r == -1
      ensures r == 0 <==> 0 < |sg| <= Vq.MAX_CHAIN && |sg| <= old(|queue.proto.free|)
      ensures r == -1 ==> queue.proto == old(queue.proto) && given == old(given) && numFree == old(numFree)
      ensures r == 0 ==>
        var h := old(queue.proto).free[0];
        && queue.proto == Push(old(queue.proto), PartsOf(sg, write))
        && queue.proto.offered == old(queue.proto).offered + [h]
        && h in queue.proto.chains && Carries(queue.proto.chains[h].parts, sg, write)
        && h !in old(given) && given == old(given)[h := data]
        && short == (old(short) && |sg| < old(|queue.proto.free|))
        && Deficit() == Min(old(Deficit()), old(|queue.proto.free|) - |sg|)
    {
      hide Vq.Repr, Inv, ShimTable, PartsOf, Push;
      if |sg| == 0 || |sg| > Vq.MAX_CHAIN {
        return -1;
      }
      var parts := PartsOf(sg, write);
      ghost var p := queue.proto;
      if |parts| <= |p.free| {
        ShimPush(p, tokens[..], numFree, given, short, parts, data);
        ShadowBelow(p, tokens[..], numFree, given, short);
        AddDeficit(|p.free|, numFree, |parts|);
        PushedHead(p, parts);
        PushInv(p, parts);
      }
      var head: nat;
      if |parts| == 1 {
        var d := queue.PushDescriptor(parts[0].addr, parts[0].len, parts[0].flags);
        if d.None? {
          return -1;
        }
        assert parts == [Part(parts[0].addr, parts[0].len, parts[0].flags)];
        head := d.value;
      } else {
        var d := queue.PushChain(parts);
        if d.Full? {
          return -1;
        }
        head := d.idx;
      }
      tokens[head] := data;
      numFree := SaturatingSub(numFree, |parts|);
      given, short := given[head := data], short && |parts| < |p.free|;
      return 0;
    }

    // `virtqueue_get_buf`: NULL when the used ring is empty; otherwise the token given when that
    // head was added, forgotten at once so it is returned only once.  Whatever the chain length,
    // the shadow count goes up by one.
    method GetBuf() returns (token: nat, len: nat)
      requires Valid()
      modifies this`numFree, this`given, this`short, tokens
      modifies queue`freeHead, queue`numFree, queue`lastUsedIdx, queue`proto, queue.desc
      ensures Valid()
      ensures old(queue.proto).popped == |old(queue.proto).used| ==>
        token == NULL && queue.proto == old(queue.proto) && given == old(given) && numFree == old(numFree)
      ensures old(queue.proto).popped < |old(queue.proto).used| ==>
        var e := old(queue.proto).used[old(queue.proto).popped];
        && e.id in old(queue.proto).chains && queue.proto == Pop(old(queue.proto))
        && e.id in old(given) && token == old(given)[e.id] && len == e.len
        && given == old(given) - {e.id} && numFree == old(numFree) + 1
        && var n := |old(queue.proto).chains[e.id].descs|;
           short == (old(short) || n > 1) && Deficit() == old(Deficit()) + n - 1
    {
      hide Vq.Repr, Inv, ShimTable;
      ghost var p := queue.proto;
      Counts(p);
      var elem := queue.PopUsed();
      if elem.None? {
        return NULL, 0;
      }
      ShimPop(p, tokens[..], numFree, given, short);
      PopInv(p);
      var id := elem.value.id;
      token, len := tokens[id], elem.value.len;
      tokens[id] := NULL;
      numFree := numFree + 1;
      given, short := given - {id}, short || |p.chains[id].descs| > 1;
    }

    // The shadow count never promises more than the kernel queue has, and equals it if and only if no
    // request of more than one segment has completed since an add last used up the queue.
    lemma ShadowCount()
      requires Valid()
      ensures numFree <= queue.numFree
      ensures numFree == queue.numFree <==> !short
    {
    }
  }

  lemma DeviceKeepsShim(p: Proto, tokens: seq<nat>, numFree: nat, given: map<nat, nat>, short: bool, h: nat, len: nat)
    requires ShimTable(p, tokens, numFree, given, short)
    ensures p.fetched < |p.offered| ==> ShimTable(Fetch(p), tokens, numFree, given, short)
    ensures h in p.held ==> ShimTable(Complete(p, h, len), tokens, numFree, given, short)
  {
  }

  // One request of two segments, added, served and taken back on a new queue, leaves the shadow count one
  // short of the kernel's.
  method TwoSegmentsLeaveItShort(shim: ShimQueue, x: Segment, y: Segment, data: nat, len: nat)
    requires shim.Valid() && shim.queue.proto == Init(shim.queue.size) && shim.queue.size >= 2
    requires shim.numFree == shim.queue.size
    modifies shim, shim.tokens, shim.queue, shim.queue.desc, shim.queue.availRing, shim.queue.usedRing
    ensures shim.Valid() && shim.queue.numFree == shim.queue.size && shim.numFree == shim.queue.size - 1
  {
    hide Vq.Repr, Inv, ShimTable;
    var q := shim.queue;
    var r := shim.Add([x, y], true, data);
    ghost var p := q.proto;
    DeviceKeepsShim(p, shim.tokens[..], shim.numFree, shim.given, shim.short, 0, len);
    FetchInv(p);
    var h := q.DeviceFetch();
    ghost var p1 := q.proto;
    DeviceKeepsShim(p1, shim.tokens[..], shim.numFree, shim.given, shim.short, h.value, len);
    CompleteInv(p1, h.value, len);
    q.DeviceComplete(h.value, len);
    var token, n := shim.GetBuf();
    Vq.QueueShape(q.View(), q.proto);
  }

  datatype VqSlot = Skipped | Created(vq: ShimQueue)

  // `virtio_find_vqs`: one shim queue per named slot.  Every size it picks satisfies the asserts
  // in `Virtqueue::new` and `activate_queue`; it fails exactly when a named queue does not exist.
  method FindVqs(named: seq<bool>, maxima: seq<nat>) returns (r: int, vqs: seq<VqSlot>)
    requires |named| == |maxima| && (forall i :: 0 <= i < |maxima| ==> maxima[i] < 0x1_0000)
    ensures r == 0 || r == -1
    ensures r == 0 <==> |named| > 0 && forall i :: 0 <= i < |named| && named[i] ==> maxima[i] > 0
    ensures r == 0 ==> |vqs| == |named|
    ensures forall i :: 0 <= i < |vqs| ==> i < |named| && (vqs[i].Created? <==> named[i])
    ensures forall i, j :: 0 <= i < j < |vqs| && vqs[i].Created? && vqs[j].Created? ==>
      vqs[i].vq != vqs[j].vq && vqs[i].vq.queue != vqs[j].vq.queue
    ensures forall i :: 0 <= i < |vqs| && vqs[i].Created? ==>
      && fresh(vqs[i].vq) && vqs[i].vq.Valid() && vqs[i].vq.given == map[]
      && vqs[i].vq.numFree == vqs[i].vq.queue.size == Pow2AtMost(maxima[i])
      && Vq.IsQueueSize(vqs[i].vq.queue.size) && vqs[i].vq.queue.size <= maxima[i]
  {
    hide Vq.Repr, Inv, ShimTable, Vq.IsQueueSize, Pow2AtMost, Init;
    vqs := [];
    if |named| == 0 {
      return -1, [];
    }
    for i := 0 to |named|
      invariant |vqs| == i
      invariant forall j :: 0 <= j < i && named[j] ==> maxima[j] > 0
      invariant forall j :: 0 <= j < i ==> (vqs[j].Created? <==> named[j])
      invariant forall j, k :: 0 <= j < k < i && vqs[j].Created? && vqs[k].Created? ==>
        vqs[j].vq != vqs[k].vq && vqs[j].vq.queue != vqs[k].vq.queue
      invariant forall j :: 0 <= j < i && vqs[j].Created? ==>
        && fresh(vqs[j].vq) && vqs[j].vq.Valid() && vqs[j].vq.given == map[]
        && vqs[j].vq.numFree == vqs[j].vq.queue.size == Pow2AtMost(maxima[j])
        && Vq.IsQueueSize(vqs[j].vq.queue.size) && vqs[j].vq.queue.size <= maxima[j]
    {
      if !named[i] {
        vqs := vqs + [Skipped];
      } else {
        var size := Pow2AtMost(maxima[i]);
        SizeZero(maxima[i]);
        if size == 0 {
          return -1, vqs;
        }
        SizeChosen(maxima[i]);
        var q := new Vq.Virtqueue(size);
        InitOk(size);
        var s := new ShimQueue(q);
        vqs := vqs + [Created(s)];
      }
    }
    return 0, vqs;
  }

  lemma InitOk(size: nat)
    requires Vq.IsQueueSize(size)
    ensures Inv(Init(size))
  {
    InitInv(size);
  }

  lemma SizeZero(n: nat)
    ensures Pow2AtMost(n) == 0 <==> n == 0
  {
  }
}
