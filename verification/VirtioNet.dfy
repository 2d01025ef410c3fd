/**
 virtio-net buffer ownership over two split virtqueues.  Receive buffers form a fixed pool that is
 posted, filled, lent to the network stack and re-posted; transmit buffers are heap boxes kept in
 `in_flight` until the device completes their descriptor.
 */
module VirtioNet {
  import opened SeqFacts
  import opened VirtqueueProtocol
  import Vq = Virtqueue

  const QUEUE_SIZE: nat := 16
  const NET_HDR_LEN: nat := 12
  const MTU: nat := 1514
  const RX_BUFFER_LEN: nat := NET_HDR_LEN + MTU
  const F_WRITE: nat := 2

  lemma SizeOk()
    ensures Vq.IsQueueSize(QUEUE_SIZE)
  {
    assert Vq.IsPowerOfTwo(8);
  }

  // The header is two bytes and five 16-bit words.
  lemma HeaderSize()
    ensures NET_HDR_LEN == 1 + 1 + 2 + 2 + 2 + 2 + 2
  {
  }

  // Bit 1, VIRTQ_DESC_F_WRITE: the device may write the buffer, and only then.
  predicate DeviceWritable(flags: nat) {
    flags / 2 % 2 == 1
  }

  // --- receive ----------------------------------------------------------------------------

  function RxPart(addr: nat): Part {
    Part(addr, RX_BUFFER_LEN, F_WRITE)
  }

  // `at` says which descriptor carries each posted buffer; it and the driver's table are inverse
  // on posted descriptors, and each posted descriptor carries its own buffer's address.
  ghost predicate RxTable(p: Proto, descToBuf: seq<nat>, addrs: seq<nat>, at: map<nat, nat>) {
    && p.size == |descToBuf| == |addrs| == QUEUE_SIZE
    && (forall h :: h in p.chains ==>
          && h < QUEUE_SIZE && descToBuf[h] < QUEUE_SIZE
          && p.chains[h] == Request([h], [RxPart(addrs[descToBuf[h]])])
          && descToBuf[h] in at && at[descToBuf[h]] == h)
    && (forall b :: b in at ==> b < QUEUE_SIZE && at[b] in p.chains && descToBuf[at[b]] == b)
  }

  lemma FreshHeadInv(p: Proto)
    requires Inv(p) && p.free != []
    ensures p.free[0] !in p.chains
  {
    FreshHead(p);
  }

  lemma PushOneFacts(p: Proto, part: Part)
    requires Inv(p) && p.free != []
    ensures p.free[0] < p.size
    ensures Push(p, [part]).chains == p.chains[p.free[0] := Request([p.free[0]], [part])]
    ensures Push(p, [part]).size == p.size
  {
    assert p.free[0] in Elems(p.free);
    assert p.free[..1] == [p.free[0]];
  }

  lemma RxInit(descToBuf: seq<nat>, addrs: seq<nat>)
    requires |descToBuf| == |addrs| == QUEUE_SIZE
    ensures Inv(Init(QUEUE_SIZE)) && RxTable(Init(QUEUE_SIZE), descToBuf, addrs, map[])
  {
    InitInv(QUEUE_SIZE);
  }

  lemma RxPush(p: Proto, descToBuf: seq<nat>, addrs: seq<nat>, at: map<nat, nat>, b: nat)
    requires Inv(p) && RxTable(p, descToBuf, addrs, at)
    requires b < QUEUE_SIZE && b !in at && p.free != []
    ensures p.free[0] < QUEUE_SIZE
    ensures RxTable(Push(p, [RxPart(addrs[b])]), descToBuf[p.free[0] := b], addrs, at[b := p.free[0]])
  {
    hide Push, Inv;
    FreshHeadInv(p);
    PushOneFacts(p, RxPart(addrs[b]));
  }

  lemma RxPop(p: Proto, descToBuf: seq<nat>, addrs: seq<nat>, at: map<nat, nat>)
    requires Inv(p) && RxTable(p, descToBuf, addrs, at)
    requires p.popped < |p.used| && p.used[p.popped].id in p.chains
    ensures var h := p.used[p.popped].id;
      && h < QUEUE_SIZE && descToBuf[h] in at && descToBuf[h] < QUEUE_SIZE
      && RxTable(Pop(p), descToBuf, addrs, at - {descToBuf[h]})
  {
  }

  // While any buffer is not posted there is a free descriptor to post it with.
  lemma RxHasRoom(p: Proto, descToBuf: seq<nat>, addrs: seq<nat>, at: map<nat, nat>, b: nat)
    requires Inv(p) && RxTable(p, descToBuf, addrs, at)
    requires b < QUEUE_SIZE && b !in at
    ensures p.free != []
  {
    if p.free == [] {
      forall d: nat | d < QUEUE_SIZE ensures d in p.chains {
        assert IsIndex(d, QUEUE_SIZE);
        assert d in Elems(p.free) + p.owner.Keys;
        assert d in p.chains[p.owner[d]].descs;
      }
      RxAllPosted(p, descToBuf, addrs, at, b);
      assert false;
    }
  }

  lemma RxAllPosted(p: Proto, descToBuf: seq<nat>, addrs: seq<nat>, at: map<nat, nat>, b: nat)
    requires RxTable(p, descToBuf, addrs, at) && b < QUEUE_SIZE
    requires forall d: nat :: d < QUEUE_SIZE ==> d in p.chains
    ensures b in at
  {
    forall i, j | 0 <= i < j < |descToBuf| ensures descToBuf[i] != descToBuf[j] {
      assert i in p.chains && j in p.chains;
    }
    forall i | 0 <= i < |descToBuf| ensures descToBuf[i] < QUEUE_SIZE && descToBuf[i] in at {
      assert i in p.chains;
    }
    if b !in at {
      Pigeonhole(descToBuf + [b], QUEUE_SIZE);
    }
  }

  // On posted descriptors the table is injective and names the buffer whose address they carry.
  lemma RxInjective(p: Proto, descToBuf: seq<nat>, addrs: seq<nat>, at: map<nat, nat>, h: nat, g: nat)
    requires RxTable(p, descToBuf, addrs, at) && h in p.chains && g in p.chains
    ensures descToBuf[h] == descToBuf[g] ==> h == g
    ensures p.chains[h].parts == [RxPart(addrs[descToBuf[h]])]
  {
  }

  // The unread completions, with the bytes the device wrote for each.
  ghost predicate RxFrames(p: Proto, descToBuf: seq<nat>, bufs: seq<seq<nat>>, frames: seq<seq<nat>>) {
    && |frames| == |p.used|
    && (forall k :: p.popped <= k < |p.used| ==>
          && p.used[k].id < |descToBuf| && descToBuf[p.used[k].id] < |bufs|
          && frames[k] <= bufs[descToBuf[p.used[k].id]])
  }

  // A completion not yet reclaimed names an outstanding head the device no longer holds.
  lemma UnreadOwned(p: Proto, k: nat)
    requires Inv(p) && p.popped <= k < |p.used|
    ensures p.used[k].id in p.chains && p.used[k].id !in p.held
  {
    StagesSplit(p);
    var h, unread := p.used[k].id, p.used[p.popped..];
    var ids := Ids(unread);
    assert ids[k - p.popped] == unread[k - p.popped].id == h;
    assert h in ids;
    assert h in multiset(p.chains.Keys) && multiset(p.chains.Keys)[h] <= 1;
  }

  lemma FramesAfterPost(p: Proto, descToBuf: seq<nat>, addrs: seq<nat>, at: map<nat, nat>, bufs: seq<seq<nat>>,
                        frames: seq<seq<nat>>, b: nat, part: Part)
    requires Inv(p) && RxTable(p, descToBuf, addrs, at) && p.free != [] && p.free[0] < |descToBuf|
    requires RxFrames(p, descToBuf, bufs, frames)
    ensures RxFrames(Push(p, [part]), descToBuf[p.free[0] := b], bufs, frames)
  {
    hide Inv, RxTable;
    FreshHeadInv(p);
    forall k | p.popped <= k < |p.used| ensures p.used[k].id != p.free[0] {
      UnreadOwned(p, k);
    }
  }

  // Writing into the buffer of a head the device holds disturbs no unread frame.
  lemma FramesAfterFill(p: Proto, descToBuf: seq<nat>, addrs: seq<nat>, at: map<nat, nat>, bufs: seq<seq<nat>>,
                        frames: seq<seq<nat>>, h: nat, bytes: seq<nat>, data: seq<nat>, len: nat)
    requires Inv(p) && RxTable(p, descToBuf, addrs, at) && h in p.held && |bufs| == QUEUE_SIZE
    requires RxFrames(p, descToBuf, bufs, frames) && data <= bytes
    ensures h < |descToBuf| && descToBuf[h] < |bufs|
    ensures RxFrames(Complete(p, h, len), descToBuf, bufs[descToBuf[h] := bytes], frames + [data])
  {
    hide Inv;
    HeldIsOwned(p, h);
    forall k | p.popped <= k < |p.used| ensures descToBuf[p.used[k].id] != descToBuf[h] {
      UnreadOwned(p, k);
    }
  }

  datatype RxToken = RxToken(bufidx: nat, len: nat)

  datatype Consumed = SlicePanic | Delivered(frame: seq<nat>)

  lemma HeldIsOwned(p: Proto, h: nat)
    requires Inv(p) && h in p.held
    ensures h in p.chains
  {
    StagesSplit(p);
    assert multiset(p.held)[h] == 1;
    assert h in multiset(p.chains.Keys);
  }

  lemma RxOwner(p: Proto, descToBuf: seq<nat>, addrs: seq<nat>, at: map<nat, nat>, h: nat)
    requires RxTable(p, descToBuf, addrs, at) && h in p.chains
    ensures h < |descToBuf| && descToBuf[h] < QUEUE_SIZE && descToBuf[h] in at
    ensures p.chains[h] == Request([h], [RxPart(addrs[descToBuf[h]])])
  {
  }

  lemma FramesInit(descToBuf: seq<nat>, bufs: seq<seq<nat>>)
    ensures RxFrames(Init(QUEUE_SIZE), descToBuf, bufs, [])
  {
  }

  lemma PrefixSlice(a: seq<nat>, b: seq<nat>, from: nat)
    requires a <= b
    ensures from <= |a| ==> b[from..|a|] == a[from..]
  {
  }

  class RxState {
    const queue: Vq.Virtqueue
    const descToBuf: array<nat>
    // Physical address of each pool buffer; the boxes never move.
    const addrs: seq<nat>
    // The bytes of each.
    var bufs: seq<seq<nat>>
    ghost var at: map<nat, nat>
    // What the device wrote for each completion, and what the buffers out with tokens hold of it.
    ghost var frames: seq<seq<nat>>
    ghost var out: map<nat, seq<nat>>

    ghost predicate Valid()
      reads this, descToBuf, queue, queue.desc, queue.availRing, queue.usedRing
    {
      && descToBuf != queue.availRing && descToBuf as object != queue.desc && descToBuf as object != queue.usedRing
      && |addrs| == |bufs| == descToBuf.Length == QUEUE_SIZE
      && (forall b :: 0 <= b < |bufs| ==> |bufs[b]| == RX_BUFFER_LEN)
      && queue.Valid() && Inv(queue.proto)
      && RxTable(queue.proto, descToBuf[..], addrs, at)
      && RxFrames(queue.proto, descToBuf[..], bufs, frames)
      && (forall b :: b in out ==> b < |bufs| && b !in at && out[b] <= bufs[b])
    }

    constructor (addrs: seq<nat>)
      requires |addrs| == QUEUE_SIZE
      ensures Valid() && this.addrs == addrs
      ensures fresh(queue) && fresh(queue.desc) && fresh(queue.availRing) && fresh(queue.usedRing) && fresh(descToBuf)
      ensures forall b: nat :: b < QUEUE_SIZE ==> b in at
    {
      hide Inv, RxTable, Vq.Repr, Init, Vq.IsQueueSize;
      SizeOk();
      var q := new Vq.Virtqueue(QUEUE_SIZE);
      queue := q;
      descToBuf := new nat[QUEUE_SIZE](i => 0);
      this.addrs := addrs;
      bufs := seq(QUEUE_SIZE, i => seq(RX_BUFFER_LEN, j => 0));
      at, frames, out := map[], [], map[];
      new;
      FramesInit(descToBuf[..], bufs);
      RxInit(descToBuf[..], addrs);
      PostAll();
    }

    // Post every buffer up front.
    method PostAll()
      requires Valid() && at == map[] && out == map[]
      modifies this`at, this`out, queue`availIdx, queue`freeHead, queue`numFree, queue`proto
      modifies queue.desc, queue.availRing, descToBuf
      ensures Valid()
      ensures forall b: nat :: b < QUEUE_SIZE ==> b in at
    {
      hide Inv, RxTable, RxFrames, Vq.Repr, Push;
      for bufidx := 0 to QUEUE_SIZE
        invariant Valid() && out == map[]
        invariant forall b :: b in at <==> 0 <= b < bufidx
      {
        Post(bufidx);
      }
    }

    // Post a buffer that is not posted.  The `expect` on the returned descriptor cannot fire.
    method Post(bufidx: nat)
      requires Valid() && bufidx < QUEUE_SIZE && bufidx !in at
      modifies this`at, this`out, queue`availIdx, queue`freeHead, queue`numFree, queue`proto
      modifies queue.desc, queue.availRing, descToBuf
      ensures Valid()
      ensures old(queue.proto).free != []
      ensures queue.proto == Push(old(queue.proto), [RxPart(addrs[bufidx])])
      ensures at == old(at)[bufidx := old(queue.proto).free[0]] && out == old(out) - {bufidx}
    {
      hide Inv, RxTable, RxFrames, Vq.Repr;
      RxHasRoom(queue.proto, descToBuf[..], addrs, at, bufidx);
      RxPush(queue.proto, descToBuf[..], addrs, at, bufidx);
      FramesAfterPost(queue.proto, descToBuf[..], addrs, at, bufs, frames, bufidx, RxPart(addrs[bufidx]));
      var r := queue.PushDescriptor(addrs[bufidx], RX_BUFFER_LEN, F_WRITE);
      PushInv(old(queue.proto), [RxPart(addrs[bufidx])]);
      descToBuf[r.value] := bufidx;
      at := at[bufidx := r.value];
      out := out - {bufidx};
    }

    // The next filled buffer: the token names the buffer whose address the completed descriptor
    // carried, and that buffer is no longer posted.
    method Receive() returns (r: Option<RxToken>)
      requires Valid()
      modifies this`at, this`out, queue`freeHead, queue`numFree, queue`lastUsedIdx, queue`proto, queue.desc
      ensures Valid()
      ensures r.None? <==> old(queue.proto).popped == |old(queue.proto).used|
      ensures r.None? ==> queue.proto == old(queue.proto) && at == old(at) && out == old(out)
      ensures r.Some? ==>
        var e := old(queue.proto).used[old(queue.proto).popped];
        && e.id in old(queue.proto).chains && queue.proto == Pop(old(queue.proto))
        && r.value.len == (if e.len < NET_HDR_LEN then 0 else e.len - NET_HDR_LEN)
        && r.value.bufidx < QUEUE_SIZE && r.value.bufidx in old(at) && at == old(at) - {r.value.bufidx}
        && old(queue.proto).popped < |frames|
        && out == old(out)[r.value.bufidx := frames[old(queue.proto).popped]]
    {
      hide Inv, RxTable, Vq.Repr;
      ghost var p := queue.proto;
      var elem := queue.PopUsed();
      if elem.None? {
        return None;
      }
      Counts(p);
      PopInv(p);
      RxPop(p, descToBuf[..], addrs, at);
      var bufidx := descToBuf[elem.value.id];
      at := at - {bufidx};
      out := out[bufidx := frames[p.popped]];
      var len := if elem.value.len < NET_HDR_LEN then 0 else elem.value.len - NET_HDR_LEN;
      return Some(RxToken(bufidx, len));
    }

    // Hand the frame, past the header, to the stack and re-post the buffer.  A device that reports more
    // bytes than the buffer holds makes the slice panic instead.
    method Consume(token: RxToken) returns (r: Consumed)
      requires Valid() && token.bufidx < QUEUE_SIZE && token.bufidx !in at
      modifies this`at, this`out, queue`availIdx, queue`freeHead, queue`numFree, queue`proto
      modifies queue.desc, queue.availRing, descToBuf
      ensures Valid()
      ensures r.SlicePanic? <==> NET_HDR_LEN + token.len > RX_BUFFER_LEN
      ensures r.SlicePanic? ==> queue.proto == old(queue.proto) && at == old(at)
      ensures r.Delivered? ==> old(queue.proto).free != []
      ensures r.Delivered? ==> queue.proto == Push(old(queue.proto), [RxPart(addrs[token.bufidx])])
      ensures r.Delivered? ==> at == old(at)[token.bufidx := old(queue.proto).free[0]]
      ensures r.Delivered? ==> r.frame == bufs[token.bufidx][NET_HDR_LEN..NET_HDR_LEN + token.len]
      ensures r.Delivered? && token.bufidx in old(out) && |old(out)[token.bufidx]| == NET_HDR_LEN + token.len ==>
        r.frame == old(out)[token.bufidx][NET_HDR_LEN..]
    {
      hide Inv, RxTable, RxFrames, Vq.Repr, Push;
      if NET_HDR_LEN + token.len > RX_BUFFER_LEN {
        return SlicePanic;
      }
      if token.bufidx in out {
        PrefixSlice(out[token.bufidx], bufs[token.bufidx], NET_HDR_LEN);
      }
      var frame := bufs[token.bufidx][NET_HDR_LEN..NET_HDR_LEN + token.len];
      Post(token.bufidx);
      return Delivered(frame);
    }

    // The device takes a posted buffer, or follows the descriptor of one it holds, writes there what the
    // descriptor lets it write, and completes it.  Every posted buffer may be filled whole, and what a
    // token out names is not touched.
    method DeviceStep(h: nat, data: seq<nat>, len: nat, fill: bool)
      requires Valid() && (fill ==> h in queue.proto.held && |data| <= RX_BUFFER_LEN)
      modifies this`bufs, this`frames, queue`deviceIdx, queue`usedIdx, queue`proto, queue.usedRing
      ensures Valid()
      ensures fill ==> queue.proto == Complete(old(queue.proto), h, len) && frames == old(frames) + [data]
      ensures !fill && old(queue.proto).fetched < |old(queue.proto).offered| ==> queue.proto == Fetch(old(queue.proto))
      ensures !fill ==> bufs == old(bufs) && frames == old(frames)
      ensures fill ==>
        && h < queue.desc.Length && h < descToBuf.Length
        && var b := descToBuf[h];
           && b < QUEUE_SIZE && b in at && queue.desc[h].addr == addrs[b]
           && bufs == old(bufs)[b := data + old(bufs)[b][|data|..]]
    {
      hide Vq.Repr, Inv, RxTable, RxFrames;
      ghost var p := queue.proto;
      DeviceKeepsTable(p, descToBuf[..], addrs, at, h, len);
      if fill {
        CompleteInv(p, h, len);
        HeldIsOwned(p, h);
        RxOwner(p, descToBuf[..], addrs, at, h);
        Vq.PublishedSays(queue.View(), p, h, 0);
        var b, d := descToBuf[h], queue.desc[h];
        ghost var bytes := data + bufs[b][|data|..];
        FramesAfterFill(p, descToBuf[..], addrs, at, bufs, frames, h, bytes, data, len);
        if DeviceWritable(d.flags) && |data| <= d.len {
          bufs := bufs[b := data + bufs[b][|data|..]];
        }
        queue.DeviceComplete(h, len);
        frames := frames + [data];
      } else {
        var r := queue.DeviceFetch();
        if r.Some? {
          Counts(p);
          FetchInv(p);
          FramesAfterFetch(p, descToBuf[..], bufs, frames);
        }
      }
    }
  }

  lemma FramesAfterFetch(p: Proto, descToBuf: seq<nat>, bufs: seq<seq<nat>>, frames: seq<seq<nat>>)
    requires RxFrames(p, descToBuf, bufs, frames) && p.fetched < |p.offered|
    ensures RxFrames(Fetch(p), descToBuf, bufs, frames)
  {
  }

  lemma DeviceKeepsTable(p: Proto, descToBuf: seq<nat>, addrs: seq<nat>, at: map<nat, nat>, h: nat, len: nat)
    requires RxTable(p, descToBuf, addrs, at)
    ensures h in p.held ==> RxTable(Complete(p, h, len), descToBuf, addrs, at)
    ensures p.fetched < |p.offered| ==> RxTable(Fetch(p), descToBuf, addrs, at)
  {
  }

  // --- transmit ---------------------------------------------------------------------------

  // A box: the header, and room for a payload.
  datatype TxBuffer = TxBuffer(addr: nat, image: seq<nat>)

  function Zeros(n: nat): (r: seq<nat>)
    ensures |r| == n && forall i :: 0 <= i < n ==> r[i] == 0
  {
    if n == 0 then [] else [0] + Zeros(n - 1)
  }

  // What the part has the device read from the box: an all-zero header and the payload, no more.
  ghost predicate SendsAs(part: Part, buf: TxBuffer, payload: seq<nat>) {
    && part.addr == buf.addr && !DeviceWritable(part.flags)
    && part.len <= |buf.image| && buf.image[..part.len] == Zeros(NET_HDR_LEN) + payload
  }

  // Slot d is occupied exactly while descriptor d is outstanding, by the box whose address the device
  // was given; `boxes` lists every live box, so none is leaked and none is freed early.  `sent` is the
  // payload each outstanding descriptor was submitted with.
  ghost predicate TxTable(p: Proto, inFlight: seq<Option<TxBuffer>>, boxes: map<nat, nat>, sent: map<nat, seq<nat>>) {
    && p.size == |inFlight| == QUEUE_SIZE && sent.Keys == p.chains.Keys
    && (forall h :: h in p.chains ==>
          && h < QUEUE_SIZE && inFlight[h].Some?
          && p.chains[h].descs == [h] && |p.chains[h].parts| == 1
          && SendsAs(p.chains[h].parts[0], inFlight[h].value, sent[h])
          && inFlight[h].value.addr in boxes && boxes[inFlight[h].value.addr] == h)
    && (forall a :: a in boxes ==> boxes[a] in p.chains && inFlight[boxes[a]].value.addr == a)
    && (forall d :: 0 <= d < QUEUE_SIZE && inFlight[d].Some? ==> d in p.chains)
  }

  lemma TxInit(inFlight: seq<Option<TxBuffer>>)
    requires |inFlight| == QUEUE_SIZE && (forall d :: 0 <= d < QUEUE_SIZE ==> inFlight[d].None?)
    ensures Inv(Init(QUEUE_SIZE)) && TxTable(Init(QUEUE_SIZE), inFlight, map[], map[])
  {
    InitInv(QUEUE_SIZE);
  }

  lemma TxPush(p: Proto, inFlight: seq<Option<TxBuffer>>, boxes: map<nat, nat>, sent: map<nat, seq<nat>>,
               buf: TxBuffer, part: Part, payload: seq<nat>)
    requires Inv(p) && TxTable(p, inFlight, boxes, sent) && SendsAs(part, buf, payload)
    requires buf.addr !in boxes && p.free != []
    ensures p.free[0] < QUEUE_SIZE
    ensures TxTable(Push(p, [part]), inFlight[p.free[0] := Some(buf)], boxes[buf.addr := p.free[0]],
                    sent[p.free[0] := payload])
  {
    hide Push, Inv, SendsAs;
    FreshHeadInv(p);
    PushOneFacts(p, part);
  }

  lemma TxPop(p: Proto, inFlight: seq<Option<TxBuffer>>, boxes: map<nat, nat>, sent: map<nat, seq<nat>>)
    requires Inv(p) && TxTable(p, inFlight, boxes, sent)
    requires p.popped < |p.used| && p.used[p.popped].id in p.chains
    ensures var h := p.used[p.popped].id;
      && h < QUEUE_SIZE && inFlight[h].Some?
      && TxTable(Pop(p), inFlight[h := None], boxes - {inFlight[h].value.addr}, sent - {h})
  {
    hide Inv, Pop, SendsAs;
    PopFacts(p);
  }

  lemma PopFacts(p: Proto)
    requires p.popped < |p.used| && p.used[p.popped].id in p.chains
    ensures Pop(p).chains == p.chains - {p.used[p.popped].id} && Pop(p).size == p.size
  {
  }

  // Whatever the device may still access - published, held or completed but not reclaimed - is live.
  lemma TxNoUseAfterFree(p: Proto, inFlight: seq<Option<TxBuffer>>, boxes: map<nat, nat>, sent: map<nat, seq<nat>>,
                         h: nat)
    requires Inv(p) && TxTable(p, inFlight, boxes, sent)
    requires h in p.held || h in p.offered[p.fetched..]
    ensures h in p.chains && |p.chains[h].parts| == 1 && p.chains[h].parts[0].addr in boxes
  {
    StagesSplit(p);
    var stages := multiset(p.offered[p.fetched..]) + multiset(p.held) + multiset(Ids(p.used[p.popped..]));
    assert h in stages;
  }

  lemma TxOwner(p: Proto, inFlight: seq<Option<TxBuffer>>, boxes: map<nat, nat>, sent: map<nat, seq<nat>>, h: nat)
    requires TxTable(p, inFlight, boxes, sent) && h in p.chains
    ensures h < |inFlight| && inFlight[h].Some? && h in sent && p.chains[h].descs == [h] && |p.chains[h].parts| == 1
    ensures SendsAs(p.chains[h].parts[0], inFlight[h].value, sent[h])
    ensures inFlight[h].value.addr in boxes && boxes[inFlight[h].value.addr] == h
  {
  }

  lemma SendsAddress(part: Part, buf: TxBuffer, payload: seq<nat>)
    requires SendsAs(part, buf, payload)
    ensures part.addr == buf.addr
  {
  }

  lemma BoxSends(buf: TxBuffer, part: Part, payload: seq<nat>)
    requires |payload| <= MTU && buf.image == Zeros(NET_HDR_LEN) + payload + Zeros(MTU - |payload|)
    requires part == Part(buf.addr, NET_HDR_LEN + |payload|, 0)
    ensures SendsAs(part, buf, payload)
  {
  }

  datatype TxResult = TooLarge | QueueFull | Sent

  class TxState {
    const queue: Vq.Virtqueue
    const inFlight: array<Option<TxBuffer>>
    ghost var boxes: map<nat, nat>
    ghost var sent: map<nat, seq<nat>>

    ghost predicate Valid()
      reads this, inFlight, queue, queue.desc, queue.availRing, queue.usedRing
    {
      && inFlight as object != queue.availRing && inFlight as object != queue.desc
      && inFlight as object != queue.usedRing && inFlight.Length == QUEUE_SIZE
      && queue.Valid() && Inv(queue.proto)
      && TxTable(queue.proto, inFlight[..], boxes, sent)
    }

    constructor ()
      ensures Valid() && boxes == map[] && queue.proto == Init(QUEUE_SIZE)
      ensures fresh(queue) && fresh(queue.desc) && fresh(queue.availRing) && fresh(queue.usedRing) && fresh(inFlight)
    {
      hide Inv, TxTable, Vq.Repr, Init, Vq.IsQueueSize;
      SizeOk();
      queue := new Vq.Virtqueue(QUEUE_SIZE);
      inFlight := new Option<TxBuffer>[QUEUE_SIZE](i => None);
      boxes, sent := map[], map[];
      new;
      TxInit(inFlight[..]);
    }

    // `addr` is where the allocator put the new box.  A box that cannot be queued is dropped again.
    method Submit(payload: seq<nat>, addr: nat) returns (r: TxResult)
      requires Valid() && addr !in boxes
      modifies this`boxes, this`sent, queue`availIdx, queue`freeHead, queue`numFree, queue`proto
      modifies queue.desc, queue.availRing, inFlight
      ensures Valid()
      ensures r.TooLarge? <==> |payload| > MTU
      ensures r.QueueFull? <==> |payload| <= MTU && old(queue.proto).free == []
      ensures !r.Sent? ==>
        && queue.proto == old(queue.proto) && boxes == old(boxes) && sent == old(sent)
        && inFlight[..] == old(inFlight[..])
      ensures r.Sent? ==>
        var h := old(queue.proto).free[0];
        && queue.proto.offered == old(queue.proto).offered + [h]
        && boxes == old(boxes)[addr := h] && sent == old(sent)[h := payload]
    {
      if |payload| > MTU {
        return TooLarge;
      }
      var ok := Enqueue(payload, addr);
      return if ok then Sent else QueueFull;
    }

    // `TxToken::consume`: the payload is copied before anything is queued, so one that is too long panics,
    // and a frame the queue has no room for is dropped without a word.
    method TokenConsume(payload: seq<nat>, addr: nat) returns (panics: bool)
      requires Valid() && addr !in boxes
      modifies this`boxes, this`sent, queue`availIdx, queue`freeHead, queue`numFree, queue`proto
      modifies queue.desc, queue.availRing, inFlight
      ensures Valid() && (panics <==> |payload| > MTU)
      ensures panics || old(queue.proto).free == [] ==>
        queue.proto == old(queue.proto) && boxes == old(boxes) && sent == old(sent)
      ensures !panics && old(queue.proto).free != [] ==>
        var h := old(queue.proto).free[0];
        && queue.proto.offered == old(queue.proto).offered + [h]
        && boxes == old(boxes)[addr := h] && sent == old(sent)[h := payload]
    {
      if |payload| > MTU {
        return true;
      }
      var ok := Enqueue(payload, addr);
      return false;
    }

    method Enqueue(payload: seq<nat>, addr: nat) returns (ok: bool)
      requires Valid() && addr !in boxes && |payload| <= MTU
      modifies this`boxes, this`sent, queue`availIdx, queue`freeHead, queue`numFree, queue`proto
      modifies queue.desc, queue.availRing, inFlight
      ensures Valid() && (ok <==> old(queue.proto).free != [])
      ensures !ok ==>
        && queue.proto == old(queue.proto) && boxes == old(boxes) && sent == old(sent)
        && inFlight[..] == old(inFlight[..])
      ensures ok ==>
        var h := old(queue.proto).free[0];
        && queue.proto.offered == old(queue.proto).offered + [h]
        && boxes == old(boxes)[addr := h] && sent == old(sent)[h := payload]
    {
      hide Inv, TxTable, SendsAs, Vq.Repr;
      var buf := TxBuffer(addr, Zeros(NET_HDR_LEN) + payload + Zeros(MTU - |payload|));
      var total := NET_HDR_LEN + |payload|;
      BoxSends(buf, Part(addr, total, 0), payload);
      ghost var p := queue.proto;
      if p.free != [] {
        TxPush(p, inFlight[..], boxes, sent, buf, Part(addr, total, 0), payload);
        PushInv(p, [Part(addr, total, 0)]);
      }
      var d := queue.PushDescriptor(addr, total, 0);
      if d.None? {
        return false;
      }
      inFlight[d.value] := Some(buf);
      boxes, sent := boxes[addr := d.value], sent[d.value := payload];
      return true;
    }

    // Following the descriptor of any head it may still look at, the device reads, from a live box, the
    // header and exactly the payload submitted under it.
    lemma DeviceReads(h: nat)
      requires Valid() && (h in queue.proto.held || h in queue.proto.offered[queue.proto.fetched..])
      ensures h < queue.desc.Length && h in sent
      ensures var d := queue.desc[h];
        && d.flags % 2 == 0 && !DeviceWritable(d.flags)
        && d.addr in boxes && boxes[d.addr] < inFlight.Length && inFlight[boxes[d.addr]].Some?
        && var image := inFlight[boxes[d.addr]].value.image;
           d.len <= |image| && image[..d.len] == Zeros(NET_HDR_LEN) + sent[h]
    {
      hide Inv, TxTable, Vq.Repr;
      Counts(queue.proto);
      TxNoUseAfterFree(queue.proto, inFlight[..], boxes, sent, h);
      TxOwner(queue.proto, inFlight[..], boxes, sent, h);
      Vq.PublishedSays(queue.View(), queue.proto, h, 0);
    }

    // The device takes a queued frame, or completes one it holds.
    method DeviceStep(h: nat, len: nat, complete: bool)
      requires Valid() && (complete ==> h in queue.proto.held)
      modifies queue`deviceIdx, queue`usedIdx, queue`proto, queue.usedRing
      ensures Valid() && boxes == old(boxes)
      ensures complete ==> queue.proto == Complete(old(queue.proto), h, len)
      ensures !complete && old(queue.proto).fetched < |old(queue.proto).offered| ==>
        queue.proto == Fetch(old(queue.proto))
    {
      hide Vq.Repr, Inv;
      ghost var p := queue.proto;
      if complete {
        CompleteInv(p, h, len);
        queue.DeviceComplete(h, len);
      } else {
        var r := queue.DeviceFetch();
        if r.Some? {
          Counts(p);
          FetchInv(p);
        }
      }
    }

    // Reclaim one completion and drop its box.
    method ReapOne() returns (more: bool)
      requires Valid()
      modifies this`boxes, this`sent, queue`freeHead, queue`numFree, queue`lastUsedIdx, queue`proto
      modifies queue.desc, inFlight
      ensures Valid()
      ensures more <==> old(queue.proto).popped != |old(queue.proto).used|
      ensures !more ==> queue.proto == old(queue.proto) && boxes == old(boxes)
      ensures more ==>
        var e := old(queue.proto).used[old(queue.proto).popped];
        && e.id in old(queue.proto).chains && queue.proto == Pop(old(queue.proto))
        && boxes == old(boxes) - {old(queue.proto).chains[e.id].parts[0].addr} && sent == old(sent) - {e.id}
    {
      hide Inv, Vq.Repr, SendsAs, TxTable, Pop;
      ghost var p := queue.proto;
      var elem := queue.PopUsed();
      if elem.None? {
        return false;
      }
      Counts(p);
      PopInv(p);
      TxPop(p, inFlight[..], boxes, sent);
      TxOwner(p, inFlight[..], boxes, sent, elem.value.id);
      SendsAddress(p.chains[elem.value.id].parts[0], inFlight[elem.value.id].value, sent[elem.value.id]);
      boxes, sent := boxes - {inFlight[elem.value.id].value.addr}, sent - {elem.value.id};
      inFlight[elem.value.id] := None;
      return true;
    }

    // Drain the used ring: afterwards the live boxes are exactly the requests not yet completed.
    method Reap()
      requires Valid()
      modifies this`boxes, this`sent, queue`freeHead, queue`numFree, queue`lastUsedIdx, queue`proto
      modifies queue.desc, inFlight
      ensures Valid()
      ensures queue.proto.popped == |queue.proto.used| && queue.proto.used == old(queue.proto).used
      ensures queue.proto.offered == old(queue.proto).offered && queue.proto.held == old(queue.proto).held
      ensures boxes.Keys <= old(boxes.Keys)
    {
      hide Inv, TxTable, Vq.Repr;
      var more := true;
      Counts(queue.proto);
      while more
        invariant Valid()
        invariant !more ==> queue.proto.popped == |queue.proto.used|
        invariant queue.proto.popped <= |queue.proto.used| && queue.proto.used == old(queue.proto).used
        invariant queue.proto.offered == old(queue.proto).offered && queue.proto.held == old(queue.proto).held
        invariant boxes.Keys <= old(boxes.Keys)
        decreases |queue.proto.used| - queue.proto.popped, more
      {
        more := ReapOne();
        Counts(queue.proto);
      }
    }
  }
}
