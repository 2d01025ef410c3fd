/**
 The split virtqueue (section 2.7 of VIRTIO 1.2) without its memory layout: who owns each
 descriptor, which heads have been published, fetched, completed and reclaimed.  Histories are
 unbounded sequences; the class in Virtqueue.dfy shows that the kernel's 16-bit indices, in-table
 free chain and fixed rings implement exactly these steps.
 */
module VirtqueueProtocol {
  import opened SeqFacts

  // One segment of a request: physical address, length, descriptor flags.
  datatype Part = Part(addr: nat, len: nat, flags: nat)

  datatype UsedElem = UsedElem(id: nat, len: nat)

  // A published request: the descriptors it occupies, in chain order, and what they describe.
  datatype Request = Request(descs: seq<nat>, parts: seq<Part>)

  datatype Proto = Proto(
    size: nat,
    free: seq<nat>,               // free descriptors in free-chain order
    owner: map<nat, nat>,         // every other descriptor, with the head of the chain it belongs to
    chains: map<nat, Request>,    // published and not yet reclaimed requests, by head
    offered: seq<nat>,            // every head ever published, in order
    fetched: nat,                 // how many of them the device has taken
    held: set<nat>,               // heads the device has taken and not completed
    used: seq<UsedElem>,          // every completion ever posted, in order
    popped: nat)                  // how many of them the driver has reclaimed

  function Ids(u: seq<UsedElem>): (r: seq<nat>)
    ensures |r| == |u|
    ensures forall i :: 0 <= i < |u| ==> r[i] == u[i].id
  {
    if u == [] then [] else [u[0].id] + Ids(u[1..])
  }

  // Free descriptors and owned descriptors are disjoint and together are exactly 0..size.
  ghost predicate Partition(p: Proto) {
    Splits(p.free, p.owner.Keys, UpTo(p.size))
  }

  // Chains are nonempty, start at their head, and own exactly the owned descriptors.
  ghost predicate Chains(owner: map<nat, nat>, chains: map<nat, Request>) {
    && (forall h :: h in chains ==> OwnsChain(owner, h, chains[h]))
    && (forall d :: d in owner ==> owner[d] in chains && d in chains[owner[d]].descs)
  }

  ghost predicate OwnsChain(owner: map<nat, nat>, h: nat, r: Request) {
    && 0 < |r.descs| == |r.parts|
    && r.descs[0] == h
    && NoDup(r.descs)
    && (forall i :: 0 <= i < |r.descs| ==> r.descs[i] in owner && owner[r.descs[i]] == h)
  }

  // Heads the device took = heads it still holds + heads it completed, and heads ever
  // published = heads reclaimed + heads outstanding; both with multiplicity.
  ghost predicate Conserved(p: Proto) {
    && p.fetched <= |p.offered|
    && p.popped <= |p.used|
    && multiset(p.offered[..p.fetched]) == multiset(p.held) + multiset(Ids(p.used))
    && multiset(p.offered) == multiset(Ids(p.used[..p.popped])) + multiset(p.chains.Keys)
  }

  ghost predicate Inv(p: Proto) {
    p.size > 0 && Partition(p) && Chains(p.owner, p.chains) && Conserved(p)
  }

  function Init(size: nat): Proto {
    Proto(size, seq(size, i => i), map[], map[], [], 0, {}, [], 0)
  }

  // --- the four steps ---------------------------------------------------------------------

  // Ownership after the chain headed by `h` takes `descs`.
  function Claim(owner: map<nat, nat>, descs: seq<nat>, h: nat): (r: map<nat, nat>)
    ensures r.Keys == owner.Keys + Elems(descs)
    ensures forall d :: d in r ==> r[d] == if d in Elems(descs) then h else owner[d]
  {
    map d | d in owner.Keys + Elems(descs) :: if d in Elems(descs) then h else owner[d]
  }

  function Push(p: Proto, parts: seq<Part>): Proto
    requires 0 < |parts| <= |p.free|
  {
    var descs := p.free[..|parts|];
    p.(free := p.free[|parts|..],
    owner := Claim(p.owner, descs, descs[0]),
    chains := p.chains[descs[0] := Request(descs, parts)],
    offered := p.offered + [descs[0]])
  }

  function Fetch(p: Proto): Proto
    requires p.fetched < |p.offered|
  {
    p.(fetched := p.fetched + 1, held := p.held + {p.offered[p.fetched]})
  }

  function Complete(p: Proto, h: nat, len: nat): Proto
    requires h in p.held
  {
    p.(held := p.held - {h}, used := p.used + [UsedElem(h, len)])
  }

  function Pop(p: Proto): Proto
    requires p.popped < |p.used| && p.used[p.popped].id in p.chains
  {
    var h := p.used[p.popped].id;
    var descs := p.chains[h].descs;
    p.(free := Reverse(descs) + p.free,
    owner := p.owner - Elems(descs),
    chains := p.chains - {h},
    popped := p.popped + 1)
  }

  lemma Counts(p: Proto)
    requires Inv(p)
    ensures p.fetched <= |p.offered| && p.popped <= |p.used|
  {
  }

  // --- each step keeps the invariant ------------------------------------------------------

  lemma InitInv(size: nat)
    requires size > 0
    ensures Inv(Init(size))
  {
    IdentityElems(size);
    assert Ids([]) == [];
  }

  lemma IdentityElems(n: nat)
    ensures Elems(seq(n, i => i)) == UpTo(n)
  {
    var s: seq<nat> := seq(n, i => i);
    forall d | d in UpTo(n) ensures d in Elems(s) {
      assert s[d] == d;
    }
  }

  lemma PushPartition(p: Proto, parts: seq<Part>)
    requires Partition(p) && 0 < |parts| <= |p.free|
    ensures Partition(Push(p, parts))
  {
    SplitsTake(p.free, p.owner.Keys, UpTo(p.size), |parts|);
  }

  lemma FreshHead(p: Proto)
    requires Partition(p) && Chains(p.owner, p.chains) && p.free != []
    ensures p.free[0] !in p.chains
  {
    var h := p.free[0];
    assert h in Elems(p.free);
    assert h in p.chains ==> OwnsChain(p.owner, h, p.chains[h]);
  }

  // Descriptors nobody owned form a new chain; every other chain keeps its own.
  lemma ClaimChains(owner: map<nat, nat>, chains: map<nat, Request>, r: Request)
    requires Chains(owner, chains)
    requires 0 < |r.descs| == |r.parts| && NoDup(r.descs) && Elems(r.descs) !! owner.Keys
    requires r.descs[0] !in chains
    ensures Chains(Claim(owner, r.descs, r.descs[0]), chains[r.descs[0] := r])
  {
    var h := r.descs[0];
    var owner' := Claim(owner, r.descs, h);
    assert forall i :: 0 <= i < |r.descs| ==> r.descs[i] in Elems(r.descs);
    forall g | g in chains && g != h ensures OwnsChain(owner', g, chains[g]) {
      assert OwnsChain(owner, g, chains[g]);
    }
  }

  lemma ReleaseChains(owner: map<nat, nat>, chains: map<nat, Request>, h: nat)
    requires Chains(owner, chains) && h in chains
    ensures Chains(owner - Elems(chains[h].descs), chains - {h})
  {
    var owner' := owner - Elems(chains[h].descs);
    assert OwnsChain(owner, h, chains[h]);
    forall g | g in chains && g != h ensures OwnsChain(owner', g, chains[g]) {
      assert OwnsChain(owner, g, chains[g]);
    }
  }

  lemma PushChains(p: Proto, parts: seq<Part>)
    requires Partition(p) && Chains(p.owner, p.chains) && 0 < |parts| <= |p.free|
    ensures var q := Push(p, parts); Chains(q.owner, q.chains)
  {
    FreshHead(p);
    SplitsTake(p.free, p.owner.Keys, UpTo(p.size), |parts|);
    ClaimChains(p.owner, p.chains, Request(p.free[..|parts|], parts));
  }

  lemma PushConserved(p: Proto, parts: seq<Part>)
    requires Conserved(p) && 0 < |parts| <= |p.free| && p.free[0] !in p.chains
    ensures Conserved(Push(p, parts))
  {
    var q, h := Push(p, parts), p.free[0];
    assert q.offered[..q.fetched] == p.offered[..p.fetched];
    assert q.chains.Keys == p.chains.Keys + {h};
    KeyAdded(p.chains.Keys, h);
    AppendBalanced(p.offered, h, multiset(Ids(p.used[..p.popped])), multiset(p.chains.Keys));
  }

  lemma AppendBalanced(offered: seq<nat>, h: nat, popped: multiset<nat>, keys: multiset<nat>)
    requires multiset(offered) == popped + keys
    ensures multiset(offered + [h]) == popped + (keys + multiset{h})
  {
  }

  lemma KeyAdded(keys: set<nat>, h: nat)
    requires h !in keys
    ensures multiset(keys + {h}) == multiset(keys) + multiset{h}
  {
  }

  lemma PushInv(p: Proto, parts: seq<Part>)
    requires Inv(p) && 0 < |parts| <= |p.free|
    ensures Inv(Push(p, parts))
  {
    PushPartition(p, parts);
    PushChains(p, parts);
    FreshHead(p);
    PushConserved(p, parts);
  }

  lemma IdsConcat(u: seq<UsedElem>, v: seq<UsedElem>)
    ensures Ids(u + v) == Ids(u) + Ids(v)
  {
  }

  // Published heads still waiting + heads with the device + completions not yet reclaimed are
  // exactly the outstanding heads, each once.
  lemma StagesSplit(p: Proto)
    requires Conserved(p)
    ensures multiset(p.offered[p.fetched..]) + multiset(p.held) + multiset(Ids(p.used[p.popped..]))
         == multiset(p.chains.Keys)
  {
    MultisetSplit(p.offered, p.fetched);
    assert p.used == p.used[..p.popped] + p.used[p.popped..];
    IdsConcat(p.used[..p.popped], p.used[p.popped..]);
    StagesArithmetic(multiset(p.offered), multiset(p.offered[..p.fetched]), multiset(p.offered[p.fetched..]),
                     multiset(p.held), multiset(Ids(p.used)), multiset(Ids(p.used[..p.popped])),
                     multiset(Ids(p.used[p.popped..])), multiset(p.chains.Keys));
  }

  lemma StagesArithmetic(offered: multiset<nat>, taken: multiset<nat>, pending: multiset<nat>, held: multiset<nat>,
                         used: multiset<nat>, popped: multiset<nat>, unread: multiset<nat>, keys: multiset<nat>)
    requires offered == taken + pending && taken == held + used
    requires used == popped + unread && offered == popped + keys
    ensures pending + held + unread == keys
  {
    forall x ensures pending[x] + held[x] + unread[x] == keys[x] {
      assert offered[x] == taken[x] + pending[x] == popped[x] + keys[x];
    }
  }

  lemma FetchedOnce(p: Proto)
    requires Conserved(p) && p.fetched < |p.offered|
    ensures p.offered[p.fetched] in p.chains
    ensures p.offered[p.fetched] !in p.held
  {
    StagesSplit(p);
    var pending := p.offered[p.fetched..];
    MultisetMember(pending, 0);
    var h := pending[0];
    assert (multiset(pending) + multiset(p.held) + multiset(Ids(p.used[p.popped..])))[h]
        == multiset(p.chains.Keys)[h];
  }

  lemma FetchInv(p: Proto)
    requires Inv(p) && p.fetched < |p.offered|
    ensures Inv(Fetch(p))
  {
    FetchedOnce(p);
    FetchConserved(p);
  }

  lemma FetchConserved(p: Proto)
    requires Conserved(p) && p.fetched < |p.offered| && p.offered[p.fetched] !in p.held
    ensures Conserved(Fetch(p))
  {
    var q, h := Fetch(p), p.offered[p.fetched];
    assert q.offered[..q.fetched] == p.offered[..p.fetched] + [h];
    assert multiset(q.held) == multiset(p.held) + multiset{h};
  }

  lemma CompleteConserved(p: Proto, h: nat, len: nat)
    requires Conserved(p) && h in p.held
    ensures Conserved(Complete(p, h, len))
  {
    var q := Complete(p, h, len);
    IdsConcat(p.used, [UsedElem(h, len)]);
    assert Ids([UsedElem(h, len)]) == [h];
    assert q.used[..q.popped] == p.used[..p.popped];
    assert multiset(p.held) == multiset(q.held) + multiset{h};
  }

  lemma CompleteInv(p: Proto, h: nat, len: nat)
    requires Inv(p) && h in p.held
    ensures Inv(Complete(p, h, len))
  {
    CompleteConserved(p, h, len);
  }

  lemma PopEnabled(p: Proto)
    requires Conserved(p) && p.popped < |p.used|
    ensures p.used[p.popped].id in p.chains
  {
    StagesSplit(p);
    var unread := Ids(p.used[p.popped..]);
    MultisetMember(unread, 0);
    var h := unread[0];
    assert (multiset(p.offered[p.fetched..]) + multiset(p.held) + multiset(unread))[h]
        == multiset(p.chains.Keys)[h];
  }

  lemma PopPartition(p: Proto)
    requires Partition(p) && Chains(p.owner, p.chains) && p.popped < |p.used| && p.used[p.popped].id in p.chains
    ensures Partition(Pop(p))
  {
    var h := p.used[p.popped].id;
    var descs := p.chains[h].descs;
    assert OwnsChain(p.owner, h, p.chains[h]);
    ReverseFacts(descs);
    assert Elems(descs) <= p.owner.Keys;
    SplitsReturn(p.free, p.owner.Keys, UpTo(p.size), Reverse(descs));
    assert Pop(p).owner.Keys == p.owner.Keys - Elems(descs);
  }

  lemma PopConserved(p: Proto)
    requires Conserved(p) && p.popped < |p.used| && p.used[p.popped].id in p.chains
    ensures Conserved(Pop(p))
  {
    var q, e := Pop(p), p.used[p.popped];
    assert q.used[..q.popped] == p.used[..p.popped] + [e];
    IdsConcat(p.used[..p.popped], [e]);
    assert Ids([e]) == [e.id];
    assert p.chains.Keys == q.chains.Keys + {e.id};
  }

  lemma PopInv(p: Proto)
    requires Inv(p) && p.popped < |p.used|
    ensures p.used[p.popped].id in p.chains
    ensures Inv(Pop(p))
  {
    PopEnabled(p);
    PopPartition(p);
    ReleaseChains(p.owner, p.chains, p.used[p.popped].id);
    PopConserved(p);
  }

  // --- bounds the rings rely on -----------------------------------------------------------

  // Everything outstanding, in whatever stage, leaves room for every free descriptor; in
  // particular neither ring ever has to hold more than `size` entries.
  lemma RingBounds(p: Proto)
    requires Inv(p)
    ensures (|p.offered| - p.fetched) + |p.held| + (|p.used| - p.popped) == |p.chains|
    ensures |p.chains| + |p.free| <= p.size
  {
    StagesSplit(p);
    assert |multiset(p.offered[p.fetched..])| == |p.offered| - p.fetched;
    assert |multiset(Ids(p.used[p.popped..]))| == |p.used| - p.popped;
    assert |multiset(p.chains.Keys)| == |p.chains|;
    forall h | h in p.chains.Keys ensures h in p.owner.Keys {
      assert OwnsChain(p.owner, h, p.chains[h]);
      assert p.chains[h].descs[0] in p.owner;
    }
    SubsetSize(p.chains.Keys, p.owner.Keys);
    SetOfNoDup(p.free);
    UpToSize(p.size);
    assert |Elems(p.free) + p.owner.Keys| == |p.free| + |p.owner.Keys|;
  }

  // The same bounds per ring.
  lemma RingRoom(p: Proto)
    requires Inv(p)
    ensures p.fetched <= |p.offered| && p.popped <= |p.used|
    ensures |p.offered| - p.fetched + |p.free| <= p.size
    ensures |p.used| - p.popped <= p.size
    ensures p.held != {} ==> |p.used| - p.popped < p.size
  {
    RingBounds(p);
    assert p.held != {} ==> |p.held| >= 1;
  }

  // --- whole runs -------------------------------------------------------------------------

  datatype Event = EPush(parts: seq<Part>) | EFetch | EComplete(head: nat, len: nat) | EPop

  ghost predicate Enabled(p: Proto, e: Event) {
    match e
    case EPush(parts) => 0 < |parts| <= |p.free|
    case EFetch => p.fetched < |p.offered|
    case EComplete(h, _) => h in p.held
    case EPop => p.popped < |p.used| && p.used[p.popped].id in p.chains
  }

  // A disabled event leaves the state alone: the driver sees a full queue or an empty ring.
  ghost function Step(p: Proto, e: Event): Proto {
    if !Enabled(p, e) then p else
    match e
    case EPush(parts) => Push(p, parts)
    case EFetch => Fetch(p)
    case EComplete(h, len) => Complete(p, h, len)
    case EPop => Pop(p)
  }

  ghost function Run(p: Proto, es: seq<Event>): Proto
    decreases |es|
  {
    if es == [] then p else Run(Step(p, es[0]), es[1..])
  }

  lemma StepInv(p: Proto, e: Event)
    requires Inv(p)
    ensures Inv(Step(p, e)) && Step(p, e).size == p.size
  {
    if Enabled(p, e) {
      match e
      case EPush(parts) => PushInv(p, parts);
      case EFetch => FetchInv(p);
      case EComplete(h, len) => CompleteInv(p, h, len);
      case EPop => PopInv(p);
    }
  }

  lemma {:induction false} RunInv(p: Proto, es: seq<Event>)
    requires Inv(p)
    ensures Inv(Run(p, es)) && Run(p, es).size == p.size
    decreases |es|
  {
    if es != [] {
      StepInv(p, es[0]);
      RunInv(Step(p, es[0]), es[1..]);
    }
  }

  // In every run, whatever the device's completion order: free descriptors and chains partition
  // 0..size, heads published are those reclaimed plus those outstanding, and once nothing is
  // outstanding every descriptor is free again.
  lemma EveryRunReturnsDescriptors(size: nat, es: seq<Event>)
    requires size > 0
    ensures var p := Run(Init(size), es);
      && Partition(p) && Chains(p.owner, p.chains)
      && |p.offered| == p.popped + |p.chains|
      && (p.popped == |p.offered| ==> |p.free| == size && Elems(p.free) == UpTo(size))
  {
    InitInv(size);
    RunInv(Init(size), es);
    var p := Run(Init(size), es);
    assert |multiset(p.offered)| == |Ids(p.used[..p.popped])| + |p.chains.Keys|;
    if p.popped == |p.offered| {
      assert p.chains.Keys == {};
      assert p.owner.Keys == {};
      SetOfNoDup(p.free);
      UpToSize(size);
    }
  }
}
