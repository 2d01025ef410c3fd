/**
 The intrusive list of the LinuxKPI shim and the balloon pages threaded on it: every list operation
 keeps a circular doubly linked list that stands for a sequence, balloon pages come out in the order
 they went in, and page frames are neither lost nor handed out twice.
 */
module Balloon {
  import opened SeqFacts
  import F = Frames

  class ListHead {
    var next: ListHead?
    var prev: ListHead?
    // The page this node is embedded in, at offset 0; null for a list's own head.
    var page: Page?

    constructor ()
      ensures next == null && prev == null && page == null
    {
      next, prev, page := null, null, null;
    }
  }

  // Consecutive nodes point at each other.
  ghost predicate Linked(path: seq<ListHead>)
    reads path
  {
    forall i :: 0 <= i < |path| - 1 ==> path[i].next == path[i + 1] && path[i + 1].prev == path[i]
  }

  // `all` is a ring in both directions.
  ghost predicate Ring(all: seq<ListHead>)
    reads all
  {
    all != [] && NoDup(all) && Linked(all + [all[0]])
  }

  lemma LinkedJoin(a: seq<ListHead>, b: seq<ListHead>)
    requires Linked(a) && Linked(b) && a != [] && b != []
    requires a[|a| - 1].next == b[0] && b[0].prev == a[|a| - 1]
    ensures Linked(a + b)
  {
    var path := a + b;
    forall i | 0 <= i < |path| - 1 ensures path[i].next == path[i + 1] && path[i + 1].prev == path[i] {
      if i < |a| - 1 {
        assert path[i] == a[i] && path[i + 1] == a[i + 1];
      } else if i > |a| - 1 {
        assert path[i] == b[i - |a|] && path[i + 1] == b[i - |a| + 1];
      }
    }
  }

  // The list at `head` holds `nodes`.
  ghost predicate IsList(head: ListHead, nodes: seq<ListHead>)
    reads head, nodes
  {
    Ring([head] + nodes)
  }

  method InitListHead(list: ListHead?)
    modifies list
    ensures list != null ==> IsList(list, []) && list.page == old(list.page)
  {
    if list == null {
      return;
    }
    list.next := list;
    list.prev := list;
  }

  // Link `node` between the i-th node and its successor.
  method ListInsert(node: ListHead, prev: ListHead, next: ListHead, ghost all: seq<ListHead>, ghost i: nat)
    requires Ring(all) && node !in all && i < |all| && prev == all[i] && next == (all + [all[0]])[i + 1]
    modifies node`next, node`prev, prev`next, next`prev
    ensures Ring(all[..i + 1] + [node] + all[i + 1..])
  {
    ghost var closed := all + [all[0]];
    ghost var front, back := closed[..i + 1], closed[i + 1..];
    next.prev := node;
    node.next := next;
    node.prev := prev;
    prev.next := node;
    forall k | 0 <= k < |front| - 1 ensures front[k].next == front[k + 1] && front[k + 1].prev == front[k] {
      assert front[k] == all[k] == closed[k] && front[k + 1] == all[k + 1] == closed[k + 1];
    }
    forall k | 0 <= k < |back| - 1 ensures back[k].next == back[k + 1] && back[k + 1].prev == back[k] {
      var j := i + 1 + k;
      assert back[k] == closed[j] == all[j] && back[k + 1] == closed[j + 1];
    }
    LinkedJoin(front, [node]);
    LinkedJoin(front + [node], back);
    ghost var r := all[..i + 1] + [node] + all[i + 1..];
    assert front + [node] + back == r + [r[0]];
  }

  lemma Neighbours(all: seq<ListHead>, i: nat)
    requires Ring(all) && 0 < i < |all|
    ensures all[i].prev == all[i - 1] != all[i] && all[i].next == (all + [all[0]])[i + 1] != all[i]
  {
    var closed := all + [all[0]];
    assert closed[i - 1].next == closed[i] && closed[i].prev == closed[i - 1];
    assert closed[i].next == closed[i + 1];
  }

  // Link a node's neighbours to each other and the node to itself.
  method ListRemove(entry: ListHead, ghost all: seq<ListHead>, ghost i: nat)
    requires Ring(all) && 0 < i < |all| && entry == all[i]
    modifies all
    ensures Ring(all[..i] + all[i + 1..]) && IsList(entry, [])
    ensures forall x :: x in all ==> x.page == old(x.page)
  {
    ghost var closed := all + [all[0]];
    ghost var front, back := closed[..i], closed[i + 1..];
    var prev := entry.prev;
    var next := entry.next;
    Neighbours(all, i);
    next.prev := prev;
    prev.next := next;
    entry.next := entry;
    entry.prev := entry;
    forall k | 0 <= k < |front| - 1 ensures front[k].next == front[k + 1] && front[k + 1].prev == front[k] {
      assert front[k] == all[k] == closed[k] && front[k + 1] == all[k + 1] == closed[k + 1];
      assert all[k] != prev && all[k] != entry && all[k + 1] != entry && all[k + 1] != next;
    }
    forall k | 0 <= k < |back| - 1 ensures back[k].next == back[k + 1] && back[k + 1].prev == back[k] {
      var j := i + 1 + k;
      assert back[k] == closed[j] == all[j] && back[k + 1] == closed[j + 1];
      assert all[j] != prev && all[j] != entry && closed[j + 1] != entry && closed[j + 1] != next;
    }
    LinkedJoin(front, back);
    ghost var r := all[..i] + all[i + 1..];
    assert front + back == r + [r[0]];
  }

  // Insert after the head: at the front.
  method ListAdd(node: ListHead?, head: ListHead?, ghost nodes: seq<ListHead>)
    requires node != null && head != null ==> IsList(head, nodes) && node != head && node !in nodes
    modifies node, head, nodes
    ensures node != null && head != null ==> IsList(head, [node] + nodes)
    ensures node != null ==> node.page == old(node.page)
    ensures forall x :: x in nodes ==> x.page == old(x.page)
  {
    if node == null || head == null {
      return;
    }
    ghost var all := [head] + nodes;
    assert head == (all + [head])[0] && head.next == (all + [head])[1];
    ListInsert(node, head, head.next, all, 0);
    assert all[..1] + [node] + all[1..] == [head] + ([node] + nodes);
  }

  // Insert before the head: at the tail.
  method ListAddTail(node: ListHead?, head: ListHead?, ghost nodes: seq<ListHead>)
    requires node != null && head != null ==> IsList(head, nodes) && node != head && node !in nodes
    modifies node, head, nodes
    ensures node != null && head != null ==> IsList(head, nodes + [node])
    ensures node != null ==> node.page == old(node.page)
    ensures forall x :: x in nodes ==> x.page == old(x.page)
  {
    if node == null || head == null {
      return;
    }
    ghost var all := [head] + nodes;
    ghost var last := |all| - 1;
    assert (all + [head])[last + 1] == head && head.prev == (all + [head])[last];
    ListInsert(node, head.prev, head, all, last);
    assert all[..last + 1] + [node] + all[last + 1..] == [head] + (nodes + [node]);
  }

  // Unlink the k-th node and leave it linked to itself.
  method ListDel(entry: ListHead?, ghost head: ListHead, ghost nodes: seq<ListHead>, ghost k: nat)
    requires entry != null ==> IsList(head, nodes) && k < |nodes| && nodes[k] == entry
    modifies entry, head, nodes
    ensures entry != null ==> IsList(head, nodes[..k] + nodes[k + 1..]) && IsList(entry, [])
    ensures entry != null ==> entry.page == old(entry.page)
    ensures forall x :: x in nodes ==> x.page == old(x.page)
  {
    if entry == null {
      return;
    }
    ghost var all := [head] + nodes;
    assert all[k + 1] == entry;
    ListRemove(entry, all, k + 1);
    assert all[..k + 1] + all[k + 2..] == [head] + (nodes[..k] + nodes[k + 1..]);
  }

  lemma ListFirst(head: ListHead, nodes: seq<ListHead>)
    requires IsList(head, nodes)
    ensures nodes == [] ==> head.next == head
    ensures nodes != [] ==> head.next == nodes[0] && nodes[0] != head
  {
    var all := [head] + nodes;
    assert head == (all + [head])[0] && head.next == (all + [head])[1];
    assert nodes != [] ==> all[1] == nodes[0] && all[0] == head;
  }

  method ListEmpty(head: ListHead?, ghost nodes: seq<ListHead>) returns (r: int)
    requires head != null ==> IsList(head, nodes)
    ensures head == null ==> r == 1
    ensures head != null ==> r == (if nodes == [] then 1 else 0)
  {
    if head == null {
      return 1;
    }
    ListFirst(head, nodes);
    r := if head.next == head then 1 else 0;
  }

  // --- pages ------------------------------------------------------------------------------

  class Page {
    const lru: ListHead
    const phys: nat
    var refcount: int

    constructor (phys: nat)
      ensures this.phys == phys && refcount == 1
      ensures fresh(lru) && lru.page == this && IsList(lru, [])
    {
      var l := new ListHead();
      lru := l;
      this.phys := phys;
      refcount := 1;
      new;
      InitListHead(lru);
      lru.page := this;
    }
  }

  // `alloc_pages(_, 0)`.  The bridge turns "no frame" into address 0, so a pooled frame 0 would be
  // taken for exhaustion and lost; otherwise failure gives the frame back.
  method AllocPages(frames: F.FrameAllocator, kmallocOk: bool) returns (r: Page?)
    requires frames.Valid()
    modifies frames`free, frames`handed
    ensures frames.Valid() && frames.totalAdded == old(frames.totalAdded)
    ensures r != null <==> old(frames.free) != [] && old(frames.free)[|old(frames.free)| - 1] != 0 && kmallocOk
    ensures r != null ==>
      && fresh(r) && fresh(r.lru) && r.refcount == 1 && r.lru.page == r && IsList(r.lru, [])
      && old(frames.free) == frames.free + [r.phys] && r.phys !in old(frames.handed)
      && frames.handed == old(frames.handed) + {r.phys}
    ensures r == null ==>
      (frames.free == old(frames.free) && frames.handed == old(frames.handed)
       <==> old(frames.free) == [] || old(frames.free)[|old(frames.free)| - 1] != 0)
  {
    var f := frames.AllocFrame();
    var phys := if f.None? then 0 else f.value;
    if phys == 0 {
      return null;
    }
    if !kmallocOk {
      frames.FreeFrame(phys);
      return null;
    }
    r := new Page(phys);
  }

  datatype PutResult = StillReferenced | Freed | Underflow

  method PutPage(page: Page?, frames: F.FrameAllocator) returns (r: PutResult)
    requires frames.Valid() && (page != null && page.refcount == 1 ==> page.phys in frames.handed)
    modifies page, frames`free, frames`handed
    ensures frames.Valid() && frames.totalAdded == old(frames.totalAdded)
    ensures page != null ==> page.refcount == old(page.refcount) - 1
    ensures r.Freed? <==> page != null && old(page.refcount) == 1
    ensures r.Underflow? <==> page != null && old(page.refcount) < 1
    ensures r.Freed? ==>
      frames.free == old(frames.free) + [page.phys] && frames.handed == old(frames.handed) - {page.phys}
    ensures !r.Freed? ==> frames.free == old(frames.free) && frames.handed == old(frames.handed)
  {
    if page == null {
      return StillReferenced;
    }
    page.refcount := page.refcount - 1;
    if page.refcount > 0 {
      return StillReferenced;
    }
    if page.refcount < 0 {
      return Underflow;
    }
    frames.FreeFrame(page.phys);
    return Freed;
  }

  // --- the balloon device -----------------------------------------------------------------

  ghost function Nodes(pages: seq<Page>): (r: seq<ListHead>)
    ensures |r| == |pages| && forall i :: 0 <= i < |pages| ==> r[i] == pages[i].lru
  {
    if pages == [] then [] else [pages[0].lru] + Nodes(pages[1..])
  }

  class BalloonDev {
    const pages: ListHead
    // The enqueued pages, oldest first.
    ghost var list: seq<Page>

    ghost predicate Valid()
      reads this, pages, Nodes(list)
    {
      && IsList(pages, Nodes(list))
      && (forall i :: 0 <= i < |list| ==> list[i].lru.page == list[i])
    }

    constructor ()
      ensures Valid() && list == [] && fresh(pages)
    {
      var l := new ListHead();
      pages := l;
      list := [];
      new;
      InitListHead(pages);
      assert Nodes([]) == [];
    }

    method Enqueue(page: Page)
      requires Valid() && page.lru != pages && page.lru !in Nodes(list) && page.lru.page == page
      modifies this`list, pages, page.lru, Nodes(list)
      ensures Valid() && list == old(list) + [page]
    {
      ListAddTail(page.lru, pages, Nodes(list));
      ghost var before := list;
      list := list + [page];
      assert Nodes(list) == Nodes(before) + [page.lru];
      forall i | 0 <= i < |list| ensures list[i].lru.page == list[i] {
        if i < |before| {
          assert Nodes(before)[i] == list[i].lru && list[i].lru in Nodes(before);
        }
      }
    }

    // First in, first out; null exactly when there is none.
    method Dequeue() returns (r: Page?)
      requires Valid()
      modifies this`list, pages, Nodes(list)
      ensures Valid()
      ensures r == null <==> old(list) == []
      ensures r == null ==> list == old(list)
      ensures r != null ==> r == old(list)[0] && list == old(list)[1..] && IsList(r.lru, [])
    {
      hide IsList, NoDup, Nodes;
      ghost var nodes := Nodes(list);
      ListFirst(pages, nodes);
      var first := pages.next;
      if first == null || first == pages {
        return null;
      }
      ghost var before := list;
      assert first == nodes[0];
      ListDel(first, pages, nodes, 0);
      assert nodes[..0] + nodes[1..] == nodes[1..];
      list := list[1..];
      assert Nodes(list) == nodes[1..];
      forall i | 0 <= i < |list| ensures list[i].lru.page == list[i] {
        var x := nodes[i + 1];
        assert list[i] == before[i + 1] && x == before[i + 1].lru && x in nodes;
      }
      assert first in nodes && before[0].lru == first;
      return first.page;
    }
  }

  // --- inflate and deflate ----------------------------------------------------------------

  // The frames behind a list of pages.
  ghost function Phys(pages: seq<Page>): (r: seq<nat>)
    ensures |r| == |pages| && forall i :: 0 <= i < |pages| ==> r[i] == pages[i].phys
  {
    if pages == [] then [] else [pages[0].phys] + Phys(pages[1..])
  }

  // A driver that takes every page from the pool into the balloon and gives every page back.
  class BalloonDriver {
    const frames: F.FrameAllocator
    const dev: BalloonDev

    ghost predicate Valid()
      reads this, frames, dev, dev.pages, Nodes(dev.list), dev.list
    {
      && frames.Valid() && 0 !in frames.free
      && dev.Valid()
      && NoDup(Phys(dev.list)) && Elems(Phys(dev.list)) <= frames.handed && 0 !in Phys(dev.list)
      && (forall i :: 0 <= i < |dev.list| ==> dev.list[i].refcount == 1)
    }

    // Pooled frames and frames of live pages, together.
    ghost function Owned(): set<nat>
      reads frames, dev
    {
      Elems(frames.free) + Elems(Phys(dev.list))
    }

    // Frames out to anybody else.
    ghost function Others(): set<nat>
      reads frames, dev
    {
      frames.handed - Elems(Phys(dev.list))
    }

    constructor (frames: F.FrameAllocator)
      requires frames.Valid() && 0 !in frames.free
      ensures Valid() && this.frames == frames && fresh(dev) && fresh(dev.pages) && dev.list == []
    {
      this.frames := frames;
      dev := new BalloonDev();
    }

    // Whatever fails, no frame is lost; a page that is made goes to the tail of the balloon.
    method Inflate(kmallocOk: bool) returns (r: Page?)
      requires Valid()
      modifies frames`free, frames`handed, dev`list, dev.pages, Nodes(dev.list)
      ensures Valid() && Owned() == old(Owned()) && Others() == old(Others())
      ensures frames.totalAdded == old(frames.totalAdded)
      ensures r != null <==> old(frames.free) != [] && kmallocOk
      ensures r == null ==> dev.list == old(dev.list) && frames.free == old(frames.free)
      ensures r != null ==> fresh(r) && fresh(r.lru) && dev.list == old(dev.list) + [r]
    {
      hide IsList, NoDup, Elems, Nodes, Phys;
      ghost var list0, free0 := dev.list, frames.free;
      if frames.free != [] {
        assert free0[|free0| - 1] in free0;
      }
      r := AllocPages(frames, kmallocOk);
      if r == null {
        return;
      }
      dev.Enqueue(r);
      PhysAppend(list0, r);
      TakenFrame(free0, frames.free, r.phys, Phys(list0));
    }

    // The oldest page leaves the balloon and its frame goes back to the pool.
    method Deflate() returns (freed: bool)
      requires Valid()
      modifies frames`free, frames`handed, dev`list, dev.pages, Nodes(dev.list), dev.list
      ensures Valid() && Owned() == old(Owned()) && Others() == old(Others())
      ensures frames.totalAdded == old(frames.totalAdded)
      ensures freed <==> old(dev.list) != []
      ensures freed ==> dev.list == old(dev.list)[1..] && frames.free == old(frames.free) + [old(dev.list)[0].phys]
    {
      hide IsList, NoDup, Elems, Nodes, Phys;
      ghost var list0, free0 := dev.list, frames.free;
      var page := dev.Dequeue();
      if page == null {
        return false;
      }
      PhysFirst(list0);
      ReturnedFrame(free0, page.phys, Phys(list0));
      assert forall i :: 0 <= i < |dev.list| ==> dev.list[i].phys == Phys(dev.list)[i] && dev.list[i] != page;
      var r := PutPage(page, frames);
      return true;
    }
  }

  lemma PhysAppend(pages: seq<Page>, p: Page)
    ensures Phys(pages + [p]) == Phys(pages) + [p.phys]
  {
  }

  lemma PhysFirst(pages: seq<Page>)
    requires pages != []
    ensures Phys(pages) == [pages[0].phys] + Phys(pages[1..])
  {
  }

  lemma TakenFrame(before: seq<nat>, after: seq<nat>, f: nat, live: seq<nat>)
    requires before == after + [f] && NoDup(live) && f !in Elems(live) && 0 !in before && 0 !in live
    ensures NoDup(live + [f]) && Elems(live + [f]) == Elems(live) + {f} && 0 !in after && 0 !in live + [f]
    ensures Elems(after) + Elems(live + [f]) == Elems(before) + Elems(live)
  {
    assert Elems([f]) == {f};
    NoDupJoin(live, [f]);
    ElemsConcat(after, [f]);
    assert forall i :: 0 <= i < |after| ==> after[i] == before[i];
  }

  lemma ReturnedFrame(free: seq<nat>, f: nat, live: seq<nat>)
    requires live != [] && live[0] == f && NoDup(live) && 0 !in free && 0 !in live
    ensures NoDup(live[1..]) && Elems(live[1..]) == Elems(live) - {f} && f in Elems(live) && f !in live[1..]
    ensures 0 !in free + [f] && 0 !in live[1..]
    ensures Elems(free + [f]) + Elems(live[1..]) == Elems(free) + Elems(live)
  {
    assert live == [f] + live[1..];
    assert forall i :: 0 <= i < |live[1..]| ==> live[1..][i] == live[i + 1];
    ElemsSplit(live, 1);
    assert live[..1] == [f];
    assert Elems([f]) == {f};
    ElemsConcat(free, [f]);
  }
}
