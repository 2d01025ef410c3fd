/**
 Page tables in physical memory: the four-level walk (section 4.5 of Intel SDM Vol. 3A) and the
 deep clone that gives the kernel its own copy of every table the bootloader built.
 */
module Paging {
  import opened SeqFacts
  import F = Frames

  const ENTRIES: nat := 512

  // Page-table entry flags; `rest` is every bit not named here.
  datatype Flags = Flags(present: bool, writable: bool, noCache: bool, huge: bool, rest: nat)

  datatype Entry = Entry(addr: nat, flags: Flags)

  const ZERO: Entry := Entry(0, Flags(false, false, false, false, 0))

  type Mem = map<nat, seq<Entry>>

  // The clone tests for an all-zero entry, not for the present bit.
  predicate IsUnused(e: Entry) {
    e == ZERO
  }

  predicate IsLeaf(e: Entry, level: nat) {
    level <= 1 || e.flags.huge
  }

  // Every table reached from entry e, found in a table at `level`, is present and lies in t.
  ghost predicate ClosedAt(mem: Mem, t: set<nat>, e: Entry, level: nat)
    decreases level, 0
  {
    IsUnused(e) || IsLeaf(e, level) || ClosedTable(mem, t, e.addr, level - 1)
  }

  ghost predicate ClosedTable(mem: Mem, t: set<nat>, f: nat, level: nat)
    decreases level, 2
  {
    && f in t && f in mem && |mem[f]| == ENTRIES
    && ClosedUpTo(mem, t, mem[f], level, ENTRIES)
  }

  ghost predicate ClosedUpTo(mem: Mem, t: set<nat>, table: seq<Entry>, level: nat, n: nat)
    requires n <= |table|
    decreases level, 1
  {
    forall j :: 0 <= j < n ==> ClosedAt(mem, t, table[j], level)
  }

  // What a table means, with the frames its sub-tables happen to occupy forgotten.
  datatype Node = Empty | Leaf(entry: Entry) | Sub(flags: Flags, kids: seq<Node>)

  ghost function NodeAt(mem: Mem, t: set<nat>, e: Entry, level: nat): Node
    requires ClosedAt(mem, t, e, level)
    decreases level, 0
  {
    if IsUnused(e) then Empty
    else if IsLeaf(e, level) then Leaf(e)
    else
      assert ClosedTable(mem, t, e.addr, level - 1);
      Sub(e.flags, Nodes(mem, t, mem[e.addr], level - 1, ENTRIES))
  }

  ghost function Nodes(mem: Mem, t: set<nat>, table: seq<Entry>, level: nat, n: nat): (r: seq<Node>)
    requires n <= |table| && ClosedUpTo(mem, t, table, level, n)
    ensures |r| == n
    decreases level, 1, n
  {
    if n == 0 then [] else Nodes(mem, t, table, level, n - 1) + [NodeAt(mem, t, table[n - 1], level)]
  }

  // The frames of the sub-tables below an entry, and below the first n entries of a table, in the
  // order the clone visits them.
  ghost function TablesAt(mem: Mem, t: set<nat>, e: Entry, level: nat): seq<nat>
    requires ClosedAt(mem, t, e, level)
    decreases level, 0
  {
    if IsUnused(e) || IsLeaf(e, level) then []
    else
      assert ClosedTable(mem, t, e.addr, level - 1);
      [e.addr] + TablesBelow(mem, t, mem[e.addr], level - 1, ENTRIES)
  }

  ghost function TablesBelow(mem: Mem, t: set<nat>, table: seq<Entry>, level: nat, n: nat): seq<nat>
    requires n <= |table| && ClosedUpTo(mem, t, table, level, n)
    decreases level, 1, n
  {
    if n == 0 then []
    else TablesBelow(mem, t, table, level, n - 1) + TablesAt(mem, t, table[n - 1], level)
  }

  // --- the hardware walk ------------------------------------------------------------------

  datatype Translation = Fault | Mapped(entry: Entry, level: nat, parents: seq<Flags>)

  // Resolve a virtual address, given as one table index per level from the top.
  ghost function Walk(mem: Mem, t: set<nat>, f: nat, path: seq<nat>): Translation
    requires 1 <= |path| <= 4 && (forall i :: 0 <= i < |path| ==> path[i] < ENTRIES)
    requires ClosedTable(mem, t, f, |path|)
    decreases |path|
  {
    var e, level := mem[f][path[0]], |path|;
    assert ClosedUpTo(mem, t, mem[f], level, ENTRIES);
    assert ClosedAt(mem, t, e, level);
    if !e.flags.present then Fault
    else if level == 1 then Mapped(e, level, [])
    else if e.flags.huge then (if level == 4 then Fault else Mapped(e, level, []))
    else
      match Walk(mem, t, e.addr, path[1..])
      case Fault => Fault
      case Mapped(leaf, l, parents) => Mapped(leaf, l, [e.flags] + parents)
  }

  // The same walk over meanings alone.
  ghost function WalkNodes(kids: seq<Node>, path: seq<nat>): Translation
    requires 1 <= |path| <= 4 && (forall i :: 0 <= i < |path| ==> path[i] < ENTRIES)
    decreases |path|
  {
    if |kids| != ENTRIES then Fault
    else
      match kids[path[0]]
      case Empty => Fault
      case Leaf(e) =>
        if !e.flags.present || (|path| == 4 && e.flags.huge) then Fault else Mapped(e, |path|, [])
      case Sub(flags, sub) =>
        if !flags.present || |path| == 1 then Fault
        else
          match WalkNodes(sub, path[1..])
          case Fault => Fault
          case Mapped(leaf, l, parents) => Mapped(leaf, l, [flags] + parents)
  }

  lemma NodesAt(mem: Mem, t: set<nat>, table: seq<Entry>, level: nat, n: nat, j: nat)
    requires j < n <= |table| && ClosedUpTo(mem, t, table, level, n)
    ensures ClosedAt(mem, t, table[j], level)
    ensures Nodes(mem, t, table, level, n)[j] == NodeAt(mem, t, table[j], level)
    decreases n
  {
    if j < n - 1 {
      NodesAt(mem, t, table, level, n - 1, j);
    }
  }

  // Translation depends only on a table's meaning.
  lemma {:induction false} WalkByMeaning(mem: Mem, t: set<nat>, f: nat, path: seq<nat>)
    requires 1 <= |path| <= 4 && (forall i :: 0 <= i < |path| ==> path[i] < ENTRIES)
    requires ClosedTable(mem, t, f, |path|)
    ensures Walk(mem, t, f, path) == WalkNodes(Nodes(mem, t, mem[f], |path|, ENTRIES), path)
    decreases |path|
  {
    var e, level := mem[f][path[0]], |path|;
    NodesAt(mem, t, mem[f], level, ENTRIES, path[0]);
    if e.flags.present && !IsLeaf(e, level) {
      WalkByMeaning(mem, t, e.addr, path[1..]);
    }
  }

  // --- framing ----------------------------------------------------------------------------

  ghost predicate AgreeOn(mem: Mem, mem': Mem, t: set<nat>) {
    forall f :: f in t && f in mem ==> f in mem' && mem'[f] == mem[f]
  }

  // A tree keeps its shape, meaning and frames while the frames it uses keep their contents.
  lemma {:induction false} FrameAt(mem: Mem, mem': Mem, t: set<nat>, t': set<nat>, e: Entry, level: nat)
    requires ClosedAt(mem, t, e, level) && AgreeOn(mem, mem', t) && t <= t'
    ensures ClosedAt(mem', t', e, level)
    ensures NodeAt(mem', t', e, level) == NodeAt(mem, t, e, level)
    ensures TablesAt(mem', t', e, level) == TablesAt(mem, t, e, level)
    decreases level, 0, 0
  {
    if !IsUnused(e) && !IsLeaf(e, level) {
      FrameUpTo(mem, mem', t, t', mem[e.addr], level - 1, ENTRIES);
    }
  }

  lemma {:induction false} FrameUpTo(mem: Mem, mem': Mem, t: set<nat>, t': set<nat>, table: seq<Entry>, level: nat,
                                     n: nat)
    requires n <= |table| && ClosedUpTo(mem, t, table, level, n) && AgreeOn(mem, mem', t) && t <= t'
    ensures ClosedUpTo(mem', t', table, level, n)
    ensures Nodes(mem', t', table, level, n) == Nodes(mem, t, table, level, n)
    ensures TablesBelow(mem', t', table, level, n) == TablesBelow(mem, t, table, level, n)
    decreases level, 1, n
  {
    forall j | 0 <= j < n ensures ClosedAt(mem', t', table[j], level) {
      FrameAt(mem, mem', t, t', table[j], level);
    }
    if n > 0 {
      FrameUpTo(mem, mem', t, t', table, level, n - 1);
      FrameAt(mem, mem', t, t', table[n - 1], level);
    }
  }

  lemma FrameTable(mem: Mem, mem': Mem, t: set<nat>, t': set<nat>, f: nat, level: nat)
    requires ClosedTable(mem, t, f, level) && AgreeOn(mem, mem', t) && t <= t'
    ensures ClosedTable(mem', t', f, level) && mem'[f] == mem[f]
    ensures Nodes(mem', t', mem'[f], level, ENTRIES) == Nodes(mem, t, mem[f], level, ENTRIES)
    ensures TablesBelow(mem', t', mem'[f], level, ENTRIES) == TablesBelow(mem, t, mem[f], level, ENTRIES)
  {
    FrameUpTo(mem, mem', t, t', mem[f], level, ENTRIES);
  }

  // --- the clone --------------------------------------------------------------------------

  ghost predicate SameOutside(mem: Mem, mem': Mem, touched: set<nat>) {
    forall f :: f in mem && f !in touched ==> f in mem' && mem'[f] == mem[f]
  }

  // All frames taken but the new root.
  ghost function Kids(taken: seq<nat>): set<nat>
    requires taken != []
  {
    Elems(taken[..|taken| - 1])
  }

  // The first i entries of the new root are done: they mean what the source's do, through frames
  // taken from the pool, each used once and in the order they were taken.
  ghost predicate Cloned(mem0: Mem, s: set<nat>, src: nat, mem: Mem, root: nat, taken: seq<nat>, level: nat, i: nat) {
    && i <= ENTRIES
    && ClosedTable(mem0, s, src, level)
    && NoDup(taken) && 0 !in taken && s !! Elems(taken) && taken != [] && taken[|taken| - 1] == root
    && SameOutside(mem0, mem, Elems(taken))
    && root in mem && |mem[root]| == ENTRIES && (forall j :: i <= j < ENTRIES ==> mem[root][j] == ZERO)
    && SameMeaning(mem0, s, mem0[src], mem, mem[root], root, taken, level, i)
  }

  ghost predicate SameMeaning(mem0: Mem, s: set<nat>, source: seq<Entry>, mem: Mem, table: seq<Entry>, root: nat,
                              taken: seq<nat>, level: nat, i: nat)
    requires i <= |source| && i <= |table| && taken != []
  {
    && ClosedUpTo(mem0, s, source, level, i)
    && ClosedUpTo(mem, Kids(taken), table, level, i)
    && Nodes(mem, Kids(taken), table, level, i) == Nodes(mem0, s, source, level, i)
    && Reverse(taken) == [root] + TablesBelow(mem, Kids(taken), table, level, i)
    && |taken| == 1 + |TablesBelow(mem0, s, source, level, i)|
  }

  // One more entry with the same meaning, through the frames `sub`.
  lemma ExtendMeaning(mem0: Mem, s: set<nat>, source: seq<Entry>, mem: Mem, table: seq<Entry>, root: nat,
                      taken: seq<nat>, sub: seq<nat>, level: nat, i: nat)
    requires i < |source| && i < |table| && taken != []
    requires ClosedUpTo(mem0, s, source, level, i + 1)
    requires ClosedUpTo(mem, Kids(sub + taken), table, level, i)
    requires Nodes(mem, Kids(sub + taken), table, level, i) == Nodes(mem0, s, source, level, i)
    requires Reverse(taken) == [root] + TablesBelow(mem, Kids(sub + taken), table, level, i)
    requires |taken| == 1 + |TablesBelow(mem0, s, source, level, i)|
    requires ClosedAt(mem, Kids(sub + taken), table[i], level)
    requires NodeAt(mem, Kids(sub + taken), table[i], level) == NodeAt(mem0, s, source[i], level)
    requires TablesAt(mem, Kids(sub + taken), table[i], level) == Reverse(sub)
    requires |sub| == |TablesAt(mem0, s, source[i], level)|
    ensures SameMeaning(mem0, s, source, mem, table, root, sub + taken, level, i + 1)
  {
    hide ClosedAt, NodeAt, TablesAt, Kids, Reverse;
    var kids := Kids(sub + taken);
    ReverseConcat(sub, taken);
    assert ClosedUpTo(mem, kids, table, level, i + 1);
    OneMore(mem, kids, table, level, i);
    OneMore(mem0, s, source, level, i);
  }

  lemma OneMore(mem: Mem, t: set<nat>, table: seq<Entry>, level: nat, i: nat)
    requires i < |table| && ClosedUpTo(mem, t, table, level, i + 1)
    ensures ClosedAt(mem, t, table[i], level) && ClosedUpTo(mem, t, table, level, i)
    ensures Nodes(mem, t, table, level, i + 1) == Nodes(mem, t, table, level, i) + [NodeAt(mem, t, table[i], level)]
    ensures TablesBelow(mem, t, table, level, i + 1) ==
            TablesBelow(mem, t, table, level, i) + TablesAt(mem, t, table[i], level)
  {
  }

  // What a finished clone guarantees, with `taken` the frames it removed from the pool.
  ghost predicate IsClone(mem0: Mem, s: set<nat>, src: nat, mem: Mem, root: nat, taken: seq<nat>, level: nat) {
    && ClosedTable(mem0, s, src, level)
    && ClosedTable(mem, Elems(taken), root, level)
    && Nodes(mem, Elems(taken), mem[root], level, ENTRIES) == Nodes(mem0, s, mem0[src], level, ENTRIES)
    && Reverse(taken) == [root] + TablesBelow(mem, Elems(taken), mem[root], level, ENTRIES)
    && |taken| == 1 + |TablesBelow(mem0, s, mem0[src], level, ENTRIES)|
  }

  lemma KidsRoot(taken: seq<nat>)
    requires taken != [] && NoDup(taken)
    ensures taken[|taken| - 1] !in Kids(taken) && Elems(taken) == Kids(taken) + {taken[|taken| - 1]}
  {
    assert taken == taken[..|taken| - 1] + [taken[|taken| - 1]];
    ElemsConcat(taken[..|taken| - 1], [taken[|taken| - 1]]);
  }

  lemma CloneStart(mem0: Mem, s: set<nat>, src: nat, root: nat, level: nat)
    requires ClosedTable(mem0, s, src, level) && root !in s && root != 0
    ensures Cloned(mem0, s, src, mem0[root := seq(ENTRIES, j => ZERO)], root, [root], level, 0)
  {
    assert Reverse([root]) == [root];
    assert Elems([root]) == {root};
  }

  // Storing an entry in the root leaves what was there before as it was.
  lemma RootStore(mem: Mem, root: nat, taken: seq<nat>, level: nat, i: nat, e: Entry)
    requires taken != [] && NoDup(taken) && taken[|taken| - 1] == root
    requires i < ENTRIES && root in mem && |mem[root]| == ENTRIES
    requires ClosedUpTo(mem, Kids(taken), mem[root], level, i)
    ensures var mem' := mem[root := mem[root][i := e]];
      && ClosedUpTo(mem', Kids(taken), mem'[root], level, i)
      && Nodes(mem', Kids(taken), mem'[root], level, i) == Nodes(mem, Kids(taken), mem[root], level, i)
      && TablesBelow(mem', Kids(taken), mem'[root], level, i) == TablesBelow(mem, Kids(taken), mem[root], level, i)
  {
    var mem' := mem[root := mem[root][i := e]];
    KidsRoot(taken);
    FrameUpTo(mem, mem', Kids(taken), Kids(taken), mem[root], level, i);
    SamePrefix(mem', Kids(taken), mem[root], mem'[root], level, i);
  }

  lemma {:induction false} SamePrefix(mem: Mem, t: set<nat>, a: seq<Entry>, b: seq<Entry>, level: nat, n: nat)
    requires n <= |a| == |b| && a[..n] == b[..n] && ClosedUpTo(mem, t, a, level, n)
    ensures ClosedUpTo(mem, t, b, level, n)
    ensures Nodes(mem, t, b, level, n) == Nodes(mem, t, a, level, n)
    ensures TablesBelow(mem, t, b, level, n) == TablesBelow(mem, t, a, level, n)
  {
    assert forall j :: 0 <= j < n ==> a[j] == a[..n][j] && b[j] == b[..n][j];
    if n > 0 {
      assert a[..n - 1] == a[..n][..n - 1] && b[..n - 1] == b[..n][..n - 1];
      SamePrefix(mem, t, a, b, level, n - 1);
    }
  }

  lemma CopyMeaning(mem0: Mem, s: set<nat>, source: seq<Entry>, mem: Mem, root: nat, taken: seq<nat>, level: nat,
                    i: nat)
    requires i < |source| && ClosedUpTo(mem0, s, source, level, i + 1)
    requires taken != [] && NoDup(taken) && taken[|taken| - 1] == root
    requires i < ENTRIES && root in mem && |mem[root]| == ENTRIES
    requires SameMeaning(mem0, s, source, mem, mem[root], root, taken, level, i)
    requires IsUnused(source[i]) || IsLeaf(source[i], level)
    ensures var mem' := mem[root := mem[root][i := source[i]]];
      SameMeaning(mem0, s, source, mem', mem'[root], root, taken, level, i + 1)
  {
    var mem' := mem[root := mem[root][i := source[i]]];
    RootStore(mem, root, taken, level, i, source[i]);
    assert [] + taken == taken;
    ExtendMeaning(mem0, s, source, mem', mem'[root], root, taken, [], level, i);
  }

  // An unused or leaf entry is copied as it is (an unused one is already zero in the new table).
  lemma CloneCopy(mem0: Mem, s: set<nat>, src: nat, mem: Mem, root: nat, taken: seq<nat>, level: nat, i: nat)
    requires Cloned(mem0, s, src, mem, root, taken, level, i) && i < ENTRIES
    requires IsUnused(mem0[src][i]) || IsLeaf(mem0[src][i], level)
    ensures Cloned(mem0, s, src, mem[root := mem[root][i := mem0[src][i]]], root, taken, level, i + 1)
  {
    hide SameMeaning;
    assert ClosedUpTo(mem0, s, mem0[src], level, ENTRIES);
    KidsRoot(taken);
    CopyMeaning(mem0, s, mem0[src], mem, root, taken, level, i);
  }

  lemma ReverseConcat<T>(a: seq<T>, b: seq<T>)
    ensures Reverse(a + b) == Reverse(b) + Reverse(a)
  {
    var l, r := Reverse(a + b), Reverse(b) + Reverse(a);
    assert forall k :: 0 <= k < |l| ==> l[k] == r[k];
  }

  // The frames after a child clone took `sub`: the child's, then the ones before.
  lemma TakenMore(sub: seq<nat>, taken: seq<nat>)
    requires taken != [] && NoDup(taken) && NoDup(sub) && Elems(sub) !! Elems(taken)
    ensures NoDup(sub + taken) && Elems(sub + taken) == Elems(sub) + Elems(taken)
    ensures Kids(sub + taken) == Elems(sub) + Kids(taken)
    ensures (sub + taken)[|sub + taken| - 1] == taken[|taken| - 1]
  {
    NoDupJoin(sub, taken);
    assert (sub + taken)[..|sub + taken| - 1] == sub + taken[..|taken| - 1];
    ElemsConcat(sub, taken[..|taken| - 1]);
  }

  // The earlier entries survive a child clone and the store of its root.
  lemma EarlierKept(mem: Mem, mem1: Mem, root: nat, taken: seq<nat>, sub: seq<nat>, level: nat, i: nat, e: Entry)
    requires taken != [] && NoDup(taken) && NoDup(sub) && Elems(sub) !! Elems(taken) && taken[|taken| - 1] == root
    requires i < ENTRIES && root in mem && |mem[root]| == ENTRIES
    requires ClosedUpTo(mem, Kids(taken), mem[root], level, i) && SameOutside(mem, mem1, Elems(sub))
    ensures root in mem1 && mem1[root] == mem[root]
    ensures var mem' := mem1[root := mem1[root][i := e]];
      && ClosedUpTo(mem', Kids(sub + taken), mem'[root], level, i)
      && Nodes(mem', Kids(sub + taken), mem'[root], level, i) == Nodes(mem, Kids(taken), mem[root], level, i)
      && TablesBelow(mem', Kids(sub + taken), mem'[root], level, i) ==
         TablesBelow(mem, Kids(taken), mem[root], level, i)
  {
    KidsRoot(taken);
    TakenMore(sub, taken);
    assert root in mem1 && mem1[root] == mem[root];
    var mem' := mem1[root := mem1[root][i := e]];
    assert AgreeOn(mem, mem', Kids(taken));
    FrameUpTo(mem, mem', Kids(taken), Kids(sub + taken), mem[root], level, i);
    SamePrefix(mem', Kids(sub + taken), mem[root], mem'[root], level, i);
  }

  // The entry for a cloned child means what the source entry does.
  lemma ChildEntry(mem0: Mem, s: set<nat>, e: Entry, mem: Mem, mem1: Mem, mem': Mem, child: nat, sub: seq<nat>,
                   kids: set<nat>, level: nat)
    requires !IsUnused(e) && !IsLeaf(e, level) && ClosedAt(mem0, s, e, level)
    requires AgreeOn(mem0, mem, s) && IsClone(mem, s, e.addr, mem1, child, sub, level - 1) && child != 0
    requires AgreeOn(mem1, mem', Elems(sub)) && Elems(sub) <= kids
    ensures ClosedAt(mem', kids, Entry(child, e.flags), level)
    ensures NodeAt(mem', kids, Entry(child, e.flags), level) == NodeAt(mem0, s, e, level)
    ensures TablesAt(mem', kids, Entry(child, e.flags), level) == Reverse(sub)
    ensures |sub| == |TablesAt(mem0, s, e, level)|
  {
    FrameTable(mem0, mem, s, s, e.addr, level - 1);
    FrameTable(mem1, mem', Elems(sub), kids, child, level - 1);
  }

  lemma SubMeaning(mem0: Mem, s: set<nat>, source: seq<Entry>, mem: Mem, root: nat, taken: seq<nat>, level: nat, i: nat,
                   mem1: Mem, child: nat, sub: seq<nat>)
    requires i < |source| && ClosedUpTo(mem0, s, source, level, i + 1)
    requires taken != [] && NoDup(taken) && taken[|taken| - 1] == root
    requires i < ENTRIES && root in mem && |mem[root]| == ENTRIES
    requires SameMeaning(mem0, s, source, mem, mem[root], root, taken, level, i)
    requires !IsUnused(source[i]) && !IsLeaf(source[i], level) && AgreeOn(mem0, mem, s)
    requires IsClone(mem, s, source[i].addr, mem1, child, sub, level - 1) && child != 0
    requires NoDup(sub) && Elems(sub) !! Elems(taken) && SameOutside(mem, mem1, Elems(sub))
    ensures root in mem1 && mem1[root] == mem[root]
    ensures var mem' := mem1[root := mem1[root][i := Entry(child, source[i].flags)]];
      SameMeaning(mem0, s, source, mem', mem'[root], root, sub + taken, level, i + 1)
  {
    hide AgreeOn, SameOutside, IsClone;
    var e' := Entry(child, source[i].flags);
    EarlierKept(mem, mem1, root, taken, sub, level, i, e');
    var mem' := mem1[root := mem1[root][i := e']];
    KidsRoot(taken);
    TakenMore(sub, taken);
    RootApart(mem1, root, mem'[root], Elems(sub));
    assert ClosedAt(mem0, s, source[i], level);
    ChildEntry(mem0, s, source[i], mem, mem1, mem', child, sub, Kids(sub + taken), level);
    ExtendMeaning(mem0, s, source, mem', mem'[root], root, taken, sub, level, i);
  }

  lemma RootApart(mem: Mem, root: nat, table: seq<Entry>, t: set<nat>)
    requires root !in t
    ensures AgreeOn(mem, mem[root := table], t)
  {
  }

  lemma CloneSub(mem0: Mem, s: set<nat>, src: nat, mem: Mem, root: nat, taken: seq<nat>, level: nat, i: nat,
                 mem1: Mem, child: nat, sub: seq<nat>)
    requires Cloned(mem0, s, src, mem, root, taken, level, i) && i < ENTRIES
    requires !IsUnused(mem0[src][i]) && !IsLeaf(mem0[src][i], level)
    requires IsClone(mem, s, mem0[src][i].addr, mem1, child, sub, level - 1) && child != 0
    requires NoDup(sub) && 0 !in sub && Elems(sub) !! Elems(taken) + s && SameOutside(mem, mem1, Elems(sub))
    ensures root in mem1 && |mem1[root]| == ENTRIES
    ensures Cloned(mem0, s, src, mem1[root := mem1[root][i := Entry(child, mem0[src][i].flags)]], root, sub + taken,
                   level, i + 1)
  {
    hide SameMeaning, IsClone, AgreeOn;
    assert ClosedUpTo(mem0, s, mem0[src], level, ENTRIES);
    SourceKept(mem0, mem, s, taken);
    SubMeaning(mem0, s, mem0[src], mem, root, taken, level, i, mem1, child, sub);
    KidsRoot(taken);
    TakenMore(sub, taken);
  }

  lemma SourceKept(mem: Mem, mem': Mem, s: set<nat>, touched: seq<nat>)
    requires s !! Elems(touched) && SameOutside(mem, mem', Elems(touched))
    ensures AgreeOn(mem, mem', s)
  {
  }

  lemma CloneDone(mem0: Mem, s: set<nat>, src: nat, mem: Mem, root: nat, taken: seq<nat>, level: nat)
    requires Cloned(mem0, s, src, mem, root, taken, level, ENTRIES)
    ensures IsClone(mem0, s, src, mem, root, taken, level)
  {
    KidsRoot(taken);
    FrameUpTo(mem, mem, Kids(taken), Elems(taken), mem[root], level, ENTRIES);
  }

  lemma {:induction false} TablesGrow(mem: Mem, t: set<nat>, table: seq<Entry>, level: nat, i: nat, n: nat)
    requires i <= n <= |table| && ClosedUpTo(mem, t, table, level, n)
    ensures |TablesBelow(mem, t, table, level, i)| <= |TablesBelow(mem, t, table, level, n)|
  {
    if i < n {
      TablesGrow(mem, t, table, level, i, n - 1);
    }
  }

  // A child clone that runs out of frames means the whole clone needs more than there were.
  lemma ChildRanOut(mem0: Mem, s: set<nat>, src: nat, mem: Mem, root: nat, taken: seq<nat>, level: nat, i: nat,
                    left: nat)
    requires Cloned(mem0, s, src, mem, root, taken, level, i) && i < ENTRIES
    requires !IsUnused(mem0[src][i]) && !IsLeaf(mem0[src][i], level)
    requires ClosedTable(mem, s, mem0[src][i].addr, level - 1)
    requires left < 1 + |TablesBelow(mem, s, mem[mem0[src][i].addr], level - 1, ENTRIES)|
    ensures ClosedUpTo(mem0, s, mem0[src], level, ENTRIES)
    ensures |taken| + left < 1 + |TablesBelow(mem0, s, mem0[src], level, ENTRIES)|
  {
    var e := mem0[src][i];
    SourceKept(mem0, mem, s, taken);
    assert ClosedUpTo(mem0, s, mem0[src], level, ENTRIES);
    assert ClosedAt(mem0, s, e, level);
    FrameTable(mem0, mem, s, s, e.addr, level - 1);
    assert |TablesAt(mem0, s, e, level)| == 1 + |TablesBelow(mem0, s, mem0[e.addr], level - 1, ENTRIES)|;
    assert TablesBelow(mem0, s, mem0[src], level, i + 1)
        == TablesBelow(mem0, s, mem0[src], level, i) + TablesAt(mem0, s, e, level);
    TablesGrow(mem0, s, mem0[src], level, i + 1, ENTRIES);
  }

  // The child of an entry still to be cloned is intact.
  lemma ChildReady(mem0: Mem, s: set<nat>, src: nat, mem: Mem, root: nat, taken: seq<nat>, level: nat, i: nat)
    requires Cloned(mem0, s, src, mem, root, taken, level, i) && i < ENTRIES
    ensures src in mem && mem[src] == mem0[src] && |mem0[src]| == ENTRIES
    ensures root in mem && |mem[root]| == ENTRIES && mem[root][i] == ZERO
    ensures !IsUnused(mem0[src][i]) && !IsLeaf(mem0[src][i], level) ==>
      level > 1 && ClosedTable(mem, s, mem0[src][i].addr, level - 1)
  {
    SourceKept(mem0, mem, s, taken);
    assert ClosedUpTo(mem0, s, mem0[src], level, ENTRIES);
    assert ClosedAt(mem0, s, mem0[src][i], level);
    if !IsUnused(mem0[src][i]) && !IsLeaf(mem0[src][i], level) {
      FrameTable(mem0, mem, s, s, mem0[src][i].addr, level - 1);
    }
  }

  // --- what a clone gives -----------------------------------------------------------------

  // One table index per level of a virtual address: bits 47-39, 38-30, 29-21 and 20-12.
  function VaPath(va: nat): (path: seq<nat>)
    ensures |path| == 4 && forall i :: 0 <= i < 4 ==> path[i] < ENTRIES
  {
    [(va / 0x80_0000_0000) % ENTRIES, (va / 0x4000_0000) % ENTRIES, (va / 0x20_0000) % ENTRIES, (va / 0x1000) % ENTRIES]
  }

  // The indices and the offset in the page make up the low 48 bits of the address.
  lemma PathOfAddress(va: nat)
    ensures var p := VaPath(va);
      p[0] * 0x80_0000_0000 + p[1] * 0x4000_0000 + p[2] * 0x20_0000 + p[3] * 0x1000 + va % 0x1000
      == va % 0x1_0000_0000_0000
  {
    var d0, d1, d2, d3 := va / 0x1000, va / 0x20_0000, va / 0x4000_0000, va / 0x80_0000_0000;
    Digit(va, 0x1000, d0, d1);
    Digit(va, 0x20_0000, d1, d2);
    Digit(va, 0x4000_0000, d2, d3);
    var p := VaPath(va);
    var low := p[0] * 0x80_0000_0000 + p[1] * 0x4000_0000 + p[2] * 0x20_0000 + p[3] * 0x1000 + va % 0x1000;
    assert va == d0 * 0x1000 + va % 0x1000;
    assert d3 == (d3 / ENTRIES) * ENTRIES + p[0];
    DivModUnique(va, 0x1_0000_0000_0000, d3 / ENTRIES, low);
  }

  // Dividing by one more level takes off one index.
  lemma Digit(va: nat, unit: nat, d: nat, e: nat)
    requires unit == 0x1000 || unit == 0x20_0000 || unit == 0x4000_0000
    requires d == va / unit && e == va / (unit * ENTRIES)
    ensures d == e * ENTRIES + d % ENTRIES
  {
    assert va / unit / ENTRIES == va / (unit * ENTRIES);
  }

  // Every bit met on the way down a path, present or not: the flags of each entry, and the address too
  // where the way ends, at an all-zero entry, a huge page or the last level.
  ghost function Bits(mem: Mem, t: set<nat>, f: nat, path: seq<nat>): seq<Entry>
    requires 1 <= |path| <= 4 && (forall i :: 0 <= i < |path| ==> path[i] < ENTRIES)
    requires ClosedTable(mem, t, f, |path|)
    decreases |path|
  {
    var e := mem[f][path[0]];
    assert ClosedUpTo(mem, t, mem[f], |path|, ENTRIES);
    assert ClosedAt(mem, t, e, |path|);
    if e == Entry(0, Flags(false, false, false, false, 0)) || |path| == 1 || e.flags.huge then [e]
    else [Entry(0, e.flags)] + Bits(mem, t, e.addr, path[1..])
  }

  lemma {:induction false} BitsByMeaning(mem: Mem, t: set<nat>, f: nat, mem': Mem, t': set<nat>, f': nat,
                                         path: seq<nat>)
    requires 1 <= |path| <= 4 && (forall i :: 0 <= i < |path| ==> path[i] < ENTRIES)
    requires ClosedTable(mem, t, f, |path|) && ClosedTable(mem', t', f', |path|)
    requires Nodes(mem, t, mem[f], |path|, ENTRIES) == Nodes(mem', t', mem'[f'], |path|, ENTRIES)
    ensures Bits(mem, t, f, path) == Bits(mem', t', f', path)
    decreases |path|
  {
    var e, e' := mem[f][path[0]], mem'[f'][path[0]];
    NodesAt(mem, t, mem[f], |path|, ENTRIES, path[0]);
    NodesAt(mem', t', mem'[f'], |path|, ENTRIES, path[0]);
    assert NodeAt(mem, t, e, |path|) == NodeAt(mem', t', e', |path|);
    if !IsUnused(e) && !IsLeaf(e, |path|) {
      BitsByMeaning(mem, t, e.addr, mem', t', e'.addr, path[1..]);
    }
  }

  // The clone copies every bit but the addresses of tables, whether or not an entry is present.
  lemma CloneCopiesBits(mem0: Mem, s: set<nat>, src: nat, mem: Mem, root: nat, taken: seq<nat>, va: nat)
    requires IsClone(mem0, s, src, mem, root, taken, 4)
    ensures Bits(mem, Elems(taken), root, VaPath(va)) == Bits(mem0, s, src, VaPath(va))
  {
    BitsByMeaning(mem0, s, src, mem, Elems(taken), root, VaPath(va));
  }

  // Every virtual address translates through the new root as through the old one: the same leaf
  // entry at the same level under the same parent flags, or a fault in both.
  lemma CloneTranslates(mem0: Mem, s: set<nat>, src: nat, mem: Mem, root: nat, taken: seq<nat>, va: nat)
    requires IsClone(mem0, s, src, mem, root, taken, 4)
    ensures Walk(mem, Elems(taken), root, VaPath(va)) == Walk(mem0, s, src, VaPath(va))
  {
    WalkByMeaning(mem, Elems(taken), root, VaPath(va));
    WalkByMeaning(mem0, s, src, VaPath(va));
  }

  // Every table reached from the new root is a frame taken for it, and is reached once.
  lemma CloneOwnsTables(mem0: Mem, s: set<nat>, src: nat, mem: Mem, root: nat, taken: seq<nat>, level: nat)
    requires IsClone(mem0, s, src, mem, root, taken, level) && NoDup(taken)
    ensures ClosedTable(mem, Elems(taken), root, level)
    ensures var tables := [root] + TablesBelow(mem, Elems(taken), mem[root], level, ENTRIES);
      NoDup(tables) && Elems(tables) == Elems(taken)
  {
    ReverseFacts(taken);
  }

  class PageTables {
    var mem: Mem
    const frames: F.FrameAllocator

    constructor (mem: Mem, frames: F.FrameAllocator)
      ensures this.mem == mem && this.frames == frames
    {
      this.mem := mem;
      this.frames := frames;
    }

    // `deep_clone_table`.  `s` is any set of frames that holds every table reachable from the source
    // - shared and self-referencing tables are fine - and none of the pool.  The clone succeeds
    // exactly when the pool has a frame for every table visited; otherwise it stops where the
    // `expect` does, with the source still intact.
    method DeepClone(src: nat, level: nat, ghost s: set<nat>) returns (r: Option<nat>)
      requires 1 <= level <= 4 && ClosedTable(mem, s, src, level)
      requires frames.Valid() && s !! Elems(frames.free) && 0 !in frames.free
      modifies this`mem, frames`free, frames`handed
      decreases level
      ensures frames.Valid() && frames.free <= old(frames.free)
      ensures frames.handed == old(frames.handed) + Elems(old(frames.free)[|frames.free|..])
      ensures SameOutside(old(mem), mem, Elems(old(frames.free)[|frames.free|..]))
      ensures r.Some? <==> |old(frames.free)| >= 1 + |TablesBelow(old(mem), s, old(mem)[src], level, ENTRIES)|
      ensures r.Some? ==> IsClone(old(mem), s, src, mem, r.value, old(frames.free)[|frames.free|..], level)
    {
      hide Cloned, IsClone, ClosedTable, ClosedUpTo, SameOutside, Elems;
      ghost var mem0, pool0, handed0 := mem, frames.free, frames.handed;
      var newFrame := frames.AllocFrame();
      if newFrame.None? {
        NothingTaken(mem0, pool0);
        return None;
      }
      var root := newFrame.value;
      TakeFirst(s, pool0, frames.free, root);
      CloneStart(mem0, s, src, root, level);
      mem := mem[root := seq(ENTRIES, j => ZERO)];
      for i := 0 to ENTRIES
        invariant frames.Valid() && frames.free <= pool0
        invariant frames.handed == handed0 + Elems(pool0[|frames.free|..])
        invariant Cloned(mem0, s, src, mem, root, pool0[|frames.free|..], level, i)
      {
        ghost var mem1, free1 := mem, frames.free;
        ChildReady(mem0, s, src, mem, root, pool0[|free1|..], level, i);
        var e := mem[src][i];
        if IsUnused(e) || IsLeaf(e, level) {
          CloneCopy(mem0, s, src, mem, root, pool0[|free1|..], level, i);
          mem := mem[root := mem[root][i := e]];
        } else {
          PoolPrefix(s, pool0, free1);
          var child := DeepClone(e.addr, level - 1, s);
          SplitPool(s, pool0, free1, frames.free);
          if child.None? {
            ChildRanOut(mem0, s, src, mem1, root, pool0[|free1|..], level, i, |free1|);
            StillOutside(mem0, s, src, mem1, root, pool0, free1, level, i, mem, frames.free);
            return None;
          }
          ChildNonzero(mem1, s, e.addr, mem, child.value, free1[|frames.free|..], level - 1);
          CloneSub(mem0, s, src, mem1, root, pool0[|free1|..], level, i, mem, child.value, free1[|frames.free|..]);
          mem := mem[root := mem[root][i := Entry(child.value, e.flags)]];
        }
      }
      CloneDone(mem0, s, src, mem, root, pool0[|frames.free|..], level);
      CloneOutside(mem0, s, src, mem, root, pool0[|frames.free|..], level);
      return Some(root);
    }
  }

  lemma NothingTaken(mem: Mem, pool: seq<nat>)
    ensures SameOutside(mem, mem, Elems(pool[|pool|..])) && Elems(pool[|pool|..]) == {}
  {
  }

  lemma TakeFirst(s: set<nat>, pool: seq<nat>, rest: seq<nat>, root: nat)
    requires s !! Elems(pool) && 0 !in pool && pool == rest + [root]
    ensures root !in s && root != 0 && pool[|rest|..] == [root] && Elems([root]) == {root}
  {
    assert pool[|rest|] == root && root in Elems(pool);
  }

  lemma PoolPrefix(s: set<nat>, pool: seq<nat>, rest: seq<nat>)
    requires s !! Elems(pool) && 0 !in pool && rest <= pool
    ensures s !! Elems(rest) && 0 !in rest
  {
    assert forall i :: 0 <= i < |rest| ==> rest[i] == pool[i] && pool[i] in Elems(pool);
  }

  // The frames a child clone took are new ones.
  lemma SplitPool(s: set<nat>, pool: seq<nat>, rest: seq<nat>, left: seq<nat>)
    requires s !! Elems(pool) && 0 !in pool && NoDup(pool) && left <= rest <= pool
    ensures pool[|left|..] == rest[|left|..] + pool[|rest|..]
    ensures NoDup(rest[|left|..]) && 0 !in rest[|left|..]
    ensures Elems(rest[|left|..]) !! Elems(pool[|rest|..]) + s
    ensures Elems(pool[|left|..]) == Elems(rest[|left|..]) + Elems(pool[|rest|..])
  {
    ElemsSplit(pool, |rest|);
    assert pool[..|rest|] == rest;
    ElemsSplit(rest, |left|);
    assert Elems(rest[|left|..]) <= Elems(pool);
    ElemsConcat(rest[|left|..], pool[|rest|..]);
  }

  lemma ChildNonzero(mem0: Mem, s: set<nat>, src: nat, mem: Mem, root: nat, taken: seq<nat>, level: nat)
    requires IsClone(mem0, s, src, mem, root, taken, level) && 0 !in taken
    ensures root != 0
  {
    ReverseFacts(taken);
    assert Reverse(taken)[0] == root;
    assert root in Elems(Reverse(taken));
  }

  lemma CloneOutside(mem0: Mem, s: set<nat>, src: nat, mem: Mem, root: nat, taken: seq<nat>, level: nat)
    requires Cloned(mem0, s, src, mem, root, taken, level, ENTRIES)
    ensures SameOutside(mem0, mem, Elems(taken))
    ensures ClosedUpTo(mem0, s, mem0[src], level, ENTRIES)
    ensures |taken| == 1 + |TablesBelow(mem0, s, mem0[src], level, ENTRIES)|
  {
  }

  lemma StillOutside(mem0: Mem, s: set<nat>, src: nat, mem1: Mem, root: nat, pool: seq<nat>, rest: seq<nat>, level: nat,
                     i: nat, mem: Mem, left: seq<nat>)
    requires left <= rest <= pool && Cloned(mem0, s, src, mem1, root, pool[|rest|..], level, i)
    requires SameOutside(mem1, mem, Elems(rest[|left|..])) && pool[|left|..] == rest[|left|..] + pool[|rest|..]
    ensures SameOutside(mem0, mem, Elems(pool[|left|..]))
  {
    ElemsConcat(rest[|left|..], pool[|rest|..]);
  }

  // The boot sequence: fill the pool, clone, switch roots, and later reclaim bootloader memory.
  // Whatever the memory map, the reclaimed pool never contains a table reachable from the live
  // root.  The bootloader's tables must lie outside what was pooled, and memory below 0x1000 is
  // never usable (the boot protocol's own promise).
  method BootAndReclaim(pt: PageTables, entries: seq<F.Region>, heapLo: nat, heapHi: nat, src: nat, ghost s: set<nat>)
    returns (root: Option<nat>)
    requires pt.frames.Valid() && pt.frames.free == [] && pt.frames.handed == {}
    requires F.DisjointRegions(entries) && heapLo < heapHi
    requires forall i :: 0 <= i < |entries| && entries[i].kind.Usable? ==> entries[i].base >= F.FRAME_SIZE
    requires ClosedTable(pt.mem, s, src, 4)
    requires forall f :: f in s ==> !F.InKind(f, entries, F.Usable)
    modifies pt, pt.frames
    ensures root.Some? <==>
      |F.Pooled(entries, heapLo, heapHi)| >= 1 + |TablesBelow(old(pt.mem), s, old(pt.mem)[src], 4, ENTRIES)|
    ensures root.Some? ==>
      && pt.frames.Valid() && ClosedTable(pt.mem, pt.frames.handed, root.value, 4)
      && (forall va :: Walk(pt.mem, pt.frames.handed, root.value, VaPath(va)) == Walk(old(pt.mem), s, src, VaPath(va)))
      && NoDup([root.value] + TablesBelow(pt.mem, pt.frames.handed, pt.mem[root.value], 4, ENTRIES))
      && (forall f :: f in [root.value] + TablesBelow(pt.mem, pt.frames.handed, pt.mem[root.value], 4, ENTRIES)
                 ==> f !in pt.frames.free)
  {
    hide IsClone, ClosedTable, F.Pooled, F.Reclaimed, F.InKind, Elems;
    ghost var mem0 := pt.mem;
    var ok := pt.frames.Init(entries, heapLo, heapHi);
    if !ok {
      return None;
    }
    ghost var pool := pt.frames.free;
    PoolReady(entries, heapLo, heapHi, s);
    root := pt.DeepClone(src, 4, s);
    if root.None? {
      return;
    }
    ghost var left := pt.frames.free;
    ghost var taken := pool[|left|..];
    HandedIsTaken(pool, left);
    CloneOwnsTables(mem0, s, src, pt.mem, root.value, taken, 4);
    forall va ensures Walk(pt.mem, Elems(taken), root.value, VaPath(va)) == Walk(mem0, s, src, VaPath(va)) {
      CloneTranslates(mem0, s, src, pt.mem, root.value, taken, va);
    }
    var added := pt.frames.ReclaimBootloader(entries);
    ReclaimAvoids(entries, heapLo, heapHi, left,
                  [root.value] + TablesBelow(pt.mem, Elems(taken), pt.mem[root.value], 4, ENTRIES));
  }

  lemma HandedIsTaken(pool: seq<nat>, left: seq<nat>)
    requires NoDup(pool) && left <= pool
    ensures {} + Elems(pool[|left|..]) == Elems(pool[|left|..])
    ensures NoDup(pool[|left|..])
  {
  }

  // Frames taken from the pool are usable memory, so reclaiming bootloader memory does not bring
  // them back.
  lemma ReclaimAvoids(entries: seq<F.Region>, heapLo: nat, heapHi: nat, left: seq<nat>, tables: seq<nat>)
    requires F.DisjointRegions(entries) && heapLo < heapHi && left <= F.Pooled(entries, heapLo, heapHi)
    requires Elems(tables) == Elems(F.Pooled(entries, heapLo, heapHi)[|left|..])
    ensures forall f :: f in tables ==> f !in left + F.Reclaimed(entries)
    ensures Elems(F.Reclaimed(entries)) !! Elems(left) + Elems(tables)
  {
    hide F.Pooled, F.Reclaimed, F.InKind;
    var pool := F.Pooled(entries, heapLo, heapHi);
    F.PooledExact(entries, heapLo, heapHi);
    F.ReclaimedExact(entries);
    ElemsSplit(pool, |left|);
    assert pool[..|left|] == left;
    forall f | f in F.Reclaimed(entries) ensures f !in pool {
      F.KindsApart(f, entries, F.Usable, F.BootloaderReclaimable);
    }
    forall f | f in tables ensures f !in left + F.Reclaimed(entries) {
      assert f in Elems(tables) && f in Elems(pool);
      F.KindsApart(f, entries, F.Usable, F.BootloaderReclaimable);
      assert f !in Elems(left);
    }
  }

  lemma PoolReady(entries: seq<F.Region>, heapLo: nat, heapHi: nat, s: set<nat>)
    requires F.DisjointRegions(entries) && heapLo < heapHi
    requires forall i :: 0 <= i < |entries| && entries[i].kind.Usable? ==> entries[i].base >= F.FRAME_SIZE
    requires forall f :: f in s ==> !F.InKind(f, entries, F.Usable)
    ensures 0 !in F.Pooled(entries, heapLo, heapHi) && s !! Elems(F.Pooled(entries, heapLo, heapHi))
  {
    F.PooledExact(entries, heapLo, heapHi);
  }
}
