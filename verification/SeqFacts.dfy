/** Sequence and modular-arithmetic facts shared by the ring and pool proofs. */
module SeqFacts {

  datatype Option<T> = None | Some(value: T)

  ghost predicate NoDup<T>(s: seq<T>) {
    forall i, j :: 0 <= i < j < |s| ==> s[i] != s[j]
  }

  ghost predicate Below(s: seq<nat>, n: nat) {
    forall i :: 0 <= i < |s| ==> s[i] < n
  }

  function Reverse<T>(s: seq<T>): (r: seq<T>)
    ensures |r| == |s|
    ensures forall i :: 0 <= i < |s| ==> r[i] == s[|s| - 1 - i]
  {
    if s == [] then [] else Reverse(s[1..]) + [s[0]]
  }

  function Elems<T>(s: seq<T>): set<T> {
    set x | x in s
  }

  lemma SetOfNoDup<T(!new)>(s: seq<T>)
    requires NoDup(s)
    ensures |Elems(s)| == |s|
  {
    if s != [] {
      var front := s[..|s| - 1];
      SetOfNoDup(front);
      assert s[|s| - 1] !in Elems(front);
      assert Elems(s) == Elems(front) + {s[|s| - 1]};
    }
  }

  ghost predicate IsIndex(d: nat, n: nat) {
    d < n
  }

  // The indices 0..n.
  ghost function UpTo(n: nat): set<nat> {
    set d: nat | d < n && IsIndex(d, n)
  }

  lemma UpToSize(n: nat)
    ensures |UpTo(n)| == n
  {
    if n > 0 {
      UpToSize(n - 1);
      assert UpTo(n) == UpTo(n - 1) + {n - 1};
    }
  }

  lemma ElemsConcat<T>(a: seq<T>, b: seq<T>)
    ensures Elems(a + b) == Elems(a) + Elems(b)
  {
  }

  lemma ElemsSplit<T(!new)>(s: seq<T>, n: nat)
    requires NoDup(s) && n <= |s|
    ensures Elems(s) == Elems(s[..n]) + Elems(s[n..])
    ensures Elems(s[..n]) !! Elems(s[n..])
    ensures NoDup(s[..n]) && NoDup(s[n..])
  {
    assert s == s[..n] + s[n..];
    ElemsConcat(s[..n], s[n..]);
  }

  lemma MultisetSplit<T>(s: seq<T>, n: nat)
    requires n <= |s|
    ensures multiset(s) == multiset(s[..n]) + multiset(s[n..])
  {
    assert s == s[..n] + s[n..];
  }

  lemma MultisetMember<T>(s: seq<T>, i: nat)
    requires i < |s|
    ensures multiset(s)[s[i]] >= 1
  {
    assert s[i] in s;
  }

  lemma ReverseFacts<T(!new)>(s: seq<T>)
    ensures Elems(Reverse(s)) == Elems(s)
    ensures NoDup(s) ==> NoDup(Reverse(s))
  {
    var r := Reverse(s);
    forall x | x in Elems(s) ensures x in Elems(r) {
      var i :| 0 <= i < |s| && s[i] == x;
      assert r[|s| - 1 - i] == x;
    }
  }

  lemma NoDupJoin<T(!new)>(a: seq<T>, b: seq<T>)
    requires NoDup(a) && NoDup(b) && Elems(a) !! Elems(b)
    ensures NoDup(a + b)
    ensures Elems(a + b) == Elems(a) + Elems(b)
  {
    forall i, j | 0 <= i < |a| && 0 <= j < |b| ensures a[i] != b[j] {
      assert a[i] in Elems(a) && b[j] in Elems(b);
    }
    ElemsConcat(a, b);
  }

  // Rearranging distinct values keeps them distinct.
  lemma NoDupMultiset<T(!new)>(a: seq<T>, b: seq<T>)
    requires NoDup(a) && multiset(a) == multiset(b)
    ensures NoDup(b) && Elems(a) == Elems(b)
  {
    forall i, j | 0 <= i < j < |b| ensures b[i] != b[j] {
      CountNoDup(a, b[i]);
      CountTwice(b, i, j);
    }
    forall x ensures x in Elems(a) <==> x in Elems(b) {
      assert x in multiset(a) <==> x in multiset(b);
    }
  }

  lemma CountTwice<T>(b: seq<T>, i: nat, j: nat)
    requires i < j < |b|
    ensures b[i] == b[j] ==> multiset(b)[b[i]] >= 2
  {
    var front, back := b[..j], b[j..];
    assert b == front + back;
    assert front[i] == b[i] && back[0] == b[j];
    assert b[i] in front && b[j] in back;
  }

  lemma CountNoDup<T(!new)>(a: seq<T>, x: T)
    requires NoDup(a)
    ensures multiset(a)[x] <= 1
  {
    if a != [] {
      var front := a[..|a| - 1];
      CountNoDup(front, x);
      assert a == front + [a[|a| - 1]];
      if a[|a| - 1] == x {
        assert x !in front;
      }
    }
  }

  // `free` lists distinct values which, with the disjoint set `taken`, make up `all`.
  ghost predicate Splits<T(!new)>(free: seq<T>, taken: set<T>, all: set<T>) {
    NoDup(free) && Elems(free) !! taken && Elems(free) + taken == all
  }

  lemma SplitsTake<T(!new)>(free: seq<T>, taken: set<T>, all: set<T>, n: nat)
    requires Splits(free, taken, all) && n <= |free|
    ensures Splits(free[n..], taken + Elems(free[..n]), all)
    ensures Elems(free[..n]) !! taken && NoDup(free[..n])
  {
    ElemsSplit(free, n);
  }

  lemma SplitsReturn<T(!new)>(free: seq<T>, taken: set<T>, all: set<T>, back: seq<T>)
    requires Splits(free, taken, all) && NoDup(back) && Elems(back) <= taken
    ensures Splits(back + free, taken - Elems(back), all)
  {
    NoDupJoin(back, free);
  }

  lemma SubsetSize<T>(a: set<T>, b: set<T>)
    requires a <= b
    ensures |a| <= |b|
  {
    assert b == a + (b - a);
  }

  // Pigeonhole: distinct numbers below n are at most n many.
  lemma Pigeonhole(s: seq<nat>, n: nat)
    requires NoDup(s) && Below(s, n)
    ensures |s| <= n
  {
    SetOfNoDup(s);
    UpToSize(n);
    SubsetSize(Elems(s), UpTo(n));
  }

  // Reducing a count modulo a multiple of the ring size first does not change its slot.
  lemma WrapSlot(k: nat, m: nat, size: nat)
    requires size > 0 && m > 0
    ensures m * size > 0 && Slot(Slot(k, m * size), size) == Slot(k, size)
  {
    MulMono(1, m, size);
    if k >= m * size {
      WrapSlot(k - m * size, m, size);
      SlotShift(k - m * size, m, size);
    }
  }

  lemma SlotShift(k: nat, m: nat, n: nat)
    requires n > 0
    ensures Slot(k + m * n, n) == Slot(k, n)
  {
    if m > 0 {
      SlotShift(k, m - 1, n);
      assert k + m * n == (k + (m - 1) * n) + n;
    }
  }

  lemma NextSlot(k: nat, n: nat)
    requires n > 0
    ensures Slot(k + 1, n) == if Slot(k, n) + 1 == n then 0 else Slot(k, n) + 1
  {
    if k >= n {
      NextSlot(k - n, n);
    }
  }

  lemma ModStep(x: nat, n: nat)
    requires n > 0
    ensures (x + n) % n == x % n
    ensures (x + n) / n == x / n + 1
  {
    var q, r := x / n, x % n;
    assert x + n == (q + 1) * n + r by { assert (q + 1) * n == q * n + n; }
    DivModUnique(x + n, n, q + 1, r);
  }

  lemma DivModUnique(x: nat, n: nat, q: nat, r: nat)
    requires n > 0 && r < n && x == q * n + r
    ensures x / n == q && x % n == r
  {
    var q', r' := x / n, x % n;
    assert x == q' * n + r';
    if q' < q {
      MulStep(q', q, n);
    } else if q < q' {
      MulStep(q, q', n);
    }
  }

  lemma MulStep(a: nat, b: nat, n: nat)
    requires a < b
    ensures a * n + n <= b * n
  {
    assert (a + 1) * n == a * n + n;
    MulMono(a + 1, b, n);
  }

  lemma MulMono(a: nat, b: nat, n: nat)
    requires a <= b
    ensures a * n <= b * n
  {
  }

  // The ring slot of the k-th entry: k % n, in a form the solver leaves alone.
  function Slot(k: nat, n: nat): (s: nat)
    requires n > 0
    ensures s < n
  {
    if k < n then k else Slot(k - n, n)
  }

  lemma SlotIsMod(k: nat, n: nat)
    requires n > 0
    ensures Slot(k, n) == k % n
  {
    if k >= n {
      SlotIsMod(k - n, n);
      ModStep(k - n, n);
    }
  }

  // Two counts less than a lap apart never share a slot.
  lemma SlotsApart(a: nat, b: nat, n: nat)
    requires n > 0 && a < b < a + n
    ensures Slot(a, n) != Slot(b, n)
  {
    SlotIsMod(a, n);
    SlotIsMod(b, n);
    SlotsDistinct(a, b, n);
  }

  lemma SlotsDistinct(a: nat, b: nat, n: nat)
    requires n > 0 && a < b < a + n
    ensures a % n != b % n
  {
    var p, q := a / n, b / n;
    assert a == p * n + a % n && b == q * n + b % n;
    if p < q {
      MulStep(p, q, n);
    } else if q < p {
      MulStep(q, p, n);
    }
  }
}
