/**
 A ring whose entries carry one lap bit.  The producer writes entry k to slot k mod n with the bit
 of its lap, starting with a set bit over zeroed memory; the consumer keeps a slot and the bit it
 expects there.  This is the idea behind the xHCI event ring (sections 4.9.2 and 4.9.4 of xHCI 1.2)
 and the NVMe completion queue (section 4.6 of NVMe 1.4): the bit alone tells new from stale, so a
 fixed ring refines an unbounded queue.
 */
module LapRing {
  import opened SeqFacts

  // The bit of entry k: set on the first lap, then alternating.
  function Lap(k: nat, n: nat): bool
    requires n > 0
  {
    if k < n then true else !Lap(k - n, n)
  }

  lemma NextLap(k: nat, n: nat)
    requires n > 0
    ensures Lap(k + 1, n) == if Slot(k, n) + 1 == n then !Lap(k, n) else Lap(k, n)
  {
    if k >= n {
      NextLap(k - n, n);
    } else if k + 1 == n {
      assert Lap(0, n);
    }
  }

  // The ring holds the latest n entries of the history; slots never written still show a clear bit.
  ghost predicate Posted<T(!new)>(ring: seq<T>, history: seq<T>, bit: T -> bool) {
    && |ring| > 0
    && (forall k :: 0 <= k < |history| ==> bit(history[k]) == Lap(k, |ring|))
    && (forall k :: 0 <= k < |history| && |history| - |ring| <= k ==> ring[Slot(k, |ring|)] == history[k])
    && (forall s :: |history| <= s < |ring| ==> !bit(ring[s]))
  }

  lemma PostedInit<T(!new)>(ring: seq<T>, bit: T -> bool)
    requires |ring| > 0 && forall s :: 0 <= s < |ring| ==> !bit(ring[s])
    ensures Posted(ring, [], bit)
  {
  }

  lemma PostedStep<T(!new)>(ring: seq<T>, history: seq<T>, bit: T -> bool, x: T)
    requires Posted(ring, history, bit) && bit(x) == Lap(|history|, |ring|)
    ensures Posted(ring[Slot(|history|, |ring|) := x], history + [x], bit)
  {
    var n, m := |ring|, |history|;
    var ring', history' := ring[Slot(m, n) := x], history + [x];
    forall k | 0 <= k < m + 1 && m + 1 - n <= k ensures ring'[Slot(k, n)] == history'[k] {
      if k < m {
        SlotsApart(k, m, n);
        assert ring[Slot(k, n)] == history[k];
      }
    }
    forall s | m + 1 <= s < n ensures !bit(ring'[s]) {
      assert Slot(m, n) == m;
      assert !bit(ring[s]);
    }
  }

  // A consumer that has taken `taken` entries and has not been overrun sees the bit it expects
  // exactly when there is an entry it has not taken, and then that slot holds the next one.
  lemma BitTellsNew<T(!new)>(ring: seq<T>, history: seq<T>, bit: T -> bool, taken: nat)
    requires Posted(ring, history, bit) && taken <= |history| <= taken + |ring|
    ensures bit(ring[Slot(taken, |ring|)]) == Lap(taken, |ring|) <==> taken < |history|
    ensures taken < |history| ==> ring[Slot(taken, |ring|)] == history[taken]
  {
    var n := |ring|;
    if taken < |history| {
      assert ring[Slot(taken, n)] == history[taken];
    } else if taken < n {
      assert Slot(taken, n) == taken;
    } else {
      var stale := taken - n;
      assert Slot(taken, n) == Slot(stale, n);
      assert ring[Slot(stale, n)] == history[stale];
    }
  }

  lemma LapOn(k: nat, n: nat)
    requires n > 0
    ensures Slot(k + n, n) == Slot(k, n) && Lap(k + n, n) == !Lap(k, n)
  {
  }

  // m laps on, the bit is flipped m times.
  lemma {:induction false} LapAt(k: nat, m: nat, n: nat)
    requires n > 0
    ensures Slot(k + m * n, n) == Slot(k, n)
    ensures Lap(k + m * n, n) == if m % 2 == 0 then Lap(k, n) else !Lap(k, n)
    decreases m
  {
    hide Slot, Lap;
    if m == 0 {
      assert k + m * n == k;
    } else {
      var before := (m - 1) * n;
      assert m * n == before + n;
      LapAt(k, m - 1, n);
      LapOn(k + before, n);
      assert m % 2 == 0 <==> (m - 1) % 2 != 0;
    }
  }

  // The no-overrun condition is exact.  A consumer m laps behind finds the entry m laps after the one
  // it is due, and takes it for new exactly when m is even.
  lemma OverrunSees<T(!new)>(ring: seq<T>, history: seq<T>, bit: T -> bool, taken: nat, m: nat)
    requires Posted(ring, history, bit) && taken + m * |ring| < |history| <= taken + m * |ring| + |ring|
    ensures ring[Slot(taken, |ring|)] == history[taken + m * |ring|]
    ensures bit(ring[Slot(taken, |ring|)]) == Lap(taken, |ring|) <==> m % 2 == 0
  {
    LapAt(taken, m, |ring|);
    assert ring[Slot(taken + m * |ring|, |ring|)] == history[taken + m * |ring|];
  }
}
