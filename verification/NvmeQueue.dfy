/**
 An NVMe queue pair: `submit_qe` writes the submission queue and advances the tail, `poll_qe`
 consumes the completion queue guided by the phase tag, which is the lap bit of LapRing.
 */
module NvmeQueue {
  import opened SeqFacts
  import opened LapRing

  const QUEUE_SIZE: nat := 64
  const CID_SPACE: nat := 0x1_0000
  const CSTS_POLL_LIMIT: nat := 100_000_000

  datatype SqEntry = SqEntry(opcode: nat, cid: nat, nsid: nat, prp1: nat, cdw10: nat, cdw11: nat, cdw12: nat)

  datatype CqEntry = CqEntry(cid: nat, status: nat)

  // What `poll_qe` comes to.
  datatype Answer = Status(status: nat) | CidPanic | TimedOut

  datatype PollResult = Empty | WrongCid | Done(status: nat)

  function Phase(c: CqEntry): bool {
    c.status % 2 == 1
  }

  // The submission queue still holds every command the controller has not fetched.
  ghost predicate SqIntact(sq: seq<SqEntry>, submitted: seq<SqEntry>, fetched: nat) {
    && |sq| == QUEUE_SIZE && fetched <= |submitted|
    && (forall k :: fetched <= k < |submitted| ==> sq[Slot(k, QUEUE_SIZE)] == submitted[k])
  }

  ghost predicate Numbered(submitted: seq<SqEntry>) {
    forall k :: 0 <= k < |submitted| ==> submitted[k].cid == Slot(k, CID_SPACE)
  }

  // Commands a queue's length apart have different identifiers, so at most 64 can be intact.
  lemma AtMostFull(sq: seq<SqEntry>, submitted: seq<SqEntry>, fetched: nat)
    requires SqIntact(sq, submitted, fetched) && Numbered(submitted)
    ensures |submitted| <= fetched + QUEUE_SIZE
  {
    if |submitted| > fetched + QUEUE_SIZE {
      assert Slot(fetched + QUEUE_SIZE, QUEUE_SIZE) == Slot(fetched, QUEUE_SIZE);
      assert submitted[fetched] == submitted[fetched + QUEUE_SIZE];
      SlotsApart(fetched, fetched + QUEUE_SIZE, CID_SPACE);
    }
  }

  lemma SqFits(sq: seq<SqEntry>, submitted: seq<SqEntry>, fetched: nat, e: SqEntry)
    requires SqIntact(sq, submitted, fetched) && |submitted| < fetched + QUEUE_SIZE
    ensures SqIntact(sq[Slot(|submitted|, QUEUE_SIZE) := e], submitted + [e], fetched)
  {
    hide Slot;
    forall k | fetched <= k < |submitted| ensures Slot(k, QUEUE_SIZE) != Slot(|submitted|, QUEUE_SIZE) {
      SlotsApart(k, |submitted|, QUEUE_SIZE);
    }
  }

  lemma NumberedMore(submitted: seq<SqEntry>, e: SqEntry)
    requires Numbered(submitted) && e.cid == Slot(|submitted|, CID_SPACE)
    ensures Numbered(submitted + [e])
  {
    hide Slot;
  }

  // A submission overwrites nothing unread if and only if fewer than 64 commands were waiting.
  lemma SqAppend(sq: seq<SqEntry>, submitted: seq<SqEntry>, fetched: nat, e: SqEntry)
    requires SqIntact(sq, submitted, fetched) && Numbered(submitted) && e.cid == Slot(|submitted|, CID_SPACE)
    ensures SqIntact(sq[Slot(|submitted|, QUEUE_SIZE) := e], submitted + [e], fetched)
       <==> |submitted| < fetched + QUEUE_SIZE
  {
    assert |sq| == QUEUE_SIZE;
    hide SqIntact, Slot, Numbered;
    if |submitted| < fetched + QUEUE_SIZE {
      SqFits(sq, submitted, fetched, e);
    } else if SqIntact(sq[Slot(|submitted|, QUEUE_SIZE) := e], submitted + [e], fetched) {
      NumberedMore(submitted, e);
      AtMostFull(sq[Slot(|submitted|, QUEUE_SIZE) := e], submitted + [e], fetched);
    }
  }

  // After it the tail meets the head, and the controller sees nothing to fetch, exactly when 63 were
  // waiting.
  lemma TailMeetsHead(submitted: nat, fetched: nat)
    requires fetched <= submitted <= fetched + QUEUE_SIZE
    ensures Slot(submitted + 1, QUEUE_SIZE) == Slot(fetched, QUEUE_SIZE) <==> submitted == fetched + QUEUE_SIZE - 1
  {
    if submitted + 1 < fetched + QUEUE_SIZE {
      SlotsApart(fetched, submitted + 1, QUEUE_SIZE);
    } else {
      assert Slot(fetched + QUEUE_SIZE, QUEUE_SIZE) == Slot(fetched, QUEUE_SIZE);
      SlotsApart(fetched + QUEUE_SIZE, fetched + QUEUE_SIZE + 1, QUEUE_SIZE);
    }
  }

  lemma SqAdvance(sq: seq<SqEntry>, submitted: seq<SqEntry>, fetched: nat)
    requires SqIntact(sq, submitted, fetched) && fetched < |submitted|
    ensures SqIntact(sq, submitted, fetched + 1)
    ensures sq[Slot(fetched, QUEUE_SIZE)] == submitted[fetched]
  {
  }

  class QueuePair {
    const sq: array<SqEntry>
    const cq: array<CqEntry>
    var sqTail: nat
    var cqHead: nat
    var cqPhase: nat
    var nextCid: nat
    // The controller's own submission-queue head.
    var controllerHead: nat
    // The controller's completion slot and phase.
    var postSlot: nat
    var postPhase: nat
    ghost var submitted: seq<SqEntry>
    ghost var fetched: nat
    ghost var completions: seq<CqEntry>
    ghost var consumed: nat

    ghost predicate Valid()
      reads this, sq, cq
    {
      && sq as object != cq && cq.Length == QUEUE_SIZE
      && sq.Length == QUEUE_SIZE && fetched <= |submitted| && Numbered(submitted)
      && consumed <= |completions| <= consumed + QUEUE_SIZE
      && Posted(cq[..], completions, Phase)
      && sqTail == Slot(|submitted|, QUEUE_SIZE)
      && controllerHead == Slot(fetched, QUEUE_SIZE)
      && nextCid == Slot(|submitted|, CID_SPACE)
      && postSlot == Slot(|completions|, QUEUE_SIZE)
      && postPhase == (if Lap(|completions|, QUEUE_SIZE) then 1 else 0)
      && cqHead == Slot(consumed, QUEUE_SIZE)
      && cqPhase == if Lap(consumed, QUEUE_SIZE) then 1 else 0
    }

    // The commands waiting for the controller are all there.
    ghost predicate Intact()
      reads this, sq
    {
      SqIntact(sq[..], submitted, fetched)
    }

    // Every command has been fetched, completed and polled.
    ghost predicate Quiet()
      reads this
    {
      |submitted| == fetched == |completions| == consumed
    }

    constructor ()
      ensures Valid() && Quiet() && submitted == [] && fresh(sq) && fresh(cq)
    {
      sq := new SqEntry[QUEUE_SIZE](i => SqEntry(0, 0, 0, 0, 0, 0, 0));
      cq := new CqEntry[QUEUE_SIZE](i => CqEntry(0, 0));
      sqTail, cqHead, cqPhase, nextCid := 0, 0, 1, 0;
      controllerHead, postSlot, postPhase := 0, 0, 1;
      submitted, fetched, completions, consumed := [], 0, [], 0;
      new;
      PostedInit(cq[..], Phase);
    }

    // The code does not test for a full submission queue.  What waits there survives exactly when fewer
    // than 64 commands were waiting; the controller sees the new one exactly when it was not 63.
    method Submit(e: SqEntry) returns (cid: nat)
      requires Valid()
      modifies sq, this`sqTail, this`nextCid, this`submitted
      ensures Valid() && cid == Slot(|old(submitted)|, CID_SPACE)
      ensures submitted == old(submitted) + [e.(cid := cid)]
      ensures old(Intact()) ==>
        && (Intact() <==> |old(submitted)| - fetched < QUEUE_SIZE)
        && (sqTail == controllerHead <==> |old(submitted)| - fetched == QUEUE_SIZE - 1)
    {
      hide Posted, Lap, SqIntact;
      cid := nextCid;
      nextCid := if nextCid + 1 == CID_SPACE then 0 else nextCid + 1;
      var sqe := e.(cid := cid);
      if Intact() {
        AtMostFull(sq[..], submitted, fetched);
        SqAppend(sq[..], submitted, fetched, sqe);
        TailMeetsHead(|submitted|, fetched);
      }
      NextSlot(|submitted|, QUEUE_SIZE);
      NextSlot(|submitted|, CID_SPACE);
      sq[sqTail] := sqe;
      sqTail := if sqTail + 1 == QUEUE_SIZE then 0 else sqTail + 1;
      submitted := submitted + [sqe];
    }

    // The controller takes the command at its head when the tail doorbell is ahead of it.
    method ControllerFetch() returns (e: SqEntry)
      requires Valid() && Intact() && sqTail != controllerHead
      modifies this`controllerHead, this`fetched
      ensures Valid() && Intact() && fetched == old(fetched) + 1 && fetched <= |submitted|
      ensures e == submitted[old(fetched)]
    {
      hide Posted, SqIntact, Lap;
      assert fetched < |submitted|;
      SqAdvance(sq[..], submitted, fetched);
      NextSlot(fetched, QUEUE_SIZE);
      e := sq[controllerHead];
      controllerHead := if controllerHead + 1 == QUEUE_SIZE then 0 else controllerHead + 1;
      fetched := fetched + 1;
    }

    // The controller posts a completion with the phase tag of its lap.
    method ControllerPost(cid: nat, code: nat)
      requires Valid() && |completions| < consumed + QUEUE_SIZE
      modifies cq, this`completions, this`postSlot, this`postPhase
      ensures Valid()
      ensures |completions| == |old(completions)| + 1 && completions[..|old(completions)|] == old(completions)
      ensures completions[|old(completions)|].cid == cid && completions[|old(completions)|].status / 2 == code
    {
      hide Posted, Slot, Lap;
      var c := CqEntry(cid, 2 * code + postPhase);
      PostedStep(cq[..], completions, Phase, c);
      NextSlot(|completions|, QUEUE_SIZE);
      NextLap(|completions|, QUEUE_SIZE);
      cq[postSlot] := c;
      completions := completions + [c];
      postSlot := postSlot + 1;
      if postSlot == QUEUE_SIZE {
        postSlot, postPhase := 0, 1 - postPhase;
      }
    }

    // One iteration of the polling loop.
    method Poll(expected: nat) returns (r: PollResult)
      requires Valid()
      modifies this`cqHead, this`cqPhase, this`consumed
      ensures Valid()
      ensures r.Empty? <==> old(consumed) == |completions|
      ensures r.WrongCid? <==> old(consumed) < |completions| && completions[old(consumed)].cid != expected
      ensures !r.Done? ==> consumed == old(consumed)
      ensures r.Done? ==> consumed == old(consumed) + 1 && r.status == completions[old(consumed)].status / 2
    {
      hide Posted, Lap, Slot;
      BitTellsNew(cq[..], completions, Phase, consumed);
      NextSlot(consumed, QUEUE_SIZE);
      NextLap(consumed, QUEUE_SIZE);
      var c := cq[cqHead];
      if c.status % 2 != cqPhase {
        return Empty;
      }
      if c.cid != expected {
        return WrongCid;
      }
      cqHead := if cqHead + 1 == QUEUE_SIZE then 0 else cqHead + 1;
      if cqHead == 0 {
        cqPhase := 1 - cqPhase;
      }
      consumed := consumed + 1;
      return Done(c.status / 2);
    }

    // `submit_qe` and the whole of `poll_qe`, against a controller that answers after `delay` polls with
    // some identifier and code.  It times out exactly when the answer is too late, and the identifier
    // assert fires exactly when the answer is to another command; otherwise the status is the
    // controller's and the pair is quiet again - for any number of commands, across every wrap of
    // tail, head, phase and identifier.
    method Command(e: SqEntry, delay: nat, answer: nat, code: nat) returns (r: Answer)
      requires Valid() && Quiet()
      modifies sq, cq, this
      ensures Valid() && |submitted| == |old(submitted)| + 1
      ensures submitted[|old(submitted)|] == e.(cid := Slot(|old(submitted)|, CID_SPACE))
      ensures r.TimedOut? <==> delay >= CSTS_POLL_LIMIT
      ensures r.CidPanic? <==> delay < CSTS_POLL_LIMIT && answer != Slot(|old(submitted)|, CID_SPACE)
      ensures r.Status? ==> r.status == code && Quiet()
    {
      hide Posted, Slot;
      var cid := Submit(e);
      for i := 0 to CSTS_POLL_LIMIT
        invariant Valid() && |submitted| == |old(submitted)| + 1
        invariant submitted[|old(submitted)|] == e.(cid := cid)
        invariant delay >= i && Intact() && sqTail != controllerHead
        invariant fetched == |completions| == consumed == |submitted| - 1
      {
        if i == delay {
          var taken := ControllerFetch();
          ControllerPost(answer, code);
          var last := Poll(cid);
          return if last.WrongCid? then CidPanic else Status(last.status);
        }
        var r := Poll(cid);
      }
      return TimedOut;
    }
  }

  // Callers test the status `poll_qe` returns, already shifted past the phase tag, with
  // `status & 0xFFFE`.  That accepts success and exactly one failure: status code 1, invalid opcode.
  function CallerAccepts(status: nat): bool {
    status - status % 2 == 0
  }

  lemma MaskAcceptsOneFailure(raw: nat)
    requires raw < 0x1_0000
    ensures CallerAccepts(raw / 2) <==> raw / 2 == 0 || raw / 2 == 1
    ensures CallerAccepts(0x0002 / 2) && 0x0002 / 2 != 0
  {
  }
}
