/** What the ring of src/mpsc_ring_buffer.hpp guarantees in every reachable state, and why its
    Size must be at least 2. */
module MpscGuarantees {
  import opened MpscRing
  import opened Slots

  // ----- order and ownership -----

  /** Nothing lost, duplicated or reordered: what the consumer took is exactly the first
      |popped| items in the order in which tail positions were won. */
  lemma PoppedIsClaimPrefix<T(!new)>(s: Ring<T>)
    requires Reachable(s)
    ensures |s.popped| <= |s.claims| == s.tail
    ensures s.popped == Items(s.claims)[..|s.popped|]
    ensures s.tail - |s.popped| <= s.size
  {
    ReachableInv(s);
  }

  /** A live position is held by exactly one producer, or published with the item of the
      producer that won it, never both. */
  lemma LivePositionsHaveOneOwner<T(!new)>(s: Ring<T>, p: nat)
    requires Reachable(s) && |s.popped| <= p < s.tail
    ensures p < |s.claims| && s.claims[p].pid < |s.producers| && WellFormed(s)
    ensures Published(s, p) <==> !exists pid: nat :: pid < |s.producers| && Holds(s.producers[pid], p, s.claims[p].item)
    ensures forall pid: nat, item :: pid < |s.producers| && Holds(s.producers[pid], p, item) ==>
              Claim(pid, item) == s.claims[p]
  {
    ReachableInv(s);
    assert PositionOk(s, p) && OwnerOk(s, p);
    forall pid: nat, item | pid < |s.producers| && Holds(s.producers[pid], p, item)
      ensures Claim(pid, item) == s.claims[p] && !Published(s, p)
    {
      assert ProducerOk(s, pid);
    }
  }

  /** The slot a producer is about to write is never the slot another producer is about to
      write, nor the one the consumer is reading. */
  lemma NoSlotWrittenAndRead<T(!new)>(s: Ring<T>, pid: nat)
    requires Reachable(s) && pid < |s.producers| && s.producers[pid].Claimed?
    ensures s.size > 0
    ensures forall q: nat :: q < |s.producers| && q != pid && (s.producers[q].Claimed? || s.producers[q].Written?) ==>
              Slot(s.producers[q].pos, s.size) != Slot(s.producers[pid].pos, s.size)
    ensures s.consumer.Checked? && s.consumer.seen == s.consumer.pos + 1 ==>
              Slot(s.consumer.pos, s.size) != Slot(s.producers[pid].pos, s.size)
    ensures s.consumer.Taken? ==> Slot(s.consumer.pos, s.size) != Slot(s.producers[pid].pos, s.size)
  {
    ReachableInv(s);
    assert ProducerOk(s, pid);
    var lh, pos := s.LogicalHead(), s.producers[pid].pos;
    WindowApart(lh, pos, s.size);
    forall q: nat | q < |s.producers| && q != pid && (s.producers[q].Claimed? || s.producers[q].Written?)
      ensures Slot(s.producers[q].pos, s.size) != Slot(pos, s.size)
    {
      assert ProducerOk(s, q);
    }
    assert PositionOk(s, lh);
  }

  // ----- per-producer order and conservation -----

  lemma {:induction false} ItemsOfPrefix<T>(claims: seq<Claim<T>>, k: nat, pid: nat)
    requires k <= |claims|
    ensures ItemsOf(claims[..k], pid) <= ItemsOf(claims, pid)
  {
    if k < |claims| {
      var shorter := claims[..|claims| - 1];
      ItemsOfPrefix(shorter, k, pid);
      assert shorter[..k] == claims[..k];
    } else {
      assert claims[..k] == claims;
    }
  }

  /** Per-producer FIFO: the items taken from one producer are, in order, a prefix of the
      items for which that producer's `try_push` returned true. */
  lemma ProducerOrderKept<T(!new)>(s: Ring<T>, pid: nat)
    requires Reachable(s) && pid < |s.producers|
    ensures |s.popped| <= |s.claims| && pid < |s.accepted|
    ensures ItemsOf(s.claims[..|s.popped|], pid) <= s.accepted[pid]
  {
    ReachableInv(s);
    assert ProducerOk(s, pid);
    var lh := s.LogicalHead();
    ItemsOfPrefix(s.claims, lh, pid);
    if InProgress(s.producers[pid]) != [] {
      var pos := s.producers[pid].pos;
      ItemsOfPrefix(s.claims[..pos], lh, pid);
      assert s.claims[..pos][..lh] == s.claims[..lh];
      assert s.claims[..pos + 1] == s.claims[..pos] + [s.claims[pos]];
      ItemsOfAppend(s.claims[..pos], s.claims[pos], pid);
      ItemsOfPrefix(s.claims, pos + 1, pid);
    }
  }

  /** At rest every accepted item is either taken or sits published in the ring, in order. */
  lemma RestingRingHoldsTheRest<T(!new)>(s: Ring<T>)
    requires Reachable(s)
    requires forall pid: nat :: pid < |s.producers| ==> s.producers[pid].Outside?
    requires s.consumer.Away?
    ensures WellFormed(s) && s.head == |s.popped| <= s.tail == |s.claims|
    ensures Items(s.claims) == s.popped + seq(s.tail - s.head, i requires 0 <= i => s.DataAt(s.head + i))
    ensures forall pid: nat :: pid < |s.producers| ==> ItemsOf(s.claims, pid) == s.accepted[pid]
  {
    ReachableInv(s);
    var resident := seq(s.tail - s.head, i requires 0 <= i => s.DataAt(s.head + i));
    forall i: nat | i < |resident| ensures resident[i] == s.claims[s.head + i].item {
      assert PositionOk(s, s.head + i) && OwnerOk(s, s.head + i);
    }
  }

  // ----- honest verdicts -----

  /** What the sequence of a slot tells the producer that loaded position pos. */
  lemma SampleMeaning<T>(s: Ring<T>, pos: nat)
    requires Inv(s) && pos <= s.tail
    ensures s.SequenceAt(pos) < pos <==> pos == s.tail == s.LogicalHead() + s.size
    ensures s.SequenceAt(pos) > pos <==> pos < s.LogicalHead() || Published(s, pos)
  {
    var lh := s.LogicalHead();
    if pos < lh + s.size {
      SequenceBelowWindow(s, pos);
      if lh <= pos { assert PositionOk(s, pos); }
    } else {
      SlotWraps(lh, s.size);
      assert PositionOk(s, lh);
    }
  }

  /** A schedule in which producer pid does not move. */
  predicate LeavesAlone<T>(schedule: seq<Action<T>>, pid: nat) {
    forall i :: 0 <= i < |schedule| ==> !(schedule[i].Advance? && schedule[i].pid == pid)
  }

  lemma {:induction false} WaitingProducerKept<T>(s: Ring<T>, schedule: seq<Action<T>>, pid: nat)
    requires WellFormed(s) && pid < |s.producers| && !s.producers[pid].Outside?
    requires LeavesAlone(schedule, pid)
    ensures var r := Run(s, schedule); |r.producers| == |s.producers| && r.producers[pid] == s.producers[pid]
    decreases |schedule|
  {
    if schedule != [] {
      var r := Step(s, schedule[0]);
      assert r.producers[pid] == s.producers[pid];
      WaitingProducerKept(r, schedule[1..], pid);
    }
  }

  /** `try_push` returns false exactly when, at the moment it read the slot's sequence, all
      Size positions were claimed and not yet handed back, whatever the other threads do
      between that read and the return. */
  lemma RejectionMeansFull<T(!new)>(s: Ring<T>, pid: nat, meanwhile: seq<Action<T>>, spurious: bool)
    requires Reachable(s) && pid < |s.producers| && s.producers[pid].Loaded?
    requires LeavesAlone(meanwhile, pid)
    ensures WellFormed(s)
    ensures
      var sampled := Step(s, Advance(pid, spurious));
      var later := Run(sampled, meanwhile);
      var verdict := Step(later, Advance(pid, spurious));
      && pid < |verdict.producers|
      && (verdict.producers[pid] == Outside(false) <==>
            s.tail - |s.popped| == s.size && s.producers[pid].pos == s.tail)
  {
    ReachableInv(s);
    assert ProducerOk(s, pid);
    SampleMeaning(s, s.producers[pid].pos);
    WaitingProducerKept(Step(s, Advance(pid, spurious)), meanwhile, pid);
  }

  /** `try_pop` never sees a sequence ahead of its position plus one; it reports empty
      exactly when the position at its head was not published at the read. */
  lemma PopVerdict<T(!new)>(s: Ring<T>)
    requires Reachable(s) && s.consumer.Located?
    ensures WellFormed(s)
    ensures s.SequenceAt(s.consumer.pos) <= s.consumer.pos + 1
    ensures s.SequenceAt(s.consumer.pos) < s.consumer.pos + 1 <==> !Published(s, |s.popped|)
  {
    ReachableInv(s);
    assert PositionOk(s, s.LogicalHead());
  }

  lemma RunCons<T>(s: Ring<T>, a: Action<T>, rest: seq<Action<T>>)
    requires WellFormed(s)
    ensures Run(s, [a] + rest) == Run(Step(s, a), rest)
  {
    assert ([a] + rest)[1..] == rest;
  }

  function PushAlone<T>(item: T): seq<Action<T>> {
    [Call(0, item)] + ([Advance(0, false)] + ([Advance(0, false)] + ([Advance(0, false)] + [Advance(0, false)])))
  }

  /** One uncontended push into a ring of one slot. */
  lemma PushIntoOneSlot(s: Ring<int>, item: int)
    requires WellFormed(s) && s.size == 1 && |s.producers| == 1 && s.producers[0].Outside?
    requires s.sequences == [s.tail]
    ensures Run(s, PushAlone(item))
         == s.(tail := s.tail + 1, claims := s.claims + [Claim(0, item)],
               data := [item], sequences := [s.tail + 1],
               accepted := [s.accepted[0] + [item]], producers := [Outside(true)])
  {
    var a: Action<int> := Advance(0, false);
    var t := s.tail;
    assert Slot(t, 1) == 0;
    var s1 := s.(producers := [Loaded(item, t)]);
    assert Step(s, Call(0, item)) == s1;
    var s2 := s.(producers := [Sampled(item, t, t)]);
    assert Step(s1, a) == s2;
    var s3 := s.(tail := t + 1, claims := s.claims + [Claim(0, item)], producers := [Claimed(item, t)]);
    assert Step(s2, a) == s3;
    var s4 := s3.(data := [item], producers := [Written(item, t)]);
    assert Step(s3, a) == s4;
    assert Step(s4, a) == s4.(sequences := [t + 1], accepted := [s.accepted[0] + [item]],
                              producers := [Outside(true)]);
    RunCons(s, Call(0, item), [a] + ([a] + ([a] + [a])));
    RunCons(s1, a, [a] + ([a] + [a]));
    RunCons(s2, a, [a] + [a]);
    RunCons(s3, a, [a]);
    RunCons(s4, a, []);
    assert [a] + [] == [a];
  }

  /** Why Size must be at least 2: with one slot a second push takes the sequence of the
      published first item for a free slot and overwrites it, and both report success. */
  lemma OneSlotLosesAnItem()
    ensures var s := Run(Run(Initial<int>(1, 1, 0), PushAlone(7)), PushAlone(8));
            s.accepted == [[7, 8]] && s.popped == [] && s.data == [8]
  {
    var s := Initial<int>(1, 1, 0);
    PushIntoOneSlot(s, 7);
    var first := Run(s, PushAlone(7));
    assert first.accepted[0] == [] + [7] == [7];
    PushIntoOneSlot(first, 8);
    assert [7] + [8] == [7, 8];
  }
}
