/** What one call of `try_push` or `try_pop` on the ring of src/mpsc_ring_buffer.hpp comes to,
    with any steps of the other threads between its accesses. */
module MpscProgress {
  import opened MpscRing
  import opened MpscGuarantees
  import opened Slots

  /** Steps of other threads, between two accesses of the consumer. */
  predicate LeavesConsumer<T>(schedule: seq<Action<T>>) {
    forall i :: 0 <= i < |schedule| ==> !schedule[i].Consume?
  }

  lemma {:induction false} WaitingConsumerKept<T>(s: Ring<T>, schedule: seq<Action<T>>)
    requires WellFormed(s) && LeavesConsumer(schedule)
    ensures var r := Run(s, schedule);
            && r.consumer == s.consumer && r.popped == s.popped && r.head == s.head
            && r.size == s.size && s.claims <= r.claims
    decreases |schedule|
  {
    if schedule != [] {
      WaitingConsumerKept(Step(s, schedule[0]), schedule[1..]);
    }
  }

  /** A pop that finds its position published takes that position's item, hands the slot
      back for the next lap, and moves head_, whatever the producers do meanwhile. */
  lemma TakenIsDelivered<T>(s: Ring<T>, m2: seq<Action<T>>, m3: seq<Action<T>>)
    requires Inv(s) && s.consumer.Taken?
    requires LeavesConsumer(m2) && LeavesConsumer(m3)
    ensures |s.popped| < |s.claims|
    ensures
      var pos, item := |s.popped|, s.claims[|s.popped|].item;
      var released := Step(Run(s, m2), Consume);
      var done := Step(Run(released, m3), Consume);
      && released.popped == s.popped + [item] && released.size == s.size
      && released.SequenceAt(pos) == pos + s.size
      && done.popped == s.popped + [item] && done.head == pos + 1 && done.consumer == Away
  {
    var a := Run(s, m2);
    RunKeeps(s, m2);
    WaitingConsumerKept(s, m2);
    var released := Step(a, Consume);
    ConsumerStepKeeps(a);
    RunKeeps(released, m3);
    WaitingConsumerKept(released, m3);
  }

  /** `try_pop` reports empty exactly when position |popped| was unpublished as it read the
      slot's sequence; otherwise it delivers that position's item. */
  lemma PopDelivers<T(!new)>(s: Ring<T>, m1: seq<Action<T>>, m2: seq<Action<T>>, m3: seq<Action<T>>)
    requires Reachable(s) && s.consumer.Located?
    requires LeavesConsumer(m1) && LeavesConsumer(m2) && LeavesConsumer(m3)
    ensures WellFormed(s)
    ensures
      var verdict := Step(Run(Step(s, Consume), m1), Consume);
      && verdict.popped == s.popped && verdict.head == s.head
      && (verdict.consumer == Away <==> !Published(s, |s.popped|))
    ensures
      Published(s, |s.popped|) ==>
        var pos, item := |s.popped|, s.claims[|s.popped|].item;
        var verdict := Step(Run(Step(s, Consume), m1), Consume);
        var released := Step(Run(verdict, m2), Consume);
        var done := Step(Run(released, m3), Consume);
        && released.popped == s.popped + [item] && released.size == s.size
        && released.SequenceAt(pos) == pos + s.size
        && done.popped == s.popped + [item] && done.head == pos + 1 && done.consumer == Away
  {
    ReachableInv(s);
    PopVerdict(s);
    var checked := Step(s, Consume);
    ConsumerStepKeeps(s);
    var later := Run(checked, m1);
    RunKeeps(checked, m1);
    WaitingConsumerKept(checked, m1);
    var verdict := Step(later, Consume);
    ConsumerStepKeeps(later);
    if Published(s, |s.popped|) {
      TakenIsDelivered(verdict, m2, m3);
    }
  }

  // ----- pushing -----

  lemma {:induction false} WaitingHistoryKept<T>(s: Ring<T>, schedule: seq<Action<T>>, pid: nat)
    requires WellFormed(s) && pid < |s.producers| && !s.producers[pid].Outside?
    requires LeavesAlone(schedule, pid)
    ensures var r := Run(s, schedule);
            && |r.producers| == |s.producers| && r.producers[pid] == s.producers[pid]
            && r.accepted[pid] == s.accepted[pid] && s.claims <= r.claims && r.size == s.size
    decreases |schedule|
  {
    if schedule != [] {
      var r := Step(s, schedule[0]);
      assert r.producers[pid] == s.producers[pid] && r.accepted[pid] == s.accepted[pid];
      WaitingHistoryKept(r, schedule[1..], pid);
    }
  }

  /** Every round of the loop of `try_push`: it gives up exactly if the ring was full at the
      read of the sequence; it wins its position exactly if that was free at the read, tail_
      still stands there, and the CAS does not fail spuriously; otherwise it goes round again
      from the tail_ it now sees, having changed nothing. */
  lemma PushDecides<T(!new)>(s: Ring<T>, pid: nat, meanwhile: seq<Action<T>>, spurious: bool)
    requires Reachable(s) && pid < |s.producers| && s.producers[pid].Loaded?
    requires LeavesAlone(meanwhile, pid)
    ensures WellFormed(s)
    ensures
      var (item, pos) := (s.producers[pid].item, s.producers[pid].pos);
      var full := pos == s.tail == |s.popped| + s.size;
      var used := pos < |s.popped| || Published(s, pos);
      var later := Run(Step(s, Advance(pid, spurious)), meanwhile);
      var verdict := Step(later, Advance(pid, spurious));
      var wins := !full && !used && later.tail == pos && !spurious;
      && pid < |later.producers|
      && verdict == later.(
           producers := later.producers[pid :=
             if full then Outside(false) else if wins then Claimed(item, pos) else Loaded(item, later.tail)],
           tail := if wins then pos + 1 else later.tail,
           claims := if wins then later.claims + [Claim(pid, item)] else later.claims)
  {
    ReachableInv(s);
    assert ProducerOk(s, pid);
    SampleMeaning(s, s.producers[pid].pos);
    WaitingProducerKept(Step(s, Advance(pid, spurious)), meanwhile, pid);
  }

  /** Having won its position, `try_push` publishes its item there and returns true. */
  lemma PushDelivers<T(!new)>(s: Ring<T>, pid: nat, m1: seq<Action<T>>, m2: seq<Action<T>>, spurious: bool)
    requires Reachable(s) && pid < |s.producers| && s.producers[pid].Claimed?
    requires LeavesAlone(m1, pid) && LeavesAlone(m2, pid)
    ensures WellFormed(s)
    ensures
      var (item, pos) := (s.producers[pid].item, s.producers[pid].pos);
      var written := Step(Run(s, m1), Advance(pid, spurious));
      var done := Step(Run(written, m2), Advance(pid, spurious));
      && pid < |done.producers| && done.producers[pid] == Outside(true)
      && pos < |done.claims| && done.claims[pos] == Claim(pid, item) && Published(done, pos)
      && done.accepted[pid] == s.accepted[pid] + [item]
  {
    ReachableInv(s);
    RunKeeps(s, m1);
    WaitingHistoryKept(s, m1, pid);
    var written := Step(Run(s, m1), Advance(pid, spurious));
    assert ProducerOk(Run(s, m1), pid);
    ProducerStepKeeps(Run(s, m1), pid, spurious);
    RunKeeps(written, m2);
    WaitingHistoryKept(written, m2, pid);
    assert ProducerOk(Run(written, m2), pid);
  }

  // ----- undisturbed calls -----

  lemma RunOne<T>(s: Ring<T>, a: Action<T>)
    requires WellFormed(s)
    ensures Run(s, [a]) == Step(s, a)
  {
    assert [a] == [a] + [];
    RunCons(s, a, []);
  }

  lemma {:induction false} RunAppend<T>(s: Ring<T>, first: seq<Action<T>>, second: seq<Action<T>>)
    requires WellFormed(s)
    ensures Run(s, first + second) == Run(Run(s, first), second)
    decreases |first|
  {
    if first == [] {
      assert first + second == second;
    } else {
      assert (first + second)[1..] == first[1..] + second;
      RunAppend(Step(s, first[0]), first[1..], second);
    }
  }

  /** The five accesses of pops that find something, n times. */
  function Pops<T>(n: nat): seq<Action<T>> {
    if n == 0 then [] else [Consume, Consume, Consume, Consume, Consume] + Pops(n - 1)
  }

  lemma PopAlone<T>(s: Ring<T>)
    requires Inv(s) && s.consumer.Away? && Published(s, |s.popped|)
    ensures
      var r := Run(s, [Consume, Consume, Consume, Consume, Consume]);
      && r.popped == s.popped + [s.claims[|s.popped|].item] && r.consumer.Away?
      && r.producers == s.producers && r.claims == s.claims && r.tail == s.tail
  {
    var s1 := Step(s, Consume);
    var s2 := Step(s1, Consume);
    var s3 := Step(s2, Consume);
    var s4 := Step(s3, Consume);
    var c: seq<Action<T>> := [Consume];
    assert c + (c + (c + (c + c))) == [Consume, Consume, Consume, Consume, Consume];
    RunCons(s, Consume, c + (c + (c + c)));
    RunCons(s1, Consume, c + (c + c));
    RunCons(s2, Consume, c + c);
    RunCons(s3, Consume, c);
    RunOne(s4, Consume);
    assert s2.consumer == Checked(|s.popped|, |s.popped| + 1);
  }

  /** With the producers at rest, as many pops as there are claimed and untaken positions take
      every item ever claimed, in the order in which the positions were won. */
  lemma {:induction false} PopsDrain<T>(s: Ring<T>)
    requires Inv(s) && s.consumer.Away?
    requires forall pid: nat :: pid < |s.producers| ==> s.producers[pid].Outside?
    ensures Run(s, Pops(s.tail - |s.popped|)).popped == Items(s.claims)
    decreases s.tail - |s.popped|
  {
    if |s.popped| == s.tail {
      assert s.claims[..|s.popped|] == s.claims;
    } else {
      assert PositionOk(s, |s.popped|) && OwnerOk(s, |s.popped|);
      PopAlone(s);
      var once := [Consume, Consume, Consume, Consume, Consume];
      RunAppend(s, once, Pops(s.tail - |s.popped| - 1));
      RunKeeps(s, once);
      PopsDrain(Run(s, once));
    }
  }

  /** An undisturbed push succeeds exactly if the ring is not full, and then fills the next
      position; refused, it leaves no trace. */
  lemma UncontendedPush<T(!new)>(s: Ring<T>, pid: nat, item: T)
    requires Reachable(s) && pid < |s.producers| && s.producers[pid].Outside?
    ensures WellFormed(s)
    ensures
      var a := Advance(pid, false);
      var verdict := Step(Step(Step(s, Call(pid, item)), a), a);
      if s.tail == |s.popped| + s.size then
        verdict == s.(producers := s.producers[pid := Outside(false)])
      else
        Step(Step(verdict, a), a) == s.(
          tail := s.tail + 1,
          claims := s.claims + [Claim(pid, item)],
          data := s.data[Slot(s.tail, s.size) := item],
          sequences := s.sequences[Slot(s.tail, s.size) := s.tail + 1],
          accepted := s.accepted[pid := s.accepted[pid] + [item]],
          producers := s.producers[pid := Outside(true)])
  {
    ReachableInv(s);
    SampleMeaning(s, s.tail);
    var a := Advance(pid, false);
    var s1 := Step(s, Call(pid, item));
    assert s1 == s.(producers := s.producers[pid := Loaded(item, s.tail)]);
    var s2 := Step(s1, a);
    assert s2 == s.(producers := s.producers[pid := Sampled(item, s.tail, s.SequenceAt(s.tail))]);
    var s3 := Step(s2, a);
    if s.tail == |s.popped| + s.size {
      assert s3 == s.(producers := s.producers[pid := Outside(false)]);
    } else {
      assert !Published(s, s.tail);
      var s4 := Step(s3, a);
      assert s3 == s.(tail := s.tail + 1, claims := s.claims + [Claim(pid, item)],
                      producers := s.producers[pid := Claimed(item, s.tail)]);
    }
  }
}
