/** The bounded multi-producer single-consumer ring of src/mpsc_ring_buffer.hpp.

    Every atomic access of `try_push` and `try_pop` is one step; a run is any finite
    schedule of such steps, taken by any number of producers and one consumer.  The
    counters are unbounded, and `pos & (Size - 1)` is `pos % Size`.

    The model records, beside the shared memory, what the proof needs to talk about the
    past: which producer won each tail position (`claims`), the items for which `try_push`
    returned true (`accepted`), and the items whose slot the consumer has handed back
    (`popped`).  The length of `popped` is the logical head: it runs ahead of `head_`
    between the consumer's two stores. */
module MpscRing {
  import opened Slots

  datatype Claim<T> = Claim(pid: nat, item: T)

  /** Where a producer is inside `try_push`. */
  datatype Producer<T> =
    | Outside(ok: bool)                        // the verdict of the last call
    | Loaded(item: T, pos: nat)                // has read tail_
    | Sampled(item: T, pos: nat, seen: nat)    // has read the slot's sequence
    | Claimed(item: T, pos: nat)               // won the CAS on tail_
    | Written(item: T, pos: nat)               // stored the data, not yet the sequence

  /** Where the consumer is inside `try_pop`. */
  datatype Consumer<T> =
    | Away
    | Located(pos: nat)                        // has read head_
    | Checked(pos: nat, seen: nat)             // has read the slot's sequence
    | Taken(pos: nat, item: T)                 // has moved the data out
    | Released(pos: nat, item: T)              // handed the slot back; head_ is behind

  datatype Ring<T> = Ring(
    size: nat,
    head: nat,
    tail: nat,
    sequences: seq<nat>,
    data: seq<T>,
    producers: seq<Producer<T>>,
    consumer: Consumer<T>,
    claims: seq<Claim<T>>,
    accepted: seq<seq<T>>,
    popped: seq<T>)
  {
    function LogicalHead(): nat { |popped| }

    /** The sequence of the slot that position p maps to. */
    function SequenceAt(p: nat): nat
      requires size > 0 && |sequences| == size
    {
      sequences[Slot(p, size)]
    }

    function DataAt(p: nat): T
      requires size > 0 && |data| == size
    {
      data[Slot(p, size)]
    }
  }

  /** One scheduled step.  `spurious` lets a weak CAS fail for no reason. */
  datatype Action<T> =
    | Call(pid: nat, item: T)
    | Advance(pid: nat, spurious: bool)
    | Consume

  function Initial<T>(size: nat, producers: nat, blank: T): Ring<T>
    requires size > 0
  {
    Ring(size, 0, 0, seq(size, i => i), seq(size, i => blank),
         seq(producers, i => Outside(false)), Away, [], seq(producers, i => []), [])
  }

  /** The memory is laid out as declared; steps need nothing else to be well defined. */
  predicate WellFormed<T>(s: Ring<T>) {
    && s.size > 0
    && |s.sequences| == |s.data| == s.size
    && |s.producers| == |s.accepted|
  }

  // ----- the steps -----

  /** The next atomic access of producer pid. */
  function ProducerStep<T>(s: Ring<T>, pid: nat, spurious: bool): (r: Ring<T>)
    requires WellFormed(s) && pid < |s.producers|
    ensures WellFormed(r)
  {
    match s.producers[pid]
    case Outside(_) => s
    case Loaded(item, pos) =>
      s.(producers := s.producers[pid := Sampled(item, pos, s.SequenceAt(pos))])
    case Sampled(item, pos, seen) =>
      if seen == pos then
        if s.tail == pos && !spurious then
          s.(tail := pos + 1,
             claims := s.claims + [Claim(pid, item)],
             producers := s.producers[pid := Claimed(item, pos)])
        else
          s.(producers := s.producers[pid := Loaded(item, s.tail)])
      else if seen < pos then
        s.(producers := s.producers[pid := Outside(false)])
      else
        s.(producers := s.producers[pid := Loaded(item, s.tail)])
    case Claimed(item, pos) =>
      s.(data := s.data[Slot(pos, s.size) := item],
         producers := s.producers[pid := Written(item, pos)])
    case Written(item, pos) =>
      s.(sequences := s.sequences[Slot(pos, s.size) := pos + 1],
         accepted := s.accepted[pid := s.accepted[pid] + [item]],
         producers := s.producers[pid := Outside(true)])
  }

  /** The next atomic access of the consumer, which polls forever. */
  function ConsumerStep<T>(s: Ring<T>): (r: Ring<T>)
    requires WellFormed(s)
    ensures WellFormed(r)
  {
    match s.consumer
    case Away => s.(consumer := Located(s.head))
    case Located(pos) => s.(consumer := Checked(pos, s.SequenceAt(pos)))
    case Checked(pos, seen) =>
      if seen < pos + 1 then s.(consumer := Away)
      else s.(consumer := Taken(pos, s.DataAt(pos)))
    case Taken(pos, item) =>
      s.(sequences := s.sequences[Slot(pos, s.size) := pos + s.size],
         popped := s.popped + [item],
         consumer := Released(pos, item))
    case Released(pos, item) =>
      s.(head := pos + 1, consumer := Away)
  }

  /** A step of the schedule; one that is not enabled changes nothing. */
  function Step<T>(s: Ring<T>, a: Action<T>): (r: Ring<T>)
    requires WellFormed(s)
    ensures WellFormed(r)
  {
    match a
    case Call(pid, item) =>
      if pid < |s.producers| && s.producers[pid].Outside? then
        s.(producers := s.producers[pid := Loaded(item, s.tail)])
      else s
    case Advance(pid, spurious) =>
      if pid < |s.producers| then ProducerStep(s, pid, spurious) else s
    case Consume => ConsumerStep(s)
  }

  function Run<T>(s: Ring<T>, schedule: seq<Action<T>>): (r: Ring<T>)
    requires WellFormed(s)
    ensures WellFormed(r)
    decreases |schedule|
  {
    if schedule == [] then s
    else Run(Step(s, schedule[0]), schedule[1..])
  }

  // ----- the invariant -----

  /** The producer that holds position p: it won the CAS and has not published. */
  ghost predicate Holds<T>(p: Producer<T>, pos: nat, item: T) {
    p == Claimed(item, pos) || p == Written(item, pos)
  }

  ghost predicate Published<T>(s: Ring<T>, p: nat)
    requires WellFormed(s)
  {
    p < s.tail == |s.claims| && s.SequenceAt(p) == p + 1 && s.DataAt(p) == s.claims[p].item
  }

  /** Position p, inside the window, is free, being filled, or published. */
  ghost predicate PositionOk<T>(s: Ring<T>, p: nat)
    requires WellFormed(s)
  {
    s.SequenceAt(p) == p || Published(s, p)
  }

  ghost predicate OwnerOk<T>(s: Ring<T>, p: nat)
    requires WellFormed(s) && p < |s.claims|
  {
    s.SequenceAt(p) == p ==>
      var c := s.claims[p];
      c.pid < |s.producers| && Holds(s.producers[c.pid], p, c.item)
  }

  ghost predicate ProducerOk<T>(s: Ring<T>, pid: nat)
    requires WellFormed(s) && pid < |s.producers|
  {
    match s.producers[pid]
    case Outside(_) => true
    case Loaded(_, pos) => pos <= s.tail
    case Sampled(_, pos, seen) => pos <= s.tail && seen <= s.SequenceAt(pos)
    case Claimed(item, pos) => Owns(s, pid, item, pos)
    case Written(item, pos) => Owns(s, pid, item, pos) && s.DataAt(pos) == item
  }

  ghost predicate Owns<T>(s: Ring<T>, pid: nat, item: T, pos: nat)
    requires WellFormed(s)
  {
    s.LogicalHead() <= pos < s.tail == |s.claims| && s.claims[pos] == Claim(pid, item) && s.SequenceAt(pos) == pos
  }

  ghost predicate ConsumerOk<T>(s: Ring<T>)
    requires WellFormed(s)
  {
    var lh := s.LogicalHead();
    match s.consumer
    case Away => s.head == lh
    case Located(pos) => s.head == lh == pos
    case Checked(pos, seen) => s.head == lh == pos && pos <= seen <= s.SequenceAt(pos)
    case Taken(pos, item) =>
      s.head == lh == pos && Published(s, pos) && item == s.claims[pos].item
    case Released(pos, item) => s.head == pos && lh == pos + 1
  }

  /** The items producer pid won a position for, in the order it won them. */
  function ItemsOf<T>(claims: seq<Claim<T>>, pid: nat): seq<T> {
    if claims == [] then []
    else
      var last := claims[|claims| - 1];
      ItemsOf(claims[..|claims| - 1], pid) + if last.pid == pid then [last.item] else []
  }

  function InProgress<T>(p: Producer<T>): seq<T> {
    if p.Claimed? || p.Written? then [p.item] else []
  }

  function Items<T>(claims: seq<Claim<T>>): seq<T> {
    seq(|claims|, i requires 0 <= i < |claims| => claims[i].item)
  }

  ghost predicate Inv<T>(s: Ring<T>) {
    var lh := s.LogicalHead();
    && WellFormed(s) && s.size >= 2
    && lh <= s.tail == |s.claims| && s.tail <= lh + s.size
    && (forall p: nat :: lh <= p < lh + s.size ==> PositionOk(s, p))
    && (forall p: nat :: lh <= p < s.tail ==> OwnerOk(s, p))
    && (forall pid: nat :: pid < |s.producers| ==> ProducerOk(s, pid))
    && ConsumerOk(s)
    && (forall p: nat :: p < |s.claims| ==> s.claims[p].pid < |s.producers|)
    && s.popped == Items(s.claims[..lh])
    && (forall pid: nat :: pid < |s.producers| ==>
          ItemsOf(s.claims, pid) == s.accepted[pid] + InProgress(s.producers[pid]))
  }

  // ----- sequences against positions -----

  /** Sequence values of a slot, against the positions of the window it serves. */
  lemma SequenceBelowWindow<T>(s: Ring<T>, p: nat)
    requires Inv(s) && p < s.LogicalHead() + s.size
    ensures p <= s.SequenceAt(p)
    ensures p < s.LogicalHead() ==> s.SequenceAt(p) >= p + s.size
    decreases s.LogicalHead() + s.size - p
  {
    if p < s.LogicalHead() {
      SlotWraps(p, s.size);
      SequenceBelowWindow(s, p + s.size);
    } else {
      assert PositionOk(s, p);
    }
  }

  // ----- what single steps keep -----

  lemma CallKeeps<T>(s: Ring<T>, pid: nat, item: T)
    requires Inv(s)
    ensures Inv(Step(s, Call(pid, item)))
  {
    var r := Step(s, Call(pid, item));
    if r != s {
      OthersKept(s, r, pid);
    }
  }

  /** A step of producer pid that leaves memory and history alone leaves every other
      producer as it was. */
  lemma OthersKept<T>(s: Ring<T>, r: Ring<T>, pid: nat)
    requires Inv(s) && WellFormed(r) && pid < |s.producers| == |r.producers|
    requires r == s.(producers := s.producers[pid := r.producers[pid]])
    requires ProducerOk(r, pid)
    requires InProgress(s.producers[pid]) == InProgress(r.producers[pid]) == []
    ensures Inv(r)
  {
    forall p: nat | r.LogicalHead() <= p < r.tail ensures OwnerOk(r, p) {
      assert OwnerOk(s, p);
    }
    forall p: nat | r.LogicalHead() <= p < r.LogicalHead() + r.size ensures PositionOk(r, p) {
      assert PositionOk(s, p);
    }
    forall q: nat | q < |r.producers| ensures ProducerOk(r, q) {
      assert ProducerOk(s, q);
    }
  }

  lemma {:induction false} ItemsOfAppend<T>(claims: seq<Claim<T>>, c: Claim<T>, pid: nat)
    ensures ItemsOf(claims + [c], pid) == ItemsOf(claims, pid) + if c.pid == pid then [c.item] else []
  {
    assert (claims + [c])[..|claims|] == claims;
  }

  /** A successful CAS: the sequence read earlier still stands, and the slot is free. */
  lemma CasSeesFreshSequence<T>(s: Ring<T>, pid: nat)
    requires Inv(s) && pid < |s.producers|
    requires s.producers[pid].Sampled? && s.producers[pid].seen == s.producers[pid].pos == s.tail
    ensures s.tail < s.LogicalHead() + s.size
    ensures s.SequenceAt(s.tail) == s.tail
  {
    assert ProducerOk(s, pid);
    var t, lh := s.tail, s.LogicalHead();
    SlotWraps(lh, s.size);
    assert PositionOk(s, lh);
    if t < lh + s.size {
      assert PositionOk(s, t);
    }
  }

  lemma ClaimKeeps<T>(s: Ring<T>, pid: nat)
    requires Inv(s) && pid < |s.producers|
    requires s.producers[pid].Sampled? && s.producers[pid].seen == s.producers[pid].pos == s.tail
    ensures Inv(ProducerStep(s, pid, false))
  {
    var r := ProducerStep(s, pid, false);
    var t, lh, item := s.tail, s.LogicalHead(), s.producers[pid].item;
    CasSeesFreshSequence(s, pid);
    forall p: nat | lh <= p < lh + r.size ensures PositionOk(r, p) {
      assert PositionOk(s, p);
    }
    forall p: nat | lh <= p < r.tail ensures OwnerOk(r, p) {
      if p < t { assert OwnerOk(s, p); }
    }
    forall q: nat | q < |r.producers| ensures ProducerOk(r, q) {
      assert ProducerOk(s, q);
    }
    assert r.claims[..lh] == s.claims[..lh];
    forall q: nat | q < |r.producers|
      ensures ItemsOf(r.claims, q) == r.accepted[q] + InProgress(r.producers[q])
    {
      ItemsOfAppend(s.claims, Claim(pid, item), q);
    }
  }

  lemma WriteKeeps<T>(s: Ring<T>, pid: nat, spurious: bool)
    requires Inv(s) && pid < |s.producers| && s.producers[pid].Claimed?
    ensures Inv(ProducerStep(s, pid, spurious))
  {
    var r := ProducerStep(s, pid, spurious);
    var pos, lh := s.producers[pid].pos, s.LogicalHead();
    assert ProducerOk(s, pid);
    WindowApart(lh, pos, s.size);
    forall p: nat | lh <= p < lh + r.size ensures PositionOk(r, p) {
      assert PositionOk(s, p);
    }
    forall p: nat | lh <= p < r.tail ensures OwnerOk(r, p) {
      assert OwnerOk(s, p);
    }
    forall q: nat | q < |r.producers| ensures ProducerOk(r, q) {
      assert ProducerOk(s, q);
    }
    assert PositionOk(s, lh);
  }

  lemma PublishKeeps<T>(s: Ring<T>, pid: nat, spurious: bool)
    requires Inv(s) && pid < |s.producers| && s.producers[pid].Written?
    ensures Inv(ProducerStep(s, pid, spurious))
  {
    var r := ProducerStep(s, pid, spurious);
    var pos, lh := s.producers[pid].pos, s.LogicalHead();
    assert ProducerOk(s, pid);
    WindowApart(lh, pos, s.size);
    forall p: nat | lh <= p < lh + r.size ensures PositionOk(r, p) {
      assert PositionOk(s, p);
    }
    forall p: nat | lh <= p < r.tail ensures OwnerOk(r, p) {
      assert OwnerOk(s, p);
    }
    forall q: nat | q < |r.producers| ensures ProducerOk(r, q) {
      assert ProducerOk(s, q);
    }
    assert PositionOk(s, lh);
  }

  lemma ProducerStepKeeps<T>(s: Ring<T>, pid: nat, spurious: bool)
    requires Inv(s) && pid < |s.producers|
    ensures Inv(ProducerStep(s, pid, spurious))
  {
    var r := ProducerStep(s, pid, spurious);
    assert ProducerOk(s, pid);
    match s.producers[pid]
    case Outside(_) =>
    case Loaded(item, pos) => OthersKept(s, r, pid);
    case Sampled(item, pos, seen) =>
      if seen == pos && s.tail == pos && !spurious { ClaimKeeps(s, pid); }
      else { OthersKept(s, r, pid); }
    case Claimed(_, _) => WriteKeeps(s, pid, spurious);
    case Written(_, _) => PublishKeeps(s, pid, spurious);
  }

  lemma ReleaseKeeps<T>(s: Ring<T>)
    requires Inv(s) && s.consumer.Taken?
    ensures Inv(ConsumerStep(s))
  {
    var r := ConsumerStep(s);
    var lh := s.LogicalHead();
    WindowApart(lh, lh, s.size);
    SlotWraps(lh, s.size);
    forall p: nat | lh + 1 <= p < lh + 1 + r.size ensures PositionOk(r, p) {
      if p < lh + s.size { assert PositionOk(s, p); }
    }
    forall p: nat | lh + 1 <= p < r.tail ensures OwnerOk(r, p) {
      assert OwnerOk(s, p);
    }
    forall q: nat | q < |r.producers| ensures ProducerOk(r, q) {
      assert ProducerOk(s, q);
    }
    assert s.claims[..lh + 1] == s.claims[..lh] + [s.claims[lh]];
  }

  /** The consumer's other steps touch only its own state and head_. */
  lemma ConsumerLocalKeeps<T>(s: Ring<T>, r: Ring<T>)
    requires Inv(s) && WellFormed(r)
    requires r == s.(consumer := r.consumer, head := r.head) && ConsumerOk(r)
    ensures Inv(r)
  {
    forall p: nat | s.LogicalHead() <= p < s.LogicalHead() + s.size ensures PositionOk(r, p) {
      assert PositionOk(s, p);
    }
    forall p: nat | s.LogicalHead() <= p < s.tail ensures OwnerOk(r, p) {
      assert OwnerOk(s, p);
    }
    forall q: nat | q < |r.producers| ensures ProducerOk(r, q) {
      assert ProducerOk(s, q);
    }
  }

  lemma ConsumerStepKeeps<T>(s: Ring<T>)
    requires Inv(s)
    ensures Inv(ConsumerStep(s))
  {
    if s.consumer.Taken? {
      ReleaseKeeps(s);
    } else {
      assert PositionOk(s, s.LogicalHead());
      ConsumerLocalKeeps(s, ConsumerStep(s));
    }
  }

  // ----- whole runs -----

  ghost predicate Reachable<T(!new)>(s: Ring<T>) {
    exists size: nat, producers: nat, blank: T, schedule: seq<Action<T>> ::
      size >= 2 && s == Run(Initial(size, producers, blank), schedule)
  }

  lemma {:induction false} RunKeeps<T>(s: Ring<T>, schedule: seq<Action<T>>)
    requires Inv(s)
    ensures Inv(Run(s, schedule))
    decreases |schedule|
  {
    if schedule != [] {
      match schedule[0] {
        case Call(pid, item) => CallKeeps(s, pid, item);
        case Advance(pid, spurious) =>
          if pid < |s.producers| { ProducerStepKeeps(s, pid, spurious); }
        case Consume => ConsumerStepKeeps(s);
      }
      RunKeeps(Step(s, schedule[0]), schedule[1..]);
    }
  }

  lemma InitialInv<T>(size: nat, producers: nat, blank: T)
    requires size >= 2
    ensures Inv(Initial(size, producers, blank))
  {
    var s := Initial(size, producers, blank);
    forall p: nat | p < size ensures PositionOk(s, p) {
      assert Slot(p, size) == p;
    }
    assert s.popped == Items(s.claims[..0]);
  }

  lemma ReachableInv<T(!new)>(s: Ring<T>)
    requires Reachable(s)
    ensures Inv(s)
  {
    var size: nat, producers: nat, blank: T, schedule: seq<Action<T>> :|
      size >= 2 && s == Run(Initial(size, producers, blank), schedule);
    InitialInv(size, producers, blank);
    RunKeeps(Initial(size, producers, blank), schedule);
  }

  // ----- the buffer itself -----

  /** The ring with its memory updated in place.  Each method performs one atomic access on
      behalf of one thread, with the branches of `try_push` and `try_pop`. */
  class MpscRingBuffer<T(0)> {
    const size: nat
    var head: nat
    var tail: nat
    const sequences: array<nat>
    const data: array<T>
    var producers: seq<Producer<T>>
    var consumer: Consumer<T>
    ghost var claims: seq<Claim<T>>
    ghost var accepted: seq<seq<T>>
    ghost var popped: seq<T>

    ghost predicate Valid()
      reads this, sequences, data
    {
      && sequences.Length == data.Length == size > 0
      && sequences as object != data as object
      && |producers| == |accepted|
    }

    ghost function State(): (s: Ring<T>)
      reads this, sequences, data
      requires Valid()
      ensures WellFormed(s)
    {
      Ring(size, head, tail, sequences[..], data[..], producers, consumer, claims, accepted, popped)
    }

    constructor (size: nat, threads: nat, blank: T)
      requires size >= 2
      ensures Valid() && fresh(sequences) && fresh(data)
      ensures State() == Initial(size, threads, blank) && Inv(State())
    {
      this.size := size;
      head, tail := 0, 0;
      var cells := new nat[size];
      for i := 0 to size
        invariant forall k :: 0 <= k < i ==> cells[k] == k
      {
        cells[i] := i;
      }
      sequences := cells;
      data := new T[size](i => blank);
      producers := seq(threads, i => Outside(false));
      consumer := Away;
      claims, accepted, popped := [], seq(threads, i => []), [];
      new;
      InitialInv(size, threads, blank);
    }

    /** Entering `try_push` loads tail_. */
    method EnterPush(pid: nat, item: T)
      requires Valid() && pid < |producers| && producers[pid].Outside?
      modifies this
      ensures Valid() && State() == Step(old(State()), Call(pid, item))
    {
      producers := producers[pid := Loaded(item, tail)];
    }

    method AdvanceProducer(pid: nat, spurious: bool)
      requires Valid() && pid < |producers|
      modifies this, sequences, data
      ensures Valid() && State() == Step(old(State()), Advance(pid, spurious))
    {
      match producers[pid]
      case Outside(_) =>
      case Loaded(item, pos) =>
        producers := producers[pid := Sampled(item, pos, sequences[Slot(pos, size)])];
      case Sampled(item, pos, seen) =>
        var diff := seen - pos;
        if diff == 0 {
          if tail == pos && !spurious {
            tail := pos + 1;
            claims := claims + [Claim(pid, item)];
            producers := producers[pid := Claimed(item, pos)];
          } else {
            producers := producers[pid := Loaded(item, tail)];
          }
        } else if diff < 0 {
          producers := producers[pid := Outside(false)];
        } else {
          producers := producers[pid := Loaded(item, tail)];
        }
      case Claimed(item, pos) =>
        data[Slot(pos, size)] := item;
        assert data[..] == old(data[..])[Slot(pos, size) := item];
        producers := producers[pid := Written(item, pos)];
      case Written(item, pos) =>
        sequences[Slot(pos, size)] := pos + 1;
        assert sequences[..] == old(sequences[..])[Slot(pos, size) := pos + 1];
        accepted := accepted[pid := accepted[pid] + [item]];
        producers := producers[pid := Outside(true)];
    }

    method AdvanceConsumer()
      requires Valid()
      modifies this, sequences
      ensures Valid() && State() == Step(old(State()), Consume)
    {
      match consumer
      case Away => consumer := Located(head);
      case Located(pos) => consumer := Checked(pos, sequences[Slot(pos, size)]);
      case Checked(pos, seen) =>
        var diff := seen - (pos + 1);
        if diff < 0 {
          consumer := Away;
        } else {
          consumer := Taken(pos, data[Slot(pos, size)]);
        }
      case Taken(pos, item) =>
        sequences[Slot(pos, size)] := pos + size;
        assert sequences[..] == old(sequences[..])[Slot(pos, size) := pos + size];
        popped := popped + [item];
        consumer := Released(pos, item);
      case Released(pos, _) =>
        head := pos + 1;
        consumer := Away;
    }

    /** Any interleaving, performed in place, is a run of the step machine. */
    method Execute(schedule: seq<Action<T>>)
      requires Valid()
      modifies this, sequences, data
      ensures Valid() && State() == Run(old(State()), schedule)
      ensures old(Inv(State())) ==> Inv(State())
    {
      ghost var start := State();
      for i := 0 to |schedule|
        invariant Valid() && Run(State(), schedule[i..]) == Run(start, schedule)
      {
        match schedule[i] {
          case Call(pid, item) =>
            if pid < |producers| && producers[pid].Outside? { EnterPush(pid, item); }
          case Advance(pid, spurious) =>
            if pid < |producers| { AdvanceProducer(pid, spurious); }
          case Consume => AdvanceConsumer();
        }
        assert schedule[i..][1..] == schedule[i + 1..];
      }
      if Inv(start) { RunKeeps(start, schedule); }
    }
  }
}
