/** The single-producer single-consumer rings of src/ring_buffer.hpp: `SPSCRingBuffer`, and
    `BlockingSPSCRingBuffer`, which also counts the pushes it drops.

    Indices are kept masked and one slot stays unused.  The producer and the consumer
    interleave at every load, slot access and store. */
module SpscRing {
  import opened Slots

  datatype Producer<T> =
    | Idle(ok: bool)                   // the verdict of the last push
    | AtTail(item: T, at: nat)         // has read tail_
    | Refused(item: T)                 // saw no room; has still to count the drop
    | Admitted(item: T, at: nat)       // saw room
    | Stored(item: T, at: nat)         // wrote the slot; tail_ is behind

  datatype Consumer<T> =
    | Waiting
    | AtHead(at: nat)                  // has read head_
    | Ready(at: nat)                   // saw an item
    | Fetched(at: nat, item: T)        // read the slot; head_ is behind

  /** `attempts`, `pushed`, `popped` and `rejected` record the past for the statements
      below; `dropped` is the counter of the blocking variant. */
  datatype Ring<T> = Ring(
    size: nat,
    blocking: bool,
    head: nat,
    tail: nat,
    buffer: seq<T>,
    dropped: nat,
    producer: Producer<T>,
    consumer: Consumer<T>,
    attempts: nat,
    rejected: nat,
    pushed: seq<T>,
    popped: seq<T>)

  datatype Action<T> = Push(item: T) | Produce | Consume

  function Initial<T>(size: nat, blocking: bool, blank: T): Ring<T>
    requires size > 0
  {
    Ring(size, blocking, 0, 0, seq(size, i => blank), 0, Idle(false), Waiting, 0, 0, [], [])
  }

  predicate WellFormed<T>(s: Ring<T>) {
    && s.size > 0 && |s.buffer| == s.size && s.head < s.size && s.tail < s.size
    && ((s.producer.AtTail? || s.producer.Admitted? || s.producer.Stored?) ==> s.producer.at < s.size)
    && (!s.consumer.Waiting? ==> s.consumer.at < s.size)
  }

  /** What `size()` computes from the two indices: their masked difference. */
  function Size<T>(s: Ring<T>): (n: nat)
    requires WellFormed(s)
  {
    if s.tail >= s.head then s.tail - s.head else s.tail + s.size - s.head
  }

  /** The queue the memory stands for: the slots from head_ up to tail_, read round the ring. */
  function Contents<T>(s: Ring<T>): (q: seq<T>)
    requires WellFormed(s)
    ensures |q| == Size(s)
  {
    seq(Size(s), k requires 0 <= k => s.buffer[Slot(s.head + k, s.size)])
  }

  function ProducerStep<T>(s: Ring<T>): (r: Ring<T>)
    requires WellFormed(s)
    ensures WellFormed(r)
  {
    match s.producer
    case Idle(_) => s
    case AtTail(item, at) =>
      if Slot(at + 1, s.size) == s.head then s.(producer := Refused(item))
      else s.(producer := Admitted(item, at))
    case Refused(_) =>
      s.(dropped := if s.blocking then s.dropped + 1 else s.dropped,
         rejected := s.rejected + 1,
         producer := Idle(false))
    case Admitted(item, at) =>
      s.(buffer := s.buffer[at := item], producer := Stored(item, at))
    case Stored(item, at) =>
      s.(tail := Slot(at + 1, s.size), pushed := s.pushed + [item], producer := Idle(true))
  }

  function ConsumerStep<T>(s: Ring<T>): (r: Ring<T>)
    requires WellFormed(s)
    ensures WellFormed(r)
  {
    match s.consumer
    case Waiting => s.(consumer := AtHead(s.head))
    case AtHead(at) => s.(consumer := if at == s.tail then Waiting else Ready(at))
    case Ready(at) => s.(consumer := Fetched(at, s.buffer[at]))
    case Fetched(at, item) =>
      s.(head := Slot(at + 1, s.size), popped := s.popped + [item], consumer := Waiting)
  }

  function Step<T>(s: Ring<T>, a: Action<T>): (r: Ring<T>)
    requires WellFormed(s)
    ensures WellFormed(r)
  {
    match a
    case Push(item) =>
      if s.producer.Idle? then s.(attempts := s.attempts + 1, producer := AtTail(item, s.tail)) else s
    case Produce => ProducerStep(s)
    case Consume => ConsumerStep(s)
  }

  function Run<T>(s: Ring<T>, schedule: seq<Action<T>>): (r: Ring<T>)
    requires WellFormed(s)
    ensures WellFormed(r)
    decreases |schedule|
  {
    if schedule == [] then s else Run(Step(s, schedule[0]), schedule[1..])
  }

  // ----- the invariant -----

  /** Position k, pushed and not yet popped, still holds its item. */
  ghost predicate Resident<T>(s: Ring<T>, k: nat)
    requires WellFormed(s)
  {
    k < |s.pushed| && s.buffer[Slot(k, s.size)] == s.pushed[k]
  }

  ghost predicate ProducerOk<T>(s: Ring<T>)
    requires WellFormed(s)
  {
    var room := |s.pushed| + 1 < |s.popped| + s.size;
    match s.producer
    case Idle(_) => true
    case AtTail(_, at) => at == s.tail
    case Refused(_) => true
    case Admitted(_, at) => at == s.tail && room
    case Stored(item, at) => at == s.tail && room && s.buffer[at] == item
  }

  ghost predicate ConsumerOk<T>(s: Ring<T>)
    requires WellFormed(s)
  {
    var h, t := |s.popped|, |s.pushed|;
    match s.consumer
    case Waiting => true
    case AtHead(at) => at == s.head
    case Ready(at) => at == s.head && h < t
    case Fetched(at, item) => at == s.head && h < t && item == s.pushed[h]
  }

  ghost predicate Inv<T>(s: Ring<T>) {
    var h, t := |s.popped|, |s.pushed|;
    && WellFormed(s)
    && h <= t < h + s.size
    && s.head == Slot(h, s.size) && s.tail == Slot(t, s.size)
    && s.popped == s.pushed[..h]
    && (forall k: nat :: h <= k < t ==> Resident(s, k))
    && ProducerOk(s) && ConsumerOk(s)
    && s.attempts == t + s.rejected + (if s.producer.Idle? then 0 else 1)
    && s.dropped == (if s.blocking then s.rejected else 0)
  }

  /** The masked indices tell full and empty apart, because one slot stays unused. */
  lemma IndicesDecide(h: nat, t: nat, size: nat)
    requires size > 0 && h <= t < h + size
    ensures Slot(Slot(t, size) + 1, size) == Slot(h, size) <==> t + 1 == h + size
    ensures Slot(t, size) == Slot(h, size) <==> t == h
  {
    SlotPlus(t, 1, size);
    SlotWraps(h, size);
    if t + 1 < h + size { SlotApart(h, t + 1, size); }
    if h < t { SlotApart(h, t, size); }
  }

  lemma InitialInv<T>(size: nat, blocking: bool, blank: T)
    requires size > 0
    ensures Inv(Initial(size, blocking, blank))
  {
  }

  lemma WriteKeeps<T>(s: Ring<T>)
    requires Inv(s) && s.producer.Admitted?
    ensures Inv(ProducerStep(s))
  {
    var r := ProducerStep(s);
    var h, t := |s.popped|, |s.pushed|;
    WindowApart(h, t, s.size);
    forall k: nat | h <= k < t ensures Resident(r, k) {
      assert Resident(s, k);
    }
  }

  lemma PublishKeeps<T>(s: Ring<T>)
    requires Inv(s) && s.producer.Stored?
    ensures Inv(ProducerStep(s))
  {
    var r := ProducerStep(s);
    var h, t := |s.popped|, |s.pushed|;
    SlotPlus(t, 1, s.size);
    forall k: nat | h <= k < t + 1 ensures Resident(r, k) {
      if k < t { assert Resident(s, k); }
    }
    assert r.pushed[..h] == s.pushed[..h];
  }

  lemma ProducerStepKeeps<T>(s: Ring<T>)
    requires Inv(s)
    ensures Inv(ProducerStep(s))
  {
    match s.producer
    case Admitted(_, _) => WriteKeeps(s);
    case Stored(_, _) => PublishKeeps(s);
    case AtTail(item, at) =>
      IndicesDecide(|s.popped|, |s.pushed|, s.size);
      QuietKeeps(s, ProducerStep(s));
    case Refused(_) => QuietKeeps(s, ProducerStep(s));
    case Idle(_) =>
  }

  /** Steps that touch neither the memory nor the indices keep every resident item. */
  lemma QuietKeeps<T>(s: Ring<T>, r: Ring<T>)
    requires Inv(s) && WellFormed(r)
    requires r == s.(producer := r.producer, consumer := r.consumer, attempts := r.attempts,
                     rejected := r.rejected, dropped := r.dropped)
    requires ProducerOk(r) && ConsumerOk(r)
    requires r.attempts == |r.pushed| + r.rejected + (if r.producer.Idle? then 0 else 1)
    requires r.dropped == (if r.blocking then r.rejected else 0)
    ensures Inv(r)
  {
    forall k: nat | |r.popped| <= k < |r.pushed| ensures Resident(r, k) {
      assert Resident(s, k);
    }
  }

  lemma ConsumerStepKeeps<T>(s: Ring<T>)
    requires Inv(s)
    ensures Inv(ConsumerStep(s))
  {
    var r := ConsumerStep(s);
    var h, t := |s.popped|, |s.pushed|;
    match s.consumer
    case AtHead(_) =>
      IndicesDecide(h, t, s.size);
      QuietKeeps(s, r);
    case Waiting => QuietKeeps(s, r);
    case Ready(_) =>
      assert Resident(s, h);
      QuietKeeps(s, r);
    case Fetched(_, _) => PopKeeps(s);
  }

  lemma PopKeeps<T>(s: Ring<T>)
    requires Inv(s) && s.consumer.Fetched?
    ensures Inv(ConsumerStep(s))
  {
    var r := ConsumerStep(s);
    var h, t := |s.popped|, |s.pushed|;
    SlotPlus(h, 1, s.size);
    assert s.pushed[..h + 1] == s.pushed[..h] + [s.pushed[h]];
    forall k: nat | h + 1 <= k < t ensures Resident(r, k) {
      assert Resident(s, k);
    }
  }

  lemma PushKeeps<T>(s: Ring<T>, item: T)
    requires Inv(s)
    ensures Inv(Step(s, Push(item)))
  {
    QuietKeeps(s, Step(s, Push(item)));
  }

  lemma StepKeeps<T>(s: Ring<T>, a: Action<T>)
    requires Inv(s)
    ensures Inv(Step(s, a))
  {
    match a
    case Push(item) => PushKeeps(s, item);
    case Produce => ProducerStepKeeps(s);
    case Consume => ConsumerStepKeeps(s);
  }

  lemma {:induction false} RunKeeps<T>(s: Ring<T>, schedule: seq<Action<T>>)
    requires Inv(s)
    ensures Inv(Run(s, schedule))
    decreases |schedule|
  {
    if schedule != [] {
      StepKeeps(s, schedule[0]);
      RunKeeps(Step(s, schedule[0]), schedule[1..]);
    }
  }

  ghost predicate Reachable<T(!new)>(s: Ring<T>) {
    exists size: nat, blocking: bool, blank: T, schedule: seq<Action<T>> ::
      size > 0 && s == Run(Initial(size, blocking, blank), schedule)
  }

  lemma ReachableInv<T(!new)>(s: Ring<T>)
    requires Reachable(s)
    ensures Inv(s)
  {
    var size: nat, blocking: bool, blank: T, schedule: seq<Action<T>> :|
      size > 0 && s == Run(Initial(size, blocking, blank), schedule);
    InitialInv(size, blocking, blank);
    RunKeeps(Initial(size, blocking, blank), schedule);
  }

  // ----- refinement of a bounded queue -----

  /** Retrieved from the masked memory alone, the queue is exactly what was pushed and not
      yet popped. */
  lemma ContentsAreTheBacklog<T>(s: Ring<T>)
    requires Inv(s)
    ensures s.pushed == s.popped + Contents(s)
    ensures |Contents(s)| < s.size
  {
    var h, t := |s.popped|, |s.pushed|;
    SlotDistance(h, t, s.size);
    forall k: nat | k < t - h ensures Contents(s)[k] == s.pushed[h + k] {
      SlotPlus(h, k, s.size);
      assert Resident(s, h + k);
    }
  }

  /** A bounded FIFO queue: the specification both rings implement. */
  datatype QueueStep<T> = Stutter | Enqueue(x: T) | Dequeue(x: T)

  predicate QueueNext<T(==)>(q: seq<T>, e: QueueStep<T>, q': seq<T>, capacity: nat) {
    match e
    case Stutter => q' == q
    case Enqueue(x) => |q| < capacity && q' == q + [x]
    case Dequeue(x) => q == [x] + q'
  }

  /** The queue operation a step performs, if any: the stores to tail_ and head_. */
  function Effect<T>(s: Ring<T>, a: Action<T>): QueueStep<T> {
    if a.Produce? && s.producer.Stored? then Enqueue(s.producer.item)
    else if a.Consume? && s.consumer.Fetched? then Dequeue(s.consumer.item)
    else Stutter
  }

  lemma EffectOnHistory<T>(s: Ring<T>, a: Action<T>)
    requires Inv(s)
    ensures
      var r, e := Step(s, a), Effect(s, a);
      && r.size == s.size
      && r.pushed == (if e.Enqueue? then s.pushed + [e.x] else s.pushed)
      && r.popped == (if e.Dequeue? then s.popped + [e.x] else s.popped)
      && (e.Enqueue? ==> |s.pushed| - |s.popped| < s.size - 1)
  {
  }

  /** Every step of every interleaving is a step of a FIFO queue of capacity Size - 1. */
  lemma StepRefinesQueue<T(!new)>(s: Ring<T>, a: Action<T>)
    requires Reachable(s)
    ensures WellFormed(s)
    ensures QueueNext(Contents(s), Effect(s, a), Contents(Step(s, a)), s.size - 1)
  {
    ReachableInv(s);
    StepKeeps(s, a);
    EffectOnHistory(s, a);
    var q, q' := Contents(s), Contents(Step(s, a));
    ContentsAreTheBacklog(s);
    ContentsAreTheBacklog(Step(s, a));
    BacklogMoves(s.pushed, s.popped, q, Step(s, a).pushed, Step(s, a).popped, q', Effect(s, a));
  }

  /** How a backlog changes when an item enters or leaves the history. */
  lemma BacklogMoves<T>(pushed: seq<T>, popped: seq<T>, q: seq<T>,
                        pushed': seq<T>, popped': seq<T>, q': seq<T>, e: QueueStep<T>)
    requires pushed == popped + q && pushed' == popped' + q'
    requires pushed' == (if e.Enqueue? then pushed + [e.x] else pushed)
    requires popped' == (if e.Dequeue? then popped + [e.x] else popped)
    ensures e.Stutter? ==> q' == q
    ensures e.Enqueue? ==> q' == q + [e.x]
    ensures e.Dequeue? ==> q == [e.x] + q'
  {
    assert q == pushed[|popped|..] && q' == pushed'[|popped'|..];
    if e.Dequeue? {
      assert popped + q == popped + ([e.x] + q');
      assert q == (popped + ([e.x] + q'))[|popped|..];
    }
  }

  /** A push is refused exactly when the queue held Size - 1 items as head_ was read, and a
      pop reports empty exactly when the queue was empty as tail_ was read. */
  lemma VerdictsAreHonest<T(!new)>(s: Ring<T>)
    requires Reachable(s)
    ensures WellFormed(s)
    ensures s.producer.AtTail? ==>
              (ProducerStep(s).producer.Refused? <==> |Contents(s)| == s.size - 1)
    ensures s.consumer.AtHead? ==> (ConsumerStep(s).consumer == Waiting <==> Contents(s) == [])
  {
    ReachableInv(s);
    IndicesDecide(|s.popped|, |s.pushed|, s.size);
    ContentsAreTheBacklog(s);
  }

  /** The producer never writes the slot the consumer is about to read. */
  lemma WriterAndReaderApart<T(!new)>(s: Ring<T>)
    requires Reachable(s) && s.producer.Admitted? && s.consumer.Ready?
    ensures s.producer.at != s.consumer.at
  {
    ReachableInv(s);
    SlotApart(|s.popped|, |s.pushed|, s.size);
  }

  /** Conservation: with the producer at rest, every attempted push is popped, resident, or
      counted as dropped, and items leave in the order they entered. */
  lemma AttemptsAccountedFor<T(!new)>(s: Ring<T>)
    requires Reachable(s) && s.producer.Idle?
    ensures WellFormed(s) && s.pushed == s.popped + Contents(s)
    ensures s.attempts == |s.popped| + Size(s) + s.rejected
    ensures s.blocking ==> s.attempts == |s.popped| + Size(s) + s.dropped
  {
    ReachableInv(s);
    ContentsAreTheBacklog(s);
  }

  // ----- what one call comes to -----

  predicate LeavesConsumer<T>(schedule: seq<Action<T>>) {
    forall i :: 0 <= i < |schedule| ==> !schedule[i].Consume?
  }

  predicate LeavesProducer<T>(schedule: seq<Action<T>>) {
    forall i :: 0 <= i < |schedule| ==> schedule[i].Consume?
  }

  lemma {:induction false} WaitingConsumerKept<T>(s: Ring<T>, schedule: seq<Action<T>>)
    requires WellFormed(s) && LeavesConsumer(schedule)
    ensures var r := Run(s, schedule);
            r.consumer == s.consumer && r.popped == s.popped && s.pushed <= r.pushed
    decreases |schedule|
  {
    if schedule != [] { WaitingConsumerKept(Step(s, schedule[0]), schedule[1..]); }
  }

  lemma {:induction false} WaitingProducerKept<T>(s: Ring<T>, schedule: seq<Action<T>>)
    requires WellFormed(s) && LeavesProducer(schedule)
    ensures var r := Run(s, schedule);
            && r.producer == s.producer && r.pushed == s.pushed
            && r.dropped == s.dropped && r.blocking == s.blocking
    decreases |schedule|
  {
    if schedule != [] { WaitingProducerKept(Step(s, schedule[0]), schedule[1..]); }
  }

  /** A pop that finds the queue empty as it loads tail_ returns without a trace; any other
      delivers the item that was at the front, whatever the producer does meanwhile. */
  lemma PopDelivers<T(!new)>(s: Ring<T>, m1: seq<Action<T>>, m2: seq<Action<T>>)
    requires Reachable(s) && s.consumer.AtHead?
    requires LeavesConsumer(m1) && LeavesConsumer(m2)
    ensures WellFormed(s)
    ensures
      var checked := Step(s, Consume);
      if Contents(s) == [] then checked == s.(consumer := Waiting)
      else
        var done := Step(Run(Step(Run(checked, m1), Consume), m2), Consume);
        done.popped == s.popped + [Contents(s)[0]] && done.consumer == Waiting
  {
    ReachableInv(s);
    VerdictsAreHonest(s);
    ContentsAreTheBacklog(s);
    var checked := Step(s, Consume);
    ConsumerStepKeeps(s);
    if Contents(s) != [] {
      var ready := Run(checked, m1);
      RunKeeps(checked, m1);
      WaitingConsumerKept(checked, m1);
      ConsumerStepKeeps(ready);
      var fetched := Step(ready, Consume);
      RunKeeps(fetched, m2);
      WaitingConsumerKept(fetched, m2);
    }
  }

  /** A push that finds Size - 1 items as it loads head_ is refused, and counted where drops
      are counted; any other enters its item, whatever the consumer does meanwhile. */
  lemma PushDelivers<T(!new)>(s: Ring<T>, m1: seq<Action<T>>, m2: seq<Action<T>>)
    requires Reachable(s) && s.producer.AtTail?
    requires LeavesProducer(m1) && LeavesProducer(m2)
    ensures WellFormed(s)
    ensures
      var later := Step(Run(Step(s, Produce), m1), Produce);
      if |Contents(s)| == s.size - 1 then
        && later.producer == Idle(false) && later.pushed == s.pushed
        && later.dropped == s.dropped + (if s.blocking then 1 else 0)
      else
        var done := Step(Run(later, m2), Produce);
        && done.producer == Idle(true) && done.pushed == s.pushed + [s.producer.item]
        && done.dropped == s.dropped
  {
    ReachableInv(s);
    VerdictsAreHonest(s);
    var checked := Step(s, Produce);
    ProducerStepKeeps(s);
    var later := Run(checked, m1);
    RunKeeps(checked, m1);
    WaitingProducerKept(checked, m1);
    ProducerStepKeeps(later);
    WaitingProducerKept(Step(later, Produce), m2);
  }

  // ----- the buffer itself -----

  /** The ring with its memory updated in place, one access at a time. */
  class SpscRingBuffer<T(0)> {
    const size: nat
    const blocking: bool
    var head: nat
    var tail: nat
    const buffer: array<T>
    var dropped: nat
    var producer: Producer<T>
    var consumer: Consumer<T>
    ghost var attempts: nat
    ghost var rejected: nat
    ghost var pushed: seq<T>
    ghost var popped: seq<T>

    ghost function State(): Ring<T>
      reads this, buffer
    {
      Ring(size, blocking, head, tail, buffer[..], dropped, producer, consumer,
           attempts, rejected, pushed, popped)
    }

    constructor (size: nat, blocking: bool, blank: T)
      requires size > 0
      ensures fresh(buffer) && State() == Initial(size, blocking, blank)
    {
      this.size, this.blocking := size, blocking;
      head, tail, dropped := 0, 0, 0;
      buffer := new T[size](i => blank);
      producer, consumer := Idle(false), Waiting;
      attempts, rejected, pushed, popped := 0, 0, [], [];
    }

    method EnterPush(item: T)
      requires WellFormed(State()) && producer.Idle?
      modifies this
      ensures WellFormed(State()) && State() == Step(old(State()), Push(item))
    {
      attempts := attempts + 1;
      producer := AtTail(item, tail);
    }

    method AdvanceProducer()
      requires WellFormed(State())
      modifies this, buffer
      ensures WellFormed(State()) && State() == Step(old(State()), Produce)
    {
      match producer
      case Idle(_) =>
      case AtTail(item, at) =>
        var next := (at + 1) % size;
        SlotIsRemainder(at + 1, size);
        if next == head { producer := Refused(item); } else { producer := Admitted(item, at); }
      case Refused(_) =>
        if blocking { dropped := dropped + 1; }
        rejected := rejected + 1;
        producer := Idle(false);
      case Admitted(item, at) =>
        buffer[at] := item;
        producer := Stored(item, at);
      case Stored(item, at) =>
        tail := (at + 1) % size;
        SlotIsRemainder(at + 1, size);
        pushed := pushed + [item];
        producer := Idle(true);
    }

    method AdvanceConsumer()
      requires WellFormed(State())
      modifies this
      ensures WellFormed(State()) && State() == Step(old(State()), Consume)
    {
      match consumer
      case Waiting => consumer := AtHead(head);
      case AtHead(at) => consumer := if at == tail then Waiting else Ready(at);
      case Ready(at) => consumer := Fetched(at, buffer[at]);
      case Fetched(at, item) =>
        head := (at + 1) % size;
        SlotIsRemainder(at + 1, size);
        popped := popped + [item];
        consumer := Waiting;
    }

    /** Any interleaving, performed in place, is a run of the step machine. */
    method Execute(schedule: seq<Action<T>>)
      requires WellFormed(State())
      modifies this, buffer
      ensures WellFormed(State()) && State() == Run(old(State()), schedule)
    {
      ghost var start := State();
      for i := 0 to |schedule|
        invariant WellFormed(State()) && Run(State(), schedule[i..]) == Run(start, schedule)
      {
        match schedule[i] {
          case Push(item) => if producer.Idle? { EnterPush(item); }
          case Produce => AdvanceProducer();
          case Consume => AdvanceConsumer();
        }
        assert schedule[i..][1..] == schedule[i + 1..];
      }
    }
  }
}
