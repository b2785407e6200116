/** `ExchangeStats::record` of src/queue_latency_tracker.hpp: counters and the minimum and
    maximum kept by weak compare-and-swap loops.

    Any number of threads interleave at every load, addition and compare-and-swap; a weak
    compare-and-swap may fail although the expected value is there. */
module LatencyStats {
  import opened Words

  datatype Thread =
    | Resting
    | Counted(v: Word)
    | Totalled(v: Word)
    | InMinLoop(v: Word, seen: Word)
    | PastMin(v: Word)
    | InMaxLoop(v: Word, seen: Word)

  /** `recorded`, `pastMin` and `pastMax` list the values that have entered record, left the
      minimum loop and left the maximum loop. */
  datatype Stats = Stats(
    count: nat,
    total: nat,
    min: Word,
    max: Word,
    threads: seq<Thread>,
    recorded: seq<Word>,
    pastMin: seq<Word>,
    pastMax: seq<Word>)

  datatype Action = Record(thread: nat, v: Word) | Advance(thread: nat, spurious: bool)

  function Fresh(n: nat): Stats {
    Stats(0, 0, UINT64_MAX, 0, seq(n, i => Resting), [], [], [])
  }

  function Moved(s: Stats, t: nat, to: Thread): Stats
    requires t < |s.threads|
  {
    s.(threads := s.threads[t := to])
  }

  function LeftMin(s: Stats, t: nat, v: Word): Stats
    requires t < |s.threads|
  {
    Moved(s, t, PastMin(v)).(pastMin := s.pastMin + [v])
  }

  function LeftMax(s: Stats, t: nat, v: Word): Stats
    requires t < |s.threads|
  {
    Moved(s, t, Resting).(pastMax := s.pastMax + [v])
  }

  function ThreadStep(s: Stats, t: nat, spurious: bool): Stats
    requires t < |s.threads|
  {
    match s.threads[t]
    case Resting => s
    case Counted(v) => Moved(s.(total := s.total + v), t, Totalled(v))
    case Totalled(v) => Moved(s, t, InMinLoop(v, s.min))
    case InMinLoop(v, seen) =>
      if v >= seen then LeftMin(s, t, v)
      else if s.min == seen && !spurious then LeftMin(s.(min := v), t, v)
      else Moved(s, t, InMinLoop(v, s.min))
    case PastMin(v) => Moved(s, t, InMaxLoop(v, s.max))
    case InMaxLoop(v, seen) =>
      if v <= seen then LeftMax(s, t, v)
      else if s.max == seen && !spurious then LeftMax(s.(max := v), t, v)
      else Moved(s, t, InMaxLoop(v, s.max))
  }

  function Step(s: Stats, a: Action): Stats {
    match a
    case Record(t, v) =>
      if t < |s.threads| && s.threads[t].Resting?
      then Moved(s.(count := s.count + 1, recorded := s.recorded + [v]), t, Counted(v)) else s
    case Advance(t, spurious) => if t < |s.threads| then ThreadStep(s, t, spurious) else s
  }

  function Run(s: Stats, schedule: seq<Action>): Stats
    decreases |schedule|
  {
    if schedule == [] then s else Run(Step(s, schedule[0]), schedule[1..])
  }

  ghost predicate Reachable(s: Stats) {
    exists n: nat, schedule: seq<Action> :: s == Run(Fresh(n), schedule)
  }

  // ----- what every step keeps -----

  /** What counted threads have still to add to the total. */
  function Owed(threads: seq<Thread>): nat {
    if threads == [] then 0
    else Owed(threads[1..]) + if threads[0].Counted? then threads[0].v else 0
  }

  lemma {:induction false} OwedMoves(threads: seq<Thread>, t: nat, to: Thread)
    requires t < |threads|
    ensures Owed(threads[t := to]) + (if threads[t].Counted? then threads[t].v else 0) ==
            Owed(threads) + if to.Counted? then to.v else 0
  {
    if t == 0 {
      assert threads[0 := to][1..] == threads[1..];
    } else {
      assert threads[t := to][1..] == threads[1..][t - 1 := to];
      OwedMoves(threads[1..], t - 1, to);
    }
  }

  predicate BeforeMin(th: Thread, v: Word) {
    (th.Counted? || th.Totalled? || th.InMinLoop?) && th.v == v
  }

  predicate BeforeMax(th: Thread, v: Word) {
    !th.Resting? && th.v == v
  }

  predicate OnMin(s: Stats, t: nat, v: Word) { t < |s.threads| && BeforeMin(s.threads[t], v) }

  predicate OnMax(s: Stats, t: nat, v: Word) { t < |s.threads| && BeforeMax(s.threads[t], v) }

  predicate CountsAdd(s: Stats) {
    s.count == |s.recorded| && s.total + Owed(s.threads) == Sum(s.recorded)
  }

  /** Every recorded value has left the minimum loop or is held by a thread before its end. */
  ghost predicate MinOwned(s: Stats) {
    && (forall v: Word :: v in s.recorded ==> v in s.pastMin || exists t: nat :: OnMin(s, t, v))
    && forall t: nat, v: Word :: OnMin(s, t, v) ==> v in s.recorded
  }

  /** The minimum was recorded, is below every value that has left the loop, and below
      everything the threads in the loop have read. */
  predicate MinBounds(s: Stats) {
    && (s.min == UINT64_MAX || s.min in s.recorded)
    && (forall v: Word :: v in s.pastMin ==> s.min <= v)
    && forall t :: 0 <= t < |s.threads| && s.threads[t].InMinLoop? ==> s.min <= s.threads[t].seen
  }

  ghost predicate MaxOwned(s: Stats) {
    && (forall v: Word :: v in s.recorded ==> v in s.pastMax || exists t: nat :: OnMax(s, t, v))
    && forall t: nat, v: Word :: OnMax(s, t, v) ==> v in s.recorded
  }

  predicate MaxBounds(s: Stats) {
    && (s.max == 0 || s.max in s.recorded)
    && (forall v: Word :: v in s.pastMax ==> v <= s.max)
    && forall t :: 0 <= t < |s.threads| && s.threads[t].InMaxLoop? ==> s.threads[t].seen <= s.max
  }

  lemma CountsKept(s: Stats, a: Action)
    requires CountsAdd(s)
    ensures CountsAdd(Step(s, a))
  {
    var s' := Step(s, a);
    if a.thread < |s.threads| {
      OwedMoves(s.threads, a.thread, s'.threads[a.thread]);
      assert s'.threads == s.threads[a.thread := s'.threads[a.thread]];
      assert a.Record? ==> (s.recorded + [a.v])[..|s.recorded|] == s.recorded;
    }
  }

  lemma MinOwnedKept(s: Stats, a: Action)
    requires MinOwned(s)
    ensures MinOwned(Step(s, a))
  {
    var s' := Step(s, a);
    forall v: Word | v in s'.recorded && v !in s'.pastMin
      ensures exists u: nat :: OnMin(s', u, v)
    {
      if u: nat :| OnMin(s, u, v) {
        assert OnMin(s', u, v);
      } else {
        assert OnMin(s', a.thread, v);
      }
    }
    forall u: nat, v: Word | OnMin(s', u, v)
      ensures v in s'.recorded
    {
      assert OnMin(s, u, v) || v in s'.recorded;
    }
  }

  lemma MinBoundsKept(s: Stats, a: Action)
    requires MinOwned(s) && MinBounds(s)
    ensures MinBounds(Step(s, a))
  {
    var s' := Step(s, a);
    if a.thread < |s.threads| && s.threads[a.thread].InMinLoop? {
      assert OnMin(s, a.thread, s.threads[a.thread].v);
    }
    assert forall v: Word :: v in s.recorded ==> v in s'.recorded;
  }

  lemma MaxOwnedKept(s: Stats, a: Action)
    requires MaxOwned(s)
    ensures MaxOwned(Step(s, a))
  {
    var s' := Step(s, a);
    forall v: Word | v in s'.recorded && v !in s'.pastMax
      ensures exists u: nat :: OnMax(s', u, v)
    {
      if u: nat :| OnMax(s, u, v) {
        assert OnMax(s', u, v);
      } else {
        assert OnMax(s', a.thread, v);
      }
    }
    forall u: nat, v: Word | OnMax(s', u, v)
      ensures v in s'.recorded
    {
      assert OnMax(s, u, v) || v in s'.recorded;
    }
  }

  lemma MaxBoundsKept(s: Stats, a: Action)
    requires MaxOwned(s) && MaxBounds(s)
    ensures MaxBounds(Step(s, a))
  {
    var s' := Step(s, a);
    if a.thread < |s.threads| && s.threads[a.thread].InMaxLoop? {
      assert OnMax(s, a.thread, s.threads[a.thread].v);
    }
    assert forall v: Word :: v in s.recorded ==> v in s'.recorded;
  }

  ghost predicate Inv(s: Stats) { CountsAdd(s) && MinOwned(s) && MinBounds(s) && MaxOwned(s) && MaxBounds(s) }

  lemma {:induction false} NothingOwed(threads: seq<Thread>)
    requires forall t :: 0 <= t < |threads| ==> threads[t].Resting?
    ensures Owed(threads) == 0
  {
    if threads != [] { NothingOwed(threads[1..]); }
  }

  lemma StepKeeps(s: Stats, a: Action)
    requires Inv(s)
    ensures Inv(Step(s, a))
  {
    CountsKept(s, a);
    MinOwnedKept(s, a);
    MinBoundsKept(s, a);
    MaxOwnedKept(s, a);
    MaxBoundsKept(s, a);
  }

  lemma {:induction false} RunKeeps(s: Stats, schedule: seq<Action>)
    requires Inv(s)
    ensures Inv(Run(s, schedule))
    decreases |schedule|
  {
    if schedule != [] {
      StepKeeps(s, schedule[0]);
      RunKeeps(Step(s, schedule[0]), schedule[1..]);
    }
  }

  lemma ReachableInv(s: Stats)
    requires Reachable(s)
    ensures Inv(s)
  {
    var n: nat, schedule :| s == Run(Fresh(n), schedule);
    NothingOwed(Fresh(n).threads);
    RunKeeps(Fresh(n), schedule);
  }

  // ----- main results -----

  /** At every moment min_ns is at most, and max_ns at least, every value whose loop finished. */
  lemma BoundsHold(s: Stats, v: Word)
    requires Reachable(s)
    ensures v in s.pastMin ==> s.min <= v
    ensures v in s.pastMax ==> v <= s.max
  {
    ReachableInv(s);
  }

  /** With no thread inside record: the count is the number of records, the total their sum,
      and min_ns and max_ns are exactly their minimum and maximum. */
  lemma QuiescentIsExact(s: Stats)
    requires Reachable(s) && forall t :: 0 <= t < |s.threads| ==> s.threads[t].Resting?
    ensures s.count == |s.recorded| && s.total == Sum(s.recorded)
    ensures s.recorded != [] ==> s.min in s.recorded && s.max in s.recorded
    ensures forall v: Word :: v in s.recorded ==> s.min <= v <= s.max
    ensures s.recorded == [] ==> s.min == UINT64_MAX && s.max == 0
  {
    ReachableInv(s);
    NothingOwed(s.threads);
    forall v: Word | v in s.recorded
      ensures s.min <= v <= s.max
    {
      assert forall t: nat :: !OnMin(s, t, v) && !OnMax(s, t, v);
    }
    if s.recorded != [] {
      assert s.recorded[0] in s.recorded;
    }
  }

  /** A compare-and-swap that does not fail spuriously ends its loop, leaving the thread's own
      value, unless another thread has improved on the value read before: no two threads can
      keep each other in a loop without the statistics getting better. */
  lemma RetryMeansImproved(s: Stats, t: nat)
    requires Reachable(s) && t < |s.threads|
    ensures
      var (th, r) := (s.threads[t], Step(s, Advance(t, false)));
      && |r.threads| == |s.threads|
      && (th.InMinLoop? ==>
            || (r.threads[t] == PastMin(th.v) && r.min == (if th.v < th.seen then th.v else s.min))
            || (r.threads[t] == InMinLoop(th.v, s.min) && s.min < th.seen && r.min == s.min))
      && (th.InMaxLoop? ==>
            || (r.threads[t] == Resting && r.max == (if th.v > th.seen then th.v else s.max))
            || (r.threads[t] == InMaxLoop(th.v, s.max) && s.max > th.seen && r.max == s.max))
  {
    ReachableInv(s);
  }

  /** One undisturbed call of record takes six accesses, and has this effect. */
  lemma RecordAlone(s: Stats, t: nat, v: Word)
    requires t < |s.threads| && s.threads[t].Resting?
    ensures
      var a := Advance(t, false);
      Step(Step(Step(Step(Step(Step(s, Record(t, v)), a), a), a), a), a) ==
        s.(count := s.count + 1, total := s.total + v,
           min := if v < s.min then v else s.min, max := if v > s.max then v else s.max,
           recorded := s.recorded + [v], pastMin := s.pastMin + [v], pastMax := s.pastMax + [v])
  {
    var a := Advance(t, false);
    var s1 := Moved(s.(count := s.count + 1, recorded := s.recorded + [v]), t, Counted(v));
    assert Step(s, Record(t, v)) == s1;
    var s2 := Moved(s1.(total := s.total + v), t, Totalled(v));
    var s3 := Moved(s2, t, InMinLoop(v, s.min));
    assert Step(Step(s1, a), a) == s3;
    var s4 := LeftMin(s3.(min := if v < s.min then v else s.min), t, v);
    assert Step(s3, a) == s4;
    var s5 := Moved(s4, t, InMaxLoop(v, s.max));
    assert Step(s4, a) == s5;
    assert Step(s5, a) == LeftMax(s5.(max := if v > s.max then v else s.max), t, v);
    assert s5.threads[t := Resting] == s.threads;
  }

  lemma StepImproves(s: Stats, a: Action)
    requires MinOwned(s) && MaxOwned(s)
    ensures var r := Step(s, a);
            && s.recorded <= r.recorded && r.min <= s.min && r.max >= s.max
            && (r.min == s.min || r.min in r.recorded) && (r.max == s.max || r.max in r.recorded)
  {
    if a.Advance? && a.thread < |s.threads| && s.threads[a.thread].InMinLoop? {
      assert OnMin(s, a.thread, s.threads[a.thread].v);
    }
    if a.Advance? && a.thread < |s.threads| && s.threads[a.thread].InMaxLoop? {
      assert OnMax(s, a.thread, s.threads[a.thread].v);
    }
  }

  /** Whatever threads do from any reachable moment on, lost races and spurious failures
      included: min_ns never rises, max_ns never falls, and a value either takes was recorded. */
  lemma {:induction false} ExtremesOnlyImprove(s: Stats, schedule: seq<Action>)
    requires Inv(s)
    ensures var r := Run(s, schedule);
            && s.recorded <= r.recorded && r.min <= s.min && r.max >= s.max
            && (r.min == s.min || r.min in r.recorded) && (r.max == s.max || r.max in r.recorded)
    decreases |schedule|
  {
    if schedule != [] {
      var next, a := Step(s, schedule[0]), schedule[0];
      StepImproves(s, a);
      StepKeeps(s, a);
      ExtremesOnlyImprove(next, schedule[1..]);
      assert forall v: Word :: v in next.recorded ==> v in Run(s, schedule).recorded;
    }
  }

  // ----- the object itself -----

  class ExchangeStats {
    var count: nat
    var totalNs: nat
    var minNs: Word
    var maxNs: Word
    var threads: array<Thread>
    ghost var recorded: seq<Word>
    ghost var pastMin: seq<Word>
    ghost var pastMax: seq<Word>

    ghost function State(): Stats
      reads this, threads
    {
      Stats(count, totalNs, minNs, maxNs, threads[..], recorded, pastMin, pastMax)
    }

    constructor (n: nat)
      ensures fresh(threads) && State() == Fresh(n)
    {
      count, totalNs, minNs, maxNs := 0, 0, UINT64_MAX, 0;
      threads := new Thread[n](i => Resting);
      recorded, pastMin, pastMax := [], [], [];
    }

    /** Entering record: the count is raised. */
    method BeginRecord(t: nat, v: Word)
      modifies this, threads
      ensures threads == old(threads) && State() == Step(old(State()), Record(t, v))
    {
      if t < threads.Length && threads[t].Resting? {
        count := count + 1;
        recorded := recorded + [v];
        threads[t] := Counted(v);
      }
    }

    /** One access of a thread inside record. */
    method AdvanceThread(t: nat, spurious: bool)
      modifies this, threads
      ensures threads == old(threads) && State() == Step(old(State()), Advance(t, spurious))
    {
      if t < threads.Length {
        match threads[t]
        case Resting =>
        case Counted(v) =>
          totalNs := totalNs + v;
          threads[t] := Totalled(v);
        case Totalled(v) =>
          threads[t] := InMinLoop(v, minNs);
        case InMinLoop(v, seen) =>
          if v < seen && (minNs != seen || spurious) {
            threads[t] := InMinLoop(v, minNs);
          } else {
            if v < seen { minNs := v; }
            pastMin := pastMin + [v];
            threads[t] := PastMin(v);
          }
        case PastMin(v) =>
          threads[t] := InMaxLoop(v, maxNs);
        case InMaxLoop(v, seen) =>
          if v > seen && (maxNs != seen || spurious) {
            threads[t] := InMaxLoop(v, maxNs);
          } else {
            if v > seen { maxNs := v; }
            pastMax := pastMax + [v];
            threads[t] := Resting;
          }
      }
    }

    /** Any interleaving, performed in place, is a run of the step machine. */
    method Execute(schedule: seq<Action>)
      modifies this, threads
      ensures State() == Run(old(State()), schedule)
    {
      ghost var start := State();
      for i := 0 to |schedule|
        invariant threads == old(threads) && Run(State(), schedule[i..]) == Run(start, schedule)
      {
        match schedule[i] {
          case Record(t, v) => BeginRecord(t, v);
          case Advance(t, spurious) => AdvanceThread(t, spurious);
        }
        assert schedule[i..][1..] == schedule[i + 1..];
      }
    }
  }
}
