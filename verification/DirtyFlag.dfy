/** The hand-off between the feed threads and the calculation thread of
    src/arbitrage_engine.cpp: `books_dirty_`, `running_` and the condition variable.

    Threads interleave at every load, store, lock region and notification.  Book updates and
    the calculation's reads of a map are single steps, because each holds that map's lock
    throughout. */
module DirtyFlag {

  /** The two book maps. */
  datatype Feed = Ws | Fix

  /** A thread inside update_order_book, update_fix_data or stop. */
  datatype Caller =
    | Idle
    | Written(feed: Feed, at: nat)   // has applied update number `at`; the flag is not yet set
    | Halted                         // stop(): has cleared running_
    | Flagged                        // has set the flag; has still to notify

  datatype Calculation =
    | Entering                       // at `while (running_)`
    | Testing                        // evaluating the wait predicate
    | TestingRunning                 // loaded books_dirty_ as false
    | Blocking                       // predicate false, not yet asleep
    | Asleep
    | Clearing                       // predicate true, about to clear the flag
    | Checking
    | ReadingWs
    | ReadingFix
    | Comparing
    | Done

  /** `ws` and `fix` number the updates applied to each map; an entry says whether its flag
      store has executed.  `readWs` and `readFix` count the updates that were in the map when a
      calculation last read it: update i has been seen by some calculation iff i is below. */
  datatype Engine = Engine(
    ws: seq<bool>,
    fix: seq<bool>,
    dirty: bool,
    running: bool,
    thread: Calculation,
    callers: seq<Caller>,
    readWs: nat,
    readFix: nat)

  datatype Action =
    | Update(caller: nat, feed: Feed)
    | Stop(caller: nat)
    | Advance(caller: nat)
    | Calculate
    | FinishReports                  // the report limit is reached: the thread clears running_
    | SpuriousWake

  /** start(), with n threads that may call in. */
  function Started(n: nat): Engine {
    Engine([], [], false, true, Entering, seq(n, i => Idle), 0, 0)
  }

  function Log(s: Engine, feed: Feed): seq<bool> { if feed.Ws? then s.ws else s.fix }

  function Read(s: Engine, feed: Feed): nat { if feed.Ws? then s.readWs else s.readFix }

  function WithLog(s: Engine, feed: Feed, log: seq<bool>): Engine {
    if feed.Ws? then s.(ws := log) else s.(fix := log)
  }

  function At(s: Engine, c: nat): Caller {
    if c < |s.callers| then s.callers[c] else Idle
  }

  function Moved(s: Engine, c: nat, to: Caller): Engine {
    if c < |s.callers| then s.(callers := s.callers[c := to]) else s
  }

  function CallerStep(s: Engine, c: nat): Engine {
    match At(s, c)
    case Idle => s
    case Written(feed, at) =>
      var log := Log(s, feed);
      Moved(WithLog(s, feed, if at < |log| then log[at := true] else log).(dirty := true), c, Flagged)
    case Halted => Moved(s.(dirty := true), c, Flagged)
    case Flagged => Moved(s.(thread := if s.thread.Asleep? then Testing else s.thread), c, Idle)
  }

  function ThreadStep(s: Engine): Engine {
    match s.thread
    case Entering => s.(thread := if s.running then Testing else Done)
    case Testing => s.(thread := if s.dirty then Clearing else TestingRunning)
    case TestingRunning => s.(thread := if s.running then Blocking else Clearing)
    case Blocking => s.(thread := Asleep)
    case Asleep => s
    case Clearing => s.(dirty := false, thread := Checking)
    case Checking => s.(thread := if s.running then ReadingWs else Done)
    case ReadingWs => s.(readWs := |s.ws|, thread := ReadingFix)
    case ReadingFix => s.(readFix := |s.fix|, thread := Comparing)
    case Comparing => s.(thread := Entering)
    case Done => s
  }

  function Step(s: Engine, a: Action): Engine {
    match a
    case Update(c, feed) =>
      if c < |s.callers| && s.callers[c].Idle?
      then Moved(WithLog(s, feed, Log(s, feed) + [false]), c, Written(feed, |Log(s, feed)|)) else s
    case Stop(c) =>
      if c < |s.callers| && s.callers[c].Idle? then Moved(s.(running := false), c, Halted) else s
    case Advance(c) => CallerStep(s, c)
    case Calculate => ThreadStep(s)
    case FinishReports => if s.thread.Comparing? then s.(running := false, thread := Done) else s
    case SpuriousWake => if s.thread.Asleep? then s.(thread := Testing) else s
  }

  function Run(s: Engine, schedule: seq<Action>): Engine
    decreases |schedule|
  {
    if schedule == [] then s else Run(Step(s, schedule[0]), schedule[1..])
  }

  ghost predicate Reachable(s: Engine) {
    exists n: nat, schedule: seq<Action> :: s == Run(Started(n), schedule)
  }

  // ----- no update is forgotten -----

  /** The calculation thread has cleared the flag and has not yet read this map. */
  predicate Due(t: Calculation, feed: Feed) {
    t.Checking? || t.ReadingWs? || (feed.Fix? && t.ReadingFix?)
  }

  /** Every update of the map whose flag store has executed is announced, due, or seen. */
  predicate Kept(s: Engine, feed: Feed) {
    forall i :: 0 <= i < |Log(s, feed)| && Log(s, feed)[i] ==> s.dirty || Due(s.thread, feed) || i < Read(s, feed)
  }

  /** Every update without its flag store still has its caller at work. */
  ghost predicate Owned(s: Engine, feed: Feed) {
    && (forall i :: 0 <= i < |Log(s, feed)| && !Log(s, feed)[i] ==> exists c: nat :: Holds(s, c, feed, i))
    && forall c :: 0 <= c < |s.callers| && s.callers[c].Written? && s.callers[c].feed == feed ==>
         s.callers[c].at < |Log(s, feed)|
  }

  predicate Holds(s: Engine, c: nat, feed: Feed, i: nat) {
    c < |s.callers| && s.callers[c] == Written(feed, i)
  }

  ghost predicate InvFor(s: Engine, feed: Feed) {
    (s.running ==> Kept(s, feed)) && Owned(s, feed) && Read(s, feed) <= |Log(s, feed)|
  }

  lemma OwnedAfterUpdate(s: Engine, c: nat, feed: Feed, f: Feed)
    requires Owned(s, f) && c < |s.callers| && s.callers[c].Idle?
    ensures Owned(Step(s, Update(c, feed)), f)
  {
    var s' := Step(s, Update(c, feed));
    forall i | 0 <= i < |Log(s', f)| && !Log(s', f)[i]
      ensures exists d: nat :: Holds(s', d, f, i)
    {
      if i < |Log(s, f)| {
        var d: nat :| Holds(s, d, f, i);
        assert Holds(s', d, f, i);
      } else {
        assert Holds(s', c, f, i);
      }
    }
  }

  lemma OwnedAfterFlag(s: Engine, c: nat, f: Feed)
    requires Owned(s, f) && At(s, c).Written?
    ensures Owned(CallerStep(s, c), f)
  {
    var s' := CallerStep(s, c);
    forall i | 0 <= i < |Log(s', f)| && !Log(s', f)[i]
      ensures exists d: nat :: Holds(s', d, f, i)
    {
      assert !Log(s, f)[i];
      var d: nat :| Holds(s, d, f, i);
      assert Holds(s', d, f, i);
    }
  }

  /** Steps that keep the log keep its owners, if no caller in the middle of an update moves. */
  lemma OwnedIfUnmoved(s: Engine, s': Engine, f: Feed)
    requires Owned(s, f) && Log(s', f) == Log(s, f) && |s'.callers| == |s.callers|
    requires forall c :: 0 <= c < |s.callers| && (s.callers[c].Written? || s'.callers[c].Written?) ==>
               s'.callers[c] == s.callers[c]
    ensures Owned(s', f)
  {
    forall i | 0 <= i < |Log(s', f)| && !Log(s', f)[i]
      ensures exists d: nat :: Holds(s', d, f, i)
    {
      assert !Log(s, f)[i];
      var d: nat :| Holds(s, d, f, i);
      assert Holds(s', d, f, i);
    }
  }

  lemma OwnedKept(s: Engine, a: Action, f: Feed)
    requires Owned(s, f)
    ensures Owned(Step(s, a), f)
  {
    if a.Update? && a.caller < |s.callers| && s.callers[a.caller].Idle? {
      OwnedAfterUpdate(s, a.caller, a.feed, f);
    } else if a.Advance? && At(s, a.caller).Written? {
      OwnedAfterFlag(s, a.caller, f);
    } else {
      OwnedIfUnmoved(s, Step(s, a), f);
    }
  }

  lemma StepKeeps(s: Engine, a: Action, feed: Feed)
    requires InvFor(s, feed)
    ensures InvFor(Step(s, a), feed)
  {
    OwnedKept(s, a, feed);
    if a.Advance? {
      CallerKeeps(s, a.caller, feed);
    } else if a.Calculate? {
      ThreadKeeps(s, feed);
    } else {
      OthersKeep(s, a, feed);
    }
  }

  lemma OthersKeep(s: Engine, a: Action, feed: Feed)
    requires InvFor(s, feed) && !a.Advance? && !a.Calculate?
    ensures (Step(s, a).running ==> Kept(Step(s, a), feed)) && Read(s, feed) <= |Log(Step(s, a), feed)|
    ensures Read(Step(s, a), feed) == Read(s, feed)
  {
  }

  lemma CallerKeeps(s: Engine, c: nat, feed: Feed)
    requires InvFor(s, feed)
    ensures (s.running ==> Kept(CallerStep(s, c), feed)) && |Log(CallerStep(s, c), feed)| == |Log(s, feed)|
    ensures Read(CallerStep(s, c), feed) == Read(s, feed) && CallerStep(s, c).running == s.running
  {
  }

  lemma ThreadKeeps(s: Engine, feed: Feed)
    requires InvFor(s, feed)
    ensures (s.running ==> Kept(ThreadStep(s), feed)) && ThreadStep(s).running == s.running
    ensures Read(ThreadStep(s), feed) <= |Log(ThreadStep(s), feed)|
  {
  }

  lemma {:induction false} RunKeeps(s: Engine, schedule: seq<Action>, feed: Feed)
    requires InvFor(s, feed)
    ensures InvFor(Run(s, schedule), feed)
    decreases |schedule|
  {
    if schedule != [] {
      StepKeeps(s, schedule[0], feed);
      RunKeeps(Step(s, schedule[0]), schedule[1..], feed);
    }
  }

  lemma ReachableInv(s: Engine, feed: Feed)
    requires Reachable(s)
    ensures InvFor(s, feed)
  {
    var n: nat, schedule :| s == Run(Started(n), schedule);
    RunKeeps(Started(n), schedule, feed);
  }

  /** In every reachable state of a running engine, an update whose flag store has executed is
      announced by the flag, or the thread has cleared the flag and has still to read that map,
      or some calculation read that map after the update. */
  lemma NoUpdateForgotten(s: Engine, feed: Feed, i: nat)
    requires Reachable(s) && s.running && i < |Log(s, feed)| && Log(s, feed)[i]
    ensures s.dirty || Due(s.thread, feed) || i < Read(s, feed)
  {
    ReachableInv(s, feed);
  }

  /** With the flag clear, no read due and no caller between its update and its flag store, the
      last calculation saw the map as it now is. */
  lemma AtRestAllIsSeen(s: Engine, feed: Feed)
    requires Reachable(s) && s.running && !s.dirty && !Due(s.thread, feed)
    requires forall c :: 0 <= c < |s.callers| ==> !(s.callers[c].Written? && s.callers[c].feed == feed)
    ensures Read(s, feed) == |Log(s, feed)|
  {
    ReachableInv(s, feed);
    assert forall c: nat, i: nat :: !Holds(s, c, feed, i);
    var n := |Log(s, feed)|;
    assert n > 0 ==> Log(s, feed)[n - 1];
  }

  // ----- wake-ups -----

  /** The thread will sleep, or sleeps, although its predicate holds. */
  predicate Oversleeping(s: Engine) {
    || (s.dirty && (s.thread.TestingRunning? || s.thread.Blocking? || s.thread.Asleep?))
    || (!s.running && (s.thread.Blocking? || s.thread.Asleep?))
  }

  predicate WillNotify(c: Caller) { c.Halted? || c.Flagged? }

  predicate Notifies(s: Engine, c: nat) { c < |s.callers| && WillNotify(s.callers[c]) }

  ghost predicate WakeUpComing(s: Engine) {
    Oversleeping(s) ==> exists c: nat :: Notifies(s, c)
  }

  /** The only notification on its way arrives between the predicate's loads and the sleep. */
  ghost predicate Missed(s: Engine, a: Action) {
    && a.Advance? && At(s, a.caller).Flagged? && !s.thread.Asleep? && Oversleeping(s)
    && forall c: nat :: Notifies(s, c) ==> c == a.caller
  }

  lemma NotifierStays(s: Engine, a: Action, c: nat)
    requires Notifies(s, c) && (a != Advance(c) || !s.callers[c].Flagged?)
    ensures Notifies(Step(s, a), c)
  {
  }

  lemma NewlyOversleeping(s: Engine, a: Action)
    requires !Oversleeping(s) && Oversleeping(Step(s, a))
    ensures (a.Advance? && Notifies(Step(s, a), a.caller)) || (a.Stop? && Notifies(Step(s, a), a.caller))
  {
  }

  lemma LastNotification(s: Engine, c: nat)
    requires At(s, c).Flagged? && !s.thread.Asleep?
    ensures Oversleeping(CallerStep(s, c)) == Oversleeping(s)
    ensures forall d: nat :: Notifies(CallerStep(s, c), d) <==> Notifies(s, d) && d != c
  {
  }

  /** The notification is sent without holding `cv_mutex_`, so it can be missed; this is
      exactly how. */
  lemma WakeUpKeptIffNotMissed(s: Engine, a: Action)
    requires WakeUpComing(s)
    ensures WakeUpComing(Step(s, a)) <==> !Missed(s, a)
  {
    if a.Advance? && At(s, a.caller).Flagged? && !s.thread.Asleep? {
      LastNotification(s, a.caller);
    } else if Oversleeping(s) {
      var c: nat :| Notifies(s, c);
      if Oversleeping(Step(s, a)) { NotifierStays(s, a, c); }
    } else if Oversleeping(Step(s, a)) {
      NewlyOversleeping(s, a);
    }
  }

  lemma {:induction false} RunThen(s: Engine, schedule: seq<Action>, a: Action)
    ensures Run(s, schedule + [a]) == Step(Run(s, schedule), a)
    decreases |schedule|
  {
    if schedule == [] {
      assert Run(Step(s, a), []) == Step(s, a);
    } else {
      assert (schedule + [a])[1..] == schedule[1..] + [a];
      RunThen(Step(s, schedule[0]), schedule[1..], a);
    }
  }

  lemma ReachableStep(s: Engine, a: Action)
    requires Reachable(s)
    ensures Reachable(Step(s, a))
  {
    var n: nat, schedule :| s == Run(Started(n), schedule);
    RunThen(Started(n), schedule, a);
  }

  lemma CanBeBetweenLoads()
    ensures Reachable(Engine([], [], false, true, TestingRunning, [Idle], 0, 0))
  {
    var s := Started(1);
    assert s == Engine([], [], false, true, Entering, [Idle], 0, 0);
    assert Reachable(s) by { assert Run(s, []) == s; }
    ReachableStep(s, Calculate);
    ReachableStep(s.(thread := Testing), Calculate);
  }

  lemma CanNotifyTooEarly()
    ensures Reachable(Engine([true], [], true, true, TestingRunning, [Idle], 0, 0))
  {
    CanBeBetweenLoads();
    ReachableStep(Engine([], [], false, true, TestingRunning, [Idle], 0, 0), Update(0, Ws));
    ReachableStep(Engine([false], [], false, true, TestingRunning, [Written(Ws, 0)], 0, 0), Advance(0));
    ReachableStep(Engine([true], [], true, true, TestingRunning, [Flagged], 0, 0), Advance(0));
  }

  /** It does happen: the thread sleeps on a set flag, with an unseen update and nobody left to
      wake it. */
  lemma WakeUpCanBeMissed()
    ensures Reachable(Engine([true], [], true, true, Asleep, [Idle], 0, 0))
  {
    CanNotifyTooEarly();
    ReachableStep(Engine([true], [], true, true, TestingRunning, [Idle], 0, 0), Calculate);
    ReachableStep(Engine([true], [], true, true, Blocking, [Idle], 0, 0), Calculate);
  }

  // ----- the engine itself -----

  /** The flags and thread states updated in place, one atomic access at a time.  The logs
      stand for the two book maps. */
  class Handoff {
    var booksDirty: bool
    var running: bool
    var thread: Calculation
    var callers: array<Caller>
    var ws: seq<bool>
    var fix: seq<bool>
    var readWs: nat
    var readFix: nat

    ghost function State(): Engine
      reads this, callers
    {
      Engine(ws, fix, booksDirty, running, thread, callers[..], readWs, readFix)
    }

    constructor (n: nat)
      ensures fresh(callers) && State() == Started(n)
    {
      booksDirty, running, thread := false, true, Entering;
      callers := new Caller[n](i => Idle);
      ws, fix, readWs, readFix := [], [], 0, 0;
    }

    /** The locked region of update_order_book or update_fix_data. */
    method BeginUpdate(c: nat, feed: Feed)
      modifies this, callers
      ensures callers == old(callers) && State() == Step(old(State()), Update(c, feed))
    {
      if c < callers.Length && callers[c].Idle? {
        match feed
        case Ws =>
          callers[c] := Written(feed, |ws|);
          ws := ws + [false];
        case Fix =>
          callers[c] := Written(feed, |fix|);
          fix := fix + [false];
      }
    }

    method BeginStop(c: nat)
      modifies this, callers
      ensures callers == old(callers) && State() == Step(old(State()), Stop(c))
    {
      if c < callers.Length && callers[c].Idle? {
        running := false;
        callers[c] := Halted;
      }
    }

    /** The flag store, then the notification. */
    method AdvanceCaller(c: nat)
      modifies this, callers
      ensures callers == old(callers) && State() == Step(old(State()), Advance(c))
    {
      if c < callers.Length {
        match callers[c]
        case Idle =>
        case Written(feed, at) =>
          booksDirty := true;
          callers[c] := Flagged;
          if feed.Ws? && at < |ws| { ws := ws[at := true]; }
          if feed.Fix? && at < |fix| { fix := fix[at := true]; }
        case Halted =>
          booksDirty := true;
          callers[c] := Flagged;
        case Flagged =>
          if thread.Asleep? { thread := Testing; }
          callers[c] := Idle;
      }
    }

    /** One access of calculation_loop. */
    method AdvanceThread()
      modifies this
      ensures callers == old(callers) && State() == Step(old(State()), Calculate)
    {
      match thread
      case Entering => thread := if running then Testing else Done;
      case Testing => thread := if booksDirty then Clearing else TestingRunning;
      case TestingRunning => thread := if running then Blocking else Clearing;
      case Blocking => thread := Asleep;
      case Asleep =>
      case Clearing => booksDirty, thread := false, Checking;
      case Checking => thread := if running then ReadingWs else Done;
      case ReadingWs => readWs, thread := |ws|, ReadingFix;
      case ReadingFix => readFix, thread := |fix|, Comparing;
      case Comparing => thread := Entering;
      case Done =>
    }

    /** Any interleaving, performed in place, is a run of the step machine. */
    method Execute(schedule: seq<Action>)
      modifies this, callers
      ensures State() == Run(old(State()), schedule)
    {
      ghost var start := State();
      for i := 0 to |schedule|
        invariant callers == old(callers) && Run(State(), schedule[i..]) == Run(start, schedule)
      {
        match schedule[i] {
          case Update(c, feed) => BeginUpdate(c, feed);
          case Stop(c) => BeginStop(c);
          case Advance(c) => AdvanceCaller(c);
          case Calculate => AdvanceThread();
          case FinishReports => if thread.Comparing? { running, thread := false, Done; }
          case SpuriousWake => if thread.Asleep? { thread := Testing; }
        }
        assert schedule[i..][1..] == schedule[i + 1..];
      }
    }
  }
}
