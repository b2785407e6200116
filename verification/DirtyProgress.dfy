/** How the hand-off of the dirty flag moves on (src/arbitrage_engine.cpp): when the calculation
    thread ends, what a wake-up leads to, and how an update or a stop is announced, with any
    steps of the other threads in between. */
module DirtyProgress {
  import opened DirtyFlag

  // ----- when the thread ends -----

  /** The thread leaves its loop exactly where it reads running_ as false, at the loop head or
      after clearing the flag, or where the last report has been collected. */
  lemma EndsIff(s: Engine, a: Action)
    requires !s.thread.Done?
    ensures Step(s, a).thread.Done? <==>
              || (a.Calculate? && !s.running && (s.thread.Entering? || s.thread.Checking?))
              || (a.FinishReports? && s.thread.Comparing?)
  {
    match a
    case Calculate =>
    case Advance(c) => CallerEndsNothing(s, c);
    case _ =>
  }

  lemma CallerEndsNothing(s: Engine, c: nat)
    requires !s.thread.Done?
    ensures !CallerStep(s, c).thread.Done?
  {
  }

  lemma {:induction false} DoneMeansStopped(s: Engine, schedule: seq<Action>)
    requires s.thread.Done? ==> !s.running
    ensures Run(s, schedule).thread.Done? ==> !Run(s, schedule).running
    decreases |schedule|
  {
    if schedule != [] {
      DoneMeansStopped(Step(s, schedule[0]), schedule[1..]);
    }
  }

  /** While the engine runs, so does its thread. */
  lemma ThreadOutlivesRunning(s: Engine)
    requires Reachable(s) && s.running
    ensures !s.thread.Done?
  {
    var n: nat, schedule :| s == Run(Started(n), schedule);
    DoneMeansStopped(Started(n), schedule);
  }

  // ----- what a wake-up leads to -----

  /** Steps of the feed threads and of callers of stop(). */
  predicate LeavesThread(schedule: seq<Action>) {
    forall i :: 0 <= i < |schedule| ==> !schedule[i].Calculate? && !schedule[i].FinishReports?
  }

  /** Whatever else happens, then the next access of the calculation thread. */
  function Next(s: Engine, meanwhile: seq<Action>): Engine {
    Step(Run(s, meanwhile), Calculate)
  }

  /** What stays of the thread and its reads while others move. */
  predicate Waits(s: Engine, r: Engine) {
    && r.thread == s.thread && r.readWs == s.readWs && r.readFix == s.readFix
    && |s.ws| <= |r.ws| && |s.fix| <= |r.fix| && (r.running ==> s.running)
  }

  lemma OtherActionKeepsThread(s: Engine, a: Action)
    requires !a.Calculate? && !a.FinishReports? && !s.thread.Asleep?
    ensures Waits(s, Step(s, a))
  {
    match a
    case Update(_, _) =>
    case Stop(_) =>
    case Advance(c) => CallerKeepsThread(s, c);
    case SpuriousWake =>
  }

  lemma CallerKeepsThread(s: Engine, c: nat)
    requires !s.thread.Asleep?
    ensures Waits(s, CallerStep(s, c))
  {
  }

  lemma {:induction false} ThreadKept(s: Engine, schedule: seq<Action>)
    requires LeavesThread(schedule) && !s.thread.Asleep?
    ensures Waits(s, Run(s, schedule))
    decreases |schedule|
  {
    if schedule != [] {
      OtherActionKeepsThread(s, schedule[0]);
      ThreadKept(Step(s, schedule[0]), schedule[1..]);
    }
  }

  /** A thread about to read goes through both maps back to the head of its loop. */
  lemma BothMapsAreRead(s: Engine, m3: seq<Action>, m4: seq<Action>, m5: seq<Action>)
    requires s.thread.ReadingWs?
    requires LeavesThread(m3) && LeavesThread(m4) && LeavesThread(m5)
    ensures
      var back := Next(Next(Next(s, m3), m4), m5);
      back.thread == Entering && |s.ws| <= back.readWs && |s.fix| <= back.readFix
  {
    ThreadKept(s, m3);
    var readWs := Next(s, m3);
    ThreadKept(readWs, m4);
    ThreadKept(Next(readWs, m4), m5);
  }

  /** A thread that finds the flag set clears it, and unless it finds the engine stopped then
      reads both maps, with every update they held at the wake-up, compares, and goes back to
      the head of its loop. */
  lemma WakeUpIsAnswered(s: Engine, m1: seq<Action>, m2: seq<Action>, m3: seq<Action>, m4: seq<Action>, m5: seq<Action>)
    requires s.thread.Testing? && s.dirty
    requires LeavesThread(m1) && LeavesThread(m2) && LeavesThread(m3) && LeavesThread(m4) && LeavesThread(m5)
    ensures
      var cleared := Next(Step(s, Calculate), m1);
      var checked := Next(cleared, m2);
      var back := Next(Next(Next(checked, m3), m4), m5);
      && !cleared.dirty
      && (if Run(cleared, m2).running
          then back.thread == Entering && |s.ws| <= back.readWs && |s.fix| <= back.readFix
          else checked.thread == Done)
  {
    var woken := Step(s, Calculate);
    ThreadKept(woken, m1);
    var cleared := Next(woken, m1);
    ThreadKept(cleared, m2);
    if Run(cleared, m2).running {
      BothMapsAreRead(Next(cleared, m2), m3, m4, m5);
    }
  }

  /** At the head of its loop the thread goes on while the engine runs.  It sleeps only after
      finding the flag clear and the engine running; stopped, it goes on to clear the flag. */
  lemma WaitingLeadsOn(s: Engine, m1: seq<Action>, m2: seq<Action>)
    requires LeavesThread(m1) && LeavesThread(m2)
    ensures s.thread.Entering? ==> Step(s, Calculate).thread == if s.running then Testing else Done
    ensures s.thread.Testing? && !s.dirty ==>
              var decided := Next(Step(s, Calculate), m1);
              if Run(Step(s, Calculate), m1).running then Next(decided, m2).thread == Asleep
              else decided.thread == Clearing
  {
    if s.thread.Testing? && !s.dirty {
      ThreadKept(Step(s, Calculate), m1);
      ThreadKept(Next(Step(s, Calculate), m1), m2);
    }
  }

  // ----- how callers announce what they did -----

  predicate LeavesCaller(schedule: seq<Action>, c: nat) {
    forall i :: 0 <= i < |schedule| ==> schedule[i] != Advance(c)
  }

  /** Updates stay in a map, and stay announced. */
  predicate Grows(log: seq<bool>, later: seq<bool>) {
    |log| <= |later| && forall i :: 0 <= i < |log| && log[i] ==> later[i]
  }

  lemma StepGrows(s: Engine, a: Action, feed: Feed)
    ensures Grows(Log(s, feed), Log(Step(s, a), feed))
  {
  }

  lemma {:induction false} RunGrows(s: Engine, schedule: seq<Action>, feed: Feed)
    ensures Grows(Log(s, feed), Log(Run(s, schedule), feed))
    decreases |schedule|
  {
    if schedule != [] {
      StepGrows(s, schedule[0], feed);
      RunGrows(Step(s, schedule[0]), schedule[1..], feed);
    }
  }

  /** What stays of a caller in the middle of its call while others move. */
  predicate Waiting(s: Engine, r: Engine, c: nat)
    requires c < |s.callers|
  {
    |r.callers| == |s.callers| && r.callers[c] == s.callers[c] && (r.running ==> s.running)
  }

  lemma OtherCallerLeaves(s: Engine, d: nat, c: nat)
    requires c < |s.callers| && d != c
    ensures Waiting(s, CallerStep(s, d), c)
  {
  }

  lemma OtherActionLeaves(s: Engine, a: Action, c: nat)
    requires c < |s.callers| && !s.callers[c].Idle? && a != Advance(c)
    ensures Waiting(s, Step(s, a), c)
  {
    match a
    case Update(_, _) =>
    case Stop(_) =>
    case Advance(d) => OtherCallerLeaves(s, d, c);
    case Calculate =>
    case FinishReports =>
    case SpuriousWake =>
  }

  lemma {:induction false} CallerKept(s: Engine, schedule: seq<Action>, c: nat)
    requires c < |s.callers| && !s.callers[c].Idle? && LeavesCaller(schedule, c)
    ensures Waiting(s, Run(s, schedule), c)
    decreases |schedule|
  {
    if schedule != [] {
      OtherActionLeaves(s, schedule[0], c);
      CallerKept(Step(s, schedule[0]), schedule[1..], c);
    }
  }

  /** An update enters its map, then sets the flag, then wakes the thread if it sleeps. */
  lemma UpdateIsAnnounced(s: Engine, c: nat, feed: Feed, m1: seq<Action>, m2: seq<Action>)
    requires c < |s.callers| && s.callers[c].Idle?
    requires LeavesCaller(m1, c) && LeavesCaller(m2, c)
    ensures
      var applied := Step(s, Update(c, feed));
      var flagged := Step(Run(applied, m1), Advance(c));
      var done := Step(Run(flagged, m2), Advance(c));
      && Log(applied, feed) == Log(s, feed) + [false] && applied.dirty == s.dirty
      && flagged.dirty && |Log(s, feed)| < |Log(flagged, feed)| && Log(flagged, feed)[|Log(s, feed)|]
      && c < |done.callers| && done.callers[c] == Idle && !done.thread.Asleep?
  {
    var applied := Step(s, Update(c, feed));
    CallerKept(applied, m1, c);
    RunGrows(applied, m1, feed);
    var flagged := Step(Run(applied, m1), Advance(c));
    CallerKept(flagged, m2, c);
  }

  /** stop() clears running_, then sets the flag, then wakes the thread if it sleeps. */
  lemma StopIsAnnounced(s: Engine, c: nat, m1: seq<Action>, m2: seq<Action>)
    requires c < |s.callers| && s.callers[c].Idle?
    requires LeavesCaller(m1, c) && LeavesCaller(m2, c)
    ensures
      var stopped := Step(s, Stop(c));
      var flagged := Step(Run(stopped, m1), Advance(c));
      var done := Step(Run(flagged, m2), Advance(c));
      && !stopped.running && flagged.dirty
      && c < |done.callers| && done.callers[c] == Idle && !done.running && !done.thread.Asleep?
  {
    var stopped := Step(s, Stop(c));
    CallerKept(stopped, m1, c);
    var flagged := Step(Run(stopped, m1), Advance(c));
    CallerKept(flagged, m2, c);
  }
}
