/** Progress when sleep is split from the test before it: the loops of the test program on the machine of
    `BarrierMachine` itself. A run always comes to a stop; what it takes to have finished by then is that no
    sleeper has been left behind, and queueing on fresh tests is enough for that. */
module BarrierSplitProgress {
  import opened Counting
  import opened BarrierWord
  import opened BarrierMachine
  import opened BarrierSpec
  import opened BarrierSafety
  import opened BarrierLockstep
  import opened BarrierWakeups
  import opened BarrierProgress

  predicate SplitEnabled(c: Config, rounds: nat, s: State, a: Action) {
    && Enabled(c, s, a)
    && (a.Call? || a.Gate? || a.Inner? || a.Queue? || a.Wake?)
    && (a.Call? ==> Occurrences(s.log, Left(a.t)) < rounds)
  }

  predicate SplitRuns(c: Config, rounds: nat, acts: seq<Action>) {
    acts == [] ||
    (SplitRuns(c, rounds, acts[..|acts| - 1])
     && SplitEnabled(c, rounds, Exec(c, acts[..|acts| - 1]), acts[|acts| - 1]))
  }

  /** Nobody but a signal can move anybody. */
  ghost predicate SplitStuck(c: Config, rounds: nat, s: State) {
    forall a :: SplitEnabled(c, rounds, s, a) ==> a.Wake?
  }

  /** What a run keeps, for a team of any size. */
  ghost predicate SplitInv(c: Config, rounds: nat, s: State) {
    Places(c, s) && WordMeans(c, s) && Balanced(s) && WithinLoop(c, rounds, s)
  }

  lemma SplitStepWithinLoop(c: Config, rounds: nat, s: State, a: Action)
    requires ProperCount(c) && SplitInv(c, rounds, s) && SplitEnabled(c, rounds, s, a)
    ensures WithinLoop(c, rounds, Do(c, s, a))
  {
    if !a.Queue? { CallsWithinLoop(c, rounds, s, a); }
  }

  lemma {:induction false} SplitRunsAreRuns(c: Config, rounds: nat, acts: seq<Action>)
    requires SplitRuns(c, rounds, acts)
    ensures Runs(c, acts)
  {
    if acts != [] { SplitRunsAreRuns(c, rounds, acts[..|acts| - 1]); }
  }

  lemma {:induction false} SplitState(c: Config, rounds: nat, acts: seq<Action>)
    requires ProperCount(c) && SplitRuns(c, rounds, acts)
    ensures SplitInv(c, rounds, Exec(c, acts))
  {
    SplitRunsAreRuns(c, rounds, acts);
    RunBalanced(c, acts);
    if acts != [] {
      SplitState(c, rounds, acts[..|acts| - 1]);
      SplitStepWithinLoop(c, rounds, Exec(c, acts[..|acts| - 1]), acts[|acts| - 1]);
    }
  }

  // ----- Where a run can stop -----

  /** A stopped state without a lost wake-up is one in which the gapless program would stop too. */
  lemma GuardedStop(c: Config, rounds: nat, s: State)
    requires SplitInv(c, rounds, s) && SplitStuck(c, rounds, s) && SleepersGuarded(s)
    ensures TeamInv(c, rounds, s) && Stuck(c, rounds, s)
  {
    if s.dozing != {} {
      var t := Pick(s.dozing);
      assert SplitEnabled(c, rounds, s, Queue(t));
    }
    assert forall a :: ClientEnabled(c, rounds, s, a) ==> SplitEnabled(c, rounds, s, a);
  }

  lemma FinishedIsGuarded(c: Config, rounds: nat, s: State)
    requires Places(c, s) && Finished(c, rounds, s)
    ensures SleepersGuarded(s)
  {
    assert forall t :: t in s.waitQ ==> t in Busy(s);
  }

  /** The exact cause of a deadlock: with exactly `count` threads, a run that cannot go on has finished if
      and only if every sleeper still has a reason to sleep. */
  lemma StoppedSplitIff(c: Config, rounds: nat, acts: seq<Action>)
    requires FullTeam(c) && SplitRuns(c, rounds, acts) && SplitStuck(c, rounds, Exec(c, acts))
    ensures Finished(c, rounds, Exec(c, acts)) <==> SleepersGuarded(Exec(c, acts))
  {
    var s := Exec(c, acts);
    SplitState(c, rounds, acts);
    if SleepersGuarded(s) {
      SplitRunsAreRuns(c, rounds, acts);
      RunInStep(c, acts);
      GuardedStop(c, rounds, s);
      StuckMeansFinished(c, rounds, s);
    } else if Finished(c, rounds, s) {
      FinishedIsGuarded(c, rounds, s);
    }
  }

  /** For a team of any size: a run that cannot go on and has lost no wake-up has only run out of callers. */
  lemma GuardedStopIsShortOfCallers(c: Config, rounds: nat, acts: seq<Action>)
    requires ProperCount(c) && SplitRuns(c, rounds, acts)
    requires SplitStuck(c, rounds, Exec(c, acts)) && SleepersGuarded(Exec(c, acts))
    ensures
      var s := Exec(c, acts);
      && s.total <= FLAG && s.gate == {} && |s.inside| < c.count
      && forall t :: t in c.tids && t !in s.inside ==> Occurrences(s.log, Left(t)) == rounds
  {
    SplitState(c, rounds, acts);
    GuardedStop(c, rounds, Exec(c, acts));
    NobodyAwake(c, rounds, Exec(c, acts));
  }

  /** Progress rests on freshness: with exactly `count` threads, a run that never queues on a stale test and
      cannot go on has finished. */
  lemma FreshSplitFinishes(c: Config, rounds: nat, acts: seq<Action>)
    requires FullTeam(c) && SplitRuns(c, rounds, acts) && SplitStuck(c, rounds, Exec(c, acts))
    requires FreshQueues(c, acts)
    ensures Finished(c, rounds, Exec(c, acts))
  {
    SplitRunsAreRuns(c, rounds, acts);
    FreshRunsGuardSleepers(c, acts);
    StoppedSplitIff(c, rounds, acts);
  }

  // ----- Every run comes to a stop -----

  /** Waiters that are neither queued nor on their way to the queue. */
  function Ready(s: State): set<Tid> {
    (s.gate + s.inside) - s.waitQ - s.dozing
  }

  /** The lexicographic pair of what is left to do and how awake the waiters are: ready counts two, dozing one. */
  function SplitMeasure(c: Config, rounds: nat, s: State): int
    requires Remaining(c, rounds, s) >= 0
  {
    Multiple(2 * |c.tids| + 1, Remaining(c, rounds, s)) + 2 * |Ready(s)| + |s.dozing|
  }

  /** Each step uses up part of a call, or brings one waiter nearer to sleep, or is a stray wake-up. */
  ghost predicate SplitUses(c: Config, rounds: nat, s: State, a: Action, s': State) {
    || Remaining(c, rounds, s') < Remaining(c, rounds, s)
    || (&& Remaining(c, rounds, s') == Remaining(c, rounds, s)
        && match a
           case Queue(t) => Ready(s') == Ready(s) && t in s.dozing && s'.dozing == s.dozing - {t}
           case Wake(t) => Ready(s') == Ready(s) + {t} && s'.dozing == s.dozing
           case _ =>
             && a.t in Ready(s) && Ready(s') == Ready(s) - {a.t}
             && a.t !in s.dozing && s'.dozing == s.dozing + {a.t})
  }

  lemma GateSplitUses(c: Config, rounds: nat, s: State, t: Tid)
    requires ProperCount(c) && LegalWord(c.count, s.total) && SplitEnabled(c, rounds, s, Gate(t))
    ensures SplitUses(c, rounds, s, Gate(t), Do(c, s, Gate(t)))
  {
    GateEffect(c, s, t);
    if s.total <= FLAG {
      Snoc(s.log, Arrived(t));
      Snoc(s.log + [Arrived(t)], Left(t));
      assert |s.gate - {t}| == |s.gate| - 1;
    }
  }

  lemma InnerSplitUses(c: Config, rounds: nat, s: State, t: Tid)
    requires ProperCount(c) && WordMeans(c, s) && SplitEnabled(c, rounds, s, Inner(t))
    ensures SplitUses(c, rounds, s, Inner(t), Do(c, s, Inner(t)))
  {
    InnerCases(c, s);
    Snoc(s.log, Left(t));
  }

  lemma StepSplitUses(c: Config, rounds: nat, s: State, a: Action)
    requires ProperCount(c) && SplitInv(c, rounds, s) && SplitEnabled(c, rounds, s, a)
    ensures SplitUses(c, rounds, s, a, Do(c, s, a))
  {
    match a
    case Gate(t) => GateSplitUses(c, rounds, s, t);
    case Inner(t) => InnerSplitUses(c, rounds, s, t);
    case _ =>
  }

  lemma AwakeBound(c: Config, s: State)
    requires Places(c, s)
    ensures 2 * |Ready(s)| + |s.dozing| <= 2 * |c.tids|
  {
    SubsetSize(Ready(s) + s.dozing, c.tids);
    assert |Ready(s) + s.dozing| == |Ready(s)| + |s.dozing|;
  }

  /** With nothing used up, the waiters are one nearer to sleep, or two further from it. */
  lemma AwakeDrops(c: Config, rounds: nat, s: State, a: Action, s': State)
    requires SplitUses(c, rounds, s, a, s') && Remaining(c, rounds, s') >= Remaining(c, rounds, s)
    ensures Remaining(c, rounds, s') == Remaining(c, rounds, s)
    ensures 2 * |Ready(s')| + |s'.dozing| <= 2 * |Ready(s)| + |s.dozing| + (if a.Wake? then 2 else -1)
  {
  }

  lemma SplitMeasureDrops(c: Config, rounds: nat, s: State, a: Action, s': State)
    requires Places(c, s') && SplitUses(c, rounds, s, a, s')
    requires Remaining(c, rounds, s) >= 0 && Remaining(c, rounds, s') >= 0
    ensures SplitMeasure(c, rounds, s') <= SplitMeasure(c, rounds, s) + (if a.Wake? then 2 else -1)
  {
    if Remaining(c, rounds, s') < Remaining(c, rounds, s) {
      AwakeBound(c, s');
      MultipleGrows(2 * |c.tids| + 1, Remaining(c, rounds, s'), Remaining(c, rounds, s));
    } else {
      AwakeDrops(c, rounds, s, a, s');
    }
  }

  lemma SplitRemaining(c: Config, rounds: nat, acts: seq<Action>)
    requires ProperCount(c) && SplitRuns(c, rounds, acts)
    ensures Remaining(c, rounds, Exec(c, acts)) >= 0
  {
    SplitState(c, rounds, acts);
    CallBudget(c, rounds, Exec(c, acts));
  }

  lemma LastSplitStep(c: Config, rounds: nat, acts: seq<Action>)
    requires ProperCount(c) && acts != [] && SplitRuns(c, rounds, acts)
    ensures
      var s := Exec(c, acts[..|acts| - 1]);
      var s' := Exec(c, acts);
      && Remaining(c, rounds, s) >= 0 && Remaining(c, rounds, s') >= 0
      && SplitMeasure(c, rounds, s') <= SplitMeasure(c, rounds, s) + (if acts[|acts| - 1].Wake? then 2 else -1)
  {
    var before := acts[..|acts| - 1];
    SplitRemaining(c, rounds, acts);
    SplitRemaining(c, rounds, before);
    SplitState(c, rounds, acts);
    SplitState(c, rounds, before);
    StepSplitUses(c, rounds, Exec(c, before), acts[|acts| - 1]);
    SplitMeasureDrops(c, rounds, Exec(c, before), acts[|acts| - 1], Exec(c, acts));
  }

  function SplitRoom(c: Config, rounds: nat): int {
    Multiple(2 * |c.tids| + 1, 3 * Multiple(rounds, |c.tids|))
  }

  lemma {:induction false} SplitRunSpends(c: Config, rounds: nat, acts: seq<Action>)
    requires ProperCount(c) && SplitRuns(c, rounds, acts)
    ensures Remaining(c, rounds, Exec(c, acts)) >= 0
    ensures |acts| + SplitMeasure(c, rounds, Exec(c, acts)) <= SplitRoom(c, rounds) + 3 * WakeCount(acts)
  {
    SplitRemaining(c, rounds, acts);
    if acts != [] {
      SplitRunSpends(c, rounds, acts[..|acts| - 1]);
      LastSplitStep(c, rounds, acts);
    }
  }

  /** Every run is finite, split sleeps or not, whatever the team: a lost wake-up stops a run, it never
      keeps one going. Each stray wake-up buys at most three steps. */
  lemma SplitRunsAreFinite(c: Config, rounds: nat, acts: seq<Action>)
    requires ProperCount(c) && SplitRuns(c, rounds, acts)
    ensures |acts| <= 3 * (|c.tids| * rounds) * (2 * |c.tids| + 1) + 3 * WakeCount(acts)
  {
    SplitRunLength(c, rounds, acts);
    SplitRoomIs(|c.tids|, rounds);
  }

  lemma SplitRunLength(c: Config, rounds: nat, acts: seq<Action>)
    requires ProperCount(c) && SplitRuns(c, rounds, acts)
    ensures |acts| <= SplitRoom(c, rounds) + 3 * WakeCount(acts)
  {
    SplitRunSpends(c, rounds, acts);
  }

  lemma SplitRoomIs(threads: nat, rounds: nat)
    ensures Multiple(2 * threads + 1, 3 * Multiple(rounds, threads)) == 3 * (threads * rounds) * (2 * threads + 1)
  {
    MultipleIsProduct(rounds, threads);
    MultipleIsProduct(2 * threads + 1, 3 * (threads * rounds));
  }
}
