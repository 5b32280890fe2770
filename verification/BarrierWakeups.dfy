/** Wake-ups. A thread that sleeps is woken in time exactly when its test is still true at the moment it
    joins the wait queue; `sleep_here` does not test again. */
module BarrierWakeups {
  import opened BarrierWord
  import opened BarrierMachine
  import opened BarrierSafety

  /** The loop guard of the wait loop the thread is in. */
  predicate Guard(s: State, t: Tid) {
    && (t in s.gate || t in s.draining ==> s.total > FLAG)
    && (t in s.inside ==> s.total < FLAG)
  }

  /** No lost wake-up: whoever sleeps still has a reason to. */
  ghost predicate SleepersGuarded(s: State) {
    forall t :: t in s.waitQ ==> Guard(s, t)
  }

  lemma GateGuards(c: Config, s: State, t: Tid)
    requires ProperCount(c) && Places(c, s) && LegalWord(c.count, s.total) && Enabled(c, s, Gate(t)) && SleepersGuarded(s)
    ensures SleepersGuarded(Do(c, s, Gate(t)))
  {
    GateEffect(c, s, t);
  }

  lemma InnerGuards(c: Config, s: State, t: Tid)
    requires ProperCount(c) && Places(c, s) && WordMeans(c, s) && Enabled(c, s, Inner(t)) && SleepersGuarded(s)
    ensures SleepersGuarded(Do(c, s, Inner(t)))
  {
    InnerCases(c, s);
  }

  /** Exactly one kind of step can lose a wake-up: queueing on a test that is no longer true. */
  lemma WakeupKeptIff(c: Config, s: State, a: Action)
    requires ProperCount(c) && Places(c, s) && WordMeans(c, s) && Enabled(c, s, a) && SleepersGuarded(s)
    ensures SleepersGuarded(Do(c, s, a)) <==> (a.Queue? ==> Guard(s, a.t))
  {
    match a
    case Gate(t) => GateGuards(c, s, t);
    case Inner(t) => InnerGuards(c, s, t);
    case Queue(t) =>
      var s' := Do(c, s, a);
      assert t in s'.waitQ;
      assert Guard(s', t) <==> Guard(s, t);
    case _ =>
  }

  /** A schedule in which no test goes stale between giving the lock back and joining the queue. */
  ghost predicate FreshQueues(c: Config, acts: seq<Action>) {
    acts == [] ||
    var before := acts[..|acts| - 1];
    var a := acts[|acts| - 1];
    FreshQueues(c, before) && (a.Queue? ==> Guard(Exec(c, before), a.t))
  }

  lemma {:induction false} FreshRunsGuardSleepers(c: Config, acts: seq<Action>)
    requires ProperCount(c) && Runs(c, acts) && FreshQueues(c, acts)
    ensures SleepersGuarded(Exec(c, acts))
  {
    if acts != [] {
      var before := acts[..|acts| - 1];
      FreshRunsGuardSleepers(c, before);
      RunKeepsWord(c, before);
      WakeupKeptIff(c, Exec(c, before), acts[|acts| - 1]);
    }
  }

  /** Over whole schedules: no wake-up is ever lost exactly when no thread queues on a stale test. */
  lemma {:induction false} NeverLostIff(c: Config, acts: seq<Action>)
    requires ProperCount(c) && Runs(c, acts)
    ensures FreshQueues(c, acts) <==> forall n :: 0 <= n <= |acts| ==> SleepersGuarded(Exec(c, acts[..n]))
  {
    assert acts[..|acts|] == acts;
    if acts == [] {
      assert acts[..0] == [];
    } else {
      var before := acts[..|acts| - 1];
      NeverLostIff(c, before);
      assert forall n :: 0 <= n <= |before| ==> before[..n] == acts[..n];
      assert before[..|before|] == before;
      if SleepersGuarded(Exec(c, before)) {
        RunKeepsWord(c, before);
        WakeupKeptIff(c, Exec(c, before), acts[|acts| - 1]);
      }
    }
  }

  // The states of the deadlock below, two actions apart.
  const TWO: Config := Config(2, {1, 2})
  const DOZING: State := State(1, {}, {1}, {}, {}, {1}, {}, false, [Arrived(1)], 0)
  const RELEASED: State := State(FLAG + 1, {}, {1}, {}, {}, {1}, {}, false, [Arrived(1), Arrived(2), Left(2)], 0)
  const ASLEEP: State := RELEASED.(gate := {2}, dozing := {}, waitQ := {1})
  const STUCK: State := ASLEEP.(waitQ := {1, 2})

  lemma DeadlockFirstHalf()
    ensures Enabled(TWO, Init(), Call(1)) && Enabled(TWO, Do(TWO, Init(), Call(1)), Gate(1))
    ensures Do(TWO, Do(TWO, Init(), Call(1)), Gate(1)) == DOZING
    ensures Enabled(TWO, DOZING, Call(2)) && Enabled(TWO, Do(TWO, DOZING, Call(2)), Gate(2))
    ensures Do(TWO, Do(TWO, DOZING, Call(2)), Gate(2)) == RELEASED
  {
  }

  lemma DeadlockSecondHalf()
    ensures Enabled(TWO, RELEASED, Queue(1)) && Enabled(TWO, Do(TWO, RELEASED, Queue(1)), Call(2))
    ensures Do(TWO, Do(TWO, RELEASED, Queue(1)), Call(2)) == ASLEEP
    ensures Enabled(TWO, ASLEEP, Gate(2)) && Enabled(TWO, Do(TWO, ASLEEP, Gate(2)), Queue(2))
    ensures Do(TWO, Do(TWO, ASLEEP, Gate(2)), Queue(2)) == STUCK
    ensures forall a :: Enabled(TWO, STUCK, a) ==> a.Wake?
  {
  }

  /** On more than one processor the gap in `sleep_here` matters: the release of the round falls between
      thread 1's test and its queueing, and after thread 2 calls again nobody can move. */
  lemma SplitSleepMayDeadlock() returns (acts: seq<Action>)
    ensures ProperCount(TWO) && |TWO.tids| == TWO.count && Runs(TWO, acts)
    ensures Exec(TWO, acts) == STUCK && 1 in STUCK.inside && STUCK.total > FLAG
    ensures forall a :: Enabled(TWO, Exec(TWO, acts), a) ==> a.Wake?
  {
    acts := [Call(1), Gate(1), Call(2), Gate(2), Queue(1), Call(2), Gate(2), Queue(2)];
    assert acts[..0] == [] && acts[..8] == acts;
    DeadlockFirstHalf();
    DeadlockSecondHalf();
    TwoSteps(TWO, acts, 0, Init(), DOZING);
    TwoSteps(TWO, acts, 2, DOZING, RELEASED);
    TwoSteps(TWO, acts, 4, RELEASED, ASLEEP);
    TwoSteps(TWO, acts, 6, ASLEEP, STUCK);
  }

  // ----- Sleeping without a gap: the single-processor, non-preemptible kernel -----

  /** "Unlock, then sleep" as one step. */
  function AtomicDo(c: Config, s: State, a: Action): State {
    var s1 := Do(c, s, a);
    if a.t in s1.dozing then Do(c, s1, Queue(a.t)) else s1
  }

  predicate AtomicEnabled(c: Config, s: State, a: Action) {
    !a.Queue? && Enabled(c, s, a)
  }

  function AtomicExec(c: Config, acts: seq<Action>): State {
    if acts == [] then Init() else AtomicDo(c, AtomicExec(c, acts[..|acts| - 1]), acts[|acts| - 1])
  }

  predicate AtomicRuns(c: Config, acts: seq<Action>) {
    acts == [] ||
    (AtomicRuns(c, acts[..|acts| - 1])
     && AtomicEnabled(c, AtomicExec(c, acts[..|acts| - 1]), acts[|acts| - 1]))
  }

  lemma FreshSnoc(c: Config, acts: seq<Action>, a: Action)
    ensures FreshQueues(c, acts + [a]) <==> FreshQueues(c, acts) && (a.Queue? ==> Guard(Exec(c, acts), a.t))
  {
    assert (acts + [a])[..|acts|] == acts;
  }

  /** A section that ends in sleep has just seen its guard true. */
  lemma JustTested(c: Config, s: State, a: Action)
    requires ProperCount(c) && Places(c, s) && WordMeans(c, s) && s.dozing == {} && AtomicEnabled(c, s, a)
    ensures a.t in Do(c, s, a).dozing ==> Guard(Do(c, s, a), a.t)
    ensures Do(c, s, a).dozing <= {a.t}
  {
    match a
    case Gate(t) => EnterCases(c.count, s.total);
    case Inner(t) => InnerCases(c, s);
    case _ =>
  }

  /** Every run without the gap is a run of the split machine, and a fresh one. */
  lemma {:induction false} AtomicIsFresh(c: Config, acts: seq<Action>) returns (split: seq<Action>)
    requires ProperCount(c) && AtomicRuns(c, acts)
    ensures Runs(c, split) && FreshQueues(c, split) && Exec(c, split) == AtomicExec(c, acts)
    ensures AtomicExec(c, acts).dozing == {}
  {
    if acts == [] {
      split := [];
    } else {
      var a := acts[|acts| - 1];
      split := AtomicIsFresh(c, acts[..|acts| - 1]);
      var s := Exec(c, split);
      RunKeepsWord(c, split);
      JustTested(c, s, a);
      RunsSnoc(c, split, a);
      FreshSnoc(c, split, a);
      split := split + [a];
      if a.t in Do(c, s, a).dozing {
        RunsSnoc(c, split, Queue(a.t));
        FreshSnoc(c, split, Queue(a.t));
        split := split + [Queue(a.t)];
      }
    }
  }

  lemma NoLostWakeup(c: Config, acts: seq<Action>)
    requires ProperCount(c) && AtomicRuns(c, acts)
    ensures SleepersGuarded(AtomicExec(c, acts))
  {
    var split := AtomicIsFresh(c, acts);
    FreshRunsGuardSleepers(c, split);
  }

  /** While a round is being released, somebody is inside and everybody inside is awake and leaves at its
      next section. */
  lemma ReleasedCanLeave(c: Config, acts: seq<Action>)
    requires ProperCount(c) && AtomicRuns(c, acts)
    requires AtomicExec(c, acts).total > FLAG && !AtomicExec(c, acts).freed
    ensures
      var s := AtomicExec(c, acts);
      && s.inside != {}
      && forall t :: t in s.inside ==>
           AtomicEnabled(c, s, Inner(t)) && t !in AtomicDo(c, s, Inner(t)).inside
  {
    NoLostWakeup(c, acts);
    var split := AtomicIsFresh(c, acts);
    RunKeepsWord(c, split);
    var s := AtomicExec(c, acts);
    forall t | t in s.inside
      ensures AtomicEnabled(c, s, Inner(t)) && t !in AtomicDo(c, s, Inner(t)).inside
    {
      ReleasedLeaves(c, s, t);
    }
  }

  lemma ReleasedLeaves(c: Config, s: State, t: Tid)
    requires ProperCount(c) && WordMeans(c, s) && SleepersGuarded(s) && s.dozing == {} && !s.freed
    requires s.total > FLAG && t in s.inside
    ensures AtomicEnabled(c, s, Inner(t)) && t !in AtomicDo(c, s, Inner(t)).inside
  {
    InnerCases(c, s);
  }
}
