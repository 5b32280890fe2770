/** Threads that each call `barrier_wait` `rounds` times: the loops of the test program. */
module BarrierProgress {
  import opened Counting
  import opened BarrierWord
  import opened BarrierMachine
  import opened BarrierSpec
  import opened BarrierSafety
  import opened BarrierLockstep
  import opened BarrierWakeups

  predicate ClientEnabled(c: Config, rounds: nat, s: State, a: Action) {
    && AtomicEnabled(c, s, a)
    && (a.Call? || a.Gate? || a.Inner? || a.Wake?)
    && (a.Call? ==> Occurrences(s.log, Left(a.t)) < rounds)
  }

  predicate ClientRuns(c: Config, rounds: nat, acts: seq<Action>) {
    acts == [] ||
    (ClientRuns(c, rounds, acts[..|acts| - 1])
     && ClientEnabled(c, rounds, AtomicExec(c, acts[..|acts| - 1]), acts[|acts| - 1]))
  }

  predicate Finished(c: Config, rounds: nat, s: State) {
    Busy(s) == {} && forall t :: t in c.tids ==> Occurrences(s.log, Left(t)) == rounds
  }

  /** No thread makes more calls than its loop allows, nobody else calls, and nobody is destroying the barrier. */
  ghost predicate WithinLoop(c: Config, rounds: nat, s: State) {
    && s.draining == {} && s.recycling == {} && !s.freed
    && (forall t :: t in c.tids ==> Occurrences(s.log, Arrived(t)) + (if t in s.gate then 1 else 0) <= rounds)
    && (forall i :: 0 <= i < |s.log| ==> s.log[i].t in c.tids)
  }

  /** What a run of the loops keeps, for a team of any size. */
  ghost predicate TeamInv(c: Config, rounds: nat, s: State) {
    && Places(c, s) && WordMeans(c, s) && Balanced(s)
    && SleepersGuarded(s) && s.dozing == {} && WithinLoop(c, rounds, s)
  }

  /** The log, the gate and the teardown fields are not touched by joining the queue. */
  lemma AtomicFields(c: Config, s: State, a: Action)
    ensures
      var s' := AtomicDo(c, s, a);
      var s1 := Do(c, s, a);
      && s'.total == s1.total && s'.gate == s1.gate && s'.inside == s1.inside && s'.draining == s1.draining
      && s'.recycling == s1.recycling
      && s'.freed == s1.freed && s'.log == s1.log && s'.round == s1.round
      && s'.waitQ == (if a.t in s1.dozing then s1.waitQ + {a.t} else s1.waitQ)
  {
  }

  lemma StepWithinLoop(c: Config, rounds: nat, s: State, a: Action)
    requires ProperCount(c) && LegalWord(c.count, s.total)
    requires Places(c, s) && Balanced(s) && WithinLoop(c, rounds, s) && ClientEnabled(c, rounds, s, a)
    ensures WithinLoop(c, rounds, AtomicDo(c, s, a))
  {
    AtomicFields(c, s, a);
    CallsWithinLoop(c, rounds, s, a);
  }

  lemma GateWithinLoop(c: Config, rounds: nat, s: State, t: Tid)
    requires ProperCount(c) && LegalWord(c.count, s.total)
    requires Places(c, s) && WithinLoop(c, rounds, s) && Enabled(c, s, Gate(t))
    ensures WithinLoop(c, rounds, Do(c, s, Gate(t)))
  {
    GateEffect(c, s, t);
    Snoc(s.log, Arrived(t));
    Snoc(s.log + [Arrived(t)], Left(t));
  }

  lemma InnerWithinLoop(c: Config, rounds: nat, s: State, t: Tid)
    requires Places(c, s) && WithinLoop(c, rounds, s) && Enabled(c, s, Inner(t))
    ensures WithinLoop(c, rounds, Do(c, s, Inner(t)))
  {
    Snoc(s.log, Left(t));
  }

  lemma CallsWithinLoop(c: Config, rounds: nat, s: State, a: Action)
    requires ProperCount(c) && LegalWord(c.count, s.total)
    requires Places(c, s) && Balanced(s) && WithinLoop(c, rounds, s) && ClientEnabled(c, rounds, s, a)
    ensures WithinLoop(c, rounds, Do(c, s, a))
  {
    match a
    case Gate(t) => GateWithinLoop(c, rounds, s, t);
    case Inner(t) => InnerWithinLoop(c, rounds, s, t);
    case _ =>
  }

  lemma {:induction false} ClientRunsAreAtomic(c: Config, rounds: nat, acts: seq<Action>)
    requires ClientRuns(c, rounds, acts)
    ensures AtomicRuns(c, acts)
  {
    if acts != [] { ClientRunsAreAtomic(c, rounds, acts[..|acts| - 1]); }
  }

  lemma AtomicState(c: Config, acts: seq<Action>)
    requires ProperCount(c) && AtomicRuns(c, acts)
    ensures
      var s := AtomicExec(c, acts);
      && Places(c, s) && WordMeans(c, s) && Balanced(s) && SleepersGuarded(s) && s.dozing == {}
      && (FullTeam(c) ==> InStep(c, s))
  {
    NoLostWakeup(c, acts);
    var split := AtomicIsFresh(c, acts);
    RunBalanced(c, split);
    if FullTeam(c) { RunInStep(c, split); }
  }

  lemma {:induction false} TeamState(c: Config, rounds: nat, acts: seq<Action>)
    requires ProperCount(c) && ClientRuns(c, rounds, acts)
    ensures TeamInv(c, rounds, AtomicExec(c, acts))
    ensures FullTeam(c) ==> InStep(c, AtomicExec(c, acts))
  {
    ClientRunsAreAtomic(c, rounds, acts);
    AtomicState(c, acts);
    if acts != [] {
      var before := acts[..|acts| - 1];
      TeamState(c, rounds, before);
      StepWithinLoop(c, rounds, AtomicExec(c, before), acts[|acts| - 1]);
    }
  }

  // ----- No deadlock -----

  /** Nobody but a signal can move anybody. */
  ghost predicate Stuck(c: Config, rounds: nat, s: State) {
    forall a :: ClientEnabled(c, rounds, s, a) ==> a.Wake?
  }

  lemma NobodyAwake(c: Config, rounds: nat, s: State)
    requires ProperCount(c) && TeamInv(c, rounds, s) && Stuck(c, rounds, s)
    ensures s.total <= FLAG && s.gate == {}
    ensures forall t :: t in c.tids && t !in s.inside ==> Occurrences(s.log, Left(t)) == rounds
  {
    forall t | t in s.gate ensures t in s.waitQ { assert !ClientEnabled(c, rounds, s, Gate(t)); }
    forall t | t in s.inside ensures t in s.waitQ { assert !ClientEnabled(c, rounds, s, Inner(t)); }
    if s.total > FLAG {
      var t := Pick(s.inside);
    }
    if s.gate != {} {
      var t := Pick(s.gate);
    }
    forall t | t in c.tids && t !in s.inside ensures Occurrences(s.log, Left(t)) == rounds {
      assert !ClientEnabled(c, rounds, s, Call(t));
    }
  }

  /** In a full team a filling round is short of a thread that still has a call to make. */
  lemma FillingNeedsCaller(c: Config, rounds: nat, s: State)
    requires FullTeam(c) && TeamInv(c, rounds, s) && InStep(c, s) && s.total <= FLAG && s.inside != {}
    ensures exists t :: t in c.tids && t !in s.inside && Occurrences(s.log, Left(t)) < rounds
  {
    InnerCases(c, s);
    var t := PickOutside(c.tids, s.inside);
    var u := Pick(s.inside);
    assert u in c.tids;
    assert Occurrences(s.log, Left(t)) == s.round == Occurrences(s.log, Left(u));
  }

  lemma StuckMeansFinished(c: Config, rounds: nat, s: State)
    requires FullTeam(c) && TeamInv(c, rounds, s) && InStep(c, s) && Stuck(c, rounds, s)
    ensures Finished(c, rounds, s)
  {
    NobodyAwake(c, rounds, s);
    if s.inside != {} {
      FillingNeedsCaller(c, rounds, s);
    }
  }

  // ----- Every run is finite -----

  /** Arrivals of a group of threads. */
  function CallsIn(log: seq<Event>, group: set<Tid>): nat {
    if log == [] then 0
    else
      var e := log[|log| - 1];
      CallsIn(log[..|log| - 1], group) + (if e.Arrived? && e.t in group then 1 else 0)
  }

  lemma {:induction false} CallsSplit(log: seq<Event>, group: set<Tid>, t: Tid)
    requires t in group
    ensures CallsIn(log, group) == CallsIn(log, group - {t}) + Occurrences(log, Arrived(t))
  {
    if log != [] { CallsSplit(log[..|log| - 1], group, t); }
  }

  lemma {:induction false} NoCallsInNobody(log: seq<Event>)
    ensures CallsIn(log, {}) == 0
  {
    if log != [] { NoCallsInNobody(log[..|log| - 1]); }
  }

  lemma {:induction false} AllCallsIn(log: seq<Event>, group: set<Tid>)
    requires forall i :: 0 <= i < |log| ==> log[i].t in group
    ensures CallsIn(log, group) == Arrivals(log)
  {
    if log != [] { AllCallsIn(log[..|log| - 1], group); }
  }

  /** If no thread has begun more than `rounds` calls, the group has begun at most |group| * rounds. */
  lemma {:induction false} GroupBudget(log: seq<Event>, gate: set<Tid>, group: set<Tid>, rounds: nat)
    requires forall t :: t in group ==> Occurrences(log, Arrived(t)) + (if t in gate then 1 else 0) <= rounds
    ensures CallsIn(log, group) + |gate * group| <= Multiple(rounds, |group|)
    decreases |group|
  {
    if group == {} {
      NoCallsInNobody(log);
      assert gate * group == {};
    } else {
      var t := Pick(group);
      var rest := group - {t};
      CallsSplit(log, group, t);
      GroupBudget(log, gate, rest, rounds);
      assert gate * group == gate * rest + (if t in gate then {t} else {});
    }
  }

  /** If every thread has made exactly `rounds` calls, the group has made |group| * rounds. */
  lemma {:induction false} GroupTotal(log: seq<Event>, group: set<Tid>, rounds: nat)
    requires forall t :: t in group ==> Occurrences(log, Arrived(t)) == rounds
    ensures CallsIn(log, group) == Multiple(rounds, |group|)
    decreases |group|
  {
    if group == {} {
      NoCallsInNobody(log);
    } else {
      var t := Pick(group);
      CallsSplit(log, group, t);
      GroupTotal(log, group - {t}, rounds);
    }
  }

  /** Calls, arrivals and departures still to come. */
  function Remaining(c: Config, rounds: nat, s: State): int {
    3 * Multiple(rounds, |c.tids|) - (2 * Arrivals(s.log) + |s.gate| + Departures(s.log))
  }

  function AwakeWaiters(s: State): set<Tid> {
    (s.gate + s.inside) - s.waitQ
  }

  /** The lexicographic pair (Remaining, AwakeWaiters), as one number. */
  function Measure(c: Config, rounds: nat, s: State): int
    requires Remaining(c, rounds, s) >= 0
  {
    Multiple(|c.tids| + 1, Remaining(c, rounds, s)) + |AwakeWaiters(s)|
  }

  /** All calls begun so far fit in the budget. */
  lemma CallBudget(c: Config, rounds: nat, s: State)
    requires Places(c, s) && WordMeans(c, s) && WithinLoop(c, rounds, s)
    ensures Arrivals(s.log) + |s.gate| <= Multiple(rounds, |c.tids|)
    ensures Remaining(c, rounds, s) >= 0
  {
    GroupBudget(s.log, s.gate, c.tids, rounds);
    AllCallsIn(s.log, c.tids);
    assert s.gate * c.tids == s.gate;
  }

  /** A step that is not a stray wake-up either uses up part of a call or puts one awake thread to sleep. */
  ghost predicate Uses(c: Config, rounds: nat, s: State, a: Action, s': State) {
    if a.Wake? then
      Remaining(c, rounds, s') == Remaining(c, rounds, s) && AwakeWaiters(s') == AwakeWaiters(s) + {a.t}
    else
      || Remaining(c, rounds, s') < Remaining(c, rounds, s)
      || (Remaining(c, rounds, s') == Remaining(c, rounds, s)
          && a.t in AwakeWaiters(s) && AwakeWaiters(s') == AwakeWaiters(s) - {a.t})
  }

  /** Falling asleep changes nothing but the queue. */
  lemma SleepUses(c: Config, rounds: nat, s: State, a: Action)
    requires s.dozing == {} && (a.Gate? || a.Inner?) && a.t in AwakeWaiters(s)
    requires Do(c, s, a) == s.(dozing := s.dozing + {a.t})
    ensures Uses(c, rounds, s, a, AtomicDo(c, s, a))
  {
    AtomicFields(c, s, a);
  }

  lemma GateUses(c: Config, rounds: nat, s: State, t: Tid)
    requires ProperCount(c) && LegalWord(c.count, s.total) && s.dozing == {}
    requires ClientEnabled(c, rounds, s, Gate(t))
    ensures Uses(c, rounds, s, Gate(t), AtomicDo(c, s, Gate(t)))
  {
    GateEffect(c, s, t);
    if s.total > FLAG {
      SleepUses(c, rounds, s, Gate(t));
    } else {
      AtomicFields(c, s, Gate(t));
      Snoc(s.log, Arrived(t));
      Snoc(s.log + [Arrived(t)], Left(t));
      assert |s.gate - {t}| == |s.gate| - 1;
    }
  }

  lemma InnerUses(c: Config, rounds: nat, s: State, t: Tid)
    requires ProperCount(c) && WordMeans(c, s) && s.dozing == {}
    requires ClientEnabled(c, rounds, s, Inner(t))
    ensures Uses(c, rounds, s, Inner(t), AtomicDo(c, s, Inner(t)))
  {
    InnerCases(c, s);
    if s.total < FLAG {
      SleepUses(c, rounds, s, Inner(t));
    } else {
      AtomicFields(c, s, Inner(t));
      Snoc(s.log, Left(t));
    }
  }

  lemma StepUses(c: Config, rounds: nat, s: State, a: Action)
    requires ProperCount(c) && TeamInv(c, rounds, s) && ClientEnabled(c, rounds, s, a)
    ensures Uses(c, rounds, s, a, AtomicDo(c, s, a))
  {
    match a
    case Gate(t) => GateUses(c, rounds, s, t);
    case Inner(t) => InnerUses(c, rounds, s, t);
    case _ => AtomicFields(c, s, a);
  }

  lemma MeasureDrops(c: Config, rounds: nat, s: State, a: Action, s': State)
    requires Places(c, s') && Uses(c, rounds, s, a, s')
    requires Remaining(c, rounds, s) >= 0 && Remaining(c, rounds, s') >= 0
    ensures Measure(c, rounds, s') <= Measure(c, rounds, s) + (if a.Wake? then 1 else -1)
  {
    SubsetSize(AwakeWaiters(s'), c.tids);
    if Remaining(c, rounds, s') < Remaining(c, rounds, s) {
      MultipleMonotone(|c.tids| + 1, Remaining(c, rounds, s') + 1, Remaining(c, rounds, s));
    }
  }

  lemma StepDecreases(c: Config, rounds: nat, s: State, a: Action)
    requires ProperCount(c) && TeamInv(c, rounds, s) && ClientEnabled(c, rounds, s, a)
    requires TeamInv(c, rounds, AtomicDo(c, s, a))
    ensures Remaining(c, rounds, s) >= 0 && Remaining(c, rounds, AtomicDo(c, s, a)) >= 0
    ensures Measure(c, rounds, AtomicDo(c, s, a)) <= Measure(c, rounds, s) + (if a.Wake? then 1 else -1)
  {
    CallBudget(c, rounds, s);
    CallBudget(c, rounds, AtomicDo(c, s, a));
    StepUses(c, rounds, s, a);
    MeasureDrops(c, rounds, s, a, AtomicDo(c, s, a));
  }

  function WakeCount(acts: seq<Action>): nat {
    if acts == [] then 0
    else WakeCount(acts[..|acts| - 1]) + (if acts[|acts| - 1].Wake? then 1 else 0)
  }

  lemma RemainingIsNat(c: Config, rounds: nat, acts: seq<Action>)
    requires ProperCount(c) && ClientRuns(c, rounds, acts)
    ensures Remaining(c, rounds, AtomicExec(c, acts)) >= 0
  {
    TeamState(c, rounds, acts);
    CallBudget(c, rounds, AtomicExec(c, acts));
  }

  lemma LastStepDecreases(c: Config, rounds: nat, acts: seq<Action>)
    requires ProperCount(c) && acts != [] && ClientRuns(c, rounds, acts)
    ensures
      var s := AtomicExec(c, acts[..|acts| - 1]);
      var s' := AtomicExec(c, acts);
      && Remaining(c, rounds, s) >= 0 && Remaining(c, rounds, s') >= 0
      && Measure(c, rounds, s') <= Measure(c, rounds, s) + (if acts[|acts| - 1].Wake? then 1 else -1)
  {
    TeamState(c, rounds, acts);
    TeamState(c, rounds, acts[..|acts| - 1]);
    StepDecreases(c, rounds, AtomicExec(c, acts[..|acts| - 1]), acts[|acts| - 1]);
  }

  /** The length of a run without stray wake-ups, as the measure counts it. */
  function Room(c: Config, rounds: nat): int {
    Multiple(|c.tids| + 1, 3 * Multiple(rounds, |c.tids|))
  }

  lemma {:induction false} RunSpendsMeasure(c: Config, rounds: nat, acts: seq<Action>)
    requires ProperCount(c) && ClientRuns(c, rounds, acts)
    ensures Remaining(c, rounds, AtomicExec(c, acts)) >= 0
    ensures |acts| + Measure(c, rounds, AtomicExec(c, acts)) <= Room(c, rounds) + 2 * WakeCount(acts)
  {
    RemainingIsNat(c, rounds, acts);
    if acts != [] {
      RunSpendsMeasure(c, rounds, acts[..|acts| - 1]);
      LastStepDecreases(c, rounds, acts);
    }
  }

  lemma RunLength(c: Config, rounds: nat, acts: seq<Action>)
    requires ProperCount(c) && ClientRuns(c, rounds, acts)
    ensures |acts| <= Room(c, rounds) + 2 * WakeCount(acts)
  {
    RunSpendsMeasure(c, rounds, acts);
  }

  /** Three steps for each call, each paying for one pass over the waiters. */
  function Budget(threads: nat, rounds: nat): int {
    3 * (threads * rounds) * (threads + 1)
  }

  lemma RoomIsBudget(threads: nat, rounds: nat)
    ensures Multiple(threads + 1, 3 * Multiple(rounds, threads)) == Budget(threads, rounds)
  {
    MultipleIsProduct(rounds, threads);
    MultipleIsProduct(threads + 1, 3 * (threads * rounds));
  }

  // ----- The theorems, for a team of any size -----

  /** Every run is finite: its length is bounded, and each stray wake-up buys at most two steps. */
  lemma RunsAreFinite(c: Config, rounds: nat, acts: seq<Action>)
    requires ProperCount(c) && ClientRuns(c, rounds, acts)
    ensures |acts| <= Budget(|c.tids|, rounds) + 2 * WakeCount(acts)
  {
    RunLength(c, rounds, acts);
    RoomIsBudget(|c.tids|, rounds);
  }

  /** The only way to stop early is to run out of callers: a run that cannot go on has no round being
      released, nobody at the gate, fewer than `count` threads inside, and every other thread is through
      with its loop. */
  lemma StoppedRunIsShortOfCallers(c: Config, rounds: nat, acts: seq<Action>)
    requires ProperCount(c) && ClientRuns(c, rounds, acts) && Stuck(c, rounds, AtomicExec(c, acts))
    ensures
      var s := AtomicExec(c, acts);
      && s.total <= FLAG && s.gate == {} && |s.inside| < c.count
      && (forall t :: t in c.tids && t !in s.inside ==> Occurrences(s.log, Left(t)) == rounds)
      && (Finished(c, rounds, s) <==> s.inside == {})
  {
    TeamState(c, rounds, acts);
    var s := AtomicExec(c, acts);
    NobodyAwake(c, rounds, s);
    if s.inside != {} {
      var t := Pick(s.inside);
      assert t in Busy(s);
    }
  }

  /** A team can only finish if its calls make up whole rounds. */
  lemma FinishedMeansWholeRounds(c: Config, rounds: nat, acts: seq<Action>)
    requires ProperCount(c) && ClientRuns(c, rounds, acts) && Finished(c, rounds, AtomicExec(c, acts))
    ensures |c.tids| * rounds == AtomicExec(c, acts).round * c.count
  {
    TeamState(c, rounds, acts);
    var s := AtomicExec(c, acts);
    assert s.inside == {} by { assert forall u :: u in s.inside ==> u in Busy(s); }
    GroupTotal(s.log, c.tids, rounds);
    AllCallsIn(s.log, c.tids);
    MultipleIsProduct(rounds, |c.tids|);
    MultipleIsProduct(c.count, s.round);
  }

  // ----- The theorems, for a full team -----

  /** No reachable state is stuck unless every thread has finished its loop. */
  lemma NoDeadlock(c: Config, rounds: nat, acts: seq<Action>) returns (a: Action)
    requires FullTeam(c) && ClientRuns(c, rounds, acts)
    requires !Finished(c, rounds, AtomicExec(c, acts))
    ensures ClientEnabled(c, rounds, AtomicExec(c, acts), a) && !a.Wake?
  {
    TeamState(c, rounds, acts);
    var s := AtomicExec(c, acts);
    if Stuck(c, rounds, s) {
      StuckMeansFinished(c, rounds, s);
    }
    a :| ClientEnabled(c, rounds, s, a) && !a.Wake?;
  }

  /** A run that cannot go on has done all the work: every thread completed `rounds` rounds, the barrier
      is idle, nobody sleeps, and `rounds` full rounds of calls have arrived and left. */
  lemma StoppedRunIsComplete(c: Config, rounds: nat, acts: seq<Action>)
    requires FullTeam(c) && ClientRuns(c, rounds, acts) && Stuck(c, rounds, AtomicExec(c, acts))
    ensures
      var s := AtomicExec(c, acts);
      && Finished(c, rounds, s) && s.total == FLAG && s.waitQ == {} && s.round == rounds
      && Arrivals(s.log) == Departures(s.log) == rounds * c.count
  {
    TeamState(c, rounds, acts);
    var s := AtomicExec(c, acts);
    StuckMeansFinished(c, rounds, s);
    var t := Pick(c.tids);
    MultipleIsProduct(c.count, rounds);
    assert s.inside == {} by { assert forall u :: u in s.inside ==> u in Busy(s); }
  }

  lemma ClientSnoc(c: Config, rounds: nat, acts: seq<Action>, a: Action)
    requires ClientRuns(c, rounds, acts) && ClientEnabled(c, rounds, AtomicExec(c, acts), a)
    ensures ClientRuns(c, rounds, acts + [a])
    ensures AtomicExec(c, acts + [a]) == AtomicDo(c, AtomicExec(c, acts), a)
    ensures WakeCount(acts + [a]) == WakeCount(acts) + (if a.Wake? then 1 else 0)
  {
    assert (acts + [a])[..|acts|] == acts;
  }

  lemma OneStepOn(c: Config, rounds: nat, acts: seq<Action>) returns (next: seq<Action>)
    requires FullTeam(c) && ClientRuns(c, rounds, acts) && !Finished(c, rounds, AtomicExec(c, acts))
    ensures acts <= next && |next| == |acts| + 1 && ClientRuns(c, rounds, next) && WakeCount(next) == WakeCount(acts)
  {
    var a := NoDeadlock(c, rounds, acts);
    ClientSnoc(c, rounds, acts, a);
    next := acts + [a];
  }

  /** From any point of any run the work can still be completed: no step is ever a wrong turn. */
  lemma RunCanFinish(c: Config, rounds: nat, acts: seq<Action>) returns (full: seq<Action>)
    requires FullTeam(c) && ClientRuns(c, rounds, acts)
    ensures acts <= full && ClientRuns(c, rounds, full) && Finished(c, rounds, AtomicExec(c, full))
    decreases Room(c, rounds) + 2 * WakeCount(acts) - |acts|
  {
    if Finished(c, rounds, AtomicExec(c, acts)) {
      full := acts;
    } else {
      var next := OneStepOn(c, rounds, acts);
      RunLength(c, rounds, next);
      full := RunCanFinish(c, rounds, next);
    }
  }
}
