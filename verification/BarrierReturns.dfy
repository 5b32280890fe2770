/** When can a call return at all? `barrier_init` refuses only negative counts. */
module BarrierReturns {
  import opened BarrierWord
  import opened BarrierMachine
  import opened BarrierSpec
  import opened BarrierSafety

  ghost predicate SomeCallReturns(c: Config) {
    exists acts :: Runs(c, acts) && Departures(Exec(c, acts).log) > 0
  }

  /** With too few threads, or count 0, the round only ever fills. */
  ghost predicate OnlyFills(c: Config, s: State) {
    && Places(c, s)
    && (if s.inside == {} then s.total == FLAG else s.total == |s.inside|)
    && Departures(s.log) == 0
  }

  /** The n-th arrival of a round that is not yet full. */
  lemma EnterFills(count: int, total: int, n: nat)
    requires total == (if n == 0 then FLAG else n) && n + 1 < FLAG && n + 1 != count
    ensures EnterWord(count, total) == Section(n + 1, AtInner, false)
  {
  }

  lemma GateOnlyFills(c: Config, s: State, t: Tid)
    requires c.count == 0 || |c.tids| < c.count
    requires |c.tids| < FLAG && OnlyFills(c, s) && Enabled(c, s, Gate(t))
    ensures OnlyFills(c, Do(c, s, Gate(t)))
  {
    StepKeepsPlaces(c, s, Gate(t));
    SubsetSize(s.inside + {t}, c.tids);
    FillingStep(c, s, t);
  }

  lemma FillingStep(c: Config, s: State, t: Tid)
    requires t !in s.inside && |s.inside| + 1 < FLAG && |s.inside| + 1 != c.count
    requires s.total == (if |s.inside| == 0 then FLAG else |s.inside|)
    ensures
      var s' := DoGate(c, s, t);
      s'.inside == s.inside + {t} && s'.total == |s'.inside| && Departures(s'.log) == Departures(s.log)
  {
    EnterFills(c.count, s.total, |s.inside|);
    Snoc(s.log, Arrived(t));
  }

  lemma StepOnlyFills(c: Config, s: State, a: Action)
    requires c.count == 0 || |c.tids| < c.count
    requires |c.tids| < FLAG && OnlyFills(c, s) && Enabled(c, s, a)
    ensures OnlyFills(c, Do(c, s, a))
  {
    if a.Gate? {
      GateOnlyFills(c, s, a.t);
    } else {
      StepKeepsPlaces(c, s, a);
      SubsetSize(s.inside, c.tids);
    }
  }

  lemma {:induction false} RunOnlyFills(c: Config, acts: seq<Action>)
    requires c.count == 0 || |c.tids| < c.count
    requires |c.tids| < FLAG && Runs(c, acts)
    ensures OnlyFills(c, Exec(c, acts))
  {
    if acts != [] {
      RunOnlyFills(c, acts[..|acts| - 1]);
      StepOnlyFills(c, Exec(c, acts[..|acts| - 1]), acts[|acts| - 1]);
    }
  }

  /** k threads have arrived and given the lock back; everyone else is outside. */
  ghost predicate Gathered(c: Config, s: State, k: nat) {
    && s.inside <= c.tids && |s.inside| == k
    && s.gate == {} && s.draining == {} && s.recycling == {} && s.waitQ == {} && !s.freed
    && s.dozing == s.inside
    && s.total == (if k == 0 then FLAG else k)
  }

  /** One more thread calls and takes its first lock section. */
  lemma OneMore(c: Config, before: seq<Action>, k: nat) returns (acts: seq<Action>, t: Tid)
    requires k < c.count <= |c.tids| && Runs(c, before) && Gathered(c, Exec(c, before), k)
    ensures Runs(c, acts) && t in c.tids && t !in Exec(c, before).inside
    ensures Exec(c, acts) == DoGate(c, Exec(c, before).(gate := {t}), t)
  {
    var s := Exec(c, before);
    t := PickOutside(c.tids, s.inside);
    RunsSnoc(c, before, Call(t));
    var called := before + [Call(t)];
    assert s.gate + {t} == {t};
    RunsSnoc(c, called, Gate(t));
    acts := called + [Gate(t)];
  }

  lemma {:induction false} Gather(c: Config, k: nat) returns (acts: seq<Action>)
    requires ProperCount(c) && k < c.count <= |c.tids|
    ensures Runs(c, acts) && Gathered(c, Exec(c, acts), k)
  {
    if k == 0 {
      acts := [];
    } else {
      var before := Gather(c, k - 1);
      var t;
      acts, t := OneMore(c, before, k - 1);
      EnterFills(c.count, Exec(c, before).total, k - 1);
    }
  }

  lemma EnoughThreadsReturn(c: Config)
    requires ProperCount(c) && c.count <= |c.tids|
    ensures SomeCallReturns(c)
  {
    var before := Gather(c, c.count - 1);
    var acts, t := OneMore(c, before, c.count - 1);
    EnterCases(c.count, Exec(c, before).total);
    Snoc(Exec(c, before).log + [Arrived(t)], Left(t));
  }

  /** Exactly when the barrier can ever let a call through. */
  lemma ReturnsIff(c: Config)
    requires 0 <= c.count <= INT_MAX && |c.tids| < FLAG
    ensures SomeCallReturns(c) <==> 1 <= c.count <= |c.tids|
  {
    if 1 <= c.count <= |c.tids| {
      EnoughThreadsReturn(c);
    } else {
      forall acts | Runs(c, acts) ensures Departures(Exec(c, acts).log) == 0 {
        RunOnlyFills(c, acts);
      }
    }
  }
}
