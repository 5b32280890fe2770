/** Which teams always finish? Being able to finish is not having to: left a choice that matters, the
    scheduler can pair threads up so that the rest wait for ever. */
module BarrierStarvation {
  import opened Counting
  import opened BarrierMachine
  import opened BarrierSpec
  import opened BarrierSafety
  import opened BarrierWakeups
  import opened BarrierProgress
  import opened BarrierSchedule

  /** Every run that cannot go on has finished. */
  ghost predicate AlwaysFinishes(c: Config, rounds: nat) {
    forall acts :: ClientRuns(c, rounds, acts) && Stuck(c, rounds, AtomicExec(c, acts)) ==>
                     Finished(c, rounds, AtomicExec(c, acts))
  }

  /** The threads of u still have calls to make and are too few for a round; everybody else is through. */
  ghost predicate Starved(c: Config, rounds: nat, s: State, u: seq<Tid>) {
    && AtRest(s) && Distinct(u) && Members(u) <= c.tids && 1 <= |u| < c.count
    && forall t :: t in c.tids ==> if t in u then Completed(s, t) < rounds else Completed(s, t) == rounds
  }

  lemma StarvedWaits(c: Config, rounds: nat, s: State, was: State, u: seq<Tid>)
    requires Starved(c, rounds, was, u) && Filled(s, was, u, |u|)
    ensures Stuck(c, rounds, s) && !Finished(c, rounds, s)
  {
    assert u[..|u|] == u;
    assert u[0] in Busy(s);
    assert forall t :: t in c.tids && t !in Busy(s) ==> t !in Members(u);
  }

  lemma StarvedStops(c: Config, rounds: nat, acts: seq<Action>, u: seq<Tid>)
    requires ProperCount(c) && ClientRuns(c, rounds, acts) && Starved(c, rounds, AtomicExec(c, acts), u)
    ensures !AlwaysFinishes(c, rounds)
  {
    forall t | t in u ensures Completed(AtomicExec(c, acts), t) < rounds { assert t in Members(u); }
    var full := Fill(c, rounds, acts, u, |u|);
    StarvedWaits(c, rounds, AtomicExec(c, full), AtomicExec(c, acts), u);
  }

  /** The same group plays n rounds running. */
  lemma {:induction false} PlayMany(c: Config, rounds: nat, acts: seq<Action>, g: seq<Tid>, n: nat)
    returns (next: seq<Action>)
    requires ProperCount(c) && |g| == c.count && Distinct(g) && Members(g) <= c.tids
    requires ClientRuns(c, rounds, acts) && AtRest(AtomicExec(c, acts))
    requires forall t :: t in g ==> Completed(AtomicExec(c, acts), t) + n <= rounds
    ensures ClientRuns(c, rounds, next) && AtRest(AtomicExec(c, next))
    ensures forall t :: Completed(AtomicExec(c, next), t) ==
                        Completed(AtomicExec(c, acts), t) + (if t in g then n else 0)
  {
    if n == 0 {
      next := acts;
    } else {
      next := PlayMany(c, rounds, acts, g, n - 1);
      next := PlayRound(c, rounds, next, g);
    }
  }

  /** The threads of q have not begun, everybody else is through. */
  ghost predicate Fresh(c: Config, rounds: nat, s: State, q: seq<Tid>) {
    && AtRest(s) && Distinct(q) && Members(q) <= c.tids
    && forall t :: t in c.tids ==> Completed(s, t) == (if t in q then 0 else rounds)
  }

  lemma SliceGroup<T>(q: seq<T>, lo: int, hi: int)
    requires Distinct(q) && 0 <= lo <= hi <= |q|
    ensures Distinct(q[lo..hi]) && Members(q[lo..hi]) <= Members(q)
    ensures forall i :: 0 <= i < |q| ==> (q[i] in q[lo..hi] <==> lo <= i < hi)
  {
  }

  /** The first group of a fresh list uses up all its calls. */
  lemma Exhaust(c: Config, rounds: nat, acts: seq<Action>, q: seq<Tid>) returns (next: seq<Action>)
    requires ProperCount(c) && ClientRuns(c, rounds, acts) && c.count <= |q|
    requires Fresh(c, rounds, AtomicExec(c, acts), q)
    ensures ClientRuns(c, rounds, next) && Fresh(c, rounds, AtomicExec(c, next), q[c.count..])
  {
    SliceGroup(q, 0, c.count);
    SliceGroup(q, c.count, |q|);
    assert q[0..c.count] == q[..c.count] && q[c.count..|q|] == q[c.count..];
    assert q == q[..c.count] + q[c.count..];
    forall t | t in q[..c.count] ensures Completed(AtomicExec(c, acts), t) + rounds <= rounds { assert t in Members(q); }
    next := PlayMany(c, rounds, acts, q[..c.count], rounds);
    Exhausted(c, rounds, AtomicExec(c, acts), AtomicExec(c, next), q);
  }

  lemma Exhausted(c: Config, rounds: nat, s: State, s': State, q: seq<Tid>)
    requires 1 <= c.count <= |q| && Fresh(c, rounds, s, q) && AtRest(s')
    requires forall t :: Completed(s', t) == Completed(s, t) + (if t in q[..c.count] then rounds else 0)
    ensures Fresh(c, rounds, s', q[c.count..])
  {
    SliceGroup(q, 0, c.count);
    SliceGroup(q, c.count, |q|);
    assert q == q[..c.count] + q[c.count..];
    forall t | t in c.tids ensures Completed(s', t) == (if t in q[c.count..] then 0 else rounds) {
      if t in q {
        var i :| 0 <= i < |q| && q[i] == t;
        assert t in q[0..c.count] <==> i < c.count;
        assert q[0..c.count] == q[..c.count] && q[c.count..|q|] == q[c.count..];
      }
    }
  }

  // Two groups' worth of threads, none of which has begun, can be played so that all but the last
  // count - 1 of them get through. There are four phases; in each, one group plays some rounds.

  predicate InGroup(count: int, phase: nat, i: int) {
    match phase
    case 0 => i < count
    case 1 => i < count - 1 || i == count
    case 2 => count - 1 <= i < 2 * count - 1
    case _ => count <= i
  }

  function Times(rounds: int, phase: nat): int {
    match phase
    case 0 => rounds - 1
    case 1 => 1
    case 2 => 1
    case _ => rounds - 2
  }

  /** Calls completed by the i-th thread before a phase. */
  function Plan(count: int, rounds: int, phase: nat, i: int): int {
    if phase == 0 then 0
    else Plan(count, rounds, phase - 1, i) + (if InGroup(count, phase - 1, i) then Times(rounds, phase - 1) else 0)
  }

  lemma PlanFits(count: int, rounds: int, phase: nat, i: int)
    requires count >= 2 && rounds >= 2 && phase < 4 && 0 <= i < 2 * count
    ensures Times(rounds, phase) >= 0
    ensures InGroup(count, phase, i) ==> Plan(count, rounds, phase, i) + Times(rounds, phase) <= rounds
    ensures if i <= count then Plan(count, rounds, 4, i) == rounds else Plan(count, rounds, 4, i) < rounds
  {
    assert Plan(count, rounds, 1, i) == if i < count then rounds - 1 else 0;
    assert Plan(count, rounds, 2, i) ==
      if i < count - 1 then rounds else if i == count - 1 then rounds - 1 else if i == count then 1 else 0;
    assert Plan(count, rounds, 3, i) ==
      if i < count then rounds else if i == count then 2 else if i < 2 * count - 1 then 1 else 0;
  }

  function PhaseGroup<T>(q: seq<T>, count: int, phase: nat): seq<T>
    requires 2 <= count && |q| == 2 * count
  {
    match phase
    case 0 => q[0..count]
    case 1 => q[0..count - 1] + [q[count]]
    case 2 => q[count - 1..2 * count - 1]
    case _ => q[count..2 * count]
  }

  lemma PhaseGroupIs<T>(q: seq<T>, count: int, phase: nat)
    requires 2 <= count && |q| == 2 * count && Distinct(q)
    ensures
      var g := PhaseGroup(q, count, phase);
      && |g| == count && Distinct(g) && Members(g) <= Members(q)
      && forall i :: 0 <= i < |q| ==> (q[i] in g <==> InGroup(count, phase, i))
  {
    match phase
    case 0 => SliceGroup(q, 0, count);
    case 1 => SliceGroup(q, 0, count - 1);
    case 2 => SliceGroup(q, count - 1, 2 * count - 1);
    case _ => SliceGroup(q, count, 2 * count);
  }

  ghost predicate OnPlan(c: Config, rounds: nat, s: State, q: seq<Tid>, phase: nat) {
    && AtRest(s) && Distinct(q) && Members(q) <= c.tids
    && (forall i :: 0 <= i < |q| ==> Completed(s, q[i]) == Plan(c.count, rounds, phase, i))
    && (forall t :: t in c.tids && t !in q ==> Completed(s, t) == rounds)
  }

  lemma PhaseEffect(c: Config, rounds: nat, s: State, s': State, q: seq<Tid>, phase: nat)
    requires 2 <= c.count && |q| == 2 * c.count && OnPlan(c, rounds, s, q, phase) && AtRest(s')
    requires forall t :: Completed(s', t) ==
                         Completed(s, t) + (if t in PhaseGroup(q, c.count, phase) then Times(rounds, phase) else 0)
    ensures OnPlan(c, rounds, s', q, phase + 1)
  {
    PhaseGroupIs(q, c.count, phase);
    forall t | t in c.tids && t !in q ensures Completed(s', t) == rounds {
      assert t !in Members(q);
    }
  }

  lemma PhaseFits(c: Config, rounds: nat, s: State, q: seq<Tid>, phase: nat)
    requires 2 <= c.count && 2 <= rounds && |q| == 2 * c.count && OnPlan(c, rounds, s, q, phase) && phase < 4
    ensures Times(rounds, phase) >= 0
    ensures
      var g := PhaseGroup(q, c.count, phase);
      && |g| == c.count && Distinct(g) && Members(g) <= c.tids
      && forall t :: t in g ==> Completed(s, t) + Times(rounds, phase) <= rounds
  {
    PhaseGroupIs(q, c.count, phase);
    PlanFits(c.count, rounds, phase, 0);
    forall t | t in PhaseGroup(q, c.count, phase) ensures Completed(s, t) + Times(rounds, phase) <= rounds {
      assert t in Members(q);
      var i :| 0 <= i < |q| && q[i] == t;
      PlanFits(c.count, rounds, phase, i);
    }
  }

  lemma PlayPhase(c: Config, rounds: nat, acts: seq<Action>, q: seq<Tid>, phase: nat) returns (next: seq<Action>)
    requires ProperCount(c) && 2 <= c.count && 2 <= rounds && |q| == 2 * c.count && phase < 4
    requires ClientRuns(c, rounds, acts) && OnPlan(c, rounds, AtomicExec(c, acts), q, phase)
    ensures ClientRuns(c, rounds, next) && OnPlan(c, rounds, AtomicExec(c, next), q, phase + 1)
  {
    PhaseFits(c, rounds, AtomicExec(c, acts), q, phase);
    next := PlayMany(c, rounds, acts, PhaseGroup(q, c.count, phase), Times(rounds, phase));
    PhaseEffect(c, rounds, AtomicExec(c, acts), AtomicExec(c, next), q, phase);
  }

  lemma PlayPhases(c: Config, rounds: nat, acts: seq<Action>, q: seq<Tid>) returns (next: seq<Action>)
    requires ProperCount(c) && 2 <= c.count && 2 <= rounds && |q| == 2 * c.count
    requires ClientRuns(c, rounds, acts) && OnPlan(c, rounds, AtomicExec(c, acts), q, 0)
    ensures ClientRuns(c, rounds, next) && OnPlan(c, rounds, AtomicExec(c, next), q, 4)
  {
    next := PlayPhase(c, rounds, acts, q, 0);
    next := PlayPhase(c, rounds, next, q, 1);
    next := PlayPhase(c, rounds, next, q, 2);
    next := PlayPhase(c, rounds, next, q, 3);
  }

  lemma PlanStarves(c: Config, rounds: nat, s: State, q: seq<Tid>)
    requires 2 <= c.count && 2 <= rounds && |q| == 2 * c.count && OnPlan(c, rounds, s, q, 4)
    ensures Starved(c, rounds, s, q[c.count + 1..])
  {
    var u := q[c.count + 1..];
    assert u == q[c.count + 1..|q|];
    SliceGroup(q, c.count + 1, |q|);
    forall t | t in c.tids ensures if t in u then Completed(s, t) < rounds else Completed(s, t) == rounds {
      if t in q {
        var i :| 0 <= i < |q| && q[i] == t;
        PlanFits(c.count, rounds, 0, i);
      } else {
        assert t !in Members(q);
      }
    }
  }

  lemma FreshStarves(c: Config, rounds: nat, s: State, q: seq<Tid>)
    requires 1 <= |q| < c.count && 1 <= rounds && Fresh(c, rounds, s, q)
    ensures Starved(c, rounds, s, q)
  {
  }

  /** More than one group's worth of threads with two calls or more can be played into a dead end. */
  lemma {:induction false} Strand(c: Config, rounds: nat, acts: seq<Action>, q: seq<Tid>)
    requires ProperCount(c) && 2 <= c.count < |q| && 2 <= rounds
    requires ClientRuns(c, rounds, acts) && Fresh(c, rounds, AtomicExec(c, acts), q)
    ensures !AlwaysFinishes(c, rounds)
    decreases |q|
  {
    if |q| == 2 * c.count {
      var next := PlayPhases(c, rounds, acts, q);
      PlanStarves(c, rounds, AtomicExec(c, next), q);
      StarvedStops(c, rounds, next, q[c.count + 1..]);
    } else {
      var next := Exhaust(c, rounds, acts, q);
      if |q| < 2 * c.count {
        FreshStarves(c, rounds, AtomicExec(c, next), q[c.count..]);
        StarvedStops(c, rounds, next, q[c.count..]);
      } else {
        Strand(c, rounds, next, q[c.count..]);
      }
    }
  }

  /** Any run can be run on until it stops. */
  lemma RunToStop(c: Config, rounds: nat, acts: seq<Action>) returns (full: seq<Action>)
    requires ProperCount(c) && ClientRuns(c, rounds, acts)
    ensures ClientRuns(c, rounds, full) && Stuck(c, rounds, AtomicExec(c, full))
    decreases Room(c, rounds) + 2 * WakeCount(acts) - |acts|
  {
    if Stuck(c, rounds, AtomicExec(c, acts)) {
      full := acts;
    } else {
      var a :| ClientEnabled(c, rounds, AtomicExec(c, acts), a) && !a.Wake?;
      ClientSnoc(c, rounds, acts, a);
      RunLength(c, rounds, acts + [a]);
      full := RunToStop(c, rounds, acts + [a]);
    }
  }

  /** Nothing to do, rounds of one, a full team, or one call each with whole groups. */
  predicate NoChoice(count: int, threads: nat, rounds: nat)
    requires count >= 1
  {
    || threads * rounds == 0 || count == 1 || threads == count
    || (rounds == 1 && threads % count == 0)
  }

  /** A stopped run: what has come in is whole rounds and those still inside. */
  lemma StoppedCalls(c: Config, rounds: nat, acts: seq<Action>)
    requires ProperCount(c) && ClientRuns(c, rounds, acts) && Stuck(c, rounds, AtomicExec(c, acts))
    ensures
      var s := AtomicExec(c, acts);
      && |s.inside| < c.count && (Finished(c, rounds, s) <==> s.inside == {})
      && (rounds == 0 || c.tids == {} ==> s.inside == {})
      && (rounds == 1 ==> |c.tids| == s.round * c.count + |s.inside|)
  {
    StoppedRunIsShortOfCallers(c, rounds, acts);
    TeamState(c, rounds, acts);
    var s := AtomicExec(c, acts);
    MultipleIsProduct(c.count, s.round);
    if rounds == 0 && s.inside != {} {
      var t := Pick(s.inside);
    }
    if rounds == 1 {
      GroupTotal(s.log, c.tids, 1);
      AllCallsIn(s.log, c.tids);
      MultipleIsProduct(1, |c.tids|);
    }
  }

  lemma NoChoiceFinishes(c: Config, rounds: nat, acts: seq<Action>)
    requires ProperCount(c) && NoChoice(c.count, |c.tids|, rounds)
    requires ClientRuns(c, rounds, acts) && Stuck(c, rounds, AtomicExec(c, acts))
    ensures Finished(c, rounds, AtomicExec(c, acts))
  {
    if |c.tids| == c.count {
      StoppedRunIsComplete(c, rounds, acts);
    } else {
      StoppedCalls(c, rounds, acts);
      NobodyLeft(c.count, |c.tids|, rounds, AtomicExec(c, acts).round, |AtomicExec(c, acts).inside|);
    }
  }

  lemma NobodyLeft(count: int, threads: nat, rounds: nat, round: nat, k: nat)
    requires 1 <= count && k < count && NoChoice(count, threads, rounds) && threads != count
    requires rounds == 0 || threads == 0 ==> k == 0
    requires rounds == 1 ==> threads == round * count + k
    ensures k == 0
  {
    Remainder(count, round, k);
    if rounds > 1 && threads > 0 { assert threads * rounds > 0; }
  }

  /** Exactly which teams always finish, whatever the scheduler does: those in which it has no choice that
      matters. */
  lemma AlwaysFinishesIff(c: Config, rounds: nat)
    requires ProperCount(c)
    ensures AlwaysFinishes(c, rounds) <==> NoChoice(c.count, |c.tids|, rounds)
  {
    if NoChoice(c.count, |c.tids|, rounds) {
      forall acts | ClientRuns(c, rounds, acts) && Stuck(c, rounds, AtomicExec(c, acts))
        ensures Finished(c, rounds, AtomicExec(c, acts))
      {
        NoChoiceFinishes(c, rounds, acts);
      }
    } else if Divides(c.count, |c.tids|, rounds) {
      assert rounds != 1;
      var q := Enumerate(c.tids);
      Strand(c, rounds, [], q);
    } else {
      var full := RunToStop(c, rounds, []);
      if AlwaysFinishes(c, rounds) { DividesIsNeeded(c, rounds, full); }
    }
  }
}
