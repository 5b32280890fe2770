/** A barrier shared by exactly `count` threads: rounds are taken in lockstep. */
module BarrierLockstep {
  import opened Counting
  import opened BarrierWord
  import opened BarrierMachine
  import opened BarrierSpec
  import opened BarrierSafety

  predicate FullTeam(c: Config) {
    ProperCount(c) && |c.tids| == c.count
  }

  /** While a round is not being released everybody has completed the same number of rounds; while it is,
      everybody has entered the same number. */
  ghost predicate InStep(c: Config, s: State) {
    forall t :: t in c.tids ==>
      if s.total <= FLAG then Occurrences(s.log, Left(t)) == s.round
      else Occurrences(s.log, Arrived(t)) == s.round + 1
  }

  /** The k-th call of a thread is in round k. */
  ghost predicate CallsMatchRounds(count: int, log: seq<Event>)
    requires count >= 1
  {
    forall i :: 0 <= i < |log| && log[i].Arrived? ==>
      RoundAt(count, log, i) == Occurrences(log[..i], log[i])
  }

  /** Whoever has arrived and not left is inside. */
  ghost predicate Balanced(s: State) {
    forall t :: Occurrences(s.log, Arrived(t)) == Occurrences(s.log, Left(t)) + (if t in s.inside then 1 else 0)
  }

  lemma CallsMatchSnoc(count: int, log: seq<Event>, e: Event)
    requires count >= 1 && CallsMatchRounds(count, log)
    requires e.Arrived? ==> RoundOf(count, Arrivals(log)) == Occurrences(log, e)
    ensures CallsMatchRounds(count, log + [e])
  {
    var m := log + [e];
    forall i | 0 <= i < |m| && m[i].Arrived? ensures RoundAt(count, m, i) == Occurrences(m[..i], m[i]) {
      assert m[..i] == log[..i];
      if i < |log| {
        assert log[i] == m[i];
      } else {
        assert log[..i] == log;
      }
    }
  }

  /** When the last thread arrives, everybody has entered this round. */
  lemma LastArrivalInStep(c: Config, s: State, t: Tid)
    requires FullTeam(c) && s.inside <= c.tids && t in c.tids && t !in s.inside && |s.inside| + 1 == c.count
    requires s.total <= FLAG && Balanced(s) && InStep(c, s)
    ensures
      var log := s.log + [Arrived(t)] + [Left(t)];
      forall u :: u in c.tids ==>
        && Occurrences(log, Arrived(u)) == s.round + 1
        && (u == t ==> Occurrences(log, Left(u)) == s.round + 1)
    ensures c.count == 1 ==> c.tids == {t}
  {
    Snoc(s.log, Arrived(t));
    Snoc(s.log + [Arrived(t)], Left(t));
    SubsetSize(s.inside + {t}, c.tids);
    assert forall u :: u in c.tids ==> u == t || u in s.inside;
  }

  lemma GateInStep(c: Config, s: State, t: Tid)
    requires FullTeam(c) && Places(c, s) && WordMeans(c, s) && Balanced(s) && InStep(c, s)
    requires Enabled(c, s, Gate(t))
    ensures InStep(c, Do(c, s, Gate(t)))
  {
    EnterCases(c.count, s.total);
    if EnterWord(c.count, s.total).outcome.Returned? {
      LastArrivalInStep(c, s, t);
    } else {
      Snoc(s.log, Arrived(t));
    }
  }

  lemma InnerInStep(c: Config, s: State, t: Tid)
    requires FullTeam(c) && WordMeans(c, s) && Balanced(s) && InStep(c, s)
    requires Enabled(c, s, Inner(t))
    ensures InStep(c, Do(c, s, Inner(t)))
  {
    InnerCases(c, s);
    Snoc(s.log, Left(t));
    if s.total - 1 == FLAG {
      assert |s.inside - {t}| == 0;
      assert forall u :: u in s.inside ==> u == t by {
        assert forall u :: u in s.inside && u != t ==> u in s.inside - {t};
      }
    }
  }

  lemma StepInStep(c: Config, s: State, a: Action)
    requires FullTeam(c) && Places(c, s) && WordMeans(c, s) && Balanced(s) && InStep(c, s)
    requires Enabled(c, s, a)
    ensures InStep(c, Do(c, s, a))
  {
    match a
    case Gate(t) => GateInStep(c, s, t);
    case Inner(t) => InnerInStep(c, s, t);
    case _ =>
  }

  lemma StepCallsMatch(c: Config, s: State, a: Action)
    requires FullTeam(c) && Places(c, s) && WordMeans(c, s) && Balanced(s) && InStep(c, s)
    requires Enabled(c, s, a) && CallsMatchRounds(c.count, s.log)
    ensures CallsMatchRounds(c.count, Do(c, s, a).log)
  {
    if a.Gate? && s.total <= FLAG {
      EnterCases(c.count, s.total);
      RoundOfPlace(c.count, s.round, Arrivals(s.log) - Multiple(c.count, s.round));
      CallsMatchSnoc(c.count, s.log, Arrived(a.t));
      CallsMatchSnoc(c.count, s.log + [Arrived(a.t)], Left(a.t));
    } else if a.Inner? {
      CallsMatchSnoc(c.count, s.log, Left(a.t));
    }
  }

  lemma RunBalanced(c: Config, acts: seq<Action>)
    requires ProperCount(c) && Runs(c, acts)
    ensures Places(c, Exec(c, acts)) && WordMeans(c, Exec(c, acts)) && Balanced(Exec(c, acts))
  {
    RunKeepsInv(c, acts);
  }

  lemma {:induction false} RunInStep(c: Config, acts: seq<Action>)
    requires FullTeam(c) && Runs(c, acts)
    ensures InStep(c, Exec(c, acts)) && CallsMatchRounds(c.count, Exec(c, acts).log)
  {
    if acts != [] {
      var before := acts[..|acts| - 1];
      RunInStep(c, before);
      RunBalanced(c, before);
      StepInStep(c, Exec(c, before), acts[|acts| - 1]);
      StepCallsMatch(c, Exec(c, before), acts[|acts| - 1]);
    }
  }

  /** Completed rounds of any two threads never differ by more than one. */
  lemma Lockstep(c: Config, acts: seq<Action>, t: Tid, u: Tid)
    requires FullTeam(c) && Runs(c, acts) && t in c.tids && u in c.tids
    ensures
      var log := Exec(c, acts).log;
      -1 <= Occurrences(log, Left(t)) - Occurrences(log, Left(u)) <= 1
  {
    RunInStep(c, acts);
    RunBalanced(c, acts);
  }

  lemma NthOccurrence(log: seq<Event>, e: Event, n: nat) returns (i: int)
    requires n < Occurrences(log, e)
    ensures 0 <= i < |log| && log[i] == e && Occurrences(log[..i], e) == n
  {
    var init := log[..|log| - 1];
    if n < Occurrences(init, e) {
      i := NthOccurrence(init, e, n);
      assert init[..i] == log[..i];
    } else {
      i := |log| - 1;
    }
  }

  lemma OccurrencesMonotone(log: seq<Event>, e: Event, i: int, j: int)
    requires 0 <= i < j <= |log| && log[i] == e
    ensures Occurrences(log[..i], e) < Occurrences(log[..j], e)
  {
    assert log[..j][..j - 1] == log[..j - 1];
    if i < j - 1 {
      OccurrencesMonotone(log, e, i, j - 1);
    }
  }

  /** A full round holds every thread exactly once. */
  lemma RoundHoldsEveryThreadOnce(c: Config, acts: seq<Action>, r: nat, t: Tid)
    requires FullTeam(c) && Runs(c, acts) && t in c.tids
    requires Multiple(c.count, r + 1) <= Arrivals(Exec(c, acts).log)
    ensures
      var log := Exec(c, acts).log;
      && (exists i :: 0 <= i < |log| && log[i] == Arrived(t) && RoundAt(c.count, log, i) == r)
      && (forall i, j :: 0 <= i < j < |log| && log[i] == log[j] == Arrived(t)
                         ==> RoundAt(c.count, log, i) < RoundAt(c.count, log, j))
  {
    RunInStep(c, acts);
    RunBalanced(c, acts);
    var s := Exec(c, acts);
    TakenRounds(c, s, r);
    assert r < Occurrences(s.log, Arrived(t));
    var i := NthOccurrence(s.log, Arrived(t), r);
    forall i, j | 0 <= i < j < |s.log| && s.log[i] == s.log[j] == Arrived(t)
      ensures RoundAt(c.count, s.log, i) < RoundAt(c.count, s.log, j)
    {
      OccurrencesMonotone(s.log, Arrived(t), i, j);
    }
  }

  /** Only rounds up to the current one can be full. */
  lemma TakenRounds(c: Config, s: State, r: nat)
    requires ProperCount(c) && WordMeans(c, s) && Multiple(c.count, r + 1) <= Arrivals(s.log)
    ensures if s.total <= FLAG then r < s.round else r <= s.round
  {
    if s.round + 1 <= r {
      MultipleMonotone(c.count, s.round + 2, r + 1);
    } else if s.round <= r {
      MultipleMonotone(c.count, s.round + 1, r + 1);
    }
  }
}
