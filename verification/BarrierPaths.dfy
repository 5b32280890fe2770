/** The way a thread takes through the barrier: which step leads where, and what must be so for it. */
module BarrierPaths {
  import opened BarrierWord
  import opened BarrierMachine
  import opened BarrierSpec
  import opened BarrierSafety

  datatype Place = Away | Entering | Within | Draining | Freeing

  function PlaceOf(s: State, t: Tid): Place {
    if t in s.gate then Entering
    else if t in s.inside then Within
    else if t in s.draining then Draining
    else if t in s.recycling then Freeing
    else Away
  }

  /** A thread that is asleep, or about to be, stays where it is until it is woken; it can do nothing else. */
  ghost predicate StaysPut(s: State, a: Action, s': State) {
    PlaceOf(s', a.t) == PlaceOf(s, a.t) && s'.log == s.log && s'.total == s.total
  }

  /** What an acting thread's step does, told from where it is, how many are inside, and the phase. */
  ghost predicate Moves(c: Config, s: State, a: Action, s': State) {
    var t := a.t;
    match a
    case Call(_) => PlaceOf(s, t).Away? && PlaceOf(s', t).Entering? && s'.log == s.log
    case Gate(_) =>
      && PlaceOf(s, t).Entering?
      && (if s.total > FLAG then StaysPut(s, a, s') && t in s'.dozing
          else if |s.inside| + 1 < c.count then
            PlaceOf(s', t).Within? && s'.log == s.log + [Arrived(t)] && t in s'.dozing
          else PlaceOf(s', t).Away? && s'.log == s.log + [Arrived(t), Left(t)] && s'.waitQ == {})
    case Inner(_) =>
      && PlaceOf(s, t).Within?
      && (if s.total > FLAG then
            && PlaceOf(s', t).Away? && s'.log == s.log + [Left(t)]
            && s'.waitQ == (if |s.inside| == 1 then {} else s.waitQ)
          else StaysPut(s, a, s') && t in s'.dozing)
    case Destroy(_) => PlaceOf(s, t).Away? && PlaceOf(s', t).Draining? && s'.log == s.log
    case Drain(_) =>
      && PlaceOf(s, t).Draining? && s'.log == s.log
      && (if s.total > FLAG then StaysPut(s, a, s') && t in s'.dozing else PlaceOf(s', t).Freeing?)
    case Recycle(_) => PlaceOf(s, t).Freeing? && PlaceOf(s', t).Away? && s'.freed && s'.log == s.log
    case Queue(_) => StaysPut(s, a, s') && t in s.dozing && t in s'.waitQ && t !in s'.dozing
    case Wake(_) => StaysPut(s, a, s') && t in s.waitQ && Runnable(s', t)
  }

  lemma GateMoves(c: Config, s: State, t: Tid)
    requires ProperCount(c) && Places(c, s) && WordMeans(c, s) && Enabled(c, s, Gate(t))
    ensures Moves(c, s, Gate(t), Do(c, s, Gate(t)))
  {
    GateEffect(c, s, t);
    assert s.log + [Arrived(t)] + [Left(t)] == s.log + [Arrived(t), Left(t)];
  }

  lemma InnerMoves(c: Config, s: State, t: Tid)
    requires ProperCount(c) && Places(c, s) && WordMeans(c, s) && Enabled(c, s, Inner(t))
    ensures Moves(c, s, Inner(t), Do(c, s, Inner(t)))
  {
    InnerCases(c, s);
  }

  lemma StepMoves(c: Config, s: State, a: Action)
    requires ProperCount(c) && Places(c, s) && WordMeans(c, s) && Enabled(c, s, a)
    ensures Moves(c, s, a, Do(c, s, a))
  {
    match a
    case Gate(t) => GateMoves(c, s, t);
    case Inner(t) => InnerMoves(c, s, t);
    case _ =>
  }

  /** Nobody is moved by another thread's step. */
  lemma OthersStayPut(c: Config, s: State, a: Action, u: Tid)
    requires Places(c, s) && Enabled(c, s, a) && u != a.t
    ensures PlaceOf(Do(c, s, a), u) == PlaceOf(s, u)
    ensures (u in Do(c, s, a).dozing <==> u in s.dozing) && (u in Do(c, s, a).waitQ ==> u in s.waitQ)
  {
  }

  /** Over every schedule: each step takes its thread along the paths of the source, nobody else moves, and
      only the last step of a destroy frees the barrier. */
  lemma ThreadsFollowPaths(c: Config, acts: seq<Action>, a: Action, u: Tid)
    requires ProperCount(c) && Runs(c, acts) && Enabled(c, Exec(c, acts), a)
    ensures Moves(c, Exec(c, acts), a, Do(c, Exec(c, acts), a))
    ensures u != a.t ==> PlaceOf(Do(c, Exec(c, acts), a), u) == PlaceOf(Exec(c, acts), u)
    ensures Do(c, Exec(c, acts), a).freed <==> a.Recycle?
  {
    RunKeepsWord(c, acts);
    StepMoves(c, Exec(c, acts), a);
    if u != a.t { OthersStayPut(c, Exec(c, acts), a, u); }
  }

  // ----- The way through a destroy -----

  /** From position d up to and including position n of the schedule the thread is in one place. */
  ghost predicate Stays(c: Config, acts: seq<Action>, t: Tid, place: Place, d: int, n: int)
    requires 0 <= d && n <= |acts|
  {
    forall m :: d < m <= n ==> PlaceOf(Exec(c, acts[..m]), t) == place
  }

  lemma StaysSnoc(c: Config, acts: seq<Action>, t: Tid, place: Place, d: int)
    requires 0 <= d < |acts|
    ensures
      var before := acts[..|acts| - 1];
      Stays(c, acts, t, place, d, |acts|) <==>
        Stays(c, before, t, place, d, |before|) && PlaceOf(Exec(c, acts), t) == place
  {
    var before := acts[..|acts| - 1];
    assert acts[..|acts|] == acts;
    assert forall m :: 0 <= m <= |before| ==> before[..m] == acts[..m];
  }

  lemma LastStep(c: Config, acts: seq<Action>, t: Tid)
    requires ProperCount(c) && Runs(c, acts) && acts != []
    ensures
      var s := Exec(c, acts[..|acts| - 1]);
      var a := acts[|acts| - 1];
      && Enabled(c, s, a) && Moves(c, s, a, Exec(c, acts))
      && (a.t != t ==> PlaceOf(Exec(c, acts), t) == PlaceOf(s, t))
  {
    ThreadsFollowPaths(c, acts[..|acts| - 1], acts[|acts| - 1], t);
  }

  /** A thread in the loop of `barrier_destroy` came there by calling it. */
  lemma {:induction false} DrainingSince(c: Config, acts: seq<Action>, t: Tid) returns (d: int)
    requires ProperCount(c) && Runs(c, acts) && PlaceOf(Exec(c, acts), t).Draining?
    ensures 0 <= d < |acts| && acts[d] == Destroy(t) && Stays(c, acts, t, Draining, d, |acts|)
  {
    var before, a := acts[..|acts| - 1], acts[|acts| - 1];
    LastStep(c, acts, t);
    if a == Destroy(t) {
      d := |acts| - 1;
      assert acts[..|acts|] == acts;
    } else {
      d := DrainingSince(c, before, t);
      StaysSnoc(c, acts, t, Draining, d);
    }
  }

  /** It left the loop at a moment at which no round was being released. */
  lemma {:induction false} FreeingSince(c: Config, acts: seq<Action>, t: Tid) returns (n: int)
    requires ProperCount(c) && Runs(c, acts) && PlaceOf(Exec(c, acts), t).Freeing?
    ensures 0 <= n < |acts| && acts[n] == Drain(t) && Runs(c, acts[..n]) && Stays(c, acts, t, Freeing, n, |acts|)
    ensures Exec(c, acts[..n]).total <= FLAG && Enabled(c, Exec(c, acts[..n]), Drain(t))
    ensures PlaceOf(Exec(c, acts[..n]), t).Draining?
  {
    var before, a := acts[..|acts| - 1], acts[|acts| - 1];
    LastStep(c, acts, t);
    if a == Drain(t) {
      n := |acts| - 1;
      assert acts[..|acts|] == acts;
    } else {
      n := FreeingSince(c, before, t);
      assert before[..n] == acts[..n];
      StaysSnoc(c, acts, t, Freeing, n);
    }
  }

  /** Over every schedule: a barrier is only ever freed by a thread that called `barrier_destroy`, stayed in
      its wait loop, left it at a moment when no round was being released and every thread of every full
      round had left, and has gone straight on to the free. */
  lemma DestroyHasWaited(c: Config, acts: seq<Action>, t: Tid) returns (d: int, n: int)
    requires ProperCount(c) && Runs(c, acts) && Enabled(c, Exec(c, acts), Recycle(t))
    ensures 0 <= d < n < |acts| && acts[d] == Destroy(t) && acts[n] == Drain(t)
    ensures Stays(c, acts, t, Draining, d, n) && Stays(c, acts, t, Freeing, n, |acts|)
    ensures Exec(c, acts[..n]).total <= FLAG && FullRoundsGone(c.count, Exec(c, acts[..n]).log)
  {
    IsFreeing(c, acts, t);
    n := FreeingSince(c, acts, t);
    d := DrainingSince(c, acts[..n], t);
    StaysPrefix(c, acts, t, Draining, d, n);
    DestroyWaitsForReleased(c, acts[..n], t);
  }

  lemma IsFreeing(c: Config, acts: seq<Action>, t: Tid)
    requires ProperCount(c) && Runs(c, acts) && Enabled(c, Exec(c, acts), Recycle(t))
    ensures PlaceOf(Exec(c, acts), t).Freeing?
  {
    RunKeepsWord(c, acts);
  }

  lemma StaysPrefix(c: Config, acts: seq<Action>, t: Tid, place: Place, d: int, n: int)
    requires 0 <= d && 0 <= n <= |acts| && Stays(c, acts[..n], t, place, d, n)
    ensures Stays(c, acts, t, place, d, n)
  {
    forall m | d < m <= n ensures PlaceOf(Exec(c, acts[..m]), t) == place {
      assert acts[..n][..m] == acts[..m];
    }
  }
}
