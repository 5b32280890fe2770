/** What every schedule keeps: sleep may be split from the test before it, signals may end any sleep,
    and any number of threads may call. */
module BarrierSafety {
  import opened Counting
  import opened BarrierWord
  import opened BarrierMachine
  import opened BarrierSpec

  predicate ProperCount(c: Config) {
    1 <= c.count <= INT_MAX
  }

  /** A thread is in one place at most, and only threads in a wait loop doze or sleep. */
  ghost predicate Places(c: Config, s: State) {
    && Busy(s) <= c.tids
    && s.gate !! s.inside && s.gate !! s.draining && s.inside !! s.draining && s.recycling !! Waiters(s)
    && s.dozing + s.waitQ <= Waiters(s)
    && s.dozing !! s.waitQ
  }

  /** The word, read as a phase and a head-count, agrees with the history. */
  ghost predicate WordMeans(c: Config, s: State) {
    && LegalWord(c.count, s.total)
    && |s.inside| == (if s.total < FLAG then s.total else s.total - FLAG)
    && Arrivals(s.log) == Departures(s.log) + |s.inside|
    && (if s.total <= FLAG then Departures(s.log) == Multiple(c.count, s.round)
        else Arrivals(s.log) == Multiple(c.count, s.round + 1))
  }

  ghost predicate Inv(c: Config, s: State)
    requires ProperCount(c)
  {
    && Places(c, s)
    && WordMeans(c, s)
    && LogInv(c.count, s.log, s.round, s.inside)
  }

  lemma StepKeepsPlaces(c: Config, s: State, a: Action)
    requires Places(c, s) && Enabled(c, s, a)
    ensures Places(c, Do(c, s, a))
  {
  }

  /** The word is below, at or above the flag exactly as the section's outcome says. */
  lemma EnterCases(count: int, total: int)
    requires 1 <= count <= INT_MAX && LegalWord(count, total)
    ensures
      var r := EnterWord(count, total);
      var n := if total == FLAG then 0 else total;
      match r.outcome
      case AtGate => total > FLAG && r.total == total
      case AtInner => total <= FLAG && n + 1 < count && r.total == n + 1
      case Returned => total <= FLAG && n + 1 == count && r.total == FLAG + n && r.wake
  {
  }

  /** The gate section, with its arithmetic done. */
  lemma GateEffect(c: Config, s: State, t: Tid)
    requires ProperCount(c) && LegalWord(c.count, s.total)
    ensures
      var s' := DoGate(c, s, t);
      var n := if s.total == FLAG then 0 else s.total;
      && (s.total > FLAG ==> s' == s.(dozing := s.dozing + {t}))
      && (s.total <= FLAG && n + 1 < c.count ==>
            s' == s.(total := n + 1, gate := s.gate - {t}, inside := s.inside + {t}, dozing := s.dozing + {t},
                     log := s.log + [Arrived(t)]))
      && (s.total <= FLAG && n + 1 == c.count ==>
            s' == s.(total := FLAG + n, gate := s.gate - {t}, waitQ := {},
                     log := s.log + [Arrived(t)] + [Left(t)], round := RoundAfter(s, FLAG + n)))
      && (s.total <= FLAG ==> n + 1 <= c.count)
  {
    EnterCases(c.count, s.total);
  }

  lemma GateKeepsWord(c: Config, s: State, t: Tid)
    requires ProperCount(c) && Places(c, s) && WordMeans(c, s) && Enabled(c, s, Gate(t))
    ensures WordMeans(c, Do(c, s, Gate(t)))
  {
    GateEffect(c, s, t);
    Snoc(s.log, Arrived(t));
    Snoc(s.log + [Arrived(t)], Left(t));
    assert t !in s.inside;
  }

  /** The last thread of a round arrives and leaves in one section. */
  lemma LastArrivalKeepsLog(c: Config, s: State, t: Tid)
    requires ProperCount(c) && t !in s.inside && LogInv(c.count, s.log, s.round, s.inside)
    requires Arrivals(s.log) + 1 == Multiple(c.count, s.round + 1)
    ensures LogInv(c.count, s.log + [Arrived(t)] + [Left(t)], s.round, s.inside)
  {
    LogArrive(c.count, s.log, s.round, s.inside, t);
    Snoc(s.log, Arrived(t));
    LogLeave(c.count, s.log + [Arrived(t)], s.round, s.inside + {t}, t);
    assert s.inside + {t} - {t} == s.inside;
  }

  lemma GateKeepsLog(c: Config, s: State, t: Tid)
    requires ProperCount(c) && t !in s.inside && WordMeans(c, s) && LogInv(c.count, s.log, s.round, s.inside)
    ensures
      var s' := DoGate(c, s, t);
      LogInv(c.count, s'.log, s'.round, s'.inside)
  {
    GateEffect(c, s, t);
    if s.total <= FLAG {
      if |s.inside| + 1 == c.count {
        LastArrivalKeepsLog(c, s, t);
        if s.inside == {} { LogNextRound(c.count, s.log + [Arrived(t)] + [Left(t)], s.round); }
      } else {
        LogArrive(c.count, s.log, s.round, s.inside, t);
      }
    }
  }

  /** A thread inside meets either a round still filling or a round being released, never an idle word. */
  lemma InnerCases(c: Config, s: State)
    requires ProperCount(c) && s.inside != {} && WordMeans(c, s)
    ensures s.total != FLAG
    ensures s.total < FLAG ==> InnerWord(s.total) == Section(s.total, AtInner, false)
    ensures s.total > FLAG ==> InnerWord(s.total) == Section(s.total - 1, Returned, s.total - 1 == FLAG)
  {
  }

  lemma InnerKeepsWord(c: Config, s: State, t: Tid)
    requires ProperCount(c) && WordMeans(c, s) && Enabled(c, s, Inner(t))
    ensures WordMeans(c, Do(c, s, Inner(t)))
  {
    InnerCases(c, s);
    Snoc(s.log, Left(t));
  }

  lemma InnerKeepsLog(c: Config, s: State, t: Tid)
    requires ProperCount(c) && t in s.inside && WordMeans(c, s) && LogInv(c.count, s.log, s.round, s.inside)
    ensures
      var s' := DoInner(s, t);
      LogInv(c.count, s'.log, s'.round, s'.inside)
  {
    InnerCases(c, s);
    if s.total > FLAG {
      LogLeave(c.count, s.log, s.round, s.inside, t);
      if s.total - 1 == FLAG {
        assert s.inside - {t} == {} by { assert |s.inside - {t}| == 0; }
        LogNextRound(c.count, s.log + [Left(t)], s.round);
      }
    }
  }

  lemma StepKeepsWord(c: Config, s: State, a: Action)
    requires ProperCount(c) && Places(c, s) && WordMeans(c, s) && Enabled(c, s, a)
    ensures WordMeans(c, Do(c, s, a))
  {
    match a
    case Gate(t) => GateKeepsWord(c, s, t);
    case Inner(t) => InnerKeepsWord(c, s, t);
    case _ =>
  }

  lemma StepKeepsLog(c: Config, s: State, a: Action)
    requires ProperCount(c) && Inv(c, s) && Enabled(c, s, a)
    ensures LogInv(c.count, Do(c, s, a).log, Do(c, s, a).round, Do(c, s, a).inside)
  {
    match a
    case Gate(t) => GateKeepsLog(c, s, t);
    case Inner(t) => InnerKeepsLog(c, s, t);
    case _ =>
  }

  lemma StepKeepsInv(c: Config, s: State, a: Action)
    requires ProperCount(c) && Inv(c, s) && Enabled(c, s, a)
    ensures Inv(c, Do(c, s, a))
  {
    StepKeepsPlaces(c, s, a);
    StepKeepsWord(c, s, a);
    StepKeepsLog(c, s, a);
  }

  lemma {:induction false} RunKeepsInv(c: Config, acts: seq<Action>)
    requires ProperCount(c) && Runs(c, acts)
    ensures Inv(c, Exec(c, acts))
  {
    if acts != [] {
      RunKeepsInv(c, acts[..|acts| - 1]);
      StepKeepsInv(c, Exec(c, acts[..|acts| - 1]), acts[|acts| - 1]);
    }
  }

  lemma RunKeepsWord(c: Config, acts: seq<Action>)
    requires ProperCount(c) && Runs(c, acts)
    ensures Places(c, Exec(c, acts)) && WordMeans(c, Exec(c, acts))
  {
    RunKeepsInv(c, acts);
  }

  /** Barrier separation, over every schedule and any number of threads. */
  lemma Separation(c: Config, acts: seq<Action>)
    requires ProperCount(c) && Runs(c, acts)
    ensures Separated(c.count, Exec(c, acts).log)
  {
    RunKeepsInv(c, acts);
  }

  /** Read as a phase, the word says how many threads are inside and how far the history has come. */
  ghost predicate WordReads(c: Config, s: State) {
    match Decode(s.total)
    case Filling(n) => |s.inside| == n && Departures(s.log) == s.round * c.count
    case Idle => s.inside == {} && Departures(s.log) == s.round * c.count
    case Releasing(n) => |s.inside| == n && Arrivals(s.log) == (s.round + 1) * c.count
  }

  /** Between lock sections the one word tells exactly how many threads are where, the history balances,
      and the word stays where no 64-bit operation wraps. */
  lemma WordEncodesState(c: Config, acts: seq<Action>)
    requires ProperCount(c) && Runs(c, acts)
    ensures LegalWord(c.count, Exec(c, acts).total)
    ensures Arrivals(Exec(c, acts).log) - Departures(Exec(c, acts).log) == |Exec(c, acts).inside|
    ensures WordReads(c, Exec(c, acts))
  {
    RunKeepsWord(c, acts);
    WordMeansReads(c, Exec(c, acts));
  }

  lemma WordMeansReads(c: Config, s: State)
    requires ProperCount(c) && WordMeans(c, s)
    ensures WordReads(c, s)
  {
    MultipleIsProduct(c.count, s.round);
    MultipleIsProduct(c.count, s.round + 1);
  }

  /** Every thread of every full round has left. */
  ghost predicate FullRoundsGone(count: int, log: seq<Event>)
    requires count >= 1
  {
    forall i :: 0 <= i < |log| && log[i].Arrived? && Multiple(count, RoundAt(count, log, i) + 1) <= Arrivals(log)
                ==> LeavesBetween(log, log[i].t, i, |log|)
  }

  /** `barrier_destroy` leaves its wait loop exactly when no round is being released. At that moment every
      thread of every full round has left, and the threads inside are exactly those of a part-filled round. */
  lemma DestroyWaitsForReleased(c: Config, acts: seq<Action>, t: Tid)
    requires ProperCount(c) && Runs(c, acts) && Enabled(c, Exec(c, acts), Drain(t))
    ensures
      var s := Exec(c, acts);
      && (t in Do(c, s, Drain(t)).recycling <==> s.total <= FLAG)
      && (s.total <= FLAG ==>
            && FullRoundsGone(c.count, s.log)
            && (s.inside == {} <==> s.total == FLAG)
            && (s.total != FLAG ==> |s.inside| == s.total < c.count))
  {
    RunKeepsInv(c, acts);
  }

  /** Exactly when the free is safe: nobody is left in the barrier if and only if the caller is alone in it
      when it frees. The barrier is then idle, with every arrival matched by a departure. */
  lemma DestroySafeIff(c: Config, acts: seq<Action>, t: Tid)
    requires ProperCount(c) && Runs(c, acts) && Enabled(c, Exec(c, acts), Recycle(t))
    ensures
      var s := Exec(c, acts);
      var s' := Do(c, s, Recycle(t));
      && s'.freed && (Busy(s') == {} <==> Busy(s) == {t})
      && (Busy(s) == {t} ==> s'.total == FLAG && Arrivals(s'.log) == Departures(s'.log))
  {
    RunKeepsWord(c, acts);
    RecycleAloneIff(c, Exec(c, acts), t);
  }

  lemma RecycleAloneIff(c: Config, s: State, t: Tid)
    requires ProperCount(c) && Places(c, s) && WordMeans(c, s) && Enabled(c, s, Recycle(t))
    ensures
      var s' := Do(c, s, Recycle(t));
      && (Busy(s') == {} <==> Busy(s) == {t})
      && (Busy(s) == {t} ==> s'.total == FLAG && Arrivals(s'.log) == Departures(s'.log))
  {
    assert t in Busy(s);
    assert Busy(Do(c, s, Recycle(t))) == Busy(s) - {t};
    if Busy(s) == {t} {
      OnlyRecycler(s, t);
    }
  }

  lemma OnlyRecycler(s: State, t: Tid)
    requires Busy(s) == {t} && t in s.recycling && s.recycling !! Waiters(s)
    ensures s.inside == {}
  {
    assert forall u :: u in s.inside ==> u in Busy(s) && u in Waiters(s);
  }

  // ----- What a caller can do about it -----

  /** From now on only t acts, and it does not wait. */
  ghost predicate OnlyDestroys(acts: seq<Action>, t: Tid) {
    forall i :: 0 <= i < |acts| ==> acts[i].t == t && !acts[i].Call?
  }

  /** Nobody but t is in the barrier, and t is there to destroy it. */
  ghost predicate Alone(s: State, t: Tid) {
    && s.total == FLAG && s.gate == {} && s.inside == {}
    && s.draining <= {t} && s.recycling <= {t} && s.draining !! s.recycling && s.dozing + s.waitQ <= s.draining
    && (s.freed ==> Busy(s) == {})
  }

  ghost predicate Asleep(s: State) {
    s.dozing + s.waitQ != {}
  }

  lemma AloneStep(c: Config, s: State, a: Action, t: Tid)
    requires Alone(s, t) && Enabled(c, s, a) && a.t == t && !a.Call?
    ensures Alone(Do(c, s, a), t) && Do(c, s, a).log == s.log && (Asleep(Do(c, s, a)) ==> Asleep(s))
  {
  }

  lemma {:induction false} AloneRun(c: Config, before: seq<Action>, after: seq<Action>, t: Tid)
    requires Runs(c, before + after) && Alone(Exec(c, before), t) && OnlyDestroys(after, t)
    ensures
      var s := Exec(c, before + after);
      Alone(s, t) && s.log == Exec(c, before).log && (Asleep(s) ==> Asleep(Exec(c, before)))
  {
    if after == [] {
      assert before + after == before;
    } else {
      var a := after[|after| - 1];
      assert before + after == before + after[..|after| - 1] + [a];
      RunsSnoc(c, before + after[..|after| - 1], a);
      AloneRun(c, before, after[..|after| - 1], t);
      AloneStep(c, Exec(c, before + after[..|after| - 1]), a, t);
    }
  }

  /** What a caller can do: if at some moment, before the destroy, in its loop or after it, nobody else is in
      the barrier, and nobody else comes from then on, the free is safe: the barrier is freed idle and with
      nobody in it, and a destroyer that was not asleep never sleeps. */
  lemma JoinedDestroyIsSafe(c: Config, before: seq<Action>, after: seq<Action>, t: Tid)
    requires ProperCount(c) && Runs(c, before) && Runs(c, before + after) && !Exec(c, before).freed
    requires Busy(Exec(c, before)) <= {t} && t !in Exec(c, before).gate + Exec(c, before).inside
    requires OnlyDestroys(after, t)
    ensures
      var s := Exec(c, before + after);
      && s.total == FLAG && Arrivals(s.log) == Departures(s.log)
      && Busy(s) <= {t} && (s.freed ==> Busy(s) == {})
      && (Asleep(s) ==> Asleep(Exec(c, before)))
  {
    RunKeepsWord(c, before);
    IsAlone(c, Exec(c, before), t);
    AloneRun(c, before, after, t);
  }

  lemma IsAlone(c: Config, s: State, t: Tid)
    requires ProperCount(c) && Places(c, s) && WordMeans(c, s) && !s.freed
    requires Busy(s) <= {t} && t !in s.gate + s.inside
    ensures Alone(s, t) && Arrivals(s.log) == Departures(s.log)
  {
    assert forall u :: u in s.gate || u in s.inside || u in s.draining || u in s.recycling ==> u in Busy(s);
    assert s.gate == {} && s.inside == {};
    assert s.recycling !! s.draining by { assert s.draining <= Waiters(s); }
  }

  lemma NobodyBusy(s: State)
    requires Busy(s) == {}
    ensures s.gate == {} && s.inside == {} && s.draining == {} && s.recycling == {}
  {
    assert forall u :: u in s.gate || u in s.inside || u in s.draining || u in s.recycling ==> u in Busy(s);
  }

  /** The schedule given by a list of actions, checked one action at a time. */
  lemma ExecPrefix(c: Config, acts: seq<Action>, n: int)
    requires 0 <= n < |acts|
    ensures Exec(c, acts[..n + 1]) == Do(c, Exec(c, acts[..n]), acts[n])
    ensures Runs(c, acts[..n + 1]) <==> Runs(c, acts[..n]) && Enabled(c, Exec(c, acts[..n]), acts[n])
  {
    assert acts[..n + 1] == acts[..n] + [acts[n]];
    RunsSnoc(c, acts[..n], acts[n]);
  }

  /** Without the join, `barrier_destroy` does not wait for a part-filled round: it frees the barrier
      under a thread that is asleep inside. */
  lemma DestroyMayStrand() returns (c: Config, acts: seq<Action>)
    ensures ProperCount(c) && Runs(c, acts)
    ensures Exec(c, acts).freed && Exec(c, acts).inside != {}
  {
    c := Config(2, {1, 2});
    acts := [Call(1), Gate(1), Queue(1), Destroy(2), Drain(2), Recycle(2)];
    ExecPrefix(c, acts, 0);
    ExecPrefix(c, acts, 1);
    ExecPrefix(c, acts, 2);
    ExecPrefix(c, acts, 3);
    ExecPrefix(c, acts, 4);
    ExecPrefix(c, acts, 5);
    assert acts[..0] == [] && acts[..6] == acts;
    assert 1 in Exec(c, acts).inside;
  }

  /** An idle word does not help: nor does it wait for a thread that has called and not yet got in. */
  lemma DestroyMayStrandCaller() returns (c: Config, acts: seq<Action>)
    ensures ProperCount(c) && Runs(c, acts)
    ensures Exec(c, acts).freed && Exec(c, acts).total == FLAG && Exec(c, acts).gate != {}
  {
    c := Config(2, {1, 2});
    acts := [Call(1), Destroy(2), Drain(2), Recycle(2)];
    ExecPrefix(c, acts, 0);
    ExecPrefix(c, acts, 1);
    ExecPrefix(c, acts, 2);
    ExecPrefix(c, acts, 3);
    assert acts[..0] == [] && acts[..4] == acts;
    assert 1 in Exec(c, acts).gate;
  }

  lemma TwoSteps(c: Config, acts: seq<Action>, n: int, s: State, s': State)
    requires 0 <= n <= |acts| - 2 && Exec(c, acts[..n]) == s && Runs(c, acts[..n])
    requires Enabled(c, s, acts[n]) && Enabled(c, Do(c, s, acts[n]), acts[n + 1])
    requires Do(c, Do(c, s, acts[n]), acts[n + 1]) == s'
    ensures Exec(c, acts[..n + 2]) == s' && Runs(c, acts[..n + 2])
  {
    ExecPrefix(c, acts, n);
    ExecPrefix(c, acts, n + 1);
  }

  // The states of the schedule below, two actions apart.
  const TRIO: Config := Config(2, {1, 2, 3})
  const LOOP_LEFT: State := State(FLAG, {}, {}, {}, {3}, {}, {}, false, [], 0)
  const ONE_IN: State := State(1, {}, {1}, {}, {3}, {1}, {}, false, [Arrived(1)], 0)
  const LET_GO: State := State(FLAG + 1, {}, {1}, {}, {3}, {1}, {}, false, [Arrived(1), Arrived(2), Left(2)], 0)

  lemma NewcomersSteps()
    ensures Enabled(TRIO, Init(), Destroy(3)) && Enabled(TRIO, Do(TRIO, Init(), Destroy(3)), Drain(3))
    ensures Do(TRIO, Do(TRIO, Init(), Destroy(3)), Drain(3)) == LOOP_LEFT && Busy(LOOP_LEFT) == {3}
    ensures Enabled(TRIO, LOOP_LEFT, Call(1)) && Enabled(TRIO, Do(TRIO, LOOP_LEFT, Call(1)), Gate(1))
    ensures Do(TRIO, Do(TRIO, LOOP_LEFT, Call(1)), Gate(1)) == ONE_IN
    ensures Enabled(TRIO, ONE_IN, Call(2)) && Enabled(TRIO, Do(TRIO, ONE_IN, Call(2)), Gate(2))
    ensures Do(TRIO, Do(TRIO, ONE_IN, Call(2)), Gate(2)) == LET_GO && Enabled(TRIO, LET_GO, Recycle(3))
  {
  }

  /** Being alone when the loop is left does not help either: between giving the lock back and freeing, a
      whole round can come in, and the barrier is freed while that round is being released. */
  lemma DestroyMayStrandNewcomers() returns (left: seq<Action>, acts: seq<Action>)
    ensures ProperCount(TRIO) && Runs(TRIO, acts) && left <= acts
    ensures Exec(TRIO, left).recycling == Busy(Exec(TRIO, left)) == {3}
    ensures Exec(TRIO, acts).freed && Exec(TRIO, acts).total > FLAG && 1 in Exec(TRIO, acts).inside
  {
    acts := [Destroy(3), Drain(3), Call(1), Gate(1), Call(2), Gate(2), Recycle(3)];
    left := acts[..2];
    assert acts[..0] == [] && acts[..7] == acts;
    NewcomersSteps();
    TwoSteps(TRIO, acts, 0, Init(), LOOP_LEFT);
    TwoSteps(TRIO, acts, 2, LOOP_LEFT, ONE_IN);
    TwoSteps(TRIO, acts, 4, ONE_IN, LET_GO);
    ExecPrefix(TRIO, acts, 6);
  }
}
