/** Which teams can finish? A schedule that deals the calls out in turn shows that nothing but the numbers
    stands in the way. */
module BarrierSchedule {
  import opened Counting
  import opened BarrierWord
  import opened BarrierMachine
  import opened BarrierSpec
  import opened BarrierSafety
  import opened BarrierReturns
  import opened BarrierWakeups
  import opened BarrierProgress

  /** Nobody is in the barrier. */
  ghost predicate AtRest(s: State) {
    && s.total == FLAG && s.gate == {} && s.inside == {} && s.draining == {} && s.recycling == {}
    && s.dozing == {} && s.waitQ == {}
    && !s.freed
  }

  lemma MembersSnoc<T>(q: seq<T>, k: int)
    requires Distinct(q) && 0 <= k < |q|
    ensures Members(q[..k + 1]) == Members(q[..k]) + {q[k]} && q[k] !in Members(q[..k])
    ensures Members(q[k..]) == {q[k]} + Members(q[k + 1..]) && q[k] !in Members(q[k + 1..])
  {
    assert q[..k + 1] == q[..k] + [q[k]];
    assert q[k..] == [q[k]] + q[k + 1..];
  }

  /** Calls each thread has completed. */
  function Completed(s: State, t: Tid): nat {
    Occurrences(s.log, Left(t))
  }

  // ----- One round -----

  /** The first k threads of the group sleep inside, and nobody has left since the state `was`. */
  ghost predicate Filled(s: State, was: State, g: seq<Tid>, k: nat)
    requires k <= |g|
  {
    && s.total == (if k == 0 then FLAG else k)
    && s.gate == {} && s.inside == Members(g[..k]) && s.draining == {} && s.recycling == {}
    && s.dozing == {} && s.waitQ == s.inside
    && !s.freed
    && forall t :: Completed(s, t) == Completed(was, t)
  }

  /** The last thread and the first k have left; those between are awake. */
  ghost predicate Emptied(s: State, was: State, g: seq<Tid>, k: nat)
    requires k < |g|
  {
    && s.total == FLAG + (|g| - 1 - k)
    && s.gate == {} && s.inside == Members(g[k..|g| - 1]) && s.draining == {} && s.recycling == {}
    && s.dozing == {} && s.waitQ == {}
    && !s.freed
    && forall t :: Completed(s, t) == Completed(was, t) + (if t in g[..k] || t == g[|g| - 1] then 1 else 0)
  }

  lemma CallAndGate(c: Config, rounds: nat, acts: seq<Action>, t: Tid) returns (next: seq<Action>)
    requires ClientRuns(c, rounds, acts) && t in c.tids
    requires
      var s := AtomicExec(c, acts);
      !s.freed && s.gate == {} && s.dozing == {} && t !in s.inside && t !in s.draining + s.recycling && t !in s.waitQ
      && Completed(s, t) < rounds
    ensures ClientRuns(c, rounds, next)
    ensures AtomicExec(c, next) == AtomicDo(c, AtomicExec(c, acts).(gate := {t}), Gate(t))
  {
    var s := AtomicExec(c, acts);
    ClientSnoc(c, rounds, acts, Call(t));
    next := acts + [Call(t)];
    assert s.gate + {t} == {t};
    assert AtomicExec(c, next) == s.(gate := {t});
    ClientSnoc(c, rounds, next, Gate(t));
    next := next + [Gate(t)];
  }

  lemma FillEffect(c: Config, s: State, was: State, g: seq<Tid>, k: nat)
    requires ProperCount(c) && Distinct(g) && k < |g| && k + 1 < c.count && Filled(s, was, g, k)
    ensures Filled(AtomicDo(c, s.(gate := {g[k]}), Gate(g[k])), was, g, k + 1)
  {
    EnterFills(c.count, s.total, k);
    MembersSnoc(g, k);
    Snoc(s.log, Arrived(g[k]));
  }

  lemma {:induction false} Fill(c: Config, rounds: nat, acts: seq<Action>, g: seq<Tid>, k: nat) returns (next: seq<Action>)
    requires ProperCount(c) && Distinct(g) && Members(g) <= c.tids && k <= |g| && k < c.count
    requires ClientRuns(c, rounds, acts) && AtRest(AtomicExec(c, acts))
    requires forall t :: t in g ==> Completed(AtomicExec(c, acts), t) < rounds
    ensures ClientRuns(c, rounds, next) && Filled(AtomicExec(c, next), AtomicExec(c, acts), g, k)
  {
    if k == 0 {
      next := acts;
      assert g[..0] == [];
    } else {
      next := Fill(c, rounds, acts, g, k - 1);
      var s := AtomicExec(c, next);
      MembersSnoc(g, k - 1);
      assert g[k - 1] in Members(g);
      next := CallAndGate(c, rounds, next, g[k - 1]);
      FillEffect(c, s, AtomicExec(c, acts), g, k - 1);
    }
  }

  lemma LastEffect(c: Config, s: State, was: State, g: seq<Tid>)
    requires ProperCount(c) && |g| == c.count && Distinct(g) && Filled(s, was, g, c.count - 1)
    ensures Emptied(AtomicDo(c, s.(gate := {g[c.count - 1]}), Gate(g[c.count - 1])), was, g, 0)
  {
    var t := g[c.count - 1];
    EnterCases(c.count, s.total);
    MembersSnoc(g, c.count - 1);
    Snoc(s.log, Arrived(t));
    Snoc(s.log + [Arrived(t)], Left(t));
    assert g[0..c.count - 1] == g[..c.count - 1];
    assert s.inside - {t} == s.inside;
  }

  lemma Last(c: Config, rounds: nat, acts: seq<Action>, was: State, g: seq<Tid>) returns (next: seq<Action>)
    requires ProperCount(c) && |g| == c.count && Distinct(g) && g[c.count - 1] in c.tids
    requires ClientRuns(c, rounds, acts) && Filled(AtomicExec(c, acts), was, g, c.count - 1)
    requires Completed(was, g[c.count - 1]) < rounds
    ensures ClientRuns(c, rounds, next) && Emptied(AtomicExec(c, next), was, g, 0)
  {
    MembersSnoc(g, c.count - 1);
    LastEffect(c, AtomicExec(c, acts), was, g);
    next := CallAndGate(c, rounds, acts, g[c.count - 1]);
  }

  lemma LeaveEffect(c: Config, s: State, was: State, g: seq<Tid>, k: nat)
    requires ProperCount(c) && |g| == c.count && Distinct(g) && k + 1 < c.count && Emptied(s, was, g, k)
    ensures g[k] in s.inside
    ensures Emptied(AtomicDo(c, s, Inner(g[k])), was, g, k + 1)
  {
    var g' := g[..|g| - 1];
    MembersSnoc(g', k);
    assert g'[k..] == g[k..|g| - 1] && g'[k + 1..] == g[k + 1..|g| - 1];
    assert g[..k + 1] == g[..k] + [g[k]];
    assert g[k] !in g[..k];
    Snoc(s.log, Left(g[k]));
  }

  lemma {:induction false} Empty(c: Config, rounds: nat, acts: seq<Action>, was: State, g: seq<Tid>, k: nat)
    returns (next: seq<Action>)
    requires ProperCount(c) && |g| == c.count && Distinct(g) && k < c.count
    requires ClientRuns(c, rounds, acts) && Emptied(AtomicExec(c, acts), was, g, 0)
    ensures ClientRuns(c, rounds, next) && Emptied(AtomicExec(c, next), was, g, k)
  {
    if k == 0 {
      next := acts;
    } else {
      next := Empty(c, rounds, acts, was, g, k - 1);
      LeaveEffect(c, AtomicExec(c, next), was, g, k - 1);
      ClientSnoc(c, rounds, next, Inner(g[k - 1]));
      next := next + [Inner(g[k - 1])];
    }
  }

  lemma RoundOver(s: State, was: State, g: seq<Tid>)
    requires g != [] && Emptied(s, was, g, |g| - 1)
    ensures AtRest(s) && forall t :: Completed(s, t) == Completed(was, t) + (if t in g then 1 else 0)
  {
    var n := |g| - 1;
    assert g[n..n] == [] && g[..n] + [g[n]] == g;
  }

  /** Any `count` threads with a call left to make can play one round among themselves. */
  lemma PlayRound(c: Config, rounds: nat, acts: seq<Action>, g: seq<Tid>) returns (next: seq<Action>)
    requires ProperCount(c) && |g| == c.count && Distinct(g) && Members(g) <= c.tids
    requires ClientRuns(c, rounds, acts) && AtRest(AtomicExec(c, acts))
    requires forall t :: t in g ==> Completed(AtomicExec(c, acts), t) < rounds
    ensures ClientRuns(c, rounds, next) && AtRest(AtomicExec(c, next))
    ensures forall t :: Completed(AtomicExec(c, next), t) ==
                        Completed(AtomicExec(c, acts), t) + (if t in g then 1 else 0)
  {
    var n := c.count - 1;
    var was := AtomicExec(c, acts);
    assert g[n] in Members(g);
    next := Fill(c, rounds, acts, g, n);
    next := Last(c, rounds, next, was, g);
    next := Empty(c, rounds, next, was, g, n);
    RoundOver(AtomicExec(c, next), was, g);
  }

  // ----- Round after round -----

  /** The threads in the order of their next turn: the first a have completed v calls, the others one more. */
  ghost predicate Dealt(c: Config, s: State, q: seq<Tid>, v: nat, a: int) {
    && Distinct(q) && Members(q) == c.tids && 1 <= a <= |q|
    && forall i :: 0 <= i < |q| ==> Completed(s, q[i]) == (if i < a then v else v + 1)
  }

  /** The next `count` threads take their turn and go to the back. */
  function Rotated<T>(q: seq<T>, n: nat): seq<T>
    requires n <= |q|
  {
    q[n..] + q[..n]
  }

  lemma RotatedKeeps<T>(q: seq<T>, n: nat)
    requires n <= |q| && Distinct(q)
    ensures Distinct(Rotated(q, n)) && Members(Rotated(q, n)) == Members(q) && |Rotated(q, n)| == |q|
    ensures Distinct(q[..n]) && Members(q[..n]) <= Members(q)
    ensures forall i :: 0 <= i < |q| ==> (q[i] in q[..n] <==> i < n)
  {
    assert q[..n] + q[n..] == q;
    forall t | t in q ensures t in Rotated(q, n) {}
  }

  /** One round later the threads are dealt out again, `count` calls further on. */
  lemma DealRound(c: Config, s: State, s': State, q: seq<Tid>, v: nat, a: int) returns (v': nat, a': int)
    requires Dealt(c, s, q, v, a) && 1 <= c.count <= |q|
    requires forall t :: Completed(s', t) == Completed(s, t) + (if t in q[..c.count] then 1 else 0)
    ensures Dealt(c, s', Rotated(q, c.count), v', a') && |Rotated(q, c.count)| == |q|
    ensures Multiple(|q|, v') - a' == Multiple(|q|, v) - a + c.count
  {
    var n := c.count;
    RotatedKeeps(q, n);
    var q' := Rotated(q, n);
    v' := if a > n then v else v + 1;
    a' := if a > n then a - n else a - n + |q|;
    forall i | 0 <= i < |q| ensures Completed(s', q'[i]) ==
      Completed(s, q[if i < |q| - n then i + n else i - (|q| - n)]) + (if i < |q| - n then 0 else 1)
    {
      assert q'[i] == q[if i < |q| - n then i + n else i - (|q| - n)];
    }
  }

  lemma AllDealt(c: Config, rounds: nat, s: State, q: seq<Tid>, v: nat, a: int)
    requires AtRest(s) && Dealt(c, s, q, v, a)
    requires Multiple(|q|, v) + |q| - a == Multiple(|q|, rounds)
    ensures Finished(c, rounds, s)
  {
    NothingLeft(|q|, v, a, rounds);
    forall t | t in c.tids ensures Completed(s, t) == rounds {
      assert t in Members(q);
    }
  }

  /** The next `count` threads all have a call left to make. */
  lemma NextMembers(c: Config, rounds: nat, s: State, q: seq<Tid>, v: nat, a: int, n: nat)
    requires 1 <= c.count <= |q| && n > 0 && Dealt(c, s, q, v, a)
    requires Multiple(|q|, v) + |q| - a + Multiple(c.count, n) == Multiple(|q|, rounds)
    ensures Distinct(q[..c.count]) && Members(q[..c.count]) <= c.tids
    ensures forall t :: t in q[..c.count] ==> Completed(s, t) < rounds
  {
    StillToCall(|q|, v, a, c.count, rounds, n);
    RotatedKeeps(q, c.count);
    forall t | t in q[..c.count] ensures Completed(s, t) < rounds {
      var i :| 0 <= i < c.count && q[i] == t;
    }
  }

  lemma DealOne(c: Config, rounds: nat, acts: seq<Action>, q: seq<Tid>, v: nat, a: int)
    returns (next: seq<Action>, v': nat, a': int)
    requires ProperCount(c) && c.count <= |q| && ClientRuns(c, rounds, acts)
    requires AtRest(AtomicExec(c, acts)) && Dealt(c, AtomicExec(c, acts), q, v, a)
    requires Distinct(q[..c.count]) && Members(q[..c.count]) <= c.tids
    requires forall t :: t in q[..c.count] ==> Completed(AtomicExec(c, acts), t) < rounds
    ensures ClientRuns(c, rounds, next) && AtRest(AtomicExec(c, next))
    ensures Dealt(c, AtomicExec(c, next), Rotated(q, c.count), v', a') && |Rotated(q, c.count)| == |q|
    ensures Multiple(|q|, v') - a' == Multiple(|q|, v) - a + c.count
  {
    next := PlayRound(c, rounds, acts, q[..c.count]);
    v', a' := DealRound(c, AtomicExec(c, acts), AtomicExec(c, next), q, v, a);
  }

  /** The run so far, with n more rounds of the deal using up exactly the calls still to be made. */
  ghost predicate OnCourse(c: Config, rounds: nat, acts: seq<Action>, q: seq<Tid>, v: nat, a: int, n: nat) {
    && ClientRuns(c, rounds, acts) && AtRest(AtomicExec(c, acts)) && Dealt(c, AtomicExec(c, acts), q, v, a)
    && Multiple(|q|, v) + |q| - a + Multiple(c.count, n) == Multiple(|q|, rounds)
  }

  lemma DealNext(c: Config, rounds: nat, acts: seq<Action>, q: seq<Tid>, v: nat, a: int, n: nat)
    returns (next: seq<Action>, q': seq<Tid>, v': nat, a': int)
    requires ProperCount(c) && c.count <= |q| && n > 0 && OnCourse(c, rounds, acts, q, v, a, n)
    ensures |q'| == |q| && OnCourse(c, rounds, next, q', v', a', n - 1)
  {
    NextMembers(c, rounds, AtomicExec(c, acts), q, v, a, n);
    next, v', a' := DealOne(c, rounds, acts, q, v, a);
    q' := Rotated(q, c.count);
  }

  lemma {:induction false} DealOut(c: Config, rounds: nat, acts: seq<Action>, q: seq<Tid>, v: nat, a: int, n: nat)
    returns (full: seq<Action>)
    requires ProperCount(c) && c.count <= |q| && OnCourse(c, rounds, acts, q, v, a, n)
    ensures ClientRuns(c, rounds, full) && Finished(c, rounds, AtomicExec(c, full))
    decreases n
  {
    if n == 0 {
      full := acts;
      AllDealt(c, rounds, AtomicExec(c, acts), q, v, a);
    } else {
      var next, q', v', a' := DealNext(c, rounds, acts, q, v, a, n);
      full := DealOut(c, rounds, next, q', v', a', n - 1);
    }
  }

  lemma NothingLeft(p: nat, v: nat, a: int, rounds: nat)
    requires 1 <= a <= p && Multiple(p, v) + p - a == Multiple(p, rounds)
    ensures v == rounds && a == p
  {
    if v < rounds {
      MultipleGrows(p, v, rounds);
    } else if rounds < v {
      MultipleGrows(p, rounds, v);
    }
  }

  lemma StillToCall(p: nat, v: nat, a: int, count: int, rounds: nat, n: nat)
    requires 1 <= a <= p && 1 <= count && n > 0
    requires Multiple(p, v) + p - a + Multiple(count, n) == Multiple(p, rounds)
    ensures v < rounds && (a < count ==> v + 1 < rounds)
  {
    if rounds <= v {
      MultipleMonotone(p, rounds, v);
    } else if rounds <= v + 1 && a < count {
      MultipleMonotone(p, rounds, v + 1);
    }
  }

  // ----- The theorem -----

  lemma {:induction false} Enumerate<T>(group: set<T>) returns (q: seq<T>)
    ensures Distinct(q) && Members(q) == group && |q| == |group|
    decreases |group|
  {
    if group == {} {
      q := [];
    } else {
      var t := Pick(group);
      var rest := Enumerate(group - {t});
      assert t !in Members(rest);
      q := [t] + rest;
      assert Members(q) == {t} + Members(rest);
      assert {t} + (group - {t}) == group;
    }
  }

  /** The calls of the whole team are whole rounds of `count` distinct threads, or there are none. */
  predicate Divides(count: int, threads: nat, rounds: nat)
    requires count >= 1
  {
    threads * rounds == 0 || (count <= threads && (threads * rounds) % count == 0)
  }

  lemma DividesIsEnough(c: Config, rounds: nat) returns (full: seq<Action>)
    requires ProperCount(c) && Divides(c.count, |c.tids|, rounds)
    ensures ClientRuns(c, rounds, full) && Finished(c, rounds, AtomicExec(c, full))
  {
    var calls := |c.tids| * rounds;
    if calls == 0 {
      full := [];
      if rounds != 0 { assert |c.tids| == 0; }
    } else {
      var q := Enumerate(c.tids);
      var n := calls / c.count;
      assert calls == n * c.count;
      MultipleIsProduct(c.count, n);
      MultipleIsProduct(|q|, rounds);
      full := DealOut(c, rounds, [], q, 0, |q|, n);
    }
  }

  lemma DividesIsNeeded(c: Config, rounds: nat, acts: seq<Action>)
    requires ProperCount(c) && ClientRuns(c, rounds, acts) && Finished(c, rounds, AtomicExec(c, acts))
    ensures Divides(c.count, |c.tids|, rounds)
  {
    FinishedMeansWholeRounds(c, rounds, acts);
    Remainder(c.count, AtomicExec(c, acts).round, 0);
    if |c.tids| < c.count {
      ClientRunsAreAtomic(c, rounds, acts);
      var split := AtomicIsFresh(c, acts);
      RunOnlyFills(c, split);
      NobodyReturned(c, rounds, acts);
    }
  }

  lemma NobodyReturned(c: Config, rounds: nat, acts: seq<Action>)
    requires ProperCount(c) && ClientRuns(c, rounds, acts) && Finished(c, rounds, AtomicExec(c, acts))
    requires Departures(AtomicExec(c, acts).log) == 0
    ensures |c.tids| * rounds == 0
  {
    TeamState(c, rounds, acts);
    var s := AtomicExec(c, acts);
    FinishedMeansWholeRounds(c, rounds, acts);
    MultipleIsProduct(c.count, s.round);
    if s.round > 0 { MultipleMonotone(c.count, 1, s.round); }
  }

  ghost predicate CanFinish(c: Config, rounds: nat) {
    exists acts :: ClientRuns(c, rounds, acts) && Finished(c, rounds, AtomicExec(c, acts))
  }

  /** Exactly which teams can finish: some run of P threads with R calls each comes to its end if and only if
      there is nothing to do, or `count` threads exist and P * R is a multiple of `count`. */
  lemma FinishesIff(c: Config, rounds: nat)
    requires ProperCount(c)
    ensures CanFinish(c, rounds) <==> Divides(c.count, |c.tids|, rounds)
  {
    if Divides(c.count, |c.tids|, rounds) {
      var full := DividesIsEnough(c, rounds);
    } else if CanFinish(c, rounds) {
      var acts :| ClientRuns(c, rounds, acts) && Finished(c, rounds, AtomicExec(c, acts));
      DividesIsNeeded(c, rounds, acts);
    }
  }
}
