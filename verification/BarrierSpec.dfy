/** What a barrier must guarantee, said about the order of arrivals and departures alone. */
module BarrierSpec {
  import opened Counting
  import opened BarrierMachine

  function Arrivals(log: seq<Event>): nat {
    if log == [] then 0
    else Arrivals(log[..|log| - 1]) + (if log[|log| - 1].Arrived? then 1 else 0)
  }

  function Departures(log: seq<Event>): nat {
    if log == [] then 0
    else Departures(log[..|log| - 1]) + (if log[|log| - 1].Left? then 1 else 0)
  }

  function Occurrences(log: seq<Event>, e: Event): nat {
    if log == [] then 0
    else Occurrences(log[..|log| - 1], e) + (if log[|log| - 1] == e then 1 else 0)
  }

  /** The round of the n-th arrival, counting from 0: arrivals are dealt out `count` at a time, so round r
      begins after Multiple(count, r) of them. */
  function RoundOf(count: int, n: nat): nat
    requires count >= 1
  {
    if n < count then 0 else 1 + RoundOf(count, n - count)
  }

  lemma {:induction false} RoundOfPlace(count: int, r: nat, x: nat)
    requires count >= 1 && x < count
    ensures RoundOf(count, Multiple(count, r) + x) == r
  {
    if r > 0 { RoundOfPlace(count, r - 1, x); }
  }

  /** The round of the arrival at position i of the log. */
  function RoundAt(count: int, log: seq<Event>, i: int): nat
    requires 0 <= i < |log| && count >= 1
  {
    RoundOf(count, Arrivals(log[..i]))
  }

  ghost predicate LeavesBetween(log: seq<Event>, t: Tid, i: int, j: int)
    requires 0 <= i && j <= |log|
  {
    exists k :: i < k < j && log[k] == Left(t)
  }

  /** A call that arrived in round r returns only after all `count` arrivals of round r. */
  ghost predicate NoEarlyReturn(count: int, log: seq<Event>)
    requires count >= 1
  {
    forall i, j :: 0 <= i < j < |log| && log[i].Arrived? && log[j] == Left(log[i].t)
                   && !LeavesBetween(log, log[i].t, i, j)
                   ==> Arrivals(log[..j]) >= Multiple(count, RoundAt(count, log, i) + 1)
  }

  /** An arrival of a later round comes only after every thread of an earlier round has left. */
  ghost predicate NoEarlyEntry(count: int, log: seq<Event>)
    requires count >= 1
  {
    forall i, j :: 0 <= i < j < |log| && log[i].Arrived? && log[j].Arrived?
                   && RoundAt(count, log, i) < RoundAt(count, log, j)
                   ==> LeavesBetween(log, log[i].t, i, j)
  }

  /** No thread takes two places in one round. */
  ghost predicate DistinctInRound(count: int, log: seq<Event>)
    requires count >= 1
  {
    forall i, j :: 0 <= i < j < |log| && log[i].Arrived? && log[j].Arrived?
                   && RoundAt(count, log, i) == RoundAt(count, log, j)
                   ==> log[i].t != log[j].t
  }

  ghost predicate Separated(count: int, log: seq<Event>)
    requires count >= 1
  {
    NoEarlyReturn(count, log) && NoEarlyEntry(count, log) && DistinctInRound(count, log)
  }

  lemma Snoc(log: seq<Event>, e: Event)
    ensures Arrivals(log + [e]) == Arrivals(log) + (if e.Arrived? then 1 else 0)
    ensures Departures(log + [e]) == Departures(log) + (if e.Left? then 1 else 0)
    ensures forall f :: Occurrences(log + [e], f) == Occurrences(log, f) + (if e == f then 1 else 0)
  {
    assert (log + [e])[..|log|] == log;
  }

  lemma RoundAtStable(count: int, log: seq<Event>, e: Event)
    requires count >= 1
    ensures forall i :: 0 <= i < |log| ==> RoundAt(count, log + [e], i) == RoundAt(count, log, i)
    ensures RoundAt(count, log + [e], |log|) == RoundOf(count, Arrivals(log))
    ensures forall i {:trigger log[..i]} :: 0 <= i <= |log| ==> (log + [e])[..i] == log[..i]
  {
    forall i | 0 <= i <= |log| ensures (log + [e])[..i] == log[..i] {}
    forall i | 0 <= i < |log| ensures RoundAt(count, log + [e], i) == RoundAt(count, log, i) {
      assert (log + [e])[..i] == log[..i];
    }
  }

  /** The bookkeeping that carries separation from one event to the next: whoever has arrived and not
      left is inside, and belongs to the current round. */
  ghost predicate LogInv(count: int, log: seq<Event>, round: nat, inside: set<Tid>)
    requires count >= 1
  {
    && Separated(count, log)
    && (forall i :: 0 <= i < |log| && log[i].Arrived? ==>
          LeavesBetween(log, log[i].t, i, |log|)
          || (log[i].t in inside && RoundAt(count, log, i) == round))
    && (forall t :: Occurrences(log, Arrived(t)) == Occurrences(log, Left(t)) + (if t in inside then 1 else 0))
  }

  lemma BetweenStable(log: seq<Event>, e: Event, t: Tid, i: int, j: int)
    requires 0 <= i && j <= |log|
    ensures LeavesBetween(log + [e], t, i, j) == LeavesBetween(log, t, i, j)
    ensures LeavesBetween(log, t, i, j) ==> LeavesBetween(log + [e], t, i, |log| + 1)
  {
    if LeavesBetween(log + [e], t, i, j) {
      var k :| i < k < j && (log + [e])[k] == Left(t);
      assert log[k] == Left(t);
    }
    if LeavesBetween(log, t, i, j) {
      var k :| i < k < j && log[k] == Left(t);
      assert (log + [e])[k] == Left(t);
    }
  }

  // Old pairs of positions keep their verdict when the log grows, so each condition only has to be
  // checked for the new event.

  lemma NoEarlyReturnSnoc(count: int, log: seq<Event>, e: Event)
    requires count >= 1 && NoEarlyReturn(count, log)
    requires e.Left? ==> forall i :: 0 <= i < |log| && log[i] == Arrived(e.t) && !LeavesBetween(log, e.t, i, |log|)
                               ==> Arrivals(log) >= Multiple(count, RoundAt(count, log, i) + 1)
    ensures NoEarlyReturn(count, log + [e])
  {
    var m := log + [e];
    forall i, j | 0 <= i < j < |m| && m[i].Arrived? && m[j] == Left(m[i].t) && !LeavesBetween(m, m[i].t, i, j)
      ensures Arrivals(m[..j]) >= Multiple(count, RoundAt(count, m, i) + 1)
    {
      BetweenStable(log, e, m[i].t, i, j);
      assert m[..j] == log[..j] && m[..i] == log[..i];
      assert log[i] == m[i];
      if j == |log| {
        assert log[..j] == log;
      } else {
        assert log[j] == m[j];
      }
    }
  }

  lemma NoEarlyEntrySnoc(count: int, log: seq<Event>, e: Event)
    requires count >= 1 && NoEarlyEntry(count, log)
    requires e.Arrived? ==> forall i :: 0 <= i < |log| && log[i].Arrived?
                                        && RoundAt(count, log, i) < RoundOf(count, Arrivals(log))
                               ==> LeavesBetween(log, log[i].t, i, |log|)
    ensures NoEarlyEntry(count, log + [e])
  {
    var m := log + [e];
    RoundAtStable(count, log, e);
    forall i, j | 0 <= i < j < |m| && m[i].Arrived? && m[j].Arrived? && RoundAt(count, m, i) < RoundAt(count, m, j)
      ensures LeavesBetween(m, m[i].t, i, j)
    {
      BetweenStable(log, e, m[i].t, i, j);
      assert log[i] == m[i] && (j < |log| ==> log[j] == m[j]);
    }
  }

  lemma DistinctSnoc(count: int, log: seq<Event>, e: Event)
    requires count >= 1 && DistinctInRound(count, log)
    requires e.Arrived? ==> forall i :: 0 <= i < |log| && log[i] == e
                               ==> RoundAt(count, log, i) != RoundOf(count, Arrivals(log))
    ensures DistinctInRound(count, log + [e])
  {
    var m := log + [e];
    RoundAtStable(count, log, e);
    forall i, j | 0 <= i < j < |m| && m[i].Arrived? && m[j].Arrived? && RoundAt(count, m, i) == RoundAt(count, m, j)
      ensures m[i].t != m[j].t
    {
      assert log[i] == m[i] && (j < |log| ==> log[j] == m[j]);
    }
  }

  lemma ArrivalsMonotone(log: seq<Event>, k: int)
    requires 0 <= k <= |log|
    ensures Arrivals(log[..k]) <= Arrivals(log)
  {
    if k == |log| {
      assert log[..k] == log;
    } else {
      assert log[..|log| - 1][..k] == log[..k];
      ArrivalsMonotone(log[..|log| - 1], k);
    }
  }

  lemma FirstLeave(log: seq<Event>, t: Tid, i: int, j: int) returns (k: int)
    requires 0 <= i && j <= |log| && LeavesBetween(log, t, i, j)
    ensures i < k < j && log[k] == Left(t) && !LeavesBetween(log, t, i, k)
    decreases j
  {
    k :| i < k < j && log[k] == Left(t);
    if LeavesBetween(log, t, i, k) {
      k := FirstLeave(log, t, i, k);
    }
  }

  /** A thread that has come and gone was in a round that is already full. */
  lemma GoneMeansFull(count: int, log: seq<Event>, i: int)
    requires count >= 1 && Separated(count, log)
    requires 0 <= i < |log| && log[i].Arrived? && LeavesBetween(log, log[i].t, i, |log|)
    ensures Multiple(count, RoundAt(count, log, i) + 1) <= Arrivals(log)
  {
    var k := FirstLeave(log, log[i].t, i, |log|);
    ArrivalsMonotone(log, k);
  }

  lemma SeparatedArrive(count: int, log: seq<Event>, round: nat, inside: set<Tid>, t: Tid)
    requires count >= 1 && LogInv(count, log, round, inside) && t !in inside
    requires RoundOf(count, Arrivals(log)) == round && Arrivals(log) < Multiple(count, round + 1)
    ensures Separated(count, log + [Arrived(t)])
  {
    var e := Arrived(t);
    forall i | 0 <= i < |log| && log[i] == e ensures RoundAt(count, log, i) != round {
      GoneMeansFull(count, log, i);
    }
    NoEarlyReturnSnoc(count, log, e);
    NoEarlyEntrySnoc(count, log, e);
    DistinctSnoc(count, log, e);
  }

  lemma LogArrive(count: int, log: seq<Event>, round: nat, inside: set<Tid>, t: Tid)
    requires count >= 1 && LogInv(count, log, round, inside) && t !in inside
    requires Multiple(count, round) <= Arrivals(log) < Multiple(count, round + 1)
    ensures LogInv(count, log + [Arrived(t)], round, inside + {t})
  {
    RoundOfPlace(count, round, Arrivals(log) - Multiple(count, round));
    SeparatedArrive(count, log, round, inside, t);
    Snoc(log, Arrived(t));
    StillInside(count, log, round, inside, Arrived(t));
  }

  lemma SeparatedLeave(count: int, log: seq<Event>, round: nat, inside: set<Tid>, t: Tid)
    requires count >= 1 && LogInv(count, log, round, inside) && t in inside
    requires Arrivals(log) == Multiple(count, round + 1)
    ensures Separated(count, log + [Left(t)])
  {
    NoEarlyReturnSnoc(count, log, Left(t));
    NoEarlyEntrySnoc(count, log, Left(t));
    DistinctSnoc(count, log, Left(t));
  }

  lemma LogLeave(count: int, log: seq<Event>, round: nat, inside: set<Tid>, t: Tid)
    requires count >= 1 && LogInv(count, log, round, inside) && t in inside
    requires Arrivals(log) == Multiple(count, round + 1)
    ensures LogInv(count, log + [Left(t)], round, inside - {t})
  {
    SeparatedLeave(count, log, round, inside, t);
    Snoc(log, Left(t));
    StillInside(count, log, round, inside, Left(t));
  }

  /** After any event, an arrival without a departure still belongs to a thread inside. */
  lemma StillInside(count: int, log: seq<Event>, round: nat, inside: set<Tid>, e: Event)
    requires count >= 1 && LogInv(count, log, round, inside)
    requires e.Arrived? ==> RoundOf(count, Arrivals(log)) == round
    ensures
      var m := log + [e];
      var after := if e.Arrived? then inside + {e.t} else inside - {e.t};
      forall i :: 0 <= i < |m| && m[i].Arrived? ==>
        LeavesBetween(m, m[i].t, i, |m|) || (m[i].t in after && RoundAt(count, m, i) == round)
  {
    var m := log + [e];
    RoundAtStable(count, log, e);
    forall i | 0 <= i < |log| && m[i].Arrived?
      ensures LeavesBetween(m, m[i].t, i, |m|)
              || (m[i].t in (if e.Arrived? then inside + {e.t} else inside - {e.t}) && RoundAt(count, m, i) == round)
    {
      assert log[i] == m[i];
      BetweenStable(log, e, log[i].t, i, |log|);
      if e == Left(m[i].t) { assert m[|log|] == Left(m[i].t); }
    }
  }

  /** With nobody inside, the current round number is free to advance. */
  lemma LogNextRound(count: int, log: seq<Event>, round: nat)
    requires count >= 1 && LogInv(count, log, round, {})
    ensures LogInv(count, log, round + 1, {})
  {
  }

  // ----- Finite sets of threads -----

  lemma Pick<T>(some: set<T>) returns (t: T)
    requires some != {}
    ensures t in some
  {
    t :| t in some;
  }

  lemma SubsetSize(a: set<Tid>, b: set<Tid>)
    requires a <= b
    ensures |a| <= |b|
    ensures |a| == |b| ==> a == b
  {
    assert a + (b - a) == b;
    if |a| == |b| {
      assert b - a == {};
    }
  }

  lemma PickOutside(all: set<Tid>, some: set<Tid>) returns (t: Tid)
    requires |some| < |all|
    ensures t in all && t !in some
  {
    if forall t :: t in all ==> t in some { SubsetSize(all, some); }
    t :| t in all && t !in some;
  }
}
