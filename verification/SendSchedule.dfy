/** The machine of `Sampler` and the loops of `SendLoop` are the same driver: one sender's schedule, with its
    echo edges at given moments, ends on the machine as `send` ends. */
module SendSchedule {
  import opened SampleRing
  import opened Sampler
  import opened SendLoop

  // ----- Schedules from any state -----

  /** Every action is enabled in its turn, and the last one ends in s'. */
  ghost predicate Leads(s: State, acts: seq<Action>, s': State) {
    if acts == [] then s' == s
    else
      var before, a := acts[..|acts| - 1], acts[|acts| - 1];
      exists m :: Leads(s, before, m) && Step(m, a, s')
  }

  ghost predicate Step(s: State, a: Action, s': State) {
    WellFormed(s.ring) && Enabled(s, a) && s' == Do(s, a)
  }

  lemma OneMore(s: State, acts: seq<Action>, m: State, a: Action)
    requires Leads(s, acts, m) && WellFormed(m.ring) && Enabled(m, a)
    ensures Leads(s, acts + [a], Do(m, a))
  {
    assert (acts + [a])[..|acts|] == acts;
    assert Step(m, a, Do(m, a));
  }

  lemma JustOne(s: State, a: Action)
    requires WellFormed(s.ring) && Enabled(s, a)
    ensures Leads(s, [a], Do(s, a))
  {
    OneMore(s, [], s, a);
    assert [] + [a] == [a];
  }

  lemma {:induction false} Concat(s: State, xs: seq<Action>, m: State, ys: seq<Action>, s': State)
    requires Leads(s, xs, m) && Leads(m, ys, s')
    ensures Leads(s, xs + ys, s')
  {
    if ys == [] {
      assert xs + ys == xs;
    } else {
      var n :| Leads(m, ys[..|ys| - 1], n) && Step(n, ys[|ys| - 1], s');
      Concat(s, xs, m, ys[..|ys| - 1], n);
      OneMore(s, xs + ys[..|ys| - 1], n, ys[|ys| - 1]);
      assert xs + ys == xs + ys[..|ys| - 1] + [ys[|ys| - 1]];
    }
  }

  // ----- The schedule of one call -----

  function EdgeIf(there: bool, now: int): seq<Action> {
    if there then [Edge(now)] else []
  }

  function EarlyEdge(early: Early): seq<Action> {
    if early.EdgeAt? then [Edge(early.now)] else []
  }

  /** The first k tests of the polling loop, each after the edge that comes before it, if any. */
  function Polls(t: Tid, e: Edges, clock: nat -> int, k: nat): seq<Action> {
    if k == 0 then [] else Polls(t, e, clock, k - 1) + EdgeIf(e(k - 1), clock(k - 1)) + [Poll(t)]
  }

  /** One pulse with k tests. */
  function PulseActs(t: Tid, start: int, early: Early, e: Edges, clock: nat -> int, k: nat): seq<Action> {
    EarlyEdge(early) + [Pulse(t, start)] + Polls(t, e, clock, k)
  }

  /** What follows a pulse that has heard nothing: a late edge, the timeout, and the next pulse if there is one. */
  function LateActs(t: Tid, retryCnt: int, early: Early, late: bool, start: int, e: Edges, clock: nat -> int): seq<Action> {
    EdgeIf(late, clock(POLL_LIMIT + 1)) + [Timeout(t)]
    + (if retryCnt > 0 then PulseActs(t, start, early, e, clock, 1) else [])
  }

  /** The number of tests of the first pulse: up to the one that finds the measurement ended, or all of them. */
  ghost predicate Tests(early: Early, e: Edges, k: nat) {
    if early.EdgeAt? then k == 1
    else if Polled(e) then k > 0 && FirstEdge(e, k - 1)
    else k == POLL_LIMIT + 1
  }

  /** The whole call. */
  ghost function SendActs(
    t: Tid, retryCnt: int, early: nat -> Early, edges: nat -> Edges, starts: nat -> int, clock: nat -> int, k: nat)
    : seq<Action>
  {
    [Send(t, retryCnt)] + PulseActs(t, starts(0), early(0), edges(0), clock, k)
    + (if Heard(early(0), edges(0)) then []
       else LateActs(t, retryCnt, early(1), edges(0)(POLL_LIMIT + 1), starts(1), edges(1), clock))
  }

  function Pulses(acts: seq<Action>): nat {
    if acts == [] then 0 else Pulses(acts[..|acts| - 1]) + (if acts[|acts| - 1].Pulse? then 1 else 0)
  }

  // ----- Its phases -----

  /** The sender t is about to pulse. */
  ghost predicate AboutToPulse(s: State, t: Tid, left: int) {
    WellFormed(s.ring) && t in s.senders && s.senders[t] == Pulsing(left)
  }

  /** Up to the stamp of the start: an early edge is measured from the pulse before, if a measurement is on. */
  lemma StartPulse(s: State, t: Tid, left: int, start: int, early: Early) returns (s': State)
    requires AboutToPulse(s, t, left)
    ensures Leads(s, EarlyEdge(early) + [Pulse(t, start)], s') && WellFormed(s'.ring)
    ensures s'.senders == s.senders[t := Polling(left, 0)] && s'.kstart == start && s'.readers == s.readers
    ensures if s.ongoing && early.EdgeAt? then !s'.ongoing && s'.ring == Push(s.ring, Distance(s.kstart, early.now))
            else s'.ongoing == s.ongoing && s'.ring == s.ring
  {
    var m := if early.EdgeAt? then Do(s, Edge(early.now)) else s;
    if early.EdgeAt? { JustOne(s, Edge(early.now)); }
    OneMore(s, EarlyEdge(early), m, Pulse(t, start));
    s' := Do(m, Pulse(t, start));
  }

  /** A sender at its k-th test. */
  function AtTest(s: State, t: Tid, left: int, k: nat): State {
    s.(senders := s.senders[t := if k <= POLL_LIMIT then Polling(left, k) else TimedOut(left)])
  }

  /** Tests that find the measurement still open. */
  lemma {:induction false} PollOn(s: State, t: Tid, left: int, e: Edges, clock: nat -> int, k: nat)
    requires WellFormed(s.ring) && s.ongoing && t in s.senders && s.senders[t] == Polling(left, 0)
    requires k <= POLL_LIMIT + 1 && forall j: nat :: j < k ==> !e(j)
    ensures Leads(s, Polls(t, e, clock, k), AtTest(s, t, left, k))
  {
    if k == 0 {
      assert s.senders[t := Polling(left, 0)] == s.senders;
    } else {
      PollOn(s, t, left, e, clock, k - 1);
      NoEdgeThen(t, e, clock, k);
      PollOnce(s, t, left, Polls(t, e, clock, k - 1), k - 1);
    }
  }

  lemma PollOnce(s: State, t: Tid, left: int, acts: seq<Action>, k: nat)
    requires WellFormed(s.ring) && s.ongoing && k <= POLL_LIMIT && Leads(s, acts, AtTest(s, t, left, k))
    ensures Leads(s, acts + [Poll(t)], AtTest(s, t, left, k + 1))
  {
    TestAgain(s, t, left, k);
    OneMore(s, acts, AtTest(s, t, left, k), Poll(t));
  }

  lemma NoEdgeThen(t: Tid, e: Edges, clock: nat -> int, k: nat)
    requires k > 0 && !e(k - 1)
    ensures Polls(t, e, clock, k) == Polls(t, e, clock, k - 1) + [Poll(t)]
  {
    assert Polls(t, e, clock, k - 1) + [] == Polls(t, e, clock, k - 1);
  }

  lemma TestAgain(s: State, t: Tid, left: int, k: nat)
    requires WellFormed(s.ring) && s.ongoing && k <= POLL_LIMIT
    ensures Enabled(AtTest(s, t, left, k), Poll(t)) && AtTest(s, t, left, k).ring == s.ring
    ensures Do(AtTest(s, t, left, k), Poll(t)) == AtTest(s, t, left, k + 1)
  {
    assert s.senders[t := Polling(left, k)][t := if k + 1 <= POLL_LIMIT then Polling(left, k + 1) else TimedOut(left)]
        == AtTest(s, t, left, k + 1).senders;
  }

  /** The test after the first edge. */
  lemma PollHeard(s: State, t: Tid, left: int, e: Edges, clock: nat -> int, k: nat) returns (s': State)
    requires WellFormed(s.ring) && s.ongoing && t in s.senders && s.senders[t] == Polling(left, 0) && FirstEdge(e, k)
    ensures Leads(s, Polls(t, e, clock, k + 1), s')
    ensures !s'.ongoing && s'.senders == s.senders - {t} && s'.kstart == s.kstart && s'.readers == s.readers
    ensures s'.ring == Push(s.ring, Distance(s.kstart, clock(k)))
  {
    PollOn(s, t, left, e, clock, k);
    var acts, at := Polls(t, e, clock, k), AtTest(s, t, left, k);
    OneMore(s, acts, at, Edge(clock(k)));
    var m := Do(at, Edge(clock(k)));
    OneMore(s, acts + [Edge(clock(k))], m, Poll(t));
    s' := Do(m, Poll(t));
    assert at.senders - {t} == s.senders - {t};
  }

  /** The first test when no measurement is on: the pulse ends at once. */
  lemma PollIdle(s: State, t: Tid, e: Edges, clock: nat -> int)
    requires WellFormed(s.ring) && !s.ongoing && t in s.senders && s.senders[t].Polling?
    ensures Leads(s, Polls(t, e, clock, 1), s.(senders := s.senders - {t}))
  {
    assert Polls(t, e, clock, 0) == [];
    assert Polls(t, e, clock, 1) == EdgeIf(e(0), clock(0)) + [Poll(t)];
    if e(0) { JustOne(s, Edge(clock(0))); }
    OneMore(s, EdgeIf(e(0), clock(0)), s, Poll(t));
  }

  /** A whole pulse with no measurement on. */
  lemma IdlePulse(s: State, t: Tid, left: int, start: int, early: Early, e: Edges, clock: nat -> int) returns (s': State)
    requires AboutToPulse(s, t, left) && !s.ongoing
    ensures Leads(s, PulseActs(t, start, early, e, clock, 1), s')
    ensures !s'.ongoing && s'.ring == s.ring && s'.senders == s.senders - {t} && s'.kstart == start
    ensures s'.readers == s.readers
  {
    var m := StartPulse(s, t, left, start, early);
    PollIdle(m, t, e, clock);
    s' := m.(senders := m.senders - {t});
    Concat(s, EarlyEdge(early) + [Pulse(t, start)], m, Polls(t, e, clock, 1), s');
    assert m.senders - {t} == s.senders - {t};
  }

  /** How the first pulse of a call leaves the sensor. */
  ghost predicate PulseEnds(
    s: State, t: Tid, left: int, start: int, early: Early, e: Edges, clock: nat -> int, k: nat, s': State)
    requires WellFormed(s.ring)
  {
    && s'.kstart == start && s'.readers == s.readers
    && (if Heard(early, e) then
          && !s'.ongoing && s'.senders == s.senders - {t}
          && (early.EdgeAt? ==> s'.ring == Push(s.ring, Distance(s.kstart, early.now)))
          && (early.NoEdge? ==> k > 0 && FirstEdge(e, k - 1) && s'.ring == Push(s.ring, Distance(start, clock(k - 1))))
        else s'.ongoing && s'.ring == s.ring && s'.senders == s.senders[t := TimedOut(left)])
  }

  lemma FirstPulse(s: State, t: Tid, left: int, start: int, early: Early, e: Edges, clock: nat -> int, k: nat)
    returns (s': State)
    requires AboutToPulse(s, t, left) && s.ongoing && Tests(early, e, k)
    ensures Leads(s, PulseActs(t, start, early, e, clock, k), s') && PulseEnds(s, t, left, start, early, e, clock, k, s')
  {
    var m := StartPulse(s, t, left, start, early);
    if early.EdgeAt? {
      PollIdle(m, t, e, clock);
      s' := m.(senders := m.senders - {t});
      assert m.senders - {t} == s.senders - {t};
    } else if Polled(e) {
      s' := PollHeard(m, t, left, e, clock, k - 1);
      assert m.senders - {t} == s.senders - {t};
    } else {
      PollOn(m, t, left, e, clock, k);
      s' := AtTest(m, t, left, k);
      assert m.senders[t := TimedOut(left)] == s.senders[t := TimedOut(left)];
    }
    Concat(s, EarlyEdge(early) + [Pulse(t, start)], m, Polls(t, e, clock, k), s');
  }

  /** A late edge, and the timeout. */
  lemma TimeUp(s: State, t: Tid, retryCnt: int, late: bool, now: int) returns (s': State)
    requires WellFormed(s.ring) && s.ongoing && t in s.senders && s.senders[t] == TimedOut(retryCnt)
    ensures Leads(s, EdgeIf(late, now) + [Timeout(t)], s') && WellFormed(s'.ring)
    ensures !s'.ongoing && s'.kstart == s.kstart && s'.readers == s.readers
    ensures s'.senders == if retryCnt > 0 then s.senders[t := Pulsing(retryCnt - 1)] else s.senders - {t}
    ensures s'.ring == if late then Push(s.ring, Distance(s.kstart, now)) else s.ring
  {
    var m := if late then Do(s, Edge(now)) else s;
    if late { JustOne(s, Edge(now)); }
    OneMore(s, EdgeIf(late, now), m, Timeout(t));
    s' := Do(m, Timeout(t));
  }

  /** After a pulse that heard nothing. */
  lemma LatePart(s: State, t: Tid, retryCnt: int, early: Early, late: bool, start: int, e: Edges, clock: nat -> int)
    returns (s': State)
    requires WellFormed(s.ring) && s.ongoing && t in s.senders && s.senders[t] == TimedOut(retryCnt)
    ensures Leads(s, LateActs(t, retryCnt, early, late, start, e, clock), s')
    ensures !s'.ongoing && s'.senders == s.senders - {t} && s'.readers == s.readers
    ensures s'.kstart == if retryCnt > 0 then start else s.kstart
    ensures s'.ring == if late then Push(s.ring, Distance(s.kstart, clock(POLL_LIMIT + 1))) else s.ring
  {
    var m := TimeUp(s, t, retryCnt, late, clock(POLL_LIMIT + 1));
    var head := EdgeIf(late, clock(POLL_LIMIT + 1)) + [Timeout(t)];
    s' := m;
    if retryCnt > 0 {
      s' := IdlePulse(m, t, retryCnt - 1, start, early, e, clock);
      Concat(s, head, m, PulseActs(t, start, early, e, clock, 1), s');
      assert m.senders - {t} == s.senders - {t};
    } else {
      assert head + [] == head;
    }
  }

  // ----- The whole call -----

  lemma {:induction false} PulsesConcat(xs: seq<Action>, ys: seq<Action>)
    ensures Pulses(xs + ys) == Pulses(xs) + Pulses(ys)
  {
    if ys == [] {
      assert xs + ys == xs;
    } else {
      assert (xs + ys)[..|xs + ys| - 1] == xs + ys[..|ys| - 1];
      PulsesConcat(xs, ys[..|ys| - 1]);
    }
  }

  lemma PulsesOne(a: Action)
    ensures Pulses([a]) == if a.Pulse? then 1 else 0
  {
    assert [a][..0] == [];
  }

  lemma {:induction false} NoPulseInPolls(t: Tid, e: Edges, clock: nat -> int, k: nat)
    ensures Pulses(Polls(t, e, clock, k)) == 0
  {
    if k > 0 {
      NoPulseInPolls(t, e, clock, k - 1);
      PulsesConcat(Polls(t, e, clock, k - 1), EdgeIf(e(k - 1), clock(k - 1)));
      PulsesConcat(Polls(t, e, clock, k - 1) + EdgeIf(e(k - 1), clock(k - 1)), [Poll(t)]);
      PulsesOne(Edge(clock(k - 1)));
      PulsesOne(Poll(t));
    }
  }

  lemma OnePulse(t: Tid, start: int, early: Early, e: Edges, clock: nat -> int, k: nat)
    ensures Pulses(PulseActs(t, start, early, e, clock, k)) == 1
  {
    NoPulseInPolls(t, e, clock, k);
    PulsesConcat(EarlyEdge(early), [Pulse(t, start)]);
    PulsesConcat(EarlyEdge(early) + [Pulse(t, start)], Polls(t, e, clock, k));
    if early.EdgeAt? { PulsesOne(Edge(early.now)); }
    PulsesOne(Pulse(t, start));
  }

  lemma LatePulses(t: Tid, retryCnt: int, early: Early, late: bool, start: int, e: Edges, clock: nat -> int)
    ensures Pulses(LateActs(t, retryCnt, early, late, start, e, clock)) == if retryCnt > 0 then 1 else 0
  {
    var edge := EdgeIf(late, clock(POLL_LIMIT + 1));
    PulsesConcat(edge, [Timeout(t)]);
    PulsesOne(Edge(clock(POLL_LIMIT + 1)));
    PulsesOne(Timeout(t));
    PulsesConcat(edge + [Timeout(t)], if retryCnt > 0 then PulseActs(t, start, early, e, clock, 1) else []);
    OnePulse(t, start, early, e, clock, 1);
  }

  /** Some test is the last one of the first pulse, whatever the timing. */
  lemma SomeTest(early: Early, e: Edges) returns (k: nat)
    ensures Tests(early, e, k)
  {
    if early.EdgeAt? {
      k := 1;
    } else if Polled(e) {
      var j: nat :| j <= POLL_LIMIT && e(j);
      j := First(e, j);
      k := j + 1;
    } else {
      k := POLL_LIMIT + 1;
    }
  }

  lemma First(e: Edges, j: nat) returns (k: nat)
    requires j <= POLL_LIMIT && e(j)
    ensures FirstEdge(e, k)
    decreases j
  {
    k := j;
    if i: nat :| i < j && e(i) {
      k := First(e, i);
    }
  }

  lemma ArmAndPulse(s: State, t: Tid, retryCnt: int, start: int, early: Early, e: Edges, clock: nat -> int, k: nat)
    returns (s': State)
    requires WellFormed(s.ring) && !s.ongoing && t !in s.senders && t !in s.readers && Tests(early, e, k)
    ensures Leads(s, [Send(t, retryCnt)] + PulseActs(t, start, early, e, clock, k), s')
    ensures
      var armed := s.(ongoing := true, senders := s.senders[t := Pulsing(retryCnt)]);
      PulseEnds(armed, t, retryCnt, start, early, e, clock, k, s')
  {
    JustOne(s, Send(t, retryCnt));
    var armed := Do(s, Send(t, retryCnt));
    s' := FirstPulse(armed, t, retryCnt, start, early, e, clock, k);
    Concat(s, [Send(t, retryCnt)], armed, PulseActs(t, start, early, e, clock, k), s');
  }

  /** The pulses of the whole call. */
  lemma SendPulses(
    t: Tid, retryCnt: int, early: nat -> Early, edges: nat -> Edges, starts: nat -> int, clock: nat -> int, k: nat)
    ensures Pulses(SendActs(t, retryCnt, early, edges, starts, clock, k)) ==
            if Heard(early(0), edges(0)) || retryCnt <= 0 then 1 else 2
  {
    var first := PulseActs(t, starts(0), early(0), edges(0), clock, k);
    OnePulse(t, starts(0), early(0), edges(0), clock, k);
    PulsesOne(Send(t, retryCnt));
    PulsesConcat([Send(t, retryCnt)], first);
    var late := LateActs(t, retryCnt, early(1), edges(0)(POLL_LIMIT + 1), starts(1), edges(1), clock);
    LatePulses(t, retryCnt, early(1), edges(0)(POLL_LIMIT + 1), starts(1), edges(1), clock);
    PulsesConcat([Send(t, retryCnt)] + first, if Heard(early(0), edges(0)) then [] else late);
  }

  lemma HeardCall(
    s: State, t: Tid, retryCnt: int,
    early: nat -> Early, edges: nat -> Edges, starts: nat -> int, clock: nat -> int, k: nat) returns (s': State)
    requires WellFormed(s.ring) && !s.ongoing && t !in s.senders && t !in s.readers && Tests(early(0), edges(0), k)
    requires Heard(early(0), edges(0))
    ensures Leads(s, SendActs(t, retryCnt, early, edges, starts, clock, k), s')
    ensures !s'.ongoing && s'.senders == s.senders && s'.readers == s.readers && s'.kstart == starts(0)
    ensures SendEnds(s.ring, s.kstart, retryCnt, early(0), edges(0), starts(0), clock, s'.ring, 1)
  {
    var head := [Send(t, retryCnt)] + PulseActs(t, starts(0), early(0), edges(0), clock, k);
    s' := ArmAndPulse(s, t, retryCnt, starts(0), early(0), edges(0), clock, k);
    assert head + [] == head;
    assert s.senders[t := Pulsing(retryCnt)] - {t} == s.senders;
  }

  lemma UnheardCall(
    s: State, t: Tid, retryCnt: int,
    early: nat -> Early, edges: nat -> Edges, starts: nat -> int, clock: nat -> int, k: nat) returns (s': State)
    requires WellFormed(s.ring) && !s.ongoing && t !in s.senders && t !in s.readers && Tests(early(0), edges(0), k)
    requires !Heard(early(0), edges(0))
    ensures Leads(s, SendActs(t, retryCnt, early, edges, starts, clock, k), s')
    ensures !s'.ongoing && s'.senders == s.senders && s'.readers == s.readers
    ensures s'.kstart == if retryCnt > 0 then starts(1) else starts(0)
    ensures s'.ring == if edges(0)(POLL_LIMIT + 1) then Push(s.ring, Distance(starts(0), clock(POLL_LIMIT + 1))) else s.ring
  {
    var head := [Send(t, retryCnt)] + PulseActs(t, starts(0), early(0), edges(0), clock, k);
    var m := UnheardPulse(s, t, retryCnt, starts(0), early(0), edges(0), clock, k);
    s' := LatePart(m, t, retryCnt, early(1), edges(0)(POLL_LIMIT + 1), starts(1), edges(1), clock);
    Concat(s, head, m, LateActs(t, retryCnt, early(1), edges(0)(POLL_LIMIT + 1), starts(1), edges(1), clock), s');
  }

  lemma UnheardPulse(s: State, t: Tid, retryCnt: int, start: int, early: Early, e: Edges, clock: nat -> int, k: nat)
    returns (m: State)
    requires WellFormed(s.ring) && !s.ongoing && t !in s.senders && t !in s.readers && Tests(early, e, k)
    requires !Heard(early, e)
    ensures Leads(s, [Send(t, retryCnt)] + PulseActs(t, start, early, e, clock, k), m)
    ensures m.ongoing && m.ring == s.ring && m.kstart == start && m.readers == s.readers
    ensures t in m.senders && m.senders[t] == TimedOut(retryCnt) && m.senders - {t} == s.senders
  {
    m := ArmAndPulse(s, t, retryCnt, start, early, e, clock, k);
    assert s.senders[t := Pulsing(retryCnt)][t := TimedOut(retryCnt)] - {t} == s.senders;
  }

  /** From any state in which no measurement is on, and for any timing of the echo: the schedule of one call is
      possible on the machine and ends as the loops of `send` do, with the same pulses and the same ring, no
      measurement open, and every other sender and reader where it was. */
  lemma MachineSends(
    s: State, t: Tid, retryCnt: int,
    early: nat -> Early, edges: nat -> Edges, starts: nat -> int, clock: nat -> int, k: nat) returns (s': State)
    requires WellFormed(s.ring) && !s.ongoing && t !in s.senders && t !in s.readers && Tests(early(0), edges(0), k)
    ensures
      var acts := SendActs(t, retryCnt, early, edges, starts, clock, k);
      && Leads(s, acts, s') && Pulses(acts) >= 1
      && !s'.ongoing && s'.senders == s.senders && s'.readers == s.readers
      && s'.kstart == starts(Pulses(acts) - 1)
      && SendEnds(s.ring, s.kstart, retryCnt, early(0), edges(0), starts(0), clock, s'.ring, Pulses(acts))
  {
    SendPulses(t, retryCnt, early, edges, starts, clock, k);
    if Heard(early(0), edges(0)) {
      s' := HeardCall(s, t, retryCnt, early, edges, starts, clock, k);
    } else {
      s' := UnheardCall(s, t, retryCnt, early, edges, starts, clock, k);
    }
  }
}
