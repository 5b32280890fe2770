/** What each step of the sensor does, told from the history alone: the log of events and the schedule so far,
    not the driver's fields. */
module SamplerSteps {
  import opened SampleRing
  import opened Sampler

  /** A measurement has begun and not ended. */
  predicate Measuring(log: seq<Event>) {
    Open(log) > 0
  }

  /** A sample has come since the last clear. */
  ghost predicate HasSample(log: seq<Event>) {
    Available(log, |log|)
  }

  /** The latest such sample, or what lies outside the buffer. */
  function Latest(log: seq<Event>): Copied {
    LatestIn(SinceClear(log))
  }

  /** Neither senders nor readers have moved. */
  predicate NobodyMoves(s: State, s': State) {
    s'.senders == s.senders && s'.readers == s.readers
  }

  ghost predicate SenderStep(s: State, a: Action, s': State) {
    match a
    case Send(t, retries) =>
      && s'.readers == (if t in s.readers then s.readers[t := Spinning(false)] else s.readers)
      && (if Measuring(s.log) then s'.log == s.log && s'.senders == s.senders
          else s'.log == s.log + [Armed] && s'.senders == s.senders[t := Pulsing(retries)])
    case Pulse(t, _) =>
      && s'.log == s.log && s'.readers == s.readers
      && t in s'.senders && s'.senders[t].Polling? && s'.senders - {t} == s.senders - {t}
    case Poll(t) =>
      && s'.log == s.log && s'.readers == s.readers && s'.senders - {t} == s.senders - {t}
      && (t in s'.senders <==> Measuring(s.log))
    case Timeout(t) =>
      && s'.log == (if Measuring(s.log) then s.log + [Cancelled] else s.log)
      && s'.readers == s.readers && s'.senders - {t} == s.senders - {t}
    case _ => true
  }

  ghost predicate ReaderStep(s: State, a: Action, s': State) {
    match a
    case Read(t) =>
      && s'.senders == s.senders
      && (if HasSample(s.log) then s'.log == s.log + [Got(t, Latest(s.log))] && s'.readers == s.readers
          else s'.log == s.log && s'.readers == s.readers[t := Blocked])
    case Check(t) =>
      && s'.senders == s.senders
      && (if HasSample(s.log) then s'.log == s.log + [Passed(t)] && s'.readers == s.readers[t := Copying]
          else s' == s)
    case ReadOnce(t) =>
      && s'.senders == s.senders && s'.log == s.log
      && s'.readers == s.readers[t := if Measuring(s.log) then Spinning(false) else Sending]
    case Spin(t) =>
      && s'.senders == s.senders && s'.log == s.log && t in s.readers && s.readers[t].Spinning?
      && s'.readers == s.readers[t := if Measuring(s.log) then Spinning(true)
                                      else if s.readers[t].inLoop then Spinning(false)
                                      else Copying]
    case CopyOut(t) =>
      && s'.senders == s.senders && s'.readers == s.readers - {t}
      && s'.log == s.log + [Got(t, Latest(s.log))] && (Latest(s.log).Sample? <==> HasSample(s.log))
    case _ => true
  }

  ghost predicate OutsideStep(s: State, a: Action, lastPulse: int, s': State) {
    match a
    case Edge(now) =>
      && NobodyMoves(s, s')
      && (if Measuring(s.log) then
            exists d :: Measures(now - lastPulse, d) && s'.log == s.log + [Sampled(d)] && Latest(s'.log) == Sample(d)
          else s' == s)
    case Stop => NobodyMoves(s, s') && s'.log == (if Measuring(s.log) then s.log + [Cancelled] else s.log)
    case Clear => NobodyMoves(s, s') && s'.log == s.log + [Cleared] && !HasSample(s'.log)
    case _ => true
  }

  /** What the fields are for: they say what the log says. */
  lemma FieldsTell(states: seq<State>, acts: seq<Action>, i: int)
    requires Run(states, acts) && 0 <= i <= |acts|
    ensures
      var s := states[i];
      && WellFormed(s.ring) && (s.ongoing <==> Measuring(s.log)) && (s.ring.newest != -1 <==> HasSample(s.log))
      && Copy(s.ring) == Latest(s.log) && (Latest(s.log).Sample? <==> HasSample(s.log))
      && s.kstart == LastPulse(acts[..i])
  {
    RunKeepsInv(states, acts, i);
    StartIsLastPulse(states, acts, i);
    var log := states[i].log;
    SinceClearIff(log, |log|);
    assert log[..|log|] == log;
    CopyIsLatest(states[i].ring, SinceClear(log));
  }

  lemma ClearedHasNone(log: seq<Event>)
    ensures !HasSample(log + [Cleared])
  {
    var m := log + [Cleared];
    SinceClearIff(m, |m|);
    assert m[..|m|] == m;
  }

  lemma LatestSnoc(log: seq<Event>, d: int)
    ensures Latest(log + [Sampled(d)]) == Sample(d)
  {
    assert (log + [Sampled(d)])[..|log|] == log;
  }

  lemma SenderStepIs(s: State, a: Action)
    requires WellFormed(s.ring) && Enabled(s, a) && (s.ongoing <==> Measuring(s.log))
    ensures SenderStep(s, a, Do(s, a))
  {
  }

  lemma ReaderStepIs(s: State, a: Action)
    requires WellFormed(s.ring) && Enabled(s, a) && (s.ongoing <==> Measuring(s.log))
    requires (s.ring.newest != -1 <==> HasSample(s.log)) && Copy(s.ring) == Latest(s.log)
    requires Latest(s.log).Sample? <==> HasSample(s.log)
    ensures ReaderStep(s, a, Do(s, a))
  {
  }

  lemma OutsideStepIs(s: State, a: Action)
    requires WellFormed(s.ring) && Enabled(s, a) && (s.ongoing <==> Measuring(s.log))
    ensures OutsideStep(s, a, s.kstart, Do(s, a))
  {
    ClearedHasNone(s.log);
    if a.Edge? && s.ongoing {
      var d := Distance(s.kstart, a.now);
      LatestSnoc(s.log, d);
      assert Measures(a.now - s.kstart, d) && Do(s, a).log == s.log + [Sampled(d)];
    }
  }

  /** Over every run, every step does what the history calls for: a read of a ring with a sample returns the
      latest at once and otherwise blocks, a copy always copies, an edge during a measurement records the time
      since the last pulse, a clear clears, a send arms exactly when no measurement is open. */
  lemma EveryStepFollowsHistory(states: seq<State>, acts: seq<Action>, i: int)
    requires Run(states, acts) && 0 <= i < |acts|
    ensures SenderStep(states[i], acts[i], states[i + 1])
    ensures ReaderStep(states[i], acts[i], states[i + 1])
    ensures OutsideStep(states[i], acts[i], LastPulse(acts[..i]), states[i + 1])
  {
    FieldsTell(states, acts, i);
    SenderStepIs(states[i], acts[i]);
    ReaderStepIs(states[i], acts[i]);
    OutsideStepIs(states[i], acts[i]);
  }

  // ----- Polls and retries, counted on the schedule -----

  /** A sender's polls since its last pulse. */
  function PollsSince(acts: seq<Action>, t: Tid): nat {
    if acts == [] then 0
    else
      var before, a := acts[..|acts| - 1], acts[|acts| - 1];
      if a.Pulse? && a.t == t then 0 else PollsSince(before, t) + (if a == Poll(t) then 1 else 0)
  }

  /** A sender's timeouts since it called `send`. */
  function TimeoutsSince(acts: seq<Action>, t: Tid): nat {
    if acts == [] then 0
    else
      var before, a := acts[..|acts| - 1], acts[|acts| - 1];
      if a.Send? && a.t == t then 0 else TimeoutsSince(before, t) + (if a == Timeout(t) then 1 else 0)
  }

  /** The retries its last call of `send` allowed. */
  function RetriesGiven(acts: seq<Action>, t: Tid): int {
    if acts == [] then 0
    else
      var a := acts[|acts| - 1];
      if a.Send? && a.t == t then a.retries else RetriesGiven(acts[..|acts| - 1], t)
  }

  /** A sender's own counters agree with the schedule. */
  ghost predicate Counted(s: State, acts: seq<Action>, t: Tid) {
    t in s.senders ==>
      && s.senders[t].left == RetriesGiven(acts, t) - TimeoutsSince(acts, t)
      && (s.senders[t].Polling? ==> s.senders[t].counter == PollsSince(acts, t) <= POLL_LIMIT)
      && (s.senders[t].TimedOut? ==> PollsSince(acts, t) == POLL_LIMIT + 1)
  }

  lemma CountedStep(s: State, before: seq<Action>, a: Action, t: Tid)
    requires WellFormed(s.ring) && Enabled(s, a) && Counted(s, before, t)
    ensures Counted(Do(s, a), before + [a], t)
  {
    assert (before + [a])[..|before|] == before;
  }

  lemma {:induction false} RunCounted(states: seq<State>, acts: seq<Action>, t: Tid, i: int)
    requires Run(states, acts) && 0 <= i <= |acts|
    ensures Counted(states[i], acts[..i], t)
  {
    if i > 0 {
      RunCounted(states, acts, t, i - 1);
      CountedStep(states[i - 1], acts[..i - 1], acts[i - 1], t);
      assert acts[..i - 1] + [acts[i - 1]] == acts[..i];
    }
  }

  /** Over every run: a poll that finds no measurement ends the call; one that finds it still open ends the
      pulse exactly when it is the 50001st since the pulse began. */
  lemma TimesOutIff(states: seq<State>, acts: seq<Action>, t: Tid, i: int)
    requires Run(states, acts) && 0 <= i < |acts| && acts[i] == Poll(t)
    ensures
      var s' := states[i + 1];
      && (t in s'.senders <==> Measuring(states[i].log))
      && (t in s'.senders ==> (s'.senders[t].TimedOut? <==> PollsSince(acts[..i + 1], t) == POLL_LIMIT + 1))
      && (t in s'.senders && !s'.senders[t].TimedOut? ==> s'.senders[t].Polling?)
  {
    FieldsTell(states, acts, i);
    RunCounted(states, acts, t, i);
    RunCounted(states, acts, t, i + 1);
    assert acts[..i + 1] == acts[..i] + [acts[i]];
  }

  /** Over every run: after a timeout the sender pulses again exactly when it has had no more timeouts than
      retries, and is through with the call otherwise; no measurement is open either way. */
  lemma PulsesAgainIff(states: seq<State>, acts: seq<Action>, t: Tid, i: int)
    requires Run(states, acts) && 0 <= i < |acts| && acts[i] == Timeout(t)
    ensures
      var s' := states[i + 1];
      && (t in s'.senders <==> TimeoutsSince(acts[..i + 1], t) <= RetriesGiven(acts[..i + 1], t))
      && (t in s'.senders ==> s'.senders[t].Pulsing?) && !Measuring(s'.log)
  {
    RunCounted(states, acts, t, i);
    FieldsTell(states, acts, i + 1);
    assert acts[..i + 1][..i] == acts[..i];
  }
}
