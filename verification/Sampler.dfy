/** The HC-SR04 sensor under an arbitrary interleaving of senders, echo edges, timeouts, stop commands,
    clears and readers. */
module Sampler {
  import opened SampleRing

  type Tid = int

  const POLL_LIMIT: int := 50000
  const ONE_SHOT_RETRIES: int := 5
  const UINT: int := 0x1_0000_0000

  /** A sender in `send`: about to pulse, polling, or past the poll limit and about to take the lock. */
  datatype Sender = Pulsing(left: int) | Polling(left: int, counter: int) | TimedOut(left: int)

  /** A reader: periodic and blocked on an empty ring, one-shot and about to send, one-shot and spinning
      until no measurement is ongoing, or about to copy. */
  datatype Reader = Blocked | Sending | Spinning(inLoop: bool) | Copying

  datatype Event =
    | Armed
    | Sampled(distance: int)
    | Cancelled
    | Cleared
    | Passed(r: Tid)
    | Got(r: Tid, copied: Copied)

  datatype State = State(
    ongoing: bool,
    kstart: int,
    ring: Ring,
    senders: map<Tid, Sender>,
    readers: map<Tid, Reader>,
    log: seq<Event>)

  datatype Action =
    | Send(t: Tid, retries: int)
    | Pulse(t: Tid, now: int)
    | Poll(t: Tid)
    | Timeout(t: Tid)
    | Edge(now: int)      // the echo interrupt, one step
    | Stop                // writing 0 in periodic mode
    | Clear               // writing non-zero in one-shot mode
    | Read(t: Tid)        // a periodic read takes the ring lock for the first time
    | Check(t: Tid)       // ... and again, every 10 ms, while it is blocked
    | ReadOnce(t: Tid)    // a one-shot read tests `ongoing`
    | Spin(t: Tid)        // ... and again while it spins, once its own send is over
    | CopyOut(t: Tid)     // either read takes the ring lock to copy, without a test

  function Init(): State {
    State(false, 0, EmptyRing(), map[], map[], [])
  }

  /** d is the number of whole steps of 5800 in the elapsed nanoseconds, cut to an unsigned int. */
  predicate Measures(elapsed: int, d: int) {
    5800 * d <= elapsed % UINT < 5800 * (d + 1)
  }

  function Distance(kstart: int, now: int): (d: int)
    ensures Measures(now - kstart, d) && 0 <= d <= 740511
  {
    ((now - kstart) % UINT) / 5800
  }

  predicate Enabled(s: State, a: Action) {
    match a
    case Send(t, retries) =>
      t !in s.senders && (t in s.readers ==> s.readers[t].Sending? && retries == ONE_SHOT_RETRIES)
    case Pulse(t, _) => t in s.senders && s.senders[t].Pulsing?
    case Poll(t) => t in s.senders && s.senders[t].Polling?
    case Timeout(t) => t in s.senders && s.senders[t].TimedOut?
    case Read(t) => t !in s.readers && t !in s.senders
    case Check(t) => t in s.readers && s.readers[t].Blocked?
    case ReadOnce(t) => t !in s.readers && t !in s.senders
    case Spin(t) => t in s.readers && s.readers[t].Spinning? && t !in s.senders
    case CopyOut(t) => t in s.readers && s.readers[t].Copying?
    case _ => true
  }

  /** Setting `ongoing` to STOPPING cancels a measurement only if one was ongoing. */
  function Cancel(s: State): State {
    s.(ongoing := false, log := if s.ongoing then s.log + [Cancelled] else s.log)
  }

  function DoPoll(s: State, t: Tid): State
    requires Enabled(s, Poll(t))
  {
    var p := s.senders[t];
    if !s.ongoing then s.(senders := s.senders - {t})
    else if p.counter + 1 > POLL_LIMIT then s.(senders := s.senders[t := TimedOut(p.left)])
    else s.(senders := s.senders[t := Polling(p.left, p.counter + 1)])
  }

  function DoTimeout(s: State, t: Tid): State
    requires Enabled(s, Timeout(t))
  {
    var left := s.senders[t].left;
    var c := Cancel(s);
    if left > 0 then c.(senders := s.senders[t := Pulsing(left - 1)]) else c.(senders := s.senders - {t})
  }

  /** `send` up to its first unlock; a one-shot read goes on to spin when it comes back. */
  function DoSend(s: State, t: Tid, retries: int): State {
    var w := if t in s.readers then s.(readers := s.readers[t := Spinning(false)]) else s;
    if s.ongoing then w
    else w.(ongoing := true, senders := s.senders[t := Pulsing(retries)], log := s.log + [Armed])
  }

  /** `spin_ongoing` leaves only when the test before its inner loop, not the one in it, finds no
      measurement. */
  function DoSpin(s: State, t: Tid): State
    requires Enabled(s, Spin(t))
  {
    s.(readers := s.readers[t := if s.ongoing then Spinning(true)
                                 else if s.readers[t].inLoop then Spinning(false)
                                 else Copying])
  }

  function DoRead(s: State, t: Tid): State
    requires WellFormed(s.ring)
  {
    if s.ring.newest != -1 then s.(log := s.log + [Got(t, Copy(s.ring))])
    else s.(readers := s.readers[t := Blocked])
  }

  function Do(s: State, a: Action): State
    requires WellFormed(s.ring) && Enabled(s, a)
  {
    match a
    case Send(t, retries) => DoSend(s, t, retries)
    case Pulse(t, now) => s.(kstart := now, senders := s.senders[t := Polling(s.senders[t].left, 0)])
    case Poll(t) => DoPoll(s, t)
    case Timeout(t) => DoTimeout(s, t)
    case Edge(now) =>
      if !s.ongoing then s
      else
        var d := Distance(s.kstart, now);
        s.(ongoing := false, ring := Push(s.ring, d), log := s.log + [Sampled(d)])
    case Stop => Cancel(s)
    case Clear => s.(ring := EmptyRing(), log := s.log + [Cleared])
    case Read(t) => DoRead(s, t)
    case Check(t) =>
      if s.ring.newest == -1 then s
      else s.(readers := s.readers[t := Copying], log := s.log + [Passed(t)])
    case ReadOnce(t) => s.(readers := s.readers[t := if s.ongoing then Spinning(false) else Sending])
    case Spin(t) => DoSpin(s, t)
    case CopyOut(t) => s.(readers := s.readers - {t}, log := s.log + [Got(t, Copy(s.ring))])
  }

  /** The states a run passes through. */
  ghost predicate Run(states: seq<State>, acts: seq<Action>) {
    && |states| == |acts| + 1 && states[0] == Init()
    && forall i :: 0 <= i < |acts| ==>
         WellFormed(states[i].ring) && Enabled(states[i], acts[i]) && states[i + 1] == Do(states[i], acts[i])
  }

  // ----- Specification, over the log alone -----

  /** Measurements begun and not yet ended. */
  function Open(log: seq<Event>): int {
    if log == [] then 0
    else Open(log[..|log| - 1]) +
         match log[|log| - 1]
         case Armed => 1
         case Sampled(_) => -1
         case Cancelled => -1
         case _ => 0
  }

  function Arms(log: seq<Event>): nat {
    if log == [] then 0 else Arms(log[..|log| - 1]) + (if log[|log| - 1].Armed? then 1 else 0)
  }

  function Samples(log: seq<Event>): nat {
    if log == [] then 0 else Samples(log[..|log| - 1]) + (if log[|log| - 1].Sampled? then 1 else 0)
  }

  function Cancels(log: seq<Event>): nat {
    if log == [] then 0 else Cancels(log[..|log| - 1]) + (if log[|log| - 1].Cancelled? then 1 else 0)
  }

  /** The samples since the last clear. */
  function SinceClear(log: seq<Event>): seq<int> {
    if log == [] then []
    else match log[|log| - 1]
         case Cleared => []
         case Sampled(d) => SinceClear(log[..|log| - 1]) + [d]
         case _ => SinceClear(log[..|log| - 1])
  }

  /** At every moment at most one measurement is open, so an arm and its one end alternate. */
  ghost predicate Alternates(log: seq<Event>) {
    forall i :: 0 <= i <= |log| ==> 0 <= Open(log[..i]) <= 1
  }

  function LatestIn(samples: seq<int>): Copied {
    if samples == [] then OutOfBuffer else Sample(samples[|samples| - 1])
  }

  /** Every copy returns the latest sample since the last clear, and misses the buffer exactly when there is none. */
  ghost predicate CopiesAreLatest(log: seq<Event>) {
    forall i :: 0 <= i < |log| && log[i].Got? ==> log[i].copied == LatestIn(SinceClear(log[..i]))
  }

  ghost predicate ClearedBetween(log: seq<Event>, i: int, j: int)
    requires 0 <= i && j <= |log|
  {
    exists k :: i < k < j && log[k] == Cleared
  }

  /** A check is only passed on a ring that holds a sample. */
  ghost predicate ChecksSeeSamples(log: seq<Event>) {
    forall i :: 0 <= i < |log| && log[i].Passed? ==> SinceClear(log[..i]) != []
  }

  // ----- The invariant -----

  ghost predicate Inv(s: State) {
    && Holds(s.ring, SinceClear(s.log))
    && Open(s.log) == (if s.ongoing then 1 else 0)
    && Alternates(s.log) && CopiesAreLatest(s.log) && ChecksSeeSamples(s.log)
  }

  lemma AlternatesGrows(log: seq<Event>, e: Event)
    requires Alternates(log) && 0 <= Open(log + [e]) <= 1
    ensures Alternates(log + [e])
  {
    var m := log + [e];
    forall i | 0 <= i <= |m| ensures 0 <= Open(m[..i]) <= 1 {
      if i <= |log| {
        assert m[..i] == log[..i];
      } else {
        assert m[..i] == m;
      }
    }
  }

  lemma CopiesGrow(log: seq<Event>, e: Event)
    requires CopiesAreLatest(log)
    requires e.Got? ==> e.copied == LatestIn(SinceClear(log))
    ensures CopiesAreLatest(log + [e])
  {
    var m := log + [e];
    forall i | 0 <= i < |m| && m[i].Got?
      ensures m[i].copied == LatestIn(SinceClear(m[..i]))
    {
      assert m[..i] == log[..i];
      if i == |log| { assert log[..i] == log; }
    }
  }

  lemma ChecksGrow(log: seq<Event>, e: Event)
    requires ChecksSeeSamples(log) && (e.Passed? ==> SinceClear(log) != [])
    ensures ChecksSeeSamples(log + [e])
  {
    var m := log + [e];
    forall i | 0 <= i < |m| && m[i].Passed? ensures SinceClear(m[..i]) != [] {
      assert m[..i] == log[..i];
      if i == |log| { assert log[..i] == log; }
    }
  }

  lemma Snoc(log: seq<Event>, e: Event)
    ensures (log + [e])[..|log|] == log
  {
  }

  /** Every step adds at most one event, and only the events that say so change the ring or the flag. */
  lemma StepEffect(s: State, a: Action)
    requires WellFormed(s.ring) && Enabled(s, a)
    ensures
      var s' := Do(s, a);
      || (s'.log == s.log && s'.ring == s.ring && s'.ongoing == s.ongoing)
      || exists e :: s'.log == s.log + [e] && Effect(s, e, s')
  {
    var s' := Do(s, a);
    if s'.log != s.log {
      var e := s'.log[|s'.log| - 1];
      assert s'.log == s.log + [e];
    }
  }

  ghost predicate Effect(s: State, e: Event, s': State)
    requires WellFormed(s.ring)
  {
    match e
    case Armed => !s.ongoing && s'.ongoing && s'.ring == s.ring
    case Sampled(d) => s.ongoing && !s'.ongoing && s'.ring == Push(s.ring, d)
    case Cancelled => s.ongoing && !s'.ongoing && s'.ring == s.ring
    case Cleared => s'.ongoing == s.ongoing && s'.ring == EmptyRing()
    case Passed(_) => s'.ongoing == s.ongoing && s'.ring == s.ring && s.ring.newest != -1
    case Got(_, v) => s'.ongoing == s.ongoing && s'.ring == s.ring && v == Copy(s.ring)
  }

  lemma EventKeepsInv(s: State, e: Event, s': State)
    requires Inv(s) && s'.log == s.log + [e] && Effect(s, e, s')
    ensures Inv(s')
  {
    CopyIsLatest(s.ring, SinceClear(s.log));
    Snoc(s.log, e);
    AlternatesGrows(s.log, e);
    CopiesGrow(s.log, e);
    ChecksGrow(s.log, e);
    if e.Sampled? { PushHolds(s.ring, SinceClear(s.log), e.distance); }
  }

  lemma StepKeepsInv(s: State, a: Action)
    requires Inv(s) && Enabled(s, a)
    ensures Inv(Do(s, a))
  {
    var s' := Do(s, a);
    StepEffect(s, a);
    if s'.log != s.log {
      var e :| s'.log == s.log + [e] && Effect(s, e, s');
      EventKeepsInv(s, e, s');
    }
  }

  lemma {:induction false} RunKeepsInv(states: seq<State>, acts: seq<Action>, i: int)
    requires Run(states, acts) && 0 <= i <= |acts|
    ensures Inv(states[i])
  {
    if i == 0 {
      assert Init().log[..0] == [];
    } else {
      RunKeepsInv(states, acts, i - 1);
      StepKeepsInv(states[i - 1], acts[i - 1]);
    }
  }

  // ----- The theorems, over every run -----

  lemma {:induction false} OpenIsBalance(log: seq<Event>)
    ensures Open(log) == Arms(log) - Samples(log) - Cancels(log)
  {
    if log != [] { OpenIsBalance(log[..|log| - 1]); }
  }

  /** Conservation: every arm has been sampled, or cancelled, or is the one still ongoing. */
  lemma ArmsAreConserved(states: seq<State>, acts: seq<Action>, i: int)
    requires Run(states, acts) && 0 <= i <= |acts|
    ensures
      var s := states[i];
      Arms(s.log) == Samples(s.log) + Cancels(s.log) + (if s.ongoing then 1 else 0)
  {
    RunKeepsInv(states, acts, i);
    OpenIsBalance(states[i].log);
  }

  lemma {:induction false} OnlyArmsOpen(log: seq<Event>, i: int, j: int)
    requires 0 <= i <= j <= |log|
    requires forall k :: i <= k < j ==> !log[k].Armed?
    ensures Open(log[..j]) <= Open(log[..i])
  {
    if i < j {
      OnlyArmsOpen(log, i, j - 1);
      assert log[..j][..j - 1] == log[..j - 1];
    }
  }

  lemma ArmBetweenSamples(log: seq<Event>, i: int, j: int)
    requires Alternates(log) && 0 <= i < j < |log| && log[i].Sampled? && log[j].Sampled?
    ensures exists k :: i < k < j && log[k].Armed?
  {
    assert log[..i + 1][..i] == log[..i] && log[..j + 1][..j] == log[..j];
    assert Open(log[..i + 1]) == Open(log[..i]) - 1;
    assert Open(log[..j + 1]) == Open(log[..j]) - 1;
    if forall k :: i + 1 <= k < j ==> !log[k].Armed? {
      OnlyArmsOpen(log, i + 1, j);
    }
  }

  /** One arm yields at most one sample: between any two samples there is an arm. */
  lemma OneSamplePerArm(states: seq<State>, acts: seq<Action>, n: int, i: int, j: int)
    requires Run(states, acts) && 0 <= n <= |acts|
    requires 0 <= i < j < |states[n].log| && states[n].log[i].Sampled? && states[n].log[j].Sampled?
    ensures exists k :: i < k < j && states[n].log[k].Armed?
  {
    RunKeepsInv(states, acts, n);
    ArmBetweenSamples(states[n].log, i, j);
  }

  /** The ring is the tail of the history, at every moment of every run. */
  lemma RingRefinesHistory(states: seq<State>, acts: seq<Action>, i: int)
    requires Run(states, acts) && 0 <= i <= |acts|
    ensures Holds(states[i].ring, SinceClear(states[i].log))
  {
    RunKeepsInv(states, acts, i);
  }

  // ----- What a sample measures -----

  /** When the trigger was last pulsed, 0 if never: read off the schedule. */
  function LastPulse(acts: seq<Action>): int {
    if acts == [] then 0
    else if acts[|acts| - 1].Pulse? then acts[|acts| - 1].now
    else LastPulse(acts[..|acts| - 1])
  }

  lemma {:induction false} StartIsLastPulse(states: seq<State>, acts: seq<Action>, i: int)
    requires Run(states, acts) && 0 <= i <= |acts|
    ensures states[i].kstart == LastPulse(acts[..i])
  {
    if i > 0 {
      StartIsLastPulse(states, acts, i - 1);
      assert acts[..i][..i - 1] == acts[..i - 1];
      assert states[i] == Do(states[i - 1], acts[i - 1]);
    }
  }

  /** Up to 2^32 nanoseconds the distance is the elapsed time in steps of 5800; another 2^32 make no difference. */
  lemma DistanceIsElapsed(kstart: int, now: int)
    ensures 0 <= now - kstart < UINT ==>
      5800 * Distance(kstart, now) <= now - kstart < 5800 * (Distance(kstart, now) + 1)
    ensures Distance(kstart, now + UINT) == Distance(kstart, now)
  {
    assert (now + UINT - kstart) % UINT == (now - kstart) % UINT;
  }

  /** An edge during a measurement records the distance since the last pulse, whoever sent it; an edge
      outside one changes nothing at all. */
  lemma EdgeMeasuresLastPulse(states: seq<State>, acts: seq<Action>, i: int)
    requires Run(states, acts) && 0 <= i < |acts| && acts[i].Edge?
    ensures
      var d := Distance(LastPulse(acts[..i]), acts[i].now);
      if Open(states[i].log) > 0 then
        && Measures(acts[i].now - LastPulse(acts[..i]), d)
        && states[i + 1].log == states[i].log + [Sampled(d)]
        && Copy(states[i + 1].ring) == Sample(d)
      else
        states[i + 1] == states[i]
  {
    StartIsLastPulse(states, acts, i);
    RunKeepsInv(states, acts, i);
    RunKeepsInv(states, acts, i + 1);
    CopyIsLatest(states[i + 1].ring, SinceClear(states[i + 1].log));
    if states[i].ongoing {
      Snoc(states[i].log, Sampled(Distance(states[i].kstart, acts[i].now)));
    }
  }

  lemma StepEnds(s: State, a: Action, t: Tid)
    requires WellFormed(s.ring) && Enabled(s, a)
    requires a.Edge? || a.Stop? || a.Timeout? || (t in s.senders && t !in Do(s, a).senders)
    ensures !Do(s, a).ongoing
  {
  }

  /** Edges, stops and timeouts leave no measurement open, and neither does a call of `send` that ends. */
  lemma EndedMeansClosed(states: seq<State>, acts: seq<Action>, i: int, t: Tid)
    requires Run(states, acts) && 0 <= i < |acts|
    requires acts[i].Edge? || acts[i].Stop? || acts[i].Timeout?
             || (t in states[i].senders && t !in states[i + 1].senders)
    ensures !states[i + 1].ongoing && Open(states[i + 1].log) == 0
  {
    StepEnds(states[i], acts[i], t);
    RunKeepsInv(states, acts, i + 1);
  }

  /** No measurement outlives the sends: as long as one is open, some call of `send` is still under way to
      end it. */
  lemma {:induction false} OpenHasSender(states: seq<State>, acts: seq<Action>, i: int) returns (t: Tid)
    requires Run(states, acts) && 0 <= i <= |acts| && Open(states[i].log) > 0
    ensures t in states[i].senders
  {
    RunKeepsInv(states, acts, i);
    if i > 0 {
      var s, a := states[i - 1], acts[i - 1];
      RunKeepsInv(states, acts, i - 1);
      if s.ongoing {
        t := OpenHasSender(states, acts, i - 1);
        if t !in states[i].senders { EndedMeansClosed(states, acts, i - 1, t); }
      } else {
        t := a.t;
      }
    }
  }

  /** Some sample came before position j and the ring has not been cleared since. */
  ghost predicate Available(log: seq<Event>, j: int)
    requires 0 <= j <= |log|
  {
    exists i :: 0 <= i < j && log[i].Sampled? && !ClearedBetween(log, i, j)
  }

  lemma {:induction false} SinceClearIff(log: seq<Event>, j: int)
    requires 0 <= j <= |log|
    ensures SinceClear(log[..j]) != [] <==> Available(log, j)
  {
    if j > 0 {
      SinceClearIff(log, j - 1);
      assert log[..j][..j - 1] == log[..j - 1];
      AvailableStep(log, j);
    }
  }

  lemma AvailableStep(log: seq<Event>, j: int)
    requires 0 < j <= |log|
    ensures Available(log, j) <==> log[j - 1].Sampled? || (!log[j - 1].Cleared? && Available(log, j - 1))
  {
    if log[j - 1].Sampled? {
      assert !ClearedBetween(log, j - 1, j);
    }
    if !log[j - 1].Cleared? && Available(log, j - 1) {
      var i :| 0 <= i < j - 1 && log[i].Sampled? && !ClearedBetween(log, i, j - 1);
      assert !ClearedBetween(log, i, j);
    }
    if Available(log, j) && !log[j - 1].Sampled? {
      var i :| 0 <= i < j && log[i].Sampled? && !ClearedBetween(log, i, j);
      assert !ClearedBetween(log, i, j - 1);
    }
  }

  /** What a read returns, one-shot or periodic: every copy gets the latest sample since the last clear,
      and is in the buffer exactly when some sample has come that no clear has followed. */
  lemma ReadsReturnLatest(states: seq<State>, acts: seq<Action>, n: int, j: int)
    requires Run(states, acts) && 0 <= n <= |acts|
    requires 0 <= j < |states[n].log| && states[n].log[j].Got?
    ensures
      var log := states[n].log;
      && log[j].copied == LatestIn(SinceClear(log[..j]))
      && (log[j].copied.Sample? <==> Available(log, j))
  {
    RunKeepsInv(states, acts, n);
    SinceClearIff(states[n].log, j);
  }

  /** A periodic read that was blocked and passed its check copies a sample unless the ring is cleared
      between the check and the copy. */
  lemma CheckedReadsReturn(states: seq<State>, acts: seq<Action>, n: int, i: int, j: int)
    requires Run(states, acts) && 0 <= n <= |acts|
    requires 0 <= i < j < |states[n].log| && states[n].log[j].Got? && states[n].log[i] == Passed(states[n].log[j].r)
    requires !ClearedBetween(states[n].log, i, j)
    ensures states[n].log[j].copied.Sample?
  {
    RunKeepsInv(states, acts, n);
    var log := states[n].log;
    SinceClearIff(log, i);
    var k :| 0 <= k < i && log[k].Sampled? && !ClearedBetween(log, k, i);
    forall m | k < m < j ensures log[m] != Cleared {
      if m == i { assert log[m].Passed?; }
    }
    assert !ClearedBetween(log, k, j);
    ReadsReturnLatest(states, acts, n, j);
  }

  /** One step more. */
  lemma Extend(states: seq<State>, acts: seq<Action>, a: Action) returns (states': seq<State>, acts': seq<Action>)
    requires Run(states, acts) && WellFormed(states[|acts|].ring) && Enabled(states[|acts|], a)
    ensures Run(states', acts') && states'[|acts'|] == Do(states[|acts|], a)
  {
    states', acts' := states + [Do(states[|acts|], a)], acts + [a];
  }

  /** A reader is blocked, and a measurement has come in. */
  function Measured(): State {
    State(false, 0, Ring(0, [10, 0, 0, 0, 0]), map[1 := Polling(5, 0)], map[9 := Blocked], [Armed, Sampled(10)])
  }

  lemma OneMeasurement() returns (states: seq<State>, acts: seq<Action>)
    ensures Run(states, acts) && states[|acts|] == Measured()
  {
    states, acts := [Init()], [];
    states, acts := Extend(states, acts, Read(9));
    states, acts := Extend(states, acts, Send(1, 5));
    states, acts := Extend(states, acts, Pulse(1, 0));
    states, acts := Extend(states, acts, Edge(58000));
  }

  /** A clear in that gap does happen in some run, and the read then copies from outside the buffer. */
  lemma ClearInTheGap() returns (states: seq<State>, acts: seq<Action>)
    ensures Run(states, acts)
    ensures states[|acts|].log == [Armed, Sampled(10), Passed(9), Cleared, Got(9, OutOfBuffer)]
  {
    states, acts := OneMeasurement();
    states, acts := Extend(states, acts, Check(9));
    states, acts := Extend(states, acts, Clear);
    states, acts := Extend(states, acts, CopyOut(9));
  }

  // ----- A one-shot read that hears nothing -----

  /** The reader's own send has polled k times. */
  function Deaf(k: nat): State {
    State(true, 0, EmptyRing(), map[9 := Polling(ONE_SHOT_RETRIES, k)], map[9 := Spinning(false)], [Armed])
  }

  lemma {:induction false} PollInVain(k: nat) returns (states: seq<State>, acts: seq<Action>)
    requires k <= POLL_LIMIT
    ensures Run(states, acts) && states[|acts|] == Deaf(k)
  {
    if k == 0 {
      states, acts := [Init()], [];
      states, acts := Extend(states, acts, ReadOnce(9));
      states, acts := Extend(states, acts, Send(9, ONE_SHOT_RETRIES));
      states, acts := Extend(states, acts, Pulse(9, 0));
      assert states[|acts|] == Deaf(0);
    } else {
      states, acts := PollInVain(k - 1);
      states, acts := Extend(states, acts, Poll(9));
      assert states[|acts|] == Deaf(k);
    }
  }

  /** A one-shot read needs no clear to go wrong: when its send hears no echo and the ring is empty, it
      copies from outside the buffer all the same. */
  lemma OneShotMisses() returns (states: seq<State>, acts: seq<Action>)
    ensures Run(states, acts) && Got(9, OutOfBuffer) in states[|acts|].log && Cleared !in states[|acts|].log
  {
    states, acts := PollInVain(POLL_LIMIT);
    states, acts := Extend(states, acts, Poll(9));
    states, acts := Extend(states, acts, Timeout(9));
    states, acts := Extend(states, acts, Pulse(9, 1));
    states, acts := Extend(states, acts, Poll(9));
    states, acts := Extend(states, acts, Spin(9));
    states, acts := Extend(states, acts, CopyOut(9));
    assert states[|acts|].log == [Armed] + [Cancelled] + [Got(9, OutOfBuffer)];
  }

  // ----- Every send ends, whatever the others do -----

  /** One pulse, at most POLL_LIMIT + 1 polls, one timeout. */
  const PULSE_STEPS: int := POLL_LIMIT + 3

  function RetriesLeft(p: Sender): int {
    if p.left > 0 then p.left else 0
  }

  /** The steps a sender can still take. */
  function Work(p: Sender): int {
    match p
    case Pulsing(_) => (RetriesLeft(p) + 1) * PULSE_STEPS
    case Polling(_, counter) => RetriesLeft(p) * PULSE_STEPS + PULSE_STEPS - 1 - counter
    case TimedOut(_) => RetriesLeft(p) * PULSE_STEPS + 1
  }

  predicate CountersInRange(s: State) {
    forall t :: t in s.senders && s.senders[t].Polling? ==> 0 <= s.senders[t].counter <= POLL_LIMIT
  }

  predicate OwnStep(a: Action, t: Tid) {
    a == Poll(t) || a == Timeout(t) || (a.Pulse? && a.t == t)
  }

  /** A sender's own step uses up at least one unit of its work; nobody else's step touches it. */
  lemma StepSpendsWork(s: State, a: Action, t: Tid)
    requires WellFormed(s.ring) && Enabled(s, a) && CountersInRange(s)
    ensures CountersInRange(Do(s, a))
    ensures t in s.senders && t in Do(s, a).senders ==>
      Work(Do(s, a).senders[t]) <= Work(s.senders[t]) - (if OwnStep(a, t) then 1 else 0)
  {
  }

  function OwnSteps(acts: seq<Action>, t: Tid, i: int, j: int): nat
    requires 0 <= i <= j <= |acts|
    decreases j - i
  {
    if i == j then 0 else OwnSteps(acts, t, i, j - 1) + (if OwnStep(acts[j - 1], t) then 1 else 0)
  }

  ghost predicate InSend(states: seq<State>, t: Tid, i: int, j: int)
    requires 0 <= i <= j < |states|
  {
    forall k :: i <= k <= j ==> t in states[k].senders
  }

  lemma {:induction false} RunCounters(states: seq<State>, acts: seq<Action>, i: int)
    requires Run(states, acts) && 0 <= i <= |acts|
    ensures CountersInRange(states[i])
  {
    if i > 0 {
      RunCounters(states, acts, i - 1);
      StepSpendsWork(states[i - 1], acts[i - 1], 0);
    }
  }

  lemma {:induction false} SendSpendsWork(states: seq<State>, acts: seq<Action>, t: Tid, i: int, j: int)
    requires Run(states, acts) && 0 <= i <= j <= |acts| && InSend(states, t, i, j)
    ensures OwnSteps(acts, t, i, j) + Work(states[j].senders[t]) <= Work(states[i].senders[t])
    decreases j - i
  {
    if i < j {
      SendSpendsWork(states, acts, t, i, j - 1);
      RunCounters(states, acts, j - 1);
      StepSpendsWork(states[j - 1], acts[j - 1], t);
    }
  }

  /** Under every interleaving with other senders, edges, stops and readers, a call of `send` that armed
      the sensor takes at most (retries + 1) * (POLL_LIMIT + 3) steps of its own. */
  lemma SendIsBounded(states: seq<State>, acts: seq<Action>, t: Tid, retries: int, i: int, j: int)
    requires Run(states, acts) && 0 <= i < j <= |acts|
    requires acts[i] == Send(t, retries) && InSend(states, t, i + 1, j)
    ensures OwnSteps(acts, t, i + 1, j) < ((if retries > 0 then retries else 0) + 1) * PULSE_STEPS
  {
    SendSpendsWork(states, acts, t, i + 1, j);
    RunCounters(states, acts, j);
    assert states[i + 1] == Do(states[i], acts[i]);
    assert t in states[i + 1].senders;
    WorkIsPositive(states[j].senders[t]);
  }

  lemma WorkIsPositive(p: Sender)
    requires p.Polling? ==> p.counter <= POLL_LIMIT
    ensures Work(p) >= 1
  {
  }
}
