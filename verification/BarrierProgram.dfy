/** The whole test program: the creator starts the threads, joins them, and destroys the barrier. */
module BarrierProgram {
  import opened Counting
  import opened BarrierWord
  import opened BarrierMachine
  import opened BarrierSpec
  import opened BarrierSafety
  import opened BarrierLockstep
  import opened BarrierWakeups
  import opened BarrierProgress

  /** The team and its creator. */
  function Everybody(c: Config, creator: Tid): Config {
    Config(c.count, c.tids + {creator})
  }

  /** The team's threads run their loops; the creator destroys once it has joined them all. */
  predicate ProgramEnabled(c: Config, creator: Tid, rounds: nat, s: State, a: Action) {
    match a
    case Destroy(t) => t == creator && Finished(c, rounds, s) && AtomicEnabled(Everybody(c, creator), s, a)
    case Drain(t) => AtomicEnabled(Everybody(c, creator), s, a)
    case Recycle(t) => AtomicEnabled(Everybody(c, creator), s, a)
    case _ => ClientEnabled(c, rounds, s, a)
  }

  predicate ProgramRuns(c: Config, creator: Tid, rounds: nat, acts: seq<Action>) {
    acts == [] ||
    (ProgramRuns(c, creator, rounds, acts[..|acts| - 1])
     && ProgramEnabled(c, creator, rounds, AtomicExec(c, acts[..|acts| - 1]), acts[|acts| - 1]))
  }

  /** Who may call makes no difference to what a step does. */
  lemma {:induction false} SameStates(c: Config, creator: Tid, acts: seq<Action>)
    ensures AtomicExec(Everybody(c, creator), acts) == AtomicExec(c, acts)
  {
    if acts != [] { SameStates(c, creator, acts[..|acts| - 1]); }
  }

  /** The program is one way of using the barrier, so all that holds of every run holds of it. */
  lemma {:induction false} ProgramUsesBarrier(c: Config, creator: Tid, rounds: nat, acts: seq<Action>)
    requires ProgramRuns(c, creator, rounds, acts)
    ensures AtomicRuns(Everybody(c, creator), acts)
    ensures AtomicExec(Everybody(c, creator), acts) == AtomicExec(c, acts)
  {
    SameStates(c, creator, acts);
    if acts != [] {
      ProgramUsesBarrier(c, creator, rounds, acts[..|acts| - 1]);
    }
  }

  /** How far the program has come: the threads at work, the destroy begun, its loop left, the barrier freed. */
  datatype Stage = Working | Joined | Drained | Done

  /** The creator's own steps so far. */
  function Tail(stage: Stage): nat {
    match stage case Working => 0 case Joined => 1 case Drained => 2 case Done => 3
  }

  /** What the creator's steps have made of the state its threads left. */
  function TornDown(s: State, creator: Tid, stage: Stage): State {
    match stage
    case Working => s
    case Joined => s.(draining := {creator})
    case Drained => s.(recycling := {creator})
    case Done => s.(freed := true)
  }

  /** The run is a run of the team, finished unless the creator has not begun, and then the creator's steps. */
  ghost predicate AtStage(c: Config, creator: Tid, rounds: nat, team: seq<Action>, acts: seq<Action>, stage: Stage) {
    && ClientRuns(c, rounds, team) && |acts| == |team| + Tail(stage) && WakeCount(acts) == WakeCount(team)
    && (stage.Working? || Over(c, rounds, AtomicExec(c, team)))
    && AtomicExec(c, acts) == TornDown(AtomicExec(c, team), creator, stage)
  }

  /** All loops are through and the barrier is idle. */
  ghost predicate Over(c: Config, rounds: nat, s: State) {
    && Finished(c, rounds, s) && s.total == FLAG
    && s.gate == {} && s.inside == {} && s.draining == {} && s.recycling == {}
    && s.dozing == {} && s.waitQ == {} && !s.freed
  }

  lemma FinishedIsOver(c: Config, rounds: nat, acts: seq<Action>)
    requires ProperCount(c) && ClientRuns(c, rounds, acts) && Finished(c, rounds, AtomicExec(c, acts))
    ensures Over(c, rounds, AtomicExec(c, acts))
  {
    TeamState(c, rounds, acts);
    NobodyBusy(AtomicExec(c, acts));
  }

  /** After the join each stage allows exactly one step, and none of them sleeps. */
  lemma TeardownStep(c: Config, creator: Tid, rounds: nat, s: State, stage: Stage, a: Action)
    requires Over(c, rounds, s) && creator !in c.tids
    ensures
      var now := TornDown(s, creator, stage);
      match stage
      case Working =>
        && (ProgramEnabled(c, creator, rounds, now, a) <==> a == Destroy(creator))
        && AtomicDo(c, now, Destroy(creator)) == TornDown(s, creator, Joined)
      case Joined =>
        && (ProgramEnabled(c, creator, rounds, now, a) <==> a == Drain(creator))
        && AtomicDo(c, now, Drain(creator)) == TornDown(s, creator, Drained)
      case Drained =>
        && (ProgramEnabled(c, creator, rounds, now, a) <==> a == Recycle(creator))
        && AtomicDo(c, now, Recycle(creator)) == TornDown(s, creator, Done)
      case Done => !ProgramEnabled(c, creator, rounds, now, a)
  {
  }

  function Next(stage: Stage): Stage {
    match stage case Working => Joined case Joined => Drained case _ => Done
  }

  lemma WakesSnoc(acts: seq<Action>)
    requires acts != [] && !acts[|acts| - 1].Wake?
    ensures WakeCount(acts) == WakeCount(acts[..|acts| - 1])
  {
  }

  /** One more step of the team. */
  lemma WorkStep(c: Config, creator: Tid, rounds: nat, team: seq<Action>, acts: seq<Action>)
    requires ProperCount(c) && creator !in c.tids && acts != [] && ProgramRuns(c, creator, rounds, acts)
    requires AtStage(c, creator, rounds, team, acts[..|acts| - 1], Working)
    requires !Finished(c, rounds, AtomicExec(c, team))
    ensures AtStage(c, creator, rounds, team + [acts[|acts| - 1]], acts, Working)
  {
    TeamState(c, rounds, team);
    ClientSnoc(c, rounds, team, acts[|acts| - 1]);
  }

  /** One more step of the creator. */
  lemma CreatorStep(c: Config, creator: Tid, rounds: nat, team: seq<Action>, acts: seq<Action>, stage: Stage)
    requires ProperCount(c) && creator !in c.tids && acts != [] && ProgramRuns(c, creator, rounds, acts)
    requires AtStage(c, creator, rounds, team, acts[..|acts| - 1], stage) && Over(c, rounds, AtomicExec(c, team))
    ensures AtStage(c, creator, rounds, team, acts, Next(stage))
  {
    TeardownStep(c, creator, rounds, AtomicExec(c, team), stage, acts[|acts| - 1]);
    WakesSnoc(acts);
  }

  lemma {:induction false} StageOf(c: Config, creator: Tid, rounds: nat, acts: seq<Action>)
    returns (team: seq<Action>, stage: Stage)
    requires ProperCount(c) && creator !in c.tids && ProgramRuns(c, creator, rounds, acts)
    ensures AtStage(c, creator, rounds, team, acts, stage)
  {
    if acts == [] {
      team, stage := [], Working;
    } else {
      team, stage := StageOf(c, creator, rounds, acts[..|acts| - 1]);
      if stage.Working? && !Finished(c, rounds, AtomicExec(c, team)) {
        WorkStep(c, creator, rounds, team, acts);
        team := team + [acts[|acts| - 1]];
      } else {
        if stage.Working? { FinishedIsOver(c, rounds, team); }
        CreatorStep(c, creator, rounds, team, acts, stage);
        stage := Next(stage);
      }
    }
  }

  /** Every run of the program is finite, whatever the team. */
  lemma ProgramRunsAreFinite(c: Config, creator: Tid, rounds: nat, acts: seq<Action>)
    requires ProperCount(c) && creator !in c.tids && ProgramRuns(c, creator, rounds, acts)
    ensures |acts| <= Budget(|c.tids|, rounds) + 3 + 2 * WakeCount(acts)
  {
    var team, stage := StageOf(c, creator, rounds, acts);
    RunsAreFinite(c, rounds, team);
  }

  /** Whenever the barrier is freed, whatever the team: every thread has made all its calls, every arrival has
      been matched by a departure, and nobody is in the barrier or asleep on it. */
  lemma FreedAfterEverybody(c: Config, creator: Tid, rounds: nat, acts: seq<Action>)
    requires ProperCount(c) && creator !in c.tids && ProgramRuns(c, creator, rounds, acts)
    requires AtomicExec(c, acts).freed
    ensures
      var s := AtomicExec(c, acts);
      && Finished(c, rounds, s) && s.total == FLAG && s.waitQ == {}
      && Arrivals(s.log) == Departures(s.log) == |c.tids| * rounds
  {
    var team, stage := StageOf(c, creator, rounds, acts);
    TeamState(c, rounds, team);
    FinishedMeansWholeRounds(c, rounds, team);
    MultipleIsProduct(c.count, AtomicExec(c, team).round);
  }

  /** Some step other than a wake-up can be taken. */
  ghost predicate CanGoOn(c: Config, creator: Tid, rounds: nat, s: State) {
    exists a :: ProgramEnabled(c, creator, rounds, s, a) && !a.Wake?
  }

  lemma WorkGoesOn(c: Config, creator: Tid, rounds: nat, acts: seq<Action>)
    requires FullTeam(c) && creator !in c.tids && ClientRuns(c, rounds, acts)
    ensures CanGoOn(c, creator, rounds, AtomicExec(c, acts))
  {
    var s := AtomicExec(c, acts);
    if Finished(c, rounds, s) {
      FinishedIsOver(c, rounds, acts);
      TeardownStep(c, creator, rounds, s, Working, Destroy(creator));
    } else {
      var a := NoDeadlock(c, rounds, acts);
      assert ProgramEnabled(c, creator, rounds, s, a);
    }
  }

  lemma CreatorAwake(c: Config, creator: Tid, rounds: nat, acts: seq<Action>)
    requires ProperCount(c) && creator !in c.tids && ClientRuns(c, rounds, acts)
    ensures !AtomicExec(c, acts).freed && creator !in AtomicExec(c, acts).waitQ
  {
    TeamState(c, rounds, acts);
  }

  /** With exactly `count` threads the program always comes to its end: it stops exactly when the barrier
      has been freed, and the creator never sleeps in the destroy. */
  lemma ProgramStopsIffFreed(c: Config, creator: Tid, rounds: nat, acts: seq<Action>)
    requires FullTeam(c) && creator !in c.tids && ProgramRuns(c, creator, rounds, acts)
    ensures CanGoOn(c, creator, rounds, AtomicExec(c, acts)) <==> !AtomicExec(c, acts).freed
    ensures creator !in AtomicExec(c, acts).waitQ
  {
    var team, stage := StageOf(c, creator, rounds, acts);
    if stage.Working? {
      WorkGoesOn(c, creator, rounds, team);
      CreatorAwake(c, creator, rounds, team);
    } else {
      TornDownGoesOn(c, creator, rounds, AtomicExec(c, team), stage);
    }
  }

  lemma TornDownGoesOn(c: Config, creator: Tid, rounds: nat, s: State, stage: Stage)
    requires Over(c, rounds, s) && creator !in c.tids && !stage.Working?
    ensures CanGoOn(c, creator, rounds, TornDown(s, creator, stage)) <==> !stage.Done?
    ensures TornDown(s, creator, stage).freed <==> stage.Done?
  {
    TeardownStep(c, creator, rounds, s, stage, if stage.Joined? then Drain(creator) else Recycle(creator));
  }
}
