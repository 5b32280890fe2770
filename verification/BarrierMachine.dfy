/** The barrier under an arbitrary scheduler.

    Every lock-held section of `barrier_wait` and `barrier_destroy` is one step. Going to sleep is two
    steps, as in `sleep_here`: the lock is released first (`dozing`), the thread joins the wait queue
    later (`waitQ`), with no test in between. A schedule is any sequence of enabled actions. */
module BarrierMachine {
  import opened BarrierWord

  type Tid = int

  datatype Event = Arrived(t: Tid) | Left(t: Tid)

  datatype Config = Config(count: int, tids: set<Tid>)

  /** `gate`, `inside` and `draining` are the threads in the three wait loops (a thread in `gate` that is
      neither dozing nor queued is about to take the lock). `recycling` are the threads that have left the
      loop of `barrier_destroy` and given the lock back, but have not yet unlinked and freed the barrier.
      `log` and `round` are history only. */
  datatype State = State(
    total: int,
    gate: set<Tid>,
    inside: set<Tid>,
    draining: set<Tid>,
    recycling: set<Tid>,
    dozing: set<Tid>,
    waitQ: set<Tid>,
    freed: bool,
    log: seq<Event>,
    round: nat)

  datatype Action =
    | Call(t: Tid)     // enter barrier_wait
    | Gate(t: Tid)     // take the lock, test the gate, perhaps arrive
    | Inner(t: Tid)    // take the lock again inside, perhaps leave
    | Destroy(t: Tid)  // enter barrier_destroy
    | Drain(t: Tid)    // take the lock in barrier_destroy, perhaps leave its loop
    | Recycle(t: Tid)  // unlink and free, under the list's lock
    | Queue(t: Tid)    // prepare_to_wait and schedule
    | Wake(t: Tid)     // a signal ends an interruptible sleep

  function Init(): State {
    State(FLAG, {}, {}, {}, {}, {}, {}, false, [], 0)
  }

  /** The threads in a wait loop. */
  function Waiters(s: State): set<Tid> {
    s.gate + s.inside + s.draining
  }

  /** The threads in a call. */
  function Busy(s: State): set<Tid> {
    Waiters(s) + s.recycling
  }

  predicate Runnable(s: State, t: Tid) {
    t !in s.dozing && t !in s.waitQ
  }

  predicate Enabled(c: Config, s: State, a: Action) {
    && !s.freed
    && match a
       case Call(t) => t in c.tids && t !in Busy(s)
       case Gate(t) => t in s.gate && Runnable(s, t)
       case Inner(t) => t in s.inside && Runnable(s, t)
       case Destroy(t) => t in c.tids && t !in Busy(s)
       case Drain(t) => t in s.draining && Runnable(s, t)
       case Recycle(t) => t in s.recycling
       case Queue(t) => t in s.dozing
       case Wake(t) => t in s.waitQ
  }

  function Woken(wake: bool, q: set<Tid>): set<Tid> {
    if wake then {} else q
  }

  function RoundAfter(s: State, total: int): nat {
    if total == FLAG then s.round + 1 else s.round
  }

  function DoGate(c: Config, s: State, t: Tid): State {
    var r := EnterWord(c.count, s.total);
    match r.outcome
    case AtGate => s.(dozing := s.dozing + {t})
    case AtInner =>
      s.(total := r.total, gate := s.gate - {t}, inside := s.inside + {t}, dozing := s.dozing + {t},
         log := s.log + [Arrived(t)])
    case Returned =>
      s.(total := r.total, gate := s.gate - {t}, waitQ := Woken(r.wake, s.waitQ),
         log := s.log + [Arrived(t)] + [Left(t)], round := RoundAfter(s, r.total))
  }

  function DoInner(s: State, t: Tid): State {
    var r := InnerWord(s.total);
    match r.outcome
    case Returned =>
      s.(total := r.total, inside := s.inside - {t}, waitQ := Woken(r.wake, s.waitQ),
         log := s.log + [Left(t)], round := RoundAfter(s, r.total))
    case _ => s.(dozing := s.dozing + {t})
  }

  function DoDrain(s: State, t: Tid): State {
    if s.total > FLAG then s.(dozing := s.dozing + {t})
    else s.(draining := s.draining - {t}, recycling := s.recycling + {t})
  }

  function Do(c: Config, s: State, a: Action): State {
    match a
    case Call(t) => s.(gate := s.gate + {t})
    case Gate(t) => DoGate(c, s, t)
    case Inner(t) => DoInner(s, t)
    case Destroy(t) => s.(draining := s.draining + {t})
    case Drain(t) => DoDrain(s, t)
    case Recycle(t) => s.(recycling := s.recycling - {t}, freed := true)
    case Queue(t) => s.(dozing := s.dozing - {t}, waitQ := s.waitQ + {t})
    case Wake(t) => s.(waitQ := s.waitQ - {t})
  }

  function Exec(c: Config, acts: seq<Action>): State {
    if acts == [] then Init() else Do(c, Exec(c, acts[..|acts| - 1]), acts[|acts| - 1])
  }

  /** Every action of the schedule is enabled when its turn comes. */
  predicate Runs(c: Config, acts: seq<Action>) {
    acts == [] ||
    (Runs(c, acts[..|acts| - 1]) && Enabled(c, Exec(c, acts[..|acts| - 1]), acts[|acts| - 1]))
  }

  lemma RunsSnoc(c: Config, acts: seq<Action>, a: Action)
    ensures Exec(c, acts + [a]) == Do(c, Exec(c, acts), a)
    ensures Runs(c, acts + [a]) <==> Runs(c, acts) && Enabled(c, Exec(c, acts), a)
  {
    assert (acts + [a])[..|acts|] == acts;
  }
}
