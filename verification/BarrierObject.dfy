/** The barrier as the driver keeps it: a record updated in place under its lock. */
module BarrierObject {
  import opened BarrierWord
  import opened BarrierMachine

  /** Plain machine arithmetic: every operation below is checked to stay in range. */
  newtype uint64 = x: int | 0 <= x < 0x1_0000_0000_0000_0000

  const BARRIER_FLAG: uint64 := 0x8000_0000_0000_0000

  class Barrier {
    const id: int
    const count: uint64
    var total: uint64
    var waitQ: set<Tid>

    predicate InRange() {
      count as int <= INT_MAX
    }

    constructor (id: int, count: int)
      requires 0 <= count <= INT_MAX
      ensures this.id == id && this.count as int == count
      ensures total as int == FLAG && waitQ == {}
    {
      this.id := id;
      this.count := count as uint64;
      total := BARRIER_FLAG;
      waitQ := {};
    }

    method WakeUpHere()
      modifies this`waitQ
      ensures waitQ == {}
    {
      waitQ := {};
    }

    /** Join the queue; no condition is tested again. */
    method SleepHere(t: Tid)
      modifies this`waitQ
      ensures waitQ == old(waitQ) + {t}
    {
      waitQ := waitQ + {t};
    }

    /** `barrier_wait`, from the gate test to giving the lock back. */
    method EnterSection() returns (o: Outcome)
      requires InRange()
      modifies this
      ensures
        var r := EnterWord(count as int, old(total) as int);
        total as int == r.total && o == r.outcome && waitQ == Woken(r.wake, old(waitQ))
    {
      if total > BARRIER_FLAG {
        return AtGate;
      }
      if BARRIER_FLAG == total {
        total := 0;
      }
      total := total + 1;
      if total == count {
        total := total + (BARRIER_FLAG - 1);
        WakeUpHere();
        o := Returned;
      } else {
        o := InnerSection();
      }
    }

    /** `barrier_wait`, from the inner test to giving the lock back. */
    method InnerSection() returns (o: Outcome)
      modifies this
      ensures
        var r := InnerWord(old(total) as int);
        total as int == r.total && o == r.outcome && waitQ == Woken(r.wake, old(waitQ))
    {
      if total < BARRIER_FLAG {
        return AtInner;
      }
      total := total - 1;
      if total == BARRIER_FLAG {
        WakeUpHere();
      }
      o := Returned;
    }

    /** `barrier_destroy`, from its test to giving the lock back. */
    method DrainSection() returns (done: bool)
      ensures done <==> total as int <= FLAG
    {
      done := total <= BARRIER_FLAG;
    }

    /** What a scheduled action does to the record. */
    method Section(a: Action, ghost c: Config, ghost s: State)
      requires InRange() && count as int == c.count && total as int == s.total && waitQ == s.waitQ
      modifies this
      ensures total as int == Do(c, s, a).total && waitQ == Do(c, s, a).waitQ
    {
      match a {
        case Gate(_) => var o := EnterSection();
        case Inner(_) => var o := InnerSection();
        case Queue(t) => SleepHere(t);
        case Wake(t) => waitQ := waitQ - {t};
        case _ =>
      }
    }
  }

  /** Which wait loop each thread is in, and who has given the lock back but not joined the queue. */
  datatype Threads = Threads(
    gate: set<Tid>,
    inside: set<Tid>,
    draining: set<Tid>,
    recycling: set<Tid>,
    dozing: set<Tid>,
    freed: bool)

  function ThreadsOf(s: State): Threads {
    Threads(s.gate, s.inside, s.draining, s.recycling, s.dozing, s.freed)
  }

  /** One scheduled action, carried out on the record. */
  method Perform(b: Barrier, ths: Threads, a: Action, ghost c: Config, ghost s: State) returns (after: Threads)
    requires b.InRange() && b.count as int == c.count
    requires b.total as int == s.total && b.waitQ == s.waitQ && ths == ThreadsOf(s)
    modifies b
    ensures b.total as int == Do(c, s, a).total && b.waitQ == Do(c, s, a).waitQ && after == ThreadsOf(Do(c, s, a))
  {
    var t := a.t;
    match a {
      case Call(_) =>
        after := ths.(gate := ths.gate + {t});
      case Gate(_) =>
        var o := b.EnterSection();
        match o {
          case AtGate => after := ths.(dozing := ths.dozing + {t});
          case AtInner => after := ths.(gate := ths.gate - {t}, inside := ths.inside + {t}, dozing := ths.dozing + {t});
          case Returned => after := ths.(gate := ths.gate - {t});
        }
      case Inner(_) =>
        var o := b.InnerSection();
        after := if o.Returned? then ths.(inside := ths.inside - {t}) else ths.(dozing := ths.dozing + {t});
      case Destroy(_) =>
        after := ths.(draining := ths.draining + {t});
      case Drain(_) =>
        var done := b.DrainSection();
        after := if done then ths.(draining := ths.draining - {t}, recycling := ths.recycling + {t})
                 else ths.(dozing := ths.dozing + {t});
      case Recycle(_) =>
        after := ths.(recycling := ths.recycling - {t}, freed := true);
      case Queue(_) =>
        b.SleepHere(t);
        after := ths.(dozing := ths.dozing - {t});
      case Wake(_) =>
        b.waitQ := b.waitQ - {t};
        after := ths;
    }
  }

  /** Under any schedule the record goes through exactly the states of the step machine, so everything
      proved of the machine holds of the 64-bit record. */
  method Execute(c: Config, id: int, acts: seq<Action>) returns (b: Barrier, ths: Threads)
    requires 0 <= c.count <= INT_MAX
    ensures b.id == id && b.count as int == c.count
    ensures b.total as int == Exec(c, acts).total && b.waitQ == Exec(c, acts).waitQ
    ensures ths == ThreadsOf(Exec(c, acts))
  {
    b := new Barrier(id, c.count);
    ths := Threads({}, {}, {}, {}, {}, false);
    for i := 0 to |acts|
      invariant fresh(b) && b.id == id && b.count as int == c.count
      invariant b.total as int == Exec(c, acts[..i]).total && b.waitQ == Exec(c, acts[..i]).waitQ
      invariant ths == ThreadsOf(Exec(c, acts[..i]))
    {
      assert acts[..i + 1][..i] == acts[..i];
      ths := Perform(b, ths, acts[i], c, Exec(c, acts[..i]));
    }
    assert acts[..|acts|] == acts;
  }
}
