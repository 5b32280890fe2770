/** One sender against any echo timing: the polling loop of `do_send` and the retry loop of `send`. */
module SendLoop {
  import opened SampleRing
  import Sampler

  const EAGAIN: int := 11

  /** When echo edges come: before the k-th test of the polling loop of one pulse. */
  type Edges = nat -> bool

  /** An edge that comes before the pulse has stamped its start. */
  datatype Early = NoEdge | EdgeAt(now: int)

  /** Some edge comes once the start is stamped and before the pulse has timed out. */
  ghost predicate Polled(e: Edges) {
    exists k: nat :: k <= Sampler.POLL_LIMIT && e(k)
  }

  ghost predicate Heard(early: Early, e: Edges) {
    early.EdgeAt? || Polled(e)
  }

  /** The first edge heard in the polling loop. */
  ghost predicate FirstEdge(e: Edges, k: nat) {
    k <= Sampler.POLL_LIMIT && e(k) && forall j: nat :: j < k ==> !e(j)
  }

  /** How a call of `send` that armed the sensor ends: how many pulses it made, and what the ring holds then. */
  ghost predicate SendEnds(
    ring: Ring, kstart: int, retryCnt: int, early: Early, e: Edges, start: int, clock: nat -> int,
    ring': Ring, pulses: nat)
    requires WellFormed(ring)
  {
    && pulses == (if Heard(early, e) || retryCnt <= 0 then 1 else 2)
    && (early.EdgeAt? ==> ring' == Push(ring, Sampler.Distance(kstart, early.now)))
    && (early.NoEdge? && Polled(e) ==>
          exists k: nat :: FirstEdge(e, k) && ring' == Push(ring, Sampler.Distance(start, clock(k))))
    && (!Heard(early, e) ==>
          ring' == if e(Sampler.POLL_LIMIT + 1)
                   then Push(ring, Sampler.Distance(start, clock(Sampler.POLL_LIMIT + 1)))
                   else ring)
  }

  class Sensor {
    var ongoing: bool
    var locked: bool
    var kstart: int
    const cirb: CirBuf

    ghost predicate Valid()
      reads this, cirb, cirb.data
    {
      cirb.Valid()
    }

    constructor ()
      ensures Valid() && !ongoing && !locked && fresh(cirb) && fresh(cirb.data) && cirb.Abs() == EmptyRing()
    {
      cirb := new CirBuf();
      ongoing, locked, kstart := false, false, 0;
    }

    /** Taking a lock one holds would hang; giving back a lock one does not hold is an error. */
    method SpinLock()
      requires !locked
      modifies this`locked
      ensures locked
    {
      locked := true;
    }

    method SpinUnlock()
      requires locked
      modifies this`locked
      ensures !locked
    {
      locked := false;
    }

    /** `echo_recv_isr`. */
    method EchoRecvIsr(now: int)
      requires Valid() && !locked
      modifies this`ongoing, this`locked, cirb, cirb.data
      ensures Valid() && !locked && !ongoing
      ensures cirb.Abs() == if old(ongoing) then Push(old(cirb.Abs()), Sampler.Distance(kstart, now)) else old(cirb.Abs())
      ensures old(ongoing) ==> cirb.newest >= 0 && Sampler.Measures(now - kstart, cirb.data[cirb.newest])
    {
      SpinLock();
      if !ongoing {
        SpinUnlock();
      } else {
        SpinUnlock();
        var diff := (now - kstart) % Sampler.UINT;
        cirb.Record(diff / 5800);
      }
      SpinLock();
      ongoing := false;
      SpinUnlock();
    }

    /** `do_send`: one pulse. Edges may come before the start is stamped, before the first test, during each
        delay, and while the timed-out sender is on its way to the lock. An edge before the stamp is
        measured from the pulse before this one. */
    method DoSend(start: int, early: Early, e: Edges, clock: nat -> int) returns (ret: int, polls: nat)
      requires Valid() && !locked
      modifies this`ongoing, this`locked, this`kstart, cirb, cirb.data
      ensures Valid() && !locked && !ongoing && kstart == start
      ensures polls <= Sampler.POLL_LIMIT + 1
      ensures !old(ongoing) ==> ret == 0 && polls == 0 && cirb.Abs() == old(cirb.Abs())
      ensures old(ongoing) && early.EdgeAt? ==>
        ret == 0 && polls == 0 && cirb.Abs() == Push(old(cirb.Abs()), Sampler.Distance(old(kstart), early.now))
      ensures old(ongoing) && early.NoEdge? ==>
        && (ret == 0 <==> Polled(e)) && (ret == 0 || ret == -EAGAIN)
        && (ret == 0 ==> FirstEdge(e, polls)
                         && cirb.Abs() == Push(old(cirb.Abs()), Sampler.Distance(start, clock(polls))))
        && (ret != 0 ==> polls == Sampler.POLL_LIMIT + 1
                         && cirb.Abs() == if e(polls) then Push(old(cirb.Abs()), Sampler.Distance(start, clock(polls)))
                                          else old(cirb.Abs()))
    {
      var cnt := 0;
      polls := 0;
      if early.EdgeAt? {
        EchoRecvIsr(early.now);
      }
      ghost var armed, ring := ongoing, cirb.Abs();
      kstart := start;
      if e(0) {
        EchoRecvIsr(clock(0));
      }
      SpinLock();
      while ongoing
        invariant Valid() && kstart == start && cnt <= 1 && polls <= Sampler.POLL_LIMIT
        invariant locked <==> cnt == 0
        invariant cnt == 0 ==> polls == 0
        invariant ongoing ==> armed && (forall k: nat :: k <= polls ==> !e(k)) && cirb.Abs() == ring
        invariant !ongoing && !armed ==> polls == 0 && cirb.Abs() == ring
        invariant !ongoing && armed ==>
          && e(polls) && (forall k: nat :: k < polls ==> !e(k))
          && cirb.Abs() == Push(ring, Sampler.Distance(start, clock(polls)))
        decreases Sampler.POLL_LIMIT - polls
      {
        if 0 == cnt {
          SpinUnlock();
          cnt := cnt + 1;
        }
        polls := polls + 1;
        if polls > Sampler.POLL_LIMIT {
          if e(polls) {
            EchoRecvIsr(clock(polls));
          }
          SpinLock();
          ongoing := false;
          SpinUnlock();
          return -EAGAIN, polls;
        }
        if e(polls) {
          EchoRecvIsr(clock(polls));
        }
      }
      if 0 == cnt {
        SpinUnlock();
      }
      ret := 0;
    }

    /** `send`: arm, then pulse until a pulse returns 0 or the retries are used up. A timed-out pulse has
        cleared `ongoing` and nothing sets it again, so the pulse after it returns 0 at once: there are
        never more than two pulses, only the first can measure, and with a retry left the result is 0
        whether or not an echo was heard. */
    method Send(retryCnt: int, early: nat -> Early, edges: nat -> Edges, starts: nat -> int, clock: nat -> int)
      returns (ret: int, pulses: nat)
      requires Valid() && !locked
      modifies this`ongoing, this`locked, this`kstart, cirb, cirb.data
      ensures Valid() && !locked
      ensures old(ongoing) ==> ret == 0 && pulses == 0 && ongoing && cirb.Abs() == old(cirb.Abs())
      ensures !old(ongoing) ==>
        && !ongoing
        && ret == (if Heard(early(0), edges(0)) || retryCnt > 0 then 0 else -EAGAIN)
        && SendEnds(old(cirb.Abs()), old(kstart), retryCnt, early(0), edges(0), starts(0), clock, cirb.Abs(), pulses)
        && kstart == starts(pulses - 1)
    {
      SpinLock();
      if ongoing {
        SpinUnlock();
        return 0, 0;
      }
      ongoing := true;
      SpinUnlock();

      var sendCnt := 0;
      var polls;
      ret, polls := DoSend(starts(0), early(0), edges(0), clock);
      pulses := 1;
      ghost var measured := cirb.Abs();
      while ret != 0 && sendCnt < retryCnt
        invariant Valid() && !locked && !ongoing && cirb.Abs() == measured
        invariant sendCnt == pulses - 1 && kstart == starts(pulses - 1)
        invariant pulses == 1 || (pulses == 2 && ret == 0 && retryCnt > 0 && !Heard(early(0), edges(0)))
        invariant pulses == 1 ==> (ret == 0 <==> Heard(early(0), edges(0))) && (ret == 0 || ret == -EAGAIN)
        decreases retryCnt - sendCnt
      {
        sendCnt := sendCnt + 1;
        ret, polls := DoSend(starts(pulses), early(pulses), edges(pulses), clock);
        pulses := pulses + 1;
      }
    }
  }
}
