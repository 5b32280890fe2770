/** The five-slot ring of distance samples. */
module SampleRing {

  const NUM_DATA: int := 5

  /** `newest` is the slot of the latest sample, -1 while there is none. */
  datatype Ring = Ring(newest: int, data: seq<int>)

  datatype Copied = Sample(value: int) | OutOfBuffer

  function EmptyRing(): Ring {
    Ring(-1, [0, 0, 0, 0, 0])
  }

  predicate WellFormed(r: Ring) {
    |r.data| == NUM_DATA && -1 <= r.newest < NUM_DATA
  }

  function Push(r: Ring, d: int): Ring
    requires WellFormed(r)
  {
    var slot := (r.newest + 1) % NUM_DATA;
    Ring(slot, r.data[slot := d])
  }

  /** The copy in `hc_sr04_read`, which does not test `newest` again. */
  function Copy(r: Ring): Copied
    requires WellFormed(r)
  {
    if r.newest == -1 then OutOfBuffer else Sample(r.data[r.newest])
  }

  /** The slot k places back round the ring. */
  function Back(newest: int, k: int): (slot: int)
    requires 0 <= newest < NUM_DATA && 0 <= k < NUM_DATA
    ensures slot == (newest + NUM_DATA - k) % NUM_DATA
  {
    if k <= newest then newest - k else newest - k + NUM_DATA
  }

  /** The ring holds the tail of the samples since the last clear: k slots back is the k-th latest sample. */
  ghost predicate Holds(r: Ring, samples: seq<int>) {
    && WellFormed(r)
    && r.newest == (if samples == [] then -1 else (|samples| - 1) % NUM_DATA)
    && forall k :: 0 <= k < |samples| && k < NUM_DATA ==>
         r.data[Back(r.newest, k)] == samples[|samples| - 1 - k]
  }

  lemma PushHolds(r: Ring, samples: seq<int>, d: int)
    requires Holds(r, samples)
    ensures Holds(Push(r, d), samples + [d])
  {
    var after := Push(r, d);
    var more := samples + [d];
    NextSlot(|samples|);
    forall k | 0 <= k < |more| && k < NUM_DATA
      ensures after.data[Back(after.newest, k)] == more[|more| - 1 - k]
    {
      if k > 0 {
        assert Back(after.newest, k) == Back(r.newest, k - 1) != after.newest;
      }
    }
  }

  lemma NextSlot(n: nat)
    ensures n > 0 ==> ((n - 1) % NUM_DATA + 1) % NUM_DATA == n % NUM_DATA
  {
  }

  /** A copy gets the latest sample, or nothing of the buffer when there is none since the last clear. */
  lemma CopyIsLatest(r: Ring, samples: seq<int>)
    requires Holds(r, samples)
    ensures Copy(r) == if samples == [] then OutOfBuffer else Sample(samples[|samples| - 1])
  {
    if samples != [] {
      assert Back(r.newest, 0) == r.newest;
    }
  }

  /** The ring as the driver keeps it. */
  class CirBuf {
    var newest: int
    const data: array<int>

    ghost predicate Valid()
      reads this, data
    {
      data.Length == NUM_DATA && -1 <= newest < NUM_DATA
    }

    ghost function Abs(): Ring
      reads this, data
      requires Valid()
    {
      Ring(newest, data[..])
    }

    constructor ()
      ensures Valid() && Abs() == EmptyRing() && fresh(data)
    {
      newest := -1;
      data := new int[5] [0, 0, 0, 0, 0];
    }

    method Record(distance: int)
      requires Valid()
      modifies this, data
      ensures Valid() && Abs() == Push(old(Abs()), distance)
    {
      newest := (newest + 1) % NUM_DATA;
      data[newest] := distance;
    }

    /** The memset and the reset of `newest` in `hc_sr04_write`. */
    method Clear()
      requires Valid()
      modifies this, data
      ensures Valid() && Abs() == EmptyRing()
      ensures newest == -1 && forall j :: 0 <= j < NUM_DATA ==> data[j] == 0
    {
      for i := 0 to NUM_DATA
        invariant forall j :: 0 <= j < i ==> data[j] == 0
      {
        data[i] := 0;
      }
      newest := -1;
      assert data[..] == [0, 0, 0, 0, 0];
    }
  }
}
