/** The result ring of the mprobe debugger: ten slots, a zero timestamp marking an unused one. */
module MprobeRing {

  const RING_SIZE: int := 10

  datatype Hit = Hit(addr: int, pid: int, xtc: int, gVar: int, localVar: int)

  const UNUSED: Hit := Hit(0, 0, 0, 0, 0)

  /** How many of n hits are still in the ring. */
  function Kept(n: nat): nat {
    if n < RING_SIZE then n else RING_SIZE
  }

  /** The hit in slot j after all hits: the latest one whose number is j modulo the ring size. */
  function SlotHit(n: nat, j: nat): int
    requires j < Kept(n)
  {
    n - 1 - (n - 1 - j) % RING_SIZE
  }

  /** The last hits in the order they happened. */
  function Latest(hits: seq<Hit>): seq<Hit> {
    hits[|hits| - Kept(|hits|)..]
  }

  ghost predicate Stamped(hits: seq<Hit>) {
    forall i :: 0 <= i < |hits| ==> hits[i].xtc != 0
  }

  /** Each used slot holds the latest hit with its number, the others are unused. */
  ghost predicate Holds(slots: seq<Hit>, hits: seq<Hit>) {
    && |slots| == RING_SIZE
    && (forall j :: 0 <= j < Kept(|hits|) ==> slots[j] == hits[SlotHit(|hits|, j)])
    && (forall j :: Kept(|hits|) <= j < RING_SIZE ==> slots[j] == UNUSED)
  }

  lemma HitHeld(slots: seq<Hit>, hits: seq<Hit>, h: Hit)
    requires Holds(slots, hits)
    ensures Holds(slots[|hits| % RING_SIZE := h], hits + [h])
  {
    var n := |hits|;
    var more := hits + [h];
    var after := slots[n % RING_SIZE := h];
    forall j | 0 <= j < Kept(n + 1) ensures after[j] == more[SlotHit(n + 1, j)] {
      SlotStays(n, j);
    }
  }

  class RingBuffer {
    var idx: int
    const rst: array<Hit>
    ghost var hits: seq<Hit>

    ghost predicate Valid()
      reads this, rst
    {
      rst.Length == RING_SIZE && idx == |hits| % RING_SIZE && Holds(rst[..], hits)
    }

    constructor ()
      ensures Valid() && hits == []
    {
      rst := new Hit[RING_SIZE](_ => UNUSED);
      idx, hits := 0, [];
    }

    /** `handler_pre`. */
    method HandlerPre(h: Hit)
      requires Valid()
      modifies this, rst
      ensures Valid() && hits == old(hits) + [h]
    {
      var slot := idx;
      idx := (idx + 1) % RING_SIZE;
      rst[slot] := h;
      assert rst[..] == old(rst[..])[slot := h];
      HitHeld(old(rst[..]), hits, h);
      hits := hits + [h];
    }

    /** `mprobe_read`: nothing when slot 0 is unused, else the slots before the first unused one. What it
        returns are hits, each in its own slot; it returns all that are still in the ring exactly when none
        of those has a zero timestamp. */
    method Read() returns (ok: bool, out: seq<Hit>)
      requires Valid()
      ensures |out| <= RING_SIZE && out == rst[..|out|] && (forall j :: 0 <= j < |out| ==> out[j].xtc != 0)
      ensures |out| < RING_SIZE ==> rst[|out|].xtc == 0
      ensures ok <==> out != []
      ensures |out| <= Kept(|hits|) && (forall j :: 0 <= j < |out| ==> out[j] == hits[SlotHit(|hits|, j)])
      ensures |out| == Kept(|hits|) <==> Stamped(Latest(hits))
    {
      if 0 == rst[0].xtc {
        ScanMeans(rst[..], hits, 0);
        return false, [];
      }
      var i := 0;
      while i < RING_SIZE && 0 != rst[i].xtc
        invariant 0 <= i <= RING_SIZE
        invariant forall j :: 0 <= j < i ==> rst[j].xtc != 0
      {
        i := i + 1;
      }
      ok, out := true, rst[..i];
      ScanMeans(rst[..], hits, i);
    }
  }

  /** A scan that stops at slot i, the first unused one, has passed hits only, and all that are kept exactly
      when none of them looks unused. */
  lemma ScanMeans(slots: seq<Hit>, hits: seq<Hit>, i: int)
    requires Holds(slots, hits) && 0 <= i <= RING_SIZE
    requires forall j :: 0 <= j < i ==> slots[j].xtc != 0
    requires i < RING_SIZE ==> slots[i].xtc == 0
    ensures i <= Kept(|hits|) && (i == Kept(|hits|) <==> Stamped(Latest(hits)))
  {
    var n := |hits|;
    var kept := Kept(n);
    assert kept < RING_SIZE ==> slots[kept] == UNUSED;
    if i == kept {
      forall k | 0 <= k < kept ensures Latest(hits)[k].xtc != 0 {
        var j := SlotOf(n, n - kept + k);
        assert slots[j] == hits[n - kept + k];
      }
    } else {
      assert slots[i] == hits[SlotHit(n, i)];
      SlotInWindow(n, i);
      assert Latest(hits)[SlotHit(n, i) - (n - kept)] == slots[i];
    }
  }

  /** The slot's hit is one of its own number. */
  lemma SlotNumber(n: nat, j: nat)
    requires j < Kept(n)
    ensures SlotHit(n, j) % RING_SIZE == j
  {
    var q := (n - 1 - j) / RING_SIZE;
    assert SlotHit(n, j) == j + RING_SIZE * q;
  }

  /** Every hit still in the ring has a slot, */
  lemma SlotOf(n: nat, h: int) returns (j: nat)
    requires n - Kept(n) <= h < n
    ensures j < Kept(n) && SlotHit(n, j) == h
  {
    j := h % RING_SIZE;
    assert (n - 1 - j) % RING_SIZE == n - 1 - h by { SameSlot(n, h); }
  }

  lemma SameSlot(n: nat, h: int)
    requires 0 <= h < n && n - RING_SIZE <= h
    ensures (n - 1 - h % RING_SIZE) % RING_SIZE == n - 1 - h
  {
    var q := h / RING_SIZE;
    assert n - 1 - h % RING_SIZE == n - 1 - h + RING_SIZE * q;
  }

  /** and every used slot holds one. */
  lemma SlotInWindow(n: nat, j: nat)
    requires j < Kept(n)
    ensures n - Kept(n) <= SlotHit(n, j) < n
  {
  }

  /** One more hit takes the slot of its own number and moves no other. */
  lemma SlotStays(n: nat, j: nat)
    requires j < Kept(n + 1)
    ensures if j == n % RING_SIZE then SlotHit(n + 1, j) == n else j < Kept(n) && SlotHit(n + 1, j) == SlotHit(n, j)
  {
    if j != n % RING_SIZE {
      assert (n - j) % RING_SIZE == (n - 1 - j) % RING_SIZE + 1;
    }
  }

  lemma SlotInOrder(n: nat, j: nat)
    requires j < Kept(n) && (n <= RING_SIZE || n % RING_SIZE == 0)
    ensures SlotHit(n, j) == n - Kept(n) + j
  {
  }

  lemma FirstSlotWrapped(n: nat)
    requires n > RING_SIZE && n % RING_SIZE != 0
    ensures n - RING_SIZE < SlotHit(n, 0) < n
  {
  }

  /** The slots are in the order of the hits exactly when the ring has not wrapped or has just come full
      circle, as long as the hits still in the ring can be told apart. */
  lemma ReadIsInOrderIff(hits: seq<Hit>, out: seq<Hit>)
    requires forall i, j :: |hits| - Kept(|hits|) <= i < j < |hits| ==> hits[i] != hits[j]
    requires |out| == Kept(|hits|)
    requires forall j :: 0 <= j < |out| ==> out[j] == hits[SlotHit(|hits|, j)]
    ensures out == Latest(hits) <==> |hits| <= RING_SIZE || |hits| % RING_SIZE == 0
  {
    var n := |hits|;
    if n <= RING_SIZE || n % RING_SIZE == 0 {
      forall j | 0 <= j < |out| ensures out[j] == Latest(hits)[j] {
        SlotInOrder(n, j);
      }
    } else {
      FirstSlotWrapped(n);
      assert out[0] == hits[SlotHit(n, 0)];
      assert out[0] != Latest(hits)[0];
    }
  }
}
