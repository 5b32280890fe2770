/** Any number of sensors on one board, setting and re-setting their pins. */
module GpioOwnership {
  import opened Counting
  import opened GpioSpec

  type Dev = int

  datatype Pins = Pins(trigger: int, echo: int)

  const UNSET: Pins := Pins(-1, -1)

  /** `held` is what the kernel has given out; `lost` is history: lines got by a call that then failed. */
  datatype Board = Board(held: set<int>, pins: map<Dev, Pins>, lost: set<int>)

  function PinsOf(s: Board, d: Dev): Pins {
    if d in s.pins then s.pins[d] else UNSET
  }

  function Owned(table: PinTable, pins: Pins): set<int>
    requires Rectangular(table)
  {
    Members(TrigLines(table, pins.trigger)) + Members(EchoLines(table, pins.echo))
  }

  function Freed(table: PinTable, held: set<int>, pins: Pins): set<int>
    requires Rectangular(table)
  {
    Release(Release(held, TrigLines(table, pins.trigger)), EchoLines(table, pins.echo))
  }

  /** Both scans, as far as they get. */
  function Taken(table: PinTable, held: set<int>, pins: Pins): Acquired
    requires Rectangular(table)
  {
    var trig := Acquire(held, TrigLines(table, pins.trigger));
    if trig.ok then Acquire(trig.held, EchoLines(table, pins.echo)) else trig
  }

  /** SETPINS: free the old lines, take the new ones, ask for the interrupt. A failure forgets the pins
      but keeps the lines. */
  function SetPins(table: PinTable, s: Board, d: Dev, pins: Pins, irqOk: bool): Board
    requires Rectangular(table)
  {
    var free := Freed(table, s.held, PinsOf(s, d));
    var got := Taken(table, free, pins);
    if got.ok && irqOk then Board(got.held, s.pins[d := pins], s.lost)
    else Board(got.held, s.pins[d := UNSET], s.lost + (got.held - free))
  }

  predicate Succeeds(table: PinTable, s: Board, d: Dev, pins: Pins, irqOk: bool)
    requires Rectangular(table)
  {
    irqOk && Taken(table, Freed(table, s.held, PinsOf(s, d)), pins).ok
  }

  /** Every line given out and not lost is some device's. */
  ghost predicate Accounted(table: PinTable, s: Board)
    requires Rectangular(table)
  {
    forall x :: x in s.held && x !in s.lost ==> exists d :: d in s.pins && x in Owned(table, s.pins[d])
  }

  /** Every line given out has exactly one owner, a device or nobody at all. */
  ghost predicate Ownership(table: PinTable, s: Board)
    requires Rectangular(table)
  {
    && (forall d :: d in s.pins ==>
          && Owned(table, s.pins[d]) <= s.held
          && Owned(table, s.pins[d]) !! s.lost
          && Members(TrigLines(table, s.pins[d].trigger)) !! Members(EchoLines(table, s.pins[d].echo)))
    && (forall d, e :: d in s.pins && e in s.pins && d != e ==> Owned(table, s.pins[d]) !! Owned(table, s.pins[e]))
    && s.lost <= s.held
    && Accounted(table, s)
  }

  lemma FreedMeans(table: PinTable, held: set<int>, pins: Pins)
    requires Rectangular(table)
    ensures Freed(table, held, pins) == held - Owned(table, pins)
  {
    ReleaseMeans(held, TrigLines(table, pins.trigger));
    ReleaseMeans(held - Members(TrigLines(table, pins.trigger)), EchoLines(table, pins.echo));
  }

  lemma TakenMeans(table: PinTable, held: set<int>, pins: Pins)
    requires Proper(table)
    ensures
      var got := Taken(table, held, pins);
      && (got.ok <==> Owned(table, pins) !! held
                      && Members(TrigLines(table, pins.trigger)) !! Members(EchoLines(table, pins.echo)))
      && (got.ok ==> got.held == held + Owned(table, pins))
      && held <= got.held <= held + Owned(table, pins)
  {
    PinLinesDistinct(table, pins.trigger, true);
    PinLinesDistinct(table, pins.echo, false);
    var trig := Acquire(held, TrigLines(table, pins.trigger));
    AcquireMeans(held, TrigLines(table, pins.trigger));
    if trig.ok { AcquireMeans(trig.held, EchoLines(table, pins.echo)); }
  }

  lemma UnsetOwnsNothing(table: PinTable)
    requires Proper(table)
    ensures Owned(table, UNSET) == {}
  {
    PinLinesDistinct(table, -1, true);
    PinLinesDistinct(table, -1, false);
  }

  /** A line that is not the device's own is freed by nobody. */
  lemma OthersStay(table: PinTable, s: Board, d: Dev)
    requires Proper(table) && Ownership(table, s)
    ensures
      var free := s.held - Owned(table, PinsOf(s, d));
      && s.lost <= free
      && (forall e :: e in s.pins && e != d ==> Owned(table, s.pins[e]) <= free)
      && (forall x :: x in free && x !in s.lost ==> exists e :: e in s.pins && e != d && x in Owned(table, s.pins[e]))
  {
    UnsetOwnsNothing(table);
    var free := s.held - Owned(table, PinsOf(s, d));
    forall x | x in free && x !in s.lost ensures exists e :: e in s.pins && e != d && x in Owned(table, s.pins[e]) {
      var e :| e in s.pins && x in Owned(table, s.pins[e]);
      assert e != d;
    }
  }

  /** A board is still accounted for when one device's pins change, if only its old lines go and only its new
      and lost ones come. */
  lemma StillAccounted(table: PinTable, s: Board, d: Dev, s': Board)
    requires Proper(table) && Ownership(table, s)
    requires s'.pins.Keys == s.pins.Keys + {d} && s.lost <= s'.lost
    requires forall e :: e in s.pins && e != d ==> s'.pins[e] == s.pins[e]
    requires forall x :: x in s'.held && x !in s'.lost ==>
      x in s.held - Owned(table, PinsOf(s, d)) || x in Owned(table, s'.pins[d])
    ensures Accounted(table, s')
  {
    OthersStay(table, s, d);
    forall x | x in s'.held && x !in s'.lost ensures exists e :: e in s'.pins && x in Owned(table, s'.pins[e]) {
      if x in s.held - Owned(table, PinsOf(s, d)) {
        var e :| e in s.pins && e != d && x in Owned(table, s.pins[e]);
        assert e in s'.pins;
      } else {
        assert d in s'.pins;
      }
    }
  }

  /** A call that succeeds adds the new lines to what the others own. */
  lemma SuccessKeepsOwnership(table: PinTable, s: Board, d: Dev, pins: Pins, free: set<int>)
    requires Proper(table) && Ownership(table, s) && free == s.held - Owned(table, PinsOf(s, d))
    requires Owned(table, pins) !! free
    requires Members(TrigLines(table, pins.trigger)) !! Members(EchoLines(table, pins.echo))
    ensures Ownership(table, Board(free + Owned(table, pins), s.pins[d := pins], s.lost))
  {
    OthersStay(table, s, d);
    StillAccounted(table, s, d, Board(free + Owned(table, pins), s.pins[d := pins], s.lost));
  }

  /** A call that fails leaves the device with nothing and what it got with nobody. */
  lemma FailureKeepsOwnership(table: PinTable, s: Board, d: Dev, got: set<int>, free: set<int>)
    requires Proper(table) && Ownership(table, s) && free == s.held - Owned(table, PinsOf(s, d)) && free <= got
    ensures Ownership(table, Board(got, s.pins[d := UNSET], s.lost + (got - free)))
  {
    OthersStay(table, s, d);
    UnsetOwnsNothing(table);
    StillAccounted(table, s, d, Board(got, s.pins[d := UNSET], s.lost + (got - free)));
  }

  lemma SetPinsKeepsOwnership(table: PinTable, s: Board, d: Dev, pins: Pins, irqOk: bool)
    requires Proper(table) && Ownership(table, s)
    ensures Ownership(table, SetPins(table, s, d, pins, irqOk))
  {
    var free := Freed(table, s.held, PinsOf(s, d));
    FreedMeans(table, s.held, PinsOf(s, d));
    TakenMeans(table, free, pins);
    if Succeeds(table, s, d, pins, irqOk) {
      SuccessKeepsOwnership(table, s, d, pins, free);
    } else {
      FailureKeepsOwnership(table, s, d, Taken(table, free, pins).held, free);
    }
  }

  datatype Request = Request(d: Dev, pins: Pins, irqOk: bool)

  function Serve(table: PinTable, reqs: seq<Request>): Board
    requires Rectangular(table)
  {
    if reqs == [] then Board({}, map[], {})
    else
      var r := reqs[|reqs| - 1];
      SetPins(table, Serve(table, reqs[..|reqs| - 1]), r.d, r.pins, r.irqOk)
  }

  /** Over every run of SETPINS calls on any number of devices, failed calls included. */
  lemma {:induction false} EveryRunKeepsOwnership(table: PinTable, reqs: seq<Request>)
    requires Proper(table)
    ensures Ownership(table, Serve(table, reqs))
  {
    if reqs != [] {
      var r := reqs[|reqs| - 1];
      EveryRunKeepsOwnership(table, reqs[..|reqs| - 1]);
      SetPinsKeepsOwnership(table, Serve(table, reqs[..|reqs| - 1]), r.d, r.pins, r.irqOk);
    }
  }

  predicate AllSucceed(table: PinTable, reqs: seq<Request>)
    requires Rectangular(table)
  {
    reqs == [] ||
    var r := reqs[|reqs| - 1];
    AllSucceed(table, reqs[..|reqs| - 1])
    && Succeeds(table, Serve(table, reqs[..|reqs| - 1]), r.d, r.pins, r.irqOk)
  }

  /** With no failed call, the lines given out are exactly those of the devices' current pins. */
  lemma {:induction false} SuccessfulRunsLoseNothing(table: PinTable, reqs: seq<Request>)
    requires Proper(table) && AllSucceed(table, reqs)
    ensures
      var s := Serve(table, reqs);
      s.lost == {} && forall x :: x in s.held <==> exists d :: d in s.pins && x in Owned(table, s.pins[d])
  {
    EveryRunKeepsOwnership(table, reqs);
    if reqs != [] { SuccessfulRunsLoseNothing(table, reqs[..|reqs| - 1]); }
  }

  /** A line another device owns, or a line that has been lost. */
  ghost predicate Unavailable(table: PinTable, s: Board, d: Dev, x: int)
    requires Rectangular(table)
  {
    x in s.lost || exists e :: e in s.pins && e != d && x in Owned(table, s.pins[e])
  }

  /** What is left to the others once a device has freed its own lines is exactly what it cannot have. */
  lemma FreeIsUnavailable(table: PinTable, s: Board, d: Dev, x: int)
    requires Proper(table) && Ownership(table, s)
    ensures x in s.held - Owned(table, PinsOf(s, d)) <==> Unavailable(table, s, d, x)
  {
    OthersStay(table, s, d);
    if x in s.held - Owned(table, PinsOf(s, d)) && x !in s.lost {
      var e :| e in s.pins && e != d && x in Owned(table, s.pins[e]);
    }
  }

  /** The interrupt is granted, the two pins share no line, and no line is another device's or lost. */
  ghost predicate Grantable(table: PinTable, s: Board, d: Dev, pins: Pins, irqOk: bool)
    requires Rectangular(table)
  {
    && irqOk
    && Members(TrigLines(table, pins.trigger)) !! Members(EchoLines(table, pins.echo))
    && forall x :: x in Owned(table, pins) ==> !Unavailable(table, s, d, x)
  }

  /** Exactly when SETPINS succeeds: the interrupt is granted, the two pins share no line, and no line is
      another device's or lost. The device's own old pins never stand in the way. */
  lemma SucceedsIff(table: PinTable, s: Board, d: Dev, pins: Pins, irqOk: bool)
    requires Proper(table) && Ownership(table, s)
    ensures Succeeds(table, s, d, pins, irqOk) <==> Grantable(table, s, d, pins, irqOk)
  {
    FreedMeans(table, s.held, PinsOf(s, d));
    var free := s.held - Owned(table, PinsOf(s, d));
    TakenMeans(table, free, pins);
    forall x ensures x in free <==> Unavailable(table, s, d, x) {
      FreeIsUnavailable(table, s, d, x);
    }
    if !(Owned(table, pins) !! free) {
      var x := Shared(Owned(table, pins), free);
    }
  }

  lemma GrantedMeans(table: PinTable, s: Board, d: Dev, pins: Pins, irqOk: bool)
    requires Rectangular(table)
    ensures Proper(table) && Ownership(table, s) ==>
      (Succeeds(table, s, d, pins, irqOk) <==> Grantable(table, s, d, pins, irqOk))
  {
    if Proper(table) && Ownership(table, s) { SucceedsIff(table, s, d, pins, irqOk); }
  }

  /** The lines SETPINS asks for, in the order it asks. */
  function Wanted(table: PinTable, pins: Pins): seq<int>
    requires Rectangular(table)
  {
    TrigLines(table, pins.trigger) + EchoLines(table, pins.echo)
  }

  /** The first k lines asked for are to be had, each asked for once; the next one, if any, is not. */
  ghost predicate RefusedAt(table: PinTable, s: Board, d: Dev, lines: seq<int>, k: nat)
    requires Rectangular(table)
  {
    && k <= |lines|
    && (forall i :: 0 <= i < k ==> !Unavailable(table, s, d, lines[i]) && lines[i] !in lines[..i])
    && (k < |lines| ==> Unavailable(table, s, d, lines[k]) || lines[k] in lines[..k])
  }

  lemma TakenStops(table: PinTable, s: Board, d: Dev, pins: Pins) returns (k: nat)
    requires Proper(table) && Ownership(table, s)
    ensures
      var free := s.held - Owned(table, PinsOf(s, d));
      && RefusedAt(table, s, d, Wanted(table, pins), k)
      && Taken(table, free, pins).held == free + Members(Wanted(table, pins)[..k])
  {
    var free := s.held - Owned(table, PinsOf(s, d));
    AcquireConcat(free, TrigLines(table, pins.trigger), EchoLines(table, pins.echo));
    k := AcquireStops(free, Wanted(table, pins));
    forall x ensures x in free <==> Unavailable(table, s, d, x) {
      FreeIsUnavailable(table, s, d, x);
    }
  }

  /** What SETPINS leaves behind, told from the state before it. If it can be granted, the device has the pins
      asked for and the board their lines in place of the old ones. If not, the device has no pins and the
      board has the old lines free and those before the first refused one given out to nobody. Other devices
      keep their pins either way. */
  lemma SetPinsMeans(table: PinTable, s: Board, d: Dev, pins: Pins, irqOk: bool) returns (k: nat)
    requires Proper(table) && Ownership(table, s)
    ensures
      var s' := SetPins(table, s, d, pins, irqOk);
      var free := s.held - Owned(table, PinsOf(s, d));
      && d in s'.pins && RefusedAt(table, s, d, Wanted(table, pins), k)
      && (if Grantable(table, s, d, pins, irqOk) then
            PinsOf(s', d) == pins && s'.held == free + Owned(table, pins) && s'.lost == s.lost
          else
            && PinsOf(s', d) == UNSET && s'.held == free + Members(Wanted(table, pins)[..k])
            && s'.lost == s.lost + Members(Wanted(table, pins)[..k]))
      && (forall e :: e != d ==> (e in s'.pins <==> e in s.pins) && PinsOf(s', e) == PinsOf(s, e))
  {
    var free := s.held - Owned(table, PinsOf(s, d));
    FreedMeans(table, s.held, PinsOf(s, d));
    TakenMeans(table, free, pins);
    SucceedsIff(table, s, d, pins, irqOk);
    k := TakenStops(table, s, d, pins);
    GotAreNew(table, s, d, Wanted(table, pins), k);
  }

  lemma GotAreNew(table: PinTable, s: Board, d: Dev, lines: seq<int>, k: nat)
    requires Proper(table) && Ownership(table, s) && RefusedAt(table, s, d, lines, k)
    ensures
      var free := s.held - Owned(table, PinsOf(s, d));
      (free + Members(lines[..k])) - free == Members(lines[..k])
  {
    forall x | x in Members(lines[..k]) ensures x !in s.held - Owned(table, PinsOf(s, d)) {
      FreeIsUnavailable(table, s, d, x);
    }
  }

  /** A device's pins, read off the calls: those of its last call if that could be granted when it was made,
      none otherwise. */
  ghost function PinsByHistory(table: PinTable, reqs: seq<Request>, d: Dev): Pins
    requires Rectangular(table)
  {
    if reqs == [] then UNSET
    else
      var before, r := reqs[..|reqs| - 1], reqs[|reqs| - 1];
      if r.d != d then PinsByHistory(table, before, d)
      else if Grantable(table, Serve(table, before), d, r.pins, r.irqOk) then r.pins
      else UNSET
  }

  lemma {:induction false} LastCallDecides(table: PinTable, reqs: seq<Request>, d: Dev)
    requires Proper(table)
    ensures PinsOf(Serve(table, reqs), d) == PinsByHistory(table, reqs, d)
  {
    if reqs != [] {
      var before, r := reqs[..|reqs| - 1], reqs[|reqs| - 1];
      LastCallDecides(table, before, d);
      EveryRunKeepsOwnership(table, before);
      PinsAfter(table, Serve(table, before), r.d, r.pins, r.irqOk, d);
    }
  }

  lemma PinsAfter(table: PinTable, s: Board, d: Dev, pins: Pins, irqOk: bool, e: Dev)
    requires Proper(table) && Ownership(table, s)
    ensures PinsOf(SetPins(table, s, d, pins, irqOk), e) ==
      if e != d then PinsOf(s, e) else if Grantable(table, s, d, pins, irqOk) then pins else UNSET
  {
    var k := SetPinsMeans(table, s, d, pins, irqOk);
  }

  /** Exactly when a call loses no line, told from the state before it: it asks for none, or already the
      first is refused, or it succeeds. Every other call leaves lines with nobody. */
  lemma LosesIff(table: PinTable, s: Board, d: Dev, pins: Pins, irqOk: bool)
    requires Proper(table) && Ownership(table, s)
    ensures s.lost <= SetPins(table, s, d, pins, irqOk).lost
    ensures SetPins(table, s, d, pins, irqOk).lost == s.lost <==>
      || Wanted(table, pins) == []
      || Unavailable(table, s, d, Wanted(table, pins)[0])
      || Grantable(table, s, d, pins, irqOk)
  {
    var free := Freed(table, s.held, PinsOf(s, d));
    FreedMeans(table, s.held, PinsOf(s, d));
    TakenMeans(table, free, pins);
    AcquireConcat(free, TrigLines(table, pins.trigger), EchoLines(table, pins.echo));
    GetsNothing(free, Wanted(table, pins));
    SucceedsIff(table, s, d, pins, irqOk);
    LostAreGot(table, s, d, pins, irqOk);
    if Wanted(table, pins) != [] {
      FreeIsUnavailable(table, s, d, Wanted(table, pins)[0]);
    }
  }

  lemma GetsNothing(held: set<int>, lines: seq<int>)
    ensures Acquire(held, lines).held == held <==> lines == [] || lines[0] in held
  {
    if lines != [] && lines[0] !in held { AcquireMeans(held + {lines[0]}, lines[1..]); }
  }

  /** The lines a failed call adds to the lost ones were not lost before. */
  lemma LostAreGot(table: PinTable, s: Board, d: Dev, pins: Pins, irqOk: bool)
    requires Proper(table) && Ownership(table, s)
    ensures
      var free := Freed(table, s.held, PinsOf(s, d));
      SetPins(table, s, d, pins, irqOk).lost == s.lost <==>
        Succeeds(table, s, d, pins, irqOk) || Taken(table, free, pins).held == free
  {
    var free := Freed(table, s.held, PinsOf(s, d));
    FreedMeans(table, s.held, PinsOf(s, d));
    TakenMeans(table, free, pins);
    OthersStay(table, s, d);
    var s' := SetPins(table, s, d, pins, irqOk);
    if s'.lost == s.lost && !Succeeds(table, s, d, pins, irqOk) {
      forall x | x in s'.held ensures x in free { assert x in s'.held - free ==> x in s'.lost; }
      assert s'.held == free;
    }
  }

  /** Asking for trigger and echo on one pin always loses: with the row free, the trigger's lines are got,
      the echo's first is refused, and exactly the row without its pull line stays with nobody. */
  lemma SamePinLoses(table: PinTable, s: Board, d: Dev, r: int, irqOk: bool)
    requires Proper(table) && Ownership(table, s) && 0 <= r < |table|
    requires forall x :: x in table[r] ==> !Unavailable(table, s, d, x)
    ensures
      var pin := table[r][HC_GPIO_LINUX];
      var s' := SetPins(table, s, d, Pins(pin, pin), irqOk);
      && pin in s'.lost
      && forall x :: x in s'.lost <==> x in s.lost || (x in table[r] && x != -1 && x != table[r][HC_GPIO_PULL])
  {
    var pin := table[r][HC_GPIO_LINUX];
    var free := s.held - Owned(table, PinsOf(s, d));
    FreedMeans(table, s.held, PinsOf(s, d));
    forall x | x in Members(TrigLines(table, pin)) ensures x !in free {
      PinHoldsRow(table, r, x);
      FreeIsUnavailable(table, s, d, x);
    }
    PinHoldsRow(table, r, pin);
    LinuxIsNotPull(table, r);
    PinLinesDistinct(table, pin, true);
    OwnRow(table, pin, false, 0, r);
    BothScans(table, free, pin);
    forall x ensures x in Members(TrigLines(table, pin)) <==> x in table[r] && x != -1 && x != table[r][HC_GPIO_PULL] {
      PinHoldsRow(table, r, x);
    }
    OthersStay(table, s, d);
  }

  lemma LinuxIsNotPull(table: PinTable, r: int)
    requires Proper(table) && 0 <= r < |table|
    ensures table[r][HC_GPIO_LINUX] != table[r][HC_GPIO_PULL]
  {
  }

  lemma BothScans(table: PinTable, free: set<int>, pin: int)
    requires Rectangular(table) && Distinct(TrigLines(table, pin)) && Members(TrigLines(table, pin)) !! free
    requires pin in Members(TrigLines(table, pin)) && EchoLines(table, pin) != [] && EchoLines(table, pin)[0] == pin
    ensures Taken(table, free, Pins(pin, pin)) == Acquired(free + Members(TrigLines(table, pin)), false)
  {
    AcquireMeans(free, TrigLines(table, pin));
  }

  lemma {:induction false} LostGrows(table: PinTable, before: seq<Request>, after: seq<Request>)
    requires Proper(table)
    ensures Serve(table, before).lost <= Serve(table, before + after).lost
  {
    if after == [] {
      assert before + after == before;
    } else {
      LostGrows(table, before, after[..|after| - 1]);
      assert (before + after)[..|before + after| - 1] == before + after[..|after| - 1];
    }
  }

  /** A lost line is lost for good: after any further calls the kernel still has it given out, no device
      owns it, and no call for a pin that needs it can succeed. */
  lemma LostForGood(table: PinTable, before: seq<Request>, after: seq<Request>, x: int)
    requires Proper(table) && x in Serve(table, before).lost
    ensures
      var s := Serve(table, before + after);
      && x in s.held
      && (forall d :: d in s.pins ==> x !in Owned(table, s.pins[d]))
      && (forall d, pins, irqOk :: x in Owned(table, pins) ==> !Succeeds(table, s, d, pins, irqOk))
  {
    LostGrows(table, before, after);
    EveryRunKeepsOwnership(table, before + after);
    var s := Serve(table, before + after);
    forall d, pins, irqOk | x in Owned(table, pins) ensures !Succeeds(table, s, d, pins, irqOk) {
      SucceedsIff(table, s, d, pins, irqOk);
      assert Unavailable(table, s, d, x);
    }
  }

  // ----- The board's own table -----

  const ALL_PINS: PinTable := [
    [11, 32, 33, -1, -1],
    [12, 28, 29, 45, -1],
    [13, 34, 35, 77, -1],
    [14, 16, 17, 76, 64],
    [6, 36, 37, -1, -1],
    [0, 18, 19, 66, -1],
    [1, 20, 21, 68, -1],
    [38, -1, -1, -1, -1],
    [40, -1, -1, -1, -1],
    [4, 22, 23, 70, -1],
    [10, 26, 27, 74, -1],
    [5, 24, 25, 44, 72],
    [15, 42, 43, -1, -1],
    [7, 30, 31, 46, -1],
    [48, -1, -1, -1, -1],
    [50, -1, -1, -1, -1],
    [52, -1, -1, -1, -1],
    [54, -1, -1, -1, -1],
    [56, -1, -1, -1, -1],
    [58, -1, -1, -1, -1]]

  /** Where each line of the board's table is: its inverse. */
  function PlaceOf(line: int): (int, int) {
    match line
    case 11 => (0, 0) case 32 => (0, 1) case 33 => (0, 2)
    case 12 => (1, 0) case 28 => (1, 1) case 29 => (1, 2) case 45 => (1, 3)
    case 13 => (2, 0) case 34 => (2, 1) case 35 => (2, 2) case 77 => (2, 3)
    case 14 => (3, 0) case 16 => (3, 1) case 17 => (3, 2) case 76 => (3, 3) case 64 => (3, 4)
    case 6 => (4, 0) case 36 => (4, 1) case 37 => (4, 2)
    case 0 => (5, 0) case 18 => (5, 1) case 19 => (5, 2) case 66 => (5, 3)
    case 1 => (6, 0) case 20 => (6, 1) case 21 => (6, 2) case 68 => (6, 3)
    case 38 => (7, 0) case 40 => (8, 0)
    case 4 => (9, 0) case 22 => (9, 1) case 23 => (9, 2) case 70 => (9, 3)
    case 10 => (10, 0) case 26 => (10, 1) case 27 => (10, 2) case 74 => (10, 3)
    case 5 => (11, 0) case 24 => (11, 1) case 25 => (11, 2) case 44 => (11, 3) case 72 => (11, 4)
    case 15 => (12, 0) case 42 => (12, 1) case 43 => (12, 2)
    case 7 => (13, 0) case 30 => (13, 1) case 31 => (13, 2) case 46 => (13, 3)
    case 48 => (14, 0) case 50 => (15, 0) case 52 => (16, 0) case 54 => (17, 0) case 56 => (18, 0) case 58 => (19, 0)
    case _ => (-1, -1)
  }

  lemma BoardRow(i: int)
    requires 0 <= i < |ALL_PINS|
    ensures |ALL_PINS[i]| == PIN_SIZE && ALL_PINS[i][HC_GPIO_LINUX] != -1
    ensures forall m :: 0 <= m < PIN_SIZE && ALL_PINS[i][m] != -1 ==> PlaceOf(ALL_PINS[i][m]) == (i, m)
  {
  }

  /** The theorems above apply to the board's table. */
  lemma BoardTableIsProper()
    ensures Proper(ALL_PINS)
  {
    forall i | 0 <= i < |ALL_PINS|
      ensures |ALL_PINS[i]| == PIN_SIZE && ALL_PINS[i][HC_GPIO_LINUX] != -1
      ensures forall m :: 0 <= m < PIN_SIZE && ALL_PINS[i][m] != -1 ==> PlaceOf(ALL_PINS[i][m]) == (i, m)
    {
      BoardRow(i);
    }
  }

  lemma SameMembers<T>(a: set<T>, b: set<T>)
    requires forall x :: x in a <==> x in b
    ensures a == b
  {
  }

  lemma RowZero(row: seq<int>)
    requires row == [11, 32, 33, -1, -1]
    ensures forall x :: x in row && x != -1 && x != row[HC_GPIO_PULL] <==> x in {11, 32}
  {
    assert row[0] == 11 && row[1] == 32;
  }

  lemma FirstCallLoses(table: PinTable)
    requires Proper(table) && table != [] && table[0] == [11, 32, 33, -1, -1]
    ensures Serve(table, [Request(0, Pins(11, 11), true)]).lost == {11, 32}
  {
    var none := Serve(table, []);
    EveryRunKeepsOwnership(table, []);
    SamePinLoses(table, none, 0, 0, true);
    assert [Request(0, Pins(11, 11), true)][..0] == [];
    RowZero(table[0]);
    var lost := Serve(table, [Request(0, Pins(11, 11), true)]).lost;
    assert forall x :: x in lost <==> x in table[0] && x != -1 && x != table[0][HC_GPIO_PULL];
    SameMembers(lost, {11, 32});
  }

  /** On the board, the very first call can lose lines. */
  lemma FirstCallMayLose()
    ensures Serve(ALL_PINS, [Request(0, Pins(11, 11), true)]).lost == {11, 32}
  {
    BoardTableIsProper();
    FirstCallLoses(ALL_PINS);
  }
}
