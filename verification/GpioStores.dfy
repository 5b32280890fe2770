/** Setting one pin through the attributes `trigger` and `echo`. A store frees the old lines first, but a store
    that fails leaves the old pin in the configuration. */
module GpioStores {
  import opened Counting
  import opened GpioSpec
  import opened GpioOwnership

  /** What the user wrote. */
  datatype Text = Unreadable | Number(pin: int)

  function HalfPin(pins: Pins, trigger: bool): int {
    if trigger then pins.trigger else pins.echo
  }

  /** The lines of one of the two pins. */
  function Half(table: PinTable, pins: Pins, trigger: bool): set<int>
    requires Rectangular(table)
  {
    Members(PinLines(table, HalfPin(pins, trigger), trigger, 0))
  }

  function WithHalf(pins: Pins, trigger: bool, pin: int): Pins {
    if trigger then pins.(trigger := pin) else pins.(echo := pin)
  }

  /** `trigger_store` and `echo_store`; only the echo asks for the interrupt. Lines got by a failed store belong
      to nobody, unless they are those of the pin that stays configured. */
  function Store(table: PinTable, s: Board, d: Dev, trigger: bool, text: Text, irqOk: bool): Board
    requires Rectangular(table)
  {
    var was := PinsOf(s, d);
    var free := Release(s.held, PinLines(table, HalfPin(was, trigger), trigger, 0));
    match text
    case Unreadable => Board(free, s.pins, s.lost)
    case Number(pin) =>
      var got := Acquire(free, PinLines(table, pin, trigger, 0));
      if got.ok && (trigger || irqOk) then Board(got.held, s.pins[d := WithHalf(was, trigger, pin)], s.lost)
      else Board(got.held, s.pins, s.lost + (got.held - free - Owned(table, was)))
  }

  /** A store can succeed: a number, the interrupt if it is needed, and lines that are neither the device's
      other pin's nor unavailable. */
  ghost predicate Storable(table: PinTable, s: Board, d: Dev, trigger: bool, text: Text, irqOk: bool)
    requires Rectangular(table)
  {
    && text.Number? && (trigger || irqOk)
    && Members(PinLines(table, text.pin, trigger, 0)) !! Half(table, PinsOf(s, d), !trigger)
    && forall x :: x in Members(PinLines(table, text.pin, trigger, 0)) ==> !Unavailable(table, s, d, x)
  }

  /** What freeing one pin leaves: the other pin's lines and what the device cannot have. */
  lemma FreeHalf(table: PinTable, s: Board, d: Dev, trigger: bool)
    requires Proper(table) && Ownership(table, s)
    ensures
      var was := PinsOf(s, d);
      var free := Release(s.held, PinLines(table, HalfPin(was, trigger), trigger, 0));
      && free == s.held - Half(table, was, trigger)
      && free == Half(table, was, !trigger) + (s.held - Owned(table, was))
      && Half(table, was, trigger) !! Half(table, was, !trigger) && Owned(table, was) <= s.held
  {
    var was := PinsOf(s, d);
    ReleaseMeans(s.held, PinLines(table, HalfPin(was, trigger), trigger, 0));
    UnsetOwnsNothing(table);
    assert Owned(table, was) == Half(table, was, trigger) + Half(table, was, !trigger);
  }

  /** The scan gets everything exactly when the lines are the device's to have. */
  lemma GotIff(table: PinTable, s: Board, d: Dev, trigger: bool, pin: int)
    requires Proper(table) && Ownership(table, s)
    ensures
      var free := Release(s.held, PinLines(table, HalfPin(PinsOf(s, d), trigger), trigger, 0));
      var lines := PinLines(table, pin, trigger, 0);
      && (Acquire(free, lines).ok <==> Storable(table, s, d, trigger, Number(pin), true))
      && (Acquire(free, lines).ok ==> Acquire(free, lines).held == free + Members(lines))
      && free <= Acquire(free, lines).held <= free + Members(lines)
  {
    var free := Release(s.held, PinLines(table, HalfPin(PinsOf(s, d), trigger), trigger, 0));
    var lines := PinLines(table, pin, trigger, 0);
    FreeHalf(table, s, d, trigger);
    PinLinesDistinct(table, pin, trigger);
    AcquireMeans(free, lines);
    forall x ensures x in s.held - Owned(table, PinsOf(s, d)) <==> Unavailable(table, s, d, x) {
      FreeIsUnavailable(table, s, d, x);
    }
    if !(Members(lines) !! free) { var x := Shared(Members(lines), free); }
  }

  lemma StoredKeepsOwnership(table: PinTable, s: Board, d: Dev, trigger: bool, text: Text, irqOk: bool)
    requires Proper(table) && Ownership(table, s) && Storable(table, s, d, trigger, text, irqOk)
    ensures Ownership(table, Store(table, s, d, trigger, text, irqOk))
  {
    var was := PinsOf(s, d);
    var pins := WithHalf(was, trigger, text.pin);
    var free := s.held - Owned(table, was);
    FreeHalf(table, s, d, trigger);
    GotIff(table, s, d, trigger, text.pin);
    assert Owned(table, pins) == Half(table, was, !trigger) + Members(PinLines(table, text.pin, trigger, 0));
    forall x | x in Members(PinLines(table, text.pin, trigger, 0)) ensures x !in free {
      FreeIsUnavailable(table, s, d, x);
    }
    SuccessKeepsOwnership(table, s, d, pins, free);
    assert Store(table, s, d, trigger, text, irqOk).held == free + Owned(table, pins);
  }

  /** With nothing to free, a failed store only loses what it got. */
  lemma NothingFreedKeepsOwnership(table: PinTable, s: Board, got: set<int>)
    requires Proper(table) && Ownership(table, s) && s.held <= got
    ensures Ownership(table, Board(got, s.pins, s.lost + (got - s.held)))
  {
  }

  /** Different pins of one kind share no line. */
  lemma RowsApart(table: PinTable, p: int, q: int, trigger: bool)
    requires Proper(table) && p != q
    ensures Members(PinLines(table, p, trigger, 0)) !! Members(PinLines(table, q, trigger, 0))
  {
    forall x | x in Members(PinLines(table, p, trigger, 0)) ensures x !in Members(PinLines(table, q, trigger, 0)) {
      var i := RowOf(table, p, trigger, x);
      if x in Members(PinLines(table, q, trigger, 0)) {
        var j := RowOf(table, q, trigger, x);
      }
    }
  }

  /** A line asked for is in the row of its pin. */
  lemma RowOf(table: PinTable, pin: int, trigger: bool, x: int) returns (i: int)
    requires Proper(table) && x in Members(PinLines(table, pin, trigger, 0))
    ensures 0 <= i < |table| && table[i][HC_GPIO_LINUX] == pin && x != -1
    ensures exists m :: 0 <= m < PIN_SIZE && table[i][m] == x
  {
    if forall j :: 0 <= j < |table| ==> table[j][HC_GPIO_LINUX] != pin { NoRow(table, pin, trigger, 0); }
    i :| 0 <= i < |table| && table[i][HC_GPIO_LINUX] == pin;
    OwnRow(table, pin, trigger, 0, i);
    RowLinesFrom(table[i], trigger, 0);
  }

  lemma FailedStoreForgets(table: PinTable, s: Board, d: Dev, trigger: bool, text: Text, irqOk: bool)
    requires Proper(table) && Ownership(table, s) && !Storable(table, s, d, trigger, text, irqOk)
    requires text != Number(HalfPin(PinsOf(s, d), trigger))
    ensures Half(table, PinsOf(s, d), trigger) !! Store(table, s, d, trigger, text, irqOk).held
    ensures Store(table, s, d, trigger, text, irqOk).pins == s.pins
  {
    FreeHalf(table, s, d, trigger);
    if text.Number? {
      GotIff(table, s, d, trigger, text.pin);
      RowsApart(table, HalfPin(PinsOf(s, d), trigger), text.pin, trigger);
    }
  }

  lemma SamePinKeepsOwnership(table: PinTable, s: Board, d: Dev, trigger: bool, irqOk: bool)
    requires Proper(table) && Ownership(table, s)
    ensures Ownership(table, Store(table, s, d, trigger, Number(HalfPin(PinsOf(s, d), trigger)), irqOk))
  {
    var pin := HalfPin(PinsOf(s, d), trigger);
    FreeHalf(table, s, d, trigger);
    GotIff(table, s, d, trigger, pin);
    forall x | x in Half(table, PinsOf(s, d), trigger) ensures !Unavailable(table, s, d, x) {
      FreeIsUnavailable(table, s, d, x);
    }
    if trigger || irqOk {
      StoredKeepsOwnership(table, s, d, trigger, Number(pin), irqOk);
    } else {
      assert Store(table, s, d, trigger, Number(pin), irqOk) == s;
    }
  }

  /** Exactly when a store keeps every line with its one owner, told from the state before it: there was no
      line to free, or the pin stays the same, or the store can succeed. Any other store leaves the device
      configured with lines it no longer holds. */
  lemma StoreKeepsOwnershipIff(table: PinTable, s: Board, d: Dev, trigger: bool, text: Text, irqOk: bool)
    requires Proper(table) && Ownership(table, s)
    ensures Ownership(table, Store(table, s, d, trigger, text, irqOk)) <==>
      || Half(table, PinsOf(s, d), trigger) == {}
      || text == Number(HalfPin(PinsOf(s, d), trigger))
      || Storable(table, s, d, trigger, text, irqOk)
  {
    var s' := Store(table, s, d, trigger, text, irqOk);
    if Storable(table, s, d, trigger, text, irqOk) {
      StoredKeepsOwnership(table, s, d, trigger, text, irqOk);
    } else if text == Number(HalfPin(PinsOf(s, d), trigger)) {
      SamePinKeepsOwnership(table, s, d, trigger, irqOk);
    } else {
      FailedStoreForgets(table, s, d, trigger, text, irqOk);
      FailedStoreIff(table, s, d, trigger, text, irqOk);
    }
  }

  lemma FailedStoreIff(table: PinTable, s: Board, d: Dev, trigger: bool, text: Text, irqOk: bool)
    requires Proper(table) && Ownership(table, s) && !Storable(table, s, d, trigger, text, irqOk)
    requires Half(table, PinsOf(s, d), trigger) !! Store(table, s, d, trigger, text, irqOk).held
    requires Store(table, s, d, trigger, text, irqOk).pins == s.pins
    ensures Ownership(table, Store(table, s, d, trigger, text, irqOk)) <==> Half(table, PinsOf(s, d), trigger) == {}
  {
    var s' := Store(table, s, d, trigger, text, irqOk);
    FreeHalf(table, s, d, trigger);
    if text.Number? { GotIff(table, s, d, trigger, text.pin); }
    if Half(table, PinsOf(s, d), trigger) == {} {
      assert s'.lost == s.lost + (s'.held - s.held);
      NothingFreedKeepsOwnership(table, s, s'.held);
    } else {
      UnsetOwnsNothing(table);
      assert d in s.pins;
      assert Half(table, PinsOf(s, d), trigger) <= Owned(table, s'.pins[d]);
    }
  }

  /** The lines asked for come to an end, or to one that is not to be had: another's, lost, the other pin's. */
  ghost predicate HalfRefusedAt(table: PinTable, s: Board, d: Dev, trigger: bool, lines: seq<int>, k: nat)
    requires Rectangular(table)
  {
    && k <= |lines|
    && (forall i :: 0 <= i < k ==>
          !Unavailable(table, s, d, lines[i]) && lines[i] !in Half(table, PinsOf(s, d), !trigger))
    && (k < |lines| ==> Unavailable(table, s, d, lines[k]) || lines[k] in Half(table, PinsOf(s, d), !trigger))
  }

  lemma GotStops(table: PinTable, s: Board, d: Dev, trigger: bool, pin: int) returns (k: nat)
    requires Proper(table) && Ownership(table, s)
    ensures
      var free := Release(s.held, PinLines(table, HalfPin(PinsOf(s, d), trigger), trigger, 0));
      var lines := PinLines(table, pin, trigger, 0);
      && HalfRefusedAt(table, s, d, trigger, lines, k)
      && Acquire(free, lines).held == free + Members(lines[..k])
      && (Acquire(free, lines).ok <==> k == |lines|)
  {
    var free := Release(s.held, PinLines(table, HalfPin(PinsOf(s, d), trigger), trigger, 0));
    var lines := PinLines(table, pin, trigger, 0);
    FreeHalf(table, s, d, trigger);
    PinLinesDistinct(table, pin, trigger);
    k := AcquireStops(free, lines);
    forall x ensures x in free <==> Unavailable(table, s, d, x) || x in Half(table, PinsOf(s, d), !trigger) {
      FreeIsUnavailable(table, s, d, x);
    }
    if k < |lines| {
      assert lines[k] !in lines[..k];
    }
  }

  /** What a write leaves behind, told from the state before it. If it can be stored, the pin written is the
      number, the other pin is as before, and the new pin's lines are given out in place of the old ones. If
      not, no pin changes, the old lines are free, and those before the first refused one are given out. Other
      devices keep their pins either way. */
  lemma StoreMeans(table: PinTable, s: Board, d: Dev, trigger: bool, text: Text, irqOk: bool) returns (k: nat)
    requires Proper(table) && Ownership(table, s)
    ensures
      var s' := Store(table, s, d, trigger, text, irqOk);
      var free := s.held - Half(table, PinsOf(s, d), trigger);
      && (if Storable(table, s, d, trigger, text, irqOk) then
            && HalfPin(PinsOf(s', d), trigger) == text.pin
            && HalfPin(PinsOf(s', d), !trigger) == HalfPin(PinsOf(s, d), !trigger)
            && s'.held == free + Members(PinLines(table, text.pin, trigger, 0)) && s'.lost == s.lost
          else
            && s'.pins == s.pins
            && (text.Unreadable? ==> s'.held == free && s'.lost == s.lost)
            && (text.Number? ==>
                  var lines := PinLines(table, text.pin, trigger, 0);
                  HalfRefusedAt(table, s, d, trigger, lines, k) && s'.held == free + Members(lines[..k])))
      && (forall e :: e != d ==> (e in s'.pins <==> e in s.pins) && PinsOf(s', e) == PinsOf(s, e))
  {
    k := 0;
    FreeHalf(table, s, d, trigger);
    if text.Number? {
      GotIff(table, s, d, trigger, text.pin);
      k := GotStops(table, s, d, trigger, text.pin);
    }
  }

  /** What then goes wrong: after an unreadable store, another device that takes the freed pin has its lines
      taken away by the first device's next store. */
  lemma StoreTakesAnothersLines(table: PinTable, s: Board, d: Dev, e: Dev, echo: int, x: int)
    requires Proper(table) && d != e && x in Half(table, PinsOf(s, d), true)
    requires
      var s1 := Store(table, s, d, true, Unreadable, true);
      Succeeds(table, s1, e, Pins(PinsOf(s, d).trigger, echo), true)
    ensures
      var s1 := Store(table, s, d, true, Unreadable, true);
      var s2 := SetPins(table, s1, e, Pins(PinsOf(s, d).trigger, echo), true);
      var s3 := Store(table, s2, d, true, Unreadable, true);
      x in s2.held && e in s3.pins && x in Owned(table, s3.pins[e]) && x !in s3.held
  {
    var s1 := Store(table, s, d, true, Unreadable, true);
    var pins := Pins(PinsOf(s, d).trigger, echo);
    var s2 := SetPins(table, s1, e, pins, true);
    TakenMeans(table, Freed(table, s1.held, PinsOf(s1, e)), pins);
    ReleaseMeans(s2.held, PinLines(table, PinsOf(s2, d).trigger, true, 0));
  }

  // ----- Runs of both kinds of call -----

  datatype Change =
    | SetBoth(d: Dev, pins: Pins, irqOk: bool)
    | SetHalf(d: Dev, trigger: bool, text: Text, irqOk: bool)

  function Make(table: PinTable, s: Board, c: Change): Board
    requires Rectangular(table)
  {
    match c
    case SetBoth(d, pins, irqOk) => SetPins(table, s, d, pins, irqOk)
    case SetHalf(d, trigger, text, irqOk) => Store(table, s, d, trigger, text, irqOk)
  }

  /** The boards a run passes through. */
  ghost predicate Run(table: PinTable, boards: seq<Board>, changes: seq<Change>)
    requires Rectangular(table)
  {
    && |boards| == |changes| + 1 && boards[0] == Board({}, map[], {})
    && forall i :: 0 <= i < |changes| ==> boards[i + 1] == Make(table, boards[i], changes[i])
  }

  /** The condition of StoreKeepsOwnershipIff; SETPINS has none. */
  ghost predicate Careful(table: PinTable, s: Board, c: Change)
    requires Rectangular(table)
  {
    c.SetHalf? ==>
      || Half(table, PinsOf(s, c.d), c.trigger) == {}
      || c.text == Number(HalfPin(PinsOf(s, c.d), c.trigger))
      || Storable(table, s, c.d, c.trigger, c.text, c.irqOk)
  }

  lemma ChangeKeepsOwnershipIff(table: PinTable, s: Board, c: Change)
    requires Proper(table) && Ownership(table, s)
    ensures Ownership(table, Make(table, s, c)) <==> Careful(table, s, c)
  {
    match c
    case SetBoth(d, pins, irqOk) => SetPinsKeepsOwnership(table, s, d, pins, irqOk);
    case SetHalf(d, trigger, text, irqOk) => StoreKeepsOwnershipIff(table, s, d, trigger, text, irqOk);
  }

  /** Every store before the n-th change was careful when its turn came. */
  ghost predicate CarefulUpTo(table: PinTable, boards: seq<Board>, changes: seq<Change>, n: nat)
    requires Rectangular(table) && n <= |changes| < |boards|
  {
    forall i :: 0 <= i < n ==> Careful(table, boards[i], changes[i])
  }

  lemma {:induction false} CarefulIsEnough(table: PinTable, boards: seq<Board>, changes: seq<Change>, n: nat)
    requires Proper(table) && Run(table, boards, changes) && n <= |changes| && CarefulUpTo(table, boards, changes, n)
    ensures Ownership(table, boards[n])
  {
    if n > 0 {
      CarefulIsEnough(table, boards, changes, n - 1);
      ChangeKeepsOwnershipIff(table, boards[n - 1], changes[n - 1]);
    }
  }

  /** Over every run of SETPINS and stores on any number of devices: the lines have one owner each at every
      moment if and only if every store was careful when its turn came. */
  lemma OwnershipThroughoutIff(table: PinTable, boards: seq<Board>, changes: seq<Change>)
    requires Proper(table) && Run(table, boards, changes)
    ensures (forall n :: 0 <= n <= |changes| ==> Ownership(table, boards[n])) <==>
            CarefulUpTo(table, boards, changes, |changes|)
  {
    if CarefulUpTo(table, boards, changes, |changes|) {
      forall n | 0 <= n <= |changes| ensures Ownership(table, boards[n]) {
        CarefulIsEnough(table, boards, changes, n);
      }
    } else {
      var i :| 0 <= i < |changes| && !Careful(table, boards[i], changes[i]);
      assert Ownership(table, boards[i]) ==> !Ownership(table, boards[i + 1]) by {
        if Ownership(table, boards[i]) { ChangeKeepsOwnershipIff(table, boards[i], changes[i]); }
      }
    }
  }
}
