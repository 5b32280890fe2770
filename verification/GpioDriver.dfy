/** The scans themselves, requesting and freeing lines in place. */
module GpioDriver {
  import opened GpioSpec
  import opened GpioOwnership
  import opened GpioStores

  class GpioBoard {
    const table: PinTable
    var held: set<int>
    var pins: map<Dev, Pins>

    constructor (table: PinTable)
      requires Rectangular(table)
      ensures this.table == table && held == {} && pins == map[]
    {
      this.table := table;
      held, pins := {}, map[];
    }

    method GpioRequest(line: int) returns (ok: bool)
      modifies this`held
      ensures ok <==> line !in old(held)
      ensures held == old(held) + (if ok then {line} else {})
    {
      ok := line !in held;
      if ok {
        held := held + {line};
      }
    }

    /** The inner loop of `setTrig` and `setEcho`: the lines of one row. */
    method SetRow(row: seq<int>, trigger: bool) returns (ok: bool)
      requires |row| == PIN_SIZE
      modifies this`held
      ensures Acquired(held, ok) == Acquire(old(held), RowLines(row, trigger, 0))
    {
      var m := 0;
      while m < PIN_SIZE
        invariant 0 <= m <= PIN_SIZE
        invariant Acquire(held, RowLines(row, trigger, m)) == Acquire(old(held), RowLines(row, trigger, 0))
      {
        if !(trigger && HC_GPIO_PULL == m) && -1 != row[m] {
          assert RowLines(row, trigger, m)[1..] == RowLines(row, trigger, m + 1);
          ok := GpioRequest(row[m]);
          if !ok {
            return;
          }
        }
        m := m + 1;
      }
      ok := true;
    }

    /** `setTrig` and `setEcho`: one scan, the trigger skipping the pull line. */
    method SetLines(pin: int, trigger: bool) returns (ok: bool)
      requires Rectangular(table)
      modifies this`held
      ensures Acquired(held, ok) == Acquire(old(held), PinLines(table, pin, trigger, 0))
    {
      var i := 0;
      while i < |table|
        invariant 0 <= i <= |table|
        invariant Acquire(held, PinLines(table, pin, trigger, i)) == Acquire(old(held), PinLines(table, pin, trigger, 0))
      {
        AcquireRow(held, table, pin, trigger, i);
        if pin == table[i][HC_GPIO_LINUX] {
          ok := SetRow(table[i], trigger);
          if !ok {
            return;
          }
        }
        i := i + 1;
      }
      ok := true;
    }

    /** The inner loop of `freeTrig` and `freeEcho`. */
    method FreeRow(row: seq<int>, trigger: bool)
      requires |row| == PIN_SIZE
      modifies this`held
      ensures held == Release(old(held), RowLines(row, trigger, 0))
    {
      var m := 0;
      while m < PIN_SIZE
        invariant 0 <= m <= PIN_SIZE
        invariant Release(held, RowLines(row, trigger, m)) == Release(old(held), RowLines(row, trigger, 0))
      {
        if !(trigger && HC_GPIO_PULL == m) && -1 != row[m] {
          assert RowLines(row, trigger, m)[1..] == RowLines(row, trigger, m + 1);
          held := held - {row[m]};
        }
        m := m + 1;
      }
    }

    /** `freeTrig` and `freeEcho`. */
    method FreeLines(pin: int, trigger: bool)
      requires Rectangular(table)
      modifies this`held
      ensures held == Release(old(held), PinLines(table, pin, trigger, 0))
    {
      var i := 0;
      while i < |table|
        invariant 0 <= i <= |table|
        invariant Release(held, PinLines(table, pin, trigger, i)) == Release(old(held), PinLines(table, pin, trigger, 0))
      {
        ReleaseRow(held, table, pin, trigger, i);
        if pin == table[i][HC_GPIO_LINUX] {
          FreeRow(table[i], trigger);
        }
        i := i + 1;
      }
    }

    /** `ioctl_SETPINs`. */
    method SetDevicePins(d: Dev, want: Pins, irqOk: bool, ghost lost: set<int>) returns (ok: bool, ghost lost': set<int>)
      requires Rectangular(table)
      modifies this`held, this`pins
      ensures Board(held, pins, lost') == SetPins(table, old(Board(held, pins, lost)), d, want, irqOk)
      ensures ok <==> Succeeds(table, old(Board(held, pins, lost)), d, want, irqOk)
      ensures Proper(table) && Ownership(table, old(Board(held, pins, lost))) ==>
        (ok <==> Grantable(table, old(Board(held, pins, lost)), d, want, irqOk))
    {
      GrantedMeans(table, Board(held, pins, lost), d, want, irqOk);
      var was := if d in pins then pins[d] else UNSET;
      FreeLines(was.trigger, true);
      FreeLines(was.echo, false);
      ghost var free := held;
      pins := pins[d := want];
      ok := SetBoth(want);
      ok := ok && irqOk;
      if !ok {
        pins := pins[d := UNSET];
      }
      lost' := if ok then lost else lost + (held - free);
    }

    /** The trigger's scan and, if it gets through, the echo's. */
    method SetBoth(want: Pins) returns (ok: bool)
      requires Rectangular(table)
      modifies this`held
      ensures Acquired(held, ok) == Taken(table, old(held), want)
    {
      ok := SetLines(want.trigger, true);
      if ok {
        ok := SetLines(want.echo, false);
      }
    }

    /** `trigger_store` and `echo_store`. */
    method StoreHalf(d: Dev, trigger: bool, text: Text, irqOk: bool, ghost lost: set<int>)
      returns (ok: bool, ghost lost': set<int>)
      requires Rectangular(table)
      modifies this`held, this`pins
      ensures Board(held, pins, lost') == Store(table, old(Board(held, pins, lost)), d, trigger, text, irqOk)
      ensures !ok ==> pins == old(pins)
      ensures Proper(table) && Ownership(table, old(Board(held, pins, lost))) ==>
        (ok <==> Storable(table, old(Board(held, pins, lost)), d, trigger, text, irqOk))
    {
      var was := if d in pins then pins[d] else UNSET;
      FreeLines(HalfPin(was, trigger), trigger);
      if text.Unreadable? {
        return false, lost;
      }
      ghost var free := held;
      ghost var s := old(Board(held, pins, lost));
      if Proper(table) && Ownership(table, s) {
        GotIff(table, s, d, trigger, text.pin);
      }
      ok := SetLines(text.pin, trigger);
      ok := ok && (trigger || irqOk);
      if ok {
        pins := pins[d := WithHalf(was, trigger, text.pin)];
      }
      lost' := if ok then lost else lost + (held - free - Owned(table, was));
    }
  }
}
