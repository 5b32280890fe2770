/** Which GPIO lines a sensor holds. */
module GpioSpec {
  import opened Counting

  const PIN_SIZE: nat := 5
  const HC_GPIO_LINUX: nat := 0
  const HC_GPIO_PULL: nat := 2

  /** A row of the pin table: the line behind each function of a physical pin, -1 where there is none. */
  type PinTable = seq<seq<int>>

  /** The lines of one row from column m on; the trigger leaves the pull line alone. */
  function RowLines(row: seq<int>, trigger: bool, m: nat): seq<int>
    requires |row| == PIN_SIZE
    decreases PIN_SIZE - m
  {
    if m >= PIN_SIZE then []
    else if (trigger && m == HC_GPIO_PULL) || row[m] == -1 then RowLines(row, trigger, m + 1)
    else [row[m]] + RowLines(row, trigger, m + 1)
  }

  ghost predicate Rectangular(table: PinTable) {
    forall i :: 0 <= i < |table| ==> |table[i]| == PIN_SIZE
  }

  /** The lines asked for when `pin` is set, in the order of the scan, from row i on. */
  function PinLines(table: PinTable, pin: int, trigger: bool, i: nat): seq<int>
    requires Rectangular(table)
    decreases |table| - i
  {
    if i >= |table| then []
    else (if table[i][HC_GPIO_LINUX] == pin then RowLines(table[i], trigger, 0) else [])
         + PinLines(table, pin, trigger, i + 1)
  }

  datatype Acquired = Acquired(held: set<int>, ok: bool)

  /** Request lines one by one; stop at the first that is taken and keep what was got. */
  function Acquire(held: set<int>, lines: seq<int>): Acquired
    decreases lines
  {
    if lines == [] then Acquired(held, true)
    else if lines[0] in held then Acquired(held, false)
    else Acquire(held + {lines[0]}, lines[1..])
  }

  function Release(held: set<int>, lines: seq<int>): set<int>
    decreases lines
  {
    if lines == [] then held else Release(held - {lines[0]}, lines[1..])
  }

  lemma MembersCons(lines: seq<int>)
    requires lines != []
    ensures Members(lines) == {lines[0]} + Members(lines[1..])
    ensures Distinct(lines) <==> lines[0] !in Members(lines[1..]) && Distinct(lines[1..])
  {
    var rest := lines[1..];
    forall i | 0 < i < |lines| ensures lines[i] in Members(rest) {
      assert lines[i] == rest[i - 1];
    }
    forall x | x in Members(rest) ensures exists i :: 0 < i < |lines| && lines[i] == x {
      var i :| 0 <= i < |rest| && rest[i] == x;
      assert lines[i + 1] == x;
    }
  }

  /** All lines are got exactly when none is taken and none is asked for twice; whatever the outcome, no
      line is given up and only asked-for lines are added. */
  lemma {:induction false} AcquireMeans(held: set<int>, lines: seq<int>)
    ensures Acquire(held, lines).ok <==> Distinct(lines) && Members(lines) !! held
    ensures Acquire(held, lines).ok ==> Acquire(held, lines).held == held + Members(lines)
    ensures held <= Acquire(held, lines).held <= held + Members(lines)
    decreases lines
  {
    if lines != [] {
      MembersCons(lines);
      if lines[0] !in held {
        AcquireMeans(held + {lines[0]}, lines[1..]);
      } else {
        assert lines[0] in Members(lines);
      }
    }
  }

  /** The first k lines are free and asked for once each, and the next one, if any, is taken or has been asked
      for already. */
  ghost predicate StopsAt(held: set<int>, lines: seq<int>, k: nat) {
    && k <= |lines|
    && (forall i :: 0 <= i < k ==> lines[i] !in held && lines[i] !in lines[..i])
    && (k < |lines| ==> lines[k] in held || lines[k] in lines[..k])
  }

  /** What a scan is left with, whether it gets through or not: the lines before the first that is refused. */
  lemma {:induction false} AcquireStops(held: set<int>, lines: seq<int>) returns (k: nat)
    ensures StopsAt(held, lines, k) && Acquire(held, lines).held == held + Members(lines[..k])
    ensures Acquire(held, lines).ok <==> k == |lines|
    decreases lines
  {
    if lines == [] || lines[0] in held {
      k := 0;
    } else {
      var rest := lines[1..];
      var j := AcquireStops(held + {lines[0]}, rest);
      k := j + 1;
      assert lines[..k] == [lines[0]] + rest[..j];
      assert Members(lines[..k]) == {lines[0]} + Members(rest[..j]);
      StopsCons(held, lines, j);
    }
  }

  lemma StopsCons(held: set<int>, lines: seq<int>, j: nat)
    requires lines != [] && lines[0] !in held && StopsAt(held + {lines[0]}, lines[1..], j)
    ensures StopsAt(held, lines, j + 1)
  {
    var rest := lines[1..];
    forall i | 0 <= i < j + 1 ensures lines[i] !in held && lines[i] !in lines[..i] {
      if i > 0 {
        PrefixCons(lines, i);
        assert lines[i] == rest[i - 1];
      }
    }
    if j + 1 < |lines| {
      PrefixCons(lines, j + 1);
      assert lines[j + 1] == rest[j];
    }
  }

  lemma PrefixCons<T>(q: seq<T>, i: nat)
    requires 1 <= i <= |q|
    ensures q[..i] == [q[0]] + q[1..][..i - 1]
  {
  }

  lemma {:induction false} ReleaseMeans(held: set<int>, lines: seq<int>)
    ensures Release(held, lines) == held - Members(lines)
    decreases lines
  {
    if lines != [] {
      MembersCons(lines);
      ReleaseMeans(held - {lines[0]}, lines[1..]);
    }
  }

  lemma Shared<T>(a: set<T>, b: set<T>) returns (x: T)
    requires !(a !! b)
    ensures x in a && x in b
  {
    x :| x in a && x in b;
  }

  lemma {:induction false} AcquireConcat(held: set<int>, a: seq<int>, b: seq<int>)
    ensures Acquire(held, a + b) ==
            if Acquire(held, a).ok then Acquire(Acquire(held, a).held, b) else Acquire(held, a)
    decreases a
  {
    if a == [] {
      assert a + b == b;
    } else {
      assert (a + b)[1..] == a[1..] + b;
      if a[0] !in held { AcquireConcat(held + {a[0]}, a[1..], b); }
    }
  }

  lemma {:induction false} ReleaseConcat(held: set<int>, a: seq<int>, b: seq<int>)
    ensures Release(held, a + b) == Release(Release(held, a), b)
    decreases a
  {
    if a == [] {
      assert a + b == b;
    } else {
      assert (a + b)[1..] == a[1..] + b;
      ReleaseConcat(held - {a[0]}, a[1..], b);
    }
  }

  /** Freeing exactly undoes setting. */
  lemma ReleaseUndoesAcquire(held: set<int>, lines: seq<int>)
    requires Acquire(held, lines).ok
    ensures Release(Acquire(held, lines).held, lines) == held
  {
    AcquireMeans(held, lines);
    ReleaseMeans(Acquire(held, lines).held, lines);
  }

  // ----- The table -----

  /** No line appears twice in the table, and every row has a Linux line. */
  ghost predicate Proper(table: PinTable) {
    && Rectangular(table)
    && (forall i, m, j, n ::
          0 <= i < |table| && 0 <= j < |table| && 0 <= m < PIN_SIZE && 0 <= n < PIN_SIZE
          && table[i][m] == table[j][n] && table[i][m] != -1
          ==> i == j && m == n)
    && (forall i :: 0 <= i < |table| ==> table[i][HC_GPIO_LINUX] != -1)
  }

  function TrigLines(table: PinTable, pin: int): seq<int>
    requires Rectangular(table)
  {
    PinLines(table, pin, true, 0)
  }

  function EchoLines(table: PinTable, pin: int): seq<int>
    requires Rectangular(table)
  {
    PinLines(table, pin, false, 0)
  }

  lemma {:induction false} RowLinesFrom(row: seq<int>, trigger: bool, m: nat)
    requires |row| == PIN_SIZE
    requires forall a, b :: 0 <= a < b < PIN_SIZE && row[a] == row[b] ==> row[a] == -1
    ensures forall x :: x in Members(RowLines(row, trigger, m)) <==>
              x != -1 && exists n :: m <= n < PIN_SIZE && row[n] == x && !(trigger && n == HC_GPIO_PULL)
    ensures Distinct(RowLines(row, trigger, m))
    decreases PIN_SIZE - m
  {
    if m < PIN_SIZE {
      RowLinesFrom(row, trigger, m + 1);
      if !((trigger && m == HC_GPIO_PULL) || row[m] == -1) {
        MembersCons(RowLines(row, trigger, m));
        assert RowLines(row, trigger, m)[1..] == RowLines(row, trigger, m + 1);
      }
    }
  }

  lemma {:induction false} RowLineAt(row: seq<int>, trigger: bool, m: nat, i: nat) returns (a: nat)
    requires |row| == PIN_SIZE && i < |RowLines(row, trigger, m)|
    ensures m <= a < PIN_SIZE && row[a] == RowLines(row, trigger, m)[i]
    decreases PIN_SIZE - m
  {
    if (trigger && m == HC_GPIO_PULL) || row[m] == -1 {
      a := RowLineAt(row, trigger, m + 1, i);
    } else if i == 0 {
      a := m;
    } else {
      a := RowLineAt(row, trigger, m + 1, i - 1);
    }
  }

  /** A row's lines are asked for in the order of its columns. */
  lemma {:induction false} RowLinesInOrder(row: seq<int>, trigger: bool, m: nat, i: nat, j: nat) returns (a: nat, b: nat)
    requires |row| == PIN_SIZE && i < j < |RowLines(row, trigger, m)|
    ensures m <= a < b < PIN_SIZE
    ensures row[a] == RowLines(row, trigger, m)[i] && row[b] == RowLines(row, trigger, m)[j]
    decreases PIN_SIZE - m
  {
    if (trigger && m == HC_GPIO_PULL) || row[m] == -1 {
      a, b := RowLinesInOrder(row, trigger, m + 1, i, j);
    } else if i == 0 {
      a := m;
      b := RowLineAt(row, trigger, m + 1, j - 1);
    } else {
      a, b := RowLinesInOrder(row, trigger, m + 1, i - 1, j - 1);
    }
  }

  /** A scan past or before the row it looks for finds nothing. */
  lemma {:induction false} NoRow(table: PinTable, pin: int, trigger: bool, i: nat)
    requires Rectangular(table)
    requires forall j :: i <= j < |table| ==> table[j][HC_GPIO_LINUX] != pin
    ensures PinLines(table, pin, trigger, i) == []
    decreases |table| - i
  {
    if i < |table| { NoRow(table, pin, trigger, i + 1); }
  }

  /** Setting a pin asks for the lines of its own row and no other. */
  lemma {:induction false} OwnRow(table: PinTable, pin: int, trigger: bool, i: nat, r: int)
    requires Proper(table) && 0 <= i <= r < |table| && table[r][HC_GPIO_LINUX] == pin
    ensures PinLines(table, pin, trigger, i) == RowLines(table[r], trigger, 0)
    decreases r - i
  {
    if i == r {
      NoRow(table, pin, trigger, i + 1);
    } else {
      OwnRow(table, pin, trigger, i + 1, r);
    }
  }

  /** In a proper table no scan asks for a line twice, and a device with no pin set owns nothing. */
  lemma PinLinesDistinct(table: PinTable, pin: int, trigger: bool)
    requires Proper(table)
    ensures Distinct(PinLines(table, pin, trigger, 0))
    ensures pin == -1 ==> PinLines(table, pin, trigger, 0) == []
  {
    if r :| 0 <= r < |table| && table[r][HC_GPIO_LINUX] == pin {
      OwnRow(table, pin, trigger, 0, r);
      RowLinesFrom(table[r], trigger, 0);
    } else {
      NoRow(table, pin, trigger, 0);
    }
  }

  /** The trigger holds its row without the pull line; the echo holds its whole row. */
  lemma PinHoldsRow(table: PinTable, r: int, x: int)
    requires Proper(table) && 0 <= r < |table|
    ensures
      var pin := table[r][HC_GPIO_LINUX];
      && (x in Members(EchoLines(table, pin)) <==> x != -1 && x in table[r])
      && (x in Members(TrigLines(table, pin)) <==> x != -1 && x in table[r] && x != table[r][HC_GPIO_PULL])
  {
    var pin := table[r][HC_GPIO_LINUX];
    OwnRow(table, pin, true, 0, r);
    OwnRow(table, pin, false, 0, r);
    RowHolds(table[r], x);
  }

  lemma RowHolds(row: seq<int>, x: int)
    requires |row| == PIN_SIZE
    requires forall a, b :: 0 <= a < b < PIN_SIZE && row[a] == row[b] ==> row[a] == -1
    ensures x in Members(RowLines(row, false, 0)) <==> x != -1 && x in row
    ensures x in Members(RowLines(row, true, 0)) <==> x != -1 && x in row && x != row[HC_GPIO_PULL]
  {
    RowLinesFrom(row, true, 0);
    RowLinesFrom(row, false, 0);
  }

  // ----- One row of a scan -----

  lemma AcquireRow(held: set<int>, table: PinTable, pin: int, trigger: bool, i: nat)
    requires Rectangular(table) && i < |table|
    ensures
      var rest := PinLines(table, pin, trigger, i + 1);
      Acquire(held, PinLines(table, pin, trigger, i)) ==
      if table[i][HC_GPIO_LINUX] != pin then Acquire(held, rest)
      else
        var row := Acquire(held, RowLines(table[i], trigger, 0));
        if row.ok then Acquire(row.held, rest) else row
  {
    if table[i][HC_GPIO_LINUX] == pin {
      AcquireConcat(held, RowLines(table[i], trigger, 0), PinLines(table, pin, trigger, i + 1));
    } else {
      assert PinLines(table, pin, trigger, i) == PinLines(table, pin, trigger, i + 1);
    }
  }

  lemma ReleaseRow(held: set<int>, table: PinTable, pin: int, trigger: bool, i: nat)
    requires Rectangular(table) && i < |table|
    ensures
      Release(held, PinLines(table, pin, trigger, i)) ==
      Release(if table[i][HC_GPIO_LINUX] != pin then held else Release(held, RowLines(table[i], trigger, 0)),
              PinLines(table, pin, trigger, i + 1))
  {
    if table[i][HC_GPIO_LINUX] == pin {
      ReleaseConcat(held, RowLines(table[i], trigger, 0), PinLines(table, pin, trigger, i + 1));
    } else {
      assert PinLines(table, pin, trigger, i) == PinLines(table, pin, trigger, i + 1);
    }
  }
}
