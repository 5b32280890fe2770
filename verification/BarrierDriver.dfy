/** The whole driver: registry and records in memory, under any interleaving of its calls' lock sections. */
module BarrierDriver {
  import opened BarrierWord
  import opened BarrierMachine
  import opened BarrierObject
  import opened BarrierSystem
  import opened BarrierRegistry

  /** One record holds what the machine says. */
  ghost predicate Shows(b: Barrier, id: int, cell: Cell)
    reads b
  {
    b.id == id && b.InRange() && b.count as int == cell.c.count && b.total as int == cell.s.total && b.waitQ == cell.s.waitQ
  }

  /** The registry has exactly the system's names, and the record under each shows its cell. */
  ghost predicate Matches(tb: Reg.Table<Barrier>, sys: System)
    reads set p, id | p in tb && id in tb[p].live :: tb[p].live[id]
  {
    && tb.Keys == sys.Keys
    && (forall p :: p in tb ==> tb[p].next == sys[p].next && tb[p].live.Keys == sys[p].live.Keys)
    && (forall p, id :: p in tb && id in tb[p].live ==> Shows(tb[p].live[id], id, sys[p].live[id]))
  }

  /** Different names are different records. */
  ghost predicate Apart(tb: Reg.Table<Barrier>) {
    forall p, id, q, i :: p in tb && id in tb[p].live && q in tb && i in tb[q].live && tb[p].live[id] == tb[q].live[i]
                          ==> p == q && id == i
  }

  /** The records the registry has linked. */
  ghost predicate Within(tb: Reg.Table<Barrier>, records: set<Barrier>) {
    forall p, id :: p in tb && id in tb[p].live ==> tb[p].live[id] in records
  }

  /** The driver's memory agrees with the system. */
  ghost predicate Agrees(reg: Registry, records: set<Barrier>, sys: System)
    reads reg, reg.blocks, records
  {
    reg.Valid() && Apart(reg.Entries()) && Within(reg.Entries(), records) && Matches(reg.Entries(), sys)
  }

  lemma SameAnswer(tb: Reg.Table<Barrier>, sys: System, p: Pid, count: int)
    requires Matches(tb, sys)
    ensures Reg.InitAccepts(tb, p, count) <==> Reg.InitAccepts(sys, p, count)
    ensures Reg.NextId(tb, p) == Reg.NextId(sys, p) && Reg.Live(tb, p).Keys == Reg.Live(sys, p).Keys
  {
  }

  /** A new record under the next id. */
  lemma MatchesAfterInit(tb: Reg.Table<Barrier>, sys: System, p: Pid, b: Barrier, cell: Cell)
    requires Matches(tb, sys) && Shows(b, Reg.NextId(tb, p), cell)
    ensures Matches(Reg.AfterInit(tb, p, b), Reg.AfterInit(sys, p, cell))
  {
    SameAnswer(tb, sys, p, 0);
    var tb', sys' := Reg.AfterInit(tb, p, b), Reg.AfterInit(sys, p, cell);
    forall q, i | q in tb' && i in tb'[q].live ensures i in sys'[q].live && Shows(tb'[q].live[i], i, sys'[q].live[i]) {
      if q != p || i != Reg.NextId(tb, p) { assert q in tb && i in tb[q].live; }
    }
  }

  lemma ApartAfterInit(tb: Reg.Table<Barrier>, p: Pid, b: Barrier)
    requires Apart(tb) && forall q, i :: q in tb && i in tb[q].live ==> tb[q].live[i] != b
    ensures Apart(Reg.AfterInit(tb, p, b))
  {
  }

  lemma WithinAfterInit(tb: Reg.Table<Barrier>, records: set<Barrier>, p: Pid, b: Barrier)
    requires Within(tb, records)
    ensures Within(Reg.AfterInit(tb, p, b), records + {b})
  {
  }

  lemma WithinAfterDestroy(tb: Reg.Table<Barrier>, records: set<Barrier>, p: Pid, id: int)
    requires Within(tb, records) && p in tb
    ensures Within(Reg.AfterDestroy(tb, p, id), records)
  {
  }

  /** A record gone, and its block with it if it was the last. */
  lemma MatchesAfterDestroy(tb: Reg.Table<Barrier>, sys: System, p: Pid, id: int)
    requires Matches(tb, sys) && Apart(tb) && p in tb
    ensures Matches(Reg.AfterDestroy(tb, p, id), Reg.AfterDestroy(sys, p, id)) && Apart(Reg.AfterDestroy(tb, p, id))
  {
    var rest, rest' := tb[p].live - {id}, sys[p].live - {id};
    assert rest.Keys == rest'.Keys;
    assert rest == map[] <==> rest.Keys == {};
    assert rest' == map[] <==> rest'.Keys == {};
  }

  /** All records but one show their cells, and that one shows its next state. */
  lemma MatchesAfterUse(tb: Reg.Table<Barrier>, sys: System, p: Pid, id: int, cell: Cell)
    requires tb.Keys == sys.Keys && p in tb && id in tb[p].live
    requires forall q :: q in tb ==> tb[q].next == sys[q].next && tb[q].live.Keys == sys[q].live.Keys
    requires forall q, i :: q in tb && i in tb[q].live && !(q == p && i == id) ==> Shows(tb[q].live[i], i, sys[q].live[i])
    requires Shows(tb[p].live[id], id, cell)
    ensures Matches(tb, sys[p := Reg.Proc(sys[p].next, sys[p].live[id := cell])])
  {
  }

  /** `barrier_init`. */
  method MakeBarrier(
    reg: Registry, p: Pid, count: int, ghost records: set<Barrier>, ghost team: Pid -> set<Tid>, ghost sys: System)
    returns (ghost records': set<Barrier>)
    requires Agrees(reg, records, sys) && count <= INT_MAX
    modifies reg`blocks, reg.blocks`bidCount, reg.blocks`barrierSize, reg.blocks`barriers
    ensures Agrees(reg, records', SysDo(team, sys, Make(p, count))) && fresh(records' - records)
    ensures forall j :: 0 <= j < |reg.blocks| ==> reg.blocks[j] in old(reg.blocks) || fresh(reg.blocks[j])
  {
    ghost var tb := reg.Entries();
    records' := records;
    SameAnswer(tb, sys, p, count);
    var b := InitBeside(reg, p, count, records, sys);
    if b != null {
      records' := records + {b};
      MatchesAfterInit(tb, sys, p, b, NewCell(team, p, count));
      ApartAfterInit(tb, p, b);
      WithinAfterInit(tb, records, p, b);
    }
  }

  /** An init leaves every record there was as it is. */
  method InitBeside(reg: Registry, p: Pid, count: int, ghost records: set<Barrier>, ghost sys: System) returns (b: Barrier?)
    requires Agrees(reg, records, sys) && count <= INT_MAX
    modifies reg`blocks, reg.blocks`bidCount, reg.blocks`barrierSize, reg.blocks`barriers
    ensures reg.Valid() && Matches(old(reg.Entries()), sys)
    ensures b != null <==> Reg.InitAccepts(old(reg.Entries()), p, count)
    ensures b == null ==> reg.Entries() == old(reg.Entries())
    ensures b != null ==>
      && fresh(b) && b !in records && reg.Entries() == Reg.AfterInit(old(reg.Entries()), p, b)
      && b.id == Reg.NextId(old(reg.Entries()), p) && b.count as int == count && b.total as int == FLAG && b.waitQ == {}
    ensures forall j :: 0 <= j < |reg.blocks| ==> reg.blocks[j] in old(reg.blocks) || fresh(reg.blocks[j])
  {
    var reply;
    reply, b := reg.Init(p, count);
  }

  /** A section on one record leaves all others as they are. */
  method Touch(b: Barrier, a: Action, ghost tb: Reg.Table<Barrier>, ghost sys: System, ghost p: Pid, ghost id: int)
    requires Matches(tb, sys) && Apart(tb) && p in tb && id in tb[p].live && b == tb[p].live[id]
    modifies b
    ensures Matches(tb, sys[p := Reg.Proc(sys[p].next, sys[p].live[id := Advance(sys[p].live[id], a)])])
  {
    ghost var cell := sys[p].live[id];
    assert Shows(b, id, cell);
    ghost var s' := Do(cell.c, cell.s, a);
    assert forall q, i :: q in tb && i in tb[q].live && !(q == p && i == id) ==> tb[q].live[i] != b;
    b.Section(a, cell.c, cell.s);
    assert Shows(b, id, Cell(cell.c, s'));
    MatchesAfterUse(tb, sys, p, id, Cell(cell.c, s'));
  }

  /** One step of `barrier_wait` or `barrier_destroy` that does not free. */
  method UseBarrier(reg: Registry, p: Pid, id: int, a: Action, ghost records: set<Barrier>, ghost sys: System)
    requires Agrees(reg, records, sys) && p in sys && id in sys[p].live
    modifies records
    ensures Agrees(reg, records, sys[p := Reg.Proc(sys[p].next, sys[p].live[id := Advance(sys[p].live[id], a)])])
    ensures reg.blocks == old(reg.blocks)
  {
    ghost var tb := reg.Entries();
    var b := reg.Lookup(p, id);
    assert Matches(tb, sys);
    Touch(b, a, tb, sys, p, id);
  }

  /** Find a barrier by name and take it off the registry. */
  method Remove(reg: Registry, p: Pid, id: int)
    requires reg.Valid() && p in reg.Entries() && id in reg.Entries()[p].live
    modifies reg`blocks, reg.blocks`bidCount, reg.blocks`barrierSize, reg.blocks`barriers
    ensures reg.Valid() && reg.Entries() == Reg.AfterDestroy(old(reg.Entries()), p, id)
    ensures forall j :: 0 <= j < |reg.blocks| ==> reg.blocks[j] in old(reg.blocks)
  {
    var block, k := reg.GetBlock(p);
    var b := block.GetBarrier(id);
    reg.Recycle(block, k, b);
  }

  /** The step of `barrier_destroy` that unlinks and frees. */
  method FreeBarrier(reg: Registry, p: Pid, id: int, ghost records: set<Barrier>, ghost sys: System)
    requires Agrees(reg, records, sys) && p in sys && id in sys[p].live
    modifies reg`blocks, reg.blocks`bidCount, reg.blocks`barrierSize, reg.blocks`barriers
    ensures Agrees(reg, records, Reg.AfterDestroy(sys, p, id))
    ensures forall j :: 0 <= j < |reg.blocks| ==> reg.blocks[j] in old(reg.blocks)
  {
    ghost var tb := reg.Entries();
    Remove(reg, p, id);
    assert Matches(tb, sys);
    MatchesAfterDestroy(tb, sys, p, id);
    WithinAfterDestroy(tb, records, p, id);
  }

  /** One act of any kind. */
  method Carry(reg: Registry, act: SysAct, ghost records: set<Barrier>, ghost team: Pid -> set<Tid>, ghost sys: System)
    returns (ghost records': set<Barrier>)
    requires Agrees(reg, records, sys) && SysEnabled(sys, act) && (act.Make? ==> act.count <= INT_MAX)
    modifies reg`blocks, reg.blocks`bidCount, reg.blocks`barrierSize, reg.blocks`barriers, records
    ensures Agrees(reg, records', SysDo(team, sys, act)) && fresh(records' - records)
    ensures forall j :: 0 <= j < |reg.blocks| ==> reg.blocks[j] in old(reg.blocks) || fresh(reg.blocks[j])
  {
    records' := records;
    match act {
      case Make(p, count) =>
        records' := MakeBarrier(reg, p, count, records, team, sys);
      case Use(p, id, a) =>
        if a.Recycle? {
          FreeBarrier(reg, p, id, records, sys);
        } else {
          UseBarrier(reg, p, id, a, records, sys);
        }
    }
  }

  /** Any interleaving of inits, lock sections and frees, carried out in memory, ends with the registry and the
      records of the system's state: so each record is where its own steps alone would have led it. */
  method Drive(acts: seq<SysAct>, ghost team: Pid -> set<Tid>, ghost states: seq<System>)
    returns (reg: Registry)
    requires SysRun(team, states, acts)
    requires forall i :: 0 <= i < |acts| && acts[i].Make? ==> acts[i].count <= INT_MAX
    ensures reg.Valid() && Apart(reg.Entries()) && Matches(reg.Entries(), states[|acts|])
  {
    reg := new Registry();
    ghost var records := {};
    for i := 0 to |acts|
      invariant fresh(reg) && fresh(records) && (forall j :: 0 <= j < |reg.blocks| ==> fresh(reg.blocks[j]))
      invariant Agrees(reg, records, states[i])
    {
      records := Carry(reg, acts[i], records, team, states[i]);
    }
  }
}
