/** All barriers of all processes together: inits, lock sections on named barriers and frees, in any order.
    Whatever the others do, each barrier goes through a run of its own. */
module BarrierSystem {
  import opened BarrierMachine
  import opened BarrierSpec
  import opened BarrierSafety
  import Reg = RegistrySpec

  type Pid = Reg.Pid

  /** A live barrier: who may use it, and its state. */
  datatype Cell = Cell(c: Config, s: State)

  type System = Reg.Table<Cell>

  datatype SysAct =
    | Make(p: Pid, count: int)         // barrier_init
    | Use(p: Pid, id: int, a: Action)  // one step of barrier_wait or barrier_destroy on a live barrier

  predicate SysEnabled(sys: System, act: SysAct) {
    match act
    case Make(_, _) => true
    case Use(p, id, a) => p in sys && id in sys[p].live && Enabled(sys[p].live[id].c, sys[p].live[id].s, a)
  }

  function NewCell(team: Pid -> set<Tid>, p: Pid, count: int): Cell {
    Cell(Config(count, team(p)), Init())
  }

  function Advance(cell: Cell, a: Action): Cell {
    Cell(cell.c, Do(cell.c, cell.s, a))
  }

  /** The step that frees takes the barrier off the registry; the others only touch the barrier. */
  function SysDo(team: Pid -> set<Tid>, sys: System, act: SysAct): System
    requires SysEnabled(sys, act)
  {
    match act
    case Make(p, count) =>
      if Reg.InitAccepts(sys, p, count) then Reg.AfterInit(sys, p, NewCell(team, p, count)) else sys
    case Use(p, id, a) =>
      if a.Recycle? then Reg.AfterDestroy(sys, p, id)
      else sys[p := Reg.Proc(sys[p].next, sys[p].live[id := Advance(sys[p].live[id], a)])]
  }

  /** The states a run passes through. */
  ghost predicate SysRun(team: Pid -> set<Tid>, states: seq<System>, acts: seq<SysAct>) {
    && |states| == |acts| + 1 && states[0] == map[]
    && forall i :: 0 <= i < |acts| ==>
         SysEnabled(states[i], acts[i]) && states[i + 1] == SysDo(team, states[i], acts[i])
  }

  /** The life of a barrier: the count it was made with and the steps taken on it. */
  datatype Life = Life(count: int, uses: seq<Action>)

  /** Of the barrier p knows as id after the first n acts, read off the acts that name it: the last accepted
      init that gave out the id, and the steps on it since. */
  function LifeOf(states: seq<System>, acts: seq<SysAct>, p: Pid, id: int, n: nat): Life
    requires n <= |acts| < |states|
  {
    if n == 0 then Life(0, [])
    else
      var life := LifeOf(states, acts, p, id, n - 1);
      match acts[n - 1]
      case Make(q, count) =>
        if q == p && Reg.InitAccepts(states[n - 1], p, count) && Reg.NextId(states[n - 1], p) == id
        then Life(count, []) else life
      case Use(q, i, a) => if q == p && i == id then Life(life.count, life.uses + [a]) else life
  }

  /** The cell is what its own life makes of a new barrier. */
  ghost predicate Lives(team: Pid -> set<Tid>, cell: Cell, p: Pid, life: Life) {
    && cell.c == Config(life.count, team(p)) && 0 <= life.count
    && Runs(cell.c, life.uses) && cell.s == Exec(cell.c, life.uses)
  }

  lemma AdvanceLives(team: Pid -> set<Tid>, cell: Cell, p: Pid, life: Life, a: Action)
    requires Lives(team, cell, p, life) && Enabled(cell.c, cell.s, a)
    ensures Lives(team, Advance(cell, a), p, Life(life.count, life.uses + [a]))
  {
    RunsSnoc(cell.c, life.uses, a);
  }

  /** What one act does to one name. */
  lemma OneAct(team: Pid -> set<Tid>, sys: System, act: SysAct, p: Pid, id: int)
    requires SysEnabled(sys, act) && id in Reg.Live(SysDo(team, sys, act), p)
    ensures
      var cell := Reg.Live(SysDo(team, sys, act), p)[id];
      match act
      case Make(q, count) =>
        if q == p && Reg.InitAccepts(sys, p, count) && Reg.NextId(sys, p) == id
        then cell == NewCell(team, p, count) && count >= 0
        else id in Reg.Live(sys, p) && cell == Reg.Live(sys, p)[id]
      case Use(q, i, a) =>
        && id in Reg.Live(sys, p)
        && cell == (if q == p && i == id then Advance(Reg.Live(sys, p)[id], a) else Reg.Live(sys, p)[id])
  {
  }

  /** Over every interleaving, every live barrier is in the state its own steps alone would have led to, and
      those steps are a run of the barrier machine. */
  lemma {:induction false} EachBarrierRunsAlone(
    team: Pid -> set<Tid>, states: seq<System>, acts: seq<SysAct>, p: Pid, id: int, n: nat)
    requires SysRun(team, states, acts) && n <= |acts| && id in Reg.Live(states[n], p)
    ensures Lives(team, Reg.Live(states[n], p)[id], p, LifeOf(states, acts, p, id, n))
  {
    if n > 0 {
      var act := acts[n - 1];
      OneAct(team, states[n - 1], act, p, id);
      if id in Reg.Live(states[n - 1], p) {
        EachBarrierRunsAlone(team, states, acts, p, id, n - 1);
        if act.Use? && act.p == p && act.id == id {
          AdvanceLives(team, Reg.Live(states[n - 1], p)[id], p, LifeOf(states, acts, p, id, n - 1), act.a);
        }
      }
    }
  }

  /** So separation holds of every live barrier of every process at every moment. */
  lemma EachBarrierSeparates(team: Pid -> set<Tid>, states: seq<System>, acts: seq<SysAct>, p: Pid, id: int, n: nat)
    requires SysRun(team, states, acts) && n <= |acts| && id in Reg.Live(states[n], p)
    requires ProperCount(Reg.Live(states[n], p)[id].c)
    ensures
      var cell := Reg.Live(states[n], p)[id];
      Separated(cell.c.count, cell.s.log) && WordReads(cell.c, cell.s) && !cell.s.freed
  {
    EachBarrierRunsAlone(team, states, acts, p, id, n);
    var cell := Reg.Live(states[n], p)[id];
    var life := LifeOf(states, acts, p, id, n);
    Separation(cell.c, life.uses);
    WordEncodesState(cell.c, life.uses);
    LiveIsNotFreed(team, states, acts, p, id, n);
  }

  lemma {:induction false} LiveIsNotFreed(
    team: Pid -> set<Tid>, states: seq<System>, acts: seq<SysAct>, p: Pid, id: int, n: nat)
    requires SysRun(team, states, acts) && n <= |acts| && id in Reg.Live(states[n], p)
    ensures !Reg.Live(states[n], p)[id].s.freed
  {
    if n > 0 {
      OneAct(team, states[n - 1], acts[n - 1], p, id);
      if id in Reg.Live(states[n - 1], p) { LiveIsNotFreed(team, states, acts, p, id, n - 1); }
    }
  }

  // ----- The registry's part -----

  /** What the registry sees of a run: the inits and the frees. */
  function Requests(acts: seq<SysAct>): seq<Reg.Request<bool>> {
    if acts == [] then []
    else
      var before := Requests(acts[..|acts| - 1]);
      match acts[|acts| - 1]
      case Make(p, count) => before + [Reg.Init(p, count, true)]
      case Use(p, id, a) => if a.Recycle? then before + [Reg.Destroy(p, id)] else before
  }

  ghost predicate SameNames(sys: System, tb: Reg.Table<bool>) {
    && (forall p :: p in sys <==> p in tb)
    && (forall p :: p in sys ==> sys[p].next == tb[p].next && sys[p].live.Keys == tb[p].live.Keys)
  }

  lemma SameNamesStep(team: Pid -> set<Tid>, sys: System, tb: Reg.Table<bool>, act: SysAct)
    requires SameNames(sys, tb) && SysEnabled(sys, act)
    ensures
      var after := SysDo(team, sys, act);
      match act
      case Make(p, count) => SameNames(after, Reg.Serve(tb, Reg.Init(p, count, true)))
      case Use(p, id, a) => SameNames(after, if a.Recycle? then Reg.Serve(tb, Reg.Destroy(p, id)) else tb)
  {
    if act.Use? && act.a.Recycle? {
      var rest, rest' := sys[act.p].live - {act.id}, tb[act.p].live - {act.id};
      assert rest.Keys == rest'.Keys;
      assert rest == map[] <==> rest.Keys == {};
      assert rest' == map[] <==> rest'.Keys == {};
    }
  }

  /** Using the barriers does not disturb the registry: the names in use are those the inits and frees alone
      would leave. */
  lemma {:induction false} NamesFollowRegistry(team: Pid -> set<Tid>, states: seq<System>, acts: seq<SysAct>, n: nat)
    requires SysRun(team, states, acts) && n <= |acts|
    ensures SameNames(states[n], Reg.ServeAll(Requests(acts[..n])))
  {
    if n > 0 {
      NamesFollowRegistry(team, states, acts, n - 1);
      assert acts[..n][..n - 1] == acts[..n - 1];
      var tb := Reg.ServeAll(Requests(acts[..n - 1]));
      SameNamesStep(team, states[n - 1], tb, acts[n - 1]);
      match acts[n - 1]
      case Make(p, count) => Reg.ServeAllSnoc(Requests(acts[..n - 1]), Reg.Init(p, count, true));
      case Use(p, id, a) =>
        if a.Recycle? { Reg.ServeAllSnoc(Requests(acts[..n - 1]), Reg.Destroy(p, id)); }
    }
  }
}
