/** The registry as the driver keeps it: a list of process blocks, each with a list of barriers. */
module BarrierRegistry {
  import opened BarrierWord
  import opened BarrierObject
  import opened RegistrySpec

  class ProcessBlock {
    const tgid: Pid
    var bidCount: int
    var barrierSize: int
    var barriers: seq<Barrier>

    constructor (tgid: Pid)
      ensures this.tgid == tgid && bidCount == 0 && barrierSize == 0 && barriers == []
    {
      this.tgid := tgid;
      bidCount, barrierSize, barriers := 0, 0, [];
    }

    ghost predicate Valid()
      reads this
    {
      && 0 <= bidCount < UINT
      && barrierSize == |barriers|
      && (forall i, j :: 0 <= i < j < |barriers| ==> barriers[i].id != barriers[j].id)
    }

    ghost function Abs(): Proc<Barrier>
      reads this
    {
      Proc(bidCount, ById(barriers))
    }

    /** `get_barrier_from_ptgid` on a block that exists. */
    method GetBarrier(id: int) returns (b: Barrier?)
      requires Valid()
      ensures id in Abs().live <==> b != null
      ensures b != null ==> b == Abs().live[id] && b in barriers && b.id == id
    {
      for i := 0 to |barriers|
        invariant forall j :: 0 <= j < i ==> barriers[j].id != id
      {
        if barriers[i].id == id {
          ByIdFinds(barriers, i);
          return barriers[i];
        }
      }
      ByIdMisses(barriers, id);
      b := null;
    }

    /** The second half of `barrier_init`: take the next id unless it is still in use. */
    method AddBarrier(count: int) returns (b: Barrier?)
      requires Valid() && 0 <= count <= INT_MAX
      modifies this`bidCount, this`barrierSize, this`barriers
      ensures Valid()
      ensures b == null <==> old(bidCount in Abs().live)
      ensures b == null ==> unchanged(this)
      ensures b != null ==>
        && fresh(b) && b.id == old(bidCount) && b.count as int == count && b.total as int == FLAG && b.waitQ == {}
        && barriers == [b] + old(barriers)
        && Abs() == Proc((old(bidCount) + 1) % UINT, old(Abs()).live[b.id := b])
    {
      b := GetBarrier(bidCount);
      if b != null {
        return null;
      }
      forall i | 0 <= i < |barriers| ensures barriers[i].id != bidCount {
        ByIdFinds(barriers, i);
      }
      b := new Barrier(bidCount, count);
      bidCount := (bidCount + 1) % UINT;
      barrierSize := barrierSize + 1;
      barriers := [b] + barriers;
    }

    /** The second half of `barrier_destroy`: take the barrier off the list. */
    method Unlink(b: Barrier)
      requires Valid() && b in barriers
      modifies this`bidCount, this`barrierSize, this`barriers
      ensures Valid() && bidCount == old(bidCount) && barrierSize == old(barrierSize) - 1
      ensures Abs() == Proc(bidCount, old(Abs()).live - {b.id})
    {
      var i := 0;
      while barriers[i] != b
        invariant 0 <= i < |barriers|
        invariant forall j :: 0 <= j < i ==> barriers[j] != b
        decreases |barriers| - i
      {
        i := i + 1;
      }
      ByIdRemoves(barriers, i);
      barriers := barriers[..i] + barriers[i + 1..];
      barrierSize := barrierSize - 1;
    }
  }

  /** The barriers of a list, by id. */
  ghost function ById(bs: seq<Barrier>): map<int, Barrier> {
    if bs == [] then map[] else ById(bs[1..])[bs[0].id := bs[0]]
  }

  lemma {:induction false} ByIdMisses(bs: seq<Barrier>, id: int)
    requires forall j :: 0 <= j < |bs| ==> bs[j].id != id
    ensures id !in ById(bs)
  {
    if bs != [] { ByIdMisses(bs[1..], id); }
  }

  lemma {:induction false} ByIdFinds(bs: seq<Barrier>, i: int)
    requires 0 <= i < |bs|
    requires forall j, k :: 0 <= j < k < |bs| ==> bs[j].id != bs[k].id
    ensures bs[i].id in ById(bs) && ById(bs)[bs[i].id] == bs[i]
  {
    if i > 0 { ByIdFinds(bs[1..], i - 1); }
  }

  lemma {:induction false} ByIdRemoves(bs: seq<Barrier>, i: int)
    requires 0 <= i < |bs|
    requires forall j, k :: 0 <= j < k < |bs| ==> bs[j].id != bs[k].id
    ensures ById(bs[..i] + bs[i + 1..]) == ById(bs) - {bs[i].id}
  {
    if i == 0 {
      assert bs[..0] + bs[1..] == bs[1..];
      ByIdMisses(bs[1..], bs[0].id);
    } else {
      ByIdRemoves(bs[1..], i - 1);
      assert (bs[..i] + bs[i + 1..])[1..] == bs[1..][..i - 1] + bs[1..][i..];
    }
  }

  lemma ByIdEmpty(bs: seq<Barrier>)
    ensures ById(bs) == map[] <==> bs == []
  {
    if bs != [] { assert bs[0].id in ById(bs); }
  }

  lemma {:induction false} ByIdSource(bs: seq<Barrier>, id: int) returns (i: int)
    requires id in ById(bs)
    ensures 0 <= i < |bs| && bs[i] == ById(bs)[id] && bs[i].id == id
  {
    if id == bs[0].id {
      i := 0;
    } else {
      i := ByIdSource(bs[1..], id);
      i := i + 1;
    }
  }

  // ----- A list of rows as a table -----

  datatype Row = Row(p: Pid, proc: Proc<Barrier>)

  ghost predicate DistinctRows(rows: seq<Row>) {
    forall i, j :: 0 <= i < j < |rows| ==> rows[i].p != rows[j].p
  }

  ghost function TableOf(rows: seq<Row>): Table<Barrier> {
    if rows == [] then map[] else TableOf(rows[1..])[rows[0].p := rows[0].proc]
  }

  lemma {:induction false} RowMisses(rows: seq<Row>, p: Pid)
    requires forall i :: 0 <= i < |rows| ==> rows[i].p != p
    ensures p !in TableOf(rows)
  {
    if rows != [] { RowMisses(rows[1..], p); }
  }

  lemma {:induction false} RowFinds(rows: seq<Row>, i: int)
    requires DistinctRows(rows) && 0 <= i < |rows|
    ensures rows[i].p in TableOf(rows) && TableOf(rows)[rows[i].p] == rows[i].proc
  {
    if i > 0 { RowFinds(rows[1..], i - 1); }
  }

  lemma {:induction false} RowSource(rows: seq<Row>, p: Pid) returns (i: int)
    requires p in TableOf(rows)
    ensures 0 <= i < |rows| && rows[i].p == p && rows[i].proc == TableOf(rows)[p]
  {
    if p == rows[0].p {
      i := 0;
    } else {
      i := RowSource(rows[1..], p);
      i := i + 1;
    }
  }

  lemma {:induction false} RowChanges(rows: seq<Row>, i: int, proc: Proc<Barrier>)
    requires DistinctRows(rows) && 0 <= i < |rows|
    ensures TableOf(rows[i := Row(rows[i].p, proc)]) == TableOf(rows)[rows[i].p := proc]
  {
    var changed := rows[i := Row(rows[i].p, proc)];
    if i == 0 {
      assert changed[1..] == rows[1..];
    } else {
      RowChanges(rows[1..], i - 1, proc);
      assert changed[1..] == rows[1..][i - 1 := Row(rows[i].p, proc)];
      assert rows[0].p != rows[i].p;
    }
  }

  lemma {:induction false} RowGoes(rows: seq<Row>, i: int)
    requires DistinctRows(rows) && 0 <= i < |rows|
    ensures TableOf(rows[..i] + rows[i + 1..]) == TableOf(rows) - {rows[i].p}
  {
    var rest := rows[..i] + rows[i + 1..];
    if i == 0 {
      assert rest == rows[1..];
      RowMisses(rows[1..], rows[0].p);
    } else {
      RowGoes(rows[1..], i - 1);
      assert rest[1..] == rows[1..][..i - 1] + rows[1..][i..];
      assert rest[0] == rows[0] && rows[0].p != rows[i].p;
    }
  }

  lemma RowsAfterDestroy(rows: seq<Row>, k: int, id: int)
    requires DistinctRows(rows) && 0 <= k < |rows|
    ensures rows[k].p in TableOf(rows)
    ensures
      var rest := rows[k].proc.live - {id};
      AfterDestroy(TableOf(rows), rows[k].p, id) ==
      TableOf(if rest == map[] then rows[..k] + rows[k + 1..]
              else rows[k := Row(rows[k].p, Proc(rows[k].proc.next, rest))])
  {
    RowFinds(rows, k);
    RowGoes(rows, k);
    RowChanges(rows, k, Proc(rows[k].proc.next, rows[k].proc.live - {id}));
  }

  datatype Reply = Done | Refused | Asleep

  class Registry {
    var blocks: seq<ProcessBlock>

    /** Blocks are distinct processes, each non-empty. */
    ghost predicate Valid()
      reads this, blocks
    {
      && (forall i, j :: 0 <= i < j < |blocks| ==> blocks[i].tgid != blocks[j].tgid)
      && (forall i :: 0 <= i < |blocks| ==> blocks[i].Valid() && blocks[i].barriers != [])
    }

    ghost function Rows(): (rows: seq<Row>)
      reads this, blocks
    {
      seq(|blocks|, i requires 0 <= i < |blocks| reads this, blocks => Row(blocks[i].tgid, blocks[i].Abs()))
    }

    /** The map the blocks stand for. */
    ghost function Entries(): Table<Barrier>
      reads this, blocks
    {
      TableOf(Rows())
    }

    /** Every barrier in the map is linked into some block. */
    lemma EntryIsLinked(p: Pid, id: int) returns (i: int, j: int)
      requires p in Entries() && id in Entries()[p].live
      ensures 0 <= i < |blocks| && 0 <= j < |blocks[i].barriers|
      ensures blocks[i].barriers[j] == Entries()[p].live[id] && Entries()[p].live[id].id == id
    {
      i := RowSource(Rows(), p);
      j := ByIdSource(blocks[i].barriers, id);
    }

    constructor ()
      ensures Valid() && blocks == [] && Entries() == map[]
    {
      blocks := [];
    }

    /** `get_ptgid` and `get_ptgid_without_lock`: the same scan. */
    method GetBlock(tgid: Pid) returns (p: ProcessBlock?, k: nat)
      requires Valid()
      ensures p == null <==> tgid !in Entries()
      ensures p != null ==> k < |blocks| && p == blocks[k] && p.tgid == tgid && Entries()[tgid] == p.Abs()
    {
      k := 0;
      while k < |blocks|
        invariant 0 <= k <= |blocks|
        invariant forall j :: 0 <= j < k ==> blocks[j].tgid != tgid
      {
        if blocks[k].tgid == tgid {
          RowFinds(Rows(), k);
          return blocks[k], k;
        }
        k := k + 1;
      }
      RowMisses(Rows(), tgid);
      p := null;
    }

    /** `get_barrier_only_from_id`. */
    method Lookup(tgid: Pid, id: int) returns (b: Barrier?)
      requires Valid()
      ensures b != null <==> id in Live(Entries(), tgid)
      ensures b != null ==> b == Live(Entries(), tgid)[id]
    {
      var p, _ := GetBlock(tgid);
      if p == null {
        return null;
      }
      b := p.GetBarrier(id);
    }

    /** A process's first barrier: a new block at the head of the list. */
    method InitFirst(tgid: Pid, count: int) returns (b: Barrier)
      requires Valid() && 0 <= count <= INT_MAX && tgid !in Entries()
      modifies this`blocks
      ensures Valid() && |blocks| == |old(blocks)| + 1 && fresh(blocks[0]) && blocks[1..] == old(blocks)
      ensures fresh(b) && b.id == 0 && b.count as int == count && b.total as int == FLAG && b.waitQ == {}
      ensures Entries() == old(Entries())[tgid := Proc(1, map[0 := b])]
    {
      forall i | 0 <= i < |blocks| ensures blocks[i].tgid != tgid { RowFinds(Rows(), i); }
      ghost var rows := Rows();
      var p := new ProcessBlock(tgid);
      blocks := [p] + blocks;
      b := p.AddBarrier(count);
      assert Rows()[1..] == rows;
    }

    /** One more barrier for a process that has some. */
    method InitMore(p: ProcessBlock, k: nat, count: int) returns (b: Barrier?)
      requires Valid() && 0 <= count <= INT_MAX && k < |blocks| && p == blocks[k]
      modifies p`bidCount, p`barrierSize, p`barriers
      ensures Valid()
      ensures b == null <==> old(p.bidCount in p.Abs().live)
      ensures b == null ==> Entries() == old(Entries())
      ensures b != null ==>
        && fresh(b) && b.id == old(p.bidCount) && b.count as int == count && b.total as int == FLAG && b.waitQ == {}
        && Entries() == old(Entries())[p.tgid := Proc((b.id + 1) % UINT, old(p.Abs()).live[b.id := b])]
    {
      ghost var rows := Rows();
      b := p.AddBarrier(count);
      assert Rows() == rows[k := Row(p.tgid, p.Abs())];
      RowChanges(rows, k, p.Abs());
    }

    method Init(tgid: Pid, count: int) returns (reply: Reply, b: Barrier?)
      requires Valid() && count <= INT_MAX
      modifies this`blocks, blocks`bidCount, blocks`barrierSize, blocks`barriers
      ensures Valid() && (forall j :: 0 <= j < |blocks| ==> blocks[j] in old(blocks) || fresh(blocks[j]))
      ensures reply == (if InitAccepts(old(Entries()), tgid, count) then Done else Refused)
      ensures reply.Refused? ==> b == null && Entries() == old(Entries()) && blocks == old(blocks)
      ensures reply.Done? ==>
        && b != null && fresh(b) && b.id == NextId(old(Entries()), tgid)
        && b.count as int == count && b.total as int == FLAG && b.waitQ == {}
        && Entries() == AfterInit(old(Entries()), tgid, b)
    {
      if 0 > count {
        return Refused, null;
      }
      var p, k := GetBlock(tgid);
      if p == null {
        b := InitFirst(tgid, count);
      } else {
        b := InitMore(p, k, count);
        if b == null {
          return Refused, null;
        }
      }
      reply := Done;
    }

    /** Take a barrier off its block; the block itself stays listed, perhaps empty. */
    method UnlinkBarrier(p: ProcessBlock, k: nat, b: Barrier)
      requires Valid() && k < |blocks| && p == blocks[k] && b in p.barriers
      modifies p`bidCount, p`barrierSize, p`barriers
      ensures p.Valid() && (p.barrierSize == 0 <==> old(p.Abs()).live - {b.id} == map[])
      ensures forall i :: 0 <= i < |blocks| && i != k ==> blocks[i].Valid() && blocks[i].barriers != []
      ensures Rows() == old(Rows())[k := Row(p.tgid, Proc(old(p.bidCount), old(p.Abs()).live - {b.id}))]
    {
      p.Unlink(b);
      ByIdEmpty(p.barriers);
    }

    method DropBlock(k: nat)
      requires k < |blocks|
      requires forall i, j :: 0 <= i < j < |blocks| ==> blocks[i].tgid != blocks[j].tgid
      requires forall i :: 0 <= i < |blocks| && i != k ==> blocks[i].Valid() && blocks[i].barriers != []
      modifies this`blocks
      ensures Valid() && (forall j :: 0 <= j < |blocks| ==> blocks[j] in old(blocks))
      ensures Rows() == old(Rows())[..k] + old(Rows())[k + 1..]
    {
      blocks := blocks[..k] + blocks[k + 1..];
    }

    /** Take a barrier off its block, and the block off the list when that was its last one. */
    method Recycle(p: ProcessBlock, k: nat, b: Barrier)
      requires Valid() && k < |blocks| && p == blocks[k] && b in p.barriers
      modifies this`blocks, p`bidCount, p`barrierSize, p`barriers
      ensures Valid() && (forall j :: 0 <= j < |blocks| ==> blocks[j] in old(blocks))
      ensures p.tgid in old(Entries()) && Entries() == AfterDestroy(old(Entries()), p.tgid, b.id)
    {
      ghost var rows := Rows();
      RowsAfterDestroy(rows, k, b.id);
      UnlinkBarrier(p, k, b);
      if 0 == p.barrierSize {
        DropBlock(k);
        assert Rows() == rows[..k] + rows[k + 1..];
      }
    }

    method Destroy(tgid: Pid, id: int) returns (reply: Reply)
      requires Valid()
      modifies this`blocks, blocks`bidCount, blocks`barrierSize, blocks`barriers
      ensures Valid() && (forall j :: 0 <= j < |blocks| ==> blocks[j] in old(blocks))
      ensures reply.Refused? <==> id !in Live(old(Entries()), tgid)
      ensures reply.Asleep? <==> old(id in Live(Entries(), tgid) && Live(Entries(), tgid)[id].total as int > FLAG)
      ensures !reply.Done? ==> Entries() == old(Entries())
      ensures reply.Done? ==> Entries() == AfterDestroy(old(Entries()), tgid, id)
    {
      var p, k := GetBlock(tgid);
      if p == null {
        return Refused;
      }
      var b := p.GetBarrier(id);
      if b == null {
        return Refused;
      }
      var drained := b.DrainSection();
      if !drained {
        return Asleep;
      }
      Recycle(p, k, b);
      reply := Done;
    }
  }

  datatype SysCall = BarrierInit(p: Pid, count: int) | BarrierDestroy(p: Pid, id: int)

  /** The request a call stands for, and its reply. An accepted init hands out a barrier of the count asked
      for under the next id; a refused one allocates nothing, so its barrier does not matter. */
  ghost predicate Stands(tb: Table<Barrier>, call: SysCall, reply: Reply, r: Request<Barrier>) {
    && reply == (if Accepts(tb, r) then Done else Refused)
    && match call
       case BarrierInit(p, count) =>
         && r.Init? && r.p == p && r.count == count
         && (reply.Done? ==> r.b.id == NextId(tb, p) && r.b.count as int == count)
       case BarrierDestroy(p, id) => r == Destroy(p, id)
  }

  /** One call on an idle registry. */
  method Handle(reg: Registry, call: SysCall, none: Barrier) returns (reply: Reply, ghost r: Request<Barrier>)
    requires reg.Valid() && AllIdle(reg.Entries())
    requires call.BarrierInit? ==> call.count <= INT_MAX
    modifies reg`blocks, reg.blocks`bidCount, reg.blocks`barrierSize, reg.blocks`barriers
    ensures reg.Valid() && AllIdle(reg.Entries()) && Stands(old(reg.Entries()), call, reply, r)
    ensures reg.Entries() == Serve(old(reg.Entries()), r)
    ensures forall j :: 0 <= j < |reg.blocks| ==> reg.blocks[j] in old(reg.blocks) || fresh(reg.blocks[j])
  {
    ghost var before := reg.Entries();
    forall p, id | p in before && id in before[p].live
      ensures allocated(before[p].live[id]) && before[p].live[id].total as int == FLAG
    {
      var i, j := reg.EntryIsLinked(p, id);
    }
    match call {
      case BarrierInit(p, count) =>
        var b;
        reply, b := reg.Init(p, count);
        r := Init(p, count, if b == null then none else b);
      case BarrierDestroy(p, id) =>
        reply := reg.Destroy(p, id);
        r := Destroy(p, id);
    }
    assert reg.Entries() == Serve(before, r);
    forall p, id | p in before && id in before[p].live ensures before[p].live[id].total as int == FLAG {
    }
    forall p, id | p in reg.Entries() && id in reg.Entries()[p].live
      ensures reg.Entries()[p].live[id].total as int == FLAG
    {
      ServeKeepsBarriers(before, r, p, id);
    }
  }

  /** Every sequence of calls taken one at a time gets the replies the map gives, and leaves the blocks
      standing for the table that the same requests leave, with every barrier idle. */
  method Replay(calls: seq<SysCall>) returns (reg: Registry, replies: seq<Reply>, ghost reqs: seq<Request<Barrier>>)
    requires forall i :: 0 <= i < |calls| && calls[i].BarrierInit? ==> calls[i].count <= INT_MAX
    ensures reg.Valid() && |reqs| == |replies| == |calls|
    ensures forall i :: 0 <= i < |calls| ==> Stands(ServeAll(reqs[..i]), calls[i], replies[i], reqs[i])
    ensures reg.Entries() == ServeAll(reqs) && AllIdle(reg.Entries())
  {
    reg := new Registry();
    var none := new Barrier(0, 0);
    replies, reqs := [], [];
    for i := 0 to |calls|
      invariant fresh(reg) && reg.Valid() && AllIdle(reg.Entries())
      invariant forall j :: 0 <= j < |reg.blocks| ==> fresh(reg.blocks[j])
      invariant |reqs| == |replies| == i
      invariant forall j :: 0 <= j < i ==> Stands(ServeAll(reqs[..j]), calls[j], replies[j], reqs[j])
      invariant reg.Entries() == ServeAll(reqs)
    {
      ghost var r;
      var reply;
      reply, r := Handle(reg, calls[i], none);
      ServeAllSnoc(reqs, r);
      ghost var more := reqs + [r];
      assert more[..i] == reqs;
      assert forall j :: 0 <= j < i ==> more[..j] == reqs[..j];
      replies, reqs := replies + [reply], more;
    }
  }

  /** Nobody is being released anywhere. */
  ghost predicate AllIdle(tb: Table<Barrier>)
    reads set p, id | p in tb && id in tb[p].live :: tb[p].live[id]
  {
    forall p, id :: p in tb && id in tb[p].live ==> tb[p].live[id].total as int == FLAG
  }
}
