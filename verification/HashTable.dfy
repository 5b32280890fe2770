/** The table itself: an array of chains and a size counter, changed in place. */
module HashTable {
  import opened KeyValueSpec

  const BUCKET_SIZE: int := 128

  datatype Pair = Pair(key: int, data: int)

  datatype ReadReply = Found(data: int) | Invalid

  /** One chain against the map: its own keys, each once, none missing. */
  ghost predicate ChainOf(hash: int -> int, b: int, chain: seq<Pair>, m: map<int, int>) {
    && (forall i :: 0 <= i < |chain| ==>
          hash(chain[i].key) == b && chain[i].key in m && m[chain[i].key] == chain[i].data)
    && (forall i, j :: 0 <= i < j < |chain| ==> chain[i].key != chain[j].key)
    && (forall k :: k in m && hash(k) == b ==> exists i :: 0 <= i < |chain| && chain[i].key == k)
  }

  lemma ChainHit(hash: int -> int, b: int, chain: seq<Pair>, m: map<int, int>, i: int, data: int)
    requires ChainOf(hash, b, chain, m) && 0 <= i < |chain| && data != 0
    ensures ChainOf(hash, b, chain[i := Pair(chain[i].key, data)], Written(m, chain[i].key, data))
  {
    var key := chain[i].key;
    var after := chain[i := Pair(key, data)];
    forall k | k in Written(m, key, data) && hash(k) == b
      ensures exists j :: 0 <= j < |after| && after[j].key == k
    {
      var j :| 0 <= j < |chain| && chain[j].key == k;
      assert after[j].key == k;
    }
  }

  lemma ChainAdd(hash: int -> int, b: int, chain: seq<Pair>, m: map<int, int>, key: int, data: int)
    requires ChainOf(hash, b, chain, m) && hash(key) == b && key !in m && data != 0
    ensures ChainOf(hash, b, [Pair(key, data)] + chain, Written(m, key, data))
  {
    var after := [Pair(key, data)] + chain;
    forall k | k in Written(m, key, data) && hash(k) == b
      ensures exists j :: 0 <= j < |after| && after[j].key == k
    {
      if k == key {
        assert after[0].key == k;
      } else {
        var j :| 0 <= j < |chain| && chain[j].key == k;
        assert after[j + 1].key == k;
      }
    }
  }

  lemma ChainDelete(hash: int -> int, b: int, chain: seq<Pair>, m: map<int, int>, i: int)
    requires ChainOf(hash, b, chain, m) && 0 <= i < |chain|
    ensures ChainOf(hash, b, chain[..i] + chain[i + 1..], Written(m, chain[i].key, 0))
  {
    var after := chain[..i] + chain[i + 1..];
    forall k | k in Written(m, chain[i].key, 0) && hash(k) == b
      ensures exists j :: 0 <= j < |after| && after[j].key == k
    {
      var j :| 0 <= j < |chain| && chain[j].key == k;
      assert after[if j < i then j else j - 1].key == k;
    }
  }

  /** A write does not disturb the other chains. */
  lemma ChainElsewhere(hash: int -> int, b: int, chain: seq<Pair>, m: map<int, int>, key: int, data: int)
    requires ChainOf(hash, b, chain, m) && hash(key) != b
    ensures ChainOf(hash, b, chain, Written(m, key, data))
  {
  }

  class Ht530 {
    const hash: int -> int
    const table: array<seq<Pair>>
    var curSize: int

    /** The map the table stands for. */
    ghost var contents: map<int, int>

    ghost predicate Valid()
      reads this, table
    {
      && table.Length == BUCKET_SIZE
      && (forall k :: 0 <= hash(k) < BUCKET_SIZE)
      && (forall b :: 0 <= b < BUCKET_SIZE ==> ChainOf(hash, b, table[b], contents))
      && curSize == |contents|
    }

    constructor (hash: int -> int)
      requires forall k :: 0 <= hash(k) < BUCKET_SIZE
      ensures Valid() && contents == map[] && this.hash == hash && fresh(table)
    {
      this.hash := hash;
      table := new seq<Pair>[BUCKET_SIZE](_ => []);
      curSize := 0;
      contents := map[];
    }

    /** `find_the_bucket` and `find_the_node`: the place of a key in its chain. */
    method FindTheNode(key: int) returns (found: bool, b: int, i: nat)
      requires Valid()
      ensures b == hash(key)
      ensures found <==> key in contents
      ensures found ==> i < |table[b]| && table[b][i] == Pair(key, contents[key])
    {
      b := hash(key);
      i := 0;
      if table[b] == [] {
        return false, b, i;
      }
      while i < |table[b]|
        invariant 0 <= i <= |table[b]|
        invariant forall j :: 0 <= j < i ==> table[b][j].key != key
      {
        if table[b][i].key == key {
          return true, b, i;
        }
        i := i + 1;
      }
      found := false;
    }

    method Read(key: int) returns (reply: ReadReply)
      requires Valid()
      ensures reply == if key in contents then Found(contents[key]) else Invalid
    {
      var found, b, i := FindTheNode(key);
      reply := if found then Found(table[b][i].data) else Invalid;
    }

    method Write(key: int, data: int)
      requires Valid()
      modifies this`curSize, this`contents, table
      ensures Valid() && contents == Written(old(contents), key, data)
    {
      var found, b, i := FindTheNode(key);
      if !found && 0 == data {
        assert contents - {key} == contents;
        return;
      }
      ghost var m := contents;
      ghost var chain := table[b];
      if !found {
        table[b] := [Pair(key, data)] + table[b];
        curSize := curSize + 1;
        ChainAdd(hash, b, chain, m, key, data);
      } else if 0 != data {
        table[b] := table[b][i := Pair(key, data)];
        ChainHit(hash, b, chain, m, i, data);
      } else {
        table[b] := table[b][..i] + table[b][i + 1..];
        curSize := curSize - 1;
        ChainDelete(hash, b, chain, m, i);
      }
      contents := Written(m, key, data);
      WrittenSize(m, key, data);
      forall c | 0 <= c < BUCKET_SIZE && c != b ensures ChainOf(hash, c, table[c], contents) {
        ChainElsewhere(hash, c, table[c], m, key, data);
      }
    }

    /** RET_CUR_SIZE. */
    method CurSize() returns (n: int)
      requires Valid()
      ensures n == |contents|
    {
      n := curSize;
    }

    /** ALL_DUMP: every live pair exactly once, nothing else, and so exactly `curSize` of them. */
    method AllDump() returns (out: seq<Pair>)
      requires Valid()
      ensures forall i :: 0 <= i < |out| ==> out[i].key in contents && contents[out[i].key] == out[i].data
      ensures forall k :: k in contents ==> Pair(k, contents[k]) in out
      ensures forall i, j :: 0 <= i < j < |out| ==> out[i].key != out[j].key
      ensures |out| == curSize
    {
      out := [];
      for bkt := 0 to BUCKET_SIZE
        invariant Dumped(out, bkt)
      {
        ghost var before := out;
        for i := 0 to |table[bkt]|
          invariant out == before + table[bkt][..i]
        {
          out := out + [table[bkt][i]];
        }
        assert table[bkt][..|table[bkt]|] == table[bkt];
        ChainDumped(before, bkt);
      }
      DumpSize(out, contents);
    }

    /** The pairs of the first chains, each once. */
    ghost predicate Dumped(out: seq<Pair>, bkt: int)
      reads this, table
    {
      && (forall i :: 0 <= i < |out| ==>
            hash(out[i].key) < bkt && out[i].key in contents && contents[out[i].key] == out[i].data)
      && (forall k :: k in contents && hash(k) < bkt ==> Pair(k, contents[k]) in out)
      && (forall i, j :: 0 <= i < j < |out| ==> out[i].key != out[j].key)
    }

    lemma ChainDumped(before: seq<Pair>, bkt: int)
      requires Valid() && 0 <= bkt < BUCKET_SIZE && Dumped(before, bkt)
      ensures Dumped(before + table[bkt], bkt + 1)
    {
      var out := before + table[bkt];
      forall k | k in contents && hash(k) < bkt + 1 ensures Pair(k, contents[k]) in out {
        if hash(k) < bkt {
          assert Pair(k, contents[k]) in before;
        } else {
          assert ChainOf(hash, bkt, table[bkt], contents);
          var i :| 0 <= i < |table[bkt]| && table[bkt][i].key == k;
          assert out[|before| + i] == Pair(k, contents[k]);
        }
      }
    }
  }

  lemma DumpSize(out: seq<Pair>, m: map<int, int>)
    requires forall i :: 0 <= i < |out| ==> out[i].key in m
    requires forall k :: k in m ==> exists i :: 0 <= i < |out| && out[i].key == k
    requires forall i, j :: 0 <= i < j < |out| ==> out[i].key != out[j].key
    ensures |out| == |m|
  {
    var keys := seq(|out|, i requires 0 <= i < |out| => out[i].key);
    forall k | k in m.Keys ensures k in keys {
      var i :| 0 <= i < |out| && out[i].key == k;
      assert keys[i] == k;
    }
    ListingSize(keys, m.Keys);
  }

  /** A list of all members of a set, each once, is as long as the set is big. */
  lemma {:induction false} ListingSize<K>(keys: seq<K>, s: set<K>)
    requires forall i :: 0 <= i < |keys| ==> keys[i] in s
    requires forall k :: k in s ==> k in keys
    requires forall i, j :: 0 <= i < j < |keys| ==> keys[i] != keys[j]
    ensures |keys| == |s|
  {
    if keys == [] {
      assert s == {};
    } else {
      ListingSize(keys[..|keys| - 1], s - {keys[|keys| - 1]});
    }
  }

  ghost predicate Answers(ops: seq<Op>, i: int, reply: ReadReply)
    requires 0 <= i < |ops|
  {
    ops[i].Read? ==>
      var v := LastWritten(ops[..i], ops[i].key);
      reply == if v == 0 then Invalid else Found(v)
  }

  ghost predicate AllAnswered(ops: seq<Op>, replies: seq<ReadReply>) {
    |replies| <= |ops| && forall i :: 0 <= i < |replies| ==> Answers(ops, i, replies[i])
  }

  lemma OneMoreAnswer(ops: seq<Op>, replies: seq<ReadReply>, reply: ReadReply)
    requires AllAnswered(ops, replies) && |replies| < |ops| && Answers(ops, |replies|, reply)
    ensures AllAnswered(ops, replies + [reply])
  {
  }

  method ServeOne(t: Ht530, ghost before: seq<Op>, op: Op) returns (reply: ReadReply)
    requires t.Valid() && t.contents == ContentsAfter(before)
    modifies t`curSize, t`contents, t.table
    ensures t.Valid() && t.contents == ContentsAfter(before + [op])
    ensures op.Read? ==> reply == if LastWritten(before, op.key) == 0 then Invalid else Found(LastWritten(before, op.key))
  {
    reply := Invalid;
    ContentsSnoc(before, op);
    match op {
      case Write(key, data) => t.Write(key, data);
      case Read(key) =>
        reply := t.Read(key);
        ContentsAreLastWrites(before, key);
    }
  }

  /** Any sequence of writes and reads, on any hash function: each read returns the value last written
      under its key, or fails when that is zero or absent. */
  method Serve(hash: int -> int, ops: seq<Op>) returns (t: Ht530, replies: seq<ReadReply>)
    requires forall k :: 0 <= hash(k) < BUCKET_SIZE
    ensures t.Valid() && t.contents == ContentsAfter(ops) && |replies| == |ops|
    ensures AllAnswered(ops, replies)
  {
    t := new Ht530(hash);
    replies := [];
    for n := 0 to |ops|
      invariant fresh(t) && fresh(t.table) && t.Valid() && t.contents == ContentsAfter(ops[..n]) && |replies| == n
      invariant AllAnswered(ops, replies)
    {
      assert ops[..n + 1] == ops[..n] + [ops[n]];
      var reply := ServeOne(t, ops[..n], ops[n]);
      OneMoreAnswer(ops, replies, reply);
      replies := replies + [reply];
    }
    assert ops[..|ops|] == ops;
  }
}
