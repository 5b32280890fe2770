/** What the ht530 device is for: the last non-zero value written under each key. */
module KeyValueSpec {

  datatype Op = Write(key: int, data: int) | Read(key: int)

  /** The value last written under a key, 0 when there is none: said of the request history alone. */
  function LastWritten(ops: seq<Op>, key: int): int {
    if ops == [] then 0
    else
      var op := ops[|ops| - 1];
      if op.Write? && op.key == key then op.data else LastWritten(ops[..|ops| - 1], key)
  }

  /** Writing zero deletes. */
  function Written(m: map<int, int>, key: int, data: int): map<int, int> {
    if data == 0 then m - {key} else m[key := data]
  }

  function ContentsAfter(ops: seq<Op>): map<int, int> {
    if ops == [] then map[]
    else
      var m := ContentsAfter(ops[..|ops| - 1]);
      var op := ops[|ops| - 1];
      if op.Write? then Written(m, op.key, op.data) else m
  }

  /** The finite map holds exactly the keys whose last write was not zero. */
  lemma {:induction false} ContentsAreLastWrites(ops: seq<Op>, key: int)
    ensures key in ContentsAfter(ops) <==> LastWritten(ops, key) != 0
    ensures key in ContentsAfter(ops) ==> ContentsAfter(ops)[key] == LastWritten(ops, key)
  {
    if ops != [] {
      ContentsAreLastWrites(ops[..|ops| - 1], key);
    }
  }

  lemma ContentsSnoc(ops: seq<Op>, op: Op)
    ensures ContentsAfter(ops + [op]) ==
            if op.Write? then Written(ContentsAfter(ops), op.key, op.data) else ContentsAfter(ops)
  {
    assert (ops + [op])[..|ops|] == ops;
  }

  lemma WrittenSize(m: map<int, int>, key: int, data: int)
    ensures |Written(m, key, data)| ==
            |m| - (if key in m then 1 else 0) + (if data != 0 then 1 else 0)
  {
    var rest := m - {key};
    assert rest.Keys == m.Keys - {key};
    if data != 0 {
      assert Written(m, key, data).Keys == m.Keys + {key};
    }
  }
}
