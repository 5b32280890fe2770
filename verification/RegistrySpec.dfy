/** What the registry is for: a map from processes to their barriers, by id. */
module RegistrySpec {
  const UINT: int := 0x1_0000_0000

  type Pid = int

  /** One process: the next id it will hand out, and its live barriers. */
  datatype Proc<B> = Proc(next: int, live: map<int, B>)

  type Table<B> = map<Pid, Proc<B>>

  function NextId<B>(tb: Table<B>, p: Pid): int {
    if p in tb then tb[p].next else 0
  }

  function Live<B>(tb: Table<B>, p: Pid): map<int, B> {
    if p in tb then tb[p].live else map[]
  }

  /** `barrier_init` refuses a negative count, and an id that is still in use. */
  predicate InitAccepts<B>(tb: Table<B>, p: Pid, count: int) {
    count >= 0 && NextId(tb, p) !in Live(tb, p)
  }

  function AfterInit<B>(tb: Table<B>, p: Pid, b: B): Table<B> {
    tb[p := Proc((NextId(tb, p) + 1) % UINT, Live(tb, p)[NextId(tb, p) := b])]
  }

  /** A process with no barrier left is forgotten, its id counter with it. */
  function AfterDestroy<B>(tb: Table<B>, p: Pid, id: int): Table<B>
    requires p in tb
  {
    var rest := tb[p].live - {id};
    if rest == map[] then tb - {p} else tb[p := Proc(tb[p].next, rest)]
  }

  datatype Request<B> = Init(p: Pid, count: int, b: B) | Destroy(p: Pid, id: int)

  predicate Accepts<B>(tb: Table<B>, r: Request<B>) {
    match r
    case Init(p, count, _) => InitAccepts(tb, p, count)
    case Destroy(p, id) => p in tb && id in tb[p].live
  }

  /** A refused request changes nothing. */
  function Serve<B>(tb: Table<B>, r: Request<B>): Table<B> {
    if !Accepts(tb, r) then tb
    else match r
         case Init(p, _, b) => AfterInit(tb, p, b)
         case Destroy(p, id) => AfterDestroy(tb, p, id)
  }

  function ServeAll<B>(reqs: seq<Request<B>>): Table<B> {
    if reqs == [] then map[] else Serve(ServeAll(reqs[..|reqs| - 1]), reqs[|reqs| - 1])
  }

  /** Listed means non-empty, and every id is an unsigned int. */
  ghost predicate WellFormed<B>(tb: Table<B>) {
    forall p :: p in tb ==>
      && tb[p].live != map[]
      && 0 <= tb[p].next < UINT
      && forall id :: id in tb[p].live ==> 0 <= id < UINT
  }

  /** An accepted init adds one barrier under an id not in use, and destroying it again leaves the live
      barriers of every process as they were. */
  lemma DestroyUndoesInit<B>(tb: Table<B>, p: Pid, count: int, b: B, q: Pid)
    requires InitAccepts(tb, p, count)
    ensures
      var id := NextId(tb, p);
      var made := Serve(tb, Init(p, count, b));
      var gone := Serve(made, Destroy(p, id));
      && id !in Live(tb, p) && Live(made, p) == Live(tb, p)[id := b]
      && Live(gone, q) == Live(tb, q)
  {
    var id := NextId(tb, p);
    assert Live(tb, p)[id := b] - {id} == Live(tb, p);
  }

  lemma ServeKeepsWellFormed<B>(tb: Table<B>, r: Request<B>)
    requires WellFormed(tb)
    ensures WellFormed(Serve(tb, r))
  {
    if r.Init? {
      var after := Live(tb, r.p)[NextId(tb, r.p) := r.b];
      assert NextId(tb, r.p) in after;
    }
  }

  lemma {:induction false} EveryRunIsWellFormed<B>(reqs: seq<Request<B>>)
    ensures WellFormed(ServeAll(reqs))
  {
    if reqs != [] {
      EveryRunIsWellFormed(reqs[..|reqs| - 1]);
      ServeKeepsWellFormed(ServeAll(reqs[..|reqs| - 1]), reqs[|reqs| - 1]);
    }
  }

  /** Over every run, another process sees only its own requests: its table entry is what serving its
      requests alone would give. */
  function Own<B>(reqs: seq<Request<B>>, p: Pid): seq<Request<B>> {
    if reqs == [] then []
    else Own(reqs[..|reqs| - 1], p) + (if reqs[|reqs| - 1].p == p then [reqs[|reqs| - 1]] else [])
  }

  lemma ServeIsLocal<B>(tb: Table<B>, alone: Table<B>, r: Request<B>)
    requires NextId(tb, r.p) == NextId(alone, r.p) && Live(tb, r.p) == Live(alone, r.p)
    requires r.p in tb <==> r.p in alone
    ensures NextId(Serve(tb, r), r.p) == NextId(Serve(alone, r), r.p)
    ensures Live(Serve(tb, r), r.p) == Live(Serve(alone, r), r.p)
    ensures r.p in Serve(tb, r) <==> r.p in Serve(alone, r)
    ensures forall q :: q != r.p ==>
      (q in Serve(tb, r) <==> q in tb) && (q in tb ==> Serve(tb, r)[q] == tb[q])
  {
  }

  lemma {:induction false} ProcessesDoNotInterfere<B>(reqs: seq<Request<B>>, p: Pid)
    ensures p in ServeAll(reqs) <==> p in ServeAll(Own(reqs, p))
    ensures p in ServeAll(reqs) ==> ServeAll(reqs)[p] == ServeAll(Own(reqs, p))[p]
  {
    if reqs != [] {
      var before := reqs[..|reqs| - 1];
      var r := reqs[|reqs| - 1];
      ProcessesDoNotInterfere(before, p);
      if r.p == p {
        ServeIsLocal(ServeAll(before), ServeAll(Own(before, p)), r);
        assert (Own(before, p) + [r])[..|Own(before, p)|] == Own(before, p);
      } else {
        ServeIsLocal(ServeAll(before), ServeAll(before), r);
        assert Own(reqs, p) == Own(before, p);
      }
    }
  }

  /** Serving a request leaves the barriers that were there and those it was given. */
  lemma ServeKeepsBarriers<B>(tb: Table<B>, r: Request<B>, p: Pid, id: int)
    requires p in Serve(tb, r) && id in Serve(tb, r)[p].live
    ensures
      var b := Serve(tb, r)[p].live[id];
      || (p in tb && id in tb[p].live && tb[p].live[id] == b)
      || (r.Init? && InitAccepts(tb, r.p, r.count) && b == r.b)
  {
  }

  /** Request i made the barrier that p knows as id, and p has not destroyed it since. */
  ghost predicate Made<B>(reqs: seq<Request<B>>, p: Pid, id: int, i: int)
    requires 0 <= i < |reqs|
  {
    && reqs[i].Init? && reqs[i].p == p
    && Accepts(ServeAll(reqs[..i]), reqs[i]) && NextId(ServeAll(reqs[..i]), p) == id
    && forall j :: i < j < |reqs| ==> reqs[j] != Destroy(p, id)
  }

  lemma MadeSnoc<B>(reqs: seq<Request<B>>, p: Pid, id: int, i: int)
    requires 0 <= i < |reqs| - 1
    ensures Made(reqs, p, id, i) <==> Made(reqs[..|reqs| - 1], p, id, i) && reqs[|reqs| - 1] != Destroy(p, id)
  {
    var before := reqs[..|reqs| - 1];
    assert before[..i] == reqs[..i];
    assert forall j :: i < j < |before| ==> before[j] == reqs[j];
  }

  /** What one request does to one name. */
  lemma ServeOne<B>(tb: Table<B>, r: Request<B>, p: Pid, id: int)
    ensures id in Live(Serve(tb, r), p) <==>
      || (r.Init? && r.p == p && Accepts(tb, r) && NextId(tb, p) == id)
      || (id in Live(tb, p) && r != Destroy(p, id))
    ensures id in Live(Serve(tb, r), p) ==>
      Live(Serve(tb, r), p)[id] ==
      if r.Init? && r.p == p && Accepts(tb, r) && NextId(tb, p) == id then r.b else Live(tb, p)[id]
  {
    if r.Destroy? && r.p == p && p in tb {
      assert id in tb[p].live - {r.id} <==> id in tb[p].live && id != r.id;
    }
  }

  /** Which barriers are live, read off the requests: p has b under id exactly when some accepted init made
      b under that id and p has not destroyed the id since. */
  lemma {:induction false} LiveIff<B>(reqs: seq<Request<B>>, p: Pid, id: int, b: B)
    ensures (id in Live(ServeAll(reqs), p) && Live(ServeAll(reqs), p)[id] == b) <==>
      exists i :: 0 <= i < |reqs| && Made(reqs, p, id, i) && reqs[i].b == b
  {
    if reqs != [] {
      var n := |reqs| - 1;
      var before := reqs[..n];
      LiveIff(before, p, id, b);
      ServeOne(ServeAll(before), reqs[n], p, id);
      forall i | 0 <= i < n
        ensures Made(reqs, p, id, i) <==> Made(before, p, id, i) && reqs[n] != Destroy(p, id)
      {
        MadeSnoc(reqs, p, id, i);
      }
      forall i | 0 <= i < n && Made(before, p, id, i) ensures id in Live(ServeAll(before), p) {
        LiveIff(before, p, id, before[i].b);
      }
    }
  }

  /** Inits accepted for p since it last had no barrier at all. */
  function InitsSince<B>(reqs: seq<Request<B>>, p: Pid): nat {
    if reqs == [] || p !in ServeAll(reqs) then 0
    else
      var before, r := reqs[..|reqs| - 1], reqs[|reqs| - 1];
      InitsSince(before, p) + (if r.Init? && r.p == p && Accepts(ServeAll(before), r) then 1 else 0)
  }

  /** Over every run: the next id of a process counts its accepted inits, modulo 2^32, from the last moment at
      which it had no barrier. */
  lemma {:induction false} NextIdCounts<B>(reqs: seq<Request<B>>, p: Pid)
    ensures NextId(ServeAll(reqs), p) == InitsSince(reqs, p) % UINT
  {
    if reqs != [] {
      NextIdCounts(reqs[..|reqs| - 1], p);
      NextIdStep(ServeAll(reqs[..|reqs| - 1]), reqs[|reqs| - 1], p);
      OneMoreModulo(InitsSince(reqs[..|reqs| - 1], p));
    }
  }

  lemma NextIdStep<B>(tb: Table<B>, r: Request<B>, p: Pid)
    ensures p in Serve(tb, r) ==>
      NextId(Serve(tb, r), p) ==
      if r.Init? && r.p == p && Accepts(tb, r) then (NextId(tb, p) + 1) % UINT else NextId(tb, p)
  {
  }

  lemma OneMoreModulo(n: nat)
    ensures (n % UINT + 1) % UINT == (n + 1) % UINT
  {
  }

  // ----- When the 32-bit id counter comes round -----

  lemma RefusalStep<B>(tb: Table<B>, r: Request<B>, p: Pid)
    requires p in tb && tb[p].next in tb[p].live && r != Destroy(p, tb[p].next)
    ensures
      var after := Serve(tb, r);
      p in after && after[p].next == tb[p].next && after[p].live.Keys <= tb[p].live.Keys
      && tb[p].next in after[p].live
  {
    if r.Destroy? && r.p == p {
      assert tb[p].next in tb[p].live - {r.id};
    }
  }

  /** A refusal lasts: while the id in the way stays live, no sequence of requests gets the process
      another barrier, however many other ids are free. */
  lemma {:induction false} RefusalLasts<B>(tb: Table<B>, reqs: seq<Request<B>>, p: Pid)
    requires p in tb && tb[p].next in tb[p].live
    requires Destroy(p, tb[p].next) !in reqs
    ensures
      var after := ServeFrom(tb, reqs);
      p in after && after[p].next == tb[p].next && after[p].live.Keys <= tb[p].live.Keys
      && tb[p].next in after[p].live
  {
    if reqs != [] {
      RefusalLasts(tb, reqs[..|reqs| - 1], p);
      assert reqs[|reqs| - 1] in reqs;
      RefusalStep(ServeFrom(tb, reqs[..|reqs| - 1]), reqs[|reqs| - 1], p);
    }
  }

  /** And it ends with that id: once the process destroys it, the next init of any proper count is accepted. */
  lemma RefusalEnds<B>(tb: Table<B>, reqs: seq<Request<B>>, p: Pid, count: int)
    requires p in tb && tb[p].next in tb[p].live && count >= 0
    requires Destroy(p, tb[p].next) !in reqs
    ensures !InitAccepts(ServeFrom(tb, reqs), p, count)
    ensures InitAccepts(Serve(ServeFrom(tb, reqs), Destroy(p, tb[p].next)), p, count)
  {
    RefusalLasts(tb, reqs, p);
  }

  function ServeFrom<B>(tb: Table<B>, reqs: seq<Request<B>>): Table<B> {
    if reqs == [] then tb else Serve(ServeFrom(tb, reqs[..|reqs| - 1]), reqs[|reqs| - 1])
  }

  lemma ServeAllSnoc<B>(reqs: seq<Request<B>>, r: Request<B>)
    ensures ServeAll(reqs + [r]) == Serve(ServeAll(reqs), r)
  {
    assert (reqs + [r])[..|reqs|] == reqs;
  }

  /** A process that keeps its first barrier and opens and closes n more. */
  lemma {:induction false} OpenAndClose<B>(p: Pid, b: B, n: nat) returns (reqs: seq<Request<B>>)
    requires n < UINT
    ensures ServeAll(reqs) == map[p := Proc((n + 1) % UINT, map[0 := b])]
  {
    if n == 0 {
      reqs := [Init(p, 1, b)];
      ServeAllSnoc([], Init(p, 1, b));
      assert [] + [Init(p, 1, b)] == reqs;
    } else {
      reqs := OpenAndClose(p, b, n - 1);
      ServeAllSnoc(reqs, Init(p, 1, b));
      ServeAllSnoc(reqs + [Init(p, 1, b)], Destroy(p, n));
      OneMoreId(p, b, n);
      reqs := reqs + [Init(p, 1, b)] + [Destroy(p, n)];
    }
  }

  lemma OneMoreId<B>(p: Pid, b: B, n: nat)
    requires 0 < n < UINT
    ensures
      var tb := map[p := Proc(n, map[0 := b])];
      Serve(Serve(tb, Init(p, 1, b)), Destroy(p, n)) == map[p := Proc((n + 1) % UINT, map[0 := b])]
  {
    var tb := map[p := Proc(n, map[0 := b])];
    var tb1 := Serve(tb, Init(p, 1, b));
    assert tb1[p].live - {n} == map[0 := b];
    assert 0 in tb1[p].live - {n};
  }

  /** The refusal does happen: after 2^32 inits with the first barrier still live, the counter is back at
      an id in use and `barrier_init` fails. */
  lemma CounterComesRound<B>(p: Pid, b: B) returns (reqs: seq<Request<B>>)
    ensures Live(ServeAll(reqs), p).Keys == {0} && !InitAccepts(ServeAll(reqs), p, 1)
  {
    reqs := OpenAndClose(p, b, UINT - 1);
    assert (UINT - 1 + 1) % UINT == 0;
  }
}
