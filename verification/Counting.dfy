/** Multiples and lists: small facts that several parts of the project count with. */
module Counting {

  /** n times size, by repeated addition. */
  function Multiple(size: int, n: nat): (m: int)
    ensures size >= 0 ==> m >= 0
  {
    if n == 0 then 0 else Multiple(size, n - 1) + size
  }

  lemma {:induction false} MultipleIsProduct(size: int, n: nat)
    ensures Multiple(size, n) == n * size
  {
    if n > 0 {
      MultipleIsProduct(size, n - 1);
      assert n * size == (n - 1) * size + size;
    }
  }

  lemma {:induction false} MultipleMonotone(size: int, m: nat, n: nat)
    requires size >= 0 && m <= n
    ensures Multiple(size, m) <= Multiple(size, n)
  {
    if m < n { MultipleMonotone(size, m, n - 1); }
  }

  lemma MultipleGrows(size: int, m: nat, n: nat)
    requires size >= 0 && m < n
    ensures Multiple(size, m) + size <= Multiple(size, n)
  {
    MultipleMonotone(size, m + 1, n);
  }

  lemma NoSmallMultiple(size: int, m: int)
    requires size >= 1
    ensures m * size <= -size || m * size == 0 || m * size >= size
  {
    if m >= 1 {
      assert m * size >= size;
    } else if m <= -1 {
      assert m * size <= -size;
    }
  }

  lemma Remainder(size: int, n: nat, k: nat)
    requires k < size
    ensures (n * size + k) % size == k
  {
    var x := n * size + k;
    var m := n - x / size;
    assert x % size - k == x - (x / size) * size - k == m * size;
    NoSmallMultiple(size, m);
  }

  ghost predicate Distinct<T>(q: seq<T>) {
    forall i, j :: 0 <= i < j < |q| ==> q[i] != q[j]
  }

  function Members<T>(q: seq<T>): set<T> {
    set x | x in q
  }
}
