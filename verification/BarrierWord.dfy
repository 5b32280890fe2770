/** The lock-held sections of the kernel barrier, as arithmetic on its one 64-bit word. */
module BarrierWord {

  const WORD: int := 0x1_0000_0000_0000_0000
  const FLAG: int := 0x8000_0000_0000_0000
  const INT_MAX: int := 0x7fff_ffff

  /** Where a thread is when it gives the lock back. */
  datatype Outcome = AtGate | AtInner | Returned

  /** The word after one lock-held section, where the thread stopped, and whether it woke the queue. */
  datatype Section = Section(total: int, outcome: Outcome, wake: bool)

  /** Unsigned 64-bit arithmetic wraps. */
  function Wrap(x: int): (r: int)
    ensures 0 <= r < WORD
  {
    x % WORD
  }

  /** From taking the lock before the gate test to giving it back. */
  function EnterWord(count: int, total: int): Section {
    if total > FLAG then
      Section(total, AtGate, false)
    else
      var held := if total == FLAG then 0 else total;
      var arrived := Wrap(held + 1);
      if arrived == count then
        Section(Wrap(arrived + (FLAG - 1)), Returned, true)
      else
        InnerWord(arrived)
  }

  /** From taking the lock before the inner test to giving it back. */
  function InnerWord(total: int): Section {
    if total < FLAG then
      Section(total, AtInner, false)
    else
      var left := Wrap(total - 1);
      Section(left, Returned, left == FLAG)
  }

  /** The barrier as a reader thinks of it: a phase and a head-count. */
  datatype Phase = Idle | Filling(n: int) | Releasing(n: int)

  predicate LegalPhase(count: int, p: Phase) {
    p.Idle? || 1 <= p.n < count
  }

  predicate LegalWord(count: int, total: int) {
    1 <= total < count || FLAG <= total < FLAG + count
  }

  function Encode(p: Phase): int {
    match p
    case Idle => FLAG
    case Filling(n) => n
    case Releasing(n) => FLAG + n
  }

  function Decode(total: int): Phase {
    if total < FLAG then Filling(total)
    else if total == FLAG then Idle
    else Releasing(total - FLAG)
  }

  function ReleasingOrIdle(n: int): Phase {
    if n == 0 then Idle else Releasing(n)
  }

  /** One arrival on phases: closed while a round is being released, otherwise one more head. */
  function Arrive(count: int, p: Phase): (Phase, Outcome) {
    if p.Releasing? then (p, AtGate)
    else
      var n := if p.Idle? then 1 else p.n + 1;
      if n == count then (ReleasingOrIdle(count - 1), Returned) else (Filling(n), AtInner)
  }

  /** One departure on phases: blocked while the round fills, otherwise one head fewer. */
  function Depart(p: Phase): (Phase, Outcome)
    requires !p.Idle?
  {
    if p.Filling? then (p, AtInner) else (ReleasingOrIdle(p.n - 1), Returned)
  }

  /** The word and the phase machine are the same machine: a bijection on legal values,
      preserved by both sections, with no 64-bit operation ever wrapping. */
  lemma WordRefinesPhase(count: int, total: int)
    requires 1 <= count <= INT_MAX && LegalWord(count, total)
    ensures LegalPhase(count, Decode(total)) && Encode(Decode(total)) == total
    ensures
      var s := EnterWord(count, total);
      (Decode(s.total), s.outcome) == Arrive(count, Decode(total)) && LegalWord(count, s.total)
      && (s.wake <==> s.outcome.Returned?)
    ensures total != FLAG ==>
      var s := InnerWord(total);
      (Decode(s.total), s.outcome) == Depart(Decode(total)) && LegalWord(count, s.total)
      && (s.wake <==> s.outcome.Returned? && Decode(s.total).Idle?)
    ensures
      var held := if total == FLAG then 0 else total;
      total <= FLAG ==> Wrap(held + 1) == held + 1
    ensures (total == FLAG && count == 1) || (0 < total == count - 1) ==>
      EnterWord(count, total).total == count + (FLAG - 1)
    ensures total > FLAG ==> InnerWord(total).total == total - 1
  {
  }
}
