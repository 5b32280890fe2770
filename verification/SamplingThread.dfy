/** The sampling thread of a sensor: started and stopped by `write`, restarted and stopped by SETMODE. */
module SamplingThread {

  datatype Mode = OneShot | Periodic | Other

  /** The calls that touch the thread, taken one at a time. */
  datatype Call = SetMode(mode: Mode, freq: int) | Write(act: int)

  datatype Option<T> = None | Some(value: T)

  // ----- Reference: read off the call history, last call first -----

  function Accepted(c: Call): bool {
    c.SetMode? && !c.mode.Other?
  }

  /** The mode in force; SETMODE with an unknown mode is refused. */
  function ModeAfter(calls: seq<Call>): Mode {
    if calls == [] then OneShot
    else if Accepted(calls[|calls| - 1]) then calls[|calls| - 1].mode
    else ModeAfter(calls[..|calls| - 1])
  }

  function FreqAfter(calls: seq<Call>): int {
    if calls == [] then 0
    else if Accepted(calls[|calls| - 1]) then calls[|calls| - 1].freq
    else FreqAfter(calls[..|calls| - 1])
  }

  /** Sampling is on from a non-zero write in periodic mode until a zero write there or a switch to one-shot. */
  predicate SamplingAfter(calls: seq<Call>) {
    calls != [] &&
    var before := calls[..|calls| - 1];
    match calls[|calls| - 1]
    case SetMode(mode, _) => SamplingAfter(before) && !mode.OneShot?
    case Write(act) => if ModeAfter(before).Periodic? then act != 0 else SamplingAfter(before)
  }

  /** The frequencies the source can work with: `thread_function`, which runs in periodic mode only,
      divides by the one in force. */
  predicate Usable(calls: seq<Call>) {
    forall i :: 0 <= i < |calls| && calls[i].SetMode? && calls[i].mode.Periodic? ==> calls[i].freq > 0
  }

  lemma {:induction false} SamplingIsPeriodic(calls: seq<Call>)
    requires Usable(calls)
    ensures SamplingAfter(calls) ==> ModeAfter(calls).Periodic?
    ensures ModeAfter(calls).Periodic? ==> FreqAfter(calls) > 0
  {
    if calls != [] {
      assert Usable(calls[..|calls| - 1]);
      SamplingIsPeriodic(calls[..|calls| - 1]);
      var last := calls[|calls| - 1];
      assert last.SetMode? && last.mode.Periodic? ==> last.freq > 0;
    }
  }

  /** The settings in force are those of the last accepted SETMODE, one-shot if there is none. */
  lemma {:induction false} SettingsAreLastSet(calls: seq<Call>, i: int)
    requires 0 <= i <= |calls| && (forall j :: i <= j < |calls| ==> !Accepted(calls[j]))
    requires i > 0 ==> Accepted(calls[i - 1])
    ensures ModeAfter(calls) == (if i == 0 then OneShot else calls[i - 1].mode)
    ensures FreqAfter(calls) == (if i == 0 then 0 else calls[i - 1].freq)
  {
    if i < |calls| {
      SettingsAreLastSet(calls[..|calls| - 1], i);
    }
  }

  /** Call i turns sampling on: a non-zero write in periodic mode. */
  predicate TurnsOn(calls: seq<Call>, i: int)
    requires 0 <= i < |calls|
  {
    calls[i].Write? && calls[i].act != 0 && ModeAfter(calls[..i]).Periodic?
  }

  /** Call i turns it off: a zero write in periodic mode, or one-shot mode. */
  predicate TurnsOff(calls: seq<Call>, i: int)
    requires 0 <= i < |calls|
  {
    if calls[i].Write? then calls[i].act == 0 && ModeAfter(calls[..i]).Periodic? else calls[i].mode.OneShot?
  }

  /** Sampling is on exactly when some call has turned it on and none has turned it off since. */
  ghost predicate OnSince(calls: seq<Call>) {
    exists i :: 0 <= i < |calls| && TurnsOn(calls, i) && forall j :: i < j < |calls| ==> !TurnsOff(calls, j)
  }

  lemma {:induction false} SamplingIff(calls: seq<Call>)
    ensures SamplingAfter(calls) <==> OnSince(calls)
  {
    if calls != [] {
      SamplingIff(calls[..|calls| - 1]);
      OnSinceSnoc(calls);
    }
  }

  lemma OnSinceSnoc(calls: seq<Call>)
    requires calls != []
    ensures OnSince(calls) <==>
      TurnsOn(calls, |calls| - 1) || (OnSince(calls[..|calls| - 1]) && !TurnsOff(calls, |calls| - 1))
  {
    var before, n := calls[..|calls| - 1], |calls| - 1;
    forall i | 0 <= i < n
      ensures TurnsOn(before, i) <==> TurnsOn(calls, i)
      ensures TurnsOff(before, i) <==> TurnsOff(calls, i)
    {
      assert before[..i] == calls[..i];
    }
    if OnSince(before) && !TurnsOff(calls, n) {
      var i :| 0 <= i < n && TurnsOn(before, i) && forall j :: i < j < n ==> !TurnsOff(before, j);
      assert TurnsOn(calls, i);
    }
    if OnSince(calls) && !TurnsOn(calls, n) {
      var i :| 0 <= i < |calls| && TurnsOn(calls, i) && forall j :: i < j < |calls| ==> !TurnsOff(calls, j);
      assert TurnsOn(before, i);
    }
  }

  // ----- The driver -----

  class Control {
    var mode: Mode
    var freq: int
    /** The worker the driver holds on to. */
    var kthread: Option<int>
    /** Every worker that is running, with the period it computed when it started. */
    var running: map<int, int>
    var nextWorker: int

    ghost predicate Valid()
      reads this
    {
      && !mode.Other?
      && (mode.Periodic? ==> freq > 0)
      && (kthread.Some? ==> mode.Periodic?)
      && running == (if kthread.None? then map[] else map[kthread.value := 1000 / freq])
      && (kthread.Some? ==> kthread.value < nextWorker)
    }

    constructor ()
      ensures Valid() && mode == OneShot && freq == 0 && kthread == None
    {
      mode, freq, kthread, running, nextWorker := OneShot, 0, None, map[], 0;
    }

    /** `kthread_run` of `thread_function`, up to the computation of its period. */
    method KthreadRun() returns (worker: int)
      requires freq > 0 && forall t :: t in running ==> t < nextWorker
      modifies this`running, this`nextWorker
      ensures worker !in old(running) && worker < nextWorker
      ensures running == old(running)[worker := 1000 / freq]
    {
      worker := nextWorker;
      nextWorker := nextWorker + 1;
      running := running[worker := 1000 / freq];
    }

    /** `kthread_stop` returns when the worker has ended. */
    method KthreadStop(worker: int)
      modifies this`running
      ensures running == old(running) - {worker} && worker !in running
    {
      running := running - {worker};
    }

    method SetWorkingMode(m: Mode, f: int) returns (ok: bool)
      requires Valid() && (m.Periodic? ==> f > 0)
      modifies this
      ensures Valid() && (ok <==> !m.Other?)
      ensures !ok ==> unchanged(this)
      ensures ok ==> mode == m && freq == f && (kthread.Some? <==> old(kthread.Some?) && !m.OneShot?)
    {
      if m.Other? {
        return false;
      }
      mode, freq := m, f;
      if !mode.OneShot? && kthread.Some? {
        KthreadStop(kthread.value);
        var worker := KthreadRun();
        kthread := Some(worker);
      } else if mode.OneShot? && kthread.Some? {
        KthreadStop(kthread.value);
        kthread := None;
      }
      ok := true;
    }

    /** The periodic half of `hc_sr04_write`; the one-shot half does not touch the thread. */
    method WriteAct(act: int)
      requires Valid()
      modifies this
      ensures Valid() && mode == old(mode) && freq == old(freq)
      ensures kthread.Some? <==> if mode.Periodic? then act != 0 else old(kthread.Some?)
    {
      if !mode.OneShot? {
        if 0 == act {
          if kthread.Some? {
            KthreadStop(kthread.value);
            kthread := None;
          }
        } else if kthread.None? {
          var worker := KthreadRun();
          kthread := Some(worker);
        }
      }
    }
  }

  /** Over every sequence of calls: at most one worker runs; one runs exactly when the history says sampling
      is on, hence only in periodic mode; and its period is that of the frequency in force. */
  method Serve(calls: seq<Call>) returns (c: Control)
    requires Usable(calls)
    ensures c.Valid() && c.mode == ModeAfter(calls) && c.freq == FreqAfter(calls)
    ensures |c.running| == (if SamplingAfter(calls) then 1 else 0)
    ensures c.running != map[] ==> c.mode.Periodic?
    ensures forall worker :: worker in c.running ==> c.freq > 0 && c.running[worker] == 1000 / c.freq
  {
    c := new Control();
    for i := 0 to |calls|
      invariant fresh(c) && c.Valid()
      invariant c.mode == ModeAfter(calls[..i]) && c.freq == FreqAfter(calls[..i])
      invariant c.kthread.Some? <==> SamplingAfter(calls[..i])
    {
      assert calls[..i + 1][..i] == calls[..i];
      match calls[i] {
        case SetMode(m, f) =>
          assert m.Periodic? ==> calls[i].freq > 0;
          var ok := c.SetWorkingMode(m, f);
        case Write(act) =>
          c.WriteAct(act);
      }
    }
    assert calls[..|calls|] == calls;
    if c.kthread.Some? {
      assert c.running.Keys == {c.kthread.value};
    }
  }
}
