/**
 * Programs whose control depends on the data they protect: without nested locks every completed
 * interleaving enters the same critical sections in the same order and reads the same values.
 */
module SchedulerData {
  import opened Scheduler

  // ------------------------------------------------------------- what a log of sections determines

  function Wrote(p: Program, h: seq<Val>): Val { if p(h).Unlock? then p(h).w else 0 }

  /** What thread `t` has read and written after all its sections of the log. */
  function PastAt(progs: Programs, log: seq<Section>, t: nat): seq<Val>
    requires t < |progs|
  {
    if |log| == 0 then []
    else
      var h, e := PastAt(progs, log[..|log| - 1], t), log[|log| - 1];
      if e.slot == t then h + [e.val] + [Wrote(progs[t], h + [e.val])] else h
  }

  /** What mutex `m` protects after all sections of the log. */
  function DataAt(progs: Programs, log: seq<Section>, m: Mutex): Val {
    if |log| == 0 then 0
    else
      var n, e := |log| - 1, log[|log| - 1];
      if e.m == m && e.slot < |progs| then Wrote(progs[e.slot], PastAt(progs, log[..n], e.slot) + [e.val])
      else DataAt(progs, log[..n], m)
  }

  function Entered(log: seq<Section>, t: nat): nat {
    if |log| == 0 then 0 else Entered(log[..|log| - 1], t) + if log[|log| - 1].slot == t then 1 else 0
  }

  function TurnAt(log: seq<Section>, k: nat): Turn
    requires k < |log|
  {
    Turn(Entered(log[..k], log[k].slot), log[k].slot)
  }

  /** Section `k` is the one its thread's program asks for, and finds what the sections before it left. */
  predicate SectionOk(progs: Programs, log: seq<Section>, k: nat)
    requires k < |log|
  {
    var e := log[k];
    && e.slot < |progs|
    && progs[e.slot](PastAt(progs, log[..k], e.slot)) == Lock(e.m)
    && e.val == DataAt(progs, log[..k], e.m)
  }

  predicate LogOk(progs: Programs, log: seq<Section>) { forall k :: 0 <= k < |log| ==> SectionOk(progs, log, k) }

  predicate TurnsAscend(log: seq<Section>) {
    forall j, k :: 0 <= j < k < |log| ==> TurnLt(TurnAt(log, j), TurnAt(log, k))
  }

  predicate Complete(progs: Programs, log: seq<Section>) {
    forall t :: 0 <= t < |progs| ==> progs[t](PastAt(progs, log, t)).Exit?
  }

  lemma LogSnoc(progs: Programs, log: seq<Section>, e: Section)
    ensures forall t :: 0 <= t < |progs| && t != e.slot ==> PastAt(progs, log + [e], t) == PastAt(progs, log, t)
    ensures e.slot < |progs| ==>
      var h := PastAt(progs, log, e.slot) + [e.val];
      && PastAt(progs, log + [e], e.slot) == h + [Wrote(progs[e.slot], h)]
      && DataAt(progs, log + [e], e.m) == Wrote(progs[e.slot], h)
    ensures forall m :: m != e.m ==> DataAt(progs, log + [e], m) == DataAt(progs, log, m)
    ensures forall t :: Entered(log + [e], t) == Entered(log, t) + if e.slot == t then 1 else 0
  {
    assert (log + [e])[..|log|] == log;
  }

  // ------------------------------------------------------------------- the log is unique

  /** A thread that has not ended by section `k` enters a later one, with its turn unchanged until then. */
  lemma {:induction false} LaterSection(progs: Programs, log: seq<Section>, k: nat, t: nat) returns (j: nat)
    requires k <= |log| && t < |progs| && Complete(progs, log) && !progs[t](PastAt(progs, log[..k], t)).Exit?
    ensures k <= j < |log| && log[j].slot == t && TurnAt(log, j) == Turn(Entered(log[..k], t), t)
    decreases |log| - k
  {
    assert log[..|log|] == log;
    if k == |log| {
      assert false;
    } else if log[k].slot == t {
      j := k;
    } else {
      assert log[..k + 1] == log[..k] + [log[k]];
      LogSnoc(progs, log[..k], log[k]);
      j := LaterSection(progs, log, k + 1, t);
    }
  }

  lemma SameSection(progs: Programs, a: seq<Section>, b: seq<Section>, k: nat)
    requires LogOk(progs, a) && LogOk(progs, b) && TurnsAscend(a) && TurnsAscend(b)
    requires Complete(progs, a) && Complete(progs, b)
    requires k < |a| && k <= |b| && a[..k] == b[..k]
    ensures k < |b| && a[k] == b[k]
  {
    hide PastAt, DataAt, Complete, Entered;
    assert SectionOk(progs, a, k);
    var j := LaterSection(progs, b, k, a[k].slot);
    assert SectionOk(progs, b, k);
    var i := LaterSection(progs, a, k, b[k].slot);
    assert j > k ==> TurnLt(TurnAt(b, k), TurnAt(b, j));
    assert i > k ==> TurnLt(TurnAt(a, k), TurnAt(a, i));
  }

  lemma {:induction false} SamePrefix(progs: Programs, a: seq<Section>, b: seq<Section>, k: nat)
    requires LogOk(progs, a) && LogOk(progs, b) && TurnsAscend(a) && TurnsAscend(b)
    requires Complete(progs, a) && Complete(progs, b) && k <= |a|
    ensures k <= |b| && a[..k] == b[..k]
  {
    hide LogOk, TurnsAscend, Complete;
    if k > 0 {
      SamePrefix(progs, a, b, k - 1);
      SameSection(progs, a, b, k - 1);
      assert a[..k] == a[..k - 1] + [a[k - 1]] && b[..k] == b[..k - 1] + [b[k - 1]];
    }
  }

  /** The programs alone determine the complete log. */
  lemma SameLog(progs: Programs, a: seq<Section>, b: seq<Section>)
    requires LogOk(progs, a) && LogOk(progs, b) && TurnsAscend(a) && TurnsAscend(b)
    requires Complete(progs, a) && Complete(progs, b)
    ensures a == b
  {
    hide LogOk, TurnsAscend, Complete;
    SamePrefix(progs, a, b, |a|);
    SamePrefix(progs, b, a, |b|);
    assert a[..|a|] == a && b[..|b|] == b;
  }

  // ----------------------------------------------------------- every interleaving keeps such a log

  /** One lock at a time: at the top level it locks or ends, and inside a section it releases that lock. */
  predicate FlatAt(p: Program, h: seq<Val>) {
    if Depth(p, h) == 0 then !p(h).Unlock?
    else |h| > 0 && p(h[..|h| - 1]).Lock? && p(h).Unlock? && p(h).m == p(h[..|h| - 1]).m
  }

  ghost predicate Flat(p: Program) { forall h: seq<Val> :: Path(p, h) ==> FlatAt(p, h) }

  predicate Inside(th: Thread) { th.pc.Acquired? || th.depth > 0 }

  /** What a thread has done, against its sections in the log: all of them, or all but the end of the last. */
  predicate PastOk(p: Program, th: Thread, full: seq<Val>) {
    if th.pc.Acquired? then full == th.past + [th.pc.val] + [Wrote(p, th.past + [th.pc.val])]
    else if th.depth > 0 then full == th.past + [Wrote(p, th.past)]
    else full == th.past
  }

  /** A thread inside a section holds its mutex, and will leave behind what the log says. */
  predicate InsideOk(progs: Programs, s: Sys, t: nat)
    requires t < |s.ts| == |progs|
  {
    var i := progs[t](s.ts[t].past);
    Inside(s.ts[t]) ==>
      && !i.Exit? && i.m in s.owner && s.owner[i.m] == t
      && |PastAt(progs, s.log, t)| > 0
      && DataAt(progs, s.log, i.m) == PastAt(progs, s.log, t)[|PastAt(progs, s.log, t)| - 1]
  }

  predicate ThreadDataOk(progs: Programs, s: Sys, t: nat)
    requires t < |s.ts| == |progs|
  {
    && PastOk(progs[t], s.ts[t], PastAt(progs, s.log, t))
    && MadeBy(s, t) == Entered(s.log, t)
    && InsideOk(progs, s, t)
  }

  ghost predicate DataInv(progs: Programs, s: Sys) {
    && |s.ts| == |progs| && LogOk(progs, s.log)
    && |s.acq| == |s.log| && (forall k :: 0 <= k < |s.log| ==> s.acq[k] == TurnAt(s.log, k))
    && (forall t :: 0 <= t < |s.ts| ==> ThreadDataOk(progs, s, t))
    && (forall m :: m !in s.owner ==> s.Data(m) == DataAt(progs, s.log, m))
  }

  /** A step that leaves mutexes, data and log alone and moves one thread between equivalent places. */
  lemma QuietData(progs: Programs, s: Sys, s': Sys, t: nat)
    requires DataInv(progs, s) && t < |s.ts| && |s'.ts| == |s.ts|
    requires s'.owner == s.owner && s'.data == s.data && s'.log == s.log && s'.acq == s.acq
    requires forall k :: 0 <= k < |s.ts| && k != t ==> s'.ts[k] == s.ts[k]
    requires PastOk(progs[t], s'.ts[t], PastAt(progs, s.log, t))
    requires MadeBy(s', t) == MadeBy(s, t) && InsideOk(progs, s', t)
    ensures DataInv(progs, s')
  {
    hide PastOk, PastAt, DataAt, Entered, LogOk;
    forall u | 0 <= u < |s.ts|
      ensures ThreadDataOk(progs, s', u)
    {
      assert ThreadDataOk(progs, s, u);
    }
  }

  /** Leaving a section: the datum becomes what the log says, and nobody else's section is touched. */
  lemma UnlockData(progs: Programs, s: Sys, t: nat)
    requires OrderInv(progs, s) && DataInv(progs, s) && t < |s.ts| && s.ts[t].pc.Ready?
    requires Flat(progs[t]) && progs[t](s.ts[t].past).Unlock?
    ensures DataInv(progs, InstrStep(s, t, progs[t](s.ts[t].past)))
  {
    hide PastAt, DataAt, Entered, LogOk, AcqOk, GateOk, Tops, Path;
    var th, p, i := s.ts[t], progs[t], progs[t](s.ts[t].past);
    var s' := InstrStep(s, t, i);
    assert ThreadOk(p, th) && FlatAt(p, th.past) && ThreadDataOk(progs, s, t);
    DepthOne(p, th.past);
    assert th.depth == 1;
    forall u | 0 <= u < |s.ts|
      ensures ThreadDataOk(progs, s', u)
    {
      assert ThreadDataOk(progs, s, u);
    }
    forall m | m !in s'.owner ensures s'.Data(m) == DataAt(progs, s'.log, m) {
      if m != i.m { assert m !in s.owner; }
    }
  }

  /** A flat program is never more than one lock deep. */
  lemma {:induction false} DepthOne(p: Program, h: seq<Val>)
    requires Flat(p) && Path(p, h)
    ensures Depth(p, h) <= 1
  {
    if |h| > 0 {
      DepthOne(p, h[..|h| - 1]);
      assert FlatAt(p, h[..|h| - 1]);
    }
  }

  lemma AdvanceData(progs: Programs, s: Sys, t: nat)
    requires OrderInv(progs, s) && DataInv(progs, s) && t < |s.ts| && s.ts[t].pc.Acquired? && Flat(progs[t])
    ensures DataInv(progs, AdvanceStep(s, t))
  {
    hide PastAt, DataAt, Entered, LogOk, AcqOk, GateOk, Tops, Path, Depth;
    var th, p := s.ts[t], progs[t];
    assert ThreadOk(p, th) && ThreadDataOk(progs, s, t);
    var h := th.past + [th.pc.val];
    PathSnoc(p, th.past, th.pc.val);
    assert FlatAt(p, h) && h[..|h| - 1] == th.past;
    QuietData(progs, s, AdvanceStep(s, t), t);
  }

  /** Entering a section: the log grows by what the program asks for and the datum it finds. */
  lemma AcquireData(progs: Programs, s: Sys, t: nat, m: Mutex)
    requires OrderInv(progs, s) && DataInv(progs, s) && t < |s.ts| && s.ts[t].pc.Passed?
    requires progs[t](s.ts[t].past) == Lock(m) && m !in s.owner
    ensures DataInv(progs, AcquireStep(s, t, m))
  {
    hide PastAt, DataAt, Entered, AcqOk, GateOk, Tops, Path, Depth, LogOk, TurnAt;
    var s', e := AcquireStep(s, t, m), Section(t, m, s.Data(m));
    assert ThreadOk(progs[t], s.ts[t]) && ThreadDataOk(progs, s, t);
    LogSnoc(progs, s.log, e);
    LogGrows(progs, s.log, e);
    TurnsGrow(s.log, e);
    forall u | 0 <= u < |s.ts|
      ensures ThreadDataOk(progs, s', u)
    {
      assert ThreadDataOk(progs, s, u);
    }
  }

  lemma LogGrows(progs: Programs, log: seq<Section>, e: Section)
    requires LogOk(progs, log) && e.slot < |progs|
    requires progs[e.slot](PastAt(progs, log, e.slot)) == Lock(e.m) && e.val == DataAt(progs, log, e.m)
    ensures LogOk(progs, log + [e])
  {
    hide PastAt, DataAt;
    forall k | 0 <= k < |log| + 1 ensures SectionOk(progs, log + [e], k) {
      assert (log + [e])[..k] == log[..k];
      if k < |log| { assert SectionOk(progs, log, k); } else { assert log[..k] == log; }
    }
  }

  lemma TurnsGrow(log: seq<Section>, e: Section)
    ensures TurnAt(log + [e], |log|) == Turn(Entered(log, e.slot), e.slot)
    ensures forall k :: 0 <= k < |log| ==> TurnAt(log + [e], k) == TurnAt(log, k)
  {
    hide Entered;
    assert (log + [e])[..|log|] == log;
    forall k | 0 <= k < |log| ensures TurnAt(log + [e], k) == TurnAt(log, k) { assert (log + [e])[..k] == log[..k]; }
  }

  lemma OutsideData(progs: Programs, s: Sys, t: nat)
    requires OrderInv(progs, s) && DataInv(progs, s) && t < |s.ts| && s.ts[t].pc.Ready? && Flat(progs[t])
    requires !progs[t](s.ts[t].past).Unlock?
    ensures DataInv(progs, InstrStep(s, t, progs[t](s.ts[t].past)))
  {
    hide PastAt, DataAt, Entered, LogOk, AcqOk, GateOk, Tops, Path, Depth, Flat, TurnAt;
    assert ThreadOk(progs[t], s.ts[t]) && ThreadDataOk(progs, s, t);
    FlatLock(progs[t], s.ts[t].past);
    QuietData(progs, s, InstrStep(s, t, progs[t](s.ts[t].past)), t);
  }

  lemma ScanData(progs: Programs, s: Sys, t: nat)
    requires DataInv(progs, s) && t < |s.ts| && s.ts[t].pc.Scan?
    ensures DataInv(progs, ScanStep(s, t))
  {
    hide PastAt, DataAt, Entered, LogOk, TurnAt;
    assert ThreadDataOk(progs, s, t);
    QuietData(progs, s, ScanStep(s, t), t);
  }

  lemma StepData(progs: Programs, s: Sys, t: nat)
    requires OrderInv(progs, s) && DataInv(progs, s) && forall u :: 0 <= u < |progs| ==> Flat(progs[u])
    ensures DataInv(progs, Step(progs, s, t))
  {
    hide DataInv, AcqOk, GateOk, Tops, Path, Depth, Flat, InstrStep, AdvanceStep, ScanStep;
    if t < |s.ts| && t < |progs| {
      var i := progs[t](s.ts[t].past);
      assert ThreadOk(progs[t], s.ts[t]);
      match s.ts[t].pc
      case Done =>
      case Ready => if i.Unlock? { UnlockData(progs, s, t); } else { OutsideData(progs, s, t); }
      case Scan(_, _, _) => ScanData(progs, s, t);
      case Passed => if i.m !in s.owner { AcquireData(progs, s, t, i.m); }
      case Acquired(_) => AdvanceData(progs, s, t);
    }
  }

  lemma FlatLock(p: Program, h: seq<Val>)
    requires Flat(p) && Path(p, h) && !p(h).Unlock?
    ensures Depth(p, h) == 0
  {
    assert FlatAt(p, h);
  }

  lemma InitData(progs: Programs)
    ensures DataInv(progs, Init(progs))
  {}

  lemma {:induction false} ExecData(progs: Programs, sched: seq<nat>)
    requires forall u :: 0 <= u < |progs| ==> Flat(progs[u])
    ensures DataInv(progs, Exec(progs, Init(progs), sched))
  {
    hide OrderInv, DataInv, Step, Init, Flat;
    if |sched| == 0 {
      InitData(progs);
    } else {
      var n := |sched| - 1;
      ExecOrder(progs, sched[..n]);
      ExecData(progs, sched[..n]);
      StepData(progs, Exec(progs, Init(progs), sched[..n]), sched[n]);
    }
  }

  // ------------------------------------------------------------------------ main results

  /** What a completed interleaving leaves: a complete log with ascending turns, which the threads followed. */
  lemma FinishedLog(progs: Programs, sched: seq<nat>)
    requires Finished(Exec(progs, Init(progs), sched)) && forall u :: 0 <= u < |progs| ==> Flat(progs[u])
    ensures var s := Exec(progs, Init(progs), sched);
      && |s.ts| == |progs| && LogOk(progs, s.log) && TurnsAscend(s.log) && Complete(progs, s.log)
      && |s.acq| == |s.log| && (forall k :: 0 <= k < |s.log| ==> s.acq[k] == TurnAt(s.log, k))
      && (forall t :: 0 <= t < |progs| ==> s.ts[t].past == PastAt(progs, s.log, t))
  {
    hide Exec, Init, PastAt, Entered, LogOk, GateOk, Tops, Path, TurnAt, Depth, Flat;
    ExecOrder(progs, sched);
    ExecData(progs, sched);
    var s := Exec(progs, Init(progs), sched);
    forall t | 0 <= t < |progs|
      ensures s.ts[t].past == PastAt(progs, s.log, t) && progs[t](PastAt(progs, s.log, t)).Exit?
    {
      assert ThreadOk(progs[t], s.ts[t]) && s.ts[t].pc.Done? && ThreadDataOk(progs, s, t);
      FlatLock(progs[t], s.ts[t].past);
    }
    forall j, k | 0 <= j < k < |s.log| ensures TurnLt(TurnAt(s.log, j), TurnAt(s.log, k)) {
      assert s.acq[j] == TurnAt(s.log, j) && s.acq[k] == TurnAt(s.log, k);
    }
  }

  /**
   * Determinism for programs whose every step may depend on the data read so far: any two completed
   * interleavings enter the same sections in the same order, find the same values in them, and leave
   * every thread with the same past.
   */
  lemma SameRun(progs: Programs, sched1: seq<nat>, sched2: seq<nat>)
    requires |progs| <= MAXT && forall u :: 0 <= u < |progs| ==> Flat(progs[u])
    requires Finished(Exec(progs, Init(progs), sched1)) && Finished(Exec(progs, Init(progs), sched2))
    ensures var s1, s2 := Exec(progs, Init(progs), sched1), Exec(progs, Init(progs), sched2);
      && s1.log == s2.log && s1.acq == s2.acq && |s1.ts| == |s2.ts| == |progs|
      && forall t :: 0 <= t < |progs| ==> s1.ts[t].past == s2.ts[t].past
  {
    hide Exec, Init, PastAt, LogOk, TurnsAscend, Complete, TurnAt, Flat, Finished;
    FinishedLog(progs, sched1);
    FinishedLog(progs, sched2);
    SameLog(progs, Exec(progs, Init(progs), sched1).log, Exec(progs, Init(progs), sched2).log);
  }
}
