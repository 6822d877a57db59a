/** Where the scheduler's determinism ends: data-dependent programs with nested locks. */
module SchedulerLimits {
  import opened Scheduler
  import opened SchedulerProgress

  /** Takes mutex 1 inside mutex 0, and mutex 2 afterwards only if it found something there. */
  function Reader(h: seq<Val>): Instr {
    if |h| == 0 then Lock(0)
    else if |h| == 1 then Lock(1)
    else if |h| == 2 then Unlock(1, h[1])
    else if |h| == 3 then Unlock(0, 0)
    else if |h| == 4 && h[1] != 0 then Lock(2)
    else if |h| == 5 then Unlock(2, 0)
    else Exit
  }

  /** Puts something under mutex 1. */
  function Writer(h: seq<Val>): Instr {
    if |h| == 0 then Lock(1) else if |h| == 1 then Unlock(1, 1) else Exit
  }

  const PROGS: Programs := [Reader, Writer]

  ghost predicate Reaches(s: Sys, t: Sys) { exists sched :: Exec(PROGS, s, sched) == t }

  lemma ReachesThen(a: Sys, b: Sys, c: Sys)
    requires Reaches(a, b) && Reaches(b, c)
    ensures Reaches(a, c)
  {
    hide Exec;
    var x :| Exec(PROGS, a, x) == b;
    var y :| Exec(PROGS, b, y) == c;
    ExecConcat(PROGS, a, x, y);
  }

  lemma ReachesStep(a: Sys, b: Sys, t: nat)
    requires Reaches(a, b) && OrderInv(PROGS, b)
    ensures Reaches(a, Step(PROGS, b, t)) && OrderInv(PROGS, Step(PROGS, b, t))
  {
    hide Exec, OrderInv, Step;
    ExecOne(PROGS, b, t);
    ReachesThen(a, b, Step(PROGS, b, t));
    StepKeeps(PROGS, b, t);
  }

  /** The state after thread `t` has gone through the gate and taken mutex `m` at top level. */
  function Entered(s: Sys, t: nat, m: Mutex): Sys
    requires t < |s.ts|
  {
    var th := s.ts[t];
    Sys(s.ts[t := Thread(th.past + [s.Data(m)], Ready, th.lc + 1, th.depth + 1)], s.owner[m := t], s.data,
        s.acq + [TurnOf(s, t)], s.log + [Section(t, m, s.Data(m))])
  }

  lemma Enter(a: Sys, s: Sys, t: nat, m: Mutex)
    requires Reaches(a, s) && OrderInv(PROGS, s) && t < |s.ts| && AtGate(PROGS, s, t) && s.ts[t].pc.Ready?
    requires Cleared(s, t, |s.ts|) && PROGS[t](s.ts[t].past) == Lock(m) && m !in s.owner
    ensures Reaches(a, Entered(s, t, m)) && OrderInv(PROGS, Entered(s, t, m))
  {
    hide Exec, OrderInv, Cleared, ScanStep, InstrStep;
    var sched := PassFromReady(PROGS, s, t);
    var p := Put(s, t, s.ts[t].(pc := Passed));
    assert Reaches(s, p);
    ReachesThen(a, s, p);
    PassedKeeps(s, sched);
    ReachesStep(a, p, t);
    var q := Step(PROGS, p, t);
    ReachesStep(a, q, t);
    assert Step(PROGS, q, t).ts == Entered(s, t, m).ts;
  }

  lemma {:induction false} PassedKeeps(s: Sys, sched: seq<nat>)
    requires OrderInv(PROGS, s)
    ensures OrderInv(PROGS, Exec(PROGS, s, sched))
  {
    hide OrderInv, Step;
    if |sched| > 0 {
      PassedKeeps(s, sched[..|sched| - 1]);
      StepKeeps(PROGS, Exec(PROGS, s, sched[..|sched| - 1]), sched[|sched| - 1]);
    }
  }

  /** An instruction that is not gated: a release, an exit, or a nested lock of a free mutex. */
  lemma Run(a: Sys, s: Sys, t: nat, i: Instr)
    requires Reaches(a, s) && OrderInv(PROGS, s) && t < |s.ts| && t < |PROGS| && s.ts[t].pc.Ready?
    requires PROGS[t](s.ts[t].past) == i
    ensures Reaches(a, InstrStep(s, t, i)) && OrderInv(PROGS, InstrStep(s, t, i))
  {
    hide Reaches, OrderInv, InstrStep;
    ReachesStep(a, s, t);
  }

  lemma StartReached()
    ensures Reaches(Init(PROGS), Init(PROGS))
  {
    assert Exec(PROGS, Init(PROGS), []) == Init(PROGS);
  }

  /** The state of both threads, who holds what, what mutex 1 protects, and the acquisitions. */
  predicate Is(s: Sys, a: Thread, b: Thread, held: set<Mutex>, one: Val, acq: seq<Turn>) {
    |s.ts| == 2 && s.ts[0] == a && s.ts[1] == b && s.owner.Keys == held && s.Data(0) == 0 && s.Data(1) == one
    && s.Data(2) == 0 && s.acq == acq
  }

  function Th(past: seq<Val>, lc: nat, depth: nat): Thread { Thread(past, Ready, lc, depth) }

  /** The reader enters: both runs begin like this. */
  lemma ReaderEnters(a: Sys) returns (s: Sys)
    requires a == Init(PROGS)
    ensures Reaches(a, s) && OrderInv(PROGS, s) && Is(s, Th([0], 1, 1), Th([], 0, 0), {0}, 0, [Turn(0, 0)])
  {
    hide OrderInv, Reaches, Exec;
    StartReached();
    InitOrder(PROGS);
    Enter(a, a, 0, 0);
    s := Entered(a, 0, 0);
    assert s.ts[0].past == [0];
  }

  /** The writer enters and leaves while the reader is outside mutex 1. */
  lemma WriterRuns(a: Sys, s: Sys, th: Thread, held: set<Mutex>, acq: seq<Turn>) returns (r: Sys)
    requires Reaches(a, s) && OrderInv(PROGS, s) && Is(s, th, Th([], 0, 0), held, 0, acq)
    requires 1 !in held && (th.pc.Done? || th.lc > 0)
    ensures Reaches(a, r) && OrderInv(PROGS, r)
    ensures Is(r, th, Thread([0, 1], Done, 1, 0), held, 1, acq + [Turn(0, 1)])
  {
    hide OrderInv, Reaches, Exec;
    Enter(a, s, 1, 1);
    r := Entered(s, 1, 1);
    assert r.ts[1].past == [0];
    Run(a, r, 1, Unlock(1, 1));
    r := InstrStep(r, 1, Unlock(1, 1));
    assert r.ts[1].past == [0, 1];
    Run(a, r, 1, Exit);
    r := InstrStep(r, 1, Exit);
  }

  /** The reader takes mutex 1 inside mutex 0, reads `v`, and leaves both. */
  lemma ReaderReads(a: Sys, s: Sys, th: Thread, v: Val, acq: seq<Turn>) returns (r: Sys)
    requires Reaches(a, s) && OrderInv(PROGS, s) && Is(s, Th([0], 1, 1), th, {0}, v, acq)
    ensures Reaches(a, r) && OrderInv(PROGS, r) && Is(r, Th([0, v, v, 0], 1, 0), th, {}, v, acq)
  {
    hide OrderInv, Reaches, Exec;
    Run(a, s, 0, Lock(1));
    r := InstrStep(s, 0, Lock(1));
    assert r.ts[0].past == [0, v];
    Run(a, r, 0, Unlock(1, v));
    r := InstrStep(r, 0, Unlock(1, v));
    assert r.ts[0].past == [0, v, v];
    Run(a, r, 0, Unlock(0, 0));
    r := InstrStep(r, 0, Unlock(0, 0));
    assert r.ts[0].past == [0, v, v, 0];
  }

  /** The reader first: it finds nothing and never asks for mutex 2. */
  lemma ReaderFirst() returns (s: Sys)
    ensures Reaches(Init(PROGS), s) && Finished(s) && s.acq == [Turn(0, 0), Turn(0, 1)]
  {
    hide OrderInv, Reaches, Init;
    var a := Init(PROGS);
    s := ReaderEnters(a);
    s := ReaderReads(a, s, Th([], 0, 0), 0, [Turn(0, 0)]);
    Run(a, s, 0, Exit);
    s := InstrStep(s, 0, Exit);
    s := WriterRuns(a, s, s.ts[0], {}, [Turn(0, 0)]);
  }

  /** The writer slips in before the nested lock: the reader goes on to a third acquisition. */
  lemma WriterBetween() returns (s: Sys)
    ensures Reaches(Init(PROGS), s) && Finished(s) && s.acq == [Turn(0, 0), Turn(0, 1), Turn(1, 0)]
  {
    hide OrderInv, Reaches, Init;
    var a := Init(PROGS);
    var w := Thread([0, 1], Done, 1, 0);
    s := ReaderEnters(a);
    s := WriterRuns(a, s, s.ts[0], {0}, [Turn(0, 0)]);
    s := ReaderReads(a, s, w, 1, [Turn(0, 0), Turn(0, 1)]);
    Enter(a, s, 0, 2);
    s := Entered(s, 0, 2);
    assert s.ts[0].past == [0, 1, 1, 0, 0];
    Run(a, s, 0, Unlock(2, 0));
    s := InstrStep(s, 0, Unlock(2, 0));
    assert s.ts[0].past == [0, 1, 1, 0, 0, 0];
    Run(a, s, 0, Exit);
    s := InstrStep(s, 0, Exit);
  }

  /**
   * With nested locks and control that depends on what they protect, completed interleavings may
   * differ in their top-level acquisitions: nested acquisitions are not gated.
   */
  lemma NestedOrdersDiffer() returns (sched1: seq<nat>, sched2: seq<nat>)
    ensures Finished(Exec(PROGS, Init(PROGS), sched1)) && Finished(Exec(PROGS, Init(PROGS), sched2))
    ensures Exec(PROGS, Init(PROGS), sched1).acq != Exec(PROGS, Init(PROGS), sched2).acq
  {
    hide Exec, Init, Finished;
    var s1 := ReaderFirst();
    var s2 := WriterBetween();
    sched1 :| Exec(PROGS, Init(PROGS), sched1) == s1;
    sched2 :| Exec(PROGS, Init(PROGS), sched2) == s2;
    assert |s1.acq| != |s2.acq|;
  }
}
