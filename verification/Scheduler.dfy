/**
 * The Kendo-style scheduler of detsched.c: threads registered up front, each running a program of
 * mutex operations whose every next step may depend on what it has read under its locks so far, with
 * the gate's scan over the other threads' slots one atomic load at a time.
 */
module Scheduler {
  import opened Ordering

  /** `MAXT`: a thread beyond these has no slot and is not scheduled at all. */
  const MAXT: nat := 1024

  type Mutex = nat
  type Val = int

  /** Take a mutex and read the datum it protects; write that datum and release; or end the thread. */
  datatype Instr = Lock(m: Mutex) | Unlock(m: Mutex, w: Val) | Exit

  /** The next step as a function of what each step so far has read (a lock) or written (an unlock). */
  type Program = seq<Val> -> Instr
  type Programs = seq<Program>

  /**
   * Where a thread is: about to run its next instruction; in `await_turn` at slot `i` having loaded its
   * own clock `mine` (and, if `seen`, slot `i`'s active flag); past the gate; holding the lock, its
   * datum being `val`, but not yet advanced; or exited, its slot inactive.
   */
  datatype Pc = Ready | Scan(i: nat, mine: nat, seen: bool) | Passed | Acquired(val: Val) | Done

  datatype Thread = Thread(past: seq<Val>, pc: Pc, lc: nat, depth: nat)

  /** A gate position: a logical clock, ties broken by slot. */
  datatype Turn = Turn(lc: nat, slot: nat)

  predicate TurnLe(a: Turn, b: Turn) { a.lc < b.lc || (a.lc == b.lc && a.slot <= b.slot) }
  predicate TurnLt(a: Turn, b: Turn) { a.lc < b.lc || (a.lc == b.lc && a.slot < b.slot) }

  /** A top-level critical section: who entered it, by which mutex, and what it found. */
  datatype Section = Section(slot: nat, m: Mutex, val: Val)

  /** Threads by slot, who holds which mutex, the protected data, and the top-level acquisitions so far. */
  datatype Sys = Sys(ts: seq<Thread>, owner: map<Mutex, nat>, data: map<Mutex, Val>, acq: seq<Turn>, log: seq<Section>)
  {
    function Data(m: Mutex): Val { if m in data then data[m] else 0 }
  }

  function Init(progs: Programs): Sys {
    Sys(seq(|progs|, i => Thread([], Ready, 0, 0)), map[], map[], [], [])
  }

  function TurnOf(s: Sys, t: nat): Turn
    requires t < |s.ts|
  {
    Turn(s.ts[t].lc, t)
  }

  function Put(s: Sys, t: nat, th: Thread): Sys
    requires t < |s.ts|
  {
    s.(ts := s.ts[t := th])
  }

  /** One load of the scan loop, or its end. */
  function ScanStep(s: Sys, t: nat): Sys
    requires t < |s.ts| && s.ts[t].pc.Scan?
  {
    var th := s.ts[t];
    var i, mine := th.pc.i, th.pc.mine;
    if i >= |s.ts| then Put(s, t, th.(pc := Passed))
    else if i == t then Put(s, t, th.(pc := Scan(i + 1, mine, false)))
    else if !th.pc.seen then
      if s.ts[i].pc.Done? then Put(s, t, th.(pc := Scan(i + 1, mine, false)))
      else Put(s, t, th.(pc := Scan(i, mine, true)))
    else if TurnLt(TurnOf(s, i), Turn(mine, t)) then Put(s, t, th.(pc := Ready))
    else Put(s, t, th.(pc := Scan(i + 1, mine, false)))
  }

  function InstrStep(s: Sys, t: nat, instr: Instr): Sys
    requires t < |s.ts| && s.ts[t].pc.Ready?
  {
    var th := s.ts[t];
    match instr
    case Exit => Put(s, t, th.(pc := Done))
    case Unlock(m, w) =>
      Put(s, t, th.(past := th.past + [w], depth := if th.depth > 0 then th.depth - 1 else 0))
        .(owner := s.owner - {m}, data := s.data[m := w])
    case Lock(m) =>
      if th.depth == 0 then Put(s, t, th.(pc := Scan(0, th.lc, false)))
      else if m in s.owner then s
      else Put(s, t, th.(past := th.past + [s.Data(m)], depth := th.depth + 1)).(owner := s.owner[m := t])
  }

  function AcquireStep(s: Sys, t: nat, m: Mutex): Sys
    requires t < |s.ts|
  {
    var th := s.ts[t];
    if m in s.owner then s
    else
      Put(s, t, th.(depth := th.depth + 1, pc := Acquired(s.Data(m))))
        .(owner := s.owner[m := t], acq := s.acq + [TurnOf(s, t)], log := s.log + [Section(t, m, s.Data(m))])
  }

  /** `advance`: the clock moves on, and the thread goes on with what it has read. */
  function AdvanceStep(s: Sys, t: nat): Sys
    requires t < |s.ts| && s.ts[t].pc.Acquired?
  {
    var th := s.ts[t];
    Put(s, t, th.(lc := th.lc + 1, past := th.past + [th.pc.val], pc := Ready))
  }

  /** What thread `t` does next; a thread blocked in the real lock leaves the state as it is. */
  function Step(progs: Programs, s: Sys, t: nat): Sys {
    if t >= |s.ts| || t >= |progs| then s
    else
      var th := s.ts[t];
      var instr := progs[t](th.past);
      match th.pc
      case Done => s
      case Ready => InstrStep(s, t, instr)
      case Scan(_, _, _) => ScanStep(s, t)
      case Passed => if instr.Lock? then AcquireStep(s, t, instr.m) else s
      case Acquired(_) => AdvanceStep(s, t)
  }

  /** The state after running the threads in the order the operating system picks. */
  function Exec(progs: Programs, s: Sys, sched: seq<nat>): Sys {
    if |sched| == 0 then s else Step(progs, Exec(progs, s, sched[..|sched| - 1]), sched[|sched| - 1])
  }

  // ------------------------------------------------------- what a program determines

  /** Every step up to `h` was taken: the program had not exited. */
  predicate Path(p: Program, h: seq<Val>) {
    |h| == 0 || (Path(p, h[..|h| - 1]) && !p(h[..|h| - 1]).Exit?)
  }

  function Depth(p: Program, h: seq<Val>): nat {
    if |h| == 0 then 0
    else
      var d, i := Depth(p, h[..|h| - 1]), p(h[..|h| - 1]);
      if i.Lock? then d + 1 else if i.Unlock? && d > 0 then d - 1 else d
  }

  /** Top-level acquisitions among the steps of `h`. */
  function Tops(p: Program, h: seq<Val>): nat {
    if |h| == 0 then 0
    else
      var h' := h[..|h| - 1];
      Tops(p, h') + if p(h').Lock? && Depth(p, h') == 0 then 1 else 0
  }

  /** One step more. */
  lemma PathSnoc(p: Program, h: seq<Val>, v: Val)
    ensures Path(p, h + [v]) <==> Path(p, h) && !p(h).Exit?
    ensures Depth(p, h + [v]) ==
      if p(h).Lock? then Depth(p, h) + 1 else if p(h).Unlock? && Depth(p, h) > 0 then Depth(p, h) - 1 else Depth(p, h)
    ensures Tops(p, h + [v]) == Tops(p, h) + if p(h).Lock? && Depth(p, h) == 0 then 1 else 0
  {
    assert (h + [v])[..|h|] == h;
  }

  // ------------------------------------------------------------ the order invariant

  /** Thread `j` has exited or its turn comes after `t`'s. */
  predicate Later(s: Sys, j: nat, t: nat)
    requires j < |s.ts| && t < |s.ts|
  {
    s.ts[j].pc.Done? || TurnLt(TurnOf(s, t), TurnOf(s, j))
  }

  predicate Cleared(s: Sys, t: nat, n: nat)
    requires t < |s.ts| && n <= |s.ts|
  {
    forall j :: 0 <= j < n && j != t ==> Later(s, j, t)
  }

  /** A thread against its own program. */
  predicate ThreadOk(p: Program, th: Thread) {
    && Path(p, th.past) && th.lc == Tops(p, th.past)
    && th.depth == Depth(p, th.past) + (if th.pc.Acquired? then 1 else 0)
    && (th.pc.Done? ==> p(th.past).Exit?)
    && (th.pc.Scan? || th.pc.Passed? || th.pc.Acquired? ==> p(th.past).Lock? && Depth(p, th.past) == 0)
  }

  predicate GateOk(s: Sys, t: nat)
    requires t < |s.ts|
  {
    match s.ts[t].pc
    case Scan(i, mine, _) => mine == s.ts[t].lc && i <= |s.ts| && Cleared(s, t, i)
    case Passed => Cleared(s, t, |s.ts|)
    case Acquired(_) => Cleared(s, t, |s.ts|)
    case _ => true
  }

  /** Acquisitions already made by slot `t`, by clock. */
  function MadeBy(s: Sys, t: nat): nat
    requires t < |s.ts|
  {
    s.ts[t].lc + if s.ts[t].pc.Acquired? then 1 else 0
  }

  predicate Behind(s: Sys, x: Turn, t: nat)
    requires t < |s.ts|
  {
    TurnLt(x, TurnOf(s, t)) || (s.ts[t].pc.Acquired? && x == TurnOf(s, t))
  }

  ghost predicate AcqOk(s: Sys) {
    && StrictlyAscending(s.acq, TurnLe)
    && (forall x: Turn :: x in s.acq <==> x.slot < |s.ts| && x.lc < MadeBy(s, x.slot))
    && (forall k, t :: 0 <= k < |s.acq| && 0 <= t < |s.ts| && !s.ts[t].pc.Done? ==> Behind(s, s.acq[k], t))
  }

  ghost predicate OrderInv(progs: Programs, s: Sys) {
    && |s.ts| == |progs|
    && (forall t :: 0 <= t < |s.ts| ==> ThreadOk(progs[t], s.ts[t]) && GateOk(s, t))
    && AcqOk(s)
  }

  lemma TurnOrder()
    ensures TotalOrder(TurnLe)
  {}

  /** Moving one thread forward keeps what others have established about it: clocks only grow. */
  lemma LaterKept(s: Sys, s': Sys, j: nat, t: nat, u: nat)
    requires |s'.ts| == |s.ts| && j < |s.ts| && t < |s.ts| && u < |s.ts| && t != u
    requires forall k :: 0 <= k < |s.ts| && k != u ==> s'.ts[k] == s.ts[k]
    requires s'.ts[u].lc >= s.ts[u].lc && (s.ts[u].pc.Done? ==> s'.ts[u].pc.Done?)
    requires Later(s, j, t)
    ensures Later(s', j, t)
  {}

  lemma GateKept(s: Sys, s': Sys, t: nat, u: nat)
    requires |s'.ts| == |s.ts| && t < |s.ts| && u < |s.ts| && t != u
    requires forall k :: 0 <= k < |s.ts| && k != u ==> s'.ts[k] == s.ts[k]
    requires s'.ts[u].lc >= s.ts[u].lc && (s.ts[u].pc.Done? ==> s'.ts[u].pc.Done?)
    requires GateOk(s, t)
    ensures GateOk(s', t)
  {
    hide Later;
    forall j | 0 <= j < |s.ts| && Later(s, j, t) ensures Later(s', j, t) { LaterKept(s, s', j, t, u); }
  }

  /** Steps that change neither clocks, acquisitions nor who has acquired or exited. */
  lemma AcqKept(s: Sys, s': Sys, u: nat)
    requires |s'.ts| == |s.ts| && u < |s.ts| && s'.acq == s.acq
    requires forall k :: 0 <= k < |s.ts| && k != u ==> s'.ts[k] == s.ts[k]
    requires s'.ts[u].lc == s.ts[u].lc && !s.ts[u].pc.Acquired? && !s'.ts[u].pc.Acquired? && !s.ts[u].pc.Done?
    requires AcqOk(s)
    ensures AcqOk(s')
  {
    hide StrictlyAscending;
    forall t | 0 <= t < |s.ts| ensures MadeBy(s', t) == MadeBy(s, t) && TurnOf(s', t) == TurnOf(s, t) {}
    forall k, t | 0 <= k < |s.acq| && 0 <= t < |s.ts| && !s'.ts[t].pc.Done? ensures Behind(s', s'.acq[k], t) {
      assert Behind(s, s.acq[k], t);
    }
  }

  /** Everything but the moved thread's own gate and the acquisition record. */
  lemma FrameKept(progs: Programs, s: Sys, s': Sys, u: nat)
    requires OrderInv(progs, s) && |s'.ts| == |s.ts| && u < |s.ts|
    requires forall k :: 0 <= k < |s.ts| && k != u ==> s'.ts[k] == s.ts[k]
    requires s'.ts[u].lc >= s.ts[u].lc && (s.ts[u].pc.Done? ==> s'.ts[u].pc.Done?)
    requires ThreadOk(progs[u], s'.ts[u]) && GateOk(s', u) && AcqOk(s')
    ensures OrderInv(progs, s')
  {
    hide ThreadOk, GateOk, AcqOk;
    forall t | 0 <= t < |s.ts| ensures ThreadOk(progs[t], s'.ts[t]) && GateOk(s', t) {
      if t != u { GateKept(s, s', t, u); }
    }
  }

  lemma ScanKeeps(progs: Programs, s: Sys, t: nat)
    requires OrderInv(progs, s) && t < |s.ts| && s.ts[t].pc.Scan?
    ensures OrderInv(progs, ScanStep(s, t))
  {
    hide AcqOk, Tops, Depth, Path;
    var s' := ScanStep(s, t);
    assert ThreadOk(progs[t], s.ts[t]) && GateOk(s, t);
    AcqKept(s, s', t);
    ScanGate(s, t);
    FrameKept(progs, s, s', t);
  }

  /** One more slot looked at: it is inactive or its clock is already past, and stays so. */
  lemma ScanGate(s: Sys, t: nat)
    requires t < |s.ts| && s.ts[t].pc.Scan? && GateOk(s, t)
    ensures GateOk(ScanStep(s, t), t)
  {
    var s' := ScanStep(s, t);
    forall j | 0 <= j < |s.ts| && j != t && Later(s, j, t) ensures Later(s', j, t) {}
    var i := s.ts[t].pc.i;
    if i < |s.ts| && i != t && s'.ts[t].pc.Scan? && s'.ts[t].pc.i == i + 1 {
      assert Later(s, i, t);
    }
  }

  lemma QuietKeeps(progs: Programs, s: Sys, s': Sys, t: nat)
    requires OrderInv(progs, s) && t < |s.ts| && s.ts[t].pc.Ready? && |s'.ts| == |s.ts| && s'.acq == s.acq
    requires forall k :: 0 <= k < |s.ts| && k != t ==> s'.ts[k] == s.ts[k]
    requires s'.ts[t].lc == s.ts[t].lc && ThreadOk(progs[t], s'.ts[t])
    requires s'.ts[t].pc.Ready? || s'.ts[t].pc.Done? || s'.ts[t].pc == Scan(0, s.ts[t].lc, false)
    ensures OrderInv(progs, s')
  {
    hide ThreadOk, AcqOk;
    AcqKept(s, s', t);
    FrameKept(progs, s, s', t);
  }

  lemma InstrKeeps(progs: Programs, s: Sys, t: nat)
    requires OrderInv(progs, s) && t < |s.ts| && s.ts[t].pc.Ready?
    ensures OrderInv(progs, InstrStep(s, t, progs[t](s.ts[t].past)))
  {
    hide AcqOk, GateOk, Path, Depth, Tops;
    var p, th := progs[t], s.ts[t];
    var s' := InstrStep(s, t, p(th.past));
    assert ThreadOk(p, th);
    if p(th.past).Lock? { PathSnoc(p, th.past, s.Data(p(th.past).m)); }
    if p(th.past).Unlock? { PathSnoc(p, th.past, p(th.past).w); }
    if s' != s { QuietKeeps(progs, s, s', t); }
  }

  /** The acquisition recorded by a thread past the gate is the next turn in ascending order. */
  lemma AcquireRecords(s: Sys, t: nat, m: Mutex)
    requires t < |s.ts| && s.ts[t].pc.Passed? && AcqOk(s) && Cleared(s, t, |s.ts|) && m !in s.owner
    ensures AcqOk(AcquireStep(s, t, m))
  {
    var s' := AcquireStep(s, t, m);
    var x := TurnOf(s, t);
    forall k | 0 <= k < |s.acq| ensures TurnLt(s.acq[k], x) { assert Behind(s, s.acq[k], t); }
    assert StrictlyAscending(s'.acq, TurnLe);
    forall y: Turn ensures y in s'.acq <==> y.slot < |s'.ts| && y.lc < MadeBy(s', y.slot) {
      assert y in s'.acq <==> y in s.acq || y == x;
    }
    forall k, u | 0 <= k < |s'.acq| && 0 <= u < |s'.ts| && !s'.ts[u].pc.Done? ensures Behind(s', s'.acq[k], u) {
      if u != t { assert Later(s, u, t); }
      if k < |s.acq| { assert Behind(s, s.acq[k], u); }
    }
  }

  lemma AcquireKeeps(progs: Programs, s: Sys, t: nat, m: Mutex)
    requires OrderInv(progs, s) && t < |s.ts| && s.ts[t].pc.Passed?
    ensures OrderInv(progs, AcquireStep(s, t, m))
  {
    hide AcqOk, Tops, Depth, Path;
    var s' := AcquireStep(s, t, m);
    assert ThreadOk(progs[t], s.ts[t]) && GateOk(s, t);
    if m in s.owner { return; }
    AcquireRecords(s, t, m);
    assert forall j :: 0 <= j < |s.ts| && j != t && Later(s, j, t) ==> Later(s', j, t);
    FrameKept(progs, s, s', t);
  }

  lemma AdvanceRecords(s: Sys, t: nat)
    requires t < |s.ts| && s.ts[t].pc.Acquired? && AcqOk(s)
    ensures AcqOk(AdvanceStep(s, t))
  {
    hide StrictlyAscending;
    var s' := AdvanceStep(s, t);
    forall u | 0 <= u < |s.ts| ensures MadeBy(s', u) == MadeBy(s, u) {}
    forall k, u | 0 <= k < |s'.acq| && 0 <= u < |s'.ts| && !s'.ts[u].pc.Done? ensures Behind(s', s'.acq[k], u) {
      assert Behind(s, s.acq[k], u);
    }
  }

  lemma AdvanceKeeps(progs: Programs, s: Sys, t: nat)
    requires OrderInv(progs, s) && t < |s.ts| && s.ts[t].pc.Acquired?
    ensures OrderInv(progs, AdvanceStep(s, t))
  {
    hide AcqOk, Path, Depth, Tops;
    assert ThreadOk(progs[t], s.ts[t]) && GateOk(s, t);
    PathSnoc(progs[t], s.ts[t].past, s.ts[t].pc.val);
    AdvanceRecords(s, t);
    FrameKept(progs, s, AdvanceStep(s, t), t);
  }

  /** Every step of every thread keeps the order invariant. */
  lemma StepKeeps(progs: Programs, s: Sys, t: nat)
    requires OrderInv(progs, s)
    ensures OrderInv(progs, Step(progs, s, t))
  {
    hide OrderInv, ScanStep, InstrStep, AcquireStep, AdvanceStep;
    if t < |s.ts| && t < |progs| {
      match s.ts[t].pc
      case Done =>
      case Ready => InstrKeeps(progs, s, t);
      case Scan(_, _, _) => ScanKeeps(progs, s, t);
      case Passed => if progs[t](s.ts[t].past).Lock? { AcquireKeeps(progs, s, t, progs[t](s.ts[t].past).m); }
      case Acquired(_) => AdvanceKeeps(progs, s, t);
    }
  }

  lemma InitOrder(progs: Programs)
    ensures OrderInv(progs, Init(progs))
  {}

  lemma {:induction false} ExecOrder(progs: Programs, sched: seq<nat>)
    ensures OrderInv(progs, Exec(progs, Init(progs), sched))
  {
    hide OrderInv, Step, Init;
    if |sched| == 0 {
      InitOrder(progs);
    } else {
      ExecOrder(progs, sched[..|sched| - 1]);
      StepKeeps(progs, Exec(progs, Init(progs), sched[..|sched| - 1]), sched[|sched| - 1]);
    }
  }

  // ------------------------------------------------------------------ main results

  predicate InTurn(th: Thread) { th.pc.Passed? || th.pc.Acquired? }

  /** In every interleaving at most one thread is between the gate and its clock advance. */
  lemma OneInTurn(progs: Programs, sched: seq<nat>, t: nat, u: nat)
    requires |progs| <= MAXT && t < |progs| && u < |progs| && t != u
    ensures var s := Exec(progs, Init(progs), sched);
      |s.ts| == |progs| && !(InTurn(s.ts[t]) && InTurn(s.ts[u]))
  {
    hide AcqOk, ThreadOk, Exec, Init;
    ExecOrder(progs, sched);
    var s := Exec(progs, Init(progs), sched);
    assert GateOk(s, t) && GateOk(s, u);
    assert InTurn(s.ts[t]) ==> Later(s, u, t);
    assert InTurn(s.ts[u]) ==> Later(s, t, u);
  }

  predicate Finished(s: Sys) { forall t :: 0 <= t < |s.ts| ==> s.ts[t].pc.Done? }

  /** The turns of a completed run: for each slot, clocks 0 up to its number of top-level locks. */
  predicate IsTurn(progs: Programs, s: Sys, x: Turn)
    requires |s.ts| == |progs|
  {
    x.slot < |progs| && x.lc < Tops(progs[x.slot], s.ts[x.slot].past)
  }

  /** A completed run acquires in ascending turn order, every turn of its threads exactly once. */
  lemma AcquiresInOrder(progs: Programs, sched: seq<nat>)
    requires |progs| <= MAXT && Finished(Exec(progs, Init(progs), sched))
    ensures var s := Exec(progs, Init(progs), sched);
      && |s.ts| == |progs| && StrictlyAscending(s.acq, TurnLe)
      && (forall x: Turn :: x in s.acq <==> IsTurn(progs, s, x))
      && (forall j, k :: 0 <= j < k < |s.acq| ==>
          s.acq[j].lc < s.acq[k].lc || (s.acq[j].lc == s.acq[k].lc && s.acq[j].slot < s.acq[k].slot))
  {
    hide Exec, Init, GateOk, Tops, Path, Depth;
    ExecOrder(progs, sched);
    var s := Exec(progs, Init(progs), sched);
    forall x: Turn ensures x in s.acq <==> IsTurn(progs, s, x) {
      if x.slot < |s.ts| { assert ThreadOk(progs[x.slot], s.ts[x.slot]) && s.ts[x.slot].pc.Done?; }
    }
  }

  // ---------------------------------------- programs that do not look at the data they protect

  /** The same operation, up to the value written. */
  predicate SameKind(a: Instr, b: Instr) {
    (a.Lock? && b.Lock? && a.m == b.m) || (a.Unlock? && b.Unlock?) || (a.Exit? && b.Exit?)
  }

  /** Which operation comes next depends on how many came before, and on nothing that was read. */
  ghost predicate Oblivious(p: Program) {
    forall h: seq<Val>, h': seq<Val> :: |h| == |h'| ==> SameKind(p(h), p(h'))
  }

  lemma {:induction false} ObliviousTops(p: Program, h: seq<Val>, h': seq<Val>)
    requires Oblivious(p) && |h| == |h'|
    ensures Depth(p, h) == Depth(p, h') && Tops(p, h) == Tops(p, h')
  {
    if |h| > 0 {
      ObliviousTops(p, h[..|h| - 1], h'[..|h'| - 1]);
      assert SameKind(p(h[..|h| - 1]), p(h'[..|h'| - 1]));
    }
  }

  lemma {:induction false} PathPrefix(p: Program, h: seq<Val>, n: nat)
    requires Path(p, h) && n < |h|
    ensures !p(h[..n]).Exit?
  {
    if n < |h| - 1 {
      PathPrefix(p, h[..|h| - 1], n);
      assert h[..|h| - 1][..n] == h[..n];
    }
  }

  lemma ObliviousEnd(p: Program, h: seq<Val>, h': seq<Val>)
    requires Oblivious(p) && Path(p, h) && Path(p, h') && p(h).Exit? && p(h').Exit?
    ensures |h| == |h'|
  {
    hide Path;
    if |h| < |h'| {
      PathPrefix(p, h', |h|);
    } else if |h'| < |h| {
      PathPrefix(p, h, |h'|);
    }
  }

  /**
   * Determinism, with any nesting: if no program's control depends on data, any two completed runs
   * acquire at top level in the same order.
   */
  lemma SameOrder(progs: Programs, sched1: seq<nat>, sched2: seq<nat>)
    requires |progs| <= MAXT && forall t :: 0 <= t < |progs| ==> Oblivious(progs[t])
    requires Finished(Exec(progs, Init(progs), sched1)) && Finished(Exec(progs, Init(progs), sched2))
    ensures Exec(progs, Init(progs), sched1).acq == Exec(progs, Init(progs), sched2).acq
  {
    hide Exec, Init, StrictlyAscending, Tops, Depth, Path, AcqOk, GateOk, Oblivious;
    var s1, s2 := Exec(progs, Init(progs), sched1), Exec(progs, Init(progs), sched2);
    AcquiresInOrder(progs, sched1);
    AcquiresInOrder(progs, sched2);
    ExecOrder(progs, sched1);
    ExecOrder(progs, sched2);
    forall t | 0 <= t < |progs| ensures Tops(progs[t], s1.ts[t].past) == Tops(progs[t], s2.ts[t].past) {
      assert ThreadOk(progs[t], s1.ts[t]) && ThreadOk(progs[t], s2.ts[t]);
      ObliviousEnd(progs[t], s1.ts[t].past, s2.ts[t].past);
      ObliviousTops(progs[t], s1.ts[t].past, s2.ts[t].past);
    }
    TurnOrder();
    AscendingUnique(s1.acq, s2.acq, TurnLe);
  }
}
