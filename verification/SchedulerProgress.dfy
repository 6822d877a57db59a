/** No interleaving of the scheduler can get stuck, for programs that lock in rank order. */
module SchedulerProgress {
  import opened Scheduler

  type Rank = Mutex -> nat

  /** The mutexes a program holds after the steps of `h`. */
  function Held(p: Program, h: seq<Val>): set<Mutex> {
    if |h| == 0 then {}
    else
      var held, i := Held(p, h[..|h| - 1]), p(h[..|h| - 1]);
      if i.Lock? then held + {i.m} else if i.Unlock? then held - {i.m} else held
  }

  predicate InstrOk(p: Program, rank: Rank, h: seq<Val>) {
    match p(h)
    case Lock(m) => forall x :: x in Held(p, h) ==> rank(x) < rank(m)
    case Unlock(m, _) => m in Held(p, h)
    case Exit => Held(p, h) == {}
  }

  /** Whatever it reads, it locks in ascending rank, unlocks what it holds, and holds nothing at the end. */
  ghost predicate WellLocked(p: Program, rank: Rank) {
    forall h: seq<Val> :: Path(p, h) ==> InstrOk(p, rank, h)
  }

  ghost predicate AllWellLocked(progs: Programs, rank: Rank) {
    forall t :: 0 <= t < |progs| ==> WellLocked(progs[t], rank)
  }

  /** Whatever it reads, it ends within `n` steps. */
  ghost predicate Ends(p: Program, n: nat) { forall h: seq<Val> :: Path(p, h) ==> |h| <= n }

  ghost predicate AllEnd(progs: Programs, sizes: seq<nat>) {
    |sizes| == |progs| && forall t :: 0 <= t < |progs| ==> Ends(progs[t], sizes[t])
  }

  lemma HeldSnoc(p: Program, h: seq<Val>, v: Val)
    ensures Held(p, h + [v]) ==
      if p(h).Lock? then Held(p, h) + {p(h).m} else if p(h).Unlock? then Held(p, h) - {p(h).m} else Held(p, h)
  {
    assert (h + [v])[..|h|] == h;
  }

  lemma {:induction false} DepthIsHeld(p: Program, rank: Rank, h: seq<Val>)
    requires WellLocked(p, rank) && Path(p, h)
    ensures Depth(p, h) == |Held(p, h)|
  {
    if |h| > 0 {
      DepthIsHeld(p, rank, h[..|h| - 1]);
      assert InstrOk(p, rank, h[..|h| - 1]);
    }
  }

  // ------------------------------------------------------------------- ownership

  function HeldNow(p: Program, th: Thread): set<Mutex> {
    Held(p, th.past) + if th.pc.Acquired? && p(th.past).Lock? then {p(th.past).m} else {}
  }

  /** The real mutexes are held by exactly the threads whose programs hold them. */
  ghost predicate OwnInv(progs: Programs, s: Sys) {
    && |s.ts| == |progs|
    && (forall m :: m in s.owner ==> s.owner[m] < |s.ts| && m in HeldNow(progs[s.owner[m]], s.ts[s.owner[m]]))
    && (forall t, m :: 0 <= t < |s.ts| && m in HeldNow(progs[t], s.ts[t]) ==> m in s.owner && s.owner[m] == t)
  }

  lemma OwnKept(progs: Programs, s: Sys, s': Sys, u: nat)
    requires OwnInv(progs, s) && u < |s.ts| && |s'.ts| == |s.ts| && s'.owner == s.owner
    requires forall k :: 0 <= k < |s.ts| && k != u ==> s'.ts[k] == s.ts[k]
    requires HeldNow(progs[u], s'.ts[u]) == HeldNow(progs[u], s.ts[u])
    ensures OwnInv(progs, s')
  {
    hide HeldNow;
  }

  lemma OwnTaken(progs: Programs, s: Sys, s': Sys, u: nat, m: Mutex)
    requires OwnInv(progs, s) && u < |s.ts| && |s'.ts| == |s.ts| && m !in s.owner && s'.owner == s.owner[m := u]
    requires forall k :: 0 <= k < |s.ts| && k != u ==> s'.ts[k] == s.ts[k]
    requires HeldNow(progs[u], s'.ts[u]) == HeldNow(progs[u], s.ts[u]) + {m}
    ensures OwnInv(progs, s')
  {
    hide HeldNow;
    forall x | x in s'.owner
      ensures s'.owner[x] < |s'.ts| && x in HeldNow(progs[s'.owner[x]], s'.ts[s'.owner[x]])
    {
      if x != m { assert x in HeldNow(progs[s.owner[x]], s.ts[s.owner[x]]); }
    }
    forall t, x | 0 <= t < |s'.ts| && x in HeldNow(progs[t], s'.ts[t]) ensures x in s'.owner && s'.owner[x] == t {
      assert x in HeldNow(progs[t], s.ts[t]) || (t == u && x == m);
    }
  }

  lemma OwnReleased(progs: Programs, s: Sys, s': Sys, u: nat, m: Mutex)
    requires OwnInv(progs, s) && u < |s.ts| && |s'.ts| == |s.ts| && s'.owner == s.owner - {m}
    requires m in HeldNow(progs[u], s.ts[u])
    requires forall k :: 0 <= k < |s.ts| && k != u ==> s'.ts[k] == s.ts[k]
    requires HeldNow(progs[u], s'.ts[u]) == HeldNow(progs[u], s.ts[u]) - {m}
    ensures OwnInv(progs, s')
  {
    hide HeldNow;
    assert m in s.owner && s.owner[m] == u;
    forall x | x in s'.owner
      ensures s'.owner[x] < |s'.ts| && x in HeldNow(progs[s'.owner[x]], s'.ts[s'.owner[x]])
    {
      assert x in s.owner && x != m && x in HeldNow(progs[s.owner[x]], s.ts[s.owner[x]]);
    }
    forall t, x | 0 <= t < |s'.ts| && x in HeldNow(progs[t], s'.ts[t]) ensures x in s'.owner && s'.owner[x] == t {
      assert x in HeldNow(progs[t], s.ts[t]);
    }
  }

  lemma InstrOwns(progs: Programs, rank: Rank, s: Sys, t: nat)
    requires OwnInv(progs, s) && AllWellLocked(progs, rank) && t < |s.ts| == |progs| && s.ts[t].pc.Ready?
    requires Path(progs[t], s.ts[t].past)
    ensures OwnInv(progs, InstrStep(s, t, progs[t](s.ts[t].past)))
  {
    hide OwnInv, Held;
    var th, p := s.ts[t], progs[t];
    assert WellLocked(p, rank) && InstrOk(p, rank, th.past);
    var s' := InstrStep(s, t, p(th.past));
    match p(th.past)
    case Exit => OwnKept(progs, s, s', t);
    case Unlock(m, w) =>
      HeldSnoc(p, th.past, w);
      OwnReleased(progs, s, s', t, m);
    case Lock(m) =>
      HeldSnoc(p, th.past, s.Data(m));
      if th.depth == 0 { OwnKept(progs, s, s', t); }
      else if m !in s.owner { OwnTaken(progs, s, s', t, m); }
  }

  lemma StepOwns(progs: Programs, rank: Rank, s: Sys, t: nat)
    requires OrderInv(progs, s) && OwnInv(progs, s) && AllWellLocked(progs, rank)
    ensures OwnInv(progs, Step(progs, s, t))
  {
    hide OwnInv, AllWellLocked, GateOk, AcqOk, InstrStep, Tops, Depth, Path, Held;
    if t < |s.ts| && t < |progs| {
      var s' := Step(progs, s, t);
      assert ThreadOk(progs[t], s.ts[t]);
      match s.ts[t].pc
      case Done =>
      case Ready => InstrOwns(progs, rank, s, t);
      case Scan(_, _, _) => OwnKept(progs, s, s', t);
      case Passed =>
        var m := progs[t](s.ts[t].past).m;
        if m !in s.owner { OwnTaken(progs, s, s', t, m); }
      case Acquired(v) =>
        HeldSnoc(progs[t], s.ts[t].past, v);
        OwnKept(progs, s, s', t);
    }
  }

  ghost predicate Good(progs: Programs, rank: Rank, s: Sys) {
    OrderInv(progs, s) && OwnInv(progs, s) && AllWellLocked(progs, rank)
  }

  lemma {:induction false} ExecGood(progs: Programs, rank: Rank, s: Sys, sched: seq<nat>)
    requires Good(progs, rank, s)
    ensures Good(progs, rank, Exec(progs, s, sched))
  {
    hide OrderInv, OwnInv, AllWellLocked, Step;
    if |sched| > 0 {
      var n := |sched| - 1;
      ExecGood(progs, rank, s, sched[..n]);
      StepKeeps(progs, Exec(progs, s, sched[..n]), sched[n]);
      StepOwns(progs, rank, Exec(progs, s, sched[..n]), sched[n]);
    }
  }

  lemma {:induction false} ExecConcat(progs: Programs, s: Sys, a: seq<nat>, b: seq<nat>)
    ensures Exec(progs, s, a + b) == Exec(progs, Exec(progs, s, a), b)
  {
    hide Step;
    if |b| == 0 {
      assert a + b == a;
    } else {
      assert (a + b)[..|a + b| - 1] == a + b[..|b| - 1];
      ExecConcat(progs, s, a, b[..|b| - 1]);
    }
  }

  lemma ExecOne(progs: Programs, s: Sys, t: nat)
    ensures Exec(progs, s, [t]) == Step(progs, s, t)
  {
    hide Step;
    assert [t][..0] == [];
    assert Exec(progs, s, []) == s;
  }

  // ------------------------------------------------------------- the work that is left

  /** Three moves per instruction (gate, lock, advance) and one to exit. */
  function Left(n: nat, th: Thread): nat {
    if th.pc.Done? then 0
    else if |th.past| >= n then 1
    else 1 + 3 * (n - |th.past|) - (if th.pc.Passed? then 1 else if th.pc.Acquired? then 2 else 0)
  }

  function Work(sizes: seq<nat>, ts: seq<Thread>, k: nat): nat
    requires k <= |ts| && k <= |sizes|
  {
    if k == 0 then 0 else Work(sizes, ts, k - 1) + Left(sizes[k - 1], ts[k - 1])
  }

  lemma {:induction false} WorkDrops(sizes: seq<nat>, ts: seq<Thread>, ts': seq<Thread>, u: nat, k: nat)
    requires |ts| == |ts'| == |sizes| && u < |ts| && k <= |ts|
    requires forall i :: 0 <= i < |ts| && i != u ==> ts'[i] == ts[i]
    requires Left(sizes[u], ts'[u]) < Left(sizes[u], ts[u])
    ensures u < k ==> Work(sizes, ts', k) < Work(sizes, ts, k)
    ensures u >= k ==> Work(sizes, ts', k) == Work(sizes, ts, k)
  {
    hide Left;
    if k > 0 { WorkDrops(sizes, ts, ts', u, k - 1); }
  }

  predicate Progresses(sizes: seq<nat>, s: Sys, s': Sys) {
    |s.ts| == |s'.ts| == |sizes| && Work(sizes, s'.ts, |sizes|) < Work(sizes, s.ts, |sizes|)
  }

  /** Thread `t` can move, and its move reduces its own remaining work and touches no other thread. */
  predicate Reduces(progs: Programs, sizes: seq<nat>, s: Sys, t: nat)
    requires t < |s.ts| == |progs| == |sizes|
  {
    var s' := Step(progs, s, t);
    && |s'.ts| == |s.ts| && (forall i :: 0 <= i < |s.ts| && i != t ==> s'.ts[i] == s.ts[i])
    && Left(sizes[t], s'.ts[t]) < Left(sizes[t], s.ts[t])
  }

  /** A program that has not exited is not at the end of its size. */
  lemma NotYetEnded(p: Program, n: nat, h: seq<Val>)
    requires Ends(p, n) && Path(p, h) && !p(h).Exit?
    ensures |h| < n
  {
    hide Path;
    PathSnoc(p, h, 0);
    assert |h + [0]| <= n;
  }

  /** Advancing, exiting, unlocking and taking a free mutex are always moves. */
  lemma ReadyReduces(progs: Programs, sizes: seq<nat>, s: Sys, t: nat)
    requires t < |s.ts| == |progs| && AllEnd(progs, sizes) && ThreadOk(progs[t], s.ts[t])
    requires s.ts[t].pc.Acquired? || (s.ts[t].pc.Ready? && !progs[t](s.ts[t].past).Lock?)
    ensures Reduces(progs, sizes, s, t)
  {
    hide Tops, Depth, Path, Ends;
    var p, h := progs[t], s.ts[t].past;
    assert Ends(p, sizes[t]);
    if !p(h).Exit? { NotYetEnded(p, sizes[t], h); }
  }

  lemma FreeReduces(progs: Programs, sizes: seq<nat>, s: Sys, t: nat)
    requires t < |s.ts| == |progs| && AllEnd(progs, sizes) && ThreadOk(progs[t], s.ts[t])
    requires Waits(progs, s, t) && progs[t](s.ts[t].past).m !in s.owner
    ensures Reduces(progs, sizes, s, t)
  {
    hide Tops, Depth, Path, Ends;
    assert Ends(progs[t], sizes[t]);
    NotYetEnded(progs[t], sizes[t], s.ts[t].past);
  }

  /** A step of thread `t` that reduces its own remaining work. */
  lemma OneStep(progs: Programs, sizes: seq<nat>, s: Sys, t: nat) returns (sched: seq<nat>)
    requires |sizes| == |progs| && OrderInv(progs, s) && t < |s.ts| && Reduces(progs, sizes, s, t)
    ensures Progresses(sizes, s, Exec(progs, s, sched))
  {
    hide Left, AcqOk, GateOk, ThreadOk;
    sched := [t];
    ExecOne(progs, s, t);
    WorkDrops(sizes, s.ts, Step(progs, s, t).ts, t, |progs|);
  }

  // -------------------------------------------------------------- who can move

  predicate Waits(progs: Programs, s: Sys, t: nat)
    requires t < |s.ts| && t < |progs|
  {
    var th := s.ts[t];
    progs[t](th.past).Lock? && (th.pc.Passed? || (th.pc.Ready? && th.depth > 0))
  }

  /** A mutex somebody holds belongs to a thread that can unlock, or that waits for a higher rank. */
  lemma OwnerMoves(progs: Programs, rank: Rank, s: Sys, m: Mutex)
    requires Good(progs, rank, s) && m in s.owner
    requires forall t :: 0 <= t < |s.ts| ==> !s.ts[t].pc.Acquired?
    ensures var o := s.owner[m];
      && o < |s.ts| && s.ts[o].pc.Ready? && s.ts[o].depth > 0 && !progs[o](s.ts[o].past).Exit?
      && (progs[o](s.ts[o].past).Lock? ==> rank(m) < rank(progs[o](s.ts[o].past).m))
  {
    hide AcqOk, GateOk, Tops, Depth, Path, Held;
    var o := s.owner[m];
    var th, p := s.ts[o], progs[o];
    assert ThreadOk(p, th) && WellLocked(p, rank);
    assert m in Held(p, th.past);
    DepthIsHeld(p, rank, th.past);
    assert th.depth > 0;
    assert InstrOk(p, rank, th.past);
  }

  /** Along a chain of waiting threads the wanted ranks grow, so the chain ends in one that can move. */
  lemma {:induction false} Unblock(progs: Programs, sizes: seq<nat>, rank: Rank, s: Sys, t: nat)
    returns (sched: seq<nat>)
    requires Good(progs, rank, s) && AllEnd(progs, sizes) && t < |s.ts| && Waits(progs, s, t)
    requires forall u :: 0 <= u < |s.ts| ==> !s.ts[u].pc.Acquired?
    ensures Progresses(sizes, s, Exec(progs, s, sched))
    decreases |Above(s, rank, rank(progs[t](s.ts[t].past).m))|
  {
    hide AcqOk, GateOk, Tops, Depth, Path, AllWellLocked, OwnInv, Exec, Reduces, Ends;
    var m := progs[t](s.ts[t].past).m;
    assert ThreadOk(progs[t], s.ts[t]);
    if m !in s.owner {
      FreeReduces(progs, sizes, s, t);
      sched := OneStep(progs, sizes, s, t);
    } else {
      OwnerMoves(progs, rank, s, m);
      var o := s.owner[m];
      assert ThreadOk(progs[o], s.ts[o]);
      if progs[o](s.ts[o].past).Unlock? {
        ReadyReduces(progs, sizes, s, o);
        sched := OneStep(progs, sizes, s, o);
      } else {
        AboveShrinks(s, rank, m, progs[o](s.ts[o].past).m);
        sched := Unblock(progs, sizes, rank, s, o);
      }
    }
  }

  /** Held mutexes of rank at least `r`. */
  function Above(s: Sys, rank: Rank, r: nat): set<Mutex> { set x | x in s.owner && rank(x) >= r }

  lemma AboveShrinks(s: Sys, rank: Rank, m: Mutex, m2: Mutex)
    requires m in s.owner && rank(m) < rank(m2)
    ensures |Above(s, rank, rank(m2))| < |Above(s, rank, rank(m))|
  {
    var a, b := Above(s, rank, rank(m2)), Above(s, rank, rank(m));
    assert a <= b - {m};
    SubsetSize(a, b - {m});
  }

  lemma {:induction false} SubsetSize(a: set<Mutex>, b: set<Mutex>)
    requires a <= b
    ensures |a| <= |b|
    decreases |a|
  {
    if a != {} {
      var x :| x in a;
      SubsetSize(a - {x}, b - {x});
    }
  }

  /** The flag a scan has loaded is still true of the slot it is at. */
  predicate FlagFresh(s: Sys, t: nat)
    requires t < |s.ts| && s.ts[t].pc.Scan?
  {
    s.ts[t].pc.seen && s.ts[t].pc.i < |s.ts| ==> !s.ts[s.ts[t].pc.i].pc.Done?
  }

  /** Thread `t`, whose turn precedes all others', reads slot after slot and passes the gate. */
  lemma {:induction false} ScanThrough(progs: Programs, s: Sys, t: nat) returns (sched: seq<nat>)
    requires OrderInv(progs, s) && t < |s.ts| && s.ts[t].pc.Scan? && Cleared(s, t, |s.ts|) && FlagFresh(s, t)
    ensures Exec(progs, s, sched) == Put(s, t, s.ts[t].(pc := Passed))
    decreases if s.ts[t].pc.i >= |s.ts| then 0 else 1 + 2 * (|s.ts| - s.ts[t].pc.i) - (if s.ts[t].pc.seen then 1 else 0)
  {
    hide AcqOk, ThreadOk, Exec;
    assert GateOk(s, t);
    ExecOne(progs, s, t);
    var i := s.ts[t].pc.i;
    if i >= |s.ts| {
      sched := [t];
    } else {
      var s' := ScanStep(s, t);
      assert i != t ==> Later(s, i, t);
      ScanKeeps(progs, s, t);
      ClearedKept(s, s', t);
      var rest := ScanThrough(progs, s', t);
      sched := [t] + rest;
      ExecConcat(progs, s, [t], rest);
    }
  }

  lemma ClearedKept(s: Sys, s': Sys, t: nat)
    requires t < |s.ts| && Cleared(s, t, |s.ts|) && |s'.ts| == |s.ts| && s'.ts[t].lc == s.ts[t].lc
    requires forall j :: 0 <= j < |s.ts| && j != t ==> s'.ts[j] == s.ts[j]
    ensures Cleared(s', t, |s'.ts|)
  {
    forall j | 0 <= j < |s.ts| && j != t ensures Later(s', j, t) { assert Later(s, j, t); }
  }

  /** From the start of a gated lock to past the gate. */
  lemma PassFromReady(progs: Programs, s: Sys, t: nat) returns (sched: seq<nat>)
    requires OrderInv(progs, s) && t < |s.ts| && AtGate(progs, s, t) && s.ts[t].pc.Ready? && Cleared(s, t, |s.ts|)
    ensures Exec(progs, s, sched) == Put(s, t, s.ts[t].(pc := Passed))
  {
    hide AcqOk, GateOk, Exec, ThreadOk;
    var s1 := Step(progs, s, t);
    ExecOne(progs, s, t);
    StepKeeps(progs, s, t);
    ClearedKept(s, s1, t);
    var rest := ScanThrough(progs, s1, t);
    ExecConcat(progs, s, [t], rest);
    sched := [t] + rest;
  }

  /** From the middle of a scan: a flag that went stale sends the thread round the spin loop once. */
  lemma PassFromScan(progs: Programs, s: Sys, t: nat) returns (sched: seq<nat>)
    requires OrderInv(progs, s) && t < |s.ts| && AtGate(progs, s, t) && s.ts[t].pc.Scan? && Cleared(s, t, |s.ts|)
    ensures Exec(progs, s, sched) == Put(s, t, s.ts[t].(pc := Passed))
  {
    hide AcqOk, GateOk, Exec, Tops, Depth, Path;
    if FlagFresh(s, t) {
      sched := ScanThrough(progs, s, t);
    } else {
      var s1 := Step(progs, s, t);
      ExecOne(progs, s, t);
      StepKeeps(progs, s, t);
      ClearedKept(s, s1, t);
      assert ThreadOk(progs[t], s.ts[t]);
      var rest;
      if s1.ts[t].pc.Scan? { rest := ScanThrough(progs, s1, t); } else { rest := PassFromReady(progs, s1, t); }
      ExecConcat(progs, s, [t], rest);
      sched := [t] + rest;
    }
  }

  /** The unfinished thread with the least turn among the first `k`. */
  lemma {:induction false} LeastTurn(s: Sys, k: nat) returns (t: nat)
    requires k <= |s.ts| && exists u :: 0 <= u < k && !s.ts[u].pc.Done?
    ensures t < k && !s.ts[t].pc.Done? && forall j :: 0 <= j < k && j != t ==> Later(s, j, t)
    decreases k
  {
    if exists u :: 0 <= u < k - 1 && !s.ts[u].pc.Done? {
      var t0 := LeastTurn(s, k - 1);
      t := if !s.ts[k - 1].pc.Done? && TurnLt(TurnOf(s, k - 1), TurnOf(s, t0)) then k - 1 else t0;
      forall j | 0 <= j < k && j != t ensures Later(s, j, t) {
        if j < k - 1 && j != t0 { assert Later(s, j, t0); }
      }
    } else {
      t := k - 1;
      assert forall j :: 0 <= j < k - 1 ==> s.ts[j].pc.Done?;
    }
  }

  /** When every unfinished thread is at the gate, the one with the least turn gets through it. */
  lemma PassGate(progs: Programs, sizes: seq<nat>, s: Sys) returns (sched: seq<nat>)
    requires OrderInv(progs, s) && AllEnd(progs, sizes) && !Finished(s)
    requires forall t :: 0 <= t < |s.ts| ==> AtGate(progs, s, t) || s.ts[t].pc.Done?
    ensures Progresses(sizes, s, Exec(progs, s, sched))
  {
    hide AcqOk, GateOk, Exec, Later, Tops, Depth, Path, Ends;
    assert exists u :: 0 <= u < |s.ts| && !s.ts[u].pc.Done?;
    var t := LeastTurn(s, |s.ts|);
    assert AtGate(progs, s, t) && ThreadOk(progs[t], s.ts[t]) && Ends(progs[t], sizes[t]);
    NotYetEnded(progs[t], sizes[t], s.ts[t].past);
    if s.ts[t].pc.Scan? { sched := PassFromScan(progs, s, t); } else { sched := PassFromReady(progs, s, t); }
    WorkDrops(sizes, s.ts, s.ts[t := s.ts[t].(pc := Passed)], t, |progs|);
  }

  predicate AtGate(progs: Programs, s: Sys, t: nat)
    requires t < |s.ts|
  {
    t < |progs| && progs[t](s.ts[t].past).Lock? && (s.ts[t].pc.Scan? || (s.ts[t].pc.Ready? && s.ts[t].depth == 0))
  }

  /** While any thread is unfinished, some continuation leaves less work to do. */
  lemma SomeoneMoves(progs: Programs, sizes: seq<nat>, rank: Rank, s: Sys) returns (sched: seq<nat>)
    requires Good(progs, rank, s) && AllEnd(progs, sizes) && !Finished(s)
    ensures Progresses(sizes, s, Exec(progs, s, sched))
  {
    hide AcqOk, GateOk, Exec, Tops, Depth, Path, OwnInv, AllWellLocked, Reduces, AllEnd;
    if t :| 0 <= t < |s.ts| && s.ts[t].pc.Acquired? {
      assert ThreadOk(progs[t], s.ts[t]);
      Move(progs, sizes, s, t);
      sched := OneStep(progs, sizes, s, t);
    } else if t :| 0 <= t < |s.ts| && Waits(progs, s, t) {
      sched := Unblock(progs, sizes, rank, s, t);
    } else if t :| 0 <= t < |s.ts| && s.ts[t].pc.Ready? && !progs[t](s.ts[t].past).Lock? {
      assert ThreadOk(progs[t], s.ts[t]);
      Move(progs, sizes, s, t);
      sched := OneStep(progs, sizes, s, t);
    } else {
      forall t | 0 <= t < |s.ts| && !s.ts[t].pc.Done? ensures AtGate(progs, s, t) {
        assert ThreadOk(progs[t], s.ts[t]) && !Waits(progs, s, t);
      }
      sched := PassGate(progs, sizes, s);
    }
  }

  lemma Move(progs: Programs, sizes: seq<nat>, s: Sys, t: nat)
    requires t < |s.ts| == |progs| && AllEnd(progs, sizes) && ThreadOk(progs[t], s.ts[t])
    requires s.ts[t].pc.Acquired? || (s.ts[t].pc.Ready? && !progs[t](s.ts[t].past).Lock?)
    ensures |sizes| == |progs| && Reduces(progs, sizes, s, t)
  {
    hide ThreadOk, Reduces, Ends;
    ReadyReduces(progs, sizes, s, t);
  }

  lemma {:induction false} RunOut(progs: Programs, sizes: seq<nat>, rank: Rank, s: Sys) returns (sched: seq<nat>)
    requires Good(progs, rank, s) && AllEnd(progs, sizes)
    ensures Finished(Exec(progs, s, sched))
    decreases if |s.ts| == |sizes| then Work(sizes, s.ts, |sizes|) else 0
  {
    hide Exec, Work, Finished, Good, AllEnd;
    if Finished(s) {
      sched := [];
      ExecNone(progs, s);
    } else {
      var a := SomeoneMoves(progs, sizes, rank, s);
      ExecGood(progs, rank, s, a);
      var b := RunOut(progs, sizes, rank, Exec(progs, s, a));
      ExecConcat(progs, s, a, b);
      sched := a + b;
    }
  }

  lemma ExecNone(progs: Programs, s: Sys)
    ensures Exec(progs, s, []) == s
  {}

  /**
   * Deadlock freedom: whatever the operating system has scheduled so far, the run can be completed,
   * for programs that lock in rank order and end whatever they read.
   */
  lemma NeverStuck(progs: Programs, sizes: seq<nat>, rank: Rank, sched: seq<nat>) returns (more: seq<nat>)
    requires |progs| <= MAXT && AllWellLocked(progs, rank) && AllEnd(progs, sizes)
    ensures Finished(Exec(progs, Init(progs), sched + more))
  {
    hide Exec, Finished, AllWellLocked, OrderInv, AllEnd;
    InitOrder(progs);
    InitOwns(progs);
    ExecGood(progs, rank, Init(progs), sched);
    more := RunOut(progs, sizes, rank, Exec(progs, Init(progs), sched));
    ExecConcat(progs, Init(progs), sched, more);
  }

  lemma InitOwns(progs: Programs)
    ensures OwnInv(progs, Init(progs))
  {}
}
