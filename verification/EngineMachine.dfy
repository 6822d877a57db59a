/**
 * The atomic crash machine of OneBarrierEngine.tla, without its bounds and for any store, and the
 * proof that the step-by-step engine refines it.
 */
module EngineMachine {
  import opened EngineSpec
  import opened Durable
  import opened Recovery
  import opened CrashRuns

  /** Live state, acknowledged operations, durable log since the snapshot, durable snapshot. */
  datatype Machine = Machine(live: Vol, acked: seq<Rec>, durLog: seq<Rec>, snap: Vol, crashed: bool)

  const START: Machine := Machine(EMPTY, [], [], EMPTY, false)

  /** `Deliver`, also for operations that skip sequence numbers. */
  predicate MDeliver(a: Machine, b: Machine, r: Rec) {
    && !a.crashed
    && b == if Accepts(a.live, r.op)
            then a.(live := Step(a.live, r), acked := a.acked + [r], durLog := a.durLog + [r])
            else a
  }

  predicate MSnapshot(a: Machine, b: Machine) { !a.crashed && b == a.(snap := a.live, durLog := []) }
  predicate MCrash(a: Machine, b: Machine) { !a.crashed && b == a.(live := EMPTY, crashed := true) }
  predicate MRecover(a: Machine, b: Machine) {
    a.crashed && b == a.(live := Replay(a.snap, a.durLog), crashed := false)
  }

  /** The specification's next-state relation. */
  ghost predicate MNext(a: Machine, b: Machine) {
    (exists r :: MDeliver(a, b, r)) || MSnapshot(a, b) || MCrash(a, b) || MRecover(a, b)
  }

  /**
   * What the specification leaves out, a state transfer: adopt a longer history of the same sequence
   * as live state and snapshot.
   */
  predicate MTransfer(a: Machine, b: Machine, peer: seq<Rec>) {
    && !a.crashed && a.acked <= peer && AllNew(peer)
    && b == Machine(Replay(EMPTY, peer), peer, [], Replay(EMPTY, peer), false)
  }

  /** A step of the specification or, in the extended machine, a state transfer. */
  ghost predicate MStep(a: Machine, b: Machine, transfers: bool) {
    MNext(a, b) || (transfers && exists peer :: MTransfer(a, b, peer))
  }

  /**
   * The four TLA+ invariants for any store: the live state is the acknowledged history applied
   * exactly once, nothing acknowledged is lost, and snapshot plus log always hold all of it.
   */
  ghost predicate MSafe(a: Machine) {
    && AllNew(a.acked)
    && (!a.crashed ==> a.live == Replay(EMPTY, a.acked))
    && exists k :: 0 <= k <= |a.acked| && a.snap == Replay(EMPTY, a.acked[..k]) && a.durLog == a.acked[k..]
  }

  lemma MSafeFrom(a: Machine, k: nat)
    requires AllNew(a.acked) && (!a.crashed ==> a.live == Replay(EMPTY, a.acked))
    requires k <= |a.acked| && a.snap == Replay(EMPTY, a.acked[..k]) && a.durLog == a.acked[k..]
    ensures MSafe(a)
  {}

  lemma DeliverSafe(a: Machine, b: Machine, r: Rec)
    requires MSafe(a) && MDeliver(a, b, r)
    ensures MSafe(b)
  {
    hide Replay, Step, Accepts, AllNew;
    var k :| 0 <= k <= |a.acked| && a.snap == Replay(EMPTY, a.acked[..k]) && a.durLog == a.acked[k..];
    if Accepts(a.live, r.op) {
      ReplaySnoc(EMPTY, a.acked, r);
      AllNewSnoc(a.acked, r);
      assert b.acked[..k] == a.acked[..k] && b.acked[k..] == a.acked[k..] + [r];
      MSafeFrom(b, k);
    }
  }

  lemma TransferSafe(a: Machine, b: Machine, peer: seq<Rec>)
    requires MSafe(a) && MTransfer(a, b, peer)
    ensures MSafe(b)
  {
    hide Replay, AllNew;
    assert peer[..|peer|] == peer && peer[|peer|..] == [];
    MSafeFrom(b, |peer|);
  }

  lemma RecoverSafe(a: Machine, b: Machine)
    requires MSafe(a) && MRecover(a, b)
    ensures MSafe(b)
  {
    hide Replay, AllNew;
    var k :| 0 <= k <= |a.acked| && a.snap == Replay(EMPTY, a.acked[..k]) && a.durLog == a.acked[k..];
    ReplaySplit(EMPTY, a.acked, k);
    hide MSafe;
    MSafeFrom(b, k);
  }

  /** Every step of the machine, extended or not, keeps the invariants. */
  lemma MachineSafe(a: Machine, b: Machine, transfers: bool)
    requires MSafe(a) && MStep(a, b, transfers)
    ensures MSafe(b)
  {
    hide Replay, AllNew, MDeliver, MTransfer, MRecover;
    if r :| MDeliver(a, b, r) {
      DeliverSafe(a, b, r);
    } else if MSnapshot(a, b) {
      assert b.acked[..|b.acked|] == b.acked && b.acked[|b.acked|..] == [];
      MSafeFrom(b, |b.acked|);
    } else if MRecover(a, b) {
      RecoverSafe(a, b);
    } else if peer :| MTransfer(a, b, peer) {
      TransferSafe(a, b, peer);
    }
  }

  /** The machine state an engine state stands for. */
  function Abs(s: Sys): Machine
    requires s.cut <= |s.hist|
  {
    Machine(if s.phase.Down? then EMPTY else Replay(EMPTY, s.hist), s.hist, s.hist[s.cut..],
            Replay(EMPTY, s.hist[..s.cut]), s.phase.Down?)
  }

  /** No state transfer is going on: what is being saved is the engine's own history. */
  predicate OwnSaves(s: Sys) { s.phase.Saving? ==> s.phase.target == s.hist }

  /** The rename of an own snapshot is the specification's atomic `Snapshot`. */
  lemma OwnSnapshotIsSnapshot(s: Sys)
    requires s.phase.Saving? && s.phase.target == s.hist && Enabled(s, Rename) && VolFits(s.vol)
    requires Inv(s)
    ensures s.cut <= |s.hist| && MSnapshot(Abs(s), Abs(RenameStep(s)))
  {
    hide Holds, Replay, AllNew, RecsFit, VolFits, VolBytes;
    HoldsCut(s);
    assert s.hist[..|s.hist|] == s.hist && s.hist[|s.hist|..] == [];
  }

  /** The rename of a peer's state is the extended machine's atomic transfer. */
  lemma RenameIsTransfer(s: Sys)
    requires s.phase.Saving? && Enabled(s, Rename) && VolFits(s.vol)
    requires Inv(s)
    ensures s.cut <= |s.hist| && MTransfer(Abs(s), Abs(RenameStep(s)), s.phase.target)
  {
    hide Holds, Replay, AllNew, RecsFit, VolFits, VolBytes;
    HoldsCut(s);
    var p := s.phase.target;
    assert p[..|p|] == p && p[|p|..] == [];
  }

  lemma AppendIsDeliver(s: Sys)
    requires s.phase.Appending? && s.torn == []
    requires Inv(s)
    ensures s.cut <= |s.hist| && MDeliver(Abs(s), Abs(AppendStep(s)), s.phase.r)
  {
    hide Holds, Replay, Step, Accepts, AllNew, RecFits, VolBytes, RawBytes;
    HoldsCut(s);
    var r := s.phase.r;
    ReplaySnoc(EMPTY, s.hist, r);
    assert (s.hist + [r])[s.cut..] == s.hist[s.cut..] + [r] && (s.hist + [r])[..s.cut] == s.hist[..s.cut];
  }

  lemma RecoverIsRecover(s: Sys)
    requires s.phase.Down? && s.interval > 0
    requires Inv(s)
    ensures s.cut <= |s.hist| && MRecover(Abs(s), Abs(RecoverStep(s)))
  {
    hide Holds, Replay, AllNew, Recovered, Replayed;
    HoldsCut(s);
    ReplaySplit(EMPTY, s.hist, s.cut);
  }

  /**
   * Every engine step is one step of the specification's machine or invisible to it, as long as no
   * state transfer is involved; with transfers it is a step of the extended machine.
   */
  lemma EngineRefinesMachine(s: Sys, e: Event, transfers: bool)
    requires Inv(s) && Enabled(s, e) && Benign(s, e)
    requires transfers || (OwnSaves(s) && !e.StartImport?)
    ensures s.cut <= |s.hist| && Next(s, e).cut <= |Next(s, e).hist|
    ensures Abs(s) == Abs(Next(s, e)) || MStep(Abs(s), Abs(Next(s, e)), transfers)
    ensures OwnSaves(s) && !e.StartImport? ==> OwnSaves(Next(s, e))
  {
    hide Inv, Replay, Step, Accepts, AllNew, RecsFit, RecFits, VolFits, VolBytes, VolOf, RawBytes, Recovered, Replayed;
    HoldsCut(s);
    NextKeeps(s, e);
    HoldsCut(Next(s, e));
    match e
    case Append => AppendIsDeliver(s);
    case Rename =>
      if s.phase.target == s.hist { OwnSnapshotIsSnapshot(s); } else { RenameIsTransfer(s); }
    case Tear(n) => assert MCrash(Abs(s), Abs(Next(s, e)));
    case Crash => assert MCrash(Abs(s), Abs(Next(s, e)));
    case Recover => RecoverIsRecover(s);
    case _ =>
  }

  // -------------------------------------------------------------------- whole runs

  /** A run of the machine from its start, with stuttering. */
  ghost predicate MRun(tr: seq<Machine>, transfers: bool) {
    |tr| > 0 && tr[0] == START && forall i :: 0 <= i < |tr| - 1 ==> Follows(tr, i, transfers)
  }

  ghost predicate Follows(tr: seq<Machine>, i: nat, transfers: bool)
    requires i + 1 < |tr|
  {
    tr[i] == tr[i + 1] || MStep(tr[i], tr[i + 1], transfers)
  }

  lemma StartSafe()
    ensures MSafe(START)
  {
    var none: seq<Rec> := [];
    assert none[..0] == none && none[0..] == none;
    MSafeFrom(START, 0);
  }

  /** The four invariants hold in every state of every run. */
  lemma {:induction false} MachineRunSafe(tr: seq<Machine>, transfers: bool, i: nat)
    requires MRun(tr, transfers) && i < |tr|
    ensures MSafe(tr[i])
  {
    hide MSafe, MStep;
    if i == 0 {
      StartSafe();
    } else {
      MachineRunSafe(tr, transfers, i - 1);
      assert Follows(tr, i - 1, transfers);
      if tr[i] != tr[i - 1] { MachineSafe(tr[i - 1], tr[i], transfers); }
    }
  }

  lemma InitAbstracts(interval: nat)
    ensures Init(interval).cut <= |Init(interval).hist| && Abs(Init(interval)) == START && OwnSaves(Init(interval))
  {
    var none: seq<Rec> := [];
    assert none[..0] == none && none[0..] == none;
  }

  lemma Extend(tr: seq<Machine>, m: Machine, transfers: bool)
    requires MRun(tr, transfers) && (tr[|tr| - 1] == m || MStep(tr[|tr| - 1], m, transfers))
    ensures MRun(tr + [m], transfers)
  {
    hide MStep;
    var tr' := tr + [m];
    forall i | 0 <= i < |tr'| - 1 ensures Follows(tr', i, transfers) {
      if i + 1 < |tr| { assert Follows(tr, i, transfers); }
    }
  }

  predicate NoImports(es: seq<Event>) { forall i :: 0 <= i < |es| ==> !es[i].StartImport? }

  /**
   * Every run of the engine without state transfers, at any grain of crashes, is a run of the atomic
   * machine; with transfers it is a run of the machine extended by them.
   */
  lemma {:induction false} RunRefinesMachine(interval: nat, es: seq<Event>, transfers: bool) returns (tr: seq<Machine>)
    requires BenignRun(Init(interval), es) && (transfers || NoImports(es))
    ensures MRun(tr, transfers) && |tr| == |es| + 1
    ensures var s := Exec(Init(interval), es);
      s.cut <= |s.hist| && tr[|es|] == Abs(s) && (NoImports(es) ==> OwnSaves(s))
  {
    hide MRun, MStep, Abs, Inv, Enabled, Benign, Next, Init, OwnSaves;
    InitAbstracts(interval);
    if |es| == 0 {
      tr := [START];
      StartRuns(transfers);
    } else {
      var n := |es| - 1;
      tr := RunRefinesMachine(interval, es[..n], transfers);
      var s := Exec(Init(interval), es[..n]);
      InitOk(interval);
      RunKeeps(Init(interval), es[..n]);
      if Enabled(s, es[n]) { EngineRefinesMachine(s, es[n], transfers); }
      var m := Abs(Exec(Init(interval), es));
      Extend(tr, m, transfers);
      tr := tr + [m];
    }
  }

  lemma StartRuns(transfers: bool)
    ensures MRun([START], transfers)
  {}
}
