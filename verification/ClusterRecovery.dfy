/**
 * Replicas that are fed by the fabric, crash at any disk operation, and catch up by state transfer
 * (cluster.rs).
 */
module ClusterRecovery {
  import opened State
  import opened EngineSpec
  import opened Durable
  import opened Recovery
  import opened CrashRuns
  import opened Composition
  import T = TotalOrder

  /** An engine and how much of its delivery sequence its durable history accounts for. */
  datatype Replica = Replica(eng: Sys, pos: nat)

  /** The fabric hands over a message, for the first time or again, or the engine takes a disk step. */
  datatype ReplicaEvent = Feed(p: nat) | OnDisk(e: Event)

  predicate ReplicaEnabled(d: seq<T.Msg>, s: Replica, e: ReplicaEvent) {
    match e
    case Feed(p) => s.eng.phase.Idle? && p < |d| && p <= s.pos
    case OnDisk(x) => Enabled(s.eng, x) && !x.Deliver? && !x.StartImport?
  }

  predicate ReplicaBenign(op: Payload, d: seq<T.Msg>, s: Replica, e: ReplicaEvent) {
    match e
    case Feed(p) => p < |d| ==> RecFits(op(d[p]))
    case OnDisk(x) => Benign(s.eng, x)
  }

  /** A message is accounted for when its append completes or when it proves to be a duplicate. */
  function ReplicaNext(op: Payload, d: seq<T.Msg>, s: Replica, e: ReplicaEvent): Replica
    requires ReplicaEnabled(d, s, e)
  {
    match e
    case Feed(p) =>
      var eng := DeliverStep(s.eng, op(d[p]));
      Replica(eng, if p == s.pos && eng.phase.Idle? then s.pos + 1 else s.pos)
    case OnDisk(x) => Replica(Next(s.eng, x), if x.Append? then s.pos + 1 else s.pos)
  }

  function ReplicaExec(op: Payload, d: seq<T.Msg>, interval: nat, es: seq<ReplicaEvent>): Replica {
    if |es| == 0 then Replica(Init(interval), 0)
    else
      var s := ReplicaExec(op, d, interval, es[..|es| - 1]);
      if ReplicaEnabled(d, s, es[|es| - 1]) then ReplicaNext(op, d, s, es[|es| - 1]) else s
  }

  predicate ReplicaBenignRun(op: Payload, d: seq<T.Msg>, interval: nat, es: seq<ReplicaEvent>) {
    |es| == 0 ||
    (ReplicaBenignRun(op, d, interval, es[..|es| - 1])
     && ReplicaBenign(op, d, ReplicaExec(op, d, interval, es[..|es| - 1]), es[|es| - 1]))
  }

  /** The durable history is what an engine accepts of the first `pos` messages. */
  ghost predicate ReplicaInv(op: Payload, d: seq<T.Msg>, s: Replica) {
    && Inv(s.eng)
    && s.pos <= |d| && s.eng.hist == Taken(Recs(op, d[..s.pos]))
    && (s.eng.phase.Appending? ==> s.pos < |d| && s.eng.phase.r == op(d[s.pos]))
    && (s.eng.phase.Saving? ==> s.eng.phase.target == s.eng.hist)
  }

  lemma TakenNext(op: Payload, d: seq<T.Msg>, n: nat)
    requires n < |d|
    ensures Taken(Recs(op, d[..n + 1])) ==
      if Accepts(Replay(EMPTY, Taken(Recs(op, d[..n]))), op(d[n]).op) then Taken(Recs(op, d[..n])) + [op(d[n])]
      else Taken(Recs(op, d[..n]))
  {
    hide Replay, Accepts;
    assert Recs(op, d[..n + 1])[..n] == Recs(op, d[..n]);
    TakenReplays(Recs(op, d[..n]));
  }

  /** A message that was accounted for before is recognised as a duplicate. */
  lemma OldIsKnown(op: Payload, d: seq<T.Msg>, n: nat, p: nat)
    requires p < n <= |d|
    ensures !Accepts(Replay(EMPTY, Taken(Recs(op, d[..n]))), op(d[p]).op)
  {
    hide Replay, Accepts, Taken;
    var rs := Recs(op, d[..n]);
    TakenReplays(rs);
    ReplayCovers(EMPTY, rs);
    assert rs[p] == op(d[p]);
  }

  lemma FeedKeeps(op: Payload, d: seq<T.Msg>, s: Replica, p: nat)
    requires ReplicaInv(op, d, s) && ReplicaEnabled(d, s, Feed(p)) && RecFits(op(d[p]))
    ensures ReplicaInv(op, d, ReplicaNext(op, d, s, Feed(p)))
  {
    hide Holds, AllNew, Replay, Step, RecFits, Accepts, Taken, ApplyOp, AnswersOk;
    DeliverKeeps(s.eng, op(d[p]));
    if p < s.pos { OldIsKnown(op, d, s.pos, p); } else { TakenNext(op, d, p); }
  }

  lemma OnDiskKeeps(op: Payload, d: seq<T.Msg>, s: Replica, e: Event)
    requires ReplicaInv(op, d, s) && ReplicaEnabled(d, s, OnDisk(e)) && Benign(s.eng, e)
    ensures ReplicaInv(op, d, ReplicaNext(op, d, s, OnDisk(e)))
  {
    hide Holds, AllNew, Replay, RecFits, Accepts, Taken, AnswersOk, Answered, VolBytes, RawBytes, VolFits, RecsFit;
    NextKeeps(s.eng, e);
    if e.Append? { TakenNext(op, d, s.pos); }
  }

  lemma {:induction false} ReplicaKeeps(op: Payload, d: seq<T.Msg>, interval: nat, es: seq<ReplicaEvent>)
    requires ReplicaBenignRun(op, d, interval, es)
    ensures ReplicaInv(op, d, ReplicaExec(op, d, interval, es))
  {
    hide ReplicaInv, Benign, RecFits, Next, DeliverStep;
    if |es| == 0 {
      StartKeeps(op, d, interval);
    } else {
      var n := |es| - 1;
      ReplicaKeeps(op, d, interval, es[..n]);
      var s := ReplicaExec(op, d, interval, es[..n]);
      if ReplicaEnabled(d, s, es[n]) {
        match es[n]
        case Feed(p) => FeedKeeps(op, d, s, p);
        case OnDisk(e) => OnDiskKeeps(op, d, s, e);
      }
    }
  }

  lemma StartKeeps(op: Payload, d: seq<T.Msg>, interval: nat)
    ensures ReplicaInv(op, d, Replica(Init(interval), 0))
  {
    hide Inv;
    InitOk(interval);
    assert d[..0] == [];
  }

  // ------------------------------------------------------------------------ main results

  /** Whatever it was fed and wherever it crashed, a replica's history is what is accepted of some prefix. */
  lemma HistoryIsTaken(op: Payload, d: seq<T.Msg>, interval: nat, es: seq<ReplicaEvent>)
    requires ReplicaBenignRun(op, d, interval, es)
    ensures var s := ReplicaExec(op, d, interval, es);
      && s.pos <= |d| && s.eng.hist == Taken(Recs(op, d[..s.pos]))
      && Recovered(s.eng.disk) == Replay(EMPTY, Recs(op, d[..s.pos]))
  {
    hide ReplicaExec, ReplicaBenignRun, Taken, Replay, Recovered, AllNew, Holds;
    ReplicaKeeps(op, d, interval, es);
    var s := ReplicaExec(op, d, interval, es);
    RecoversHistory(s.eng.disk, s.eng.hist, s.eng.cut, s.eng.stale, s.eng.torn);
    TakenReplays(Recs(op, d[..s.pos]));
  }

  /** Two replicas behind any two receivers of one fabric run. */
  datatype Pair = Pair(procs: set<nat>, net: seq<T.Event>, op: Payload, r1: nat, r2: nat,
                       i1: nat, es1: seq<ReplicaEvent>, i2: nat, es2: seq<ReplicaEvent>)
  {
    function D1(): seq<T.Msg> { T.Exec(procs, net).Delivered(r1) }
    function D2(): seq<T.Msg> { T.Exec(procs, net).Delivered(r2) }
    function Victim(): Replica { ReplicaExec(op, D1(), i1, es1) }
    function Survivor(): Replica { ReplicaExec(op, D2(), i2, es2) }
    predicate Benign() {
      r1 in procs && r2 in procs && ReplicaBenignRun(op, D1(), i1, es1) && ReplicaBenignRun(op, D2(), i2, es2)
    }
  }

  /** The replica that is behind has a durable history that the other one extends. */
  lemma SurvivorExtendsVictim(w: Pair)
    requires w.Benign() && w.Victim().pos <= w.Survivor().pos
    ensures w.Victim().eng.hist <= w.Survivor().eng.hist
  {
    hide ReplicaExec, ReplicaBenignRun, Taken, Replay, Recovered, T.Exec, Inv;
    ReplicaKeeps(w.op, w.D1(), w.i1, w.es1);
    ReplicaKeeps(w.op, w.D2(), w.i2, w.es2);
    TakenOrdered(w.procs, w.net, w.op, w.r1, w.r2, w.Victim().pos, w.Survivor().pos);
  }

  /**
   * A recovered victim that imports a survivor's state ends in exactly that state; a crash anywhere
   * inside the transfer leaves the victim's own prefix or the survivor's whole state.
   */
  lemma VictimCatchesUp(w: Pair, es: seq<Event>)
    requires w.Benign() && w.Victim().pos <= w.Survivor().pos
    requires w.Victim().eng.phase.Idle? && w.Survivor().eng.phase.Idle? && VolFits(w.Survivor().eng.vol)
    requires forall e :: e in es ==> SaveEvent(e)
    ensures var v, p := w.Victim().eng, w.Survivor().eng;
      var t := Exec(ImportStep(v, p.hist), es);
      && VolBytes(p.vol) == VolBytes(Replay(EMPTY, p.hist))
      && (Recovered(t.disk) == v.vol || Recovered(t.disk) == p.vol)
      && (t.phase.Idle? ==> t.vol == p.vol && Recovered(t.disk) == p.vol)
  {
    hide ReplicaExec, ReplicaBenignRun, Taken, Replay, Recovered, T.Exec, Exec, ImportStep, AllNew, VolFits, SaveEvent,
      VolBytes, Holds, AnswersOk;
    var v, p := w.Victim().eng, w.Survivor().eng;
    ReplicaKeeps(w.op, w.D1(), w.i1, w.es1);
    ReplicaKeeps(w.op, w.D2(), w.i2, w.es2);
    SurvivorExtendsVictim(w);
    HistoryFits(p);
    ImportAtomic(v, p.hist, es);
  }

  // -------------------------------------------------------------------- replicas make progress

  lemma ReplicaSnoc(op: Payload, d: seq<T.Msg>, interval: nat, es: seq<ReplicaEvent>, e: ReplicaEvent)
    requires ReplicaEnabled(d, ReplicaExec(op, d, interval, es), e)
    ensures ReplicaExec(op, d, interval, es + [e]) == ReplicaNext(op, d, ReplicaExec(op, d, interval, es), e)
  {
    assert (es + [e])[..|es|] == es;
  }

  /** The snapshot that a full window starts comes to its end. */
  lemma SaveEnds(op: Payload, d: seq<T.Msg>, interval: nat, es: seq<ReplicaEvent>) returns (more: seq<ReplicaEvent>)
    requires var p := ReplicaExec(op, d, interval, es).eng.phase; p.Saving? && p.stage.Begun?
    ensures var a, b := ReplicaExec(op, d, interval, es), ReplicaExec(op, d, interval, es + more);
      b.eng.phase.Idle? && b.pos == a.pos && b.eng.vol == a.eng.vol
  {
    hide ReplicaExec;
    var s := ReplicaExec(op, d, interval, es);
    var n := |s.eng.phase.bytes|;
    var e1 := es + [OnDisk(WriteTmp(n))];
    var e2 := e1 + [OnDisk(Rename)];
    ReplicaSnoc(op, d, interval, es, OnDisk(WriteTmp(n)));
    ReplicaSnoc(op, d, interval, e1, OnDisk(Rename));
    ReplicaSnoc(op, d, interval, e2, OnDisk(RemoveLog(true)));
    more := [OnDisk(WriteTmp(n)), OnDisk(Rename), OnDisk(RemoveLog(true))];
    assert es + more == e2 + [OnDisk(RemoveLog(true))];
  }

  /** An idle replica can always take its next message, and is idle again afterwards. */
  lemma NextMessage(op: Payload, d: seq<T.Msg>, interval: nat, es: seq<ReplicaEvent>) returns (more: seq<ReplicaEvent>)
    requires var s := ReplicaExec(op, d, interval, es); s.eng.phase.Idle? && s.pos < |d|
    ensures var a, b := ReplicaExec(op, d, interval, es), ReplicaExec(op, d, interval, es + more);
      b.eng.phase.Idle? && b.pos == a.pos + 1 && b.eng.vol == Step(a.eng.vol, op(d[a.pos]))
  {
    hide ReplicaExec, Accepts, ApplyOp, VolBytes, RawBytes;
    var s := ReplicaExec(op, d, interval, es);
    var e1 := es + [Feed(s.pos)];
    ReplicaSnoc(op, d, interval, es, Feed(s.pos));
    if !Accepts(s.eng.vol, op(d[s.pos]).op) {
      more := [Feed(s.pos)];
    } else {
      var e2 := e1 + [OnDisk(Append)];
      ReplicaSnoc(op, d, interval, e1, OnDisk(Append));
      if ReplicaExec(op, d, interval, e2).eng.phase.Idle? {
        more := [Feed(s.pos), OnDisk(Append)];
        assert es + more == e2;
      } else {
        var rest := SaveEnds(op, d, interval, e2);
        more := [Feed(s.pos), OnDisk(Append)] + rest;
        assert es + more == e2 + rest;
      }
    }
  }
}
