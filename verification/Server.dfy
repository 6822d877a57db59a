/** Client identities and timestamps of the server's executor across restarts (server.rs). */
module Server {
  import opened Bytes
  import opened State
  import opened EngineSpec
  import opened Durable
  import opened Recovery
  import opened CrashRuns

  /** The engine, the executor's clock, the process-wide tick, the next connection id, the live connections. */
  datatype Srv = Srv(eng: Sys, clock: nat, tick: nat, nextId: nat, conns: map<nat, nat>)

  /**
   * `skip` is what other services of the process have drawn from the shared tick in the meantime;
   * `gap` is how many of the connection's commands since its last request never reached the engine.
   */
  datatype SrvEvent =
    | Accept
    | Request(c: nat, kind: OpKind, skip: nat, gap: nat)
    | OnDisk(e: Event)
    | Restart(tick0: nat)

  function Max(a: nat, b: nat): nat { if a >= b then a else b }

  function Highest(cs: seq<u32>, n: nat): (c: nat)
    requires n <= |cs|
    ensures forall i :: 0 <= i < n ==> cs[i] <= c
    ensures c == 0 || exists i :: 0 <= i < n && cs[i] == c
  {
    if n == 0 then 0 else Max(Highest(cs, n - 1), cs[n - 1])
  }

  /** `max_client`. */
  function MaxClient(a: Marks): (c: nat)
    ensures forall x :: x in a ==> x <= c
    ensures c == 0 || (c < 0x1_0000_0000 && c in a)
  {
    var cs := ClientsInOrder(a);
    assert forall x :: x in a ==> x in cs;
    Highest(cs, |cs|)
  }

  /** Start-up on the files that are there: ids above every recovered client, clock past the horizon. */
  function Boot(eng: Sys, tick0: nat): Srv {
    Srv(eng, eng.vol.lastTs + 1, tick0, MaxClient(eng.vol.applied) + 1, map[])
  }

  function Start(interval: nat, tick0: nat): Srv { Boot(Init(interval), tick0) }

  /** The record a request turns into. */
  predicate Stampable(s: Srv, c: nat, skip: nat, gap: nat) {
    && c in s.conns && c < 0x1_0000_0000 && s.conns[c] + 1 + gap < 0x1_0000_0000_0000_0000
    && Max(s.clock + 1, s.tick + skip) < 0x1_0000_0000_0000
  }

  function Stamp(s: Srv, c: nat, kind: OpKind, skip: nat, gap: nat): Rec
    requires Stampable(s, c, skip, gap)
  {
    Rec(Max(s.clock + 1, s.tick + skip), Op(c, s.conns[c] + 1 + gap, kind))
  }

  predicate SrvEnabled(s: Srv, e: SrvEvent) {
    match e
    case Accept => !s.eng.phase.Down?
    case Request(c, _, skip, gap) => s.eng.phase.Idle? && Stampable(s, c, skip, gap)
    case OnDisk(d) => Enabled(s.eng, d) && !d.Deliver? && !d.StartImport? && !d.Recover?
    case Restart(_) => Enabled(s.eng, Recover)
  }

  predicate SrvBenign(s: Srv, e: SrvEvent) {
    match e
    case Request(c, kind, skip, gap) => Stampable(s, c, skip, gap) ==> RecFits(Stamp(s, c, kind, skip, gap))
    case OnDisk(d) => Benign(s.eng, d)
    case _ => true
  }

  function SrvNext(s: Srv, e: SrvEvent): Srv
    requires SrvEnabled(s, e)
  {
    match e
    case Accept => s.(nextId := s.nextId + 1, conns := s.conns[s.nextId := 0])
    case Request(c, kind, skip, gap) =>
      Srv(DeliverStep(s.eng, Stamp(s, c, kind, skip, gap)), s.clock + 1, s.tick + skip + 1,
          s.nextId, s.conns[c := s.conns[c] + 1 + gap])
    case OnDisk(d) => s.(eng := Next(s.eng, d))
    case Restart(tick0) => Boot(Next(s.eng, Recover), tick0)
  }

  function SrvExec(s: Srv, es: seq<SrvEvent>): Srv {
    if |es| == 0 then s
    else
      var t := SrvExec(s, es[..|es| - 1]);
      if SrvEnabled(t, es[|es| - 1]) then SrvNext(t, es[|es| - 1]) else t
  }

  predicate SrvBenignRun(s: Srv, es: seq<SrvEvent>) {
    |es| == 0 || (SrvBenignRun(s, es[..|es| - 1]) && SrvBenign(SrvExec(s, es[..|es| - 1]), es[|es| - 1]))
  }

  // --------------------------------------------------------------- the invariant

  predicate Rising(h: seq<Rec>) { forall i, j :: 0 <= i < j < |h| ==> h[i].ts < h[j].ts }

  /** Every applied client is below the next id, and no live connection is ahead of its own requests. */
  predicate IdsOk(v: Vol, nextId: nat, conns: map<nat, nat>) {
    && (forall c :: c in v.applied ==> c < nextId)
    && (forall c :: c in conns ==> c < nextId)
    && (forall c: u32 :: c in conns ==> Hw(v.applied, c) <= conns[c])
  }

  /** The next timestamp will exceed the horizon. */
  predicate ClockOk(v: Vol, clock: nat, tick: nat) { v.lastTs <= clock || v.lastTs < tick }

  ghost predicate SrvInv(s: Srv) {
    && Inv(s.eng)
    && Rising(s.eng.hist)
    && (s.eng.phase.Appending? ==> s.eng.phase.r.ts > Replay(EMPTY, s.eng.hist).lastTs)
    && (s.eng.phase.Saving? ==> s.eng.phase.target == s.eng.hist)
    && (!s.eng.phase.Down? ==> IdsOk(s.eng.vol, s.nextId, s.conns) && ClockOk(s.eng.vol, s.clock, s.tick))
  }

  lemma {:induction false} HorizonIsHighest(h: seq<Rec>, i: nat)
    requires AllNew(h) && i < |h|
    ensures h[i].ts <= Replay(EMPTY, h).lastTs
  {
    var n := |h| - 1;
    assert Accepts(Replay(EMPTY, h[..n]), h[n].op);
    if i < n {
      assert AllNew(h[..n]) by {
        forall k | 0 <= k < n ensures Accepts(Replay(EMPTY, h[..n][..k]), h[..n][k].op) {
          assert h[..n][..k] == h[..k];
        }
      }
      HorizonIsHighest(h[..n], i);
    }
  }

  lemma BootOk(eng: Sys, tick0: nat)
    requires Inv(eng) && eng.phase.Idle? && Rising(eng.hist)
    ensures SrvInv(Boot(eng, tick0))
  {
    hide Inv, Replay, Rising, MaxClient;
  }

  /**
   * After a start the first connection gets the id after the largest known one, and the first stamp is
   * at least two past the horizon.
   */
  lemma AfterBoot(eng: Sys, tick0: nat)
    ensures var s := Boot(eng, tick0);
      && s.eng == eng && s.conns == map[] && s.tick == tick0 && s.clock + 1 == eng.vol.lastTs + 2
      && (forall x :: x in eng.vol.applied ==> x < s.nextId)
      && (s.nextId == 1 || (s.nextId - 1 < 0x1_0000_0000 && s.nextId - 1 in eng.vol.applied))
  {}

  /** A request on a live connection is new to the engine and stamped past its horizon. */
  lemma RequestIsNew(s: Srv, c: nat, kind: OpKind, skip: nat, gap: nat)
    requires SrvInv(s) && s.eng.phase.Idle? && Stampable(s, c, skip, gap)
    ensures var r := Stamp(s, c, kind, skip, gap);
      && Accepts(s.eng.vol, r.op) && r.ts > s.eng.vol.lastTs
      && r.op.client == c && r.op.seqno == s.conns[c] + 1 + gap && r.op.kind == kind
      && r.ts >= s.clock + 1 && r.ts >= s.tick + skip && (r.ts == s.clock + 1 || r.ts == s.tick + skip)
  {
    hide Inv, Replay, Rising;
  }

  lemma RequestKeeps(s: Srv, c: nat, kind: OpKind, skip: nat, gap: nat)
    requires SrvInv(s) && SrvEnabled(s, Request(c, kind, skip, gap)) && RecFits(Stamp(s, c, kind, skip, gap))
    ensures SrvInv(SrvNext(s, Request(c, kind, skip, gap)))
  {
    hide Holds, AllNew, Replay, Rising, RecFits, ApplyOp;
    var r := Stamp(s, c, kind, skip, gap);
    RequestIsNew(s, c, kind, skip, gap);
    DeliverKeeps(s.eng, r);
    var t := SrvNext(s, Request(c, kind, skip, gap));
    assert t.eng.vol.applied == s.eng.vol.applied[r.op.client := r.op.seqno];
    assert forall x: u32 :: Hw(t.eng.vol.applied, x) == if x == c then r.op.seqno else Hw(s.eng.vol.applied, x);
  }

  lemma AcceptKeeps(s: Srv)
    requires SrvInv(s) && !s.eng.phase.Down?
    ensures SrvInv(SrvNext(s, Accept))
  {
    hide Inv, Replay, Rising;
    var t := SrvNext(s, Accept);
    assert forall c: u32 :: c == s.nextId ==> Hw(s.eng.vol.applied, c) == 0;
  }

  lemma AppendRises(s: Srv)
    requires SrvInv(s) && s.eng.phase.Appending?
    ensures Rising(s.eng.hist + [s.eng.phase.r])
  {
    hide Holds, Replay, PhaseOk;
    forall i | 0 <= i < |s.eng.hist| ensures s.eng.hist[i].ts < s.eng.phase.r.ts { HorizonIsHighest(s.eng.hist, i); }
  }

  lemma DiskKeeps(s: Srv, d: Event)
    requires SrvInv(s) && SrvEnabled(s, OnDisk(d)) && Benign(s.eng, d)
    ensures SrvInv(SrvNext(s, OnDisk(d)))
  {
    hide Holds, AllNew, Replay, Rising, RecFits, Inv, IdsOk, ClockOk, VolBytes, RawBytes, VolFits;
    NextKeeps(s.eng, d);
    if d.Append? { AppendRises(s); }
  }

  lemma RestartKeeps(s: Srv, tick0: nat)
    requires SrvInv(s) && Enabled(s.eng, Recover)
    ensures SrvInv(SrvNext(s, Restart(tick0)))
  {
    hide Inv, Rising, Boot, Recovered, Replayed;
    NextKeeps(s.eng, Recover);
    BootOk(Next(s.eng, Recover), tick0);
  }

  lemma {:induction false} SrvRunKeeps(s: Srv, es: seq<SrvEvent>)
    requires SrvInv(s) && SrvBenignRun(s, es)
    ensures SrvInv(SrvExec(s, es))
  {
    hide SrvInv, Stamp, RecFits, Benign, Next, Boot, DeliverStep;
    if |es| > 0 {
      var t, e := SrvExec(s, es[..|es| - 1]), es[|es| - 1];
      SrvRunKeeps(s, es[..|es| - 1]);
      if SrvEnabled(t, e) {
        match e
        case Accept => AcceptKeeps(t);
        case Request(c, kind, skip, gap) => RequestKeeps(t, c, kind, skip, gap);
        case OnDisk(d) => DiskKeeps(t, d);
        case Restart(tick0) => RestartKeeps(t, tick0);
      }
    }
  }

  /** A new connection is numbered above every client the engine knows, and its first request can be made. */
  lemma FreshConnection(s: Srv, kind: OpKind, skip: nat)
    requires SrvInv(s) && s.eng.phase.Idle? && s.nextId < 0x1_0000_0000
    requires s.clock + 1 < 0x1_0000_0000_0000 && s.tick + skip < 0x1_0000_0000_0000
    ensures SrvEnabled(s, Accept)
    ensures var t := SrvNext(s, Accept);
      && s.nextId !in s.eng.vol.applied && t.nextId > s.nextId && t.conns == s.conns[s.nextId := 0]
      && SrvEnabled(t, Request(s.nextId, kind, skip, 0))
      && SrvNext(t, Request(s.nextId, kind, skip, 0)).eng.phase.Appending?
      && SrvNext(t, Request(s.nextId, kind, skip, 0)).clock == s.clock + 1
  {
    hide Inv, Replay, Rising, Accepts, ApplyOp;
    AcceptKeeps(s);
    RequestIsNew(SrvNext(s, Accept), s.nextId, kind, skip, 0);
  }

  // ------------------------------------------------------------------ main results

  lemma StartOk(interval: nat, tick0: nat)
    ensures SrvInv(Start(interval, tick0))
  {
    hide Inv;
    InitOk(interval);
    BootOk(Init(interval), tick0);
  }

  /** Across any crashes and restarts, no request of a live connection is ever taken for a duplicate. */
  lemma NeverWronglySuppressed(interval: nat, tick0: nat, es: seq<SrvEvent>, c: nat, kind: OpKind, skip: nat, gap: nat)
    requires SrvBenignRun(Start(interval, tick0), es)
    requires SrvEnabled(SrvExec(Start(interval, tick0), es), Request(c, kind, skip, gap))
    ensures var s := SrvExec(Start(interval, tick0), es);
      SrvNext(s, Request(c, kind, skip, gap)).eng.phase
        == Appending(Stamp(s, c, kind, skip, gap), ApplyOp(s.eng.vol.kv, kind).1)
  {
    hide SrvInv, SrvBenignRun, SrvExec, Start, Accepts, ApplyOp;
    StartOk(interval, tick0);
    SrvRunKeeps(Start(interval, tick0), es);
    RequestIsNew(SrvExec(Start(interval, tick0), es), c, kind, skip, gap);
  }

  /** Across any crashes and restarts, the timestamps of the durable history are strictly increasing. */
  lemma TimestampsRise(interval: nat, tick0: nat, es: seq<SrvEvent>)
    requires SrvBenignRun(Start(interval, tick0), es)
    ensures Rising(SrvExec(Start(interval, tick0), es).eng.hist)
  {
    hide Inv, SrvBenignRun, SrvExec, Start, Rising, IdsOk, ClockOk, Replay;
    StartOk(interval, tick0);
    SrvRunKeeps(Start(interval, tick0), es);
  }
}
