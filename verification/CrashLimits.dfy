/** Where the crash guarantees end: a lost acknowledgement behind a torn tail, a replay bound that is reached. */
module CrashLimits {
  import opened Bytes
  import opened State
  import opened EngineSpec
  import opened Durable
  import opened Recovery
  import opened CrashRuns

  // --------------------------------------------- an append behind a torn tail is lost

  lemma LE4Low(n: nat)
    requires n < 0x100_0000
    ensures FromLE(LE(n, 4)[..3]) == n
  {
    var a, b := n / 256, n / 256 / 256;
    assert LE(n, 4) == [n % 256] + LE(a, 3);
    assert LE(a, 3) == [a % 256] + LE(b, 2);
    assert LE(b, 2) == [b % 256] + LE(b / 256, 1);
    assert LE(n, 4)[..3] == [n % 256, a % 256, b % 256];
    assert FromLE([b % 256]) == b;
    assert [a % 256, b % 256][1..] == [b % 256];
    assert FromLE([a % 256, b % 256]) == a;
    assert [n % 256, a % 256, b % 256][1..] == [a % 256, b % 256];
  }

  /** One stray byte shifts the length field, so the next record looks longer than the file. */
  lemma ShiftedHeader(c: byte, r: Raw)
    requires 0 < |r.body| < 0x100_0000
    ensures GetRaw([c] + RawBytes(r)).None?
  {
    var u := [c] + RawBytes(r);
    var h := u[8..];
    LE4Low(|r.body|);
    assert h[..4][1..] == LE(Sat32(|r.body|), 4)[..3];
    assert FromLE(h[..4]) >= 256 * |r.body|;
    hide LE, FromLE;
    assert u[8..] == GetU64(u).value.1;
    assert GetU32(h).value.0 == FromLE(h[..4]);
  }

  lemma StrayByteHidesNext(rs: seq<Raw>, c: byte, r: Raw)
    requires RawsFit(rs) && 0 < |r.body| < 0x100_0000
    ensures ReadRecs(LogBytes(rs) + ([c] + RawBytes(r))) == rs
  {
    hide GetRaw, RawBytes, LogBytes;
    ReadAppended(rs, [c] + RawBytes(r));
    ShiftedHeader(c, r);
  }

  /** The run that loses an answered operation: tear one byte, recover, deliver, crash, recover. */
  function LosingRun(r1: Rec, r2: Rec): seq<Event> {
    [Deliver(r1), Tear(1), Recover, Deliver(r2), Append, Crash, Recover]
  }

  lemma ExecLosing(s: Sys, r1: Rec, r2: Rec)
    ensures Exec(s, LosingRun(r1, r2))
         == Do(Do(Do(Do(Do(Do(Do(s, Deliver(r1)), Tear(1)), Recover), Deliver(r2)), Append), Crash), Recover)
  {
    hide Do;
    var es := LosingRun(r1, r2);
    ExecSnoc(s, [], es[0]);
    ExecSnoc(s, [es[0]], es[1]);
    ExecSnoc(s, es[..2], es[2]);
    ExecSnoc(s, es[..3], es[3]);
    ExecSnoc(s, es[..4], es[4]);
    ExecSnoc(s, es[..5], es[5]);
    ExecSnoc(s, es[..6], es[6]);
    assert es[..2] == [es[0]] + [es[1]] && es[..3] == es[..2] + [es[2]] && es[..4] == es[..3] + [es[3]];
    assert es[..5] == es[..4] + [es[4]] && es[..6] == es[..5] + [es[5]] && es == es[..6] + [es[6]];
  }

  /** After tearing one byte off `r1` and recovering: idle, same state, one stray byte in the log. */
  lemma AfterTear(s: Sys, r1: Rec) returns (t: Sys)
    requires Inv(s) && s.phase.Idle? && s.torn == [] && RecFits(r1) && Accepts(s.vol, r1.op)
    ensures t == Do(Do(Do(s, Deliver(r1)), Tear(1)), Recover)
    ensures Inv(t) && t.phase.Idle? && t.vol == s.vol && |t.torn| == 1
    ensures t.hist == s.hist && t.cut == s.cut && t.stale == s.stale
    ensures t.interval == s.interval && t.since == (|s.hist| - s.cut) % s.interval
  {
    hide Holds, AllNew, Replay, Step, RecFits, Accepts, RawBytes, VolBytes, Recovered, Replayed;
    var a := DeliverStep(s, r1);
    DeliverKeeps(s, r1);
    var b := TearStep(a, 1);
    TearKeeps(a, 1);
    t := RecoverStep(b);
    RecoverKeeps(b);
    ReplaysSuffix(b.disk, b.hist, b.cut, b.stale, b.torn);
  }

  lemma AppendIsHidden(t: Sys, r2: Rec)
    requires Inv(t) && |t.torn| == 1 && |OpBytes(r2.op)| < 0x100_0000
    ensures Recovered(AppendLog(t.disk, RawBytes(RawOf(r2)))) == Recovered(t.disk)
  {
    hide AllNew, Replay, RecFits, RawBytes, VolBytes, LogBytes, ReadRecs, ReplayRaws, VolFits, Covered, Torn, PhaseOk;
    LogReadsBack(t.disk, t.hist, t.cut, t.stale, t.torn);
    var raws := RawsOf(t.stale + t.hist[t.cut..]);
    var c := t.torn[0];
    assert t.torn == [c];
    FitRaws(t.stale + t.hist[t.cut..]);
    StrayByteHidesNext(raws, c, RawOf(r2));
    assert LogBytes(raws) + [c] + RawBytes(RawOf(r2)) == LogBytes(raws) + ([c] + RawBytes(RawOf(r2)));
  }

  /**
   * Why `Benign` forbids an append behind a torn tail: from any good state, an operation delivered
   * after such a crash is answered and then forgotten by the next recovery.
   */
  lemma TornTailLosesAck(s: Sys, r1: Rec, r2: Rec)
    requires Inv(s) && s.phase.Idle? && s.torn == []
    requires RecFits(r1) && Accepts(s.vol, r1.op)
    requires RecFits(r2) && Accepts(s.vol, r2.op) && |OpBytes(r2.op)| < 0x100_0000
    requires (|s.hist| - s.cut) % s.interval + 1 < s.interval
    ensures var t := Exec(s, LosingRun(r1, r2));
      Answer(r2, ApplyOp(s.vol.kv, r2.op.kind).1) in t.acked && t.phase.Idle? && t.vol == s.vol && Accepts(t.vol, r2.op)
  {
    hide Inv, AllNew, Replay, Step, RecFits, Accepts, RawBytes, VolBytes, Recovered, Replayed, Exec, LosingRun, OpBytes;
    ExecLosing(s, r1, r2);
    var t := AfterTear(s, r1);
    assert t.interval > 0;
    var a := DeliverStep(t, r2);
    var b := AppendStep(a);
    assert b.acked == t.acked + [Answer(r2, ApplyOp(t.vol.kv, r2.op.kind).1)] && b.phase.Idle?;
    AppendIsHidden(t, r2);
    IdleRecovers(t);
    assert RecoverStep(Fail(b)).vol == t.vol;
  }

  lemma IdleRecovers(t: Sys)
    requires Inv(t) && t.phase.Idle?
    ensures Recovered(t.disk) == t.vol
  {
    hide Holds, AllNew, Replay, Recovered;
    RecoversHistory(t.disk, t.hist, t.cut, t.stale, t.torn);
  }

  // --------------------------------------------------- the replay bound is reached

  function Ping(n: u64): Rec
    requires n > 0
  {
    Rec(0, Op(0, n, Get([])))
  }

  /** A history of `n` pings, none of them in a snapshot yet. */
  predicate Pinged(s: Sys, n: nat) {
    |s.hist| == n && s.cut == 0 && s.torn == [] && Hw(Replay(EMPTY, s.hist).applied, 0) == n
  }

  lemma PingFits(n: u64)
    requires n > 0
    ensures RecFits(Ping(n))
  {}

  lemma {:induction false} ExecConcat(s: Sys, a: seq<Event>, b: seq<Event>)
    ensures Exec(s, a + b) == Exec(Exec(s, a), b)
    ensures BenignRun(s, a) && BenignRun(Exec(s, a), b) ==> BenignRun(s, a + b)
    decreases |b|
  {
    hide Enabled, Next, Benign;
    if |b| == 0 {
      assert a + b == a;
    } else {
      var n := |b| - 1;
      ExecConcat(s, a, b[..n]);
      assert (a + b)[..|a + b| - 1] == a + b[..n];
    }
  }

  lemma OneStep(s: Sys, e: Event)
    ensures Exec(s, [e]) == Do(s, e) && (BenignRun(s, [e]) <==> Benign(s, e))
  {
    hide Enabled, Next, Benign;
    assert [e][..0] == [];
    assert Exec(s, []) == s;
  }

  lemma TwoSteps(s: Sys, e1: Event, e2: Event)
    ensures Exec(s, [e1, e2]) == Do(Do(s, e1), e2)
    ensures BenignRun(s, [e1, e2]) <==> Benign(s, e1) && Benign(Do(s, e1), e2)
  {
    hide Enabled, Next, Benign;
    var es := [e1, e2];
    assert es[..1] == [e1] && [e1][..0] == [];
    assert Exec(s, []) == s;
    assert Exec(s, [e1]) == Do(s, e1);
    OneStep(s, e1);
  }

  /** One more ping, delivered and appended, when the window does not fill. */
  lemma OnePing(s: Sys, n: nat) returns (es: seq<Event>)
    requires Inv(s) && s.phase.Idle? && Pinged(s, n) && n + 1 < 0x1_0000_0000_0000_0000
    ensures BenignRun(s, es) && Inv(Exec(s, es))
    ensures var t := Exec(s, es);
      && t.interval == s.interval && t.crashes == s.crashes && Pinged(t, n + 1) && t.since == s.since + 1
      && (s.since + 1 < s.interval ==> t.phase.Idle?)
      && (s.since + 1 >= s.interval ==> t.phase.Saving?)
  {
    hide Holds, AllNew, Replay, RecFits, RawBytes, VolBytes, ApplyOp;
    var r := Ping(n + 1);
    PingFits(n + 1);
    var a := DeliverStep(s, r);
    var b := AppendStep(a);
    es := [Deliver(r), Append];
    TwoSteps(s, es[0], es[1]);
    ReplaySnoc(EMPTY, s.hist, r);
    DeliverKeeps(s, r);
    AppendKeeps(a);
  }

  /** `k` pings in a row that stay inside the current window. */
  lemma {:induction false} ManyPings(s: Sys, n: nat, k: nat) returns (es: seq<Event>)
    requires Inv(s) && s.phase.Idle? && Pinged(s, n) && n + k < 0x1_0000_0000_0000_0000 && s.since + k < s.interval
    ensures BenignRun(s, es) && Inv(Exec(s, es)) && Pinged(Exec(s, es), n + k) && Exec(s, es).phase.Idle?
    ensures Exec(s, es).interval == s.interval && Exec(s, es).crashes == s.crashes && Exec(s, es).since == s.since + k
    decreases k
  {
    hide Inv, Pinged;
    if k == 0 {
      es := [];
    } else {
      var e1 := ManyPings(s, n, k - 1);
      var t := Exec(s, e1);
      var e2 := OnePing(t, n + k - 1);
      es := e1 + e2;
      ExecConcat(s, e1, e2);
    }
  }

  /** Fill one window and crash before the snapshot is written. */
  lemma FillAndCrash(s: Sys, n: nat) returns (es: seq<Event>)
    requires Inv(s) && s.phase.Idle? && Pinged(s, n) && s.since == 0 && n + s.interval < 0x1_0000_0000_0000_0000
    ensures BenignRun(s, es) && Inv(Exec(s, es))
    ensures var t := Exec(s, es);
      t.phase.Down? && t.interval == s.interval && t.crashes == s.crashes + 1 && Pinged(t, n + s.interval)
  {
    hide Holds, AllNew, Replay, Exec, BenignRun, Benign;
    var e1 := ManyPings(s, n, s.interval - 1);
    var t := Exec(s, e1);
    var e2 := OnePing(t, n + s.interval - 1);
    var u := Exec(t, e2);
    ExecConcat(s, e1, e2);
    var e3 := [Crash];
    ExecConcat(s, e1 + e2, e3);
    JustCrash(u);
    CrashKeeps(u);
    es := e1 + e2 + e3;
  }

  lemma JustCrash(u: Sys)
    requires !u.phase.Down?
    ensures Exec(u, [Crash]) == Fail(u) && BenignRun(u, [Crash])
  {
    hide Recovered, Replayed;
    OneStep(u, Crash);
  }

  lemma JustRecover(u: Sys)
    requires u.phase.Down? && u.interval > 0
    ensures Exec(u, [Recover]) == RecoverStep(u) && BenignRun(u, [Recover])
  {
    hide Recovered, Replayed;
    OneStep(u, Recover);
  }

  /** For every interval and every number of crashes, some run replays that many whole intervals. */
  lemma {:induction false} BoundReached(interval: nat, c: nat) returns (es: seq<Event>)
    requires 0 < interval && 0 < c && c * interval < 0x1_0000_0000_0000_0000
    ensures BenignRun(Init(interval), es)
    ensures var s := Exec(Init(interval), es);
      && Inv(s) && s.phase.Down? && s.crashes == c && s.interval == interval && Pinged(s, c * interval)
      && Replayed(s.disk) == c * interval
    decreases c
  {
    hide Holds, AllNew, Replay, Exec, BenignRun, Recovered, Replayed, Init, VolBytes, Accepts;
    if c == 1 {
      InitOk(interval);
      StartPinged(interval);
      es := FillAndCrash(Init(interval), 0);
    } else {
      assert c * interval == (c - 1) * interval + interval;
      var e1 := BoundReached(interval, c - 1);
      var s := Exec(Init(interval), e1);
      JustRecover(s);
      RecoverKeeps(s);
      var t := RecoverStep(s);
      ReplaysSuffix(s.disk, s.hist, s.cut, s.stale, s.torn);
      Multiple(c - 1, interval);
      ExecConcat(Init(interval), e1, [Recover]);
      var e2 := FillAndCrash(t, (c - 1) * interval);
      ExecConcat(Init(interval), e1 + [Recover], e2);
      es := e1 + [Recover] + e2;
    }
    var s := Exec(Init(interval), es);
    ReplaysSuffix(s.disk, s.hist, s.cut, s.stale, s.torn);
  }

  lemma NoSmallMultiple(d: nat, k: int, r: nat)
    requires d * k == r < d
    ensures r == 0
  {
    assert d * k == d + d * (k - 1);
    assert k >= 1 ==> d * (k - 1) >= 0;
  }

  lemma Multiple(c: nat, interval: nat)
    requires interval > 0
    ensures (c * interval) % interval == 0
  {
    var q, r := c * interval / interval, c * interval % interval;
    assert c * interval == interval * q + r;
    assert interval * (c - q) == interval * c - interval * q;
    NoSmallMultiple(interval, c - q, r);
  }

  lemma StartPinged(interval: nat)
    requires interval > 0
    ensures var s := Init(interval);
      s.phase.Idle? && Pinged(s, 0) && s.interval == interval && s.since == 0 && s.crashes == 0
  {}
}
