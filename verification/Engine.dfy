/** `Durable` and `Engine` as objects with the fields and updates of durable.rs and lib.rs. */
module Engine {
  import opened Wrappers
  import opened Bytes
  import opened State
  import opened EngineSpec
  import opened Durable
  import opened Recovery
  import opened Codec
  import C = CrashRuns

  /** The disk states that writing a record goes through, a write cut off at any byte included. */
  ghost function AppendStates(d: Disk, rec: seq<byte>): (ds: seq<Disk>)
    ensures |ds| == |rec| + 1 && forall k :: 0 <= k <= |rec| ==> ds[k] == AppendLog(d, rec[..k])
  {
    seq(|rec| + 1, k requires 0 <= k <= |rec| => AppendLog(d, rec[..k]))
  }

  /** The disk states of installing a snapshot: any part of the temporary file, the rename, the removal. */
  ghost function SaveStates(d: Disk, bytes: seq<byte>, removed: bool): (ds: seq<Disk>)
    ensures |ds| == |bytes| + 3
    ensures forall k :: 0 <= k <= |bytes| ==> ds[k] == PutTmp(d, bytes[..k])
    ensures ds[|bytes| + 1] == RenameTmp(PutTmp(d, bytes)) && ds[|bytes| + 2] == Saved(d, bytes, removed)
  {
    seq(|bytes| + 1, k requires 0 <= k <= |bytes| => PutTmp(d, bytes[..k]))
      + [RenameTmp(PutTmp(d, bytes)), Saved(d, bytes, removed)]
  }

  /** The disk after `write_snapshot`; a failed removal of the log is ignored by the code. */
  function Saved(d: Disk, bytes: seq<byte>, removed: bool): Disk {
    if removed then DropLog(RenameTmp(PutTmp(d, bytes))) else RenameTmp(PutTmp(d, bytes))
  }

  /** The files of one store directory, the cached append handle, and every state they went through. */
  class DurableStore {
    var snap: Option<seq<byte>>
    var tmp: Option<seq<byte>>
    var log: Option<seq<byte>>
    var handle: bool
    ghost var trace: seq<Disk>

    ghost predicate Valid()
      reads this
    {
      handle ==> log.Some?
    }

    ghost function Now(): Disk
      reads this
    {
      Disk(snap, tmp, log)
    }

    constructor ()
      ensures Valid() && Now() == Disk(None, None, None) && trace == []
    {
      snap, tmp, log, handle, trace := None, None, None, false, [];
    }

    /** Restart over the files a crash left behind. */
    constructor Open(d: Disk)
      ensures Valid() && Now() == d && trace == []
    {
      snap, tmp, log, handle, trace := d.snap, d.tmp, d.log, false, [];
    }

    /** `append`: opens the log on first use, then writes one record. */
    method Append(ts: u64, body: seq<byte>)
      requires Valid()
      modifies this
      ensures Valid()
      ensures Now() == AppendLog(old(Now()), RawBytes(Raw(ts, body)))
      ensures snap == old(snap) && tmp == old(tmp) && log == Some(LogOf(old(Now())) + RawBytes(Raw(ts, body)))
      ensures trace == old(trace) + AppendStates(old(Now()), RawBytes(Raw(ts, body)))
    {
      hide LE;
      ghost var d0 := Now();
      if !handle {
        if log.None? {
          log := Some([]);
        }
        handle := true;
      }
      var rec := LE(ts, 8);
      rec := rec + LE(Sat32(|body|), 4);
      rec := rec + body;
      assert rec == RawBytes(Raw(ts, body));
      log := Some(log.value + rec);
      trace := trace + AppendStates(d0, rec);
    }

    /**
     * `write_snapshot`: write aside, rename into place, drop the handle, try to remove the log;
     * `removed` is whether the file system let it go.
     */
    method WriteSnapshot(bytes: seq<byte>, removed: bool)
      requires Valid()
      modifies this
      ensures Valid()
      ensures Now() == Saved(old(Now()), bytes, removed)
      ensures trace == old(trace) + SaveStates(old(Now()), bytes, removed)
    {
      ghost var d0 := Now();
      tmp := Some(bytes);
      snap, tmp := tmp, None;
      handle := false;
      if removed {
        log := None;
      }
      trace := trace + SaveStates(d0, bytes, removed);
    }

    /** `read_log`: the loop over headers and bodies, stopping cleanly at a torn tail. */
    method ReadLog() returns (out: seq<Raw>)
      ensures out == ReadRecs(LogOf(Now()))
    {
      hide LE, GetRaw;
      out := [];
      if log.None? {
        ShortHeader([]);
        return;
      }
      var raw := log.value;
      var p := 0;
      assert raw[0..] == raw && [] + ReadRecs(raw) == ReadRecs(raw);
      while p + 12 <= |raw|
        invariant 0 <= p <= |raw|
        invariant ReadRecs(raw) == out + ReadRecs(raw[p..])
      {
        var ts, n := ReadHeader(raw, p);
        RecordAt(raw, p, ts, n);
        assert out + [] == out;
        if p + 12 + n > |raw| {
          return;
        }
        var body := raw[p + 12..p + 12 + n];
        ghost var rest := ReadRecs(raw[p + 12 + n..]);
        assert out + ([Raw(ts, body)] + rest) == out + [Raw(ts, body)] + rest;
        out := out + [Raw(ts, body)];
        p := p + 12 + n;
      }
      ShortHeader(raw[p..]);
      assert out + [] == out;
    }
  }

  /** The record whose header stands at `p`, or none if its body is cut short. */
  lemma RecordAt(raw: seq<byte>, p: nat, ts: u64, n: u32)
    requires p + 12 <= |raw|
    requires GetU64(raw[p..]) == Some((ts, raw[p + 8..])) && GetU32(raw[p + 8..]) == Some((n, raw[p + 12..]))
    ensures if p + 12 + n > |raw| then GetRaw(raw[p..]).None?
      else GetRaw(raw[p..]) == Some((Raw(ts, raw[p + 12..p + 12 + n]), raw[p + 12 + n..]))
  {
    hide GetU64, GetU32;
    if p + 12 + n <= |raw| {
      assert raw[p + 12..][..n] == raw[p + 12..p + 12 + n] && raw[p + 12..][n..] == raw[p + 12 + n..];
    }
  }

  lemma ShortHeader(b: seq<byte>)
    requires |b| < 12
    ensures ReadRecs(b) == []
  {}

  method ReadHeader(raw: seq<byte>, p: nat) returns (ts: u64, n: u32)
    requires p + 12 <= |raw|
    ensures GetU64(raw[p..]) == Some((ts, raw[p + 8..]))
    ensures GetU32(raw[p + 8..]) == Some((n, raw[p + 12..]))
  {
    hide LE, FromLE;
    WordSizes();
    FromLEBound(raw[p..p + 8]);
    FromLEBound(raw[p + 8..p + 12]);
    ts := FromLE(raw[p..p + 8]);
    n := FromLE(raw[p + 8..p + 12]);
    assert raw[p..][..8] == raw[p..p + 8] && raw[p..][8..] == raw[p + 8..];
    assert raw[p + 8..][..4] == raw[p + 8..p + 12] && raw[p + 8..][4..] == raw[p + 12..];
  }

  method EncodeMarks(head: seq<byte>, applied: Marks, cs: seq<u32>) returns (o: seq<byte>)
    requires forall c :: c in cs ==> c in applied
    ensures o == head + MarksBytes(applied, cs)
  {
    hide MarkBytes;
    o := head;
    var i := 0;
    assert cs[0..] == cs;
    while i < |cs|
      invariant 0 <= i <= |cs|
      invariant o + MarksBytes(applied, cs[i..]) == head + MarksBytes(applied, cs)
    {
      assert cs[i..][1..] == cs[i + 1..] && cs[i..][0] == cs[i];
      o := o + MarkBytes(cs[i], applied[cs[i]]);
      i := i + 1;
    }
    assert cs[i..] == [];
  }

  /** `encode_snapshot`: horizon, marks in client order, store bytes. */
  method EncodeSnapshot(lastTs: u64, applied: Marks, store: KvStore) returns (o: seq<byte>)
    ensures o == VolBytes(Vol(store.m, applied, lastTs))
  {
    hide LE, Sat32, KvBytes, MarksBytes, ClientsInOrder;
    var cs := ClientsInOrder(applied);
    var sm := store.Snapshot();
    o := LE(lastTs, 8);
    o := o + LE(Sat32(|applied|), 4);
    o := EncodeMarks(o, applied, cs);
    o := o + LE(Sat32(|sm|), 4);
    o := o + sm;
  }

  /** The marks loop of `load_snapshot`. */
  method DecodeMarks(r: Reader, n: nat) returns (applied: Marks)
    requires r.Valid()
    modifies r
    ensures r.Valid() && (applied, r.Rest()) == ReadMarks(map[], n, old(r.Rest()))
  {
    hide GetMark;
    ghost var start := r.Rest();
    applied := map[];
    var i := 0;
    while i < n
      invariant 0 <= i <= n && r.Valid()
      invariant ReadMarks(map[], n, start) == ReadMarks(applied, n - i, r.Rest())
    {
      var m := DecodeMark(r);
      if m.None? {
        return;
      }
      applied := applied[m.value.0 := m.value.1];
      i := i + 1;
    }
  }

  method DecodeMark(r: Reader) returns (m: Option<(u32, u64)>)
    requires r.Valid()
    modifies r
    ensures r.Valid()
    ensures m.Some? <==> GetMark(old(r.Rest())).Some?
    ensures m.Some? ==> (m.value.0, m.value.1, r.Rest()) == GetMark(old(r.Rest())).value
    ensures m.None? ==> r.Rest() == AfterShortMark(old(r.Rest()))
  {
    var c := r.U32();
    var s := r.U64();
    if c.None? || s.None? {
      return None;
    }
    m := Some((c.value, s.value));
  }

  /** `load_snapshot` as a value: `None` when the file is too short to be used. */
  method DecodeSnapshot(bytes: seq<byte>) returns (v: Option<(u64, Marks, seq<byte>)>)
    ensures v == SnapshotFields(bytes)
    ensures forall v0 :: VolOf(v0, bytes) == if v.None? then v0 else Vol(KvOf(v.value.2), v.value.1, v.value.0)
  {
    hide GetU64, GetU32, GetBlob, ReadMarks, KvOf;
    var r := new Reader(bytes);
    var ts := r.U64();
    if ts.None? { return None; }
    var n := r.U32();
    if n.None? { return None; }
    var applied := DecodeMarks(r, n.value);
    var sm := DecodeBlob(r);
    if sm.None? { return None; }
    v := Some((ts.value, applied, sm.value));
  }

  datatype Stats = Stats(applied: nat, suppressed: nat, snapshots: nat, replayed: nat)

  /** The replication engine. `hist`, `cut`, `stale` and `torn` say what its disk stands for. */
  class Engine {
    var store: KvStore
    var applied: Marks
    var lastTs: u64
    const dur: DurableStore
    const interval: nat
    var since: nat
    var stats: Stats
    ghost var hist: seq<Rec>
    ghost var cut: nat
    ghost var stale: seq<Rec>
    ghost var torn: seq<byte>

    ghost function State(): Vol
      reads this, store
    {
      Vol(store.m, applied, lastTs)
    }

    /** The running state is the replay of the history, and so is what the disk would recover to. */
    ghost predicate Valid()
      reads this, store, dur
    {
      && interval > 0 && since < interval
      && dur.Valid()
      && State() == Replay(EMPTY, hist)
      && AllNew(hist)
      && Holds(dur.Now(), hist, cut, stale, torn)
    }

    /** The engine as a state of the step-by-step machine, with the given answers and crash count. */
    ghost function View(acked: seq<C.Answer>, crashes: nat): C.Sys
      reads this, store, dur
    {
      C.Sys(State(), interval, since, dur.Now(), C.Idle, hist, cut, stale, torn, acked, crashes)
    }

    /** `Engine::create`, in an empty directory. */
    constructor (d: DurableStore, snapInterval: nat)
      requires d.Valid() && d.Now() == Disk(None, None, None)
      ensures Valid() && fresh(store) && dur == d && hist == [] && torn == []
      ensures interval >= 1 && interval >= snapInterval && (interval == 1 || interval == snapInterval)
      ensures stats == Stats(0, 0, 0, 0) && View([], 0) == C.Init(snapInterval)
    {
      store := new KvStore();
      applied, lastTs, dur := map[], 0, d;
      interval, since := if snapInterval == 0 then 1 else snapInterval, 0;
      stats := Stats(0, 0, 0, 0);
      hist, cut, stale, torn := [], 0, [], [];
      new;
      EmptyDiskHolds();
    }

    /**
     * `Engine::recover` over whatever files are there. When they stand for a history, the engine
     * comes up in exactly the replay of that history.
     */
    constructor Recover(d: DurableStore, snapInterval: nat,
                        ghost h: seq<Rec>, ghost c: nat, ghost st: seq<Rec>, ghost t: seq<byte>)
      requires d.Valid()
      requires Holds(d.Now(), h, c, st, t) && AllNew(h)
      ensures Valid() && fresh(store) && dur == d && hist == h && torn == t
      ensures interval >= 1 && interval >= snapInterval && (interval == 1 || interval == snapInterval)
      ensures State() == Recovered(d.Now()) && stats == Stats(0, 0, 0, Replayed(d.Now()))
      ensures since == Window(Replayed(d.Now()), interval) && cut == c && stale == st
    {
      hide Holds, AllNew, Replay, Recovered, Replayed, Window;
      store := new KvStore();
      applied, lastTs, dur := map[], 0, d;
      interval, since := if snapInterval == 0 then 1 else snapInterval, 0;
      stats := Stats(0, 0, 0, 0);
      hist, cut, stale, torn := h, c, st, t;
      new;
      Restart();
      RecoversHistory(d.Now(), h, c, st, t);
    }

    /** Load the snapshot, if there is one, into a fresh engine and replay the log over it. */
    method Restart()
      requires State() == EMPTY && interval > 0
      modifies this`store, this`applied, this`lastTs, this`stats, this`since, store
      ensures store == old(store) || fresh(store)
      ensures State() == Recovered(dur.Now()) && stats == old(stats).(replayed := Replayed(dur.Now()))
      ensures since == Window(Replayed(dur.Now()), interval)
    {
      hide VolOf, ReadRecs, ReplayRaws, ReplayedRaws;
      if dur.snap.Some? {
        LoadSnapshot(dur.snap.value);
      }
      assert State() == SnapVol(dur.Now());
      var log := dur.ReadLog();
      var n := ReplayLog(log);
      stats := stats.(replayed := n);
      since := Window(n, interval);
    }

    /** `apply_dedup`: shared by the live path and by replay. */
    method ApplyDedup(ts: u64, op: Op) returns (out: Option<Output>)
      modifies this`applied, this`lastTs, store
      ensures State() == Step(old(State()), Rec(ts, op))
      ensures out == if Accepts(old(State()), op) then Some(ApplyOp(old(store.m), op.kind).1) else None
    {
      hide ApplyOp;
      var hw := Hw(applied, op.client);
      if op.seqno <= hw {
        return None;
      }
      var o := store.Apply(op);
      applied := applied[op.client := op.seqno];
      if ts > lastTs {
        lastTs := ts;
      }
      out := Some(o);
    }

    /** The replay loop of `recover`. */
    method ReplayLog(log: seq<Raw>) returns (n: nat)
      modifies this`applied, this`lastTs, store
      ensures State() == ReplayRaws(old(State()), log) && n == ReplayedRaws(old(State()), log)
    {
      hide OpOf, ApplyOp, Step;
      n := 0;
      var i := 0;
      while i < |log|
        invariant 0 <= i <= |log|
        invariant State() == ReplayRaws(old(State()), log[..i]) && n == ReplayedRaws(old(State()), log[..i])
      {
        assert log[..i + 1][..i] == log[..i];
        var op := Decode(log[i].body);
        if op.Some? {
          var out := ApplyDedup(log[i].ts, op.value);
          if out.Some? {
            n := n + 1;
          }
        }
        i := i + 1;
      }
      assert log[..i] == log;
    }

    /** `load_snapshot`. */
    method LoadSnapshot(bytes: seq<byte>)
      modifies this`store, this`applied, this`lastTs
      ensures State() == VolOf(old(State()), bytes)
      ensures store == old(store) || fresh(store)
    {
      hide VolOf, KvOf;
      var v := DecodeSnapshot(bytes);
      if v.Some? {
        var s := new KvStore.Restore(v.value.2);
        store := s;
        applied := v.value.1;
        lastTs := v.value.0;
      }
    }

    /** `snapshot`: the state does not change, and neither does what a crash on the way recovers to. */
    method Snapshot(removed: bool)
      requires Valid() && VolFits(State())
      modifies this`since, this`stats, this`cut, this`stale, this`torn, dur
      ensures Valid()
      ensures forall acked, crashes ::
        var s := old(View(acked, crashes));
        var t := C.Exec(s, C.SnapshotRun(s, removed));
        View(acked, t.crashes) == t
      ensures since == 0 && cut == |hist| && dur.snap == Some(VolBytes(State()))
      ensures dur.log == (if removed then None else old(dur.log)) && torn == (if removed then [] else old(torn))
      ensures stats == old(stats).(snapshots := old(stats).snapshots + 1)
      ensures old(dur.trace) <= dur.trace
      ensures forall d :: d in dur.trace[|old(dur.trace)|..] ==> Recovered(d) == State()
      ensures Recovered(dur.Now()) == State()
    {
      hide Holds, AllNew, Replay, VolFits, VolBytes, Recovered, RecsFit, SaveStates, C.Exec, C.SnapshotRun;
      ghost var d0 := dur.Now();
      var bytes := EncodeSnapshot(lastTs, applied, store);
      dur.WriteSnapshot(bytes, removed);
      CutInside(d0, hist, cut, stale, torn);
      SavedHolds(d0, hist, cut, stale, torn, hist, removed);
      since := 0;
      stats := stats.(snapshots := stats.snapshots + 1);
      stale, torn := if removed then [] else stale + hist[cut..], if removed then [] else torn;
      cut := |hist|;
      assert dur.trace[|old(dur.trace)|..] == SaveStates(d0, bytes, removed);
      forall acked, crashes
        ensures var s := old(View(acked, crashes));
          var t := C.Exec(s, C.SnapshotRun(s, removed));
          View(acked, t.crashes) == t
      {
        C.SnapshotCompletes(old(View(acked, crashes)), removed);
      }
    }

    /**
     * `deliver`: a duplicate is suppressed and touches nothing; a new operation takes effect once,
     * and every disk state on the way recovers to the state before it or the state after it.
     */
    method Deliver(ts: u64, op: Op, removed: bool) returns (out: Output)
      requires Valid() && torn == [] && RecFits(Rec(ts, op))
      requires since + 1 >= interval ==> VolFits(Step(State(), Rec(ts, op)))
      modifies this`applied, this`lastTs, this`since, this`stats, this`hist, this`cut, this`stale, this`torn, store, dur
      ensures Valid() && torn == [] && State() == Step(old(State()), Rec(ts, op))
      ensures forall acked, crashes ::
        var s := old(View(acked, crashes));
        var t := C.Exec(s, C.Undisturbed(s, Rec(ts, op), removed));
        View(t.acked, t.crashes) == t
      ensures out == if Accepts(old(State()), op) then ApplyOp(old(store.m), op.kind).1 else Suppressed
      ensures hist == if Accepts(old(State()), op) then old(hist) + [Rec(ts, op)] else old(hist)
      ensures !Accepts(old(State()), op) ==>
        && dur.Now() == old(dur.Now()) && dur.trace == old(dur.trace) && since == old(since)
        && stats == old(stats).(suppressed := old(stats.suppressed) + 1)
      ensures Accepts(old(State()), op) && old(since) + 1 < interval ==>
        && since == old(since) + 1 && cut == old(cut) && dur.snap == old(dur.snap)
        && stats == old(stats).(applied := old(stats.applied) + 1)
      ensures Accepts(old(State()), op) && old(since) + 1 >= interval ==>
        && since == 0 && cut == |hist| && dur.snap == Some(VolBytes(State())) && (removed ==> dur.log == None)
        && stats == old(stats).(applied := old(stats.applied) + 1, snapshots := old(stats.snapshots) + 1)
      ensures old(dur.trace) <= dur.trace
      ensures forall d :: d in dur.trace[|old(dur.trace)|..] ==> Recovered(d) == old(State()) || Recovered(d) == State()
      ensures Recovered(dur.Now()) == State()
    {
      hide Holds, AllNew, Replay, Step, Accepts, ApplyOp, VolFits, VolBytes, Recovered, RecFits, AppendLog, RawBytes,
        OpBytes, AppendStates, C.Exec, C.Undisturbed;
      ghost var d0, v0, h0, t0 := dur.Now(), State(), hist, dur.trace;
      ghost var r := Rec(ts, op);
      RecoversHistory(d0, hist, cut, stale, torn);
      var o := ApplyDedup(ts, op);
      if o.None? {
        stats := stats.(suppressed := stats.suppressed + 1);
        DuplicateKeeps(v0, r);
        forall acked, crashes
          ensures var s := old(View(acked, crashes)); C.Exec(s, C.Undisturbed(s, r, removed)) == s
        {
          C.UndisturbedIs(old(View(acked, crashes)), r, removed);
        }
        return Suppressed;
      }
      stats := stats.(applied := stats.applied + 1);
      var body := Encode(op);
      dur.Append(ts, body);
      hist := hist + [r];
      since := since + 1;
      AppendPoints(d0, h0, cut, stale, r);
      assert dur.trace[|t0|..] == AppendStates(d0, RawBytes(RawOf(r)));
      if since >= interval {
        ghost var t1 := dur.trace;
        SaveNow(removed);
        assert dur.trace[|t0|..] == t1[|t0|..] + dur.trace[|t1|..];
      }
      out := o.value;
      forall acked, crashes
        ensures var s := old(View(acked, crashes));
          var t := C.Exec(s, C.Undisturbed(s, r, removed));
          View(t.acked, t.crashes) == t
      {
        C.UndisturbedIs(old(View(acked, crashes)), r, removed);
      }
    }

    /** The snapshot that `deliver` takes when the window is full. */
    method SaveNow(removed: bool)
      requires interval > 0 && dur.Valid() && State() == Replay(EMPTY, hist) && AllNew(hist)
      requires Holds(dur.Now(), hist, cut, stale, torn) && VolFits(State())
      modifies this`since, this`stats, this`cut, this`stale, this`torn, dur
      ensures cut == |hist| && stale == (if removed then [] else old(stale) + hist[C.Min(old(cut), |hist|)..])
      ensures dur.Now() == Disk(Some(VolBytes(State())), None, if removed then None else old(dur.log))
      ensures Valid() && since == 0 && torn == (if removed then [] else old(torn))
      ensures stats == old(stats).(snapshots := old(stats).snapshots + 1)
      ensures old(dur.trace) <= dur.trace
      ensures forall d :: d in dur.trace[|old(dur.trace)|..] ==> Recovered(d) == State()
      ensures Recovered(dur.Now()) == State()
    {
      hide Holds, AllNew, Replay, VolFits, Recovered, VolBytes, C.Exec;
      since := 0;
      ghost var s := View([], 0);
      Snapshot(removed);
      C.SnapshotCompletes(s, removed);
    }

    /** `export_state`. */
    method ExportState() returns (bytes: seq<byte>)
      requires Valid()
      ensures bytes == VolBytes(Replay(EMPTY, hist))
    {
      hide Holds, AllNew, Replay, VolBytes;
      bytes := EncodeSnapshot(lastTs, applied, store);
    }

    /**
     * `import_state` of the bytes a peer exported, the peer having accepted a longer part of the same
     * sequence: afterwards this engine is the peer, and a crash on the way leaves the old state or the
     * peer's, never a mix.
     */
    method ImportState(bytes: seq<byte>, removed: bool, ghost peer: seq<Rec>)
      requires Valid() && hist <= peer && AllNew(peer) && RecsFit(peer)
      requires VolFits(Replay(EMPTY, peer)) && bytes == VolBytes(Replay(EMPTY, peer))
      modifies this`store, this`applied, this`lastTs, this`since, this`hist, this`cut, this`stale, this`torn, dur
      ensures Valid() && State() == Replay(EMPTY, peer) && hist == peer && torn == (if removed then [] else old(torn))
      ensures forall acked, crashes ::
        var t := C.Exec(old(View(acked, crashes)), C.ImportRun(peer, removed));
        View(acked, t.crashes) == t
      ensures since == 0 && cut == |hist| && dur.snap == Some(bytes) && (removed ==> dur.log == None)
      ensures old(dur.trace) <= dur.trace
      ensures forall d :: d in dur.trace[|old(dur.trace)|..] ==> Recovered(d) == old(State()) || Recovered(d) == State()
      ensures Recovered(dur.Now()) == State()
    {
      hide Holds, AllNew, Replay, VolFits, VolBytes, VolOf, Recovered, RecsFit, SaveStates, C.Exec, C.ImportRun;
      ghost var d0, v0 := dur.Now(), State();
      LoadSaved(v0, Replay(EMPTY, peer));
      LoadSnapshot(bytes);
      dur.WriteSnapshot(bytes, removed);
      CutInside(d0, hist, cut, stale, torn);
      SavedHolds(d0, hist, cut, stale, torn, peer, removed);
      RecoversHistory(d0, hist, cut, stale, torn);
      since := 0;
      stale, torn := if removed then [] else stale + hist[cut..], if removed then [] else torn;
      hist, cut := peer, |peer|;
      assert dur.trace[|old(dur.trace)|..] == SaveStates(d0, bytes, removed);
      forall acked, crashes
        ensures var t := C.Exec(old(View(acked, crashes)), C.ImportRun(peer, removed));
          View(acked, t.crashes) == t
      {
        C.ImportCompletes(old(View(acked, crashes)), peer, removed);
      }
    }

    /** `max_client`: no client id above it has ever been applied. */
    method MaxClient() returns (c: u32)
      ensures forall x :: x in applied ==> x <= c
      ensures c in applied || (c == 0 && applied == map[])
    {
      c := 0;
      var cs := ClientsInOrder(applied);
      hide ClientsInOrder;
      var i := 0;
      while i < |cs|
        invariant 0 <= i <= |cs|
        invariant forall j :: 0 <= j < i ==> cs[j] <= c
        invariant i == 0 ==> c == 0
        invariant i > 0 ==> c in cs
      {
        if i == 0 || cs[i] > c {
          c := cs[i];
        }
        i := i + 1;
      }
      if |cs| == 0 {
        assert applied == map[];
      }
    }
  }

  lemma DuplicateKeeps(v: Vol, r: Rec)
    requires !Accepts(v, r.op)
    ensures Step(v, r) == v
  {}

  /** Every state of an append, cut off or not, recovers to the history before it or after it. */
  lemma AppendPoints(d: Disk, hist: seq<Rec>, cut: nat, stale: seq<Rec>, r: Rec)
    requires Holds(d, hist, cut, stale, []) && AllNew(hist) && RecFits(r) && Accepts(Replay(EMPTY, hist), r.op)
    ensures forall x :: x in AppendStates(d, RawBytes(RawOf(r))) ==>
      Recovered(x) == Replay(EMPTY, hist) || Recovered(x) == Replay(EMPTY, hist + [r])
    ensures var d2 := AppendLog(d, RawBytes(RawOf(r)));
      Holds(d2, hist + [r], cut, stale, []) && Recovered(d2) == Replay(EMPTY, hist + [r])
    ensures AllNew(hist + [r]) && Replay(EMPTY, hist + [r]) == Step(Replay(EMPTY, hist), r)
  {
    hide Holds, AllNew, Replay, Step, Accepts, Recovered, RecFits, RawBytes, AppendLog, AppendStates;
    var rec := RawBytes(RawOf(r));
    HoldsAppend(d, hist, cut, stale, r);
    RecoversHistory(AppendLog(d, rec), hist + [r], cut, stale, []);
    forall x | x in AppendStates(d, rec)
      ensures Recovered(x) == Replay(EMPTY, hist) || Recovered(x) == Replay(EMPTY, hist + [r])
    {
      var k :| 0 <= k <= |rec| && AppendStates(d, rec)[k] == x;
      if k < |rec| {
        HoldsTear(d, hist, cut, stale, r, k);
        RecoversHistory(x, hist, cut, stale, [] + rec[..k]);
      } else {
        assert rec[..k] == rec;
      }
    }
    AllNewSnoc(hist, r);
    ReplaySnoc(EMPTY, hist, r);
  }

  /** Every state of installing a snapshot recovers to the history before it or the one it stands for. */
  lemma SavedHolds(d: Disk, hist: seq<Rec>, cut: nat, stale: seq<Rec>, torn: seq<byte>, target: seq<Rec>, removed: bool)
    requires Holds(d, hist, cut, stale, torn) && hist <= target && RecsFit(target) && VolFits(Replay(EMPTY, target))
    ensures var b := VolBytes(Replay(EMPTY, target));
      && cut <= |hist|
      && Holds(Saved(d, b, removed), target, |target|,
               if removed then [] else stale + hist[cut..], if removed then [] else torn)
      && Recovered(Saved(d, b, removed)) == Replay(EMPTY, target)
      && forall x :: x in SaveStates(d, b, removed) ==>
        Recovered(x) == Replay(EMPTY, hist) || Recovered(x) == Replay(EMPTY, target)
  {
    hide Holds, Replay, VolFits, VolBytes, Recovered, RecsFit, RenameTmp, DropLog, PutTmp, SaveStates;
    SavePoints(d, hist, cut, stale, torn, target);
    var b := VolBytes(Replay(EMPTY, target));
    forall x | x in SaveStates(d, b, removed)
      ensures Recovered(x) == Replay(EMPTY, hist) || Recovered(x) == Replay(EMPTY, target)
    {
      SaveStateIs(d, b, removed, x);
    }
  }

  lemma SaveStateIs(d: Disk, b: seq<byte>, removed: bool, x: Disk)
    requires x in SaveStates(d, b, removed)
    ensures x == RenameTmp(PutTmp(d, b)) || x == Saved(d, b, removed) || exists y :: x == PutTmp(d, y)
  {
    hide RenameTmp, DropLog, PutTmp, SaveStates, Saved;
    var k :| 0 <= k < |b| + 3 && SaveStates(d, b, removed)[k] == x;
    if k <= |b| { assert x == PutTmp(d, b[..k]); }
  }

  lemma EmptyDiskHolds()
    ensures Holds(Disk(None, None, None), [], 0, [], [])
  {
    assert CutFrom([], Raw(0, []));
    var none: seq<Rec> := [];
    assert none + none[0..] == none && RawsOf(none) == [];
  }
}
