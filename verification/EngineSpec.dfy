/** What an engine means: exactly-once replay, and the snapshot that carries it (lib.rs). */
module EngineSpec {
  import opened Wrappers
  import opened Bytes
  import opened Text
  import opened Ordering
  import opened State

  type Marks = map<u32, u64>

  /** The volatile part of an engine: store, per-client high-water marks, horizon. */
  datatype Vol = Vol(kv: Kv, applied: Marks, lastTs: u64)

  const EMPTY: Vol := Vol(map[], map[], 0)

  /** A timestamped operation of the ordered stream. */
  datatype Rec = Rec(ts: u64, op: Op)

  function Hw(a: Marks, c: u32): u64 { if c in a then a[c] else 0 }

  predicate Accepts(v: Vol, op: Op) { op.seqno > Hw(v.applied, op.client) }

  /** `apply_dedup`: a new operation takes effect, a known one changes nothing. */
  function Step(v: Vol, r: Rec): Vol {
    if Accepts(v, r.op) then
      Vol(ApplyOp(v.kv, r.op.kind).0, v.applied[r.op.client := r.op.seqno], if r.ts > v.lastTs then r.ts else v.lastTs)
    else v
  }

  function Replay(v: Vol, rs: seq<Rec>): Vol {
    if |rs| == 0 then v else Step(Replay(v, rs[..|rs| - 1]), rs[|rs| - 1])
  }

  lemma ReplaySnoc(v: Vol, rs: seq<Rec>, r: Rec)
    ensures Replay(v, rs + [r]) == Step(Replay(v, rs), r)
  {
    assert (rs + [r])[..|rs|] == rs;
  }

  lemma {:induction false} ReplayConcat(v: Vol, a: seq<Rec>, b: seq<Rec>)
    ensures Replay(v, a + b) == Replay(Replay(v, a), b)
  {
    hide Step;
    if |b| == 0 {
      assert a + b == a;
    } else {
      assert (a + b)[..|a + b| - 1] == a + b[..|b| - 1];
      ReplayConcat(v, a, b[..|b| - 1]);
    }
  }

  lemma ReplaySplit(v: Vol, rs: seq<Rec>, k: nat)
    requires k <= |rs|
    ensures Replay(Replay(v, rs[..k]), rs[k..]) == Replay(v, rs)
  {
    hide Replay;
    ReplayConcat(v, rs[..k], rs[k..]);
    assert rs[..k] + rs[k..] == rs;
  }

  /** Every operation of `rs` is at or below its client's mark. */
  predicate Covered(v: Vol, rs: seq<Rec>) {
    forall i :: 0 <= i < |rs| ==> !Accepts(v, rs[i].op)
  }

  lemma {:induction false} ReplayCovered(v: Vol, rs: seq<Rec>)
    requires Covered(v, rs)
    ensures Replay(v, rs) == v
  {
    if |rs| > 0 { ReplayCovered(v, rs[..|rs| - 1]); }
  }

  lemma {:induction false} MarksGrow(v: Vol, rs: seq<Rec>, c: u32)
    ensures Hw(v.applied, c) <= Hw(Replay(v, rs).applied, c)
  {
    if |rs| > 0 { MarksGrow(v, rs[..|rs| - 1], c); }
  }

  /** After a replay, replaying any of the same operations again is a no-op. */
  lemma {:induction false} ReplayCovers(v: Vol, rs: seq<Rec>)
    ensures Covered(Replay(v, rs), rs)
  {
    if |rs| > 0 {
      var n := |rs| - 1;
      ReplayCovers(v, rs[..n]);
      forall i | 0 <= i < |rs| ensures !Accepts(Replay(v, rs), rs[i].op) {
        if i < n { assert rs[..n][i] == rs[i]; }
      }
    }
  }

  lemma CoveredStays(v: Vol, rs: seq<Rec>, more: seq<Rec>)
    requires Covered(v, rs)
    ensures Covered(Replay(v, more), rs)
  {
    hide Replay;
    forall i | 0 <= i < |rs| ensures !Accepts(Replay(v, more), rs[i].op) {
      MarksGrow(v, more, rs[i].op.client);
    }
  }

  /** A history in which every operation was new when it arrived. */
  predicate AllNew(hist: seq<Rec>) {
    forall i :: 0 <= i < |hist| ==> Accepts(Replay(EMPTY, hist[..i]), hist[i].op)
  }

  lemma AllNewSnoc(hist: seq<Rec>, r: Rec)
    requires AllNew(hist) && Accepts(Replay(EMPTY, hist), r.op)
    ensures AllNew(hist + [r])
  {
    hide Replay, Accepts;
    forall i | 0 <= i < |hist| + 1 ensures Accepts(Replay(EMPTY, (hist + [r])[..i]), (hist + [r])[i].op) {
      assert (hist + [r])[..i] == hist[..i];
      assert i == |hist| ==> hist[..i] == hist;
    }
  }

  /** No `(client, seq)` pair occurs twice in a history of new operations. */
  lemma AppliedOnce(hist: seq<Rec>, i: nat, j: nat)
    requires AllNew(hist) && i < j < |hist|
    ensures hist[i].op.client == hist[j].op.client ==> hist[i].op.seqno < hist[j].op.seqno
  {
    hide Replay;
    ReplayCovers(EMPTY, hist[..j]);
    assert hist[..j][i] == hist[i];
  }

  /** `reference_apply`: the oracle without persistence. */
  method ReferenceApply(ops: seq<Op>, ghost ts: seq<u64>) returns (kv: Kv)
    requires |ts| == |ops|
    ensures kv == Replay(EMPTY, seq(|ops|, i requires 0 <= i < |ops| => Rec(ts[i], ops[i]))).kv
  {
    hide ApplyOp;
    ghost var rs := seq(|ops|, i requires 0 <= i < |ops| => Rec(ts[i], ops[i]));
    var applied: Marks := map[];
    kv := map[];
    var i := 0;
    while i < |ops|
      invariant 0 <= i <= |ops|
      invariant kv == Replay(EMPTY, rs[..i]).kv && applied == Replay(EMPTY, rs[..i]).applied
    {
      ReplaySnoc(EMPTY, rs[..i], rs[i]);
      assert rs[..i + 1] == rs[..i] + [rs[i]];
      if ops[i].seqno > Hw(applied, ops[i].client) {
        kv := ApplyOp(kv, ops[i].kind).0;
        applied := applied[ops[i].client := ops[i].seqno];
      }
      i := i + 1;
    }
    assert rs[..i] == rs;
  }

  // ----------------------------------------------------------- engine snapshots

  function ClientsInOrder(a: Marks): (r: seq<u32>)
    ensures |r| == |a| && forall c :: c in r <==> c in a
  {
    IdIsTotalOrder();
    Ascending(a.Keys, IdLe)
  }

  /** A snapshot lists the clients by ascending id. */
  lemma ClientsAscend(a: Marks, i: nat, j: nat)
    requires i < j < |ClientsInOrder(a)|
    ensures ClientsInOrder(a)[i] < ClientsInOrder(a)[j]
  {
    IdIsTotalOrder();
    AscendingSorted(a.Keys, IdLe);
  }

  function MarkBytes(c: u32, s: u64): (r: seq<byte>)
    ensures |r| == 12
  {
    LE(c, 4) + LE(s, 8)
  }

  function MarksBytes(a: Marks, cs: seq<u32>): seq<byte>
    requires forall c :: c in cs ==> c in a
  {
    if |cs| == 0 then [] else MarkBytes(cs[0], a[cs[0]]) + MarksBytes(a, cs[1..])
  }

  /** Twelve bytes per mark: the client's id and its highest sequence number. */
  lemma {:induction false} MarksLayout(a: Marks, cs: seq<u32>, i: nat)
    requires (forall c :: c in cs ==> c in a) && i < |cs|
    ensures var b := MarksBytes(a, cs);
      |b| >= 12 * i + 12 && b[12 * i..12 * i + 4] == LE(cs[i], 4) && b[12 * i + 4..12 * i + 12] == LE(a[cs[i]], 8)
  {
    hide LE;
    var first, rest := MarkBytes(cs[0], a[cs[0]]), MarksBytes(a, cs[1..]);
    if i > 0 {
      MarksLayout(a, cs[1..], i - 1);
      var j := 12 * (i - 1);
      assert (first + rest)[12 * i..12 * i + 4] == rest[j..j + 4];
      assert (first + rest)[12 * i + 4..12 * i + 12] == rest[j + 4..j + 12];
    }
  }

  /** `encode_snapshot`: `last_ts(8) n(4) (client(4) seq(8))* len(4) store`. */
  function VolBytes(v: Vol): seq<byte> {
    LE(v.lastTs, 8) + (LE(Sat32(|v.applied|), 4) +
      (MarksBytes(v.applied, ClientsInOrder(v.applied)) + (LE(Sat32(|KvBytes(v.kv)|), 4) + KvBytes(v.kv))))
  }

  /** Where the fields of an engine snapshot stand: horizon, number of marks, marks, store. */
  lemma SnapshotLayout(v: Vol)
    requires |v.applied| <= MAX_U32 && |KvBytes(v.kv)| <= MAX_U32
    ensures var b, n := VolBytes(v), |MarksBytes(v.applied, ClientsInOrder(v.applied))|;
      && |b| == 16 + n + |KvBytes(v.kv)|
      && b[..8] == LE(v.lastTs, 8) && b[8..12] == LE(|v.applied|, 4)
      && b[12 + n..16 + n] == LE(|KvBytes(v.kv)|, 4) && b[16 + n..] == KvBytes(v.kv)
  {
    hide LE, KvBytes, MarksBytes, ClientsInOrder;
    var m, kv := MarksBytes(v.applied, ClientsInOrder(v.applied)), KvBytes(v.kv);
    var t2 := LE(|kv|, 4) + kv;
    var t1 := LE(|v.applied|, 4) + (m + t2);
    assert VolBytes(v)[8..] == t1 && t1[4..] == m + t2 && (m + t2)[|m|..] == t2;
  }

  function GetMark(b: seq<byte>): (r: Option<(u32, u64, seq<byte>)>)
    ensures r.Some? ==> |r.value.2| + 12 == |b|
  {
    var (c, b1) :- GetU32(b);
    var (s, b2) :- GetU64(b1);
    Some((c, s, b2))
  }

  /** Where the cursor stands after a pair that is cut short: a whole client id is consumed. */
  function AfterShortMark(b: seq<byte>): seq<byte> { if |b| < 4 then b else b[4..] }

  /** The marks loop: stops at the first short pair. */
  function ReadMarks(a: Marks, n: nat, b: seq<byte>): (Marks, seq<byte>)
    decreases n
  {
    if n == 0 then (a, b)
    else if GetMark(b).None? then (a, AfterShortMark(b))
    else
      var (c, s, rest) := GetMark(b).value;
      ReadMarks(a[c := s], n - 1, rest)
  }

  /** `load_snapshot` into an engine that holds `v0`: a short file changes nothing. */
  function VolOf(v0: Vol, b: seq<byte>): Vol {
    match SnapshotFields(b)
    case None => v0
    case Some((ts, applied, sm)) => Vol(KvOf(sm), applied, ts)
  }

  /** Horizon, marks and store bytes of a snapshot; `None` when a field is short. */
  function SnapshotFields(b: seq<byte>): Option<(u64, Marks, seq<byte>)> {
    var (ts, b1) :- GetU64(b);
    var (n, b2) :- GetU32(b1);
    var (applied, b3) := ReadMarks(map[], n, b2);
    var (sm, _) :- GetBlob(b3);
    Some((ts, applied, sm))
  }

  predicate VolFits(v: Vol) {
    KvFits(v.kv) && |v.applied| <= MAX_U32 && |KvBytes(v.kv)| <= MAX_U32
  }

  function OnClients(a: Marks, cs: seq<u32>): Marks
    requires forall c :: c in cs ==> c in a
  {
    map c | c in cs :: a[c]
  }

  lemma GetMarkAppend(c: u32, s: u64, rest: seq<byte>)
    ensures GetMark(MarkBytes(c, s) + rest) == Some((c, s, rest))
  {
    hide LE, GetU32, GetU64;
    assert MarkBytes(c, s) + rest == LE(c, 4) + (LE(s, 8) + rest);
    GetU32Append(c, LE(s, 8) + rest);
    GetU64Append(s, rest);
  }

  lemma {:induction false} ReadMarksAppend(acc: Marks, a: Marks, cs: seq<u32>, rest: seq<byte>)
    requires forall c :: c in cs ==> c in a
    ensures ReadMarks(acc, |cs|, MarksBytes(a, cs) + rest) == (acc + OnClients(a, cs), rest)
    decreases |cs|
  {
    hide GetMark, MarkBytes;
    if |cs| > 0 {
      var c := cs[0];
      assert MarksBytes(a, cs) + rest == MarkBytes(c, a[c]) + (MarksBytes(a, cs[1..]) + rest);
      GetMarkAppend(c, a[c], MarksBytes(a, cs[1..]) + rest);
      ReadMarksAppend(acc[c := a[c]], a, cs[1..], rest);
      PutClientFirst(acc, a, cs);
    } else {
      assert MarksBytes(a, cs) + rest == rest;
      assert acc + OnClients(a, cs) == acc;
    }
  }

  lemma PutClientFirst(acc: Marks, a: Marks, cs: seq<u32>)
    requires |cs| > 0 && forall c :: c in cs ==> c in a
    ensures acc[cs[0] := a[cs[0]]] + OnClients(a, cs[1..]) == acc + OnClients(a, cs)
  {
    assert forall c :: c in cs <==> c == cs[0] || c in cs[1..];
  }

  lemma {:induction false} ReadMarksSize(acc: Marks, n: nat, b: seq<byte>)
    ensures |ReadMarks(acc, n, b).0| <= |acc| + n
    decreases n
  {
    hide GetMark;
    if n > 0 && GetMark(b).Some? {
      var (c, s, rest) := GetMark(b).value;
      assert acc[c := s].Keys == acc.Keys + {c};
      ReadMarksSize(acc[c := s], n - 1, rest);
    }
  }

  /** Reading the encoding of `v`, up to the store bytes, whatever the store part is. */
  lemma LoadHeader(v0: Vol, v: Vol, tail: seq<byte>)
    requires |v.applied| <= MAX_U32
    ensures VolOf(v0, LE(v.lastTs, 8) + (LE(Sat32(|v.applied|), 4)
                      + (MarksBytes(v.applied, ClientsInOrder(v.applied)) + tail)))
         == if GetBlob(tail).None? then v0 else Vol(KvOf(GetBlob(tail).value.0), v.applied, v.lastTs)
  {
    hide LE, GetU32, GetU64, GetBlob, KvOf, MarksBytes, ReadMarks;
    var cs := ClientsInOrder(v.applied);
    hide ClientsInOrder;
    var t2 := MarksBytes(v.applied, cs) + tail;
    GetU64Append(v.lastTs, LE(Sat32(|v.applied|), 4) + t2);
    GetU32Append(|v.applied|, t2);
    ReadMarksAppend(map[], v.applied, cs, tail);
    assert map[] + OnClients(v.applied, cs) == v.applied;
  }

  lemma LoadSaved(v0: Vol, v: Vol)
    requires VolFits(v)
    ensures VolOf(v0, VolBytes(v)) == v
  {
    hide LE, GetBlob, KvOf, KvBytes, MarksBytes, VolOf, ClientsInOrder, KvFits;
    var sm := KvBytes(v.kv);
    LoadHeader(v0, v, LE(Sat32(|sm|), 4) + sm);
    GetBlobAppend(sm, []);
    assert sm + [] == sm;
    KvRoundTrip(v.kv);
  }

  lemma GetBlobCut(v: seq<byte>, u: seq<byte>)
    requires |v| <= MAX_U32 && |u| < 4 + |v| && u == (LE(Sat32(|v|), 4) + v)[..|u|]
    ensures GetBlob(u).None?
  {
    hide LE;
    if |u| >= 4 {
      PrefixOfConcat(LE(Sat32(|v|), 4), v, u);
      GetU32Append(|v|, u[4..]);
    }
  }

  lemma GetEntryCut(k: Str, v: seq<byte>, p: seq<byte>)
    requires KeyFits(k) && |v| <= MAX_U32
    requires |p| < |EntryBytes(k, v)| && p == EntryBytes(k, v)[..|p|]
    ensures GetEntry(p).None?
  {
    hide LE, Utf8, GetU16, GetBlob;
    if |p| >= 2 {
      var t := p[2..];
      var body := LE(Sat32(|v|), 4) + v;
      PrefixOfConcat(LE(Sat16(|k|), 2), k + body, p);
      GetU16Append(|k|, t);
      if |t| >= |k| {
        var u := t[|k|..];
        PrefixOfConcat(k, body, t);
        SplitAppend(k, u);
        GetBlobCut(v, u);
      }
    }
  }

  /** A store snapshot cut short comes back with at least one entry missing. */
  lemma {:induction false} ReadEntriesCut(acc: Kv, m: Kv, ks: seq<Str>, p: seq<byte>)
    requires EntriesFit(m) && forall k :: k in ks ==> k in m
    requires |p| < |EntriesBytes(m, ks)| && p == EntriesBytes(m, ks)[..|p|]
    ensures |ReadEntries(acc, |ks|, p)| < |acc| + |ks|
    decreases |ks|
  {
    hide GetEntry, EntryBytes;
    var k := ks[0];
    var e := EntryBytes(k, m[k]);
    if |p| < |e| {
      assert p == e[..|p|];
      GetEntryCut(k, m[k], p);
    } else {
      var q := p[|e|..];
      PrefixOfConcat(e, EntriesBytes(m, ks[1..]), p);
      GetEntryAppend(k, m[k], q);
      assert acc[k := m[k]].Keys == acc.Keys + {k};
      ReadEntriesCut(acc[k := m[k]], m, ks[1..], q);
    }
  }

  lemma TruncatedStore(m: Kv, p: seq<byte>)
    requires KvFits(m) && |p| < |KvBytes(m)| && p == KvBytes(m)[..|p|]
    ensures KvOf(p) == m ==> m == map[]
  {
    hide LE, GetU32, EntriesBytes, ReadEntries, EntriesFit;
    var ks := KeysInOrder(m);
    hide KeysInOrder;
    if |p| >= 4 {
      var q := p[4..];
      PrefixOfConcat(LE(Sat32(|m|), 4), EntriesBytes(m, ks), p);
      GetU32Append(|m|, q);
      ReadEntriesCut(map[], m, ks, q);
    }
  }

  /** An engine snapshot restores exactly the state it was cut from when, and only when, the sizes fit. */
  lemma VolRoundTrip(v: Vol)
    ensures VolFits(v) <==> forall v0 :: VolOf(v0, VolBytes(v)) == v
  {
    if VolFits(v) {
      forall v0 ensures VolOf(v0, VolBytes(v)) == v { LoadSaved(v0, v); }
    } else {
      var v0 := if v == EMPTY then EMPTY.(lastTs := 1) else EMPTY;
      if VolOf(v0, VolBytes(v)) == v { UnfitDiffers(v0, v); }
    }
  }

  lemma UnfitDiffers(v0: Vol, v: Vol)
    requires !VolFits(v) && v0 != v
    ensures VolOf(v0, VolBytes(v)) != v
  {
    hide LE, GetU32, GetU64, GetBlob, EntriesBytes, ReadEntries, EntriesFit, ClientsInOrder, ReadMarks, MarksBytes;
    if VolOf(v0, VolBytes(v)) == v {
      var b1 := GetU64(VolBytes(v)).value.1;
      var (n, b2) := GetU32(b1).value;
      var (applied, b3) := ReadMarks(map[], n, b2);
      ReadMarksSize(map[], n, b2);
      assert GetBlob(b3).Some?;
      var sm := GetBlob(b3).value.0;
      RestoredFits(sm);
      assert KvFits(v.kv) && |v.applied| <= MAX_U32;
      var full := KvBytes(v.kv);
      LoadHeader(v0, v, LE(Sat32(|full|), 4) + full);
      BlobOfLong(full);
      TruncatedStore(v.kv, full[..MAX_U32]);
      EmptyStoreIsShort();
      assert false;
    }
  }

  lemma RestoredFits(b: seq<byte>)
    ensures KvFits(KvOf(b))
  {
    hide GetU32, ReadEntries;
    match GetU32(b)
    case None =>
    case Some((n, rest)) => ReadEntriesFit(map[], n, rest);
  }

  lemma BlobOfLong(full: seq<byte>)
    requires |full| > MAX_U32
    ensures GetBlob(LE(Sat32(|full|), 4) + full) == Some((full[..MAX_U32], full[MAX_U32..]))
  {
    hide LE;
    GetU32Append(MAX_U32, full);
  }

  lemma EmptyStoreIsShort()
    ensures |KvBytes(map[])| == 4
  {
    assert |KeysInOrder(map[])| == 0;
  }
}
