/** Recovery from bytes: snapshot plus deduplicated replay of the log (lib.rs, durable.rs). */
module Recovery {
  import opened Wrappers
  import opened Bytes
  import opened State
  import opened EngineSpec
  import opened Durable

  function RawOf(r: Rec): Raw { Raw(r.ts, OpBytes(r.op)) }

  function RawsOf(rs: seq<Rec>): (raws: seq<Raw>)
    ensures |raws| == |rs| && forall i :: 0 <= i < |rs| ==> raws[i] == RawOf(rs[i])
  {
    seq(|rs|, i requires 0 <= i < |rs| => RawOf(rs[i]))
  }

  /** Operations whose record the log format can hold. */
  predicate RecFits(r: Rec) { OpFits(r.op) && |OpBytes(r.op)| <= MAX_U32 }
  predicate RecsFit(rs: seq<Rec>) { forall i :: 0 <= i < |rs| ==> RecFits(rs[i]) }

  /** One record of the replay loop: undecodable bytes are skipped. */
  function StepRaw(v: Vol, r: Raw): Vol {
    if OpOf(r.body).Some? then Step(v, Rec(r.ts, OpOf(r.body).value)) else v
  }

  function ReplayRaws(v: Vol, rs: seq<Raw>): Vol {
    if |rs| == 0 then v else StepRaw(ReplayRaws(v, rs[..|rs| - 1]), rs[|rs| - 1])
  }

  predicate Applies(v: Vol, r: Raw) {
    OpOf(r.body).Some? && Accepts(v, OpOf(r.body).value)
  }

  /** The `replayed` counter: records that were not suppressed. */
  function ReplayedRaws(v: Vol, rs: seq<Raw>): nat {
    if |rs| == 0 then 0
    else
      var n := |rs| - 1;
      ReplayedRaws(v, rs[..n]) + if Applies(ReplayRaws(v, rs[..n]), rs[n]) then 1 else 0
  }

  function SnapVol(d: Disk): Vol { if d.snap.Some? then VolOf(EMPTY, d.snap.value) else EMPTY }

  /** `Engine::recover` as a function of the disk. */
  function Recovered(d: Disk): Vol { ReplayRaws(SnapVol(d), ReadRecs(LogOf(d))) }
  function Replayed(d: Disk): nat { ReplayedRaws(SnapVol(d), ReadRecs(LogOf(d))) }

  /** The position inside the snapshot window that recovery resumes from. */
  function Window(replayed: nat, interval: nat): (r: nat)
    requires interval > 0
    ensures r < interval
  {
    replayed % interval
  }

  /** What is left of the window: past the largest multiple of the interval that is not above the count. */
  lemma WindowLaw(replayed: nat, interval: nat)
    requires interval > 0
    ensures var w := Window(replayed, interval);
      && 0 <= w < interval && w <= replayed
      && exists k: nat :: replayed - w == k * interval
  {
    assert replayed == (replayed / interval) * interval + replayed % interval;
  }

  lemma {:induction false} ReplayOfBytes(v: Vol, rs: seq<Rec>)
    requires RecsFit(rs)
    ensures ReplayRaws(v, RawsOf(rs)) == Replay(v, rs)
  {
    hide OpBytes, OpOf, OpFits, Step;
    if |rs| > 0 {
      var n := |rs| - 1;
      ReplayOfBytes(v, rs[..n]);
      assert RawsOf(rs)[..n] == RawsOf(rs[..n]);
      assert RecFits(rs[n]);
      DecodeEncode(rs[n].op, []);
      assert OpBytes(rs[n].op) + [] == OpBytes(rs[n].op);
    }
  }

  lemma {:induction false} ReplayedOfBytes(v: Vol, rs: seq<Rec>, k: nat)
    requires RecsFit(rs) && k <= |rs|
    requires forall i :: 0 <= i < k ==> !Accepts(Replay(v, rs[..i]), rs[i].op)
    requires forall i :: k <= i < |rs| ==> Accepts(Replay(v, rs[..i]), rs[i].op)
    ensures ReplayedRaws(v, RawsOf(rs)) == |rs| - k
    decreases |rs|
  {
    hide OpBytes, OpOf, OpFits, Replay, ReplayRaws, Accepts;
    if |rs| > 0 {
      var n := |rs| - 1;
      forall i | 0 <= i < n ensures rs[..n][..i] == rs[..i] {}
      ReplayedOfBytes(v, rs[..n], if k == |rs| then n else k);
      ReplayOfBytes(v, rs[..n]);
      assert RawsOf(rs)[..n] == RawsOf(rs[..n]);
      assert RecFits(rs[n]);
      DecodeEncode(rs[n].op, []);
      assert OpBytes(rs[n].op) + [] == OpBytes(rs[n].op);
    }
  }

  /**
   * A disk that stands for the history `hist`: the snapshot is its first `cut` operations, the log is
   * `stale` records the snapshot already covers, then the rest of the history, then a torn tail.
   */
  ghost predicate Holds(d: Disk, hist: seq<Rec>, cut: nat, stale: seq<Rec>, torn: seq<byte>) {
    && cut <= |hist|
    && (d.snap.None? ==> cut == 0)
    && (d.snap.Some? ==> VolFits(Replay(EMPTY, hist[..cut])) && d.snap.value == VolBytes(Replay(EMPTY, hist[..cut])))
    && LogOf(d) == LogBytes(RawsOf(stale + hist[cut..])) + torn
    && RecsFit(hist) && RecsFit(stale) && Torn(torn)
    && Covered(Replay(EMPTY, hist[..cut]), stale)
  }

  lemma SnapOf(d: Disk, hist: seq<Rec>, cut: nat, stale: seq<Rec>, torn: seq<byte>)
    requires Holds(d, hist, cut, stale, torn)
    ensures SnapVol(d) == Replay(EMPTY, hist[..cut])
  {
    hide VolBytes, VolOf, VolFits;
    if d.snap.Some? {
      LoadSaved(EMPTY, Replay(EMPTY, hist[..cut]));
    } else {
      assert hist[..cut] == [];
    }
  }

  lemma LogReadsBack(d: Disk, hist: seq<Rec>, cut: nat, stale: seq<Rec>, torn: seq<byte>)
    requires Holds(d, hist, cut, stale, torn)
    ensures ReadRecs(LogOf(d)) == RawsOf(stale + hist[cut..])
  {
    hide LogBytes, ReadRecs, OpBytes, OpFits, Torn, Replay, VolBytes, VolFits, Covered;
    var rs := stale + hist[cut..];
    forall i | 0 <= i < |rs| ensures RawFits(RawsOf(rs)[i]) {
      assert RecFits(rs[i]) by {
        if i >= |stale| { assert rs[i] == hist[cut + i - |stale|]; }
      }
    }
    ReadTorn(RawsOf(rs), torn);
  }

  /** Recovery rebuilds exactly the replay of the history, never counting a stale record twice. */
  lemma RecoversHistory(d: Disk, hist: seq<Rec>, cut: nat, stale: seq<Rec>, torn: seq<byte>)
    requires Holds(d, hist, cut, stale, torn)
    ensures Recovered(d) == Replay(EMPTY, hist)
  {
    hide LogBytes, ReadRecs, ReplayRaws, Replay, Covered, Torn, VolBytes, VolFits, LogOf, SnapVol;
    SnapOf(d, hist, cut, stale, torn);
    LogReadsBack(d, hist, cut, stale, torn);
    var rs := stale + hist[cut..];
    assert RecsFit(rs);
    ReplayOfBytes(Replay(EMPTY, hist[..cut]), rs);
    StaleThenRest(hist, cut, stale);
  }

  /** Over its snapshot, a history's remaining operations behind covered ones rebuild the history. */
  lemma StaleThenRest(hist: seq<Rec>, cut: nat, stale: seq<Rec>)
    requires cut <= |hist| && Covered(Replay(EMPTY, hist[..cut]), stale)
    ensures Replay(Replay(EMPTY, hist[..cut]), stale + hist[cut..]) == Replay(EMPTY, hist)
  {
    hide Replay, Covered;
    var v := Replay(EMPTY, hist[..cut]);
    ReplayConcat(v, stale, hist[cut..]);
    ReplayCovered(v, stale);
    ReplaySplit(EMPTY, hist, cut);
  }

  /** While replaying over the snapshot, record `i` of the log is new exactly when it is not stale. */
  lemma NewExactlyAfterStale(hist: seq<Rec>, cut: nat, stale: seq<Rec>, i: nat)
    requires AllNew(hist) && cut <= |hist| && Covered(Replay(EMPTY, hist[..cut]), stale)
    requires i < |stale| + |hist| - cut
    ensures var rs := stale + hist[cut..];
      Accepts(Replay(Replay(EMPTY, hist[..cut]), rs[..i]), rs[i].op) <==> i >= |stale|
  {
    hide Replay, Accepts;
    var v := Replay(EMPTY, hist[..cut]);
    var rs := stale + hist[cut..];
    if i < |stale| {
      assert rs[..i] == stale[..i];
      ReplayCovered(v, stale[..i]);
    } else {
      var tail := hist[cut..][..i - |stale|];
      assert rs[..i] == stale + tail;
      ReplayConcat(v, stale, tail);
      ReplayCovered(v, stale);
      ReplayConcat(EMPTY, hist[..cut], tail);
      assert hist[..cut] + tail == hist[..cut + i - |stale|];
    }
  }

  /** The number of records the recovery loop applies: the part of the history after the cut. */
  lemma ReplaysSuffix(d: Disk, hist: seq<Rec>, cut: nat, stale: seq<Rec>, torn: seq<byte>)
    requires Holds(d, hist, cut, stale, torn) && AllNew(hist)
    ensures Replayed(d) == |hist| - cut
  {
    hide LogBytes, ReadRecs, ReplayRaws, Replay, Torn, VolBytes, VolFits, LogOf, SnapVol, Accepts, ReplayedRaws,
      Covered, AllNew;
    SnapOf(d, hist, cut, stale, torn);
    LogReadsBack(d, hist, cut, stale, torn);
    var rs := stale + hist[cut..];
    assert RecsFit(rs);
    forall i | 0 <= i < |rs|
      ensures Accepts(Replay(Replay(EMPTY, hist[..cut]), rs[..i]), rs[i].op) <==> i >= |stale|
    {
      NewExactlyAfterStale(hist, cut, stale, i);
    }
    ReplayedOfBytes(Replay(EMPTY, hist[..cut]), rs, |stale|);
  }

  // ------------------------------------------------------- appending behind a torn tail

  lemma FitRaws(rs: seq<Rec>)
    requires RecsFit(rs)
    ensures RawsFit(RawsOf(rs))
  {
    forall i | 0 <= i < |rs| ensures RawFits(RawsOf(rs)[i]) { assert RecFits(rs[i]); }
  }

  /** Reopening a torn log for appending is safe for every later operation exactly when nothing was torn. */
  lemma ReopenSafe(rs: seq<Raw>, t: seq<byte>)
    requires RawsFit(rs) && Torn(t)
    ensures t == [] <==> forall more: seq<Rec> :: RecsFit(more) ==>
      ReadRecs(LogBytes(rs) + (t + LogBytes(RawsOf(more)))) == rs + RawsOf(more)
  {
    hide ReadRecs, LogBytes, RawBytes, RecsFit;
    if t == [] {
      forall more: seq<Rec> | RecsFit(more)
        ensures ReadRecs(LogBytes(rs) + (t + LogBytes(RawsOf(more)))) == rs + RawsOf(more)
      {
        var raws := RawsOf(more);
        FitRaws(more);
        LogConcat(rs, raws);
        assert t + LogBytes(raws) == LogBytes(raws);
        NothingTorn();
        ReadTorn(rs + raws, []);
        assert LogBytes(rs + raws) + [] == LogBytes(rs + raws);
      }
    } else {
      var more := [Rec(if t[0] == 0 then 1 else 0, Op(0, 1, Get([])))];
      FirstOpFits(more[0]);
      LogOfOne(RawOf(more[0]));
      AppendBehindTorn(rs, t, RawOf(more[0]));
      assert RawsOf(more) == [RawOf(more[0])];
    }
  }

  lemma FirstOpFits(r: Rec)
    requires r.op == Op(0, 1, Get([]))
    ensures RecsFit([r]) && RawFits(RawOf(r))
  {}

  // ------------------------------------------- what each disk step does to a history

  lemma NothingTorn()
    ensures Torn([])
  {
    assert CutFrom([], Raw(0, []));
  }

  lemma HoldsAppend(d: Disk, hist: seq<Rec>, cut: nat, stale: seq<Rec>, r: Rec)
    requires Holds(d, hist, cut, stale, []) && RecFits(r)
    ensures Holds(AppendLog(d, RawBytes(RawOf(r))), hist + [r], cut, stale, [])
  {
    hide Replay, VolFits, VolBytes, Covered, RawBytes, LogBytes, RecFits, Torn;
    var h := hist + [r];
    assert h[..cut] == hist[..cut];
    var rs := stale + hist[cut..];
    assert stale + h[cut..] == rs + [r];
    assert RawsOf(rs + [r]) == RawsOf(rs) + [RawOf(r)];
    LogConcat(RawsOf(rs), [RawOf(r)]);
    LogOfOne(RawOf(r));
    assert LogBytes(RawsOf(rs)) + [] == LogBytes(RawsOf(rs));
    assert LogBytes(RawsOf(stale + h[cut..])) + [] == LogBytes(RawsOf(stale + h[cut..]));
  }

  lemma LogOfOne(r: Raw)
    ensures LogBytes([r]) == RawBytes(r)
  {
    assert [r][1..] == [];
  }

  lemma HoldsTear(d: Disk, hist: seq<Rec>, cut: nat, stale: seq<Rec>, r: Rec, n: nat)
    requires Holds(d, hist, cut, stale, []) && RecFits(r) && n < |RawBytes(RawOf(r))|
    ensures var t := RawBytes(RawOf(r))[..n];
      Holds(AppendLog(d, t), hist, cut, stale, [] + t)
  {
    hide Replay, VolFits, VolBytes, Covered, RawBytes, LogBytes, OpFits;
    var t := RawBytes(RawOf(r))[..n];
    assert [] + t == t;
    assert CutFrom(t, RawOf(r));
    assert RawFits(RawOf(r));
    var b := LogBytes(RawsOf(stale + hist[cut..]));
    assert b + [] == b;
  }

  /** Everything a log can hold beside the old snapshot is covered by any longer history. */
  lemma CoversOldLog(hist: seq<Rec>, cut: nat, stale: seq<Rec>, target: seq<Rec>)
    requires cut <= |hist| && hist <= target && Covered(Replay(EMPTY, hist[..cut]), stale)
    ensures Covered(Replay(EMPTY, target), stale + hist[cut..])
  {
    hide Replay, Accepts;
    assert target == hist[..cut] + target[cut..];
    ReplayConcat(EMPTY, hist[..cut], target[cut..]);
    CoveredStays(Replay(EMPTY, hist[..cut]), stale, target[cut..]);
    ReplayCovers(EMPTY, target);
    forall i | 0 <= i < |hist| - cut ensures !Accepts(Replay(EMPTY, target), hist[cut..][i].op) {
      assert hist[cut..][i] == target[cut + i];
    }
  }

  lemma HoldsRename(d: Disk, hist: seq<Rec>, cut: nat, stale: seq<Rec>, torn: seq<byte>, target: seq<Rec>)
    requires Holds(d, hist, cut, stale, torn) && hist <= target && RecsFit(target)
    requires VolFits(Replay(EMPTY, target)) && d.tmp == Some(VolBytes(Replay(EMPTY, target)))
    ensures Holds(RenameTmp(d), target, |target|, stale + hist[cut..], torn)
  {
    hide Replay, VolFits, VolBytes, LogBytes, RecFits, Torn, Covered;
    var rs := stale + hist[cut..];
    assert target[..|target|] == target && target[|target|..] == [];
    assert rs + [] == rs;
    CoversOldLog(hist, cut, stale, target);
    assert RecsFit(rs);
  }

  lemma HoldsDrop(d: Disk, hist: seq<Rec>, stale: seq<Rec>, torn: seq<byte>)
    requires Holds(d, hist, |hist|, stale, torn)
    ensures Holds(DropLog(d), hist, |hist|, [], [])
  {
    hide Replay, VolFits, VolBytes, RecFits, Torn;
    NothingTorn();
    assert hist[|hist|..] == [];
    assert RawsOf([] + hist[|hist|..]) == [];
  }

  lemma HoldsPutTmp(d: Disk, hist: seq<Rec>, cut: nat, stale: seq<Rec>, torn: seq<byte>, x: seq<byte>)
    requires Holds(d, hist, cut, stale, torn)
    ensures Holds(PutTmp(d, x), hist, cut, stale, torn)
  {
    hide Replay, VolFits, VolBytes, LogBytes, RecsFit, Torn, Covered;
  }

  lemma HoldsOpen(d: Disk, hist: seq<Rec>, cut: nat, stale: seq<Rec>, torn: seq<byte>)
    requires Holds(d, hist, cut, stale, torn)
    ensures Holds(AppendLog(d, []), hist, cut, stale, torn)
  {
    hide Replay, VolFits, VolBytes, LogBytes, RecsFit, Torn, Covered;
    assert LogOf(d) + [] == LogOf(d);
  }

  /** A crash at any point of `write_snapshot` recovers to the history before or the one being saved. */
  lemma SavePoints(d: Disk, hist: seq<Rec>, cut: nat, stale: seq<Rec>, torn: seq<byte>, target: seq<Rec>)
    requires Holds(d, hist, cut, stale, torn) && hist <= target && RecsFit(target) && VolFits(Replay(EMPTY, target))
    ensures var b := VolBytes(Replay(EMPTY, target));
      && (forall x :: Recovered(PutTmp(d, x)) == Replay(EMPTY, hist))
      && Recovered(RenameTmp(PutTmp(d, b))) == Replay(EMPTY, target)
      && cut <= |hist| && Holds(RenameTmp(PutTmp(d, b)), target, |target|, stale + hist[cut..], torn)
      && Holds(DropLog(RenameTmp(PutTmp(d, b))), target, |target|, [], [])
      && Recovered(DropLog(RenameTmp(PutTmp(d, b)))) == Replay(EMPTY, target)
  {
    hide Holds, Replay, VolFits, VolBytes, Recovered, RecsFit, RenameTmp, DropLog;
    var b := VolBytes(Replay(EMPTY, target));
    forall x ensures Recovered(PutTmp(d, x)) == Replay(EMPTY, hist) {
      HoldsPutTmp(d, hist, cut, stale, torn, x);
      RecoversHistory(PutTmp(d, x), hist, cut, stale, torn);
    }
    var d1 := PutTmp(d, b);
    HoldsPutTmp(d, hist, cut, stale, torn, b);
    HoldsRename(d1, hist, cut, stale, torn, target);
    CutInside(d, hist, cut, stale, torn);
    var st := stale + hist[cut..];
    RecoversHistory(RenameTmp(d1), target, |target|, st, torn);
    HoldsDrop(RenameTmp(d1), target, st, torn);
    RecoversHistory(DropLog(RenameTmp(d1)), target, |target|, [], []);
  }

  lemma CutInside(d: Disk, hist: seq<Rec>, cut: nat, stale: seq<Rec>, torn: seq<byte>)
    requires Holds(d, hist, cut, stale, torn)
    ensures cut <= |hist| && RecsFit(hist)
  {
    hide Replay, VolFits, VolBytes, LogBytes, RecFits, Torn, Covered;
  }

  // ------------------------------------------------ when an old log may stay beside a snapshot

  /** Replaying operations of which some are new changes the marks. */
  lemma {:induction false} NewChanges(v: Vol, rs: seq<Rec>, i: nat)
    requires i < |rs| && Accepts(v, rs[i].op)
    ensures Replay(v, rs) != v
  {
    hide Replay, Accepts;
    ReplayCovers(v, rs);
  }

  /**
   * Between the rename of an imported snapshot and the removal of the old log, recovery gives the
   * imported state exactly when it covers every operation in that log; otherwise it gives a mix.
   */
  lemma ImportedAlone(d: Disk, hist: seq<Rec>, cut: nat, stale: seq<Rec>, torn: seq<byte>, peer: seq<Rec>)
    requires Holds(d, hist, cut, stale, torn) && VolFits(Replay(EMPTY, peer))
    ensures cut <= |hist|
    ensures Recovered(RenameTmp(PutTmp(d, VolBytes(Replay(EMPTY, peer))))) == Replay(EMPTY, peer)
      <==> Covered(Replay(EMPTY, peer), stale + hist[cut..])
  {
    hide LogBytes, ReadRecs, ReplayRaws, Replay, Torn, VolBytes, VolFits, VolOf, Accepts;
    var v, rs := Replay(EMPTY, peer), stale + hist[cut..];
    var d' := RenameTmp(PutTmp(d, VolBytes(v)));
    LoadSaved(EMPTY, v);
    LogReadsBack(d, hist, cut, stale, torn);
    assert RecsFit(rs);
    ReplayOfBytes(v, rs);
    assert Recovered(d') == Replay(v, rs);
    if Covered(v, rs) {
      ReplayCovered(v, rs);
    } else {
      var i :| 0 <= i < |rs| && Accepts(v, rs[i].op);
      NewChanges(v, rs, i);
    }
  }
}
