/** The engine with every disk operation as its own step and a crash possible between any two (lib.rs, durable.rs). */
module CrashRuns {
  import opened Wrappers
  import opened Bytes
  import opened State
  import opened EngineSpec
  import opened Durable
  import opened Recovery

  datatype Stage = Begun | Written | Renamed

  /** What a caller was told about an operation. */
  datatype Answer = Answer(r: Rec, out: Output)

  /** Where the engine is: idle, between apply and append, inside `write_snapshot`, or crashed. */
  datatype Phase =
    | Idle
    | Appending(r: Rec, out: Output)
    | Saving(stage: Stage, bytes: seq<byte>, target: seq<Rec>, reply: Option<Answer>)
    | Down

  /**
   * `vol`, `interval`, `since`, `disk` and `phase` are the engine; the rest is history: `hist` the
   * operations whose append completed, `cut`, `stale` and `torn` how the disk stands for them,
   * `acked` the answers given to callers, `crashes` those since the last snapshot.
   */
  datatype Sys = Sys(vol: Vol, interval: nat, since: nat, disk: Disk, phase: Phase,
                     hist: seq<Rec>, cut: nat, stale: seq<Rec>, torn: seq<byte>,
                     acked: seq<Answer>, crashes: nat)

  datatype Event =
    | Deliver(r: Rec)
    | Append
    | Tear(n: nat)
    | StartSnapshot
    | StartImport(peer: seq<Rec>)
    | WriteTmp(n: nat)
    | Rename
    | RemoveLog(ok: bool)
    | Crash
    | Recover

  /** `Engine::create` on an empty directory; the interval is at least 1. */
  function Init(interval: nat): Sys {
    Sys(EMPTY, if interval == 0 then 1 else interval, 0, Disk(None, None, None), Idle, [], 0, [], [], [], 0)
  }

  predicate Enabled(s: Sys, e: Event) {
    match e
    case Deliver(_) => s.phase.Idle?
    case Append => s.phase.Appending?
    case Tear(n) => s.phase.Appending? && n < |RawBytes(RawOf(s.phase.r))|
    case StartSnapshot => s.phase.Idle?
    case StartImport(_) => s.phase.Idle?
    case WriteTmp(n) => s.phase.Saving? && s.phase.stage.Begun? && n <= |s.phase.bytes|
    case Rename => s.phase.Saving? && s.phase.stage.Written?
    case RemoveLog(_) => s.phase.Saving? && s.phase.stage.Renamed?
    case Crash => !s.phase.Down?
    case Recover => s.phase.Down? && s.interval > 0
  }

  function Fail(s: Sys): Sys {
    s.(vol := EMPTY, since := 0, phase := Down, crashes := s.crashes + 1)
  }

  function DeliverStep(s: Sys, r: Rec): Sys {
    if Accepts(s.vol, r.op) then s.(vol := Step(s.vol, r), phase := Appending(r, ApplyOp(s.vol.kv, r.op.kind).1)) else s
  }

  function AppendStep(s: Sys): Sys
    requires s.phase.Appending?
  {
    var r, answer := s.phase.r, Answer(s.phase.r, s.phase.out);
    var t := s.(disk := AppendLog(s.disk, RawBytes(RawOf(r))), hist := s.hist + [r], since := s.since + 1);
    if t.since >= t.interval then t.(phase := Saving(Begun, VolBytes(s.vol), t.hist, Some(answer)))
    else t.(phase := Idle, acked := s.acked + [answer])
  }

  function TearStep(s: Sys, n: nat): Sys
    requires Enabled(s, Tear(n))
  {
    var cut := RawBytes(RawOf(s.phase.r))[..n];
    Fail(s.(disk := AppendLog(s.disk, cut), torn := s.torn + cut))
  }

  function ImportStep(s: Sys, peer: seq<Rec>): Sys {
    var bytes := VolBytes(Replay(EMPTY, peer));
    s.(vol := VolOf(s.vol, bytes), phase := Saving(Begun, bytes, peer, None))
  }

  function WriteTmpStep(s: Sys, n: nat): Sys
    requires Enabled(s, WriteTmp(n))
  {
    s.(disk := PutTmp(s.disk, s.phase.bytes[..n]),
       phase := s.phase.(stage := if n == |s.phase.bytes| then Written else Begun))
  }

  function RenameStep(s: Sys): Sys
    requires Enabled(s, Rename)
  {
    s.(disk := RenameTmp(s.disk), phase := s.phase.(stage := Renamed),
       hist := s.phase.target, cut := |s.phase.target|, stale := s.stale + s.hist[Min(s.cut, |s.hist|)..], crashes := 0)
  }

  function Min(a: nat, b: nat): nat { if a <= b then a else b }

  /** The log removal's failure is ignored by the code, so both outcomes are possible. */
  function RemoveStep(s: Sys, ok: bool): Sys
    requires Enabled(s, RemoveLog(ok))
  {
    var t := s.(since := 0, phase := Idle,
                acked := if s.phase.reply.Some? then s.acked + [s.phase.reply.value] else s.acked);
    if ok then t.(disk := DropLog(s.disk), stale := [], torn := []) else t
  }

  function RecoverStep(s: Sys): Sys
    requires s.interval > 0
  {
    s.(vol := Recovered(s.disk), since := Window(Replayed(s.disk), s.interval), phase := Idle)
  }

  function Next(s: Sys, e: Event): Sys
    requires Enabled(s, e)
  {
    match e
    case Deliver(r) => DeliverStep(s, r)
    case Append => AppendStep(s)
    case Tear(n) => TearStep(s, n)
    case StartSnapshot => s.(phase := Saving(Begun, VolBytes(s.vol), s.hist, None))
    case StartImport(peer) => ImportStep(s, peer)
    case WriteTmp(n) => WriteTmpStep(s, n)
    case Rename => RenameStep(s)
    case RemoveLog(ok) => RemoveStep(s, ok)
    case Crash => Fail(s)
    case Recover => RecoverStep(s)
  }

  /**
   * What the surroundings owe the engine: records and snapshots within the format's sizes, a state
   * transfer only from a peer that has accepted more of the same sequence, and no append behind a
   * torn tail. `Recovery.ReopenSafe`, `State.OpRoundTrip` and `EngineSpec.VolRoundTrip` show that
   * the size and tail conditions cannot be dropped.
   */
  predicate Benign(s: Sys, e: Event) {
    match e
    case Deliver(r) => RecFits(r)
    case Append => s.torn == []
    case Tear(_) => s.torn == []
    case StartImport(peer) => s.hist <= peer && AllNew(peer) && RecsFit(peer) && VolFits(Replay(EMPTY, peer))
    case Rename => VolFits(s.vol)
    case _ => true
  }

  function Exec(s: Sys, es: seq<Event>): Sys {
    if |es| == 0 then s
    else
      var t := Exec(s, es[..|es| - 1]);
      var e := es[|es| - 1];
      if Enabled(t, e) then Next(t, e) else t
  }

  function Do(s: Sys, e: Event): Sys { if Enabled(s, e) then Next(s, e) else s }

  lemma ExecSnoc(s: Sys, es: seq<Event>, e: Event)
    ensures Exec(s, es + [e]) == Do(Exec(s, es), e)
  {
    assert (es + [e])[..|es|] == es;
  }

  predicate BenignRun(s: Sys, es: seq<Event>) {
    |es| == 0 || (BenignRun(s, es[..|es| - 1]) && Benign(Exec(s, es[..|es| - 1]), es[|es| - 1]))
  }

  // --------------------------------------------------------------- the invariant

  /** The answer is what the operation at position `i` does to the replay of everything before it. */
  predicate AnswerAt(hist: seq<Rec>, i: nat, a: Answer) {
    i < |hist| && hist[i] == a.r && a.out == ApplyOp(Replay(EMPTY, hist[..i]).kv, a.r.op.kind).1
  }

  ghost predicate Answered(hist: seq<Rec>, a: Answer) { exists i: nat :: AnswerAt(hist, i, a) }

  /** Every answer is right for its place in the history, and none was given twice. */
  ghost predicate AnswersOk(hist: seq<Rec>, acked: seq<Answer>) {
    && (forall a :: a in acked ==> Answered(hist, a))
    && (forall i, j :: 0 <= i < j < |acked| ==> acked[i] != acked[j])
  }

  ghost predicate PhaseOk(s: Sys) {
    match s.phase
    case Idle => s.vol == Replay(EMPTY, s.hist) && s.since < s.interval
    case Appending(r, out) =>
      && Accepts(Replay(EMPTY, s.hist), r.op) && RecFits(r) && s.vol == Step(Replay(EMPTY, s.hist), r)
      && out == ApplyOp(Replay(EMPTY, s.hist).kv, r.op.kind).1
      && s.since < s.interval
    case Saving(stage, bytes, target, reply) =>
      && s.hist <= target && AllNew(target) && RecsFit(target)
      && s.vol == Replay(EMPTY, target) && bytes == VolBytes(s.vol)
      && (stage.Written? ==> s.disk.tmp == Some(bytes))
      && (stage.Renamed? ==> s.hist == target && s.cut == |target|)
      && (reply.Some? ==> Answered(s.hist, reply.value) && reply.value !in s.acked)
      && s.since <= s.interval
    case Down => s.since == 0 && s.vol == EMPTY
  }

  ghost predicate Inv(s: Sys) {
    && s.interval > 0
    && Holds(s.disk, s.hist, s.cut, s.stale, s.torn)
    && AllNew(s.hist)
    && AnswersOk(s.hist, s.acked)
    && PhaseOk(s)
    && |s.hist| - s.cut <= s.crashes * s.interval + s.since
  }

  // --------------------------------------------------- every event keeps the invariant

  lemma DeliverKeeps(s: Sys, r: Rec)
    requires Inv(s) && s.phase.Idle? && RecFits(r)
    ensures Inv(DeliverStep(s, r))
  {
    hide Holds, AllNew, Replay, RecFits, Accepts, ApplyOp, AnswersOk;
  }

  lemma AppendKeeps(s: Sys)
    requires Inv(s) && s.phase.Appending? && s.torn == []
    ensures Inv(AppendStep(s))
  {
    hide Holds, AllNew, Replay, Step, OpFits, Accepts, RawBytes, VolBytes, ApplyOp, Answered, AnswersOk;
    var r := s.phase.r;
    AnswerNew(s.hist, s.acked, Answer(r, s.phase.out));
    HoldsAppend(s.disk, s.hist, s.cut, s.stale, r);
    AllNewSnoc(s.hist, r);
    ReplaySnoc(EMPTY, s.hist, r);
    HistoryFits(s);
    HoldsCut(s);
  }

  lemma {:induction false} AnsweredStays(h: seq<Rec>, more: seq<Rec>, a: Answer)
    requires Answered(h, a) && h <= more
    ensures Answered(more, a)
  {
    hide Replay, ApplyOp;
    var i: nat :| AnswerAt(h, i, a);
    assert more[..i] == h[..i];
    assert AnswerAt(more, i, a);
  }

  lemma AnswersStay(h: seq<Rec>, more: seq<Rec>, acked: seq<Answer>)
    requires AnswersOk(h, acked) && h <= more
    ensures AnswersOk(more, acked)
  {
    hide Answered;
    forall a | a in acked ensures Answered(more, a) { AnsweredStays(h, more, a); }
  }

  /** A new operation's answer is right and has not been given before. */
  lemma AnswerNew(h: seq<Rec>, acked: seq<Answer>, a: Answer)
    requires AnswersOk(h, acked) && Accepts(Replay(EMPTY, h), a.r.op)
    requires a.out == ApplyOp(Replay(EMPTY, h).kv, a.r.op.kind).1
    ensures Answered(h + [a.r], a) && a !in acked
    ensures AnswersOk(h + [a.r], acked) && AnswersOk(h + [a.r], acked + [a])
  {
    hide Replay, ApplyOp, AnswersOk;
    assert (h + [a.r])[..|h|] == h;
    assert AnswerAt(h + [a.r], |h|, a);
    AnswersStay(h, h + [a.r], acked);
    ReplayCovers(EMPTY, h);
    AnsweredCovered(h, acked, a);
    OneMoreAnswer(h + [a.r], acked, a);
  }

  lemma AnsweredCovered(h: seq<Rec>, acked: seq<Answer>, a: Answer)
    requires AnswersOk(h, acked) && Covered(Replay(EMPTY, h), h) && Accepts(Replay(EMPTY, h), a.r.op)
    ensures a !in acked
  {
    hide Replay, ApplyOp;
  }

  lemma OneMoreAnswer(h: seq<Rec>, acked: seq<Answer>, a: Answer)
    requires AnswersOk(h, acked) && Answered(h, a) && a !in acked
    ensures AnswersOk(h, acked + [a])
  {
    hide Answered;
  }

  lemma HistoryFits(s: Sys)
    requires Inv(s)
    ensures RecsFit(s.hist)
  {
    hide AllNew, Replay, PhaseOk, OpFits, LogBytes, VolBytes, VolFits, Covered, Torn;
  }

  lemma HoldsCut(s: Sys)
    requires Inv(s)
    ensures s.cut <= |s.hist|
  {
    hide AllNew, Replay, PhaseOk, OpFits, LogBytes, VolBytes, VolFits, Covered, Torn;
  }

  lemma TearKeeps(s: Sys, n: nat)
    requires Inv(s) && Enabled(s, Tear(n)) && s.torn == []
    ensures Inv(TearStep(s, n))
  {
    hide Holds, AllNew, Replay, Step, RecFits, Accepts, RawBytes, VolBytes;
    HoldsTear(s.disk, s.hist, s.cut, s.stale, s.phase.r, n);
    WindowAtCrash(s);
  }

  /** A crash closes at most one more snapshot window. */
  lemma WindowAtCrash(s: Sys)
    requires s.interval > 0 && |s.hist| - s.cut <= s.crashes * s.interval + s.since && s.since <= s.interval
    ensures |s.hist| - s.cut <= (s.crashes + 1) * s.interval
  {
    assert (s.crashes + 1) * s.interval == s.crashes * s.interval + s.interval;
  }

  lemma SnapshotKeeps(s: Sys)
    requires Inv(s) && s.phase.Idle?
    ensures Inv(Next(s, StartSnapshot))
  {
    hide Holds, AllNew, Replay, VolBytes, OpFits;
    HistoryFits(s);
  }

  lemma ImportKeeps(s: Sys, peer: seq<Rec>)
    requires Inv(s) && s.phase.Idle? && Benign(s, StartImport(peer))
    ensures Inv(ImportStep(s, peer))
  {
    hide Holds, AllNew, Replay, VolBytes, VolFits, VolOf, RecsFit;
    LoadSaved(s.vol, Replay(EMPTY, peer));
  }

  lemma WriteTmpKeeps(s: Sys, n: nat)
    requires Inv(s) && Enabled(s, WriteTmp(n))
    ensures Inv(WriteTmpStep(s, n))
  {
    hide AllNew, Replay, VolBytes, VolFits, Covered, LogBytes, Torn, RecsFit;
    assert s.phase.bytes[..|s.phase.bytes|] == s.phase.bytes;
  }

  lemma RenameKeeps(s: Sys)
    requires Inv(s) && Enabled(s, Rename) && VolFits(s.vol)
    ensures Inv(RenameStep(s))
  {
    hide Holds, AllNew, Replay, VolBytes, VolFits, RecsFit, Answered, AnswersOk;
    HoldsCut(s);
    HoldsRename(s.disk, s.hist, s.cut, s.stale, s.torn, s.phase.target);
    AnswersStay(s.hist, s.phase.target, s.acked);
    if s.phase.reply.Some? { AnsweredStays(s.hist, s.phase.target, s.phase.reply.value); }
  }

  lemma RemoveKeeps(s: Sys, ok: bool)
    requires Inv(s) && Enabled(s, RemoveLog(ok))
    ensures Inv(RemoveStep(s, ok))
  {
    hide Holds, AllNew, Replay, VolBytes, RecsFit, Answered, AnswersOk;
    if s.phase.reply.Some? { OneMoreAnswer(s.hist, s.acked, s.phase.reply.value); }
    HoldsDrop(s.disk, s.hist, s.stale, s.torn);
  }

  lemma CrashKeeps(s: Sys)
    requires Inv(s) && !s.phase.Down?
    ensures Inv(Fail(s))
  {
    hide Holds, AllNew, Replay, VolBytes, RecFits, Accepts;
    WindowAtCrash(s);
  }

  lemma RecoverKeeps(s: Sys)
    requires Inv(s) && s.phase.Down?
    ensures Inv(RecoverStep(s))
  {
    hide Holds, AllNew, Replay, VolBytes, Recovered, Replayed;
    RecoversHistory(s.disk, s.hist, s.cut, s.stale, s.torn);
    ReplaysSuffix(s.disk, s.hist, s.cut, s.stale, s.torn);
  }

  lemma NextKeeps(s: Sys, e: Event)
    requires Inv(s) && Enabled(s, e) && Benign(s, e)
    ensures Inv(Next(s, e))
  {
    hide Inv, DeliverStep, AppendStep, TearStep, ImportStep, WriteTmpStep, RenameStep, RemoveStep, RecoverStep, Fail,
      AllNew, Replay, RecFits, RecsFit, VolFits, VolBytes, RawBytes;
    match e
    case Deliver(r) => DeliverKeeps(s, r);
    case Append => AppendKeeps(s);
    case Tear(n) => TearKeeps(s, n);
    case StartSnapshot => SnapshotKeeps(s);
    case StartImport(peer) => ImportKeeps(s, peer);
    case WriteTmp(n) => WriteTmpKeeps(s, n);
    case Rename => RenameKeeps(s);
    case RemoveLog(ok) => RemoveKeeps(s, ok);
    case Crash => CrashKeeps(s);
    case Recover => RecoverKeeps(s);
  }

  lemma InitOk(interval: nat)
    ensures Inv(Init(interval))
  {
    NothingTorn();
    var none: seq<Rec> := [];
    assert none + none[0..] == none && RawsOf(none) == [];
  }

  lemma {:induction false} RunKeeps(s: Sys, es: seq<Event>)
    requires Inv(s) && BenignRun(s, es)
    ensures Inv(Exec(s, es))
  {
    hide Inv, Enabled, Benign, Next;
    if |es| > 0 {
      var t := Exec(s, es[..|es| - 1]);
      RunKeeps(s, es[..|es| - 1]);
      if Enabled(t, es[|es| - 1]) { NextKeeps(t, es[|es| - 1]); }
    }
  }

  // ------------------------------------------------------------------ main results

  /**
   * For every run from an empty directory, whatever the crash points: the running engine holds the
   * exactly-once replay of the operations whose append completed; a crash now would recover to that
   * same state; and every answer ever given is what its operation returns at its place in that history,
   * no operation being answered twice.
   */
  lemma CrashSafety(interval: nat, es: seq<Event>)
    requires BenignRun(Init(interval), es)
    ensures var s := Exec(Init(interval), es);
      && (s.phase.Idle? ==> s.vol == Replay(EMPTY, s.hist))
      && Recovered(s.disk) == Replay(EMPTY, s.hist)
      && AnswersOk(s.hist, s.acked)
      && AllNew(s.hist)
  {
    hide AnswersOk, Holds, AllNew, Replay, Exec, BenignRun, Recovered, Init;
    InitOk(interval);
    RunKeeps(Init(interval), es);
    var s := Exec(Init(interval), es);
    RecoversHistory(s.disk, s.hist, s.cut, s.stale, s.torn);
  }

  /** What an undisturbed `deliver` does: apply, append, and at the end of a window the snapshot. */
  function Undisturbed(s: Sys, r: Rec, ok: bool): seq<Event> {
    if !Accepts(s.vol, r.op) then [Deliver(r)]
    else if s.since + 1 < s.interval then [Deliver(r), Append]
    else [Deliver(r), Append, WriteTmp(|VolBytes(Step(s.vol, r))|), Rename, RemoveLog(ok)]
  }

  /** The state once a snapshot under way is installed: new snapshot file, log gone if it could be removed. */
  function Installed(b: Sys, ok: bool): Sys
    requires b.phase.Saving?
  {
    Sys(b.vol, b.interval, 0, Disk(Some(b.phase.bytes), None, if ok then None else b.disk.log), Idle,
        b.phase.target, |b.phase.target|,
        if ok then [] else b.stale + b.hist[Min(b.cut, |b.hist|)..], if ok then [] else b.torn,
        if b.phase.reply.Some? then b.acked + [b.phase.reply.value] else b.acked, 0)
  }

  /** The state after an undisturbed `deliver`, in one step. */
  function Delivered(s: Sys, r: Rec, ok: bool): Sys {
    if !Accepts(s.vol, r.op) then s
    else
      var answer := Answer(r, ApplyOp(s.vol.kv, r.op.kind).1);
      var a := s.(vol := Step(s.vol, r), hist := s.hist + [r], since := s.since + 1,
                  disk := s.disk.(log := Some(LogOf(s.disk) + RawBytes(RawOf(r)))));
      if a.since < a.interval then a.(phase := Idle, acked := s.acked + [answer])
      else Installed(a.(phase := Saving(Begun, VolBytes(a.vol), a.hist, Some(answer))), ok)
  }

  lemma AppendedIs(s: Sys, r: Rec)
    requires s.phase.Idle? && Accepts(s.vol, r.op)
    ensures Exec(s, [Deliver(r), Append]) == AppendStep(DeliverStep(s, r))
  {
    hide Step, ApplyOp, Accepts, VolBytes, RawBytes, Exec, AppendStep;
    ExecOne(s, Deliver(r));
    ExecSnoc(s, [Deliver(r)], Append);
    assert [Deliver(r)] + [Append] == [Deliver(r), Append];
  }

  lemma DeliveredByAppend(s: Sys, r: Rec, ok: bool)
    requires s.phase.Idle? && Accepts(s.vol, r.op)
    ensures var b := AppendStep(DeliverStep(s, r));
      && (s.since + 1 < s.interval ==> Delivered(s, r, ok) == b)
      && (s.since + 1 >= s.interval ==>
          && b.phase.Saving? && b.phase.stage.Begun? && b.phase.bytes == VolBytes(Step(s.vol, r))
          && Delivered(s, r, ok) == Installed(b, ok))
  {
    hide Step, ApplyOp, Accepts, VolBytes, RawBytes, Installed;
  }

  lemma UndisturbedIs(s: Sys, r: Rec, ok: bool)
    requires s.phase.Idle?
    ensures Exec(s, Undisturbed(s, r, ok)) == Delivered(s, r, ok)
  {
    hide Step, ApplyOp, Accepts, VolBytes, RawBytes, Exec, AppendStep, Installed;
    ExecOne(s, Deliver(r));
    if Accepts(s.vol, r.op) {
      AppendedIs(s, r);
      DeliveredByAppend(s, r, ok);
      if s.since + 1 >= s.interval {
        var n := |VolBytes(Step(s.vol, r))|;
        SaveRuns(s, [Deliver(r), Append], n, ok);
        assert [Deliver(r), Append] + [WriteTmp(n), Rename, RemoveLog(ok)] == Undisturbed(s, r, ok);
      }
    }
  }

  /**
   * Without a crash a new operation is applied, recorded and answered, and the operation that fills
   * the window installs a snapshot of the new state and clears the log; a known one changes nothing.
   */
  lemma DeliverAnswers(s: Sys, r: Rec, ok: bool)
    requires s.phase.Idle?
    ensures var t := Exec(s, Undisturbed(s, r, ok));
      && t.phase.Idle? && t.vol == Step(s.vol, r) && t.interval == s.interval
      && (!Accepts(s.vol, r.op) ==> t == s)
      && (Accepts(s.vol, r.op) ==>
          t.hist == s.hist + [r] && t.acked == s.acked + [Answer(r, ApplyOp(s.vol.kv, r.op.kind).1)])
      && (Accepts(s.vol, r.op) && s.since + 1 < s.interval ==>
          && t.since == s.since + 1 && t.cut == s.cut && t.crashes == s.crashes
          && t.disk.snap == s.disk.snap && t.disk.tmp == s.disk.tmp
          && t.disk.log == Some(LogOf(s.disk) + RawBytes(RawOf(r))))
      && (Accepts(s.vol, r.op) && s.since + 1 >= s.interval ==>
          && t.since == 0 && t.cut == |t.hist| && t.crashes == 0
          && t.disk.snap == Some(VolBytes(t.vol)) && t.disk.tmp == None
          && t.disk.log == if ok then None else Some(LogOf(s.disk) + RawBytes(RawOf(r))))
  {
    hide ApplyOp, Accepts, VolBytes, RawBytes, Exec, Undisturbed;
    UndisturbedIs(s, r, ok);
  }

  lemma ExecOne(s: Sys, e: Event)
    ensures Exec(s, [e]) == Do(s, e)
  {
    assert [e][..0] == [];
  }

  lemma InstalledIs(b: Sys, n: nat, ok: bool)
    requires b.phase.Saving? && b.phase.stage.Begun? && n == |b.phase.bytes|
    ensures Enabled(b, WriteTmp(n)) && Enabled(WriteTmpStep(b, n), Rename)
    ensures Enabled(RenameStep(WriteTmpStep(b, n)), RemoveLog(ok))
    ensures RemoveStep(RenameStep(WriteTmpStep(b, n)), ok) == Installed(b, ok)
  {
    assert b.phase.bytes[..n] == b.phase.bytes;
  }

  /** The three steps of a snapshot, from its beginning to the answer. */
  lemma SaveRuns(s: Sys, es: seq<Event>, n: nat, ok: bool)
    requires var b := Exec(s, es); b.phase.Saving? && b.phase.stage.Begun? && n == |b.phase.bytes|
    ensures Exec(s, es + [WriteTmp(n), Rename, RemoveLog(ok)]) == Installed(Exec(s, es), ok)
  {
    hide Exec, Enabled, WriteTmpStep, RenameStep, RemoveStep, Installed;
    InstalledIs(Exec(s, es), n, ok);
    ExecSnoc(s, es, WriteTmp(n));
    ExecSnoc(s, es + [WriteTmp(n)], Rename);
    ExecSnoc(s, es + [WriteTmp(n)] + [Rename], RemoveLog(ok));
    assert es + [WriteTmp(n)] + [Rename] + [RemoveLog(ok)] == es + [WriteTmp(n), Rename, RemoveLog(ok)];
  }

  /** An undisturbed snapshot and an undisturbed state transfer. */
  function SnapshotRun(s: Sys, ok: bool): seq<Event> {
    [StartSnapshot] + [WriteTmp(|VolBytes(s.vol)|), Rename, RemoveLog(ok)]
  }

  function ImportRun(peer: seq<Rec>, ok: bool): seq<Event> {
    [StartImport(peer)] + [WriteTmp(|VolBytes(Replay(EMPTY, peer))|), Rename, RemoveLog(ok)]
  }

  /** A snapshot without a crash: same state and history, all of it in the snapshot file. */
  lemma SnapshotCompletes(s: Sys, ok: bool)
    requires s.phase.Idle?
    ensures var t := Exec(s, SnapshotRun(s, ok));
      && t.phase.Idle? && t.vol == s.vol && t.hist == s.hist && t.cut == |s.hist| && t.since == 0 && t.crashes == 0
      && t.acked == s.acked && t.interval == s.interval && t.torn == (if ok then [] else s.torn)
      && t.stale == (if ok then [] else s.stale + s.hist[Min(s.cut, |s.hist|)..])
      && t.disk == Disk(Some(VolBytes(s.vol)), None, if ok then None else s.disk.log)
  {
    hide VolBytes, Exec;
    ExecOne(s, StartSnapshot);
    SaveRuns(s, [StartSnapshot], |VolBytes(s.vol)|, ok);
  }

  /** A state transfer without a crash: the victim holds the peer's state and history, in memory and on disk. */
  lemma ImportCompletes(s: Sys, peer: seq<Rec>, ok: bool)
    requires s.phase.Idle? && VolFits(Replay(EMPTY, peer))
    ensures var t := Exec(s, ImportRun(peer, ok));
      && t.phase.Idle? && t.vol == Replay(EMPTY, peer) && t.hist == peer && t.cut == |peer| && t.since == 0
      && t.acked == s.acked && t.interval == s.interval && t.crashes == 0 && t.torn == (if ok then [] else s.torn)
      && t.stale == (if ok then [] else s.stale + s.hist[Min(s.cut, |s.hist|)..])
      && t.disk == Disk(Some(VolBytes(Replay(EMPTY, peer))), None, if ok then None else s.disk.log)
  {
    hide VolBytes, VolOf, VolFits, Replay, Exec;
    LoadSaved(s.vol, Replay(EMPTY, peer));
    ExecOne(s, StartImport(peer));
    SaveRuns(s, [StartImport(peer)], |VolBytes(Replay(EMPTY, peer))|, ok);
  }

  /** Recovery after the c-th crash since the last installed snapshot replays at most c intervals. */
  lemma ReplayBound(interval: nat, es: seq<Event>)
    requires BenignRun(Init(interval), es)
    ensures var s := Exec(Init(interval), es);
      s.phase.Down? ==> Replayed(s.disk) <= s.crashes * s.interval
  {
    hide Holds, AllNew, Replay, Exec, BenignRun, Replayed, Init;
    InitOk(interval);
    RunKeeps(Init(interval), es);
    var s := Exec(Init(interval), es);
    ReplaysSuffix(s.disk, s.hist, s.cut, s.stale, s.torn);
  }

  predicate SaveEvent(e: Event) { e.WriteTmp? || e.Rename? || e.RemoveLog? }

  /**
   * A state transfer is all or nothing: crash anywhere inside `import_state` and recovery gives the
   * victim's own history or the peer's whole state, the latter exactly once the rename happened.
   */
  lemma ImportAtomic(s: Sys, peer: seq<Rec>, es: seq<Event>)
    requires Inv(s) && s.phase.Idle? && Benign(s, StartImport(peer))
    requires forall e :: e in es ==> SaveEvent(e)
    ensures var t := Exec(ImportStep(s, peer), es);
      && (t.phase.Idle? || t.phase.Saving?)
      && Recovered(t.disk) == Replay(EMPTY, if t.cut == |peer| && t.hist == peer then peer else s.hist)
      && (t.phase.Idle? ==> Recovered(t.disk) == Replay(EMPTY, peer) && t.vol == Replay(EMPTY, peer))
  {
    hide Holds, AllNew, Replay, Recovered, VolBytes, VolFits, VolOf, RecsFit, Exec, Enabled, SaveEvent, ImportStep;
    ImportKeeps(s, peer);
    var t := Exec(ImportStep(s, peer), es);
    ImportShape(s, peer, es);
    RecoversHistory(t.disk, t.hist, t.cut, t.stale, t.torn);
  }

  lemma {:induction false} ImportShape(s: Sys, peer: seq<Rec>, es: seq<Event>)
    requires Inv(s) && s.phase.Idle? && Benign(s, StartImport(peer))
    requires forall e :: e in es ==> SaveEvent(e)
    ensures var t := Exec(ImportStep(s, peer), es);
      && Inv(t)
      && (t.phase.Idle? ==> t.hist == peer && t.cut == |peer|)
      && (t.phase.Saving? ==> t.phase.target == peer && (t.hist == s.hist || (t.hist == peer && t.cut == |peer|)))
      && !t.phase.Appending? && !t.phase.Down?
  {
    hide Holds, AllNew, Replay, Recovered, VolBytes, VolOf, RecsFit, Accepts, VolFits;
    if |es| == 0 {
      ImportKeeps(s, peer);
    } else {
      var n := |es| - 1;
      ImportShape(s, peer, es[..n]);
      var t := Exec(ImportStep(s, peer), es[..n]);
      assert SaveEvent(es[n]);
      if Enabled(t, es[n]) { SaveKeeps(t, es[n], peer); }
    }
  }

  lemma SaveKeeps(t: Sys, e: Event, peer: seq<Rec>)
    requires t.phase.Saving? && t.phase.target == peer && VolFits(Replay(EMPTY, peer))
    requires Inv(t) && SaveEvent(e) && Enabled(t, e)
    ensures Inv(Next(t, e))
  {
    hide Holds, AllNew, Replay, VolBytes, VolFits, RecsFit;
    NextKeeps(t, e);
  }
}
