/** The interception shim's virtual clock: recorded, replayed and fixed-tick time (obpreload.c). */
module VirtualClock {
  import opened Wrappers
  import opened Bytes

  const TICK_NS: int := 1_000_000
  const SECOND: int := 1_000_000_000

  datatype Mode = FixedTick | Record | Replay

  /** The files named by `OB_VCLOCK`, `OB_VCLOCK_TICKS` and `OB_VCLOCK_DELTAS`; `None` is an absent file. */
  datatype Files = Files(base: Option<seq<byte>>, ticks: Option<seq<byte>>, deltas: Option<seq<byte>>)

  /** Which of the optional files the process is told to use. */
  datatype Setup = Setup(useTicks: bool, useDeltas: bool)

  /** The clock's globals, with the files as the process leaves them. */
  datatype State = State(base: int, ticks: int, mode: Mode, deltas: seq<int>, at: nat, lastMono: int, files: Files)

  function Word(n: i64): (b: seq<byte>)
    ensures |b| == 8
  {
    LE(Bits64(n), 8)
  }

  /** `fread` of one 8-byte integer; a short file reads as 0. */
  function WordOf(b: seq<byte>): i64 {
    match GetU64(b)
    case None => 0
    case Some((n, _)) => Signed64(n)
  }

  lemma WordRoundTrip(n: i64, rest: seq<byte>)
    ensures WordOf(Word(n) + rest) == n
  {
    hide LE, GetU64;
    GetU64Append(Bits64(n), rest);
  }

  /** The deltas of a log of `n` whole words; the bytes of a last partial word are not used. */
  function DeltasOf(b: seq<byte>): (r: seq<int>)
    ensures |r| == |b| / 8
  {
    if |b| < 8 then [] else [WordOf(b)] + DeltasOf(b[8..])
  }

  /** `vclock_init`, with what the real clocks say at that moment. */
  function Boot(f: Files, setup: Setup, realtime: i64, mono: int): State {
    var base: int := if f.base.Some? then WordOf(f.base.value) else realtime;
    var f1 := if f.base.Some? then f else f.(base := Some(Word(realtime)));
    var ticks: int := if setup.useTicks && f.ticks.Some? then WordOf(f.ticks.value) else 0;
    var f2 := if setup.useTicks && f.ticks.None? then f1.(ticks := Some([])) else f1;
    if !setup.useDeltas then State(base, ticks, FixedTick, [], 0, 0, f2)
    else if f.deltas.Some? && |f.deltas.value| >= 8 then State(base, ticks, Replay, DeltasOf(f.deltas.value), 0, 0, f2)
    else State(base, ticks, Record, [], 0, mono, f2.(deltas := Some([])))
  }

  function Delta(last: int, now: int): int { if now < last then 0 else now - last }

  function Advance(s: State, now: int): int {
    match s.mode
    case FixedTick => TICK_NS
    case Record => Delta(s.lastMono, now)
    case Replay => if s.at < |s.deltas| then s.deltas[s.at] else 0
  }

  /** `pwrite` of 8 bytes at the start of the tick file. */
  function PutTicks(b: seq<byte>, t: i64): seq<byte> { Word(t) + (if |b| > 8 then b[8..] else []) }

  predicate InWord(n: int) { -0x8000_0000_0000_0000 <= n < 0x8000_0000_0000_0000 }

  /** What one captured input does to the clock. */
  function Tick(s: State, setup: Setup, now: int): State
    requires InWord(Advance(s, now)) && InWord(s.ticks + Advance(s, now))
  {
    var d := Advance(s, now);
    var f := if s.mode.Record? && s.files.deltas.Some?
             then s.files.(deltas := Some(s.files.deltas.value + Word(d))) else s.files;
    var f' := if setup.useTicks && f.ticks.Some? then f.(ticks := Some(PutTicks(f.ticks.value, s.ticks + d))) else f;
    s.(ticks := s.ticks + d,
       at := if s.mode.Replay? && s.at < |s.deltas| then s.at + 1 else s.at,
       lastMono := if s.mode.Record? then now else s.lastMono,
       files := f')
  }

  /** What every time read returns between two inputs, in nanoseconds. */
  function Now(s: State): int { s.base + s.ticks }

  /** C's truncating division and remainder. */
  function Quot(a: int, b: int): int
    requires b > 0
  {
    if a >= 0 then a / b else -((-a) / b)
  }

  function Rem(a: int, b: int): int
    requires b > 0
  {
    a - b * Quot(a, b)
  }

  class Clock {
    const setup: Setup
    var base: int
    var ticks: int
    var mode: Mode
    var deltas: seq<int>
    var at: nat
    var lastMono: int
    var files: Files

    ghost function St(): State
      reads this
    {
      State(base, ticks, mode, deltas, at, lastMono, files)
    }

    constructor (f: Files, u: Setup, realtime: i64, mono: int)
      ensures setup == u && St() == Boot(f, u, realtime, mono)
    {
      setup := u;
      base, ticks, mode, deltas, at, lastMono := realtime, 0, FixedTick, [], 0, 0;
      files := f;
      new;
      if f.base.Some? {
        base := WordOf(f.base.value);
      } else {
        files := files.(base := Some(Word(realtime)));
      }
      if u.useTicks {
        if f.ticks.Some? {
          ticks := WordOf(f.ticks.value);
        } else {
          files := files.(ticks := Some([]));
        }
      }
      if u.useDeltas {
        if f.deltas.Some? && |f.deltas.value| >= 8 {
          deltas := DeltasOf(f.deltas.value);
          mode := Replay;
        } else {
          files := files.(deltas := Some([]));
          lastMono := mono;
          mode := Record;
        }
      }
    }

    /** The clock part of `capture`. */
    method Input(now: int)
      requires InWord(Advance(St(), now)) && InWord(ticks + Advance(St(), now))
      modifies this
      ensures St() == Tick(old(St()), setup, now)
    {
      var delta: int;
      if mode == Replay {
        if at < |deltas| {
          delta := deltas[at];
          at := at + 1;
        } else {
          delta := 0;
        }
      } else if mode == Record {
        delta := now - lastMono;
        if delta < 0 {
          delta := 0;
        }
        lastMono := now;
        if files.deltas.Some? {
          files := files.(deltas := Some(files.deltas.value + Word(delta)));
        }
      } else {
        delta := TICK_NS;
      }
      ticks := ticks + delta;
      if setup.useTicks && files.ticks.Some? {
        files := files.(ticks := Some(PutTicks(files.ticks.value, ticks)));
      }
    }

    /** `clock_gettime`: the split into seconds and nanoseconds loses nothing. */
    method ClockGettime() returns (sec: int, nsec: int)
      ensures sec * SECOND + nsec == Now(St()) && -SECOND < nsec < SECOND
      ensures Now(St()) >= 0 ==> nsec >= 0
    {
      var t := base + ticks;
      sec, nsec := Quot(t, SECOND), Rem(t, SECOND);
    }

    /** `gettimeofday`: exact to the microsecond. */
    method Gettimeofday() returns (sec: int, usec: int)
      ensures Now(St()) >= 0 ==>
        0 <= usec < 1_000_000 && sec * SECOND + usec * 1000 <= Now(St()) < sec * SECOND + usec * 1000 + 1000
    {
      var t := base + ticks;
      sec, usec := Quot(t, SECOND), Quot(Rem(t, SECOND), 1000);
    }

    /** `time`: whole seconds. */
    method Time() returns (sec: int)
      ensures Now(St()) >= 0 ==> sec * SECOND <= Now(St()) < sec * SECOND + SECOND
    {
      sec := Quot(base + ticks, SECOND);
    }
  }

  // ------------------------------------------------------------------------- whole runs

  /** Every step of the run stays within 64 bits. */
  predicate Runs(s: State, setup: Setup, ns: seq<int>)
    decreases |ns|
  {
    |ns| == 0 || (
      && InWord(Advance(s, ns[0])) && InWord(s.ticks + Advance(s, ns[0]))
      && Runs(Tick(s, setup, ns[0]), setup, ns[1..]))
  }

  /** The clock after inputs that arrived at the given monotonic readings. */
  function After(s: State, setup: Setup, ns: seq<int>): State
    requires Runs(s, setup, ns)
    decreases |ns|
  {
    if |ns| == 0 then s else After(Tick(s, setup, ns[0]), setup, ns[1..])
  }

  /** The deltas between consecutive readings, a step back counting as none. */
  function Deltas(last: int, ns: seq<int>): (r: seq<int>)
    ensures |r| == |ns|
    decreases |ns|
  {
    if |ns| == 0 then [] else [Delta(last, ns[0])] + Deltas(ns[0], ns[1..])
  }

  function Sum(ds: seq<int>): int { if |ds| == 0 then 0 else ds[0] + Sum(ds[1..]) }

  function DeltaBytes(ds: seq<int>): (b: seq<byte>)
    requires forall i :: 0 <= i < |ds| ==> InWord(ds[i])
    ensures |b| == 8 * |ds|
  {
    if |ds| == 0 then [] else assert InWord(ds[0]); Word(ds[0]) + DeltaBytes(ds[1..])
  }

  lemma {:induction false} RunsPrefix(s: State, setup: Setup, ns: seq<int>, j: nat)
    requires Runs(s, setup, ns) && j <= |ns|
    ensures Runs(s, setup, ns[..j])
    decreases |ns|
  {
    hide Tick, Advance;
    if j > 0 {
      assert ns[..j][0] == ns[0] && ns[..j][1..] == ns[1..][..j - 1];
      RunsPrefix(Tick(s, setup, ns[0]), setup, ns[1..], j - 1);
    }
  }

  /** A recording advances by the logged deltas and logs each of them. */
  lemma {:induction false} Recorded(s: State, setup: Setup, ns: seq<int>)
    requires Runs(s, setup, ns) && s.mode.Record? && s.files.deltas.Some?
    ensures forall i :: 0 <= i < |ns| ==> InWord(Deltas(s.lastMono, ns)[i])
    ensures var e, ds := After(s, setup, ns), Deltas(s.lastMono, ns);
      && e.base == s.base && e.ticks == s.ticks + Sum(ds) && e.files.base == s.files.base
      && e.files.deltas == Some(s.files.deltas.value + DeltaBytes(ds))
    decreases |ns|
  {
    hide Word, PutTicks;
    if |ns| == 0 {
      assert s.files.deltas.value + [] == s.files.deltas.value;
    } else {
      var t, ds := Tick(s, setup, ns[0]), Deltas(s.lastMono, ns);
      Recorded(t, setup, ns[1..]);
      assert ds[1..] == Deltas(ns[0], ns[1..]);
      assert s.files.deltas.value + (Word(ds[0]) + DeltaBytes(ds[1..])) == t.files.deltas.value + DeltaBytes(ds[1..]);
    }
  }

  function Min(a: nat, b: nat): nat { if a <= b then a else b }

  /** A replay advances by the deltas it has, one per input, and stands still when they run out. */
  lemma {:induction false} Replayed(s: State, setup: Setup, ns: seq<int>)
    requires Runs(s, setup, ns) && s.mode.Replay? && s.at <= |s.deltas|
    ensures var e := After(s, setup, ns);
      e.base == s.base && e.ticks == s.ticks + Sum(s.deltas[s.at..Min(s.at + |ns|, |s.deltas|)])
    decreases |ns|
  {
    hide InWord, Word, PutTicks;
    if |ns| > 0 {
      Replayed(Tick(s, setup, ns[0]), setup, ns[1..]);
      if s.at < |s.deltas| {
        var ds := s.deltas[s.at..Min(s.at + |ns|, |s.deltas|)];
        assert ds[1..] == s.deltas[s.at + 1..Min(s.at + |ns|, |s.deltas|)];
      }
    }
  }

  lemma {:induction false} TicksFit(s: State, setup: Setup, ns: seq<int>)
    requires Runs(s, setup, ns) && InWord(s.ticks)
    ensures InWord(After(s, setup, ns).ticks)
    decreases |ns|
  {
    hide InWord, Word, PutTicks, Advance;
    if |ns| > 0 { TicksFit(Tick(s, setup, ns[0]), setup, ns[1..]); }
  }

  /** Every partial sum of a recording's deltas fits a word, because the recording reached it. */
  lemma RecordedSums(s: State, setup: Setup, ns: seq<int>, j: nat)
    requires Runs(s, setup, ns) && s.mode.Record? && s.files.deltas.Some? && InWord(s.ticks) && j <= |ns|
    ensures InWord(s.ticks + Sum(Deltas(s.lastMono, ns)[..j]))
  {
    hide InWord, Runs, After, Deltas, Sum;
    RunsPrefix(s, setup, ns, j);
    Recorded(s, setup, ns[..j]);
    TicksFit(s, setup, ns[..j]);
    DeltasPrefix(s.lastMono, ns, j);
  }

  /** Deltas that fit, with partial sums that fit. */
  predicate SumsFit(t: int, ds: seq<int>) {
    (forall k :: 0 <= k < |ds| ==> InWord(ds[k])) && (forall k :: 0 <= k <= |ds| ==> InWord(t + Sum(ds[..k])))
  }

  lemma SumsFitRest(t: int, ds: seq<int>)
    requires SumsFit(t, ds) && |ds| > 0
    ensures InWord(ds[0]) && InWord(t + ds[0]) && SumsFit(t + ds[0], ds[1..])
  {
    hide InWord;
    assert ds[..1][1..] == [];
    assert InWord(t + Sum(ds[..1]));
    forall k | 0 <= k <= |ds| - 1 ensures InWord(t + ds[0] + Sum(ds[1..][..k])) {
      assert ds[..k + 1][1..] == ds[1..][..k] && ds[..k + 1][0] == ds[0];
      assert InWord(t + Sum(ds[..k + 1]));
    }
  }

  /** A replay of such deltas never leaves 64 bits, however many inputs it gets. */
  lemma {:induction false} ReplayRuns(s: State, setup: Setup, ns: seq<int>)
    requires s.mode.Replay? && s.at <= |s.deltas| && SumsFit(s.ticks, s.deltas[s.at..])
    ensures Runs(s, setup, ns)
    decreases |ns|
  {
    hide SumsFit, Word, PutTicks;
    if |ns| > 0 {
      if s.at < |s.deltas| {
        SumsFitRest(s.ticks, s.deltas[s.at..]);
        assert s.deltas[s.at..][1..] == s.deltas[s.at + 1..];
      } else {
        TicksNow(s.ticks, s.deltas[s.at..]);
      }
      ReplayRuns(Tick(s, setup, ns[0]), setup, ns[1..]);
    }
  }

  lemma TicksNow(t: int, ds: seq<int>)
    requires SumsFit(t, ds)
    ensures InWord(t)
  {
    hide InWord;
    assert InWord(t + Sum(ds[..0]));
  }

  lemma {:induction false} DeltasRoundTrip(ds: seq<int>, n: nat)
    requires (forall i :: 0 <= i < |ds| ==> InWord(ds[i])) && n <= 8 * |ds|
    ensures DeltasOf(DeltaBytes(ds)[..n]) == ds[..n / 8]
  {
    hide Word, WordOf;
    if n >= 8 {
      var b := DeltaBytes(ds)[..n];
      assert b == Word(ds[0]) + b[8..] && b[8..] == DeltaBytes(ds[1..])[..n - 8];
      WordRoundTrip(ds[0], b[8..]);
      DeltasRoundTrip(ds[1..], n - 8);
      assert ds[..n / 8] == [ds[0]] + ds[1..][..(n - 8) / 8];
    }
  }

  lemma {:induction false} DeltasPrefix(last: int, ns: seq<int>, j: nat)
    requires j <= |ns|
    ensures Deltas(last, ns[..j]) == Deltas(last, ns)[..j]
    decreases |ns|
  {
    if j > 0 {
      assert ns[..j][0] == ns[0] && ns[..j][1..] == ns[1..][..j - 1];
      DeltasPrefix(ns[0], ns[1..], j - 1);
    }
  }

  // ------------------------------------------------------------------------ main results

  /** A recording starts where there are no deltas yet. */
  predicate Fresh(f: Files) { f.deltas.Some? ==> |f.deltas.value| < 8 }

  const DELTAS: Setup := Setup(false, true)
  const TICKS: Setup := Setup(true, false)

  /** The clock a replay starts with: the recording's files, its delta log cut after `n` bytes. */
  function Replayer(rec: State, ns: seq<int>, n: nat, rt: i64, mono: int): State
    requires Runs(rec, DELTAS, ns)
  {
    var f := After(rec, DELTAS, ns).files;
    var f' := if f.deltas.Some? && n <= |f.deltas.value| then f.(deltas := Some(f.deltas.value[..n])) else f;
    Boot(f', DELTAS, rt, mono)
  }

  /** What a replay starts with: the recording's base and the whole deltas of its log. */
  lemma ReplayerStarts(f: Files, rt: i64, mono: int, ns: seq<int>, n: nat, rt': i64, mono': int)
    requires Fresh(f) && Runs(Boot(f, DELTAS, rt, mono), DELTAS, ns) && 8 <= n <= 8 * |ns|
    ensures var rec := Boot(f, DELTAS, rt, mono);
      var rep := Replayer(rec, ns, n, rt', mono');
      && After(rec, DELTAS, ns).files.deltas.Some? && |After(rec, DELTAS, ns).files.deltas.value| == 8 * |ns|
      && rep.mode.Replay? && rep.base == rec.base && rep.ticks == 0 && rep.at == 0
      && rep.deltas == Deltas(mono, ns)[..n / 8]
  {
    hide Tick, Advance, InWord, Word, WordOf, Runs, After, DeltaBytes, Deltas, DeltasOf;
    var rec, ds := Boot(f, DELTAS, rt, mono), Deltas(mono, ns);
    Recorded(rec, DELTAS, ns);
    assert [] + DeltaBytes(ds) == DeltaBytes(ds);
    DeltasRoundTrip(ds, n);
    BaseKept(f, rt);
  }

  /** The partial sums of a prefix are partial sums of the whole. */
  lemma SumsFitPrefix(s: State, ns: seq<int>, k: nat)
    requires Runs(s, DELTAS, ns) && s.mode.Record? && s.files.deltas.Some? && s.ticks == 0 && k <= |ns|
    ensures SumsFit(0, Deltas(s.lastMono, ns)[..k])
  {
    hide Runs, Deltas, Sum;
    var ds := Deltas(s.lastMono, ns);
    Recorded(s, DELTAS, ns);
    forall j | 0 <= j <= k ensures InWord(0 + Sum(ds[..k][..j])) {
      assert ds[..k][..j] == ds[..j];
      RecordedSums(s, DELTAS, ns, j);
    }
  }

  /**
   * A replay, from the recording's files or from any cut of its delta log that holds at least one
   * delta, returns after its j-th input what the recording returned after its j-th: the base plus
   * the first j deltas. Past the last logged delta time stands still. It stays within 64 bits.
   */
  lemma ReplayMatches(f: Files, rt: i64, mono: int, ns: seq<int>, n: nat, rt': i64, mono': int, ns': seq<int>)
    requires Fresh(f) && Runs(Boot(f, DELTAS, rt, mono), DELTAS, ns) && 8 <= n <= 8 * |ns|
    ensures var rec := Boot(f, DELTAS, rt, mono);
      var rep, m := Replayer(rec, ns, n, rt', mono'), Min(|ns'|, n / 8);
      && rep.mode.Replay? && Runs(rep, DELTAS, ns') && Runs(rec, DELTAS, ns[..m])
      && Now(After(rep, DELTAS, ns')) == Now(After(rec, DELTAS, ns[..m]))
      && Now(After(rep, DELTAS, ns')) == rec.base + Sum(Deltas(mono, ns)[..m])
  {
    hide Tick, Advance, InWord, Word, WordOf, Runs, After, Deltas, SumsFit, Replayer;
    var rec, ds := Boot(f, DELTAS, rt, mono), Deltas(mono, ns);
    var rep := Replayer(rec, ns, n, rt', mono');
    ReplayerStarts(f, rt, mono, ns, n, rt', mono');
    SumsFitPrefix(rec, ns, n / 8);
    assert rep.deltas[0..] == rep.deltas;
    ReplayRuns(rep, DELTAS, ns');
    var m := Min(|ns'|, n / 8);
    Replayed(rep, DELTAS, ns');
    assert rep.deltas[0..m] == ds[..m];
    RunsPrefix(rec, DELTAS, ns, m);
    Recorded(rec, DELTAS, ns[..m]);
    DeltasPrefix(mono, ns, m);
  }

  lemma BaseKept(f: Files, rt: i64)
    ensures f.base.None? ==> WordOf(Word(rt)) == rt
  {
    hide Word, WordOf;
    WordRoundTrip(rt, []);
    assert Word(rt) + [] == Word(rt);
  }

  predicate NeverBack(last: int, ns: seq<int>)
    decreases |ns|
  {
    |ns| == 0 || (last <= ns[0] && NeverBack(ns[0], ns[1..]))
  }

  function LastOf(last: int, ns: seq<int>): int { if |ns| == 0 then last else ns[|ns| - 1] }

  /** Recorded time equals real elapsed time exactly when the monotonic clock never went back. */
  lemma {:induction false} Telescopes(last: int, ns: seq<int>)
    ensures Sum(Deltas(last, ns)) >= LastOf(last, ns) - last
    ensures Sum(Deltas(last, ns)) == LastOf(last, ns) - last <==> NeverBack(last, ns)
    decreases |ns|
  {
    if |ns| > 0 {
      Telescopes(ns[0], ns[1..]);
      assert LastOf(last, ns) == LastOf(ns[0], ns[1..]);
      assert Deltas(last, ns)[1..] == Deltas(ns[0], ns[1..]);
    }
  }

  lemma {:induction false} AfterSplit(s: State, setup: Setup, a: seq<int>, b: seq<int>)
    requires Runs(s, setup, a + b)
    ensures Runs(s, setup, a) && Runs(After(s, setup, a), setup, b)
    ensures After(s, setup, a + b) == After(After(s, setup, a), setup, b)
    decreases |a|
  {
    hide Tick, Advance, InWord;
    if |a| == 0 {
      assert a + b == b;
    } else {
      assert (a + b)[1..] == a[1..] + b && (a + b)[0] == a[0];
      AfterSplit(Tick(s, setup, a[0]), setup, a[1..], b);
    }
  }

  /** Time read between inputs never decreases. */
  predicate Ascends(s: State, setup: Setup, ns: seq<int>)
    requires Runs(s, setup, ns)
    decreases |ns|
  {
    |ns| == 0 || (Now(s) <= Now(Tick(s, setup, ns[0])) && Ascends(Tick(s, setup, ns[0]), setup, ns[1..]))
  }

  /** Any two reads of an ascending run are in order. */
  lemma {:induction false} AscendsMeans(s: State, setup: Setup, ns: seq<int>, j: nat)
    requires Runs(s, setup, ns) && Ascends(s, setup, ns) && j <= |ns|
    ensures Runs(s, setup, ns[..j]) && Runs(After(s, setup, ns[..j]), setup, ns[j..])
    ensures Now(s) <= Now(After(s, setup, ns[..j])) <= Now(After(s, setup, ns))
    decreases |ns|
  {
    hide Tick, Advance, InWord;
    AfterSplitAt(s, setup, ns, j);
    if j > 0 {
      assert ns[..j][0] == ns[0] && ns[..j][1..] == ns[1..][..j - 1];
      AscendsMeans(Tick(s, setup, ns[0]), setup, ns[1..], j - 1);
    } else if |ns| > 0 {
      AscendsMeans(Tick(s, setup, ns[0]), setup, ns[1..], 0);
    }
  }

  lemma AfterSplitAt(s: State, setup: Setup, ns: seq<int>, j: nat)
    requires Runs(s, setup, ns) && j <= |ns|
    ensures Runs(s, setup, ns[..j]) && Runs(After(s, setup, ns[..j]), setup, ns[j..])
  {
    hide Runs, After;
    assert ns[..j] + ns[j..] == ns;
    AfterSplit(s, setup, ns[..j], ns[j..]);
  }

  /** The deltas that the next `n` inputs of a replay will use. */
  function Pending(s: State, n: nat): seq<int>
    requires s.at <= |s.deltas|
  {
    s.deltas[s.at..Min(s.at + n, |s.deltas|)]
  }

  predicate NonNegative(ds: seq<int>) { forall k :: 0 <= k < |ds| ==> ds[k] >= 0 }

  /**
   * Virtual time never decreases, whatever the real clock does, when recording and when ticking; when
   * replaying, exactly if none of the logged deltas it uses is negative.
   */
  lemma {:induction false} NeverDecreases(s: State, setup: Setup, ns: seq<int>)
    requires Runs(s, setup, ns) && s.at <= |s.deltas|
    ensures Ascends(s, setup, ns) <==> (s.mode.Replay? ==> NonNegative(Pending(s, |ns|)))
    decreases |ns|
  {
    hide InWord, Tick;
    if |ns| > 0 {
      TickMoves(s, setup, ns[0]);
      NeverDecreases(Tick(s, setup, ns[0]), setup, ns[1..]);
      if s.mode.Replay? && s.at < |s.deltas| { PendingUnfolds(s.deltas, s.at, |ns|); }
    }
  }

  /** One input moves the time by the mode's advance and uses up at most one delta. */
  lemma TickMoves(s: State, setup: Setup, now: int)
    requires InWord(Advance(s, now)) && InWord(s.ticks + Advance(s, now))
    ensures var t := Tick(s, setup, now);
      && Now(t) == Now(s) + Advance(s, now) && t.mode == s.mode && t.deltas == s.deltas
      && t.at == if s.mode.Replay? && s.at < |s.deltas| then s.at + 1 else s.at
  {
    hide InWord, Advance, Word, PutTicks;
  }

  lemma PendingUnfolds(ds: seq<int>, at: nat, n: nat)
    requires at < |ds| && n > 0
    ensures NonNegative(ds[at..Min(at + n, |ds|)]) <==> ds[at] >= 0 && NonNegative(ds[at + 1..Min(at + n, |ds|)])
  {
    var a := ds[at..Min(at + n, |ds|)];
    assert a[1..] == ds[at + 1..Min(at + n, |ds|)] && a[0] == ds[at];
    assert forall k :: 1 <= k < |a| ==> a[k] == a[1..][k - 1];
  }

  lemma {:induction false} DeltasNonNegative(last: int, ns: seq<int>)
    ensures NonNegative(Deltas(last, ns))
    decreases |ns|
  {
    if |ns| > 0 { DeltasNonNegative(ns[0], ns[1..]); }
  }

  /** A replay of a recorded log, whole or cut, never goes back in time. */
  lemma ReplayNeverDecreases(f: Files, rt: i64, mono: int, ns: seq<int>, n: nat, rt': i64, mono': int, ns': seq<int>)
    requires Fresh(f) && Runs(Boot(f, DELTAS, rt, mono), DELTAS, ns) && 8 <= n <= 8 * |ns|
    ensures var rep := Replayer(Boot(f, DELTAS, rt, mono), ns, n, rt', mono');
      Runs(rep, DELTAS, ns') && Ascends(rep, DELTAS, ns')
  {
    hide Runs, After, Deltas, Replayer, Ascends;
    ReplayMatches(f, rt, mono, ns, n, rt', mono', ns');
    ReplayerStarts(f, rt, mono, ns, n, rt', mono');
    DeltasNonNegative(mono, ns);
    NeverDecreases(Replayer(Boot(f, DELTAS, rt, mono), ns, n, rt', mono'), DELTAS, ns');
  }

  lemma {:induction false} FixedTicks(s: State, setup: Setup, ns: seq<int>)
    requires Runs(s, setup, ns) && s.mode.FixedTick? && setup.useTicks && s.files.ticks.Some?
    requires WordOf(s.files.ticks.value) == s.ticks
    ensures var e := After(s, setup, ns);
      && e.base == s.base && e.files.base == s.files.base && e.mode.FixedTick?
      && e.ticks == s.ticks + TICK_NS * |ns|
      && e.files.ticks.Some? && WordOf(e.files.ticks.value) == e.ticks
    decreases |ns|
  {
    hide Word, WordOf;
    if |ns| > 0 {
      var b := s.files.ticks.value;
      WordRoundTrip(s.ticks + TICK_NS, if |b| > 8 then b[8..] else []);
      FixedTicks(Tick(s, setup, ns[0]), setup, ns[1..]);
    }
  }

  /** In fixed-tick mode only the tick count and the number of inputs matter. */
  lemma {:induction false} SameTicksRun(s: State, s': State, setup: Setup, ns: seq<int>, ns': seq<int>)
    requires s.mode.FixedTick? && s'.mode.FixedTick? && s.ticks == s'.ticks && |ns| == |ns'|
    requires Runs(s, setup, ns)
    ensures Runs(s', setup, ns')
    decreases |ns|
  {
    hide Word, PutTicks;
    if |ns| > 0 { SameTicksRun(Tick(s, setup, ns[0]), Tick(s', setup, ns'[0]), setup, ns[1..], ns'[1..]); }
  }

  /** In fixed-tick mode a process resumed from the saved tick count tells the full run's time on the tail. */
  lemma ResumeMatchesTail(f: Files, rt: i64, mono: int, head: seq<int>, tail: seq<int>,
                          rt': i64, mono': int, tail': seq<int>)
    requires Runs(Boot(f, TICKS, rt, mono), TICKS, head + tail) && |tail'| == |tail|
    ensures Runs(Boot(f, TICKS, rt, mono), TICKS, head)
    ensures var full := Boot(f, TICKS, rt, mono);
      var resumed := Boot(After(full, TICKS, head).files, TICKS, rt', mono');
      && Runs(resumed, TICKS, tail')
      && Now(After(resumed, TICKS, tail')) == Now(After(full, TICKS, head + tail))
  {
    hide Tick, Advance, InWord, Word, WordOf, Runs, After;
    var full := Boot(f, TICKS, rt, mono);
    AfterSplit(full, TICKS, head, tail);
    BaseKept(f, rt);
    ShortIsZero();
    FixedTicks(full, TICKS, head);
    FixedTicks(full, TICKS, head + tail);
    var resumed := Boot(After(full, TICKS, head).files, TICKS, rt', mono');
    SameTicksRun(After(full, TICKS, head), resumed, TICKS, tail, tail');
    FixedTicks(resumed, TICKS, tail');
  }

  const NO_FILES: Files := Files(None, None, None)

  /**
   * A first start in fixed-tick mode tells the real time it was started at and remembers it, and every
   * input adds one millisecond.
   */
  lemma {:induction false} FixedClock(useTicks: bool, rt: i64, mono: int, ns: seq<int>)
    requires Runs(Boot(NO_FILES, Setup(useTicks, false), rt, mono), Setup(useTicks, false), ns)
    ensures var u := Setup(useTicks, false);
      var s := Boot(NO_FILES, u, rt, mono);
      && Now(s) == rt && s.files.base.Some? && WordOf(s.files.base.value) == rt
      && Now(After(s, u, ns)) == rt + 1_000_000 * |ns|
  {
    hide Word, WordOf, Runs, After;
    var u := Setup(useTicks, false);
    BaseKept(NO_FILES, rt);
    TicksAdd(Boot(NO_FILES, u, rt, mono), u, ns);
  }

  lemma {:induction false} TicksAdd(s: State, setup: Setup, ns: seq<int>)
    requires Runs(s, setup, ns) && s.mode.FixedTick?
    ensures Now(After(s, setup, ns)) == Now(s) + 1_000_000 * |ns|
    decreases |ns|
  {
    hide InWord, Tick;
    if |ns| > 0 {
      TickMoves(s, setup, ns[0]);
      TicksAdd(Tick(s, setup, ns[0]), setup, ns[1..]);
    }
  }

  /** A first start in delta mode records, from the real time and the monotonic reading it found. */
  lemma FirstRecording(rt: i64, mono: int)
    ensures var s := Boot(NO_FILES, DELTAS, rt, mono);
      s.mode.Record? && Now(s) == rt && s.lastMono == mono && s.files.deltas == Some([])
  {}

  lemma ShortIsZero()
    ensures WordOf([]) == 0
  {}
}
