/** The Wing-Gong register checker (linearizability.rs). */
module Linearizability {
  datatype Action = Write(v: int) | Read(v: int)

  datatype LinOp = LinOp(proc: nat, action: Action, inv: nat, res: nat)

  predicate Legal(a: Action, value: int) { a.Write? || a.v == value }
  function After(a: Action, value: int): int { if a.Write? then a.v else value }

  // ------------------------------------------------------------ what it must decide

  predicate InRange(order: seq<nat>, n: nat) { forall k :: 0 <= k < |order| ==> order[k] < n }
  predicate Below(s: set<nat>, n: nat) { forall i :: i in s ==> i < n }

  function All(n: nat): (s: set<nat>)
    ensures forall i: nat :: i in s <==> i < n
  {
    if n == 0 then {} else All(n - 1) + {n - 1}
  }

  /** Every operation takes effect on the register it finds. */
  predicate RunsFrom(ops: seq<LinOp>, order: seq<nat>, value: int)
    requires InRange(order, |ops|)
    decreases |order|
  {
    |order| == 0 ||
    (Legal(ops[order[0]].action, value) && RunsFrom(ops, order[1..], After(ops[order[0]].action, value)))
  }

  /** `res(A) < inv(B)` puts A before B. */
  predicate RespectsTime(ops: seq<LinOp>, order: seq<nat>)
    requires InRange(order, |ops|)
  {
    forall i, j :: 0 <= i < j < |order| ==> ops[order[j]].res >= ops[order[i]].inv
  }

  /** `order` lists each index of `s` exactly once. */
  ghost predicate Lists(order: seq<nat>, s: set<nat>) {
    && (forall i: nat :: i in order <==> i in s)
    && (forall i, j :: 0 <= i < j < |order| ==> order[i] != order[j])
  }

  /** Position `j` writes `v`, and nothing between it and position `k` writes. */
  predicate LastWrite(ops: seq<LinOp>, order: seq<nat>, j: nat, k: nat, v: int)
    requires InRange(order, |ops|) && j < k <= |order|
  {
    ops[order[j]].action == Write(v) && forall i :: j < i < k ==> ops[order[i]].action.Read?
  }

  /** A register at position `k`: a read returns the last value written before it, or the initial one. */
  predicate ReadOk(ops: seq<LinOp>, order: seq<nat>, init: int, k: nat)
    requires InRange(order, |ops|) && k < |order|
  {
    match ops[order[k]].action
    case Write(_) => true
    case Read(v) =>
      || (exists j :: 0 <= j < k && LastWrite(ops, order, j, k, v))
      || (v == init && forall i :: 0 <= i < k ==> ops[order[i]].action.Read?)
  }

  predicate RegisterOk(ops: seq<LinOp>, order: seq<nat>, init: int)
    requires InRange(order, |ops|)
  {
    forall k :: 0 <= k < |order| ==> ReadOk(ops, order, init, k)
  }

  /** A linearization: a permutation of the history that respects real time and register semantics. */
  ghost predicate Linearization(ops: seq<LinOp>, init: int, order: seq<nat>) {
    && Lists(order, All(|ops|)) && InRange(order, |ops|)
    && RespectsTime(ops, order) && RegisterOk(ops, order, init)
  }

  lemma LastWriteShifts(ops: seq<LinOp>, order: seq<nat>, j: nat, n: nat, v: int)
    requires InRange(order, |ops|) && j < n < |order|
    ensures InRange(order[1..], |ops|)
    ensures LastWrite(ops, order[1..], j, n, v) <==> LastWrite(ops, order, j + 1, n + 1, v)
  {
    var rest := order[1..];
    if LastWrite(ops, rest, j, n, v) {
      forall i | j + 1 < i < n + 1 ensures ops[order[i]].action.Read? { assert ops[rest[i - 1]].action.Read?; }
    }
    if LastWrite(ops, order, j + 1, n + 1, v) {
      forall i | j < i < n ensures ops[rest[i]].action.Read? { assert ops[order[i + 1]].action.Read?; }
    }
  }

  /** What a read may return after a first operation is what it may return from the register that leaves. */
  lemma ReadAfterFirst(ops: seq<LinOp>, order: seq<nat>, init: int, n: nat)
    requires InRange(order, |ops|) && n + 1 < |order|
    ensures InRange(order[1..], |ops|)
    ensures ReadOk(ops, order, init, n + 1) <==> ReadOk(ops, order[1..], After(ops[order[0]].action, init), n)
  {
    var rest, first, k := order[1..], ops[order[0]].action, n + 1;
    if ops[order[k]].action.Read? {
      var v := ops[order[k]].action.v;
      if ReadOk(ops, order, init, k) {
        if j :| 0 <= j < k && LastWrite(ops, order, j, k, v) {
          if j > 0 { LastWriteShifts(ops, order, j - 1, n, v); }
        }
      }
      if ReadOk(ops, rest, After(first, init), n) {
        if j :| 0 <= j < n && LastWrite(ops, rest, j, n, v) {
          LastWriteShifts(ops, order, j, n, v);
        } else {
          forall i | 0 < i < k ensures ops[order[i]].action.Read? { assert ops[rest[i - 1]].action.Read?; }
          assert first.Write? ==> LastWrite(ops, order, 0, k, v);
        }
      }
    }
  }

  /** Stepping a register through an order succeeds exactly when every read returns the last write before it. */
  lemma {:induction false} RunsIffRegister(ops: seq<LinOp>, order: seq<nat>, init: int)
    requires InRange(order, |ops|)
    ensures RunsFrom(ops, order, init) <==> RegisterOk(ops, order, init)
    decreases |order|
  {
    hide ReadOk;
    if |order| > 0 {
      var rest, next := order[1..], After(ops[order[0]].action, init);
      RunsIffRegister(ops, rest, next);
      FirstRead(ops, order, init);
      if RegisterOk(ops, order, init) {
        forall k | 0 <= k < |rest| ensures ReadOk(ops, rest, next, k) { ReadAfterFirst(ops, order, init, k); }
      }
      if ReadOk(ops, order, init, 0) && RegisterOk(ops, rest, next) {
        forall k | 0 <= k < |order| ensures ReadOk(ops, order, init, k) {
          if k > 0 { ReadAfterFirst(ops, order, init, k - 1); }
        }
      }
    }
  }

  lemma FirstRead(ops: seq<LinOp>, order: seq<nat>, init: int)
    requires InRange(order, |ops|) && |order| > 0
    ensures ReadOk(ops, order, init, 0) <==> Legal(ops[order[0]].action, init)
  {}

  predicate IntervalsOk(ops: seq<LinOp>) { forall i :: 0 <= i < |ops| ==> ops[i].inv <= ops[i].res }

  // --------------------------------------------------------------- the search space

  /** `i` may come first among `rem`: nothing in `rem` has returned before it was called. */
  predicate First(ops: seq<LinOp>, rem: set<nat>, i: nat)
    requires Below(rem, |ops|)
  {
    i in rem && forall j :: j in rem ==> ops[j].res >= ops[i].inv
  }

  /** Some order of `rem`, starting from `value`, finishes. */
  ghost predicate CanFinish(ops: seq<LinOp>, rem: set<nat>, value: int)
    requires Below(rem, |ops|)
    decreases |rem|
  {
    rem == {} ||
    exists i: nat :: First(ops, rem, i) && Legal(ops[i].action, value)
      && CanFinish(ops, rem - {i}, After(ops[i].action, value))
  }

  /** Self-inclusive real time: an operation that returns before it is called fits nowhere. */
  predicate RespectsTimeSelf(ops: seq<LinOp>, order: seq<nat>)
    requires InRange(order, |ops|)
  {
    forall i, j :: 0 <= i <= j < |order| ==> ops[order[j]].res >= ops[order[i]].inv
  }

  lemma ListsRest(order: seq<nat>, s: set<nat>)
    requires Lists(order, s) && |order| > 0
    ensures Lists(order[1..], s - {order[0]})
  {
    assert forall i :: i in order <==> i == order[0] || i in order[1..];
    assert forall k :: 0 <= k < |order| - 1 ==> order[1..][k] == order[k + 1];
  }

  lemma {:induction false} OrderFinishes(ops: seq<LinOp>, s: set<nat>, order: seq<nat>, value: int)
    requires Lists(order, s) && Below(s, |ops|) && InRange(order, |ops|)
    requires RespectsTimeSelf(ops, order) && RunsFrom(ops, order, value)
    ensures CanFinish(ops, s, value)
    decreases |order|
  {
    if |order| == 0 {
      assert forall x :: x in s ==> x in order;
    } else {
      var i := order[0];
      ListsRest(order, s);
      forall j | j in s ensures ops[j].res >= ops[i].inv {
        var k :| 0 <= k < |order| && order[k] == j;
      }
      OrderFinishes(ops, s - {i}, order[1..], After(ops[i].action, value));
      assert First(ops, s, i);
    }
  }

  lemma ConsOrder(ops: seq<LinOp>, s: set<nat>, i: nat, rest: seq<nat>)
    requires Below(s, |ops|) && First(ops, s, i)
    requires Lists(rest, s - {i}) && InRange(rest, |ops|) && RespectsTimeSelf(ops, rest)
    ensures Lists([i] + rest, s) && InRange([i] + rest, |ops|) && RespectsTimeSelf(ops, [i] + rest)
  {
    var order := [i] + rest;
    assert forall j: nat :: j in order <==> j == i || j in rest;
    forall a, b | 0 <= a <= b < |order| ensures ops[order[b]].res >= ops[order[a]].inv {
      assert order[b] in order;
      if a > 0 { assert order[a] == rest[a - 1] && order[b] == rest[b - 1]; }
    }
    forall a, b | 0 <= a < b < |order| ensures order[a] != order[b] {
      assert order[b] == rest[b - 1] && rest[b - 1] in rest;
      if a > 0 { assert order[a] == rest[a - 1]; }
    }
  }

  lemma {:induction false} FinishHasOrder(ops: seq<LinOp>, s: set<nat>, value: int) returns (order: seq<nat>)
    requires Below(s, |ops|) && CanFinish(ops, s, value)
    ensures Lists(order, s) && InRange(order, |ops|)
    ensures RespectsTimeSelf(ops, order) && RunsFrom(ops, order, value)
    decreases |s|
  {
    hide Lists, RespectsTimeSelf, Legal, After, InRange;
    if s == {} {
      order := [];
      NoOrder(ops);
    } else {
      var i: nat :| First(ops, s, i) && Legal(ops[i].action, value)
        && CanFinish(ops, s - {i}, After(ops[i].action, value));
      var rest := FinishHasOrder(ops, s - {i}, After(ops[i].action, value));
      order := [i] + rest;
      assert order[1..] == rest;
      ConsOrder(ops, s, i, rest);
    }
  }

  lemma NoOrder(ops: seq<LinOp>)
    ensures Lists([], {}) && InRange([], |ops|) && RespectsTimeSelf(ops, [])
  {}

  lemma FinishIsLinearizable(ops: seq<LinOp>, init: int)
    requires CanFinish(ops, All(|ops|), init)
    ensures IntervalsOk(ops) && exists order :: Linearization(ops, init, order)
  {
    hide CanFinish, RunsFrom, RegisterOk;
    var order := FinishHasOrder(ops, All(|ops|), init);
    forall i | 0 <= i < |ops| ensures ops[i].inv <= ops[i].res {
      assert i in All(|ops|);
      var k :| 0 <= k < |order| && order[k] == i;
    }
    RunsIffRegister(ops, order, init);
    assert Linearization(ops, init, order);
  }

  lemma LinearizableFinishes(ops: seq<LinOp>, init: int, order: seq<nat>)
    requires IntervalsOk(ops) && Linearization(ops, init, order)
    ensures CanFinish(ops, All(|ops|), init)
  {
    hide CanFinish, RunsFrom, RegisterOk;
    assert RespectsTimeSelf(ops, order);
    RunsIffRegister(ops, order, init);
    OrderFinishes(ops, All(|ops|), order, init);
  }

  /** The search decides exactly: sane intervals, and some linearization exists. */
  lemma FinishIffLinearization(ops: seq<LinOp>, init: int)
    ensures CanFinish(ops, All(|ops|), init) <==>
      IntervalsOk(ops) && exists order :: Linearization(ops, init, order)
  {
    hide CanFinish, Linearization, IntervalsOk;
    if CanFinish(ops, All(|ops|), init) {
      FinishIsLinearizable(ops, init);
    }
    if IntervalsOk(ops) && exists order :: Linearization(ops, init, order) {
      var order :| Linearization(ops, init, order);
      LinearizableFinishes(ops, init, order);
    }
  }

  // ------------------------------------------------------------- call/return entries

  datatype Entry = Entry(time: nat, call: bool, id: nat)

  /** By time, calls before returns at ties. */
  predicate Before(a: Entry, b: Entry) { a.time < b.time || (a.time == b.time && (a.call || !b.call)) }

  predicate Sorted(es: seq<Entry>) { forall i, j :: 0 <= i < j < |es| ==> Before(es[i], es[j]) }

  /** Stable insertion, the meaning of `sort_by`. */
  function Insert(e: Entry, es: seq<Entry>): (r: seq<Entry>)
    ensures multiset(r) == multiset(es) + multiset{e}
  {
    if |es| == 0 then [e]
    else if Before(es[0], e) then
      assert es == [es[0]] + es[1..];
      [es[0]] + Insert(e, es[1..])
    else [e] + es
  }

  lemma {:induction false} InsertSorted(e: Entry, es: seq<Entry>)
    requires Sorted(es)
    ensures Sorted(Insert(e, es))
  {
    if |es| > 0 && Before(es[0], e) {
      InsertSorted(e, es[1..]);
      InsertBehind(e, es[1..], es[0]);
    }
  }

  lemma {:induction false} InsertBehind(e: Entry, es: seq<Entry>, first: Entry)
    requires Before(first, e) && forall i :: 0 <= i < |es| ==> Before(first, es[i])
    ensures forall i :: 0 <= i < |Insert(e, es)| ==> Before(first, Insert(e, es)[i])
  {
    hide Before;
    if |es| > 0 && Before(es[0], e) { InsertBehind(e, es[1..], first); }
  }

  method SortEntries(es: seq<Entry>) returns (r: seq<Entry>)
    ensures Sorted(r) && multiset(r) == multiset(es)
  {
    r := [];
    var i := 0;
    while i < |es|
      invariant 0 <= i <= |es|
      invariant Sorted(r) && multiset(r) == multiset(es[..i])
    {
      InsertSorted(es[i], r);
      r := Insert(es[i], r);
      assert es[..i + 1] == es[..i] + [es[i]];
      i := i + 1;
    }
    assert es[..i] == es;
  }

  predicate EntryOk(ops: seq<LinOp>, e: Entry) {
    e.id < |ops| && e.time == if e.call then ops[e.id].inv else ops[e.id].res
  }

  /** The entries of a history: one call and one return per operation. */
  predicate EntriesOf(ops: seq<LinOp>, es: seq<Entry>) {
    && (forall i :: 0 <= i < |ops| ==> Entry(ops[i].inv, true, i) in es && Entry(ops[i].res, false, i) in es)
    && (forall k :: 0 <= k < |es| ==> EntryOk(ops, es[k]))
  }

  lemma EntriesPermute(ops: seq<LinOp>, raw: seq<Entry>, es: seq<Entry>)
    requires EntriesOf(ops, raw) && multiset(raw) == multiset(es)
    ensures EntriesOf(ops, es)
  {
    hide EntryOk;
    assert forall e :: e in raw ==> e in multiset(es);
    forall k | 0 <= k < |es| ensures EntryOk(ops, es[k]) {
      assert es[k] in multiset(raw);
    }
  }

  ghost predicate EachOnce(es: seq<Entry>) { forall e :: multiset(es)[e] <= 1 }

  lemma OneMoreEntry(es: seq<Entry>, e: Entry)
    requires EachOnce(es) && e !in es
    ensures EachOnce(es + [e])
  {
    assert e !in multiset(es);
  }

  method BuildEntries(ops: seq<LinOp>) returns (es: seq<Entry>)
    ensures EntriesOf(ops, es) && Sorted(es) && EachOnce(es)
  {
    hide EachOnce;
    var raw: seq<Entry> := [];
    var i := 0;
    NoEntries();
    while i < |ops|
      invariant 0 <= i <= |ops|
      invariant forall j :: 0 <= j < i ==> Entry(ops[j].inv, true, j) in raw && Entry(ops[j].res, false, j) in raw
      invariant forall k :: 0 <= k < |raw| ==> EntryOk(ops, raw[k])
      invariant EachOnce(raw) && forall k :: 0 <= k < |raw| ==> raw[k].id < i
    {
      OneMoreEntry(raw, Entry(ops[i].inv, true, i));
      raw := raw + [Entry(ops[i].inv, true, i)];
      OneMoreEntry(raw, Entry(ops[i].res, false, i));
      raw := raw + [Entry(ops[i].res, false, i)];
      i := i + 1;
    }
    es := SortEntries(raw);
    EntriesPermute(ops, raw, es);
    OncePermutes(raw, es);
  }

  lemma NoEntries()
    ensures EachOnce([])
  {}

  lemma OncePermutes(a: seq<Entry>, b: seq<Entry>)
    requires EachOnce(a) && multiset(a) == multiset(b)
    ensures EachOnce(b)
  {}

  // ------------------------------------------------------------------- the checker

  function ToSet(s: seq<nat>): (r: set<nat>)
    ensures forall n :: InRange(s, n) ==> Below(r, n)
  {
    set i | i in s
  }

  /** What has been collected from the first `k` entries, no remaining return being among them. */
  ghost predicate Collected(ops: seq<LinOp>, es: seq<Entry>, rem: seq<nat>, k: nat, cs: seq<nat>)
    requires k <= |es| && InRange(rem, |ops|)
  {
    && (forall j :: 0 <= j < k && es[j].id in rem ==> es[j].call)
    && (forall i :: i in cs <==> i in rem && exists j :: 0 <= j < k && es[j] == Entry(ops[i].inv, true, i))
  }

  /** The scan meets a remaining return before the entries run out. */
  lemma ReturnAhead(ops: seq<LinOp>, es: seq<Entry>, rem: seq<nat>) returns (w: nat)
    requires EntriesOf(ops, es) && |rem| > 0 && InRange(rem, |ops|)
    ensures w < |es| && es[w].id in rem && !es[w].call
  {
    var last := Entry(ops[rem[0]].res, false, rem[0]);
    assert last in es;
    w :| 0 <= w < |es| && es[w] == last;
  }

  lemma CollectNext(ops: seq<LinOp>, es: seq<Entry>, rem: seq<nat>, k: nat, cs: seq<nat>)
    requires k < |es| && InRange(rem, |ops|) && EntryOk(ops, es[k])
    requires Collected(ops, es, rem, k, cs) && (es[k].id in rem ==> es[k].call)
    ensures Collected(ops, es, rem, k + 1, if es[k].id in rem then cs + [es[k].id] else cs)
  {
    var cs' := if es[k].id in rem then cs + [es[k].id] else cs;
    forall i ensures i in cs' <==> i in rem && exists j :: 0 <= j < k + 1 && es[j] == Entry(ops[i].inv, true, i) {
      if i in cs' && i !in cs { assert es[k] == Entry(ops[i].inv, true, i); }
    }
  }

  /** The calls that appear before the first return among the remaining operations. */
  method Candidates(ops: seq<LinOp>, es: seq<Entry>, rem: seq<nat>) returns (cs: seq<nat>)
    requires EntriesOf(ops, es) && Sorted(es) && |rem| > 0 && InRange(rem, |ops|)
    ensures forall i: nat :: i in cs <==> First(ops, ToSet(rem), i)
  {
    hide Sorted, First, ToSet, Collected;
    ghost var w := ReturnAhead(ops, es, rem);
    cs := [];
    NothingCollected(ops, es, rem);
    var k := 0;
    while k < |es|
      invariant 0 <= k <= w && Collected(ops, es, rem, k, cs)
    {
      if es[k].id in rem && !es[k].call {
        CandidatesAreFirst(ops, es, rem, k, cs);
        return;
      }
      CollectNext(ops, es, rem, k, cs);
      if es[k].id in rem {
        cs := cs + [es[k].id];
      }
      k := k + 1;
    }
    assert false;
  }

  lemma NothingCollected(ops: seq<LinOp>, es: seq<Entry>, rem: seq<nat>)
    requires InRange(rem, |ops|)
    ensures Collected(ops, es, rem, 0, [])
  {}

  /** Stopping at the first remaining return collects exactly the operations that may come first. */
  lemma CandidatesAreFirst(ops: seq<LinOp>, es: seq<Entry>, rem: seq<nat>, k: nat, cs: seq<nat>)
    requires EntriesOf(ops, es) && Sorted(es) && InRange(rem, |ops|)
    requires k < |es| && es[k].id in rem && !es[k].call
    requires Collected(ops, es, rem, k, cs)
    ensures forall i: nat :: i in cs <==> First(ops, ToSet(rem), i)
  {
    forall i | i in cs ensures First(ops, ToSet(rem), i) {
      var a :| 0 <= a < k && es[a] == Entry(ops[i].inv, true, i);
      forall j | j in ToSet(rem) ensures ops[j].res >= ops[i].inv {
        var e := Entry(ops[j].res, false, j);
        assert e in es;
        var b :| 0 <= b < |es| && es[b] == e;
        assert b >= k;
        assert Before(es[a], es[b]);
      }
    }
    forall i: nat | First(ops, ToSet(rem), i) ensures i in cs {
      var e := Entry(ops[i].inv, true, i);
      assert e in es;
      var a :| 0 <= a < |es| && es[a] == e;
      assert ops[es[k].id].res >= ops[i].inv;
      assert a < k;
    }
  }

  /** Memo entries are failures. */
  ghost predicate MemoOk(ops: seq<LinOp>, memo: set<(seq<nat>, int)>) {
    forall m :: m in memo ==> InRange(m.0, |ops|) && !CanFinish(ops, ToSet(m.0), m.1)
  }

  function Without(rem: seq<nat>, id: nat): (r: seq<nat>)
    ensures forall i: nat :: i in r <==> i in rem && i != id
    ensures |r| <= |rem| && (id in rem ==> |r| < |rem|)
  {
    if |rem| == 0 then [] else if rem[0] == id then Without(rem[1..], id) else [rem[0]] + Without(rem[1..], id)
  }

  lemma SubRange(r: seq<nat>, s: seq<nat>, n: nat)
    requires InRange(s, n) && forall i: nat :: i in r ==> i in s
    ensures InRange(r, n)
  {
    forall k | 0 <= k < |r| ensures r[k] < n { assert r[k] in r; }
  }

  /** Taking `id` first leads nowhere. */
  ghost predicate Fails(ops: seq<LinOp>, s: set<nat>, value: int, id: nat)
    requires Below(s, |ops|) && id < |ops|
  {
    !Legal(ops[id].action, value) || !CanFinish(ops, s - {id}, After(ops[id].action, value))
  }

  lemma AllFail(ops: seq<LinOp>, s: set<nat>, value: int, cs: seq<nat>)
    requires Below(s, |ops|) && s != {} && InRange(cs, |ops|)
    requires forall i: nat :: i in cs <==> First(ops, s, i)
    requires forall k :: 0 <= k < |cs| ==> Fails(ops, s, value, cs[k])
    ensures !CanFinish(ops, s, value)
  {
    forall i: nat | First(ops, s, i) ensures Fails(ops, s, value, i) {
      assert i in cs;
    }
  }

  lemma OneWorks(ops: seq<LinOp>, s: set<nat>, value: int, id: nat)
    requires Below(s, |ops|) && First(ops, s, id) && !Fails(ops, s, value, id)
    ensures CanFinish(ops, s, value)
  {}

  lemma NothingLeft(ops: seq<LinOp>, rem: seq<nat>, value: int)
    requires |rem| == 0 && Below(ToSet(rem), |ops|)
    ensures CanFinish(ops, ToSet(rem), value)
  {
    assert ToSet(rem) == {};
  }

  lemma Remember(ops: seq<LinOp>, memo: set<(seq<nat>, int)>, rem: seq<nat>, value: int)
    requires MemoOk(ops, memo) && InRange(rem, |ops|) && !CanFinish(ops, ToSet(rem), value)
    ensures MemoOk(ops, memo + {(rem, value)})
  {
    hide CanFinish, InRange;
  }

  /** The backtracking search; `memo` is threaded through as the shared mutable set. */
  method Search(ops: seq<LinOp>, es: seq<Entry>, rem: seq<nat>, value: int, memo: set<(seq<nat>, int)>)
    returns (ok: bool, memo': set<(seq<nat>, int)>)
    requires EntriesOf(ops, es) && Sorted(es) && InRange(rem, |ops|)
    requires MemoOk(ops, memo)
    ensures ok <==> CanFinish(ops, ToSet(rem), value)
    ensures MemoOk(ops, memo')
    decreases |rem|
  {
    hide EntriesOf, Sorted, CanFinish, First, After, Legal, Without;
    memo' := memo;
    if |rem| == 0 {
      NothingLeft(ops, rem, value);
      return true, memo';
    }
    if (rem, value) in memo {
      return false, memo';
    }
    var cs := Candidates(ops, es, rem);
    var s := ToSet(rem);
    assert rem[0] in s;
    CandidatesInRange(ops, rem, cs);
    var k := 0;
    while k < |cs|
      invariant 0 <= k <= |cs| && MemoOk(ops, memo')
      invariant forall j :: 0 <= j < k ==> Fails(ops, s, value, cs[j])
    {
      var id := cs[k];
      if Legal(ops[id].action, value) {
        var found;
        assert ToSet(Without(rem, id)) == s - {id};
        SubRange(Without(rem, id), rem, |ops|);
        found, memo' := Search(ops, es, Without(rem, id), After(ops[id].action, value), memo');
        if found {
          OneWorks(ops, s, value, id);
          return true, memo';
        }
      }
      k := k + 1;
    }
    AllFail(ops, s, value, cs);
    Remember(ops, memo', rem, value);
    memo' := memo' + {(rem, value)};
    ok := false;
  }

  lemma CandidatesInRange(ops: seq<LinOp>, rem: seq<nat>, cs: seq<nat>)
    requires InRange(rem, |ops|) && forall i: nat :: i in cs <==> First(ops, ToSet(rem), i)
    ensures InRange(cs, |ops|) && forall k :: 0 <= k < |cs| ==> cs[k] in rem
  {
    forall k | 0 <= k < |cs| ensures cs[k] in rem && cs[k] < |ops| { assert cs[k] in cs; }
  }

  /** `is_linearizable`: true exactly for sane histories that have a linearization. */
  method IsLinearizable(ops: seq<LinOp>, init: int) returns (ok: bool)
    ensures ok <==> IntervalsOk(ops) && exists order :: Linearization(ops, init, order)
  {
    var es := BuildEntries(ops);
    var rem := seq(|ops|, i requires 0 <= i < |ops| => i);
    assert ToSet(rem) == All(|ops|) by {
      forall i | 0 <= i < |ops| ensures i in rem { assert rem[i] == i; }
    }
    var memo;
    ok, memo := Search(ops, es, rem, init, {});
    FinishIffLinearization(ops, init);
  }
}
