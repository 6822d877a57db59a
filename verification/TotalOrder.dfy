/** The 1Pipe barrier protocol of OnePipeTotalOrder.tla, for any processes and unbounded clocks. */
module TotalOrder {
  datatype Msg = Msg(ts: nat, src: nat)

  /** The global order: by timestamp, ties by sender. */
  predicate Before(a: Msg, b: Msg) { a.ts < b.ts || (a.ts == b.ts && a.src < b.src) }

  /** The protocol state; `past[m]` records what its sender had sent or delivered before sending `m`. */
  datatype Net = Net(clock: map<nat, nat>, sent: set<Msg>, known: map<(nat, nat), nat>,
                     buffer: map<nat, set<Msg>>, delivered: map<nat, seq<Msg>>, past: map<Msg, set<Msg>>)
  {
    function Clock(p: nat): nat { if p in clock then clock[p] else 1 }
    function Known(r: nat, s: nat): nat { if (r, s) in known then known[(r, s)] else 0 }
    function Buffer(r: nat): set<Msg> { if r in buffer then buffer[r] else {} }
    function Delivered(r: nat): seq<Msg> { if r in delivered then delivered[r] else [] }
    function Past(m: Msg): set<Msg> { if m in past then past[m] else {} }
  }

  /** Clocks start at 1, bounds at 0, nothing is sent, buffered or delivered. */
  const START: Net := Net(map[], {}, map[], map[], map[], map[])

  datatype Event =
    | Send(p: nat)
    | Tick(p: nat)
    | Receive(r: nat, m: Msg)
    | LearnBarrier(r: nat, s: nat)
    | Deliver(r: nat, m: Msg)

  predicate Arrived(buf: set<Msg>, del: seq<Msg>, m: Msg) { m in buf || m in del }

  /** Below the aggregated barrier, the least bound a receiver has over all senders. */
  predicate BelowBarrier(procs: set<nat>, n: Net, r: nat, ts: nat) {
    forall s :: s in procs ==> ts < n.Known(r, s)
  }

  predicate IsLeast(m: Msg, buf: set<Msg>) {
    m in buf && forall x :: x in buf && x != m ==> Before(m, x)
  }

  predicate Enabled(procs: set<nat>, n: Net, e: Event) {
    match e
    case Send(p) => p in procs
    case Tick(p) => p in procs
    case Receive(r, m) => r in procs && m in n.sent && !Arrived(n.Buffer(r), n.Delivered(r), m)
    case LearnBarrier(r, s) =>
      && r in procs && s in procs && n.Clock(s) > n.Known(r, s)
      && forall m :: m in n.sent && m.src == s && m.ts < n.Clock(s) ==> Arrived(n.Buffer(r), n.Delivered(r), m)
    case Deliver(r, m) => r in procs && IsLeast(m, n.Buffer(r)) && BelowBarrier(procs, n, r, m.ts)
  }

  function PastOf(n: Net, p: nat): set<Msg> {
    (set x | x in n.sent && x.src == p) + (set x | x in n.Delivered(p))
  }

  function SendStep(n: Net, p: nat): Net {
    var m := Msg(n.Clock(p), p);
    n.(sent := n.sent + {m}, clock := n.clock[p := n.Clock(p) + 1], past := n.past[m := PastOf(n, p)])
  }

  function TickStep(n: Net, p: nat): Net { n.(clock := n.clock[p := n.Clock(p) + 1]) }

  function ReceiveStep(n: Net, r: nat, m: Msg): Net { n.(buffer := n.buffer[r := n.Buffer(r) + {m}]) }

  function LearnStep(n: Net, r: nat, s: nat): Net { n.(known := n.known[(r, s) := n.Clock(s)]) }

  function DeliverStep(n: Net, r: nat, m: Msg): Net {
    n.(buffer := n.buffer[r := n.Buffer(r) - {m}], delivered := n.delivered[r := n.Delivered(r) + [m]])
  }

  function Next(n: Net, e: Event): Net {
    match e
    case Send(p) => SendStep(n, p)
    case Tick(p) => TickStep(n, p)
    case Receive(r, m) => ReceiveStep(n, r, m)
    case LearnBarrier(r, s) => LearnStep(n, r, s)
    case Deliver(r, m) => DeliverStep(n, r, m)
  }

  /** The state after a sequence of events, those that are not enabled being skipped. */
  function Exec(procs: set<nat>, es: seq<Event>): Net {
    if |es| == 0 then START
    else
      var n := Exec(procs, es[..|es| - 1]);
      if Enabled(procs, n, es[|es| - 1]) then Next(n, es[|es| - 1]) else n
  }

  // --------------------------------------------------------------- the invariant

  predicate Sorted(d: seq<Msg>) { forall i, j :: 0 <= i < j < |d| ==> Before(d[i], d[j]) }

  /** No sent message that `d` lacks is ordered before one it has. */
  predicate DownwardClosed(sent: set<Msg>, d: seq<Msg>) {
    forall m, i :: m in sent && m !in d && 0 <= i < |d| ==> Before(d[i], m)
  }

  /** Senders: stamped below the sender's clock, with a past of smaller timestamps. */
  predicate SendersOk(procs: set<nat>, n: Net) {
    && (forall m :: m in n.sent ==> m.src in procs && m.ts < n.Clock(m.src))
    && (forall m, x :: m in n.sent && x in n.Past(m) ==> x in n.sent && x.ts < m.ts)
  }

  predicate BoundsOk(procs: set<nat>, n: Net) {
    forall r, s :: r in procs && s in procs ==> n.Known(r, s) <= n.Clock(s)
  }

  /** The FIFO gate: whatever a bound rules out has already arrived. */
  predicate GateOk(n: Net, r: nat) {
    forall m :: m in n.sent && m.ts < n.Known(r, m.src) ==> Arrived(n.Buffer(r), n.Delivered(r), m)
  }

  predicate BufferOk(n: Net, r: nat) {
    forall m :: m in n.Buffer(r) ==> m in n.sent && m !in n.Delivered(r)
  }

  predicate DeliveredOk(procs: set<nat>, n: Net, r: nat) {
    forall i :: 0 <= i < |n.Delivered(r)| ==>
      n.Delivered(r)[i] in n.sent && BelowBarrier(procs, n, r, n.Delivered(r)[i].ts)
  }

  predicate ReceiverOk(procs: set<nat>, n: Net, r: nat) {
    GateOk(n, r) && BufferOk(n, r) && DeliveredOk(procs, n, r)
    && Sorted(n.Delivered(r)) && DownwardClosed(n.sent, n.Delivered(r))
  }

  predicate Inv(procs: set<nat>, n: Net) {
    SendersOk(procs, n) && BoundsOk(procs, n) && forall r :: r in procs ==> ReceiverOk(procs, n, r)
  }

  lemma SendKeepsSenders(procs: set<nat>, n: Net, p: nat)
    requires SendersOk(procs, n) && BoundsOk(procs, n) && DeliveredOk(procs, n, p) && p in procs
    ensures SendersOk(procs, SendStep(n, p)) && Msg(n.Clock(p), p) !in n.sent
  {
    var n' := SendStep(n, p);
    var m := Msg(n.Clock(p), p);
    forall x | x in PastOf(n, p) ensures x in n.sent && x.ts < m.ts {
      if x in n.Delivered(p) {
        var i :| 0 <= i < |n.Delivered(p)| && n.Delivered(p)[i] == x;
        assert x.ts < n.Known(p, p);
      }
    }
    forall a | a in n'.sent ensures n'.Past(a) == if a == m then PastOf(n, p) else n.Past(a) {}
  }

  /** A fresh message is ordered after everything any receiver has delivered. */
  lemma SendKeepsReceiver(procs: set<nat>, n: Net, p: nat, r: nat)
    requires BoundsOk(procs, n) && ReceiverOk(procs, n, r) && p in procs && r in procs
    ensures ReceiverOk(procs, SendStep(n, p), r)
  {
    var n' := SendStep(n, p);
    var d := n.Delivered(r);
    assert n'.Delivered(r) == d && n'.Buffer(r) == n.Buffer(r);
    assert forall s :: n'.Known(r, s) == n.Known(r, s);
    assert forall ts :: BelowBarrier(procs, n, r, ts) ==> BelowBarrier(procs, n', r, ts);
    forall m, i | m in n'.sent && m !in d && 0 <= i < |d| ensures Before(d[i], m) {
      if m !in n.sent { assert BelowBarrier(procs, n, r, d[i].ts) && n.Known(r, p) <= n.Clock(p); }
    }
  }

  lemma SendKeeps(procs: set<nat>, n: Net, p: nat)
    requires Inv(procs, n) && p in procs
    ensures Inv(procs, SendStep(n, p))
  {
    hide SendersOk, ReceiverOk, SendStep;
    DeliveredOf(procs, n, p);
    SendKeepsSenders(procs, n, p);
    SendKeepsBounds(procs, n, p);
    forall r | r in procs ensures ReceiverOk(procs, SendStep(n, p), r) { SendKeepsReceiver(procs, n, p, r); }
  }

  lemma SendKeepsBounds(procs: set<nat>, n: Net, p: nat)
    requires BoundsOk(procs, n)
    ensures BoundsOk(procs, SendStep(n, p)) && BoundsOk(procs, TickStep(n, p))
  {}

  lemma DeliveredOf(procs: set<nat>, n: Net, p: nat)
    requires ReceiverOk(procs, n, p)
    ensures DeliveredOk(procs, n, p)
  {}

  /** Steps that leave a receiver's own data and the sent messages alone. */
  lemma ReceiverUnmoved(procs: set<nat>, n: Net, n': Net, r: nat)
    requires ReceiverOk(procs, n, r) && n'.sent == n.sent
    requires n'.Buffer(r) == n.Buffer(r) && n'.Delivered(r) == n.Delivered(r)
    requires forall s :: n'.Known(r, s) == n.Known(r, s)
    ensures ReceiverOk(procs, n', r)
  {
    hide Sorted, DownwardClosed, Arrived, Net.Buffer, Net.Delivered, Net.Known;
    assert forall ts :: BelowBarrier(procs, n, r, ts) ==> BelowBarrier(procs, n', r, ts);
  }

  lemma TickKeeps(procs: set<nat>, n: Net, p: nat)
    requires Inv(procs, n) && p in procs
    ensures Inv(procs, TickStep(n, p))
  {
    hide ReceiverOk, BoundsOk;
    SendKeepsBounds(procs, n, p);
    forall r | r in procs ensures ReceiverOk(procs, TickStep(n, p), r) { ReceiverUnmoved(procs, n, TickStep(n, p), r); }
  }

  lemma ReceiveKeepsReceiver(procs: set<nat>, n: Net, r: nat, m: Msg)
    requires ReceiverOk(procs, n, r) && m in n.sent && !Arrived(n.Buffer(r), n.Delivered(r), m)
    ensures ReceiverOk(procs, ReceiveStep(n, r, m), r)
  {
    hide Sorted, DownwardClosed, BelowBarrier;
    var n' := ReceiveStep(n, r, m);
    assert n'.Delivered(r) == n.Delivered(r) && n'.Buffer(r) == n.Buffer(r) + {m};
    SameBounds(procs, n, n', r);
  }

  lemma SameBounds(procs: set<nat>, n: Net, n': Net, r: nat)
    requires forall s :: n'.Known(r, s) >= n.Known(r, s)
    ensures forall ts :: BelowBarrier(procs, n, r, ts) ==> BelowBarrier(procs, n', r, ts)
  {}

  lemma ReceiveKeeps(procs: set<nat>, n: Net, r: nat, m: Msg)
    requires Inv(procs, n) && Enabled(procs, n, Receive(r, m))
    ensures Inv(procs, ReceiveStep(n, r, m))
  {
    hide ReceiverOk;
    var n' := ReceiveStep(n, r, m);
    forall q | q in procs ensures ReceiverOk(procs, n', q) {
      if q == r { ReceiveKeepsReceiver(procs, n, r, m); } else { ReceiverUnmoved(procs, n, n', q); }
    }
  }

  lemma LearnKeepsReceiver(procs: set<nat>, n: Net, r: nat, s: nat)
    requires ReceiverOk(procs, n, r) && Enabled(procs, n, LearnBarrier(r, s))
    ensures ReceiverOk(procs, LearnStep(n, r, s), r)
  {
    hide Sorted, DownwardClosed, BelowBarrier, Arrived;
    var n' := LearnStep(n, r, s);
    assert n'.Delivered(r) == n.Delivered(r) && n'.Buffer(r) == n.Buffer(r);
    SameBounds(procs, n, n', r);
  }

  lemma LearnKeeps(procs: set<nat>, n: Net, r: nat, s: nat)
    requires Inv(procs, n) && Enabled(procs, n, LearnBarrier(r, s))
    ensures Inv(procs, LearnStep(n, r, s))
  {
    hide ReceiverOk, Arrived;
    var n' := LearnStep(n, r, s);
    forall q | q in procs ensures ReceiverOk(procs, n', q) {
      if q == r { LearnKeepsReceiver(procs, n, r, s); } else { ReceiverUnmoved(procs, n, n', q); }
    }
  }

  /** Delivering the least buffered message below the barrier extends the global order by its next element. */
  lemma DeliverIsNext(procs: set<nat>, n: Net, r: nat, m: Msg, x: Msg)
    requires SendersOk(procs, n) && ReceiverOk(procs, n, r) && Enabled(procs, n, Deliver(r, m))
    requires x in n.sent && x !in n.Delivered(r) && x != m
    ensures Before(m, x)
  {
    hide Sorted, DownwardClosed, DeliveredOk, BufferOk;
    if x !in n.Buffer(r) {
      assert !Arrived(n.Buffer(r), n.Delivered(r), x);
      assert m.ts < n.Known(r, x.src);
    }
  }

  lemma SnocMember(d: seq<Msg>, m: Msg, x: Msg)
    ensures x in d + [m] <==> x in d || x == m
  {}

  lemma DeliverKeepsOrder(procs: set<nat>, n: Net, r: nat, m: Msg)
    requires SendersOk(procs, n) && ReceiverOk(procs, n, r) && Enabled(procs, n, Deliver(r, m))
    ensures Sorted(n.Delivered(r) + [m]) && DownwardClosed(n.sent, n.Delivered(r) + [m])
  {
    hide SendersOk, GateOk, DeliveredOk, BelowBarrier;
    var d := n.Delivered(r);
    forall x, i | x in n.sent && x !in d + [m] && 0 <= i <= |d| ensures Before((d + [m])[i], x) {
      SnocMember(d, m, x);
      DeliverIsNext(procs, n, r, m, x);
    }
    assert m in n.sent && m !in d;
  }

  lemma DeliverKeepsReceiver(procs: set<nat>, n: Net, r: nat, m: Msg)
    requires SendersOk(procs, n) && ReceiverOk(procs, n, r) && Enabled(procs, n, Deliver(r, m))
    ensures ReceiverOk(procs, DeliverStep(n, r, m), r)
  {
    hide Sorted, DownwardClosed, BelowBarrier, SendersOk;
    var n' := DeliverStep(n, r, m);
    DeliverKeepsOrder(procs, n, r, m);
    SameBounds(procs, n, n', r);
    assert n'.Delivered(r) == n.Delivered(r) + [m] && n'.Buffer(r) == n.Buffer(r) - {m};
    forall x ensures x in n'.Delivered(r) <==> x in n.Delivered(r) || x == m { SnocMember(n.Delivered(r), m, x); }
  }

  lemma DeliverKeeps(procs: set<nat>, n: Net, r: nat, m: Msg)
    requires Inv(procs, n) && Enabled(procs, n, Deliver(r, m))
    ensures Inv(procs, DeliverStep(n, r, m))
  {
    hide ReceiverOk, BelowBarrier, IsLeast;
    var n' := DeliverStep(n, r, m);
    forall q | q in procs ensures ReceiverOk(procs, n', q) {
      if q == r { DeliverKeepsReceiver(procs, n, r, m); } else { ReceiverUnmoved(procs, n, n', q); }
    }
  }

  /** Every step of the protocol keeps the invariant. */
  lemma NextKeeps(procs: set<nat>, n: Net, e: Event)
    requires Inv(procs, n) && Enabled(procs, n, e)
    ensures Inv(procs, Next(n, e))
  {
    hide Inv, SendStep, TickStep, ReceiveStep, LearnStep, DeliverStep;
    match e
    case Send(p) => SendKeeps(procs, n, p);
    case Tick(p) => TickKeeps(procs, n, p);
    case Receive(r, m) => ReceiveKeeps(procs, n, r, m);
    case LearnBarrier(r, s) => LearnKeeps(procs, n, r, s);
    case Deliver(r, m) => DeliverKeeps(procs, n, r, m);
  }

  lemma {:induction false} ExecOk(procs: set<nat>, es: seq<Event>)
    ensures Inv(procs, Exec(procs, es))
  {
    hide Enabled, Next, ReceiverOk;
    if |es| == 0 {
      StartOk(procs);
    } else {
      var n := Exec(procs, es[..|es| - 1]);
      ExecOk(procs, es[..|es| - 1]);
      if Enabled(procs, n, es[|es| - 1]) { NextKeeps(procs, n, es[|es| - 1]); }
    }
  }

  lemma StartOk(procs: set<nat>)
    ensures Inv(procs, START)
  {}

  // ------------------------------------------------------------------ main results

  /** In every reachable state each receiver has delivered an ascending, downward-closed set of messages. */
  lemma Consistent(procs: set<nat>, es: seq<Event>, r: nat)
    requires r in procs
    ensures var n := Exec(procs, es);
      && Sorted(n.Delivered(r)) && DownwardClosed(n.sent, n.Delivered(r))
      && (forall i :: 0 <= i < |n.Delivered(r)| ==> n.Delivered(r)[i] in n.sent)
      && (forall i, j :: 0 <= i < j < |n.Delivered(r)| ==>
          var a, b := n.Delivered(r)[i], n.Delivered(r)[j];
          a.ts < b.ts || (a.ts == b.ts && a.src < b.src))
  {
    hide DownwardClosed, Exec, Net.Delivered;
    ExecOk(procs, es);
    assert ReceiverOk(procs, Exec(procs, es), r);
  }

  lemma {:induction false} CommonPrefix(sent: set<Msg>, a: seq<Msg>, b: seq<Msg>, i: nat)
    requires Sorted(a) && Sorted(b) && DownwardClosed(sent, a) && DownwardClosed(sent, b)
    requires (forall k :: 0 <= k < |a| ==> a[k] in sent) && (forall k :: 0 <= k < |b| ==> b[k] in sent)
    requires i < |a| && i < |b|
    ensures a[i] == b[i]
    decreases i
  {
    forall k | 0 <= k < i ensures a[k] == b[k] { CommonPrefix(sent, a, b, k); }
    NotEarlier(sent, a, b, i);
    NotEarlier(sent, b, a, i);
  }

  lemma NotEarlier(sent: set<Msg>, a: seq<Msg>, b: seq<Msg>, i: nat)
    requires Sorted(a) && Sorted(b) && DownwardClosed(sent, b)
    requires i < |a| && i < |b| && a[i] in sent && forall k :: 0 <= k < i ==> a[k] == b[k]
    ensures !Before(a[i], b[i])
  {}

  /** Of any two receivers' delivery sequences, at any reachable moment, one is a prefix of the other. */
  lemma OneIsPrefix(procs: set<nat>, es: seq<Event>, r1: nat, r2: nat)
    requires r1 in procs && r2 in procs && |Exec(procs, es).Delivered(r1)| <= |Exec(procs, es).Delivered(r2)|
    ensures Exec(procs, es).Delivered(r1) <= Exec(procs, es).Delivered(r2)
  {
    hide Sorted, DownwardClosed, Exec, Net.Delivered;
    var n := Exec(procs, es);
    Consistent(procs, es, r1);
    Consistent(procs, es, r2);
    forall i | 0 <= i < |n.Delivered(r1)| ensures n.Delivered(r1)[i] == n.Delivered(r2)[i] {
      CommonPrefix(n.sent, n.Delivered(r1), n.Delivered(r2), i);
    }
  }

  /** Causality: whoever has delivered `m` sends only larger timestamps from then on. */
  lemma SendsLater(procs: set<nat>, es: seq<Event>, r: nat, m: Msg)
    requires r in procs && m in Exec(procs, es).Delivered(r)
    ensures m.ts < Exec(procs, es).Clock(r)
  {
    hide Sorted, DownwardClosed, Exec, GateOk, BufferOk;
    var n := Exec(procs, es);
    ExecOk(procs, es);
    assert ReceiverOk(procs, n, r);
    var i :| 0 <= i < |n.Delivered(r)| && n.Delivered(r)[i] == m;
    assert m.ts < n.Known(r, r);
  }

  /** A causal chain: each message is in the past of the next. */
  predicate CausalChain(n: Net, c: seq<Msg>) {
    && (forall i :: 0 <= i < |c| ==> c[i] in n.sent)
    && forall i :: 0 <= i < |c| - 1 ==> c[i] in n.Past(c[i + 1])
  }

  lemma {:induction false} ChainAscends(procs: set<nat>, n: Net, c: seq<Msg>, i: nat, j: nat)
    requires SendersOk(procs, n) && CausalChain(n, c) && i < j < |c|
    ensures c[i].ts < c[j].ts
    decreases j
  {
    assert c[j - 1] in n.Past(c[j]);
    if i < j - 1 { ChainAscends(procs, n, c, i, j - 1); }
  }

  /** Every timestamp cut is causally consistent: it contains the whole past of what it contains. */
  lemma CutIsConsistent(procs: set<nat>, es: seq<Event>, c: seq<Msg>, cut: nat, i: nat, j: nat)
    requires CausalChain(Exec(procs, es), c) && i < j < |c| && c[j].ts <= cut
    ensures c[i].ts < cut
  {
    hide ReceiverOk, Exec;
    ExecOk(procs, es);
    ChainAscends(procs, Exec(procs, es), c, i, j);
  }
}
