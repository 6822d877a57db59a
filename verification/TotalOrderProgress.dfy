/** Whatever has happened so far, the barrier protocol can deliver every sent message to every receiver. */
module TotalOrderProgress {
  import O = Ordering
  import opened TotalOrder

  lemma ExecSnoc(procs: set<nat>, es: seq<Event>, e: Event)
    requires Enabled(procs, Exec(procs, es), e)
    ensures Exec(procs, es + [e]) == Next(Exec(procs, es), e)
  {
    assert (es + [e])[..|es|] == es;
  }

  lemma Assoc(a: seq<Event>, b: seq<Event>, c: seq<Event>)
    ensures (a + b) + c == a + (b + c)
  {}

  /** What ticking leaves alone: everything but the clocks, which only grow. */
  ghost predicate OnlyTicked(a: Net, b: Net) {
    && b.sent == a.sent && b.known == a.known && b.buffer == a.buffer && b.delivered == a.delivered
    && forall p: nat :: b.Clock(p) >= a.Clock(p)
  }

  /** Idle ticks take one clock past any time. */
  lemma {:induction false} TickUp(procs: set<nat>, es: seq<Event>, s: nat, ts: nat) returns (more: seq<Event>)
    requires s in procs
    ensures var a, b := Exec(procs, es), Exec(procs, es + more);
      OnlyTicked(a, b) && b.Clock(s) > ts
    decreases if Exec(procs, es).Clock(s) > ts then 0 else ts + 1 - Exec(procs, es).Clock(s)
  {
    hide Exec;
    if Exec(procs, es).Clock(s) > ts {
      more := [];
      assert es + more == es;
    } else {
      ExecSnoc(procs, es, Tick(s));
      var rest := TickUp(procs, es + [Tick(s)], s, ts);
      Assoc(es, [Tick(s)], rest);
      more := [Tick(s)] + rest;
    }
  }

  lemma {:induction false} TickAll(procs: set<nat>, es: seq<Event>, todo: set<nat>, ts: nat) returns (more: seq<Event>)
    requires todo <= procs
    ensures var a, b := Exec(procs, es), Exec(procs, es + more);
      OnlyTicked(a, b) && forall s :: s in todo ==> b.Clock(s) > ts
    decreases |todo|
  {
    hide Exec;
    if todo == {} {
      more := [];
      assert es + more == es;
    } else {
      var s :| s in todo;
      var first := TickUp(procs, es, s, ts);
      var rest := TickAll(procs, es + first, todo - {s}, ts);
      Assoc(es, first, rest);
      more := first + rest;
    }
  }

  function Missing(n: Net, r: nat): set<Msg> { set x | x in n.sent && !Arrived(n.Buffer(r), n.Delivered(r), x) }

  /** Every message that was sent reaches the receiver's buffer. */
  lemma {:induction false} ReceiveAll(procs: set<nat>, es: seq<Event>, r: nat) returns (more: seq<Event>)
    requires r in procs
    ensures var a, b := Exec(procs, es), Exec(procs, es + more);
      && b.sent == a.sent && b.clock == a.clock && b.known == a.known && b.delivered == a.delivered
      && forall x :: x in b.sent ==> Arrived(b.Buffer(r), b.Delivered(r), x)
    decreases |Missing(Exec(procs, es), r)|
  {
    hide Exec;
    var n := Exec(procs, es);
    if Missing(n, r) == {} {
      more := [];
      assert es + more == es;
      forall x | x in n.sent ensures Arrived(n.Buffer(r), n.Delivered(r), x) { assert x !in Missing(n, r); }
    } else {
      var x :| x in Missing(n, r);
      ExecSnoc(procs, es, Receive(r, x));
      MissingShrinks(n, r, x);
      var rest := ReceiveAll(procs, es + [Receive(r, x)], r);
      Assoc(es, [Receive(r, x)], rest);
      more := [Receive(r, x)] + rest;
    }
  }

  lemma MissingShrinks(n: Net, r: nat, x: Msg)
    requires x in Missing(n, r)
    ensures |Missing(ReceiveStep(n, r, x), r)| < |Missing(n, r)|
  {
    assert Missing(ReceiveStep(n, r, x), r) == Missing(n, r) - {x};
  }

  /** With all messages there, the receiver's bounds rise to the senders' clocks. */
  lemma {:induction false} LearnAll(procs: set<nat>, es: seq<Event>, r: nat, todo: set<nat>) returns (more: seq<Event>)
    requires r in procs && todo <= procs
    requires var n := Exec(procs, es); forall x :: x in n.sent ==> Arrived(n.Buffer(r), n.Delivered(r), x)
    ensures var a, b := Exec(procs, es), Exec(procs, es + more);
      && b.sent == a.sent && b.clock == a.clock && b.buffer == a.buffer && b.delivered == a.delivered
      && (forall s :: s in todo ==> b.Known(r, s) >= b.Clock(s))
      && (forall s :: s in procs ==> b.Known(r, s) >= a.Known(r, s))
    decreases |todo|
  {
    hide Exec;
    var n := Exec(procs, es);
    if todo == {} {
      more := [];
      assert es + more == es;
    } else {
      var s :| s in todo;
      if n.Clock(s) > n.Known(r, s) {
        ExecSnoc(procs, es, LearnBarrier(r, s));
        var rest := LearnAll(procs, es + [LearnBarrier(r, s)], r, todo - {s});
        Assoc(es, [LearnBarrier(r, s)], rest);
        more := [LearnBarrier(r, s)] + rest;
      } else {
        more := LearnAll(procs, es, r, todo - {s});
      }
    }
  }

  predicate BeforeEq(a: Msg, b: Msg) { a == b || Before(a, b) }

  lemma BeforeIsTotal()
    ensures O.TotalOrder(BeforeEq)
  {}

  /** Below the barrier the buffer empties in order until the message is out. */
  lemma {:induction false} DeliverUpTo(procs: set<nat>, es: seq<Event>, r: nat, m: Msg) returns (more: seq<Event>)
    requires r in procs && BelowBarrier(procs, Exec(procs, es), r, m.ts)
    requires Arrived(Exec(procs, es).Buffer(r), Exec(procs, es).Delivered(r), m)
    ensures m in Exec(procs, es + more).Delivered(r)
    decreases |Exec(procs, es).Buffer(r)|
  {
    hide Exec, O.TotalOrder;
    var n := Exec(procs, es);
    if m in n.Delivered(r) {
      more := [];
      assert es + more == es;
    } else {
      BeforeIsTotal();
      var x := O.HasLeast(n.Buffer(r), BeforeEq);
      assert BeforeEq(x, m) && IsLeast(x, n.Buffer(r));
      ExecSnoc(procs, es, Deliver(r, x));
      var rest := DeliverUpTo(procs, es + [Deliver(r, x)], r, m);
      Assoc(es, [Deliver(r, x)], rest);
      more := [Deliver(r, x)] + rest;
    }
  }

  /** In every reachable state, every sent message can still be delivered to every receiver. */
  lemma EveryMessageDelivered(procs: set<nat>, es: seq<Event>, r: nat, m: Msg) returns (more: seq<Event>)
    requires r in procs && m in Exec(procs, es).sent
    ensures m in Exec(procs, es + more).Delivered(r)
  {
    hide Exec;
    var a := TickAll(procs, es, procs, m.ts);
    var b := ReceiveAll(procs, es + a, r);
    var c := LearnAll(procs, es + a + b, r, procs);
    var n := Exec(procs, es + a + b + c);
    assert forall s :: s in procs ==> n.Clock(s) > m.ts;
    var d := DeliverUpTo(procs, es + a + b + c, r, m);
    more := a + b + c + d;
    assert es + more == es + a + b + c + d;
  }

  /** A process can always send, and what it sends is new and later than all it sent or delivered before. */
  lemma SendIsNew(procs: set<nat>, es: seq<Event>, p: nat)
    requires p in procs
    ensures var a, b, m := Exec(procs, es), Exec(procs, es + [Send(p)]), Msg(Exec(procs, es).Clock(p), p);
      && m !in a.sent && b.sent == a.sent + {m} && b.Clock(p) == m.ts + 1
      && (forall x :: x in a.sent && x.src == p ==> x.ts < m.ts)
      && (forall x :: x in a.Delivered(p) ==> x.ts < m.ts)
      && (forall x :: x in b.Past(m) <==> (x in a.sent && x.src == p) || x in a.Delivered(p))
  {
    hide Exec;
    ExecOk(procs, es);
    ExecSnoc(procs, es, Send(p));
    forall x | x in Exec(procs, es).Delivered(p) ensures x.ts < Exec(procs, es).Clock(p) {
      SendsLater(procs, es, p, x);
    }
  }

  /** The causal past recorded for a message is the one it was sent with. */
  lemma {:induction false} PastStays(procs: set<nat>, es: seq<Event>, i: nat, m: Msg)
    requires i <= |es| && m in Exec(procs, es[..i]).sent
    ensures m in Exec(procs, es).sent && Exec(procs, es).Past(m) == Exec(procs, es[..i]).Past(m)
    decreases |es|
  {
    hide Exec;
    if i == |es| {
      assert es[..i] == es;
    } else {
      var n := |es| - 1;
      assert es[..n][..i] == es[..i] && es[..n] + [es[n]] == es;
      PastStays(procs, es[..n], i, m);
      ExecOk(procs, es[..n]);
      if Enabled(procs, Exec(procs, es[..n]), es[n]) {
        ExecSnoc(procs, es[..n], es[n]);
      } else {
        ExecSkip(procs, es[..n], es[n]);
      }
    }
  }

  lemma ExecSkip(procs: set<nat>, es: seq<Event>, e: Event)
    requires !Enabled(procs, Exec(procs, es), e)
    ensures Exec(procs, es + [e]) == Exec(procs, es)
  {
    assert (es + [e])[..|es|] == es;
  }
}
