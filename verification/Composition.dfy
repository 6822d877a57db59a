/** Engines fed by the barrier protocol: agreement, lag and redelivery (cluster.rs over 1Pipe). */
module Composition {
  import opened TotalOrder
  import opened EngineSpec

  /** What the messages carry. */
  type Payload = Msg -> Rec

  function Recs(op: Payload, d: seq<Msg>): (rs: seq<Rec>)
    ensures |rs| == |d| && forall i :: 0 <= i < |d| ==> rs[i] == op(d[i])
  {
    seq(|d|, i requires 0 <= i < |d| => op(d[i]))
  }

  /** How far into a delivery sequence an engine has come after the given positions. */
  function Frontier(ins: seq<nat>): nat {
    if |ins| == 0 then 0
    else
      var f := Frontier(ins[..|ins| - 1]);
      if ins[|ins| - 1] >= f then ins[|ins| - 1] + 1 else f
  }

  /** A feed of `d`: the next undelivered position, or any earlier one again. */
  predicate Feeds(d: seq<Msg>, ins: seq<nat>) {
    forall k :: 0 <= k < |ins| ==> ins[k] < |d| && ins[k] <= Frontier(ins[..k])
  }

  predicate Fits(ins: seq<nat>, n: nat) { forall k :: 0 <= k < |ins| ==> ins[k] < n }

  function Fed(op: Payload, d: seq<Msg>, ins: seq<nat>): (rs: seq<Rec>)
    requires Fits(ins, |d|)
    ensures |rs| == |ins| && forall k :: 0 <= k < |ins| ==> rs[k] == op(d[ins[k]])
  {
    seq(|ins|, k requires 0 <= k < |ins| => op(d[ins[k]]))
  }

  lemma {:induction false} FrontierInside(d: seq<Msg>, ins: seq<nat>)
    requires Feeds(d, ins)
    ensures Frontier(ins) <= |d|
  {
    if |ins| > 0 { FeedsPrefix(d, ins, |ins| - 1); FrontierInside(d, ins[..|ins| - 1]); }
  }

  lemma FeedsPrefix(d: seq<Msg>, ins: seq<nat>, n: nat)
    requires Feeds(d, ins) && n <= |ins|
    ensures Feeds(d, ins[..n])
  {
    forall k | 0 <= k < n ensures ins[..n][..k] == ins[..k] {}
  }

  /** An engine's state depends only on how far its feed has come, not on what was redelivered. */
  lemma {:induction false} FeedIsPrefix(op: Payload, d: seq<Msg>, ins: seq<nat>)
    requires Feeds(d, ins)
    ensures Frontier(ins) <= |d|
    ensures Replay(EMPTY, Fed(op, d, ins)) == Replay(EMPTY, Recs(op, d[..Frontier(ins)]))
  {
    hide Replay, Step, Feeds, Frontier, Recs, Fed;
    FrontierInside(d, ins);
    FrontierStep(d, ins);
    if |ins| == 0 {
      assert Fed(op, d, ins) == Recs(op, d[..0]);
    } else {
      var n := |ins| - 1;
      FeedIsPrefix(op, d, ins[..n]);
      var f, p := Frontier(ins[..n]), ins[n];
      var r := op(d[p]);
      assert Fed(op, d, ins) == Fed(op, d, ins[..n]) + [r];
      ReplaySnoc(EMPTY, Fed(op, d, ins[..n]), r);
      if p == f {
        assert Recs(op, d[..f + 1]) == Recs(op, d[..f]) + [r];
        ReplaySnoc(EMPTY, Recs(op, d[..f]), r);
      } else {
        Redelivered(Recs(op, d[..f]), p);
      }
    }
  }

  /** The last position of a feed is the frontier before it, which then moves on, or an earlier one. */
  lemma FrontierStep(d: seq<Msg>, ins: seq<nat>)
    requires Feeds(d, ins)
    ensures |ins| == 0 ==> Frontier(ins) == 0
    ensures |ins| > 0 ==>
      && Feeds(d, ins[..|ins| - 1])
      && ins[|ins| - 1] < |d| && ins[|ins| - 1] <= Frontier(ins[..|ins| - 1])
      && Frontier(ins) == Frontier(ins[..|ins| - 1]) + (if ins[|ins| - 1] == Frontier(ins[..|ins| - 1]) then 1 else 0)
    ensures Fits(ins, |d|)
  {
    if |ins| > 0 { FeedsPrefix(d, ins, |ins| - 1); }
  }

  lemma Redelivered(rs: seq<Rec>, p: nat)
    requires p < |rs|
    ensures Step(Replay(EMPTY, rs), rs[p]) == Replay(EMPTY, rs)
  {
    hide Replay;
    ReplayCovers(EMPTY, rs);
  }

  /** Engines behind any two receivers agree whenever they have consumed equally many messages. */
  lemma EnginesAgree(procs: set<nat>, es: seq<Event>, op: Payload, r1: nat, r2: nat, in1: seq<nat>, in2: seq<nat>)
    requires r1 in procs && r2 in procs
    requires Feeds(Exec(procs, es).Delivered(r1), in1) && Feeds(Exec(procs, es).Delivered(r2), in2)
    requires Frontier(in1) == Frontier(in2)
    ensures Replay(EMPTY, Fed(op, Exec(procs, es).Delivered(r1), in1))
         == Replay(EMPTY, Fed(op, Exec(procs, es).Delivered(r2), in2))
  {
    hide Replay, Exec, Net.Delivered, Frontier, Feeds;
    var d1, d2 := Exec(procs, es).Delivered(r1), Exec(procs, es).Delivered(r2);
    FeedIsPrefix(op, d1, in1);
    FeedIsPrefix(op, d2, in2);
    SamePrefix(procs, es, r1, r2, Frontier(in1));
  }

  lemma SamePrefix(procs: set<nat>, es: seq<Event>, r1: nat, r2: nat, n: nat)
    requires r1 in procs && r2 in procs
    requires n <= |Exec(procs, es).Delivered(r1)| && n <= |Exec(procs, es).Delivered(r2)|
    ensures Exec(procs, es).Delivered(r1)[..n] == Exec(procs, es).Delivered(r2)[..n]
  {
    hide Exec, Net.Delivered;
    var d1, d2 := Exec(procs, es).Delivered(r1), Exec(procs, es).Delivered(r2);
    if |d1| <= |d2| { OneIsPrefix(procs, es, r1, r2); } else { OneIsPrefix(procs, es, r2, r1); }
  }

  /**
   * A lagging engine that is fed the rest of the leader's sequence, with any redelivery on the way,
   * ends in the leader's state.
   */
  lemma LaggardCatchesUp(procs: set<nat>, es: seq<Event>, op: Payload, r1: nat, r2: nat,
                         in1: seq<nat>, more: seq<nat>, in2: seq<nat>)
    requires r1 in procs && r2 in procs
    requires Feeds(Exec(procs, es).Delivered(r1), in1) && Feeds(Exec(procs, es).Delivered(r2), in2)
    requires Feeds(Exec(procs, es).Delivered(r2), in1 + more) && Frontier(in1 + more) == Frontier(in2)
    ensures Fits(more, |Exec(procs, es).Delivered(r2)|)
    ensures Replay(Replay(EMPTY, Fed(op, Exec(procs, es).Delivered(r1), in1)),
                   Fed(op, Exec(procs, es).Delivered(r2), more))
         == Replay(EMPTY, Fed(op, Exec(procs, es).Delivered(r2), in2))
  {
    hide Replay, Exec, Net.Delivered, Frontier, Feeds, Fed;
    var d1, d2 := Exec(procs, es).Delivered(r1), Exec(procs, es).Delivered(r2);
    FeedsFit(d1, in1);
    FeedsFit(d2, in2);
    FeedsFit(d2, in1 + more);
    FedConcat(op, d2, in1, more);
    ReplayConcat(EMPTY, Fed(op, d2, in1), Fed(op, d2, more));
    SameFeed(procs, es, op, r1, r2, in1);
    FeedIsPrefix(op, d2, in1 + more);
    FeedIsPrefix(op, d2, in2);
  }

  lemma FeedsFit(d: seq<Msg>, ins: seq<nat>)
    requires Feeds(d, ins)
    ensures Fits(ins, |d|)
  {
    hide Frontier;
  }

  lemma FedConcat(op: Payload, d: seq<Msg>, a: seq<nat>, b: seq<nat>)
    requires Fits(a + b, |d|)
    ensures Fits(a, |d|) && Fits(b, |d|) && Fed(op, d, a + b) == Fed(op, d, a) + Fed(op, d, b)
  {
    var all := a + b;
    assert forall k :: 0 <= k < |a| ==> a[k] == all[k];
    assert forall k :: 0 <= k < |b| ==> b[k] == all[|a| + k];
  }

  lemma SameFeed(procs: set<nat>, es: seq<Event>, op: Payload, r1: nat, r2: nat, ins: seq<nat>)
    requires r1 in procs && r2 in procs
    requires Fits(ins, |Exec(procs, es).Delivered(r1)|) && Fits(ins, |Exec(procs, es).Delivered(r2)|)
    ensures Fed(op, Exec(procs, es).Delivered(r1), ins) == Fed(op, Exec(procs, es).Delivered(r2), ins)
  {
    hide Exec, Net.Delivered;
    var d1, d2 := Exec(procs, es).Delivered(r1), Exec(procs, es).Delivered(r2);
    forall k | 0 <= k < |ins| ensures d1[ins[k]] == d2[ins[k]] {
      SamePrefix(procs, es, r1, r2, ins[k] + 1);
      assert d1[..ins[k] + 1][ins[k]] == d2[..ins[k] + 1][ins[k]];
    }
  }

  // ----------------------------------------- why a peer's history extends a laggard's

  /** The operations of a stream that an engine accepts: what ends up in its durable history. */
  function Taken(rs: seq<Rec>): seq<Rec> {
    if |rs| == 0 then []
    else
      var t := Taken(rs[..|rs| - 1]);
      if Accepts(Replay(EMPTY, rs[..|rs| - 1]), rs[|rs| - 1].op) then t + [rs[|rs| - 1]] else t
  }

  /** The accepted operations alone rebuild the same state, each of them new when it comes. */
  lemma {:induction false} TakenReplays(rs: seq<Rec>)
    ensures AllNew(Taken(rs)) && Replay(EMPTY, Taken(rs)) == Replay(EMPTY, rs)
  {
    hide Replay, AllNew;
    if |rs| == 0 {
      EmptyIsNew();
    } else {
      var n := |rs| - 1;
      TakenReplays(rs[..n]);
      assert rs == rs[..n] + [rs[n]];
      ReplaySnoc(EMPTY, rs[..n], rs[n]);
      if Accepts(Replay(EMPTY, rs[..n]), rs[n].op) {
        AllNewSnoc(Taken(rs[..n]), rs[n]);
        ReplaySnoc(EMPTY, Taken(rs[..n]), rs[n]);
      }
    }
  }

  lemma EmptyIsNew()
    ensures AllNew([])
  {}

  lemma {:induction false} TakenPrefix(a: seq<Rec>, b: seq<Rec>)
    requires a <= b
    ensures Taken(a) <= Taken(b)
    decreases |b|
  {
    hide Replay, Accepts;
    if |a| < |b| {
      TakenPrefix(a, b[..|b| - 1]);
    } else {
      assert a == b;
    }
  }

  /** A duplicate adds nothing to the accepted operations. */
  lemma {:induction false} TakenOfFeed(op: Payload, d: seq<Msg>, ins: seq<nat>)
    requires Feeds(d, ins)
    ensures Frontier(ins) <= |d| && Taken(Fed(op, d, ins)) == Taken(Recs(op, d[..Frontier(ins)]))
  {
    hide Replay, Step, Accepts;
    FrontierInside(d, ins);
    if |ins| == 0 {
      assert Fed(op, d, ins) == Recs(op, d[..0]);
    } else {
      var n := |ins| - 1;
      FeedsPrefix(d, ins, n);
      TakenOfFeed(op, d, ins[..n]);
      FeedIsPrefix(op, d, ins[..n]);
      var f, p := Frontier(ins[..n]), ins[n];
      assert Fed(op, d, ins)[..n] == Fed(op, d, ins[..n]);
      if p == f {
        assert Recs(op, d[..f + 1])[..f] == Recs(op, d[..f]);
      } else {
        ReplayCovers(EMPTY, Recs(op, d[..f]));
        assert Recs(op, d[..f])[p] == op(d[p]);
      }
    }
  }

  /** What is accepted from a shorter part of one receiver's sequence is a prefix of what is from a longer. */
  lemma TakenOrdered(procs: set<nat>, es: seq<Event>, op: Payload, r1: nat, r2: nat, f1: nat, f2: nat)
    requires r1 in procs && r2 in procs
    requires f1 <= |Exec(procs, es).Delivered(r1)| && f1 <= f2 <= |Exec(procs, es).Delivered(r2)|
    ensures Taken(Recs(op, Exec(procs, es).Delivered(r1)[..f1])) <= Taken(Recs(op, Exec(procs, es).Delivered(r2)[..f2]))
  {
    hide Exec, Net.Delivered, Taken;
    var d1, d2 := Exec(procs, es).Delivered(r1), Exec(procs, es).Delivered(r2);
    SamePrefix(procs, es, r1, r2, f1);
    assert Recs(op, d1[..f1]) <= Recs(op, d2[..f2]) by {
      forall k | 0 <= k < f1 ensures d1[k] == d2[k] { assert d1[..f1][k] == d2[..f1][k]; }
    }
    TakenPrefix(Recs(op, d1[..f1]), Recs(op, d2[..f2]));
  }

  /**
   * The history of an engine that has consumed less is a prefix of the history of one that has
   * consumed more: the condition under which a state transfer between them is safe.
   */
  lemma LeaderExtendsLaggard(procs: set<nat>, es: seq<Event>, op: Payload, r1: nat, r2: nat,
                             in1: seq<nat>, in2: seq<nat>)
    requires r1 in procs && r2 in procs
    requires Feeds(Exec(procs, es).Delivered(r1), in1) && Feeds(Exec(procs, es).Delivered(r2), in2)
    requires Frontier(in1) <= Frontier(in2)
    ensures Taken(Fed(op, Exec(procs, es).Delivered(r1), in1)) <= Taken(Fed(op, Exec(procs, es).Delivered(r2), in2))
  {
    hide Exec, Net.Delivered, Frontier, Feeds, Taken;
    TakenOfFeed(op, Exec(procs, es).Delivered(r1), in1);
    TakenOfFeed(op, Exec(procs, es).Delivered(r2), in2);
    TakenOrdered(procs, es, op, r1, r2, Frontier(in1), Frontier(in2));
  }

  // -------------------------------------------------------------------- feeds exist

  /** Handing over a sequence once, in order, is a feed that comes all the way. */
  lemma {:induction false} InOrderFeeds(d: seq<Msg>, n: nat)
    requires n <= |d|
    ensures var ins := seq(n, i requires 0 <= i < n => i); Feeds(d, ins) && Frontier(ins) == n
  {
    if n > 0 {
      InOrderFeeds(d, n - 1);
      var ins := seq(n, i requires 0 <= i < n => i);
      assert ins[..n - 1] == seq(n - 1, i requires 0 <= i < n - 1 => i);
      forall k | 0 <= k < n ensures ins[k] < |d| && ins[k] <= Frontier(ins[..k]) {
        if k < n - 1 { assert ins[..k] == ins[..n - 1][..k] && ins[k] == ins[..n - 1][k]; }
      }
    }
  }

  /** A feed may at any time repeat what it has handed over. */
  lemma Repeats(d: seq<Msg>, ins: seq<nat>, p: nat)
    requires Feeds(d, ins) && p < Frontier(ins)
    ensures Feeds(d, ins + [p]) && Frontier(ins + [p]) == Frontier(ins)
  {
    FrontierInside(d, ins);
    var all := ins + [p];
    assert all[..|ins|] == ins;
    forall k | 0 <= k < |all| ensures all[k] < |d| && all[k] <= Frontier(all[..k]) {
      if k < |ins| { assert all[..k] == ins[..k]; }
    }
  }
}
