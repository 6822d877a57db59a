/** The cluster's INCR workload: what every replica must end up with (cluster.rs). */
module Cluster {
  import opened Wrappers
  import opened Bytes
  import opened Text
  import opened Ordering
  import opened State
  import opened EngineSpec

  type Pair = (Str, int)

  // ------------------------------------------------------- the integer view of a store

  function EntriesOn(m: Kv, ks: seq<Str>): seq<Pair>
    requires forall k :: k in ks ==> k in m
  {
    if |ks| == 0 then []
    else if ParseText(m[ks[0]]).Some? then [(ks[0], ParseText(m[ks[0]]).value)] + EntriesOn(m, ks[1..])
    else EntriesOn(m, ks[1..])
  }

  /** `KvStore::entries`: the values that read as integers, in key order. */
  function Entries(m: Kv): seq<Pair> { EntriesOn(m, KeysInOrder(m)) }

  /** Rust's order on `(String, i64)`. */
  predicate PairLe(a: Pair, b: Pair) { if a.0 == b.0 then a.1 <= b.1 else LexLe(a.0, b.0) }

  lemma PairIsTotalOrder()
    ensures TotalOrder(PairLe)
  {
    hide LexLe;
    LexIsTotalOrder();
    forall a: Pair, b: Pair ensures (PairLe(a, b) || PairLe(b, a)) && (PairLe(a, b) && PairLe(b, a) ==> a == b) {
      assert LexLe(a.0, b.0) || LexLe(b.0, a.0);
    }
    forall a: Pair, b: Pair, c: Pair | PairLe(a, b) && PairLe(b, c) ensures PairLe(a, c) {
      assert LexLe(a.0, b.0) && LexLe(b.0, c.0) ==> LexLe(a.0, c.0);
    }
  }

  lemma {:induction false} EntriesOnExact(m: Kv, ks: seq<Str>)
    requires StrictlyAscending(ks, LexLe) && forall k :: k in ks ==> k in m
    ensures StrictlyAscending(EntriesOn(m, ks), PairLe)
    ensures forall p :: p in EntriesOn(m, ks) <==> p.0 in ks && ParseText(m[p.0]) == Some(p.1)
  {
    hide ParseText, LexLe;
    if |ks| > 0 {
      EntriesOnExact(m, ks[1..]);
      var rest := EntriesOn(m, ks[1..]);
      assert forall k :: k in ks <==> k == ks[0] || k in ks[1..];
      forall i | 0 <= i < |rest| ensures LexLe(ks[0], rest[i].0) && ks[0] != rest[i].0 {
        assert rest[i] in rest;
        var j :| 0 <= j < |ks| - 1 && ks[1..][j] == rest[i].0;
        assert ks[j + 1] == rest[i].0;
      }
    }
  }

  lemma EntriesExact(m: Kv)
    ensures StrictlyAscending(Entries(m), PairLe)
    ensures forall p :: p in Entries(m) <==> p.0 in m && ParseText(m[p.0]) == Some(p.1)
  {
    hide ParseText, LexLe, EntriesOn;
    LexIsTotalOrder();
    AscendingSorted(m.Keys, LexLe);
    EntriesOnExact(m, KeysInOrder(m));
  }

  // ---------------------------------------------------------------------- the workload

  /** `format!("k{n}")`. */
  function Name(n: nat): Str { [107] + Decimal(n) }

  lemma NameExample()
    ensures Name(42) == [107, 52, 50]
  {
    DecimalExamples();
  }

  lemma NameInjective(a: nat, b: nat)
    requires Name(a) == Name(b)
    ensures a == b
  {
    hide Decimal;
    assert Name(a)[1..] == Decimal(a) && Name(b)[1..] == Decimal(b);
    DecimalInjective(a, b);
  }

  /** The key that operation `i` of a client goes to: round robin. */
  function Slot(i: nat, keys: nat): (k: nat)
    requires keys > 0
    ensures k < keys
    ensures i < keys ==> k == i
  {
    i % keys
  }

  function ClientOps(c: u32, ops: u64, keys: nat): (r: seq<Op>)
    requires keys > 0
    ensures |r| == ops
  {
    seq(ops, i requires 0 <= i < ops => Op(c, i + 1, Incr(Name(Slot(i, keys)), 1)))
  }

  /** How many of a client's first `n` operations go to key `k`. */
  function Hits(n: nat, keys: nat, k: nat): nat
    requires keys > 0
  {
    if n == 0 then 0 else Hits(n - 1, keys, k) + (if Slot(n - 1, keys) == k then 1 else 0)
  }

  lemma {:induction false} HitsGrow(a: nat, b: nat, keys: nat, k: nat)
    requires keys > 0 && a <= b
    ensures Hits(a, keys, k) <= Hits(b, keys, k) <= b
    ensures a < b && Slot(a, keys) == k ==> Hits(a, keys, k) < Hits(b, keys, k)
    decreases b
  {
    if a < b { HitsGrow(a, b - 1, keys, k); } else if b > 0 { HitsGrow(b - 1, b - 1, keys, k); }
  }

  lemma {:induction false} HitsPositive(n: nat, keys: nat, k: nat)
    requires k < keys
    ensures Hits(n, keys, k) > 0 <==> k < n
  {
    if n > 0 {
      HitsPositive(n - 1, keys, k);
      if n <= keys { assert Slot(n - 1, keys) == n - 1; }
    }
  }

  /** `clients` times the share of one client. */
  function Times(clients: nat, share: nat): nat { clients * share }

  lemma NoneDue(share: nat)
    ensures Times(0, share) == 0
  {}

  lemma OneMore(n: nat, share: nat)
    ensures Times(n + 1, share) == share + Times(n, share)
  {}

  /** Quotient and remainder are what they are by their defining equation. */
  lemma DivUnique(n: nat, d: nat, q: nat, r: nat)
    requires d > 0 && n == Times(q, d) + r && r < d
    ensures n / d == q && n % d == r
  {
    var x := n / d - q;
    assert x * d == r - n % d;
    assert x > 0 ==> x * d >= d;
    assert x < 0 ==> x * d <= 0 - d;
  }

  /** How often every key has come up after `n` operations, and how far the next round has got. */
  function Rounds(n: nat, keys: nat): nat
    requires keys > 0
  {
    n / keys
  }

  lemma Euclid(n: nat, keys: nat)
    requires keys > 0
    ensures n == Times(Rounds(n, keys), keys) + Slot(n, keys)
  {}

  lemma RoundsUnique(n: nat, keys: nat, q: nat, r: nat)
    requires keys > 0 && n == Times(q, keys) + r && r < keys
    ensures Rounds(n, keys) == q && Slot(n, keys) == r
  {
    hide Times;
    DivUnique(n, keys, q, r);
  }

  lemma NextSlot(n: nat, keys: nat)
    requires keys > 0
    ensures Rounds(0, keys) == 0 && Slot(0, keys) == 0
    ensures if Slot(n, keys) + 1 < keys
      then Rounds(n + 1, keys) == Rounds(n, keys) && Slot(n + 1, keys) == Slot(n, keys) + 1
      else Rounds(n + 1, keys) == Rounds(n, keys) + 1 && Slot(n + 1, keys) == 0
  {
    hide Times, Rounds, Slot;
    var q, r := Rounds(n, keys), Slot(n, keys);
    Euclid(n, keys);
    OneMore(q, keys);
    NoneDue(keys);
    RoundsUnique(0, keys, 0, 0);
    if r + 1 < keys { RoundsUnique(n + 1, keys, q, r + 1); } else { RoundsUnique(n + 1, keys, q + 1, 0); }
  }

  lemma {:induction false} HitsByRounds(n: nat, keys: nat, k: nat)
    requires k < keys
    ensures Hits(n, keys, k) == Rounds(n, keys) + (if k < Slot(n, keys) then 1 else 0)
  {
    hide Rounds, Slot;
    if n == 0 {
      NextSlot(0, keys);
    } else {
      HitsByRounds(n - 1, keys, k);
      NextSlot(n - 1, keys);
    }
  }

  /** Round robin: every key gets its equal share, and the first keys one more for the remainder. */
  lemma RoundRobin(n: nat, keys: nat, k: nat)
    requires k < keys
    ensures Hits(n, keys, k) == n / keys + (if k < n % keys then 1 else 0)
  {
    hide Hits;
    HitsByRounds(n, keys, k);
  }

  /** What `expected_state` must return: every key with the operations of all clients on it, sorted. */
  ghost predicate IsExpected(v: seq<Pair>, clients: nat, ops: nat, keys: nat)
    requires keys > 0
  {
    && StrictlyAscending(v, PairLe)
    && forall p :: p in v <==> exists k :: 0 <= k < keys && p == Due(clients, ops, keys, k)
  }

  function Due(clients: nat, ops: nat, keys: nat, k: nat): Pair
    requires keys > 0
  {
    (Name(k), Times(clients, Hits(ops, keys, k)))
  }

  method ExpectedState(clients: nat, ops: nat, keys: nat) returns (v: seq<Pair>)
    requires keys > 0
    ensures IsExpected(v, clients, ops, keys)
  {
    hide Hits, Name, LexLe, Times;
    v := [];
    for k := 0 to keys
      invariant |v| == k && forall j :: 0 <= j < k ==> v[j] == Due(clients, ops, keys, j)
    {
      var sum := 0;
      NoneDue(Hits(ops, keys, k));
      for c := 0 to clients
        invariant sum == Times(c, Hits(ops, keys, k))
      {
        OneMore(c, Hits(ops, keys, k));
        sum := sum + Hits(ops, keys, k);
      }
      v := v + [(Name(k), sum)];
    }
    PairIsTotalOrder();
    var all := set p | p in v;
    AscendingSorted(all, PairLe);
    ghost var raw := v;
    v := Ascending(all, PairLe);
    forall p ensures p in v <==> exists k :: 0 <= k < keys && p == Due(clients, ops, keys, k) {
      assert p in v <==> p in raw;
    }
  }

  // --------------------------------------------------------------------- what arrives

  /** Operation `i` of a client reaches the replica, for the first time or again. */
  datatype Arrival = Arrival(client: u32, i: nat, ts: u64)

  /** How many operations of client `c` have arrived. */
  function Front(xs: seq<Arrival>, c: u32): nat {
    if |xs| == 0 then 0
    else
      var f, x := Front(xs[..|xs| - 1], c), xs[|xs| - 1];
      if x.client == c && x.i >= f then x.i + 1 else f
  }

  /** Each client's operations first arrive in order; anything that has arrived may arrive again. */
  predicate InOrder(ids: seq<u32>, ops: u64, xs: seq<Arrival>) {
    forall n :: 0 <= n < |xs| ==>
      xs[n].client in ids && xs[n].i < ops && xs[n].i <= Front(xs[..n], xs[n].client)
  }

  function Stream(ops: u64, keys: nat, xs: seq<Arrival>): (rs: seq<Rec>)
    requires keys > 0 && forall n :: 0 <= n < |xs| ==> xs[n].i < ops
    ensures |rs| == |xs|
  {
    seq(|xs|, n requires 0 <= n < |xs| => Rec(xs[n].ts, ClientOps(xs[n].client, ops, keys)[xs[n].i]))
  }

  predicate Distinct(ids: seq<u32>) { forall i, j :: 0 <= i < j < |ids| ==> ids[i] != ids[j] }

  /** Arrived operations on key `k`, over all clients. */
  function Total(ids: seq<u32>, xs: seq<Arrival>, keys: nat, k: nat): nat
    requires keys > 0
  {
    if |ids| == 0 then 0 else Hits(Front(xs, ids[0]), keys, k) + Total(ids[1..], xs, keys, k)
  }

  lemma InOrderPrefix(ids: seq<u32>, ops: u64, xs: seq<Arrival>, n: nat)
    requires InOrder(ids, ops, xs) && n <= |xs|
    ensures InOrder(ids, ops, xs[..n])
  {
    forall k | 0 <= k < n ensures xs[..n][..k] == xs[..k] {}
  }

  lemma {:induction false} FrontBound(ids: seq<u32>, ops: u64, xs: seq<Arrival>, c: u32)
    requires InOrder(ids, ops, xs)
    ensures Front(xs, c) <= ops
  {
    if |xs| > 0 {
      InOrderPrefix(ids, ops, xs, |xs| - 1);
      FrontBound(ids, ops, xs[..|xs| - 1], c);
    }
  }

  /** Never more than is due; less as soon as some client's share of the key is incomplete. */
  lemma {:induction false} TotalAtMostDue(ids: seq<u32>, ops: u64, xs: seq<Arrival>, keys: nat, k: nat)
    requires keys > 0 && forall c :: c in ids ==> Front(xs, c) <= ops
    ensures Total(ids, xs, keys, k) <= Times(|ids|, Hits(ops, keys, k))
    ensures (forall c :: c in ids ==> Front(xs, c) == ops)
      ==> Total(ids, xs, keys, k) == Times(|ids|, Hits(ops, keys, k))
    ensures (exists c :: c in ids && Hits(Front(xs, c), keys, k) < Hits(ops, keys, k))
      ==> Total(ids, xs, keys, k) < Times(|ids|, Hits(ops, keys, k))
  {
    hide Hits, Front, Times;
    if |ids| > 0 {
      assert forall c :: c in ids <==> c == ids[0] || c in ids[1..];
      HitsGrow(Front(xs, ids[0]), ops, keys, k);
      TotalAtMostDue(ids[1..], ops, xs, keys, k);
      OneMore(|ids| - 1, Hits(ops, keys, k));
    } else {
      NoneDue(Hits(ops, keys, k));
    }
  }

  /** One more operation of a client adds one to its key and to no other. */
  lemma {:induction false} TotalMoves(ids: seq<u32>, xs: seq<Arrival>, x: Arrival, keys: nat, k: nat)
    requires keys > 0 && Distinct(ids) && x.i <= Front(xs, x.client)
    ensures Total(ids, xs + [x], keys, k) == Total(ids, xs, keys, k) +
      (if x.client in ids && x.i == Front(xs, x.client) && Slot(x.i, keys) == k then 1 else 0)
    decreases |ids|
  {
    if |ids| > 0 {
      assert (xs + [x])[..|xs|] == xs;
      TotalMoves(ids[1..], xs, x, keys, k);
      assert x.client in ids <==> x.client == ids[0] || x.client in ids[1..];
    }
  }

  // --------------------------------------------------------------- what the store holds

  ghost predicate Tallied(m: Kv, ids: seq<u32>, xs: seq<Arrival>, keys: nat)
    requires keys > 0
  {
    && (forall k :: 0 <= k < keys ==> CounterAt(m, Name(k), Total(ids, xs, keys, k)))
    && (forall s :: s in m ==> exists k :: 0 <= k < keys && s == Name(k))
  }

  ghost predicate Workload(ids: seq<u32>, ops: u64, keys: nat, xs: seq<Arrival>) {
    && keys > 0 && Distinct(ids) && |ids| * ops < 0x8000_0000_0000_0000
    && InOrder(ids, ops, xs)
  }

  lemma TotalFits(ids: seq<u32>, ops: u64, keys: nat, xs: seq<Arrival>, k: nat)
    requires Workload(ids, ops, keys, xs)
    ensures Total(ids, xs, keys, k) < 0x8000_0000_0000_0000
  {
    hide Hits, Front, Total;
    forall c ensures Front(xs, c) <= ops { FrontBound(ids, ops, xs, c); }
    TotalAtMostDue(ids, ops, xs, keys, k);
    HitsGrow(0, ops, keys, k);
    assert Times(|ids|, Hits(ops, keys, k)) <= |ids| * ops;
  }

  lemma TallyMoves(m: Kv, ids: seq<u32>, xs: seq<Arrival>, x: Arrival, keys: nat)
    requires keys > 0 && Tallied(m, ids, xs, keys) && Distinct(ids)
    requires x.client in ids && x.i == Front(xs, x.client)
    requires Total(ids, xs + [x], keys, Slot(x.i, keys)) < 0x8000_0000_0000_0000
    ensures Tallied(ApplyOp(m, Incr(Name(Slot(x.i, keys)), 1)).0, ids, xs + [x], keys)
  {
    hide Total, Front, Slot, Name, ApplyOp, Decimal;
    var j := Slot(x.i, keys);
    TotalMoves(ids, xs, x, keys, j);
    IncrCounter(m, Name(j), Total(ids, xs, keys, j));
    var m' := ApplyOp(m, Incr(Name(j), 1)).0;
    forall k | 0 <= k < keys ensures CounterAt(m', Name(k), Total(ids, xs + [x], keys, k)) {
      TotalMoves(ids, xs, x, keys, k);
      if Name(k) == Name(j) { NameInjective(k, j); }
    }
  }

  lemma FrontSnoc(xs: seq<Arrival>, x: Arrival, c: u32)
    ensures Front(xs + [x], c) == if x.client == c && x.i >= Front(xs, c) then x.i + 1 else Front(xs, c)
  {
    assert (xs + [x])[..|xs|] == xs;
  }

  ghost predicate Matches(v: Vol, ids: seq<u32>, xs: seq<Arrival>, keys: nat)
    requires keys > 0
  {
    Tallied(v.kv, ids, xs, keys) && forall c: u32 :: Hw(v.applied, c) == Front(xs, c)
  }

  lemma StepMatches(v: Vol, ids: seq<u32>, ops: u64, keys: nat, xs: seq<Arrival>, x: Arrival)
    requires Workload(ids, ops, keys, xs + [x]) && Matches(v, ids, xs, keys)
    requires x.client in ids && x.i < ops && x.i <= Front(xs, x.client)
    ensures Matches(Step(v, Rec(x.ts, ClientOps(x.client, ops, keys)[x.i])), ids, xs + [x], keys)
  {
    hide Total, Front, Slot, Name, ApplyOp, CounterAt, InOrder;
    forall c ensures Front(xs + [x], c) == if x.client == c && x.i >= Front(xs, c) then x.i + 1 else Front(xs, c) {
      FrontSnoc(xs, x, c);
    }
    if x.i == Front(xs, x.client) {
      TotalFits(ids, ops, keys, xs + [x], Slot(x.i, keys));
      TallyMoves(v.kv, ids, xs, x, keys);
    } else {
      forall k | 0 <= k < keys ensures Total(ids, xs + [x], keys, k) == Total(ids, xs, keys, k) {
        TotalMoves(ids, xs, x, keys, k);
      }
    }
  }

  lemma {:induction false} NoneYet(ids: seq<u32>, keys: nat, k: nat)
    requires keys > 0
    ensures Total(ids, [], keys, k) == 0
  {
    if |ids| > 0 { NoneYet(ids[1..], keys, k); }
  }

  lemma StartMatches(ids: seq<u32>, keys: nat)
    requires keys > 0
    ensures Matches(Replay(EMPTY, []), ids, [], keys)
  {
    hide Total, Name;
    forall k | 0 <= k < keys ensures Total(ids, [], keys, k) == 0 { NoneYet(ids, keys, k); }
  }

  lemma StreamSnoc(ops: u64, keys: nat, xs: seq<Arrival>, x: Arrival)
    requires keys > 0 && x.i < ops && forall n :: 0 <= n < |xs| ==> xs[n].i < ops
    ensures Stream(ops, keys, xs + [x]) == Stream(ops, keys, xs) + [Rec(x.ts, ClientOps(x.client, ops, keys)[x.i])]
  {
    hide ClientOps;
  }

  /** After any in-order arrivals with any redelivery, the store is the tally of what has arrived. */
  lemma {:induction false} StoreIsTally(ids: seq<u32>, ops: u64, keys: nat, xs: seq<Arrival>)
    requires Workload(ids, ops, keys, xs)
    ensures Matches(Replay(EMPTY, Stream(ops, keys, xs)), ids, xs, keys)
  {
    hide Total, Replay, Step, Matches, Stream, ClientOps, Front;
    if |xs| == 0 {
      StartMatches(ids, keys);
      assert Stream(ops, keys, xs) == [];
    } else {
      var n := |xs| - 1;
      InOrderPrefix(ids, ops, xs, n);
      StoreIsTally(ids, ops, keys, xs[..n]);
      assert xs == xs[..n] + [xs[n]];
      StreamSnoc(ops, keys, xs[..n], xs[n]);
      ReplaySnoc(EMPTY, Stream(ops, keys, xs[..n]), Rec(xs[n].ts, ClientOps(xs[n].client, ops, keys)[xs[n].i]));
      StepMatches(Replay(EMPTY, Stream(ops, keys, xs[..n])), ids, ops, keys, xs[..n], xs[n]);
    }
  }

  // ------------------------------------------------------- any workload can run to its end

  lemma InOrderSnoc(ids: seq<u32>, ops: u64, xs: seq<Arrival>, x: Arrival)
    requires InOrder(ids, ops, xs) && x.client in ids && x.i < ops && x.i <= Front(xs, x.client)
    ensures InOrder(ids, ops, xs + [x])
  {
    var ys := xs + [x];
    forall n | 0 <= n < |ys| ensures ys[n].client in ids && ys[n].i < ops && ys[n].i <= Front(ys[..n], ys[n].client) {
      assert ys[..n] == xs[..n];
      if n == |xs| { assert xs[..n] == xs; }
    }
  }

  /** The missing operations of one client arrive, in order. */
  lemma {:induction false} FillClient(ids: seq<u32>, ops: u64, xs: seq<Arrival>, c: u32) returns (ys: seq<Arrival>)
    requires InOrder(ids, ops, xs) && c in ids
    ensures InOrder(ids, ops, xs + ys) && Front(xs + ys, c) == ops
    ensures forall d :: d != c ==> Front(xs + ys, d) == Front(xs, d)
    decreases if Front(xs, c) <= ops then ops - Front(xs, c) else 0
  {
    hide InOrder, Front;
    FrontBound(ids, ops, xs, c);
    if Front(xs, c) == ops {
      ys := [];
      assert xs + ys == xs;
    } else {
      var x := Arrival(c, Front(xs, c), 0);
      InOrderSnoc(ids, ops, xs, x);
      forall d ensures Front(xs + [x], d) == if d == c then Front(xs, c) + 1 else Front(xs, d) { FrontSnoc(xs, x, d); }
      var rest := FillClient(ids, ops, xs + [x], c);
      ys := [x] + rest;
      assert xs + [x] + rest == xs + ys;
    }
  }

  /** Whatever has arrived so far, the workload can be completed. */
  lemma {:induction false} FillAll(ids: seq<u32>, ops: u64, xs: seq<Arrival>, n: nat) returns (ys: seq<Arrival>)
    requires InOrder(ids, ops, xs) && n <= |ids|
    ensures InOrder(ids, ops, xs + ys) && forall i :: 0 <= i < n ==> Front(xs + ys, ids[i]) == ops
    decreases n
  {
    hide InOrder, Front;
    if n == 0 {
      ys := [];
      assert xs + ys == xs;
    } else {
      var first := FillAll(ids, ops, xs, n - 1);
      var last := FillClient(ids, ops, xs + first, ids[n - 1]);
      ys := first + last;
      assert xs + first + last == xs + ys;
    }
  }

  // ------------------------------------------------------------------------ main results

  function StoreAfter(ops: u64, keys: nat, xs: seq<Arrival>): Kv
    requires keys > 0 && forall n :: 0 <= n < |xs| ==> xs[n].i < ops
  {
    Replay(EMPTY, Stream(ops, keys, xs)).kv
  }

  lemma TalliedEntries(m: Kv, ids: seq<u32>, xs: seq<Arrival>, keys: nat)
    requires keys > 0 && Tallied(m, ids, xs, keys)
    requires forall k :: 0 <= k < keys ==> Total(ids, xs, keys, k) < 0x8000_0000_0000_0000
    ensures forall p :: p in Entries(m) <==>
      exists k :: 0 <= k < keys && p == (Name(k), Total(ids, xs, keys, k)) && p.1 > 0
  {
    hide Total, Name, ParseText, Entries, Decimal, StrictlyAscending;
    EntriesExact(m);
    forall k | 0 <= k < keys ensures Name(k) in m ==> ParseText(m[Name(k)]) == Some(Total(ids, xs, keys, k)) {
      ParseDecimal(Total(ids, xs, keys, k));
      assert CounterAt(m, Name(k), Total(ids, xs, keys, k));
    }
    forall k | 0 <= k < keys ensures Name(k) in m <==> Total(ids, xs, keys, k) > 0 {
      assert CounterAt(m, Name(k), Total(ids, xs, keys, k));
    }
  }

  /** The entries of a replica, key by key: exactly the non-zero totals of what has arrived. */
  lemma ReplicaEntries(ids: seq<u32>, ops: u64, keys: nat, xs: seq<Arrival>)
    requires Workload(ids, ops, keys, xs)
    ensures forall p :: p in Entries(StoreAfter(ops, keys, xs)) <==>
      exists k :: 0 <= k < keys && p == (Name(k), Total(ids, xs, keys, k)) && p.1 > 0
  {
    hide Total, Name, Entries, Tallied, Replay, Stream, Front;
    StoreIsTally(ids, ops, keys, xs);
    forall k | 0 <= k < keys ensures Total(ids, xs, keys, k) < 0x8000_0000_0000_0000 {
      TotalFits(ids, ops, keys, xs, k);
    }
    TalliedEntries(StoreAfter(ops, keys, xs), ids, xs, keys);
  }

  /** `victim_prefix_consistent` holds after any part of the workload: no value exceeds what is due. */
  lemma PrefixConsistent(ids: seq<u32>, ops: u64, keys: nat, xs: seq<Arrival>, v: seq<Pair>, p: Pair)
    requires Workload(ids, ops, keys, xs) && IsExpected(v, |ids|, ops, keys)
    requires p in Entries(StoreAfter(ops, keys, xs))
    ensures exists e :: (p.0, e) in v && p.1 <= e
  {
    hide Total, Name, Entries, StoreAfter, Hits, Front, StrictlyAscending;
    ReplicaEntries(ids, ops, keys, xs);
    var k :| 0 <= k < keys && p == (Name(k), Total(ids, xs, keys, k));
    forall c ensures Front(xs, c) <= ops { FrontBound(ids, ops, xs, c); }
    TotalAtMostDue(ids, ops, xs, keys, k);
    assert Due(|ids|, ops, keys, k) in v;
  }

  /** Every client's operations have all arrived, and every key is hit at least once. */
  predicate Complete(ids: seq<u32>, ops: u64, keys: nat, xs: seq<Arrival>) {
    |ids| > 0 && ops >= keys && forall c :: c in ids ==> Front(xs, c) == ops
  }

  lemma CompleteIsCorrect(ids: seq<u32>, ops: u64, keys: nat, xs: seq<Arrival>, v: seq<Pair>)
    requires Workload(ids, ops, keys, xs) && IsExpected(v, |ids|, ops, keys) && Complete(ids, ops, keys, xs)
    ensures Entries(StoreAfter(ops, keys, xs)) == v
  {
    hide Total, Name, Entries, StoreAfter, Hits, Front, PairLe;
    ReplicaEntries(ids, ops, keys, xs);
    forall k | 0 <= k < keys
      ensures (Name(k), Total(ids, xs, keys, k)) == Due(|ids|, ops, keys, k) && Total(ids, xs, keys, k) > 0
    {
      TotalAtMostDue(ids, ops, xs, keys, k);
      HitsPositive(ops, keys, k);
      assert Times(|ids|, Hits(ops, keys, k)) > 0;
    }
    EntriesExact(StoreAfter(ops, keys, xs));
    PairIsTotalOrder();
    AscendingUnique(Entries(StoreAfter(ops, keys, xs)), v, PairLe);
  }

  lemma EqualTotals(ids: seq<u32>, ops: u64, keys: nat, xs: seq<Arrival>, v: seq<Pair>, k: nat)
    requires Workload(ids, ops, keys, xs) && IsExpected(v, |ids|, ops, keys) && k < keys
    requires Entries(StoreAfter(ops, keys, xs)) == v
    ensures Total(ids, xs, keys, k) == Times(|ids|, Hits(ops, keys, k)) > 0
  {
    hide Total, Name, Entries, StoreAfter, Hits, Front, InOrder, StrictlyAscending;
    ReplicaEntries(ids, ops, keys, xs);
    var p := Due(|ids|, ops, keys, k);
    assert p in v;
    var j :| 0 <= j < keys && p == (Name(j), Total(ids, xs, keys, j)) && p.1 > 0;
    NameInjective(j, k);
  }

  lemma CorrectIsComplete(ids: seq<u32>, ops: u64, keys: nat, xs: seq<Arrival>, v: seq<Pair>)
    requires Workload(ids, ops, keys, xs) && IsExpected(v, |ids|, ops, keys)
    requires Entries(StoreAfter(ops, keys, xs)) == v
    ensures Complete(ids, ops, keys, xs)
  {
    hide Total, Name, Entries, StoreAfter, Hits, Front, InOrder, IsExpected;
    EqualTotals(ids, ops, keys, xs, v, keys - 1);
    HitsPositive(ops, keys, keys - 1);
    forall c ensures Front(xs, c) <= ops { FrontBound(ids, ops, xs, c); }
    forall c | c in ids ensures Front(xs, c) == ops {
      var k := Slot(Front(xs, c), keys);
      EqualTotals(ids, ops, keys, xs, v, k);
      HitsGrow(Front(xs, c), ops, keys, k);
      TotalAtMostDue(ids, ops, xs, keys, k);
    }
  }

  /** The report says "correct" exactly when nothing is missing: no interleaving or redelivery can fake or spoil it. */
  lemma CorrectIffComplete(ids: seq<u32>, ops: u64, keys: nat, xs: seq<Arrival>, v: seq<Pair>)
    requires Workload(ids, ops, keys, xs) && IsExpected(v, |ids|, ops, keys)
    ensures Entries(StoreAfter(ops, keys, xs)) == v <==> Complete(ids, ops, keys, xs)
  {
    hide Entries, StoreAfter, Complete, IsExpected;
    if Complete(ids, ops, keys, xs) { CompleteIsCorrect(ids, ops, keys, xs, v); }
    if Entries(StoreAfter(ops, keys, xs)) == v { CorrectIsComplete(ids, ops, keys, xs, v); }
  }
}
