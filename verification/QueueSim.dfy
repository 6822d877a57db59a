/** The single-executor queue simulator: latencies, percentiles and how they move (sim.rs). */
module QueueSim {

  /** The parameters that matter for cost, in microseconds. */
  datatype Params = Params(rtt: real, barrier: real, apply: real, fsync: real)

  datatype Mode = ReliableBaseline | FtOverlap | FtFsync

  datatype Stats = Stats(n: nat, p50: real, p99: real, p999: real, mean: real, max: real)

  function Max(a: real, b: real): real { if a >= b then a else b }

  // ---------------------------------------------------------------------------- the queue

  /** When request `n` arrives and when it leaves, for the gaps between arrivals. */
  function Arrival(gaps: seq<real>, n: nat): real
    requires n <= |gaps|
  {
    if n == 0 then 0.0 else Arrival(gaps, n - 1) + gaps[n - 1]
  }

  function Finish(gaps: seq<real>, svc: real, n: nat): real
    requires n <= |gaps|
  {
    if n == 0 then 0.0 else Max(Arrival(gaps, n), Finish(gaps, svc, n - 1)) + svc
  }

  function Latency(gaps: seq<real>, svc: real, fixed: real, i: nat): real
    requires i < |gaps|
  {
    (Finish(gaps, svc, i + 1) - Arrival(gaps, i + 1)) + fixed
  }

  predicate Sorted(s: seq<real>) { forall i, j :: 0 <= i < j < |s| ==> s[i] <= s[j] }

  function Unsorted(gaps: seq<real>, svc: real, fixed: real): (r: seq<real>)
    ensures |r| == |gaps|
  {
    seq(|gaps|, i requires 0 <= i < |gaps| => Latency(gaps, svc, fixed, i))
  }

  /** `f64::round` of a non-negative value, as an index. */
  function Round(x: real): (n: nat)
    requires x >= 0.0
  {
    (x + 0.5).Floor
  }

  function Rank(n: nat, q: real): (i: nat)
    requires n > 0 && q >= 0.0
    ensures i < n
  {
    var i := Round((n - 1) as real * q);
    if i < n - 1 then i else n - 1
  }

  /** `pct`. */
  function Pct(sorted: seq<real>, q: real): real
    requires q >= 0.0
  {
    if |sorted| == 0 then 0.0 else sorted[Rank(|sorted|, q)]
  }

  function Sum(s: seq<real>): real { if |s| == 0 then 0.0 else Sum(s[..|s| - 1]) + s[|s| - 1] }

  function StatsOf(lat: seq<real>): Stats
    requires |lat| > 0
  {
    Stats(|lat|, Pct(lat, 0.5), Pct(lat, 0.99), Pct(lat, 0.999), Sum(lat) / (|lat| as real), lat[|lat| - 1])
  }

  function Insert(x: real, s: seq<real>): (r: seq<real>)
    ensures multiset(r) == multiset(s) + multiset{x}
  {
    if |s| == 0 then [x]
    else if s[0] <= x then
      assert s == [s[0]] + s[1..];
      [s[0]] + Insert(x, s[1..])
    else [x] + s
  }

  lemma {:induction false} InsertSorted(x: real, s: seq<real>)
    requires Sorted(s)
    ensures Sorted(Insert(x, s))
  {
    if |s| > 0 && s[0] <= x {
      InsertSorted(x, s[1..]);
      InsertBound(x, s[1..], s[0]);
    }
  }

  lemma {:induction false} InsertBound(x: real, s: seq<real>, lo: real)
    requires lo <= x && forall i :: 0 <= i < |s| ==> lo <= s[i]
    ensures forall i :: 0 <= i < |Insert(x, s)| ==> lo <= Insert(x, s)[i]
  {
    if |s| > 0 && s[0] <= x { InsertBound(x, s[1..], lo); }
  }

  /** The ascending rearrangement of `s`. */
  function SortedOf(s: seq<real>): (r: seq<real>)
    ensures multiset(r) == multiset(s)
    ensures |r| == |s|
  {
    if |s| == 0 then []
    else
      assert s == s[..|s| - 1] + [s[|s| - 1]];
      SameSize(Insert(s[|s| - 1], SortedOf(s[..|s| - 1])), s);
      Insert(s[|s| - 1], SortedOf(s[..|s| - 1]))
  }

  lemma {:induction false} SortedIsSorted(s: seq<real>)
    ensures Sorted(SortedOf(s))
  {
    if |s| > 0 {
      SortedIsSorted(s[..|s| - 1]);
      InsertSorted(s[|s| - 1], SortedOf(s[..|s| - 1]));
    }
  }

  /** What a simulation reports for an arrival stream, a service time and a fixed cost. */
  function Report(gaps: seq<real>, svc: real, fixed: real): Stats
    requires |gaps| > 0
  {
    StatsOf(SortedOf(Unsorted(gaps, svc, fixed)))
  }

  /** `simulate` and `simulate_explicit`: the event loop and the statistics over its latencies. */
  method Simulate(gaps: seq<real>, svc: real, fixed: real) returns (st: Stats)
    requires |gaps| > 0
    ensures st == Report(gaps, svc, fixed)
  {
    hide StatsOf, SortedOf;
    var now, prevFinish := 0.0, 0.0;
    var lat: seq<real> := [];
    var i := 0;
    while i < |gaps|
      invariant 0 <= i <= |gaps|
      invariant now == Arrival(gaps, i) && prevFinish == Finish(gaps, svc, i)
      invariant lat == Unsorted(gaps, svc, fixed)[..i]
    {
      now := now + gaps[i];
      var start := Max(now, prevFinish);
      var finish := start + svc;
      prevFinish := finish;
      lat := lat + [(finish - now) + fixed];
      i := i + 1;
    }
    assert lat == Unsorted(gaps, svc, fixed);
    st := StatsOf(SortedOf(lat));
  }

  lemma SameSize(a: seq<real>, b: seq<real>)
    requires multiset(a) == multiset(b)
    ensures |a| == |b|
  {
    assert |multiset(a)| == |a| && |multiset(b)| == |b|;
  }

  // ----------------------------------------------- what the loop computes: the FIFO law

  /** Request `n` arrives after the first `n` gaps. */
  lemma {:induction false} ArrivalIsSum(gaps: seq<real>, n: nat)
    requires n <= |gaps|
    ensures Arrival(gaps, n) == Sum(gaps[..n])
  {
    if n > 0 {
      ArrivalIsSum(gaps, n - 1);
      assert gaps[..n][..n - 1] == gaps[..n - 1];
    }
  }

  function Times(k: nat, svc: real): real { k as real * svc }

  lemma OneMore(k: nat, svc: real)
    ensures Times(k + 1, svc) == Times(k, svc) + svc && Times(1, svc) == svc
  {
    assert (k + 1) as real == k as real + 1.0;
  }

  /** Request `n` leaves no earlier than the service of all requests from any `j` on allows. */
  lemma {:induction false} FinishAtLeast(gaps: seq<real>, svc: real, n: nat, j: nat)
    requires 1 <= j <= n <= |gaps|
    ensures Finish(gaps, svc, n) >= Arrival(gaps, j) + Times(n - j + 1, svc)
  {
    hide Times, Arrival;
    OneMore(n - j, svc);
    if j < n { FinishAtLeast(gaps, svc, n - 1, j); }
  }

  /** It leaves at exactly that moment for the request that started its busy period. */
  lemma {:induction false} BusyPeriod(gaps: seq<real>, svc: real, n: nat) returns (j: nat)
    requires 1 <= n <= |gaps| && gaps[0] >= 0.0
    ensures 1 <= j <= n && Finish(gaps, svc, n) == Arrival(gaps, j) + Times(n - j + 1, svc)
  {
    hide Times;
    if n == 1 || Arrival(gaps, n) >= Finish(gaps, svc, n - 1) {
      j := n;
      OneMore(0, svc);
      assert n == 1 ==> Arrival(gaps, 1) == Arrival(gaps, 0) + gaps[0];
    } else {
      j := BusyPeriod(gaps, svc, n - 1);
      OneMore(n - j, svc);
    }
  }

  /**
   * Lindley's recursion: a request takes its service and fixed cost, plus what is left of the stay of
   * the one before it when it arrives.
   */
  lemma Lindley(gaps: seq<real>, svc: real, fixed: real, i: nat)
    requires i < |gaps|
    ensures i == 0 && gaps[0] >= 0.0 ==> Latency(gaps, svc, fixed, 0) == svc + fixed
    ensures i > 0 ==>
      var left := (Latency(gaps, svc, fixed, i - 1) - fixed) - gaps[i];
      Latency(gaps, svc, fixed, i) == svc + fixed + if left > 0.0 then left else 0.0
  {
    assert Arrival(gaps, i + 1) == Arrival(gaps, i) + gaps[i];
    assert Arrival(gaps, 0) == 0.0 && Finish(gaps, svc, 0) == 0.0;
    assert Finish(gaps, svc, i + 1) == Max(Arrival(gaps, i + 1), Finish(gaps, svc, i)) + svc;
  }

  // -------------------------------------------------------- order statistics under a bound

  function CountLe(s: seq<real>, v: real): nat {
    if |s| == 0 then 0 else CountLe(s[1..], v) + (if s[0] <= v then 1 else 0)
  }

  lemma {:induction false} CountConcat(a: seq<real>, b: seq<real>, v: real)
    ensures CountLe(a + b, v) == CountLe(a, v) + CountLe(b, v)
  {
    if |a| == 0 {
      assert a + b == b;
    } else {
      assert (a + b)[1..] == a[1..] + b;
      CountConcat(a[1..], b, v);
    }
  }

  lemma {:induction false} CountInsert(x: real, s: seq<real>, v: real)
    ensures CountLe(Insert(x, s), v) == CountLe(s, v) + (if x <= v then 1 else 0)
  {
    if |s| > 0 && s[0] <= x {
      CountInsert(x, s[1..], v);
      assert Insert(x, s)[1..] == Insert(x, s[1..]);
    } else {
      assert Insert(x, s)[1..] == s;
    }
  }

  lemma CountSnoc(s: seq<real>, x: real, v: real)
    ensures CountLe(s + [x], v) == CountLe(s, v) + (if x <= v then 1 else 0)
  {
    CountConcat(s, [x], v);
  }

  lemma {:induction false} CountSortedOf(s: seq<real>, v: real)
    ensures CountLe(SortedOf(s), v) == CountLe(s, v)
  {
    hide Insert, CountLe;
    if |s| > 0 {
      var n := |s| - 1;
      CountSortedOf(s[..n], v);
      CountInsert(s[n], SortedOf(s[..n]), v);
      CountSnoc(s[..n], s[n], v);
      assert s == s[..n] + [s[n]];
    }
  }

  /** In a sorted sequence, at least `k + 1` elements are at most `v` exactly when the `k`-th is. */
  lemma {:induction false} CountSorted(s: seq<real>, v: real, k: nat)
    requires Sorted(s) && k < |s|
    ensures s[k] <= v <==> CountLe(s, v) > k
  {
    if k > 0 {
      CountSorted(s[1..], v, k - 1);
      if s[0] > v { assert s[k] > v; CountNone(s[1..], v); }
    } else if s[0] > v {
      CountNone(s[1..], v);
    }
  }

  lemma {:induction false} CountNone(s: seq<real>, v: real)
    requires forall i :: 0 <= i < |s| ==> s[i] > v
    ensures CountLe(s, v) == 0
  {
    if |s| > 0 { CountNone(s[1..], v); }
  }

  lemma {:induction false} CountShift(a: seq<real>, b: seq<real>, d: real, v: real)
    requires |a| == |b| && forall i :: 0 <= i < |a| ==> a[i] + d <= b[i]
    ensures CountLe(a, v - d) >= CountLe(b, v)
  {
    if |a| > 0 { CountShift(a[1..], b[1..], d, v); }
  }

  /** If every value is lower by at least `d`, so is every order statistic. */
  lemma OrderStatistics(a: seq<real>, b: seq<real>, d: real, k: nat)
    requires |a| == |b| && forall i :: 0 <= i < |a| ==> a[i] + d <= b[i]
    requires k < |a|
    ensures SortedOf(a)[k] + d <= SortedOf(b)[k]
  {
    hide CountLe, Sorted, SortedOf, Insert;
    var sa, sb := SortedOf(a), SortedOf(b);
    SortedIsSorted(a);
    SortedIsSorted(b);
    var v := sb[k];
    CountSorted(sb, v, k);
    CountSortedOf(b, v);
    CountShift(a, b, d, v);
    CountSortedOf(a, v - d);
    CountSorted(sa, v - d, k);
  }

  // ------------------------------------------------------------ what the reported numbers mean

  /**
   * `p` is the `q`-quantile of `lat` by the nearest rank: one of the values, with a rank `r` nearest to
   * `(n - 1) * q` such that more than `r` values are at most `p` and at most `r` are below it.
   */
  ghost predicate IsPercentile(lat: seq<real>, q: real, p: real) {
    && p in lat
    && exists r: nat :: NearestRank(lat, q, r) && CountLe(lat, p) > r && forall v :: v < p ==> CountLe(lat, v) <= r
  }

  predicate NearestRank(lat: seq<real>, q: real, r: nat) {
    -0.5 < r as real - (|lat| - 1) as real * q <= 0.5
  }

  lemma RankIsNearest(lat: seq<real>, q: real)
    requires |lat| > 0 && 0.0 <= q <= 1.0
    ensures NearestRank(lat, q, Rank(|lat|, q))
  {
    var n := |lat| - 1;
    var x := n as real * q;
    Scaled(n as real, q);
    assert Round(x) as real <= x + 0.5 < Round(x) as real + 1.0;
    assert Round(x) <= n;
  }

  lemma Scaled(a: real, q: real)
    requires a >= 0.0 && 0.0 <= q <= 1.0
    ensures 0.0 <= a * q <= a
  {
    assert a * (1.0 - q) >= 0.0;
  }

  lemma PercentileLaw(lat: seq<real>, q: real)
    requires |lat| > 0 && 0.0 <= q <= 1.0
    ensures IsPercentile(lat, q, Pct(SortedOf(lat), q))
  {
    hide CountLe, SortedOf, Rank, NearestRank;
    var s, r := SortedOf(lat), Rank(|lat|, q);
    var p := s[r];
    assert p in multiset(s);
    SortedIsSorted(lat);
    RankIsNearest(lat, q);
    CountSorted(s, p, r);
    CountSortedOf(lat, p);
    forall v | v < p ensures CountLe(lat, v) <= r {
      CountSorted(s, v, r);
      CountSortedOf(lat, v);
    }
  }

  lemma {:induction false} SumCons(x: real, s: seq<real>)
    ensures Sum([x] + s) == x + Sum(s)
  {
    if |s| == 0 {
      assert ([x] + s)[..0] == [];
    } else {
      assert ([x] + s)[..|s|] == [x] + s[..|s| - 1];
      SumCons(x, s[..|s| - 1]);
    }
  }

  lemma {:induction false} SumInsert(x: real, s: seq<real>)
    ensures Sum(Insert(x, s)) == Sum(s) + x
  {
    hide Sum;
    if |s| > 0 && s[0] <= x {
      SumInsert(x, s[1..]);
      SumCons(s[0], Insert(x, s[1..]));
      SumCons(s[0], s[1..]);
      assert s == [s[0]] + s[1..];
    } else if |s| > 0 {
      SumCons(x, s);
    } else {
      SumOne(x);
      assert s == [];
    }
  }

  lemma SumOne(x: real)
    ensures Sum([x]) == x && Sum([]) == 0.0
  {
    assert [x][..0] == [];
  }

  lemma {:induction false} SumSorted(s: seq<real>)
    ensures Sum(SortedOf(s)) == Sum(s)
  {
    hide Insert;
    if |s| > 0 {
      SumSorted(s[..|s| - 1]);
      SumInsert(s[|s| - 1], SortedOf(s[..|s| - 1]));
    }
  }

  /**
   * What a report says about the latencies of the run, in whatever order they came: their number,
   * their nearest-rank percentiles, their mean and their maximum.
   */
  lemma ReportLaw(gaps: seq<real>, svc: real, fixed: real)
    requires |gaps| > 0
    ensures var lat, st := Unsorted(gaps, svc, fixed), Report(gaps, svc, fixed);
      && st.n == |gaps|
      && IsPercentile(lat, 0.5, st.p50) && IsPercentile(lat, 0.99, st.p99) && IsPercentile(lat, 0.999, st.p999)
      && st.mean * (|gaps| as real) == Sum(lat)
      && st.max in lat && forall i :: 0 <= i < |lat| ==> lat[i] <= st.max
  {
    hide SortedOf, Sum, IsPercentile, Latency, Unsorted, Rank;
    var lat := Unsorted(gaps, svc, fixed);
    var s := SortedOf(lat);
    PercentileLaw(lat, 0.5);
    PercentileLaw(lat, 0.99);
    PercentileLaw(lat, 0.999);
    SumSorted(lat);
    SortedIsSorted(lat);
    assert s[|s| - 1] in multiset(lat);
    forall i | 0 <= i < |lat| ensures lat[i] <= s[|s| - 1] {
      assert lat[i] in multiset(s);
      var k :| 0 <= k < |s| && s[k] == lat[i];
    }
  }

  // ---------------------------------------------------------------------------- main results

  lemma {:induction false} FinishGrows(gaps: seq<real>, svc: real, svc': real, n: nat)
    requires n <= |gaps| && svc <= svc'
    ensures Finish(gaps, svc, n) <= Finish(gaps, svc', n)
    ensures n > 0 ==> Finish(gaps, svc, n) + (svc' - svc) <= Finish(gaps, svc', n)
  {
    if n > 0 { FinishGrows(gaps, svc, svc', n - 1); }
  }

  /** Raising service time or fixed cost lifts every request's latency by at least both increases. */
  lemma LatencyGrows(gaps: seq<real>, svc: real, fixed: real, svc': real, fixed': real, i: nat)
    requires i < |gaps| && svc <= svc'
    ensures Latency(gaps, svc, fixed, i) + ((svc' - svc) + (fixed' - fixed)) <= Latency(gaps, svc', fixed', i)
  {
    hide Finish, Arrival;
    FinishGrows(gaps, svc, svc', i + 1);
  }

  predicate Below(a: Stats, b: Stats, d: real) {
    && a.n == b.n && a.p50 + d <= b.p50 && a.p99 + d <= b.p99 && a.p999 + d <= b.p999
    && a.mean + d <= b.mean && a.max + d <= b.max
  }

  lemma {:induction false} SumShift(a: seq<real>, b: seq<real>, d: real)
    requires |a| == |b| && forall i :: 0 <= i < |a| ==> a[i] + d <= b[i]
    ensures Sum(a) + Times(|a|, d) <= Sum(b)
  {
    hide Times;
    if |a| > 0 {
      SumShift(a[..|a| - 1], b[..|b| - 1], d);
      OneMore(|a| - 1, d);
    } else {
      NoneMore(d);
    }
  }

  lemma NoneMore(d: real)
    ensures Times(0, d) == 0.0
  {}

  lemma MeanShift(x: real, y: real, n: nat, d: real)
    requires n > 0 && x + Times(n, d) <= y
    ensures x / (n as real) + d <= y / (n as real)
  {
    var m := n as real;
    assert (x + m * d) / m == x / m + d;
    assert (x + m * d) / m <= y / m;
  }

  lemma StatsShift(a: seq<real>, b: seq<real>, d: real)
    requires |a| == |b| > 0 && forall i :: 0 <= i < |a| ==> a[i] + d <= b[i]
    ensures Below(StatsOf(a), StatsOf(b), d)
  {
    hide Sum, Times, Rank;
    SumShift(a, b, d);
    MeanShift(Sum(a), Sum(b), |a|, d);
  }

  /** Every reported statistic rises by at least the added cost, for every arrival stream. */
  lemma StatsRise(gaps: seq<real>, svc: real, fixed: real, svc': real, fixed': real)
    requires |gaps| > 0 && svc <= svc'
    ensures Below(Report(gaps, svc, fixed), Report(gaps, svc', fixed'), (svc' - svc) + (fixed' - fixed))
  {
    hide Latency, Sorted, SortedOf, StatsOf, Below;
    var d := (svc' - svc) + (fixed' - fixed);
    var a, b := Unsorted(gaps, svc, fixed), Unsorted(gaps, svc', fixed');
    forall i | 0 <= i < |a| ensures a[i] + d <= b[i] { LatencyGrows(gaps, svc, fixed, svc', fixed', i); }
    forall k | 0 <= k < |a| ensures SortedOf(a)[k] + d <= SortedOf(b)[k] { OrderStatistics(a, b, d, k); }
    StatsShift(SortedOf(a), SortedOf(b), d);
  }

  /** Executor occupancy and fixed latency of a mode. */
  function ServiceUs(p: Params, m: Mode): real { if m.FtFsync? then p.apply + p.fsync else p.apply }
  function FixedUs(p: Params, m: Mode): real { p.rtt + p.barrier }

  datatype Competitor = Competitor(name: string, svc: real, fixed: real, cpu: real)

  const REMUS_HALF: real := 25_000.0 / 2.0

  function Competitors(p: Params): seq<Competitor> {
    [Competitor("OneBarrier", p.apply, p.rtt + p.barrier, 1.0),
     Competitor("Remus", p.apply, p.rtt + REMUS_HALF, 2.0),
     Competitor("COLO", p.apply, p.rtt + p.barrier, 2.0),
     Competitor("LLFT", p.apply, p.rtt + p.barrier + p.rtt, 2.0),
     Competitor("HyCoR", p.apply + 0.3, p.rtt + p.barrier, 1.0),
     Competitor("active-SMR(3)", p.apply, p.rtt + p.barrier, 3.0)]
  }

  function ModeReport(gaps: seq<real>, p: Params, m: Mode): Stats
    requires |gaps| > 0
  {
    Report(gaps, ServiceUs(p, m), FixedUs(p, m))
  }

  /** Overlapped durability costs nothing; serial durability costs at least itself in every statistic. */
  lemma DurabilityCosts(gaps: seq<real>, p: Params)
    requires |gaps| > 0 && p.fsync >= 0.0
    ensures ModeReport(gaps, p, FtOverlap) == ModeReport(gaps, p, ReliableBaseline)
    ensures ModeReport(gaps, p, FtOverlap) == Report(gaps, p.apply, p.rtt + p.barrier)
    ensures Below(ModeReport(gaps, p, FtOverlap), ModeReport(gaps, p, FtFsync), p.fsync)
  {
    hide Report, Below;
    StatsRise(gaps, p.apply, p.rtt + p.barrier, p.apply + p.fsync, p.rtt + p.barrier);
  }

  /** OneBarrier is nowhere slower than the competitor. */
  predicate Leads(gaps: seq<real>, p: Params, c: Competitor)
    requires |gaps| > 0
  {
    Below(Report(gaps, p.apply, p.rtt + p.barrier), Report(gaps, c.svc, c.fixed), 0.0)
  }

  /**
   * On every arrival stream OneBarrier's percentiles, mean and maximum are at most those of every
   * listed competitor exactly when its barrier wait is at most half a Remus checkpoint interval.
   */
  lemma OneBarrierLeads(gaps: seq<real>, p: Params)
    requires |gaps| > 0 && p.rtt >= 0.0
    ensures (forall i :: 0 <= i < |Competitors(p)| ==> Leads(gaps, p, Competitors(p)[i])) <==> p.barrier <= 12_500.0
  {
    hide Report;
    var cs := Competitors(p);
    if p.barrier <= 12_500.0 {
      forall i | 0 <= i < |cs| ensures Leads(gaps, p, cs[i]) {
        StatsRise(gaps, p.apply, p.rtt + p.barrier, cs[i].svc, cs[i].fixed);
      }
    } else {
      StatsRise(gaps, cs[1].svc, cs[1].fixed, p.apply, p.rtt + p.barrier);
      assert !Leads(gaps, p, cs[1]);
    }
  }

  /**
   * How far OneBarrier leads: nothing over lock-step and active replication, which only cost more
   * machines; a round trip over a host sequencer; a log write over a nondeterminism log.
   */
  lemma LeadMargins(gaps: seq<real>, p: Params)
    requires |gaps| > 0 && p.rtt >= 0.0
    ensures var cs, ob := Competitors(p), Report(gaps, p.apply, p.rtt + p.barrier);
      && |cs| == 6
      && Report(gaps, cs[0].svc, cs[0].fixed) == ob
      && Report(gaps, cs[2].svc, cs[2].fixed) == ob && Report(gaps, cs[5].svc, cs[5].fixed) == ob
      && Below(ob, Report(gaps, cs[1].svc, cs[1].fixed), 12_500.0 - p.barrier)
      && Below(ob, Report(gaps, cs[3].svc, cs[3].fixed), p.rtt)
      && Below(ob, Report(gaps, cs[4].svc, cs[4].fixed), 0.3)
      && (forall i :: 0 <= i < 6 ==> cs[i].cpu >= 1.0) && cs[0].cpu == 1.0 && cs[5].cpu == 3.0
  {
    hide Report, Below;
    var cs := Competitors(p);
    StatsRise(gaps, p.apply, p.rtt + p.barrier, cs[1].svc, cs[1].fixed);
    StatsRise(gaps, p.apply, p.rtt + p.barrier, cs[3].svc, cs[3].fixed);
    StatsRise(gaps, p.apply, p.rtt + p.barrier, cs[4].svc, cs[4].fixed);
  }
}
