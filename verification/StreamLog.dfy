/** The publish/subscribe log: interleaved PUB and SUB steps over one store (streamlog.rs). */
module StreamLog {
  import opened Bytes
  import opened Text
  import opened State

  /** A message's place: its topic and offset. */
  datatype Place = Place(topic: Str, off: int)

  /** A PUB that has its offset: before its SET (`!stored`), or after it and before its answer. */
  datatype Pub = Pub(at: Place, msg: seq<byte>, stored: bool)

  /** A SUB after its length read; `acked` records what was acknowledged at that moment. */
  datatype Sub = Sub(topic: Str, start: int, len: int, next: int, out: seq<(int, seq<byte>)>, acked: set<Place>)

  type Msgs = map<Place, seq<byte>>

  /**
   * The store, the connections in the middle of a PUB or SUB, and the history: the offsets handed
   * out, oldest first, with the messages sent for them; the messages stored; the places acknowledged.
   */
  datatype Log = Log(kv: Kv, pubs: map<nat, Pub>, subs: map<nat, Sub>,
                     handed: seq<Place>, sent: Msgs, stored: Msgs, acked: set<Place>)

  datatype Event =
    | Publish(c: nat, topic: Str, msg: seq<byte>)
    | Store(c: nat)
    | Ack(c: nat)
    | Subscribe(c: nat, topic: Str, from: i64)
    | Fetch(c: nat)
    | Crash

  const START: Log := Log(map[], map[], map[], [], map[], map[], {})

  /** `format!("t:{topic}:n")` and `format!("t:{topic}:{offset}")`. */
  function CountKey(t: Str): Str { ([116, 58] + t) + [58] + [110] }
  function PlaceKey(p: Place): Str { ([116, 58] + p.topic) + [58] + Decimal(p.off) }

  /** The length a SUB or LEN reads: the counter's text, or 0. */
  function LengthOf(kv: Kv, t: Str): int {
    if CountKey(t) !in kv then 0
    else
      var v := kv[CountKey(t)];
      if Utf8(v) && ParseI64(v).Some? then ParseI64(v).value else 0
  }

  function Max(a: int, b: int): int { if a >= b then a else b }

  /** A connection reads its next command when it is done with the last one. */
  predicate Idle(s: Log, c: nat) { c !in s.pubs && (c in s.subs ==> s.subs[c].next > s.subs[c].len) }

  predicate Enabled(s: Log, e: Event) {
    match e
    case Publish(c, _, _) => Idle(s, c)
    case Store(c) => c in s.pubs && !s.pubs[c].stored
    case Ack(c) => c in s.pubs && s.pubs[c].stored
    case Subscribe(c, _, _) => Idle(s, c)
    case Fetch(c) => c in s.subs && s.subs[c].next <= s.subs[c].len
    case Crash => true
  }

  /** The SUB loop's body: a message that is there goes out, a missing one is passed over. */
  function FetchStep(kv: Kv, u: Sub): Sub {
    var k := PlaceKey(Place(u.topic, u.next));
    u.(next := u.next + 1, out := if k in kv then u.out + [(u.next, kv[k])] else u.out)
  }

  function Next(s: Log, e: Event): Log
    requires Enabled(s, e)
  {
    match e
    case Publish(c, t, m) =>
      var p := Place(t, IncrValue(s.kv, CountKey(t), 1));
      s.(kv := ApplyOp(s.kv, Incr(CountKey(t), 1)).0, pubs := s.pubs[c := Pub(p, m, false)],
         handed := s.handed + [p], sent := s.sent[p := m])
    case Store(c) =>
      var u := s.pubs[c];
      s.(kv := ApplyOp(s.kv, Set(PlaceKey(u.at), u.msg)).0, pubs := s.pubs[c := u.(stored := true)],
         stored := s.stored[u.at := u.msg])
    case Ack(c) => s.(pubs := s.pubs - {c}, acked := s.acked + {s.pubs[c].at})
    case Subscribe(c, t, from) =>
      s.(subs := s.subs[c := Sub(t, Max(from, 1), LengthOf(s.kv, t), Max(from, 1), [], s.acked)])
    case Fetch(c) => s.(subs := s.subs[c := FetchStep(s.kv, s.subs[c])])
    case Crash => s.(pubs := map[], subs := map[])
  }

  function Exec(es: seq<Event>): Log {
    if |es| == 0 then START
    else
      var s := Exec(es[..|es| - 1]);
      if Enabled(s, es[|es| - 1]) then Next(s, es[|es| - 1]) else s
  }

  // ------------------------------------------------------------------------ key format

  predicate NoColon(s: seq<byte>) { forall i :: 0 <= i < |s| ==> s[i] != 58 }

  /** Text after the last colon determines both halves, whatever the topic contains. */
  lemma LastColon(a: seq<byte>, d: seq<byte>, b: seq<byte>, e: seq<byte>)
    requires a + [58] + d == b + [58] + e && NoColon(d) && NoColon(e)
    ensures a == b && d == e
  {
    var x, y := a + [58] + d, b + [58] + e;
    assert x[|a|] == 58 && y[|b|] == 58;
    assert x[..|a|] == a && y[..|b|] == b && x[|a| + 1..] == d && y[|b| + 1..] == e;
  }

  lemma DecimalNoColon(n: int)
    ensures NoColon(Decimal(n)) && Decimal(n) != [110]
  {
    hide Digits, DigitsValue;
    DigitsAreDigits(Abs(n));
    var d := Digits(Abs(n));
    assert forall i :: 0 <= i < |d| ==> IsDigit(d[i]);
    assert Decimal(n)[0] == 45 || Decimal(n)[0] == d[0];
  }

  lemma PlaceKeyInjective(p: Place, q: Place)
    requires PlaceKey(p) == PlaceKey(q)
    ensures p == q
  {
    hide Decimal;
    DecimalNoColon(p.off);
    DecimalNoColon(q.off);
    LastColon([116, 58] + p.topic, Decimal(p.off), [116, 58] + q.topic, Decimal(q.off));
    DecimalInjective(p.off, q.off);
    assert ([116, 58] + p.topic)[2..] == p.topic && ([116, 58] + q.topic)[2..] == q.topic;
  }

  lemma CountKeyInjective(t: Str, u: Str)
    requires CountKey(t) == CountKey(u)
    ensures t == u
  {
    LastColon([116, 58] + t, [110], [116, 58] + u, [110]);
    assert ([116, 58] + t)[2..] == t && ([116, 58] + u)[2..] == u;
  }

  lemma KeysDisjoint(t: Str, p: Place)
    ensures CountKey(t) != PlaceKey(p)
  {
    hide Decimal;
    DecimalNoColon(p.off);
    if CountKey(t) == PlaceKey(p) {
      LastColon([116, 58] + t, [110], [116, 58] + p.topic, Decimal(p.off));
    }
  }

  /** `t:a:n` counts topic `a`, `t:a:42` holds its message 42. */
  lemma KeyExamples()
    ensures CountKey([97]) == [116, 58, 97, 58, 110] && PlaceKey(Place([97], 42)) == [116, 58, 97, 58, 52, 50]
  {
    DecimalExamples();
  }

  // --------------------------------------------------------------------- the invariant

  /** The offsets handed out for one topic, oldest first. */
  function Offsets(handed: seq<Place>, t: Str): seq<int> {
    if |handed| == 0 then []
    else
      var o, p := Offsets(handed[..|handed| - 1], t), handed[|handed| - 1];
      if p.topic == t then o + [p.off] else o
  }

  function Count(handed: seq<Place>, t: Str): nat { |Offsets(handed, t)| }

  /** The topic's offsets are 1, 2, 3, ..., and its counter holds the last one. */
  predicate TopicOk(kv: Kv, handed: seq<Place>, t: Str) {
    && (forall i :: 0 <= i < Count(handed, t) ==> Offsets(handed, t)[i] == i + 1)
    && CounterAt(kv, CountKey(t), Count(handed, t))
  }

  /** A message is in the store exactly when its SET was executed, unaltered. */
  predicate PlaceOk(kv: Kv, stored: Msgs, p: Place) {
    && (PlaceKey(p) in kv <==> p in stored)
    && (p in stored ==> kv[PlaceKey(p)] == stored[p])
  }

  predicate InRange(handed: seq<Place>, p: Place) { 1 <= p.off <= Count(handed, p.topic) }

  ghost predicate StoreOk(kv: Kv, handed: seq<Place>, stored: Msgs) {
    && (forall t :: TopicOk(kv, handed, t))
    && (forall p :: PlaceOk(kv, stored, p))
  }

  /** Acknowledged messages are stored, stored messages were sent, and sent ones hold offsets handed out. */
  predicate SentOk(handed: seq<Place>, sent: Msgs, stored: Msgs, acked: set<Place>) {
    && (forall p :: p in sent ==> InRange(handed, p))
    && (forall p :: p in stored ==> p in sent && sent[p] == stored[p])
    && (forall p :: p in acked ==> p in stored)
  }

  /** Offsets in flight belong to one publisher each and are free until its SET. */
  ghost predicate PubsOk(pubs: map<nat, Pub>, sent: Msgs, stored: Msgs) {
    && (forall c :: c in pubs ==> PubOk(pubs[c], sent, stored))
    && (forall c, d :: c in pubs && d in pubs && c != d ==> pubs[c].at != pubs[d].at)
  }

  predicate PubOk(u: Pub, sent: Msgs, stored: Msgs) {
    u.at in sent && sent[u.at] == u.msg && (u.stored <==> u.at in stored)
  }

  predicate OutAscends(u: Sub) {
    && u.start <= u.next
    && (forall i, j :: 0 <= i < j < |u.out| ==> u.out[i].0 < u.out[j].0)
    && (forall i :: 0 <= i < |u.out| ==> u.start <= u.out[i].0 < u.next)
  }

  /** What a SUB has sent so far: stored messages only, and all that were acknowledged when it began. */
  predicate SubOk(u: Sub, stored: Msgs) {
    && OutAscends(u)
    && (forall i :: 0 <= i < |u.out| ==>
        Place(u.topic, u.out[i].0) in stored && stored[Place(u.topic, u.out[i].0)] == u.out[i].1)
    && (forall p :: p in u.acked ==> p in stored)
    && (forall p :: p in u.acked && p.topic == u.topic ==> p.off <= u.len)
    && (forall p :: p in u.acked && p.topic == u.topic && u.start <= p.off < u.next ==> (p.off, stored[p]) in u.out)
  }

  ghost predicate Inv(s: Log) {
    && StoreOk(s.kv, s.handed, s.stored)
    && SentOk(s.handed, s.sent, s.stored, s.acked)
    && PubsOk(s.pubs, s.sent, s.stored)
    && (forall c :: c in s.subs ==> SubOk(s.subs[c], s.stored))
  }

  lemma OffsetsSnoc(handed: seq<Place>, p: Place, t: Str)
    ensures Offsets(handed + [p], t) == Offsets(handed, t) + (if p.topic == t then [p.off] else [])
  {
    assert (handed + [p])[..|handed|] == handed;
  }

  lemma {:induction false} CountBound(handed: seq<Place>, t: Str)
    ensures Count(handed, t) <= |handed|
  {
    if |handed| > 0 { CountBound(handed[..|handed| - 1], t); }
  }

  // ----------------------------------------------------------- every step keeps the invariant

  lemma TopicMoves(kv: Kv, kv': Kv, handed: seq<Place>, p: Place, t: Str)
    requires TopicOk(kv, handed, p.topic) && TopicOk(kv, handed, t) && p.off == Count(handed, p.topic) + 1
    requires CounterAt(kv', CountKey(p.topic), p.off)
    requires forall k :: k != CountKey(p.topic) ==> (k in kv' <==> k in kv) && (k in kv ==> kv'[k] == kv[k])
    ensures TopicOk(kv', handed + [p], t)
  {
    hide CountKey, Offsets, Decimal;
    OffsetsSnoc(handed, p, t);
    if t != p.topic && CountKey(t) == CountKey(p.topic) { CountKeyInjective(t, p.topic); }
  }

  lemma InRangeGrows(handed: seq<Place>, p: Place, q: Place)
    ensures InRange(handed, q) ==> InRange(handed + [p], q)
    ensures p.off == Count(handed, p.topic) + 1 ==> InRange(handed + [p], p) && !InRange(handed, p)
  {
    hide Offsets;
    OffsetsSnoc(handed, p, q.topic);
    OffsetsSnoc(handed, p, p.topic);
  }

  lemma PublishStore(kv: Kv, handed: seq<Place>, stored: Msgs, t: Str)
    requires StoreOk(kv, handed, stored) && |handed| + 1 < 0x8000_0000_0000_0000
    ensures IncrValue(kv, CountKey(t), 1) == Count(handed, t) + 1
    ensures StoreOk(ApplyOp(kv, Incr(CountKey(t), 1)).0, handed + [Place(t, Count(handed, t) + 1)], stored)
  {
    hide CountKey, PlaceKey, Count, Offsets, ApplyOp, IncrValue, Decimal, TopicOk;
    var n, p := Count(handed, t), Place(t, Count(handed, t) + 1);
    CountBound(handed, t);
    TopicCounter(kv, handed, t);
    IncrCounter(kv, CountKey(t), n);
    var kv' := ApplyOp(kv, Incr(CountKey(t), 1)).0;
    forall u ensures TopicOk(kv', handed + [p], u) { TopicMoves(kv, kv', handed, p, u); }
    forall q ensures PlaceOk(kv', stored, q) {
      assert PlaceOk(kv, stored, q);
      KeysDisjoint(t, q);
    }
  }

  lemma TopicCounter(kv: Kv, handed: seq<Place>, t: Str)
    requires TopicOk(kv, handed, t)
    ensures CounterAt(kv, CountKey(t), Count(handed, t))
  {}

  /** A new offset has no message yet, neither sent nor stored. */
  lemma PublishSends(s: Log, p: Place, m: seq<byte>)
    requires SentOk(s.handed, s.sent, s.stored, s.acked) && p.off == Count(s.handed, p.topic) + 1
    ensures p !in s.sent && p !in s.stored && SentOk(s.handed + [p], s.sent[p := m], s.stored, s.acked)
  {
    hide InRange, Count;
    InRangeGrows(s.handed, p, p);
    forall q | q in s.sent ensures InRange(s.handed + [p], q) { InRangeGrows(s.handed, p, q); }
  }

  lemma PublishKeeps(s: Log, c: nat, t: Str, m: seq<byte>)
    requires Inv(s) && Enabled(s, Publish(c, t, m)) && |s.handed| + 1 < 0x8000_0000_0000_0000
    ensures Inv(Next(s, Publish(c, t, m)))
  {
    hide StoreOk, SentOk, CountKey, PlaceKey, Count, Offsets, ApplyOp, IncrValue, SubOk;
    PublishStore(s.kv, s.handed, s.stored, t);
    PublishSends(s, Place(t, Count(s.handed, t) + 1), m);
  }

  lemma StoreStore(kv: Kv, handed: seq<Place>, stored: Msgs, p: Place, m: seq<byte>)
    requires StoreOk(kv, handed, stored)
    ensures StoreOk(kv[PlaceKey(p) := m], handed, stored[p := m])
  {
    hide CountKey, PlaceKey, Count, Offsets, Decimal;
    var kv', stored' := kv[PlaceKey(p) := m], stored[p := m];
    forall t ensures TopicOk(kv', handed, t) {
      assert TopicOk(kv, handed, t);
      KeysDisjoint(t, p);
    }
    forall q ensures PlaceOk(kv', stored', q) {
      assert PlaceOk(kv, stored, q);
      if PlaceKey(q) == PlaceKey(p) { PlaceKeyInjective(q, p); }
    }
  }

  lemma SubStays(u: Sub, stored: Msgs, p: Place, m: seq<byte>)
    requires SubOk(u, stored) && p !in stored
    ensures SubOk(u, stored[p := m])
  {
    hide OutAscends;
  }

  lemma StoreKeeps(s: Log, c: nat)
    requires Inv(s) && Enabled(s, Store(c))
    ensures Inv(Next(s, Store(c)))
  {
    hide StoreOk, PlaceKey, InRange, SubOk;
    var u := s.pubs[c];
    assert PubOk(u, s.sent, s.stored);
    StoreStore(s.kv, s.handed, s.stored, u.at, u.msg);
    forall d | d in s.subs ensures SubOk(s.subs[d], s.stored[u.at := u.msg]) {
      SubStays(s.subs[d], s.stored, u.at, u.msg);
    }
  }

  lemma AckKeeps(s: Log, c: nat)
    requires Inv(s) && Enabled(s, Ack(c))
    ensures Inv(Next(s, Ack(c)))
  {
    hide StoreOk, InRange, SubOk;
    assert PubOk(s.pubs[c], s.sent, s.stored);
  }

  lemma LengthIsCount(kv: Kv, handed: seq<Place>, t: Str)
    requires TopicOk(kv, handed, t) && |handed| < 0x8000_0000_0000_0000
    ensures LengthOf(kv, t) == Count(handed, t)
  {
    hide CountKey, Offsets, Decimal, ParseI64, Utf8;
    CountBound(handed, t);
    ParseI64Decimal(Count(handed, t));
    DecimalIsAscii(Count(handed, t));
  }

  lemma SubscribeKeeps(s: Log, c: nat, t: Str, from: i64)
    requires Inv(s) && Enabled(s, Subscribe(c, t, from)) && |s.handed| < 0x8000_0000_0000_0000
    ensures Inv(Next(s, Subscribe(c, t, from)))
  {
    hide TopicOk, PlaceOk, LengthOf, Count, PubsOk;
    assert TopicOk(s.kv, s.handed, t);
    assert forall p :: p in s.acked ==> InRange(s.handed, p);
    LengthIsCount(s.kv, s.handed, t);
  }

  lemma FetchStepOk(kv: Kv, u: Sub, stored: Msgs)
    requires SubOk(u, stored) && PlaceOk(kv, stored, Place(u.topic, u.next))
    ensures SubOk(FetchStep(kv, u), stored)
  {
    hide PlaceKey;
    var p, v := Place(u.topic, u.next), FetchStep(kv, u);
    forall q | q in v.acked && q.topic == v.topic && v.start <= q.off < v.next ensures (q.off, stored[q]) in v.out {
      if q.off < u.next {
        assert (q.off, stored[q]) in u.out;
      } else {
        assert q == p;
      }
    }
  }

  lemma FetchKeeps(s: Log, c: nat)
    requires Inv(s) && Enabled(s, Fetch(c))
    ensures Inv(Next(s, Fetch(c)))
  {
    hide TopicOk, PlaceOk, SubOk, PubsOk, FetchStep, SentOk;
    var u := s.subs[c];
    assert PlaceOk(s.kv, s.stored, Place(u.topic, u.next));
    FetchStepOk(s.kv, u, s.stored);
  }

  lemma NextKeeps(s: Log, e: Event)
    requires Inv(s) && Enabled(s, e) && |s.handed| + 1 < 0x8000_0000_0000_0000
    ensures Inv(Next(s, e)) && |Next(s, e).handed| <= |s.handed| + 1
  {
    hide StoreOk, SubOk, SentOk, LengthOf, FetchStep, ApplyOp, IncrValue;
    match e
    case Publish(c, t, m) => PublishKeeps(s, c, t, m);
    case Store(c) => StoreKeeps(s, c);
    case Ack(c) => AckKeeps(s, c);
    case Subscribe(c, t, from) => SubscribeKeeps(s, c, t, from);
    case Fetch(c) => FetchKeeps(s, c);
    case Crash =>
  }

  lemma StartOk()
    ensures Inv(START)
  {}

  lemma {:induction false} RunKeeps(es: seq<Event>)
    requires |es| < 0x8000_0000_0000_0000
    ensures Inv(Exec(es)) && |Exec(es).handed| <= |es|
  {
    hide Inv, Next, Enabled;
    if |es| == 0 {
      StartOk();
    } else {
      RunKeeps(es[..|es| - 1]);
      var s := Exec(es[..|es| - 1]);
      if Enabled(s, es[|es| - 1]) { NextKeeps(s, es[|es| - 1]); }
    }
  }

  // ------------------------------------------------------------------------ main results

  /** In every run the offsets handed out for a topic are 1, 2, 3, ..., each exactly once, in order. */
  lemma OffsetsExact(es: seq<Event>, t: Str)
    requires |es| < 0x8000_0000_0000_0000
    ensures var o := Offsets(Exec(es).handed, t); o == seq(|o|, i => i + 1)
  {
    hide Exec, PlaceOk, CounterAt, InRange, PubsOk, SubOk, Offsets;
    RunKeeps(es);
    assert TopicOk(Exec(es).kv, Exec(es).handed, t);
  }

  /** A message's key is in the store exactly when its SET was executed, and holds what was sent for its place. */
  lemma NoLeak(es: seq<Event>, p: Place)
    requires |es| < 0x8000_0000_0000_0000
    ensures PlaceKey(p) in Exec(es).kv <==> p in Exec(es).stored
    ensures p in Exec(es).stored ==> p in Exec(es).sent && Exec(es).kv[PlaceKey(p)] == Exec(es).sent[p]
    ensures p in Exec(es).acked ==> p in Exec(es).stored
  {
    hide Exec, TopicOk, InRange, PubsOk, SubOk, PlaceKey;
    RunKeeps(es);
    assert PlaceOk(Exec(es).kv, Exec(es).stored, p);
  }

  lemma HistoryStays(s: Log, e: Event, p: Place)
    requires Inv(s) && Enabled(s, e) && |s.handed| + 1 < 0x8000_0000_0000_0000
    ensures p in s.acked ==> p in Next(s, e).acked
    ensures p in s.sent ==> p in Next(s, e).sent && Next(s, e).sent[p] == s.sent[p]
  {
    hide StoreOk, SubOk, SentOk, LengthOf, FetchStep, ApplyOp, IncrValue, InRange, CountKey;
    if e.Publish? {
      PublishStore(s.kv, s.handed, s.stored, e.topic);
      PublishSends(s, Place(e.topic, Count(s.handed, e.topic) + 1), e.msg);
    }
  }

  lemma {:induction false} HistoryKept(es: seq<Event>, i: nat, p: Place)
    requires |es| < 0x8000_0000_0000_0000 && i <= |es|
    ensures p in Exec(es[..i]).acked ==> p in Exec(es).acked
    ensures p in Exec(es[..i]).sent ==> p in Exec(es).sent && Exec(es).sent[p] == Exec(es[..i]).sent[p]
    decreases |es|
  {
    hide Inv, Next, Enabled;
    if i == |es| {
      assert es[..i] == es;
    } else {
      var n := |es| - 1;
      assert es[..n][..i] == es[..i];
      HistoryKept(es[..n], i, p);
      RunKeeps(es[..n]);
      if Enabled(Exec(es[..n]), es[n]) { HistoryStays(Exec(es[..n]), es[n], p); }
    }
  }

  /** An acknowledged message stays in the store as it was sent, whatever follows, crashes included. */
  lemma AckedForever(es: seq<Event>, i: nat, p: Place)
    requires |es| < 0x8000_0000_0000_0000 && i <= |es| && p in Exec(es[..i]).acked
    ensures p in Exec(es[..i]).sent && PlaceKey(p) in Exec(es).kv && Exec(es).kv[PlaceKey(p)] == Exec(es[..i]).sent[p]
  {
    hide Exec, PlaceKey;
    NoLeak(es[..i], p);
    HistoryKept(es, i, p);
    NoLeak(es, p);
  }

  /** What was sent for a place is what one PUB command on its topic carried. */
  lemma {:induction false} SentByPublish(es: seq<Event>, p: Place) returns (i: nat)
    requires p in Exec(es).sent
    ensures i < |es| && es[i].Publish? && es[i].topic == p.topic && es[i].msg == Exec(es).sent[p]
  {
    hide LengthOf, ApplyOp, IncrValue, PlaceKey, CountKey, FetchStep;
    var n := |es| - 1;
    var s := Exec(es[..n]);
    if Enabled(s, es[n]) && es[n].Publish? && Place(es[n].topic, IncrValue(s.kv, CountKey(es[n].topic), 1)) == p {
      i := n;
    } else {
      i := SentByPublish(es[..n], p);
    }
  }

  /** Which SUB command a connection's reading belongs to. */
  ghost predicate Began(es: seq<Event>, i: nat, c: nat, u: Sub) {
    && i < |es| && es[i].Subscribe? && es[i].c == c && es[i].topic == u.topic
    && u.start == Max(es[i].from, 1) && u.acked == Exec(es[..i]).acked
  }

  lemma {:induction false} BeganSomewhere(es: seq<Event>, c: nat) returns (i: nat)
    requires c in Exec(es).subs
    ensures Began(es, i, c, Exec(es).subs[c])
  {
    hide LengthOf, ApplyOp, IncrValue, PlaceKey, CountKey;
    var n := |es| - 1;
    var s := Exec(es[..n]);
    if Enabled(s, es[n]) && es[n].Subscribe? && es[n].c == c {
      i := n;
    } else {
      i := BeganSomewhere(es[..n], c);
      assert es[..n][..i] == es[..i];
    }
  }

  /**
   * A finished SUB has returned, in ascending order, stored messages of its topic only, as they were
   * sent, and among them every one at or after its start that was acknowledged before its length read.
   */
  lemma SubComplete(es: seq<Event>, c: nat) returns (i: nat)
    requires |es| < 0x8000_0000_0000_0000 && c in Exec(es).subs && Exec(es).subs[c].next > Exec(es).subs[c].len
    ensures Began(es, i, c, Exec(es).subs[c])
    ensures OutAscends(Exec(es).subs[c])
    ensures forall x :: x in Exec(es).subs[c].out ==> ReallySent(Exec(es), es[i].topic, x)
    ensures forall x :: x in Exec(es).subs[c].out ==> x.0 >= 1 && x.0 >= es[i].from
    ensures forall p :: p in Exec(es[..i]).acked && p.topic == es[i].topic && p.off >= Max(es[i].from, 1) ==>
      p in Exec(es).sent && (p.off, Exec(es).sent[p]) in Exec(es).subs[c].out
  {
    hide Exec, StoreOk, PubsOk;
    i := BeganSomewhere(es, c);
    RunKeeps(es);
    var s := Exec(es);
    var u := s.subs[c];
    assert SubOk(u, s.stored);
    forall x | x in u.out ensures ReallySent(s, u.topic, x) {
      assert Place(u.topic, x.0) in s.stored;
    }
    forall p | p in u.acked && p.topic == u.topic && p.off >= u.start
      ensures p in s.sent && (p.off, s.sent[p]) in u.out
    {
      assert p.off <= u.len;
    }
  }

  predicate ReallySent(s: Log, t: Str, x: (int, seq<byte>)) {
    Place(t, x.0) in s.stored && Place(t, x.0) in s.sent && s.sent[Place(t, x.0)] == x.1
  }

  lemma ExecSnoc(es: seq<Event>, e: Event)
    ensures Exec(es + [e]) == if Enabled(Exec(es), e) then Next(Exec(es), e) else Exec(es)
  {
    assert (es + [e])[..|es|] == es;
  }

  /** A PUB that is not interrupted is answered with the next offset of its topic, and its message is stored. */
  lemma PublishCompletes(es: seq<Event>, c: nat, t: Str, m: seq<byte>)
    requires |es| + 3 < 0x8000_0000_0000_0000 && Idle(Exec(es), c)
    ensures var s := Exec(es + [Publish(c, t, m)] + [Store(c)] + [Ack(c)]);
      var p := Place(t, |Offsets(Exec(es).handed, t)| + 1);
      && p in s.acked && PlaceKey(p) in s.kv && s.kv[PlaceKey(p)] == m
      && s.handed == Exec(es).handed + [p] && c !in s.pubs
  {
    hide ApplyOp, IncrValue, CountKey, PlaceKey, Exec, Inv, Offsets;
    var e1 := es + [Publish(c, t, m)];
    NextOffset(es, t);
    ExecSnoc(es, Publish(c, t, m));
    ExecSnoc(e1, Store(c));
    ExecSnoc(e1 + [Store(c)], Ack(c));
    NoLeak(e1 + [Store(c)] + [Ack(c)], Place(t, |Offsets(Exec(es).handed, t)| + 1));
  }

  lemma NextOffset(es: seq<Event>, t: Str)
    requires |es| + 1 < 0x8000_0000_0000_0000
    ensures IncrValue(Exec(es).kv, CountKey(t), 1) == |Offsets(Exec(es).handed, t)| + 1
  {
    hide Exec, StoreOk, IncrValue, CountKey, Offsets;
    RunKeeps(es);
    PublishStore(Exec(es).kv, Exec(es).handed, Exec(es).stored, t);
  }

  /** A SUB in progress comes to its end after one more step per offset. */
  lemma {:induction false} FetchToEnd(es: seq<Event>, c: nat) returns (more: seq<Event>)
    requires c in Exec(es).subs
    ensures var u, s := Exec(es).subs[c], Exec(es + more);
      && c in s.subs && s.subs[c].next > s.subs[c].len
      && s.subs[c].topic == u.topic && s.subs[c].start == u.start
      && s.subs[c].len == u.len && s.subs[c].acked == u.acked
    decreases if Exec(es).subs[c].next > Exec(es).subs[c].len then 0
      else Exec(es).subs[c].len - Exec(es).subs[c].next + 1
  {
    hide Exec, PlaceKey;
    if Exec(es).subs[c].next > Exec(es).subs[c].len {
      more := [];
      assert es + more == es;
    } else {
      ExecSnoc(es, Fetch(c));
      var rest := FetchToEnd(es + [Fetch(c)], c);
      more := [Fetch(c)] + rest;
      assert es + [Fetch(c)] + rest == es + more;
    }
  }

  /** A publisher up to its SET, then a subscriber. */
  function Publishing(t: Str, m: seq<byte>): seq<Event> { [Publish(0, t, m)] + [Store(0)] }
  function Eager(t: Str, m: seq<byte>): seq<Event> { Publishing(t, m) + [Subscribe(1, t, 1)] + [Fetch(1)] }

  lemma FirstHanded(t: Str, m: seq<byte>)
    ensures var s, p := Exec([Publish(0, t, m)]), Place(t, 1);
      && s.handed == [p] && s.sent == map[p := m] && s.stored == map[] && s.acked == {} && s.subs == map[]
      && s.pubs == map[0 := Pub(p, m, false)]
  {
    hide ApplyOp, IncrValue, CountKey, Exec;
    NoneYet();
    ExecSnoc([], Publish(0, t, m));
    assert [] + [Publish(0, t, m)] == [Publish(0, t, m)];
    IncrCounter(map[], CountKey(t), 0);
  }

  lemma NoneYet()
    ensures Exec([]) == START
  {}

  lemma FirstStored(t: Str, m: seq<byte>)
    ensures var s := Exec(Publishing(t, m));
      && s.handed == [Place(t, 1)] && s.sent == map[Place(t, 1) := m] && s.stored == map[Place(t, 1) := m]
      && s.acked == {} && s.subs == map[] && 1 !in s.pubs
  {
    hide ApplyOp, PlaceKey, Exec;
    FirstHanded(t, m);
    ExecSnoc([Publish(0, t, m)], Store(0));
  }

  lemma OneHanded(es: seq<Event>, t: Str)
    requires Exec(es).handed == [Place(t, 1)] && |es| < 0x8000_0000_0000_0000
    ensures LengthOf(Exec(es).kv, t) == 1
  {
    hide Exec, LengthOf, PlaceOk, PubsOk, SubOk, SentOk;
    RunKeeps(es);
    OffsetsSnoc([], Place(t, 1), t);
    assert [] + [Place(t, 1)] == [Place(t, 1)];
    assert TopicOk(Exec(es).kv, Exec(es).handed, t);
    LengthIsCount(Exec(es).kv, Exec(es).handed, t);
  }

  /** A message is visible from its SET on: a SUB may return it before its publisher is answered. */
  lemma VisibleBeforeAck(t: Str, m: seq<byte>)
    ensures var s := Exec(Eager(t, m));
      && 1 in s.subs && s.subs[1].next > s.subs[1].len
      && s.subs[1].out == [(1, m)] && s.acked == {}
  {
    hide Exec, ApplyOp, IncrValue, CountKey, PlaceKey, LengthOf, Inv, Publishing;
    var e2 := Publishing(t, m);
    FirstStored(t, m);
    PublishingShort(t, m);
    OneHanded(e2, t);
    ExecSnoc(e2, Subscribe(1, t, 1));
    var s := Exec(e2 + [Subscribe(1, t, 1)]);
    assert s.kv == Exec(e2).kv && s.subs[1] == Sub(t, 1, 1, 1, [], {});
    NoLeak(e2, Place(t, 1));
    ExecSnoc(e2 + [Subscribe(1, t, 1)], Fetch(1));
  }

  lemma PublishingShort(t: Str, m: seq<byte>)
    ensures |Publishing(t, m)| == 2
  {}
}
