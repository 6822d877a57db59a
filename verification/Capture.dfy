/** The capture log of the interception shim and its replayer (obpreload.c, ob_replay.rs). */
module Capture {
  import opened Wrappers
  import opened Bytes

  const MAXFD: nat := 65536

  /** What the process does: a socket is accepted or bound, bytes are read, a descriptor is closed. */
  datatype Event = Mark(fd: int) | Read(fd: int, data: seq<byte>) | Close(fd: int)

  datatype Chunk = Chunk(cid: u32, data: seq<byte>)

  predicate Tracked(fd: int) { 0 <= fd < MAXFD }

  // ------------------------------------------------------------- what ought to be captured

  /** The connection a descriptor stands for, named by the position of the event that opened it. */
  function Owner(es: seq<Event>, fd: int): (a: Option<nat>)
    ensures a.Some? ==> a.value < |es| && es[a.value] == Mark(fd)
  {
    if |es| == 0 then None
    else
      var n := |es| - 1;
      match es[n]
      case Mark(f) => if f == fd && Tracked(f) then Some(n) else Owner(es[..n], fd)
      case Read(_, _) => Owner(es[..n], fd)
      case Close(f) => if f == fd then None else Owner(es[..n], fd)
  }

  /** The connection whose input the last event of a run is. */
  function Feeds(es: seq<Event>): (a: Option<nat>)
    ensures a.Some? ==> |es| > 0 && es[|es| - 1].Read? && a.value < |es| - 1
  {
    if |es| > 0 && es[|es| - 1].Read? && |es[|es| - 1].data| > 0 then Owner(es[..|es| - 1], es[|es| - 1].fd) else None
  }

  /** All bytes read on connection `a`. */
  function Input(es: seq<Event>, a: nat): seq<byte> {
    if |es| == 0 then []
    else Input(es[..|es| - 1], a) + (if Feeds(es) == Some(a) then es[|es| - 1].data else [])
  }

  /** The connections that received data, in the order of their first byte. */
  function FirstData(es: seq<Event>): seq<nat> {
    if |es| == 0 then []
    else
      var o := FirstData(es[..|es| - 1]);
      if Feeds(es).Some? && Feeds(es).value !in o then o + [Feeds(es).value] else o
  }

  // ------------------------------------------------------------------ what the shim writes

  function Marks(es: seq<Event>): nat {
    if |es| == 0 then 0
    else Marks(es[..|es| - 1]) + (if es[|es| - 1].Mark? && Tracked(es[|es| - 1].fd) then 1 else 0)
  }

  /** `next_conn_id++` on a 32-bit counter that starts at 1. */
  function NthId(n: nat): u32 { (1 + n) % 0x1_0000_0000 }

  function IdOf(es: seq<Event>, a: nat): u32
    requires a <= |es|
  {
    NthId(Marks(es[..a]))
  }

  function ChunkBytes(c: Chunk): (r: seq<byte>)
    ensures |r| == 8 + |c.data|
  {
    LE(c.cid, 4) + (LE(|c.data| % 0x1_0000_0000, 4) + c.data)
  }

  /** Where the fields of a capture record stand. */
  lemma ChunkLayout(c: Chunk)
    requires |c.data| <= MAX_U32
    ensures var b := ChunkBytes(c); b[..4] == LE(c.cid, 4) && b[4..8] == LE(|c.data|, 4) && b[8..] == c.data
  {
    hide LE;
    var b, rest := ChunkBytes(c), LE(|c.data|, 4) + c.data;
    assert b[4..] == rest;
    assert b[4..8] == rest[..4] && b[8..] == rest[4..];
  }

  /** The records of a run, and the log file they make. */
  function Chunks(es: seq<Event>): seq<Chunk> {
    if |es| == 0 then []
    else if Feeds(es).Some? then Chunks(es[..|es| - 1]) + [Chunk(IdOf(es, Feeds(es).value), es[|es| - 1].data)]
    else Chunks(es[..|es| - 1])
  }

  function LogBytes(es: seq<Event>): seq<byte> {
    if |es| == 0 then []
    else if Feeds(es).Some? then
      LogBytes(es[..|es| - 1]) + ChunkBytes(Chunk(IdOf(es, Feeds(es).value), es[|es| - 1].data))
    else LogBytes(es[..|es| - 1])
  }

  /** The shim's tables: `is_conn`, `conn_id_of`, `next_conn_id`, and the capture file, opened to append. */
  class Shim {
    const before: seq<byte>
    const isConn: array<bool>
    const connIdOf: array<u32>
    var nextConnId: u32
    var cap: seq<byte>
    ghost var es: seq<Event>

    ghost predicate Valid()
      reads this, isConn, connIdOf
    {
      && isConn.Length == MAXFD && connIdOf.Length == MAXFD
      && nextConnId == NthId(Marks(es))
      && cap == before + LogBytes(es)
      && forall fd :: 0 <= fd < MAXFD ==> SlotOk(fd, isConn[fd], connIdOf[fd], es)
    }

    constructor (existing: seq<byte>)
      ensures Valid() && fresh(isConn) && fresh(connIdOf) && es == [] && before == existing
    {
      before := existing;
      isConn := new bool[MAXFD](_ => false);
      connIdOf := new u32[MAXFD](_ => 0);
      nextConnId := 1;
      cap := existing;
      es := [];
    }

    /** `mark_conn`, called for every accepted or bound socket. */
    method MarkConn(fd: int)
      requires Valid()
      modifies this, isConn, connIdOf
      ensures Valid() && es == old(es) + [Mark(fd)]
    {
      hide SlotOk, Marks, LogBytes, NthId;
      ghost var e := Mark(fd);
      Advances(es, e);
      forall x | 0 <= x < MAXFD ensures SlotIs(x, SlotNext(es, e, x, isConn[x], connIdOf[x]), es + [e]) {
        SlotMoves(es, e, x, isConn[x], connIdOf[x]);
      }
      if Tracked(fd) {
        isConn[fd] := true;
        connIdOf[fd] := nextConnId;
        nextConnId := (nextConnId + 1) % 0x1_0000_0000;
      }
      es := es + [e];
      forall x | 0 <= x < MAXFD ensures SlotOk(x, isConn[x], connIdOf[x], es) {
        assert (isConn[x], connIdOf[x]) == SlotNext(old(es), e, x, old(isConn[x]), old(connIdOf[x]));
      }
    }

    /** `capture`, called with what a read returned. */
    method Capture(fd: int, data: seq<byte>)
      requires Valid()
      modifies this
      ensures Valid() && es == old(es) + [Read(fd, data)]
    {
      hide SlotOk, Marks, LogBytes, NthId, LE;
      ghost var e := Read(fd, data);
      Advances(es, e);
      forall x | 0 <= x < MAXFD ensures SlotOk(x, isConn[x], connIdOf[x], es + [e]) {
        SlotMoves(es, e, x, isConn[x], connIdOf[x]);
      }
      if |data| > 0 && Tracked(fd) && isConn[fd] {
        LogGrows(es, fd, data, isConn[fd], connIdOf[fd]);
        cap := cap + LE(connIdOf[fd], 4) + LE(|data| % 0x1_0000_0000, 4) + data;
      } else {
        LogStays(es, fd, data, Tracked(fd) && isConn[fd], if Tracked(fd) then connIdOf[fd] else 0);
      }
      es := es + [e];
    }

    /** `close`. */
    method CloseFd(fd: int)
      requires Valid()
      modifies this, isConn, connIdOf
      ensures Valid() && es == old(es) + [Close(fd)]
    {
      hide SlotOk, Marks, LogBytes, NthId;
      ghost var e := Close(fd);
      Advances(es, e);
      forall x | 0 <= x < MAXFD ensures SlotIs(x, SlotNext(es, e, x, isConn[x], connIdOf[x]), es + [e]) {
        SlotMoves(es, e, x, isConn[x], connIdOf[x]);
      }
      if Tracked(fd) {
        isConn[fd] := false;
        connIdOf[fd] := 0;
      }
      es := es + [e];
      forall x | 0 <= x < MAXFD ensures SlotOk(x, isConn[x], connIdOf[x], es) {
        assert (isConn[x], connIdOf[x]) == SlotNext(old(es), e, x, old(isConn[x]), old(connIdOf[x]));
      }
    }
  }

  /** A table slot says which connection the descriptor stands for. */
  predicate SlotOk(fd: int, live: bool, cid: u32, es: seq<Event>) {
    (live <==> Owner(es, fd).Some?) && (live ==> cid == IdOf(es, Owner(es, fd).value))
  }

  predicate SlotIs(fd: int, slot: (bool, u32), es: seq<Event>) { SlotOk(fd, slot.0, slot.1, es) }

  /** What an event does to the slot of descriptor `x`. */
  function SlotNext(es: seq<Event>, e: Event, x: int, live: bool, cid: u32): (bool, u32) {
    if e == Mark(x) then (true, NthId(Marks(es))) else if e == Close(x) then (false, 0) else (live, cid)
  }

  lemma SlotMoves(es: seq<Event>, e: Event, x: int, live: bool, cid: u32)
    requires SlotOk(x, live, cid, es) && Tracked(x)
    ensures SlotIs(x, SlotNext(es, e, x, live, cid), es + [e])
  {
    hide Marks, NthId;
    assert (es + [e])[..|es|] == es;
    if Owner(es + [e], x).Some? {
      var a := Owner(es + [e], x).value;
      assert (es + [e])[..a] == es[..a];
    }
  }

  /** Opening a connection takes a number; nothing but captured data grows the log. */
  lemma Advances(es: seq<Event>, e: Event)
    ensures NthId(Marks(es + [e])) ==
      if e.Mark? && Tracked(e.fd) then (NthId(Marks(es)) + 1) % 0x1_0000_0000 else NthId(Marks(es))
    ensures !e.Read? ==> LogBytes(es + [e]) == LogBytes(es)
  {
    assert (es + [e])[..|es|] == es;
  }

  lemma LogGrows(es: seq<Event>, fd: int, data: seq<byte>, live: bool, cid: u32)
    requires SlotOk(fd, live, cid, es) && live && |data| > 0
    ensures LogBytes(es + [Read(fd, data)]) == LogBytes(es) + LE(cid, 4) + LE(|data| % 0x1_0000_0000, 4) + data
  {
    hide Marks, NthId, LE;
    var es' := es + [Read(fd, data)];
    assert es'[..|es|] == es;
    var a := Owner(es, fd).value;
    assert es'[..a] == es[..a];
    assert LogBytes(es') == LogBytes(es) + ChunkBytes(Chunk(cid, data));
  }

  lemma LogStays(es: seq<Event>, fd: int, data: seq<byte>, live: bool, cid: u32)
    requires Tracked(fd) ==> SlotOk(fd, live, cid, es)
    requires |data| == 0 || !Tracked(fd) || !live
    ensures LogBytes(es + [Read(fd, data)]) == LogBytes(es)
  {
    assert (es + [Read(fd, data)])[..|es|] == es;
    OwnerTracked(es, fd);
  }

  /** Data is captured for a descriptor from its opening on, as a new connection, and not after its close. */
  lemma OpenAndClose(es: seq<Event>, fd: int, data: seq<byte>)
    requires Tracked(fd) && |data| > 0
    ensures Feeds(es + [Mark(fd)] + [Read(fd, data)]) == Some(|es|)
    ensures Feeds(es + [Close(fd)] + [Read(fd, data)]) == None
    ensures forall e: Event :: e.fd != fd || e.Read? ==>
      Feeds(es + [e] + [Read(fd, data)]).Some? == Feeds(es + [Read(fd, data)]).Some?
  {
    forall e: Event ensures (es + [e] + [Read(fd, data)])[..|es| + 1] == es + [e] && (es + [e])[..|es|] == es {}
    assert (es + [Read(fd, data)])[..|es|] == es;
  }

  lemma {:induction false} OwnerTracked(es: seq<Event>, fd: int)
    ensures Owner(es, fd).Some? ==> Tracked(fd)
  {
    if |es| > 0 { OwnerTracked(es[..|es| - 1], fd); }
  }

  // --------------------------------------------------------------------- reading it back

  function GetChunk(b: seq<byte>): (r: Option<(Chunk, seq<byte>)>)
    ensures r.Some? ==> 8 + |r.value.0.data| + |r.value.1| == |b|
  {
    var (cid, b1) :- GetU32(b);
    var (n, b2) :- GetU32(b1);
    var (data, b3) :- Split(b2, n);
    Some((Chunk(cid, data), b3))
  }

  function ReadChunks(b: seq<byte>): seq<Chunk>
    decreases |b|
  {
    if GetChunk(b).None? then [] else [GetChunk(b).value.0] + ReadChunks(GetChunk(b).value.1)
  }

  type Conns = map<u32, seq<byte>>

  /** The grouping loop: bytes per connection, connections in first-seen order. */
  function Group(cs: seq<Chunk>): (Conns, seq<u32>) {
    if |cs| == 0 then (map[], []) else AddChunk(Group(cs[..|cs| - 1]), cs[|cs| - 1])
  }

  function AddChunk(g: (Conns, seq<u32>), c: Chunk): (r: (Conns, seq<u32>))
    ensures g.1 <= r.1
  {
    if c.cid in g.0 then (g.0[c.cid := g.0[c.cid] + c.data], g.1)
    else (g.0[c.cid := c.data], g.1 + [c.cid])
  }

  lemma GroupSnoc(cs: seq<Chunk>, c: Chunk)
    ensures Group(cs + [c]) == AddChunk(Group(cs), c)
  {
    assert (cs + [c])[..|cs|] == cs;
  }

  /** `u32::from_le_bytes(raw[p..p + 4])`. */
  function U32At(raw: seq<byte>, p: nat): u32
    requires p + 4 <= |raw|
  {
    WordSizes();
    FromLEBound(raw[p..p + 4]);
    FromLE(raw[p..p + 4])
  }

  /** The parse loop of `ob-replay`. */
  method ParseCapture(raw: seq<byte>) returns (conns: Conns, order: seq<u32>)
    ensures (conns, order) == Group(ReadChunks(raw))
  {
    hide U32At, GetChunk, Group;
    conns, order := map[], [];
    var p := 0;
    ghost var done: seq<Chunk> := [];
    NothingRead(raw);
    while p + 8 <= |raw|
      invariant 0 <= p <= |raw|
      invariant done + ReadChunks(raw[p..]) == ReadChunks(raw)
      invariant (conns, order) == Group(done)
      decreases |raw| - p
    {
      var cid := U32At(raw, p);
      var len := U32At(raw, p + 4);
      HeaderAt(raw, p);
      assert done + [] == done;
      p := p + 8;
      if p + len > |raw| {
        return;
      }
      var data := raw[p..p + len];
      ghost var c := Chunk(cid, data);
      GroupSnoc(done, c);
      if cid !in conns {
        order := order + [cid];
      }
      assert [] + data == data;
      conns := conns[cid := (if cid in conns then conns[cid] else []) + data];
      p := p + len;
      assert done + ([c] + ReadChunks(raw[p..])) == (done + [c]) + ReadChunks(raw[p..]);
      done := done + [c];
    }
    ShortTail(raw[p..]);
    assert done + [] == done;
  }

  lemma NothingRead(raw: seq<byte>)
    ensures raw[0..] == raw && [] + ReadChunks(raw) == ReadChunks(raw)
    ensures Group([]) == (map[], [])
  {}

  lemma ShortTail(b: seq<byte>)
    requires |b| < 8
    ensures GetChunk(b).None?
  {}

  lemma HeaderAt(raw: seq<byte>, p: nat)
    requires p + 8 <= |raw|
    ensures var n := U32At(raw, p + 4);
      if p + 8 + n > |raw| then GetChunk(raw[p..]).None?
      else GetChunk(raw[p..]) == Some((Chunk(U32At(raw, p), raw[p + 8..p + 8 + n]), raw[p + 8 + n..]))
  {
    hide FromLE;
    var b := raw[p..];
    assert b[..4] == raw[p..p + 4] && b[4..][..4] == raw[p + 4..p + 8] && b[4..][4..] == raw[p + 8..];
    var n := U32At(raw, p + 4);
    if p + 8 + n <= |raw| {
      assert raw[p + 8..][..n] == raw[p + 8..p + 8 + n] && raw[p + 8..][n..] == raw[p + 8 + n..];
    }
  }

  // ---------------------------------------------------------------- the log and its records

  predicate ChunkFits(c: Chunk) { |c.data| <= MAX_U32 }

  /** Reads return at most as much as a length field holds. */
  predicate ReadsFit(es: seq<Event>) { forall i :: 0 <= i < |es| && es[i].Read? ==> |es[i].data| <= MAX_U32 }

  lemma GetChunkAppend(c: Chunk, rest: seq<byte>)
    requires ChunkFits(c)
    ensures GetChunk(ChunkBytes(c) + rest) == Some((c, rest))
  {
    hide LE, GetU32, Split;
    var t := LE(|c.data|, 4) + (c.data + rest);
    assert ChunkBytes(c) + rest == LE(c.cid, 4) + t;
    GetU32Append(c.cid, t);
    GetU32Append(|c.data|, c.data + rest);
    SplitAppend(c.data, rest);
  }

  lemma GetChunkCut(c: Chunk, t: seq<byte>)
    requires ChunkFits(c) && |t| < |ChunkBytes(c)| && t == ChunkBytes(c)[..|t|]
    ensures GetChunk(t).None?
  {
    hide LE, GetU32;
    if |t| >= 8 {
      var h, u := LE(|c.data|, 4), t[4..];
      PrefixOfConcat(LE(c.cid, 4), h + c.data, t);
      PrefixOfConcat(h, c.data, u);
      GetU32Append(c.cid, u);
      GetU32Append(|c.data|, u[4..]);
    } else {
      ShortTail(t);
    }
  }

  /** The log of a run, with anything behind it, reads as the run's records and then the rest. */
  lemma {:induction false} ReadBack(es: seq<Event>, t: seq<byte>)
    requires ReadsFit(es)
    ensures ReadChunks(LogBytes(es) + t) == Chunks(es) + ReadChunks(t)
    decreases |es|
  {
    hide GetChunk, ChunkBytes, IdOf, Feeds;
    if |es| == 0 {
      assert LogBytes(es) + t == t && Chunks(es) + ReadChunks(t) == ReadChunks(t);
    } else if Feeds(es).Some? {
      var n := |es| - 1;
      var c := Chunk(IdOf(es, Feeds(es).value), es[n].data);
      assert LogBytes(es) + t == LogBytes(es[..n]) + (ChunkBytes(c) + t);
      ReadBack(es[..n], ChunkBytes(c) + t);
      GetChunkAppend(c, t);
      assert Chunks(es[..n]) + ([c] + ReadChunks(t)) == Chunks(es) + ReadChunks(t);
    } else {
      ReadBack(es[..|es| - 1], t);
    }
  }

  /** On any byte prefix of the log the replayer finds the records of an earlier moment of the run. */
  lemma {:induction false} CutLog(es: seq<Event>, n: nat) returns (k: nat)
    requires ReadsFit(es) && n <= |LogBytes(es)|
    ensures k <= |es| && ReadChunks(LogBytes(es)[..n]) == Chunks(es[..k])
    ensures |LogBytes(es[..k])| <= n && (k < |es| ==> n < |LogBytes(es[..k + 1])|)
  {
    hide GetChunk, ChunkBytes, IdOf, Feeds;
    var b := LogBytes(es);
    if n == |b| {
      k := |es|;
      assert es[..k] == es && b[..n] + [] == b[..n] == b;
      ReadBack(es, []);
      ShortTail([]);
    } else {
      var m := |es| - 1;
      var b' := LogBytes(es[..m]);
      if n < |b'| {
        k := CutLog(es[..m], n);
        assert b[..n] == b'[..n];
        assert es[..m][..k] == es[..k] && (k < m ==> es[..m][..k + 1] == es[..k + 1]);
      } else {
        k := m;
        var c := Chunk(IdOf(es, Feeds(es).value), es[m].data);
        var t := ChunkBytes(c)[..n - |b'|];
        assert b[..n] == b' + t;
        GetChunkCut(c, t);
        ReadBack(es[..m], t);
        assert es[..m + 1] == es;
      }
    }
  }

  // ------------------------------------------------------------------------ main results

  /** Later connections have larger numbers. */
  lemma {:induction false} MarksRise(es: seq<Event>, a: nat, b: nat)
    requires a < b <= |es| && es[a].Mark? && Tracked(es[a].fd)
    ensures Marks(es[..a]) < Marks(es[..b])
    decreases b
  {
    assert es[..b][..b - 1] == es[..b - 1];
    if a < b - 1 { MarksRise(es, a, b - 1); }
  }

  predicate IsConnection(es: seq<Event>, a: nat) { a < |es| && es[a].Mark? && Tracked(es[a].fd) }

  lemma {:induction false} MarksGrow(es: seq<Event>, b: nat)
    requires b <= |es|
    ensures Marks(es[..b]) <= Marks(es)
    decreases |es|
  {
    if b < |es| {
      assert es[..|es| - 1][..b] == es[..b];
      MarksGrow(es[..|es| - 1], b);
    } else {
      assert es[..b] == es;
    }
  }

  /** Fewer than 2^32 connections have different ids, however their descriptors were reused. */
  lemma IdsDiffer(es: seq<Event>, a: nat, b: nat)
    requires IsConnection(es, a) && IsConnection(es, b) && Marks(es) < 0x1_0000_0000 && a != b
    ensures IdOf(es, a) != IdOf(es, b)
  {
    hide Marks;
    var x, y := if a < b then a else b, if a < b then b else a;
    MarksRise(es, x, y);
    MarksRise(es, y, y + 1);
    MarksGrow(es, y + 1);
  }

  /** Ids count connections from 1, in the order they were opened, and wrap at 2^32. */
  lemma IdsCount(es: seq<Event>, a: nat)
    requires a <= |es| && Marks(es) < 0xFFFF_FFFF
    ensures IdOf(es, a) == 1 + Marks(es[..a])
  {
    hide Marks;
    MarksGrow(es, a);
  }

  lemma FeedsConnection(es: seq<Event>)
    requires Feeds(es).Some?
    ensures IsConnection(es, Feeds(es).value) && Feeds(es).value < |es| - 1
  {
    OwnerTracked(es[..|es| - 1], es[|es| - 1].fd);
  }

  lemma {:induction false} FirstDataConnections(es: seq<Event>, a: nat)
    ensures a in FirstData(es) ==> IsConnection(es, a)
    ensures a !in FirstData(es) ==> Input(es, a) == []
  {
    hide Feeds, IsConnection;
    if |es| > 0 {
      var n := |es| - 1;
      FirstDataConnections(es[..n], a);
      if Feeds(es).Some? { FeedsConnection(es); }
      StillConnection(es, a);
    }
  }

  lemma StillConnection(es: seq<Event>, a: nat)
    requires |es| > 0
    ensures IsConnection(es[..|es| - 1], a) ==> IsConnection(es, a) && IdOf(es[..|es| - 1], a) == IdOf(es, a)
  {
    if a < |es| - 1 { assert es[..|es| - 1][..a] == es[..a]; }
  }

  /** The replayer's groups are the connections of the run, each once, in the order of their first byte. */
  ghost predicate Groups(g: (Conns, seq<u32>), es: seq<Event>) {
    Paired(g, FirstData(es)) && AllOk(g, es, FirstData(es))
  }

  /** One id and one group for each connection of `o`, and nothing else. */
  ghost predicate Paired(g: (Conns, seq<u32>), o: seq<nat>) {
    && |g.1| == |o|
    && (forall i, j :: 0 <= i < j < |o| ==> o[i] != o[j] && g.1[i] != g.1[j])
    && (forall c :: c in g.0 <==> c in g.1)
  }

  ghost predicate AllOk(g: (Conns, seq<u32>), es: seq<Event>, o: seq<nat>) {
    |g.1| >= |o| && forall i :: 0 <= i < |o| ==> GroupOk(g, es, i, o[i])
  }

  predicate GroupOk(g: (Conns, seq<u32>), es: seq<Event>, i: nat, a: nat)
    requires i < |g.1|
  {
    && IsConnection(es, a)
    && g.1[i] == IdOf(es, a)
    && g.1[i] in g.0 && g.0[g.1[i]] == Input(es, a)
  }

  /** What one event adds: the input of the connection it feeds. */
  lemma InputStep(es: seq<Event>, a: nat)
    requires |es| > 0
    ensures Feeds(es) != Some(a) ==> Input(es, a) == Input(es[..|es| - 1], a)
    ensures Feeds(es) == Some(a) ==> Input(es, a) == Input(es[..|es| - 1], a) + es[|es| - 1].data
  {
    hide Feeds;
  }

  lemma OldGroup(g: (Conns, seq<u32>), es: seq<Event>, i: nat, a: nat)
    requires |es| > 0 && i < |g.1| && GroupOk(g, es[..|es| - 1], i, a) && Feeds(es) != Some(a)
    ensures GroupOk(g, es, i, a)
  {
    hide Feeds, Input;
    InputStep(es, a);
    StillConnection(es, a);
  }

  lemma GrownGroup(g: (Conns, seq<u32>), es: seq<Event>, i: nat, a: nat)
    requires |es| > 0 && i < |g.1| && GroupOk(g, es[..|es| - 1], i, a) && Feeds(es) == Some(a)
    ensures GroupOk(AddChunk(g, Chunk(IdOf(es, a), es[|es| - 1].data)), es, i, a)
  {
    hide Feeds, Input, IdOf;
    InputStep(es, a);
    StillConnection(es, a);
  }

  /** Adding a record of one connection does not touch the group of another. */
  lemma OtherGroup(g: (Conns, seq<u32>), c: Chunk, es: seq<Event>, i: nat, a: nat)
    requires i < |g.1| && GroupOk(g, es, i, a) && g.1[i] != c.cid
    ensures GroupOk(AddChunk(g, c), es, i, a)
  {
    hide Input, IdOf;
  }

  /** More data for a connection that is already grouped. */
  lemma GrowGroup(g: (Conns, seq<u32>), es: seq<Event>, o: seq<nat>, k: nat)
    requires |es| > 0 && Paired(g, o) && AllOk(g, es[..|es| - 1], o) && k < |o| && Feeds(es) == Some(o[k])
    ensures var g' := AddChunk(g, Chunk(IdOf(es, o[k]), es[|es| - 1].data));
      Paired(g', o) && AllOk(g', es, o)
  {
    hide Feeds, GroupOk, IdOf;
    var c := Chunk(IdOf(es, o[k]), es[|es| - 1].data);
    GroupHere(g, es, k, o[k]);
    forall i | 0 <= i < |o| ensures GroupOk(AddChunk(g, c), es, i, o[i]) {
      if i == k {
        GrownGroup(g, es, k, o[k]);
      } else {
        OldGroup(g, es, i, o[i]);
        OtherGroup(g, c, es, i, o[i]);
      }
    }
  }

  lemma GroupHere(g: (Conns, seq<u32>), es: seq<Event>, i: nat, a: nat)
    requires |es| > 0 && i < |g.1| && GroupOk(g, es[..|es| - 1], i, a)
    ensures g.1[i] == IdOf(es, a) && g.1[i] in g.0 && IsConnection(es, a)
  {
    hide IdOf;
    StillConnection(es, a);
  }

  /** The groups so far survive the first data of a connection that is in none of them. */
  lemma KeptGroup(g: (Conns, seq<u32>), es: seq<Event>, i: nat, b: nat)
    requires |es| > 0 && i < |g.1| && GroupOk(g, es[..|es| - 1], i, b) && Marks(es) < 0x1_0000_0000
    requires Feeds(es).Some? && Feeds(es).value != b
    ensures g.1[i] != IdOf(es, Feeds(es).value)
    ensures GroupOk(AddChunk(g, Chunk(IdOf(es, Feeds(es).value), es[|es| - 1].data)), es, i, b)
  {
    hide Feeds, Marks, IdOf, IsConnection, GroupOk, AddChunk;
    var a := Feeds(es).value;
    FeedsConnection(es);
    GroupHere(g, es, i, b);
    IdsDiffer(es, b, a);
    OldGroup(g, es, i, b);
    OtherGroup(g, Chunk(IdOf(es, a), es[|es| - 1].data), es, i, b);
  }

  lemma PairedSnoc(g: (Conns, seq<u32>), o: seq<nat>, a: nat, c: Chunk)
    requires Paired(g, o) && a !in o && c.cid !in g.1
    ensures Paired(AddChunk(g, c), o + [a])
  {}

  /** The first data of a connection. */
  lemma NewGroup(g: (Conns, seq<u32>), es: seq<Event>, o: seq<nat>, a: nat)
    requires |es| > 0 && Marks(es) < 0x1_0000_0000 && Paired(g, o) && AllOk(g, es[..|es| - 1], o)
    requires Feeds(es) == Some(a) && a !in o && Input(es[..|es| - 1], a) == []
    ensures var g' := AddChunk(g, Chunk(IdOf(es, a), es[|es| - 1].data));
      Paired(g', o + [a]) && AllOk(g', es, o + [a])
  {
    hide Feeds, Marks, IdOf, IsConnection, GroupOk, AddChunk, Input;
    var c := Chunk(IdOf(es, a), es[|es| - 1].data);
    forall i | 0 <= i < |o| ensures g.1[i] != c.cid && GroupOk(AddChunk(g, c), es, i, o[i]) {
      KeptGroup(g, es, i, o[i]);
    }
    PairedSnoc(g, o, a, c);
    FirstGroup(g, es, a);
  }

  lemma FirstGroup(g: (Conns, seq<u32>), es: seq<Event>, a: nat)
    requires |es| > 0 && Feeds(es) == Some(a) && Input(es[..|es| - 1], a) == [] && IdOf(es, a) !in g.0
    ensures GroupOk(AddChunk(g, Chunk(IdOf(es, a), es[|es| - 1].data)), es, |g.1|, a)
  {
    hide Feeds, IdOf, Input, IsConnection;
    FeedsConnection(es);
    InputStep(es, a);
    var d := es[|es| - 1].data;
    assert [] + d == d;
  }

  lemma SameGroups(g: (Conns, seq<u32>), es: seq<Event>, o: seq<nat>)
    requires |es| > 0 && AllOk(g, es[..|es| - 1], o) && Feeds(es).None?
    ensures AllOk(g, es, o)
  {
    hide Feeds, GroupOk;
    forall i | 0 <= i < |o| ensures GroupOk(g, es, i, o[i]) { OldGroup(g, es, i, o[i]); }
  }

  lemma {:induction false} GroupsRun(es: seq<Event>)
    requires Marks(es) < 0x1_0000_0000
    ensures Groups(Group(Chunks(es)), es)
  {
    hide Feeds, AddChunk, IdOf, Paired, AllOk, Input, Group;
    if |es| == 0 {
      NothingGrouped();
      assert es == [];
    } else {
      var n := |es| - 1;
      var o, g := FirstData(es[..n]), Group(Chunks(es[..n]));
      GroupsRun(es[..n]);
      if Feeds(es).None? {
        SameGroups(g, es, o);
      } else {
        var a := Feeds(es).value;
        GroupSnoc(Chunks(es[..n]), Chunk(IdOf(es, a), es[n].data));
        if a in o {
          var k :| 0 <= k < |o| && o[k] == a;
          GrowGroup(g, es, o, k);
        } else {
          FirstDataConnections(es[..n], a);
          NewGroup(g, es, o, a);
        }
      }
    }
  }

  lemma NothingGrouped()
    ensures Groups(Group(Chunks([])), [])
  {}

  /**
   * Replaying a capture log, whole or cut off at any byte, gives every connection of the run up to
   * some moment exactly the bytes read on it, in first-data order; only a last partial record is lost.
   */
  lemma ReplayIsFaithful(es: seq<Event>, n: nat) returns (k: nat)
    requires ReadsFit(es) && Marks(es) < 0x1_0000_0000 && n <= |LogBytes(es)|
    ensures k <= |es| && Groups(Group(ReadChunks(LogBytes(es)[..n])), es[..k])
    ensures |LogBytes(es[..k])| <= n && (k < |es| ==> n < |LogBytes(es[..k + 1])|)
  {
    hide Groups, Group, Marks, LogBytes;
    k := CutLog(es, n);
    MarksGrow(es, k);
    GroupsRun(es[..k]);
  }

  // --------------------------------------------- a restarted process appends to the same file

  /** The bytes that a log holds under one id. */
  function Under(cs: seq<Chunk>, c: u32): seq<byte> {
    if |cs| == 0 then []
    else Under(cs[..|cs| - 1], c) + (if cs[|cs| - 1].cid == c then cs[|cs| - 1].data else [])
  }

  lemma {:induction false} UnderConcat(a: seq<Chunk>, b: seq<Chunk>, c: u32)
    ensures Under(a + b, c) == Under(a, c) + Under(b, c)
    decreases |b|
  {
    if |b| == 0 {
      assert a + b == a;
    } else {
      assert (a + b)[..|a + b| - 1] == a + b[..|b| - 1];
      UnderConcat(a, b[..|b| - 1], c);
    }
  }

  /** The replayer groups by id and by nothing else. */
  lemma {:induction false} GroupIsUnder(cs: seq<Chunk>, c: u32)
    ensures Under(cs, c) == if c in Group(cs).0 then Group(cs).0[c] else []
  {
    if |cs| > 0 { GroupIsUnder(cs[..|cs| - 1], c); }
  }

  /** Under the id of a connection a run's log holds exactly the bytes read on it. */
  lemma UnderIsInput(es: seq<Event>, a: nat)
    requires IsConnection(es, a) && Marks(es) < 0x1_0000_0000
    ensures Under(Chunks(es), IdOf(es, a)) == Input(es, a)
  {
    hide Under, Chunks, IdOf, Input, Marks, FirstData, Group;
    var g, c := Group(Chunks(es)), IdOf(es, a);
    GroupsRun(es);
    GroupIsUnder(Chunks(es), c);
    FirstDataConnections(es, a);
    if a in FirstData(es) {
      var i :| 0 <= i < |FirstData(es)| && FirstData(es)[i] == a;
      assert GroupOk(g, es, i, a);
    } else if c in g.0 {
      var i :| 0 <= i < |g.1| && g.1[i] == c;
      assert GroupOk(g, es, i, FirstData(es)[i]);
      IdsDiffer(es, FirstData(es)[i], a);
    }
  }

  /** What the replayer finds under one id after a restart: the bytes of both processes' connections. */
  lemma RestartUnder(es1: seq<Event>, es2: seq<Event>, c: u32)
    requires ReadsFit(es1) && ReadsFit(es2)
    ensures var g := Group(ReadChunks(LogBytes(es1) + LogBytes(es2)));
      Under(Chunks(es1), c) + Under(Chunks(es2), c) == if c in g.0 then g.0[c] else []
  {
    hide Under, Chunks, Group, ReadChunks, LogBytes;
    ReadBack(es1, LogBytes(es2));
    ReadBack(es2, []);
    NoRecords();
    assert LogBytes(es2) + [] == LogBytes(es2) && Chunks(es2) + [] == Chunks(es2);
    UnderConcat(Chunks(es1), Chunks(es2), c);
    GroupIsUnder(Chunks(es1) + Chunks(es2), c);
  }

  lemma NoRecords()
    ensures ReadChunks([]) == []
  {}

  /**
   * The ids restart at 1, so the n-th connection of a restarted process is taken for the n-th
   * connection of the process before it: the replayer sends both inputs over one connection.
   */
  lemma RestartMerges(es1: seq<Event>, a: nat, es2: seq<Event>, b: nat)
    requires ReadsFit(es1) && ReadsFit(es2) && Marks(es1) < 0x1_0000_0000 && Marks(es2) < 0x1_0000_0000
    requires IsConnection(es1, a) && IsConnection(es2, b) && Marks(es1[..a]) == Marks(es2[..b])
    requires Input(es1, a) != [] || Input(es2, b) != []
    ensures var g := Group(ReadChunks(LogBytes(es1) + LogBytes(es2)));
      IdOf(es1, a) in g.0 && g.0[IdOf(es1, a)] == Input(es1, a) + Input(es2, b)
  {
    hide Under, Chunks, Group, ReadChunks, LogBytes, Marks, Input;
    assert IdOf(es1, a) == IdOf(es2, b);
    UnderIsInput(es1, a);
    UnderIsInput(es2, b);
    RestartUnder(es1, es2, IdOf(es1, a));
  }

  /** The connection of the later process that shares connection `a`'s number. */
  predicate Counterpart(es1: seq<Event>, a: nat, es2: seq<Event>, b: nat) {
    a <= |es1| && IsConnection(es2, b) && Marks(es2[..b]) == Marks(es1[..a])
  }

  /** A connection keeps its own bytes across a restart exactly when its counterpart received none. */
  lemma RestartKeepsApart(es1: seq<Event>, a: nat, es2: seq<Event>)
    requires ReadsFit(es1) && ReadsFit(es2) && Marks(es1) < 0x1_0000_0000 && Marks(es2) < 0x1_0000_0000
    requires IsConnection(es1, a) && Input(es1, a) != []
    ensures var g := Group(ReadChunks(LogBytes(es1) + LogBytes(es2)));
      && IdOf(es1, a) in g.0
      && (g.0[IdOf(es1, a)] == Input(es1, a) <==> forall b: nat :: Counterpart(es1, a, es2, b) ==> Input(es2, b) == [])
  {
    hide Chunks, Group, ReadChunks, LogBytes, Marks, Input, Under, Counterpart, IdOf, ReadsFit;
    var c := IdOf(es1, a);
    UnderIsInput(es1, a);
    RestartUnder(es1, es2, c);
    CounterpartBytes(es1, a, es2);
    var x, u := Input(es1, a), Under(Chunks(es2), c);
    assert |x + u| == |x| + |u| && (u == [] ==> x + u == x);
  }

  lemma CounterpartBytes(es1: seq<Event>, a: nat, es2: seq<Event>)
    requires Marks(es1) < 0x1_0000_0000 && Marks(es2) < 0x1_0000_0000 && IsConnection(es1, a)
    ensures Under(Chunks(es2), IdOf(es1, a)) == []
      <==> forall b: nat :: Counterpart(es1, a, es2, b) ==> Input(es2, b) == []
  {
    hide Chunks, Marks, Input, Under;
    var c := IdOf(es1, a);
    if Under(Chunks(es2), c) != [] {
      var b := UnderHasConnection(es2, c);
      UnderIsInput(es2, b);
      SameOrdinal(es1, a, es2, b);
      assert Counterpart(es1, a, es2, b);
    } else {
      forall b: nat | Counterpart(es1, a, es2, b) ensures Input(es2, b) == [] { UnderIsInput(es2, b); }
    }
  }

  lemma SameOrdinal(es1: seq<Event>, a: nat, es2: seq<Event>, b: nat)
    requires IsConnection(es1, a) && IsConnection(es2, b) && IdOf(es1, a) == IdOf(es2, b)
    requires Marks(es1) < 0x1_0000_0000 && Marks(es2) < 0x1_0000_0000
    ensures Marks(es1[..a]) == Marks(es2[..b])
  {
    hide Marks;
    MarksRise(es1, a, a + 1);
    MarksGrow(es1, a + 1);
    MarksRise(es2, b, b + 1);
    MarksGrow(es2, b + 1);
  }

  lemma UnderHasConnection(es: seq<Event>, c: u32) returns (b: nat)
    requires Marks(es) < 0x1_0000_0000 && Under(Chunks(es), c) != []
    ensures IsConnection(es, b) && IdOf(es, b) == c
  {
    hide Under, Chunks, IdOf, Input, IsConnection, Marks, FirstData, Group;
    var g := Group(Chunks(es));
    GroupsRun(es);
    GroupIsUnder(Chunks(es), c);
    var i :| 0 <= i < |g.1| && g.1[i] == c;
    b := FirstData(es)[i];
    assert GroupOk(g, es, i, b);
  }
}
