/** The durable store as bytes: an operation log and a snapshot file (durable.rs). */
module Durable {
  import opened Wrappers
  import opened Bytes

  /** One log record, before its operation bytes are decoded. */
  datatype Raw = Raw(ts: u64, body: seq<byte>)

  /** The three files of the store directory; `None` is an absent file. */
  datatype Disk = Disk(snap: Option<seq<byte>>, tmp: Option<seq<byte>>, log: Option<seq<byte>>)

  function LogOf(d: Disk): seq<byte> { if d.log.Some? then d.log.value else [] }

  // What one system call does to the disk.
  function PutTmp(d: Disk, bytes: seq<byte>): Disk { d.(tmp := Some(bytes)) }
  function RenameTmp(d: Disk): Disk { d.(snap := d.tmp, tmp := None) }
  function DropLog(d: Disk): Disk { d.(log := None) }
  function AppendLog(d: Disk, bytes: seq<byte>): Disk { d.(log := Some(LogOf(d) + bytes)) }

  /** `ts(8) len(4) op_bytes`. */
  function RawBytes(r: Raw): (b: seq<byte>)
    ensures |b| == 12 + |r.body|
  {
    LE(r.ts, 8) + (LE(Sat32(|r.body|), 4) + r.body)
  }

  /** Where the fields of a log record stand. */
  lemma RecordLayout(r: Raw)
    ensures var b, n := RawBytes(r), if |r.body| <= 0xFFFF_FFFF then |r.body| else 0xFFFF_FFFF;
      b[..8] == LE(r.ts, 8) && b[8..12] == LE(n, 4) && b[12..] == r.body
  {
    hide LE;
    var b, rest := RawBytes(r), LE(Sat32(|r.body|), 4) + r.body;
    assert b[8..] == rest;
    assert b[8..12] == rest[..4] && b[12..] == rest[4..];
  }

  function LogBytes(rs: seq<Raw>): seq<byte> {
    if |rs| == 0 then [] else RawBytes(rs[0]) + LogBytes(rs[1..])
  }

  /** The record at the front of `b` and what follows it; `None` on a short header or body. */
  function GetRaw(b: seq<byte>): (r: Option<(Raw, seq<byte>)>)
    ensures r.Some? ==> 12 + |r.value.0.body| + |r.value.1| == |b|
  {
    var (ts, b1) :- GetU64(b);
    var (n, b2) :- GetU32(b1);
    var (body, b3) :- Split(b2, n);
    Some((Raw(ts, body), b3))
  }

  /** `read_log`: whole records in order, up to the first that is cut short. */
  function ReadRecs(b: seq<byte>): seq<Raw>
    decreases |b|
  {
    if GetRaw(b).None? then [] else [GetRaw(b).value.0] + ReadRecs(GetRaw(b).value.1)
  }

  predicate RawFits(r: Raw) { |r.body| <= MAX_U32 }
  predicate RawsFit(rs: seq<Raw>) { forall i :: 0 <= i < |rs| ==> RawFits(rs[i]) }

  /** A record cut off by a crash in the middle of its append. */
  predicate CutFrom(t: seq<byte>, r: Raw) { |t| < |RawBytes(r)| && t == RawBytes(r)[..|t|] }

  ghost predicate Torn(t: seq<byte>) { exists r: Raw :: RawFits(r) && CutFrom(t, r) }

  lemma GetRawAppend(r: Raw, rest: seq<byte>)
    requires RawFits(r)
    ensures GetRaw(RawBytes(r) + rest) == Some((r, rest))
  {
    hide LE, GetU64, GetU32, Split;
    var t1 := LE(Sat32(|r.body|), 4) + (r.body + rest);
    assert RawBytes(r) + rest == LE(r.ts, 8) + t1;
    GetU64Append(r.ts, t1);
    GetU32Append(|r.body|, r.body + rest);
    SplitAppend(r.body, rest);
  }

  lemma GetRawCut(t: seq<byte>, r: Raw)
    requires RawFits(r) && CutFrom(t, r)
    ensures GetRaw(t).None?
  {
    if |t| >= 12 {
      var h := LE(Sat32(|r.body|), 4);
      assert t[8..] == h + r.body[..|t| - 12] && t == LE(r.ts, 8) + t[8..];
      hide LE, GetU64, GetU32;
      GetU64Append(r.ts, t[8..]);
      GetU32Append(|r.body|, r.body[..|t| - 12]);
    }
  }

  lemma {:induction false} LogConcat(a: seq<Raw>, b: seq<Raw>)
    ensures LogBytes(a + b) == LogBytes(a) + LogBytes(b)
  {
    hide RawBytes;
    if |a| == 0 {
      assert a + b == b;
    } else {
      assert (a + b)[1..] == a[1..] + b;
      LogConcat(a[1..], b);
    }
  }

  /** Whole records followed by anything are read back in front of what is read from the rest. */
  lemma {:induction false} ReadAppended(rs: seq<Raw>, t: seq<byte>)
    requires RawsFit(rs)
    ensures ReadRecs(LogBytes(rs) + t) == rs + ReadRecs(t)
  {
    hide GetRaw, RawBytes, LE;
    if |rs| == 0 {
      assert LogBytes(rs) + t == t;
    } else {
      var rest := LogBytes(rs[1..]) + t;
      assert LogBytes(rs) + t == RawBytes(rs[0]) + rest;
      GetRawAppend(rs[0], rest);
      ReadAppended(rs[1..], t);
      assert [rs[0]] + (rs[1..] + ReadRecs(t)) == rs + ReadRecs(t);
    }
  }

  lemma ReadTorn(rs: seq<Raw>, t: seq<byte>)
    requires RawsFit(rs) && Torn(t)
    ensures ReadRecs(LogBytes(rs) + t) == rs
  {
    hide GetRaw, CutFrom;
    ReadAppended(rs, t);
    var r: Raw :| RawFits(r) && CutFrom(t, r);
    GetRawCut(t, r);
  }

  /** On any byte prefix of an appended log, `read_log` returns exactly the records wholly inside it. */
  lemma {:induction false} ReadLogPrefix(rs: seq<Raw>, n: nat) returns (k: nat)
    requires RawsFit(rs) && n <= |LogBytes(rs)|
    ensures k <= |rs| && ReadRecs(LogBytes(rs)[..n]) == rs[..k]
    ensures |LogBytes(rs[..k])| <= n
    ensures k < |rs| ==> n < |LogBytes(rs[..k + 1])|
  {
    hide GetRaw, RawBytes;
    var p := LogBytes(rs)[..n];
    if |rs| == 0 {
      k := 0;
      ReadAppended([], p);
      assert p == [] && GetRaw(p).None?;
    } else {
      var w := |RawBytes(rs[0])|;
      if n < w {
        k := 0;
        assert p == RawBytes(rs[0])[..|p|];
        assert CutFrom(p, rs[0]);
        GetRawCut(p, rs[0]);
        assert rs[..1][1..] == [] && LogBytes(rs[..1]) == RawBytes(rs[0]);
      } else {
        var j := ReadLogPrefix(rs[1..], n - w);
        var q := LogBytes(rs[1..])[..n - w];
        assert p == RawBytes(rs[0]) + q;
        GetRawAppend(rs[0], q);
        k := j + 1;
        assert rs[..k][1..] == rs[1..][..j] && rs[..k][0] == rs[0];
        assert [rs[0]] + rs[1..][..j] == rs[..k];
        if k < |rs| {
          assert rs[..k + 1][1..] == rs[1..][..j + 1] && rs[..k + 1][0] == rs[0];
        }
      }
    }
  }

  /** A record appended behind a torn tail is misread as soon as its first byte differs from the tail's. */
  lemma AppendBehindTorn(rs: seq<Raw>, t: seq<byte>, r: Raw)
    requires RawsFit(rs) && RawFits(r) && |t| > 0 && r.ts % 256 != t[0]
    ensures ReadRecs(LogBytes(rs) + (t + RawBytes(r))) != rs + [r]
  {
    var u := t + RawBytes(r);
    ReadAppended(rs, u);
    assert u[0] == t[0];
    hide ReadRecs, RawBytes;
    if ReadRecs(LogBytes(rs) + u) == rs + [r] {
      assert (rs + ReadRecs(u))[|rs|..] == ReadRecs(u) && (rs + [r])[|rs|..] == [r];
      FirstByteOfTs(u, r);
    }
  }

  lemma GetRawTs(u: seq<byte>)
    requires GetRaw(u).Some?
    ensures GetRaw(u).value.0.ts % 256 == u[0]
  {
    assert GetRaw(u).value.0.ts == FromLE(u[..8]);
  }

  lemma FirstByteOfTs(u: seq<byte>, r: Raw)
    requires |u| > 0 && ReadRecs(u) == [r]
    ensures r.ts % 256 == u[0]
  {
    hide GetRaw;
    assert ReadRecs(u)[0] == GetRaw(u).value.0;
    GetRawTs(u);
  }
}
