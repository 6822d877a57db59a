/** The buffer-pushing and cursor-advancing code of state.rs, proved against `State`. */
module Codec {
  import opened Wrappers
  import opened Bytes
  import opened Text
  import opened State

  method EncodeWrite(o: seq<byte>, w: Write) returns (r: seq<byte>)
    ensures r == o + WriteBytes(w)
  {
    hide LE, Sat16, Sat32;
    r := o + LE(Sat16(|w.key|), 2);
    r := r + w.key;
    match w.val {
      case Some(v) =>
        r := r + [1];
        r := r + LE(Sat32(|v|), 4);
        r := r + v;
      case None =>
        r := r + [0];
    }
  }

  /** `Op::encode`. */
  method Encode(op: Op) returns (o: seq<byte>)
    ensures o == OpBytes(op)
  {
    hide LE, Sat16, Sat32, WriteBytes;
    var key := KeyOf(op.kind);
    o := [Tag(op.kind)];
    o := o + LE(op.client, 4);
    o := o + LE(op.seqno, 8);
    o := o + LE(Sat16(|key|), 2);
    o := o + key;
    ghost var head := o;
    assert head + BodyBytes(op.kind) == OpBytes(op);
    match op.kind {
      case Set(_, v) =>
        o := o + LE(Sat32(|v|), 4);
        o := o + v;
      case Incr(_, d) =>
        o := o + LE(Bits64(d), 8);
      case Get(_) =>
      case Del(_) =>
      case Txn(ws) =>
        o := o + LE(Sat16(|ws|), 2);
        var i := 0;
        assert ws[0..] == ws;
        while i < |ws|
          invariant 0 <= i <= |ws|
          invariant o + WritesBytes(ws[i..]) == head + BodyBytes(op.kind)
        {
          assert ws[i..][1..] == ws[i + 1..];
          o := EncodeWrite(o, ws[i]);
          i := i + 1;
        }
        assert ws[i..] == [];
    }
  }

  method DecodeStr(r: Reader) returns (k: Option<Str>)
    requires r.Valid()
    modifies r
    ensures r.Valid()
    ensures k.Some? <==> GetStr(old(r.Rest())).Some?
    ensures k.Some? ==> (k.value, r.Rest()) == GetStr(old(r.Rest())).value
  {
    hide GetWord, Utf8;
    var n := r.U16();
    if n.None? { return None; }
    var b := r.Take(n.value);
    if b.None? || !Utf8(b.value) { return None; }
    k := b;
  }

  method DecodeBlob(r: Reader) returns (v: Option<seq<byte>>)
    requires r.Valid()
    modifies r
    ensures r.Valid()
    ensures v.Some? <==> GetBlob(old(r.Rest())).Some?
    ensures v.Some? ==> (v.value, r.Rest()) == GetBlob(old(r.Rest())).value
  {
    hide GetWord;
    var n := r.U32();
    if n.None? { return None; }
    v := r.Take(n.value);
  }

  method DecodeWrite(r: Reader) returns (w: Option<Write>)
    requires r.Valid()
    modifies r
    ensures r.Valid()
    ensures w.Some? <==> GetWrite(old(r.Rest())).Some?
    ensures w.Some? ==> (w.value, r.Rest()) == GetWrite(old(r.Rest())).value
  {
    hide GetStr, GetBlob, KeyFits;
    var k := DecodeStr(r);
    if k.None? { return None; }
    var flag := r.U8();
    if flag.None? { return None; }
    if flag.value == 1 {
      var v := DecodeBlob(r);
      if v.None? { return None; }
      w := Some(Write(k.value, Some(v.value)));
    } else {
      w := Some(Write(k.value, None));
    }
  }

  /** The loop over a transaction's writes: the first short write makes the whole decode fail. */
  method DecodeWrites(r: Reader, n: nat) returns (ws: Option<seq<Write>>)
    requires r.Valid()
    modifies r
    ensures r.Valid()
    ensures ws.Some? <==> GetWrites(n, old(r.Rest())).Some?
    ensures ws.Some? ==> (ws.value, r.Rest()) == GetWrites(n, old(r.Rest())).value
  {
    hide GetWrite;
    ghost var start := r.Rest();
    var got: seq<Write> := [];
    var i := 0;
    while i < n
      invariant 0 <= i <= n && r.Valid()
      invariant GetWrites(n, start).Some? <==> GetWrites(n - i, r.Rest()).Some?
      invariant GetWrites(n, start).Some? ==>
        GetWrites(n, start).value.0 == got + GetWrites(n - i, r.Rest()).value.0
        && GetWrites(n, start).value.1 == GetWrites(n - i, r.Rest()).value.1
    {
      var w := DecodeWrite(r);
      if w.None? { return None; }
      got := got + [w.value];
      i := i + 1;
    }
    assert got + [] == got;
    ws := Some(got);
  }

  /** `Op::decode`. */
  method Decode(bytes: seq<byte>) returns (op: Option<Op>)
    ensures op == OpOf(bytes)
  {
    hide GetWord, GetU16, GetU32, GetU64, GetStr, GetBlob, GetWrites, GetU8;
    var r := new Reader(bytes);
    var tag := r.U8();
    if tag.None? { return None; }
    var client := r.U32();
    if client.None? { return None; }
    var seqno := r.U64();
    if seqno.None? { return None; }
    var key := DecodeStr(r);
    if key.None? { return None; }
    var kind: OpKind;
    if tag.value == 0 {
      var v := DecodeBlob(r);
      if v.None? { return None; }
      kind := Set(key.value, v.value);
    } else if tag.value == 1 {
      var d := r.U64();
      if d.None? { return None; }
      kind := Incr(key.value, Signed64(d.value));
    } else if tag.value == 2 {
      kind := Get(key.value);
    } else if tag.value == 3 {
      kind := Del(key.value);
    } else if tag.value == 4 {
      var n := r.U16();
      if n.None? { return None; }
      var ws := DecodeWrites(r, n.value);
      if ws.None? { return None; }
      kind := Txn(ws.value);
    } else {
      return None;
    }
    op := Some(Op(client.value, seqno.value, kind));
  }

  /** `KvStore::restore`: stops at the first short field, skips keys that are not text. */
  method ReadStore(bytes: seq<byte>) returns (m: Kv)
    ensures m == KvOf(bytes)
  {
    hide GetU32, ReadEntries;
    var r := new Reader(bytes);
    var n := r.U32();
    if n.None? {
      return map[];
    }
    m := DecodeEntries(r, n.value);
  }

  method DecodeEntries(r: Reader, n: nat) returns (m: Kv)
    requires r.Valid()
    modifies r
    ensures m == ReadEntries(map[], n, old(r.Rest()))
  {
    hide GetEntry, PutEntry, ReadEntries;
    ghost var all := ReadEntries(map[], n, r.Rest());
    m := map[];
    var i := 0;
    while i < n
      invariant 0 <= i <= n && r.Valid()
      invariant all == ReadEntries(m, n - i, r.Rest())
    {
      EntriesUnfold(m, n - i, r.Rest());
      var e := DecodeEntry(r);
      if e.None? { return; }
      m := PutEntry(m, e.value.0, e.value.1);
      i := i + 1;
    }
    EntriesUnfold(m, 0, r.Rest());
  }

  lemma EntriesUnfold(m: Kv, n: nat, b: seq<byte>)
    ensures n == 0 || GetEntry(b).None? ==> ReadEntries(m, n, b) == m
    ensures n > 0 && GetEntry(b).Some? ==>
      var (k, v, rest) := GetEntry(b).value;
      ReadEntries(m, n, b) == ReadEntries(PutEntry(m, k, v), n - 1, rest)
  {
    hide GetEntry, PutEntry;
  }

  /** The `KvStore` of state.rs. */
  class KvStore {
    var m: Kv

    constructor ()
      ensures m == map[]
    {
      m := map[];
    }

    constructor Restore(bytes: seq<byte>)
      ensures m == KvOf(bytes)
    {
      var contents := ReadStore(bytes);
      m := contents;
    }

    /** `KvStore::apply`. */
    method Apply(op: Op) returns (out: Output)
      modifies this
      ensures (m, out) == ApplyOp(old(m), op.kind)
    {
      hide ParseText, Decimal;
      match op.kind {
        case Set(k, v) =>
          m := m[k := v];
          out := Done;
        case Incr(k, d) =>
          var cur := IntAt(m, k);
          var next := Wrap64(cur + d);
          m := m[k := Decimal(next)];
          out := Value(Some(next));
        case Del(k) =>
          out := Value(Some(if k in m then 1 else 0));
          m := m - {k};
        case Get(k) =>
          out := Data(if k in m then Some(m[k]) else None);
        case Txn(ws) =>
          var i := 0;
          while i < |ws|
            invariant 0 <= i <= |ws|
            invariant m == ApplyWrites(old(m), ws[..i])
          {
            assert ws[..i + 1][..i] == ws[..i];
            match ws[i].val {
              case Some(v) => m := m[ws[i].key := v];
              case None => m := m - {ws[i].key};
            }
            i := i + 1;
          }
          assert ws[..i] == ws;
          out := Value(Some(Wrap64(|ws|)));
      }
    }

    /** `KvStore::snapshot`: the entries in key order. */
    method Snapshot() returns (o: seq<byte>)
      ensures o == KvBytes(m)
    {
      hide LE, Sat16, Sat32;
      var ks := KeysInOrder(m);
      hide KeysInOrder;
      o := LE(Sat32(|m|), 4);
      var i := 0;
      assert ks[0..] == ks;
      while i < |ks|
        invariant 0 <= i <= |ks|
        invariant forall k :: k in ks ==> k in m
        invariant o + EntriesBytes(m, ks[i..]) == LE(Sat32(|m|), 4) + EntriesBytes(m, ks)
      {
        var k := ks[i];
        assert ks[i..][1..] == ks[i + 1..] && ks[i..][0] == k;
        assert (o + EntryBytes(k, m[k])) + EntriesBytes(m, ks[i + 1..]) == o + EntriesBytes(m, ks[i..]);
        o := o + EntryBytes(k, m[k]);
        i := i + 1;
      }
      assert ks[i..] == [];
    }
  }

  method DecodeEntry(r: Reader) returns (e: Option<(seq<byte>, seq<byte>)>)
    requires r.Valid()
    modifies r
    ensures r.Valid()
    ensures e.Some? <==> GetEntry(old(r.Rest())).Some?
    ensures e.Some? ==> (e.value.0, e.value.1, r.Rest()) == GetEntry(old(r.Rest())).value
  {
    hide GetWord;
    var kn := r.U16();
    if kn.None? { return None; }
    var k := r.Take(kn.value);
    if k.None? { return None; }
    var v := DecodeBlob(r);
    if v.None? { return None; }
    e := Some((k.value, v.value));
  }
}
