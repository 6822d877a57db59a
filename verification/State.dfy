/** Operations, their wire format, and the key-value store they act on (state.rs). */
module State {
  import opened Wrappers
  import opened Bytes
  import opened Text
  import opened Ordering

  datatype Write = Write(key: Str, val: Option<seq<byte>>)

  datatype OpKind =
    | Set(key: Str, val: seq<byte>)
    | Incr(key: Str, delta: i64)
    | Del(key: Str)
    | Get(key: Str)
    | Txn(writes: seq<Write>)

  datatype Op = Op(client: u32, seqno: u64, kind: OpKind)

  datatype Output = Done | Value(n: Option<i64>) | Data(bytes: Option<seq<byte>>) | Suppressed

  // ------------------------------------------------------------------ encoding

  function Tag(kind: OpKind): byte {
    match kind
    case Set(_, _) => 0
    case Incr(_, _) => 1
    case Get(_) => 2
    case Del(_) => 3
    case Txn(_) => 4
  }

  function KeyOf(kind: OpKind): Str {
    if kind.Txn? then [] else kind.key
  }

  function WriteBytes(w: Write): (r: seq<byte>)
    ensures |r| > 0
  {
    LE(Sat16(|w.key|), 2) + (w.key +
      (if w.val.None? then [0]
       else [1] + (LE(Sat32(|w.val.value|), 4) + w.val.value)))
  }

  function WritesBytes(ws: seq<Write>): seq<byte> {
    if |ws| == 0 then [] else WriteBytes(ws[0]) + WritesBytes(ws[1..])
  }

  function BodyBytes(kind: OpKind): seq<byte> {
    match kind
    case Set(_, v) => LE(Sat32(|v|), 4) + v
    case Incr(_, d) => LE(Bits64(d), 8)
    case Get(_) => []
    case Del(_) => []
    case Txn(ws) => LE(Sat16(|ws|), 2) + WritesBytes(ws)
  }

  /** `tag(1) client(4) seq(8) keylen(2) key body`. */
  function OpBytes(op: Op): (r: seq<byte>)
    ensures |r| >= 15
  {
    [Tag(op.kind)] + (LE(op.client, 4) + (LE(op.seqno, 8) +
      (LE(Sat16(|KeyOf(op.kind)|), 2) + (KeyOf(op.kind) + BodyBytes(op.kind)))))
  }

  /** Where the fields of an encoded operation stand, and the numbers of the kinds. */
  lemma OpLayout(op: Op)
    ensures var b, k := OpBytes(op), if op.kind.Txn? then [] else op.kind.key;
      && (op.kind.Set? ==> b[0] == 0) && (op.kind.Incr? ==> b[0] == 1) && (op.kind.Get? ==> b[0] == 2)
      && (op.kind.Del? ==> b[0] == 3) && (op.kind.Txn? ==> b[0] == 4)
      && b[1..5] == LE(op.client, 4) && b[5..13] == LE(op.seqno, 8)
      && b[13..15] == (if |k| <= 0xFFFF then LE(|k|, 2) else LE(0xFFFF, 2))
      && |b| >= 15 + |k| && b[15..15 + |k|] == k
  {
    hide LE, BodyBytes;
    var k := KeyOf(op.kind);
    var b := OpBytes(op);
    var t3 := k + BodyBytes(op.kind);
    var t2 := LE(Sat16(|k|), 2) + t3;
    var t1 := LE(op.seqno, 8) + t2;
    assert b[1..] == LE(op.client, 4) + t1;
    assert b[5..] == t1 && b[13..] == t2 && b[15..] == t3;
  }

  /** A write of a transaction: key length, key, and 1 with a value or 0 for a delete. */
  lemma WriteLayout(w: Write)
    requires |w.key| <= 0xFFFF && (w.val.Some? ==> |w.val.value| <= 0xFFFF_FFFF)
    ensures var b, n := WriteBytes(w), 2 + |w.key|;
      && |b| > n && b[..2] == LE(|w.key|, 2) && b[2..n] == w.key
      && (w.val.None? ==> b[n..] == [0])
      && (w.val.Some? ==>
          |b| >= n + 5 && b[n] == 1 && b[n + 1..n + 5] == LE(|w.val.value|, 4) && b[n + 5..] == w.val.value)
  {
    hide LE;
    var tail := if w.val.None? then [0] else [1] + (LE(Sat32(|w.val.value|), 4) + w.val.value);
    assert WriteBytes(w)[2 + |w.key|..] == tail;
  }

  // ------------------------------------------------------------------ decoding

  function GetStr(b: seq<byte>): (r: Option<(Str, seq<byte>)>)
    ensures r.Some? ==> KeyFits(r.value.0) && |r.value.1| + 2 <= |b|
  {
    var (n, b1) :- GetU16(b);
    var (k, b2) :- Split(b1, n);
    if Utf8(k) then Some((k, b2)) else None
  }

  function GetBlob(b: seq<byte>): (r: Option<(seq<byte>, seq<byte>)>)
    ensures r.Some? ==> |r.value.0| <= MAX_U32 && |r.value.1| + 4 <= |b|
  {
    var (n, b1) :- GetU32(b);
    Split(b1, n)
  }

  function GetWrite(b: seq<byte>): (r: Option<(Write, seq<byte>)>)
    ensures r.Some? ==> WriteFits(r.value.0)
  {
    var (k, b1) :- GetStr(b);
    var (flag, b2) :- GetU8(b1);
    if flag == 1 then
      var (v, b3) :- GetBlob(b2);
      Some((Write(k, Some(v)), b3))
    else
      Some((Write(k, None), b2))
  }

  function GetWrites(n: nat, b: seq<byte>): Option<(seq<Write>, seq<byte>)> {
    if n == 0 then Some(([], b))
    else
      var (w, b1) :- GetWrite(b);
      var (ws, b2) :- GetWrites(n - 1, b1);
      Some(([w] + ws, b2))
  }

  function GetKind(tag: byte, key: Str, b: seq<byte>): Option<OpKind> {
    if tag == 0 then
      var (v, _) :- GetBlob(b);
      Some(Set(key, v))
    else if tag == 1 then
      var (n, _) :- GetU64(b);
      Some(Incr(key, Signed64(n)))
    else if tag == 2 then Some(Get(key))
    else if tag == 3 then Some(Del(key))
    else if tag == 4 then
      var (n, b1) :- GetU16(b);
      var (ws, _) :- GetWrites(n, b1);
      Some(Txn(ws))
    else None
  }

  /** `Op::decode`: the operation at the front of `b`; bytes after it are ignored. */
  function OpOf(b: seq<byte>): Option<Op> {
    var (tag, b1) :- GetU8(b);
    var (client, b2) :- GetU32(b1);
    var (seqno, b3) :- GetU64(b2);
    var (key, b4) :- GetStr(b3);
    var kind :- GetKind(tag, key, b4);
    Some(Op(client, seqno, kind))
  }

  // ------------------------------------------------------- encode/decode inverse

  /** A key of the format: text of at most `u16::MAX` bytes. */
  predicate KeyFits(k: Str) { Utf8(k) && |k| <= MAX_U16 }

  predicate WriteFits(w: Write) {
    KeyFits(w.key) && (w.val.Some? ==> |w.val.value| <= MAX_U32)
  }

  /** The lengths the wire format can hold. */
  predicate OpFits(op: Op) {
    match op.kind
    case Set(k, v) => KeyFits(k) && |v| <= MAX_U32
    case Incr(k, _) => KeyFits(k)
    case Get(k) => KeyFits(k)
    case Del(k) => KeyFits(k)
    case Txn(ws) => |ws| <= MAX_U16 && forall i :: 0 <= i < |ws| ==> WriteFits(ws[i])
  }

  lemma Assoc(a: seq<byte>, b: seq<byte>, c: seq<byte>)
    ensures (a + b) + c == a + (b + c)
  {}

  lemma GetStrAppend(k: Str, rest: seq<byte>)
    requires KeyFits(k)
    ensures GetStr(LE(Sat16(|k|), 2) + (k + rest)) == Some((k, rest))
  {
    GetU16Append(|k|, k + rest);
    SplitAppend(k, rest);
  }

  lemma GetBlobAppend(v: seq<byte>, rest: seq<byte>)
    requires |v| <= MAX_U32
    ensures GetBlob(LE(Sat32(|v|), 4) + (v + rest)) == Some((v, rest))
  {
    GetU32Append(|v|, v + rest);
    SplitAppend(v, rest);
  }

  lemma GetWriteAppend(w: Write, rest: seq<byte>)
    requires WriteFits(w)
    ensures GetWrite(WriteBytes(w) + rest) == Some((w, rest))
  {
    hide LE, Split, Utf8, GetStr, GetBlob;
    var tail := if w.val.None? then [0] else [1] + (LE(Sat32(|w.val.value|), 4) + w.val.value);
    assert WriteBytes(w) + rest == LE(Sat16(|w.key|), 2) + (w.key + (tail + rest));
    GetStrAppend(w.key, tail + rest);
    if w.val.Some? {
      var v := w.val.value;
      assert (tail + rest)[0] == 1;
      assert (tail + rest)[1..] == LE(Sat32(|v|), 4) + (v + rest);
      GetBlobAppend(v, rest);
    } else {
      assert (tail + rest)[0] == 0;
      assert (tail + rest)[1..] == rest;
    }
  }

  lemma {:induction false} GetWritesAppend(ws: seq<Write>, rest: seq<byte>)
    requires forall i :: 0 <= i < |ws| ==> WriteFits(ws[i])
    ensures GetWrites(|ws|, WritesBytes(ws) + rest) == Some((ws, rest))
  {
    if |ws| == 0 {
      assert WritesBytes(ws) + rest == rest;
    } else {
      Assoc(WriteBytes(ws[0]), WritesBytes(ws[1..]), rest);
      GetWriteAppend(ws[0], WritesBytes(ws[1..]) + rest);
      GetWritesAppend(ws[1..], rest);
      assert [ws[0]] + ws[1..] == ws;
    }
  }

  lemma GetKindAppend(op: Op, rest: seq<byte>)
    requires OpFits(op)
    ensures GetKind(Tag(op.kind), KeyOf(op.kind), BodyBytes(op.kind) + rest) == Some(op.kind)
  {
    match op.kind
    case Set(k, v) =>
      Assoc(LE(Sat32(|v|), 4), v, rest);
      GetBlobAppend(v, rest);
    case Incr(k, d) => GetU64Append(Bits64(d), rest);
    case Get(k) =>
    case Del(k) =>
    case Txn(ws) =>
      Assoc(LE(Sat16(|ws|), 2), WritesBytes(ws), rest);
      GetU16Append(|ws|, WritesBytes(ws) + rest);
      GetWritesAppend(ws, rest);
  }

  lemma DecodeEncode(op: Op, rest: seq<byte>)
    requires OpFits(op)
    ensures OpOf(OpBytes(op) + rest) == Some(op)
  {
    hide LE, FromLE, Split, GetWord, GetU32, GetU64, GetStr, GetKind, BodyBytes;
    var k := KeyOf(op.kind);
    var t4 := k + (BodyBytes(op.kind) + rest);
    var t3 := LE(Sat16(|k|), 2) + t4;
    var t2 := LE(op.seqno, 8) + t3;
    var t1 := LE(op.client, 4) + t2;
    assert OpBytes(op) + rest == [Tag(op.kind)] + t1;
    assert ([Tag(op.kind)] + t1)[1..] == t1;
    GetU32Append(op.client, t2);
    GetU64Append(op.seqno, t3);
    GetStrAppend(k, BodyBytes(op.kind) + rest);
    GetKindAppend(op, rest);
  }

  lemma {:induction false} DecodedWritesFit(n: nat, b: seq<byte>)
    requires GetWrites(n, b).Some?
    ensures |GetWrites(n, b).value.0| == n
    ensures forall i :: 0 <= i < n ==> WriteFits(GetWrites(n, b).value.0[i])
  {
    hide GetWrite, KeyFits, WriteFits;
    if n > 0 { DecodedWritesFit(n - 1, GetWrite(b).value.1); }
  }

  lemma DecodedOpFits(b: seq<byte>)
    requires OpOf(b).Some?
    ensures OpFits(OpOf(b).value)
  {
    var b1 := GetU8(b).value.1;
    var b3 := GetU64(GetU32(b1).value.1).value.1;
    var b4 := GetStr(b3).value.1;
    if GetU8(b).value.0 == 4 {
      var (n, b5) := GetU16(b4).value;
      DecodedWritesFit(n, b5);
    }
  }

  /** Decoding inverts encoding, whatever follows, exactly for the operations whose lengths fit. */
  lemma OpRoundTrip(op: Op)
    ensures OpFits(op) <==> forall rest :: OpOf(OpBytes(op) + rest) == Some(op)
  {
    if OpFits(op) {
      forall rest ensures OpOf(OpBytes(op) + rest) == Some(op) { DecodeEncode(op, rest); }
    } else if forall rest :: OpOf(OpBytes(op) + rest) == Some(op) {
      DecodedOpFits(OpBytes(op) + []);
      assert false;
    }
  }

  // --------------------------------------------------------------- the KV store

  type Kv = map<Str, seq<byte>>

  function IntAt(m: Kv, k: Str): i64 {
    if k in m && ParseText(m[k]).Some? then ParseText(m[k]).value else 0
  }

  function ApplyWrite(m: Kv, w: Write): Kv {
    if w.val.Some? then m[w.key := w.val.value] else m - {w.key}
  }

  function ApplyWrites(m: Kv, ws: seq<Write>): Kv {
    if |ws| == 0 then m else ApplyWrite(ApplyWrites(m, ws[..|ws| - 1]), ws[|ws| - 1])
  }

  function IncrValue(m: Kv, k: Str, d: i64): i64 { Wrap64(IntAt(m, k) + d) }

  /** `KvStore::apply`: the new contents and the reply. */
  function ApplyOp(m: Kv, kind: OpKind): (Kv, Output) {
    match kind
    case Set(k, v) => (m[k := v], Done)
    case Incr(k, d) => (m[k := Decimal(IncrValue(m, k, d))], Value(Some(IncrValue(m, k, d))))
    case Del(k) => (m - {k}, Value(Some(if k in m then 1 else 0)))
    case Get(k) => (m, Data(if k in m then Some(m[k]) else None))
    case Txn(ws) => (ApplyWrites(m, ws), Value(Some(Wrap64(|ws|))))
  }

  /** Key `s` counts `n` increments: absent at 0, decimal text otherwise. */
  predicate CounterAt(m: Kv, s: Str, n: nat) {
    (s in m <==> n > 0) && (s in m ==> m[s] == Decimal(n))
  }

  /** An increment turns a counter at `n` into one at `n + 1` and leaves other keys alone. */
  lemma IncrCounter(m: Kv, s: Str, n: nat)
    requires CounterAt(m, s, n) && n + 1 < 0x8000_0000_0000_0000
    ensures IncrValue(m, s, 1) == n + 1
    ensures var m' := ApplyOp(m, Incr(s, 1)).0;
      CounterAt(m', s, n + 1) && m'.Keys == m.Keys + {s} && forall t :: t in m && t != s ==> m'[t] == m[t]
  {
    hide ParseText, Decimal;
    if n > 0 { ParseDecimal(n); }
    assert IntAt(m, s) == n;
  }

  // ------------------------------------------------ what each operation does, key by key

  /** Every key but `k` keeps its presence and its value. */
  ghost predicate SameElsewhere(m: Kv, m': Kv, k: Str) {
    forall x :: x != k ==> (x in m' <==> x in m) && (x in m ==> m'[x] == m[x])
  }

  lemma SetLaw(m: Kv, k: Str, v: seq<byte>)
    ensures var (m', out) := ApplyOp(m, Set(k, v));
      k in m' && m'[k] == v && SameElsewhere(m, m', k) && out == Done
  {}

  /** A deleted key is gone, the others are untouched, and the reply is 1 exactly if it was there. */
  lemma DelLaw(m: Kv, k: Str)
    ensures var (m', out) := ApplyOp(m, Del(k));
      && k !in m' && SameElsewhere(m, m', k)
      && (out == Value(Some(1)) <==> k in m) && (out == Value(Some(0)) <==> k !in m)
  {}

  /** A read changes nothing and returns exactly what is stored. */
  lemma GetLaw(m: Kv, k: Str)
    ensures var (m', out) := ApplyOp(m, Get(k));
      m' == m && out == Data(if k in m then Some(m[k]) else None)
  {}

  /** An increment adds to the stored integer, or to 0 if there is none, modulo 2^64, and answers the sum. */
  lemma IncrLaw(m: Kv, k: Str, d: i64)
    ensures var (m', out) := ApplyOp(m, Incr(k, d));
      var before := if k in m && ParseText(m[k]).Some? then ParseText(m[k]).value else 0;
      && SameElsewhere(m, m', k) && k in m' && out.Value? && out.n.Some? && m'[k] == Decimal(out.n.value)
      && ParseText(m'[k]) == Some(out.n.value)
      && (out.n.value - (before + d)) % 0x1_0000_0000_0000_0000 == 0
      && (-0x8000_0000_0000_0000 <= before + d < 0x8000_0000_0000_0000 ==> out.n.value == before + d)
  {
    hide ParseText, Decimal;
    ParseDecimal(IncrValue(m, k, d));
  }

  /** Write `j` is the last one to key `k`. */
  predicate LastTo(ws: seq<Write>, j: nat, k: Str) {
    j < |ws| && ws[j].key == k && forall i :: j < i < |ws| ==> ws[i].key != k
  }

  predicate HoldsOf(m: Kv, k: Str, v: Option<seq<byte>>) { if v.Some? then k in m && m[k] == v.value else k !in m }

  lemma {:induction false} LastWriteWins(m: Kv, ws: seq<Write>, j: nat, k: Str)
    requires LastTo(ws, j, k)
    ensures HoldsOf(ApplyWrites(m, ws), k, ws[j].val)
    decreases |ws|
  {
    var n := |ws| - 1;
    if j < n {
      assert ws[n].key != k;
      LastWriteWins(m, ws[..n], j, k);
    }
  }

  lemma {:induction false} OtherKeysStay(m: Kv, ws: seq<Write>, k: Str)
    requires forall i :: 0 <= i < |ws| ==> ws[i].key != k
    ensures HoldsOf(ApplyWrites(m, ws), k, if k in m then Some(m[k]) else None)
    decreases |ws|
  {
    if |ws| > 0 {
      assert ws[|ws| - 1].key != k;
      OtherKeysStay(m, ws[..|ws| - 1], k);
    }
  }

  /**
   * A transaction leaves every key as its last write says, and as it was if no write names it; the
   * reply is the number of writes.
   */
  lemma TxnLaw(m: Kv, ws: seq<Write>, k: Str)
    ensures var m' := ApplyOp(m, Txn(ws)).0;
      && (forall j: nat :: LastTo(ws, j, k) ==> HoldsOf(m', k, ws[j].val))
      && ((forall i :: 0 <= i < |ws| ==> ws[i].key != k) ==> HoldsOf(m', k, if k in m then Some(m[k]) else None))
    ensures |ws| < 0x8000_0000_0000_0000 ==> ApplyOp(m, Txn(ws)).1 == Value(Some(|ws|))
  {
    hide ApplyWrites, HoldsOf;
    forall j: nat | LastTo(ws, j, k) ensures HoldsOf(ApplyWrites(m, ws), k, ws[j].val) { LastWriteWins(m, ws, j, k); }
    if forall i :: 0 <= i < |ws| ==> ws[i].key != k { OtherKeysStay(m, ws, k); }
  }

  function KeysInOrder(m: Kv): (r: seq<Str>)
    ensures |r| == |m| && forall k :: k in r <==> k in m
  {
    LexIsTotalOrder();
    Ascending(m.Keys, LexLe)
  }

  function EntryBytes(k: Str, v: seq<byte>): seq<byte> {
    LE(Sat16(|k|), 2) + (k + (LE(Sat32(|v|), 4) + v))
  }

  /** An entry of a store snapshot: key length, key, value length, value. */
  lemma EntryLayout(k: Str, v: seq<byte>)
    requires |k| <= 0xFFFF && |v| <= 0xFFFF_FFFF
    ensures var b, n := EntryBytes(k, v), 2 + |k|;
      |b| == n + 4 + |v| && b[..2] == LE(|k|, 2) && b[2..n] == k && b[n..n + 4] == LE(|v|, 4) && b[n + 4..] == v
  {
    hide LE;
    assert EntryBytes(k, v)[2 + |k|..] == LE(|v|, 4) + v;
  }

  function EntriesBytes(m: Kv, ks: seq<Str>): seq<byte>
    requires forall k :: k in ks ==> k in m
  {
    if |ks| == 0 then [] else EntryBytes(ks[0], m[ks[0]]) + EntriesBytes(m, ks[1..])
  }

  /** `KvStore::snapshot`. */
  function KvBytes(m: Kv): seq<byte> {
    LE(Sat32(|m|), 4) + EntriesBytes(m, KeysInOrder(m))
  }

  function GetEntry(b: seq<byte>): (r: Option<(seq<byte>, seq<byte>, seq<byte>)>)
    ensures r.Some? ==> |r.value.0| <= MAX_U16 && |r.value.1| <= MAX_U32
  {
    var (kn, b1) :- GetU16(b);
    var (k, b2) :- Split(b1, kn);
    var (v, b3) :- GetBlob(b2);
    Some((k, v, b3))
  }

  function PutEntry(m: Kv, k: seq<byte>, v: seq<byte>): Kv {
    if Utf8(k) then m[k := v] else m
  }

  function ReadEntries(m: Kv, n: nat, b: seq<byte>): Kv
    decreases n
  {
    if n == 0 || GetEntry(b).None? then m
    else
      var (k, v, rest) := GetEntry(b).value;
      ReadEntries(PutEntry(m, k, v), n - 1, rest)
  }

  /** `KvStore::restore`: reads what it can and stops at the first short field. */
  function KvOf(b: seq<byte>): Kv {
    match GetU32(b)
    case None => map[]
    case Some((n, rest)) => ReadEntries(map[], n, rest)
  }

  predicate KvFits(m: Kv) { |m| <= MAX_U32 && EntriesFit(m) }

  function OnKeys(m: Kv, ks: seq<Str>): Kv
    requires forall k :: k in ks ==> k in m
  {
    map k | k in ks :: m[k]
  }

  lemma GetEntryAppend(k: Str, v: seq<byte>, rest: seq<byte>)
    requires KeyFits(k) && |v| <= MAX_U32
    ensures GetEntry(EntryBytes(k, v) + rest) == Some((k, v, rest))
  {
    var t := LE(Sat32(|v|), 4) + (v + rest);
    assert EntryBytes(k, v) + rest == LE(Sat16(|k|), 2) + (k + t);
    GetU16Append(|k|, k + t);
    SplitAppend(k, t);
    GetBlobAppend(v, rest);
  }

  lemma {:induction false} ReadEntriesAppend(acc: Kv, m: Kv, ks: seq<Str>, rest: seq<byte>)
    requires forall k :: k in ks ==> k in m && KeyFits(k) && |m[k]| <= MAX_U32
    ensures ReadEntries(acc, |ks|, EntriesBytes(m, ks) + rest) == acc + OnKeys(m, ks)
    decreases |ks|
  {
    hide GetEntry, EntryBytes, LE, Utf8;
    if |ks| > 0 {
      var k := ks[0];
      Assoc(EntryBytes(k, m[k]), EntriesBytes(m, ks[1..]), rest);
      GetEntryAppend(k, m[k], EntriesBytes(m, ks[1..]) + rest);
      ReadEntriesAppend(acc[k := m[k]], m, ks[1..], rest);
      PutFirst(acc, m, ks);
    } else {
      assert EntriesBytes(m, ks) + rest == rest;
      assert acc + OnKeys(m, ks) == acc;
    }
  }

  lemma PutFirst(acc: Kv, m: Kv, ks: seq<Str>)
    requires |ks| > 0 && forall k :: k in ks ==> k in m
    ensures acc[ks[0] := m[ks[0]]] + OnKeys(m, ks[1..]) == acc + OnKeys(m, ks)
  {
    assert forall k :: k in ks <==> k == ks[0] || k in ks[1..];
  }

  lemma RestoreSnapshot(m: Kv, rest: seq<byte>)
    requires KvFits(m)
    ensures KvOf(KvBytes(m) + rest) == m
  {
    hide ReadEntries, EntriesBytes, LE, GetU32, KeyFits;
    var ks := KeysInOrder(m);
    Assoc(LE(Sat32(|m|), 4), EntriesBytes(m, ks), rest);
    GetU32Append(|m|, EntriesBytes(m, ks) + rest);
    ReadEntriesAppend(map[], m, ks, rest);
    assert map[] + OnKeys(m, ks) == m;
  }

  predicate EntriesFit(m: Kv) { forall k :: k in m ==> KeyFits(k) && |m[k]| <= MAX_U32 }

  lemma PutEntryFits(m: Kv, k: seq<byte>, v: seq<byte>)
    requires EntriesFit(m) && |k| <= MAX_U16 && |v| <= MAX_U32
    ensures EntriesFit(PutEntry(m, k, v)) && |PutEntry(m, k, v)| <= |m| + 1
  {
    assert m[k := v].Keys == m.Keys + {k};
  }

  lemma {:induction false} ReadEntriesFit(m: Kv, n: nat, b: seq<byte>)
    requires EntriesFit(m)
    ensures EntriesFit(ReadEntries(m, n, b)) && |ReadEntries(m, n, b)| <= |m| + n
    decreases n
  {
    hide GetEntry, EntriesFit, PutEntry;
    if n > 0 && GetEntry(b).Some? {
      var (k, v, rest) := GetEntry(b).value;
      PutEntryFits(m, k, v);
      ReadEntriesFit(PutEntry(m, k, v), n - 1, rest);
    }
  }

  /** A store comes back from its snapshot exactly when its sizes fit the format. */
  lemma KvRoundTrip(m: Kv)
    ensures KvFits(m) <==> KvOf(KvBytes(m)) == m
  {
    if KvFits(m) {
      RestoreSnapshot(m, []);
      assert KvBytes(m) + [] == KvBytes(m);
    } else {
      match GetU32(KvBytes(m))
      case None =>
      case Some((n, rest)) => ReadEntriesFit(map[], n, rest);
    }
  }
}
