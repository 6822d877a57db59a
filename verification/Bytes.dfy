/** Machine integers, little-endian encodings and the bounds-checked reader. */
module Bytes {
  import opened Wrappers

  type byte = x: int | 0 <= x < 0x100
  type u16 = x: int | 0 <= x < 0x1_0000
  type u32 = x: int | 0 <= x < 0x1_0000_0000
  type u64 = x: int | 0 <= x < 0x1_0000_0000_0000_0000
  type i64 = x: int | -0x8000_0000_0000_0000 <= x < 0x8000_0000_0000_0000

  const MAX_U16: nat := 0xFFFF
  const MAX_U32: nat := 0xFFFF_FFFF

  /** `u16::try_from(n).unwrap_or(u16::MAX)`: a length field saturates silently. */
  function Sat16(n: nat): u16 { if n <= MAX_U16 then n else MAX_U16 }
  function Sat32(n: nat): u32 { if n <= MAX_U32 then n else MAX_U32 }

  /** Two's complement view of a signed word, and the wrap-around of an `i64` sum. */
  function Bits64(d: i64): u64 { if d < 0 then d + 0x1_0000_0000_0000_0000 else d }
  function Signed64(n: u64): i64 { if n < 0x8000_0000_0000_0000 then n else n - 0x1_0000_0000_0000_0000 }
  function Wrap64(x: int): i64 { Signed64(x % 0x1_0000_0000_0000_0000) }

  function Pow256(k: nat): nat { if k == 0 then 1 else 256 * Pow256(k - 1) }

  function LE(n: nat, k: nat): (r: seq<byte>)
    ensures |r| == k
  {
    if k == 0 then [] else [n % 256] + LE(n / 256, k - 1)
  }

  function FromLE(s: seq<byte>): nat {
    if |s| == 0 then 0 else s[0] + 256 * FromLE(s[1..])
  }

  lemma {:induction false} FromLEBound(s: seq<byte>)
    ensures FromLE(s) < Pow256(|s|)
  {
    if |s| > 0 { FromLEBound(s[1..]); }
  }

  lemma {:induction false} LERoundTrip(n: nat, k: nat)
    requires n < Pow256(k)
    ensures FromLE(LE(n, k)) == n
  {
    if k > 0 {
      LERoundTrip(n / 256, k - 1);
      assert LE(n, k)[1..] == LE(n / 256, k - 1);
    }
  }

  lemma WordSizes()
    ensures Pow256(2) == 0x1_0000
    ensures Pow256(4) == 0x1_0000_0000
    ensures Pow256(8) == 0x1_0000_0000_0000_0000
  {
    assert Pow256(2) == 256 * Pow256(1);
    assert Pow256(4) == 256 * (256 * Pow256(2));
    assert Pow256(6) == 256 * (256 * Pow256(4));
    assert Pow256(8) == 256 * (256 * Pow256(6));
  }

  /** The least significant byte comes first. */
  lemma LittleEndian()
    ensures LE(0x0102, 2) == [2, 1]
    ensures LE(0x0102_0304, 4) == [4, 3, 2, 1]
    ensures LE(0x0102_0304_0506_0708, 8) == [8, 7, 6, 5, 4, 3, 2, 1]
  {
    assert LE(1, 1) == [1] + LE(0, 0);
    assert LE(0x0102, 2) == [2] + LE(1, 1);
    assert LE(0x01_0203, 3) == [3] + LE(0x0102, 2);
    assert LE(0x0102_0304, 4) == [4] + LE(0x01_0203, 3);
    assert LE(0x01_0203_0405, 5) == [5] + LE(0x0102_0304, 4);
    assert LE(0x0102_0304_0506, 6) == [6] + LE(0x01_0203_0405, 5);
    assert LE(0x01_0203_0405_0607, 7) == [7] + LE(0x0102_0304_0506, 6);
  }

  /** What is left to read, as a value: each getter returns the field and the rest. */
  function Split(b: seq<byte>, n: nat): (r: Option<(seq<byte>, seq<byte>)>)
    ensures r.Some? <==> n <= |b|
    ensures r.Some? ==> r.value.0 + r.value.1 == b && |r.value.0| == n
  {
    if n <= |b| then Some((b[..n], b[n..])) else None
  }

  function GetU8(b: seq<byte>): (r: Option<(byte, seq<byte>)>)
    ensures r.Some? ==> |r.value.1| < |b|
  {
    if |b| == 0 then None else Some((b[0], b[1..]))
  }

  function GetWord(b: seq<byte>, k: nat): (r: Option<(nat, seq<byte>)>)
    ensures r.Some? ==> r.value.0 < Pow256(k) && |r.value.1| + k == |b|
  {
    var (w, rest) :- Split(b, k);
    FromLEBound(w);
    Some((FromLE(w), rest))
  }

  function GetU16(b: seq<byte>): (r: Option<(u16, seq<byte>)>)
    ensures r.Some? ==> |r.value.1| + 2 == |b|
  {
    WordSizes();
    GetWord(b, 2)
  }

  function GetU32(b: seq<byte>): (r: Option<(u32, seq<byte>)>)
    ensures r.Some? ==> |r.value.1| + 4 == |b|
  {
    WordSizes();
    GetWord(b, 4)
  }

  function GetU64(b: seq<byte>): (r: Option<(u64, seq<byte>)>)
    ensures r.Some? ==> |r.value.1| + 8 == |b|
  {
    WordSizes();
    GetWord(b, 8)
  }

  /** A prefix of `a + b` that contains all of `a` is `a` and a prefix of `b`. */
  lemma PrefixOfConcat(a: seq<byte>, b: seq<byte>, p: seq<byte>)
    requires |a| <= |p| <= |a| + |b| && p == (a + b)[..|p|]
    ensures p == a + p[|a|..] && p[|a|..] == b[..|p| - |a|]
  {
    assert p[..|a|] == (a + b)[..|a|] == a;
    assert p[|a|..] == (a + b)[|a|..|p|];
  }

  lemma SplitAppend(x: seq<byte>, rest: seq<byte>)
    ensures Split(x + rest, |x|) == Some((x, rest))
  {
    assert (x + rest)[..|x|] == x;
    assert (x + rest)[|x|..] == rest;
  }

  lemma GetWordAppend(n: nat, k: nat, rest: seq<byte>)
    requires n < Pow256(k)
    ensures GetWord(LE(n, k) + rest, k) == Some((n, rest))
  {
    SplitAppend(LE(n, k), rest);
    LERoundTrip(n, k);
  }

  lemma GetU16Append(n: u16, rest: seq<byte>)
    ensures GetU16(LE(n, 2) + rest) == Some((n, rest))
  {
    WordSizes();
    GetWordAppend(n, 2, rest);
  }

  lemma GetU32Append(n: u32, rest: seq<byte>)
    ensures GetU32(LE(n, 4) + rest) == Some((n, rest))
  {
    WordSizes();
    GetWordAppend(n, 4, rest);
  }

  lemma GetU64Append(n: u64, rest: seq<byte>)
    ensures GetU64(LE(n, 8) + rest) == Some((n, rest))
  {
    WordSizes();
    GetWordAppend(n, 8, rest);
  }

  /** The `Reader` of state.rs: a cursor over a byte slice that never reads past the end. */
  class Reader {
    const b: seq<byte>
    var pos: nat

    ghost predicate Valid()
      reads this
    {
      pos <= |b|
    }

    ghost function Rest(): seq<byte>
      requires Valid()
      reads this
    {
      b[pos..]
    }

    constructor (bytes: seq<byte>)
      ensures Valid() && b == bytes && Rest() == bytes
    {
      b := bytes;
      pos := 0;
    }

    method Take(n: nat) returns (r: Option<seq<byte>>)
      requires Valid()
      modifies this
      ensures Valid()
      ensures r.Some? <==> Split(old(Rest()), n).Some?
      ensures r.Some? ==> (r.value, Rest()) == Split(old(Rest()), n).value
      ensures r.None? ==> Rest() == old(Rest())
    {
      if pos + n > |b| {
        return None;
      }
      assert b[pos..pos + n] == Rest()[..n] && b[pos + n..] == Rest()[n..];
      r := Some(b[pos..pos + n]);
      pos := pos + n;
    }

    method U8() returns (r: Option<byte>)
      requires Valid()
      modifies this
      ensures Valid()
      ensures r.Some? <==> GetU8(old(Rest())).Some?
      ensures r.Some? ==> (r.value, Rest()) == GetU8(old(Rest())).value
      ensures r.None? ==> Rest() == old(Rest())
    {
      if pos >= |b| {
        return None;
      }
      r := Some(b[pos]);
      pos := pos + 1;
    }

    method U16() returns (r: Option<u16>)
      requires Valid()
      modifies this
      ensures Valid()
      ensures r.Some? <==> GetU16(old(Rest())).Some?
      ensures r.Some? ==> (r.value, Rest()) == GetU16(old(Rest())).value
      ensures r.None? ==> Rest() == old(Rest())
    {
      var w := Take(2);
      if w.None? {
        return None;
      }
      WordSizes();
      FromLEBound(w.value);
      r := Some(FromLE(w.value));
    }

    method U32() returns (r: Option<u32>)
      requires Valid()
      modifies this
      ensures Valid()
      ensures r.Some? <==> GetU32(old(Rest())).Some?
      ensures r.Some? ==> (r.value, Rest()) == GetU32(old(Rest())).value
      ensures r.None? ==> Rest() == old(Rest())
    {
      var w := Take(4);
      if w.None? {
        return None;
      }
      WordSizes();
      FromLEBound(w.value);
      r := Some(FromLE(w.value));
    }

    method U64() returns (r: Option<u64>)
      requires Valid()
      modifies this
      ensures Valid()
      ensures r.Some? <==> GetU64(old(Rest())).Some?
      ensures r.Some? ==> (r.value, Rest()) == GetU64(old(Rest())).value
      ensures r.None? ==> Rest() == old(Rest())
    {
      var w := Take(8);
      if w.None? {
        return None;
      }
      WordSizes();
      FromLEBound(w.value);
      r := Some(FromLE(w.value));
    }
  }
}
