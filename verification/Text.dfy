/** UTF-8 validity, whitespace trimming and decimal `i64` text, as Rust's `str` does them. */
module Text {
  import opened Wrappers
  import opened Bytes

  predicate Cont(b: byte) { 0x80 <= b <= 0xBF }

  /** Width of the UTF-8 encoded character at the front of `s`; 0 when there is none. */
  function CharWidth(s: seq<byte>): (w: nat)
    ensures w <= |s|
  {
    if |s| == 0 then 0
    else if s[0] < 0x80 then 1
    else if |s| < 2 || !Cont(s[1]) then 0
    else if 0xC2 <= s[0] <= 0xDF then 2
    else if |s| < 3 || !Cont(s[2]) then 0
    else if s[0] == 0xE0 && 0xA0 <= s[1] then 3
    else if s[0] == 0xED && s[1] <= 0x9F then 3
    else if 0xE1 <= s[0] <= 0xEF && s[0] != 0xED then 3
    else if |s| < 4 || !Cont(s[3]) then 0
    else if s[0] == 0xF0 && 0x90 <= s[1] then 4
    else if 0xF1 <= s[0] <= 0xF3 then 4
    else if s[0] == 0xF4 && s[1] <= 0x8F then 4
    else 0
  }

  predicate Utf8(s: seq<byte>) {
    |s| == 0 || (CharWidth(s) > 0 && Utf8(s[CharWidth(s)..]))
  }

  /** The bytes of a Rust `String`; that they are valid UTF-8 is stated where it is needed. */
  type Str = seq<byte>

  predicate Ascii(s: seq<byte>) { forall i :: 0 <= i < |s| ==> s[i] < 0x80 }

  lemma {:induction false} AsciiIsUtf8(s: seq<byte>)
    requires Ascii(s)
    ensures Utf8(s)
  {
    if |s| > 0 { AsciiIsUtf8(s[1..]); }
  }

  // ------------------------------------------- valid UTF-8 is the encoding of Unicode scalar values

  predicate Scalar(c: nat) { c < 0xD800 || 0xE000 <= c < 0x11_0000 }

  /** The UTF-8 encoding of a scalar value: six bits per continuation byte, shortest form. */
  function Utf8Of(c: nat): (r: seq<byte>)
    requires Scalar(c)
    ensures 1 <= |r| <= 4
  {
    if c < 0x80 then [c]
    else if c < 0x800 then [0xC0 + c / 64, 0x80 + c % 64]
    else if c < 0x1_0000 then [0xE0 + c / 4096, 0x80 + c / 64 % 64, 0x80 + c % 64]
    else [0xF0 + c / 26_2144, 0x80 + c / 4096 % 64, 0x80 + c / 64 % 64, 0x80 + c % 64]
  }

  function Utf8OfAll(cs: seq<nat>): seq<byte>
    requires forall i :: 0 <= i < |cs| ==> Scalar(cs[i])
  {
    if |cs| == 0 then [] else Utf8Of(cs[0]) + Utf8OfAll(cs[1..])
  }

  /** Appends the six bits of a continuation byte. */
  function Six(high: int, b: int): int { high * 64 + (b - 0x80) }

  lemma SixSplits(high: nat, b: int)
    requires 0x80 <= b <= 0xBF
    ensures Six(high, b) >= 0 && Six(high, b) / 64 == high && Six(high, b) % 64 == b - 0x80
  {}

  /** The scalar value that the bytes of one character stand for. */
  function ScalarOf(s: seq<byte>): int {
    var v: seq<int> := s;
    if |v| == 1 then v[0]
    else if |v| == 2 then Six(v[0] - 0xC0, v[1])
    else if |v| == 3 then Six(Six(v[0] - 0xE0, v[1]), v[2])
    else if |v| == 4 then Six(Six(Six(v[0] - 0xF0, v[1]), v[2]), v[3])
    else 0
  }

  ghost predicate IsCharOf(s: seq<byte>, w: nat)
    requires w <= |s|
  {
    var c := ScalarOf(s[..w]);
    c >= 0 && Scalar(c) && Utf8Of(c) == s[..w]
  }

  lemma ShortChar(s: seq<byte>)
    requires 1 <= CharWidth(s) <= 2
    ensures IsCharOf(s, CharWidth(s))
  {
    var v: seq<int> := s;
    if CharWidth(s) == 2 { SixSplits(v[0] - 0xC0, v[1]); }
  }

  lemma ThreeByteChar(s: seq<byte>)
    requires CharWidth(s) == 3
    ensures IsCharOf(s, 3)
  {
    var v: seq<int> := s;
    var h := Six(v[0] - 0xE0, v[1]);
    SixSplits(v[0] - 0xE0, v[1]);
    SixSplits(h, v[2]);
    Shift2(Six(h, v[2]));
  }

  lemma FourByteChar(s: seq<byte>)
    requires CharWidth(s) == 4
    ensures IsCharOf(s, 4)
  {
    var v: seq<int> := s;
    var h := Six(v[0] - 0xF0, v[1]);
    SixSplits(v[0] - 0xF0, v[1]);
    SixSplits(h, v[2]);
    SixSplits(Six(h, v[2]), v[3]);
    Shift2(Six(Six(h, v[2]), v[3]));
  }

  /** A character is the encoding of a scalar value. */
  lemma CharIsScalar(s: seq<byte>)
    requires CharWidth(s) > 0
    ensures IsCharOf(s, CharWidth(s))
  {
    hide IsCharOf;
    if CharWidth(s) <= 2 { ShortChar(s); } else if CharWidth(s) == 3 { ThreeByteChar(s); } else { FourByteChar(s); }
  }

  lemma Shift2(c: nat)
    ensures c / 4096 == c / 64 / 64 && c / 26_2144 == c / 64 / 64 / 64
  {}

  lemma ScalarIsChar(c: nat, t: seq<byte>)
    requires Scalar(c)
    ensures CharWidth(Utf8Of(c) + t) == |Utf8Of(c)|
  {}

  lemma {:induction false} Utf8HasScalars(s: seq<byte>) returns (cs: seq<nat>)
    requires Utf8(s)
    ensures (forall i :: 0 <= i < |cs| ==> Scalar(cs[i])) && Utf8OfAll(cs) == s
  {
    hide CharWidth, Scalar, Utf8Of, ScalarOf;
    if |s| == 0 {
      cs := [];
    } else {
      var w := CharWidth(s);
      CharIsScalar(s);
      var rest := Utf8HasScalars(s[w..]);
      cs := [ScalarOf(s[..w])] + rest;
      assert cs[1..] == rest && s[..w] + s[w..] == s;
    }
  }

  lemma {:induction false} ScalarsAreUtf8(cs: seq<nat>)
    requires forall i :: 0 <= i < |cs| ==> Scalar(cs[i])
    ensures Utf8(Utf8OfAll(cs))
  {
    hide CharWidth, Scalar, Utf8Of;
    if |cs| > 0 {
      var a, t := Utf8Of(cs[0]), Utf8OfAll(cs[1..]);
      ScalarsAreUtf8(cs[1..]);
      ScalarIsChar(cs[0], t);
      assert (a + t)[|a|..] == t;
    }
  }

  /** Valid text is exactly what encodes some sequence of Unicode scalar values. */
  lemma Utf8Law(s: seq<byte>)
    ensures Utf8(s) <==> exists cs: seq<nat> :: (forall i :: 0 <= i < |cs| ==> Scalar(cs[i])) && Utf8OfAll(cs) == s
  {
    hide Utf8, Scalar, Utf8OfAll;
    if Utf8(s) { var cs := Utf8HasScalars(s); }
    if cs: seq<nat> :| (forall i :: 0 <= i < |cs| ==> Scalar(cs[i])) && Utf8OfAll(cs) == s { ScalarsAreUtf8(cs); }
  }

  /** Bytes taken by a leading (trailing) Unicode White_Space character; 0 when there is none. */
  function WsFront(s: seq<byte>): (w: nat)
    ensures w <= |s|
  {
    if |s| >= 1 && (9 <= s[0] <= 13 || s[0] == 32) then 1
    else if |s| >= 2 && Ws2(s[0], s[1]) then 2
    else if |s| >= 3 && Ws3(s[0], s[1], s[2]) then 3
    else 0
  }

  function WsBack(s: seq<byte>): (w: nat)
    ensures w <= |s|
  {
    var n := |s|;
    if n >= 1 && (9 <= s[n - 1] <= 13 || s[n - 1] == 32) then 1
    else if n >= 2 && Ws2(s[n - 2], s[n - 1]) then 2
    else if n >= 3 && Ws3(s[n - 3], s[n - 2], s[n - 1]) then 3
    else 0
  }

  predicate Ws2(a: byte, b: byte) { a == 0xC2 && (b == 0x85 || b == 0xA0) }

  predicate Ws3(a: byte, b: byte, c: byte) {
    || (a == 0xE1 && b == 0x9A && c == 0x80)
    || (a == 0xE2 && b == 0x80 && (c <= 0x8A || c == 0xA8 || c == 0xA9 || c == 0xAF) && 0x80 <= c)
    || (a == 0xE2 && b == 0x81 && c == 0x9F)
    || (a == 0xE3 && b == 0x80 && c == 0x80)
  }

  /** The Unicode property White_Space. */
  predicate WhiteSpace(c: nat) {
    || 0x9 <= c <= 0xD || c == 0x20 || c == 0x85 || c == 0xA0 || c == 0x1680 || 0x2000 <= c <= 0x200A
    || c == 0x2028 || c == 0x2029 || c == 0x202F || c == 0x205F || c == 0x3000
  }

  /** White space at the front is recognised by character, whatever follows. */
  lemma WsFrontLaw(c: nat, t: seq<byte>)
    requires Scalar(c)
    ensures WsFront(Utf8Of(c) + t) == if WhiteSpace(c) then |Utf8Of(c)| else 0
  {}

  /** White space at the back is recognised by character, whatever precedes. */
  lemma WsBackLaw(t: seq<byte>, c: nat)
    requires Scalar(c)
    ensures WsBack(t + Utf8Of(c)) == if WhiteSpace(c) then |Utf8Of(c)| else 0
  {}

  function TrimFront(s: seq<byte>): seq<byte> {
    if WsFront(s) == 0 then s else TrimFront(s[WsFront(s)..])
  }

  function TrimBack(s: seq<byte>): seq<byte> {
    if WsBack(s) == 0 then s else TrimBack(s[..|s| - WsBack(s)])
  }

  predicate IsDigit(b: byte) { 48 <= b <= 57 }
  predicate AllDigits(s: seq<byte>) { forall i :: 0 <= i < |s| ==> IsDigit(s[i]) }

  function Digits(n: nat): (r: seq<byte>)
    ensures |r| > 0
  {
    if n < 10 then [48 + n] else Digits(n / 10) + [48 + n % 10]
  }

  function DigitsValue(s: seq<byte>): nat
    requires AllDigits(s)
  {
    if |s| == 0 then 0 else 10 * DigitsValue(s[..|s| - 1]) + (s[|s| - 1] - 48)
  }

  function Abs(n: int): nat { if n < 0 then -n else n }

  /** `n.to_string()`. */
  function Decimal(n: int): (r: seq<byte>)
    ensures |r| > 0
  {
    if n < 0 then [45] + Digits(-n) else Digits(n)
  }

  /** `str::parse::<i64>`: optional sign, at least one digit, no overflow. */
  function ParseI64(s: seq<byte>): Option<i64> {
    if |s| == 0 then None
    else
      var neg := s[0] == 45;
      var d := if s[0] == 45 || s[0] == 43 then s[1..] else s;
      if |d| == 0 || !AllDigits(d) then None
      else
        var v: int := if neg then 0 - DigitsValue(d) else DigitsValue(d);
        if -0x8000_0000_0000_0000 <= v < 0x8000_0000_0000_0000 then Some(v) else None
  }

  /** `from_utf8(v).ok()?.trim().parse().ok()`: the integer view of a stored value. */
  function ParseText(v: seq<byte>): Option<i64> {
    if Utf8(v) then ParseI64(TrimBack(TrimFront(v))) else None
  }

  lemma {:induction false} DigitsAreDigits(n: nat)
    ensures AllDigits(Digits(n)) && DigitsValue(Digits(n)) == n
  {
    if n >= 10 {
      DigitsAreDigits(n / 10);
      var d := Digits(n);
      assert d[..|d| - 1] == Digits(n / 10);
      assert d[|d| - 1] == 48 + n % 10;
    }
  }

  lemma DecimalIsAscii(n: int)
    ensures Ascii(Decimal(n)) && Utf8(Decimal(n))
  {
    DigitsAreDigits(Abs(n));
    AsciiIsUtf8(Decimal(n));
  }

  /** Text that starts and ends in a visible ASCII byte is not changed by `trim`. */
  lemma TrimKeeps(s: seq<byte>)
    requires |s| > 0 && 32 < s[0] < 0x80 && 32 < s[|s| - 1] < 0x80
    ensures TrimBack(TrimFront(s)) == s
  {
    assert WsFront(s) == 0;
    assert WsBack(s) == 0;
  }

  /** Parsing is exact on plain digits and on a minus sign followed by digits. */
  lemma ParseSigned(d: seq<byte>, v: nat)
    requires |d| > 0 && AllDigits(d) && DigitsValue(d) == v
    ensures v < 0x8000_0000_0000_0000 ==> ParseI64(d) == Some(v)
    ensures v <= 0x8000_0000_0000_0000 ==> ParseI64([45] + d) == Some(0 - v)
  {
    assert IsDigit(d[0]);
    assert ([45] + d)[1..] == d;
  }

  lemma ParseI64Decimal(n: i64)
    ensures ParseI64(Decimal(n)) == Some(n)
  {
    hide DigitsValue, Digits, ParseI64;
    DigitsAreDigits(Abs(n));
    ParseSigned(Digits(Abs(n)), Abs(n));
  }

  lemma DecimalEnds(n: int)
    ensures 32 < Decimal(n)[0] < 0x80 && 32 < Decimal(n)[|Decimal(n)| - 1] < 0x80
  {
    DigitsAreDigits(Abs(n));
    var d := Digits(Abs(n));
    assert IsDigit(d[0]) && IsDigit(d[|d| - 1]);
  }

  lemma ParseDecimal(n: i64)
    ensures ParseText(Decimal(n)) == Some(n)
  {
    DecimalIsAscii(n);
    DecimalEnds(n);
    TrimKeeps(Decimal(n));
    ParseI64Decimal(n);
  }

  /** ASCII white space. */
  predicate Blank(s: seq<byte>) { forall i :: 0 <= i < |s| ==> 9 <= s[i] <= 13 || s[i] == 32 }

  lemma {:induction false} TrimsFront(a: seq<byte>, s: seq<byte>)
    requires Blank(a) && |s| > 0 && 32 < s[0] < 0x80
    ensures TrimFront(a + s) == s
  {
    if |a| == 0 {
      assert a + s == s;
    } else {
      assert (a + s)[0] == a[0] && (a + s)[1..] == a[1..] + s;
      TrimsFront(a[1..], s);
    }
  }

  lemma {:induction false} TrimsBack(s: seq<byte>, b: seq<byte>)
    requires Blank(b) && |s| > 0 && 32 < s[|s| - 1] < 0x80
    ensures TrimBack(s + b) == s
  {
    if |b| == 0 {
      assert s + b == s;
    } else {
      var n := |b| - 1;
      assert (s + b)[|s + b| - 1] == b[n] && (s + b)[..|s + b| - 1] == s + b[..n];
      TrimsBack(s, b[..n]);
    }
  }

  /** A number may stand between any ASCII white space. */
  lemma ParsePadded(a: seq<byte>, n: i64, b: seq<byte>)
    requires Blank(a) && Blank(b)
    ensures ParseText(a + (Decimal(n) + b)) == Some(n)
  {
    hide Decimal, ParseI64, TrimFront, TrimBack, Utf8;
    var d := Decimal(n);
    DecimalEnds(n);
    DecimalIsAscii(n);
    AsciiIsUtf8(a + (d + b));
    TrimsFront(a, d + b);
    TrimsBack(d, b);
    ParseI64Decimal(n);
  }

  /** What is not a sign followed by digits, or is out of range, is no number. */
  lemma ParseExact(s: seq<byte>, n: int)
    requires ParseI64(s) == Some(n)
    ensures exists d: seq<byte>, sign: seq<byte> ::
      && s == sign + d && (sign == [] || sign == [43] || sign == [45])
      && |d| > 0 && AllDigits(d) && n == if sign == [45] then 0 - DigitsValue(d) else DigitsValue(d)
  {
    hide DigitsValue;
    var signed := s[0] == 45 || s[0] == 43;
    var sign, d := if signed then [s[0]] else [], if signed then s[1..] else s;
    assert s == sign + d;
  }

  lemma DecimalExamples()
    ensures Decimal(0) == [48] && Decimal(42) == [52, 50] && Decimal(-10) == [45, 49, 48]
  {
    assert Digits(42) == Digits(4) + [50] && Digits(10) == Digits(1) + [48];
  }

  lemma DecimalInjective(a: int, b: int)
    requires Decimal(a) == Decimal(b)
    ensures a == b
  {
    DigitsAreDigits(Abs(a));
    DigitsAreDigits(Abs(b));
    assert a >= 0 ==> IsDigit(Digits(a)[0]);
    assert b >= 0 ==> IsDigit(Digits(b)[0]);
    if a < 0 && b < 0 {
      assert Decimal(a)[1..] == Digits(-a);
      assert Decimal(b)[1..] == Digits(-b);
    }
  }
}
