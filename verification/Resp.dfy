/** The RESP2 request parser and what it does to well-formed and to cut-off input (resp.rs). */
module Resp {
  import opened Wrappers
  import opened Bytes
  import opened Text

  const LF: byte := 10
  const CR: byte := 13
  const STAR: byte := 42
  const DOLLAR: byte := 36
  const CRLF: seq<byte> := [CR, LF]

  datatype Error = UnexpectedEof | InvalidData

  datatype Result<T> = Ok(value: T) | Err(error: Error)

  type Command = seq<seq<byte>>

  // ------------------------------------------------------------------ reading, as values

  /** What `read_until(b'\n')` consumes: up to and including the first line feed, or everything. */
  function LineLen(b: seq<byte>): (n: nat)
    ensures n <= |b| && (n == 0 <==> |b| == 0)
  {
    if |b| == 0 then 0 else if b[0] == LF then 1 else 1 + LineLen(b[1..])
  }

  /** A line without its trailing carriage returns and line feeds. */
  function Chop(s: seq<byte>): seq<byte> {
    if |s| > 0 && (s[|s| - 1] == LF || s[|s| - 1] == CR) then Chop(s[..|s| - 1]) else s
  }

  /** One bulk string; a negative length reads as an empty one. */
  function ReadBulk(b: seq<byte>): (r: Result<(seq<byte>, seq<byte>)>)
    ensures r.Ok? ==> |r.value.1| < |b|
  {
    if |b| == 0 then Err(UnexpectedEof)
    else
      var hdr, rest := Chop(b[..LineLen(b)]), b[LineLen(b)..];
      if |hdr| == 0 || hdr[0] != DOLLAR then Err(InvalidData)
      else
        match ParseText(hdr[1..])
        case None => Err(InvalidData)
        case Some(n) =>
          if n < 0 then Ok(([], rest))
          else if |rest| < n + 2 then Err(UnexpectedEof)
          else Ok((rest[..n], rest[n + 2..]))
  }

  function ReadBulks(acc: Command, n: nat, b: seq<byte>): (r: Result<(Command, seq<byte>)>)
    ensures r.Ok? ==> |r.value.1| <= |b|
    decreases n
  {
    if n == 0 then Ok((acc, b))
    else
      match ReadBulk(b)
      case Err(e) => Err(e)
      case Ok((a, rest)) => ReadBulks(acc + [a], n - 1, rest)
  }

  predicate IsSpace(b: byte) { b == 32 || b == 9 || b == 10 || b == 12 || b == 13 }

  function WordLen(s: seq<byte>): (n: nat)
    ensures n <= |s|
  {
    if |s| == 0 || IsSpace(s[0]) then 0 else 1 + WordLen(s[1..])
  }

  /** The inline form: words separated by ASCII white space. */
  function Words(s: seq<byte>): Command
    decreases |s|
  {
    if |s| == 0 then []
    else if IsSpace(s[0]) then Words(s[1..])
    else [s[..WordLen(s)]] + Words(s[WordLen(s)..])
  }

  /** `read_command`: the command at the front of `b` and what follows it, `None` at the end. */
  function ReadOne(b: seq<byte>): (r: Result<Option<(Command, seq<byte>)>>)
    ensures r.Ok? && r.value.Some? ==> |r.value.value.1| < |b|
  {
    if |b| == 0 then Ok(None)
    else
      var line, rest := Chop(b[..LineLen(b)]), b[LineLen(b)..];
      if |line| == 0 then Ok(Some(([], rest)))
      else if line[0] != STAR then Ok(Some((Words(line), rest)))
      else
        match ParseText(line[1..])
        case None => Err(InvalidData)
        case Some(n) =>
          if n <= 0 then Ok(Some(([], rest)))
          else
            match ReadBulks([], n, rest)
            case Err(e) => Err(e)
            case Ok((args, rest')) => Ok(Some((args, rest')))
  }

  /** Repeated `read_command`: the commands, and the error that stopped it, if any. */
  function ReadAll(b: seq<byte>): (seq<Command>, Option<Error>)
    decreases |b|
  {
    match ReadOne(b)
    case Err(e) => ([], Some(e))
    case Ok(None) => ([], None)
    case Ok(Some((c, rest))) =>
      var (cs, e) := ReadAll(rest);
      ([c] + cs, e)
  }

  // ------------------------------------------------------------------ the request encoding

  function Header(tag: byte, n: nat): (r: seq<byte>)
    ensures |r| >= 4
  {
    [tag] + (Decimal(n) + CRLF)
  }

  function BulkBytes(a: seq<byte>): seq<byte> { Header(DOLLAR, |a|) + (a + CRLF) }

  function BulksBytes(args: Command): seq<byte> {
    if |args| == 0 then [] else BulkBytes(args[0]) + BulksBytes(args[1..])
  }

  /** The array of bulk strings that a client sends. */
  function CommandBytes(args: Command): (r: seq<byte>)
    ensures |r| >= 4
  {
    Header(STAR, |args|) + BulksBytes(args)
  }

  function SessionBytes(cs: seq<Command>): seq<byte> {
    if |cs| == 0 then [] else CommandBytes(cs[0]) + SessionBytes(cs[1..])
  }

  /** Counts and lengths that fit an `i64`, as every `Vec` length does. */
  predicate Sized(args: Command) {
    |args| < 0x8000_0000_0000_0000 && forall i :: 0 <= i < |args| ==> |args[i]| < 0x8000_0000_0000_0000
  }

  // ------------------------------------------------------------------------------- lines

  lemma {:induction false} LineLenAt(b: seq<byte>, j: nat)
    requires j < |b| && b[j] == LF && forall i :: 0 <= i < j ==> b[i] != LF
    ensures LineLen(b) == j + 1
  {
    if j > 0 { LineLenAt(b[1..], j - 1); }
  }

  lemma {:induction false} LineLenAll(b: seq<byte>)
    requires forall i :: 0 <= i < |b| ==> b[i] != LF
    ensures LineLen(b) == |b|
  {
    if |b| > 0 { LineLenAll(b[1..]); }
  }

  predicate Visible(b: byte) { 32 < b < 0x80 }

  lemma DecimalVisible(n: nat)
    ensures AllDigits(Decimal(n))
    ensures forall i :: 0 <= i < |Decimal(n)| ==> Visible(Decimal(n)[i])
  {
    hide Digits, DigitsValue;
    DigitsAreDigits(n);
    assert forall i :: 0 <= i < |Decimal(n)| ==> IsDigit(Decimal(n)[i]);
  }

  /** A header in front of anything is one line, and chopping leaves the tag and the number. */
  lemma HeaderLine(tag: byte, n: nat, rest: seq<byte>)
    requires Visible(tag)
    ensures LineLen(Header(tag, n) + rest) == |Header(tag, n)|
    ensures (Header(tag, n) + rest)[..|Header(tag, n)|] == Header(tag, n)
    ensures (Header(tag, n) + rest)[|Header(tag, n)|..] == rest
    ensures Chop(Header(tag, n)) == [tag] + Decimal(n)
  {
    hide Decimal, LineLen, Chop;
    DecimalVisible(n);
    var h, t := Header(tag, n), [tag] + Decimal(n);
    assert h == t + CRLF;
    LineLenAt(h + rest, |h| - 1);
    ChopEnds(t);
  }

  lemma ChopEnds(t: seq<byte>)
    requires |t| > 0 && Visible(t[|t| - 1])
    ensures Chop(t + CRLF) == t
  {
    assert (t + CRLF)[..|t| + 1] == t + [CR] && (t + [CR])[..|t|] == t;
    assert Chop(t + CRLF) == Chop(t + [CR]) == Chop(t) == t;
  }

  lemma ReadBulkAppend(a: seq<byte>, rest: seq<byte>)
    requires |a| < 0x8000_0000_0000_0000
    ensures ReadBulk(BulkBytes(a) + rest) == Ok((a, rest))
  {
    hide Header, LineLen, Chop, ParseText, Decimal;
    var h, t := Header(DOLLAR, |a|), (a + CRLF) + rest;
    assert BulkBytes(a) + rest == h + t;
    HeaderLine(DOLLAR, |a|, t);
    assert ([DOLLAR] + Decimal(|a|))[1..] == Decimal(|a|);
    ParseDecimal(|a|);
    assert t[..|a|] == a && t[|a| + 2..] == rest;
  }

  lemma {:induction false} ReadBulksAppend(acc: Command, args: Command, rest: seq<byte>)
    requires forall i :: 0 <= i < |args| ==> |args[i]| < 0x8000_0000_0000_0000
    ensures ReadBulks(acc, |args|, BulksBytes(args) + rest) == Ok((acc + args, rest))
    decreases |args|
  {
    hide ReadBulk, BulkBytes;
    if |args| == 0 {
      assert BulksBytes(args) + rest == rest && acc + args == acc;
    } else {
      var t := BulksBytes(args[1..]) + rest;
      assert BulksBytes(args) + rest == BulkBytes(args[0]) + t;
      ReadBulkAppend(args[0], t);
      ReadBulksAppend(acc + [args[0]], args[1..], rest);
      assert (acc + [args[0]]) + args[1..] == acc + args;
    }
  }

  /** One call takes exactly one command off the stream, whatever bytes its arguments hold. */
  lemma ReadOneAppend(args: Command, rest: seq<byte>)
    requires Sized(args)
    ensures ReadOne(CommandBytes(args) + rest) == Ok(Some((args, rest)))
  {
    hide Header, LineLen, Chop, ParseText, Decimal, ReadBulks, Words, BulksBytes;
    var h, t := Header(STAR, |args|), BulksBytes(args) + rest;
    assert CommandBytes(args) + rest == h + t;
    HeaderLine(STAR, |args|, t);
    assert ([STAR] + Decimal(|args|))[1..] == Decimal(|args|);
    ParseDecimal(|args|);
    ReadBulksAppend([], args, rest);
    NoBulks(args, rest);
  }

  lemma NoBulks(args: Command, rest: seq<byte>)
    ensures |args| == 0 ==> BulksBytes(args) + rest == rest
    ensures [] + args == args
  {}

  // ---------------------------------------------------------------------- cut-off input

  lemma {:induction false} DigitsLead(n: nat)
    requires n > 0
    ensures Digits(n)[0] != 48
  {
    if n >= 10 { DigitsLead(n / 10); }
  }

  lemma {:induction false} LeadCounts(s: seq<byte>)
    requires AllDigits(s) && |s| > 0 && s[0] != 48
    ensures DigitsValue(s) > 0
  {
    if |s| > 1 { LeadCounts(s[..|s| - 1]); }
  }

  lemma ParseDigits(d: seq<byte>)
    requires AllDigits(d)
    ensures ParseText(d).Some? ==> |d| > 0 && ParseText(d).value == DigitsValue(d)
  {
    hide DigitsValue, Utf8;
    if |d| > 0 {
      assert IsDigit(d[0]) && IsDigit(d[|d| - 1]);
      TrimKeeps(d);
    } else {
      assert TrimFront(d) == d && TrimBack(d) == d;
    }
  }

  /** A number cut short is no number, or still a natural number, and positive if it was. */
  lemma ParseCut(n: nat, j: nat)
    requires j <= |Decimal(n)|
    ensures ParseText(Decimal(n)[..j]).Some? ==> ParseText(Decimal(n)[..j]).value >= 0
    ensures ParseText(Decimal(n)[..j]).Some? && n > 0 ==> ParseText(Decimal(n)[..j]).value > 0
  {
    hide Digits, DigitsValue, ParseText;
    DecimalVisible(n);
    var d := Decimal(n)[..j];
    ParseDigits(d);
    if n > 0 && j > 0 {
      DigitsLead(n);
      LeadCounts(d);
    }
  }

  /** What is left of a header cut short is read as one line that holds the tag and a cut number. */
  lemma CutHeader(tag: byte, n: nat, p: seq<byte>) returns (j: nat)
    requires Visible(tag) && 0 < |p| < |Header(tag, n)| && p == Header(tag, n)[..|p|]
    ensures LineLen(p) == |p| && p[..|p|] == p && p[|p|..] == []
    ensures j <= |Decimal(n)| && Chop(p) == [tag] + Decimal(n)[..j]
  {
    hide Decimal, LineLen;
    DecimalVisible(n);
    var d := Decimal(n);
    var t := [tag] + d;
    assert Header(tag, n) == t + CRLF;
    assert p == (t + [CR])[..|p|];
    LineLenAll(p);
    if |p| <= |t| {
      j := |p| - 1;
      assert p == [tag] + d[..j];
      assert Visible(p[|p| - 1]);
    } else {
      j := |d|;
      assert p == t + [CR] && p[..|t|] == t && d[..j] == d;
      assert Visible(t[|t| - 1]);
    }
  }

  lemma CutBulk(a: seq<byte>, p: seq<byte>)
    requires |a| < 0x8000_0000_0000_0000 && |p| < |BulkBytes(a)| && p == BulkBytes(a)[..|p|]
    ensures ReadBulk(p).Err?
  {
    hide Header, LineLen, Chop, ParseText, Decimal;
    var h := Header(DOLLAR, |a|);
    if |p| >= |h| {
      PrefixOfConcat(h, a + CRLF, p);
      HeaderLine(DOLLAR, |a|, p[|h|..]);
      assert ([DOLLAR] + Decimal(|a|))[1..] == Decimal(|a|);
      ParseDecimal(|a|);
    } else if |p| > 0 {
      var j := CutHeader(DOLLAR, |a|, p);
      var d := Decimal(|a|)[..j];
      assert ([DOLLAR] + d)[1..] == d;
      ParseCut(|a|, j);
    }
  }

  lemma {:induction false} CutBulks(acc: Command, args: Command, p: seq<byte>)
    requires forall i :: 0 <= i < |args| ==> |args[i]| < 0x8000_0000_0000_0000
    requires |p| < |BulksBytes(args)| && p == BulksBytes(args)[..|p|]
    ensures ReadBulks(acc, |args|, p).Err?
    decreases |args|
  {
    hide ReadBulk, BulkBytes;
    var b := BulkBytes(args[0]);
    if |p| >= |b| {
      PrefixOfConcat(b, BulksBytes(args[1..]), p);
      ReadBulkAppend(args[0], p[|b|..]);
      CutBulks(acc + [args[0]], args[1..], p[|b|..]);
    } else {
      assert p == b[..|p|];
      CutBulk(args[0], p);
    }
  }

  /** A command cut off anywhere is an error: it is never executed, in whole or in part. */
  lemma CutCommand(args: Command, p: seq<byte>)
    requires Sized(args) && |args| > 0
    requires 0 < |p| < |CommandBytes(args)| && p == CommandBytes(args)[..|p|]
    ensures ReadOne(p).Err?
  {
    hide Header, LineLen, Chop, ParseText, Decimal, ReadBulk, Words, BulksBytes;
    var h := Header(STAR, |args|);
    if |p| >= |h| {
      PrefixOfConcat(h, BulksBytes(args), p);
      HeaderLine(STAR, |args|, p[|h|..]);
      assert ([STAR] + Decimal(|args|))[1..] == Decimal(|args|);
      ParseDecimal(|args|);
      CutBulks([], args, p[|h|..]);
    } else {
      var j := CutHeader(STAR, |args|, p);
      var d := Decimal(|args|)[..j];
      assert ([STAR] + d)[1..] == d;
      ParseCut(|args|, j);
    }
  }

  /** Nothing but the empty array survives a cut: `*0` without its line end still reads as no arguments. */
  lemma CutIsError(args: Command)
    requires Sized(args)
    ensures |args| > 0 <==> forall n :: 0 < n < |CommandBytes(args)| ==> ReadOne(CommandBytes(args)[..n]).Err?
  {
    hide ReadOne, CommandBytes;
    if |args| > 0 {
      forall n | 0 < n < |CommandBytes(args)| ensures ReadOne(CommandBytes(args)[..n]).Err? {
        CutCommand(args, CommandBytes(args)[..n]);
      }
    } else {
      EmptyCut();
    }
  }

  lemma EmptyCut()
    ensures ReadOne(CommandBytes([])[..2]).Ok?
  {
    hide ParseText;
    assert Decimal(0) == [48];
    var p := CommandBytes([])[..2];
    assert p == [STAR, 48];
    LineLenAll(p);
    assert Chop(p) == p && p[..2] == p && p[1..] == Decimal(0);
    ParseDecimal(0);
  }

  // ------------------------------------------------------------------------ the inline form

  /** Blank, tab, form feed and carriage return separate words within a line. */
  predicate Separates(c: byte) { c == 32 || c == 9 || c == 12 || c == 13 }

  /** A word of an inline command: not empty, and none of the separators or a line feed in it. */
  predicate IsWord(w: seq<byte>) { |w| > 0 && forall i :: 0 <= i < |w| ==> !Separates(w[i]) && w[i] != 10 }

  /** Words with one separator between each two. */
  function Join(ws: Command, seps: seq<byte>): seq<byte>
    requires |seps| + 1 >= |ws|
  {
    if |ws| == 0 then [] else if |ws| == 1 then ws[0] else ws[0] + ([seps[0]] + Join(ws[1..], seps[1..]))
  }

  predicate Joinable(ws: Command, seps: seq<byte>) {
    && |seps| + 1 >= |ws|
    && (forall i :: 0 <= i < |ws| ==> IsWord(ws[i]))
    && (forall i :: 0 <= i < |seps| ==> Separates(seps[i]))
  }

  lemma {:induction false} WordLenIs(w: seq<byte>, rest: seq<byte>)
    requires (forall i :: 0 <= i < |w| ==> !IsSpace(w[i])) && (|rest| > 0 ==> IsSpace(rest[0]))
    ensures WordLen(w + rest) == |w|
  {
    if |w| == 0 {
      assert w + rest == rest;
    } else {
      assert (w + rest)[1..] == w[1..] + rest;
      WordLenIs(w[1..], rest);
    }
  }

  lemma {:induction false} WordsOfJoin(ws: Command, seps: seq<byte>)
    requires Joinable(ws, seps)
    ensures Words(Join(ws, seps)) == ws
  {
    if |ws| > 0 {
      var w := ws[0];
      var rest := if |ws| == 1 then [] else [seps[0]] + Join(ws[1..], seps[1..]);
      assert IsWord(w) && Join(ws, seps) == w + rest;
      assert |ws| > 1 ==> Separates(seps[0]);
      WordLenIs(w, rest);
      assert (w + rest)[..|w|] == w && (w + rest)[|w|..] == rest;
      assert Words(w + rest) == [w] + Words(rest);
      if |ws| > 1 {
        assert rest[1..] == Join(ws[1..], seps[1..]);
        WordsOfJoin(ws[1..], seps[1..]);
      }
      assert [w] + ws[1..] == ws;
    }
  }

  lemma {:induction false} JoinVisible(ws: Command, seps: seq<byte>)
    requires |ws| > 0 && IsWord(ws[0]) && Joinable(ws, seps)
    ensures var j := Join(ws, seps);
      |j| > 0 && j[0] == ws[0][0] && !Separates(j[|j| - 1]) && forall i :: 0 <= i < |j| ==> j[i] != LF
  {
    if |ws| > 1 {
      assert Separates(seps[0]);
      assert IsWord(ws[1]);
      JoinVisible(ws[1..], seps[1..]);
      var j := Join(ws[1..], seps[1..]);
      assert Join(ws, seps) == ws[0] + ([seps[0]] + j);
    }
  }

  /** Words with single separators between them, ended like a line, read back as those words. */
  lemma InlineRoundTrip(ws: Command, seps: seq<byte>, rest: seq<byte>)
    requires |ws| > 0 && Joinable(ws, seps) && IsWord(ws[0]) && ws[0][0] != STAR
    ensures ReadOne(Join(ws, seps) + CRLF + rest) == Ok(Some((ws, rest)))
  {
    hide Words, Join, ParseText, LineLen, Chop, ReadBulks;
    var j := Join(ws, seps);
    var b := j + CRLF + rest;
    JoinVisible(ws, seps);
    LineLenAt(b, |j| + 1);
    assert b[..|j| + 2] == j + CRLF && b[|j| + 2..] == rest;
    ChopLine(j);
    WordsOfJoin(ws, seps);
  }

  lemma ChopLine(t: seq<byte>)
    requires |t| > 0 && !Separates(t[|t| - 1]) && t[|t| - 1] != LF
    ensures Chop(t + CRLF) == t
  {
    assert (t + CRLF)[..|t| + 1] == t + [CR] && (t + [CR])[..|t|] == t;
    assert Chop(t + CRLF) == Chop(t + [CR]) == Chop(t) == t;
  }

  // ------------------------------------------------------- counts and lengths below zero, wrong tags

  /** A null bulk string reads as an empty one, an array of no or negative size as no arguments. */
  lemma NegativeSizes(n: nat, rest: seq<byte>)
    requires 0 < n < 0x8000_0000_0000_0000
    ensures ReadBulk([DOLLAR] + Decimal(0 - n) + CRLF + rest) == Ok(([], rest))
    ensures ReadOne([STAR] + Decimal(0 - n) + CRLF + rest) == Ok(Some(([], rest)))
    ensures ReadOne([STAR] + Decimal(0) + CRLF + rest) == Ok(Some(([], rest)))
  {
    hide ParseText, Decimal, LineLen, Chop, ReadBulks, Words;
    NumberLine(DOLLAR, 0 - n, rest);
    NumberLine(STAR, 0 - n, rest);
    NumberLine(STAR, 0, rest);
    ParseDecimal(0 - n);
    ParseDecimal(0);
  }

  lemma NumberLine(tag: byte, n: i64, rest: seq<byte>)
    requires Visible(tag)
    ensures var h := [tag] + Decimal(n) + CRLF;
      && LineLen(h + rest) == |h| && (h + rest)[..|h|] == h && (h + rest)[|h|..] == rest
      && Chop(h) == [tag] + Decimal(n) && ([tag] + Decimal(n))[1..] == Decimal(n)
  {
    hide LineLen, Chop;
    var d := Digits(Abs(n));
    DigitsAreDigits(Abs(n));
    assert forall i :: 0 <= i < |d| ==> IsDigit(d[i]);
    hide Digits;
    var t := [tag] + Decimal(n);
    var h := t + CRLF;
    assert forall i :: 0 <= i < |t| ==> Visible(t[i]);
    LineLenAt(h + rest, |h| - 1);
    ChopEnds(t);
  }

  /** An argument that does not start with a dollar sign is a protocol error. */
  lemma WrongTag(b: seq<byte>)
    requires |b| > 0 && b[0] != DOLLAR && b[0] != CR && b[0] != LF
    ensures ReadBulk(b) == Err(InvalidData)
  {
    hide LineLen;
    ChopKeepsFirst(b[..LineLen(b)]);
  }

  lemma {:induction false} ChopKeepsFirst(s: seq<byte>)
    requires |s| > 0 && s[0] != CR && s[0] != LF
    ensures |Chop(s)| > 0 && Chop(s)[0] == s[0]
  {
    if s[|s| - 1] == LF || s[|s| - 1] == CR { ChopKeepsFirst(s[..|s| - 1]); }
  }

  // ------------------------------------------------------------------------ main results

  /** A session reads back as exactly its commands and then a clean end. */
  lemma {:induction false} SessionRoundTrip(cs: seq<Command>)
    requires forall i :: 0 <= i < |cs| ==> Sized(cs[i])
    ensures ReadAll(SessionBytes(cs)) == (cs, None)
  {
    hide ReadOne, CommandBytes, Sized;
    if |cs| == 0 {
      EndIsNone();
    } else {
      ReadOneAppend(cs[0], SessionBytes(cs[1..]));
      SessionRoundTrip(cs[1..]);
      assert [cs[0]] + cs[1..] == cs;
    }
  }

  /** The request of the RESP specification's example: `SET foo bar` as an array of bulk strings. */
  lemma WireExample()
    ensures CommandBytes([[83, 69, 84], [102, 111, 111], [98, 97, 114]]) ==
      [42, 51, 13, 10] + [36, 51, 13, 10, 83, 69, 84, 13, 10] + [36, 51, 13, 10, 102, 111, 111, 13, 10]
      + [36, 51, 13, 10, 98, 97, 114, 13, 10]
  {
    hide BulkBytes;
    var a, b, c: seq<byte> := [83, 69, 84], [102, 111, 111], [98, 97, 114];
    BulkOfThree(83, 69, 84);
    BulkOfThree(102, 111, 111);
    BulkOfThree(98, 97, 114);
    var args, two, one, none: Command := [a, b, c], [b, c], [c], [];
    assert args[1..] == two && two[1..] == one && one[1..] == none;
    assert BulksBytes(one) == BulkBytes(c) + BulksBytes(none);
    assert BulksBytes(two) == BulkBytes(b) + BulksBytes(one);
    assert Header(STAR, 3) == [42, 51, 13, 10];
  }

  lemma BulkOfThree(x: byte, y: byte, z: byte)
    ensures BulkBytes([x, y, z]) == [36, 51, 13, 10, x, y, z, 13, 10]
  {
    assert Header(DOLLAR, 3) == [36, 51, 13, 10];
  }

  lemma EndIsNone()
    ensures ReadOne([]) == Ok(None)
  {}

  /**
   * On any byte prefix of a session the commands wholly inside it are read, in order, and nothing
   * else; the end is clean exactly when the cut falls between two commands.
   */
  lemma {:induction false} SessionPrefix(cs: seq<Command>, n: nat) returns (k: nat)
    requires forall i :: 0 <= i < |cs| ==> Sized(cs[i]) && |cs[i]| > 0
    requires n <= |SessionBytes(cs)|
    ensures k <= |cs| && |SessionBytes(cs[..k])| <= n
    ensures k < |cs| ==> n < |SessionBytes(cs[..k + 1])|
    ensures ReadAll(SessionBytes(cs)[..n]).0 == cs[..k]
    ensures ReadAll(SessionBytes(cs)[..n]).1.None? <==> n == |SessionBytes(cs[..k])|
  {
    hide ReadOne, CommandBytes, Sized;
    EndIsNone();
    var p := SessionBytes(cs)[..n];
    if |cs| == 0 {
      k := 0;
      assert p == [];
    } else {
      var b := CommandBytes(cs[0]);
      if n < |b| {
        k := 0;
        assert p == b[..|p|];
        if n > 0 { CutCommand(cs[0], p); }
        assert cs[..1][1..] == [] && SessionBytes(cs[..1]) == b;
      } else {
        var j := SessionPrefix(cs[1..], n - |b|);
        var q := SessionBytes(cs[1..])[..n - |b|];
        assert p == b + q;
        ReadOneAppend(cs[0], q);
        k := j + 1;
        assert cs[..k][1..] == cs[1..][..j] && cs[..k][0] == cs[0];
        assert [cs[0]] + cs[1..][..j] == cs[..k];
        if k < |cs| {
          assert cs[..k + 1][1..] == cs[1..][..j + 1] && cs[..k + 1][0] == cs[0];
        }
      }
    }
  }
}
