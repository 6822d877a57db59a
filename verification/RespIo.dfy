/** The RESP2 parser as it runs: a buffered stream consumed step by step (resp.rs, ob_lincheck.rs). */
module RespIo {
  import opened Wrappers
  import opened Bytes
  import opened Text
  import opened Resp

  /** A `BufRead` whose bytes are all there; `pos` is what has been consumed. */
  class Input {
    const b: seq<byte>
    var pos: nat

    ghost predicate Valid()
      reads this
    {
      pos <= |b|
    }

    ghost function Rest(): seq<byte>
      requires Valid()
      reads this
    {
      b[pos..]
    }

    constructor (bytes: seq<byte>)
      ensures Valid() && Rest() == bytes
    {
      b := bytes;
      pos := 0;
    }

    /** `read_until(b'\n')`. */
    method ReadUntilLF() returns (raw: seq<byte>)
      requires Valid()
      modifies this
      ensures Valid()
      ensures raw == old(Rest())[..LineLen(old(Rest()))]
      ensures Rest() == old(Rest())[LineLen(old(Rest()))..]
    {
      var start := pos;
      ghost var all := Rest();
      while pos < |b| && b[pos] != LF
        invariant Valid() && start <= pos
        invariant forall i :: start <= i < pos ==> b[i] != LF
      {
        pos := pos + 1;
      }
      if pos < |b| {
        LineLenAt(all, pos - start);
        pos := pos + 1;
      } else {
        LineLenAll(all);
      }
      raw := b[start..pos];
    }

    /** `read_exact`: all the bytes or an error. */
    method ReadExact(n: nat) returns (r: Result<seq<byte>>)
      requires Valid()
      modifies this
      ensures Valid()
      ensures r.Ok? <==> n <= |old(Rest())|
      ensures r.Ok? ==> r.value == old(Rest())[..n] && Rest() == old(Rest())[n..]
      ensures r.Err? ==> r.error == UnexpectedEof
    {
      if pos + n > |b| {
        pos := |b|;
        return Err(UnexpectedEof);
      }
      r := Ok(b[pos..pos + n]);
      assert b[pos..][..n] == b[pos..pos + n] && b[pos..][n..] == b[pos + n..];
      pos := pos + n;
    }
  }

  /** `read_line`: the line without its end, and how many bytes it took. */
  method ReadLine(r: Input) returns (line: seq<byte>, n: nat)
    requires r.Valid()
    modifies r
    ensures r.Valid()
    ensures n == LineLen(old(r.Rest()))
    ensures line == Chop(old(r.Rest())[..n])
    ensures r.Rest() == old(r.Rest())[n..]
  {
    line := r.ReadUntilLF();
    n := |line|;
    ghost var raw := line;
    while |line| > 0 && (line[|line| - 1] == LF || line[|line| - 1] == CR)
      invariant Chop(line) == Chop(raw)
    {
      line := line[..|line| - 1];
    }
  }

  /** `read_command`. */
  method ReadCommand(r: Input) returns (out: Result<Option<Command>>)
    requires r.Valid()
    modifies r
    ensures r.Valid()
    ensures match ReadOne(old(r.Rest()))
      case Err(e) => out == Err(e)
      case Ok(None) => out == Ok(None) && r.Rest() == []
      case Ok(Some((args, rest))) => out == Ok(Some(args)) && r.Rest() == rest
  {
    hide LineLen, Chop, ParseText, Words;
    var line, n := ReadLine(r);
    if n == 0 {
      return Ok(None);
    }
    if |line| == 0 {
      return Ok(Some([]));
    }
    if line[0] != STAR {
      return Ok(Some(Words(line)));
    }
    var count := ParseText(line[1..]);
    if count.None? {
      return Err(InvalidData);
    }
    if count.value <= 0 {
      return Ok(Some([]));
    }
    var args := ReadArgs(r, count.value);
    out := match args case Ok(a) => Ok(Some(a)) case Err(e) => Err(e);
  }

  /** The argument loop of `read_command`. */
  method ReadArgs(r: Input, count: nat) returns (out: Result<Command>)
    requires r.Valid()
    modifies r
    ensures r.Valid()
    ensures match ReadBulks([], count, old(r.Rest()))
      case Err(e) => out == Err(e)
      case Ok((args, rest)) => out == Ok(args) && r.Rest() == rest
  {
    hide LineLen, Chop, ParseText;
    var args: Command := [];
    var i := 0;
    while i < count
      invariant 0 <= i <= count && r.Valid()
      invariant ReadBulks([], count, old(r.Rest())) == ReadBulks(args, count - i, r.Rest())
    {
      var hdr, n := ReadLine(r);
      if n == 0 {
        return Err(UnexpectedEof);
      }
      if |hdr| == 0 || hdr[0] != DOLLAR {
        return Err(InvalidData);
      }
      var len := ParseText(hdr[1..]);
      if len.None? {
        return Err(InvalidData);
      }
      if len.value < 0 {
        args := args + [[]];
      } else {
        var size: nat := len.value;
        ghost var rest := r.Rest();
        var buf := r.ReadExact(size + 2);
        if buf.Err? {
          return Err(buf.error);
        }
        assert rest[..size + 2][..size] == rest[..size];
        args := args + [buf.value[..size]];
      }
      i := i + 1;
    }
    out := Ok(args);
  }

  /** The request a client builds in `resp_cmd`. */
  method EncodeCommand(parts: Command) returns (req: seq<byte>)
    ensures req == CommandBytes(parts)
  {
    hide Decimal, BulkBytes;
    req := [STAR] + Decimal(|parts|) + CRLF;
    var i := 0;
    while i < |parts|
      invariant 0 <= i <= |parts|
      invariant req + BulksBytes(parts[i..]) == CommandBytes(parts)
    {
      BulkUnfolds(parts[i]);
      req := req + BulkBytes(parts[i]);
      i := i + 1;
    }
    assert req + [] == req;
  }

  lemma BulkUnfolds(p: seq<byte>)
    ensures BulkBytes(p) == [DOLLAR] + Decimal(|p|) + CRLF + p + CRLF
  {
    hide Decimal;
  }

  /** Repeated `read_command` until the input ends or breaks. */
  method ReadSession(bytes: seq<byte>) returns (cs: seq<Command>, stop: Option<Error>)
    ensures (cs, stop) == ReadAll(bytes)
  {
    hide ReadOne;
    var r := new Input(bytes);
    cs, stop := [], None;
    assert [] + ReadAll(bytes).0 == ReadAll(bytes).0;
    while true
      invariant r.Valid() && fresh(r)
      invariant cs + ReadAll(r.Rest()).0 == ReadAll(bytes).0 && ReadAll(r.Rest()).1 == ReadAll(bytes).1
      decreases |r.Rest()|
    {
      assert cs + [] == cs;
      var c := ReadCommand(r);
      match c
      case Err(e) =>
        stop := Some(e);
        return;
      case Ok(None) =>
        return;
      case Ok(Some(args)) =>
        assert cs + ([args] + ReadAll(r.Rest()).0) == (cs + [args]) + ReadAll(r.Rest()).0;
        cs := cs + [args];
    }
  }
}
