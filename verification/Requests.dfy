/**
 RESP requests: the client's encoder, the server's frame parser, and the incremental stream
 parser. Positions count bytes from the start of the buffer.
 */
module Requests {
  import opened Basics
  import opened Bytes

  /** A parse that is finished, needs more bytes, or has failed for good. */
  datatype Parse<+T> =
    | Complete(value: T, next: nat)
    | Incomplete
    | Malformed(message: string)

  type Tokens = seq<string>

  /** Index of the first CRLF at or after `start`. */
  function FindCrlf(m: Data, start: nat): (r: Option<nat>)
    requires start <= |m|
    ensures r.Some? ==>
              && start <= r.value && r.value + 2 <= |m|
              && m[r.value..r.value + 2] == CRLF
    decreases |m| - start
  {
    if start + 2 > |m| then None
    else if m[start..start + 2] == CRLF then Some(start)
    else FindCrlf(m, start + 1)
  }

  function ReadLine(m: Data, start: nat): (r: Parse<Data>)
    requires start <= |m|
    ensures !r.Malformed?
    ensures r.Complete? ==> start + 2 <= r.next <= |m| && r.value == m[start..r.next - 2]
  {
    var end := FindCrlf(m, start);
    if end.None? then Incomplete else Complete(m[start..end.value], end.value + 2)
  }

  const STAR: Byte := 42
  const DOLLAR: Byte := 36

  function ParseArrayHeader(m: Data, start: nat): (r: Parse<nat>)
    requires start <= |m|
    ensures r.Complete? ==> start + 4 <= r.next <= |m|
  {
    if start >= |m| then Incomplete
    else if m[start] != STAR then Malformed("expected RESP array")
    else
      var line := ReadLine(m, start + 1);
      if line.Incomplete? then Incomplete
      else
        var count := ParseInt(line.value);
        if count.None? then Parse<nat>.Malformed("invalid RESP array length")
        else if count.value < 0 then Parse<nat>.Malformed("negative RESP array length is not supported")
        else Complete(count.value, line.next)
  }

  function ParseBulkString(m: Data, start: nat): (r: Parse<string>)
    requires start <= |m|
    ensures r.Complete? ==> start < r.next <= |m|
  {
    if start >= |m| then Incomplete
    else if m[start] != DOLLAR then Malformed("expected RESP bulk string")
    else
      var line := ReadLine(m, start + 1);
      if line.Incomplete? then Incomplete
      else
        var length := ParseInt(line.value);
        if length.None? then Malformed("invalid RESP bulk string length")
        else if length.value < 0 then Malformed("null bulk strings are not supported in requests")
        else
          var dataEnd := line.next + length.value;
          if dataEnd + 2 > |m| then Incomplete
          else if m[dataEnd..dataEnd + 2] != CRLF then Malformed("RESP bulk string payload must end with CRLF")
          else
            var token := Decode(m[line.next..dataEnd]);
            if token.None? then Malformed("RESP bulk string must be valid UTF-8")
            else Complete(token.value, dataEnd + 2)
  }

  /** The remaining `count` tokens of a frame, appended to those already read. */
  function ParseTokens(m: Data, start: nat, count: nat, tokens: Tokens): (r: Parse<Tokens>)
    requires start <= |m|
    ensures r.Complete? ==> start <= r.next <= |m|
    decreases count
  {
    if count == 0 then Complete(tokens, start)
    else
      match ParseBulkString(m, start)
      case Incomplete => Incomplete
      case Malformed(message) => Malformed(message)
      case Complete(token, next) => ParseTokens(m, next, count - 1, tokens + [token])
  }

  /** One frame at the start of the buffer; a frame is at least four bytes long. */
  function ParseFrame(m: Data): (r: Parse<Tokens>)
    ensures r.Complete? ==> 4 <= r.next <= |m|
  {
    match ParseArrayHeader(m, 0)
    case Incomplete => Incomplete
    case Malformed(message) => Malformed(message)
    case Complete(count, next) => ParseTokens(m, next, count, [])
  }

  method ParseRespFrame(m: Data) returns (r: Parse<Tokens>)
    ensures r == ParseFrame(m)
  {
    hide ParseArrayHeader;
    hide ParseBulkString;
    var header := ParseArrayHeader(m, 0);
    match header {
      case Incomplete => return Incomplete;
      case Malformed(message) => return Malformed(message);
      case Complete(count, start) =>
        var command, next := [], start;
        for i := 0 to count
          invariant start <= next <= |m|
          invariant ParseTokens(m, next, count - i, command) == ParseTokens(m, start, count, [])
        {
          match ParseBulkString(m, next) {
            case Incomplete => return Incomplete;
            case Malformed(message) => return Malformed(message);
            case Complete(token, after) =>
              command := command + [token];
              next := after;
          }
        }
        return Complete(command, next);
    }
  }

  // ---- A verdict never changes when bytes are appended ----

  lemma {:induction false} FindCrlfStable(m: Data, more: Data, start: nat)
    requires start <= |m|
    ensures FindCrlf(m, start).Some? ==> FindCrlf(m + more, start) == FindCrlf(m, start)
    decreases |m| - start
  {
    if start + 2 <= |m| {
      assert (m + more)[start..start + 2] == m[start..start + 2];
      FindCrlfStable(m, more, start + 1);
    }
  }

  lemma ReadLineStable(m: Data, more: Data, start: nat)
    requires start <= |m|
    ensures ReadLine(m, start).Complete? ==> ReadLine(m + more, start) == ReadLine(m, start)
  {
    FindCrlfStable(m, more, start);
    if FindCrlf(m, start).Some? {
      var end := FindCrlf(m, start).value;
      assert (m + more)[start..end] == m[start..end];
    }
  }

  lemma BulkStringStable(m: Data, more: Data, start: nat)
    requires start <= |m|
    ensures !ParseBulkString(m, start).Incomplete? ==>
              ParseBulkString(m + more, start) == ParseBulkString(m, start)
  {
    hide FindCrlf;
    hide ParseInt;
    hide Decode;
    if start < |m| && m[start] == DOLLAR {
      ReadLineStable(m, more, start + 1);
      var line := ReadLine(m, start + 1);
      if line.Complete? && ParseInt(line.value).Some? && ParseInt(line.value).value >= 0 {
        var dataEnd := line.next + ParseInt(line.value).value;
        if dataEnd + 2 <= |m| {
          assert (m + more)[dataEnd..dataEnd + 2] == m[dataEnd..dataEnd + 2];
          assert (m + more)[line.next..dataEnd] == m[line.next..dataEnd];
        }
      }
    }
  }

  lemma {:induction false} TokensStable(m: Data, more: Data, start: nat, count: nat, tokens: Tokens)
    requires start <= |m|
    ensures !ParseTokens(m, start, count, tokens).Incomplete? ==>
              ParseTokens(m + more, start, count, tokens) == ParseTokens(m, start, count, tokens)
    decreases count
  {
    hide ParseBulkString;
    if count > 0 {
      BulkStringStable(m, more, start);
      var token := ParseBulkString(m, start);
      if token.Complete? {
        TokensStable(m, more, token.next, count - 1, tokens + [token.value]);
      }
    }
  }

  /** A complete or failed verdict on a buffer stands whatever bytes follow. */
  lemma FrameStable(m: Data, more: Data)
    ensures !ParseFrame(m).Incomplete? ==> ParseFrame(m + more) == ParseFrame(m)
  {
    if |m| > 0 && m[0] == STAR {
      ReadLineStable(m, more, 1);
      var header := ParseArrayHeader(m, 0);
      if header.Complete? {
        TokensStable(m, more, header.next, header.value, []);
      }
    }
  }

  // ---- Draining a buffer ----

  datatype Drained = Drained(commands: seq<Tokens>, rest: Data, failure: Option<string>)

  /** All frames at the start of a buffer, up to an unfinished or a malformed one. */
  function Drain(m: Data): Drained
    decreases |m|
  {
    if m == [] then Drained([], [], None)
    else
      match ParseFrame(m)
      case Incomplete => Drained([], m, None)
      case Malformed(message) => Drained([], m, Some(message))
      case Complete(command, next) =>
        var d := Drain(m[next..]);
        Drained([command] + d.commands, d.rest, d.failure)
  }

  function After(d: Drained, more: Data): Drained {
    if d.failure.Some? then Drained(d.commands, d.rest + more, d.failure)
    else
      var d' := Drain(d.rest + more);
      Drained(d.commands + d'.commands, d'.rest, d'.failure)
  }

  /** Draining a longer buffer goes on from where draining its prefix stopped. */
  lemma {:induction false} DrainAppend(m: Data, more: Data)
    ensures Drain(m + more) == After(Drain(m), more)
    decreases |m|
  {
    hide ParseFrame;
    if m == [] {
      assert m + more == more;
      assert Drain(m).rest + more == more;
    } else {
      FrameStable(m, more);
      var r := ParseFrame(m);
      if r.Complete? {
        assert (m + more)[r.next..] == m[r.next..] + more;
        DrainAppend(m[r.next..], more);
        var d := Drain(m[r.next..]);
        assert [r.value] + (d.commands + Drain(d.rest + more).commands)
            == [r.value] + d.commands + Drain(d.rest + more).commands;
      }
    }
  }

  function Concat(chunks: seq<Data>): Data {
    if chunks == [] then [] else chunks[0] + Concat(chunks[1..])
  }

  /** What a feed returns: the commands it completed, or the protocol error it raised. */
  datatype FeedResult = Commands(commands: seq<Tokens>) | Raised(message: string)

  /** A feed that raises returns none of the commands it had completed. */
  function ResultOf(d: Drained): FeedResult {
    match d.failure
    case None => Commands(d.commands)
    case Some(message) => Raised(message)
  }

  datatype Fed = Fed(results: seq<FeedResult>, rest: Data)

  /** What successive feeds return, and what is buffered in the end. */
  function FeedAll(buffer: Data, chunks: seq<Data>): (fed: Fed)
    ensures |fed.results| == |chunks|
    decreases chunks
  {
    if chunks == [] then Fed([], buffer)
    else
      var d := Drain(buffer + chunks[0]);
      var later := FeedAll(d.rest, chunks[1..]);
      Fed([ResultOf(d)] + later.results, later.rest)
  }

  /** The commands that the caller of these feeds obtains. */
  function Obtained(results: seq<FeedResult>): seq<Tokens> {
    if results == [] then []
    else (if results[0].Commands? then results[0].commands else []) + Obtained(results[1..])
  }

  /** How many feeds return before the first one raises. */
  function Returning(results: seq<FeedResult>): (n: nat)
    ensures n <= |results|
    ensures forall i :: 0 <= i < n ==> results[i].Commands?
    ensures n < |results| ==> results[n].Raised?
  {
    if results == [] || results[0].Raised? then 0 else 1 + Returning(results[1..])
  }

  /**
   What cutting a stream into chunks may change. Never the bytes that are buffered in the end,
   nor whether and with which message the stream fails. Without an error no feed raises, and
   the feeds together return the commands of one big feed. With an error the feeds return what
   the chunks before the first raising one hold, a prefix of all commands before the error, and
   from then on every feed raises.
   */
  ghost predicate ChunkLaw(whole: Drained, fed: Fed, before: seq<Tokens>) {
    var n := Returning(fed.results);
    && fed.rest == whole.rest
    && (whole.failure.None? <==> n == |fed.results|)
    && (whole.failure.None? ==> Obtained(fed.results) == whole.commands)
    && (forall i :: n <= i < |fed.results| ==>
          whole.failure.Some? && fed.results[i] == Raised(whole.failure.value))
    && Obtained(fed.results) == before
    && Obtained(fed.results) <= whole.commands
  }

  /** The law of chunks, for every chunking; the buffer the feeds start from holds no whole frame. */
  lemma {:induction false} ChunksDoNotMatter(buffer: Data, chunks: seq<Data>)
    requires Drain(buffer) == Drained([], buffer, None)
    ensures var whole, fed := Drain(buffer + Concat(chunks)), FeedAll(buffer, chunks);
            ChunkLaw(whole, fed, Drain(buffer + Concat(chunks[..Returning(fed.results)])).commands)
    decreases chunks
  {
    hide Drain;
    if chunks == [] {
      assert buffer + Concat(chunks) == buffer && buffer + Concat(chunks[..0]) == buffer;
    } else {
      hide ChunkLaw;
      var b := buffer + chunks[0];
      RestIsDrained(b);
      assert buffer + Concat(chunks) == b + Concat(chunks[1..]);
      DrainAppend(b, Concat(chunks[1..]));
      if Drain(b).failure.None? {
        ChunksDoNotMatter(Drain(b).rest, chunks[1..]);
        FirstFeedReturns(buffer, chunks);
      } else {
        FirstFeedRaises(buffer, chunks);
      }
    }
  }

  lemma FirstFeedReturns(buffer: Data, chunks: seq<Data>)
    requires chunks != [] && Drain(buffer + chunks[0]).failure.None?
    requires var rest, fed := Drain(buffer + chunks[0]).rest, FeedAll(Drain(buffer + chunks[0]).rest, chunks[1..]);
             ChunkLaw(Drain(rest + Concat(chunks[1..])), fed,
                      Drain(rest + Concat(chunks[1..][..Returning(fed.results)])).commands)
    ensures var whole, fed := Drain(buffer + Concat(chunks)), FeedAll(buffer, chunks);
            ChunkLaw(whole, fed, Drain(buffer + Concat(chunks[..Returning(fed.results)])).commands)
  {
    hide Drain;
    hide ChunkLaw;
    hide Obtained;
    hide Returning;
    hide Concat;
    var d := Drain(buffer + chunks[0]);
    var later := FeedAll(d.rest, chunks[1..]);
    var n := Returning(later.results);
    ReturnFirst(d.commands, later);
    DrainOnward(buffer, chunks, |chunks| - 1);
    DrainOnward(buffer, chunks, n);
    LawAfterReturn(d.commands, Drain(d.rest + Concat(chunks[1..])), later,
                   Drain(d.rest + Concat(chunks[1..][..n])).commands);
  }

  lemma DrainOnward(buffer: Data, chunks: seq<Data>, n: nat)
    requires n < |chunks|
    ensures Drain(buffer + Concat(chunks[..n + 1]))
         == After(Drain(buffer + chunks[0]), Concat(chunks[1..][..n]))
    ensures n == |chunks| - 1 ==> chunks[..n + 1] == chunks && chunks[1..][..n] == chunks[1..]
  {
    hide Drain;
    assert chunks[..n + 1][1..] == chunks[1..][..n];
    assert buffer + Concat(chunks[..n + 1]) == buffer + chunks[0] + Concat(chunks[1..][..n]);
    DrainAppend(buffer + chunks[0], Concat(chunks[1..][..n]));
  }

  lemma ReturnFirst(commands: seq<Tokens>, later: Fed)
    ensures var results := [Commands(commands)] + later.results;
            Obtained(results) == commands + Obtained(later.results) && Returning(results) == 1 + Returning(later.results)
  {
    assert ([Commands(commands)] + later.results)[1..] == later.results;
  }

  lemma LawAfterReturn(commands: seq<Tokens>, whole: Drained, later: Fed, before: seq<Tokens>)
    requires ChunkLaw(whole, later, before)
    ensures ChunkLaw(Drained(commands + whole.commands, whole.rest, whole.failure),
                     Fed([Commands(commands)] + later.results, later.rest), commands + before)
  {
    hide Obtained;
    hide Returning;
    ReturnFirst(commands, later);
    var results := [Commands(commands)] + later.results;
    assert forall i :: 0 < i < |results| ==> results[i] == later.results[i - 1];
  }

  lemma FirstFeedRaises(buffer: Data, chunks: seq<Data>)
    requires Drain(buffer) == Drained([], buffer, None)
    requires chunks != [] && Drain(buffer + chunks[0]).failure.Some?
    ensures var whole, fed := Drain(buffer + Concat(chunks)), FeedAll(buffer, chunks);
            ChunkLaw(whole, fed, Drain(buffer + Concat(chunks[..Returning(fed.results)])).commands)
  {
    hide Drain;
    var b, d := buffer + chunks[0], Drain(buffer + chunks[0]);
    RestIsDrained(b);
    assert buffer + Concat(chunks) == b + Concat(chunks[1..]);
    DrainAppend(b, Concat(chunks[1..]));
    ErrorsPersist(d.rest, d.failure.value, chunks[1..]);
    assert buffer + Concat(chunks[..0]) == buffer;
    var fed := FeedAll(buffer, chunks);
    assert fed.results[1..] == FeedAll(d.rest, chunks[1..]).results;
  }

  /** Once a feed has raised, every later feed raises the same error and keeps all bytes. */
  lemma {:induction false} ErrorsPersist(buffer: Data, message: string, chunks: seq<Data>)
    requires Drain(buffer) == Drained([], buffer, Some(message))
    ensures var fed := FeedAll(buffer, chunks);
            && fed.rest == buffer + Concat(chunks)
            && (forall i :: 0 <= i < |chunks| ==> fed.results[i] == Raised(message))
            && Obtained(fed.results) == []
    decreases chunks
  {
    hide Drain;
    if chunks != [] {
      DrainAppend(buffer, chunks[0]);
      ErrorsPersist(buffer + chunks[0], message, chunks[1..]);
    }
  }

  /** A command completed by the feed that raises is lost; it is not if its chunk ends before the error. */
  lemma ErrorLosesCommands()
    ensures var frame, bad := EncodeCommand(["PING"]), [DOLLAR];
            && Drain(frame + bad) == Drained([["PING"]], bad, Some("expected RESP array"))
            && FeedAll([], [frame + bad]).results == [Raised("expected RESP array")]
            && FeedAll([], [frame, bad]).results == [Commands([["PING"]]), Raised("expected RESP array")]
  {
    var frame, bad := EncodeCommand(["PING"]), [DOLLAR];
    hide Drain;
    hide EncodeCommand;
    FrameThenError(frame, ["PING"], bad);
    var two: seq<Data> := [frame, bad];
    assert [] + frame == frame && [] + bad == bad && [] + (frame + bad) == frame + bad && two[1..] == [bad];
    assert FeedAll([], [bad]).results == [Raised("expected RESP array")];
  }

  lemma FrameThenError(frame: Data, command: Tokens, bad: Data)
    requires frame == EncodeCommand(command) && bad == [DOLLAR]
    ensures Drain(frame) == Drained([command], [], None)
    ensures Drain(bad) == Drained([], bad, Some("expected RESP array"))
    ensures Drain(frame + bad) == Drained([command], bad, Some("expected RESP array"))
  {
    CommandRoundTrip(command, []);
    assert frame + [] == frame && frame[|frame|..] == [];
    DrainAppend(frame, bad);
  }

  lemma {:induction false} RestIsDrained(m: Data)
    ensures Drain(Drain(m).rest) == Drained([], Drain(m).rest, Drain(m).failure)
    decreases |m|
  {
    hide ParseFrame;
    if m != [] && ParseFrame(m).Complete? {
      RestIsDrained(m[ParseFrame(m).next..]);
    }
  }

  class RespStreamParser {
    var buffer: Data

    constructor ()
      ensures buffer == []
    {
      buffer := [];
    }

    /** An error discards the commands of this feed and leaves the bytes from the bad frame on. */
    method FeedData(chunk: Data) returns (r: FeedResult)
      modifies this
      ensures var d := Drain(old(buffer) + chunk);
              && buffer == d.rest
              && r == ResultOf(d)
    {
      buffer := buffer + chunk;
      ghost var d := Drain(buffer);
      var commands := [];
      while buffer != []
        invariant d == Drained(commands + Drain(buffer).commands, Drain(buffer).rest, Drain(buffer).failure)
        decreases |buffer|
      {
        var frame := ParseRespFrame(buffer);
        match frame {
          case Incomplete => break;
          case Malformed(message) => return Raised(message);
          case Complete(command, consumed) =>
            commands := commands + [command];
            buffer := buffer[consumed..];
        }
      }
      return Commands(commands);
    }

    method Reset()
      modifies this
      ensures buffer == []
    {
      buffer := [];
    }
  }

  // ---- The client's encoder and its round trip ----

  function EncodeToken(token: string): Data {
    [DOLLAR] + PrintNat(|Encode(token)|) + CRLF + Encode(token) + CRLF
  }

  function EncodeTokens(tokens: Tokens): Data {
    if tokens == [] then [] else EncodeToken(tokens[0]) + EncodeTokens(tokens[1..])
  }

  function EncodeCommand(tokens: Tokens): Data {
    [STAR] + PrintNat(|tokens|) + CRLF + EncodeTokens(tokens)
  }

  method EncodeCommandBytes(tokens: Tokens) returns (request: Data)
    ensures request == EncodeCommand(tokens)
  {
    hide Encode;
    hide PrintNat;
    request := [STAR] + PrintNat(|tokens|) + CRLF;
    for i := 0 to |tokens|
      invariant request + EncodeTokens(tokens[i..]) == EncodeCommand(tokens)
    {
      assert tokens[i..][0] == tokens[i] && tokens[i..][1..] == tokens[i + 1..];
      var encoded := Encode(tokens[i]);
      ghost var before := request;
      request := request + ([DOLLAR] + PrintNat(|encoded|) + CRLF);
      request := request + (encoded + CRLF);
      assert request == before + EncodeToken(tokens[i]);
    }
  }

  /** A line without CR, put anywhere in a buffer, is read back whole. */
  lemma {:induction false} FindCrlfSkips(m: Data, start: nat, line: Data)
    requires start <= |m| && CR !in line
    requires line + CRLF <= m[start..]
    ensures FindCrlf(m, start) == Some(start + |line|)
    decreases |line|
  {
    var tail := m[start..];
    assert tail[..|line| + 2] == line + CRLF;
    assert m[start..start + 2] == tail[..2];
    if line == [] {
      assert tail[..2] == CRLF;
    } else {
      assert tail[0] == line[0];
      assert m[start + 1..] == tail[1..];
      assert line[1..] + CRLF <= m[start + 1..];
      FindCrlfSkips(m, start + 1, line[1..]);
    }
  }

  lemma ReadLineBack(m: Data, start: nat, line: Data)
    requires start <= |m| && CR !in line
    requires line + CRLF <= m[start..]
    ensures ReadLine(m, start) == Complete(line, start + |line| + 2)
  {
    FindCrlfSkips(m, start, line);
    assert m[start..start + |line|] == m[start..][..|line|] == line;
  }

  /** A part of what is known to stand at a position. */
  lemma PartAt(m: Data, start: nat, before: Data, part: Data, after: Data)
    requires start <= |m|
    requires before + part + after <= m[start..]
    ensures start + |before| + |part| <= |m|
    ensures m[start + |before|..start + |before| + |part|] == part
    ensures part + after <= m[start + |before|..]
  {
  }

  /** A payload with its length in front and CRLF behind, put anywhere in a buffer. */
  lemma BulkBack(m: Data, start: nat, payload: Data)
    requires start <= |m|
    requires [DOLLAR] + PrintNat(|payload|) + CRLF + payload + CRLF <= m[start..]
    ensures var next := start + |PrintNat(|payload|)| + 3;
            && m[start] == DOLLAR
            && ReadLine(m, start + 1) == Complete(PrintInt(|payload|), next)
            && next + |payload| + 2 <= |m|
            && m[next..next + |payload|] == payload
            && m[next + |payload|..next + |payload| + 2] == CRLF
  {
    hide PrintNat;
    hide ReadLine;
    var digits := PrintNat(|payload|);
    var d: Data := [DOLLAR];
    assert d + digits + CRLF + payload + CRLF == [] + d + (digits + CRLF + payload + CRLF);
    PartAt(m, start, [], d, digits + CRLF + payload + CRLF);
    assert d + digits + CRLF + payload + CRLF == d + (digits + CRLF) + (payload + CRLF);
    PartAt(m, start, d, digits + CRLF, payload + CRLF);
    PrintNatHasNoCr(|payload|);
    ReadLineBack(m, start + 1, digits);
    var header := d + digits + CRLF;
    assert d + digits + CRLF + payload + CRLF == header + payload + CRLF;
    PartAt(m, start, header, payload, CRLF);
    assert d + digits + CRLF + payload + CRLF == header + payload + CRLF + [];
    PartAt(m, start, header + payload, CRLF, []);
  }

  lemma TokenRoundTrip(m: Data, start: nat, token: string)
    requires start <= |m|
    requires EncodeToken(token) <= m[start..]
    ensures ParseBulkString(m, start) == Complete(token, start + |EncodeToken(token)|)
  {
    hide ReadLine;
    hide ParseInt;
    hide Decode;
    hide Encode;
    BulkBack(m, start, Encode(token));
    ParsePrintInt(|Encode(token)|);
    DecodeEncode(token);
  }

  lemma {:induction false} TokensRoundTrip(m: Data, start: nat, tokens: Tokens, before: Tokens)
    requires start <= |m|
    requires EncodeTokens(tokens) <= m[start..]
    ensures ParseTokens(m, start, |tokens|, before) == Complete(before + tokens, start + |EncodeTokens(tokens)|)
    decreases tokens
  {
    hide ParseBulkString;
    hide EncodeToken;
    if tokens == [] {
      assert before + tokens == before;
    } else {
      var first, rest := EncodeToken(tokens[0]), EncodeTokens(tokens[1..]);
      assert first <= m[start..];
      TokenRoundTrip(m, start, tokens[0]);
      var next := start + |first|;
      assert rest <= m[next..] by {
        assert m[next..] == m[start..][|first|..];
      }
      TokensRoundTrip(m, next, tokens[1..], before + [tokens[0]]);
      assert before + [tokens[0]] + tokens[1..] == before + tokens;
    }
  }

  /** A number on a line of its own, after a type byte, put anywhere in a buffer. */
  lemma NumberLineBack(m: Data, start: nat, prefix: Byte, n: int)
    requires start <= |m|
    requires [prefix] + PrintInt(n) + CRLF <= m[start..]
    ensures start < |m| && m[start] == prefix
    ensures ReadLine(m, start + 1) == Complete(PrintInt(n), start + |PrintInt(n)| + 3)
    ensures ParseInt(PrintInt(n)) == Some(n)
  {
    hide PrintInt;
    hide ReadLine;
    hide ParseInt;
    var d: Data, digits := [prefix], PrintInt(n);
    assert d + digits + CRLF == [] + d + (digits + CRLF);
    PartAt(m, start, [], d, digits + CRLF);
    assert d + digits + CRLF == d + (digits + CRLF) + [];
    PartAt(m, start, d, digits + CRLF, []);
    PrintIntHasNoCr(n);
    ReadLineBack(m, start + 1, digits);
    ParsePrintInt(n);
  }

  /** The server parses back exactly the tokens, and consumes exactly the request, whatever follows. */
  lemma CommandRoundTrip(tokens: Tokens, more: Data)
    ensures ParseFrame(EncodeCommand(tokens) + more) == Complete(tokens, |EncodeCommand(tokens)|)
  {
    hide ReadLine;
    hide ParseInt;
    hide PrintNat;
    hide EncodeTokens;
    hide ParseTokens;
    var m := EncodeCommand(tokens) + more;
    var header, body := [STAR] + PrintNat(|tokens|) + CRLF, EncodeTokens(tokens);
    assert PrintInt(|tokens|) == PrintNat(|tokens|);
    assert m == header + body + more;
    assert m[0..] == m;
    NumberLineBack(m, 0, STAR, |tokens|);
    assert m[|header|..] == body + more;
    TokensRoundTrip(m, |header|, tokens, []);
    assert [] + tokens == tokens;
  }

  function EncodeCommands(commands: seq<Tokens>): Data {
    if commands == [] then [] else EncodeCommand(commands[0]) + EncodeCommands(commands[1..])
  }

  lemma {:induction false} CommandsRoundTrip(commands: seq<Tokens>)
    ensures Drain(EncodeCommands(commands)) == Drained(commands, [], None)
  {
    if commands != [] {
      var rest := EncodeCommands(commands[1..]);
      CommandRoundTrip(commands[0], rest);
      assert EncodeCommands(commands)[|EncodeCommand(commands[0])|..] == rest;
      CommandsRoundTrip(commands[1..]);
      assert [commands[0]] + commands[1..] == commands;
    }
  }
}
