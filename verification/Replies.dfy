/**
 RESP replies: how the server encodes a command's result or error, and how the client parses
 the answer. Encoders yield the bytes that go on the wire, that is, the UTF-8 of the text.
 */
module Replies {
  import opened Basics
  import opened Bytes
  import opened Requests

  // ---- Server side ----

  datatype Scalar = Str(text: string) | Int(n: int) | Null

  datatype CommandResult = One(scalar: Scalar) | Many(items: seq<Scalar>)

  /** How a command handler ends: with a result, or with an exception of some class. */
  datatype Ending = Returned(result: CommandResult) | Threw(message: string, kind: string)

  const SIMPLE: Byte := 43
  const ERROR: Byte := 45
  const INTEGER: Byte := 58

  /** Two literals: the verifier does not look into one as long as this. */
  const LINE_ERROR := "RESP line values must not contain " + "CR or LF characters."

  function EncodeLine(prefix: Byte, payload: Data): Data {
    [prefix] + payload + CRLF
  }

  function EncodeBulk(text: string): Data {
    EncodeToken(text)
  }

  function EncodeScalar(item: Scalar): Data {
    match item
    case Str(text) => EncodeBulk(text)
    case Int(n) => EncodeLine(INTEGER, PrintInt(n))
    case Null => EncodeLine(DOLLAR, PrintInt(-1))
  }

  function EncodeScalars(items: seq<Scalar>): Data {
    if items == [] then [] else EncodeScalar(items[0]) + EncodeScalars(items[1..])
  }

  function EncodeResultValue(result: CommandResult): Data {
    match result
    case One(scalar) => EncodeScalar(scalar)
    case Many(items) => EncodeLine(STAR, PrintNat(|items|)) + EncodeScalars(items)
  }

  /** Names that upper-case to SET; the long s is one of the letters that do. */
  predicate IsSet(name: string) {
    |name| == 3 && name[0] in "Ss\U{017F}" && name[1] in "Ee" && name[2] in "Tt"
  }

  /** White space as text stripping understands it. */
  predicate IsBlank(c: char) {
    || '\t' <= c <= '\r' || '\U{1C}' <= c <= ' ' || c == '\U{85}' || c == '\U{A0}' || c == '\U{1680}'
    || '\U{2000}' <= c <= '\U{200A}' || c == '\U{2028}' || c == '\U{2029}' || c == '\U{202F}'
    || c == '\U{205F}' || c == '\U{3000}'
  }

  function Strip(s: string): string {
    if s != [] && IsBlank(s[0]) then Strip(s[1..])
    else if s != [] && IsBlank(s[|s| - 1]) then Strip(s[..|s| - 1])
    else s
  }

  function OneLine(s: string): (t: string)
    ensures SingleLine(t) && |t| == |s|
  {
    seq(|s|, i requires 0 <= i < |s| => if s[i] == '\r' || s[i] == '\n' then ' ' else s[i])
  }

  function FormatErrorMessage(message: string, kind: string): (t: string)
    ensures SingleLine(t)
  {
    OneLine(if Strip(message) == [] then kind else Strip(message))
  }

  function EncodeError(text: string): Data
    requires SingleLine(text)
  {
    EncodeLine(ERROR, Encode("ERR " + text))
  }

  predicate IsSetCommand(command: Tokens) {
    command != [] && IsSet(command[0])
  }

  /** An encoding, or the exception raised instead. */
  datatype Encoding = Encoded(data: Data) | Rejected(message: string, kind: string)

  function EncodeSimpleString(text: string): Encoding {
    if SingleLine(text) then Encoded(EncodeLine(SIMPLE, Encode(text))) else Rejected(LINE_ERROR, "ValueError")
  }

  function EncodeCommandResult(command: Tokens, result: CommandResult): Encoding {
    if command == [] || command[0] == "" then Rejected("empty command", "ValueError")
    else if IsSetCommand(command) then
      if result.One? && result.scalar.Str? then EncodeSimpleString(result.scalar.text)
      else Rejected("SET must return a string result", "TypeError")
    else Encoded(EncodeResultValue(result))
  }

  /** The one reply sent for a command, whichever way its execution and encoding end. */
  function Response(command: Tokens, ending: Ending): Data {
    match ending
    case Threw(message, kind) => EncodeError(FormatErrorMessage(message, kind))
    case Returned(result) =>
      match EncodeCommandResult(command, result)
      case Encoded(data) => data
      case Rejected(message, kind) => EncodeError(FormatErrorMessage(message, kind))
  }

  // ---- What the client should see ----

  datatype Value = Text(text: string) | Number(n: int) | Nil | Items(values: seq<Value>)

  function ValueOf(item: Scalar): Value {
    match item
    case Str(text) => Text(text)
    case Int(n) => Number(n)
    case Null => Nil
  }

  function ValuesOf(items: seq<Scalar>): seq<Value> {
    if items == [] then [] else [ValueOf(items[0])] + ValuesOf(items[1..])
  }

  function ResultValue(result: CommandResult): Value {
    match result
    case One(scalar) => ValueOf(scalar)
    case Many(items) => Items(ValuesOf(items))
  }

  /** The meaning of a reply: a value, or the text of a one-line error. */
  datatype Meaning = Answer(value: Value) | Refusal(text: string)

  /** Why a returned result cannot be sent as the reply to a command. */
  function Objection(command: Tokens, result: CommandResult): Option<string> {
    if command == [] || command[0] == "" then Some("empty command")
    else if !IsSetCommand(command) then None
    else if !(result.One? && result.scalar.Str?) then Some("SET must return a string result")
    else if !SingleLine(result.scalar.text) then Some(LINE_ERROR)
    else None
  }

  function MeaningOf(command: Tokens, ending: Ending): Meaning {
    match ending
    case Threw(message, kind) => Refusal("ERR " + FormatErrorMessage(message, kind))
    case Returned(result) =>
      match Objection(command, result)
      case Some(message) => Refusal("ERR " + message)
      case None => Answer(ResultValue(result))
  }

  // ---- Client side ----

  /** Parsed, an error reply, more bytes needed, malformed, or not UTF-8. */
  datatype ReplyParse<+T> =
    | Parsed(value: T, next: nat)
    | Conflict(message: string)
    | More
    | Bad(message: string)
    | NotUtf8

  function DecodedText(data: Data, next: nat): ReplyParse<Value> {
    match Decode(data)
    case None => NotUtf8
    case Some(text) => Parsed(Text(text), next)
  }

  function ParseReply(m: Data, start: nat): (r: ReplyParse<Value>)
    requires start <= |m|
    ensures r.Parsed? ==> start < r.next <= |m|
    decreases |m| - start, 0
  {
    if start >= |m| then More
    else if m[start] == STAR then ParseArray(m, start)
    else if m[start] == DOLLAR then ParseBulk(m, start)
    else if m[start] != SIMPLE && m[start] != ERROR && m[start] != INTEGER then Bad("unsupported RESP reply type")
    else
      var line := ReadLine(m, start + 1);
      if line.Incomplete? then More
      else if m[start] == SIMPLE then DecodedText(line.value, line.next)
      else if m[start] == ERROR then
        match Decode(line.value) { case None => NotUtf8 case Some(text) => Conflict(text) }
      else
        match ParseInt(line.value)
        case None => Bad("invalid RESP integer reply")
        case Some(n) => Parsed(Number(n), line.next)
  }

  function ParseBulk(m: Data, start: nat): (r: ReplyParse<Value>)
    requires start < |m|
    ensures r.Parsed? ==> start < r.next <= |m|
  {
    var line := ReadLine(m, start + 1);
    if line.Incomplete? then More
    else
      var length := ParseInt(line.value);
      if length.None? then Bad("invalid RESP bulk string length")
      else if length.value == -1 then Parsed(Nil, line.next)
      else if length.value < -1 then Bad("invalid RESP bulk string length")
      else
        var dataEnd := line.next + length.value;
        if dataEnd + 2 > |m| then More
        else if m[dataEnd..dataEnd + 2] != CRLF then Bad("RESP bulk string reply must end with CRLF")
        else DecodedText(m[line.next..dataEnd], dataEnd + 2)
  }

  function ParseArray(m: Data, start: nat): (r: ReplyParse<Value>)
    requires start < |m|
    ensures r.Parsed? ==> start < r.next <= |m|
    decreases |m| - start - 1, 1
  {
    var line := ReadLine(m, start + 1);
    if line.Incomplete? then More
    else
      var count := ParseInt(line.value);
      if count.None? then Bad("invalid RESP array length")
      else if count.value < 0 then Bad("negative RESP arrays are not supported")
      else AsItems(ParseItems(m, line.next, count.value, []))
  }

  function AsItems(r: ReplyParse<seq<Value>>): ReplyParse<Value> {
    match r
    case Parsed(values, next) => Parsed(Items(values), next)
    case Conflict(message) => Conflict(message)
    case More => More
    case Bad(message) => Bad(message)
    case NotUtf8 => NotUtf8
  }

  function ParseItems(m: Data, start: nat, count: nat, values: seq<Value>): (r: ReplyParse<seq<Value>>)
    requires start <= |m|
    ensures r.Parsed? ==> start <= r.next <= |m|
    decreases |m| - start, 1, count
  {
    if count == 0 then Parsed(values, start)
    else
      match ParseReply(m, start)
      case Parsed(value, next) => ParseItems(m, next, count - 1, values + [value])
      case Conflict(message) => Conflict(message)
      case More => More
      case Bad(message) => Bad(message)
      case NotUtf8 => NotUtf8
  }

  /** The client's parser: it loops over the items of an array and recurses into each. */
  method ParseRespReply(m: Data, start: nat) returns (r: ReplyParse<Value>)
    requires start <= |m|
    ensures r == ParseReply(m, start)
    decreases |m| - start
  {
    hide ParseBulk;
    hide ReadLine;
    hide ParseInt;
    hide Decode;
    if start >= |m| || m[start] != STAR {
      return ParseReply(m, start);
    }
    var line := ReadLine(m, start + 1);
    if line.Incomplete? {
      return More;
    }
    var count := ParseInt(line.value);
    if count.None? {
      return Bad("invalid RESP array length");
    }
    if count.value < 0 {
      return Bad("negative RESP arrays are not supported");
    }
    var values, next := [], line.next;
    for i := 0 to count.value
      invariant line.next <= next <= |m|
      invariant ParseItems(m, next, count.value - i, values) == ParseItems(m, line.next, count.value, [])
    {
      var item := ParseRespReply(m, next);
      match item {
        case Parsed(value, after) =>
          values := values + [value];
          next := after;
        case Conflict(message) => return Conflict(message);
        case More => return More;
        case Bad(message) => return Bad(message);
        case NotUtf8 => return NotUtf8;
      }
    }
    return Parsed(Items(values), next);
  }

  // ---- A verdict on a reply never changes when bytes are appended ----

  lemma BulkStable(m: Data, more: Data, start: nat)
    requires start < |m|
    ensures !ParseBulk(m, start).More? ==> ParseBulk(m + more, start) == ParseBulk(m, start)
  {
    hide FindCrlf;
    hide ParseInt;
    hide Decode;
    ReadLineStable(m, more, start + 1);
    var line := ReadLine(m, start + 1);
    if line.Complete? && ParseInt(line.value).Some? && ParseInt(line.value).value >= 0 {
      var dataEnd := line.next + ParseInt(line.value).value;
      if dataEnd + 2 <= |m| {
        assert (m + more)[dataEnd..dataEnd + 2] == m[dataEnd..dataEnd + 2];
        assert (m + more)[line.next..dataEnd] == m[line.next..dataEnd];
      }
    }
  }

  lemma {:induction false} ReplyStable(m: Data, more: Data, start: nat)
    requires start <= |m|
    ensures !ParseReply(m, start).More? ==> ParseReply(m + more, start) == ParseReply(m, start)
    decreases |m| - start, 0
  {
    hide ReadLine;
    hide ParseInt;
    hide Decode;
    hide ParseBulk;
    if start < |m| {
      assert (m + more)[start] == m[start];
      BulkStable(m, more, start);
      ReadLineStable(m, more, start + 1);
      var line := ReadLine(m, start + 1);
      if m[start] == STAR && line.Complete? && ParseInt(line.value).Some? && ParseInt(line.value).value >= 0 {
        ItemsStable(m, more, line.next, ParseInt(line.value).value, []);
      }
    }
  }

  lemma {:induction false} ItemsStable(m: Data, more: Data, start: nat, count: nat, values: seq<Value>)
    requires start <= |m|
    ensures !ParseItems(m, start, count, values).More? ==>
              ParseItems(m + more, start, count, values) == ParseItems(m, start, count, values)
    decreases |m| - start, 1, count
  {
    hide ReadLine;
    hide ParseInt;
    hide Decode;
    hide ParseBulk;
    hide ParseArray;
    if count > 0 {
      ReplyStable(m, more, start);
      var item := ParseReply(m, start);
      if item.Parsed? {
        ItemsStable(m, more, item.next, count - 1, values + [item.value]);
      }
    }
  }

  // ---- Round trip of every reply ----

  lemma ScalarRoundTrip(m: Data, start: nat, item: Scalar)
    requires start <= |m|
    requires EncodeScalar(item) <= m[start..]
    ensures ParseReply(m, start) == Parsed(ValueOf(item), start + |EncodeScalar(item)|)
  {
    hide ReadLine;
    hide ParseInt;
    hide PrintInt;
    hide Decode;
    hide Encode;
    hide ParseArray;
    match item
    case Str(text) =>
      BulkBack(m, start, Encode(text));
      ParsePrintInt(|Encode(text)|);
      DecodeEncode(text);
    case Int(n) => NumberLineBack(m, start, INTEGER, n);
    case Null => NumberLineBack(m, start, DOLLAR, -1);
  }

  lemma {:induction false} ScalarsRoundTrip(m: Data, start: nat, items: seq<Scalar>, before: seq<Value>)
    requires start <= |m|
    requires EncodeScalars(items) <= m[start..]
    ensures ParseItems(m, start, |items|, before)
            == Parsed(before + ValuesOf(items), start + |EncodeScalars(items)|)
    decreases items
  {
    hide ParseReply;
    hide EncodeScalar;
    if items == [] {
      assert before + ValuesOf(items) == before;
    } else {
      var first, rest := EncodeScalar(items[0]), EncodeScalars(items[1..]);
      assert first <= m[start..];
      ScalarRoundTrip(m, start, items[0]);
      var next := start + |first|;
      assert rest <= m[next..] by {
        assert m[next..] == m[start..][|first|..];
      }
      ScalarsRoundTrip(m, next, items[1..], before + [ValueOf(items[0])]);
      assert before + [ValueOf(items[0])] + ValuesOf(items[1..]) == before + ValuesOf(items);
    }
  }

  lemma ResultRoundTrip(result: CommandResult)
    ensures var data := EncodeResultValue(result);
            ParseReply(data, 0) == Parsed(ResultValue(result), |data|)
  {
    hide ReadLine;
    hide ParseInt;
    hide PrintNat;
    hide EncodeScalars;
    hide ParseItems;
    var data := EncodeResultValue(result);
    assert data[0..] == data;
    match result
    case One(scalar) => ScalarRoundTrip(data, 0, scalar);
    case Many(items) =>
      var header, body := EncodeLine(STAR, PrintNat(|items|)), EncodeScalars(items);
      assert PrintInt(|items|) == PrintNat(|items|);
      NumberLineBack(data, 0, STAR, |items|);
      assert data[|header|..] == body;
      ScalarsRoundTrip(data, |header|, items, []);
      assert [] + ValuesOf(items) == ValuesOf(items);
  }

  /** A one-line text after a type byte is one reply, ending at its CRLF. */
  lemma LineRoundTrip(prefix: Byte, text: string)
    requires SingleLine(text)
    ensures var data := EncodeLine(prefix, Encode(text));
            && ReadLine(data, 1) == Complete(Encode(text), |data|)
            && Decode(Encode(text)) == Some(text)
  {
    hide Encode;
    hide Decode;
    hide ReadLine;
    var data := EncodeLine(prefix, Encode(text));
    assert data[1..] == Encode(text) + CRLF;
    SingleLineBytes(text);
    ReadLineBack(data, 1, Encode(text));
    DecodeEncode(text);
  }

  ghost predicate Means(r: ReplyParse<Value>, meaning: Meaning, length: nat) {
    match meaning
    case Answer(value) => r == Parsed(value, length)
    case Refusal(text) => r == Conflict(text)
  }

  /** The reply to a command parses back to the command's result or error, with nothing left over. */
  lemma ResponseRoundTrip(command: Tokens, ending: Ending)
    ensures var data := Response(command, ending);
            && Means(ParseReply(data, 0), MeaningOf(command, ending), |data|)
            && (MeaningOf(command, ending).Refusal? ==>
                  |data| > 1 && data[0] == ERROR && ReadLine(data, 1).Complete? && ReadLine(data, 1).next == |data|)
  {
    hide ReadLine;
    hide Encode;
    hide Decode;
    hide EncodeResultValue;
    hide ParseArray;
    hide ParseBulk;
    hide FormatErrorMessage;
    if ending.Threw? {
      LineRoundTrip(ERROR, "ERR " + FormatErrorMessage(ending.message, ending.kind));
    } else {
      EmptyCommandMessage();
      SetMessage();
      LineMessage();
      match Objection(command, ending.result)
      case Some(message) => LineRoundTrip(ERROR, "ERR " + message);
      case None =>
        if IsSetCommand(command) {
          LineRoundTrip(SIMPLE, ending.result.scalar.text);
        } else {
          ResultRoundTrip(ending.result);
        }
    }
  }

  /** The encoder's own messages are sent as they stand. */
  lemma FixedMessage(message: string, kind: string)
    requires SingleLine(message) && message != [] && !IsBlank(message[0]) && !IsBlank(message[|message| - 1])
    ensures FormatErrorMessage(message, kind) == message
  {
  }

  lemma EmptyCommandMessage()
    ensures FormatErrorMessage("empty command", "ValueError") == "empty command" && SingleLine("empty command")
  {
  }

  lemma SetMessage()
    ensures FormatErrorMessage("SET must return a string result", "TypeError") == "SET must return a string result"
    ensures SingleLine("SET must return a string result")
  {
    FixedMessage("SET must return a string result", "TypeError");
  }

  lemma LineMessage()
    ensures FormatErrorMessage(LINE_ERROR, "ValueError") == LINE_ERROR && SingleLine(LINE_ERROR)
  {
  }

  // ---- Reading a reply from the socket ----

  datatype Received = Got(value: Value) | Refused(message: string) | Upstream(message: string)

  function Verdict(r: ReplyParse<Value>, length: nat): Received
    requires !r.More?
  {
    match r
    case Parsed(value, next) =>
      if next != length then Upstream("Redis reply contained unexpected trailing data") else Got(value)
    case Conflict(message) => Refused(message)
    case Bad(message) => Upstream("Invalid Redis reply: " + message)
    case NotUtf8 => Upstream("Redis returned non-UTF8 data")
  }

  const CLOSED := "Redis closed the connection before replying"

  /** The chunks arrive one by one; an empty chunk, or none, means that the peer has closed. */
  method ReadReply(chunks: seq<Data>) returns (r: Received)
    ensures r == Receive([], chunks)
  {
    var buffer: Data := [];
    for i := 0 to |chunks|
      invariant Receive(buffer, chunks[i..]) == Receive([], chunks)
    {
      assert chunks[i..][0] == chunks[i] && chunks[i..][1..] == chunks[i + 1..];
      if chunks[i] == [] {
        return Upstream(CLOSED);
      }
      buffer := buffer + chunks[i];
      var reply := ParseRespReply(buffer, 0);
      if reply.More? {
        continue;
      }
      return Verdict(reply, |buffer|);
    }
    return Upstream(CLOSED);
  }

  function Receive(buffer: Data, chunks: seq<Data>): Received
    decreases chunks
  {
    if chunks == [] || chunks[0] == [] then Upstream(CLOSED)
    else
      var reply := ParseReply(buffer + chunks[0], 0);
      if reply.More? then Receive(buffer + chunks[0], chunks[1..])
      else Verdict(reply, |buffer + chunks[0]|)
  }

  /** A reply cut short is never mistaken for a whole one. */
  lemma PrefixNeedsMore(command: Tokens, ending: Ending, cut: nat)
    requires cut < |Response(command, ending)|
    ensures ParseReply(Response(command, ending)[..cut], 0).More?
  {
    hide Response;
    hide MeaningOf;
    hide ReadLine;
    hide ParseArray;
    hide ParseBulk;
    hide Decode;
    var data := Response(command, ending);
    var part, rest := data[..cut], data[cut..];
    assert part + rest == data;
    ResponseRoundTrip(command, ending);
    ReplyStable(part, rest, 0);
    if cut >= 1 && data[0] == ERROR {
      ReadLineStable(part, rest, 1);
    }
  }

  /** Whatever the chunks, the client receives exactly the command's result or error. */
  lemma {:induction false} ReceiveRoundTrip(command: Tokens, ending: Ending, buffer: Data, chunks: seq<Data>)
    requires forall i :: 0 <= i < |chunks| ==> chunks[i] != []
    requires buffer + Concat(chunks) == Response(command, ending)
    requires chunks != []
    ensures Receive(buffer, chunks) == match MeaningOf(command, ending) {
              case Answer(value) => Got(value)
              case Refusal(text) => Refused(text)
            }
    decreases chunks
  {
    hide Response;
    hide MeaningOf;
    hide ParseReply;
    var data := Response(command, ending);
    var b, rest := buffer + chunks[0], chunks[1..];
    assert b + Concat(rest) == data;
    if rest == [] {
      assert b == data;
      ResponseRoundTrip(command, ending);
    } else {
      assert |Concat(rest)| > 0 by {
        assert rest[0] != [] && Concat(rest) == rest[0] + Concat(rest[1..]);
      }
      assert b == data[..|b|];
      PrefixNeedsMore(command, ending, |b|);
      ReceiveRoundTrip(command, ending, b, rest);
    }
  }
}
