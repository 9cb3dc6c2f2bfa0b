/**
 The grammar of the wire, written without a parser: which bytes stand between which positions
 of a buffer. The parsers accept exactly these. Byte values are spelled out, as the RESP2
 specification has them.
 */
module Grammar {
  import opened Basics
  import opened Bytes
  import opened Requests
  import opened Replies

  /** CR LF stands at a position. */
  predicate EndAt(m: Data, i: nat) {
    i + 2 <= |m| && m[i] == 13 && m[i + 1] == 10
  }

  /** A line and its end, which does not occur earlier. */
  predicate LineAt(m: Data, start: nat, next: nat, line: Data) {
    && start + 2 <= next && EndAt(m, next - 2) && m[start..next - 2] == line
    && (forall i :: start <= i < next - 2 ==> !EndAt(m, i))
  }

  /** A type byte and a line that gives a number. */
  ghost predicate NumberAt(m: Data, start: nat, next: nat, kind: Byte, n: int) {
    start < |m| && m[start] == kind && exists line :: LineAt(m, start + 1, next, line) && ParseInt(line) == Some(n)
  }

  /** The bytes of a text and CR LF. */
  predicate PayloadAt(m: Data, start: nat, next: nat, text: string) {
    start + |Encode(text)| + 2 == next && EndAt(m, next - 2) && m[start..next - 2] == Encode(text)
  }

  /** `$`, the length in bytes, the bytes of the text, and CR LF. */
  ghost predicate BulkAt(m: Data, start: nat, next: nat, text: string) {
    exists mid: nat :: NumberAt(m, start, mid, 36, |Encode(text)|) && PayloadAt(m, mid, next, text)
  }

  ghost predicate BulksAt(m: Data, start: nat, next: nat, tokens: Tokens)
    decreases tokens
  {
    if tokens == [] then start == next
    else exists mid: nat :: BulkAt(m, start, mid, tokens[0]) && BulksAt(m, mid, next, tokens[1..])
  }

  /** `*`, the number of tokens, and each token as a bulk string. */
  ghost predicate FrameAt(m: Data, next: nat, tokens: Tokens) {
    exists mid: nat :: NumberAt(m, 0, mid, 42, |tokens|) && BulksAt(m, mid, next, tokens)
  }

  // ---- Lines and numbers ----

  lemma {:induction false} CrlfIff(m: Data, start: nat, end: nat)
    requires start <= |m|
    ensures FindCrlf(m, start) == Some(end) <==>
            start <= end && EndAt(m, end) && forall i :: start <= i < end ==> !EndAt(m, i)
    decreases |m| - start
  {
    if start + 2 <= |m| {
      assert m[start..start + 2] == [m[start], m[start + 1]];
      assert EndAt(m, start) <==> m[start..start + 2] == CRLF;
      if !EndAt(m, start) {
        CrlfIff(m, start + 1, end);
      }
    }
  }

  lemma LineIff(m: Data, start: nat, line: Data, next: nat)
    requires start <= |m|
    ensures ReadLine(m, start) == Complete(line, next) <==> LineAt(m, start, next, line)
  {
    hide FindCrlf;
    if next >= 2 {
      CrlfIff(m, start, next - 2);
    }
    if ReadLine(m, start).Complete? {
      CrlfIff(m, start, ReadLine(m, start).next - 2);
    }
  }

  /** What reading a number after a type byte yields. */
  function ReadNumber(m: Data, start: nat): Option<(int, nat)>
    requires start < |m|
  {
    var line := ReadLine(m, start + 1);
    if line.Complete? && ParseInt(line.value).Some? then Some((ParseInt(line.value).value, line.next)) else None
  }

  lemma NumberIff(m: Data, start: nat, n: int, next: nat)
    requires start < |m|
    ensures ReadNumber(m, start) == Some((n, next)) <==> NumberAt(m, start, next, m[start], n)
  {
    hide ReadLine;
    hide ParseInt;
    hide LineAt;
    var r := ReadLine(m, start + 1);
    if r.Complete? {
      LineIff(m, start + 1, r.value, r.next);
    }
    if NumberAt(m, start, next, m[start], n) {
      var line :| LineAt(m, start + 1, next, line) && ParseInt(line) == Some(n);
      LineIff(m, start + 1, line, next);
    }
  }

  // ---- Bulk strings ----

  lemma PayloadIff(m: Data, start: nat, length: nat, text: string)
    requires start + length + 2 <= |m|
    ensures (Decode(m[start..start + length]) == Some(text) && m[start + length..start + length + 2] == CRLF) <==>
            length == |Encode(text)| && PayloadAt(m, start, start + length + 2, text)
  {
    hide Encode;
    hide Decode;
    var end := start + length;
    assert m[end..end + 2] == [m[end], m[end + 1]];
    DecodeEncode(text);
    if Decode(m[start..end]) == Some(text) {
      EncodeDecode(m[start..end], text);
    }
  }

  lemma BulkIff(m: Data, start: nat, text: string, next: nat)
    requires start <= |m|
    ensures ParseBulkString(m, start) == Complete(text, next) <==> BulkAt(m, start, next, text)
  {
    hide ReadLine;
    hide ParseInt;
    hide Decode;
    hide Encode;
    hide NumberAt;
    hide PayloadAt;
    if start < |m| && m[start] == 36 {
      var r := ReadNumber(m, start);
      if r.Some? && r.value.0 >= 0 {
        var (length, mid) := r.value;
        NumberIff(m, start, length, mid);
        if mid + length + 2 <= |m| {
          PayloadIff(m, mid, length, text);
        }
      }
      if BulkAt(m, start, next, text) {
        var mid: nat :| NumberAt(m, start, mid, 36, |Encode(text)|) && PayloadAt(m, mid, next, text);
        NumberIff(m, start, |Encode(text)|, mid);
        PayloadFits(m, mid, next, text);
        PayloadIff(m, mid, |Encode(text)|, text);
      }
    } else {
      NoNumber(m, start, 36);
    }
  }

  lemma PayloadFits(m: Data, start: nat, next: nat, text: string)
    requires PayloadAt(m, start, next, text)
    ensures start + |Encode(text)| + 2 == next <= |m|
  {
  }

  lemma NoNumber(m: Data, start: nat, kind: Byte)
    requires start >= |m| || m[start] != kind
    ensures forall next: nat, n :: !NumberAt(m, start, next, kind, n)
  {
  }

  lemma {:induction false} TokensIff(m: Data, start: nat, tokens: Tokens, before: Tokens, next: nat)
    requires start <= |m|
    ensures ParseTokens(m, start, |tokens|, before) == Complete(before + tokens, next) <==> BulksAt(m, start, next, tokens)
    decreases tokens
  {
    hide ParseBulkString;
    hide BulkAt;
    if tokens == [] {
      assert before + tokens == before;
    } else {
      var r := ParseBulkString(m, start);
      if r.Complete? {
        BulkIff(m, start, r.value, r.next);
        TokensIff(m, r.next, tokens[1..], before + [r.value], next);
        PrefixOfTokens(m, r.next, |tokens| - 1, before + [r.value]);
        assert before + [tokens[0]] + tokens[1..] == before + tokens;
        if ParseTokens(m, start, |tokens|, before) == Complete(before + tokens, next) {
          assert (before + [r.value])[|before|] == (before + tokens)[|before|];
          assert BulkAt(m, start, r.next, tokens[0]) && BulksAt(m, r.next, next, tokens[1..]);
        }
      }
      if BulksAt(m, start, next, tokens) {
        var mid: nat :| BulkAt(m, start, mid, tokens[0]) && BulksAt(m, mid, next, tokens[1..]);
        BulkIff(m, start, tokens[0], mid);
      }
    }
  }

  lemma {:induction false} PrefixOfTokens(m: Data, start: nat, count: nat, before: Tokens)
    requires start <= |m|
    ensures var r := ParseTokens(m, start, count, before);
            r.Complete? ==> before <= r.value && |r.value| == |before| + count
    decreases count
  {
    if count > 0 && ParseBulkString(m, start).Complete? {
      var r := ParseBulkString(m, start);
      PrefixOfTokens(m, r.next, count - 1, before + [r.value]);
    }
  }

  /** The server accepts exactly the request frames of the grammar, and consumes exactly the frame. */
  lemma FrameIff(m: Data, tokens: Tokens, next: nat)
    ensures ParseFrame(m) == Complete(tokens, next) <==> FrameAt(m, next, tokens)
  {
    hide ReadLine;
    hide ParseInt;
    hide ParseTokens;
    hide NumberAt;
    hide BulksAt;
    if |m| > 0 && m[0] == 42 {
      var r := ReadNumber(m, 0);
      if r.Some? && r.value.0 >= 0 {
        var (count, mid) := r.value;
        NumberIff(m, 0, count, mid);
        PrefixOfTokens(m, mid, count, []);
        assert [] + tokens == tokens;
        TokensIff(m, mid, tokens, [], next);
      }
      if FrameAt(m, next, tokens) {
        var mid: nat :| NumberAt(m, 0, mid, 42, |tokens|) && BulksAt(m, mid, next, tokens);
        NumberIff(m, 0, |tokens|, mid);
      }
    } else {
      NoNumber(m, 0, 42);
    }
  }

  /** What is refused is not the beginning of any frame. */
  lemma RefusedIsNoFrame(m: Data, more: Data, tokens: Tokens, next: nat)
    requires ParseFrame(m).Malformed?
    ensures !FrameAt(m + more, next, tokens)
  {
    FrameStable(m, more);
    FrameIff(m + more, tokens, next);
  }

  // ---- Replies ----

  /** A reply that stands for a value: `+` or `$` for text, `:` for numbers, `$-1` for nil, `*` for arrays. */
  ghost predicate ReplyAt(m: Data, start: nat, next: nat, v: Value)
    decreases v, 0
  {
    match v
    case Text(text) =>
      || BulkAt(m, start, next, text)
      || (start < |m| && m[start] == 43 && LineAt(m, start + 1, next, Encode(text)))
    case Number(n) => NumberAt(m, start, next, 58, n)
    case Nil => NumberAt(m, start, next, 36, -1)
    case Items(values) =>
      exists mid: nat :: NumberAt(m, start, mid, 42, |values|) && RepliesAt(m, mid, next, values)
  }

  ghost predicate RepliesAt(m: Data, start: nat, next: nat, values: seq<Value>)
    decreases values
  {
    if values == [] then start == next
    else
      exists mid: nat {:trigger Within(m, mid)} ::
        Within(m, mid) && ReplyAt(m, start, mid, values[0]) && RepliesAt(m, mid, next, values[1..])
  }

  predicate Within(m: Data, i: nat) {
    i <= |m|
  }

  lemma TextIff(m: Data, start: nat, text: string, next: nat)
    requires start < |m| && m[start] == 43
    ensures ParseReply(m, start) == Parsed(Text(text), next) <==> LineAt(m, start + 1, next, Encode(text))
    ensures ParseReply(m, start).Parsed? ==> ParseReply(m, start).value.Text?
  {
    hide ReadLine;
    hide Decode;
    hide Encode;
    hide LineAt;
    DecodeEncode(text);
    var r := ReadLine(m, start + 1);
    if r.Complete? {
      LineIff(m, start + 1, r.value, r.next);
      if Decode(r.value) == Some(text) {
        EncodeDecode(r.value, text);
      }
    }
    LineIff(m, start + 1, Encode(text), next);
  }

  lemma NumberReplyIff(m: Data, start: nat, n: int, next: nat)
    requires start < |m| && m[start] == 58
    ensures ParseReply(m, start) == Parsed(Number(n), next) <==> NumberAt(m, start, next, 58, n)
    ensures ParseReply(m, start).Parsed? ==> ParseReply(m, start).value.Number?
  {
    hide ReadLine;
    hide ParseInt;
    hide NumberAt;
    NumberIff(m, start, n, next);
  }

  lemma BulkReplyIff(m: Data, start: nat, v: Value, next: nat)
    requires start < |m| && m[start] == 36 && (v.Text? || v.Nil?)
    ensures ParseReply(m, start) == Parsed(v, next) <==>
            if v.Nil? then NumberAt(m, start, next, 36, -1) else BulkAt(m, start, next, v.text)
    ensures ParseReply(m, start).Parsed? ==> ParseReply(m, start).value.Text? || ParseReply(m, start).value.Nil?
  {
    hide ReadLine;
    hide ParseInt;
    hide Decode;
    hide Encode;
    hide NumberAt;
    hide PayloadAt;
    var r := ReadNumber(m, start);
    if v.Nil? {
      NumberIff(m, start, -1, next);
    } else {
      if r.Some? && r.value.0 >= 0 {
        var (length, mid) := r.value;
        NumberIff(m, start, length, mid);
        if mid + length + 2 <= |m| {
          PayloadIff(m, mid, length, v.text);
        }
      }
      if BulkAt(m, start, next, v.text) {
        var mid: nat :| NumberAt(m, start, mid, 36, |Encode(v.text)|) && PayloadAt(m, mid, next, v.text);
        NumberIff(m, start, |Encode(v.text)|, mid);
        PayloadFits(m, mid, next, v.text);
        PayloadIff(m, mid, |Encode(v.text)|, v.text);
      }
    }
  }

  lemma {:induction false} PrefixOfItems(m: Data, start: nat, count: nat, before: seq<Value>)
    requires start <= |m|
    ensures var r := ParseItems(m, start, count, before);
            r.Parsed? ==> before <= r.value && |r.value| == |before| + count
    decreases count
  {
    hide ParseReply;
    if count > 0 && ParseReply(m, start).Parsed? {
      var r := ParseReply(m, start);
      PrefixOfItems(m, r.next, count - 1, before + [r.value]);
    }
  }

  lemma {:induction false} ItemsIff(m: Data, start: nat, values: seq<Value>, before: seq<Value>, next: nat)
    requires start <= |m|
    ensures ParseItems(m, start, |values|, before) == Parsed(before + values, next) <==> RepliesAt(m, start, next, values)
    decreases |m| - start, 4
  {
    hide ParseReply;
    hide NumberAt;
    hide BulkAt;
    hide LineAt;
    if values == [] {
      assert before + values == before;
    } else {
      var r := ParseReply(m, start);
      ReplyIff(m, start, values[0], if r.Parsed? then r.next else 0);
      if r.Parsed? {
        ItemsIff(m, r.next, values[1..], before + [r.value], next);
        PrefixOfItems(m, r.next, |values| - 1, before + [r.value]);
        assert before + [values[0]] + values[1..] == before + values;
        if ParseItems(m, start, |values|, before) == Parsed(before + values, next) {
          assert (before + [r.value])[|before|] == (before + values)[|before|];
          assert Within(m, r.next) && ReplyAt(m, start, r.next, values[0]) && RepliesAt(m, r.next, next, values[1..]);
        }
      }
      if RepliesAt(m, start, next, values) {
        var mid: nat :| Within(m, mid) && ReplyAt(m, start, mid, values[0]) && RepliesAt(m, mid, next, values[1..]);
        ReplyIff(m, start, values[0], mid);
      }
    }
  }

  lemma {:induction false} ArrayIff(m: Data, start: nat, values: seq<Value>, next: nat)
    requires start < |m| && m[start] == 42
    ensures ParseReply(m, start) == Parsed(Items(values), next) <==>
            exists mid: nat :: NumberAt(m, start, mid, 42, |values|) && RepliesAt(m, mid, next, values)
    ensures ParseReply(m, start).Parsed? ==> ParseReply(m, start).value.Items?
    decreases |m| - start, 2
  {
    hide ReadLine;
    hide ParseInt;
    hide ParseItems;
    hide NumberAt;
    hide RepliesAt;
    var r := ReadNumber(m, start);
    if r.Some? && r.value.0 >= 0 {
      var (count, mid) := r.value;
      NumberIff(m, start, count, mid);
      PrefixOfItems(m, mid, count, []);
      assert [] + values == values;
      ItemsIff(m, mid, values, [], next);
    }
    if exists mid: nat :: NumberAt(m, start, mid, 42, |values|) && RepliesAt(m, mid, next, values) {
      var mid: nat :| NumberAt(m, start, mid, 42, |values|) && RepliesAt(m, mid, next, values);
      NumberIff(m, start, |values|, mid);
    }
  }

  /** The client takes for a value exactly the replies of the grammar, and consumes exactly the reply. */
  lemma {:induction false} ReplyIff(m: Data, start: nat, v: Value, next: nat)
    requires start <= |m|
    ensures ParseReply(m, start) == Parsed(v, next) <==> ReplyAt(m, start, next, v)
    decreases |m| - start, 3
  {
    hide NumberAt;
    hide BulkAt;
    hide LineAt;
    hide RepliesAt;
    if start >= |m| {
      NothingAt(m, start, v, next);
    } else {
      NumberKinds(m, start);
      BulkKind(m, start);
      if m[start] == 42 {
        ArrayIff(m, start, if v.Items? then v.values else [], next);
      } else if m[start] == 36 {
        BulkReplyIff(m, start, if v.Text? then v else Nil, next);
      } else if m[start] == 43 {
        TextIff(m, start, if v.Text? then v.text else "", next);
      } else if m[start] == 58 {
        NumberReplyIff(m, start, if v.Number? then v.n else 0, next);
      }
    }
    hide ParseArray;
    hide ParseBulk;
  }

  lemma NothingAt(m: Data, start: nat, v: Value, next: nat)
    requires start >= |m|
    ensures !ReplyAt(m, start, next, v)
  {
  }

  lemma NumberKinds(m: Data, start: nat)
    requires start < |m|
    ensures forall next: nat, kind, n :: NumberAt(m, start, next, kind, n) ==> m[start] == kind
  {
  }

  lemma BulkKind(m: Data, start: nat)
    requires start < |m|
    ensures forall next: nat, text :: BulkAt(m, start, next, text) ==> m[start] == 36
  {
  }

  // ---- Which error is reported ----

  /** A line in place of a number. */
  ghost predicate NoNumberAt(m: Data, start: nat, next: nat, kind: Byte) {
    start < |m| && m[start] == kind && exists line :: LineAt(m, start + 1, next, line) && ParseInt(line) == None
  }

  lemma NoNumberRead(m: Data, start: nat, next: nat, kind: Byte)
    requires NoNumberAt(m, start, next, kind)
    ensures ReadLine(m, start + 1).Complete? && ParseInt(ReadLine(m, start + 1).value) == None
  {
    hide ReadLine;
    hide ParseInt;
    hide LineAt;
    var line :| LineAt(m, start + 1, next, line) && ParseInt(line) == None;
    LineIff(m, start + 1, line, next);
  }

  /** The errors of a request before its tokens. */
  lemma FrameErrors(m: Data, next: nat, n: int)
    ensures m != [] && m[0] != 42 ==> ParseFrame(m) == Malformed("expected RESP array")
    ensures NoNumberAt(m, 0, next, 42) ==> ParseFrame(m) == Malformed("invalid RESP array length")
    ensures NumberAt(m, 0, next, 42, n) && n < 0 ==>
              ParseFrame(m) == Malformed("negative RESP array length is not supported")
  {
    hide ReadLine;
    hide ParseInt;
    hide NumberAt;
    hide NoNumberAt;
    if NoNumberAt(m, 0, next, 42) {
      NoNumberFits(m, 0, next, 42);
      NoNumberRead(m, 0, next, 42);
    }
    if m != [] && m[0] == 42 {
      NumberIff(m, 0, n, next);
    } else {
      NoNumber(m, 0, 42);
    }
  }

  lemma NoNumberFits(m: Data, start: nat, next: nat, kind: Byte)
    requires NoNumberAt(m, start, next, kind)
    ensures start < |m| && m[start] == kind
  {
  }

  /** The errors of a token. */
  lemma TokenErrors(m: Data, start: nat, mid: nat, n: int)
    requires start < |m|
    ensures m[start] != 36 ==> ParseBulkString(m, start) == Malformed("expected RESP bulk string")
    ensures NoNumberAt(m, start, mid, 36) ==> ParseBulkString(m, start) == Malformed("invalid RESP bulk string length")
    ensures NumberAt(m, start, mid, 36, n) && n < 0 ==>
              ParseBulkString(m, start) == Malformed("null bulk strings are not supported in requests")
    ensures NumberAt(m, start, mid, 36, n) && n >= 0 && mid + n + 2 <= |m| && !EndAt(m, mid + n) ==>
              ParseBulkString(m, start) == Malformed("RESP bulk string payload must end with CRLF")
    ensures NumberAt(m, start, mid, 36, n) && n >= 0 && EndAt(m, mid + n) && Decode(m[mid..mid + n]).None? ==>
              ParseBulkString(m, start) == Malformed("RESP bulk string must be valid UTF-8")
  {
    hide ReadLine;
    hide ParseInt;
    hide NumberAt;
    hide NoNumberAt;
    hide Decode;
    if NoNumberAt(m, start, mid, 36) {
      NoNumberFits(m, start, mid, 36);
      NoNumberRead(m, start, mid, 36);
    }
    if m[start] == 36 {
      NumberIff(m, start, n, mid);
      if NumberAt(m, start, mid, 36, n) && n >= 0 && mid + n + 2 <= |m| {
        assert m[mid + n..mid + n + 2] == [m[mid + n], m[mid + n + 1]];
      }
    } else {
      NoNumber(m, start, 36);
    }
  }

  /** A refused token makes the whole request refused, with its error. */
  lemma {:induction false} TokenErrorCounts(m: Data, start: nat, tokens: Tokens, bad: nat, message: string, count: nat, before: Tokens)
    requires start <= |m| && BulksAt(m, start, bad, tokens) && bad <= |m| && |tokens| < count
    requires ParseBulkString(m, bad) == Malformed(message)
    ensures ParseTokens(m, start, count, before) == Malformed(message)
    decreases tokens
  {
    hide ParseBulkString;
    hide BulkAt;
    if tokens != [] {
      var mid: nat :| BulkAt(m, start, mid, tokens[0]) && BulksAt(m, mid, bad, tokens[1..]);
      BulkIff(m, start, tokens[0], mid);
      TokenErrorCounts(m, mid, tokens[1..], bad, message, count - 1, before + [tokens[0]]);
    }
  }

  /** The errors of a reply. */
  lemma ReplyErrors(m: Data, start: nat, mid: nat, n: int)
    requires start < |m|
    ensures m[start] !in {42, 36, 43, 45, 58} ==> ParseReply(m, start) == Bad("unsupported RESP reply type")
    ensures NoNumberAt(m, start, mid, 58) ==> ParseReply(m, start) == Bad("invalid RESP integer reply")
    ensures NoNumberAt(m, start, mid, 36) ==> ParseReply(m, start) == Bad("invalid RESP bulk string length")
    ensures NumberAt(m, start, mid, 36, n) && n < -1 ==> ParseReply(m, start) == Bad("invalid RESP bulk string length")
    ensures NumberAt(m, start, mid, 36, n) && n >= 0 && mid + n + 2 <= |m| && !EndAt(m, mid + n) ==>
              ParseReply(m, start) == Bad("RESP bulk string reply must end with CRLF")
    ensures NoNumberAt(m, start, mid, 42) ==> ParseReply(m, start) == Bad("invalid RESP array length")
    ensures NumberAt(m, start, mid, 42, n) && n < 0 ==>
              ParseReply(m, start) == Bad("negative RESP arrays are not supported")
  {
    hide ReadLine;
    hide ParseInt;
    hide NumberAt;
    hide NoNumberAt;
    hide Decode;
    hide ParseItems;
    forall kind: Byte | NoNumberAt(m, start, mid, kind)
      ensures m[start] == kind && ReadLine(m, start + 1).Complete? && ParseInt(ReadLine(m, start + 1).value) == None
    {
      NoNumberFits(m, start, mid, kind);
      NoNumberRead(m, start, mid, kind);
    }
    NumberKinds(m, start);
    NumberIff(m, start, n, mid);
    if NumberAt(m, start, mid, 36, n) && n >= 0 && mid + n + 2 <= |m| {
      assert m[mid + n..mid + n + 2] == [m[mid + n], m[mid + n + 1]];
    }
  }
}
