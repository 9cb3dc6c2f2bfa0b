/**
 What the wire looks like to an outsider: the exact bytes of representative requests, replies
 and texts, and what happens at the edges of a session: errors, trailing data, disconnects.
 */
module WireLaws {
  import opened Basics
  import opened Bytes
  import opened Requests
  import opened Replies
  import opened Server
  import opened Grammar
  import opened IsoTime

  // ---- Bytes ----

  /** Letters of one to four bytes, as section 3 of RFC 3629 has them. */
  lemma Utf8Bytes()
    ensures EncodeChar('A') == [0x41]
    ensures EncodeChar('\U{E9}') == [0xC3, 0xA9]
    ensures EncodeChar('\U{20AC}') == [0xE2, 0x82, 0xAC]
    ensures EncodeChar('\U{1F600}') == [0xF0, 0x9F, 0x98, 0x80]
  {
  }

  lemma TwoLetters(a: char, b: char)
    ensures Encode([a, b]) == EncodeChar(a) + EncodeChar(b)
  {
    EncodeCons(a, [b]);
    EncodeCons(b, []);
    assert [a] + [b] == [a, b] && [b] + [] == [b];
  }

  /** `*1`, `$2`, `hi`: the request for the command `hi`. */
  lemma RequestBytes()
    ensures EncodeCommand(["hi"]) == [42, 49, 13, 10, 36, 50, 13, 10, 104, 105, 13, 10]
  {
    TwoLetters('h', 'i');
    assert ["hi"][1..] == [];
    assert Encode("hi") == [104, 105];
    assert EncodeTokens(["hi"]) == EncodeToken("hi");
  }

  lemma OkBytes()
    ensures Encode("OK") == [79, 75] && EncodeToken("OK") == [36, 50, 13, 10, 79, 75, 13, 10]
  {
    TwoLetters('O', 'K');
    hide Encode;
  }

  /** Simple strings for SET in any case, bulk strings otherwise: `+OK` and `$2`, `OK`. */
  lemma TextReplyBytes(command: Tokens)
    ensures command == ["SET"] || command == ["set"] ==>
              Response(command, Returned(One(Str("OK")))) == [43, 79, 75, 13, 10]
    ensures command == ["GET"] ==>
              Response(command, Returned(One(Str("OK")))) == [36, 50, 13, 10, 79, 75, 13, 10]
  {
    OkBytes();
    hide Encode;
    hide EncodeToken;
  }

  /** `:-7` and `$-1`. */
  lemma NumberReplyBytes()
    ensures Response(["TTL"], Returned(One(Int(-7)))) == [58, 45, 55, 13, 10]
    ensures Response(["GET"], Returned(One(Null))) == [36, 45, 49, 13, 10]
  {
  }

  /** `*2` and the items. */
  lemma ArrayReplyBytes()
    ensures Response(["GET"], Returned(Many([Int(1), Null])))
         == [42, 50, 13, 10] + [58, 49, 13, 10] + [36, 45, 49, 13, 10]
  {
    var items := [Int(1), Null];
    assert items[1..] == [Null];
    assert EncodeScalars([Null]) == EncodeScalar(Null) + EncodeScalars([]);
    assert EncodeScalar(Null) == [36, 45, 49, 13, 10] && EncodeScalar(Int(1)) == [58, 49, 13, 10];
    hide EncodeScalar;
    assert EncodeScalars(items) == EncodeScalar(Int(1)) + EncodeScalars([Null]);
    assert EncodeLine(STAR, PrintNat(2)) == [42, 50, 13, 10];
  }

  /** An error: `-ERR no`. */
  lemma ErrorBytes()
    ensures EncodeError("no") == [45, 69, 82, 82, 32, 110, 111, 13, 10]
  {
    EncodeCons('E', "RR no");
    EncodeCons('R', "R no");
    EncodeCons('R', " no");
    EncodeCons(' ', "no");
    TwoLetters('n', 'o');
    hide Encode;
    assert "ERR " + "no" == ['E'] + "RR no" && "RR no" == ['R'] + "R no" && "R no" == ['R'] + " no"
        && " no" == [' '] + "no";
    assert Encode("ERR " + "no") == [69, 82, 82, 32, 110, 111];
  }

  /** An error line is reported as the server's message. */
  lemma ErrorIsReported(m: Data, start: nat, text: string, next: nat)
    requires start < |m| && m[start] == 45 && LineAt(m, start + 1, next, Encode(text))
    ensures ParseReply(m, start) == Conflict(text)
  {
    hide ReadLine;
    hide Decode;
    hide Encode;
    hide LineAt;
    LineIff(m, start + 1, Encode(text), next);
    DecodeEncode(text);
  }

  /** Blanks in front of a number, a plus sign, and an underscore between digits are accepted. */
  lemma NumbersAccepted(line: Data, n: nat, blank: Byte)
    ensures blank == 32 || 9 <= blank <= 13 ==> ParseInt([blank] + line) == ParseInt(line)
    ensures ParseSigned([43] + PrintNat(n)) == Some(n) && ParseSigned([45] + PrintNat(n)) == Some(0 - n as int)
    ensures ParseSigned([49, 95, 48]) == Some(10)
  {
    assert ([blank] + line)[1..] == line;
    assert ([43] + PrintNat(n))[1..] == PrintNat(n) && ([45] + PrintNat(n))[1..] == PrintNat(n);
    ParsePrintNat(n);
    var s: Data := [49, 95, 48];
    assert s[1..] == [95, 48] && s[1..][1..] == [48] && s[1..][1..][1..] == [];
  }

  /** Nothing, a sign alone, letters, and misplaced underscores are refused. */
  lemma NumbersRefused()
    ensures ParseSigned([]) == None && ParseSigned([45]) == None && ParseSigned([97]) == None
    ensures ParseSigned([95, 49]) == None && ParseSigned([49, 95]) == None
  {
    var s: Data := [49, 95];
    assert s[1..] == [95] && s[1..][1..] == [];
  }

  // ---- Error messages ----

  predicate AllBlank(s: string) {
    forall i :: 0 <= i < |s| ==> IsBlank(s[i])
  }

  /** Which letters count as blank: the ASCII ones and, for example, the no-break space. */
  lemma BlankLetters(c: char)
    ensures c < '\U{80}' ==> (IsBlank(c) <==> c == ' ' || '\t' <= c <= '\r' || '\U{1C}' <= c <= '\U{1F}')
    ensures IsBlank('\U{A0}') && IsBlank('\U{3000}') && !IsBlank('\U{200B}')
  {
  }

  ghost predicate Inside(t: string, s: string) {
    exists a, b :: AllBlank(a) && AllBlank(b) && s == a + t + b
  }

  lemma InsideLonger(t: string, s: string, c: char)
    requires Inside(t, s) && IsBlank(c)
    ensures Inside(t, [c] + s) && Inside(t, s + [c])
  {
    hide IsBlank;
    var a, b :| AllBlank(a) && AllBlank(b) && s == a + t + b;
    assert AllBlank([c] + a) && [c] + s == ([c] + a) + t + b;
    assert AllBlank(b + [c]) && s + [c] == a + t + (b + [c]);
  }

  /** Stripping removes blanks at both ends and nothing else. */
  lemma {:induction false} StripIsInside(s: string)
    ensures Inside(Strip(s), s)
    ensures Strip(s) == [] || (!IsBlank(Strip(s)[0]) && !IsBlank(Strip(s)[|Strip(s)| - 1]))
    decreases |s|
  {
    hide IsBlank;
    hide Inside;
    if s != [] && IsBlank(s[0]) {
      StripIsInside(s[1..]);
      InsideLonger(Strip(s), s[1..], s[0]);
      assert [s[0]] + s[1..] == s;
    } else if s != [] && IsBlank(s[|s| - 1]) {
      StripIsInside(s[..|s| - 1]);
      InsideLonger(Strip(s), s[..|s| - 1], s[|s| - 1]);
      assert s[..|s| - 1] + [s[|s| - 1]] == s;
    } else {
      InsideItself(s);
    }
  }

  lemma InsideItself(s: string)
    ensures Inside(s, s)
  {
    assert AllBlank([]) && s == [] + s + [];
  }

  /** An error text is the stripped message, or the kind of error if that is empty, on one line. */
  lemma ErrorTextIs(message: string, kind: string)
    ensures var text := if Strip(message) == [] then kind else Strip(message);
            var t := FormatErrorMessage(message, kind);
            && |t| == |text|
            && forall i :: 0 <= i < |t| ==> t[i] == if text[i] == '\r' || text[i] == '\n' then ' ' else text[i]
  {
  }

  // ---- Reading replies ----

  /** Bytes after a whole reply are refused, unless the reply is an error. */
  lemma TrailingDataIsRefused(command: Tokens, ending: Ending, extra: Data)
    requires extra != []
    ensures Receive([], [Response(command, ending) + extra])
         == match MeaningOf(command, ending) {
              case Answer(_) => Upstream("Redis reply contained unexpected trailing data")
              case Refusal(text) => Refused(text)
            }
  {
    hide Response;
    hide MeaningOf;
    hide ParseReply;
    ResponseRoundTrip(command, ending);
    ReplyStable(Response(command, ending), extra, 0);
    assert [] + (Response(command, ending) + extra) == Response(command, ending) + extra;
  }

  /** A disconnect before the end of the reply is reported as such. */
  lemma DisconnectIsReported(command: Tokens, ending: Ending, cut: nat)
    requires 0 < cut < |Response(command, ending)|
    ensures Receive([], [Response(command, ending)[..cut]]) == Upstream("Redis closed the connection before replying")
  {
    hide Response;
    hide ParseReply;
    PrefixNeedsMore(command, ending, cut);
    assert [] + Response(command, ending)[..cut] == Response(command, ending)[..cut];
  }

  /** A reply that cannot be understood is reported with the reason. */
  lemma BadRepliesAreReported(chunk: Data)
    requires chunk != []
    ensures var r := ParseReply(chunk, 0);
            && (r.Bad? ==> Receive([], [chunk]) == Upstream("Invalid Redis reply: " + r.message))
            && (r.NotUtf8? ==> Receive([], [chunk]) == Upstream("Redis returned non-UTF8 data"))
  {
    hide ParseReply;
    assert [] + chunk == chunk;
  }

  /** Results that cannot be sent are answered with an error that says why. */
  lemma ResultsRefused(command: Tokens, result: CommandResult)
    ensures command == [] || command[0] == "" ==>
              ParseReply(Response(command, Returned(result)), 0) == Conflict("ERR empty command")
    ensures command != [] && command[0] in {"SET", "Set", "set"} && !(result.One? && result.scalar.Str?) ==>
              ParseReply(Response(command, Returned(result)), 0) == Conflict("ERR SET must return a string result")
    ensures command != [] && command[0] in {"SET", "Set", "set"} && result.One? && result.scalar.Str?
            && ('\r' in result.scalar.text || '\n' in result.scalar.text) ==>
              ParseReply(Response(command, Returned(result)), 0) == Conflict("ERR " + LINE_ERROR)
  {
    hide ParseReply;
    hide Response;
    ResponseRoundTrip(command, Returned(result));
    assert "ERR " + "empty command" == "ERR empty command";
    assert "ERR " + "SET must return a string result" == "ERR SET must return a string result";
  }

  // ---- Sessions ----

  /**
   After a protocol error the session starts afresh with the next chunk: commands that follow are
   executed and answered as if nothing had been received before.
   */
  lemma SessionRecovers<S>(h: Handler<S>, s: S, bad: Data, chunks: seq<Data>, commands: seq<Tokens>)
    requires bad != [] && Drain(bad).failure.Some?
    requires (forall i :: 0 <= i < |chunks| ==> chunks[i] != []) && Concat(chunks) == EncodeCommands(commands)
    ensures var first := Execute(h, s, Drain(bad));
            var later := RunAll(h, first.state, commands);
            Session(h, s, [], [bad] + chunks) == Served(later.state, first.sent + later.sent)
  {
    hide Drain;
    hide EncodeCommands;
    var all := [bad] + chunks;
    assert all[0] == bad && all[1..] == chunks && [] + bad == bad;
    var first := Execute(h, s, Drain(bad));
    EmptyIsDrained();
    assert [] + Concat(chunks) == Concat(chunks);
    SessionIgnoresChunks(h, first.state, [], chunks);
    CommandsRoundTrip(commands);
    assert RunAll(h, first.state, commands).sent + [] == RunAll(h, first.state, commands).sent;
  }

  lemma EmptyIsDrained()
    ensures Drain([]) == Drained([], [], None)
  {
  }

  /** Nothing is executed after the peer has closed. */
  lemma {:induction false} DisconnectEnds<S>(h: Handler<S>, s: S, buffer: Data, a: seq<Data>, b: seq<Data>)
    ensures Session(h, s, buffer, a + [[]] + b) == Session(h, s, buffer, a)
    decreases a
  {
    hide Drain;
    hide Execute;
    var all := a + [[]] + b;
    if a == [] {
      assert all[0] == [];
    } else {
      assert all[0] == a[0] && all[1..] == a[1..] + [[]] + b;
      if a[0] != [] {
        var d := Drain(buffer + a[0]);
        DisconnectEnds(h, Execute(h, s, d).state, Kept(d), a[1..], b);
      }
    }
  }

  /** The client reads a protocol error as the server's message. */
  lemma ProtocolErrorReadsBack(message: string)
    ensures ParseReply(ProtocolErrorReply(message), 0) == Conflict("ERR " + FormatErrorMessage(message, "ProtocolError"))
  {
    hide ParseReply;
    hide FormatErrorMessage;
    ResponseRoundTrip([], Threw(message, "ProtocolError"));
  }

  /** A protocol error is answered once, after the replies to the commands before it. */
  lemma ProtocolErrorIsAnswered<S>(h: Handler<S>, s: S, d: Drained)
    requires d.failure.Some?
    ensures var sent, before := Execute(h, s, d).sent, RunAll(h, s, d.commands).sent;
            && |sent| == |d.commands| + 1 && sent[..|d.commands|] == before
            && ParseReply(sent[|d.commands|], 0) == Conflict("ERR " + FormatErrorMessage(d.failure.value, "ProtocolError"))
  {
    hide ParseReply;
    hide FormatErrorMessage;
    ProtocolErrorReadsBack(d.failure.value);
  }

  // ---- Time ----

  lemma PadTwo(n: nat)
    requires n < 100
    ensures Pad(n, 2) == [Digit(n / 10), Digit(n % 10)]
  {
    assert Pad(n / 10, 1) == Pad(n / 10 / 10, 0) + [Digit(n / 10 % 10)];
  }

  /** A stored time, field by field, with and without a fraction of a second. */
  lemma TimeTexts(t: DateTime)
    requires Valid(t)
    ensures var date := Pad(t.year, 4) + "-" + [Digit(t.month / 10), Digit(t.month % 10)]
                        + "-" + [Digit(t.day / 10), Digit(t.day % 10)];
            var clock := [Digit(t.hour / 10), Digit(t.hour % 10)] + ":" + [Digit(t.minute / 10), Digit(t.minute % 10)]
                         + ":" + [Digit(t.second / 10), Digit(t.second % 10)];
            Iso(t) == date + "T" + clock + (if t.micro == 0 then "" else "." + Pad(t.micro, 6)) + "+00:00"
  {
    hide Pad;
    hide Digit;
    PadTwo(t.month);
    PadTwo(t.day);
    PadTwo(t.hour);
    PadTwo(t.minute);
    PadTwo(t.second);
  }

  /** An instant: days of twenty-four hours, and the time of day. */
  lemma TimeOfDay(t: DateTime)
    ensures Ticks(t)
         == Ordinal(t) * 86_400_000_000 + t.hour * 3_600_000_000 + t.minute * 60_000_000 + t.second * 1_000_000 + t.micro
  {
  }

  /** The lengths of years and months. */
  lemma Calendar(year: nat)
    ensures IsLeap(2000) && !IsLeap(1900) && IsLeap(2024) && !IsLeap(2023)
    ensures DaysInMonth(year, 1) == 31 && DaysInMonth(year, 4) == 30 && DaysInMonth(year, 12) == 31
    ensures DaysInMonth(year, 2) == if IsLeap(year) then 29 else 28
  {
  }

  /** Days follow each other within and across months. */
  lemma NextDay(year: nat, month: nat, day: nat)
    requires 1 <= month < 12
    ensures Ordinal(DateTime(year, month, day + 1, 0, 0, 0, 0)) == Ordinal(DateTime(year, month, day, 0, 0, 0, 0)) + 1
    ensures Ordinal(DateTime(year, month + 1, 1, 0, 0, 0, 0))
         == Ordinal(DateTime(year, month, DaysInMonth(year, month), 0, 0, 0, 0)) + 1
  {
    hide DaysBeforeYear;
    hide DaysInMonth;
  }

  /** And across years. */
  lemma NewYear(year: nat)
    requires 1 <= year
    ensures Ordinal(DateTime(year + 1, 1, 1, 0, 0, 0, 0)) == Ordinal(DateTime(year, 12, 31, 0, 0, 0, 0)) + 1
  {
    YearLength(year);
  }
}
