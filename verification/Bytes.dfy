/** Bytes, the decimal integers of the wire, and UTF-8 (section 3 of RFC 3629). */
module Bytes {
  import opened Basics

  type Byte = b: int | 0 <= b < 256

  type Data = seq<Byte>

  const CR: Byte := 13
  const LF: Byte := 10
  const CRLF: Data := [CR, LF]

  // ---- Decimal integers ----

  predicate IsDigit(b: Byte) {
    48 <= b <= 57
  }

  const UNDERSCORE: Byte := 95
  const PLUS: Byte := 43
  const MINUS: Byte := 45

  function PrintNat(n: nat): Data {
    if n < 10 then [48 + n] else PrintNat(n / 10) + [48 + n % 10]
  }

  function PrintInt(n: int): Data {
    if n < 0 then [MINUS] + PrintNat(-n) else PrintNat(n)
  }

  predicate IsSpace(b: Byte) {
    b == 32 || 9 <= b <= 13
  }

  function TrimLeft(s: Data): (t: Data)
    ensures |t| <= |s|
  {
    if s != [] && IsSpace(s[0]) then TrimLeft(s[1..]) else s
  }

  function TrimRight(s: Data): (t: Data)
    ensures |t| <= |s|
  {
    if s != [] && IsSpace(s[|s| - 1]) then TrimRight(s[..|s| - 1]) else s
  }

  /** Digits in which single underscores may separate digits, read after the value so far. */
  function ParseDigits(s: Data, value: nat, afterDigit: bool): Option<nat> {
    if s == [] then (if afterDigit then Some(value) else None)
    else if IsDigit(s[0]) then ParseDigits(s[1..], 10 * value + (s[0] - 48), true)
    else if s[0] == UNDERSCORE && afterDigit then ParseDigits(s[1..], value, false)
    else None
  }

  /** What the integer constructor of the implementation language accepts. */
  function ParseInt(line: Data): (r: Option<int>)
    ensures r.Some? ==> line != []
  {
    ParseSigned(TrimRight(TrimLeft(line)))
  }

  function ParseSigned(s: Data): (r: Option<int>)
    ensures r.Some? ==> s != []
  {
    if s != [] && s[0] == MINUS then Negated(ParseDigits(s[1..], 0, false))
    else ParseDigits(if s != [] && s[0] == PLUS then s[1..] else s, 0, false)
  }

  function Negated(n: Option<nat>): Option<int> {
    match n
    case None => None
    case Some(value) => Some(0 - value)
  }

  lemma {:induction false} ParseDigitsAppend(s: Data, d: Byte, value: nat, afterDigit: bool)
    requires IsDigit(d)
    ensures ParseDigits(s, value, afterDigit).Some? ==>
              ParseDigits(s + [d], value, afterDigit) == Some(10 * ParseDigits(s, value, afterDigit).value + (d - 48))
  {
    if s != [] {
      assert (s + [d])[1..] == s[1..] + [d];
      if IsDigit(s[0]) {
        ParseDigitsAppend(s[1..], d, 10 * value + (s[0] - 48), true);
      } else {
        ParseDigitsAppend(s[1..], d, value, false);
      }
    }
  }

  lemma {:induction false} ParsePrintNat(n: nat)
    ensures ParseDigits(PrintNat(n), 0, false) == Some(n)
    ensures PrintNat(n) != [] && IsDigit(PrintNat(n)[0]) && IsDigit(PrintNat(n)[|PrintNat(n)| - 1])
  {
    if n >= 10 {
      ParsePrintNat(n / 10);
      ParseDigitsAppend(PrintNat(n / 10), 48 + n % 10, 0, false);
    }
  }

  /** Parsing inverts printing. */
  lemma ParsePrintInt(n: int)
    ensures ParseInt(PrintInt(n)) == Some(n)
  {
    var s := PrintInt(n);
    ParsePrintNat(if n < 0 then -n else n);
    assert TrimLeft(s) == s && TrimRight(s) == s;
    if n < 0 {
      assert s[1..] == PrintNat(-n);
    }
  }

  lemma {:induction false} PrintNatHasNoCr(n: nat)
    ensures CR !in PrintNat(n)
  {
    if n >= 10 {
      PrintNatHasNoCr(n / 10);
    }
  }

  lemma PrintIntHasNoCr(n: int)
    ensures CR !in PrintInt(n)
  {
    PrintNatHasNoCr(if n < 0 then -n else n);
  }

  // ---- UTF-8 ----

  function EncodeChar(c: char): (b: Data)
    ensures 1 <= |b| <= 4
    ensures b[0] == CR <==> c == '\r'
    ensures b[0] == LF <==> c == '\n'
    ensures forall i :: 0 < i < |b| ==> b[i] >= 128
  {
    var n := c as int;
    if n < 0x80 then [n]
    else if n < 0x800 then [0xC0 + n / 64, 0x80 + n % 64]
    else if n < 0x1_0000 then [0xE0 + n / 4096, 0x80 + n / 64 % 64, 0x80 + n % 64]
    else [0xF0 + n / 262144, 0x80 + n / 4096 % 64, 0x80 + n / 64 % 64, 0x80 + n % 64]
  }

  function Encode(text: string): Data {
    if text == [] then [] else EncodeChar(text[0]) + Encode(text[1..])
  }

  predicate IsTail(b: Byte) {
    0x80 <= b < 0xC0
  }

  function Tail(b: Byte): int {
    b - 0x80
  }

  function Scalar2(b: Data): int
    requires |b| >= 2
  {
    var lead: int := b[0];
    (lead - 0xC0) * 64 + Tail(b[1])
  }

  function Scalar3(b: Data): int
    requires |b| >= 3
  {
    var lead: int := b[0];
    (lead - 0xE0) * 4096 + Tail(b[1]) * 64 + Tail(b[2])
  }

  function Scalar4(b: Data): int
    requires |b| >= 4
  {
    var lead: int := b[0];
    (lead - 0xF0) * 262144 + Tail(b[1]) * 4096 + Tail(b[2]) * 64 + Tail(b[3])
  }

  predicate Spells2(b: Data) {
    |b| >= 2 && 0xC2 <= b[0] < 0xE0 && IsTail(b[1])
  }

  predicate Spells3(b: Data) {
    && |b| >= 3 && 0xE0 <= b[0] < 0xF0 && IsTail(b[1]) && IsTail(b[2])
    && 0x800 <= Scalar3(b) && !(0xD800 <= Scalar3(b) < 0xE000)
  }

  predicate Spells4(b: Data) {
    && |b| >= 4 && 0xF0 <= b[0] < 0xF8 && IsTail(b[1]) && IsTail(b[2]) && IsTail(b[3])
    && 0x1_0000 <= Scalar4(b) < 0x11_0000
  }

  /** The first character and its width; overlong, surrogate and too large forms are rejected. */
  function LeadingScalar(b: Data): (r: Option<(char, nat)>)
    ensures r.Some? ==> 1 <= r.value.1 <= |b|
  {
    if b == [] then None
    else if b[0] < 0x80 then Some((b[0] as char, 1))
    else if Spells2(b) then Some((Scalar2(b) as char, 2))
    else if Spells3(b) then Some((Scalar3(b) as char, 3))
    else if Spells4(b) then Some((Scalar4(b) as char, 4))
    else None
  }

  /** The base-64 digits of a number. */
  lemma SixBits(x: int, y: int, z: int)
    requires 0 <= y < 64 && 0 <= z < 64
    ensures var n := x * 4096 + y * 64 + z;
            n / 4096 == x && n / 64 == x * 64 + y && n / 64 % 64 == y && n % 64 == z
  {
  }

  lemma Spelled3(b: Data)
    requires Spells3(b)
    ensures EncodeChar(Scalar3(b) as char) == b[..3]
  {
    SixBits(b[0] - 0xE0, Tail(b[1]), Tail(b[2]));
  }

  lemma Spelled4(b: Data)
    requires Spells4(b)
    ensures EncodeChar(Scalar4(b) as char) == b[..4]
  {
    var lead: int := b[0];
    var n := Scalar4(b);
    var high := (lead - 0xF0) * 64 + Tail(b[1]);
    SixBits(high, Tail(b[2]), Tail(b[3]));
    assert n == high * 4096 + Tail(b[2]) * 64 + Tail(b[3]);
    assert n / 262144 == (n / 4096) / 64;
    assert high / 64 == lead - 0xF0 && high % 64 == Tail(b[1]);
  }

  lemma LeadingScalarIsEncoded(b: Data)
    requires LeadingScalar(b).Some?
    ensures EncodeChar(LeadingScalar(b).value.0) == b[..LeadingScalar(b).value.1]
  {
    if b[0] >= 0x80 && !Spells2(b) {
      if Spells3(b) {
        Spelled3(b);
      } else {
        Spelled4(b);
      }
    }
  }

  function Decode(b: Data): Option<string> {
    if b == [] then Some([])
    else
      var first := LeadingScalar(b);
      if first.None? then None
      else
        var rest := Decode(b[first.value.1..]);
        if rest.None? then None else Some([first.value.0] + rest.value)
  }

  lemma Encoded3(c: char, b: Data)
    requires 0x800 <= c as int < 0x1_0000
    requires EncodeChar(c) <= b
    ensures Spells3(b) && Scalar3(b) == c as int
  {
    var n, e := c as int, EncodeChar(c);
    assert b[0] == e[0] && b[1] == e[1] && b[2] == e[2];
    assert n == (n / 4096) * 4096 + (n / 64 % 64) * 64 + n % 64;
  }

  lemma SixBitDigits(n: nat)
    ensures n == (n / 262144) * 262144 + (n / 4096 % 64) * 4096 + (n / 64 % 64) * 64 + n % 64
    ensures n / 262144 == n / 4096 / 64
  {
    assert n / 4096 == n / 64 / 64;
    assert n / 262144 == n / 4096 / 64;
  }

  lemma Encoded4(c: char, b: Data)
    requires 0x1_0000 <= c as int
    requires EncodeChar(c) <= b
    ensures Spells4(b) && Scalar4(b) == c as int
  {
    var n, e := c as int, EncodeChar(c);
    assert |e| == 4 && b[0] == e[0] && b[1] == e[1] && b[2] == e[2] && b[3] == e[3];
    SixBitDigits(n);
  }

  lemma LeadingScalarOfEncoded(c: char, rest: Data)
    ensures LeadingScalar(EncodeChar(c) + rest) == Some((c, |EncodeChar(c)|))
  {
    var b, n := EncodeChar(c) + rest, c as int;
    if 0x800 <= n < 0x1_0000 {
      Encoded3(c, b);
    } else if 0x1_0000 <= n {
      Encoded4(c, b);
    }
  }

  /** Decoding inverts encoding. */
  lemma {:induction false} DecodeEncode(text: string)
    ensures Decode(Encode(text)) == Some(text)
  {
    if text != [] {
      LeadingScalarOfEncoded(text[0], Encode(text[1..]));
      assert Encode(text)[|EncodeChar(text[0])|..] == Encode(text[1..]);
      DecodeEncode(text[1..]);
      assert text == [text[0]] + text[1..];
    }
  }

  /** Every accepted byte string is the encoding of its text, so no two byte strings decode alike. */
  lemma {:induction false} EncodeDecode(b: Data, text: string)
    requires Decode(b) == Some(text)
    ensures Encode(text) == b
  {
    hide EncodeChar;
    hide LeadingScalar;
    if b != [] {
      var (c, width) := LeadingScalar(b).value;
      var rest := Decode(b[width..]).value;
      assert text == [c] + rest;
      EncodeDecode(b[width..], rest);
      LeadingScalarIsEncoded(b);
      EncodeCons(c, rest);
      assert b == b[..width] + b[width..];
    }
  }

  lemma EncodeCons(c: char, rest: string)
    ensures Encode([c] + rest) == EncodeChar(c) + Encode(rest)
  {
  }

  predicate SingleLine(text: string) {
    '\r' !in text && '\n' !in text
  }

  lemma {:induction false} SingleLineBytes(text: string)
    requires SingleLine(text)
    ensures CR !in Encode(text)
  {
    if text != [] {
      SingleLineBytes(text[1..]);
    }
  }
}
