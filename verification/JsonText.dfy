/** JSON string text: how bytes are escaped, and how the parser takes them back, including the UTF-16
    escapes of section 7 of RFC 8259 and their UTF-8 form by section 3 of RFC 3629. */
module JsonText {
  import opened Bytes
  import opened Options

  const QUOTE: u8 := 0x22
  const BACKSLASH: u8 := 0x5c

  predicate Plain(c: u8) { c >= 0x20 && c != QUOTE && c != BACKSLASH }

  // ---- escaping ------------------------------------------------------------------------------------

  function HexDigit(x: int): (d: u8)
    requires 0 <= x < 16
  {
    if x < 10 then 0x30 + x else 0x61 - 10 + x
  }

  function Escape(c: u8): (e: seq<u8>)
    ensures 2 <= |e| <= 6 && e[0] == BACKSLASH
  {
    if c == QUOTE then [BACKSLASH, QUOTE] else
    if c == BACKSLASH then [BACKSLASH, BACKSLASH] else
    if c == 0x09 then [BACKSLASH, 0x74] else
    if c == 0x0c then [BACKSLASH, 0x66] else
    if c == 0x0d then [BACKSLASH, 0x72] else
    if c == 0x0a then [BACKSLASH, 0x6e] else
    if c == 0x08 then [BACKSLASH, 0x62] else
    [BACKSLASH, 0x75, 0x30, 0x30, HexDigit(c / 16), HexDigit(c % 16)]
  }

  /** The printed form of a string's bytes, without its quotes. */
  function Escaped(s: seq<u8>): seq<u8> {
    if s == [] then [] else (if Plain(s[0]) then [s[0]] else Escape(s[0])) + Escaped(s[1..])
  }

  function Quoted(s: seq<u8>): seq<u8> { [QUOTE] + Escaped(s) + [QUOTE] }

  // ---- code points ---------------------------------------------------------------------------------

  /** decode_unicode_char: the UTF-8 form of a code point. The source ors in bits that are clear. */
  function Utf8(u: nat): (code: seq<u8>)
    ensures |code| <= 4
  {
    if u <= 0x7f then [u] else
    if u <= 0x7ff then [0xc0 + u / 0x40, 0x80 + u % 0x40] else
    if u <= 0xffff then [0xe0 + u / 0x1000, 0x80 + u / 0x40 % 0x40, 0x80 + u % 0x40] else
    if u <= 0x10ffff then [0xf0 + u / 0x4_0000, 0x80 + u / 0x1000 % 0x40, 0x80 + u / 0x40 % 0x40, 0x80 + u % 0x40] else
    []
  }

  predicate Surrogate(u: int) { 0xd800 <= u <= 0xdfff }

  predicate Tail(b: u8) { 0x80 <= b <= 0xbf }

  /** Six more bits from a continuation byte. */
  function Join6(high: int, tail: int): int { high * 0x40 + (tail - 0x80) }

  /** The well-formed UTF-8 sequences of RFC 3629, and the code points they stand for. */
  function Utf8Decode(s: seq<u8>): Option<int> {
    if |s| == 1 && s[0] <= 0x7f then Some(s[0]) else
    if |s| == 2 && 0xc2 <= s[0] <= 0xdf && Tail(s[1]) then Some(Join6(s[0] as int - 0xc0, s[1])) else
    if |s| == 3 && 0xe0 <= s[0] <= 0xef && Tail(s[1]) && Tail(s[2])
       && (s[0] == 0xe0 ==> s[1] >= 0xa0) && (s[0] == 0xed ==> s[1] <= 0x9f) then
      Some(Join6(Join6(s[0] as int - 0xe0, s[1]), s[2])) else
    if |s| == 4 && 0xf0 <= s[0] <= 0xf4 && Tail(s[1]) && Tail(s[2]) && Tail(s[3])
       && (s[0] == 0xf0 ==> s[1] >= 0x90) && (s[0] == 0xf4 ==> s[1] <= 0x8f) then
      Some(Join6(Join6(Join6(s[0] as int - 0xf0, s[1]), s[2]), s[3])) else
    None
  }

  lemma Split64(u: nat)
    ensures u / 0x1000 == u / 0x40 / 0x40 && u / 0x4_0000 == u / 0x40 / 0x40 / 0x40
    ensures Join6(u / 0x40, 0x80 + u % 0x40) == u
    ensures Join6(u / 0x40 / 0x40, 0x80 + u / 0x40 % 0x40) == u / 0x40
    ensures Join6(u / 0x40 / 0x40 / 0x40, 0x80 + u / 0x40 / 0x40 % 0x40) == u / 0x40 / 0x40
  {}

  lemma JoinSplits(high: int, tail: int)
    requires 0x80 <= tail <= 0xbf && high >= 0
    ensures Join6(high, tail) / 0x40 == high && Join6(high, tail) % 0x40 == tail - 0x80 && Join6(high, tail) >= 0
  {}

  /** Encoding then decoding gives the code point back, for exactly the code points there are: the
      surrogate halves come out as three bytes no UTF-8 decoder takes. */
  lemma Utf8RoundTrip(u: nat)
    ensures Utf8Decode(Utf8(u)) == if u <= 0x10ffff && !Surrogate(u) then Some(u) else None
    ensures Surrogate(u) ==> |Utf8(u)| == 3 && Utf8(u)[0] == 0xed && Utf8(u)[1] >= 0xa0
    ensures u > 0x10ffff ==> Utf8(u) == []
  {
    Split64(u);
  }

  /** Decoding then encoding gives the bytes back. */
  lemma Utf8Unique(s: seq<u8>)
    requires Utf8Decode(s).Some?
    ensures Utf8Decode(s).value >= 0 && Utf8(Utf8Decode(s).value) == s
  {
    hide Join6, Utf8;
    match |s|
    case 1 => Unique1(s[0]);
    case 2 => Unique2(s[0], s[1]);
    case 3 => Unique3(s[0], s[1], s[2]);
    case 4 => Unique4(s[0], s[1], s[2], s[3]);
    case _ =>
  }

  lemma Unique1(a: u8)
    requires a <= 0x7f
    ensures Utf8(a) == [a]
  {}

  lemma Unique2(a: u8, b: u8)
    requires 0xc2 <= a <= 0xdf && Tail(b)
    ensures var u := Join6(a as int - 0xc0, b); u >= 0 && Utf8(u) == [a, b]
  {
    JoinSplits(a as int - 0xc0, b);
  }

  lemma Unique3(a: u8, b: u8, c: u8)
    requires 0xe0 <= a <= 0xef && Tail(b) && Tail(c) && (a == 0xe0 ==> b >= 0xa0)
    ensures var u := Join6(Join6(a as int - 0xe0, b), c); u >= 0 && Utf8(u) == [a, b, c]
  {
    var v := Join6(a as int - 0xe0, b);
    var u := Join6(v, c);
    JoinSplits(a as int - 0xe0, b);
    JoinSplits(v, c);
    assert 0x20 <= v <= 0x3ff && 0x800 <= u <= 0xffff;
    Quarters(u);
  }

  lemma Unique4(a: u8, b: u8, c: u8, d: u8)
    requires 0xf0 <= a <= 0xf4 && Tail(b) && Tail(c) && Tail(d) && (a == 0xf0 ==> b >= 0x90)
        && (a == 0xf4 ==> b <= 0x8f)
    ensures var u := Join6(Join6(Join6(a as int - 0xf0, b), c), d); u >= 0 && Utf8(u) == [a, b, c, d]
  {
    var v := Join6(a as int - 0xf0, b);
    var w := Join6(v, c);
    var u := Join6(w, d);
    JoinSplits(a as int - 0xf0, b);
    JoinSplits(v, c);
    JoinSplits(w, d);
    assert 0x10 <= v <= 0x10f && 0x400 <= w <= 0x43ff && 0x1_0000 <= u <= 0x10_ffff;
    Quarters(u);
  }

  lemma Quarters(u: nat)
    ensures u / 0x1000 == u / 0x40 / 0x40 && u / 0x4_0000 == u / 0x40 / 0x40 / 0x40
  {}

  predicate High(u: int) { 0xd800 <= u <= 0xdbff }
  predicate Low(u: int) { 0xdc00 <= u <= 0xdfff }

  /** combine_utf16_surrogate_pair. */
  function Combine(high: nat, low: nat): (u: int)
  {
    (high - 0xd800) * 0x400 + (low - 0xdc00) + 0x10000
  }

  function HighOf(u: nat): nat { 0xd800 + (if u < 0x10000 then 0 else (u - 0x10000) / 0x400) }
  function LowOf(u: nat): nat { 0xdc00 + (if u < 0x10000 then 0 else (u - 0x10000) % 0x400) }

  /** Pairs of surrogate halves and the code points U+10000 to U+10FFFF correspond one to one (section
      2.1 of RFC 2781); decoding a pair never fails and gives four bytes. */
  lemma PairsAreCodePoints(high: nat, low: nat)
    requires High(high) && Low(low)
    ensures 0x10000 <= Combine(high, low) <= 0x10ffff
    ensures HighOf(Combine(high, low)) == high && LowOf(Combine(high, low)) == low
    ensures |Utf8(Combine(high, low))| == 4
  {
    var x := Combine(high, low) - 0x10000;
    assert x == (high - 0xd800) * 0x400 + (low - 0xdc00);
    assert x / 0x400 == high - 0xd800 && x % 0x400 == low - 0xdc00;
  }

  lemma CodePointsArePairs(u: nat)
    requires 0x10000 <= u <= 0x10ffff
    ensures High(HighOf(u)) && Low(LowOf(u)) && Combine(HighOf(u), LowOf(u)) == u
  {}

  // ---- escapes as the parser reads them ----------------------------------------------------------

  datatype Error = NoError | UnterminatedString | InvalidCharacter | InvalidEscape | ExpectedString

  function HexValue(c: u8): Option<nat> {
    if 0x30 <= c <= 0x39 then Some(c - 0x30) else
    if 0x41 <= c <= 0x46 then Some(c - 0x41 + 10) else
    if 0x61 <= c <= 0x66 then Some(c - 0x61 + 10) else None
  }

  function Hex4(t: seq<u8>): Option<nat>
    requires |t| >= 4
  {
    var a, b, c, d := HexValue(t[0]), HexValue(t[1]), HexValue(t[2]), HexValue(t[3]);
    if a.None? || b.None? || c.None? || d.None? then None
    else Some(a.value * 0x1000 + b.value * 0x100 + c.value * 0x10 + d.value)
  }

  /** One escape at the start of t: the bytes it stands for, and how much text it takes. */
  datatype Code = BadCode | Code(bytes: seq<u8>, used: nat)

  /** An escaped low half stands behind the escape t begins with. */
  predicate LowBehind(t: seq<u8>) {
    |t| >= 12 && t[6] == BACKSLASH && t[7] == 0x75 && Hex4(t[8..]).Some? && Low(Hex4(t[8..]).value)
  }

  function UnicodeEscape(t: seq<u8>): (r: Code)
    requires |t| >= 2
    ensures r.Code? ==> 0 < r.used <= |t|
  {
    if |t| < 6 then BadCode else
    var u := Hex4(t[2..]);
    if u.None? then BadCode else
    if High(u.value) && LowBehind(t) then
      Code(Utf8(Combine(u.value, Hex4(t[8..]).value)), 12)
    else
      Code(Utf8(u.value), 6)
  }

  function EscapeAt(t: seq<u8>): (r: Code)
    ensures r.Code? ==> 0 < r.used <= |t|
  {
    if |t| < 2 || t[0] != BACKSLASH then BadCode else
    var c := t[1];
    if c == 0x78 then
      if |t| < 4 || HexValue(t[2]).None? || HexValue(t[3]).None? then BadCode
      else Code([HexValue(t[2]).value * 16 + HexValue(t[3]).value], 4) else
    if c == 0x75 then UnicodeEscape(t) else
    if c == 0x74 then Code([0x09], 2) else
    if c == 0x6e then Code([0x0a], 2) else
    if c == 0x72 then Code([0x0d], 2) else
    if c == 0x62 then Code([0x08], 2) else
    if c == 0x66 then Code([0x0c], 2) else
    if c == QUOTE then Code([QUOTE], 2) else
    if c == BACKSLASH then Code([BACKSLASH], 2) else
    if c == 0x2f then Code([0x2f], 2) else BadCode
  }

  /** The text of a string from behind its opening quote: its bytes, and how much of it lies before the
      closing quote; or the first error, and how much text was left there. */
  datatype Parsed = Fail(error: Error, left: nat) | Done(chars: seq<u8>, used: nat)

  function Before(bytes: seq<u8>, used: nat, rest: Parsed): Parsed {
    if rest.Fail? then rest else Done(bytes + rest.chars, used + rest.used)
  }

  function Chars(t: seq<u8>): (r: Parsed)
    ensures r.Done? ==> r.used < |t| && t[r.used] == QUOTE
    decreases |t|
  {
    if t == [] then Fail(UnterminatedString, 0) else
    if t[0] == QUOTE then Done([], 0) else
    if t[0] < 0x20 then Fail(InvalidCharacter, |t|) else
    if t[0] == BACKSLASH then
      var e := EscapeAt(t);
      if e.BadCode? then Fail(InvalidEscape, |t|) else Before(e.bytes, e.used, Chars(t[e.used..]))
    else Before([t[0]], 1, Chars(t[1..]))
  }

  // ---- the round trip ------------------------------------------------------------------------------

  lemma HexDigitValue(x: int)
    requires 0 <= x < 16
    ensures HexValue(HexDigit(x)) == Some(x)
  {}

  lemma EscapeReadsBack(c: u8, rest: seq<u8>)
    requires !Plain(c)
    ensures EscapeAt(Escape(c) + rest) == Code([c], |Escape(c)|)
  {
    var t := Escape(c) + rest;
    if |Escape(c)| == 6 {
      HexDigitValue(c / 16);
      HexDigitValue(c % 16);
      assert t[2..][0] == 0x30 && t[2..][1] == 0x30 && t[2..][2] == HexDigit(c / 16) && t[2..][3] == HexDigit(c % 16);
      assert Hex4(t[2..]) == Some(c);
    }
  }

  lemma PlainParses(c: u8, next: seq<u8>)
    requires Plain(c)
    ensures Chars([c] + next) == Before([c], 1, Chars(next))
  {
    assert ([c] + next)[1..] == next;
  }

  lemma EscapeParses(c: u8, next: seq<u8>)
    requires !Plain(c)
    ensures Chars(Escape(c) + next) == Before([c], |Escape(c)|, Chars(next))
  {
    hide Escape, EscapeAt;
    EscapeReadsBack(c, next);
    var t := Escape(c) + next;
    assert t[0] == BACKSLASH && t[|Escape(c)|..] == next;
  }

  lemma QuoteEnds(rest: seq<u8>)
    ensures Chars([QUOTE] + rest) == Done([], 0)
  {}

  /** What is printed for any bytes parses back to the same bytes, up to exactly the closing quote,
      whatever follows it. */
  lemma {:induction false} PrintedParses(s: seq<u8>, rest: seq<u8>)
    ensures Chars(Escaped(s) + [QUOTE] + rest) == Done(s, |Escaped(s)|)
    decreases |s|
  {
    hide Escape, Plain, Chars;
    if s == [] {
      assert Escaped(s) + [QUOTE] + rest == [QUOTE] + rest;
      QuoteEnds(rest);
    } else {
      var first := if Plain(s[0]) then [s[0]] else Escape(s[0]);
      var next := Escaped(s[1..]) + [QUOTE] + rest;
      assert Escaped(s) + [QUOTE] + rest == first + next;
      PrintedParses(s[1..], rest);
      assert [s[0]] + s[1..] == s;
      if Plain(s[0]) { PlainParses(s[0], next); } else { EscapeParses(s[0], next); }
    }
  }

  /** A pair of escaped surrogate halves parses to the four bytes of its code point. Any other half, a low
      one or a high one before the end, before plain text or before another escape, is taken on its own
      and gives three bytes that no UTF-8 decoder takes. */
  lemma EscapedHalf(t: seq<u8>, half: nat)
    requires |t| >= 6 && t[0] == BACKSLASH && t[1] == 0x75 && Hex4(t[2..]) == Some(half) && Surrogate(half)
    ensures High(half) && LowBehind(t) ==>
              var u := Combine(half, Hex4(t[8..]).value);
              EscapeAt(t) == Code(Utf8(u), 12) && Utf8Decode(EscapeAt(t).bytes) == Some(u) && 0x10000 <= u <= 0x10ffff
    ensures !(High(half) && LowBehind(t)) ==>
              EscapeAt(t) == Code(Utf8(half), 6) && |EscapeAt(t).bytes| == 3 && Utf8Decode(EscapeAt(t).bytes) == None
  {
    hide Utf8, Utf8Decode, Hex4;
    if High(half) && LowBehind(t) {
      PairsAreCodePoints(half, Hex4(t[8..]).value);
      Utf8RoundTrip(Combine(half, Hex4(t[8..]).value));
    } else {
      Utf8RoundTrip(half);
    }
  }

  // ---- said of the text alone ----------------------------------------------------------------------

  /** The short escapes of section 7 of RFC 8259: the letter behind the backslash, and the byte. */
  const SHORT: seq<(char, u8)> :=
    [('"', 0x22), ('\\', 0x5c), ('/', 0x2f), ('b', 0x08), ('f', 0x0c), ('n', 0x0a), ('r', 0x0d), ('t', 0x09)]

  const HEX := "0123456789abcdef"
  const UPPER_HEX := "0123456789ABCDEF"

  predicate IsShort(letter: char, b: u8) { (letter, b) in SHORT }

  /** The letter stands for the byte, whatever follows; and the byte is printed so, unless it is a slash,
      which needs no escape. */
  lemma ShortEscapes(letter: char, b: u8, rest: seq<u8>)
    requires IsShort(letter, b) && (letter as int) < 256
    ensures EscapeAt([BACKSLASH, letter as int] + rest) == Code([b], 2)
    ensures letter != '/' ==> !Plain(b) && Escape(b) == [BACKSLASH, letter as int]
    ensures letter == '/' ==> Plain(b)
  {}

  /** c is the hexadecimal digit of value x, in either case. */
  predicate IsDigit(c: u8, x: nat) {
    x < 16 && (HEX[x] as int == c || UPPER_HEX[x] as int == c)
  }

  lemma HexMeans(c: u8, x: nat)
    ensures HexValue(c) == Some(x) <==> IsDigit(c, x)
  {}

  lemma PrintedDigit(x: nat)
    requires x < 16
    ensures HexDigit(x) == HEX[x] as int
  {}

  /** A control character without a letter is printed by its two lower-case hexadecimal digits behind u00. */
  lemma LongEscapes(c: u8)
    requires !Plain(c) && forall letter :: !IsShort(letter, c)
    ensures c < 0x20
    ensures Escape(c) == [BACKSLASH, 'u' as int, '0' as int, '0' as int, HEX[c / 16] as int, HEX[c % 16] as int]
  {
    hide HexDigit, IsShort;
    PrintedDigit(c / 16);
    PrintedDigit(c % 16);
    ShortLetters();
    assert !IsShort('"', c) && !IsShort('\\', c) && !IsShort('b', c) && !IsShort('f', c);
    assert !IsShort('n', c) && !IsShort('r', c) && !IsShort('t', c);
  }

  lemma ShortLetters()
    ensures IsShort('"', 0x22) && IsShort('\\', 0x5c) && IsShort('/', 0x2f) && IsShort('b', 0x08)
    ensures IsShort('f', 0x0c) && IsShort('n', 0x0a) && IsShort('r', 0x0d) && IsShort('t', 0x09)
  {}

  ghost predicate IsHex(c: u8) { exists x :: IsDigit(c, x) }

  lemma IsHexMeans(c: u8)
    ensures IsHex(c) <==> HexValue(c).Some?
  {
    hide IsDigit;
    if HexValue(c).Some? { HexMeans(c, HexValue(c).value); }
    if IsHex(c) {
      var x :| IsDigit(c, x);
      HexMeans(c, x);
    }
  }

  ghost predicate IsLetter(c: u8) { exists letter, b :: IsShort(letter, b) && letter as int == c }

  lemma LettersMean(c: u8)
    ensures IsLetter(c) <==> c == 0x22 || c == 0x5c || c == 0x2f || c == 0x62 || c == 0x66 || c == 0x6e || c == 0x72
                             || c == 0x74
  {
    ShortLetters();
  }

  /** What the text at a backslash must look like to be an escape: a letter of the standard, two hexadecimal
      digits behind an x, which is an extension, or four behind a u. */
  ghost predicate IsEscape(t: seq<u8>) {
    && |t| >= 2 && t[0] == BACKSLASH
    && (|| IsLetter(t[1])
        || (t[1] == 0x78 && |t| >= 4 && IsHex(t[2]) && IsHex(t[3]))
        || (t[1] == 0x75 && |t| >= 6 && IsHex(t[2]) && IsHex(t[3]) && IsHex(t[4]) && IsHex(t[5])))
  }

  lemma EscapesExactly(t: seq<u8>)
    ensures EscapeAt(t).Code? <==> IsEscape(t)
  {
    hide IsHex, HexValue, IsLetter;
    if |t| >= 2 && t[0] == BACKSLASH {
      LettersMean(t[1]);
      if |t| >= 4 { IsHexMeans(t[2]); IsHexMeans(t[3]); }
      if |t| >= 6 { IsHexMeans(t[4]); IsHexMeans(t[5]); }
    }
  }

  /** Digits stand for their value: two of them for a byte, four for a code point that is no surrogate. */
  lemma DigitsMean(t: seq<u8>, a: nat, b: nat, c: nat, d: nat)
    requires |t| >= 4 && t[0] == BACKSLASH && IsDigit(t[2], a) && IsDigit(t[3], b)
    ensures t[1] == 0x78 ==> EscapeAt(t) == Code([16 * a + b], 4)
    ensures t[1] == 0x75 && |t| >= 6 && IsDigit(t[4], c) && IsDigit(t[5], d) ==>
              var u := 4096 * a + 256 * b + 16 * c + d;
              !Surrogate(u) ==> EscapeAt(t) == Code(Utf8(u), 6)
  {
    hide Utf8, HexValue, IsDigit;
    HexMeans(t[2], a);
    HexMeans(t[3], b);
    DigitRange(t[2], a);
    DigitRange(t[3], b);
    if |t| >= 6 {
      HexMeans(t[4], c);
      HexMeans(t[5], d);
    }
  }

  /** Four digits of value u at the front of t. */
  predicate Digits4(t: seq<u8>, u: nat) {
    && |t| >= 4 && u < 0x10000 && IsDigit(t[0], u / 0x1000) && IsDigit(t[1], u / 0x100 % 16)
    && IsDigit(t[2], u / 0x10 % 16) && IsDigit(t[3], u % 16)
  }

  lemma Digits4Mean(t: seq<u8>, u: nat)
    requires Digits4(t, u)
    ensures Hex4(t) == Some(u)
  {
    hide IsDigit, HexValue;
    HexMeans(t[0], u / 0x1000);
    HexMeans(t[1], u / 0x100 % 16);
    HexMeans(t[2], u / 0x10 % 16);
    HexMeans(t[3], u % 16);
    FourDigits(u);
  }

  lemma FourDigits(u: nat)
    ensures 0x1000 * (u / 0x1000) + 0x100 * (u / 0x100 % 16) + 0x10 * (u / 0x10 % 16) + u % 16 == u
  {
    assert u / 0x10 == 16 * (u / 0x100) + u / 0x10 % 16;
    assert u / 0x100 == 16 * (u / 0x1000) + u / 0x100 % 16;
  }

  /** Two escaped halves, a high one and directly behind it a low one, are one code point of four bytes,
      whatever follows; with nothing between them but a backslash and a u. */
  lemma PairRead(t: seq<u8>, high: nat, low: nat)
    requires |t| >= 12 && t[0] == BACKSLASH && t[1] == 'u' as int && Digits4(t[2..], high) && High(high)
    requires t[6] == BACKSLASH && t[7] == 'u' as int && Digits4(t[8..], low) && Low(low)
    ensures EscapeAt(t).Code? && EscapeAt(t).used == 12
    ensures Utf8Decode(EscapeAt(t).bytes) == Some(0x10000 + (high - 0xd800) * 0x400 + (low - 0xdc00))
  {
    hide Utf8, Utf8Decode, Hex4, Digits4;
    Digits4Mean(t[2..], high);
    Digits4Mean(t[8..], low);
    PairsAreCodePoints(high, low);
    Utf8RoundTrip(Combine(high, low));
  }

  /** Any other escaped half is taken alone. */
  lemma HalfRead(t: seq<u8>, half: nat)
    requires |t| >= 6 && t[0] == BACKSLASH && t[1] == 'u' as int && Digits4(t[2..], half) && Surrogate(half)
    requires Low(half) || |t| < 12 || t[6] != BACKSLASH || t[7] != 'u' as int
             || exists low: nat :: Digits4(t[8..], low) && !Low(low)
    ensures EscapeAt(t).Code? && EscapeAt(t).used == 6 && EscapeAt(t).bytes == Utf8(half)
  {
    hide Utf8, Hex4, Digits4;
    Digits4Mean(t[2..], half);
    if |t| >= 12 && exists low: nat :: Digits4(t[8..], low) && !Low(low) {
      var low: nat :| Digits4(t[8..], low) && !Low(low);
      Digits4Mean(t[8..], low);
    }
  }

  lemma DigitRange(c: u8, x: nat)
    requires IsDigit(c, x)
    ensures x < 16
  {}

  lemma {:induction false} PrintedPrefix(s: seq<u8>, rest: seq<u8>)
    ensures Chars(Escaped(s) + rest) == Before(s, |Escaped(s)|, Chars(rest))
    decreases |s|
  {
    hide Escape, Plain, Chars;
    if s == [] {
      assert Escaped(s) + rest == rest;
      BeforeNothing(Chars(rest));
    } else {
      var first := if Plain(s[0]) then [s[0]] else Escape(s[0]);
      var next := Escaped(s[1..]) + rest;
      assert Escaped(s) + rest == first + next;
      PrintedPrefix(s[1..], rest);
      assert [s[0]] + s[1..] == s;
      if Plain(s[0]) { PlainParses(s[0], next); } else { EscapeParses(s[0], next); }
      BeforeTwice([s[0]], |first|, s[1..], |Escaped(s[1..])|, Chars(rest));
    }
  }

  lemma BeforeNothing(r: Parsed)
    ensures Before([], 0, r) == r
  {
    if r.Done? { assert [] + r.chars == r.chars; }
  }

  lemma BeforeTwice(a: seq<u8>, m: nat, b: seq<u8>, n: nat, r: Parsed)
    ensures Before(a, m, Before(b, n, r)) == Before(a + b, m + n, r)
  {
    if r.Done? { assert a + (b + r.chars) == a + b + r.chars; }
  }

  /** Behind any printed text, the errors: the end of the text, a raw control character, and a backslash that
      begins no escape, each reported where it is. */
  lemma ErrorsReported(s: seq<u8>, rest: seq<u8>)
    ensures rest == [] ==> Chars(Escaped(s) + rest) == Fail(UnterminatedString, 0)
    ensures rest != [] && rest[0] < 0x20 ==> Chars(Escaped(s) + rest) == Fail(InvalidCharacter, |rest|)
    ensures rest != [] && rest[0] == BACKSLASH && !IsEscape(rest) ==>
              Chars(Escaped(s) + rest) == Fail(InvalidEscape, |rest|)
  {
    hide EscapeAt, Escape, Plain;
    PrintedPrefix(s, rest);
    EscapesExactly(rest);
  }

  /** What is printed holds no raw control character, and no quote that is not behind a backslash. */
  lemma {:induction false} PrintedIsText(s: seq<u8>, k: nat)
    requires k < |Escaped(s)|
    ensures Escaped(s)[k] >= 0x20 && (Escaped(s)[k] == QUOTE ==> k > 0 && Escaped(s)[k - 1] == BACKSLASH)
    decreases |s|
  {
    var first := if Plain(s[0]) then [s[0]] else Escape(s[0]);
    if k >= |first| { PrintedIsText(s[1..], k - |first|); }
  }
}
