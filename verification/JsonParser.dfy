/** The string parser: a cursor over the text, the first error, and the string being built. */
module JsonParser {
  import opened Bytes
  import opened JsonText

  /** How many plain bytes t starts with. */
  function PartLength(t: seq<u8>): (n: nat)
    ensures n <= |t| && (forall i | 0 <= i < n :: Plain(t[i])) && (n < |t| ==> !Plain(t[n]))
  {
    if t == [] || !Plain(t[0]) then 0 else 1 + PartLength(t[1..])
  }

  /** Plain bytes are taken as they are. */
  lemma {:induction false} PartParses(t: seq<u8>)
    ensures var n := PartLength(t); Chars(t) == Before(t[..n], n, Chars(t[n..]))
    decreases |t|
  {
    hide Chars, Plain;
    var n := PartLength(t);
    if n == 0 {
      assert t[..0] == [] && t[0..] == t;
      NothingBefore(Chars(t));
    } else {
      PartParses(t[1..]);
      assert t == [t[0]] + t[1..];
      PlainParses(t[0], t[1..]);
      assert t[..n] == [t[0]] + t[1..][..n - 1] && t[n..] == t[1..][n - 1..];
    }
  }

  lemma NothingBefore(r: Parsed)
    ensures Before([], 0, r) == r
  {}

  /** The outcome of a call: the cursor behind the closing quote and the bytes, or the text's end and
      the first error with where it was. */
  ghost predicate Outcome(r: Parsed, start: nat, end: nat, q: nat, chars: seq<u8>, error: Error, left: nat) {
    match r
    case Fail(e, l) => q == end && error == e != NoError && left == l
    case Done(c, used) => q == start + used + 1 && chars == c && error == NoError
  }

  /** From `start` the parse has reached q with `chars` built, or has failed. */
  ghost predicate Reached(buf: seq<u8>, start: nat, q: nat, chars: seq<u8>, error: Error, left: nat) {
    && start <= q <= |buf|
    && if error == NoError then
         && q < |buf| && (buf[q] == QUOTE || buf[q] == BACKSLASH)
         && Chars(buf[start..]) == Before(chars, q - start, Chars(buf[q..]))
       else
         q == |buf| && Chars(buf[start..]) == Fail(error, left)
  }

  class Parser {
    var error: Error
    /** How much text was left where the first error was met. */
    var errorLeft: nat

    constructor ()
      ensures error == NoError
    {
      error, errorLeft := NoError, 0;
    }

    /** Records the first error only; parsing goes on at the end of the text. */
    method SetError(e: Error, left: nat)
      requires e != NoError
      modifies this
      ensures error == if old(error) == NoError then e else old(error)
      ensures errorLeft == if old(error) == NoError then left else old(errorLeft)
    {
      if error == NoError {
        error, errorLeft := e, left;
      }
    }

    /** Moves over plain bytes. */
    method StringPart(buf: seq<u8>, p: nat) returns (q: nat)
      requires p <= |buf|
      modifies this
      ensures p <= q <= |buf|
      ensures old(error) != NoError ==> error == old(error) && errorLeft == old(errorLeft)
      ensures old(error) == NoError && error == NoError ==>
                q == p + PartLength(buf[p..]) && q < |buf| && (buf[q] == QUOTE || buf[q] == BACKSLASH)
      ensures old(error) == NoError && error != NoError ==> q == |buf| && Chars(buf[p..]) == Fail(error, errorLeft)
      ensures p == |buf| ==> q == |buf|
    {
      q := p;
      while q != |buf| && buf[q] != QUOTE && buf[q] >= 0x20 && buf[q] != BACKSLASH
        invariant p <= q <= |buf| && forall i | p <= i < q :: Plain(buf[i])
      {
        q := q + 1;
      }
      PartEnds(buf, p, q);
      PartParses(buf[p..]);
      assert buf[p..][q - p..] == buf[q..];
      if q == |buf| {
        SetError(UnterminatedString, 0);
        return;
      }
      if buf[q] == QUOTE { return; }
      if buf[q] < 0x20 {
        SetError(InvalidCharacter, |buf| - q);
        q := |buf|;
      }
    }

    /** Takes one escape. */
    method StringEscape(buf: seq<u8>, p: nat) returns (q: nat, code: seq<u8>)
      requires p <= |buf|
      modifies this
      ensures var e := EscapeAt(buf[p..]);
              if e.Code? then
                q == p + e.used <= |buf| && code == e.bytes && error == old(error) && errorLeft == old(errorLeft)
              else q == |buf| && code == [] && error == (if old(error) == NoError then InvalidEscape else old(error))
                   && errorLeft == (if old(error) == NoError then |buf| - p else old(errorLeft))
    {
      var e := EscapeAt(buf[p..]);
      if e.BadCode? {
        SetError(InvalidEscape, |buf| - p);
        return |buf|, [];
      }
      return p + e.used, e.bytes;
    }

    /** Parses one quoted string. Without an opening quote every later step finds the end of the text. */
    method BuildString(buf: seq<u8>, p: nat) returns (q: nat, chars: seq<u8>)
      requires p <= |buf| && error == NoError
      modifies this
      ensures if p < |buf| && buf[p] == QUOTE then
          Outcome(Chars(buf[p + 1..]), p + 1, |buf|, q, chars, error, errorLeft)
              else q == |buf| && error == ExpectedString && errorLeft == |buf| - p
    {
      hide Chars, PartLength;
      if p == |buf| || buf[p] != QUOTE {
        SetError(ExpectedString, |buf| - p);
        return |buf|, [];
      }
      var mark := p + 1;
      q := StringPart(buf, mark);
      PartStart(buf, mark, q, error, errorLeft);
      chars := buf[mark..q];
      while q != |buf| && buf[q] != QUOTE
        invariant Reached(buf, p + 1, q, chars, error, errorLeft)
        decreases |buf| - q
      {
        q, chars := EscapeThenPart(buf, p + 1, q, chars);
      }
      QuoteReached(buf, p + 1, q, chars, error, errorLeft);
      if q == |buf| || buf[q] != QUOTE {
        SetError(UnterminatedString, |buf| - q);
        q := |buf|;
      } else {
        q := q + 1;
      }
    }

    /** One round of the string loop: an escape, and the plain bytes behind it. */
    method EscapeThenPart(buf: seq<u8>, ghost start: nat, p: nat, chars: seq<u8>) returns (q: nat, more: seq<u8>)
      requires Reached(buf, start, p, chars, error, errorLeft) && p < |buf| && buf[p] != QUOTE
      modifies this
      ensures Reached(buf, start, q, more, error, errorLeft) && p < q
    {
      hide Chars, PartLength, EscapeAt;
      var mark, code := StringEscape(buf, p);
      EscapeReads(buf, p);
      more := chars + code;
      ghost var failed := error;
      q := StringPart(buf, mark);
      if q != |buf| {
        more := more + buf[mark..q];
      }
      if failed == NoError {
        PartStart(buf, mark, q, error, errorLeft);
      }
    }
  }

  /** A backslash starts an escape, or fails. */
  lemma EscapeReads(buf: seq<u8>, p: nat)
    requires p < |buf| && buf[p] == BACKSLASH
    ensures var e := EscapeAt(buf[p..]);
            Chars(buf[p..]) == if e.BadCode? then Fail(InvalidEscape, |buf| - p)
                               else Before(e.bytes, e.used, Chars(buf[p + e.used..]))
  {
    var e := EscapeAt(buf[p..]);
    if e.Code? { assert buf[p..][e.used..] == buf[p + e.used..]; }
  }

  lemma PartStart(buf: seq<u8>, p: nat, q: nat, error: Error, left: nat)
    requires p <= q <= |buf|
    requires error == NoError ==> q == p + PartLength(buf[p..]) && q < |buf| && (buf[q] == QUOTE || buf[q] == BACKSLASH)
    requires error != NoError ==> q == |buf| && Chars(buf[p..]) == Fail(error, left)
    ensures Reached(buf, p, q, buf[p..q], error, left)
  {
    hide Chars, PartLength, Plain;
    PartParses(buf[p..]);
    assert buf[p..][..q - p] == buf[p..q] && buf[p..][q - p..] == buf[q..];
  }

  lemma QuoteReached(buf: seq<u8>, start: nat, q: nat, chars: seq<u8>, error: Error, left: nat)
    requires Reached(buf, start, q, chars, error, left) && (q == |buf| || buf[q] == QUOTE)
    ensures if error == NoError then q < |buf| && buf[q] == QUOTE && Chars(buf[start..]) == Done(chars, q - start)
            else q == |buf| && Chars(buf[start..]) == Fail(error, left)
  {
    if error == NoError { assert buf[q..][0] == QUOTE; }
  }

  lemma PartEnds(buf: seq<u8>, p: nat, q: nat)
    requires p <= q <= |buf| && (forall i | p <= i < q :: Plain(buf[i])) && (q < |buf| ==> !Plain(buf[q]))
    ensures PartLength(buf[p..]) == q - p
  {
    var t := buf[p..];
    assert forall i | 0 <= i < |t| :: t[i] == buf[p + i];
  }

  /** The printer's text of any bytes, found anywhere, is parsed to those bytes and consumed exactly. */
  lemma QuotedReadsBack(buf: seq<u8>, p: nat, s: seq<u8>, rest: seq<u8>, q: nat, chars: seq<u8>, error: Error,
      left: nat)
    requires p < |buf| && buf[p..] == Quoted(s) + rest
    requires Outcome(Chars(buf[p + 1..]), p + 1, |buf|, q, chars, error, left)
    ensures buf[p] == QUOTE && error == NoError && chars == s && q == p + |Quoted(s)|
  {
    hide Chars, Escaped;
    assert buf[p] == buf[p..][0];
    assert buf[p + 1..] == buf[p..][1..] == Escaped(s) + [QUOTE] + rest;
    PrintedParses(s, rest);
  }
}
