/** The printer's output buffer. Prints append at a cursor that may run past the flush mark by less than
    the reserve; flushing hands full chunks to a file, or doubles the buffer. What was printed is
    what left through the file followed by what the buffer holds. */
module JsonPrinter {
  import opened Bytes
  import opened JsonText

  const RESERVE: nat := 64
  const FILE_FLUSH_SIZE: nat := 16384

  datatype Sink = File | Dynamic

  function Spaces(n: nat): (s: seq<u8>)
    ensures |s| == n && forall i | 0 <= i < n :: s[i] == ' ' as int
  {
    seq(n, i => 0x20)
  }

  class Printer {
    const sink: Sink
    /** The buffer's memory, the cursor, and the flush mark. */
    var buf: seq<u8>
    var p: nat
    var flushSize: nat
    var size: nat
    var total: nat
    /** What has been written to the file. */
    var written: seq<u8>

    ghost predicate Valid() reads this {
      && p < |buf| == size && size == flushSize + RESERVE && total == |written|
      && (sink.File? ==> flushSize == FILE_FLUSH_SIZE)
    }

    /** Everything printed so far. */
    ghost function Text(): seq<u8> reads this requires p <= |buf| { written + buf[..p] }

    /** Room left before the reserve is used up. */
    ghost predicate Room(n: nat) reads this { p + n < flushSize + RESERVE }

    constructor ToFile()
      ensures Valid() && Text() == [] && p == 0 && sink == File && written == []
    {
      sink, buf, p, flushSize, size :=
          File, Zeros(FILE_FLUSH_SIZE + RESERVE), 0, FILE_FLUSH_SIZE, FILE_FLUSH_SIZE + RESERVE;
      total, written := 0, [];
    }

    constructor ToMemory(bufferSize: nat)
      ensures Valid() && Text() == [] && p == 0 && sink == Dynamic && written == []
      ensures if bufferSize == 0 then size == 4096 else size >= bufferSize && (size > bufferSize ==> size == RESERVE)
    {
      var n := if bufferSize == 0 then 4096 else if bufferSize < RESERVE then RESERVE else bufferSize;
      sink, buf, p, flushSize, size := Dynamic, Zeros(n), 0, n - RESERVE, n;
      total, written := 0, [];
    }

    /** Nothing but full chunks goes to the file, and nothing at all from a buffer in memory. */
    twostate predicate InChunks() reads this {
      if sink.File? then (|written| - |old(written)|) % FILE_FLUSH_SIZE == 0 else written == old(written)
    }

    /** Bytes stored at the cursor. */
    method Put(s: seq<u8>)
      requires p + |s| <= |buf|
      modifies `buf, `p
      ensures |buf| == |old(buf)| && p == old(p) + |s| && Text() == old(Text()) + s
    {
      buf := buf[..p] + s + buf[p + |s|..];
      p := p + |s|;
      assert buf[..p] == old(buf[..p]) + s;
    }

    method PrintChar(c: u8)
      requires Valid() && Room(1)
      modifies `buf, `p
      ensures Valid() && p == old(p) + 1 && Text() == old(Text()) + [c]
    {
      Put([c]);
    }

    /** A flush loses and reorders nothing. Past the mark it makes room: to a file, all but the spill
        leaves; in memory, the buffer doubles. */
    method Flush(all: bool)
      requires Valid()
      modifies this
      ensures Valid() && Text() == old(Text())
      ensures sink.File? && old(p >= flushSize) && !all ==> p == old(p) - FILE_FLUSH_SIZE < RESERVE
      ensures sink.File? && !(old(p >= flushSize) && !all) ==> p == 0
      ensures sink.Dynamic? ==> p == old(p) && size == if old(p >= flushSize) then 2 * old(size) else old(size)
      ensures buf[p] == 0 && (sink.Dynamic? || (old(p >= flushSize) && !all) ==> InChunks())
    {
      match sink
      case File => FlushFile(all);
      case Dynamic => FlushDynamic();
    }

    method FlushFile(all: bool)
      requires Valid() && sink.File?
      modifies `buf, `p, `total, `written
      ensures Valid() && Text() == old(Text())
      ensures p == if !all && old(p >= flushSize) then old(p) - FILE_FLUSH_SIZE else 0
      ensures buf[p] == 0
      ensures |written| == |old(written)| + (if !all && old(p >= flushSize) then FILE_FLUSH_SIZE else old(p))
    {
      if !all && p >= flushSize {
        var spill := p - flushSize;
        written := written + buf[..flushSize];
        buf := buf[flushSize..flushSize + spill] + buf[spill..];
        p := spill;
        total := total + flushSize;
        assert old(buf[..p]) == old(buf[..flushSize]) + old(buf[flushSize..p]);
      } else {
        var len := p;
        written := written + buf[..len];
        p := 0;
        total := total + len;
      }
      buf := buf[p := 0];
    }

    method FlushDynamic()
      requires Valid() && sink.Dynamic?
      modifies `buf, `p, `size, `flushSize
      ensures Valid() && Text() == old(Text()) && p == old(p) && buf[p] == 0
      ensures size == if old(p >= flushSize) then 2 * old(size) else old(size)
    {
      var len := p;
      buf := buf[p := 0];
      if p < flushSize {
        return;
      }
      buf := buf + Zeros(size);
      size := size * 2;
      flushSize := size - RESERVE;
      p := len;
      buf := buf[p := 0];
    }

    /** Prints s, flushing before it when the mark has been passed and between chunks. */
    method PrintEx(s: seq<u8>)
      requires Valid()
      modifies this
      ensures Valid() && Text() == old(Text()) + s && p <= flushSize && InChunks()
    {
      if p >= flushSize {
        Flush(false);
      }
      var k := flushSize - p;
      var i := 0;
      assert s[..0] == [];
      while |s| - i > k
        invariant 0 <= i <= |s| && Valid() && p <= flushSize && k == flushSize - p && Text() == old(Text()) + s[..i]
        invariant InChunks()
        decreases |s| - i, if k == 0 then 1 else 0
      {
        Put(s[i..i + k]);
        assert s[..i + k] == s[..i] + s[i..i + k];
        i := i + k;
        Flush(false);
        k := flushSize - p;
      }
      Put(s[i..]);
      assert s[..i] + s[i..] == s;
    }

    method Print(s: seq<u8>)
      requires Valid()
      modifies this
      ensures Valid() && Text() == old(Text()) + s && p <= flushSize && InChunks()
    {
      if p + |s| >= flushSize {
        PrintEx(s);
      } else {
        Put(s);
      }
    }

    method PrintIndentEx(n: nat)
      requires Valid()
      modifies this
      ensures Valid() && Text() == old(Text()) + Spaces(n) && p <= flushSize && InChunks()
    {
      if p >= flushSize {
        Flush(false);
      }
      var left := n;
      var k := flushSize - p;
      while left > k
        invariant 0 <= left <= n && Valid() && p <= flushSize && k == flushSize - p
        invariant Text() == old(Text()) + Spaces(n - left) && InChunks()
        decreases left, if k == 0 then 1 else 0
      {
        Put(Spaces(k));
        assert Spaces(n - left) + Spaces(k) == Spaces(n - left + k);
        left := left - k;
        Flush(false);
        k := flushSize - p;
      }
      Put(Spaces(left));
      assert Spaces(n - left) + Spaces(left) == Spaces(n);
    }

    method PrintIndent(level: nat, indent: nat)
      requires Valid()
      modifies this
      ensures Valid() && Text() == old(Text()) + Spaces(level * indent) && p <= flushSize && InChunks()
    {
      var n := level * indent;
      if p + n > flushSize {
        PrintIndentEx(n);
      } else {
        Put(Spaces(n));
      }
    }

    method PrintEscape(c: u8)
      requires Valid() && Room(6) && !Plain(c)
      modifies `buf, `p
      ensures Valid() && Text() == old(Text()) + Escape(c) && p <= old(p) + 6
    {
      PrintChar(BACKSLASH);
      if c == QUOTE { PrintChar(QUOTE); }
      else if c == BACKSLASH { PrintChar(BACKSLASH); }
      else if c == 0x09 { PrintChar(0x74); }
      else if c == 0x0c { PrintChar(0x66); }
      else if c == 0x0d { PrintChar(0x72); }
      else if c == 0x0a { PrintChar(0x6e); }
      else if c == 0x08 { PrintChar(0x62); }
      else { PrintHex(c); }
    }

    method PrintHex(c: u8)
      requires Valid() && Room(5)
      modifies `buf, `p
      ensures Valid() && Text() == old(Text()) + [0x75, 0x30, 0x30, HexDigit(c / 16), HexDigit(c % 16)]
      ensures p == old(p) + 5
    {
      PrintChar(0x75);
      PrintChar(0x30);
      PrintChar(0x30);
      PrintChar(HexDigit(c / 16));
      PrintChar(HexDigit(c % 16));
    }

    /** Prints a string of n bytes, quoted and escaped. It is scanned for bytes to escape up to its
        terminating zero; zeros inside it are escaped too. */
    method PrintString(s: seq<u8>, n: nat)
      requires Valid() && Room(1) && n < |s| && s[n] == 0
      modifies this
      ensures Valid() && Text() == old(Text()) + Quoted(s[..n]) && p <= flushSize + 1 && InChunks()
    {
      hide Escape, Plain, Escaped;
      PrintChar(QUOTE);
      var i, left := 0, n;
      ghost var start := Text();
      EscapedNothing(s[..0]);
      while true
        invariant 0 <= left && 0 <= i && i + left == n && Valid() && Room(0) && Text() == start + Escaped(s[..i])
        invariant InChunks()
        decreases left
      {
        var j := PrintPlain(s, i, n, start);
        left := left - (j - i);
        i := j;
        if left == 0 { break; }
        PrintOne(s, i, start);
        left := left - 1;
        i := i + 1;
      }
      PrintChar(QUOTE);
    }

    method PrintPlain(s: seq<u8>, i: nat, n: nat, ghost start: seq<u8>) returns (j: nat)
      requires Valid() && i <= n < |s| && s[n] == 0 && Text() == start + Escaped(s[..i])
      modifies this
      ensures Valid() && i <= j <= n && Text() == start + Escaped(s[..j]) && p <= flushSize && !Plain(s[j])
      ensures InChunks()
    {
      hide Escaped, Escape;
      j := PlainEnd(s, i, n);
      EscapedPlain(s[..i], s[i..j]);
      assert s[..i] + s[i..j] == s[..j];
      Print(s[i..j]);
    }

    method PrintOne(s: seq<u8>, i: nat, ghost start: seq<u8>)
      requires Valid() && i < |s| && Text() == start + Escaped(s[..i]) && p <= flushSize && !Plain(s[i])
      modifies this
      ensures Valid() && Text() == start + Escaped(s[..i + 1]) && Room(0) && p <= flushSize + 6 && InChunks()
    {
      hide Escaped, Escape;
      EscapedByte(s[..i], s[i]);
      assert s[..i + 1] == s[..i] + [s[i]];
      PrintEscape(s[i]);
    }

    /** The scan for the next byte to escape; the terminating zero stops it. */
    method PlainEnd(s: seq<u8>, i: nat, n: nat) returns (j: nat)
      requires i <= n < |s| && s[n] == 0
      ensures i <= j <= n && (forall m | i <= m < j :: Plain(s[m])) && !Plain(s[j])
    {
      j := i;
      while s[j] >= 0x20 && s[j] != QUOTE && s[j] != BACKSLASH
        invariant i <= j <= n && forall m | i <= m < j :: Plain(s[m])
        decreases n - j
      {
        j := j + 1;
      }
    }
  }

  lemma {:induction false} EscapedConcat(a: seq<u8>, b: seq<u8>)
    ensures Escaped(a + b) == Escaped(a) + Escaped(b)
    decreases |a|
  {
    hide Escape, Plain;
    if a == [] {
      assert a + b == b;
    } else {
      EscapedConcat(a[1..], b);
      assert (a + b)[1..] == a[1..] + b;
    }
  }

  lemma {:induction false} PlainAsIs(b: seq<u8>)
    requires forall m | 0 <= m < |b| :: Plain(b[m])
    ensures Escaped(b) == b
  {
    hide Escape;
    if b != [] { PlainAsIs(b[1..]); }
  }

  lemma EscapedNothing(s: seq<u8>)
    requires s == []
    ensures Escaped(s) == []
  {}

  lemma EscapedPlain(a: seq<u8>, b: seq<u8>)
    requires forall m | 0 <= m < |b| :: Plain(b[m])
    ensures Escaped(a + b) == Escaped(a) + b
  {
    EscapedConcat(a, b);
    PlainAsIs(b);
  }

  lemma EscapedByte(a: seq<u8>, c: u8)
    requires !Plain(c)
    ensures Escaped(a + [c]) == Escaped(a) + Escape(c)
  {
    hide Escape;
    EscapedConcat(a, [c]);
    assert Escaped([c][1..]) == [];
  }
}
