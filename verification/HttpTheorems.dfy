/**
 * What the incremental decoder promises: the chunks come out whole however the
 * connection cuts the stream, and for a well-formed chunked body they are the
 * chunks of section 7.1 of RFC 9112.
 */
module HttpTheorems {
  import opened Bytes
  import opened HttpChunked

  // ------------------------------------------------------ cutting a stream

  lemma {:induction false} FindCrlfAppend(a: seq<Byte>, b: seq<Byte>)
    requires FindCrlf(a) < |a|
    ensures FindCrlf(a + b) == FindCrlf(a)
  {
    if !(a[0] == CR && a[1] == LF) {
      FindCrlfAppend(a[1..], b);
      assert (a + b)[1..] == a[1..] + b;
    }
  }

  /** The states in which the body is in chunks. */
  predicate InChunks(c: Client)
  {
    c.state != Content
  }

  /** More bytes behind those at hand do not change a turn that goes round again or stops. */
  lemma StepMore(c: Client, more: seq<Byte>)
    requires c.Valid() && InChunks(c) && !Step(c).1.Wait?
    ensures Step(c.With(c.buffer + more)) == (Step(c).0.With(Step(c).0.buffer + more), Step(c).1)
    ensures InChunks(Step(c).0)
  {
    hide LenStep, ContentStep, TailStep;
    match c.state
    case ChunkLen => LenStepMore(c, more);
    case ChunkContent => ContentStepMore(c, more);
    case Done =>
    case _ => TailStepMore(c, more);
  }

  lemma LenStepMore(c: Client, more: seq<Byte>)
    requires !LenStep(c).1.Wait?
    ensures LenStep(c.With(c.buffer + more)) == (LenStep(c).0.With(LenStep(c).0.buffer + more), LenStep(c).1)
    ensures c.state.ChunkLen? ==> InChunks(LenStep(c).0)
  {
    hide StoiHex, FindCrlf;
    var b := c.buffer;
    FindCrlfAppend(b, more);
    var i := FindCrlf(b);
    assert (b + more)[..i] == b[..i] && (b + more)[i + 2..] == b[i + 2..] + more;
  }

  lemma ContentStepMore(c: Client, more: seq<Byte>)
    requires c.chunkReceive <= c.chunkSize && !ContentStep(c).1.Wait?
    ensures ContentStep(c.With(c.buffer + more))
            == (ContentStep(c).0.With(ContentStep(c).0.buffer + more), ContentStep(c).1)
    ensures InChunks(ContentStep(c).0)
  {
    var b, n := c.buffer, c.chunkSize - c.chunkReceive;
    assert (b + more)[..n] == b[..n] && (b + more)[n..] == b[n..] + more;
  }

  lemma TailStepMore(c: Client, more: seq<Byte>)
    requires !TailStep(c).1.Wait?
    ensures TailStep(c.With(c.buffer + more)) == (TailStep(c).0.With(TailStep(c).0.buffer + more), TailStep(c).1)
    ensures InChunks(TailStep(c).0)
  {
    var b := c.buffer;
    assert (b + more)[..2] == b[..2] && (b + more)[2..] == b[2..] + more;
  }

  /** A turn that waited takes up where it left off. */
  lemma WaitMore(c: Client, more: seq<Byte>)
    requires c.Valid() && InChunks(c) && Step(c).1.Wait?
    ensures InChunks(Step(c).0)
    ensures Step(c.With(c.buffer + more)) == Step(Step(c).0.With(Step(c).0.buffer + more))
  {
    if c.state.ChunkContent? {
      ContentWaitMore(c, more);
    } else {
      assert Step(c).0 == c;
    }
  }

  lemma ContentWaitMore(c: Client, more: seq<Byte>)
    requires c.chunkReceive <= c.chunkSize && ContentStep(c).1.Wait?
    ensures var c' := ContentStep(c).0;
            && c'.state == c.state && c'.chunkReceive <= c'.chunkSize
            && ContentStep(c.With(c.buffer + more)) == ContentStep(c'.With(more))
            && c'.With(c'.buffer + more) == c'.With(more)
  {
    var b := c.buffer;
    var c' := ContentStep(c).0;
    assert b[..|b|] == b && c' == c.(body := c.body + b, chunkReceive := c.chunkReceive + |b|, buffer := []);
    var n := c.chunkSize - c.chunkReceive;
    var m := if |b + more| > n then n else |b + more|;
    assert (b + more)[..m] == b + more[..m - |b|] && (b + more)[m..] == more[m - |b|..];
    assert c.body + (b + more[..m - |b|]) == c.body + b + more[..m - |b|];
    assert [] + more == more;
  }

  /**
   * Where a stream is cut does not matter: with the bytes before the cut and
   * then those after it, the client ends as with all of them at once. If it
   * stops before the cut, the bytes after it are simply left in the buffer.
   */
  lemma {:induction false} RunSplit(c: Client, more: seq<Byte>)
    requires c.Valid() && InChunks(c)
    ensures var (c1, go) := Run(c);
            && InChunks(c1)
            && Run(c.With(c.buffer + more)) ==
               if go then Run(c1.With(c1.buffer + more)) else (c1.With(c1.buffer + more), false)
    decreases |c.buffer|, if c.state.ChunkContent? then 1 else 0
  {
    hide Step;
    var (c', turn) := Step(c);
    if turn.Wait? {
      WaitMore(c, more);
    } else {
      StepMore(c, more);
      if turn.Again? { RunSplit(c', more); }
    }
  }

  /** The same up to what is left in the buffer, which is all the same too while reading goes on. */
  predicate SameUpToBuffer(a: (Client, bool), b: (Client, bool))
  {
    a.1 == b.1 && a.0.With([]) == b.0.With([]) && (a.1 ==> a.0 == b.0)
  }

  /** However a stream of chunks is cut into deliveries, the outcome is that of the whole stream. */
  lemma {:induction false} SplitInvariance(c: Client, deliveries: seq<seq<Byte>>)
    requires c.Valid() && InChunks(c) && deliveries != []
    ensures SameUpToBuffer(Feed(c, deliveries), Deliver(c, Concat(deliveries)))
    decreases |deliveries|
  {
    hide Run;
    var first, tail := deliveries[0], deliveries[1..];
    var b := c.With(c.buffer + first);
    RunSplit(b, Concat(tail));
    assert b.With(b.buffer + Concat(tail)) == c.With(c.buffer + Concat(deliveries)) by {
      assert c.buffer + first + Concat(tail) == c.buffer + (first + Concat(tail));
    }
    var (c1, go) := Run(b);
    if go {
      if tail == [] {
        RunSettles(b);
        assert c1.With(c1.buffer + Concat(tail)) == c1;
      } else {
        SplitInvariance(c1, tail);
      }
    }
  }

  /** When handle_buffer waits, there is nothing more to do with what it has. */
  lemma {:induction false} RunSettles(c: Client)
    requires c.Valid() && InChunks(c) && Run(c).1
    ensures Run(Run(c).0) == Run(c)
    decreases |c.buffer|, if c.state.ChunkContent? then 1 else 0
  {
    var (c', turn) := Step(c);
    if turn.Again? {
      StepMore(c, []);
      RunSettles(c');
    } else {
      WaitMore(c, []);
      assert c.With(c.buffer + []) == c && c'.With(c'.buffer + []) == c';
    }
  }

  // -------------------------------------------------------- the size line

  /** Is c the digit worth d, in either case? */
  predicate IsDigit(c: Byte, d: nat)
    requires d < 16
  {
    c == "0123456789abcdef"[d] as int || c == "0123456789ABCDEF"[d] as int
  }

  /** Are these digits the number n in hexadecimal, most significant first, leading zeros allowed? */
  predicate Denotes(digits: seq<Byte>, n: nat)
  {
    if digits == [] then n == 0
    else IsDigit(digits[|digits| - 1], n % 16) && Denotes(digits[..|digits| - 1], n / 16)
  }

  predicate IsHexChar(c: Byte)
  {
    '0' as int <= c <= '9' as int || 'a' as int <= c <= 'f' as int || 'A' as int <= c <= 'F' as int
  }

  lemma DigitIsRead(c: Byte)
    ensures forall d: nat :: d < 16 ==> (IsDigit(c, d) <==> HexDigit(c) == Some(d))
    ensures HexDigit(c).Some? <==> IsHexChar(c)
    ensures HexDigit(c).Some? ==> HexDigit(c).value < 16
  {
  }

  /** Every string of digits is the numeral of one number, and every number has numerals. */
  lemma {:induction false} EveryNumeral(digits: seq<Byte>) returns (n: nat)
    requires forall i :: 0 <= i < |digits| ==> IsHexChar(digits[i])
    ensures Denotes(digits, n) && forall m: nat :: Denotes(digits, m) ==> m == n
    decreases |digits|
  {
    n := 0;
    if digits != [] {
      var c := digits[|digits| - 1];
      DigitIsRead(c);
      var front := EveryNumeral(digits[..|digits| - 1]);
      n := front * 16 + HexDigit(c).value;
      assert n / 16 == front && n % 16 == HexDigit(c).value;
      forall m: nat | Denotes(digits, m)
        ensures m == n
      {
        assert IsDigit(c, m % 16) && Denotes(digits[..|digits| - 1], m / 16);
      }
    }
  }

  lemma {:induction false} NumeralOf(n: nat) returns (digits: seq<Byte>)
    ensures digits != [] && Denotes(digits, n)
  {
    digits := ["0123456789abcdef"[n % 16] as int];
    if n >= 16 {
      var front := NumeralOf(n / 16);
      assert (front + digits)[..|front|] == front;
      digits := front + digits;
    } else {
      assert digits[..0] == [] && n / 16 == 0;
    }
  }

  lemma {:induction false} HexValueAppend(s: seq<Byte>, d: Byte, ext: seq<Byte>, v: nat)
    requires HexDigit(d).Some? && !StartsHex(ext)
    requires forall i :: 0 <= i < |s| ==> HexDigit(s[i]).Some?
    ensures HexValue(s + [d] + ext, v) == HexValue(s, v) * 16 + HexDigit(d).value
    decreases |s|
  {
    var t := s + [d] + ext;
    if s == [] {
      assert t[0] == d && t[1..] == ext;
      assert HexValue(ext, v * 16 + HexDigit(d).value) == v * 16 + HexDigit(d).value;
    } else {
      assert t[1..] == s[1..] + [d] + ext;
      HexValueAppend(s[1..], d, ext, v * 16 + HexDigit(s[0]).value);
    }
  }

  lemma {:induction false} NumeralIsRead(digits: seq<Byte>, n: nat, ext: seq<Byte>)
    requires Denotes(digits, n) && !StartsHex(ext)
    ensures HexValue(digits + ext, 0) == n
    ensures forall i :: 0 <= i < |digits| ==> HexDigit(digits[i]).Some?
    decreases |digits|
  {
    if digits == [] {
      assert digits + ext == ext;
    } else {
      var front, last := digits[..|digits| - 1], digits[|digits| - 1];
      DigitIsRead(last);
      NumeralIsRead(front, n / 16, []);
      assert digits == front + [last] && front + [] == front;
      HexValueAppend(front, last, ext, 0);
    }
  }

  predicate Blank(s: seq<Byte>)
  {
    forall i :: 0 <= i < |s| ==> s[i] in {32, 9, 10, 11, 12, 13}
  }

  lemma {:induction false} BlanksAreSkipped(blank: seq<Byte>, s: seq<Byte>)
    requires Blank(blank) && (s == [] || s[0] !in {32, 9, 10, 11, 12, 13})
    ensures SkipSpace(blank + s) == s
    decreases |blank|
  {
    if blank == [] {
      assert blank + s == s;
    } else {
      assert (blank + s)[1..] == blank[1..] + s;
      BlanksAreSkipped(blank[1..], s);
    }
  }

  /** May ext stand behind the digits of a number without being read as part of it? */
  predicate Ends(ext: seq<Byte>)
  {
    ext == [] || !(IsHexChar(ext[0]) || ext[0] == 'x' as int || ext[0] == 'X' as int)
  }

  lemma StoiFrom(s: seq<Byte>, s1: seq<Byte>, s2: seq<Byte>, s3: seq<Byte>)
    requires SkipSpace(s) == s1 && s1 != []
    requires s2 == if s1[0] == 45 || s1[0] == 43 then s1[1..] else s1
    requires s3 == if |s2| >= 3 && s2[0] == 48 && (s2[1] == 120 || s2[1] == 88) && StartsHex(s2[2..])
                   then s2[2..] else s2
    requires StartsHex(s3)
    ensures var n := HexValue(s3, 0);
            var v: int := if s1[0] == 45 then 0 - n else n;
            StoiHex(s) == if -2147483648 <= v < 2147483648 then Some(v) else None
  {
  }

  /**
   * The number at the front of a line is read as what its digits say: after
   * white space, with a sign and with 0x before it or without, and with
   * whatever is no digit behind it. A number that is no int is refused.
   */
  lemma NumberIsRead(blank: seq<Byte>, sign: string, prefix: string, digits: seq<Byte>, n: nat, ext: seq<Byte>)
    requires Blank(blank) && sign in {"", "+", "-"} && prefix in {"", "0x", "0X"}
    requires digits != [] && Denotes(digits, n) && Ends(ext)
    ensures var v: int := if sign == "-" then 0 - n else n;
            StoiHex(blank + (Ascii(sign) + (Ascii(prefix) + (digits + ext))))
            == if -2147483648 <= v < 2147483648 then Some(v) else None
  {
    hide HexValue, Denotes, SkipSpace, Ascii, HexDigit, IsDigit, IsHexChar, StoiHex, Blank;
    if ext != [] { DigitIsRead(ext[0]); }
    NumeralIsRead(digits, n, ext);
    var s3 := digits + ext;
    var s2 := Ascii(prefix) + s3;
    var s1 := Ascii(sign) + s2;
    DigitIsRead(digits[0]);
    assert s3[0] == digits[0];
    PrefixIsRead(prefix, digits, ext);
    SignIsRead(sign, s2);
    BlanksAreSkipped(blank, s1);
    StoiFrom(blank + s1, s1, s2, s3);
  }

  function Ascii(s: string): seq<Byte>
    requires forall i :: 0 <= i < |s| ==> s[i] as int < 128
  {
    seq(|s|, i requires 0 <= i < |s| => var b: Byte := s[i] as int; b)
  }

  lemma SignIsRead(sign: string, s2: seq<Byte>)
    requires sign in {"", "+", "-"} && s2 != [] && IsHexChar(s2[0])
    ensures var s1 := Ascii(sign) + s2;
            && s1[0] !in {32, 9, 10, 11, 12, 13}
            && (s1[0] == 45 <==> sign == "-")
            && (if s1[0] == 45 || s1[0] == 43 then s1[1..] else s1) == s2
  {
  }

  lemma PrefixIsRead(prefix: string, digits: seq<Byte>, ext: seq<Byte>)
    requires prefix in {"", "0x", "0X"} && Ends(ext) && digits != []
    requires forall i :: 0 <= i < |digits| ==> HexDigit(digits[i]).Some?
    ensures var s2 := Ascii(prefix) + (digits + ext);
            && IsHexChar(s2[0])
            && (if |s2| >= 3 && s2[0] == 48 && (s2[1] == 120 || s2[1] == 88) && StartsHex(s2[2..])
                then s2[2..] else s2) == digits + ext
  {
    var s2 := Ascii(prefix) + (digits + ext);
    if prefix == "" {
      assert s2 == digits + ext;
      if |s2| >= 3 { assert s2[1] == if |digits| > 1 then digits[1] else ext[0]; }
    } else {
      assert s2[2..] == digits + ext;
    }
  }

  /**
   * The size line of RFC 9112: one or more digits of either case, leading zeros
   * among them, and then nothing or an extension, which starts with a semicolon
   * or with white space. It is read as its size exactly when that is below 2^31.
   */
  lemma SizeInHex(digits: seq<Byte>, n: nat, ext: seq<Byte>)
    requires digits != [] && Denotes(digits, n) && Ends(ext)
    ensures StoiHex(digits + ext) == if n < 2147483648 then Some(n) else None
  {
    NumberIsRead([], "", "", digits, n, ext);
    assert [] + (Ascii("") + (Ascii("") + (digits + ext))) == digits + ext;
  }

  /** A line with no digit where the number should be is refused. */
  lemma NoNumberIsRefused(blank: seq<Byte>, sign: string, s: seq<Byte>)
    requires Blank(blank) && sign in {"", "+", "-"}
    requires s == [] || !(IsHexChar(s[0]) || s[0] in {32, 9, 10, 11, 12, 13} || s[0] == 43 || s[0] == 45)
    ensures StoiHex(blank + (Ascii(sign) + s)) == None
  {
    hide SkipSpace;
    var s1 := Ascii(sign) + s;
    BlanksAreSkipped(blank, s1);
    if s != [] { DigitIsRead(s[0]); }
    assert (if s1 != [] && (s1[0] == 45 || s1[0] == 43) then s1[1..] else s1) == s;
  }

  // ------------------------------------------------------ RFC 9112 chunks

  /** A chunk on the wire: its size in hexadecimal, its extension, and its data. */
  datatype Chunk = Chunk(size: seq<Byte>, ext: seq<Byte>, data: seq<Byte>)

  predicate NoCrlf(s: seq<Byte>)
  {
    forall i :: 0 <= i < |s| - 1 ==> !(s[i] == CR && s[i + 1] == LF)
  }

  /** A size line names the size in hexadecimal; what follows the digits is an extension. */
  predicate GoodSize(size: seq<Byte>, ext: seq<Byte>, n: nat)
  {
    size != [] && Denotes(size, n) && n < 2147483648 && Ends(ext) && NoCrlf(ext)
  }

  predicate GoodChunks(chunks: seq<Chunk>)
  {
    forall k :: k in chunks ==> k.data != [] && GoodSize(k.size, k.ext, |k.data|)
  }

  /** A line that the client reads as the size n. */
  predicate SizeLine(line: seq<Byte>, n: nat)
  {
    NoCrlf(line) && StoiHex(line) == Some(n)
  }

  lemma GoodSizeIsRead(size: seq<Byte>, ext: seq<Byte>, n: nat)
    requires GoodSize(size, ext, n)
    ensures SizeLine(size + ext, n)
  {
    SizeInHex(size, n, ext);
    NumeralIsRead(size, n, []);
    hide StoiHex, Denotes;
    var s := size + ext;
    forall i | 0 <= i < |s| - 1
      ensures !(s[i] == CR && s[i + 1] == LF)
    {
      if i < |size| { DigitIsRead(size[i]); } else { assert s[i] == ext[i - |size|] && s[i + 1] == ext[i - |size| + 1]; }
    }
  }

  function Wire(chunks: seq<Chunk>): seq<Byte>
  {
    if chunks == [] then []
    else chunks[0].size + chunks[0].ext + [13, 10] + (chunks[0].data + [13, 10]) + Wire(chunks[1..])
  }

  /** The last chunk and the end of the body, with no trailer fields between. */
  function LastChunk(line: seq<Byte>): seq<Byte>
  {
    line + [13, 10] + [13, 10]
  }

  function Payload(chunks: seq<Chunk>): seq<Byte>
  {
    if chunks == [] then [] else chunks[0].data + Payload(chunks[1..])
  }

  lemma {:induction false} FindCrlfBehind(line: seq<Byte>, r: seq<Byte>)
    requires NoCrlf(line)
    ensures FindCrlf(line + CRLF + r) == |line|
  {
    var s := line + CRLF + r;
    if line == [] {
      assert s[0] == CR && s[1] == LF;
    } else {
      assert s[1..] == line[1..] + CRLF + r;
      FindCrlfBehind(line[1..], r);
      if |line| > 1 { assert !(line[0] == CR && line[0 + 1] == LF); }
    }
  }

  lemma RunAgain(c: Client, c': Client)
    requires c.Valid() && Step(c) == (c', Again)
    ensures Run(c) == Run(c')
  {
  }

  /** The size line is read. */
  lemma ReadSize(c: Client, line: seq<Byte>, n: nat, r: seq<Byte>)
    requires c.state.ChunkLen? && SizeLine(line, n) && c.buffer == line + CRLF + r
    ensures Step(c) == (c.(buffer := r, chunkReceive := 0, chunkSize := if n == 0 then 2 else n,
                           state := if n == 0 then ChunkLast else ChunkContent), Again)
  {
    FindCrlfBehind(line, r);
    StoiHexInRange(line);
    hide FindCrlf, StoiHex;
    assert c.buffer[..|line|] == line && c.buffer[|line| + 2..] == r;
  }

  /** The data is read. */
  lemma ReadData(c: Client, data: seq<Byte>, r: seq<Byte>)
    requires c.state.ChunkContent? && c.chunkReceive == 0 && c.chunkSize == |data| && c.buffer == data + r
    ensures Step(c) == (c.(buffer := r, body := c.body + data, chunkReceive := |data|, state := ChunkTrailer), Again)
  {
  }

  lemma ReadEnd(c: Client, r: seq<Byte>)
    requires c.state.ChunkTrailer? && c.buffer == CRLF + r
    ensures Step(c) == (c.(buffer := r, state := ChunkLen), Again)
  {
  }

  /** From size line to size line: one chunk's data goes to the body. */
  lemma ChunkRuns(c: Client, line: seq<Byte>, data: seq<Byte>, r: seq<Byte>)
    requires c.state.ChunkLen? && data != [] && SizeLine(line, |data|)
    requires c.buffer == line + CRLF + (data + CRLF) + r
    ensures Run(c) == Run(c.(buffer := r, body := c.body + data, chunkReceive := |data|, chunkSize := |data|))
  {
    hide Step, Run, SizeLine;
    var b1 := data + (CRLF + r);
    assert c.buffer == line + CRLF + b1;
    var c1 := c.(buffer := b1, chunkReceive := 0, chunkSize := |data|, state := ChunkContent);
    ReadSize(c, line, |data|, b1);
    RunAgain(c, c1);
    var c2 := c1.(buffer := CRLF + r, body := c.body + data, chunkReceive := |data|, state := ChunkTrailer);
    ReadData(c1, data, CRLF + r);
    RunAgain(c1, c2);
    ReadEnd(c2, r);
    RunAgain(c2, c2.(buffer := r, state := ChunkLen));
  }

  lemma LastRuns(c: Client, line: seq<Byte>, r: seq<Byte>)
    requires c.state.ChunkLen? && SizeLine(line, 0) && c.buffer == LastChunk(line) + r
    ensures Run(c) == (c.(buffer := CRLF + r, chunkReceive := 0, chunkSize := 2, state := Done), false)
  {
    hide SizeLine, FindCrlf, StoiHex;
    var b1 := CRLF + r;
    assert c.buffer == line + CRLF + b1;
    ReadSize(c, line, 0, b1);
    var c1 := c.(buffer := b1, chunkReceive := 0, chunkSize := 2, state := ChunkLast);
    RunAgain(c, c1);
    hide LenStep;
    assert b1[..2] == CRLF;
    assert Step(c1) == (c1.(state := Done), Stop);
  }

  /** The chunks at the front of the buffer are taken off it, and their data goes to the body. */
  lemma {:induction false} ChunksPass(c: Client, chunks: seq<Chunk>, r: seq<Byte>) returns (c': Client)
    requires c.state.ChunkLen? && GoodChunks(chunks) && c.buffer == Wire(chunks) + r
    ensures c' == c.(buffer := r, body := c.body + Payload(chunks),
                     chunkReceive := c'.chunkReceive, chunkSize := c'.chunkSize)
    ensures Run(c) == Run(c')
    decreases |chunks|
  {
    hide Run, GoodSize, SizeLine;
    if chunks == [] {
      assert c.buffer == r && c.body + [] == c.body;
      c' := c;
    } else {
      var k, rest := chunks[0], Wire(chunks[1..]) + r;
      assert k in chunks;
      WireHead(chunks, r);
      GoodSizeIsRead(k.size, k.ext, |k.data|);
      ChunkRuns(c, k.size + k.ext, k.data, rest);
      var c1 := c.(buffer := rest, body := c.body + k.data, chunkReceive := |k.data|, chunkSize := |k.data|);
      c' := ChunksPass(c1, chunks[1..], r);
      assert c.body + k.data + Payload(chunks[1..]) == c.body + Payload(chunks);
    }
  }

  lemma ChunksRun(c: Client, chunks: seq<Chunk>, line: seq<Byte>, r: seq<Byte>)
    requires c.state.ChunkLen? && GoodChunks(chunks) && SizeLine(line, 0)
    requires c.buffer == Wire(chunks) + LastChunk(line) + r
    ensures var (c', go) := Run(c);
            !go && c'.state == Done && c'.body == c.body + Payload(chunks) && c'.buffer == CRLF + r
            && c'.keepalive == c.keepalive
  {
    hide Run, SizeLine, GoodChunks, LastChunk;
    assert c.buffer == Wire(chunks) + (LastChunk(line) + r);
    var c' := ChunksPass(c, chunks, LastChunk(line) + r);
    LastRuns(c', line, r);
  }

  lemma WireHead(chunks: seq<Chunk>, r: seq<Byte>)
    requires chunks != []
    ensures var k := chunks[0];
            Wire(chunks) + r == k.size + k.ext + CRLF + (k.data + CRLF) + (Wire(chunks[1..]) + r)
  {
  }

  /**
   * A chunked body, cut into deliveries anywhere: the client finishes, with
   * the data of the chunks, in order, added to the body.
   */
  lemma ChunkedBodyArrives(c: Client, chunks: seq<Chunk>, zero: seq<Byte>, ext: seq<Byte>, r: seq<Byte>,
                           deliveries: seq<seq<Byte>>)
    requires c.state.ChunkLen? && c.buffer == [] && GoodChunks(chunks) && GoodSize(zero, ext, 0)
    requires Concat(deliveries) == Wire(chunks) + LastChunk(zero + ext) + r
    ensures var (c', go) := Feed(c, deliveries);
            !go && c'.state == Done && c'.body == c.body + Payload(chunks)
  {
    hide Run, SizeLine, GoodSize;
    var line := zero + ext;
    GoodSizeIsRead(zero, ext, 0);
    assert |Concat(deliveries)| > 0 && deliveries != [];
    SplitInvariance(c, deliveries);
    var whole := c.With([] + Concat(deliveries));
    assert [] + Concat(deliveries) == Concat(deliveries);
    ChunksRun(whole, chunks, line, r);
  }

  /**
   * A line that names no size, behind any number of chunks and however cut: the
   * client stops reading, keeps the data it has, and will not use the
   * connection again.
   */
  lemma BadSizeStops(c: Client, chunks: seq<Chunk>, line: seq<Byte>, r: seq<Byte>, deliveries: seq<seq<Byte>>)
    requires c.state.ChunkLen? && c.buffer == [] && GoodChunks(chunks) && NoCrlf(line) && StoiHex(line) == None
    requires Concat(deliveries) == Wire(chunks) + (line + [13, 10] + r)
    ensures var (c', go) := Feed(c, deliveries);
            !go && c'.state == ChunkLen && !c'.keepalive && c'.body == c.body + Payload(chunks)
  {
    hide Run, StoiHex, GoodChunks, FindCrlf, NoCrlf;
    assert |Concat(deliveries)| > 0 && deliveries != [];
    SplitInvariance(c, deliveries);
    var whole := c.With([] + Concat(deliveries));
    assert [] + Concat(deliveries) == Concat(deliveries);
    var c' := ChunksPass(whole, chunks, line + [13, 10] + r);
    FindCrlfBehind(line, r);
    assert c'.buffer[..|line|] == line;
    StopsAt(c');
  }

  lemma StopsAt(c: Client)
    requires c.Valid() && Step(c).1.Stop?
    ensures Run(c) == (Step(c).0, false)
  {
  }

  // ----------------------------------------------- where the promise ends

  /** After the last chunk only a bare CRLF ends the body: trailer fields are not skipped. */
  lemma TrailersAreNotSkipped(c: Client, data: seq<Byte>)
    requires c.state.ChunkLast?
    ensures var (c', go) := Deliver(c, data);
            && (c'.state == Done <==> CRLF <= c.buffer + data)
            && (go <==> !(CRLF <= c.buffer + data))
            && (go ==> c' == c.With(c.buffer + data))
  {
  }

  /** One delivery in the Content state. */
  lemma ContentDelivery(c: Client, a: seq<Byte>)
    requires c.state.Content? && c.buffer == []
    ensures var c' := c.(body := c.body + a);
            Deliver(c, a) == if |c'.body| >= c.contentLength then (c'.(state := Done), false) else (c', true)
  {
    assert [] + a == a;
  }

  /**
   * A body of known length, by contrast, depends on where it is cut, exactly
   * when the first piece completes it and the second would have added to it.
   */
  lemma ContentDependsOnTheCut(c: Client, a: seq<Byte>, b: seq<Byte>)
    requires c.state.Content? && c.buffer == []
    ensures Feed(c, [a, b]).0.body == Deliver(c, a + b).0.body
            <==> |c.body| + |a| < c.contentLength || b == []
  {
    hide Deliver;
    assert [a, b][1..] == [b] && [b][1..] == [];
    ContentDelivery(c, a);
    ContentDelivery(c, a + b);
    ContentDelivery(c.(body := c.body + a), b);
    assert c.body + a + b == c.body + (a + b);
    assert Feed(Deliver(c.(body := c.body + a), b).0, []).0 == Deliver(c.(body := c.body + a), b).0;
  }
}
