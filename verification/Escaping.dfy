/**
 * Escaping in dep/dpp/utility.cpp: percent-encoding for URLs, and backslashes
 * before what Discord's markdown would act on.
 */
module Escaping {
  import opened Bytes

  // -------------------------------------------------------------------- URLs

  /** isalnum in the C locale and the four marks: the unreserved characters of section 2.3 of RFC 3986. */
  predicate Unreserved(c: Byte)
  {
    || 'a' as int <= c <= 'z' as int || 'A' as int <= c <= 'Z' as int || '0' as int <= c <= '9' as int
    || c == '-' as int || c == '_' as int || c == '.' as int || c == '~' as int
  }

  const PERCENT: Byte := 0x25

  function HexDigit(n: nat): Byte
    requires n < 16
  {
    if n < 10 then '0' as int + n else 'A' as int + n - 10
  }

  function HexValue(c: Byte): Option<nat>
  {
    if '0' as int <= c <= '9' as int then Some(c as int - '0' as int)
    else if 'A' as int <= c <= 'F' as int then Some(c as int - 'A' as int + 10)
    else if 'a' as int <= c <= 'f' as int then Some(c as int - 'a' as int + 10)
    else None
  }

  function UrlEncoded(s: seq<Byte>): seq<Byte>
  {
    if s == [] then []
    else UrlEncoded(s[..|s| - 1]) + UrlEncodedByte(s[|s| - 1])
  }

  function UrlEncodedByte(c: Byte): seq<Byte>
  {
    if Unreserved(c) then [c] else [PERCENT, HexDigit(c / 16), HexDigit(c % 16)]
  }

  /** Percent-decoding, section 2.1 of RFC 3986. */
  function UrlDecoded(s: seq<Byte>): Option<seq<Byte>>
    decreases |s|
  {
    if s == [] then Some([])
    else if s[0] != PERCENT then
      var rest := UrlDecoded(s[1..]);
      if rest.None? then None else Some([s[0]] + rest.value)
    else if |s| < 3 || HexValue(s[1]).None? || HexValue(s[2]).None? then None
    else
      var rest := UrlDecoded(s[3..]);
      if rest.None? then None else Some([HexValue(s[1]).value * 16 + HexValue(s[2]).value] + rest.value)
  }

  /** What a C string holds: the bytes before the first NUL. */
  function CString(s: seq<Byte>): seq<Byte>
  {
    if s == [] || s[0] == 0 then [] else [s[0]] + CString(s[1..])
  }

  lemma {:induction false} CStringStops(front: seq<Byte>, rest: seq<Byte>)
    requires 0 !in front && rest != [] && rest[0] == 0
    ensures CString(front + rest) == front
  {
    if front == [] {
      assert front + rest == rest;
    } else {
      CStringStops(front[1..], rest);
      assert (front + rest)[1..] == front[1..] + rest;
    }
  }

  /** url_encode: writes into a buffer reserved for the worst case and reads it back as a C string. */
  method UrlEncode(value: seq<Byte>) returns (escaped: seq<Byte>)
    ensures escaped == UrlEncoded(value)
  {
    hide UrlEncoded, CString, Unreserved;
    var data := new Byte[3 * |value| + 1](_ => 0);
    var pos := 0;
    NothingEncoded();
    assert value[..0] == [] && data[..0] == [];
    for i := 0 to |value|
      invariant pos <= 3 * i
      invariant data[..pos] == UrlEncoded(value[..i])
    {
      var c := value[i];
      OneMoreEncoded(value, i);
      ghost var before := data[..pos];
      if Unreserved(c) {
        data[pos] := c;
        pos := pos + 1;
      } else {
        data[pos], data[pos + 1], data[pos + 2] := PERCENT, HexDigit(c / 16), HexDigit(c % 16);
        pos := pos + 3;
      }
      assert data[..pos] == before + UrlEncodedByte(c);
    }
    data[pos] := 0;
    assert value[..|value|] == value;
    OnlyUrlCharacters(value);
    assert data[..] == data[..pos] + data[pos..];
    CStringStops(data[..pos], data[pos..]);
    escaped := CString(data[..]);
  }

  lemma NothingEncoded()
    ensures UrlEncoded([]) == []
  {
  }

  lemma OneMoreEncoded(s: seq<Byte>, i: nat)
    requires i < |s|
    ensures UrlEncoded(s[..i + 1]) == UrlEncoded(s[..i]) + UrlEncodedByte(s[i])
  {
    assert s[..i + 1][..i] == s[..i];
  }

  predicate UrlCharacter(c: Byte)
  {
    Unreserved(c) || c == PERCENT
  }

  /** Only unreserved characters and percent signs come out, at most three for each byte, and never a NUL. */
  lemma {:induction false} OnlyUrlCharacters(s: seq<Byte>)
    ensures |UrlEncoded(s)| <= 3 * |s| && 0 !in UrlEncoded(s)
    ensures forall c | c in UrlEncoded(s) :: UrlCharacter(c)
  {
    if s != [] {
      OnlyUrlCharacters(s[..|s| - 1]);
      var e := UrlEncodedByte(s[|s| - 1]);
      assert forall c | c in e :: UrlCharacter(c) && c != 0;
    }
  }

  lemma {:induction false} DecodeAfter(s: seq<Byte>, rest: seq<Byte>)
    requires UrlDecoded(rest).Some?
    ensures UrlDecoded(UrlEncoded(s) + rest) == Some(s + UrlDecoded(rest).value)
    decreases |s|
  {
    hide UrlDecoded, UrlEncodedByte;
    if s == [] {
      assert UrlEncoded(s) + rest == rest && s + UrlDecoded(rest).value == UrlDecoded(rest).value;
    } else {
      var front, c := s[..|s| - 1], s[|s| - 1];
      DecodeByte(c, rest);
      DecodeAfter(front, UrlEncodedByte(c) + rest);
      assert UrlEncoded(s) + rest == UrlEncoded(front) + (UrlEncodedByte(c) + rest);
      assert s + UrlDecoded(rest).value == front + ([c] + UrlDecoded(rest).value);
    }
  }

  lemma DecodeByte(c: Byte, rest: seq<Byte>)
    requires UrlDecoded(rest).Some?
    ensures UrlDecoded(UrlEncodedByte(c) + rest) == Some([c] + UrlDecoded(rest).value)
  {
    hide UrlDecoded, HexDigit;
    if Unreserved(c) {
      PlainByte(c, rest);
    } else {
      TripleByte(c, rest);
    }
  }

  lemma PlainByte(c: Byte, rest: seq<Byte>)
    requires UrlDecoded(rest).Some? && c != PERCENT
    ensures UrlDecoded([c] + rest) == Some([c] + UrlDecoded(rest).value)
  {
  }

  lemma TripleByte(c: Byte, rest: seq<Byte>)
    requires UrlDecoded(rest).Some?
    ensures UrlDecoded([PERCENT, HexDigit(c / 16), HexDigit(c % 16)] + rest) == Some([c] + UrlDecoded(rest).value)
  {
  }

  /** Percent-decoding undoes url_encode for every byte string, NULs and percent signs included. */
  lemma UrlRoundTrip(s: seq<Byte>)
    ensures UrlDecoded(UrlEncoded(s)) == Some(s)
  {
    hide UrlEncoded;
    DecodeAfter(s, []);
    assert UrlEncoded(s) + [] == UrlEncoded(s) && s + [] == s;
  }

  lemma {:induction false} EncodedConcat(a: seq<Byte>, b: seq<Byte>)
    ensures UrlEncoded(a + b) == UrlEncoded(a) + UrlEncoded(b)
    decreases |b|
  {
    hide UrlEncodedByte;
    if b == [] {
      assert a + b == a && UrlEncoded(a) + [] == UrlEncoded(a);
    } else {
      var front, last := b[..|b| - 1], b[|b| - 1];
      EncodedConcat(a, front);
      assert (a + b)[..|a + b| - 1] == a + front && (a + b)[|a + b| - 1] == last;
      var x, y, z := UrlEncoded(a), UrlEncoded(front), UrlEncodedByte(last);
      assert x + (y + z) == x + y + z;
    }
  }

  /** Byte by byte: an unreserved character stays as it is, and any other becomes a percent sign and two digits. */
  lemma EncodedByByte(front: seq<Byte>, c: Byte, back: seq<Byte>)
    ensures var piece := if 48 <= c <= 57 || 65 <= c <= 90 || 97 <= c <= 122 || c in {45, 46, 95, 126} then [c]
                         else ['%' as int, "0123456789ABCDEF"[c / 16] as int, "0123456789ABCDEF"[c % 16] as int];
            UrlEncoded(front + [c] + back) == UrlEncoded(front) + piece + UrlEncoded(back)
  {
    hide UrlEncoded, HexDigit;
    DigitsOf(c);
    OneEncoded(c);
    EncodedConcat(front + [c], back);
    EncodedConcat(front, [c]);
  }

  lemma OneEncoded(c: Byte)
    ensures UrlEncoded([c]) == UrlEncodedByte(c)
  {
    assert [c][..0] == [];
  }

  lemma DigitsOf(c: Byte)
    ensures [HexDigit(c / 16), HexDigit(c % 16)]
            == ["0123456789ABCDEF"[c / 16] as int, "0123456789ABCDEF"[c % 16] as int]
  {
  }

  // ---------------------------------------------------------------- markdown

  datatype MarkdownState = Normal | BigCodeBlock | SmallCodeBlock

  /** The characters in the constant markdown_chars. */
  predicate MarkdownChar(c: char)
  {
    c in "\\*_|~[]()>"
  }

  const FENCE := "```"

  predicate FenceAt(text: string, n: nat)
  {
    n + 3 <= |text| && text[n..n + 3] == FENCE
  }

  function Toggled(state: MarkdownState, block: MarkdownState): MarkdownState
  {
    if state == Normal then block else Normal
  }

  /** What is written for the text from position n on, in the given state. */
  function Escaped(text: string, n: nat, blocks: bool, state: MarkdownState): string
    decreases if n < |text| then |text| - n else 0
  {
    if n >= |text| then ""
    else if FenceAt(text, n) then
      (if blocks then "\\`\\`\\`" else FENCE) + Escaped(text, n + 3, blocks, Toggled(state, BigCodeBlock))
    else if text[n] == '`' && (blocks || state != BigCodeBlock) then
      (if blocks then "\\`" else "`") + Escaped(text, n + 1, blocks, Toggled(state, SmallCodeBlock))
    else
      (if (blocks || state == Normal) && MarkdownChar(text[n]) then "\\" else "")
      + [text[n]] + Escaped(text, n + 1, blocks, state)
  }

  /** markdown_escape. */
  method MarkdownEscape(text: string, escapeCodeBlocks: bool) returns (output: string)
    ensures output == Escaped(text, 0, escapeCodeBlocks, Normal)
  {
    hide MarkdownChar, FenceAt, Toggled;
    var state := Normal;
    output := "";
    var n := 0;
    assert "" + Escaped(text, 0, escapeCodeBlocks, Normal) == Escaped(text, 0, escapeCodeBlocks, Normal);
    while n < |text|
      invariant 0 <= n <= |text|
      invariant output + Escaped(text, n, escapeCodeBlocks, state) == Escaped(text, 0, escapeCodeBlocks, Normal)
    {
      ghost var from := Escaped(text, n, escapeCodeBlocks, state);
      FenceFits(text, n);
      var piece: string;
      if FenceAt(text, n) {
        piece := if escapeCodeBlocks then "\\`\\`\\`" else FENCE;
        state := Toggled(state, BigCodeBlock);
        n := n + 3;
      } else if text[n] == '`' && (escapeCodeBlocks || state != BigCodeBlock) {
        piece := if escapeCodeBlocks then "\\`" else "`";
        state := Toggled(state, SmallCodeBlock);
        n := n + 1;
      } else {
        piece := if (escapeCodeBlocks || state == Normal) && MarkdownChar(text[n]) then "\\" else "";
        piece := piece + [text[n]];
        n := n + 1;
      }
      assert from == piece + Escaped(text, n, escapeCodeBlocks, state);
      Regroup(output, piece, Escaped(text, n, escapeCodeBlocks, state));
      output := output + piece;
    }
    assert output + "" == output;
  }

  lemma FenceFits(text: string, n: nat)
    ensures FenceAt(text, n) ==> n + 3 <= |text|
  {
  }

  lemma Regroup(a: string, b: string, c: string)
    ensures a + (b + c) == a + b + c
  {
  }

  /** A character a reader of markdown sees, and whether a backslash before it makes it plain. */
  datatype Seen = Seen(c: char, plain: bool)

  function Read(s: string): seq<Seen>
  {
    if s == "" then []
    else if s[0] == '\\' && |s| > 1 then [Seen(s[1], true)] + Read(s[2..])
    else [Seen(s[0], false)] + Read(s[1..])
  }

  /** A character that markdown acts on when it is not plain. */
  predicate Acts(c: char)
  {
    MarkdownChar(c) || c == '`'
  }

  /** The text with every character that could act made plain, and no other. */
  function AllPlain(text: string): seq<Seen>
  {
    if text == "" then [] else [Seen(text[0], Acts(text[0]))] + AllPlain(text[1..])
  }

  lemma ReadPlain(c: char, rest: string)
    ensures Read(['\\', c] + rest) == [Seen(c, true)] + Read(rest)
  {
  }

  /**
   * With code blocks escaped, a reader sees the text itself with exactly the
   * acting characters made plain, whatever fences it has.
   */
  lemma {:induction false} EscapingMakesPlain(text: string, n: nat, state: MarkdownState)
    requires n <= |text|
    ensures Read(Escaped(text, n, true, state)) == AllPlain(text[n..])
    decreases |text| - n
  {
    if n < |text| {
      var here := text[n..];
      if FenceAt(text, n) {
        var rest := Escaped(text, n + 3, true, Toggled(state, BigCodeBlock));
        EscapingMakesPlain(text, n + 3, Toggled(state, BigCodeBlock));
        ReadFence(rest);
        PlainFence(text, n);
      } else if text[n] == '`' {
        var rest := Escaped(text, n + 1, true, Toggled(state, SmallCodeBlock));
        EscapingMakesPlain(text, n + 1, Toggled(state, SmallCodeBlock));
        ReadPlain('`', rest);
        assert "\\`" + rest == ['\\', '`'] + rest;
        assert here[1..] == text[n + 1..];
      } else {
        var rest := Escaped(text, n + 1, true, state);
        EscapingMakesPlain(text, n + 1, state);
        assert here[1..] == text[n + 1..];
        if MarkdownChar(text[n]) {
          ReadPlain(text[n], rest);
          assert "\\" + [text[n]] + rest == ['\\', text[n]] + rest;
        } else {
          assert "" + [text[n]] + rest == [text[n]] + rest;
          assert ([text[n]] + rest)[1..] == rest;
        }
      }
    }
  }

  lemma ReadFence(rest: string)
    ensures Read("\\`\\`\\`" + rest) == [Seen('`', true), Seen('`', true), Seen('`', true)] + Read(rest)
  {
    ReadPlain('`', rest);
    ReadPlain('`', "\\`" + rest);
    ReadPlain('`', "\\`\\`" + rest);
    assert "\\`\\`\\`" + rest == ['\\', '`'] + ("\\`\\`" + rest);
    assert "\\`\\`" + rest == ['\\', '`'] + ("\\`" + rest);
    assert "\\`" + rest == ['\\', '`'] + rest;
  }

  lemma PlainFence(text: string, n: nat)
    requires FenceAt(text, n)
    ensures AllPlain(text[n..]) == [Seen('`', true), Seen('`', true), Seen('`', true)] + AllPlain(text[n + 3..])
  {
    var here := text[n..];
    assert text[n..n + 3][0] == text[n] && text[n..n + 3][1] == text[n + 1] && text[n..n + 3][2] == text[n + 2];
    assert here[1..] == text[n + 1..] && here[1..][1..] == text[n + 2..] && here[1..][1..][1..] == text[n + 3..];
    assert AllPlain(here) == [Seen('`', true)] + AllPlain(here[1..]);
    assert AllPlain(here[1..]) == [Seen('`', true)] + AllPlain(here[1..][1..]);
    assert AllPlain(here[1..][1..]) == [Seen('`', true)] + AllPlain(text[n + 3..]);
  }

  function Characters(s: seq<Seen>): string
  {
    if s == [] then "" else [s[0].c] + Characters(s[1..])
  }

  lemma {:induction false} CharactersOfPlain(text: string)
    ensures Characters(AllPlain(text)) == text
  {
    if text != "" {
      CharactersOfPlain(text[1..]);
      assert AllPlain(text)[1..] == AllPlain(text[1..]);
    }
  }

  /** Taking the backslashes away again gives the text back. */
  lemma MarkdownRoundTrip(text: string)
    ensures Characters(Read(Escaped(text, 0, true, Normal))) == text
  {
    hide Escaped, Read;
    EscapingMakesPlain(text, 0, Normal);
    CharactersOfPlain(text);
    assert text[0..] == text;
  }

  // ------------------------------------------------- code blocks left alone

  /** How a reader takes a character: plain, as it acts, as code, or as the mark of a code block. */
  datatype Look = Plain | Live | Code | Mark

  datatype Shown = Shown(c: char, look: Look)

  /**
   * What a reader sees who keeps to code blocks: three backticks open or close a
   * paragraph, one backtick an inline block, a backslash outside makes the next
   * character plain, and inside a block everything is code.
   */
  function ReadBlocks(s: string, open: MarkdownState): seq<Shown>
    decreases |s|
  {
    if s == "" then []
    else if |s| >= 3 && s[0] == s[1] == s[2] == '`' then
      [Shown('`', Mark), Shown('`', Mark), Shown('`', Mark)]
      + ReadBlocks(s[3..], if open == Normal then BigCodeBlock else Normal)
    else if s[0] == '`' && open != BigCodeBlock then
      [Shown('`', Mark)] + ReadBlocks(s[1..], if open == Normal then SmallCodeBlock else Normal)
    else if open != Normal then [Shown(s[0], Code)] + ReadBlocks(s[1..], open)
    else if s[0] == '\\' && |s| > 1 then [Shown(s[1], Plain)] + ReadBlocks(s[2..], open)
    else [Shown(s[0], Live)] + ReadBlocks(s[1..], open)
  }

  /** The text as it is meant: outside the code blocks the characters that would act are plain. */
  function Meant(text: string, open: MarkdownState): seq<Shown>
    decreases |text|
  {
    if text == "" then []
    else if |text| >= 3 && text[0] == text[1] == text[2] == '`' then
      [Shown('`', Mark), Shown('`', Mark), Shown('`', Mark)]
      + Meant(text[3..], if open == Normal then BigCodeBlock else Normal)
    else if text[0] == '`' && open != BigCodeBlock then
      [Shown('`', Mark)] + Meant(text[1..], if open == Normal then SmallCodeBlock else Normal)
    else
      var look := if open != Normal then Code else if text[0] in "\\*_|~[]()>" then Plain else Live;
      [Shown(text[0], look)] + Meant(text[1..], open)
  }

  predicate Ticks(s: string, k: nat)
  {
    k <= |s| && forall i :: 0 <= i < k ==> s[i] == '`'
  }

  /** With code blocks left alone, what is written starts with as many backticks as the text. */
  lemma {:induction false} TicksStay(text: string, n: nat, state: MarkdownState, k: nat)
    requires n <= |text| && k <= 3
    ensures Ticks(Escaped(text, n, false, state), k) <==> Ticks(text[n..], k)
    decreases k
  {
    if k > 0 && n < |text| {
      var s := Escaped(text, n, false, state);
      FenceTicks(text, n);
      if FenceAt(text, n) {
        assert s == FENCE + Escaped(text, n + 3, false, Toggled(state, BigCodeBlock));
        assert FENCE[0] == FENCE[1] == FENCE[2] == '`';
      } else if text[n] == '`' {
        var next := if state == BigCodeBlock then state else Toggled(state, SmallCodeBlock);
        TicksStay(text, n + 1, next, k - 1);
        var rest := Escaped(text, n + 1, false, next);
        assert s == "`" + rest && text[n..][1..] == text[n + 1..];
        TicksBehind(s, k);
        TicksBehind(text[n..], k);
        assert s[1..] == rest;
      } else {
        assert s[0] != '`' && text[n..][0] != '`';
      }
    }
  }

  lemma FenceTicks(text: string, n: nat)
    requires n <= |text|
    ensures FenceAt(text, n) <==> Ticks(text[n..], 3)
  {
    if n + 3 <= |text| {
      assert text[n..n + 3] == [text[n], text[n + 1], text[n + 2]];
    }
  }

  lemma TicksBehind(s: string, k: nat)
    requires s != "" && s[0] == '`' && k > 0
    ensures Ticks(s, k) <==> Ticks(s[1..], k - 1)
  {
  }

  /** With code blocks left alone a reader sees the text as it is meant, from every position and state. */
  lemma {:induction false} EscapingKeepsBlocks(text: string, n: nat, state: MarkdownState)
    requires n <= |text|
    ensures ReadBlocks(Escaped(text, n, false, state), state) == Meant(text[n..], state)
    decreases |text| - n
  {
    if n < |text| {
      hide Escaped, ReadBlocks, Meant, FenceAt;
      if FenceAt(text, n) {
        EscapingKeepsBlocks(text, n + 3, Toggled(state, BigCodeBlock));
        FenceIsKept(text, n, state);
      } else {
        EscapingKeepsBlocks(text, n + 1, NextState(text[n], state));
        CharacterIsKept(text, n, state);
      }
    }
  }

  /** The state after a character that starts no fence. */
  function NextState(c: char, state: MarkdownState): MarkdownState
  {
    if c == '`' && state != BigCodeBlock then Toggled(state, SmallCodeBlock) else state
  }

  lemma FenceIsKept(text: string, n: nat, state: MarkdownState)
    requires n < |text| && FenceAt(text, n)
    requires var next := Toggled(state, BigCodeBlock);
             ReadBlocks(Escaped(text, n + 3, false, next), next) == Meant(text[n + 3..], next)
    ensures ReadBlocks(Escaped(text, n, false, state), state) == Meant(text[n..], state)
  {
    var s, here := Escaped(text, n, false, state), text[n..];
    FenceTicks(text, n);
    TicksStay(text, n, state, 3);
    assert here[3..] == text[n + 3..] && s[3..] == Escaped(text, n + 3, false, Toggled(state, BigCodeBlock));
  }

  lemma CharacterIsKept(text: string, n: nat, state: MarkdownState)
    requires n < |text| && !FenceAt(text, n)
    requires var next := NextState(text[n], state);
             ReadBlocks(Escaped(text, n + 1, false, next), next) == Meant(text[n + 1..], next)
    ensures ReadBlocks(Escaped(text, n, false, state), state) == Meant(text[n..], state)
  {
    var s, here := Escaped(text, n, false, state), text[n..];
    FenceTicks(text, n);
    TicksStay(text, n, state, 3);
    TicksStay(text, n, state, 1);
    assert here[1..] == text[n + 1..];
    var rest := Escaped(text, n + 1, false, NextState(text[n], state));
    if text[n] != '`' && state == Normal && MarkdownChar(text[n]) {
      assert s == "\\" + [text[n]] + rest;
      assert s[2..] == rest;
    } else {
      assert s[1..] == rest;
    }
  }

  function Letters(s: seq<Shown>): string
  {
    if s == [] then "" else [s[0].c] + Letters(s[1..])
  }

  lemma LettersCons(x: Shown, s: seq<Shown>)
    ensures Letters([x] + s) == [x.c] + Letters(s)
  {
  }

  lemma {:induction false} LettersOfMeant(text: string, open: MarkdownState)
    ensures Letters(Meant(text, open)) == text
    decreases |text|
  {
    if text != "" {
      if |text| >= 3 && text[0] == text[1] == text[2] == '`' {
        var rest := Meant(text[3..], if open == Normal then BigCodeBlock else Normal);
        LettersOfMeant(text[3..], if open == Normal then BigCodeBlock else Normal);
        var mark := Shown('`', Mark);
        assert [mark, mark, mark] + rest == [mark] + ([mark] + ([mark] + rest));
        LettersCons(mark, rest);
        LettersCons(mark, [mark] + rest);
        LettersCons(mark, [mark] + ([mark] + rest));
        assert text == [text[0]] + ([text[1]] + ([text[2]] + text[3..]));
      } else {
        var next := if text[0] == '`' && open != BigCodeBlock
                    then if open == Normal then SmallCodeBlock else Normal else open;
        LettersOfMeant(text[1..], next);
        assert Meant(text, open)[1..] == Meant(text[1..], next);
      }
    }
  }

  /** Taking away the backslashes outside code blocks gives the text back. */
  lemma BlocksRoundTrip(text: string)
    ensures Letters(ReadBlocks(Escaped(text, 0, false, Normal), Normal)) == text
  {
    hide Escaped, ReadBlocks, Meant;
    EscapingKeepsBlocks(text, 0, Normal);
    LettersOfMeant(text, Normal);
    assert text[0..] == text;
  }

  /** It makes a difference whether code blocks are escaped exactly when there is a backtick. */
  lemma {:induction false} BlocksMatterExactly(text: string, n: nat, state: MarkdownState)
    requires n <= |text|
    ensures Escaped(text, n, false, Normal) == Escaped(text, n, true, state) <==> '`' !in text[n..]
    decreases |text| - n
  {
    if n < |text| {
      var a, b := Escaped(text, n, false, Normal), Escaped(text, n, true, state);
      assert text[n..] == [text[n]] + text[n + 1..];
      if text[n] == '`' {
        assert a[0] == '`' && b[0] == '\\';
      } else {
        FenceTicks(text, n);
        BlocksMatterExactly(text, n + 1, state);
        var piece := (if MarkdownChar(text[n]) then "\\" else "") + [text[n]];
        var x, y := Escaped(text, n + 1, false, Normal), Escaped(text, n + 1, true, state);
        assert a == piece + x && b == piece + y;
        assert a[|piece|..] == x && b[|piece|..] == y;
      }
    }
  }
}
