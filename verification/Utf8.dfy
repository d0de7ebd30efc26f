/**
 * UTF-8 text in dep/dpp/utility.cpp: the length of a string in code points, a
 * stretch of it, and the check of a length against its bounds. Characters are
 * signed, as on the platforms the server runs on.
 */
module Utf8 {
  import opened Bytes

  /** A Unicode scalar value. */
  type Scalar = c: nat | c < 0x110000 && !(0xD800 <= c < 0xE000)

  /** Section 3 of RFC 3629. */
  function Encode(c: Scalar): seq<Byte>
  {
    if c < 0x80 then [c]
    else if c < 0x800 then [0xC0 + c / 0x40, 0x80 + c % 0x40]
    else if c < 0x10000 then [0xE0 + c / 0x1000, 0x80 + c / 0x40 % 0x40, 0x80 + c % 0x40]
    else [0xF0 + c / 0x40000, 0x80 + c / 0x1000 % 0x40, 0x80 + c / 0x40 % 0x40, 0x80 + c % 0x40]
  }

  /** The valid UTF-8 strings are the encodings of sequences of scalar values. */
  function EncodeAll(cs: seq<Scalar>): seq<Byte>
  {
    if cs == [] then [] else Encode(cs[0]) + EncodeAll(cs[1..])
  }

  // ----------------------------------------------------------------- length

  /** How far utf8len moves on at a byte. */
  function Step(b: Byte): nat
  {
    if b < 0x80 then 1
    else if 0xE0 <= b < 0xF0 then 3
    else if 0xF0 <= b then 4
    else 2
  }

  /** The steps up to the first NUL or the end. None when a step leads past the terminator. */
  function Steps(s: seq<Byte>): Option<nat>
    decreases |s|
  {
    if s == [] || s[0] == 0 then Some(0)
    else if Step(s[0]) > |s| then None
    else
      var rest := Steps(s[Step(s[0])..]);
      if rest.None? then None else Some(rest.value + 1)
  }

  /** s[i] of the C string: the terminator stands at the end. */
  function At(s: seq<Byte>, i: nat): Byte
    requires i <= |s|
  {
    if i < |s| then s[i] else 0
  }

  ghost predicate StepsFrom(s: seq<Byte>, i: nat, count: int)
    requires i <= |s|
  {
    var rest := Steps(s[i..]);
    if rest.None? then Steps(s).None? else Steps(s) == Some(rest.value + count) && count >= 0
  }

  lemma StepsStart(s: seq<Byte>)
    ensures StepsFrom(s, 0, 0)
  {
  }

  lemma StepsOn(s: seq<Byte>, i: nat, count: nat)
    requires i < |s| && s[i] != 0 && StepsFrom(s, i, count)
    ensures i + Step(s[i]) > |s| ==> Steps(s).None?
    ensures i + Step(s[i]) <= |s| ==> StepsFrom(s, i + Step(s[i]), count + 1)
  {
    var t := s[i..];
    assert t[0] == s[i];
    if i + Step(s[i]) <= |s| {
      assert t[Step(s[i])..] == s[i + Step(s[i])..];
    }
  }

  lemma StepsEnd(s: seq<Byte>, i: nat, count: nat)
    requires i <= |s| && At(s, i) == 0 && StepsFrom(s, i, count)
    ensures Steps(s) == Some(count)
  {
  }

  /** The inner loop of utf8len, that a goto re-enters: past a run of ASCII. */
  method PastAscii(s: seq<Byte>, start: nat, ghost count: nat) returns (i: nat)
    requires start <= |s| && StepsFrom(s, start, count)
    ensures start <= i <= |s| && !(0 < At(s, i) < 0x80)
    ensures StepsFrom(s, i, count + i - start)
  {
    hide Steps, StepsFrom;
    i := start;
    while 0 < At(s, i) < 0x80
      invariant start <= i <= |s| && StepsFrom(s, i, count + i - start)
      decreases |s| - i
    {
      StepsOn(s, i, count + i - start);
      i := i + 1;
    }
  }

  /** utf8len. None is a read past the terminator. */
  method Utf8Len(s: seq<Byte>) returns (r: Option<nat>)
    ensures r == Steps(s)
  {
    hide Steps, StepsFrom;
    StepsStart(s);
    if At(s, 0) == 0 {
      StepsEnd(s, 0, 0);
      return Some(0);
    }
    var i := PastAscii(s, 0, 0);
    var count: nat := i;
    while At(s, i) != 0
      invariant i <= |s| && StepsFrom(s, i, count)
      decreases |s| - i
    {
      if At(s, i) < 0x80 {
        var iBefore := i;
        StepsOn(s, i, count);
        i := PastAscii(s, i + 1, count + 1);
        count := count + (i - iBefore);
      } else {
        StepsOn(s, i, count);
        if i + Step(s[i]) > |s| { return None; }
        i := i + Step(s[i]);
        count := count + 1;
      }
    }
    StepsEnd(s, i, count);
    return Some(count);
  }

  /** The code points before the first NUL. */
  function BeforeNul(cs: seq<Scalar>): seq<Scalar>
  {
    if cs == [] || cs[0] == 0 then [] else [cs[0]] + BeforeNul(cs[1..])
  }

  lemma LeadByte(c: Scalar)
    ensures var e := Encode(c);
            && e != [] && (e[0] == 0 <==> c == 0) && Step(e[0]) == |e| && CharSize(e[0]) == |e|
  {
  }

  /** On valid UTF-8 the length counted is that of the code points before the first NUL. */
  lemma {:induction false} LengthCountsCodePoints(cs: seq<Scalar>)
    ensures Steps(EncodeAll(cs)) == Some(|BeforeNul(cs)|)
  {
    if cs != [] && cs[0] != 0 {
      LeadByte(cs[0]);
      LengthCountsCodePoints(cs[1..]);
      var e := Encode(cs[0]);
      hide Encode;
      assert EncodeAll(cs)[0] == e[0];
      assert EncodeAll(cs)[|e|..] == EncodeAll(cs[1..]);
    } else if cs != [] {
      assert EncodeAll(cs)[0] == 0;
    }
  }

  /** A length of 0 says nothing about validity: it is that of a string without a first character. */
  lemma ZeroExactly(s: seq<Byte>)
    ensures Steps(s) == Some(0) <==> s == [] || s[0] == 0
  {
  }

  /** Invalid strings that are not counted as 0: a stray continuation byte takes its neighbour along. */
  lemma InvalidIsCounted()
    ensures Steps([0x80, 0x41]) == Some(1) && Steps([0x80]).None? && Steps([0xE0]).None?
  {
    assert [0x80, 0x41][2..] == [];
  }

  /** The byte the steps from the start of s come to. */
  predicate Reaches(s: seq<Byte>, i: nat)
    decreases |s|
  {
    || i == 0
    || (s != [] && s[0] != 0 && Step(s[0]) <= |s| && Step(s[0]) <= i && Reaches(s[Step(s[0])..], i - Step(s[0])))
  }

  /** A byte that is reached and whose step leads past the terminator. */
  predicate OverreadAt(s: seq<Byte>, i: nat)
  {
    i < |s| && Reaches(s, i) && s[i] != 0 && i + Step(s[i]) > |s|
  }

  /** utf8len reads past the terminator exactly when a first byte that is reached promises more than there is. */
  lemma {:induction false} OverreadExactly(s: seq<Byte>)
    ensures Steps(s).None? <==> exists i: nat :: OverreadAt(s, i)
    decreases |s|
  {
    if s != [] && s[0] != 0 {
      var step := Step(s[0]);
      if step > |s| {
        assert OverreadAt(s, 0);
      } else {
        var rest := s[step..];
        OverreadExactly(rest);
        if i: nat :| OverreadAt(rest, i) {
          assert OverreadAt(s, i + step);
        }
        if j: nat :| OverreadAt(s, j) {
          assert OverreadAt(rest, j - step);
        }
      }
    }
  }

  /** A caller is safe who sees to it that the last three bytes, or all there are, are ASCII. */
  lemma AsciiEndIsSafe(s: seq<Byte>)
    requires forall k | 0 <= k < |s| && k >= |s| - 3 :: s[k] < 0x80
    ensures Steps(s).Some?
  {
    hide Steps, Reaches;
    OverreadExactly(s);
  }

  // -------------------------------------------------------------- substrings

  const NPOS: nat := TWO_64 - 1

  /** The size utf8substr reads off a first byte, or 0 where it gives up. */
  function CharSize(b: Byte): nat
  {
    if b < 0x80 then 1
    else if b / 0x20 == 6 then 2
    else if b / 0x10 == 14 then 3
    else if b / 8 == 30 then 4
    else 0
  }

  /** Where the characters from byte i on start, and where they end. None where utf8substr gives up. */
  function Offsets(s: seq<Byte>, i: nat): Option<seq<nat>>
    decreases if i < |s| then |s| - i else 0
  {
    if i >= |s| then Some([i])
    else if CharSize(s[i]) == 0 then None
    else
      var rest := Offsets(s, i + CharSize(s[i]));
      if rest.None? then None else Some([i] + rest.value)
  }

  /** The first bytes, by their bits: how far utf8len moves on, and the size utf8substr reads off, if any. */
  lemma FirstBytes(b: Byte)
    ensures Step(b) == if b < 128 then 1 else if b < 224 then 2 else if b < 240 then 3 else 4
    ensures CharSize(b) == if b < 128 then 1 else if b < 192 then 0 else if b < 224 then 2
                           else if b < 240 then 3 else if b < 248 then 4 else 0
  {
  }

  function Min(a: nat, b: nat): nat
  {
    if a <= b then a else b
  }

  /** The last character whose offset becomes max: start + leng as a size_t, or any when leng is npos. */
  function Limit(s: seq<Byte>, start: nat, leng: nat): nat
  {
    if leng == NPOS then |s| else (start + leng) % TWO_64
  }

  /** What utf8substr returns: from the start offset, as many bytes as the end offset says. */
  function Substr(s: seq<Byte>, start: nat, leng: nat): Option<seq<Byte>>
  {
    if leng == 0 then Some([])
    else if start == 0 && Steps(s).None? then None
    else if start == 0 && leng >= Steps(s).value then Some(s)
    else
      var o := Offsets(s, 0);
      if o.None? || start + 1 >= |o.value| then Some([])
      else
        var min, max := o.value[start], o.value[Min(Limit(s, start, leng), |o.value| - 1)];
        Some(Cut(s, min, max))
  }

  /** std::string::substr, whose second argument is a count. */
  function Cut(s: seq<Byte>, min: nat, max: nat): seq<Byte>
  {
    if min <= |s| then s[min..Min(min + max, |s|)] else []
  }

  /** What the loop has found when it is at byte i, character q. */
  ghost predicate Found(s: seq<Byte>, start: nat, limit: nat, i: nat, done: seq<nat>, min: Option<nat>, max: Option<nat>)
  {
    && (Offsets(s, i).None? ==> Offsets(s, 0).None?)
    && (Offsets(s, i).Some? ==> Offsets(s, 0) == Some(done + Offsets(s, i).value))
    && min == (if start < |done| then Some(done[start]) else None)
    && max == (if done == [] then None else Some(done[Min(limit, |done| - 1)]))
  }

  /** utf8substr. None is a read past the terminator, in utf8len. */
  method Utf8Substr(s: seq<Byte>, start: nat, leng: nat) returns (r: Option<seq<Byte>>)
    requires start < TWO_64 && leng < TWO_64 && |s| < TWO_63
    ensures r == Substr(s, start, leng)
  {
    hide Offsets, Steps, Found, CharSize, Limit, Substr;
    SubstrCases(s, start, leng);
    if leng == 0 { return Some([]); }
    if start == 0 {
      var n := Utf8Len(s);
      if n.None? { return None; }
      if leng >= n.value { return Some(s); }
    }
    var i: nat, q: nat, min: Option<nat>, max: Option<nat> := 0, 0, None, None;
    ghost var done: seq<nat> := [];
    FoundStart(s, start, Limit(s, start, leng));
    while i < |s|
      invariant |done| == q <= i && Found(s, start, Limit(s, start, leng), i, done, min, max)
      invariant q <= |s|
      decreases if i < |s| then |s| - i else 0
    {
      LimitIs(s, start, leng, q);
      FoundStep(s, start, Limit(s, start, leng), i, done, min, max);
      if q == start {
        min := Some(i);
      }
      if q <= (start + leng) % TWO_64 || leng == NPOS {
        max := Some(i);
      }
      if CharSize(s[i]) == 0 { return Some([]); }
      done := done + [i];
      i, q := i + CharSize(s[i]), q + 1;
    }
    LimitIs(s, start, leng, q);
    FoundEnd(s, start, Limit(s, start, leng), i, done, min, max);
    if q <= (start + leng) % TWO_64 || leng == NPOS {
      max := Some(i);
    }
    SubstrFrom(s, start, leng, done + [i]);
    if min.None? || max.None? { return Some([]); }
    return Some(Cut(s, min.value, max.value));
  }

  lemma LimitIs(s: seq<Byte>, start: nat, leng: nat, q: nat)
    requires q <= |s|
    ensures q <= Limit(s, start, leng) <==> q <= (start + leng) % TWO_64 || leng == NPOS
  {
  }

  lemma SubstrCases(s: seq<Byte>, start: nat, leng: nat)
    ensures leng == 0 ==> Substr(s, start, leng) == Some([])
    ensures leng != 0 && start == 0 && Steps(s).None? ==> Substr(s, start, leng) == None
    ensures leng != 0 && start == 0 && Steps(s).Some? && leng >= Steps(s).value ==> Substr(s, start, leng) == Some(s)
    ensures leng != 0 && (start == 0 ==> Steps(s).Some? && leng < Steps(s).value) && Offsets(s, 0).None? ==>
              Substr(s, start, leng) == Some([])
  {
  }

  lemma SubstrFrom(s: seq<Byte>, start: nat, leng: nat, o: seq<nat>)
    requires leng != 0 && (start == 0 ==> Steps(s).Some? && leng < Steps(s).value)
    requires Offsets(s, 0) == Some(o) && o != []
    ensures Substr(s, start, leng) ==
            Some(if start + 1 >= |o| then [] else Cut(s, o[start], o[Min(Limit(s, start, leng), |o| - 1)]))
  {
    hide Steps, Offsets;
  }

  lemma FoundStart(s: seq<Byte>, start: nat, limit: nat)
    ensures Found(s, start, limit, 0, [], None, None)
  {
    if Offsets(s, 0).Some? {
      assert [] + Offsets(s, 0).value == Offsets(s, 0).value;
    }
  }

  lemma FoundStep(s: seq<Byte>, start: nat, limit: nat, i: nat, done: seq<nat>, min: Option<nat>, max: Option<nat>)
    requires i < |s| && Found(s, start, limit, i, done, min, max)
    ensures if CharSize(s[i]) == 0 then Offsets(s, 0).None?
            else
              Found(s, start, limit, i + CharSize(s[i]), done + [i],
                    if |done| == start then Some(i) else min, if |done| <= limit then Some(i) else max)
  {
    if CharSize(s[i]) != 0 {
      var rest := Offsets(s, i + CharSize(s[i]));
      if rest.Some? {
        assert done + ([i] + rest.value) == done + [i] + rest.value;
      }
    }
  }

  lemma FoundEnd(s: seq<Byte>, start: nat, limit: nat, i: nat, done: seq<nat>, min: Option<nat>, max: Option<nat>)
    requires i >= |s| && Found(s, start, limit, i, done, min, max)
    ensures Offsets(s, 0) == Some(done + [i])
    ensures min == if start < |done| then Some((done + [i])[start]) else None
    ensures (if |done| <= limit then Some(i) else max) == Some((done + [i])[Min(limit, |done|)])
  {
  }

  // ------------------------------------------------------- on valid strings

  lemma {:induction false} EncodeAllAppends(a: seq<Scalar>, b: seq<Scalar>)
    ensures EncodeAll(a + b) == EncodeAll(a) + EncodeAll(b)
  {
    hide Encode;
    if a == [] {
      assert a + b == b;
    } else {
      EncodeAllAppends(a[1..], b);
      assert (a + b)[1..] == a[1..] + b;
    }
  }

  lemma {:induction false} OffsetsOfEncoding(front: seq<Byte>, cs: seq<Scalar>)
    ensures var o := Offsets(front + EncodeAll(cs), |front|);
            && o.Some? && |o.value| == |cs| + 1
            && forall k | 0 <= k <= |cs| :: o.value[k] == |front| + |EncodeAll(cs[..k])|
    decreases |cs|
  {
    hide Encode, CharSize;
    var s := front + EncodeAll(cs);
    if cs == [] {
      assert s == front;
      assert cs[..0] == [];
    } else {
      var e := Encode(cs[0]);
      LeadByte(cs[0]);
      OffsetsOfEncoding(front + e, cs[1..]);
      assert s == front + e + EncodeAll(cs[1..]) && s[|front|] == e[0];
      var o, rest := Offsets(s, |front|), Offsets(s, |front| + |e|);
      assert o == Some([|front|] + rest.value);
      forall k | 0 <= k <= |cs| ensures o.value[k] == |front| + |EncodeAll(cs[..k])| {
        if k > 0 {
          assert cs[..k][0] == cs[0] && cs[..k][1..] == cs[1..][..k - 1];
        }
      }
    }
  }

  lemma LongerTakesMore(cs: seq<Scalar>, a: nat, b: nat)
    requires a <= b <= |cs|
    ensures EncodeAll(cs[..b]) == EncodeAll(cs[..a]) + EncodeAll(cs[a..b])
    ensures a < b ==> EncodeAll(cs[a..b]) != []
  {
    hide Encode, EncodeAll;
    assert cs[..b] == cs[..a] + cs[a..b];
    EncodeAllAppends(cs[..a], cs[a..b]);
    if a < b {
      NotEmpty(cs[a..b]);
    }
  }

  lemma NotEmpty(cs: seq<Scalar>)
    requires cs != []
    ensures EncodeAll(cs) != []
  {
  }

  /** The bytes utf8substr cuts out, when it gets as far as cutting. */
  lemma CutOfEncoding(cs: seq<Scalar>, start: nat, leng: nat)
    requires start < |cs| && leng != 0
    requires start == 0 ==> leng < |BeforeNul(cs)|
    requires |EncodeAll(cs)| < TWO_63 && (start + leng < TWO_64 || leng == NPOS)
    ensures var s := EncodeAll(cs);
            Substr(s, start, leng) == Some(Cut(s, |EncodeAll(cs[..start])|, |EncodeAll(cs[..Min(start + leng, |cs|)])|))
  {
    hide Steps, Offsets, EncodeAll, Encode, Cut, BeforeNul;
    var s := EncodeAll(cs);
    LengthCountsCodePoints(cs);
    OffsetsOfEncoding([], cs);
    assert [] + s == s;
    AtLeastAsLong(cs);
    SubstrFrom(s, start, leng, Offsets(s, 0).value);
    assert Min(Limit(s, start, leng), |cs|) == Min(start + leng, |cs|);
  }

  lemma {:induction false} AtLeastAsLong(cs: seq<Scalar>)
    ensures |cs| <= |EncodeAll(cs)|
  {
    if cs != [] {
      LeadByte(cs[0]);
      AtLeastAsLong(cs[1..]);
    }
  }

  /** The code points asked for. */
  function Slice(cs: seq<Scalar>, start: nat, leng: nat): seq<Scalar>
  {
    cs[Min(start, |cs|)..Min(start + leng, |cs|)]
  }

  lemma {:induction false} OffsetsStopAt(front: seq<Byte>, cs: seq<Scalar>, b: Byte, r: seq<Byte>)
    requires 128 <= b < 192 || b >= 248
    ensures Offsets(front + EncodeAll(cs) + [b] + r, |front|).None?
    decreases |cs|
  {
    hide Encode, CharSize;
    var s := front + EncodeAll(cs) + [b] + r;
    FirstBytes(b);
    if cs == [] {
      assert s == front + [b] + r && s[|front|] == b;
    } else {
      var e := Encode(cs[0]);
      LeadByte(cs[0]);
      OffsetsStopAt(front + e, cs[1..], b, r);
      assert s == front + e + EncodeAll(cs[1..]) + [b] + r && s[|front|] == e[0];
    }
  }

  /** Whatever stands behind valid text and a byte that starts no character, utf8substr gives up and returns nothing. */
  lemma InvalidGivesNothing(cs: seq<Scalar>, b: Byte, r: seq<Byte>, start: nat, leng: nat)
    requires 128 <= b < 192 || b >= 248
    requires var n := Steps(EncodeAll(cs) + [b] + r); start > 0 || leng == 0 || (n.Some? && leng < n.value)
    ensures Substr(EncodeAll(cs) + [b] + r, start, leng) == Some([])
  {
    hide Offsets, EncodeAll, Steps;
    OffsetsStopAt([], cs, b, r);
    var s := EncodeAll(cs) + [b] + r;
    assert [] + EncodeAll(cs) + [b] + r == s;
    SubstrCases(s, start, leng);
  }

  /**
   * utf8substr gives the code points asked for exactly when none are, or they
   * reach the end, or they start at the beginning and stop before any NUL: the
   * end offset is passed to substr as a count.
   */
  lemma SubstrIsRightExactly(cs: seq<Scalar>, start: nat, leng: nat)
    requires |EncodeAll(cs)| < TWO_63 && (start + leng < TWO_64 || leng == 0xFFFF_FFFF_FFFF_FFFF)
    ensures Substr(EncodeAll(cs), start, leng) == Some(EncodeAll(Slice(cs, start, leng)))
            <==> leng == 0 || start + leng >= |cs| || (start == 0 && leng < |BeforeNul(cs)|)
  {
    hide Steps, Offsets, EncodeAll, Encode, Substr, BeforeNul;
    var s, n := EncodeAll(cs), |cs|;
    var end := Min(start + leng, n);
    SubstrEdges(cs, start, leng);
    WithoutNul(cs);
    AtLeastAsLong(cs);
    if leng != 0 && start < n && (start == 0 ==> leng < |BeforeNul(cs)|) {
      CutOfEncoding(cs, start, leng);
      LongerTakesMore(cs, start, end);
      LongerTakesMore(cs, end, n);
      LongerTakesMore(cs, 0, start);
      assert cs[..n] == cs;
    } else if leng != 0 && start == 0 && n != 0 {
      LongerTakesMore(cs, end, n);
      assert cs[..n] == cs && cs[0..end] == cs[..end];
      assert Slice(cs, 0, leng) == cs[..end];
      assert |s| == |EncodeAll(cs[..end])| + |EncodeAll(cs[end..n])|;
    }
  }

  lemma SubstrEdges(cs: seq<Scalar>, start: nat, leng: nat)
    ensures var s := EncodeAll(cs);
            && (leng == 0 ==> Substr(s, start, leng) == Some([]) && Slice(cs, start, leng) == [])
            && (leng != 0 && start == 0 && leng >= |BeforeNul(cs)| ==> Substr(s, start, leng) == Some(s))
            && (leng != 0 && start != 0 && start >= |cs| ==>
                  Substr(s, start, leng) == Some([]) && Slice(cs, start, leng) == [])
    ensures EncodeAll([]) == []
  {
    hide Steps, Offsets, Encode, BeforeNul;
    LengthCountsCodePoints(cs);
    OffsetsOfEncoding([], cs);
    assert [] + EncodeAll(cs) == EncodeAll(cs);
  }

  // ---------------------------------------------------------------- validate

  datatype Validated = TooShort | Kept(value: seq<Byte>) | Undefined

  /** validate, which throws when the value is too short. */
  method Validate(value: seq<Byte>, min: nat, max: nat) returns (r: Validated)
    requires min < TWO_64 && max < TWO_64 && |value| < TWO_63
    ensures r == Checked(value, min, max)
  {
    hide Steps, Substr;
    var n := Utf8Len(value);
    if n.None? { return Undefined; }
    if n.value < min { return TooShort; }
    if n.value > max {
      var cut := Utf8Substr(value, 0, max);
      return if cut.Some? then Kept(cut.value) else Undefined;
    }
    return Kept(value);
  }

  function Checked(value: seq<Byte>, min: nat, max: nat): Validated
  {
    var n := Steps(value);
    if n.None? then Undefined
    else if n.value < min then TooShort
    else if n.value <= max then Kept(value)
    else
      var cut := Substr(value, 0, max);
      if cut.Some? then Kept(cut.value) else Undefined
  }

  lemma {:induction false} WithoutNul(cs: seq<Scalar>)
    ensures |BeforeNul(cs)| <= |cs| && (0 !in cs ==> BeforeNul(cs) == cs)
  {
    if cs != [] && cs[0] != 0 {
      WithoutNul(cs[1..]);
    }
  }

  /**
   * On valid UTF-8 validate throws exactly below the minimum, and otherwise
   * returns a prefix that keeps to the maximum.
   */
  lemma ValidateKeepsBounds(cs: seq<Scalar>, min: nat, max: nat)
    requires 0 !in cs && max < TWO_64 && |EncodeAll(cs)| < TWO_63
    ensures var r := Checked(EncodeAll(cs), min, max);
            if |cs| < min then r.TooShort?
            else r == Kept(EncodeAll(cs[..Min(|cs|, max)])) && (Min(|cs|, max) >= min <==> min <= max)
  {
    hide EncodeAll, Substr, Steps, BeforeNul;
    LengthCountsCodePoints(cs);
    WithoutNul(cs);
    if |cs| > max {
      SubstrIsRightExactly(cs, 0, max);
    } else {
      assert cs[..|cs|] == cs;
    }
  }
}
