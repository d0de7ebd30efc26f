/**
 * What the codec promises: decoding undoes encoding, for exactly the values
 * named by RoundTrips; and decoding any bytes at all ends, never reads past
 * the end, and never builds more nodes than it was given bytes.
 */
module EtfTheorems {
  import opened Bytes
  import opened EtfFormat

  // ------------------------------------------------------- what comes back

  /** The value that should come back: big integers as numerals, empty objects as null. */
  function Image(v: Json): Json
    decreases v, 1
  {
    match v
    case Int(n) => if n >= TWO_32 - 2 then Str(Decimal(n)) else v
    case Arr(items) => Arr(ImageItems(items))
    case Obj(fields) => MapValue(ImageFields(fields))
    case _ => v
  }

  function ImageItems(items: seq<Json>): (r: seq<Json>)
    ensures |r| == |items|
    decreases items, 0
  {
    if items == [] then [] else [Image(items[0])] + ImageItems(items[1..])
  }

  function ImageFields(fields: seq<Field>): (r: seq<Field>)
    ensures |r| == |fields|
    ensures forall i :: 0 <= i < |r| ==> r[i].key == fields[i].key
    decreases fields, 0
  {
    if fields == [] then []
    else [Field(fields[0].key, Image(fields[0].value))] + ImageFields(fields[1..])
  }

  predicate KeysSorted(fields: seq<Field>)
  {
    forall i, j :: 0 <= i < j < |fields| ==> KeyLess(fields[i].key, fields[j].key)
  }

  /** Every object in v keeps its keys sorted and distinct, as std::map does. */
  predicate WellFormed(v: Json)
    decreases v, 1
  {
    match v
    case Arr(items) => WellFormedItems(items)
    case Obj(fields) => KeysSorted(fields) && WellFormedFields(fields)
    case _ => true
  }

  predicate WellFormedItems(items: seq<Json>)
    decreases items, 0
  {
    items == [] || (WellFormed(items[0]) && WellFormedItems(items[1..]))
  }

  predicate WellFormedFields(fields: seq<Field>)
    decreases fields, 0
  {
    fields == [] || (WellFormed(fields[0].value) && WellFormedFields(fields[1..]))
  }

  /**
   * The values the codec carries: no empty array, integers that fit 32 bits
   * signed or are at least 2^32 - 2, and sizes that fit their length fields.
   */
  predicate RoundTrips(v: Json)
    decreases v, 1
  {
    match v
    case Int(n) => -TWO_31 <= n < TWO_31 || n >= TWO_32 - 2
    case Str(s) => |s| < TWO_32
    case Arr(items) => 0 < |items| <= TWO_32 - 2 && RoundTripsItems(items)
    case Obj(fields) => |fields| <= TWO_32 - 2 && RoundTripsFields(fields)
    case _ => true
  }

  predicate RoundTripsItems(items: seq<Json>)
    decreases items, 0
  {
    items == [] || (RoundTrips(items[0]) && RoundTripsItems(items[1..]))
  }

  predicate RoundTripsFields(fields: seq<Field>)
    decreases fields, 0
  {
    fields == [] ||
    (|fields[0].key| < TWO_32 && RoundTrips(fields[0].value) && RoundTripsFields(fields[1..]))
  }

  // ----------------------------------------------- the debt of empty arrays

  /*
   * The encoder writes an empty array as a nil and then an empty list with its
   * nil: seven bytes of which the decoder takes one. What it leaves behind is
   * read as further values. The bytes left behind are always a row of two kinds
   * of token, each of which reads as an empty array; and reading never makes
   * the row shorter, so the decoder never gets back into step. It may still
   * read the right value: where the tokens are taken for empty arrays that are
   * due, and a nil for the nil behind a list.
   */

  datatype Token = NilByte | EmptyList

  const EMPTY_LIST: seq<Byte> := [ETT_LIST, 0, 0, 0, 0, ETT_NIL]

  function TokenBytes(t: Token): seq<Byte>
  {
    if t.NilByte? then [ETT_NIL] else EMPTY_LIST
  }

  function Debt(ts: seq<Token>): seq<Byte>
  {
    if ts == [] then [] else TokenBytes(ts[0]) + Debt(ts[1..])
  }

  lemma DebtHead(ts: seq<Token>, r: seq<Byte>)
    requires ts != []
    ensures Debt(ts) + r == TokenBytes(ts[0]) + (Debt(ts[1..]) + r)
  {
  }

  lemma {:induction false} DebtConcat(a: seq<Token>, b: seq<Token>)
    ensures Debt(a + b) == Debt(a) + Debt(b)
  {
    hide TokenBytes;
    if a == [] {
      assert a + b == b;
    } else {
      DebtConcat(a[1..], b);
      DebtHead(a, Debt(b));
      assert (a + b)[1..] == a[1..] + b;
    }
  }

  lemma DebtNone(suffix: seq<Byte>)
    ensures Debt([]) + suffix == suffix
  {
  }

  /** A token at the front of the input reads as an empty array. */
  lemma ReadToken(f: Foreign, t: Token, r: seq<Byte>)
    ensures Inner(f, TokenBytes(t) + r) == Got(Arr([]), r)
  {
    var b := TokenBytes(t) + r;
    if t.NilByte? {
      assert b[1..] == r;
    } else {
      var b0 := b[1..];
      assert b0 == [0, 0, 0, 0, ETT_NIL] + r;
      assert b0[..4] == [0, 0, 0, 0];
      var b1 := b0[4..];
      assert Read32(b0) == Got(0, b1);
      assert Items(f, b1, 0, []) == Got([], b1);
      assert b1 == [ETT_NIL] + r;
      assert b1[1..] == r;
    }
  }

  /**
   * The tokens that reading the bytes of v leaves behind its image, or None
   * when it is not the image that is read. This looks at the shape of v alone.
   */
  function Behind(v: Json): Option<seq<Token>>
    decreases v, 2
  {
    match v
    case Arr(items) =>
      if items == [] then Some([EmptyList])
      else if |items| > TWO_32 - 2 then None
      else AfterList(BehindRow(items, []))
    case Obj(fields) =>
      if |fields| > TWO_32 - 2 then None else BehindFields(fields, [])
    case _ => if RoundTrips(v) then Some([]) else None
  }

  /** The nil that ends a list is read off the front of the tokens left by its items. */
  function AfterList(left: Option<seq<Token>>): Option<seq<Token>>
  {
    if left.None? then None
    else
      var ts := left.value + [NilByte];
      if ts[0].NilByte? then Some(ts[1..]) else None
  }

  /** The same where v is due behind tokens: the first of them is taken for v, so v must be an empty array. */
  function BehindHere(v: Json, ts: seq<Token>): Option<seq<Token>>
    decreases v, 3
  {
    if ts == [] then Behind(v)
    else if v == Arr([]) then Some(ts[1..] + [NilByte, EmptyList])
    else None
  }

  /** The same for a row of values. */
  function BehindRow(items: seq<Json>, ts: seq<Token>): Option<seq<Token>>
    decreases items, 4
  {
    if items == [] then Some(ts)
    else
      var left := BehindHere(items[0], ts);
      if left.None? then None else BehindRow(items[1..], left.value)
  }

  /** The same for the fields of an object, whose keys cannot be read behind tokens. */
  function BehindFields(fields: seq<Field>, ts: seq<Token>): Option<seq<Token>>
    decreases fields, 4
  {
    if fields == [] then Some(ts)
    else if ts != [] || |fields[0].key| >= TWO_32 then None
    else
      var left := Behind(fields[0].value);
      if left.None? then None else BehindFields(fields[1..], left.value)
  }

  /** What p, read from the bytes of a value, has to do with that value's image and the tokens left behind it. */
  ghost predicate Reads<T(!new)>(p: Parsed<T>, image: T, left: Option<seq<Token>>, suffix: seq<Byte>)
  {
    if left.Some? then p == Got(image, Debt(left.value) + suffix)
    else !(p.Got? && p.value == image)
  }

  // ------------------------------------------------------- reading one value

  lemma InnerScalar(f: Foreign, r: seq<Byte>)
    requires r != [] && !IsComposite(r[0])
    ensures Inner(f, r) == Scalar(f, r[0], r[1..])
  {
  }

  lemma ReadStr(f: Foreign, s: seq<Byte>, r: seq<Byte>)
    ensures var n := |s| % TWO_32;
            Inner(f, EncStr(s) + r) == Got(Str(s[..n]), s[n..] + r)
  {
    InnerScalar(f, EncStr(s) + r);
    hide Inner;
    var n := |s| % TWO_32;
    var b := EncStr(s) + r;
    var b0 := b[1..];
    assert b0[..4] == Be32(|s|);
    Be32Inverse(|s|);
    assert b0[4..] == s + r;
    assert (s + r)[..n] == s[..n] && (s + r)[n..] == s[n..] + r;
  }

  lemma ReadSmallInt(f: Foreign, n: Int64, r: seq<Byte>)
    requires 0 <= n <= 127
    ensures Inner(f, EncInt(n) + r) == Got(Int(n), r)
  {
  }

  lemma ReadFourBytes(f: Foreign, w: seq<Byte>, r: seq<Byte>)
    requires |w| == 4
    ensures Inner(f, [ETT_INTEGER] + w + r) == Got(Int(ToInt32(FromBe32(w))), r)
  {
    hide FromBe32, ToInt32;
    var b := [ETT_INTEGER] + w + r;
    InnerScalar(f, b);
    assert b[1..][..4] == w && b[1..][4..] == r;
  }

  lemma FourBytes(n: int)
    ensures |Be32(n)| == 4
  {
  }

  lemma WordIsCast(n: int)
    ensures ToInt32(n % TWO_32) == ToInt32(n)
  {
  }

  lemma ReadWord(f: Foreign, n: Int64, r: seq<Byte>)
    requires n < 0 || 127 < n < TWO_32 - 2
    ensures Inner(f, EncInt(n) + r) == Got(Int(ToInt32(n)), r)
  {
    hide Inner, Be32, FromBe32, LittleEndian, ToInt32;
    Be32Inverse(n);
    FourBytes(n);
    ReadFourBytes(f, Be32(n), r);
    assert EncInt(n) + r == [ETT_INTEGER] + Be32(n) + r;
    WordIsCast(n);
  }

  /** The digits of a number that fits 64 bits: at most eight, and four only below 2^32. */
  lemma BigIntDigits(n: Int64)
    requires n >= 0
    ensures |LittleEndian(n)| <= 8
    ensures |LittleEndian(n)| <= 4 ==> n < TWO_32
  {
    assert Pow256(4) == TWO_32;
    assert Pow256(8) == 256 * (256 * (256 * (256 * Pow256(4))));
    LittleEndianLength(n, 8);
    if |LittleEndian(n)| <= 4 {
      LittleEndianBound(LittleEndian(n), 4);
      LittleEndianInverse(n);
    }
  }

  lemma BigIntNumeral(n: Int64, digits: nat)
    requires 0 <= n && (digits <= 4 ==> n < TWO_32)
    ensures BigIntValue(digits, 0, n) == Str(Decimal(n))
  {
  }

  lemma ReadDigits(n: Int64, r: seq<Byte>)
    requires n >= TWO_32 - 2
    ensures BigInt([0] + LittleEndian(n) + r, |LittleEndian(n)|) == Got(Str(Decimal(n)), r)
  {
    var digits := LittleEndian(n);
    BigIntDigits(n);
    LittleEndianInverse(n);
    BigIntNumeral(n, |digits|);
    hide Decimal, LittleEndian, FromLittleEndian, BigIntValue;
    var b := [0] + digits + r;
    assert Read8(b) == Got(0, b[1..]);
    assert b[1..][..|digits|] == digits && b[1..][|digits|..] == r;
  }

  lemma ScalarBigInt(f: Foreign, n: Byte, r: seq<Byte>)
    ensures Scalar(f, ETT_BIGINT_SMALL, [n] + r) == BigInt(r, n)
  {
  }

  lemma ReadBigInt(f: Foreign, n: Int64, r: seq<Byte>)
    requires n >= TWO_32 - 2
    ensures Inner(f, EncInt(n) + r) == Got(Str(Decimal(n)), r)
  {
    hide Inner, Scalar, Decimal, LittleEndian, FromLittleEndian, BigInt;
    var digits := LittleEndian(n);
    BigIntDigits(n);
    var rest := [0] + digits + r;
    var b := EncInt(n) + r;
    assert b == [ETT_BIGINT_SMALL] + ([|digits|] + rest);
    InnerScalar(f, b);
    ScalarBigInt(f, |digits|, rest);
    ReadDigits(n, r);
  }

  lemma {:induction false} LittleEndianBound(b: seq<Byte>, k: nat)
    requires |b| <= k
    ensures FromLittleEndian(b) < Pow256(k)
  {
    if b != [] { LittleEndianBound(b[1..], k - 1); }
  }

  lemma ReadNull(f: Foreign, r: seq<Byte>)
    ensures Inner(f, NIL_ATOM + r) == Got(Null, r)
  {
    InnerScalar(f, NIL_ATOM + r);
    hide Inner;
    var b0 := (NIL_ATOM + r)[1..];
    assert b0[1..][..3] == [110, 105, 108] && b0[1..][3..] == r;
  }

  lemma ReadBool(f: Foreign, b: bool, r: seq<Byte>)
    ensures Inner(f, (if b then TRUE_ATOM else FALSE_ATOM) + r) == Got(Bool(b), r)
  {
    InnerScalar(f, (if b then TRUE_ATOM else FALSE_ATOM) + r);
    hide Inner;
    if b {
      var b0 := (TRUE_ATOM + r)[1..];
      assert b0[1..][..4] == [116, 114, 117, 101] && b0[1..][4..] == r;
    } else {
      var b0 := (FALSE_ATOM + r)[1..];
      assert b0[1..][..5] == [102, 97, 108, 115, 101] && b0[1..][5..] == r;
    }
  }

  lemma ReadDouble(f: Foreign, bits: Bits64, r: seq<Byte>)
    ensures Inner(f, [ETT_NEW_FLOAT] + Be64(bits) + r) == Got(Num(bits), r)
  {
    InnerScalar(f, [ETT_NEW_FLOAT] + Be64(bits) + r);
    hide Inner;
    var b0 := ([ETT_NEW_FLOAT] + Be64(bits) + r)[1..];
    assert b0[..8] == Be64(bits) && b0[8..] == r;
    Be64Inverse(bits);
  }

  // ----------------------------------------------------- reading in a row

  /** Reading more items keeps the ones already there. */
  lemma {:induction false} ItemsKeep(f: Foreign, r: seq<Byte>, n: nat, acc: seq<Json>)
    ensures var p := Items(f, r, n, acc);
            p.Got? ==> |p.value| == |acc| + n && p.value[..|acc|] == acc
    decreases n
  {
    hide Inner;
    if n > 0 {
      var p := Inner(f, r);
      if p.Got? {
        ItemsKeep(f, p.rest, n - 1, acc + [p.value]);
        var q := Items(f, p.rest, n - 1, acc + [p.value]);
        assert q.Got? ==> q.value[..|acc|] == q.value[..|acc| + 1][..|acc|];
      }
    }
  }

  lemma {:induction false} ImageItemsAt(items: seq<Json>, i: nat)
    requires i < |items|
    ensures ImageItems(items)[i] == Image(items[i])
  {
    if i > 0 { ImageItemsAt(items[1..], i - 1); }
  }

  /** An empty array is the only value whose image is an empty array. */
  lemma OnlyEmptyReadsEmpty(v: Json)
    requires Image(v) == Arr([])
    ensures v == Arr([])
  {
  }

  lemma EmptyArrayBytes()
    ensures Enc(Arr([])) == Some(TokenBytes(NilByte) + TokenBytes(EmptyList))
  {
    assert Be32(0) == [0, 0, 0, 0];
    assert EncItems([]) == Some([]);
    var items: seq<Json> := [];
    assert Enc(Arr(items)) == Some([ETT_NIL] + [ETT_LIST] + Be32(0) + [] + [ETT_NIL]);
    assert [ETT_NIL] + [ETT_LIST] + Be32(0) + [] + [ETT_NIL] == [ETT_NIL] + EMPTY_LIST;
  }

  lemma ItemsStep(f: Foreign, r: seq<Byte>, n: nat, acc: seq<Json>)
    requires n > 0 && Inner(f, r).Got?
    ensures Items(f, r, n, acc) == Items(f, Inner(f, r).rest, n - 1, acc + [Inner(f, r).value])
  {
  }

  /** A wrong item makes the row wrong. */
  lemma ItemsWrong(f: Foreign, r: seq<Byte>, n: nat, acc: seq<Json>, row: seq<Json>)
    requires n > 0 && Inner(f, r).Got?
    requires |row| == |acc| + n && row[|acc|] != Inner(f, r).value
    ensures Items(f, r, n, acc).Got? ==> Items(f, r, n, acc).value != row
  {
    hide Inner, Items;
    var p := Inner(f, r);
    ItemsStep(f, r, n, acc);
    ItemsKeep(f, p.rest, n - 1, acc + [p.value]);
    var q := Items(f, p.rest, n - 1, acc + [p.value]);
    assert q.Got? ==> q.value[..|acc| + 1][|acc|] == p.value;
  }

  lemma {:induction false} ItemsRead(f: Foreign, vs: seq<Json>, ts: seq<Token>, suffix: seq<Byte>, acc: seq<Json>)
    requires WellFormedItems(vs) && EncItems(vs).Some?
    ensures Reads(Items(f, Debt(ts) + EncItems(vs).value + suffix, |vs|, acc),
                  acc + ImageItems(vs), BehindRow(vs, ts), suffix)
    decreases vs, 0
  {
    hide Inner, Debt, Image, BehindHere, WellFormed;
    var r := Debt(ts) + EncItems(vs).value + suffix;
    if vs == [] {
      assert r == Debt(ts) + suffix;
      assert acc + ImageItems(vs) == acc;
    } else {
      hide Items, Enc;
      var v, tail := vs[0], vs[1..];
      var b := EncItems(tail).value;
      assert r == Debt(ts) + Enc(v).value + (b + suffix);
      ValueReads(f, v, ts, b + suffix);
      var p := Inner(f, r);
      assert acc + [Image(v)] + ImageItems(tail) == acc + ImageItems(vs);
      var left := BehindHere(v, ts);
      if left.Some? {
        assert p.rest == Debt(left.value) + b + suffix;
        ItemsRead(f, tail, left.value, suffix, acc + [p.value]);
        ItemsStep(f, r, |vs|, acc);
      } else if p.Got? {
        ItemsWrong(f, r, |vs|, acc, acc + ImageItems(vs));
      } else {
        ItemsFail(f, r, |vs|, acc);
      }
    }
  }

  lemma ItemsFail(f: Foreign, r: seq<Byte>, n: nat, acc: seq<Json>)
    requires n > 0 && Inner(f, r).Fail?
    ensures Items(f, r, n, acc).Fail?
  {
  }

  /** Reading where v is due: behind tokens, the first of them is taken for v. */
  lemma {:induction false} ValueReads(f: Foreign, v: Json, ts: seq<Token>, suffix: seq<Byte>)
    requires WellFormed(v) && Enc(v).Some?
    ensures Reads(Inner(f, Debt(ts) + Enc(v).value + suffix), Image(v), BehindHere(v, ts), suffix)
    decreases v, 2
  {
    hide Inner;
    if ts == [] {
      assert Debt(ts) + Enc(v).value + suffix == Enc(v).value + suffix;
      EncReads(f, v, suffix);
    } else {
      ValueBehindDebt(f, v, ts, suffix);
    }
  }

  lemma ValueBehindDebt(f: Foreign, v: Json, ts: seq<Token>, suffix: seq<Byte>)
    requires Enc(v).Some? && ts != []
    ensures Reads(Inner(f, Debt(ts) + Enc(v).value + suffix), Image(v), BehindHere(v, ts), suffix)
  {
    hide Inner;
    var b := Enc(v).value;
    assert Debt(ts) + b + suffix == TokenBytes(ts[0]) + (Debt(ts[1..]) + b + suffix);
    ReadToken(f, ts[0], Debt(ts[1..]) + b + suffix);
    if Image(v) == Arr([]) {
      OnlyEmptyReadsEmpty(v);
      EmptyArrayBytes();
      DebtGrows(ts[1..], suffix);
    }
  }

  lemma DebtGrows(ts: seq<Token>, suffix: seq<Byte>)
    ensures Debt(ts) + (TokenBytes(NilByte) + TokenBytes(EmptyList)) + suffix
            == Debt(ts + [NilByte, EmptyList]) + suffix
  {
    var more := [NilByte, EmptyList];
    DebtConcat(ts, more);
    assert Debt(more) == TokenBytes(NilByte) + TokenBytes(EmptyList);
  }

  /** Reading the bytes of v, in step. */
  lemma {:induction false} EncReads(f: Foreign, v: Json, suffix: seq<Byte>)
    requires WellFormed(v) && Enc(v).Some?
    ensures Reads(Inner(f, Enc(v).value + suffix), Image(v), Behind(v), suffix)
    decreases v, 1
  {
    match v {
      case Int(n) => IntReads(f, n, suffix);
      case Arr(items) => ArrReads(f, items, suffix);
      case Obj(fields) => ObjReads(f, fields, suffix);
      case _ => LeafReads(f, v, suffix);
    }
  }

  lemma LeafReads(f: Foreign, v: Json, suffix: seq<Byte>)
    requires v.Null? || v.Bool? || v.Num? || v.Str?
    ensures Reads(Inner(f, Enc(v).value + suffix), Image(v), Behind(v), suffix)
  {
    hide Inner, EncStr, Be64;
    DebtNone(suffix);
    match v {
      case Null => ReadNull(f, suffix);
      case Bool(b) => ReadBool(f, b, suffix);
      case Num(bits) => ReadDouble(f, bits, suffix);
      case Str(s) =>
        ReadStr(f, s, suffix);
        if |s| < TWO_32 { assert s[..|s|] == s && s[|s|..] + suffix == suffix; }
    }
  }

  lemma IntReads(f: Foreign, n: Int64, suffix: seq<Byte>)
    ensures Reads(Inner(f, Enc(Int(n)).value + suffix), Image(Int(n)), Behind(Int(n)), suffix)
  {
    hide Inner, EncInt;
    DebtNone(suffix);
    if 0 <= n <= 127 { ReadSmallInt(f, n, suffix); }
    else if n >= TWO_32 - 2 { ReadBigInt(f, n, suffix); }
    else { ReadWord(f, n, suffix); }
  }

  /** The list header, its items, and the nil behind them. */
  lemma ReadList(f: Foreign, n: nat, r: seq<Byte>)
    requires n < TWO_32
    ensures var q := Items(f, r, n, []);
            var p := Inner(f, [ETT_LIST] + Be32(n) + r);
            && (p.Got? ==> q.Got? && q.rest != [])
            && (q.Got? && q.rest != [] ==>
                  p == Got(if q.rest[0] == ETT_NIL then Arr(q.value) else Null, q.rest[1..]))
  {
    var b0 := ([ETT_LIST] + Be32(n) + r)[1..];
    Be32Inverse(n);
    assert b0[..4] == Be32(n) && b0[4..] == r;
  }

  lemma {:induction false} ArrReads(f: Foreign, items: seq<Json>, suffix: seq<Byte>)
    requires WellFormedItems(items) && Enc(Arr(items)).Some?
    ensures Reads(Inner(f, Enc(Arr(items)).value + suffix), Image(Arr(items)), Behind(Arr(items)), suffix)
    decreases items, 1
  {
    hide Inner, Debt, BehindRow;
    var b := EncItems(items).value;
    if items == [] {
      EmptyArrayBytes();
      ReadToken(f, NilByte, TokenBytes(EmptyList) + suffix);
      assert Enc(Arr([])).value + suffix == TokenBytes(NilByte) + (TokenBytes(EmptyList) + suffix);
      DebtOne(EmptyList);
    } else {
      var end := [ETT_NIL] + suffix;
      DebtNone(b + end);
      var r := Debt([]) + b + end;
      assert Enc(Arr(items)).value + suffix == [ETT_LIST] + Be32(|items|) + r;
      ReadList(f, |items|, r);
      ItemsRead(f, items, [], end, []);
      assert [] + ImageItems(items) == ImageItems(items);
      if BehindRow(items, []).Some? {
        DebtTail(BehindRow(items, []).value, suffix);
      }
    }
  }

  lemma DebtOne(t: Token)
    ensures Debt([t]) == TokenBytes(t)
  {
  }

  /** The nil behind a list is one more token; the first of them is read for it. */
  lemma DebtTail(left: seq<Token>, suffix: seq<Byte>)
    ensures var ts := left + [NilByte];
            var rest := Debt(left) + ([ETT_NIL] + suffix);
            && rest != [] && (rest[0] == ETT_NIL <==> ts[0].NilByte?)
            && (ts[0].NilByte? ==> rest[1..] == Debt(ts[1..]) + suffix)
  {
    hide Debt;
    var ts := left + [NilByte];
    DebtConcat(left, [NilByte]);
    DebtOne(NilByte);
    assert Debt(left) + ([ETT_NIL] + suffix) == Debt(ts) + suffix;
    DebtHead(ts, suffix);
  }

  // ------------------------------------------------------------ key order

  lemma {:induction false} KeyLessIrreflexive(a: seq<Byte>)
    ensures !KeyLess(a, a)
  {
    if a != [] { KeyLessIrreflexive(a[1..]); }
  }

  lemma {:induction false} KeyLessTransitive(a: seq<Byte>, b: seq<Byte>, c: seq<Byte>)
    requires KeyLess(a, b) && KeyLess(b, c)
    ensures KeyLess(a, c)
  {
    if a != [] && a[0] == b[0] == c[0] { KeyLessTransitive(a[1..], b[1..], c[1..]); }
  }

  lemma {:induction false} PrefixIsLess(a: seq<Byte>, n: nat)
    requires n < |a|
    ensures KeyLess(a[..n], a)
  {
    if n > 0 {
      PrefixIsLess(a[1..], n - 1);
      assert a[..n][1..] == a[1..][..n - 1];
    }
  }

  /** A key above all the others goes to the end. */
  lemma {:induction false} EmplaceLast(fields: seq<Field>, key: seq<Byte>, value: Json)
    requires forall i :: 0 <= i < |fields| ==> KeyLess(fields[i].key, key)
    ensures Emplace(fields, key, value) == fields + [Field(key, value)]
  {
    if fields != [] {
      if fields[0].key == key { KeyLessIrreflexive(key); assert false; }
      if KeyLess(key, fields[0].key) {
        KeyLessTransitive(key, fields[0].key, key);
        KeyLessIrreflexive(key);
        assert false;
      }
      EmplaceLast(fields[1..], key, value);
    }
  }

  ghost predicate HasKey(fields: seq<Field>, key: seq<Byte>)
  {
    exists i :: 0 <= i < |fields| && fields[i].key == key
  }

  lemma {:induction false} EmplaceKeeps(fields: seq<Field>, key: seq<Byte>, value: Json)
    ensures var r := Emplace(fields, key, value);
            && HasKey(r, key)
            && (forall x :: x in fields ==> x in r)
            && |r| <= |fields| + 1
            && (HasKey(fields, key) && KeysSorted(fields) ==> |r| == |fields|)
  {
    var r := Emplace(fields, key, value);
    if fields == [] || KeyLess(key, fields[0].key) {
      if fields != [] && fields[0].key == key { KeyLessIrreflexive(key); assert false; }
      assert r[0].key == key;
      if HasKey(fields, key) && KeysSorted(fields) {
        var i :| 0 <= i < |fields| && fields[i].key == key;
        if i > 0 { KeyLessTransitive(key, fields[0].key, fields[i].key); }
        KeyLessIrreflexive(key);
        assert false;
      }
    } else if fields[0].key == key {
      assert r[0].key == key;
    } else {
      EmplaceKeeps(fields[1..], key, value);
      var q := Emplace(fields[1..], key, value);
      var i :| 0 <= i < |q| && q[i].key == key;
      assert r[i + 1].key == key;
      if HasKey(fields, key) {
        var j :| 0 <= j < |fields| && fields[j].key == key;
        assert fields[1..][j - 1].key == key;
      }
    }
  }

  /** Reading more pairs keeps the fields already there, and adds at most one field a pair. */
  lemma {:induction false} PairsKeep(f: Foreign, r: seq<Byte>, n: nat, acc: seq<Field>)
    ensures var p := Pairs(f, r, n, acc);
            p.Got? ==> |p.value| <= |acc| + n && forall x :: x in acc ==> x in p.value
    decreases n
  {
    hide Inner, Emplace, KeyText;
    if n > 0 {
      var p := Inner(f, r);
      if p.Got? && KeyText(f, p.value).Some? {
        var q := Inner(f, p.rest);
        if q.Got? {
          var acc' := Emplace(acc, KeyText(f, p.value).value, q.value);
          EmplaceKeeps(acc, KeyText(f, p.value).value, q.value);
          PairsKeep(f, q.rest, n - 1, acc');
        }
      }
    }
  }

  // ----------------------------------------------------- reading an object

  lemma PairsStep(f: Foreign, r: seq<Byte>, n: nat, acc: seq<Field>, key: seq<Byte>, mid: seq<Byte>)
    requires n > 0 && Inner(f, r) == Got(Str(key), mid)
    ensures var q := Inner(f, mid);
            && (q.Fail? ==> Pairs(f, r, n, acc).Fail?)
            && (q.Got? ==> Pairs(f, r, n, acc) == Pairs(f, q.rest, n - 1, Emplace(acc, key, q.value)))
  {
  }

  lemma {:induction false} ImageFieldsSlice(fields: seq<Field>, i: nat)
    requires i < |fields|
    ensures ImageFields(fields)[i] == Field(fields[i].key, Image(fields[i].value))
  {
    if i > 0 { ImageFieldsSlice(fields[1..], i - 1); }
  }

  /** The part of an object's image that is there once i fields have been read. */
  lemma EmplaceNext(all: seq<Field>, i: nat, value: Json)
    requires i < |all| && KeysSorted(all)
    ensures Emplace(ImageFields(all)[..i], all[i].key, value)
            == ImageFields(all)[..i] + [Field(all[i].key, value)]
    ensures value == Image(all[i].value) ==>
              Emplace(ImageFields(all)[..i], all[i].key, value) == ImageFields(all)[..i + 1]
  {
    hide Emplace, Image, KeyLess, ImageFields;
    var image := ImageFields(all);
    EmplaceLast(image[..i], all[i].key, value);
    ImageFieldsSlice(all, i);
    assert image[..i + 1] == image[..i] + [image[i]];
  }

  /** A field with the wrong value stays wrong. */
  lemma PairsWrongValue(f: Foreign, r: seq<Byte>, n: nat, all: seq<Field>, i: nat, value: Json)
    requires i < |all| && KeysSorted(all) && value != Image(all[i].value)
    ensures var p := Pairs(f, r, n, ImageFields(all)[..i] + [Field(all[i].key, value)]);
            p.Got? ==> p.value != ImageFields(all)
  {
    var acc := ImageFields(all)[..i] + [Field(all[i].key, value)];
    PairsKeep(f, r, n, acc);
    assert acc[i] == Field(all[i].key, value);
    if Field(all[i].key, value) in ImageFields(all) {
      var j :| 0 <= j < |all| && ImageFields(all)[j] == Field(all[i].key, value);
      ImageFieldsSlice(all, j);
      KeyLessIrreflexive(all[i].key);
      assert i == j;
    }
  }

  /** A key cut short by its length field is not the key of a field still to come. */
  lemma ShortKeyIsNew(all: seq<Field>, i: nat, m: nat, j: nat)
    requires i < |all| && KeysSorted(all) && m < |all[i].key| && i <= j < |all|
    ensures all[j].key != all[i].key[..m]
  {
    var key := all[i].key[..m];
    PrefixIsLess(all[i].key, m);
    KeyLessIrreflexive(key);
    if i < j { KeyLessTransitive(key, all[i].key, all[j].key); }
  }

  /** With a key cut short, fewer fields than there should be, or a field that should not be. */
  lemma ShortKeySpoils(all: seq<Field>, i: nat, m: nat, value: Json)
    requires i < |all| && KeysSorted(all) && m < |all[i].key|
    ensures var acc := Emplace(ImageFields(all)[..i], all[i].key[..m], value);
            |acc| <= i || exists x :: x in acc && x !in ImageFields(all)
  {
    hide Emplace;
    var key, image := all[i].key[..m], ImageFields(all);
    var old' := image[..i];
    var acc := Emplace(old', key, value);
    EmplaceKeeps(old', key, value);
    var k :| 0 <= k < |acc| && acc[k].key == key;
    if acc[k] in image {
      var j :| 0 <= j < |all| && image[j] == acc[k];
      if j >= i { ShortKeyIsNew(all, i, m, j); }
      assert old'[j].key == key;
      assert HasKey(old', key);
      assert KeysSorted(old');
    }
  }

  /** An object read with a key cut short is spoilt. */
  lemma PairsWrongKey(f: Foreign, r: seq<Byte>, all: seq<Field>, i: nat, m: nat, value: Json)
    requires i < |all| && KeysSorted(all) && m < |all[i].key|
    ensures var acc := Emplace(ImageFields(all)[..i], all[i].key[..m], value);
            var p := Pairs(f, r, |all| - i - 1, acc);
            p.Got? ==> p.value != ImageFields(all)
  {
    hide Pairs, Emplace, ImageFields;
    var acc := Emplace(ImageFields(all)[..i], all[i].key[..m], value);
    ShortKeySpoils(all, i, m, value);
    PairsKeep(f, r, |all| - i - 1, acc);
  }

  lemma PairsBehindDebt(f: Foreign, ts: seq<Token>, r: seq<Byte>, n: nat, acc: seq<Field>)
    requires ts != [] && n > 0
    ensures Pairs(f, Debt(ts) + r, n, acc).Fail?
  {
    hide Inner;
    assert Debt(ts) + r == TokenBytes(ts[0]) + (Debt(ts[1..]) + r);
    ReadToken(f, ts[0], Debt(ts[1..]) + r);
  }

  /** Reading field i, in step, from the bytes of its key and value. */
  lemma {:induction false} FieldReads(f: Foreign, all: seq<Field>, i: nat, rest: seq<Byte>, n: nat)
    requires i < |all| && KeysSorted(all) && n > 0
    requires WellFormed(all[i].value) && Enc(all[i].value).Some?
    requires |all[i].key| < TWO_32
    ensures var v := all[i].value;
            var q := Inner(f, Enc(v).value + rest);
            var p := Pairs(f, EncStr(all[i].key) + (Enc(v).value + rest), n, ImageFields(all)[..i]);
            && Reads(q, Image(v), Behind(v), rest)
            && (q.Fail? ==> p.Fail?)
            && (q.Got? && q.value == Image(v) ==> p == Pairs(f, q.rest, n - 1, ImageFields(all)[..i + 1]))
            && (q.Got? && q.value != Image(v) ==>
                  p == Pairs(f, q.rest, n - 1, ImageFields(all)[..i] + [Field(all[i].key, q.value)]))
    decreases all, 0, |all| - i, 0
  {
    hide Inner, Pairs, Emplace, Enc, EncStr, ImageFields;
    var key, v := all[i].key, all[i].value;
    assert all[i] in all;
    EncReads(f, v, rest);
    var q := Inner(f, Enc(v).value + rest);
    ReadStr(f, key, Enc(v).value + rest);
    assert key[..|key|] == key && key[|key|..] + (Enc(v).value + rest) == Enc(v).value + rest;
    PairsStep(f, EncStr(key) + (Enc(v).value + rest), n, ImageFields(all)[..i], key, Enc(v).value + rest);
    if q.Got? { EmplaceNext(all, i, q.value); }
  }

  lemma LongKeyReads(f: Foreign, all: seq<Field>, i: nat, rest: seq<Byte>)
    requires i < |all| && KeysSorted(all) && |all[i].key| >= TWO_32
    ensures var p := Pairs(f, EncStr(all[i].key) + rest, |all| - i, ImageFields(all)[..i]);
            p.Got? ==> p.value != ImageFields(all)
  {
    hide Inner, Pairs, Emplace, EncStr, ImageFields;
    var key := all[i].key;
    var m := |key| % TWO_32;
    ReadStr(f, key, rest);
    var mid := key[m..] + rest;
    PairsStep(f, EncStr(key) + rest, |all| - i, ImageFields(all)[..i], key[..m], mid);
    var q := Inner(f, mid);
    if q.Got? { PairsWrongKey(f, q.rest, all, i, m, q.value); }
  }

  /** The bytes of fields i and on, taken apart at field i. */
  lemma FieldsSplit(all: seq<Field>, i: nat, suffix: seq<Byte>)
    requires i < |all| && EncFields(all[i..]).Some?
    ensures Enc(all[i].value).Some? && EncFields(all[i + 1..]).Some?
    ensures EncFields(all[i..]).value + suffix
            == EncStr(all[i].key) + (Enc(all[i].value).value + (EncFields(all[i + 1..]).value + suffix))
    ensures WellFormedFields(all[i..]) <==> WellFormed(all[i].value) && WellFormedFields(all[i + 1..])
    ensures BehindFields(all[i..], []) ==
            if |all[i].key| >= TWO_32 || Behind(all[i].value).None? then None
            else BehindFields(all[i + 1..], Behind(all[i].value).value)
  {
    hide Enc, EncStr, WellFormed, Behind;
    assert all[i..][0] == all[i] && all[i..][1..] == all[i + 1..];
  }

  lemma {:induction false} PairsRead(f: Foreign, all: seq<Field>, i: nat, ts: seq<Token>, suffix: seq<Byte>)
    requires i <= |all| && KeysSorted(all) && WellFormedFields(all[i..]) && EncFields(all[i..]).Some?
    ensures Reads(Pairs(f, Debt(ts) + (EncFields(all[i..]).value + suffix), |all| - i, ImageFields(all)[..i]),
                  ImageFields(all), BehindFields(all[i..], ts), suffix)
    decreases all, 0, |all| - i
  {
    hide Inner, ImageFields;
    var b := EncFields(all[i..]).value + suffix;
    if i == |all| {
      assert all[i..] == [] && ImageFields(all)[..i] == ImageFields(all);
      assert b == suffix;
    } else if ts != [] {
      PairsBehindDebt(f, ts, b, |all| - i, ImageFields(all)[..i]);
    } else {
      assert Debt([]) + b == b;
      PairsReadInStep(f, all, i, suffix);
    }
  }

  lemma {:induction false} PairsReadInStep(f: Foreign, all: seq<Field>, i: nat, suffix: seq<Byte>)
    requires i < |all| && KeysSorted(all) && WellFormedFields(all[i..]) && EncFields(all[i..]).Some?
    ensures Reads(Pairs(f, EncFields(all[i..]).value + suffix, |all| - i, ImageFields(all)[..i]),
                  ImageFields(all), BehindFields(all[i..], []), suffix)
    decreases all, 0, |all| - i, 1
  {
    hide Inner, Pairs, Enc, EncStr, EncFields, ImageFields, BehindFields, Behind, WellFormedFields, Debt;
    var key, v := all[i].key, all[i].value;
    FieldsSplit(all, i, suffix);
    var rest := EncFields(all[i + 1..]).value + suffix;
    if |key| >= TWO_32 {
      LongKeyReads(f, all, i, Enc(v).value + rest);
    } else {
      FieldReads(f, all, i, rest, |all| - i);
      var q := Inner(f, Enc(v).value + rest);
      if Behind(v).Some? {
        PairsRead(f, all, i + 1, Behind(v).value, suffix);
      } else if q.Got? {
        PairsWrongValue(f, q.rest, |all| - i - 1, all, i, q.value);
      }
    }
  }

  lemma ReadMap(f: Foreign, n: nat, r: seq<Byte>)
    requires n < TWO_32
    ensures var q := Pairs(f, r, n, []);
            var p := Inner(f, [ETT_MAP] + Be32(n) + r);
            && (p.Got? <==> q.Got?)
            && (q.Got? ==> p == Got(MapValue(q.value), q.rest))
  {
    var b := [ETT_MAP] + Be32(n) + r;
    Be32Inverse(n);
    assert b[1..][..4] == Be32(n) && b[1..][4..] == r;
    assert Read32(b[1..]) == Got(n, r);
    assert Inner(f, b) == Composite(f, b);
  }

  lemma {:induction false} ObjReads(f: Foreign, fields: seq<Field>, suffix: seq<Byte>)
    requires WellFormed(Obj(fields)) && Enc(Obj(fields)).Some?
    ensures Reads(Inner(f, Enc(Obj(fields)).value + suffix), Image(Obj(fields)), Behind(Obj(fields)), suffix)
    decreases fields, 1
  {
    hide Inner;
    var b := EncFields(fields).value;
    var r := Debt([]) + (b + suffix);
    assert Enc(Obj(fields)).value + suffix == [ETT_MAP] + Be32(|fields|) + r;
    ReadMap(f, |fields|, r);
    assert fields[0..] == fields && ImageFields(fields)[..0] == [];
    PairsRead(f, fields, 0, [], suffix);
  }

  // ------------------------------------------------------------ the theorems

  /** A value that is read back at all is one the encoder does not refuse. */
  lemma {:induction false} GoodValuesEncode(v: Json)
    requires Behind(v).Some?
    ensures Enc(v).Some?
    decreases v, 1
  {
    match v {
      case Arr(items) => GoodItemsEncode(items, []);
      case Obj(fields) => GoodFieldsEncode(fields, []);
      case _ =>
    }
  }

  lemma {:induction false} GoodItemsEncode(items: seq<Json>, ts: seq<Token>)
    requires BehindRow(items, ts).Some?
    ensures EncItems(items).Some?
    decreases items, 0
  {
    if items != [] {
      if ts == [] { GoodValuesEncode(items[0]); } else { EmptyArrayBytes(); }
      GoodItemsEncode(items[1..], BehindHere(items[0], ts).value);
    }
  }

  lemma {:induction false} GoodFieldsEncode(fields: seq<Field>, ts: seq<Token>)
    requires BehindFields(fields, ts).Some?
    ensures EncFields(fields).Some?
    decreases fields, 0
  {
    if fields != [] {
      GoodValuesEncode(fields[0].value);
      GoodFieldsEncode(fields[1..], Behind(fields[0].value).value);
    }
  }

  /** Tokens once left behind are never gone: only a value the codec carries leaves none. */
  lemma {:induction false} InStepMeansCarried(v: Json)
    ensures Behind(v) == Some([]) <==> RoundTrips(v)
    decreases v, 1
  {
    match v {
      case Arr(items) =>
        RowInStep(items, []);
        ListInStep(BehindRow(items, []));
      case Obj(fields) => FieldsInStep(fields, []);
      case _ =>
    }
  }

  lemma ListInStep(left: Option<seq<Token>>)
    ensures AfterList(left) == Some([]) <==> left == Some([])
  {
    if left.Some? { assert |(left.value + [NilByte])[1..]| == |left.value|; }
  }

  lemma {:induction false} RowInStep(items: seq<Json>, ts: seq<Token>)
    ensures BehindRow(items, ts) == Some([]) <==> ts == [] && RoundTripsItems(items)
    decreases items, 0
  {
    if items != [] {
      InStepMeansCarried(items[0]);
      var left := BehindHere(items[0], ts);
      if left.Some? { RowInStep(items[1..], left.value); }
    }
  }

  lemma {:induction false} FieldsInStep(fields: seq<Field>, ts: seq<Token>)
    ensures BehindFields(fields, ts) == Some([]) <==> ts == [] && RoundTripsFields(fields)
    decreases fields, 0
  {
    if fields != [] {
      InStepMeansCarried(fields[0].value);
      var left := Behind(fields[0].value);
      if left.Some? { FieldsInStep(fields[1..], left.value); }
    }
  }

  /**
   * The round trip in a stream, exactly: the bytes of v, followed by anything,
   * decode to the image of v and leave just what followed, if and only if v is
   * one of the values the codec carries.
   */
  lemma RoundTripExactly(f: Foreign, v: Json, suffix: seq<Byte>)
    requires WellFormed(v)
    ensures Enc(v).Some? && Inner(f, Enc(v).value + suffix) == Got(Image(v), suffix) <==> RoundTrips(v)
  {
    hide RoundTrips, Inner, Image, WellFormed;
    InStepMeansCarried(v);
    if Behind(v).Some? { GoodValuesEncode(v); }
    if Enc(v).Some? {
      EncReads(f, v, suffix);
      if Behind(v).Some? { NoBytesNoTokens(Behind(v).value, suffix); }
    }
  }

  lemma NoBytesNoTokens(ts: seq<Token>, suffix: seq<Byte>)
    ensures Debt(ts) + suffix == suffix <==> ts == []
  {
    if ts != [] { assert |Debt(ts) + suffix| > |suffix|; }
  }

  /** What a caller of parse gets back from what build wrote: nothing looks at the bytes behind the value. */
  ghost predicate ComesBack(f: Foreign, v: Json)
  {
    && Enc(v).Some?
    && var p := Message(f, [FORMAT_VERSION] + Enc(v).value);
       p.Got? && p.value == Image(v)
  }

  /**
   * The round trip of a message, exactly: build and then parse give the image
   * of v if and only if the shape of v lets the tokens its empty arrays leave
   * behind be read where they are due.
   */
  lemma MessageRoundTripExactly(f: Foreign, v: Json)
    requires WellFormed(v)
    ensures ComesBack(f, v) <==> Behind(v).Some?
  {
    hide Inner, Image, WellFormed, Behind;
    if Behind(v).Some? { GoodValuesEncode(v); }
    if Enc(v).Some? {
      EncReads(f, v, []);
      var b := Enc(v).value;
      assert ([FORMAT_VERSION] + b)[1..] == b + [];
    }
  }

  /** Every value the codec carries comes back. */
  lemma CarriedComesBack(f: Foreign, v: Json)
    requires WellFormed(v) && RoundTrips(v)
    ensures ComesBack(f, v)
  {
    hide RoundTrips;
    InStepMeansCarried(v);
    MessageRoundTripExactly(f, v);
  }

  function EmptyArrays(m: nat): seq<Json>
  {
    if m == 0 then [] else [Arr([])] + EmptyArrays(m - 1)
  }

  /** Behind a row of empty arrays nils and empty lists alternate, and an empty list comes last. */
  function Alternating(m: nat): seq<Token>
  {
    if m == 0 then [] else [if m % 2 == 0 then NilByte else EmptyList] + Alternating(m - 1)
  }

  lemma {:induction false} AlternatingGrows(m: nat)
    ensures Alternating(m) + [NilByte, EmptyList] == Alternating(m + 2)
  {
    if m == 0 {
      assert Alternating(1) == [EmptyList] && Alternating(2) == [NilByte] + Alternating(1);
    } else {
      AlternatingGrows(m - 1);
      assert Alternating(m) + [NilByte, EmptyList]
             == Alternating(m)[..1] + (Alternating(m - 1) + [NilByte, EmptyList]);
    }
  }

  lemma {:induction false} BehindEmptyArrays(m: nat, k: nat)
    ensures BehindRow(EmptyArrays(m), Alternating(k)) == Some(Alternating(k + m))
    decreases m
  {
    if m > 0 {
      if k > 0 { AlternatingGrows(k - 1); }
      assert Alternating(1) == [EmptyList];
      assert BehindHere(Arr([]), Alternating(k)) == Some(Alternating(k + 1));
      assert EmptyArrays(m)[0] == Arr([]) && EmptyArrays(m)[1..] == EmptyArrays(m - 1);
      BehindEmptyArrays(m - 1, k + 1);
    }
  }

  lemma {:induction false} BehindGood(good: seq<Json>, rest: seq<Json>)
    requires RoundTripsItems(good)
    ensures BehindRow(good + rest, []) == BehindRow(rest, [])
  {
    if good == [] {
      assert good + rest == rest;
    } else {
      InStepMeansCarried(good[0]);
      BehindGood(good[1..], rest);
      assert (good + rest)[0] == good[0] && (good + rest)[1..] == good[1..] + rest;
    }
  }

  /**
   * An array of values the codec carries with empty arrays at its end comes
   * back as a message exactly when those are even in number; none at all, and
   * the empty array itself, count as even.
   */
  lemma EmptyArraysComeBackInPairs(f: Foreign, good: seq<Json>, m: nat)
    requires RoundTripsItems(good) && |good + EmptyArrays(m)| <= TWO_32 - 2
    requires WellFormed(Arr(good + EmptyArrays(m)))
    ensures ComesBack(f, Arr(good + EmptyArrays(m))) <==> m % 2 == 0
  {
    hide RoundTrips, RoundTripsItems, WellFormed, ComesBack, BehindRow;
    var items := good + EmptyArrays(m);
    MessageRoundTripExactly(f, Arr(items));
    BehindGood(good, EmptyArrays(m));
    BehindEmptyArrays(m, 0);
    if m > 0 { assert Alternating(m)[0] == if m % 2 == 0 then NilByte else EmptyList; }
  }

  lemma NestedEmptyArrayBytes()
    ensures Enc(Arr([Arr([])])) == Some([ETT_LIST] + Be32(1) + (TokenBytes(NilByte) + (TokenBytes(EmptyList) + [ETT_NIL])))
  {
    var e := Arr([]);
    EmptyArrayBytes();
    hide Be32;
    var b := TokenBytes(NilByte) + TokenBytes(EmptyList);
    var es: seq<Json> := [];
    assert [e][1..] == es;
    assert EncItems([e]) == Some(b + []);
    assert Enc(Arr([e])) == Some([] + [ETT_LIST] + Be32(1) + (b + []) + [ETT_NIL]);
    assert [] + [ETT_LIST] + Be32(1) + (b + []) + [ETT_NIL]
        == [ETT_LIST] + Be32(1) + (TokenBytes(NilByte) + (TokenBytes(EmptyList) + [ETT_NIL]));
  }

  /** An array holding an empty array comes back as null, with bytes left over. */
  lemma NestedEmptyArrayIsLost(f: Foreign)
    ensures var v := Arr([Arr([])]);
            Enc(v).Some? && Inner(f, Enc(v).value) == Got(Null, [0, 0, 0, 0, ETT_NIL, ETT_NIL])
  {
    NestedEmptyArrayBytes();
    hide Inner, Enc;
    var r' := TokenBytes(EmptyList) + [ETT_NIL];
    var r := TokenBytes(NilByte) + r';
    ReadList(f, 1, r);
    ReadToken(f, NilByte, r');
    ItemsStep(f, r, 1, []);
    assert [] + [Arr([])] == [Arr([])];
    assert Items(f, r', 0, [Arr([])]) == Got([Arr([])], r');
    assert r'[1..] == [0, 0, 0, 0, ETT_NIL, ETT_NIL];
  }

  /** The first integer past 32 bits signed comes back negative. */
  lemma TwoToThe31ComesBackNegative(f: Foreign)
    ensures Enc(Int(TWO_31)).Some? && Inner(f, Enc(Int(TWO_31)).value + []) == Got(Int(-TWO_31), [])
  {
    ReadWord(f, TWO_31, []);
  }

  // ------------------------------------------------------- any bytes at all

  /** How many JSON values a value is made of, itself included. */
  function Nodes(v: Json): nat
    decreases v, 1
  {
    match v
    case Arr(items) => 1 + NodesItems(items)
    case Obj(fields) => 1 + NodesFields(fields)
    case _ => 1
  }

  function NodesItems(items: seq<Json>): nat
    decreases items, 0
  {
    if items == [] then 0 else Nodes(items[0]) + NodesItems(items[1..])
  }

  function NodesFields(fields: seq<Field>): nat
    decreases fields, 0
  {
    if fields == [] then 0 else Nodes(fields[0].value) + NodesFields(fields[1..])
  }

  lemma {:induction false} NodesAppend(items: seq<Json>, v: Json)
    ensures NodesItems(items + [v]) == NodesItems(items) + Nodes(v)
  {
    hide Nodes;
    if items == [] {
      assert (items + [v])[1..] == [];
    } else {
      NodesAppend(items[1..], v);
      assert (items + [v])[1..] == items[1..] + [v];
    }
  }

  lemma {:induction false} NodesEmplace(fields: seq<Field>, key: seq<Byte>, value: Json)
    ensures NodesFields(Emplace(fields, key, value)) <= NodesFields(fields) + Nodes(value)
  {
    hide Nodes;
    if fields != [] && fields[0].key != key {
      if KeyLess(key, fields[0].key) {
        assert ([Field(key, value)] + fields)[1..] == fields;
      } else {
        NodesEmplace(fields[1..], key, value);
        var q := Emplace(fields[1..], key, value);
        assert ([fields[0]] + q)[1..] == q;
      }
    } else if fields == [] {
      assert [Field(key, value)][1..] == [];
    }
  }

  lemma {:induction false} NodesBytes(b: seq<Byte>)
    ensures NodesItems(ByteInts(b)) == |b|
  {
    if b != [] {
      NodesBytes(b[1..]);
      assert ByteInts(b)[1..] == ByteInts(b[1..]);
    }
  }

  lemma {:induction false} NodesWords(r: seq<Byte>, n: nat, acc: seq<Json>)
    ensures var p := Words(r, n, acc);
            p.Got? ==> NodesItems(p.value) == NodesItems(acc) + n && |p.rest| == |r| - 4 * n
  {
    if n != 0 && |r| >= 4 {
      var w := Int(ToInt32(FromBe32(r[..4])));
      NodesWords(r[4..], n - 1, acc + [w]);
      NodesAppend(acc, w);
    }
  }

  lemma NodesStringList(r: seq<Byte>)
    ensures var p := StringAsList(r); p.Got? ==> Nodes(p.value) <= 1 + |r| - |p.rest|
  {
    hide ByteInts, NodesItems;
    if |r| >= 2 && |r[2..]| >= FromBe16(r[..2]) { NodesBytes(r[2..][..FromBe16(r[..2])]); }
  }

  lemma NodesScalar(f: Foreign, tag: Byte, r: seq<Byte>)
    ensures var p := Scalar(f, tag, r); p.Got? ==> Nodes(p.value) <= 1 + |r| - |p.rest|
  {
    hide StringAsList, Decimal, FromLittleEndian, ToInt32, ToInt64, FromBe16, FromBe32, FromBe64;
    NodesStringList(r);
    ScalarShrinks(f, tag, r);
  }

  /** Whatever the bytes claim, the decoder builds at most one node for each byte it consumes. */
  lemma {:induction false} NodesWithinBytes(f: Foreign, r: seq<Byte>)
    ensures var p := Inner(f, r); p.Got? ==> Nodes(p.value) + |p.rest| <= |r|
    decreases |r|, 0
  {
    if |r| > 0 {
      if IsComposite(r[0]) { NodesComposite(f, r); } else { NodesScalar(f, r[0], r[1..]); }
    }
  }

  lemma {:induction false} NodesInRow(f: Foreign, r: seq<Byte>, n: nat, acc: seq<Json>)
    ensures var p := Items(f, r, n, acc);
            p.Got? ==> NodesItems(p.value) + |p.rest| <= NodesItems(acc) + |r|
    decreases |r|, 1, n
  {
    hide Nodes, Inner;
    if n > 0 {
      NodesWithinBytes(f, r);
      var p := Inner(f, r);
      if p.Got? {
        NodesInRow(f, p.rest, n - 1, acc + [p.value]);
        NodesAppend(acc, p.value);
      }
    }
  }

  lemma {:induction false} NodesInPairs(f: Foreign, r: seq<Byte>, n: nat, acc: seq<Field>)
    ensures var p := Pairs(f, r, n, acc);
            p.Got? ==> NodesFields(p.value) + |p.rest| <= NodesFields(acc) + |r|
    decreases |r|, 1, n
  {
    hide Nodes, Inner, KeyText, Emplace;
    if n > 0 {
      var p := Inner(f, r);
      if p.Got? && KeyText(f, p.value).Some? {
        NodesWithinBytes(f, p.rest);
        var q := Inner(f, p.rest);
        if q.Got? {
          var key := KeyText(f, p.value).value;
          NodesEmplace(acc, key, q.value);
          NodesInPairs(f, q.rest, n - 1, Emplace(acc, key, q.value));
        }
      }
    }
  }

  lemma {:induction false} NodesComposite(f: Foreign, r: seq<Byte>)
    requires |r| > 0
    ensures var p := Composite(f, r); p.Got? ==> Nodes(p.value) + |p.rest| <= |r|
    decreases |r| - 1, 2
  {
    hide Inner, Items, Pairs, Words;
    var r0 := r[1..];
    if r[0] == ETT_SMALL_TUPLE {
      if |r0| >= 1 { NodesInRow(f, r0[1..], r0[0], []); }
    } else if r[0] == ETT_LARGE_TUPLE || r[0] == ETT_LIST {
      if |r0| >= 4 { NodesInRow(f, r0[4..], FromBe32(r0[..4]), []); }
    } else if r[0] == ETT_MAP {
      if |r0| >= 4 { NodesInPairs(f, r0[4..], FromBe32(r0[..4]), []); }
    } else {
      NodesTerm(f, r);
    }
  }

  lemma NodesCons(x: Field, fields: seq<Field>)
    ensures NodesFields([x] + fields) == Nodes(x.value) + NodesFields(fields)
  {
  }

  lemma NodesThree(a: Field, b: Field, c: Field)
    ensures NodesFields([a, b, c]) == Nodes(a.value) + Nodes(b.value) + Nodes(c.value)
  {
    hide Nodes;
    NodesCons(c, []);
    NodesCons(b, [c]);
    NodesCons(a, [b, c]);
    assert [c] + [] == [c] && [b] + [c] == [b, c] && [a] + [b, c] == [a, b, c];
  }

  lemma NodesFour(a: Field, b: Field, c: Field, d: Field)
    ensures NodesFields([a, b, c, d]) == Nodes(a.value) + Nodes(b.value) + Nodes(c.value) + Nodes(d.value)
  {
    hide Nodes;
    NodesThree(b, c, d);
    NodesCons(a, [b, c, d]);
    assert [a] + [b, c, d] == [a, b, c, d];
  }

  lemma NodesReference(node: Json, ids: seq<Json>, creation: Byte)
    ensures Nodes(ReferenceValue(node, ids, creation)) == 3 + NodesItems(ids) + Nodes(node)
  {
    NodesThree(Field(CREATION, Int(creation)), Field(ID, Arr(ids)), Field(NODE, node));
  }

  /** References, ports, process ids and exports. */
  lemma {:induction false} NodesTerm(f: Foreign, r: seq<Byte>)
    requires |r| > 0
    requires r[0] !in {ETT_SMALL_TUPLE, ETT_LARGE_TUPLE, ETT_LIST, ETT_MAP}
    ensures var p := Composite(f, r); p.Got? ==> Nodes(p.value) + |p.rest| <= |r|
    decreases |r| - 1, 1
  {
    hide Inner, Words, NodesItems, NodesFields, ReferenceValue;
    var r0 := r[1..];
    if r[0] == ETT_NEW_REFERENCE {
      if |r0| >= 2 {
        NodesWithinBytes(f, r0[2..]);
        var p := Inner(f, r0[2..]);
        if p.Got? && |p.rest| >= 1 { NodesIds(p.value, p.rest[1..], FromBe16(r0[..2]), p.rest[0]); }
      }
    } else {
      NodesWithinBytes(f, r0);
      var p := Inner(f, r0);
      if p.Got? {
        if r[0] == ETT_REFERENCE {
          var q := Words(p.rest, 1, []);
          if q.Got? && |q.rest| >= 1 { NodesIds(p.value, p.rest, 1, q.rest[0]); }
        } else if r[0] == ETT_PORT {
          if |p.rest| >= 5 {
            NodesThree(Field(CREATION, Int(p.rest[4..][0])), Field(ID, Int(FromBe32(p.rest[..4]))), Field(NODE, p.value));
          }
        } else if r[0] == ETT_PID {
          if |p.rest| >= 9 {
            NodesFour(Field(CREATION, Int(p.rest[4..][4..][0])), Field(ID, Int(FromBe32(p.rest[..4]))),
                      Field(NODE, p.value), Field(SERIAL, Int(FromBe32(p.rest[4..][..4]))));
          }
        } else {
          NodesExport(f, p.rest, p.value, |r|);
        }
      }
    }
  }

  lemma NodesIds(node: Json, r: seq<Byte>, n: nat, creation: Byte)
    ensures var q := Words(r, n, []);
            q.Got? ==> Nodes(ReferenceValue(node, q.value, creation)) == 3 + n + Nodes(node)
                       && |q.rest| == |r| - 4 * n
  {
    NodesWords(r, n, []);
    var q := Words(r, n, []);
    if q.Got? { NodesReference(node, q.value, creation); }
  }

  /** The function and arity of an export, after its module. */
  lemma {:induction false} NodesExport(f: Foreign, r: seq<Byte>, mod: Json, bound: nat)
    requires |r| + 1 < bound
    ensures var q := Inner(f, r);
            q.Got? ==>
              var a := Inner(f, q.rest);
              a.Got? ==>
                Nodes(Obj([Field(ARITY, a.value), Field(FUN, q.value), Field(MOD, mod)])) + |a.rest|
                <= 1 + Nodes(mod) + |r|
    decreases bound - 1, 0
  {
    hide Inner, NodesFields;
    NodesWithinBytes(f, r);
    var q := Inner(f, r);
    if q.Got? {
      NodesWithinBytes(f, q.rest);
      var a := Inner(f, q.rest);
      if a.Got? { NodesThree(Field(ARITY, a.value), Field(FUN, q.value), Field(MOD, mod)); }
    }
  }
}
