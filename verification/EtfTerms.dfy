/**
 * The terms of the External Term Format as its documentation lays them out,
 * tag by tag, and what each stands for in JSON. The decoder is proved to read
 * every term so, whichever of them the encoder writes; and the encoder is
 * proved to write such terms.
 */
module EtfTerms {
  import opened Bytes
  import opened EtfFormat
  import opened EtfTheorems

  /** Four bytes, most significant first. */
  datatype Word = Word(a: Byte, b: Byte, c: Byte, d: Byte)
  {
    function Unsigned(): (r: nat)
      ensures r < 4294967296
    {
      16777216 * a + 65536 * b + 256 * c + d
    }

    function Signed(): (r: int)
      ensures -2147483648 <= r < 2147483648
    {
      if a < 128 then Unsigned() else Unsigned() - 4294967296
    }

    function Bytes(): seq<Byte> { [a, b, c, d] }
  }

  datatype Term =
    | SmallInteger(d: Byte)
    | Integer(w: Word)
    | TextFloat(text: seq<Byte>)
    | Double(high: Word, low: Word)
    | Atom(name: seq<Byte>)
    | SmallAtom(name: seq<Byte>)
    | Nil
    | ByteList(bytes: seq<Byte>)
    | Binary(bytes: seq<Byte>)
    | SmallBig(sign: Byte, digits: seq<Byte>)
    | LargeBig(sign: Byte, digits: seq<Byte>)
    | SmallTuple(terms: seq<Term>)
    | LargeTuple(terms: seq<Term>)
    | List(terms: seq<Term>, tail: Byte)
    | Map(pairs: seq<Pair>)
    | Reference(node: Term, id: Word, creation: Byte)
    | NewReference(node: Term, creation: Byte, ids: seq<Word>)
    | Port(node: Term, id: Word, creation: Byte)
    | Pid(node: Term, id: Word, serial: Word, creation: Byte)
    | Export(mod: Term, fun: Term, arity: Term)

  datatype Pair = Pair(key: Term, value: Term)

  // --------------------------------------------------------------- as bytes

  function Two(n: nat): seq<Byte>
    requires n < 65536
  {
    [n / 256, n % 256]
  }

  function Four(n: nat): seq<Byte>
    requires n < 4294967296
  {
    [n / 16777216, n / 65536 % 256, n / 256 % 256, n % 256]
  }

  /** Does every part of t fit the field its length is written in? */
  predicate Fits(t: Term)
    decreases t, 1
  {
    match t
    case TextFloat(text) => |text| == 31
    case Atom(name) => |name| < 65536
    case SmallAtom(name) => |name| < 256
    case ByteList(bytes) => |bytes| < 65536
    case Binary(bytes) => |bytes| < 4294967296
    case SmallBig(_, digits) => |digits| < 256
    case LargeBig(_, digits) => |digits| < 4294967296
    case SmallTuple(terms) => |terms| < 256 && AllFit(terms)
    case LargeTuple(terms) => |terms| < 4294967296 && AllFit(terms)
    case List(terms, _) => |terms| < 4294967296 && AllFit(terms)
    case Map(pairs) => |pairs| < 4294967296 && PairsFit(pairs)
    case Reference(node, _, _) => Fits(node)
    case NewReference(node, _, ids) => |ids| < 65536 && Fits(node)
    case Port(node, _, _) => Fits(node)
    case Pid(node, _, _, _) => Fits(node)
    case Export(mod, fun, arity) => Fits(mod) && Fits(fun) && Fits(arity)
    case _ => true
  }

  predicate AllFit(terms: seq<Term>)
    decreases terms, 0
  {
    terms == [] || (Fits(terms[0]) && AllFit(terms[1..]))
  }

  predicate PairsFit(pairs: seq<Pair>)
    decreases pairs, 0
  {
    pairs == [] || (PairFits(pairs[0]) && PairsFit(pairs[1..]))
  }

  predicate PairFits(p: Pair)
    decreases p, 2
  {
    Fits(p.key) && Fits(p.value)
  }

  function Written(t: Term): seq<Byte>
    requires Fits(t)
    decreases t, 1
  {
    match t
    case SmallInteger(d) => [97, d]
    case Integer(w) => [98] + w.Bytes()
    case TextFloat(text) => [99] + text
    case Double(high, low) => [70] + high.Bytes() + low.Bytes()
    case Atom(name) => [100] + Two(|name|) + name
    case SmallAtom(name) => [115, |name|] + name
    case Nil => [106]
    case ByteList(bytes) => [107] + Two(|bytes|) + bytes
    case Binary(bytes) => [109] + Four(|bytes|) + bytes
    case SmallBig(sign, digits) => [110, |digits|, sign] + digits
    case LargeBig(sign, digits) => [111] + Four(|digits|) + [sign] + digits
    case SmallTuple(terms) => [104, |terms|] + AllWritten(terms)
    case LargeTuple(terms) => [105] + Four(|terms|) + AllWritten(terms)
    case List(terms, tail) => [108] + Four(|terms|) + AllWritten(terms) + [tail]
    case Map(pairs) => [116] + Four(|pairs|) + PairsWritten(pairs)
    case Reference(node, id, creation) => [101] + Written(node) + id.Bytes() + [creation]
    case NewReference(node, creation, ids) => [114] + Two(|ids|) + Written(node) + [creation] + WordsWritten(ids)
    case Port(node, id, creation) => [102] + Written(node) + id.Bytes() + [creation]
    case Pid(node, id, serial, creation) => [103] + Written(node) + id.Bytes() + serial.Bytes() + [creation]
    case Export(mod, fun, arity) => [113] + Written(mod) + Written(fun) + Written(arity)
  }

  function AllWritten(terms: seq<Term>): seq<Byte>
    requires AllFit(terms)
    decreases terms, 0
  {
    if terms == [] then [] else Written(terms[0]) + AllWritten(terms[1..])
  }

  function PairsWritten(pairs: seq<Pair>): seq<Byte>
    requires PairsFit(pairs)
    decreases pairs, 0
  {
    if pairs == [] then [] else PairWritten(pairs[0]) + PairsWritten(pairs[1..])
  }

  function PairWritten(p: Pair): seq<Byte>
    requires PairFits(p)
    decreases p, 2
  {
    Written(p.key) + Written(p.value)
  }

  function WordsWritten(words: seq<Word>): seq<Byte>
  {
    if words == [] then [] else words[0].Bytes() + WordsWritten(words[1..])
  }

  // ---------------------------------------------------------------- meaning

  function Text(s: string): seq<Byte>
    requires forall i :: 0 <= i < |s| ==> s[i] as int < 128
  {
    seq(|s|, i requires 0 <= i < |s| => var b: Byte := s[i] as int; b)
  }

  function NameMeans(name: seq<Byte>): Json
  {
    if name == Text("nil") || name == Text("null") then Null
    else if name == Text("true") then Bool(true)
    else if name == Text("false") then Bool(false)
    else Str(name)
  }

  /**
   * A big integer of up to eight digits is its numeral, but for those below
   * -2^63, which wrap in the program's 64 bits. A longer one is refused.
   */
  function BigMeans(sign: Byte, digits: seq<Byte>): Option<Json>
  {
    var n: int := FromLittleEndian(digits);
    if |digits| > 8 then None
    else if sign == 0 then Some(Str(Decimal(n)))
    else if n <= 9223372036854775808 then Some(Str(Decimal(-n)))
    else Some(Str(Decimal(18446744073709551616 - n)))
  }

  function SignedWords(words: seq<Word>): seq<Json>
  {
    seq(|words|, i requires 0 <= i < |words| => Int(words[i].Signed()))
  }

  /** The name a key has in an object: numbers count as unsigned. */
  function KeyMeans(f: Foreign, key: Json): Option<seq<Byte>>
  {
    match key
    case Str(s) => Some(s)
    case Int(n) => Some(Decimal(if n >= 0 then n else n + 18446744073709551616))
    case Num(bits) => Some(Decimal(f.doubleToU64(bits)))
    case _ => None
  }

  /** An object with the fields of the given names, in the order of the names. */
  function Record(fields: seq<(string, Json)>): Json
    requires forall k, i :: 0 <= k < |fields| && 0 <= i < |fields[k].0| ==> fields[k].0[i] as int < 128
  {
    Obj(seq(|fields|, i requires 0 <= i < |fields| => Field(Text(fields[i].0), fields[i].1)))
  }

  /** What a term stands for, or None when it is refused. */
  function Means(f: Foreign, t: Term): Option<Json>
    decreases t, 1
  {
    match t
    case SmallInteger(d) => Some(Int(d))
    case Integer(w) => Some(Int(w.Signed()))
    case TextFloat(text) =>
      Some(match f.scanDouble(text) case Some(bits) => Num(bits) case None => Null)
    case Double(high, low) => Some(Num(4294967296 * high.Unsigned() + low.Unsigned()))
    case Atom(name) => Some(NameMeans(name))
    case SmallAtom(name) => Some(NameMeans(name))
    case Nil => Some(Arr([]))
    case ByteList(bytes) => Some(Arr(seq(|bytes|, i requires 0 <= i < |bytes| => Int(bytes[i]))))
    case Binary(bytes) => Some(Str(bytes))
    case SmallBig(sign, digits) => BigMeans(sign, digits)
    case LargeBig(sign, digits) => BigMeans(sign, digits)
    case SmallTuple(terms) =>
      (match AllMean(f, terms) case Some(vs) => Some(Arr(vs)) case None => None)
    case LargeTuple(terms) =>
      (match AllMean(f, terms) case Some(vs) => Some(Arr(vs)) case None => None)
    case List(terms, tail) =>
      (match AllMean(f, terms) case Some(vs) => Some(if tail == 106 then Arr(vs) else Null) case None => None)
    case Map(pairs) =>
      (match PairsMean(f, pairs, [])
       case Some(fields) => Some(if fields == [] then Null else Obj(fields))
       case None => None)
    case Reference(node, id, creation) =>
      (match Means(f, node)
       case Some(v) => Some(Record([("creation", Int(creation)), ("id", Arr([Int(id.Signed())])), ("node", v)]))
       case None => None)
    case NewReference(node, creation, ids) =>
      (match Means(f, node)
       case Some(v) => Some(Record([("creation", Int(creation)), ("id", Arr(SignedWords(ids))), ("node", v)]))
       case None => None)
    case Port(node, id, creation) =>
      (match Means(f, node)
       case Some(v) => Some(Record([("creation", Int(creation)), ("id", Int(id.Unsigned())), ("node", v)]))
       case None => None)
    case Pid(node, id, serial, creation) =>
      (match Means(f, node)
       case Some(v) => Some(Record([("creation", Int(creation)), ("id", Int(id.Unsigned())),
                                    ("node", v), ("serial", Int(serial.Unsigned()))]))
       case None => None)
    case Export(mod, fun, arity) =>
      (match (Means(f, mod), Means(f, fun), Means(f, arity))
       case (Some(m), Some(g), Some(n)) => Some(Record([("arity", n), ("fun", g), ("mod", m)]))
       case _ => None)
  }

  function AllMean(f: Foreign, terms: seq<Term>): Option<seq<Json>>
    decreases terms, 0
  {
    if terms == [] then Some([])
    else
      match (Means(f, terms[0]), AllMean(f, terms[1..]))
      case (Some(v), Some(vs)) => Some([v] + vs)
      case _ => None
  }

  /** The first pair with a name gives its value. */
  function PairsMean(f: Foreign, pairs: seq<Pair>, before: seq<Field>): Option<seq<Field>>
    decreases pairs, 0
  {
    if pairs == [] then Some(before)
    else
      match PairMeans(f, pairs[0])
      case Some(x) => PairsMean(f, pairs[1..], Emplace(before, x.key, x.value))
      case None => None
  }

  function PairMeans(f: Foreign, p: Pair): Option<Field>
    decreases p, 2
  {
    match (Means(f, p.key), Means(f, p.value))
    case (Some(k), Some(v)) =>
      (match KeyMeans(f, k)
       case Some(name) => Some(Field(name, v))
       case None => None)
    case _ => None
  }

  // ------------------------------------------------------- reading, by kind

  /** The outcome of reading a term that stands for m, with r behind it. */
  predicate Yields<T(==)>(p: Parsed<T>, m: Option<T>, r: seq<Byte>)
  {
    match m
    case Some(v) => p == Got(v, r)
    case None => p.Fail?
  }

  lemma ReadWords(w: Word, r: seq<Byte>)
    ensures Read32(w.Bytes() + r) == Got(w.Unsigned(), r)
    ensures ToInt32(w.Unsigned()) == w.Signed()
  {
    assert (w.Bytes() + r)[..4] == w.Bytes() && (w.Bytes() + r)[4..] == r;
  }

  lemma ReadTwo(n: nat, r: seq<Byte>)
    requires n < 65536
    ensures Read16(Two(n) + r) == Got(n, r)
  {
    assert (Two(n) + r)[..2] == Two(n) && (Two(n) + r)[2..] == r;
  }

  lemma ReadFour(n: nat, r: seq<Byte>)
    requires n < 4294967296
    ensures Read32(Four(n) + r) == Got(n, r)
  {
    var w := Word(n / 16777216, n / 65536 % 256, n / 256 % 256, n % 256);
    assert n / 65536 == 256 * (n / 16777216) + n / 65536 % 256;
    assert n / 256 == 256 * (n / 65536) + n / 256 % 256;
    assert w.Unsigned() == n;
    ReadWords(w, r);
  }

  lemma ReadPiece(s: seq<Byte>, r: seq<Byte>)
    ensures ReadString(s + r, |s|) == Got(Some(s), r)
  {
    assert (s + r)[..|s|] == s && (s + r)[|s|..] == r;
  }

  lemma ReadOne(b: Byte, r: seq<Byte>)
    ensures Read8([b] + r) == Got(b, r)
  {
  }

  lemma NamesMean(name: seq<Byte>)
    ensures ProcessAtom(Some(name)) == NameMeans(name)
  {
    assert Text("nil") == [110, 105, 108];
    assert Text("null") == [110, 117, 108, 108];
    assert Text("true") == [116, 114, 117, 101];
    assert Text("false") == [102, 97, 108, 115, 101];
  }

  lemma BigsMean(sign: Byte, digits: seq<Byte>, r: seq<Byte>)
    ensures Yields(BigInt([sign] + digits + r, |digits|), BigMeans(sign, digits), r)
  {
    hide Decimal, FromLittleEndian, Pow256, BigIntValue;
    var b := [sign] + digits + r;
    assert b[1..] == digits + r;
    ReadPiece(digits, r);
    if |digits| <= 8 { SmallBigsMean(sign, digits); }
  }

  lemma SmallBigsMean(sign: Byte, digits: seq<Byte>)
    requires |digits| <= 8
    ensures Some(BigIntValue(|digits|, sign, FromLittleEndian(digits))) == BigMeans(sign, digits)
  {
    hide Decimal, FromLittleEndian, Pow256, ToInt32, ToInt64;
    BigBound(digits);
    Negated(FromLittleEndian(digits));
  }

  lemma Negated(n: int)
    requires 0 <= n < TWO_64
    ensures ToInt64(-ToInt64(n)) == if n <= 9223372036854775808 then -n else 18446744073709551616 - n
    ensures n < TWO_32 && n / TWO_31 % 2 == 0 ==> -ToInt32(n) == -n
    ensures n % TWO_64 == n && (n < TWO_32 ==> n % TWO_32 == n)
  {
  }

  lemma BigBound(digits: seq<Byte>)
    requires |digits| <= 8
    ensures FromLittleEndian(digits) < TWO_64
    ensures |digits| <= 4 ==> FromLittleEndian(digits) < TWO_32
  {
    hide FromLittleEndian;
    LittleEndianBound(digits, 8);
    if |digits| <= 4 { LittleEndianBound(digits, 4); }
    assert Pow256(4) == TWO_32;
    assert Pow256(8) == 256 * (256 * (256 * (256 * Pow256(4))));
  }

  // ----------------------------------------------------------- the theorem

  /** Every term is read as what it stands for, and what follows it is left; or it is refused. */
  lemma {:induction false} TermIsRead(f: Foreign, t: Term, r: seq<Byte>)
    requires Fits(t)
    ensures Yields(Inner(f, Written(t) + r), Means(f, t), r)
    decreases t, 3
  {
    hide Inner, Means, Written;
    match t {
      case SmallTuple(terms) => TupleIsRead(f, t, r);
      case LargeTuple(terms) => TupleIsRead(f, t, r);
      case List(terms, tail) => ListIsRead(f, t, r);
      case Map(pairs) => MapIsRead(f, t, r);
      case Reference(node, id, creation) => ReferenceIsRead(f, t, r);
      case NewReference(node, creation, ids) => NewReferenceIsRead(f, t, r);
      case Port(node, id, creation) => PortIsRead(f, t, r);
      case Pid(node, id, serial, creation) => PidIsRead(f, t, r);
      case Export(mod, fun, arity) => ExportIsRead(f, t, r);
      case _ => ScalarIsRead(f, t, r);
    }
  }

  lemma {:induction false} AllAreRead(f: Foreign, terms: seq<Term>, r: seq<Byte>, acc: seq<Json>)
    requires AllFit(terms)
    ensures var m := AllMean(f, terms);
            Yields(Items(f, AllWritten(terms) + r, |terms|, acc), if m.Some? then Some(acc + m.value) else None, r)
    decreases terms, 2
  {
    hide Inner, Means, Written, Fits;
    if terms == [] {
      assert [] + r == r && acc + [] == acc;
    } else {
      var rest := AllWritten(terms[1..]) + r;
      TermIsRead(f, terms[0], rest);
      assert AllWritten(terms) + r == Written(terms[0]) + rest;
      if Means(f, terms[0]).Some? {
        var v := Means(f, terms[0]).value;
        AllAreRead(f, terms[1..], r, acc + [v]);
        var m := AllMean(f, terms[1..]);
        if m.Some? { assert acc + ([v] + m.value) == acc + [v] + m.value; }
      }
    }
  }

  lemma {:induction false} PairsAreRead(f: Foreign, pairs: seq<Pair>, r: seq<Byte>, acc: seq<Field>)
    requires PairsFit(pairs)
    ensures Yields(Pairs(f, PairsWritten(pairs) + r, |pairs|, acc), PairsMean(f, pairs, acc), r)
    decreases pairs, 2
  {
    hide Inner, Means, Written, Fits, Emplace, Decimal;
    if pairs == [] {
      assert [] + r == r;
    } else {
      var p, rest := pairs[0], PairsWritten(pairs[1..]) + r;
      PairIsRead(f, p, rest);
      assert PairsWritten(pairs) + r == Written(p.key) + (Written(p.value) + rest);
      if PairMeans(f, p).Some? {
        var x := PairMeans(f, p).value;
        PairsAreRead(f, pairs[1..], r, Emplace(acc, x.key, x.value));
      }
    }
  }

  lemma {:induction false} PairIsRead(f: Foreign, p: Pair, r: seq<Byte>)
    requires PairFits(p)
    ensures Yields(Inner(f, Written(p.key) + (Written(p.value) + r)), Means(f, p.key), Written(p.value) + r)
    ensures Yields(Inner(f, Written(p.value) + r), Means(f, p.value), r)
    decreases p, 4
  {
    hide Inner, Means, Written, Fits;
    TermIsRead(f, p.key, Written(p.value) + r);
    TermIsRead(f, p.value, r);
  }

  lemma ScalarIsRead(f: Foreign, t: Term, r: seq<Byte>)
    requires Fits(t) && !HoldsTerms(t)
    ensures Yields(Inner(f, Written(t) + r), Means(f, t), r)
  {
    hide Inner, Scalar, Means, Fits;
    assert !IsComposite(Written(t)[0]);
    InnerScalar(f, Written(t) + r);
    var b := Written(t)[1..] + r;
    assert (Written(t) + r)[1..] == b;
    hide Written;
    if t.Atom? || t.SmallAtom? {
      NameIsRead(f, t, b, r);
    } else if t.Binary? || t.ByteList? {
      BytesAreRead(f, t, b, r);
    } else if t.SmallBig? || t.LargeBig? {
      BigIsRead(f, t, b, r);
    } else {
      NumberIsRead(f, t, b, r);
    }
  }

  predicate HoldsTerms(t: Term)
  {
    || t.SmallTuple? || t.LargeTuple? || t.List? || t.Map?
    || t.Reference? || t.NewReference? || t.Port? || t.Pid? || t.Export?
  }

  lemma NameIsRead(f: Foreign, t: Term, b: seq<Byte>, r: seq<Byte>)
    requires Fits(t) && b == Written(t)[1..] + r
    requires t.Atom? || t.SmallAtom?
    ensures Yields(Scalar(f, Written(t)[0], b), Means(f, t), r)
  {
    hide ProcessAtom, NameMeans, Two, Read16, ReadString;
    NamesMean(t.name);
    ReadPiece(t.name, r);
    if t.Atom? {
      ReadTwo(|t.name|, t.name + r);
      assert b == Two(|t.name|) + (t.name + r);
    } else {
      assert b == [|t.name|] + (t.name + r);
    }
  }

  lemma BytesAreRead(f: Foreign, t: Term, b: seq<Byte>, r: seq<Byte>)
    requires Fits(t) && b == Written(t)[1..] + r
    requires t.Binary? || t.ByteList?
    ensures Yields(Scalar(f, Written(t)[0], b), Means(f, t), r)
  {
    hide Two, Four, Read16, Read32;
    ReadPiece(t.bytes, r);
    if t.ByteList? {
      ReadTwo(|t.bytes|, t.bytes + r);
      assert b == Two(|t.bytes|) + (t.bytes + r);
    } else {
      ReadFour(|t.bytes|, t.bytes + r);
      assert b == Four(|t.bytes|) + (t.bytes + r);
    }
  }

  lemma BigIsRead(f: Foreign, t: Term, b: seq<Byte>, r: seq<Byte>)
    requires Fits(t) && b == Written(t)[1..] + r
    requires t.SmallBig? || t.LargeBig?
    ensures Yields(Scalar(f, Written(t)[0], b), Means(f, t), r)
  {
    hide BigInt, BigMeans;
    var rest := [t.sign] + t.digits + r;
    BigsMean(t.sign, t.digits, r);
    if t.SmallBig? {
      assert b == [|t.digits|] + rest;
    } else {
      ReadFour(|t.digits|, rest);
      assert b == Four(|t.digits|) + rest;
    }
  }

  lemma NumberIsRead(f: Foreign, t: Term, b: seq<Byte>, r: seq<Byte>)
    requires Fits(t) && b == Written(t)[1..] + r
    requires t.SmallInteger? || t.Integer? || t.TextFloat? || t.Double? || t.Nil?
    ensures Yields(Scalar(f, Written(t)[0], b), Means(f, t), r)
  {
    hide ToInt32, Word.Unsigned, Word.Signed, Read64;
    match t {
      case SmallInteger(d) => { assert b == [d] + r; }
      case Integer(w) => { ReadWords(w, r); assert b == w.Bytes() + r; }
      case TextFloat(text) => { ReadPiece(text, r); assert b == text + r; }
      case Double(high, low) => { ReadDouble64(high, low, r); assert b == high.Bytes() + low.Bytes() + r; }
      case Nil => { assert b == r; }
    }
  }

  lemma ReadDouble64(high: Word, low: Word, r: seq<Byte>)
    ensures Read64(high.Bytes() + low.Bytes() + r) == Got(4294967296 * high.Unsigned() + low.Unsigned(), r)
  {
    var b := high.Bytes() + low.Bytes() + r;
    assert b[..8][..4] == high.Bytes() && b[..8][4..] == low.Bytes() && b[8..] == r;
    ReadWords(high, []);
    ReadWords(low, []);
    assert high.Bytes() + [] == high.Bytes() && low.Bytes() + [] == low.Bytes();
  }

  lemma {:induction false} TupleIsRead(f: Foreign, t: Term, r: seq<Byte>)
    requires Fits(t) && (t.SmallTuple? || t.LargeTuple?)
    ensures Yields(Inner(f, Written(t) + r), Means(f, t), r)
    decreases t, 2
  {
    hide Items, AllWritten, AllMean, AllFit;
    var row := AllWritten(t.terms) + r;
    AllAreRead(f, t.terms, r, []);
    var m := AllMean(f, t.terms);
    if m.Some? { assert [] + m.value == m.value; }
    var b := Written(t) + r;
    if t.SmallTuple? {
      assert b == [104] + ([|t.terms|] + row);
    } else {
      ReadFour(|t.terms|, row);
      assert b == [105] + (Four(|t.terms|) + row);
    }
  }

  lemma {:induction false} ListIsRead(f: Foreign, t: Term, r: seq<Byte>)
    requires Fits(t) && t.List?
    ensures Yields(Inner(f, Written(t) + r), Means(f, t), r)
    decreases t, 2
  {
    hide Items, AllWritten, AllMean, AllFit;
    var end := [t.tail] + r;
    var row := AllWritten(t.terms) + end;
    AllAreRead(f, t.terms, end, []);
    var m := AllMean(f, t.terms);
    if m.Some? { assert [] + m.value == m.value; }
    ReadFour(|t.terms|, row);
    assert Written(t) + r == [108] + (Four(|t.terms|) + row);
  }

  lemma {:induction false} MapIsRead(f: Foreign, t: Term, r: seq<Byte>)
    requires Fits(t) && t.Map?
    ensures Yields(Inner(f, Written(t) + r), Means(f, t), r)
    decreases t, 2
  {
    hide Pairs, PairsWritten, PairsMean, PairsFit;
    var row := PairsWritten(t.pairs) + r;
    PairsAreRead(f, t.pairs, r, []);
    ReadFour(|t.pairs|, row);
    assert Written(t) + r == [116] + (Four(|t.pairs|) + row);
  }

  lemma NamesOfFields()
    ensures Text("node") == NODE && Text("id") == ID && Text("creation") == CREATION && Text("serial") == SERIAL
    ensures Text("mod") == MOD && Text("fun") == FUN && Text("arity") == ARITY
  {
  }

  lemma RecordOfThree(a: string, v: Json, b: string, w: Json, c: string, x: Json)
    requires forall i :: 0 <= i < |a| ==> a[i] as int < 128
    requires forall i :: 0 <= i < |b| ==> b[i] as int < 128
    requires forall i :: 0 <= i < |c| ==> c[i] as int < 128
    ensures Record([(a, v), (b, w), (c, x)]) == Obj([Field(Text(a), v), Field(Text(b), w), Field(Text(c), x)])
  {
    hide Text;
  }

  lemma {:induction false} WordsAreRead(words: seq<Word>, r: seq<Byte>, acc: seq<Json>)
    ensures Words(WordsWritten(words) + r, |words|, acc) == Got(acc + SignedWords(words), r)
  {
    hide ToInt32, Word.Unsigned, Word.Signed;
    if words == [] {
      assert [] + r == r && acc + SignedWords(words) == acc;
    } else {
      var rest := WordsWritten(words[1..]) + r;
      assert WordsWritten(words) + r == words[0].Bytes() + rest;
      ReadWords(words[0], rest);
      var head := Int(words[0].Signed());
      WordsAreRead(words[1..], r, acc + [head]);
      assert SignedWords(words) == [head] + SignedWords(words[1..]);
      assert acc + ([head] + SignedWords(words[1..])) == acc + [head] + SignedWords(words[1..]);
    }
  }

  lemma ReferenceForm(f: Foreign, t: Term, r: seq<Byte>)
    requires Fits(t) && t.Reference?
    ensures Written(t) + r == [101] + (Written(t.node) + (WordsWritten([t.id]) + ([t.creation] + r)))
    ensures Means(f, t.node).None? ==> Means(f, t).None?
    ensures Means(f, t.node).Some? ==>
              Means(f, t) == Some(ReferenceValue(Means(f, t.node).value, SignedWords([t.id]), t.creation))
  {
    hide Record, Text, Word.Signed, Word.Unsigned;
    assert SignedWords([t.id]) == [Int(t.id.Signed())];
    assert WordsWritten([t.id]) == t.id.Bytes();
    NamesOfFields();
    if Means(f, t.node).Some? {
      RecordOfThree("creation", Int(t.creation), "id", Arr([Int(t.id.Signed())]), "node", Means(f, t.node).value);
    }
  }

  lemma {:induction false} ReferenceIsRead(f: Foreign, t: Term, r: seq<Byte>)
    requires Fits(t) && t.Reference?
    ensures Yields(Inner(f, Written(t) + r), Means(f, t), r)
    decreases t, 2
  {
    hide Written, Means, ReferenceValue, SignedWords, WordsWritten, Words;
    var end := [t.creation] + r;
    TermIsRead(f, t.node, WordsWritten([t.id]) + end);
    ReferenceForm(f, t, r);
    WordsAreRead([t.id], end, []);
    assert [] + SignedWords([t.id]) == SignedWords([t.id]);
  }

  lemma NewReferenceForm(f: Foreign, t: Term, r: seq<Byte>)
    requires Fits(t) && t.NewReference?
    ensures var end := [t.creation] + (WordsWritten(t.ids) + r);
            Written(t) + r == [114] + (Two(|t.ids|) + (Written(t.node) + end))
    ensures Means(f, t.node).None? ==> Means(f, t).None?
    ensures Means(f, t.node).Some? ==>
              Means(f, t) == Some(ReferenceValue(Means(f, t.node).value, SignedWords(t.ids), t.creation))
  {
    hide Record, Text, SignedWords, WordsWritten;
    NamesOfFields();
    if Means(f, t.node).Some? {
      RecordOfThree("creation", Int(t.creation), "id", Arr(SignedWords(t.ids)), "node", Means(f, t.node).value);
    }
  }

  lemma {:induction false} NewReferenceIsRead(f: Foreign, t: Term, r: seq<Byte>)
    requires Fits(t) && t.NewReference?
    ensures Yields(Inner(f, Written(t) + r), Means(f, t), r)
    decreases t, 2
  {
    hide Written, Means, ReferenceValue, SignedWords, WordsWritten, Words, Two, Read16;
    var ids := WordsWritten(t.ids) + r;
    var end := [t.creation] + ids;
    TermIsRead(f, t.node, end);
    ReadTwo(|t.ids|, Written(t.node) + end);
    NewReferenceForm(f, t, r);
    WordsAreRead(t.ids, r, []);
    assert [] + SignedWords(t.ids) == SignedWords(t.ids);
  }

  lemma PortForm(f: Foreign, t: Term, r: seq<Byte>)
    requires Fits(t) && t.Port?
    ensures Written(t) + r == [102] + (Written(t.node) + (t.id.Bytes() + ([t.creation] + r)))
    ensures Means(f, t.node).None? ==> Means(f, t).None?
    ensures Means(f, t.node).Some? ==>
              Means(f, t) == Some(Obj([Field(CREATION, Int(t.creation)), Field(ID, Int(t.id.Unsigned())),
                                       Field(NODE, Means(f, t.node).value)]))
  {
    hide Record, Text, Word.Signed, Word.Unsigned;
    NamesOfFields();
    if Means(f, t.node).Some? {
      RecordOfThree("creation", Int(t.creation), "id", Int(t.id.Unsigned()), "node", Means(f, t.node).value);
    }
  }

  lemma {:induction false} PortIsRead(f: Foreign, t: Term, r: seq<Byte>)
    requires Fits(t) && t.Port?
    ensures Yields(Inner(f, Written(t) + r), Means(f, t), r)
    decreases t, 2
  {
    hide Written, Means, Word.Unsigned, Word.Signed, Word.Bytes, Read32;
    var end := [t.creation] + r;
    TermIsRead(f, t.node, t.id.Bytes() + end);
    PortForm(f, t, r);
    ReadWords(t.id, end);
  }

  lemma RecordOfPid(creation: Byte, id: int, node: Json, serial: int)
    requires 0 <= id < TWO_32 && 0 <= serial < TWO_32
    ensures Record([("creation", Int(creation)), ("id", Int(id)), ("node", node), ("serial", Int(serial))])
            == Obj([Field(CREATION, Int(creation)), Field(ID, Int(id)), Field(NODE, node), Field(SERIAL, Int(serial))])
  {
    hide Text;
    NamesOfFields();
  }

  lemma PidForm(f: Foreign, t: Term, r: seq<Byte>)
    requires Fits(t) && t.Pid?
    ensures Written(t) + r == [103] + (Written(t.node) + (t.id.Bytes() + (t.serial.Bytes() + ([t.creation] + r))))
    ensures Means(f, t.node).None? ==> Means(f, t).None?
    ensures Means(f, t.node).Some? ==>
              Means(f, t) == Some(Obj([Field(CREATION, Int(t.creation)), Field(ID, Int(t.id.Unsigned())),
                                       Field(NODE, Means(f, t.node).value), Field(SERIAL, Int(t.serial.Unsigned()))]))
  {
    hide Record, Text, Word.Signed, Word.Unsigned;
    if Means(f, t.node).Some? {
      RecordOfPid(t.creation, t.id.Unsigned(), Means(f, t.node).value, t.serial.Unsigned());
    }
  }

  lemma {:induction false} PidIsRead(f: Foreign, t: Term, r: seq<Byte>)
    requires Fits(t) && t.Pid?
    ensures Yields(Inner(f, Written(t) + r), Means(f, t), r)
    decreases t, 2
  {
    hide Written, Means, Word.Unsigned, Word.Signed, Word.Bytes, Read32;
    var end := [t.creation] + r;
    var serial := t.serial.Bytes() + end;
    TermIsRead(f, t.node, t.id.Bytes() + serial);
    PidForm(f, t, r);
    ReadWords(t.id, serial);
    ReadWords(t.serial, end);
  }

  lemma ExportForm(t: Term, r: seq<Byte>)
    requires Fits(t) && t.Export?
    ensures Written(t) + r == [113] + (Written(t.mod) + (Written(t.fun) + (Written(t.arity) + r)))
  {
  }

  lemma ExportMeans(f: Foreign, t: Term)
    requires t.Export?
    ensures Means(f, t).Some? <==> Means(f, t.mod).Some? && Means(f, t.fun).Some? && Means(f, t.arity).Some?
    ensures Means(f, t).Some? ==>
              Means(f, t).value == Obj([Field(ARITY, Means(f, t.arity).value),
                                        Field(FUN, Means(f, t.fun).value),
                                        Field(MOD, Means(f, t.mod).value)])
  {
    hide Record, Text;
    NamesOfFields();
    if Means(f, t).Some? {
      RecordOfThree("arity", Means(f, t.arity).value, "fun", Means(f, t.fun).value, "mod", Means(f, t.mod).value);
    }
  }

  lemma {:induction false} ExportIsRead(f: Foreign, t: Term, r: seq<Byte>)
    requires Fits(t) && t.Export?
    ensures Yields(Inner(f, Written(t) + r), Means(f, t), r)
    decreases t, 2
  {
    hide Written, Means;
    TermIsRead(f, t.mod, Written(t.fun) + (Written(t.arity) + r));
    TermIsRead(f, t.fun, Written(t.arity) + r);
    TermIsRead(f, t.arity, r);
    ExportForm(t, r);
    ExportMeans(f, t);
  }

  /** A message is the version byte and a term. */
  lemma MessageIsRead(f: Foreign, t: Term, r: seq<Byte>)
    requires Fits(t)
    ensures Yields(Message(f, [131] + Written(t) + r), Means(f, t), r)
  {
    hide Inner, Means, Written;
    TermIsRead(f, t, r);
    assert ([131] + Written(t) + r)[1..] == Written(t) + r;
  }

  /** A message with another version, or with none, is refused. */
  lemma OtherVersionsAreRefused(f: Foreign, input: seq<Byte>)
    requires input == [] || input[0] != 131
    ensures Message(f, input).Fail?
  {
  }

  /** Text that is cut short reads as null, with what there is of it left to be read again. */
  lemma TextCutShort(f: Foreign, n: nat, s: seq<Byte>)
    requires |s| < n
    ensures n < 256 ==> Inner(f, [115, n] + s) == Got(Null, s)
    ensures n < 65536 ==> Inner(f, [100] + Two(n) + s) == Got(Null, s)
    ensures n < 4294967296 ==> Inner(f, [109] + Four(n) + s) == Got(Null, s)
  {
    hide Inner, Scalar, Two, Four;
    ScalarCutShort(f, n, s);
    if n < 256 {
      InnerScalar(f, [115, n] + s);
      assert ([115, n] + s)[1..] == [n] + s;
    }
    if n < 65536 {
      InnerScalar(f, [100] + Two(n) + s);
      assert ([100] + Two(n) + s)[1..] == Two(n) + s;
    }
    if n < 4294967296 {
      InnerScalar(f, [109] + Four(n) + s);
      assert ([109] + Four(n) + s)[1..] == Four(n) + s;
    }
  }

  lemma ScalarCutShort(f: Foreign, n: nat, s: seq<Byte>)
    requires |s| < n
    ensures n < 256 ==> Scalar(f, 115, [n] + s) == Got(Null, s)
    ensures n < 65536 ==> Scalar(f, 100, Two(n) + s) == Got(Null, s)
    ensures n < 4294967296 ==> Scalar(f, 109, Four(n) + s) == Got(Null, s)
  {
    hide Two, Four, Read16, Read32;
    if n < 65536 { ReadTwo(n, s); }
    if n < 4294967296 { ReadFour(n, s); }
  }

  /** So does the text of a number; a byte list that is cut short is refused. */
  lemma CutShort(f: Foreign, n: nat, s: seq<Byte>)
    requires |s| < n
    ensures n < 65536 ==> Inner(f, [107] + Two(n) + s).Fail?
    ensures |s| < 31 ==> Inner(f, [99] + s) == Got(Null, s)
  {
    hide Inner, FromBe16, FromBe32;
    InnerScalar(f, [99] + s);
    assert ([99] + s)[1..] == s;
    if n < 65536 {
      InnerScalar(f, [107] + Two(n) + s);
      ReadTwo(n, s);
      assert ([107] + Two(n) + s)[1..] == Two(n) + s;
    }
  }

  /** The tags that no term has, and distribution headers, are refused. */
  lemma OtherTagsAreRefused(f: Foreign, tag: Byte, r: seq<Byte>)
    requires tag !in {70, 80, 97, 98, 99, 100, 101, 102, 103, 104, 105, 106, 107, 108, 109, 110, 111, 113, 114, 115, 116}
    ensures Inner(f, [tag] + r) == Fail(if tag == 68 then Distribution else UnknownType)
  {
  }

  // ------------------------------------------------------------ key order

  /** The order of keys: at the first place where they differ, or the shorter first. */
  lemma {:induction false} KeyLessExactly(a: seq<Byte>, b: seq<Byte>)
    ensures KeyLess(a, b) <==>
              exists i: nat :: i <= |a| && i < |b| && a[..i] == b[..i] && (i == |a| || a[i] < b[i])
  {
    if b != [] && a != [] && a[0] == b[0] {
      KeyLessExactly(a[1..], b[1..]);
      if i: nat :| && i <= |a[1..]| && i < |b[1..]| && a[1..][..i] == b[1..][..i]
                   && (i == |a[1..]| || a[1..][i] < b[1..][i]) {
        assert a[..i + 1] == [a[0]] + a[1..][..i] && b[..i + 1] == [b[0]] + b[1..][..i];
        assert i + 1 == |a| || a[i + 1] < b[i + 1];
      }
      if i: nat :| i <= |a| && i < |b| && a[..i] == b[..i] && (i == |a| || a[i] < b[i]) {
        assert i > 0;
        assert a[1..][..i - 1] == a[..i][1..] && b[1..][..i - 1] == b[..i][1..];
        assert i - 1 == |a[1..]| || a[1..][i - 1] < b[1..][i - 1];
      }
    } else if b != [] && a == [] {
      assert a[..0] == b[..0];
    } else if b != [] && a[0] < b[0] {
      assert a[..0] == b[..0];
    } else if b != [] {
      PrefixHeads(a, b);
    }
  }

  lemma PrefixHeads(a: seq<Byte>, b: seq<Byte>)
    ensures forall i: nat :: 0 < i <= |a| && i <= |b| && a[..i] == b[..i] ==> a[0] == b[0]
  {
    assert forall i: nat :: 0 < i <= |a| ==> a[..i][0] == a[0];
    assert forall i: nat :: 0 < i <= |b| ==> b[..i][0] == b[0];
  }

  lemma {:induction false} KeyLessTotal(a: seq<Byte>, b: seq<Byte>)
    ensures KeyLess(a, b) || a == b || KeyLess(b, a)
  {
    if a != [] && b != [] && a[0] == b[0] {
      KeyLessTotal(a[1..], b[1..]);
      assert a == [a[0]] + a[1..] && b == [b[0]] + b[1..];
    }
  }

  /** What emplace does to a sorted list: it stays sorted, and gains the field exactly when its key is new. */
  lemma {:induction false} EmplaceExactly(fields: seq<Field>, key: seq<Byte>, value: Json)
    requires KeysSorted(fields)
    ensures KeysSorted(Emplace(fields, key, value))
    ensures forall x :: x in Emplace(fields, key, value) <==>
              x in fields || (x == Field(key, value) && !HasKey(fields, key))
  {
    hide KeyLess;
    if fields == [] {
    } else if fields[0].key == key {
    } else {
      KeyLessTotal(key, fields[0].key);
      var rest := fields[1..];
      forall i | 0 <= i < |rest| ensures KeyLess(fields[0].key, rest[i].key) { assert rest[i] == fields[i + 1]; }
      if KeyLess(key, fields[0].key) {
        forall i | 0 <= i < |fields|
          ensures KeyLess(key, fields[i].key) && fields[i].key != key
        {
          if i > 0 { KeyLessTransitive(key, fields[0].key, fields[i].key); }
          KeyLessIrreflexive(key);
        }
      } else {
        EmplaceExactly(rest, key, value);
        assert HasKey(fields, key) <==> HasKey(rest, key) by {
          if HasKey(fields, key) {
            var i :| 0 <= i < |fields| && fields[i].key == key;
            assert rest[i - 1].key == key;
          }
          if HasKey(rest, key) {
            var i :| 0 <= i < |rest| && rest[i].key == key;
            assert fields[i + 1].key == key;
          }
        }
        var q := Emplace(rest, key, value);
        forall i | 0 <= i < |q| ensures KeyLess(fields[0].key, q[i].key) {
          assert q[i] in q;
        }
      }
    }
  }

  // ----------------------------------------------------------- the encoder

  /** The low 32 bits of n. */
  function WordOf(n: int): Word
  {
    Word(n / 16777216 % 256, n / 65536 % 256, n / 256 % 256, n % 256)
  }

  function IntTerm(n: Int64): Term
  {
    if 0 <= n < 128 then SmallInteger(n)
    else if n < 4294967294 then Integer(WordOf(n))
    else SmallBig(0, LittleEndian(n))
  }

  /** The term the encoder picks for a value. */
  function TermOf(v: Json): Term
    decreases v, 1
  {
    match v
    case Null => SmallAtom(Text("nil"))
    case Bool(b) => SmallAtom(if b then Text("true") else Text("false"))
    case Int(n) => IntTerm(n)
    case Num(bits) => Double(WordOf(bits / 4294967296), WordOf(bits))
    case Str(s) => Binary(s)
    case Arr(items) => List(TermsOf(items), 106)
    case Obj(fields) => Map(PairsOf(fields))
  }

  function TermsOf(items: seq<Json>): (r: seq<Term>)
    ensures |r| == |items|
    decreases items, 0
  {
    if items == [] then [] else [TermOf(items[0])] + TermsOf(items[1..])
  }

  function PairsOf(fields: seq<Field>): (r: seq<Pair>)
    ensures |r| == |fields|
    decreases fields, 0
  {
    if fields == [] then []
    else [Pair(Binary(fields[0].key), TermOf(fields[0].value))] + PairsOf(fields[1..])
  }

  lemma WordOfBytes(n: int)
    ensures Be32(n) == WordOf(n).Bytes()
  {
    assert n / 65536 / 256 == n / 16777216;
  }

  lemma FourBytesOf(n: nat)
    requires n < 4294967296
    ensures Be32(n) == Four(n)
  {
    WordOfBytes(n);
  }

  /** Every integer is written as its term. */
  lemma IntIsWritten(n: Int64)
    ensures Fits(IntTerm(n)) && EncInt(n) == Written(IntTerm(n))
  {
    hide LittleEndian, Be32;
    WordOfBytes(n);
    if n >= 4294967294 { BigIntDigits(n); }
  }

  /** The encoder writes every value it carries as one such term. */
  lemma {:induction false} ValueIsWritten(v: Json)
    requires RoundTrips(v)
    ensures Fits(TermOf(v)) && Enc(v) == Some(Written(TermOf(v)))
    decreases v, 1
  {
    match v {
      case Null => { assert Written(SmallAtom(Text("nil"))) == NIL_ATOM; }
      case Bool(b) => {
        assert Written(SmallAtom(Text("true"))) == TRUE_ATOM;
        assert Written(SmallAtom(Text("false"))) == FALSE_ATOM;
      }
      case Int(n) => IntIsWritten(n);
      case Num(bits) => {
        WordOfBytes(bits / 4294967296);
        WordOfBytes(bits);
        assert [70] + Be64(bits) == Written(TermOf(v));
      }
      case Str(s) => FourBytesOf(|s|);
      case Arr(items) => {
        ItemsAreWritten(items);
        ListIsWritten(items);
      }
      case Obj(fields) => {
        FieldsAreWritten(fields);
        FourBytesOf(|fields|);
      }
    }
  }

  lemma ListIsWritten(items: seq<Json>)
    requires 0 < |items| < TWO_32 - 1 && AllFit(TermsOf(items))
    requires EncItems(items) == Some(AllWritten(TermsOf(items)))
    ensures Enc(Arr(items)) == Some(Written(List(TermsOf(items), 106)))
  {
    hide Enc, Written, EncItems, AllWritten, TermsOf, Be32, Four;
    FourBytesOf(|items|);
    EncList(items);
    WrittenList(TermsOf(items));
  }

  lemma EncList(items: seq<Json>)
    requires 0 < |items| < TWO_32 - 1 && EncItems(items).Some?
    ensures Enc(Arr(items)) == Some([108] + Be32(|items|) + EncItems(items).value + [106])
  {
    hide EncItems, Be32;
    assert [] + [108] == [108];
  }

  lemma WrittenList(terms: seq<Term>)
    requires |terms| < TWO_32 && AllFit(terms)
    ensures Written(List(terms, 106)) == [108] + Four(|terms|) + AllWritten(terms) + [106]
  {
    hide AllWritten, AllFit, Four, Two, PairsWritten, PairsFit, WordsWritten, Word.Bytes;
    var t := List(terms, 106);
    assert t.terms == terms && t.tail == 106;
  }

  lemma {:induction false} ItemsAreWritten(items: seq<Json>)
    requires RoundTripsItems(items)
    ensures AllFit(TermsOf(items)) && EncItems(items) == Some(AllWritten(TermsOf(items)))
    decreases items, 0
  {
    if items != [] {
      ValueIsWritten(items[0]);
      ItemsAreWritten(items[1..]);
      assert TermsOf(items)[1..] == TermsOf(items[1..]);
    }
  }

  lemma {:induction false} FieldsAreWritten(fields: seq<Field>)
    requires RoundTripsFields(fields)
    ensures PairsFit(PairsOf(fields)) && EncFields(fields) == Some(PairsWritten(PairsOf(fields)))
    decreases fields, 0
  {
    if fields != [] {
      FourBytesOf(|fields[0].key|);
      ValueIsWritten(fields[0].value);
      FieldsAreWritten(fields[1..]);
      var p := PairsOf(fields)[0];
      assert PairsOf(fields)[1..] == PairsOf(fields[1..]);
      assert Written(p.key) == EncStr(fields[0].key);
    }
  }

  /** An empty array is written as a nil and then as a list of nothing. */
  lemma EmptyArrayIsWrittenTwice()
    ensures Enc(Arr([])) == Some(Written(Nil) + Written(List([], 106)))
  {
    EmptyArrayBytes();
    assert Written(List([], 106)) == EMPTY_LIST;
  }
}
