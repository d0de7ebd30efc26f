/**
 * The External Term Format as the codec in dep/dpp/etf.cpp reads and writes it:
 * JSON values, the bytes that stand for them, and the value that each byte
 * string stands for. The classes in EtfCodec.dfy are proved to compute these
 * functions; EtfTheorems.dfy proves how the two directions fit together.
 */
module EtfFormat {
  import opened Bytes

  type Int64 = n: int | -TWO_63 <= n < TWO_63
  type Bits64 = n: int | 0 <= n < TWO_64

  /**
   * A JSON value. A floating point number is the 64-bit pattern of a double,
   * and an object is the sorted sequence of its fields, as std::map keeps it.
   */
  datatype Json =
    | Null
    | Bool(b: bool)
    | Int(n: Int64)
    | Num(bits: Bits64)
    | Str(s: seq<Byte>)
    | Arr(items: seq<Json>)
    | Obj(fields: seq<Field>)

  datatype Field = Field(key: seq<Byte>, value: Json)

  datatype EtfError =
    | PastEnd | BadVersion | Distribution | UnknownType
    | BigIntTooLong | StringListPastEnd | KeyNotString
    | Compressed

  /** The outcome of reading from a byte string: a value and the bytes left over, or an exception. */
  datatype Parsed<+T> = Got(value: T, rest: seq<Byte>) | Fail(error: EtfError) {
    predicate IsFailure() { Fail? }
    function PropagateFailure<U>(): Parsed<U>
      requires Fail?
    {
      Fail(error)
    }
    function Extract(): (T, seq<Byte>)
      requires Got?
    {
      (value, rest)
    }
  }

  /** The C library calls the decoder makes: sscanf("%lf") and the cast of a double to uint64_t. */
  datatype Foreign = Foreign(scanDouble: seq<Byte> -> Option<Bits64>, doubleToU64: Bits64 -> Bits64)

  const FORMAT_VERSION: Byte := 131
  const ETT_DISTRIBUTION: Byte := 68
  const ETT_NEW_FLOAT: Byte := 70
  const ETT_COMPRESSED: Byte := 80
  const ETT_SMALLINT: Byte := 97
  const ETT_INTEGER: Byte := 98
  const ETT_FLOAT: Byte := 99
  const ETT_ATOM: Byte := 100
  const ETT_REFERENCE: Byte := 101
  const ETT_PORT: Byte := 102
  const ETT_PID: Byte := 103
  const ETT_SMALL_TUPLE: Byte := 104
  const ETT_LARGE_TUPLE: Byte := 105
  const ETT_NIL: Byte := 106
  const ETT_STRING: Byte := 107
  const ETT_LIST: Byte := 108
  const ETT_BINARY: Byte := 109
  const ETT_BIGINT_SMALL: Byte := 110
  const ETT_BIGINT_LARGE: Byte := 111
  const ETT_EXPORT: Byte := 113
  const ETT_NEW_REFERENCE: Byte := 114
  const ETT_ATOM_SMALL: Byte := 115
  const ETT_MAP: Byte := 116

  const FLOAT_LENGTH := 31

  // ---------------------------------------------------------------- encoding

  const NIL_ATOM: seq<Byte> := [ETT_ATOM_SMALL, 3, 110, 105, 108]
  const TRUE_ATOM: seq<Byte> := [ETT_ATOM_SMALL, 4, 116, 114, 117, 101]
  const FALSE_ATOM: seq<Byte> := [ETT_ATOM_SMALL, 5, 102, 97, 108, 115, 101]

  /** An integer: one byte, a 32-bit word, or a big integer, by size. */
  function EncInt(n: Int64): seq<Byte>
  {
    if 0 <= n <= 127 then [ETT_SMALLINT, n]
    else if n >= TWO_32 - 2 then
      var digits := LittleEndian(n);
      [ETT_BIGINT_SMALL, |digits| % 256, 0] + digits
    else [ETT_INTEGER] + Be32(n)
  }

  function EncStr(s: seq<Byte>): seq<Byte>
  {
    [ETT_BINARY] + Be32(|s|) + s
  }

  /** The bytes of a value, or None when the encoder throws. */
  function Enc(v: Json): Option<seq<Byte>>
    decreases v, 1
  {
    match v
    case Null => Some(NIL_ATOM)
    case Bool(b) => Some(if b then TRUE_ATOM else FALSE_ATOM)
    case Int(n) => Some(EncInt(n))
    case Num(bits) => Some([ETT_NEW_FLOAT] + Be64(bits))
    case Str(s) => Some(EncStr(s))
    case Arr(items) =>
      if |items| > TWO_32 - 2 then None
      else
        (match EncItems(items)
         case None => None
         case Some(b) =>
           Some((if items == [] then [ETT_NIL] else []) + [ETT_LIST] + Be32(|items|) + b + [ETT_NIL]))
    case Obj(fields) =>
      if |fields| > TWO_32 - 2 then None
      else
        (match EncFields(fields)
         case None => None
         case Some(b) => Some([ETT_MAP] + Be32(|fields|) + b))
  }

  function EncItems(items: seq<Json>): Option<seq<Byte>>
    decreases items, 0
  {
    if items == [] then Some([])
    else
      match (Enc(items[0]), EncItems(items[1..]))
      case (Some(a), Some(b)) => Some(a + b)
      case _ => None
  }

  function EncFields(fields: seq<Field>): Option<seq<Byte>>
    decreases fields, 0
  {
    if fields == [] then Some([])
    else
      match (Enc(fields[0].value), EncFields(fields[1..]))
      case (Some(a), Some(b)) => Some(EncStr(fields[0].key) + a + b)
      case _ => None
  }

  // ---------------------------------------------------------------- decoding

  function Read8(r: seq<Byte>): Parsed<Byte>
  {
    if |r| < 1 then Fail(PastEnd) else Got(r[0], r[1..])
  }

  function Read16(r: seq<Byte>): Parsed<nat>
  {
    if |r| < 2 then Fail(PastEnd) else Got(FromBe16(r[..2]), r[2..])
  }

  function Read32(r: seq<Byte>): Parsed<nat>
  {
    if |r| < 4 then Fail(PastEnd) else Got(FromBe32(r[..4]), r[4..])
  }

  function Read64(r: seq<Byte>): Parsed<nat>
  {
    if |r| < 8 then Fail(PastEnd) else Got(FromBe64(r[..8]), r[8..])
  }

  /** The next n bytes. When there are fewer, nothing is consumed and there is no exception. */
  function ReadString(r: seq<Byte>, n: nat): Parsed<Option<seq<Byte>>>
  {
    if |r| < n then Got(None, r) else Got(Some(r[..n]), r[n..])
  }

  /** The constants an atom can name; any other atom is a string. */
  function ProcessAtom(atom: Option<seq<Byte>>): Json
  {
    match atom
    case None => Null
    case Some(a) =>
      if a == [110, 117, 108, 108] then Null              // null
      else if a == [116, 114, 117, 101] then Bool(true)   // true
      else if a == [110, 105, 108] then Null              // nil
      else if a == [102, 97, 108, 115, 101] then Bool(false)  // false
      else Str(a)
  }

  function StrOrNull(s: Option<seq<Byte>>): Json
  {
    match s
    case None => Null
    case Some(b) => Str(b)
  }

  /** The numeral the decoder gives for a big integer of up to 8 digits. */
  function BigIntValue(digits: nat, sign: Byte, value: nat): Json
  {
    if digits <= 4 && sign == 0 then Str(Decimal(value % TWO_32))
    else if digits <= 4 && value / TWO_31 % 2 == 0 then Str(Decimal(-ToInt32(value)))
    else if sign == 0 then Str(Decimal(value % TWO_64))
    else Str(Decimal(ToInt64(-ToInt64(value))))
  }

  function BigInt(r: seq<Byte>, digits: nat): Parsed<Json>
  {
    var (sign, r1) :- Read8(r);
    if digits > 8 then Fail(BigIntTooLong)
    else if |r1| < digits then Fail(PastEnd)
    else Got(BigIntValue(digits, sign, FromLittleEndian(r1[..digits])), r1[digits..])
  }

  /** Each of the next n bytes as a number. */
  function ByteInts(b: seq<Byte>): seq<Json>
  {
    seq(|b|, i requires 0 <= i < |b| => Int(b[i]))
  }

  function StringAsList(r: seq<Byte>): Parsed<Json>
  {
    var (n, r1) :- Read16(r);
    if |r1| < n then Fail(StringListPastEnd) else Got(Arr(ByteInts(r1[..n])), r1[n..])
  }

  /** The values whose tag is followed by no other value. */
  function Scalar(f: Foreign, tag: Byte, r: seq<Byte>): Parsed<Json>
  {
    if tag == ETT_SMALLINT then var (d, r1) :- Read8(r); Got(Int(d), r1)
    else if tag == ETT_INTEGER then var (d, r1) :- Read32(r); Got(Int(ToInt32(d)), r1)
    else if tag == ETT_FLOAT then
      var (s, r1) :- ReadString(r, FLOAT_LENGTH);
      Got(if s.None? then Null
          else match f.scanDouble(s.value) case None => Null case Some(bits) => Num(bits), r1)
    else if tag == ETT_NEW_FLOAT then var (d, r1) :- Read64(r); Got(Num(d % TWO_64), r1)
    else if tag == ETT_ATOM then
      var (n, r1) :- Read16(r); var (s, r2) :- ReadString(r1, n); Got(ProcessAtom(s), r2)
    else if tag == ETT_ATOM_SMALL then
      var (n, r1) :- Read8(r); var (s, r2) :- ReadString(r1, n); Got(ProcessAtom(s), r2)
    else if tag == ETT_NIL then Got(Arr([]), r)
    else if tag == ETT_STRING then StringAsList(r)
    else if tag == ETT_BINARY then
      var (n, r1) :- Read32(r); var (s, r2) :- ReadString(r1, n); Got(StrOrNull(s), r2)
    else if tag == ETT_BIGINT_SMALL then var (n, r1) :- Read8(r); BigInt(r1, n)
    else if tag == ETT_BIGINT_LARGE then var (n, r1) :- Read32(r); BigInt(r1, n)
    else if tag == ETT_DISTRIBUTION then Fail(Distribution)
    else if tag == ETT_COMPRESSED then Fail(Compressed)
    else Fail(UnknownType)
  }

  /** n 32-bit words, each cast to int32_t. */
  function Words(r: seq<Byte>, n: nat, acc: seq<Json>): Parsed<seq<Json>>
  {
    if n == 0 then Got(acc, r)
    else
      var (w, r1) :- Read32(r);
      Words(r1, n - 1, acc + [Int(ToInt32(w))])
  }

  /** Lexicographic order on keys, as std::string compares them. */
  predicate KeyLess(a: seq<Byte>, b: seq<Byte>)
  {
    if b == [] then false
    else if a == [] then true
    else a[0] < b[0] || (a[0] == b[0] && KeyLess(a[1..], b[1..]))
  }

  /** std::map::emplace: add the field in key order unless the key is there already. */
  function Emplace(fields: seq<Field>, key: seq<Byte>, value: Json): seq<Field>
  {
    if fields == [] then [Field(key, value)]
    else if fields[0].key == key then fields
    else if KeyLess(key, fields[0].key) then [Field(key, value)] + fields
    else [fields[0]] + Emplace(fields[1..], key, value)
  }

  /** The string a map key is stored under: a number's numeral, a string as it is. */
  function KeyText(f: Foreign, key: Json): Option<seq<Byte>>
  {
    match key
    case Int(n) => Some(Decimal(n % TWO_64))
    case Num(bits) => Some(Decimal(f.doubleToU64(bits)))
    case Str(s) => Some(s)
    case _ => None
  }

  /** An object with the given fields, or null when there is none. */
  function MapValue(fields: seq<Field>): Json
  {
    if fields == [] then Null else Obj(fields)
  }

  const NODE: seq<Byte> := [110, 111, 100, 101]
  const ID: seq<Byte> := [105, 100]
  const CREATION: seq<Byte> := [99, 114, 101, 97, 116, 105, 111, 110]
  const SERIAL: seq<Byte> := [115, 101, 114, 105, 97, 108]
  const MOD: seq<Byte> := [109, 111, 100]
  const FUN: seq<Byte> := [102, 117, 110]
  const ARITY: seq<Byte> := [97, 114, 105, 116, 121]

  function ReferenceValue(node: Json, ids: seq<Json>, creation: Byte): Json
  {
    Obj([Field(CREATION, Int(creation)), Field(ID, Arr(ids)), Field(NODE, node)])
  }

  predicate IsComposite(tag: Byte)
  {
    tag in {ETT_SMALL_TUPLE, ETT_LARGE_TUPLE, ETT_LIST, ETT_MAP,
            ETT_REFERENCE, ETT_NEW_REFERENCE, ETT_PORT, ETT_PID, ETT_EXPORT}
  }

  /** One value from the front of r. */
  function Inner(f: Foreign, r: seq<Byte>): (p: Parsed<Json>)
    ensures p.Got? ==> |p.rest| < |r|
    decreases |r|, 0
  {
    if |r| == 0 then Fail(PastEnd)
    else if IsComposite(r[0]) then Composite(f, r)
    else ScalarShrinks(f, r[0], r[1..]); Scalar(f, r[0], r[1..])
  }

  /** A value whose tag, the first byte of r, is followed by other values. */
  function Composite(f: Foreign, r: seq<Byte>): (p: Parsed<Json>)
    requires |r| > 0
    ensures p.Got? ==> |p.rest| < |r|
    decreases |r| - 1, 2
  {
    var tag, r0 := r[0], r[1..];
    if tag == ETT_SMALL_TUPLE then
      var (n, r1) :- Read8(r0);
      var (vs, r2) :- Items(f, r1, n, []);
      Got(Arr(vs), r2)
    else if tag == ETT_LARGE_TUPLE then
      var (n, r1) :- Read32(r0);
      var (vs, r2) :- Items(f, r1, n, []);
      Got(Arr(vs), r2)
    else if tag == ETT_LIST then
      var (n, r1) :- Read32(r0);
      var (vs, r2) :- Items(f, r1, n, []);
      var (tail, r3) :- Read8(r2);
      Got(if tail == ETT_NIL then Arr(vs) else Null, r3)
    else if tag == ETT_MAP then
      var (n, r1) :- Read32(r0);
      var (fields, r2) :- Pairs(f, r1, n, []);
      Got(MapValue(fields), r2)
    else if tag == ETT_REFERENCE then
      var (node, r1) :- Inner(f, r0);
      var (ids, r2) :- Words(r1, 1, []);
      var (creation, r3) :- Read8(r2);
      WordsShrink(r1, 1, []);
      Got(ReferenceValue(node, ids, creation), r3)
    else if tag == ETT_NEW_REFERENCE then
      var (n, r1) :- Read16(r0);
      var (node, r2) :- Inner(f, r1);
      var (creation, r3) :- Read8(r2);
      var (ids, r4) :- Words(r3, n, []);
      WordsShrink(r3, n, []);
      Got(ReferenceValue(node, ids, creation), r4)
    else if tag == ETT_PORT then
      var (node, r1) :- Inner(f, r0);
      var (id, r2) :- Read32(r1);
      var (creation, r3) :- Read8(r2);
      Got(Obj([Field(CREATION, Int(creation)), Field(ID, Int(id)), Field(NODE, node)]), r3)
    else if tag == ETT_PID then
      var (node, r1) :- Inner(f, r0);
      var (id, r2) :- Read32(r1);
      var (serial, r3) :- Read32(r2);
      var (creation, r4) :- Read8(r3);
      Got(Obj([Field(CREATION, Int(creation)), Field(ID, Int(id)),
               Field(NODE, node), Field(SERIAL, Int(serial))]), r4)
    else
      var (mod, r1) :- Inner(f, r0);
      var (fun, r2) :- Inner(f, r1);
      var (arity, r3) :- Inner(f, r2);
      Got(Obj([Field(ARITY, arity), Field(FUN, fun), Field(MOD, mod)]), r3)
  }

  /** n values in a row, after those in acc. */
  function Items(f: Foreign, r: seq<Byte>, n: nat, acc: seq<Json>): (p: Parsed<seq<Json>>)
    ensures p.Got? ==> |p.rest| <= |r|
    decreases |r|, 1, n
  {
    if n == 0 then Got(acc, r)
    else
      var (v, r1) :- Inner(f, r);
      Items(f, r1, n - 1, acc + [v])
  }

  /** n keys and values in a row, added to the fields in acc. */
  function Pairs(f: Foreign, r: seq<Byte>, n: nat, acc: seq<Field>): (p: Parsed<seq<Field>>)
    ensures p.Got? ==> |p.rest| <= |r|
    decreases |r|, 1, n
  {
    if n == 0 then Got(acc, r)
    else
      var (key, r1) :- Inner(f, r);
      match KeyText(f, key)
      case None => Fail(KeyNotString)
      case Some(k) =>
        var (v, r2) :- Inner(f, r1);
        Pairs(f, r2, n - 1, Emplace(acc, k, v))
  }

  /** A whole message: the version byte, then one value. What follows it is not looked at. */
  function Message(f: Foreign, input: seq<Byte>): Parsed<Json>
  {
    var (version, r) :- Read8(input);
    if version == FORMAT_VERSION then Inner(f, r) else Fail(BadVersion)
  }

  lemma ScalarShrinks(f: Foreign, tag: Byte, r: seq<Byte>)
    ensures var p := Scalar(f, tag, r); p.Got? ==> |p.rest| <= |r|
  {
  }

  lemma {:induction false} WordsShrink(r: seq<Byte>, n: nat, acc: seq<Json>)
    ensures var p := Words(r, n, acc); p.Got? ==> |p.rest| == |r| - 4 * n && |p.value| == |acc| + n
  {
    if n != 0 && |r| >= 4 {
      WordsShrink(r[4..], n - 1, acc + [Int(ToInt32(FromBe32(r[..4])))]);
    }
  }
}
