/**
 * The codec as dep/dpp/etf.cpp runs it: an encoder that appends to a buffer it
 * grows, and a decoder that moves an offset along its input. Each method is
 * proved to compute the function of EtfFormat.dfy that it is named after.
 */
module EtfCodec {
  import opened Bytes
  import opened EtfFormat

  lemma {:induction false} EncItemsAppend(items: seq<Json>, i: nat)
    requires i < |items|
    ensures var a, b := EncItems(items[..i]), Enc(items[i]);
            EncItems(items[..i + 1]) ==
              if a.Some? && b.Some? then Some(a.value + b.value) else None
    decreases i
  {
    hide Enc;
    var s := items[..i + 1];
    if i == 0 {
      assert s == [items[0]] && s[1..] == [];
      assert items[..0] == [];
      assert b0: EncItems([]) == Some([]);
      if Enc(items[0]).Some? {
        assert Enc(items[0]).value + [] == [] + Enc(items[0]).value;
      }
    } else {
      EncItemsAppend(items[1..], i - 1);
      assert items[1..][..i - 1] == items[..i][1..];
      assert items[1..][..i] == s[1..];
      if Enc(items[0]).Some? && EncItems(items[..i][1..]).Some? && Enc(items[i]).Some? {
        assert Enc(items[0]).value + (EncItems(items[..i][1..]).value + Enc(items[i]).value)
            == Enc(items[0]).value + EncItems(items[..i][1..]).value + Enc(items[i]).value;
      }
    }
  }

  /** When a prefix of the items cannot be encoded, the items cannot. */
  lemma {:induction false} EncItemsPrefix(items: seq<Json>, i: nat)
    requires i <= |items| && EncItems(items[..i]).None?
    ensures EncItems(items).None?
    decreases |items| - i
  {
    if i < |items| {
      EncItemsAppend(items, i);
      EncItemsPrefix(items, i + 1);
    } else {
      assert items[..i] == items;
    }
  }

  lemma {:induction false} EncFieldsAppend(fields: seq<Field>, i: nat)
    requires i < |fields|
    ensures var a, b := EncFields(fields[..i]), Enc(fields[i].value);
            EncFields(fields[..i + 1]) ==
              if a.Some? && b.Some? then Some(a.value + (EncStr(fields[i].key) + b.value)) else None
    decreases i
  {
    hide Enc, EncStr;
    var s := fields[..i + 1];
    if i == 0 {
      assert s == [fields[0]] && s[1..] == [];
      assert fields[..0] == [];
      if Enc(fields[0].value).Some? {
        assert EncStr(fields[0].key) + Enc(fields[0].value).value + []
            == [] + (EncStr(fields[0].key) + Enc(fields[0].value).value);
      }
    } else {
      EncFieldsAppend(fields[1..], i - 1);
      assert fields[1..][..i - 1] == fields[..i][1..];
      assert fields[1..][..i] == s[1..];
      var x, k := EncFields(fields[..i][1..]), EncStr(fields[i].key);
      if Enc(fields[0].value).Some? && x.Some? && Enc(fields[i].value).Some? {
        var h := EncStr(fields[0].key) + Enc(fields[0].value).value;
        var y := k + Enc(fields[i].value).value;
        assert h + (x.value + y) == h + x.value + y;
      }
    }
  }

  lemma {:induction false} EncFieldsPrefix(fields: seq<Field>, i: nat)
    requires i <= |fields| && EncFields(fields[..i]).None?
    ensures EncFields(fields).None?
    decreases |fields| - i
  {
    if i < |fields| {
      EncFieldsAppend(fields, i);
      EncFieldsPrefix(fields, i + 1);
    } else {
      assert fields[..i] == fields;
    }
  }

  /** done is the encoding of the first i items. */
  ghost predicate ItemsDone(items: seq<Json>, i: nat, done: seq<Byte>)
  {
    i <= |items| && EncItems(items[..i]) == Some(done)
  }

  lemma ItemsStart(items: seq<Json>)
    ensures ItemsDone(items, 0, [])
    ensures forall done :: ItemsDone(items, |items|, done) ==> EncItems(items) == Some(done)
  {
    assert items[..|items|] == items;
  }

  /** One more item behind those already encoded. */
  lemma ItemsNext(items: seq<Json>, i: nat, done: seq<Byte>)
    requires i < |items| && ItemsDone(items, i, done)
    ensures Enc(items[i]).Some? ==> ItemsDone(items, i + 1, done + Enc(items[i]).value)
    ensures Enc(items[i]).None? ==> EncItems(items).None?
  {
    hide Enc, EncItems;
    EncItemsAppend(items, i);
    if Enc(items[i]).None? { EncItemsPrefix(items, i + 1); }
  }

  ghost function EncField(field: Field): Option<seq<Byte>>
  {
    match Enc(field.value)
    case None => None
    case Some(b) => Some(EncStr(field.key) + b)
  }

  /** done is the encoding of the first i fields. */
  ghost predicate FieldsDone(fields: seq<Field>, i: nat, done: seq<Byte>)
  {
    i <= |fields| && EncFields(fields[..i]) == Some(done)
  }

  lemma FieldsStart(fields: seq<Field>)
    ensures FieldsDone(fields, 0, [])
    ensures forall done :: FieldsDone(fields, |fields|, done) ==> EncFields(fields) == Some(done)
  {
    assert fields[..|fields|] == fields;
  }

  /** One more field behind those already encoded. */
  lemma FieldsNext(fields: seq<Field>, i: nat, done: seq<Byte>)
    requires i < |fields| && FieldsDone(fields, i, done)
    ensures EncField(fields[i]).Some? ==> FieldsDone(fields, i + 1, done + EncField(fields[i]).value)
    ensures EncField(fields[i]).None? ==> EncFields(fields).None?
  {
    hide Enc, EncFields, EncStr;
    EncFieldsAppend(fields, i);
    if EncField(fields[i]).None? { EncFieldsPrefix(fields, i + 1); }
  }

  /** etf_buffer: a byte buffer and how much of it is in use. */
  class EtfBuffer {
    ghost var contents: seq<Byte>
    var buf: array<Byte>
    var length: nat

    ghost predicate Valid()
      reads this, buf
    {
      length <= buf.Length && contents == buf[..length]
    }

    constructor (initial: nat)
      ensures Valid() && fresh(buf) && contents == []
    {
      buf := new Byte[initial](_ => 0);
      length := 0;
      contents := [];
    }

    /** std::vector::resize to a larger size: the old bytes and then zeros. */
    method Grow(size: nat)
      requires Valid() && buf.Length <= size
      modifies this
      ensures Valid() && fresh(buf) && buf.Length == size && length == old(length)
      ensures contents == old(contents)
    {
      var bigger := new Byte[size](_ => 0);
      forall i | 0 <= i < buf.Length {
        bigger[i] := buf[i];
      }
      buf := bigger;
    }

    /** Append l, in a buffer of twice the size needed when it does not fit. */
    method Write(l: seq<Byte>)
      requires Valid()
      modifies this, buf
      ensures Valid() && (buf == old(buf) || fresh(buf))
      ensures contents == old(contents) + l
    {
      if length + |l| > buf.Length {
        Grow((length + |l|) * 2);
      }
      forall i | 0 <= i < |l| {
        buf[length + i] := l[i];
      }
      assert buf[..length] == contents;
      assert buf[length..length + |l|] == l;
      length := length + |l|;
      contents := contents + l;
    }

    method AppendNil()
      requires Valid()
      modifies this, buf
      ensures Valid() && (buf == old(buf) || fresh(buf))
      ensures contents == old(contents) + NIL_ATOM
    {
      Write(NIL_ATOM);
    }

    method AppendBool(b: bool)
      requires Valid()
      modifies this, buf
      ensures Valid() && (buf == old(buf) || fresh(buf))
      ensures contents == old(contents) + if b then TRUE_ATOM else FALSE_ATOM
    {
      if b { Write(TRUE_ATOM); } else { Write(FALSE_ATOM); }
    }

    method AppendSmallInteger(d: Byte)
      requires Valid()
      modifies this, buf
      ensures Valid() && (buf == old(buf) || fresh(buf))
      ensures contents == old(contents) + [ETT_SMALLINT, d]
    {
      Write([ETT_SMALLINT, d]);
    }

    method AppendInteger(d: int)
      requires Valid()
      modifies this, buf
      ensures Valid() && (buf == old(buf) || fresh(buf))
      ensures contents == old(contents) + ([ETT_INTEGER] + Be32(d))
    {
      Write([ETT_INTEGER] + Be32(d));
    }

    /** The digits come out least significant first, by dividing by 256 until nothing is left. */
    method AppendUnsignedLongLong(value: nat)
      requires Valid()
      modifies this, buf
      ensures Valid() && (buf == old(buf) || fresh(buf))
      ensures var digits := LittleEndian(value);
              contents == old(contents) + ([ETT_BIGINT_SMALL, |digits| % 256, 0] + digits)
    {
      var d, digits, count: nat := value, [], 0;
      while d > 0
        invariant count == |digits|
        invariant LittleEndian(value) == digits + LittleEndian(d)
      {
        digits := digits + [d % 256];
        d := d / 256;
        count := count + 1;
      }
      assert digits == LittleEndian(value);
      Write([ETT_BIGINT_SMALL, count % 256, 0] + digits);
    }

    method AppendDouble(bits: Bits64)
      requires Valid()
      modifies this, buf
      ensures Valid() && (buf == old(buf) || fresh(buf))
      ensures contents == old(contents) + ([ETT_NEW_FLOAT] + Be64(bits))
    {
      Write([ETT_NEW_FLOAT] + Be64(bits));
    }

    method AppendBinary(s: seq<Byte>)
      requires Valid()
      modifies this, buf
      ensures Valid() && (buf == old(buf) || fresh(buf))
      ensures contents == old(contents) + EncStr(s)
    {
      Write([ETT_BINARY] + Be32(|s|));
      Write(s);
    }

    method AppendNilExt()
      requires Valid()
      modifies this, buf
      ensures Valid() && (buf == old(buf) || fresh(buf))
      ensures contents == old(contents) + [ETT_NIL]
    {
      Write([ETT_NIL]);
    }

    method AppendHeader(tag: Byte, size: nat)
      requires Valid()
      modifies this, buf
      ensures Valid() && (buf == old(buf) || fresh(buf))
      ensures contents == old(contents) + ([tag] + Be32(size))
    {
      Write([tag] + Be32(size));
    }

    method AppendInt(n: Int64)
      requires Valid()
      modifies this, buf
      ensures Valid() && (buf == old(buf) || fresh(buf))
      ensures contents == old(contents) + EncInt(n)
    {
      if 0 <= n <= 127 {
        AppendSmallInteger(n);
      } else if n >= TWO_32 - 2 {
        AppendUnsignedLongLong(n);
      } else {
        AppendInteger(n);
      }
    }

    /**
     * Append the bytes of v. The result is false when the encoder throws; the
     * caller then drops the buffer.
     */
    method InnerBuild(v: Json) returns (ok: bool)
      requires Valid()
      modifies this, buf
      ensures Valid() && (buf == old(buf) || fresh(buf))
      ensures ok == Enc(v).Some?
      ensures ok ==> contents == old(contents) + Enc(v).value
      decreases v, 1
    {
      ok := true;
      match v
      case Int(n) => AppendInt(n);
      case Num(bits) => AppendDouble(bits);
      case Null => AppendNil();
      case Bool(b) => AppendBool(b);
      case Str(s) => AppendBinary(s);
      case Arr(items) => ok := BuildArray(items);
      case Obj(fields) => ok := BuildObject(fields);
    }

    method BuildArray(items: seq<Json>) returns (ok: bool)
      requires Valid()
      modifies this, buf
      ensures Valid() && (buf == old(buf) || fresh(buf))
      ensures ok == Enc(Arr(items)).Some?
      ensures ok ==> contents == old(contents) + Enc(Arr(items)).value
      decreases items, 1
    {
      hide EncItems, Be32;
      if |items| == 0 {
        AppendNilExt();
      } else if |items| > TWO_32 - 2 {
        return false;
      }
      AppendHeader(ETT_LIST, |items|);
      ok := BuildItems(items);
      if ok {
        AppendNilExt();
        ghost var nil := if items == [] then [ETT_NIL] else [];
        assert contents == old(contents) + (nil + [ETT_LIST] + Be32(|items|) + EncItems(items).value + [ETT_NIL]);
      }
    }

    /** The loop over the items of an array. */
    method BuildItems(items: seq<Json>) returns (ok: bool)
      requires Valid()
      modifies this, buf
      ensures Valid() && (buf == old(buf) || fresh(buf))
      ensures ok == EncItems(items).Some?
      ensures ok ==> contents == old(contents) + EncItems(items).value
      decreases items, 0
    {
      ghost var before := contents;
      ghost var done: seq<Byte> := [];
      ItemsStart(items);
      hide Enc, EncItems, ItemsDone;
      ok := true;
      var index := 0;
      while ok && index < |items|
        invariant index <= |items| && Valid() && (buf == old(buf) || fresh(buf))
        invariant ok ==> ItemsDone(items, index, done) && contents == before + done
        invariant !ok ==> EncItems(items).None?
        decreases |items| - index, ok
      {
        ItemsNext(items, index, done);
        ok := InnerBuild(items[index]);
        if ok { done := done + Enc(items[index]).value; }
        index := index + 1;
      }
    }

    method BuildObject(fields: seq<Field>) returns (ok: bool)
      requires Valid()
      modifies this, buf
      ensures Valid() && (buf == old(buf) || fresh(buf))
      ensures ok == Enc(Obj(fields)).Some?
      ensures ok ==> contents == old(contents) + Enc(Obj(fields)).value
      decreases fields, 1
    {
      if |fields| > TWO_32 - 2 {
        return false;
      }
      AppendHeader(ETT_MAP, |fields|);
      ok := BuildFields(fields);
      if ok {
        assert contents == old(contents) + ([ETT_MAP] + Be32(|fields|) + EncFields(fields).value);
      }
    }

    /** One field: its key as a string, and its value. */
    method BuildField(field: Field) returns (ok: bool)
      requires Valid()
      modifies this, buf
      ensures Valid() && (buf == old(buf) || fresh(buf))
      ensures ok == EncField(field).Some?
      ensures ok ==> contents == old(contents) + EncField(field).value
      decreases field, 2
    {
      hide Enc, EncStr;
      AppendBinary(field.key);
      ok := InnerBuild(field.value);
    }

    /** The loop over the fields of an object. */
    method BuildFields(fields: seq<Field>) returns (ok: bool)
      requires Valid()
      modifies this, buf
      ensures Valid() && (buf == old(buf) || fresh(buf))
      ensures ok == EncFields(fields).Some?
      ensures ok ==> contents == old(contents) + EncFields(fields).value
      decreases fields, 0
    {
      ghost var before := contents;
      ghost var done: seq<Byte> := [];
      FieldsStart(fields);
      hide EncField, EncFields, FieldsDone;
      ok := true;
      var n := 0;
      while ok && n < |fields|
        invariant n <= |fields| && Valid() && (buf == old(buf) || fresh(buf))
        invariant ok ==> FieldsDone(fields, n, done) && contents == before + done
        invariant !ok ==> EncFields(fields).None?
        decreases |fields| - n, ok
      {
        FieldsNext(fields, n, done);
        ok := BuildField(fields[n]);
        if ok { done := done + EncField(fields[n]).value; }
        n := n + 1;
      }
    }
  }

  /** etf_parser::build: the version byte and then the value, or None when the encoder throws. */
  method Build(v: Json) returns (r: Option<seq<Byte>>)
    ensures r == match Enc(v) case None => None case Some(b) => Some([FORMAT_VERSION] + b)
  {
    var pk := new EtfBuffer(1024 * 1024);
    pk.Write([FORMAT_VERSION]);
    assert pk.contents == [FORMAT_VERSION];
    var ok := pk.InnerBuild(v);
    r := if ok then Some(pk.buf[..pk.length]) else None;
  }

  /** What a method that can throw hands back. */
  datatype Result<+T> = Ok(value: T) | Thrown(error: EtfError) {
    predicate IsFailure() { Thrown? }
    function PropagateFailure<U>(): Result<U>
      requires Thrown?
    {
      Thrown(error)
    }
    function Extract(): T
      requires Ok?
    {
      value
    }
  }

  /** etf_parser: the input and how far it has been read. */
  class EtfParser {
    const f: Foreign
    var data: seq<Byte>
    var offset: nat

    constructor (f: Foreign)
      ensures this.f == f && Valid()
    {
      this.f := f;
      data := [];
      offset := 0;
    }

    ghost predicate Valid()
      reads this
    {
      offset <= |data|
    }

    /** The input from the offset on. */
    ghost function Rest(): seq<Byte>
      requires Valid()
      reads this
    {
      data[offset..]
    }

    /** r is the outcome p describes, and the offset is where p stops reading. */
    ghost predicate Agrees<T>(r: Result<T>, p: Parsed<T>)
      requires Valid()
      reads this
    {
      match r
      case Ok(v) => p == Got(v, Rest())
      case Thrown(e) => p == Fail(e)
    }

    method Read8Bits() returns (r: Result<Byte>)
      requires Valid()
      modifies `offset
      ensures Valid() && offset >= old(offset) && Agrees(r, Read8(old(Rest())))
    {
      if offset + 1 > |data| { return Thrown(PastEnd); }
      r := Ok(data[offset]);
      offset := offset + 1;
      assert Rest() == old(Rest())[1..];
    }

    method Read16Bits() returns (r: Result<nat>)
      requires Valid()
      modifies `offset
      ensures Valid() && offset >= old(offset) && Agrees(r, Read16(old(Rest())))
      ensures r.Ok? ==> r.value < TWO_16
    {
      if offset + 2 > |data| { return Thrown(PastEnd); }
      assert data[offset..offset + 2] == Rest()[..2];
      r := Ok(FromBe16(data[offset..offset + 2]));
      offset := offset + 2;
      assert Rest() == old(Rest())[2..];
    }

    method Read32Bits() returns (r: Result<nat>)
      requires Valid()
      modifies `offset
      ensures Valid() && offset >= old(offset) && Agrees(r, Read32(old(Rest())))
      ensures r.Ok? ==> r.value < TWO_32
    {
      if offset + 4 > |data| { return Thrown(PastEnd); }
      assert data[offset..offset + 4] == Rest()[..4];
      r := Ok(FromBe32(data[offset..offset + 4]));
      offset := offset + 4;
      assert Rest() == old(Rest())[4..];
    }

    method Read64Bits() returns (r: Result<nat>)
      requires Valid()
      modifies `offset
      ensures Valid() && offset >= old(offset) && Agrees(r, Read64(old(Rest())))
    {
      if offset + 8 > |data| { return Thrown(PastEnd); }
      assert data[offset..offset + 8] == Rest()[..8];
      r := Ok(FromBe64(data[offset..offset + 8]));
      offset := offset + 8;
      assert Rest() == old(Rest())[8..];
    }

    /** The next n bytes, or None, the source's null pointer, with the offset where it was. */
    method ReadBytes(n: nat) returns (s: Option<seq<Byte>>)
      requires Valid()
      modifies `offset
      ensures Valid() && offset >= old(offset)
      ensures ReadString(old(Rest()), n) == Got(s, Rest())
    {
      if offset + n > |data| { return None; }
      assert data[offset..offset + n] == Rest()[..n];
      s := Some(data[offset..offset + n]);
      offset := offset + n;
      assert Rest() == old(Rest())[n..];
    }

    /** The digits of a big integer are added up from the least significant one. */
    method DecodeBigInt(digits: nat) returns (r: Result<Json>)
      requires Valid()
      modifies `offset
      ensures Valid() && offset >= old(offset) && Agrees(r, BigInt(old(Rest()), digits))
    {
      var sign :- Read8Bits();
      if digits > 8 { return Thrown(BigIntTooLong); }
      ghost var start := Rest();
      var value: nat, b: nat, i: nat := 0, 1, 0;
      while i < digits
        invariant Valid() && offset >= old(offset) && i <= digits
        invariant i <= |start| && Rest() == start[i..] && b == Pow256(i)
        invariant value == FromLittleEndian(start[..i])
      {
        var digit :- Read8Bits();
        LittleEndianAppend(start[..i], digit);
        assert start[..i] + [digit] == start[..i + 1];
        value := value + digit * b;
        b := 256 * b;
        i := i + 1;
      }
      r := Ok(BigIntValue(digits, sign, value));
    }

    method DecodeStringAsList() returns (r: Result<Json>)
      requires Valid()
      modifies `offset
      ensures Valid() && offset >= old(offset) && Agrees(r, StringAsList(old(Rest())))
    {
      var n :- Read16Bits();
      if offset + n > |data| { return Thrown(StringListPastEnd); }
      ghost var start := Rest();
      var items := [];
      for i := 0 to n
        invariant Valid() && offset >= old(offset) && i <= |start| && Rest() == start[i..]
        invariant items == ByteInts(start[..i])
      {
        var d := Read8Bits();
        items := items + [Int(d.value)];
      }
      r := Ok(Arr(items));
    }

    /** Every tag after which no further value is read. */
    method DecodeScalar(tag: Byte) returns (r: Result<Json>)
      requires Valid()
      modifies `offset
      ensures Valid() && offset >= old(offset) && Agrees(r, Scalar(f, tag, old(Rest())))
    {
      hide BigInt, StringAsList, ProcessAtom, ReadString;
      if tag == ETT_SMALLINT {
        var d :- Read8Bits();
        r := Ok(Int(d));
      } else if tag == ETT_INTEGER {
        var d :- Read32Bits();
        r := Ok(Int(ToInt32(d)));
      } else if tag == ETT_FLOAT {
        var s := ReadBytes(FLOAT_LENGTH);
        if s.None? { return Ok(Null); }
        var scanned := f.scanDouble(s.value);
        r := Ok(if scanned.None? then Null else Num(scanned.value));
      } else if tag == ETT_NEW_FLOAT {
        var d :- Read64Bits();
        r := Ok(Num(d % TWO_64));
      } else if tag == ETT_ATOM {
        var n :- Read16Bits();
        var s := ReadBytes(n);
        r := Ok(ProcessAtom(s));
      } else if tag == ETT_ATOM_SMALL {
        var n :- Read8Bits();
        var s := ReadBytes(n);
        r := Ok(ProcessAtom(s));
      } else if tag == ETT_NIL {
        r := Ok(Arr([]));
      } else if tag == ETT_STRING {
        r := DecodeStringAsList();
      } else if tag == ETT_BINARY {
        var n :- Read32Bits();
        var s := ReadBytes(n);
        r := Ok(StrOrNull(s));
      } else if tag == ETT_BIGINT_SMALL {
        var n :- Read8Bits();
        r := DecodeBigInt(n);
      } else if tag == ETT_BIGINT_LARGE {
        var n :- Read32Bits();
        r := DecodeBigInt(n);
      } else if tag == ETT_DISTRIBUTION {
        r := Thrown(Distribution);
      } else if tag == ETT_COMPRESSED {
        r := Thrown(Compressed);
      } else {
        r := Thrown(UnknownType);
      }
    }

    /** n 32-bit words, cast to int32_t. */
    method ReadIds(n: nat) returns (r: Result<seq<Json>>)
      requires Valid()
      modifies `offset
      ensures Valid() && offset >= old(offset) && Agrees(r, Words(old(Rest()), n, []))
    {
      var ids := [];
      for i := 0 to n
        invariant Valid() && offset >= old(offset)
        invariant Words(Rest(), n - i, ids) == Words(old(Rest()), n, [])
      {
        var w :- Read32Bits();
        ids := ids + [Int(ToInt32(w))];
      }
      r := Ok(ids);
    }

    /** decode_array: length values in a row, however large a length the input claims. */
    method DecodeArray(length: nat) returns (r: Result<seq<Json>>)
      requires Valid()
      modifies `offset
      ensures Valid() && offset >= old(offset) && Agrees(r, Items(f, old(Rest()), length, []))
      decreases |data| - offset, 2
    {
      hide Inner;
      var items := [];
      for i := 0 to length
        invariant Valid() && offset >= old(offset)
        invariant Items(f, Rest(), length - i, items) == Items(f, old(Rest()), length, [])
      {
        var v :- InnerParse();
        items := items + [v];
      }
      r := Ok(items);
    }

    /** The loop of decode_map. */
    method DecodePairs(length: nat) returns (r: Result<seq<Field>>)
      requires Valid()
      modifies `offset
      ensures Valid() && offset >= old(offset) && Agrees(r, Pairs(f, old(Rest()), length, []))
      decreases |data| - offset, 2
    {
      hide Inner, Emplace, KeyText;
      var fields := [];
      for i := 0 to length
        invariant Valid() && offset >= old(offset)
        invariant Pairs(f, Rest(), length - i, fields) == Pairs(f, old(Rest()), length, [])
      {
        var key :- InnerParse();
        var text := KeyText(f, key);
        if text.None? { return Thrown(KeyNotString); }
        var v :- InnerParse();
        fields := Emplace(fields, text.value, v);
      }
      r := Ok(fields);
    }

    /** inner_parse: one value from the offset on. */
    method InnerParse() returns (r: Result<Json>)
      requires Valid()
      modifies `offset
      ensures Valid() && offset >= old(offset) && Agrees(r, Inner(f, old(Rest())))
      ensures r.Ok? ==> offset > old(offset)
      decreases |data| - offset, 1
    {
      hide Scalar, Composite;
      if offset >= |data| { return Thrown(PastEnd); }
      ghost var start := Rest();
      var first := Read8Bits();
      var tag := first.value;
      if IsComposite(tag) {
        r := DecodeComposite(tag, start);
      } else {
        ScalarShrinks(f, tag, Rest());
        r := DecodeScalar(tag);
      }
    }

    method DecodeComposite(tag: Byte, ghost start: seq<Byte>) returns (r: Result<Json>)
      requires Valid() && IsComposite(tag) && start == [tag] + Rest()
      modifies `offset
      ensures Valid() && offset >= old(offset) && Agrees(r, Composite(f, start))
      decreases |data| - offset, 5
    {
      hide Inner, Items, Pairs, Words;
      assert start[1..] == Rest();
      if tag == ETT_SMALL_TUPLE {
        var n :- Read8Bits();
        var items :- DecodeArray(n);
        r := Ok(Arr(items));
      } else if tag == ETT_LARGE_TUPLE {
        var n :- Read32Bits();
        var items :- DecodeArray(n);
        r := Ok(Arr(items));
      } else if tag == ETT_LIST {
        var n :- Read32Bits();
        var items :- DecodeArray(n);
        var tail :- Read8Bits();
        r := Ok(if tail != ETT_NIL then Null else Arr(items));
      } else if tag == ETT_MAP {
        var n :- Read32Bits();
        var fields :- DecodePairs(n);
        r := Ok(MapValue(fields));
      } else {
        r := DecodeTerm(tag, start);
      }
    }

    /** decode_reference. */
    method DecodeReference(ghost start: seq<Byte>) returns (r: Result<Json>)
      requires Valid() && start == [ETT_REFERENCE] + Rest()
      modifies `offset
      ensures Valid() && offset >= old(offset) && Agrees(r, Composite(f, start))
      decreases |data| - offset, 3
    {
      hide Inner, Words, ReferenceValue;
      assert start[1..] == Rest();
      var node :- InnerParse();
      var ids :- ReadIds(1);
      var creation :- Read8Bits();
      r := Ok(ReferenceValue(node, ids, creation));
    }

    /** decode_new_reference. */
    method DecodeNewReference(ghost start: seq<Byte>) returns (r: Result<Json>)
      requires Valid() && start == [ETT_NEW_REFERENCE] + Rest()
      modifies `offset
      ensures Valid() && offset >= old(offset) && Agrees(r, Composite(f, start))
      decreases |data| - offset, 3
    {
      hide Inner, Words, ReferenceValue;
      assert start[1..] == Rest();
      var n :- Read16Bits();
      var node :- InnerParse();
      var creation :- Read8Bits();
      var ids :- ReadIds(n);
      r := Ok(ReferenceValue(node, ids, creation));
    }

    /** decode_port. */
    method DecodePort(ghost start: seq<Byte>) returns (r: Result<Json>)
      requires Valid() && start == [ETT_PORT] + Rest()
      modifies `offset
      ensures Valid() && offset >= old(offset) && Agrees(r, Composite(f, start))
      decreases |data| - offset, 3
    {
      hide Inner, Words, ReferenceValue;
      assert start[1..] == Rest();
      var node :- InnerParse();
      var id :- Read32Bits();
      var creation :- Read8Bits();
      r := Ok(Obj([Field(CREATION, Int(creation)), Field(ID, Int(id)), Field(NODE, node)]));
    }

    /** decode_pid. */
    method DecodePid(ghost start: seq<Byte>) returns (r: Result<Json>)
      requires Valid() && start == [ETT_PID] + Rest()
      modifies `offset
      ensures Valid() && offset >= old(offset) && Agrees(r, Composite(f, start))
      decreases |data| - offset, 3
    {
      hide Inner, Words, ReferenceValue;
      assert start[1..] == Rest();
      var node :- InnerParse();
      var id :- Read32Bits();
      var serial :- Read32Bits();
      var creation :- Read8Bits();
      r := Ok(Obj([Field(CREATION, Int(creation)), Field(ID, Int(id)),
                   Field(NODE, node), Field(SERIAL, Int(serial))]));
    }

    /** decode_export. */
    method DecodeExport(ghost start: seq<Byte>) returns (r: Result<Json>)
      requires Valid() && start == [ETT_EXPORT] + Rest()
      modifies `offset
      ensures Valid() && offset >= old(offset) && Agrees(r, Composite(f, start))
      decreases |data| - offset, 3
    {
      hide Inner, Words, ReferenceValue;
      assert start[1..] == Rest();
      var mod :- InnerParse();
      var fun :- InnerParse();
      var arity :- InnerParse();
      r := Ok(Obj([Field(ARITY, arity), Field(FUN, fun), Field(MOD, mod)]));
    }

    /** References, ports, process ids and exports. */
    method DecodeTerm(tag: Byte, ghost start: seq<Byte>) returns (r: Result<Json>)
      requires Valid() && IsComposite(tag) && start == [tag] + Rest()
      requires tag !in {ETT_SMALL_TUPLE, ETT_LARGE_TUPLE, ETT_LIST, ETT_MAP}
      modifies `offset
      ensures Valid() && offset >= old(offset) && Agrees(r, Composite(f, start))
      decreases |data| - offset, 4
    {
      hide Composite;
      if tag == ETT_REFERENCE {
        r := DecodeReference(start);
      } else if tag == ETT_NEW_REFERENCE {
        r := DecodeNewReference(start);
      } else if tag == ETT_PORT {
        r := DecodePort(start);
      } else if tag == ETT_PID {
        r := DecodePid(start);
      } else {
        r := DecodeExport(start);
      }
    }

    /** etf_parser::parse: a version byte and one value. */
    method Parse(input: seq<Byte>) returns (r: Result<Json>)
      modifies this
      ensures Valid() && data == input && Agrees(r, Message(f, input))
    {
      offset := 0;
      data := input;
      assert Rest() == input;
      var version :- Read8Bits();
      if version == FORMAT_VERSION {
        r := InnerParse();
      } else {
        r := Thrown(BadVersion);
      }
    }
  }

  lemma {:induction false} LittleEndianAppend(b: seq<Byte>, d: Byte)
    ensures FromLittleEndian(b + [d]) == FromLittleEndian(b) + d * Pow256(|b|)
  {
    if b == [] {
      assert (b + [d])[1..] == [];
    } else {
      LittleEndianAppend(b[1..], d);
      assert (b + [d])[1..] == b[1..] + [d];
      assert 256 * (d * Pow256(|b| - 1)) == d * (256 * Pow256(|b| - 1));
    }
  }
}
