/** Bytes, fixed-width integers in network order, and decimal numerals. */
module Bytes {

  type Byte = x: int | 0 <= x < 256

  datatype Option<+T> = None | Some(value: T)

  const TWO_16 := 0x1_0000
  const TWO_31 := 0x8000_0000
  const TWO_32 := 0x1_0000_0000
  const TWO_63 := 0x8000_0000_0000_0000
  const TWO_64 := 0x1_0000_0000_0000_0000

  /** What a cast to int32_t keeps of an integer. */
  function ToInt32(n: int): int
  {
    var m := n % TWO_32;
    if m < TWO_31 then m else m - TWO_32
  }

  /** What a cast to int64_t keeps of an integer. */
  function ToInt64(n: int): int
  {
    var m := n % TWO_64;
    if m < TWO_63 then m else m - TWO_64
  }

  /** The low 16 bits of n, most significant byte first. */
  function Be16(n: int): seq<Byte>
  {
    [n / 0x100 % 256, n % 256]
  }

  /** The low 32 bits of n, most significant byte first. */
  function Be32(n: int): seq<Byte>
  {
    Be16(n / TWO_16) + Be16(n)
  }

  /** The low 64 bits of n, most significant byte first. */
  function Be64(n: int): seq<Byte>
  {
    Be32(n / TWO_32) + Be32(n)
  }

  /** The 16-bit number stored in b, most significant byte first. */
  function FromBe16(b: seq<Byte>): nat
    requires |b| == 2
  {
    (b[0] as int) * 0x100 + b[1] as int
  }

  function FromBe32(b: seq<Byte>): nat
    requires |b| == 4
  {
    FromBe16(b[..2]) * TWO_16 + FromBe16(b[2..])
  }

  function FromBe64(b: seq<Byte>): nat
    requires |b| == 8
  {
    FromBe32(b[..4]) * TWO_32 + FromBe32(b[4..])
  }

  lemma Be16Inverse(n: int)
    ensures FromBe16(Be16(n)) == n % TWO_16
  {
  }

  lemma Be32Inverse(n: int)
    ensures FromBe32(Be32(n)) == n % TWO_32
  {
    Be16Inverse(n / TWO_16);
    Be16Inverse(n);
    assert Be32(n)[..2] == Be16(n / TWO_16) && Be32(n)[2..] == Be16(n);
  }

  lemma Be64Inverse(n: nat)
    requires n < TWO_64
    ensures FromBe64(Be64(n)) == n
  {
    hide FromBe32;
    Be32Inverse(n / TWO_32);
    Be32Inverse(n);
    assert Be64(n)[..4] == Be32(n / TWO_32);
    assert Be64(n)[4..] == Be32(n);
  }

  /** The digits of n in base 256, least significant first, without a leading zero. */
  function LittleEndian(n: nat): seq<Byte>
  {
    if n == 0 then [] else [n % 256] + LittleEndian(n / 256)
  }

  /** The number whose digits in base 256 are b, least significant first. */
  function FromLittleEndian(b: seq<Byte>): nat
  {
    if b == [] then 0 else b[0] + 256 * FromLittleEndian(b[1..])
  }

  lemma {:induction false} LittleEndianInverse(n: nat)
    ensures FromLittleEndian(LittleEndian(n)) == n
  {
    if n != 0 {
      LittleEndianInverse(n / 256);
      assert LittleEndian(n)[1..] == LittleEndian(n / 256);
    }
  }

  function Pow256(k: nat): (p: nat)
    ensures p > 0
  {
    if k == 0 then 1 else 256 * Pow256(k - 1)
  }

  /** A number below 256^k has at most k digits in base 256. */
  lemma {:induction false} LittleEndianLength(n: nat, k: nat)
    requires n < Pow256(k)
    ensures |LittleEndian(n)| <= k
  {
    if n != 0 {
      LittleEndianLength(n / 256, k - 1);
    }
  }

  /** A decimal numeral, as std::to_string writes it. */
  function Decimal(n: int): seq<Byte>
  {
    if n < 0 then ['-' as int] + Digits(-n) else Digits(n)
  }

  function Digits(n: nat): seq<Byte>
  {
    if n < 10 then [48 + n] else Digits(n / 10) + [48 + n % 10]
  }

  /** The number a decimal numeral stands for. */
  function DecimalValue(s: seq<Byte>): int
  {
    if s != [] && s[0] == '-' as int then -DigitsValue(s[1..]) else DigitsValue(s)
  }

  function DigitsValue(s: seq<Byte>): int
  {
    if s == [] then 0 else DigitsValue(s[..|s| - 1]) * 10 + (s[|s| - 1] as int - 48)
  }

  lemma {:induction false} DigitsInverse(n: nat)
    ensures DigitsValue(Digits(n)) == n
    ensures Digits(n) != [] && Digits(n)[0] != '-' as int
  {
    if n < 10 {
      assert Digits(n)[..0] == [];
    } else {
      DigitsInverse(n / 10);
      assert Digits(n)[..|Digits(n)| - 1] == Digits(n / 10);
    }
  }

  /** A numeral is digits and nothing else, and starts with 0 only when it is 0. */
  lemma {:induction false} DigitsShape(n: nat)
    ensures Digits(n) != [] && forall i :: 0 <= i < |Digits(n)| ==> '0' as int <= Digits(n)[i] <= '9' as int
    ensures n > 0 ==> Digits(n)[0] != '0' as int
    ensures Digits(0) == ['0' as int]
  {
    if n >= 10 { DigitsShape(n / 10); }
  }

  lemma DecimalInverse(n: int)
    ensures DecimalValue(Decimal(n)) == n
  {
    if n < 0 {
      DigitsInverse(-n);
      assert Decimal(n)[1..] == Digits(-n);
    } else {
      DigitsInverse(n);
    }
  }
}
