/**
 Byte strings and the three textual encodings the protocol relies on: lowercase
 hexadecimal, decimal numerals and big-endian words. Each is shown to lose nothing.
 */
module Bytes {
  import opened Wrappers

  type Byte = b: int | 0 <= b < 256

  type Bytes = seq<Byte>

  const U32_MAX: nat := 0xFFFF_FFFF

  const U64_MAX: nat := 0xFFFF_FFFF_FFFF_FFFF

  type U32 = n: nat | n <= U32_MAX

  type U64 = n: nat | n <= U64_MAX

  /** A 32-byte public key or key identifier. */
  type Key32 = k: Bytes | |k| == 32 witness seq(32, i => 0)

  /** Addition on u32 as an optimised build performs it. */
  function WrapInc32(n: U32): U32 {
    if n == U32_MAX then 0 else n + 1
  }

  function SaturatingAdd32(a: U32, b: U32): U32 {
    if a + b > U32_MAX then U32_MAX else a + b
  }

  // ---------- hexadecimal ----------

  function HexDigit(d: nat): Byte
    requires d < 16
  {
    if d < 10 then 48 + d else 87 + d
  }

  predicate IsLowerHex(c: Byte) {
    48 <= c <= 57 || 97 <= c <= 102
  }

  /** Lowercase hexadecimal, two digits a byte. */
  function Hex(b: Bytes): (r: Bytes)
    ensures |r| == 2 * |b|
    ensures forall i :: 0 <= i < |r| ==> IsLowerHex(r[i])
  {
    if b == [] then [] else [HexDigit(b[0] / 16), HexDigit(b[0] % 16)] + Hex(b[1..])
  }

  lemma HexDigitInjective(d: nat, e: nat)
    requires d < 16 && e < 16 && HexDigit(d) == HexDigit(e)
    ensures d == e
  {
  }

  lemma {:induction false} HexInjective(a: Bytes, b: Bytes)
    requires Hex(a) == Hex(b)
    ensures a == b
  {
    assert |a| == |b|;
    if a != [] {
      assert Hex(a)[0] == Hex(b)[0] && Hex(a)[1] == Hex(b)[1];
      HexDigitInjective(a[0] / 16, b[0] / 16);
      HexDigitInjective(a[0] % 16, b[0] % 16);
      assert Hex(a)[2..] == Hex(a[1..]) && Hex(b)[2..] == Hex(b[1..]);
      HexInjective(a[1..], b[1..]);
    }
  }

  /** The value of a hexadecimal digit of either case, or 16. */
  function HexValue(c: Byte): nat {
    if 48 <= c <= 57 then c - 48
    else if 97 <= c <= 102 then c - 87
    else if 65 <= c <= 70 then c - 55
    else 16
  }

  /** Decodes hexadecimal of either case; `None` for odd length or a character that is no digit. */
  function HexDecode(s: Bytes): Option<Bytes> {
    if s == [] then Some([])
    else if |s| == 1 || HexValue(s[0]) == 16 || HexValue(s[1]) == 16 then None
    else
      match HexDecode(s[2..])
      case None => None
      case Some(rest) => Some([HexValue(s[0]) * 16 + HexValue(s[1])] + rest)
  }

  lemma {:induction false} HexRoundTrip(b: Bytes)
    ensures HexDecode(Hex(b)) == Some(b)
  {
    if b != [] {
      HexRoundTrip(b[1..]);
      assert Hex(b)[2..] == Hex(b[1..]);
      assert b == [b[0]] + b[1..];
    }
  }

  /** The value of a digit in lowercase text. */
  function LowerHexValue(c: Byte): int {
    if c <= 57 then c - 48 else c - 97 + 10
  }

  /** Digit 2i is the high half of byte i and digit 2i + 1 the low half. */
  lemma {:induction false} HexText(b: Bytes, i: nat)
    requires i < |b|
    ensures b[i] == 16 * LowerHexValue(Hex(b)[2 * i]) + LowerHexValue(Hex(b)[2 * i + 1])
  {
    if i > 0 {
      HexText(b[1..], i - 1);
      assert Hex(b)[2..] == Hex(b[1..]);
      assert Hex(b)[2 * i] == Hex(b)[2..][2 * (i - 1)] && Hex(b)[2 * i + 1] == Hex(b)[2..][2 * (i - 1) + 1];
    }
  }

  /** A hexadecimal digit of either case. */
  predicate IsHexDigit(c: Byte) {
    48 <= c <= 57 || 65 <= c <= 70 || 97 <= c <= 102
  }

  /** Lowercase of an ASCII letter. */
  function Lower(c: Byte): Byte {
    if 65 <= c <= 90 then c + 32 else c
  }

  /** Exactly the texts of an even number of digits decode, whatever their case, to the bytes they spell. */
  lemma {:induction false} HexDecodeIff(s: Bytes)
    ensures HexDecode(s).Some? <==> |s| % 2 == 0 && forall i :: 0 <= i < |s| ==> IsHexDigit(s[i])
    ensures HexDecode(s).Some? ==>
              && 2 * |HexDecode(s).value| == |s|
              && forall i :: 0 <= i < |HexDecode(s).value| ==>
                   HexDecode(s).value[i] == 16 * LowerHexValue(Lower(s[2 * i])) + LowerHexValue(Lower(s[2 * i + 1]))
    decreases |s|
  {
    if |s| >= 2 {
      var rest := s[2..];
      HexDecodeIff(rest);
      assert forall i :: 0 <= i < |rest| ==> rest[i] == s[i + 2];
      assert forall i :: 2 <= i < |s| ==> s[i] == rest[i - 2];
      if HexDecode(s).Some? {
        var b, r := HexDecode(s).value, HexDecode(rest).value;
        forall i | 0 <= i < |b|
          ensures b[i] == 16 * LowerHexValue(Lower(s[2 * i])) + LowerHexValue(Lower(s[2 * i + 1]))
        {
          if i > 0 {
            assert b[i] == r[i - 1] && s[2 * i] == rest[2 * (i - 1)] && s[2 * i + 1] == rest[2 * (i - 1) + 1];
          }
        }
      }
    } else if |s| == 1 {
      assert HexDecode(s) == None;
    }
  }

  // ---------- decimal ----------

  predicate IsDigit(c: Byte) {
    48 <= c <= 57
  }

  /** The shortest decimal numeral of `n`. */
  function Decimal(n: nat): (r: Bytes)
    ensures |r| > 0
    ensures forall i :: 0 <= i < |r| ==> IsDigit(r[i])
  {
    if n < 10 then [48 + n] else Decimal(n / 10) + [48 + n % 10]
  }

  lemma {:induction false} DecimalInjective(m: nat, n: nat)
    requires Decimal(m) == Decimal(n)
    ensures m == n
  {
    var k := |Decimal(m)| - 1;
    assert Decimal(m)[k] == Decimal(n)[k];
    if m >= 10 && n >= 10 {
      assert Decimal(m)[..k] == Decimal(m / 10) && Decimal(n)[..k] == Decimal(n / 10);
      DecimalInjective(m / 10, n / 10);
    }
  }

  predicate AllDigits(s: Bytes) {
    forall i :: 0 <= i < |s| ==> IsDigit(s[i])
  }

  /** The number a string of digits denotes. */
  function ValueOf(s: Bytes): nat
    requires AllDigits(s)
  {
    if s == [] then 0
    else
      var k := |s| - 1;
      assert forall i :: 0 <= i < k ==> s[..k][i] == s[i];
      10 * ValueOf(s[..k]) + (s[k] - 48)
  }

  lemma {:induction false} DecimalValue(n: nat)
    ensures ValueOf(Decimal(n)) == n
  {
    if n >= 10 {
      DecimalValue(n / 10);
      assert Decimal(n)[..|Decimal(n)| - 1] == Decimal(n / 10);
    }
  }

  /** No numeral starts with a zero but the one of zero itself. */
  lemma {:induction false} DecimalShortest(n: nat)
    ensures Decimal(n)[0] == 48 ==> n == 0
  {
    if n >= 10 {
      DecimalShortest(n / 10);
    }
  }

  // ---------- big-endian words ----------

  function BigEndian32(n: U32): (r: Bytes)
    ensures |r| == 4
  {
    [n / 256 / 256 / 256, n / 256 / 256 % 256, n / 256 % 256, n % 256]
  }

  lemma Word32(n: U32)
    ensures var w: seq<int> := BigEndian32(n);
            n == ((w[0] * 256 + w[1]) * 256 + w[2]) * 256 + w[3]
  {
    var a := n / 256;
    var b := a / 256;
    assert n == a * 256 + n % 256;
    assert a == b * 256 + a % 256;
    assert b == b / 256 * 256 + b % 256;
  }

  lemma BigEndian32Injective(m: U32, n: U32)
    requires BigEndian32(m) == BigEndian32(n)
    ensures m == n
  {
    hide BigEndian32;
    Word32(m);
    Word32(n);
  }
}
