/**
 Base32 without padding, produced bit by bit out of a 32-bit accumulator, against
 section 6 of RFC 4648: letter k stands for bits 5k to 5k+4 of the input, with zeros
 after its end.
 */
module Base32 {
  import opened Bytes
  import opened Arithmetic

  const ALPHABET: seq<Byte> :=
    [65, 66, 67, 68, 69, 70, 71, 72, 73, 74, 75, 76, 77, 78, 79, 80, 81, 82, 83, 84, 85, 86, 87, 88, 89, 90,
     50, 51, 52, 53, 54, 55]

  function Pow2(k: nat): (r: nat)
    ensures r > 0
  {
    if k == 0 then 1 else 2 * Pow2(k - 1)
  }

  /** Bit p of the input, counted from the most significant bit of the first byte. */
  function Bit(input: Bytes, p: nat): (r: nat)
    ensures r <= 1
  {
    if p < 8 * |input| then input[p / 8] / Pow2(7 - p % 8) % 2 else 0
  }

  /** The number that `count` bits from position p on spell. */
  function Number(input: Bytes, p: nat, count: nat): nat {
    if count == 0 then 0 else 2 * Number(input, p, count - 1) + Bit(input, p + count - 1)
  }

  /** The least number of fives that covers the input. */
  function LettersNeeded(input: Bytes): (r: nat)
    ensures 5 * r >= 8 * |input| > 5 * (r - 1)
  {
    (8 * |input| + 4) / 5
  }

  // ---------- arithmetic of powers of two ----------

  lemma {:induction false} PowSplit(a: nat, b: nat)
    ensures Pow2(a + b) == Pow2(a) * Pow2(b)
  {
    if b > 0 {
      PowSplit(a, b - 1);
      Associate(Pow2(a), Pow2(b - 1), 2);
    }
  }

  // ---------- bits ----------

  lemma {:induction false} NumberFits(input: Bytes, p: nat, count: nat)
    ensures Number(input, p, count) < Pow2(count)
  {
    hide Bit;
    if count > 0 {
      NumberFits(input, p, count - 1);
    }
  }

  lemma NextPow(k: nat)
    ensures Pow2(k + 1) == 2 * Pow2(k)
  {
  }

  lemma NextBit(input: Bytes, p: nat, count: nat)
    ensures Number(input, p, count + 1) == 2 * Number(input, p, count) + Bit(input, p + count)
  {
    hide Bit;
  }

  lemma {:induction false} NumberSplit(input: Bytes, p: nat, a: nat, b: nat)
    ensures Number(input, p, a + b) == Number(input, p, a) * Pow2(b) + Number(input, p + a, b)
  {
    hide Bit;
    if b > 0 {
      NextBit(input, p + a, b - 1);
      NextBit(input, p, a + b - 1);
      NextPow(b - 1);
      hide Number, Pow2;
      NumberSplit(input, p, a, b - 1);
      Append(Number(input, p, a + b - 1), Number(input, p, a + b),
             Number(input, p, a), Pow2(b - 1), Pow2(b),
             Number(input, p + a, b - 1), Number(input, p + a, b), Bit(input, p + a + b - 1));
    }
  }

  function BitsOfByte(b: Byte): (r: seq<nat>)
    ensures |r| == 8
  {
    [b / 128 % 2, b / 64 % 2, b / 32 % 2, b / 16 % 2, b / 8 % 2, b / 4 % 2, b / 2 % 2, b % 2]
  }

  lemma BitOfByte(b: Byte, j: nat)
    requires j < 8
    ensures b / Pow2(7 - j) % 2 == BitsOfByte(b)[j]
  {
    assert Pow2(1) == 2 && Pow2(2) == 4 && Pow2(3) == 8 && Pow2(4) == 16;
    assert Pow2(5) == 32 && Pow2(6) == 64 && Pow2(7) == 128;
  }

  function Spelled(bits: seq<nat>): nat
    requires |bits| == 8
  {
    ((((((bits[0] * 2 + bits[1]) * 2 + bits[2]) * 2 + bits[3]) * 2 + bits[4]) * 2 + bits[5]) * 2 + bits[6]) * 2 + bits[7]
  }

  lemma Halves(b: Byte)
    ensures b / 2 / 2 == b / 4 && b / 4 / 2 == b / 8 && b / 8 / 2 == b / 16 && b / 16 / 2 == b / 32
    ensures b / 32 / 2 == b / 64 && b / 64 / 2 == b / 128 && b / 128 % 2 == b / 128
  {
  }

  lemma BitsSpellByte(b: Byte)
    ensures Spelled(BitsOfByte(b)) == b
  {
    Halves(b);
    Halve(b, 1);
    Halve(b, 2);
    Halve(b, 4);
    Halve(b, 8);
    Halve(b, 16);
    Halve(b, 32);
    Halve(b, 64);
  }

  lemma BitAt(input: Bytes, i: nat, j: nat)
    requires i < |input| && j < 8
    ensures Bit(input, 8 * i + j) == BitsOfByte(input[i])[j]
  {
    Quotient(8 * i + j, i, 8, j);
    BitOfByte(input[i], j);
    hide Pow2;
  }

  lemma NumberOfBits(input: Bytes, p: nat, bits: seq<nat>)
    requires |bits| == 8 && forall j :: 0 <= j < 8 ==> Bit(input, p + j) == bits[j]
    ensures Number(input, p, 8) == Spelled(bits)
  {
    hide Bit;
    assert Number(input, p, 1) == Bit(input, p + 0);
    assert Number(input, p, 2) == 2 * Number(input, p, 1) + Bit(input, p + 1);
    assert Number(input, p, 3) == 2 * Number(input, p, 2) + Bit(input, p + 2);
    assert Number(input, p, 4) == 2 * Number(input, p, 3) + Bit(input, p + 3);
    assert Number(input, p, 5) == 2 * Number(input, p, 4) + Bit(input, p + 4);
    assert Number(input, p, 6) == 2 * Number(input, p, 5) + Bit(input, p + 5);
    assert Number(input, p, 7) == 2 * Number(input, p, 6) + Bit(input, p + 6);
  }

  /** The eight bits of byte i spell its value. */
  lemma ByteNumber(input: Bytes, i: nat)
    requires i < |input|
    ensures Number(input, 8 * i, 8) == input[i]
  {
    hide Number, Bit, BitsOfByte, Spelled;
    forall j | 0 <= j < 8 ensures Bit(input, 8 * i + j) == BitsOfByte(input[i])[j] {
      BitAt(input, i, j);
    }
    NumberOfBits(input, 8 * i, BitsOfByte(input[i]));
    BitsSpellByte(input[i]);
  }

  lemma {:induction false} ZerosAfterEnd(input: Bytes, p: nat, count: nat)
    requires p >= 8 * |input|
    ensures Number(input, p, count) == 0
  {
    if count > 0 {
      ZerosAfterEnd(input, p, count - 1);
    }
  }

  // ---------- the encoder ----------

  /** A left shift on u32: bits pushed out at the top are lost. */
  function ShiftLeft32(v: U32, k: nat): U32 {
    v * Pow2(k) % 0x1_0000_0000
  }

  function ShiftRight32(v: U32, k: nat): U32 {
    DivideDown(v, Pow2(k));
    v / Pow2(k)
  }

  /** The letter for the lowest five bits. */
  function LetterOf(v: U32): Byte {
    ALPHABET[v % 32]
  }

  /** The lowest `bits` bits. */
  function Low(v: U32, bits: nat): nat {
    v % Pow2(bits)
  }

  lemma ModOfMod(v: nat, a: nat, b: nat)
    ensures v % Pow2(b + a) % Pow2(a) == v % Pow2(a)
  {
    PowSplit(b, a);
    hide Pow2;
    var big, high, small := Pow2(b + a), Pow2(b), Pow2(a);
    var q, r := v / big, v % big;
    Euclid(v, big);
    Euclid(r, small);
    Associate(q, high, small);
    Distribute(q * high, r / small, small);
    Quotient(v, q * high + r / small, small, r % small);
  }

  lemma Pow32()
    ensures Pow2(32) == 0x1_0000_0000 && Pow2(8) == 256 && Pow2(5) == 32
  {
    assert Pow2(4) == 16;
    PowSplit(4, 4);
    PowSplit(8, 8);
    PowSplit(16, 16);
  }

  /** Only the low bits matter, and those survive the shift. */
  lemma LowBitsSurvive(v: U32, k: nat, n: nat)
    requires k + n <= 32
    ensures ShiftLeft32(v, k) % Pow2(n + k) == v % Pow2(n) * Pow2(k)
  {
    hide Pow2;
    Pow32();
    PowSplit(n, k);
    var pushed := v * Pow2(k);
    assert n + k + (32 - n - k) == 32 && 32 - n - k + (n + k) == 32;
    ModOfMod(pushed, n + k, 32 - n - k);
    ScaledRemainder(v, Pow2(n), Pow2(k));
  }

  lemma RoomForByte(value: U32)
    ensures ShiftLeft32(value, 8) <= U32_MAX - 255
  {
    Pow32();
    LowBitsSurvive(value, 8, 0);
    assert ShiftLeft32(value, 8) % 256 == 0;
  }

  lemma ShiftedLow(value: U32, bits: nat)
    requires bits < 5
    ensures ShiftLeft32(value, 8) % Pow2(bits + 8) == Low(value, bits) * 256
    ensures Low(value, bits) * 256 + 255 < Pow2(bits + 8)
  {
    Pow32();
    LowBitsSurvive(value, 8, bits);
    PowSplit(bits, 8);
  }

  /** A byte taken in: the pending bits are extended by its eight. */
  lemma TakeIn(input: Bytes, i: nat, value: U32, bits: nat)
    requires i < |input| && bits < 5 && bits <= 8 * i
    requires Low(value, bits) == Number(input, 8 * i - bits, bits)
    ensures ShiftLeft32(value, 8) + input[i] <= U32_MAX
    ensures Low(ShiftLeft32(value, 8) + input[i], bits + 8) == Number(input, 8 * i - bits, bits + 8)
  {
    hide Number, Pow2;
    assert 8 * i - bits + bits == 8 * i;
    RoomForByte(value);
    ShiftedLow(value, bits);
    NumberSplit(input, 8 * i - bits, bits, 8);
    ByteNumber(input, i);
    Pow32();
    AddLow(ShiftLeft32(value, 8), Pow2(bits + 8), Low(value, bits) * 256, input[i]);
  }

  /** Five bits given out: they are the next five of the input, and the rest stays pending. */
  lemma GiveOut(input: Bytes, k: nat, value: U32, bits: nat)
    requires Low(value, bits + 5) == Number(input, 5 * k, bits + 5)
    ensures LetterOf(ShiftRight32(value, bits)) == Letter(input, k)
    ensures Low(value, bits) == Number(input, 5 * (k + 1), bits)
  {
    hide Number, Pow2;
    var p := 5 * k;
    assert 5 + bits == bits + 5;
    Pow32();
    PowSplit(5, bits);
    NumberSplit(input, p, 5, bits);
    NumberFits(input, p, 5);
    NumberFits(input, p + 5, bits);
    TwoDigits(value, 32, Pow2(bits), Number(input, p, 5), Number(input, p + 5, bits));
  }

  /** The last letter is filled up with zeros. */
  lemma FillUp(input: Bytes, k: nat, value: U32, bits: nat)
    requires 0 < bits < 5 && 5 * k + bits == 8 * |input|
    requires Low(value, bits) == Number(input, 5 * k, bits)
    ensures LetterOf(ShiftLeft32(value, 5 - bits)) == Letter(input, k)
  {
    hide Number, Pow2;
    var p := 5 * k;
    Pow32();
    assert bits + (5 - bits) == 5;
    LowBitsSurvive(value, 5 - bits, bits);
    NumberSplit(input, p, bits, 5 - bits);
    ZerosAfterEnd(input, p + bits, 5 - bits);
  }

  /** The letter for five bits of the input. */
  function Letter(input: Bytes, k: nat): Byte {
    Pow32();
    NumberFits(input, 5 * k, 5);
    ALPHABET[Number(input, 5 * k, 5)]
  }

  /** One letter for each five bits of the input, the last five filled up with zeros. */
  function Base32(input: Bytes): Bytes {
    seq(LettersNeeded(input), k requires 0 <= k < LettersNeeded(input) => Letter(input, k))
  }

  /** A to Z for the values below 26, then 2 to 7. */
  lemma LetterIs(input: Bytes, k: nat)
    ensures var v := Number(input, 5 * k, 5);
            v < 32 && Letter(input, k) == if v < 26 then 65 + v else 50 + (v - 26)
  {
    hide Number, Pow2;
    Pow32();
    NumberFits(input, 5 * k, 5);
    var v := Number(input, 5 * k, 5);
    AlphabetIs(v);
  }

  lemma AlphabetIs(v: nat)
    requires v < 32
    ensures ALPHABET[v] == if v < 26 then 65 + v else 50 + (v - 26)
  {
  }

  ghost predicate Encodes(input: Bytes, out: Bytes) {
    forall k :: 0 <= k < |out| ==> out[k] == Letter(input, k)
  }

  lemma OneMore(input: Bytes, out: Bytes)
    requires Encodes(input, out)
    ensures Encodes(input, out + [Letter(input, |out|)])
  {
    hide Letter;
  }

  /** After n bytes the letters so far are right and the low `bits` bits of the accumulator are the rest. */
  ghost predicate Kept(input: Bytes, n: nat, out: Bytes, value: U32, bits: nat) {
    && n <= |input| && 5 * |out| + bits == 8 * n
    && Low(value, bits) == Number(input, 5 * |out|, bits)
    && Encodes(input, out)
  }

  lemma KeptAtStart(input: Bytes)
    ensures Kept(input, 0, [], 0, 0)
  {
  }

  lemma KeptByByte(input: Bytes, n: nat, out: Bytes, value: U32, bits: nat)
    requires n < |input| && bits < 5 && Kept(input, n, out, value, bits)
    ensures ShiftLeft32(value, 8) + input[n] <= U32_MAX
    ensures Kept(input, n + 1, out, ShiftLeft32(value, 8) + input[n], bits + 8)
  {
    hide Encodes, Low, Number, ShiftLeft32;
    TakeIn(input, n, value, bits);
  }

  lemma KeptByLetter(input: Bytes, n: nat, out: Bytes, value: U32, bits: nat)
    requires Kept(input, n, out, value, bits + 5)
    ensures Kept(input, n, out + [LetterOf(ShiftRight32(value, bits))], value, bits)
  {
    hide Encodes, Low, Number, ShiftRight32, LetterOf, Letter;
    GiveOut(input, |out|, value, bits);
    OneMore(input, out);
  }

  lemma KeptToEnd(input: Bytes, out: Bytes, value: U32, bits: nat)
    requires bits < 5 && Kept(input, |input|, out, value, bits)
    ensures (if bits == 0 then out else out + [LetterOf(ShiftLeft32(value, 5 - bits))]) == Base32(input)
  {
    hide Low, Number, ShiftLeft32, LetterOf, Letter;
    if bits > 0 {
      FillUp(input, |out|, value, bits);
      OneMore(input, out);
    }
  }

  /** Each letter is the one for its own five bits, despite the accumulator overflowing. */
  method ToBase32(input: Bytes) returns (out: Bytes)
    ensures out == Base32(input) && 5 * |out| >= 8 * |input| > 5 * (|out| - 1)
    ensures forall k :: 0 <= k < |out| ==>
              var v := Number(input, 5 * k, 5);
              v < 32 && out[k] == if v < 26 then 65 + v else 50 + (v - 26)
  {
    hide ShiftLeft32, ShiftRight32, LetterOf, Kept, Base32;
    var bits: U32, value: U32 := 0, 0;
    out := [];
    KeptAtStart(input);
    for i := 0 to |input|
      invariant bits < 5 && Kept(input, i, out, value, bits)
    {
      KeptByByte(input, i, out, value, bits);
      value := ShiftLeft32(value, 8) + input[i];
      bits := bits + 8;
      while bits >= 5
        invariant bits < 13 && Kept(input, i + 1, out, value, bits)
      {
        bits := bits - 5;
        KeptByLetter(input, i + 1, out, value, bits);
        out := out + [LetterOf(ShiftRight32(value, bits))];
      }
    }
    KeptToEnd(input, out, value, bits);
    if bits > 0 {
      out := out + [LetterOf(ShiftLeft32(value, 5 - bits))];
    }
    LettersAre(input);
  }

  lemma LettersAre(input: Bytes)
    ensures |Base32(input)| == LettersNeeded(input)
    ensures forall k :: 0 <= k < |Base32(input)| ==>
              var v := Number(input, 5 * k, 5);
              v < 32 && Base32(input)[k] == if v < 26 then 65 + v else 50 + (v - 26)
  {
    hide Number, Letter;
    forall k | 0 <= k < |Base32(input)|
      ensures var v := Number(input, 5 * k, 5);
              v < 32 && Base32(input)[k] == if v < 26 then 65 + v else 50 + (v - 26)
    {
      LetterIs(input, k);
    }
  }

  // ---------- nothing is lost ----------

  lemma AlphabetInjective(a: nat, b: nat)
    requires a < 32 && b < 32 && ALPHABET[a] == ALPHABET[b]
    ensures a == b
  {
    AlphabetIs(a);
    AlphabetIs(b);
  }

  lemma SameLetter(a: Bytes, b: Bytes, k: nat)
    requires Letter(a, k) == Letter(b, k)
    ensures Number(a, 5 * k, 5) == Number(b, 5 * k, 5)
  {
    hide Number, Pow2;
    Pow32();
    NumberFits(a, 5 * k, 5);
    NumberFits(b, 5 * k, 5);
    AlphabetInjective(Number(a, 5 * k, 5), Number(b, 5 * k, 5));
  }

  lemma {:induction false} EqualNumbers(a: Bytes, b: Bytes, p: nat, count: nat)
    requires Number(a, p, count) == Number(b, p, count)
    ensures forall j :: p <= j < p + count ==> Bit(a, j) == Bit(b, j)
  {
    hide Bit;
    if count > 0 {
      NextBit(a, p, count - 1);
      NextBit(b, p, count - 1);
      hide Number;
      SameDigits(Number(a, p, count - 1), Number(b, p, count - 1), Bit(a, p + count - 1), Bit(b, p + count - 1));
      EqualNumbers(a, b, p, count - 1);
    }
  }

  lemma {:induction false} EqualBits(a: Bytes, b: Bytes, p: nat, count: nat)
    requires forall j :: p <= j < p + count ==> Bit(a, j) == Bit(b, j)
    ensures Number(a, p, count) == Number(b, p, count)
  {
    if count > 0 {
      EqualBits(a, b, p, count - 1);
    }
  }

  /** Different inputs, of whatever lengths, have different encodings. */
  lemma Base32Injective(a: Bytes, b: Bytes)
    requires Base32(a) == Base32(b)
    ensures a == b
  {
    Pow32();
    assert |Base32(a)| == LettersNeeded(a) && |Base32(b)| == LettersNeeded(b);
    assert |a| == |b|;
    forall i | 0 <= i < |a| ensures a[i] == b[i] {
      forall j | 8 * i <= j < 8 * i + 8 ensures Bit(a, j) == Bit(b, j) {
        var k := j / 5;
        assert Base32(a)[k] == Letter(a, k) && Base32(b)[k] == Letter(b, k);
        SameLetter(a, b, k);
        EqualNumbers(a, b, 5 * k, 5);
      }
      EqualBits(a, b, 8 * i, 8);
      ByteNumber(a, i);
      ByteNumber(b, i);
    }
  }
}
