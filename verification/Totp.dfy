/** Numbers below 256 as bit vectors. */
module ByteBits {

  lemma AsBits(n: nat)
    requires n < 256
    ensures (n as bv8) as int == n
  {
  }

  lemma SameBits(m: nat, n: nat)
    requires m < 256 && n < 256
    ensures m as bv8 == n as bv8 <==> m == n
  {
    AsBits(m);
    AsBits(n);
  }

  lemma Accumulate(diff: bv8, x: bv8, y: bv8)
    ensures diff | (x ^ y) == 0 <==> diff == 0 && x == y
  {
  }
}

/**
 Time-based one-time passwords: the code for a time (section 4.2 of RFC 6238 and section
 5.3 of RFC 4226) and the window of times whose codes are accepted (section 5.2 of RFC 6238).
 */
module Totp {
  import opened Bytes
  import opened ByteBits

  const DEFAULT_DIGITS: nat := 6

  const DEFAULT_STEP: nat := 30

  type Digest = d: Bytes | |d| == 20 witness seq(20, i => 0)

  /** HMAC-SHA-1 of a message under a secret, a library call. */
  type Mac = (Bytes, Bytes) -> Digest

  // ---------- codes ----------

  function BigEndian64(n: U64): (r: Bytes)
    ensures |r| == 8
  {
    var high, low := n / 0x1_0000_0000, n % 0x1_0000_0000;
    BigEndian32(high) + BigEndian32(low)
  }

  /** Four bytes of the digest, chosen by its last four bits, less the top bit. */
  function Truncated(mac: Digest): U32 {
    var d: seq<int> := mac;
    var offset := d[19] % 16;
    d[offset] % 128 * 0x100_0000 + d[offset + 1] * 0x1_0000 + d[offset + 2] * 0x100 + d[offset + 3]
  }

  function Pow10(k: nat): (r: nat)
    ensures r > 0
  {
    if k == 0 then 1 else 10 * Pow10(k - 1)
  }

  function Zeros(k: nat): Bytes {
    seq(k, i => 48)
  }

  /** A decimal numeral padded with zeros to the width, or longer if it does not fit. */
  function Padded(n: nat, width: nat): Bytes {
    var digits := Decimal(n);
    if |digits| < width then Zeros(width - |digits|) + digits else digits
  }

  function Residue(hmac: Mac, secret: Bytes, counter: U64, digits: nat): nat {
    Truncated(hmac(secret, BigEndian64(counter))) % Pow10(digits)
  }

  /** Ten digits or more would overflow the power of ten. */
  function TotpCode(hmac: Mac, secret: Bytes, time: U64, digits: nat, step: nat): Bytes
    requires step > 0 && digits <= 9
  {
    Padded(Residue(hmac, secret, time / step, digits), digits)
  }

  /** The four bytes of the digest from the offset that its last four bits give, as one number. */
  function WordOf(mac: Digest): nat {
    var d: seq<int> := mac;
    var o := d[19] % 16;
    ((d[o] * 256 + d[o + 1]) * 256 + d[o + 2]) * 256 + d[o + 3]
  }

  /** The truncation is the 31 low bits of that number. */
  lemma TruncatedWord(mac: Digest)
    ensures Truncated(mac) == WordOf(mac) % 0x8000_0000
  {
    var d: seq<int> := mac;
    var o := d[19] % 16;
    var high, low := d[o], d[o + 1] * 0x1_0000 + d[o + 2] * 0x100 + d[o + 3];
    assert WordOf(mac) == high * 0x100_0000 + low && 0 <= low < 0x100_0000;
    assert high == high / 128 * 128 + high % 128;
  }

  /** Eight bytes that spell a number to base 256, the most significant first. */
  predicate Spells(b: Bytes, n: nat) {
    |b| == 8
    && var d: seq<int> := b;
       n == ((((((d[0] * 256 + d[1]) * 256 + d[2]) * 256 + d[3]) * 256 + d[4]) * 256 + d[5]) * 256 + d[6]) * 256 + d[7]
  }

  lemma TwoWords(b: seq<int>, high: int, low: int)
    requires |b| == 8
    requires high == ((b[0] * 256 + b[1]) * 256 + b[2]) * 256 + b[3]
    requires low == ((b[4] * 256 + b[5]) * 256 + b[6]) * 256 + b[7]
    ensures high * 0x1_0000_0000 + low
         == ((((((b[0] * 256 + b[1]) * 256 + b[2]) * 256 + b[3]) * 256 + b[4]) * 256 + b[5]) * 256 + b[6]) * 256 + b[7]
  {
  }

  /** The counter is authenticated as the eight bytes that spell it. */
  lemma CounterSpelled(n: U64)
    ensures Spells(BigEndian64(n), n)
  {
    var high, low := n / 0x1_0000_0000, n % 0x1_0000_0000;
    Word32(high);
    Word32(low);
    hide BigEndian32;
    var b: seq<int> := BigEndian64(n);
    assert b[..4] == BigEndian32(high) && b[4..] == BigEndian32(low);
    assert b[0] == b[..4][0] && b[1] == b[..4][1] && b[2] == b[..4][2] && b[3] == b[..4][3];
    assert b[4] == b[4..][0] && b[5] == b[4..][1] && b[6] == b[4..][2] && b[7] == b[4..][3];
    TwoWords(b, high, low);
    assert n == high * 0x1_0000_0000 + low;
  }

  /** Only one string of eight bytes spells a number. */
  lemma SpellingUnique(a: Bytes, b: Bytes, n: nat)
    requires Spells(a, n) && Spells(b, n)
    ensures a == b
  {
    var c: seq<int>, d: seq<int> := a, b;
    var c1 := c[0] * 256 + c[1];
    var d1 := d[0] * 256 + d[1];
    var c2 := c1 * 256 + c[2];
    var d2 := d1 * 256 + d[2];
    var c3 := c2 * 256 + c[3];
    var d3 := d2 * 256 + d[3];
    var c4 := c3 * 256 + c[4];
    var d4 := d3 * 256 + d[4];
    var c5 := c4 * 256 + c[5];
    var d5 := d4 * 256 + d[5];
    var c6 := c5 * 256 + c[6];
    var d6 := d5 * 256 + d[6];
    LastByte(c6, c[7], d6, d[7]);
    LastByte(c5, c[6], d5, d[6]);
    LastByte(c4, c[5], d4, d[5]);
    LastByte(c3, c[4], d3, d[4]);
    LastByte(c2, c[3], d2, d[3]);
    LastByte(c1, c[2], d1, d[2]);
    LastByte(c[0], c[1], d[0], d[1]);
    assert forall i :: 0 <= i < 8 ==> a[i] == b[i];
  }

  lemma LastByte(m: int, x: int, n: int, y: int)
    requires m * 256 + x == n * 256 + y && 0 <= x < 256 && 0 <= y < 256
    ensures m == n && x == y
  {
  }

  // ---------- what a code says ----------

  lemma {:induction false} LeadingZeros(k: nat, s: Bytes)
    requires AllDigits(s)
    ensures ValueOf(Zeros(k) + s) == ValueOf(s)
    decreases k + |s|
  {
    var t := Zeros(k) + s;
    if s != [] {
      assert t[..|t| - 1] == Zeros(k) + s[..|s| - 1];
      LeadingZeros(k, s[..|s| - 1]);
    } else if k > 0 {
      assert t[..|t| - 1] == Zeros(k - 1) + [];
      LeadingZeros(k - 1, []);
    }
  }

  lemma {:induction false} DecimalFits(n: nat, width: nat)
    requires n < Pow10(width) && width > 0
    ensures |Decimal(n)| <= width
  {
    if n >= 10 {
      DecimalFits(n / 10, width - 1);
    }
  }

  lemma {:induction false} EqualValues(s: Bytes, t: Bytes)
    requires AllDigits(s) && AllDigits(t) && |s| == |t| && ValueOf(s) == ValueOf(t)
    ensures s == t
  {
    if s != [] {
      var k := |s| - 1;
      EqualValues(s[..k], t[..k]);
      assert s == s[..k] + [s[k]] && t == t[..k] + [t[k]];
    }
  }

  lemma PaddedSays(n: nat, width: nat)
    requires n < Pow10(width) && width > 0
    ensures var s := Padded(n, width);
            |s| == width && AllDigits(s) && ValueOf(s) == n
  {
    DecimalFits(n, width);
    DecimalValue(n);
    LeadingZeros(width - |Decimal(n)|, Decimal(n));
    hide Pow10, Decimal;
  }

  /** Among the strings of `width` digits, the padded numeral is the one that denotes the number. */
  lemma PaddedIff(n: nat, width: nat, s: Bytes)
    requires n < Pow10(width) && width > 0
    ensures s == Padded(n, width) <==> |s| == width && AllDigits(s) && ValueOf(s) == n
  {
    PaddedSays(n, width);
    hide Padded, ValueOf, Pow10;
    if |s| == width && AllDigits(s) && ValueOf(s) == n {
      EqualValues(s, Padded(n, width));
    }
  }

  const POWERS_OF_TEN: seq<nat> :=
    [1, 10, 100, 1000, 10000, 100000, 1000000, 10000000, 100000000, 1000000000]

  /** The digits denote the truncated MAC of the spelled counter, modulo that power of ten. */
  ghost predicate SaysCode(hmac: Mac, code: Bytes, secret: Bytes, counter: nat, digits: nat)
    requires AllDigits(code) && digits <= 9
  {
    exists message :: Spells(message, counter)
      && ValueOf(code) == WordOf(hmac(secret, message)) % 0x8000_0000 % POWERS_OF_TEN[digits]
  }

  lemma PowersOfTen(k: nat)
    requires k <= 9
    ensures Pow10(k) == POWERS_OF_TEN[k]
  {
    assert Pow10(3) == 1000;
    assert Pow10(6) == 1000000;
    assert Pow10(9) == 1000000000;
  }

  lemma SaysResidue(hmac: Mac, code: Bytes, secret: Bytes, counter: U64, digits: nat)
    requires AllDigits(code) && digits <= 9
    ensures SaysCode(hmac, code, secret, counter, digits) <==> ValueOf(code) == Residue(hmac, secret, counter, digits)
  {
    hide Spells, WordOf, BigEndian64, ValueOf, Pow10;
    CounterSpelled(counter);
    TruncatedWord(hmac(secret, BigEndian64(counter)));
    PowersOfTen(digits);
    forall message | Spells(message, counter) ensures message == BigEndian64(counter) {
      SpellingUnique(message, BigEndian64(counter), counter);
    }
  }

  /** The code for a time, as the one string of that many digits that denotes the right number. */
  lemma CodeOutcome(hmac: Mac, secret: Bytes, time: U64, digits: nat, step: nat, s: Bytes)
    requires 0 < step && 0 < digits <= 9
    ensures s == TotpCode(hmac, secret, time, digits, step) <==>
            |s| == digits && AllDigits(s) && SaysCode(hmac, s, secret, time / step, digits)
  {
    hide Residue, Padded, ValueOf, SaysCode, Pow10;
    ResidueFits(hmac, secret, time / step, digits);
    PaddedIff(Residue(hmac, secret, time / step, digits), digits, s);
    if AllDigits(s) {
      SaysResidue(hmac, s, secret, time / step, digits);
    }
  }

  lemma ResidueFits(hmac: Mac, secret: Bytes, counter: U64, digits: nat)
    ensures Residue(hmac, secret, counter, digits) < Pow10(digits)
  {
    hide Pow10, Truncated;
  }

  // ---------- comparison ----------

  /** Looks at every byte whatever it finds. */
  method ConstantTimeStrEq(a: Bytes, b: Bytes) returns (equal: bool)
    ensures equal <==> a == b
  {
    if |a| != |b| {
      return false;
    }
    var diff: bv8 := 0;
    for i := 0 to |a|
      invariant diff == 0 <==> a[..i] == b[..i]
    {
      var x, y := a[i] as bv8, b[i] as bv8;
      Accumulate(diff, x, y);
      SameBits(a[i], b[i]);
      assert a[..i + 1] == a[..i] + [a[i]] && b[..i + 1] == b[..i] + [b[i]];
      diff := diff | (x ^ y);
    }
    assert a[..|a|] == a && b[..|b|] == b;
    equal := diff == 0;
  }

  // ---------- the acceptance window ----------

  /** The characters with the Unicode property White_Space. */
  predicate IsWhitespace(c: char) {
    var n := c as int;
    9 <= n <= 13 || n in {0x20, 0x85, 0xA0, 0x1680, 0x2028, 0x2029, 0x202F, 0x205F, 0x3000} || 0x2000 <= n <= 0x200A
  }

  function Clean(input: string): string {
    if input == [] then []
    else if IsWhitespace(input[0]) then Clean(input[1..])
    else [input[0]] + Clean(input[1..])
  }

  /** Cleaning looks at each character by itself, and takes out exactly those that Unicode calls white space. */
  lemma {:induction false} CleanEach(a: string, b: string, c: char)
    ensures Clean(a + b) == Clean(a) + Clean(b)
    ensures Clean([c]) ==
            if c as int in {9, 10, 11, 12, 13, 32, 133, 160, 5760, 8192, 8193, 8194, 8195, 8196, 8197, 8198, 8199, 8200,
                            8201, 8202, 8232, 8233, 8239, 8287, 12288}
            then [] else [c]
  {
    assert [c][1..] == [];
    if a == [] {
      assert a + b == b;
    } else {
      assert (a + b)[1..] == a[1..] + b;
      CleanEach(a[1..], b, c);
    }
  }

  /** The number of bytes of a text in UTF-8. */
  function Utf8Length(s: string): nat {
    if s == [] then 0
    else
      var n := s[0] as int;
      (if n < 0x80 then 1 else if n < 0x800 then 2 else if n < 0x1_0000 then 3 else 4) + Utf8Length(s[1..])
  }

  predicate AsciiDigits(s: string) {
    forall i :: 0 <= i < |s| ==> '0' <= s[i] <= '9'
  }

  lemma {:induction false} DigitsAreBytes(s: string)
    requires AsciiDigits(s)
    ensures Utf8Length(s) == |s|
  {
    if s != [] {
      assert forall i :: 0 <= i < |s| - 1 ==> s[1..][i] == s[i + 1];
      DigitsAreBytes(s[1..]);
    }
  }

  /** A text of ASCII digits as bytes. */
  function DigitBytes(s: string): (r: Bytes)
    requires AsciiDigits(s)
    ensures |r| == |s| && AllDigits(r)
  {
    seq(|s|, i requires 0 <= i < |s| => s[i] as int)
  }

  /** A cast from i64 to u64. */
  function Cast64(n: int): U64
    requires -0x8000_0000_0000_0000 <= n < 0x8000_0000_0000_0000
  {
    if n < 0 then n + U64_MAX + 1 else n
  }

  const OFFSETS: seq<int> := [-30, 0, 30]

  /** A clock reading in seconds that can be moved by one step. */
  predicate Reading(now: int) {
    -0x8000_0000_0000_0000 <= now - 30 && now + 30 < 0x8000_0000_0000_0000
  }

  /** The digits are the code for the reading moved by the i-th offset. */
  predicate MatchesAt(hmac: Mac, code: string, secret: Bytes, now: int, i: nat)
    requires Reading(now) && AsciiDigits(code) && i < |OFFSETS|
  {
    TotpCode(hmac, secret, Cast64(now + OFFSETS[i]), DEFAULT_DIGITS, DEFAULT_STEP) == DigitBytes(code)
  }

  ghost predicate Accepted(hmac: Mac, code: string, secret: Bytes, now: int)
    requires Reading(now)
  {
    && |code| == DEFAULT_DIGITS && AsciiDigits(code)
    && exists i :: 0 <= i < |OFFSETS| && MatchesAt(hmac, code, secret, now, i)
  }

  method IsTotpCodeValid(hmac: Mac, input: string, secret: Bytes, now: int) returns (ok: bool)
    requires Reading(now)
    ensures ok <==> Accepted(hmac, Clean(input), secret, now)
  {
    var cleaned := Clean(input);
    if Utf8Length(cleaned) != DEFAULT_DIGITS || !AsciiDigits(cleaned) {
      if AsciiDigits(cleaned) {
        DigitsAreBytes(cleaned);
      }
      return false;
    }
    DigitsAreBytes(cleaned);
    for i := 0 to |OFFSETS|
      invariant forall j :: 0 <= j < i ==> !MatchesAt(hmac, cleaned, secret, now, j)
    {
      var code := TotpCode(hmac, secret, Cast64(now + OFFSETS[i]), DEFAULT_DIGITS, DEFAULT_STEP);
      var equal := ConstantTimeStrEq(code, DigitBytes(cleaned));
      if equal {
        assert MatchesAt(hmac, cleaned, secret, now, i);
        return true;
      }
    }
    ok := false;
  }

  /** The counter of a time in seconds, which as an unsigned number wraps below zero. */
  function CounterOf(time: int): nat
    requires -0x8000_0000_0000_0000 <= time
  {
    (if time < 0 then time + 0x1_0000_0000_0000_0000 else time) / 30
  }

  /**
   For every reading of the clock: exactly the six digits are accepted that denote the
   truncated MAC, modulo a million, of the counter at the reading or 30 seconds to either side.
   */
  lemma AcceptedIff(hmac: Mac, code: string, secret: Bytes, now: int)
    requires Reading(now)
    ensures Accepted(hmac, code, secret, now) <==>
              && |code| == 6 && AsciiDigits(code)
              && (|| SaysCode(hmac, DigitBytes(code), secret, CounterOf(now - 30), 6)
                  || SaysCode(hmac, DigitBytes(code), secret, CounterOf(now), 6)
                  || SaysCode(hmac, DigitBytes(code), secret, CounterOf(now + 30), 6))
  {
    if |code| == 6 && AsciiDigits(code) {
      MatchesIff(hmac, code, secret, now, 0);
      MatchesIff(hmac, code, secret, now, 1);
      MatchesIff(hmac, code, secret, now, 2);
      hide MatchesAt, SaysCode, CounterOf, DigitBytes, AsciiDigits;
      assert |OFFSETS| == 3;
    }
  }

  lemma MatchesIff(hmac: Mac, code: string, secret: Bytes, now: int, i: nat)
    requires Reading(now) && |code| == 6 && AsciiDigits(code) && i < 3
    ensures MatchesAt(hmac, code, secret, now, i)
            <==> SaysCode(hmac, DigitBytes(code), secret, CounterOf(now + (30 * i - 30)), 6)
  {
    hide SaysCode, TotpCode;
    assert OFFSETS[i] == 30 * i - 30;
    CodeOutcome(hmac, secret, Cast64(now + OFFSETS[i]), 6, 30, DigitBytes(code));
  }

  /** From the second time step on these are the current counter and its two neighbours. */
  lemma Neighbours(now: int)
    requires now >= 30
    ensures CounterOf(now - 30) == now / 30 - 1 && CounterOf(now) == now / 30 && CounterOf(now + 30) == now / 30 + 1
  {
  }

  /** A code is accepted within 30 seconds of its time, on either side, however it is spaced. */
  lemma CodeStaysValid(hmac: Mac, input: string, secret: Bytes, time: nat, now: int)
    requires time <= U64_MAX && Reading(now) && now >= 30 && -30 <= now - time <= 30
    requires AsciiDigits(Clean(input))
    requires DigitBytes(Clean(input)) == TotpCode(hmac, secret, time, DEFAULT_DIGITS, DEFAULT_STEP)
    ensures Accepted(hmac, Clean(input), secret, now)
  {
    var code := Clean(input);
    CodeOutcome(hmac, secret, time, 6, 30, DigitBytes(code));
    AcceptedIff(hmac, code, secret, now);
    Neighbours(now);
    assert now / 30 - 1 <= time / 30 <= now / 30 + 1;
    hide SaysCode;
  }
}
