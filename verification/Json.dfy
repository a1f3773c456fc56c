/**
 Compact JSON text, as the serialiser of the program prints it, for the values that are
 signed: null, natural numbers, strings and arrays. No two values print alike.
 */
module Json {
  import opened Bytes

  datatype Json = Null | Num(n: nat) | Str(s: Bytes) | Arr(items: seq<Json>)

  const QUOTE: Byte := 34

  const COMMA: Byte := 44

  const OPEN: Byte := 91

  const BACKSLASH: Byte := 92

  const CLOSE: Byte := 93

  /** The letter of a two-character escape (section 7 of RFC 8259), or 0 for none. */
  function ShortEscape(c: Byte): Byte {
    match c
    case 34 => 34
    case 92 => 92
    case 8 => 98
    case 12 => 102
    case 10 => 110
    case 13 => 114
    case 9 => 116
    case _ => 0
  }

  /** One byte of UTF-8 text inside a JSON string; everything from the space up stands for itself. */
  function EscapeByte(c: Byte): (r: Bytes)
    ensures r != [] && r[0] != QUOTE
  {
    if ShortEscape(c) != 0 then [BACKSLASH, ShortEscape(c)]
    else if c < 32 then [BACKSLASH, 117, 48, 48, HexDigit(c / 16), HexDigit(c % 16)]
    else [c]
  }

  function Escape(s: Bytes): Bytes {
    if s == [] then [] else EscapeByte(s[0]) + Escape(s[1..])
  }

  /** Compact form: no spaces, items separated by commas. */
  function Print(v: Json): Bytes
    decreases v
  {
    match v
    case Null => [110, 117, 108, 108]
    case Num(n) => Decimal(n)
    case Str(s) => [QUOTE] + Escape(s) + [QUOTE]
    case Arr(items) =>
      if items == [] then [OPEN, CLOSE] else [OPEN] + Print(items[0]) + Tail(items[1..])
  }

  /** What follows the first item of an array. */
  function Tail(items: seq<Json>): (r: Bytes)
    ensures r != [] && (r[0] == if items == [] then CLOSE else COMMA)
    decreases items
  {
    if items == [] then [CLOSE] else [COMMA] + Print(items[0]) + Tail(items[1..])
  }

  // ---------- unique decodability ----------

  lemma EscapeByteUnique(c: Byte, d: Byte, u: Bytes, v: Bytes)
    requires EscapeByte(c) + u == EscapeByte(d) + v
    ensures c == d && u == v
  {
    var l, r := EscapeByte(c) + u, EscapeByte(d) + v;
    assert l[0] == EscapeByte(c)[0] && r[0] == EscapeByte(d)[0];
    if EscapeByte(c)[0] == BACKSLASH {
      assert l[1] == EscapeByte(c)[1] && r[1] == EscapeByte(d)[1];
      if EscapeByte(c)[1] == 117 {
        assert l[4] == EscapeByte(c)[4] && r[4] == EscapeByte(d)[4];
        assert l[5] == EscapeByte(c)[5] && r[5] == EscapeByte(d)[5];
      }
    }
    assert c == d;
    assert l[|EscapeByte(c)|..] == u && r[|EscapeByte(c)|..] == v;
  }

  lemma EscapeSplit(s: Bytes, x: Bytes)
    ensures var l := Escape(s) + [QUOTE] + x;
            if s == [] then l[0] == QUOTE && l[1..] == x
            else l[0] != QUOTE && l == EscapeByte(s[0]) + (Escape(s[1..]) + [QUOTE] + x)
  {
    if s != [] {
      hide EscapeByte;
      assert Escape(s) == EscapeByte(s[0]) + Escape(s[1..]);
    }
  }

  lemma {:induction false} EscapeUnique(s: Bytes, t: Bytes, x: Bytes, y: Bytes)
    requires Escape(s) + [QUOTE] + x == Escape(t) + [QUOTE] + y
    ensures s == t && x == y
    decreases |s|
  {
    EscapeSplit(s, x);
    EscapeSplit(t, y);
    hide Escape, EscapeByte;
    if s != [] {
      EscapeByteUnique(s[0], t[0], Escape(s[1..]) + [QUOTE] + x, Escape(t[1..]) + [QUOTE] + y);
      EscapeUnique(s[1..], t[1..], x, y);
      assert s == [s[0]] + s[1..] && t == [t[0]] + t[1..];
    }
  }

  /** Where a value can end. */
  predicate Stop(x: Bytes) {
    x == [] || x[0] == COMMA || x[0] == CLOSE
  }

  lemma ShorterDiffers(m: nat, n: nat, x: Bytes, y: Bytes)
    requires Stop(x) && |Decimal(m)| < |Decimal(n)|
    ensures Decimal(m) + x != Decimal(n) + y
  {
    var k := |Decimal(m)|;
    if x != [] {
      assert (Decimal(m) + x)[k] == x[0];
      assert IsDigit((Decimal(n) + y)[k]);
    }
  }

  lemma DecimalUnique(m: nat, n: nat, x: Bytes, y: Bytes)
    requires Stop(x) && Stop(y) && Decimal(m) + x == Decimal(n) + y
    ensures m == n && x == y
  {
    if |Decimal(m)| < |Decimal(n)| {
      ShorterDiffers(m, n, x, y);
    } else if |Decimal(n)| < |Decimal(m)| {
      ShorterDiffers(n, m, y, x);
    } else {
      var k := |Decimal(m)|;
      assert (Decimal(m) + x)[..k] == Decimal(m) && (Decimal(n) + y)[..k] == Decimal(n);
      assert (Decimal(m) + x)[k..] == x && (Decimal(n) + y)[k..] == y;
      DecimalInjective(m, n);
    }
  }

  /** The first byte tells the kind of a value. */
  function Kind(c: Byte): nat {
    if c == 110 then 0 else if IsDigit(c) then 1 else if c == QUOTE then 2 else if c == OPEN then 3 else 4
  }

  function KindOf(v: Json): nat {
    match v
    case Null => 0
    case Num(_) => 1
    case Str(_) => 2
    case Arr(_) => 3
  }

  lemma FirstByte(v: Json)
    ensures Print(v) != [] && Kind(Print(v)[0]) == KindOf(v)
  {
  }

  lemma StringSplit(s: Bytes, x: Bytes)
    ensures (Print(Str(s)) + x)[1..] == Escape(s) + [QUOTE] + x
  {
    hide Escape;
  }

  lemma StringUnique(s: Bytes, t: Bytes, x: Bytes, y: Bytes)
    requires Print(Str(s)) + x == Print(Str(t)) + y
    ensures s == t && x == y
  {
    StringSplit(s, x);
    StringSplit(t, y);
    EscapeUnique(s, t, x, y);
  }

  lemma SameKind(v: Json, w: Json, x: Bytes, y: Bytes)
    requires Print(v) + x == Print(w) + y
    ensures KindOf(v) == KindOf(w)
  {
    FirstByte(v);
    FirstByte(w);
    assert (Print(v) + x)[0] == Print(v)[0] && (Print(w) + y)[0] == Print(w)[0];
  }

  /** A printed value can be told from what follows it. */
  lemma {:induction false} PrintUnique(v: Json, w: Json, x: Bytes, y: Bytes)
    requires Stop(x) && Stop(y) && Print(v) + x == Print(w) + y
    ensures v == w && x == y
    decreases v
  {
    SameKind(v, w, x, y);
    match v
    case Null =>
      assert (Print(v) + x)[4..] == x && (Print(w) + y)[4..] == y;
    case Num(n) =>
      DecimalUnique(n, w.n, x, y);
    case Str(s) =>
      StringUnique(s, w.s, x, y);
    case Arr(a) =>
      ArrayUnique(a, w.items, x, y);
  }

  lemma TailSplit(a: seq<Json>, x: Bytes)
    requires a != []
    ensures (Tail(a) + x)[1..] == Print(a[0]) + (Tail(a[1..]) + x)
  {
  }

  lemma ArraySplit(a: seq<Json>, x: Bytes)
    requires a != []
    ensures (Print(Arr(a)) + x)[1..] == Print(a[0]) + (Tail(a[1..]) + x)
  {
  }

  lemma EmptyArrayDiffers(a: seq<Json>, x: Bytes, y: Bytes)
    requires a != []
    ensures Print(Arr([])) + x != Print(Arr(a)) + y
  {
    FirstByte(a[0]);
    assert (Print(Arr([])) + x)[1] == CLOSE;
    assert (Print(Arr(a)) + y)[1] == Print(a[0])[0];
  }

  lemma {:induction false} ArrayUnique(a: seq<Json>, b: seq<Json>, x: Bytes, y: Bytes)
    requires Print(Arr(a)) + x == Print(Arr(b)) + y
    ensures a == b && x == y
    decreases a, 1
  {
    if a == [] && b == [] {
      assert (Print(Arr(a)) + x)[2..] == x && (Print(Arr(b)) + y)[2..] == y;
    } else if a == [] {
      EmptyArrayDiffers(b, x, y);
    } else if b == [] {
      EmptyArrayDiffers(a, y, x);
    } else {
      hide Print, Tail;
      ArraySplit(a, x);
      ArraySplit(b, y);
      ItemsUnique(a, b, x, y);
    }
  }

  lemma {:induction false} TailUnique(a: seq<Json>, b: seq<Json>, x: Bytes, y: Bytes)
    requires Tail(a) + x == Tail(b) + y
    ensures a == b && x == y
    decreases a, 1
  {
    assert (Tail(a) + x)[0] == Tail(a)[0] && (Tail(b) + y)[0] == Tail(b)[0];
    if a == [] {
      assert (Tail(a) + x)[1..] == x && (Tail(b) + y)[1..] == y;
    } else {
      hide Print, Tail;
      TailSplit(a, x);
      TailSplit(b, y);
      ItemsUnique(a, b, x, y);
    }
  }

  lemma {:induction false} ItemsUnique(a: seq<Json>, b: seq<Json>, x: Bytes, y: Bytes)
    requires a != [] && b != []
    requires Print(a[0]) + (Tail(a[1..]) + x) == Print(b[0]) + (Tail(b[1..]) + y)
    ensures a == b && x == y
    decreases a, 0
  {
    PrintUnique(a[0], b[0], Tail(a[1..]) + x, Tail(b[1..]) + y);
    TailUnique(a[1..], b[1..], x, y);
    assert a == [a[0]] + a[1..] && b == [b[0]] + b[1..];
  }

  lemma PrintInjective(v: Json, w: Json)
    requires Print(v) == Print(w)
    ensures v == w
  {
    assert Print(v) + [] == Print(w) + [];
    PrintUnique(v, w, [], []);
  }
}
