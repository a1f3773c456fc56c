/**
 A reader of compact JSON text, after the grammar of RFC 8259, as the independent meaning of
 what the serialiser prints: every printed value reads back as itself.
 */
module JsonReader {
  import opened Wrappers
  import opened Bytes
  import opened Json

  // ---------- strings ----------

  /** What a two-character escape stands for (section 7), or 0 for none. */
  function Unescaped(letter: Byte): Byte {
    if letter == 34 || letter == 92 || letter == 47 then letter
    else if letter == 98 then 8
    else if letter == 102 then 12
    else if letter == 110 then 10
    else if letter == 114 then 13
    else if letter == 116 then 9
    else 0
  }

  datatype Piece = Piece(text: Bytes, length: nat)

  /** The first character of a string: a plain one, a two-character escape, or a six-character one of ASCII. */
  function FirstPiece(s: Bytes): (r: Option<Piece>)
    ensures r.Some? ==> 0 < r.value.length <= |s| && |r.value.text| == 1
  {
    if s == [] || s[0] < 32 || s[0] == 34 then None
    else if s[0] != 92 then Some(Piece([s[0]], 1))
    else if |s| >= 2 && Unescaped(s[1]) != 0 then Some(Piece([Unescaped(s[1])], 2))
    else if |s| >= 6 && s[1] == 117 && s[2] == 48 && s[3] == 48 && HexValue(s[4]) < 8 && HexValue(s[5]) < 16
    then Some(Piece([16 * HexValue(s[4]) + HexValue(s[5])], 6))
    else None
  }

  /** The text up to the closing quote, and what follows it. */
  function ReadString(s: Bytes): (r: Option<(Bytes, Bytes)>)
    ensures r.Some? ==> |r.value.1| < |s|
    decreases |s|
  {
    if s == [] then None
    else if s[0] == 34 then Some(([], s[1..]))
    else
      match FirstPiece(s)
      case None => None
      case Some(piece) =>
        match ReadString(s[piece.length..])
        case None => None
        case Some((text, rest)) => Some((piece.text + text, rest))
  }

  lemma EscapedReads(c: Byte, x: Bytes)
    ensures FirstPiece(EscapeByte(c) + x) == Some(Piece([c], |EscapeByte(c)|))
    ensures EscapeByte(c)[0] != QUOTE
  {
    var s, e := EscapeByte(c) + x, EscapeByte(c);
    assert s[0] == e[0];
    if |e| >= 2 {
      assert s[1] == e[1];
    }
    if |e| == 6 {
      assert s[2] == e[2] && s[3] == e[3] && s[4] == e[4] && s[5] == e[5];
    }
  }

  lemma {:induction false} EscapeReads(s: Bytes, x: Bytes)
    ensures ReadString(Escape(s) + [QUOTE] + x) == Some((s, x))
  {
    var t := Escape(s) + [QUOTE] + x;
    if s == [] {
      assert t[1..] == x;
    } else {
      var e, rest := EscapeByte(s[0]), Escape(s[1..]) + [QUOTE] + x;
      assert t == e + rest;
      EscapedReads(s[0], rest);
      assert t[|e|..] == rest && t[0] == e[0];
      EscapeReads(s[1..], x);
      assert [s[0]] + s[1..] == s;
    }
  }

  lemma PieceNotShorter(s: Bytes, c: Byte)
    requires FirstPiece(s).Some? && FirstPiece(s).value.text == [c]
    ensures |EscapeByte(c)| <= FirstPiece(s).value.length
  {
    hide HexValue;
    var piece := FirstPiece(s).value;
    if piece.length == 1 {
      assert [s[0]][0] == c;
    } else if piece.length == 2 {
      assert [Unescaped(s[1])][0] == c;
    }
  }

  /** Nothing is escaped that need not be, and nothing longer than it need be. */
  lemma EscapeIsShortest(c: Byte, spelling: Bytes)
    requires ReadString(spelling + [QUOTE]) == Some(([c], []))
    ensures |EscapeByte(c)| <= |spelling|
  {
    hide FirstPiece, EscapeByte;
    var s := spelling + [QUOTE];
    assert s[0] != QUOTE;
    var piece := FirstPiece(s).value;
    var rest := s[piece.length..];
    assert ReadString(rest).Some? && piece.text + ReadString(rest).value.0 == [c];
    assert piece.text[0] == [c][0];
    assert piece.text == [c];
    PieceNotShorter(s, c);
  }

  // ---------- values ----------

  /** The number of digits a text starts with. */
  function DigitRun(s: Bytes): (k: nat)
    ensures k <= |s| && forall i :: 0 <= i < k ==> IsDigit(s[i])
    ensures k < |s| ==> !IsDigit(s[k])
  {
    if s == [] || !IsDigit(s[0]) then 0 else 1 + DigitRun(s[1..])
  }

  /** A value at the start of a text, and what follows it. Numbers have no leading zero (section 6). */
  function ReadValue(s: Bytes): (r: Option<(Json, Bytes)>)
    ensures r.Some? ==> |r.value.1| < |s|
    decreases |s|, 0
  {
    if s == [] then None
    else if s[0] == 110 then
      if |s| >= 4 && s[..4] == [110, 117, 108, 108] then Some((Null, s[4..])) else None
    else if IsDigit(s[0]) then
      var k := DigitRun(s);
      if s[0] == 48 && k > 1 then None else Some((Num(ValueOf(s[..k])), s[k..]))
    else if s[0] == 34 then
      match ReadString(s[1..])
      case None => None
      case Some((text, rest)) => Some((Str(text), rest))
    else if s[0] == 91 then
      if |s| >= 2 && s[1] == 93 then Some((Arr([]), s[2..]))
      else
        match ReadItems(s[1..])
        case None => None
        case Some((items, rest)) => Some((Arr(items), rest))
    else None
  }

  /** One or more values separated by commas, up to the closing bracket. */
  function ReadItems(s: Bytes): (r: Option<(seq<Json>, Bytes)>)
    ensures r.Some? ==> |r.value.1| < |s|
    decreases |s|, 1
  {
    match ReadValue(s)
    case None => None
    case Some((item, rest)) =>
      if rest == [] then None
      else if rest[0] == 93 then Some(([item], rest[1..]))
      else if rest[0] == 44 then
        match ReadItems(rest[1..])
        case None => None
        case Some((items, rest2)) => Some(([item] + items, rest2))
      else None
  }

  lemma {:induction false} RunOfDigits(d: Bytes, x: Bytes)
    requires AllDigits(d) && Stop(x)
    ensures DigitRun(d + x) == |d|
  {
    if d == [] {
      assert d + x == x;
    } else {
      assert (d + x)[0] == d[0] && (d + x)[1..] == d[1..] + x;
      RunOfDigits(d[1..], x);
    }
  }

  lemma NumberReads(n: nat, x: Bytes)
    requires Stop(x)
    ensures ReadValue(Decimal(n) + x) == Some((Num(n), x))
  {
    var s, d := Decimal(n) + x, Decimal(n);
    assert s[0] == d[0] && IsDigit(s[0]);
    DecimalValue(n);
    DecimalShortest(n);
    RunOfDigits(d, x);
    assert s[..|d|] == d && s[|d|..] == x;
  }

  /** Every printed value, before anything that may follow it, reads back as itself. */
  lemma {:induction false} PrintReads(v: Json, x: Bytes)
    requires Stop(x)
    ensures ReadValue(Print(v) + x) == Some((v, x))
    decreases v
  {
    FirstByte(v);
    var s := Print(v) + x;
    assert s[0] == Print(v)[0];
    match v
    case Null =>
      assert s[..4] == [110, 117, 108, 108] && s[4..] == x;
    case Num(n) =>
      NumberReads(n, x);
    case Str(t) =>
      StringSplit(t, x);
      EscapeReads(t, x);
    case Arr(items) =>
      if items == [] {
        assert s[1] == CLOSE && s[2..] == x;
      } else {
        ArraySplit(items, x);
        ItemsRead(items, x);
        FirstByte(items[0]);
        assert s[1] == s[1..][0] == Print(items[0])[0];
      }
  }

  lemma {:induction false} ItemsRead(items: seq<Json>, x: Bytes)
    requires items != []
    ensures ReadItems(Print(items[0]) + (Tail(items[1..]) + x)) == Some((items, x))
    decreases items
  {
    var more := items[1..];
    var rest := Tail(more) + x;
    assert rest[0] == Tail(more)[0];
    PrintReads(items[0], rest);
    if more == [] {
      assert rest[1..] == x;
      assert items == [items[0]];
    } else {
      TailSplit(more, x);
      ItemsRead(more, x);
      assert items == [items[0]] + more;
    }
  }
}
