/** Strings inside JSON text: how `JSON.stringify` quotes them and `JSON.parse` reads them. */
module JsonString {
  import opened Wrappers
  import opened Utf16

  const QUOTE: Unit := 0x22
  const BACKSLASH: Unit := 0x5C
  const U: Unit := 0x75

  function Hex(v: nat): Unit
    requires v < 16
  {
    if v < 10 then 0x30 + v else 0x61 + v - 10
  }

  function HexValue(u: Unit): Option<nat> {
    if 0x30 <= u <= 0x39 then Some(u - 0x30)
    else if 0x61 <= u <= 0x66 then Some(u - 0x61 + 10)
    else if 0x41 <= u <= 0x46 then Some(u - 0x41 + 10)
    else None
  }

  /** The letter of a two-character escape, if the unit has one. */
  function Letter(u: Unit): Option<Unit> {
    if u == 0x22 || u == 0x5C then Some(u)
    else if u == 0x08 then Some(0x62)
    else if u == 0x09 then Some(0x74)
    else if u == 0x0A then Some(0x6E)
    else if u == 0x0C then Some(0x66)
    else if u == 0x0D then Some(0x72)
    else None
  }

  function OfLetter(letter: Unit): Option<Unit> {
    if letter == 0x22 || letter == 0x5C || letter == 0x2F then Some(letter)
    else if letter == 0x62 then Some(0x08)
    else if letter == 0x74 then Some(0x09)
    else if letter == 0x6E then Some(0x0A)
    else if letter == 0x66 then Some(0x0C)
    else if letter == 0x72 then Some(0x0D)
    else None
  }

  function HexEscape(u: nat): seq<Unit>
    requires u < 0x10000
  {
    [BACKSLASH, U, Hex(u / 16 / 16 / 16), Hex(u / 16 / 16 % 16), Hex(u / 16 % 16), Hex(u % 16)]
  }

  /** A unit on its own; control characters and lone surrogates are written in hexadecimal. */
  function Escaped(u: Unit): (text: seq<Unit>)
    ensures text != []
  {
    if Letter(u).Some? then [BACKSLASH, Letter(u).value]
    else if u < 0x20 || IsHigh(u) || IsLow(u) then HexEscape(u)
    else [u]
  }

  predicate StartsWithPair(text: seq<Unit>) {
    |text| > 1 && IsHigh(text[0]) && IsLow(text[1])
  }

  function Quoted(text: seq<Unit>): seq<Unit> {
    if text == [] then []
    else if StartsWithPair(text) then [text[0], text[1]] + Quoted(text[2..])
    else Escaped(text[0]) + Quoted(text[1..])
  }

  function Cons(u: Unit, rest: Option<(seq<Unit>, seq<Unit>)>): Option<(seq<Unit>, seq<Unit>)> {
    if rest.None? then None else Some(([u] + rest.value.0, rest.value.1))
  }

  function HexUnit(a: Unit, b: Unit, c: Unit, d: Unit): Option<Unit> {
    var w, x, y, z := HexValue(a), HexValue(b), HexValue(c), HexValue(d);
    if w.None? || x.None? || y.None? || z.None? then None
    else Some(((w.value * 16 + x.value) * 16 + y.value) * 16 + z.value)
  }

  /** A string read up to its closing quote, and what follows it. */
  function Unquoted(s: seq<Unit>): Option<(seq<Unit>, seq<Unit>)> {
    if s == [] || s[0] < 0x20 then None
    else if s[0] == QUOTE then Some(([], s[1..]))
    else if s[0] != BACKSLASH then Cons(s[0], Unquoted(s[1..]))
    else if |s| < 2 then None
    else if s[1] == U then
      if |s| < 6 || HexUnit(s[2], s[3], s[4], s[5]).None? then None
      else Cons(HexUnit(s[2], s[3], s[4], s[5]).value, Unquoted(s[6..]))
    else if OfLetter(s[1]).None? then None
    else Cons(OfLetter(s[1]).value, Unquoted(s[2..]))
  }

  lemma HexDigitIsReadBack(v: nat)
    requires v < 16
    ensures HexValue(Hex(v)) == Some(v)
  {}

  lemma HexIsReadBack(u: nat)
    requires u < 0x10000
    ensures var e := HexEscape(u); HexUnit(e[2], e[3], e[4], e[5]) == Some(u)
  {
    HexDigitIsReadBack(u / 16 / 16 / 16);
    HexDigitIsReadBack(u / 16 / 16 % 16);
    HexDigitIsReadBack(u / 16 % 16);
    HexDigitIsReadBack(u % 16);
  }

  lemma LiteralIsReadBack(u: Unit, more: seq<Unit>)
    requires u >= 0x20 && u != QUOTE && u != BACKSLASH
    ensures Unquoted([u] + more) == Cons(u, Unquoted(more))
  {
    assert ([u] + more)[1..] == more;
  }

  lemma EscapedIsReadBack(u: Unit, more: seq<Unit>)
    ensures Unquoted(Escaped(u) + more) == Cons(u, Unquoted(more))
  {
    var s := Escaped(u) + more;
    assert s[|Escaped(u)|..] == more;
    if Letter(u).None? && (u < 0x20 || IsHigh(u) || IsLow(u)) {
      HexIsReadBack(u);
      assert s[..6] == HexEscape(u);
    }
  }

  lemma PairIsReadBack(high: Unit, low: Unit, more: seq<Unit>)
    requires IsHigh(high) && IsLow(low)
    ensures Unquoted([high, low] + more) == Cons(high, Cons(low, Unquoted(more)))
  {
    LiteralIsReadBack(low, more);
    LiteralIsReadBack(high, [low] + more);
    assert [high, low] + more == [high] + ([low] + more);
  }

  lemma PairStep(text: seq<Unit>, end: seq<Unit>)
    requires StartsWithPair(text)
    ensures Unquoted(Quoted(text) + end) == Cons(text[0], Cons(text[1], Unquoted(Quoted(text[2..]) + end)))
  {
    PairIsReadBack(text[0], text[1], Quoted(text[2..]) + end);
    assert Quoted(text) + end == [text[0], text[1]] + (Quoted(text[2..]) + end);
  }

  lemma UnitStep(text: seq<Unit>, end: seq<Unit>)
    requires text != [] && !StartsWithPair(text)
    ensures Unquoted(Quoted(text) + end) == Cons(text[0], Unquoted(Quoted(text[1..]) + end))
  {
    EscapedIsReadBack(text[0], Quoted(text[1..]) + end);
    assert Quoted(text) + end == Escaped(text[0]) + (Quoted(text[1..]) + end);
  }

  lemma EndIsReadBack(rest: seq<Unit>)
    ensures Unquoted(Quoted([]) + ([QUOTE] + rest)) == Some(([], rest))
  {
    assert Quoted([]) + ([QUOTE] + rest) == [QUOTE] + rest;
    assert ([QUOTE] + rest)[1..] == rest;
  }

  /** Whatever text is quoted is read back, lone surrogates and control characters included. */
  lemma {:induction false} QuotedIsReadBack(text: seq<Unit>, rest: seq<Unit>)
    ensures Unquoted(Quoted(text) + ([QUOTE] + rest)) == Some((text, rest))
    decreases |text|
  {
    if text == [] {
      EndIsReadBack(rest);
    } else if StartsWithPair(text) {
      PairStep(text, [QUOTE] + rest);
      QuotedIsReadBack(text[2..], rest);
      assert text == [text[0]] + ([text[1]] + text[2..]);
    } else {
      UnitStep(text, [QUOTE] + rest);
      QuotedIsReadBack(text[1..], rest);
      assert text == [text[0]] + text[1..];
    }
  }

  /** What is quoted has no lone surrogate left, so that UTF-8 can carry it. */
  lemma {:induction false} QuotedIsWellFormed(text: seq<Unit>)
    ensures WellFormed(Quoted(text))
    decreases |text|
  {
    if text != [] {
      if StartsWithPair(text) {
        QuotedIsWellFormed(text[2..]);
        assert WellFormed([text[0], text[1]]);
        WellFormedConcat([text[0], text[1]], Quoted(text[2..]));
      } else {
        QuotedIsWellFormed(text[1..]);
        assert IsAscii(Escaped(text[0])) || Escaped(text[0]) == [text[0]];
        if IsAscii(Escaped(text[0])) {
          AsciiIsWellFormed(Escaped(text[0]));
        }
        WellFormedConcat(Escaped(text[0]), Quoted(text[1..]));
      }
    }
  }

  // ---------- The quoting itself ----------

  lemma HexIsLowerCase(v: nat)
    requires v < 16
    ensures Hex(v) == "0123456789abcdef"[v] as int
  {}

  function Ascii(c: char): Unit
    requires c as int < 0x80
  {
    c as int
  }

  /** The seven escapes of two characters. */
  lemma ShortEscapes()
    ensures Escaped(Ascii('\"')) == [Ascii('\\'), Ascii('\"')] && Escaped(Ascii('\\')) == [Ascii('\\'), Ascii('\\')]
    ensures Escaped(8) == [Ascii('\\'), Ascii('b')] && Escaped(9) == [Ascii('\\'), Ascii('t')]
    ensures Escaped(10) == [Ascii('\\'), Ascii('n')] && Escaped(12) == [Ascii('\\'), Ascii('f')]
    ensures Escaped(13) == [Ascii('\\'), Ascii('r')]
  {}

  /**
   Every other control character and every lone surrogate is a backslash, a u and the four hexadecimal digits
   of its code, in lower case; anything else is itself.
   */
  lemma LongEscapes(u: Unit)
    requires u !in {8, 9, 10, 12, 13, 0x22, 0x5C}
    ensures u < 32 || 0xD800 <= u < 0xE000 ==>
      Escaped(u)
      == [Ascii('\\'), Ascii('u'), Hex(u / 4096), Hex(u / 256 % 16), Hex(u / 16 % 16), Hex(u % 16)]
    ensures !(u < 32 || 0xD800 <= u < 0xE000) ==> Escaped(u) == [u]
  {
    assert u / 16 / 16 == u / 256 && u / 256 / 16 == u / 4096;
  }
}
