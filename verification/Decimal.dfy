/** Decimal numerals as JavaScript writes whole numbers, and reading them back. */
module Decimal {
  predicate IsDigit(c: char) {
    '0' <= c <= '9'
  }

  predicate AllDigits(text: string) {
    forall i | 0 <= i < |text| :: IsDigit(text[i])
  }

  function Digit(n: nat): (c: char)
    requires n < 10
    ensures IsDigit(c)
  {
    '0' + n as char
  }

  function DigitValue(c: char): nat
    requires IsDigit(c)
  {
    c as int - '0' as int
  }

  function Numeral(n: nat): (text: string)
    ensures text != [] && AllDigits(text)
  {
    if n < 10 then [Digit(n)] else Numeral(n / 10) + [Digit(n % 10)]
  }

  /** `width` digits, the last ones of n: a zero-padded field. */
  function Padded(n: nat, width: nat): (text: string)
    ensures |text| == width && AllDigits(text)
  {
    if width == 0 then [] else Padded(n / 10, width - 1) + [Digit(n % 10)]
  }

  function Value(text: string): nat
    requires AllDigits(text)
  {
    if text == [] then 0 else 10 * Value(text[..|text| - 1]) + DigitValue(text[|text| - 1])
  }

  lemma {:induction false} NumeralIsReadBack(n: nat)
    ensures Value(Numeral(n)) == n
  {
    if n < 10 {
      assert Numeral(n)[..0] == [];
    } else {
      NumeralIsReadBack(n / 10);
      assert Numeral(n)[..|Numeral(n)| - 1] == Numeral(n / 10);
    }
  }

  function Power10(width: nat): nat {
    if width == 0 then 1 else 10 * Power10(width - 1)
  }

  lemma {:induction false} PaddedIsReadBack(n: nat, width: nat)
    requires n < Power10(width)
    ensures Value(Padded(n, width)) == n
  {
    if width != 0 {
      PaddedIsReadBack(n / 10, width - 1);
      assert Padded(n, width)[..width - 1] == Padded(n / 10, width - 1);
    }
  }

  // ---------- The digits themselves ----------

  lemma DigitIs(n: nat)
    requires n < 10
    ensures Digit(n) == "0123456789"[n] && DigitValue("0123456789"[n]) == n
  {}

  /** The digit of a place, counting places from the right. */
  function Place(n: nat, place: nat): nat {
    if place == 0 then n % 10 else Place(n / 10, place - 1)
  }

  /** A padded field has each digit in its place. */
  lemma {:induction false} PaddedIsPositional(n: nat, width: nat, place: nat)
    requires place < width
    ensures Place(n, place) < 10 && Padded(n, width)[width - 1 - place] == "0123456789"[Place(n, place)]
  {
    if place != 0 {
      PaddedIsPositional(n / 10, width - 1, place - 1);
    }
  }

  /** So has a numeral, and no zero in front. */
  lemma {:induction false} NumeralIsPositional(n: nat, place: nat)
    requires place < |Numeral(n)|
    ensures Place(n, place) < 10 && Numeral(n)[|Numeral(n)| - 1 - place] == "0123456789"[Place(n, place)]
    ensures n != 0 ==> Numeral(n)[0] != '0'
  {
    if n >= 10 {
      NumeralIsPositional(n / 10, if place == 0 then 0 else place - 1);
    }
  }
}
