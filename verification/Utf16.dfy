/** JavaScript text as UTF-16 code units, its UTF-8 form, and its form inside a JSON string. */
module Utf16 {
  import opened Wrappers
  import opened Base64Url

  type Unit = u: nat | u < 0x10000

  predicate IsHigh(u: Unit) { 0xD800 <= u < 0xDC00 }

  predicate IsLow(u: Unit) { 0xDC00 <= u < 0xE000 }

  /** Every surrogate is half of a pair. */
  predicate WellFormed(text: seq<Unit>) {
    text == [] ||
    (if IsHigh(text[0]) then |text| > 1 && IsLow(text[1]) && WellFormed(text[2..])
     else !IsLow(text[0]) && WellFormed(text[1..]))
  }

  lemma {:induction false} WellFormedConcat(a: seq<Unit>, b: seq<Unit>)
    requires WellFormed(a) && WellFormed(b)
    ensures WellFormed(a + b)
  {
    if a == [] {
      assert a + b == b;
    } else if IsHigh(a[0]) {
      WellFormedConcat(a[2..], b);
      assert (a + b)[2..] == a[2..] + b;
    } else {
      WellFormedConcat(a[1..], b);
      assert (a + b)[1..] == a[1..] + b;
    }
  }

  predicate IsAscii(text: seq<Unit>) {
    forall i | 0 <= i < |text| :: text[i] < 0x80
  }

  lemma {:induction false} AsciiIsWellFormed(text: seq<Unit>)
    requires IsAscii(text)
    ensures WellFormed(text)
  {
    if text != [] {
      AsciiIsWellFormed(text[1..]);
    }
  }

  // ---------- Code points ----------

  function PairPoint(high: nat, low: nat): (point: nat)
    requires 0xD800 <= high < 0xDC00 && 0xDC00 <= low < 0xE000
    ensures 0x10000 <= point < 0x110000
  {
    (high - 0xD800) * 0x400 + (low - 0xDC00) + 0x10000
  }

  function Units(point: nat): seq<Unit>
    requires point < 0x110000
  {
    if point < 0x10000 then [point]
    else [0xD800 + (point - 0x10000) / 0x400, 0xDC00 + (point - 0x10000) % 0x400]
  }

  lemma PairIsReadBack(high: nat, low: nat)
    requires 0xD800 <= high < 0xDC00 && 0xDC00 <= low < 0xE000
    ensures Units(PairPoint(high, low)) == [high, low]
  {
    var offset := (high - 0xD800) * 0x400 + (low - 0xDC00);
    assert offset / 0x400 == high - 0xD800 && offset % 0x400 == low - 0xDC00;
  }

  // ---------- UTF-8 ----------

  /** One code point. */
  function PointBytes(point: nat): (bytes: seq<Byte>)
    requires point < 0x110000
    ensures bytes != []
  {
    if point < 0x80 then [point]
    else if point < 0x800 then [0xC0 + point / 0x40, 0x80 + point % 0x40]
    else if point < 0x10000 then [0xE0 + point / 0x1000, 0x80 + point / 0x40 % 0x40, 0x80 + point % 0x40]
    else [0xF0 + point / 0x40000, 0x80 + point / 0x1000 % 0x40, 0x80 + point / 0x40 % 0x40, 0x80 + point % 0x40]
  }

  /** A lone surrogate becomes U+FFFD, as `Buffer.from(text, 'utf8')` writes it. */
  function ToUtf8(text: seq<Unit>): seq<Byte> {
    if text == [] then []
    else if IsHigh(text[0]) && |text| > 1 && IsLow(text[1]) then
      PointBytes(PairPoint(text[0], text[1])) + ToUtf8(text[2..])
    else if IsHigh(text[0]) || IsLow(text[0]) then PointBytes(0xFFFD) + ToUtf8(text[1..])
    else PointBytes(text[0]) + ToUtf8(text[1..])
  }

  predicate IsTail(b: Byte) { 0x80 <= b < 0xC0 }

  /** The code point and its width, by the lead byte and the tails that follow it. */
  function NextPoint(bytes: seq<Byte>): (next: Option<(nat, nat)>)
    requires bytes != []
    ensures next.Some? ==> 1 <= next.value.1 <= |bytes| && next.value.0 < 0x110000
  {
    var a: int := bytes[0];
    var b: int := if |bytes| > 1 && IsTail(bytes[1]) then bytes[1] - 0x80 else -1;
    var c: int := if |bytes| > 2 && IsTail(bytes[2]) then bytes[2] - 0x80 else -1;
    var d: int := if |bytes| > 3 && IsTail(bytes[3]) then bytes[3] - 0x80 else -1;
    if a < 0x80 then Some((a, 1))
    else if a < 0xC0 || a > 0xF4 || b < 0 then None
    else if a < 0xE0 then Some(((a - 0xC0) * 0x40 + b, 2))
    else if c < 0 then None
    else if a < 0xF0 then Some(((a - 0xE0) * 0x1000 + b * 0x40 + c, 3))
    else if d < 0 || (a == 0xF4 && b >= 0x10) then None
    else Some(((a - 0xF0) * 0x40000 + b * 0x1000 + c * 0x40 + d, 4))
  }

  lemma PointIsReadBack(point: nat)
    requires point < 0x110000
    ensures NextPoint(PointBytes(point)) == Some((point, |PointBytes(point)|))
  {
    Digits(point);
  }

  /** A number in base 64. */
  lemma Digits(point: nat)
    requires point < 0x110000
    ensures point == point / 0x40 * 0x40 + point % 0x40
    ensures point == point / 0x1000 * 0x1000 + point / 0x40 % 0x40 * 0x40 + point % 0x40
    ensures point ==
      point / 0x40000 * 0x40000 + point / 0x1000 % 0x40 * 0x1000 + point / 0x40 % 0x40 * 0x40 + point % 0x40
  {}

  function FromUtf8(bytes: seq<Byte>): Option<seq<Unit>>
    decreases |bytes|
  {
    if bytes == [] then Some([])
    else
      var next := NextPoint(bytes);
      if next.None? then None
      else
        var rest := FromUtf8(bytes[next.value.1..]);
        if rest.None? then None else Some(Units(next.value.0) + rest.value)
  }

  /** One code point's bytes are read back, whatever follows. */
  lemma PointThenRest(point: nat, rest: seq<Byte>, text: seq<Unit>)
    requires point < 0x110000 && FromUtf8(rest) == Some(text)
    ensures FromUtf8(PointBytes(point) + rest) == Some(Units(point) + text)
  {
    var head := PointBytes(point);
    PointIsReadBack(point);
    assert NextPoint(head + rest) == NextPoint(head);
    assert (head + rest)[|head|..] == rest;
  }

  lemma {:induction false} Utf8RoundTrip(text: seq<Unit>)
    requires WellFormed(text)
    ensures FromUtf8(ToUtf8(text)) == Some(text)
    decreases |text|
  {
    if text != [] {
      if IsHigh(text[0]) {
        Utf8RoundTrip(text[2..]);
        PairIsReadBack(text[0], text[1]);
        PointThenRest(PairPoint(text[0], text[1]), ToUtf8(text[2..]), text[2..]);
        assert text == [text[0], text[1]] + text[2..];
      } else {
        Utf8RoundTrip(text[1..]);
        PointThenRest(text[0], ToUtf8(text[1..]), text[1..]);
        assert text == [text[0]] + text[1..];
      }
    }
  }

  // ---------- The encodings themselves ----------

  /** Pairs of surrogates count up through the points above U+FFFF, from the first to the last. */
  lemma PairsCountUp(high: nat, low: nat)
    requires 0xD800 <= high < 0xDC00 && 0xDC00 <= low < 0xE000
    ensures PairPoint(0xD800, 0xDC00) == 0x10000 && PairPoint(0xDBFF, 0xDFFF) == 0x10FFFF
    ensures low + 1 < 0xE000 ==> PairPoint(high, low + 1) == PairPoint(high, low) + 1
    ensures high + 1 < 0xDC00 ==> PairPoint(high + 1, 0xDC00) == PairPoint(high, 0xDFFF) + 1
  {}

  /** Tails of six bits each, most significant first. */
  function TailBits(tails: seq<Byte>): int {
    if tails == [] then 0 else TailBits(tails[..|tails| - 1]) * 64 + tails[|tails| - 1] - 0x80
  }

  function LeadBits(bytes: seq<Byte>): int
    requires bytes != []
  {
    var lead: int := bytes[0];
    if |bytes| == 1 then lead
    else if |bytes| == 2 then lead - 0xC0
    else if |bytes| == 3 then lead - 0xE0
    else lead - 0xF0
  }

  lemma TailBitsAre(b: Byte, c: Byte, d: Byte)
    ensures TailBits([]) == 0 && TailBits([b]) == b as int - 0x80
    ensures TailBits([b, c]) == (b as int - 0x80) * 64 + (c as int - 0x80)
    ensures TailBits([b, c, d]) == (b as int - 0x80) * 4096 + (c as int - 0x80) * 64 + (d as int - 0x80)
  {
    assert [b, c][..1] == [b] && [b][..0] == [];
    assert [b, c, d][..2] == [b, c];
  }

  /**
   The forms of section 3 of RFC 3629: one byte up to U+007F, two up to U+07FF, three up to U+FFFF and four
   above; a lead byte that tells how many, tails that begin with 10; and the bits of the point through them all.
   */
  lemma PointBytesAre(point: nat)
    requires point < 0x110000
    ensures var bytes := PointBytes(point);
      && |bytes| == (if point < 0x80 then 1 else if point < 0x800 then 2 else if point < 0x10000 then 3 else 4)
      && (forall i | 0 < i < |bytes| :: 0x80 <= bytes[i] < 0xC0)
      && (|bytes| == 2 ==> 0xC0 <= bytes[0] < 0xE0)
      && (|bytes| == 3 ==> 0xE0 <= bytes[0] < 0xF0)
      && (|bytes| == 4 ==> 0xF0 <= bytes[0] < 0xF8)
      && point == LeadBits(bytes) * Weight(|bytes|) + TailBits(bytes[1..])
  {
    var bytes := PointBytes(point);
    Digits(point);
    if |bytes| == 2 {
      TailBitsAre(bytes[1], 0x80, 0x80);
      assert bytes[1..] == [bytes[1]];
    } else if |bytes| == 3 {
      TailBitsAre(bytes[1], bytes[2], 0x80);
      assert bytes[1..] == [bytes[1], bytes[2]];
    } else if |bytes| == 4 {
      TailBitsAre(bytes[1], bytes[2], bytes[3]);
      assert bytes[1..] == [bytes[1], bytes[2], bytes[3]];
    } else {
      TailBitsAre(0x80, 0x80, 0x80);
      assert bytes[1..] == [];
    }
  }

  /** What a lead byte's bits weigh before that many tails. */
  function Weight(length: nat): nat {
    if length <= 1 then 1 else 64 * Weight(length - 1)
  }

  /** A lone surrogate is written as the replacement character. */
  lemma LoneSurrogateIsReplaced(u: Unit)
    requires IsHigh(u) || IsLow(u)
    ensures ToUtf8([u]) == [0xEF, 0xBF, 0xBD]
  {
    assert ToUtf8([u]) == PointBytes(0xFFFD) + ToUtf8([]);
  }

  /** Text is written one code point after the other. */
  lemma Utf8IsPointByPoint(text: seq<Unit>)
    requires text != []
    ensures !IsHigh(text[0]) && !IsLow(text[0]) ==> ToUtf8(text) == PointBytes(text[0]) + ToUtf8(text[1..])
    ensures IsHigh(text[0]) && |text| > 1 && IsLow(text[1]) ==>
      ToUtf8(text) == PointBytes(PairPoint(text[0], text[1])) + ToUtf8(text[2..])
  {}
}
