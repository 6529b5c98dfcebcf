/** Unpadded base64url, section 5 of RFC 4648. */
module Base64Url {
  import opened Wrappers

  type Byte = b: nat | b < 256
  type Sextet = v: nat | v < 64

  function Symbol(v: Sextet): char {
    if v < 26 then 'A' + v as char
    else if v < 52 then 'a' + (v - 26) as char
    else if v < 62 then '0' + (v - 52) as char
    else if v == 62 then '-'
    else '_'
  }

  predicate IsSymbol(c: char) {
    'A' <= c <= 'Z' || 'a' <= c <= 'z' || '0' <= c <= '9' || c == '-' || c == '_'
  }

  function SextetOf(c: char): Sextet
    requires IsSymbol(c)
  {
    if 'A' <= c <= 'Z' then c as int - 'A' as int
    else if 'a' <= c <= 'z' then c as int - 'a' as int + 26
    else if '0' <= c <= '9' then c as int - '0' as int + 52
    else if c == '-' then 62
    else 63
  }

  lemma SymbolIsReadBack(v: Sextet)
    ensures IsSymbol(Symbol(v)) && SextetOf(Symbol(v)) == v
  {}

  function Quad(a: Byte, b: Byte, c: Byte): (vs: seq<Sextet>)
    ensures |vs| == 4
  {
    [a / 4, a % 4 * 16 + b / 16, b % 16 * 4 + c / 64, c % 64]
  }

  /** Three bytes to four sextets; one or two left over to two or three. */
  function ToSextets(bytes: seq<Byte>): seq<Sextet> {
    if bytes == [] then []
    else if |bytes| == 1 then [bytes[0] / 4, bytes[0] % 4 * 16]
    else if |bytes| == 2 then [bytes[0] / 4, bytes[0] % 4 * 16 + bytes[1] / 16, bytes[1] % 16 * 4]
    else Quad(bytes[0], bytes[1], bytes[2]) + ToSextets(bytes[3..])
  }

  function FirstByte(a: nat, b: nat): Byte
    requires a < 64 && b < 64
  {
    a * 4 + b / 16
  }

  function SecondByte(b: nat, c: nat): Byte
    requires b < 64 && c < 64
  {
    b % 16 * 16 + c / 4
  }

  function ThirdByte(c: nat, d: nat): Byte
    requires c < 64 && d < 64
  {
    c % 4 * 64 + d
  }

  function FromSextets(vs: seq<Sextet>): Option<seq<Byte>> {
    if vs == [] then Some([])
    else if |vs| == 1 then None
    else if |vs| == 2 then Some([FirstByte(vs[0], vs[1])])
    else if |vs| == 3 then Some([FirstByte(vs[0], vs[1]), SecondByte(vs[1], vs[2])])
    else
      match FromSextets(vs[4..])
      case None => None
      case Some(rest) =>
        Some([FirstByte(vs[0], vs[1]), SecondByte(vs[1], vs[2]), ThirdByte(vs[2], vs[3])] + rest)
  }

  lemma ThreeBytes(a: Byte, b: Byte, c: Byte)
    ensures var vs := Quad(a, b, c);
      FirstByte(vs[0], vs[1]) == a && SecondByte(vs[1], vs[2]) == b && ThirdByte(vs[2], vs[3]) == c
  {}

  lemma FourMore(vs: seq<Sextet>, rest: seq<Sextet>, bytes: seq<Byte>)
    requires |vs| == 4 && FromSextets(rest) == Some(bytes)
    ensures FromSextets(vs + rest) 
      == Some([FirstByte(vs[0], vs[1]), SecondByte(vs[1], vs[2]), ThirdByte(vs[2], vs[3])] + bytes)
  {
    assert (vs + rest)[4..] == rest;
    assert forall i | 0 <= i < 4 :: (vs + rest)[i] == vs[i];
  }

  lemma OneByte(a: Byte)
    ensures FirstByte(a / 4, a % 4 * 16) == a
  {}

  lemma TwoBytes(a: Byte, b: Byte)
    ensures FirstByte(a / 4, a % 4 * 16 + b / 16) == a
    ensures SecondByte(a % 4 * 16 + b / 16, b % 16 * 4) == b
  {}

  lemma OneByteIsReadBack(a: Byte)
    ensures FromSextets(ToSextets([a])) == Some([a])
  {
    OneByte(a);
  }

  lemma TwoBytesAreReadBack(a: Byte, b: Byte)
    ensures FromSextets(ToSextets([a, b])) == Some([a, b])
  {
    TwoBytes(a, b);
  }

  lemma {:induction false} SextetsAreReadBack(bytes: seq<Byte>)
    ensures FromSextets(ToSextets(bytes)) == Some(bytes)
  {
    if |bytes| == 1 {
      OneByteIsReadBack(bytes[0]);
      assert bytes == [bytes[0]];
    } else if |bytes| == 2 {
      TwoBytesAreReadBack(bytes[0], bytes[1]);
      assert bytes == [bytes[0], bytes[1]];
    } else if |bytes| >= 3 {
      SextetsAreReadBack(bytes[3..]);
      ThreeBytes(bytes[0], bytes[1], bytes[2]);
      FourMore(Quad(bytes[0], bytes[1], bytes[2]), ToSextets(bytes[3..]), bytes[3..]);
      assert bytes == [bytes[0], bytes[1], bytes[2]] + bytes[3..];
    }
  }

  predicate AllSymbols(text: string) {
    forall i | 0 <= i < |text| :: IsSymbol(text[i])
  }

  function SextetsOf(text: string): seq<Sextet>
    requires AllSymbols(text)
  {
    seq(|text|, i requires 0 <= i < |text| => SextetOf(text[i]))
  }

  function Encode(bytes: seq<Byte>): string {
    var vs := ToSextets(bytes);
    seq(|vs|, i requires 0 <= i < |vs| => Symbol(vs[i]))
  }

  function Decode(text: string): Option<seq<Byte>> {
    if AllSymbols(text) then FromSextets(SextetsOf(text)) else None
  }

  /** Encoded text travels in a URL as it is, and is read back to the bytes it was written from. */
  lemma RoundTrip(bytes: seq<Byte>)
    ensures AllSymbols(Encode(bytes)) && Decode(Encode(bytes)) == Some(bytes)
  {
    var vs, text := ToSextets(bytes), Encode(bytes);
    forall i | 0 <= i < |text| ensures IsSymbol(text[i]) && SextetOf(text[i]) == vs[i] {
      SymbolIsReadBack(vs[i]);
    }
    assert SextetsOf(text) == vs;
    SextetsAreReadBack(bytes);
  }

  // ---------- The encoding itself ----------

  /** The 64 symbols of the URL-safe alphabet, in the order of their values. */
  lemma SymbolsAreTheAlphabet(v: Sextet)
    ensures v < 26 ==> Symbol(v) == "ABCDEFGHIJKLMNOPQRSTUVWXYZ"[v]
    ensures 26 <= v < 52 ==> Symbol(v) == "abcdefghijklmnopqrstuvwxyz"[v - 26]
    ensures 52 <= v < 62 ==> Symbol(v) == "0123456789"[v - 52]
    ensures v == 62 ==> Symbol(v) == '-'
    ensures v == 63 ==> Symbol(v) == '_'
  {}

  /** An element, or zero past the end. */
  function At(values: seq<nat>, i: nat): nat {
    if i < |values| then values[i] else 0
  }

  /** The i-th group of 24 bits, from three bytes or from four sextets, zero bits filling the last. */
  function BytesGroup(bytes: seq<Byte>, i: nat): nat {
    (At(bytes, 3 * i) * 256 + At(bytes, 3 * i + 1)) * 256 + At(bytes, 3 * i + 2)
  }

  function SextetsGroup(vs: seq<Sextet>, i: nat): nat {
    ((At(vs, 4 * i) * 64 + At(vs, 4 * i + 1)) * 64 + At(vs, 4 * i + 2)) * 64 + At(vs, 4 * i + 3)
  }

  lemma GroupIsRewritten(a: Byte, b: Byte, c: Byte)
    ensures (a * 256 + b) * 256 + c
         == ((a / 4 * 64 + (a % 4 * 16 + b / 16)) * 64 + (b % 16 * 4 + c / 64)) * 64 + c % 64
  {
    assert a == a / 4 * 4 + a % 4 && b == b / 16 * 16 + b % 16 && c == c / 64 * 64 + c % 64;
  }

  /** Past the first group, the groups of what follows it. */
  lemma LaterGroups(bytes: seq<Byte>, quad: seq<Sextet>, rest: seq<Sextet>, i: nat)
    requires |bytes| >= 3 && |quad| == 4
    ensures SextetsGroup(quad + rest, i + 1) == SextetsGroup(rest, i)
    ensures BytesGroup(bytes, i + 1) == BytesGroup(bytes[3..], i)
  {
    assert forall k: nat :: At(quad + rest, k + 4) == At(rest, k);
    assert forall k: nat :: At(bytes, k + 3) == At(bytes[3..], k);
    assert 4 * (i + 1) == 4 * i + 4 && 3 * (i + 1) == 3 * i + 3;
  }

  lemma FirstGroup(bytes: seq<Byte>)
    requires bytes != []
    ensures SextetsGroup(ToSextets(bytes), 0) == BytesGroup(bytes, 0)
  {
    GroupIsRewritten(bytes[0], At(bytes, 1), At(bytes, 2));
  }

  /**
   Each group of 24 bits is written in sextets as it stands in the bytes, and there are as many sextets as the
   bits of the bytes need: section 4 of RFC 4648, without padding.
   */
  lemma {:induction false} SextetsAreTheBytes(bytes: seq<Byte>, i: nat)
    ensures |ToSextets(bytes)| == (8 * |bytes| + 5) / 6
    ensures SextetsGroup(ToSextets(bytes), i) == BytesGroup(bytes, i)
    decreases |bytes|
  {
    if bytes != [] {
      FirstGroup(bytes);
    }
    if |bytes| >= 3 {
      SextetsAreTheBytes(bytes[3..], if i == 0 then 0 else i - 1);
      if i > 0 {
        LaterGroups(bytes, Quad(bytes[0], bytes[1], bytes[2]), ToSextets(bytes[3..]), i - 1);
      }
    }
  }
}
