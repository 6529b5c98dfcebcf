/** Pagination cursors: a keyset position as JSON, in UTF-8, in base64url, and back. */
module Cursor {
  import opened Wrappers
  import opened Base64Url
  import opened Utf16
  import opened JsonString
  import opened IsoInstant

  datatype KeysetCursor = KeysetCursor(createdAt: int, id: seq<Unit>)

  datatype Decoded = Ok(cursor: KeysetCursor) | BadRequest

  // ---------- ASCII text as code units ----------

  predicate IsAsciiText(text: string) {
    forall i | 0 <= i < |text| :: text[i] as int < 0x80
  }

  function FromText(text: string): (units: seq<Unit>)
    requires IsAsciiText(text)
    ensures IsAscii(units)
  {
    seq(|text|, i requires 0 <= i < |text| => text[i] as int)
  }

  function ToText(units: seq<Unit>): Option<string> {
    if IsAscii(units) then
      Some(seq(|units|, i requires 0 <= i < |units| && units[i] < 0x80 => units[i] as char))
    else None
  }

  lemma TextIsReadBack(text: string)
    requires IsAsciiText(text)
    ensures ToText(FromText(text)) == Some(text)
  {
    assert ToText(FromText(text)).value == text;
  }

  // ---------- JSON ----------

  const BEFORE_CREATED_AT := "{\"createdAt\":\""
  const BEFORE_ID := ",\"id\":\""
  const END := "}"

  /** `JSON.stringify({ createdAt, id })`. */
  function Payload(createdAt: seq<Unit>, id: seq<Unit>): seq<Unit> {
    FromText(BEFORE_CREATED_AT) + (Quoted(createdAt) + ([QUOTE] +
    (FromText(BEFORE_ID) + (Quoted(id) + ([QUOTE] + FromText(END))))))
  }

  function After(text: seq<Unit>, prefix: seq<Unit>): Option<seq<Unit>> {
    if prefix <= text then Some(text[|prefix|..]) else None
  }

  /** The two strings of a payload with these two fields, in this order and without white space. */
  function ReadPayload(json: seq<Unit>): Option<(seq<Unit>, seq<Unit>)> {
    var first := After(json, FromText(BEFORE_CREATED_AT));
    if first.None? then None
    else
      var createdAt := Unquoted(first.value);
      if createdAt.None? then None
      else
        var second := After(createdAt.value.1, FromText(BEFORE_ID));
        if second.None? then None
        else
          var id := Unquoted(second.value);
          if id.None? || id.value.1 != FromText(END) then None else Some((createdAt.value.0, id.value.0))
  }

  lemma AfterPrefix(prefix: seq<Unit>, rest: seq<Unit>)
    ensures After(prefix + rest, prefix) == Some(rest)
  {
    assert (prefix + rest)[|prefix|..] == rest;
  }

  lemma PayloadIsReadBack(createdAt: seq<Unit>, id: seq<Unit>)
    ensures ReadPayload(Payload(createdAt, id)) == Some((createdAt, id))
  {
    var last := Quoted(id) + ([QUOTE] + FromText(END));
    var second := FromText(BEFORE_ID) + last;
    AfterPrefix(FromText(BEFORE_CREATED_AT), Quoted(createdAt) + ([QUOTE] + second));
    QuotedIsReadBack(createdAt, second);
    AfterPrefix(FromText(BEFORE_ID), last);
    QuotedIsReadBack(id, FromText(END));
  }

  lemma PayloadIsWellFormed(createdAt: seq<Unit>, id: seq<Unit>)
    ensures WellFormed(Payload(createdAt, id))
  {
    QuotedIsWellFormed(createdAt);
    QuotedIsWellFormed(id);
    AsciiIsWellFormed(FromText(BEFORE_CREATED_AT));
    AsciiIsWellFormed(FromText(BEFORE_ID));
    AsciiIsWellFormed(FromText(END));
    AsciiIsWellFormed([QUOTE]);
    var end := [QUOTE] + FromText(END);
    WellFormedConcat([QUOTE], FromText(END));
    WellFormedConcat(Quoted(id), end);
    WellFormedConcat(FromText(BEFORE_ID), Quoted(id) + end);
    WellFormedConcat([QUOTE], FromText(BEFORE_ID) + (Quoted(id) + end));
    WellFormedConcat(Quoted(createdAt), [QUOTE] + (FromText(BEFORE_ID) + (Quoted(id) + end)));
    WellFormedConcat(FromText(BEFORE_CREATED_AT),
      Quoted(createdAt) + ([QUOTE] + (FromText(BEFORE_ID) + (Quoted(id) + end))));
  }

  // ---------- Cursors ----------

  function EncodeCursor(c: KeysetCursor): string
    requires IsInstant(c.createdAt)
  {
    IsoStringIsAscii(c.createdAt);
    Encode(ToUtf8(Payload(FromText(ToIsoString(c.createdAt)), c.id)))
  }

  function DecodeCursor(raw: string): Decoded {
    var bytes := Decode(raw);
    if bytes.None? then BadRequest
    else
      var json := FromUtf8(bytes.value);
      if json.None? then BadRequest
      else
        var fields := ReadPayload(json.value);
        if fields.None? then BadRequest
        else
          var text := ToText(fields.value.0);
          if text.None? then BadRequest
          else
            var createdAt := ReadIsoString(text.value);
            if createdAt.None? then BadRequest else Ok(KeysetCursor(createdAt.value, fields.value.1))
  }

  lemma IsoStringIsAscii(at: int)
    requires IsInstant(at)
    ensures IsAsciiText(ToIsoString(at))
  {
    FieldsAreReadBack(at);
    var f := FieldsOf(at);
    assert IsAsciiText(YearText(f.year)) && IsAsciiText(DateText(f));
    assert IsAsciiText(ClockText(f)) && IsAsciiText(SecondsText(f));
  }

  /** A cursor survives the trip through the client, for every instant and every id. */
  lemma CursorRoundTrip(c: KeysetCursor)
    requires -8_640_000_000_000_000 <= c.createdAt <= 8_640_000_000_000_000
    ensures AllSymbols(EncodeCursor(c))
    ensures DecodeCursor(EncodeCursor(c)) == Ok(c)
  {
    IsoStringIsAscii(c.createdAt);
    var iso := FromText(ToIsoString(c.createdAt));
    var json := Payload(iso, c.id);
    RoundTrip(ToUtf8(json));
    PayloadIsWellFormed(iso, c.id);
    Utf8RoundTrip(json);
    PayloadIsReadBack(iso, c.id);
    TextIsReadBack(ToIsoString(c.createdAt));
    IsoStringIsReadBack(c.createdAt);
  }

  /** Two positions never share a cursor. */
  lemma CursorsAreDistinct(a: KeysetCursor, b: KeysetCursor)
    requires IsInstant(a.createdAt) && IsInstant(b.createdAt)
    ensures EncodeCursor(a) == EncodeCursor(b) <==> a == b
  {
    CursorRoundTrip(a);
    CursorRoundTrip(b);
  }

  // ---------- The text itself ----------

  /** The payload is the JSON object of the two strings, under their names and in this order. */
  lemma PayloadIsJson(createdAt: seq<Unit>, id: seq<Unit>)
    ensures IsAsciiText("{\"createdAt\":\"") && IsAsciiText("\",\"id\":\"") && IsAsciiText("\"}")
    ensures Payload(createdAt, id)
         == FromText("{\"createdAt\":\"") + Quoted(createdAt) + FromText("\",\"id\":\"") + Quoted(id) + FromText("\"}")
  {
    QuotesJoin();
    Regroup(FromText(BEFORE_CREATED_AT), Quoted(createdAt), [QUOTE], FromText(BEFORE_ID), Quoted(id), FromText(END));
  }

  lemma QuotesJoin()
    ensures IsAsciiText("{\"createdAt\":\"") && IsAsciiText("\",\"id\":\"") && IsAsciiText("\"}")
    ensures FromText(BEFORE_CREATED_AT) == FromText("{\"createdAt\":\"")
    ensures FromText("\",\"id\":\"") == [QUOTE] + FromText(BEFORE_ID) && FromText("\"}") == [QUOTE] + FromText(END)
  {}

  lemma Regroup(a: seq<Unit>, b: seq<Unit>, quote: seq<Unit>, c: seq<Unit>, d: seq<Unit>, e: seq<Unit>)
    ensures a + (b + (quote + (c + (d + (quote + e))))) == a + b + (quote + c) + d + (quote + e)
  {}

  /** A cursor is the base64url of the UTF-8 of the JSON of the instant's ISO text and the id. */
  lemma CursorIsTheJson(c: KeysetCursor)
    requires IsInstant(c.createdAt)
    ensures IsAsciiText(ToIsoString(c.createdAt))
    ensures EncodeCursor(c) == Encode(ToUtf8(Payload(FromText(ToIsoString(c.createdAt)), c.id)))
  {
    IsoStringIsAscii(c.createdAt);
  }
}
