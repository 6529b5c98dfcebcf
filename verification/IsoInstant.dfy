/**
 Instants in milliseconds since 1970 and their text as `Date.prototype.toISOString` writes it: the
 format of section 5.6 of RFC 3339 with milliseconds and `Z`, and a sign and six digits for the years
 that four digits cannot hold. Days, months and years are those of the ECMAScript specification.
 */
module IsoInstant {
  import opened Wrappers
  import opened Decimal

  const MS_PER_DAY: nat := 86_400_000
  const MAX_INSTANT := 8_640_000_000_000_000
  const FIRST_YEAR := -271_821
  const LAST_YEAR := 275_760

  /** A time value that a Date can hold. */
  predicate IsInstant(at: int) {
    0 - MAX_INSTANT <= at <= MAX_INSTANT
  }

  // ---------- Days of the calendar ----------

  /** The number of the first day of a year; `/` rounds down. */
  function DayFromYear(y: int): int {
    365 * (y - 1970) + (y - 1969) / 4 - (y - 1901) / 100 + (y - 1601) / 400
  }

  function DaysInYear(y: int): nat {
    if y % 4 != 0 then 365 else if y % 100 != 0 then 366 else if y % 400 != 0 then 365 else 366
  }

  /** A leap day every 4 years, less one every 100, plus one every 400. */
  lemma YearsAreConsecutive(y: int)
    ensures DayFromYear(y + 1) == DayFromYear(y) + DaysInYear(y)
  {
    FourYears(y);
    HundredYears(y);
    FourHundredYears(y);
  }

  lemma FourYears(y: int)
    ensures (y + 1 - 1969) / 4 == (y - 1969) / 4 + if y % 4 == 0 then 1 else 0
  {}

  lemma HundredYears(y: int)
    ensures (y + 1 - 1901) / 100 == (y - 1901) / 100 + if y % 100 == 0 then 1 else 0
    ensures y % 100 == 0 ==> y % 4 == 0
  {
    assert y == y / 100 * 100 + y % 100;
  }

  lemma FourHundredYears(y: int)
    ensures (y + 1 - 1601) / 400 == (y - 1601) / 400 + if y % 400 == 0 then 1 else 0
    ensures y % 400 == 0 ==> y % 100 == 0
  {
    assert y == y / 400 * 400 + y % 400;
  }

  /** The year from `y` on that a day falls in. */
  function YearFrom(day: int, y: int): (year: int)
    requires DayFromYear(y) <= day
    ensures DayFromYear(year) <= day < DayFromYear(year) + DaysInYear(year) && y <= year
    decreases day - DayFromYear(y)
  {
    YearsAreConsecutive(y);
    if day < DayFromYear(y + 1) then y else YearFrom(day, y + 1)
  }

  function YearOf(day: int): int
    requires day >= DayFromYear(FIRST_YEAR)
  {
    YearFrom(day, FIRST_YEAR)
  }

  /** Days before a month, counting months from 0; 12 stands for the year's end. */
  function MonthStart(month: nat, leap: bool): nat
    requires month <= 12
  {
    var extra := if leap then 1 else 0;
    if month == 0 then 0
    else if month == 1 then 31
    else if month == 2 then 59 + extra
    else if month == 3 then 90 + extra
    else if month == 4 then 120 + extra
    else if month == 5 then 151 + extra
    else if month == 6 then 181 + extra
    else if month == 7 then 212 + extra
    else if month == 8 then 243 + extra
    else if month == 9 then 273 + extra
    else if month == 10 then 304 + extra
    else if month == 11 then 334 + extra
    else 365 + extra
  }

  function MonthOf(dayInYear: nat, leap: bool): (month: nat)
    requires dayInYear < MonthStart(12, leap)
    ensures month < 12 && MonthStart(month, leap) <= dayInYear < MonthStart(month + 1, leap)
  {
    if dayInYear < MonthStart(1, leap) then 0
    else if dayInYear < MonthStart(2, leap) then 1
    else if dayInYear < MonthStart(3, leap) then 2
    else if dayInYear < MonthStart(4, leap) then 3
    else if dayInYear < MonthStart(5, leap) then 4
    else if dayInYear < MonthStart(6, leap) then 5
    else if dayInYear < MonthStart(7, leap) then 6
    else if dayInYear < MonthStart(8, leap) then 7
    else if dayInYear < MonthStart(9, leap) then 8
    else if dayInYear < MonthStart(10, leap) then 9
    else if dayInYear < MonthStart(11, leap) then 10
    else 11
  }

  // ---------- Fields ----------

  /** Month and day count from 1. */
  datatype Fields = Fields(year: int, month: nat, day: nat, hour: nat, minute: nat, second: nat, ms: nat)

  predicate ValidFields(f: Fields) {
    && FIRST_YEAR <= f.year <= LAST_YEAR
    && 1 <= f.month <= 12
    && 1 <= f.day <= MonthStart(f.month, DaysInYear(f.year) == 366) - MonthStart(f.month - 1, DaysInYear(f.year) == 366)
    && f.hour < 24 && f.minute < 60 && f.second < 60 && f.ms < 1000
  }

  function FieldsOf(at: int): Fields
    requires IsInstant(at)
  {
    FirstYearIsEarly();
    var day, time := at / MS_PER_DAY, at % MS_PER_DAY;
    var year := YearOf(day);
    var leap := DaysInYear(year) == 366;
    var month := MonthOf(day - DayFromYear(year), leap);
    Fields(year, month + 1, day - DayFromYear(year) - MonthStart(month, leap) + 1,
      time / 1000 / 60 / 60, time / 1000 / 60 % 60, time / 1000 % 60, time % 1000)
  }

  lemma FirstYearIsEarly()
    ensures DayFromYear(FIRST_YEAR) <= -100_000_000
    ensures DayFromYear(LAST_YEAR + 1) > 100_000_000
  {}

  function InstantOf(f: Fields): int
    requires ValidFields(f)
  {
    (DayFromYear(f.year) + MonthStart(f.month - 1, DaysInYear(f.year) == 366) + f.day - 1) * MS_PER_DAY
    + f.hour * 3_600_000 + f.minute * 60_000 + f.second * 1000 + f.ms
  }

  lemma {:induction false} DayFromYearGrows(a: int, b: int)
    requires a <= b
    ensures DayFromYear(a) <= DayFromYear(b)
    decreases b - a
  {
    if a < b {
      YearsAreConsecutive(b - 1);
      DayFromYearGrows(a, b - 1);
    }
  }

  lemma TimeOfDay(time: nat)
    requires time < MS_PER_DAY
    ensures time / 1000 / 60 / 60 < 24
    ensures time ==
      time / 1000 / 60 / 60 * 3_600_000 + time / 1000 / 60 % 60 * 60_000 + time / 1000 % 60 * 1000 + time % 1000
  {
    var seconds := time / 1000;
    var minutes := seconds / 60;
    assert time == seconds * 1000 + time % 1000;
    assert seconds == minutes * 60 + seconds % 60;
    assert minutes == minutes / 60 * 60 + minutes % 60;
  }

  /** An instant is the one its fields name. */
  lemma FieldsAreReadBack(at: int)
    requires IsInstant(at)
    ensures ValidFields(FieldsOf(at)) && InstantOf(FieldsOf(at)) == at
  {
    FirstYearIsEarly();
    var day, time := at / MS_PER_DAY, at % MS_PER_DAY;
    TimeOfDay(time);
    var year := YearOf(day);
    if year > LAST_YEAR {
      DayFromYearGrows(LAST_YEAR + 1, year);
    }
    assert at == day * MS_PER_DAY + time;
  }

  // ---------- Text ----------

  /** Four digits, or a sign and six. */
  function YearText(year: int): string
    requires FIRST_YEAR <= year <= LAST_YEAR
  {
    if 0 <= year <= 9999 then Padded(year, 4)
    else if year < 0 then "-" + Padded(-year, 6)
    else "+" + Padded(year, 6)
  }

  function DateText(f: Fields): string {
    "-" + Padded(f.month, 2) + "-" + Padded(f.day, 2)
  }

  function ClockText(f: Fields): string {
    "T" + Padded(f.hour, 2) + ":" + Padded(f.minute, 2)
  }

  function SecondsText(f: Fields): string {
    ":" + Padded(f.second, 2) + "." + Padded(f.ms, 3) + "Z"
  }

  function ToIsoString(at: int): string
    requires IsInstant(at)
  {
    FieldsAreReadBack(at);
    YearText(FieldsOf(at).year) + DateText(FieldsOf(at)) + ClockText(FieldsOf(at)) + SecondsText(FieldsOf(at))
  }

  function ReadYear(text: string): Option<int> {
    if |text| == 4 && AllDigits(text) then Some(Value(text))
    else if |text| == 7 && AllDigits(text[1..]) && text[0] == '+' then Some(Value(text[1..]))
    else if |text| == 7 && AllDigits(text[1..]) && text[0] == '-' && Value(text[1..]) != 0 then
      Some(0 - Value(text[1..]))
    else None
  }

  function ReadDate(text: string): Option<(nat, nat)> {
    if |text| == 6 && text[0] == '-' && AllDigits(text[1..3]) && text[3] == '-' && AllDigits(text[4..6]) then
      Some((Value(text[1..3]), Value(text[4..6])))
    else None
  }

  function ReadClock(text: string): Option<(nat, nat)> {
    if |text| == 6 && text[0] == 'T' && AllDigits(text[1..3]) && text[3] == ':' && AllDigits(text[4..6]) then
      Some((Value(text[1..3]), Value(text[4..6])))
    else None
  }

  function ReadSeconds(text: string): Option<(nat, nat)> {
    if |text| == 8 && text[0] == ':' && text[3] == '.' && text[7] == 'Z'
       && AllDigits(text[1..3]) && AllDigits(text[4..7]) then
      Some((Value(text[1..3]), Value(text[4..7])))
    else None
  }

  /** The instant of a text in the format of `toISOString`; anything else is not read here. */
  function ReadIsoString(text: string): (at: Option<int>)
    ensures at.Some? ==> IsInstant(at.value)
  {
    if |text| < 20 then None
    else
      var n := |text| - 20;
      var year, date := ReadYear(text[..n]), ReadDate(text[n..n + 6]);
      var clock, seconds := ReadClock(text[n + 6..n + 12]), ReadSeconds(text[n + 12..]);
      if year.None? || date.None? || clock.None? || seconds.None? then None
      else
        var f := Fields(year.value, date.value.0, date.value.1,
          clock.value.0, clock.value.1, seconds.value.0, seconds.value.1);
        if ValidFields(f) && IsInstant(InstantOf(f)) then Some(InstantOf(f)) else None
  }

  lemma YearIsReadBack(year: int)
    requires FIRST_YEAR <= year <= LAST_YEAR
    ensures ReadYear(YearText(year)) == Some(year)
  {
    PowersOf10();
    if 0 <= year <= 9999 {
      PaddedIsReadBack(year, 4);
    } else {
      var n := if year < 0 then -year else year;
      PaddedIsReadBack(n, 6);
      assert YearText(year)[1..] == Padded(n, 6);
    }
  }

  lemma PowersOf10()
    ensures Power10(2) == 100 && Power10(3) == 1000 && Power10(4) == 10_000 && Power10(6) == 1_000_000
  {
    assert Power10(1) == 10;
    assert Power10(5) == 100_000;
  }

  lemma DateIsReadBack(f: Fields)
    requires f.month < 100 && f.day < 100
    ensures ReadDate(DateText(f)) == Some((f.month, f.day)) && |DateText(f)| == 6
  {
    PowersOf10();
    PaddedIsReadBack(f.month, 2);
    PaddedIsReadBack(f.day, 2);
    assert DateText(f)[1..3] == Padded(f.month, 2);
    assert DateText(f)[4..6] == Padded(f.day, 2);
  }

  lemma ClockIsReadBack(f: Fields)
    requires f.hour < 100 && f.minute < 100
    ensures ReadClock(ClockText(f)) == Some((f.hour, f.minute)) && |ClockText(f)| == 6
  {
    PowersOf10();
    PaddedIsReadBack(f.hour, 2);
    PaddedIsReadBack(f.minute, 2);
    assert ClockText(f)[1..3] == Padded(f.hour, 2);
    assert ClockText(f)[4..6] == Padded(f.minute, 2);
  }

  lemma SecondsAreReadBack(f: Fields)
    requires f.second < 100 && f.ms < 1000
    ensures ReadSeconds(SecondsText(f)) == Some((f.second, f.ms)) && |SecondsText(f)| == 8
  {
    PowersOf10();
    PaddedIsReadBack(f.second, 2);
    PaddedIsReadBack(f.ms, 3);
    assert SecondsText(f)[1..3] == Padded(f.second, 2);
    assert SecondsText(f)[4..7] == Padded(f.ms, 3);
  }

  lemma PartsOf(year: string, date: string, clock: string, seconds: string)
    requires |date| == 6 && |clock| == 6 && |seconds| == 8
    ensures var text := year + date + clock + seconds;
      var n := |text| - 20;
      && n == |year| && text[..n] == year && text[n..n + 6] == date
      && text[n + 6..n + 12] == clock && text[n + 12..] == seconds
  {}

  lemma DaysAreShort(f: Fields)
    requires ValidFields(f)
    ensures f.day <= 31
  {}

  lemma FieldsTextIsReadBack(f: Fields)
    requires ValidFields(f) && IsInstant(InstantOf(f))
    ensures ReadIsoString(YearText(f.year) + DateText(f) + ClockText(f) + SecondsText(f)) == Some(InstantOf(f))
  {
    YearIsReadBack(f.year);
    DaysAreShort(f);
    DateIsReadBack(f);
    ClockIsReadBack(f);
    SecondsAreReadBack(f);
    PartsOf(YearText(f.year), DateText(f), ClockText(f), SecondsText(f));
  }

  /** Every millisecond instant is read back from its text. */
  lemma IsoStringIsReadBack(at: int)
    requires IsInstant(at)
    ensures ReadIsoString(ToIsoString(at)) == Some(at)
  {
    FieldsAreReadBack(at);
    FieldsTextIsReadBack(FieldsOf(at));
  }

  // ---------- The calendar ----------

  predicate IsLeap(year: int) {
    year % 4 == 0 && (year % 100 == 0 ==> year % 400 == 0)
  }

  /** The days of a month, counted from 1. */
  function DaysInMonth(year: int, month: nat): nat {
    if month == 2 then (if IsLeap(year) then 29 else 28)
    else if month in {4, 6, 9, 11} then 30
    else 31
  }

  /** The next date of the calendar, at the same time of day. */
  function DayAfter(f: Fields): Fields {
    if f.day < DaysInMonth(f.year, f.month) then f.(day := f.day + 1)
    else if f.month < 12 then f.(month := f.month + 1, day := 1)
    else f.(year := f.year + 1, month := 1, day := 1)
  }

  /** A year that holds a day is the one found for it. */
  lemma YearIs(day: int, year: int)
    requires FIRST_YEAR <= year && DayFromYear(year) <= day < DayFromYear(year + 1)
    ensures DayFromYear(FIRST_YEAR) <= day && YearOf(day) == year
  {
    DayFromYearGrows(FIRST_YEAR, year);
    var found := YearOf(day);
    YearsAreConsecutive(found);
    if found < year {
      DayFromYearGrows(found + 1, year);
    } else if year < found {
      DayFromYearGrows(year + 1, found);
    }
  }

  /** A month that holds a day of the year is the one found for it. */
  lemma MonthIs(dayInYear: nat, leap: bool, month: nat)
    requires month < 12 && MonthStart(month, leap) <= dayInYear < MonthStart(month + 1, leap)
    ensures dayInYear < MonthStart(12, leap) && MonthOf(dayInYear, leap) == month
  {}

  lemma MonthsAreAsLong(year: int, month: nat)
    requires month < 12
    ensures var leap := DaysInYear(year) == 366;
      MonthStart(month + 1, leap) == MonthStart(month, leap) + DaysInMonth(year, month + 1)
    ensures MonthStart(0, DaysInYear(year) == 366) == 0 && MonthStart(12, DaysInYear(year) == 366) == DaysInYear(year)
  {}

  /** The number of a date, the epoch's being 0. */
  function DayNumber(year: int, month: nat, day: nat): int
    requires 1 <= month <= 12
  {
    DayFromYear(year) + MonthStart(month - 1, DaysInYear(year) == 366) + day - 1
  }

  predicate IsDate(f: Fields) {
    1 <= f.month <= 12 && 1 <= f.day <= DaysInMonth(f.year, f.month)
  }

  lemma DateOf(at: int)
    requires IsInstant(at)
    ensures var f := FieldsOf(at);
      IsDate(f) && FIRST_YEAR <= f.year <= LAST_YEAR && at / MS_PER_DAY == DayNumber(f.year, f.month, f.day)
  {
    FieldsAreReadBack(at);
    FirstYearIsEarly();
    MonthsAreAsLong(FieldsOf(at).year, FieldsOf(at).month - 1);
  }

  /** Only one date has a day's number. */
  lemma DateIs(at: int, f: Fields)
    requires IsInstant(at) && IsDate(f) && FIRST_YEAR <= f.year
    requires at / MS_PER_DAY == DayNumber(f.year, f.month, f.day)
    ensures FieldsOf(at).year == f.year && FieldsOf(at).month == f.month && FieldsOf(at).day == f.day
  {
    var day, leap := at / MS_PER_DAY, DaysInYear(f.year) == 366;
    MonthsAreAsLong(f.year, f.month - 1);
    YearsAreConsecutive(f.year);
    MonthsEndInTheYear(f.year, f.month);
    YearIs(day, f.year);
    MonthIs(day - DayFromYear(f.year), leap, f.month - 1);
  }

  lemma MonthsEndInTheYear(year: int, month: nat)
    requires month <= 12
    ensures MonthStart(month, DaysInYear(year) == 366) <= DaysInYear(year)
  {}

  lemma MonthEnds(year: int, month: nat)
    requires 1 <= month < 12
    ensures DayNumber(year, month + 1, 1) == DayNumber(year, month, DaysInMonth(year, month)) + 1
  {
    MonthsAreAsLong(year, month - 1);
  }

  lemma YearEnds(year: int)
    ensures DayNumber(year + 1, 1, 1) == DayNumber(year, 12, DaysInMonth(year, 12)) + 1
  {
    MonthsAreAsLong(year, 11);
    MonthsAreAsLong(year + 1, 0);
    YearsAreConsecutive(year);
  }

  lemma DayAfterIsNext(f: Fields)
    requires IsDate(f)
    ensures var next := DayAfter(f);
      IsDate(next) && DayNumber(next.year, next.month, next.day) == DayNumber(f.year, f.month, f.day) + 1
  {
    if f.day == DaysInMonth(f.year, f.month) {
      if f.month < 12 {
        MonthEnds(f.year, f.month);
      } else {
        YearEnds(f.year);
      }
    }
  }

  lemma NextDayKeepsTheTime(at: int)
    ensures (at + MS_PER_DAY) % MS_PER_DAY == at % MS_PER_DAY && (at + MS_PER_DAY) / MS_PER_DAY == at / MS_PER_DAY + 1
  {}

  lemma SameTimeOfDay(at: int, later: int)
    requires IsInstant(at) && IsInstant(later) && at % MS_PER_DAY == later % MS_PER_DAY
    ensures var f, g := FieldsOf(at), FieldsOf(later);
      f.hour == g.hour && f.minute == g.minute && f.second == g.second && f.ms == g.ms
  {}

  /** A day later it is the next date of the calendar, at the same time. */
  lemma NextDayIsTheNextDate(at: int)
    requires IsInstant(at) && IsInstant(at + 86_400_000)
    ensures FieldsOf(at + 86_400_000) == DayAfter(FieldsOf(at))
  {
    DateOf(at);
    DayAfterIsNext(FieldsOf(at));
    NextDayKeepsTheTime(at);
    DateIs(at + MS_PER_DAY, DayAfter(FieldsOf(at)));
    SameTimeOfDay(at, at + MS_PER_DAY);
  }

  /** Hours, minutes, seconds and milliseconds are the time since midnight. */
  lemma ClockIsTheTimeOfDay(at: int)
    requires IsInstant(at)
    ensures var f := FieldsOf(at);
      && f.hour < 24 && f.minute < 60 && f.second < 60 && f.ms < 1000
      && ((f.hour * 60 + f.minute) * 60 + f.second) * 1000 + f.ms == at % 86_400_000
  {
    TimeOfDay(at % MS_PER_DAY);
  }

  lemma TheEpochIs()
    ensures FieldsOf(0) == Fields(1970, 1, 1, 0, 0, 0, 0)
  {
    YearIs(0, 1970);
    MonthIs(0, false, 0);
  }

  lemma PaddedZeros()
    ensures Padded(0, 2) == "00" && Padded(0, 3) == "000" && Padded(1, 2) == "01" && Padded(1970, 4) == "1970"
  {
    assert Padded(0, 0) == [];
    assert Padded(0, 1) == "0";
    assert Padded(1, 1) == "1" && Padded(19, 2) == "19" && Padded(197, 3) == "197";
  }

  /** The text of the epoch. */
  lemma TheEpochReads()
    ensures ToIsoString(0) == "1970-01-01T00:00:00.000Z"
  {
    TheEpochIs();
    EpochParts();
  }

  lemma EpochParts()
    ensures var f := Fields(1970, 1, 1, 0, 0, 0, 0);
      YearText(1970) == "1970" && DateText(f) == "-01-01" && ClockText(f) == "T00:00" && SecondsText(f) == ":00.000Z"
  {
    PaddedZeros();
    PartsAre(Fields(1970, 1, 1, 0, 0, 0, 0), "01", "00", "000");
    assert "-" + "01" + "-" + "01" == "-01-01" && "T" + "00" + ":" + "00" == "T00:00";
    assert ":" + "00" + "." + "000" + "Z" == ":00.000Z";
  }

  lemma PartsAre(f: Fields, one: string, zero: string, zeros: string)
    requires Padded(f.month, 2) == one && Padded(f.day, 2) == one
    requires Padded(f.hour, 2) == zero && Padded(f.minute, 2) == zero && Padded(f.second, 2) == zero
    requires Padded(f.ms, 3) == zeros
    ensures DateText(f) == "-" + one + "-" + one && ClockText(f) == "T" + zero + ":" + zero
    ensures SecondsText(f) == ":" + zero + "." + zeros + "Z"
  {}

  /** The text is the fields, each in its place and width: a year of four digits, or a sign and six. */
  lemma TextIsTheFields(at: int, f: Fields)
    requires IsInstant(at) && f == FieldsOf(at)
    ensures ToIsoString(at) ==
      (if 0 <= f.year <= 9999 then Padded(f.year, 4)
       else if f.year < 0 then "-" + Padded(-f.year, 6) else "+" + Padded(f.year, 6))
      + "-" + Padded(f.month, 2) + "-" + Padded(f.day, 2) + "T" + Padded(f.hour, 2) + ":" + Padded(f.minute, 2)
      + ":" + Padded(f.second, 2) + "." + Padded(f.ms, 3) + "Z"
  {
    FieldsAreReadBack(at);
    TextParts(f);
  }

  lemma TextParts(f: Fields)
    requires FIRST_YEAR <= f.year <= LAST_YEAR
    ensures YearText(f.year) + DateText(f) + ClockText(f) + SecondsText(f)
      == YearText(f.year) + "-" + Padded(f.month, 2) + "-" + Padded(f.day, 2)
         + "T" + Padded(f.hour, 2) + ":" + Padded(f.minute, 2)
         + ":" + Padded(f.second, 2) + "." + Padded(f.ms, 3) + "Z"
  {
    Regroup(YearText(f.year), Padded(f.month, 2), Padded(f.day, 2), Padded(f.hour, 2), Padded(f.minute, 2));
    RegroupSeconds(YearText(f.year) + DateText(f) + ClockText(f), Padded(f.second, 2), Padded(f.ms, 3));
  }

  lemma Regroup(year: string, month: string, day: string, hour: string, minute: string)
    ensures year + ("-" + month + "-" + day) + ("T" + hour + ":" + minute)
         == year + "-" + month + "-" + day + "T" + hour + ":" + minute
  {}

  lemma RegroupSeconds(front: string, second: string, ms: string)
    ensures front + (":" + second + "." + ms + "Z") == front + ":" + second + "." + ms + "Z"
  {}
}
