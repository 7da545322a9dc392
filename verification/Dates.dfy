/** The start time a name's own date parts assemble into. */
module Dates {
  import opened Basics
  import opened Numerals
  import opened Template
  import opened Matching
  import opened ReadBack
  import Civil

  type Parts = map<Placeholder, nat>

  /** {date}, where the template carries it. */
  function FromDate(values: Captured): Result<Parts, MatchError> {
    if Date !in values then Ok(map[])
    else
      var text := values[Date];
      if !Fits(Date, text) then Err(NoMatch)
      else
        var year, month, day := ValueOf(text[..4]), ValueOf(text[5..7]), ValueOf(text[8..]);
        if !Civil.ValidDate(year, month, day) then Err(NoMatch)
        else Ok(map[Year := year, Month := month, Day := day])
  }

  const CALENDAR := [Year, Month, Day]

  /** One of {year}, {month} and {day}, checked against what {date} said. */
  function AddPart(so: Parts, p: Placeholder, values: Captured): Result<Parts, MatchError> {
    if p !in values then Ok(so)
    else if values[p] == "" || !AllDigits(values[p]) then Err(NoMatch)
    else if p in so && so[p] != ValueOf(values[p]) then Err(ConflictingDate)
    else Ok(so[p := ValueOf(values[p])])
  }

  function AddParts(so: Parts, ps: seq<Placeholder>, values: Captured): Result<Parts, MatchError>
    decreases |ps|
  {
    if ps == [] then Ok(so)
    else match AddPart(so, ps[0], values)
      case Err(e) => Err(e)
      case Ok(more) => AddParts(more, ps[1..], values)
  }

  function DateParts(values: Captured): Result<Parts, MatchError> {
    match FromDate(values)
    case Err(e) => Err(e)
    case Ok(so) => AddParts(so, CALENDAR, values)
  }

  /** datePartsFrom's loop. */
  method DatePartsFrom(values: Captured) returns (result: Result<Parts, MatchError>)
    ensures result == DateParts(values)
  {
    var so := FromDate(values);
    if so.Err? {
      return so;
    }
    var parts := so.value;
    assert CALENDAR[0..] == CALENDAR;
    for i := 0 to |CALENDAR|
      invariant DateParts(values) == AddParts(parts, CALENDAR[i..], values)
    {
      assert CALENDAR[i..][1..] == CALENDAR[i + 1..];
      var more := AddPart(parts, CALENDAR[i], values);
      if more.Err? {
        return more;
      }
      parts := more.value;
    }
    return Ok(parts);
  }

  function Part(parts: Parts, p: Placeholder): nat {
    if p in parts then parts[p] else 0
  }

  predicate ValidClock(hour: nat, minute: nat) { hour < 24 && minute < 60 }

  predicate ValidStamp(s: Stamp) {
    1 <= s.year <= 9999 && Civil.ValidDate(s.year, s.month, s.day) && ValidClock(s.hour, s.minute)
  }

  function Assemble(parts: Parts, values: Captured): Result<Option<Stamp>, MatchError> {
    var year, month, day := Part(parts, Year), Part(parts, Month), Part(parts, Day);
    if year == 0 || month == 0 || day == 0 then Ok(None)
    else if Time in values && !ClockFits(values[Time]) then Err(NoMatch)
    else if !Civil.ValidDate(year, month, day) then Err(NoMatch)
    else if Time in values then Ok(Some(Stamp(year, month, day, HourOf(values[Time]), MinuteOf(values[Time]))))
    else Ok(Some(Stamp(year, month, day, 0, 0)))
  }

  /** startedFrom: nothing, unless year, month and day are all in the name. */
  function StartedFrom(values: Captured): Result<Option<Stamp>, MatchError> {
    match DateParts(values)
    case Err(e) => Err(e)
    case Ok(parts) => Assemble(parts, values)
  }

  predicate ClockFits(text: string) {
    Fits(Time, text) && ValidClock(HourOf(text), MinuteOf(text))
  }

  function HourOf(text: string): nat
    requires Fits(Time, text)
  {
    ValueOf(text[..2])
  }

  function MinuteOf(text: string): nat
    requires Fits(Time, text)
  {
    ValueOf(text[3..])
  }

  // ----- printing and reading a date -----

  lemma FourDigits(n: nat)
    requires n <= 9999
    ensures AllDigits(Digits(n, 4)) && ValueOf(Digits(n, 4)) == n
  {
    assert Pow10(4) == 10 * Pow10(3) && Pow10(3) == 10 * Pow10(2) && Pow10(2) == 10 * Pow10(1) && Pow10(1) == 10;
    DigitsRead(n, 4);
  }

  lemma TwoDigits(n: nat)
    requires n <= 99
    ensures AllDigits(Digits(n, 2)) && ValueOf(Digits(n, 2)) == n
  {
    assert Pow10(2) == 10 * Pow10(1) && Pow10(1) == 10;
    DigitsRead(n, 2);
  }

  lemma DateTextReads(s: Stamp)
    requires ValidStamp(s)
    ensures var text := DateText(s);
      && Fits(Date, text) && text[..4] == Digits(s.year, 4) && text[5..7] == Digits(s.month, 2)
      && text[8..] == Digits(s.day, 2)
  {
    var y, m, d := Digits(s.year, 4), Digits(s.month, 2), Digits(s.day, 2);
    var text := y + "-" + m + "-" + d;
    assert text[..4] == y && text[5..7] == m && text[8..] == d && text[4] == '-' && text[7] == '-';
  }

  lemma TimeTextReads(s: Stamp)
    requires ValidStamp(s)
    ensures ClockFits(TimeText(s)) && HourOf(TimeText(s)) == s.hour && MinuteOf(TimeText(s)) == s.minute
  {
    var h, m := Digits(s.hour, 2), Digits(s.minute, 2);
    var text := h + "-" + m;
    assert text[..2] == h && text[3..] == m && text[2] == '-';
    TwoDigits(s.hour);
    TwoDigits(s.minute);
  }

  /** A date and a clock printed into a name read back as the time they were printed from. */
  lemma PrintedStampReads(values: Captured, s: Stamp)
    requires ValidStamp(s) && Date in values && Time in values
    requires values[Date] == DateText(s) && values[Time] == TimeText(s)
    requires Year in values ==> values[Year] == Digits(s.year, 4)
    requires Month in values ==> values[Month] == Digits(s.month, 2)
    requires Day in values ==> values[Day] == Digits(s.day, 2)
    ensures StartedFrom(values) == Ok(Some(s))
  {
    DateTextReads(s);
    TimeTextReads(s);
    FourDigits(s.year);
    TwoDigits(s.month);
    TwoDigits(s.day);
    var so := FromDate(values).value;
    assert so == map[Year := s.year, Month := s.month, Day := s.day];
    assert so[Year := s.year] == so && so[Month := s.month] == so && so[Day := s.day] == so;
    assert AddPart(so, Year, values) == Ok(so);
    assert AddPart(so, Month, values) == Ok(so);
    assert AddPart(so, Day, values) == Ok(so);
    assert CALENDAR[1..] == [Month, Day] && [Month, Day][1..] == [Day] && [Day][1..] == [];
    assert AddParts(so, [Day], values) == Ok(so);
    assert AddParts(so, [Month, Day], values) == Ok(so);
  }

  // ----- what any reading's date is -----

  predicate Shaped(values: Captured) {
    forall p :: p in values ==> Fits(p, values[p])
  }

  /** What the loop over the calendar's parts leaves, begun from so. */
  lemma {:induction false} AddPartsAgree(so: Parts, ps: seq<Placeholder>, values: Captured)
    requires AddParts(so, ps, values).Ok?
    ensures var parts := AddParts(so, ps, values).value;
      && (forall q :: q in so ==> q in parts && parts[q] == so[q])
      && (forall p :: p in ps && p in values ==>
            values[p] != "" && AllDigits(values[p]) && p in parts && parts[p] == ValueOf(values[p]))
      && (forall q :: q in parts ==> q in so || (q in ps && q in values))
    decreases |ps|
  {
    if ps != [] {
      var more := AddPart(so, ps[0], values).value;
      AddPartsAgree(more, ps[1..], values);
      assert forall p :: p in ps <==> p == ps[0] || p in ps[1..];
    }
  }

  lemma DateIsItsParts(text: string)
    requires Fits(Date, text)
    ensures text == Digits(ValueOf(text[..4]), 4) + "-" + Digits(ValueOf(text[5..7]), 2) + "-" +
      Digits(ValueOf(text[8..]), 2)
  {
    ReadDigits(text[..4]);
    ReadDigits(text[5..7]);
    ReadDigits(text[8..]);
    assert text == text[..4] + "-" + text[5..7] + "-" + text[8..];
  }

  lemma DateRespells(values: Captured, s: Stamp)
    requires Shaped(values) && DateParts(values).Ok? && Date in values
    requires var parts := DateParts(values).value;
      s.year == Part(parts, Year) && s.month == Part(parts, Month) && s.day == Part(parts, Day)
    ensures values[Date] == DateText(s)
  {
    var so := FromDate(values).value;
    AddPartsAgree(so, CALENDAR, values);
    assert Year in so && Month in so && Day in so;
    DateIsItsParts(values[Date]);
  }

  /** The parts a name's own {year}, {month} and {day} were read as. */
  predicate Agrees(parts: Parts, values: Captured) {
    forall p :: p in CALENDAR && p in values ==>
      AllDigits(values[p]) && p in parts && parts[p] == ValueOf(values[p])
  }

  lemma PartRespells(parts: Parts, values: Captured, p: Placeholder)
    requires Agrees(parts, values) && p in CALENDAR && p in values
    ensures values[p] == Digits(Part(parts, p), |values[p]|)
  {
    ReadDigits(values[p]);
  }

  lemma TimeRespells(text: string, s: Stamp)
    requires ClockFits(text) && s.hour == HourOf(text) && s.minute == MinuteOf(text)
    ensures text == TimeText(s)
  {
    ReadDigits(text[..2]);
    ReadDigits(text[3..]);
    assert text == text[..2] + "-" + text[3..];
  }

  lemma YearHasFourDigits(values: Captured)
    requires Shaped(values) && DateParts(values).Ok?
    ensures Part(DateParts(values).value, Year) <= 9999
  {
    AddPartsAgree(FromDate(values).value, CALENDAR, values);
    assert Pow10(4) == 10 * Pow10(3) && Pow10(3) == 10 * Pow10(2) && Pow10(2) == 10 * Pow10(1) && Pow10(1) == 10;
    if Year in values { ReadDigits(values[Year]); }
    if Date in values { ReadDigits(values[Date][..4]); }
  }

  lemma AssembledIsReal(parts: Parts, values: Captured)
    requires Assemble(parts, values).Ok? && Assemble(parts, values).value.Some? && Part(parts, Year) <= 9999
    ensures var s := Assemble(parts, values).value.value;
      && ValidStamp(s) && s.year == Part(parts, Year) && s.month == Part(parts, Month) && s.day == Part(parts, Day)
      && (Time in values ==> values[Time] == TimeText(s))
  {
    if Time in values { TimeRespells(values[Time], Assemble(parts, values).value.value); }
  }

  /** Every date part a name carries is one the time prints back. */
  predicate PrintsBack(values: Captured, s: Stamp) {
    && (Date in values ==> values[Date] == DateText(s))
    && (Time in values ==> values[Time] == TimeText(s))
    && (Year in values ==> values[Year] == Digits(s.year, 4))
    && (Month in values ==> values[Month] == Digits(s.month, 2))
    && (Day in values ==> values[Day] == Digits(s.day, 2))
  }

  lemma PartWidth(values: Captured, p: Placeholder)
    requires Shaped(values) && p in values && (p.Year? || p.Month? || p.Day?)
    ensures |values[p]| == if p.Year? then 4 else 2
  {}

  lemma OnePrintsBack(parts: Parts, values: Captured, p: Placeholder, n: nat, width: nat)
    requires Agrees(parts, values) && p in CALENDAR && n == Part(parts, p)
    requires p in values ==> |values[p]| == width
    ensures p in values ==> values[p] == Digits(n, width)
  {
    if p in values { PartRespells(parts, values, p); }
  }

  lemma PartsPrintBack(parts: Parts, values: Captured, s: Stamp)
    requires Shaped(values) && Agrees(parts, values)
    requires s.year == Part(parts, Year) && s.month == Part(parts, Month) && s.day == Part(parts, Day)
    requires Time in values ==> values[Time] == TimeText(s)
    requires Date in values ==> values[Date] == DateText(s)
    ensures PrintsBack(values, s)
  {
    if Year in values { PartWidth(values, Year); }
    if Month in values { PartWidth(values, Month); }
    if Day in values { PartWidth(values, Day); }
    OnePrintsBack(parts, values, Year, s.year, 4);
    OnePrintsBack(parts, values, Month, s.month, 2);
    OnePrintsBack(parts, values, Day, s.day, 2);
  }

  /** A time read out of a name is a real one, and prints back every date part the name carried. */
  lemma StartedIsReal(values: Captured)
    requires Shaped(values) && StartedFrom(values).Ok? && StartedFrom(values).value.Some?
    ensures ValidStamp(StartedFrom(values).value.value)
    ensures PrintsBack(values, StartedFrom(values).value.value)
  {
    var parts := DateParts(values).value;
    YearHasFourDigits(values);
    AssembledIsReal(parts, values);
    AddPartsAgree(FromDate(values).value, CALENDAR, values);
    if Date in values { DateRespells(values, Assemble(parts, values).value.value); }
    PartsPrintBack(parts, values, Assemble(parts, values).value.value);
  }

  /** The values tell a whole date, as {date} or part by part, and no part of it is zero. */
  predicate Dated(values: Captured)
    requires Shaped(values)
  {
    && (Date in values || (Year in values && Month in values && Day in values))
    && (Date in values ==> ValueOf(values[Date][..4]) > 0)
    && (Year in values ==> ValueOf(values[Year]) > 0)
    && (Month in values ==> ValueOf(values[Month]) > 0) && (Day in values ==> ValueOf(values[Day]) > 0)
  }

  /** A time is read exactly where the values tell a whole date; the clock is midnight where none is told. */
  lemma StartedIsDated(values: Captured)
    requires Shaped(values) && StartedFrom(values).Ok?
    ensures StartedFrom(values).value.Some? <==> Dated(values)
    ensures Dated(values) && Time !in values ==>
              StartedFrom(values).value.value.hour == 0 && StartedFrom(values).value.value.minute == 0
  {
    AddPartsAgree(FromDate(values).value, CALENDAR, values);
    assert Year in CALENDAR && Month in CALENDAR && Day in CALENDAR;
  }
}
