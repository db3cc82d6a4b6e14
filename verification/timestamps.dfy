/** The transaction timestamp format `%d/%m/%Y %H:%M` as pandas' strptime
    reads it, with the calendar and range checks that turn a match into a
    timestamp. */
module Timestamps {
  import opened Wrappers
  import opened Text

  /** A timestamp at minute precision (the format has no seconds). */
  datatype Timestamp = Timestamp(year: int, month: int, day: int, hour: int, minute: int)

  /** Gregorian leap years. */
  predicate IsLeapYear(y: int) {
    y % 4 == 0 && (y % 100 != 0 || y % 400 == 0)
  }

  function DaysInMonth(y: int, m: int): (d: int)
    requires 1 <= m <= 12
    ensures 28 <= d <= 31
    ensures d == 29 <==> m == 2 && IsLeapYear(y)
  {
    if m == 2 then (if IsLeapYear(y) then 29 else 28)
    else if m == 4 || m == 6 || m == 9 || m == 11 then 30
    else 31
  }

  /** `a` is not later than `b`. */
  predicate NotAfter(a: Timestamp, b: Timestamp) {
    || a.year < b.year
    || (a.year == b.year && a.month < b.month)
    || (a.year == b.year && a.month == b.month && a.day < b.day)
    || (a.year == b.year && a.month == b.month && a.day == b.day && a.hour < b.hour)
    || (a.year == b.year && a.month == b.month && a.day == b.day && a.hour == b.hour && a.minute <= b.minute)
  }

  /** The first and last whole minutes a nanosecond-resolution pandas
      Timestamp can hold (its range is 1677-09-21 00:12:43.145224193 to
      2262-04-11 23:47:16.854775807). */
  const Earliest := Timestamp(1677, 9, 21, 0, 13)
  const Latest := Timestamp(2262, 4, 11, 23, 47)

  /** A real calendar minute that pandas can represent. */
  predicate Valid(ts: Timestamp) {
    && 1 <= ts.month <= 12
    && 1 <= ts.day <= DaysInMonth(ts.year, ts.month)
    && 0 <= ts.hour <= 23
    && 0 <= ts.minute <= 59
    && NotAfter(Earliest, ts)
    && NotAfter(ts, Latest)
  }

  /** One numeric directive: one digit, two digits, or (for `%d` only) a
      space followed by a digit; the value must lie in `lo..hi`. */
  function Field(tok: string, lo: nat, hi: nat, spacePadded: bool): (r: Option<nat>)
    requires lo <= 1 && 9 <= hi <= 99
    ensures r.Some? ==> lo <= r.value <= hi
    ensures r.Some? ==> 1 <= |tok| <= 2
  {
    if |tok| == 1 && IsDigit(tok[0]) && lo <= DigitValue(tok[0]) then
      Some(DigitValue(tok[0]))
    else if |tok| == 2 && AllDigits(tok) && lo <= DigitsValue(tok) <= hi then
      Some(DigitsValue(tok))
    else if |tok| == 2 && spacePadded && tok[0] == ' ' && IsDigit(tok[1]) && 1 <= DigitValue(tok[1]) then
      Some(DigitValue(tok[1]))
    else None
  }

  /** Reads `hour:minute`: the hour ends at the first `:` and the minute
      runs to the end of the text. */
  function ParseClock(clock: string): (r: Option<(nat, nat)>)
    ensures r.Some? ==> r.value.0 <= 23 && r.value.1 <= 59
  {
    match Cut(clock, ':')
    case None => None
    case Some((hourTok, minuteTok)) =>
      var hour := Field(hourTok, 0, 23, false);
      var minute := Field(minuteTok, 0, 59, false);
      if hour.None? || minute.None? then None else Some((hour.value, minute.value))
  }

  /** Reads `year<white space>hour:minute`: exactly four year digits, then
      a run of at least one white space character, then the clock. */
  function ParseYearAndClock(text: string): (r: Option<(nat, nat, nat)>)
    ensures r.Some? ==> r.value.0 <= 9999 && r.value.1 <= 23 && r.value.2 <= 59
  {
    if |text| < 4 || !AllDigits(text[..4]) then None
    else
      var afterYear := text[4..];
      var w := LeadingSpaces(afterYear);
      if w == 0 then None
      else match ParseClock(afterYear[w..])
        case None => None
        case Some((hour, minute)) =>
          assert DigitsValue(text[..4]) < 10000 by { DigitsBound4(text[..4]); }
          Some((DigitsValue(text[..4]), hour, minute))
  }

  lemma DigitsBound4(s: string)
    requires |s| == 4 && AllDigits(s)
    ensures DigitsValue(s) < 10000
  {
    DigitsValueBound(s);
  }

  /** Reads `day/month/year<white space>hour:minute`, the format
      `%d/%m/%Y %H:%M`: the day and month fields end at the first and second
      `/`. A string that does not match, or names a day its month does not
      have, or lies outside the representable range, yields `None`. */
  function ParseStamp(s: string): (r: Option<Timestamp>)
    ensures r.Some? ==> Valid(r.value)
  {
    match Cut(s, '/')
    case None => None
    case Some((dayTok, afterDay)) =>
      match Cut(afterDay, '/')
      case None => None
      case Some((monthTok, rest)) => Assemble(dayTok, monthTok, rest)
  }

  /** The timestamp that the day token, the month token and the
      `year hour:minute` text after the second `/` name together, if they
      name a representable minute. */
  function Assemble(dayTok: string, monthTok: string, rest: string): (r: Option<Timestamp>)
    ensures r.Some? ==> Valid(r.value)
  {
    var day := Field(dayTok, 1, 31, true);
    var month := Field(monthTok, 1, 12, false);
    match ParseYearAndClock(rest)
    case None => None
    case Some((year, hour, minute)) =>
      if day.None? || month.None? then None
      else
        var ts := Timestamp(year, month.value, day.value, hour, minute);
        if Valid(ts) then Some(ts) else None
  }

  /** `DD/MM/YYYY HH:MM` with every field zero-padded, whatever its value. */
  function Render(day: nat, month: nat, year: nat, hour: nat, minute: nat): string
    requires day <= 99 && month <= 99 && year <= 9999 && hour <= 99 && minute <= 99
  {
    Pad2(day) + ("/" + (Pad2(month) + ("/" + (Pad4(year) + (" " + (Pad2(hour) + (":" + Pad2(minute))))))))
  }

  /** The canonical rendering of a representable minute. */
  function Format(ts: Timestamp): string
    requires Valid(ts)
  {
    Render(ts.day, ts.month, ts.year, ts.hour, ts.minute)
  }

  lemma FieldOfPad2(n: nat, lo: nat, hi: nat, spacePadded: bool)
    requires lo <= 1 && 9 <= hi <= 99 && n <= 99
    ensures Field(Pad2(n), lo, hi, spacePadded) == if lo <= n <= hi then Some(n) else None
  {
  }

  lemma NoSeparatorInDigits(s: string, ch: char)
    requires AllDigits(s) && !IsDigit(ch)
    ensures ch !in s
  {
  }

  lemma ClockOf(hour: nat, minute: nat)
    requires hour <= 99 && minute <= 99
    ensures ParseClock(Pad2(hour) + (":" + Pad2(minute))) ==
      if hour <= 23 && minute <= 59 then Some((hour, minute)) else None
  {
    var h, mi := Pad2(hour), Pad2(minute);
    var clock := h + (":" + mi);
    NoSeparatorInDigits(h, ':');
    CutAtFirst(clock, ':', h, mi);
    FieldOfPad2(hour, 0, 23, false);
    FieldOfPad2(minute, 0, 59, false);
  }

  lemma YearAndClockOf(year: nat, hour: nat, minute: nat)
    requires year <= 9999 && hour <= 99 && minute <= 99
    ensures ParseYearAndClock(Pad4(year) + (" " + (Pad2(hour) + (":" + Pad2(minute))))) ==
      if hour <= 23 && minute <= 59 then Some((year, hour, minute)) else None
  {
    var y, clock := Pad4(year), Pad2(hour) + (":" + Pad2(minute));
    var text := y + (" " + clock);
    assert text[..4] == y && text[4..] == " " + clock;
    assert AllSpaces(" ");
    LeadingSpacesOf(" ", clock);
    assert (" " + clock)[1..] == clock;
    ClockOf(hour, minute);
  }

  /** Any five numbers, written zero-padded in the format, are read back
      exactly when they name a representable minute, and rejected
      otherwise: an impossible day, month, hour or minute yields `None`. */
  lemma RenderParses(day: nat, month: nat, year: nat, hour: nat, minute: nat)
    requires day <= 99 && month <= 99 && year <= 9999 && hour <= 99 && minute <= 99
    ensures var ts := Timestamp(year, month, day, hour, minute);
      ParseStamp(Render(day, month, year, hour, minute)) == if Valid(ts) then Some(ts) else None
  {
    var d, m := Pad2(day), Pad2(month);
    var rest := Pad4(year) + (" " + (Pad2(hour) + (":" + Pad2(minute))));
    NoSeparatorInDigits(d, '/');
    NoSeparatorInDigits(m, '/');
    SplitDate(Render(day, month, year, hour, minute), d, m, rest);
    YearAndClockOf(year, hour, minute);
    FieldOfPad2(day, 1, 31, true);
    FieldOfPad2(month, 1, 12, false);
  }

  /** Every representable minute, written canonically, is read back as
      itself: the parser rejects nothing it should accept. */
  lemma ParseFormat(ts: Timestamp)
    requires Valid(ts)
    ensures ParseStamp(Format(ts)) == Some(ts)
  {
    RenderParses(ts.day, ts.month, ts.year, ts.hour, ts.minute);
  }

  /** Reaches the fields of a string shaped `dd/mm/<rest>`. */
  lemma SplitDate(s: string, d: string, m: string, rest: string)
    requires '/' !in d && '/' !in m
    requires s == d + ("/" + (m + ("/" + rest)))
    ensures ParseStamp(s) == Assemble(d, m, rest)
  {
    var afterDay := m + ("/" + rest);
    CutAtFirst(s, '/', d, afterDay);
    CutAtFirst(afterDay, '/', m, rest);
  }

  /** The worked example: `20/03/2024 14:30` is 2024-03-20 at 14:30. */
  lemma ExampleWellFormed()
    ensures ParseStamp("20/03/2024 14:30") == Some(Timestamp(2024, 3, 20, 14, 30))
  {
    assert Valid(Timestamp(2024, 3, 20, 14, 30)) by { assert DaysInMonth(2024, 3) == 31; }
    RenderParses(20, 3, 2024, 14, 30);
    RenderedWellFormed();
  }

  lemma RenderedWellFormed()
    ensures Render(20, 3, 2024, 14, 30) == "20/03/2024 14:30"
  {
    ExamplePads();
    ExampleYear();
  }

  /** Day 31 of February is rejected, not raised. */
  lemma ExampleBadDay()
    ensures ParseStamp("31/02/2024 14:30") == None
  {
    assert !Valid(Timestamp(2024, 2, 31, 14, 30)) by { assert DaysInMonth(2024, 2) == 29; }
    RenderParses(31, 2, 2024, 14, 30);
    RenderedBadDay();
  }

  lemma RenderedBadDay()
    ensures Render(31, 2, 2024, 14, 30) == "31/02/2024 14:30"
  {
    ExamplePads();
    ExampleYear();
  }

  /** Hour 99 is rejected, not raised. */
  lemma ExampleBadHour()
    ensures ParseStamp("31/02/2024 99:99") == None
  {
    RenderParses(31, 2, 2024, 99, 99);
    RenderedBadHour();
  }

  lemma RenderedBadHour()
    ensures Render(31, 2, 2024, 99, 99) == "31/02/2024 99:99"
  {
    ExamplePads();
    ExampleYear();
  }

  /** The zero-padded fields the examples are written with. */
  lemma ExamplePads()
    ensures Pad2(2) == "02" && Pad2(3) == "03" && Pad2(14) == "14" && Pad2(20) == "20"
    ensures Pad2(30) == "30" && Pad2(31) == "31" && Pad2(99) == "99"
  {
  }

  lemma ExampleYear()
    ensures Pad4(2024) == "2024"
  {
  }
}
