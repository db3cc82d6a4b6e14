/** The format `%d/%m/%Y %H:%M` as a description of whole strings, and the
    proof that the timestamp parser accepts exactly the strings it
    describes. */
module StampFormat {
  import opened Wrappers
  import opened Text
  import opened Timestamps

  /** `clock` is `%H:%M`: an hour token, `:`, a minute token. */
  ghost predicate SpellsClock(clock: string, hour: nat, minute: nat) {
    exists h, mi :: clock == h + ([':'] + mi)
      && Field(h, 0, 23, false) == Some(hour) && Field(mi, 0, 59, false) == Some(minute)
  }

  /** `text` is `%Y %H:%M`: four year digits, a run of white space (the
      format's space), then the clock. */
  ghost predicate SpellsYearAndClock(text: string, year: nat, hour: nat, minute: nat) {
    exists y, w, clock :: text == y + (w + clock)
      && |y| == 4 && AllDigits(y) && DigitsValue(y) == year
      && |w| >= 1 && AllSpaces(w) && SpellsClock(clock, hour, minute)
  }

  /** `s` writes `ts` in the format `%d/%m/%Y %H:%M` as a whole-string
      match: a day token, `/`, a month token, `/`, then year and clock. */
  ghost predicate Spells(s: string, ts: Timestamp) {
    exists d, m, rest :: s == d + ("/" + (m + ("/" + rest)))
      && Field(d, 1, 31, true) == Some(ts.day) && Field(m, 1, 12, false) == Some(ts.month)
      && ts.year >= 0 && ts.hour >= 0 && ts.minute >= 0
      && SpellsYearAndClock(rest, ts.year, ts.hour, ts.minute)
  }

  lemma {:induction false} ParsedClockIsSpelled(clock: string, hour: nat, minute: nat)
    requires ParseClock(clock) == Some((hour, minute))
    ensures SpellsClock(clock, hour, minute)
  {
    var (h, mi) := Cut(clock, ':').value;
    assert Field(h, 0, 23, false) == Some(hour) && Field(mi, 0, 59, false) == Some(minute);
  }

  lemma {:induction false} SpelledClockIsParsed(clock: string, hour: nat, minute: nat)
    requires SpellsClock(clock, hour, minute)
    ensures ParseClock(clock) == Some((hour, minute))
  {
    var h, mi :| clock == h + ([':'] + mi)
      && Field(h, 0, 23, false) == Some(hour) && Field(mi, 0, 59, false) == Some(minute);
    FieldChars(h, 0, 23, false);
    CutAtFirst(clock, ':', h, mi);
  }

  lemma YearAndClockWitness(text: string, y: string, w: string, clock: string, year: nat, hour: nat, minute: nat)
    requires text == y + (w + clock) && |y| == 4 && AllDigits(y) && DigitsValue(y) == year
    requires |w| >= 1 && AllSpaces(w) && SpellsClock(clock, hour, minute)
    ensures SpellsYearAndClock(text, year, hour, minute)
  {
  }

  /** What a successful `ParseYearAndClock` has read. */
  lemma YearAndClockParts(text: string, year: nat, hour: nat, minute: nat)
    requires ParseYearAndClock(text) == Some((year, hour, minute))
    ensures |text| >= 4 && AllDigits(text[..4]) && DigitsValue(text[..4]) == year
    ensures LeadingSpaces(text[4..]) >= 1
    ensures ParseClock(text[4..][LeadingSpaces(text[4..])..]) == Some((hour, minute))
  {
  }

  lemma {:induction false} ParsedYearAndClockIsSpelled(text: string, year: nat, hour: nat, minute: nat)
    requires ParseYearAndClock(text) == Some((year, hour, minute))
    ensures SpellsYearAndClock(text, year, hour, minute)
  {
    YearAndClockParts(text, year, hour, minute);
    var afterYear := text[4..];
    var n := LeadingSpaces(afterYear);
    var y, w, clock := text[..4], afterYear[..n], afterYear[n..];
    ThreeParts(text, 4, n);
    SpacesPrefix(afterYear);
    ParsedClockIsSpelled(clock, hour, minute);
    YearAndClockWitness(text, y, w, clock, year, hour, minute);
  }

  /** A string is its first `k` characters, the next `n`, and the rest. */
  lemma ThreeParts(s: string, k: nat, n: nat)
    requires k <= |s| && n <= |s| - k
    ensures s == s[..k] + (s[k..][..n] + s[k..][n..])
  {
    assert s[k..] == s[k..][..n] + s[k..][n..];
  }

  /** The leading run of white space is all white space. */
  lemma SpacesPrefix(s: string)
    ensures AllSpaces(s[..LeadingSpaces(s)])
  {
  }

  lemma {:induction false} SpelledYearAndClockIsParsed(text: string, year: nat, hour: nat, minute: nat)
    requires SpellsYearAndClock(text, year, hour, minute)
    ensures ParseYearAndClock(text) == Some((year, hour, minute))
  {
    var y, w, clock :| text == y + (w + clock)
      && |y| == 4 && AllDigits(y) && DigitsValue(y) == year
      && |w| >= 1 && AllSpaces(w) && SpellsClock(clock, hour, minute);
    var h, mi :| clock == h + ([':'] + mi)
      && Field(h, 0, 23, false) == Some(hour) && Field(mi, 0, 59, false) == Some(minute);
    FieldChars(h, 0, 23, false);
    assert clock[0] == h[0];
    LeadingSpacesOf(w, clock);
    assert text[..4] == y && text[4..] == w + clock;
    assert (w + clock)[|w|..] == clock;
    SpelledClockIsParsed(clock, hour, minute);
  }

  /** The pieces of a spelled timestamp witness `Spells`. */
  lemma StampWitness(s: string, d: string, m: string, rest: string, ts: Timestamp)
    requires s == d + ("/" + (m + ("/" + rest)))
    requires Field(d, 1, 31, true) == Some(ts.day) && Field(m, 1, 12, false) == Some(ts.month)
    requires ts.year >= 0 && ts.hour >= 0 && ts.minute >= 0
    requires SpellsYearAndClock(rest, ts.year, ts.hour, ts.minute)
    ensures Spells(s, ts)
  {
  }

  /** What a successful `ParseStamp` has read. */
  lemma StampParts(s: string, ts: Timestamp)
    requires ParseStamp(s) == Some(ts)
    ensures Valid(ts) && ts.year >= 0 && ts.hour >= 0 && ts.minute >= 0
    ensures Cut(s, '/').Some? && Cut(Cut(s, '/').value.1, '/').Some?
    ensures var d := Cut(s, '/').value.0;
      var m := Cut(Cut(s, '/').value.1, '/').value.0;
      var rest := Cut(Cut(s, '/').value.1, '/').value.1;
      && Field(d, 1, 31, true) == Some(ts.day)
      && Field(m, 1, 12, false) == Some(ts.month)
      && ParseYearAndClock(rest) == Some((ts.year, ts.hour, ts.minute))
  {
  }

  lemma {:induction false} ParsedIsSpelled(s: string, ts: Timestamp)
    requires ParseStamp(s) == Some(ts)
    ensures Spells(s, ts) && Valid(ts)
  {
    StampParts(s, ts);
    var (d, afterDay) := Cut(s, '/').value;
    var (m, rest) := Cut(afterDay, '/').value;
    ParsedYearAndClockIsSpelled(rest, ts.year, ts.hour, ts.minute);
    StampWitness(s, d, m, rest, ts);
  }

  lemma {:induction false} SpelledIsParsed(s: string, ts: Timestamp)
    requires Spells(s, ts) && Valid(ts)
    ensures ParseStamp(s) == Some(ts)
  {
    var d, m, rest :| s == d + ("/" + (m + ("/" + rest)))
      && Field(d, 1, 31, true) == Some(ts.day) && Field(m, 1, 12, false) == Some(ts.month)
      && ts.year >= 0 && ts.hour >= 0 && ts.minute >= 0
      && SpellsYearAndClock(rest, ts.year, ts.hour, ts.minute);
    FieldChars(d, 1, 31, true);
    FieldChars(m, 1, 12, false);
    SplitDate(s, d, m, rest);
    SpelledYearAndClockIsParsed(rest, ts.year, ts.hour, ts.minute);
  }

  /** The parser is exactly the format: a string is read as `ts` if and
      only if it spells `ts` and `ts` is a representable calendar minute.
      Every other string yields `None`. */
  lemma ParseStampSpelled(s: string, ts: Timestamp)
    ensures ParseStamp(s) == Some(ts) <==> Spells(s, ts) && Valid(ts)
  {
    if ParseStamp(s) == Some(ts) {
      ParsedIsSpelled(s, ts);
    }
    if Spells(s, ts) && Valid(ts) {
      SpelledIsParsed(s, ts);
    }
  }


  /** A token a field accepts is digits, with a leading space only for `%d`. */
  lemma FieldChars(tok: string, lo: nat, hi: nat, spacePadded: bool)
    requires lo <= 1 && 9 <= hi <= 99 && Field(tok, lo, hi, spacePadded).Some?
    ensures forall i :: 0 <= i < |tok| ==> IsDigit(tok[i]) || (i == 0 && spacePadded && tok[i] == ' ')
  {
  }
}
