/** The timestamp `iso_utc_now` produces (app_python/app.py, lines 40-42):
    `datetime.now(timezone.utc).isoformat(timespec="milliseconds")` with the
    offset "+00:00" replaced by "Z". The clock read is a parameter: the
    broken-down UTC date and time of the current instant. */
module Timestamp {
  import opened Wrappers
  import opened Text

  /** Fields of a Python `datetime` in UTC. */
  datatype DateTime = DateTime(
    year: int, month: int, day: int,
    hour: int, minute: int, second: int, microsecond: int)

  predicate IsLeapYear(y: int) {
    y % 4 == 0 && (y % 100 != 0 || y % 400 == 0)
  }

  function DaysInMonth(y: int, m: int): (n: int)
    requires 1 <= m <= 12
    ensures 28 <= n <= 31
  {
    if m == 2 then (if IsLeapYear(y) then 29 else 28)
    else if m == 4 || m == 6 || m == 9 || m == 11 then 30
    else 31
  }

  /** The ranges Python's `datetime` enforces (years 1 to 9999). */
  predicate ValidDateTime(t: DateTime) {
    && 1 <= t.year <= 9999
    && 1 <= t.month <= 12
    && 1 <= t.day <= DaysInMonth(t.year, t.month)
    && 0 <= t.hour < 24
    && 0 <= t.minute < 60
    && 0 <= t.second < 60
    && 0 <= t.microsecond < 1000000
  }

  /** The same instant at millisecond precision: what the timestamp shows. */
  datatype Stamp = Stamp(
    year: int, month: int, day: int,
    hour: int, minute: int, second: int, millisecond: int)

  predicate ValidStamp(p: Stamp) {
    ValidDateTime(DateTime(p.year, p.month, p.day, p.hour, p.minute, p.second, p.millisecond * 1000))
  }

  /** `isoformat(timespec="milliseconds")` truncates microseconds to milliseconds. */
  function ToStamp(t: DateTime): (p: Stamp)
    requires ValidDateTime(t)
    ensures ValidStamp(p)
    ensures p.year == t.year && p.month == t.month && p.day == t.day
    ensures p.hour == t.hour && p.minute == t.minute && p.second == t.second
    ensures p.millisecond * 1000 <= t.microsecond < p.millisecond * 1000 + 1000
  {
    Stamp(t.year, t.month, t.day, t.hour, t.minute, t.second, t.microsecond / 1000)
  }

  /** The date "Y-M-D" of already formatted fields. */
  function DateLayout(y: string, mo: string, d: string): string {
    y + "-" + mo + "-" + d
  }

  /** The time of day "h:m:s.f" of already formatted fields. */
  function TimeLayout(h: string, mi: string, s: string, f: string): string {
    h + ":" + mi + ":" + s + "." + f
  }

  /** The layout "Y-M-DTh:m:s.f" of already formatted fields. */
  function Layout(y: string, mo: string, d: string, h: string, mi: string, s: string, f: string): string {
    DateLayout(y, mo, d) + "T" + TimeLayout(h, mi, s, f)
  }

  /** Everything `isoformat` writes before the UTC offset:
      "%04d-%02d-%02dT%02d:%02d:%02d.%03d". Followed by a `Z` it has the
      timestamp shape, and it never holds a '+'. */
  function DateTimePart(t: DateTime): (s: string)
    requires ValidDateTime(t)
    ensures IsTimestamp(s + "Z")
    ensures '+' !in s
  {
    var s := Layout(
      PadDigits(t.year, 4), PadDigits(t.month, 2), PadDigits(t.day, 2),
      PadDigits(t.hour, 2), PadDigits(t.minute, 2), PadDigits(t.second, 2),
      PadDigits(t.microsecond / 1000, 3));
    LayoutFields(
      PadDigits(t.year, 4), PadDigits(t.month, 2), PadDigits(t.day, 2),
      PadDigits(t.hour, 2), PadDigits(t.minute, 2), PadDigits(t.second, 2),
      PadDigits(t.microsecond / 1000, 3));
    TimestampHasNoPlus(s + "Z");
    assert forall i | 0 <= i < |s| :: s[i] == (s + "Z")[i];
    s
  }

  /** `isoformat(timespec="milliseconds")` of an aware UTC datetime: 29
      characters, with the offset "+00:00" once, at the end. */
  function IsoFormatMillis(t: DateTime): (r: string)
    requires ValidDateTime(t)
    ensures |r| == 29 && OccursAt(r, "+00:00", 23)
    ensures forall i :: OccursAt(r, "+00:00", i) ==> i == 23
  {
    var s := DateTimePart(t);
    OffsetOnlyAtEnd(s);
    s + "+00:00"
  }

  /** `iso_utc_now()` for the instant `t`: the replacement rewrites only the
      trailing offset, so the result is the date and time followed by `Z`. */
  function IsoUtc(t: DateTime): (r: string)
    requires ValidDateTime(t)
    ensures r == DateTimePart(t) + "Z"
    ensures IsTimestamp(r)
  {
    ReplaceTrailing(DateTimePart(t), "+00:00", "Z");
    ReplaceAll(IsoFormatMillis(t), "+00:00", "Z")
  }

  /** In a string without '+', an appended "+00:00" is the only occurrence. */
  lemma OffsetOnlyAtEnd(s: string)
    requires '+' !in s
    ensures OccursAt(s + "+00:00", "+00:00", |s|)
    ensures forall i :: OccursAt(s + "+00:00", "+00:00", i) ==> i == |s|
  {
    var w := s + "+00:00";
    assert w[|s|..|s| + 6] == "+00:00";
    forall i | 0 <= i < |s| ensures !OccursAt(w, "+00:00", i) {
      assert w[i..i + 6][0] == w[i] == s[i];
    }
  }

  /** The shape "YYYY-MM-DDTHH:MM:SS.mmmZ": 24 characters, the separators in
      place, decimal digits everywhere else, a literal `Z` at the end. */
  predicate IsTimestamp(s: string) {
    && |s| == 24
    && s[4] == '-' && s[7] == '-' && s[10] == 'T' && s[13] == ':' && s[16] == ':'
    && s[19] == '.' && s[23] == 'Z'
    && AllDigits(s[0..4]) && AllDigits(s[5..7]) && AllDigits(s[8..10])
    && AllDigits(s[11..13]) && AllDigits(s[14..16]) && AllDigits(s[17..19])
    && AllDigits(s[20..23])
  }

  /** Reads the fields back from a timestamp. */
  function ParseTimestamp(s: string): (r: Option<Stamp>)
    ensures r.Some? <==> IsTimestamp(s)
  {
    if !IsTimestamp(s) then None
    else Some(Stamp(
      DigitsValue(s[0..4]), DigitsValue(s[5..7]), DigitsValue(s[8..10]),
      DigitsValue(s[11..13]), DigitsValue(s[14..16]), DigitsValue(s[17..19]),
      DigitsValue(s[20..23])))
  }

  /** The timestamp has the promised shape, carries no "+00:00" offset, and
      reads back as the instant it was written for, at millisecond precision. */
  lemma IsoUtcWellFormed(t: DateTime)
    requires ValidDateTime(t)
    ensures IsTimestamp(IsoUtc(t))
    ensures !Contains(IsoUtc(t), "+00:00")
    ensures ParseTimestamp(IsoUtc(t)) == Some(ToStamp(t))
  {
    var s := IsoUtc(t);
    TimestampHasNoPlus(s);
    NoPlusNoOffset(s);
    ParseDateTimePart(t);
  }

  lemma ParseDateTimePart(t: DateTime)
    requires ValidDateTime(t)
    ensures ParseTimestamp(DateTimePart(t) + "Z") == Some(ToStamp(t))
  {
    LayoutFields(
      PadDigits(t.year, 4), PadDigits(t.month, 2), PadDigits(t.day, 2),
      PadDigits(t.hour, 2), PadDigits(t.minute, 2), PadDigits(t.second, 2),
      PadDigits(t.microsecond / 1000, 3));
    PadDigitsRoundTrip(t.year, 4);
    PadDigitsRoundTrip(t.month, 2);
    PadDigitsRoundTrip(t.day, 2);
    PadDigitsRoundTrip(t.hour, 2);
    PadDigitsRoundTrip(t.minute, 2);
    PadDigitsRoundTrip(t.second, 2);
    PadDigitsRoundTrip(t.microsecond / 1000, 3);
  }

  lemma DateFields(y: string, mo: string, d: string)
    requires |y| == 4 && |mo| == 2 && |d| == 2
    ensures
      var u := DateLayout(y, mo, d);
      |u| == 10 && u[4] == '-' && u[7] == '-' && u[0..4] == y && u[5..7] == mo && u[8..10] == d
  {
    var u := DateLayout(y, mo, d);
    assert u[..7] == y + "-" + mo;
  }

  lemma TimeFields(h: string, mi: string, s: string, f: string)
    requires |h| == 2 && |mi| == 2 && |s| == 2 && |f| == 3
    ensures
      var u := TimeLayout(h, mi, s, f);
      && |u| == 12 && u[2] == ':' && u[5] == ':' && u[8] == '.'
      && u[0..2] == h && u[3..5] == mi && u[6..8] == s && u[9..12] == f
  {
    var u := TimeLayout(h, mi, s, f);
    assert u[..8] == h + ":" + mi + ":" + s;
    assert u[..5] == h + ":" + mi;
  }

  /** Where each formatted field lands in the layout. */
  lemma LayoutFields(y: string, mo: string, d: string, h: string, mi: string, s: string, f: string)
    requires |y| == 4 && |mo| == 2 && |d| == 2 && |h| == 2 && |mi| == 2 && |s| == 2 && |f| == 3
    ensures
      var u := Layout(y, mo, d, h, mi, s, f) + "Z";
      && |u| == 24
      && u[4] == '-' && u[7] == '-' && u[10] == 'T' && u[13] == ':' && u[16] == ':'
      && u[19] == '.' && u[23] == 'Z'
      && u[0..4] == y && u[5..7] == mo && u[8..10] == d && u[11..13] == h
      && u[14..16] == mi && u[17..19] == s && u[20..23] == f
  {
    var date, time := DateLayout(y, mo, d), TimeLayout(h, mi, s, f);
    DateFields(y, mo, d);
    TimeFields(h, mi, s, f);
    var u := Layout(y, mo, d, h, mi, s, f) + "Z";
    assert u[0..10] == date;
    assert u[11..23] == time;
    assert u[0..4] == date[0..4] && u[5..7] == date[5..7] && u[8..10] == date[8..10];
    assert u[11..13] == time[0..2] && u[14..16] == time[3..5];
    assert u[17..19] == time[6..8] && u[20..23] == time[9..12];
    assert u[4] == date[4] && u[7] == date[7];
    assert u[13] == time[2] && u[16] == time[5] && u[19] == time[8];
  }

  /** Every timestamp is the layout of its own fields. */
  lemma LayoutSplit(u: string)
    requires IsTimestamp(u)
    ensures u == Layout(u[0..4], u[5..7], u[8..10], u[11..13], u[14..16], u[17..19], u[20..23]) + "Z"
  {
    assert u[0..5] == u[0..4] + "-";
    assert u[0..7] == u[0..5] + u[5..7];
    assert u[0..8] == u[0..7] + "-";
    assert u[0..10] == u[0..8] + u[8..10];
    assert u[0..11] == u[0..10] + "T";
    assert u[0..13] == u[0..11] + u[11..13];
    assert u[0..14] == u[0..13] + ":";
    assert u[0..16] == u[0..14] + u[14..16];
    assert u[0..17] == u[0..16] + ":";
    assert u[0..19] == u[0..17] + u[17..19];
    assert u[0..20] == u[0..19] + ".";
    assert u[0..23] == u[0..20] + u[20..23];
    assert u == u[0..23] + "Z";
  }

  /** A timestamp holds only digits and its separators, never '+'. */
  lemma TimestampHasNoPlus(u: string)
    requires IsTimestamp(u)
    ensures '+' !in u
  {
    forall i | 0 <= i < 24 ensures u[i] != '+' {
      if i < 4 { assert u[i] == u[0..4][i]; }
      else if 5 <= i < 7 { assert u[i] == u[5..7][i - 5]; }
      else if 8 <= i < 10 { assert u[i] == u[8..10][i - 8]; }
      else if 11 <= i < 13 { assert u[i] == u[11..13][i - 11]; }
      else if 14 <= i < 16 { assert u[i] == u[14..16][i - 14]; }
      else if 17 <= i < 19 { assert u[i] == u[17..19][i - 17]; }
      else if 20 <= i < 23 { assert u[i] == u[20..23][i - 20]; }
    }
  }

  /** A string without '+' cannot contain "+00:00". */
  lemma NoPlusNoOffset(s: string)
    requires '+' !in s
    ensures !Contains(s, "+00:00")
  {
    forall i | 0 <= i <= |s| - 6 ensures !OccursAt(s, "+00:00", i) {
      assert s[i..i + 6][0] == s[i] != '+';
    }
  }

  /** The converse of the round trip: every well-formed timestamp of a valid
      instant is the one `iso_utc_now` writes for that instant. */
  lemma TimestampRoundTrip(s: string)
    requires ParseTimestamp(s).Some? && ValidStamp(ParseTimestamp(s).value)
    ensures
      var p := ParseTimestamp(s).value;
      IsoUtc(DateTime(p.year, p.month, p.day, p.hour, p.minute, p.second, p.millisecond * 1000)) == s
  {
    var p := ParseTimestamp(s).value;
    var t := DateTime(p.year, p.month, p.day, p.hour, p.minute, p.second, p.millisecond * 1000);
    DigitsValueRoundTrip(s[0..4]);
    DigitsValueRoundTrip(s[5..7]);
    DigitsValueRoundTrip(s[8..10]);
    DigitsValueRoundTrip(s[11..13]);
    DigitsValueRoundTrip(s[14..16]);
    DigitsValueRoundTrip(s[17..19]);
    DigitsValueRoundTrip(s[20..23]);
    assert t.microsecond / 1000 == p.millisecond;
    LayoutSplit(s);
  }

  /** The example instant written in the source's comment. */
  lemma ExampleTimestamp(t: DateTime, s: string)
    requires t == DateTime(2026, 1, 7, 14, 30, 0, 0)
    requires s == "2026-01-07T14:30:00.000Z"
    ensures IsoUtc(t) == s
  {
    ExampleFields();
    ExampleLiteralSplit(s);
  }

  lemma ExampleFields()
    ensures PadDigits(2026, 4) == "2026"
    ensures PadDigits(1, 2) == "01" && PadDigits(7, 2) == "07"
    ensures PadDigits(14, 2) == "14" && PadDigits(30, 2) == "30"
    ensures PadDigits(0, 2) == "00" && PadDigits(0, 3) == "000"
  {
    assert PadDigits(20, 2) == "20";
    assert PadDigits(202, 3) == "202";
  }

  lemma ExampleLiteralSplit(s: string)
    requires s == "2026-01-07T14:30:00.000Z"
    ensures s == Layout("2026", "01", "07", "14", "30", "00", "000") + "Z"
  {
  }
}
