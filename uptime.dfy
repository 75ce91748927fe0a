/** Uptime of the process (app_python/app.py, lines 37 and 45-50). The process
    start time and the current time are parameters, as integer microseconds
    since an arbitrary origin, the resolution of Python's `timedelta`. */
module Uptime {
  import opened Wrappers
  import opened Text

  const MICROS_PER_SECOND := 1000000
  const SECONDS_PER_HOUR := 3600
  const SECONDS_PER_MINUTE := 60

  /** `int((now - start).total_seconds())`: whole seconds elapsed, truncated
      toward zero as Python's `int()` does (so a clock that went back by less
      than a second still gives 0). */
  function ElapsedSeconds(startMicros: int, nowMicros: int): (s: int)
    ensures startMicros <= nowMicros ==>
      0 <= s && s * MICROS_PER_SECOND <= nowMicros - startMicros < (s + 1) * MICROS_PER_SECOND
    ensures nowMicros < startMicros ==>
      s <= 0 && (s - 1) * MICROS_PER_SECOND < nowMicros - startMicros <= s * MICROS_PER_SECOND
  {
    var d := nowMicros - startMicros;
    if d >= 0 then d / MICROS_PER_SECOND else -((-d) / MICROS_PER_SECOND)
  }

  /** Whole hours and the remaining whole minutes of `s` seconds:
      `s // 3600` and `(s % 3600) // 60` with Python's floor division. */
  function HoursMinutes(s: int): (hm: (int, int))
    ensures 0 <= hm.1 < 60
    ensures hm.0 * SECONDS_PER_HOUR + hm.1 * SECONDS_PER_MINUTE <= s
    ensures s < hm.0 * SECONDS_PER_HOUR + hm.1 * SECONDS_PER_MINUTE + SECONDS_PER_MINUTE
  {
    (s / SECONDS_PER_HOUR, (s % SECONDS_PER_HOUR) / SECONDS_PER_MINUTE)
  }

  /** `f"{hours} hours, {minutes} minutes"`: a text from which `ParseHuman`
      reads both numbers back. */
  function Human(hours: int, minutes: int): (h: string)
    ensures ParseHuman(h) == Some((hours, minutes))
  {
    var hs, ms := IntToString(hours), IntToString(minutes);
    IntToStringRoundTrip(hours);
    IntToStringRoundTrip(minutes);
    ParseHumanParts(hs, ms, hours, minutes);
    hs + " hours, " + ms + " minutes"
  }

  /** The dictionary `get_uptime` returns. */
  datatype UptimeInfo = UptimeInfo(seconds: int, human: string)

  /** `get_uptime()` with the clock read as a parameter. */
  function GetUptime(startMicros: int, nowMicros: int): (u: UptimeInfo)
    ensures u.seconds == ElapsedSeconds(startMicros, nowMicros)
    ensures ParseHuman(u.human) == Some(HoursMinutes(u.seconds))
  {
    var s := ElapsedSeconds(startMicros, nowMicros);
    var hm := HoursMinutes(s);
    UptimeInfo(s, Human(hm.0, hm.1))
  }

  /** The part of `s` before the first `c`, and the part after it. */
  function SplitAtFirst(s: string, c: char): (r: Option<(string, string)>)
    ensures r.Some? ==> s == r.value.0 + [c] + r.value.1 && c !in r.value.0
    ensures r.None? ==> c !in s
  {
    if s == [] then None
    else if s[0] == c then Some(([], s[1..]))
    else match SplitAtFirst(s[1..], c)
      case None => None
      case Some(p) => Some(([s[0]] + p.0, p.1))
  }

  /** Reads hours and minutes back from the text `Human` produces. */
  function ParseHuman(h: string): (r: Option<(int, int)>)
  {
    match SplitAtFirst(h, ' ')
    case None => None
    case Some(p) =>
      var rest := p.1;
      if |rest| < 7 || rest[..7] != "hours, " then None
      else
        match SplitAtFirst(rest[7..], ' ')
        case None => None
        case Some(q) =>
          if q.1 != "minutes" then None
          else
            match (ParseInt(p.0), ParseInt(q.0))
            case (Some(hours), Some(minutes)) => Some((hours, minutes))
            case _ => None
  }

  lemma {:induction false} SplitAtFirstOf(a: string, c: char, b: string)
    requires c !in a
    ensures SplitAtFirst(a + [c] + b, c) == Some((a, b))
  {
    if a == [] {
      assert (a + [c] + b)[1..] == b;
    } else {
      assert (a + [c] + b)[1..] == a[1..] + [c] + b;
      SplitAtFirstOf(a[1..], c, b);
      assert [a[0]] + a[1..] == a;
    }
  }

  /** Any two texts that read back as numbers, placed in the f-string, read
      back as those numbers. */
  lemma ParseHumanParts(hs: string, ms: string, hours: int, minutes: int)
    requires ParseInt(hs) == Some(hours) && ParseInt(ms) == Some(minutes)
    ensures ParseHuman(hs + " hours, " + ms + " minutes") == Some((hours, minutes))
  {
    var tail := ms + [' '] + "minutes";
    var rest := "hours, " + tail;
    assert hs + " hours, " + ms + " minutes" == hs + [' '] + rest;
    SplitAtFirstOf(hs, ' ', rest);
    assert rest[..7] == "hours, " && rest[7..] == tail;
    SplitAtFirstOf(ms, ' ', "minutes");
  }

  /** The text determines the numbers and the numbers determine the text:
      `ParseHuman` accepts exactly what `Human` writes, so the uptime text is
      `f"{hours} hours, {minutes} minutes"` and no other spelling. */
  lemma ParseHumanIff(h: string, hours: int, minutes: int)
    ensures ParseHuman(h) == Some((hours, minutes)) <==> h == Human(hours, minutes)
  {
    if ParseHuman(h) == Some((hours, minutes)) {
      var hs, ms := ParseHumanFields(h);
      ParseIntIff(hs, hours);
      ParseIntIff(ms, minutes);
    }
  }

  /** A text `ParseHuman` accepts is the f-string of two texts that `ParseInt`
      reads as the hours and the minutes. */
  lemma ParseHumanFields(h: string) returns (hs: string, ms: string)
    requires ParseHuman(h).Some?
    ensures h == hs + " hours, " + ms + " minutes"
    ensures ParseInt(hs) == Some(ParseHuman(h).value.0)
    ensures ParseInt(ms) == Some(ParseHuman(h).value.1)
  {
    var sp := SplitAtFirst(h, ' ');
    assert sp.Some?;
    var rest := sp.value.1;
    assert |rest| >= 7 && rest[..7] == "hours, ";
    var sq := SplitAtFirst(rest[7..], ' ');
    assert sq.Some? && sq.value.1 == "minutes";
    hs, ms := sp.value.0, sq.value.0;
    assert ParseHuman(h) == Some((ParseInt(hs).value, ParseInt(ms).value));
    assert rest == rest[..7] + rest[7..];
    HumanLayout(h, hs, ms, rest);
  }

  /** Regrouping the f-string text around its first space. */
  lemma HumanLayout(h: string, hs: string, ms: string, rest: string)
    requires h == hs + [' '] + rest
    requires rest == "hours, " + (ms + [' '] + "minutes")
    ensures h == hs + " hours, " + ms + " minutes"
  {
  }

  /** The decomposition is the only one with the promised bounds: hours are
      `s // 3600` (unbounded, never folded into days) and the minutes are those
      left after the whole hours; only the sub-minute remainder is dropped. */
  lemma HoursMinutesUnique(s: int, hours: int, minutes: int)
    requires 0 <= minutes < 60
    requires hours * 3600 + minutes * 60 <= s < hours * 3600 + minutes * 60 + 60
    ensures HoursMinutes(s) == (hours, minutes)
  {
    var r := s - hours * 3600;
    assert 0 <= r < 3600;
    assert s / 3600 == hours by {
      DivUnique(s, 3600, hours, r);
    }
    assert s % 3600 == r;
    DivUnique(r, 60, minutes, r - minutes * 60);
  }

  lemma DivUnique(n: int, d: int, q: int, r: int)
    requires d > 0 && n == q * d + r && 0 <= r < d
    ensures n / d == q && n % d == r
  {
    var q', r' := n / d, n % d;
    assert (q - q') * d == r' - r;
    if q > q' {
      MulAtLeast(q - q', d);
    } else if q < q' {
      MulAtLeast(q' - q, d);
    }
  }

  lemma MulAtLeast(k: int, d: int)
    requires k >= 1 && d > 0
    ensures k * d >= d
  {
  }

  /** Hours are not reduced modulo a day: 25 hours stay 25 hours. */
  lemma NoDayRollover()
    ensures HoursMinutes(90000) == (25, 0)
    ensures HoursMinutes(59) == (0, 0)
  {
  }

  /** Under a minute of uptime reads "0 hours, 0 minutes". */
  lemma UnderAMinute(startMicros: int, nowMicros: int)
    requires startMicros <= nowMicros < startMicros + 60 * MICROS_PER_SECOND
    ensures GetUptime(startMicros, nowMicros).human == "0 hours, 0 minutes"
  {
    var s := ElapsedSeconds(startMicros, nowMicros);
    assert 0 <= s < 60;
    HoursMinutesUnique(s, 0, 0);
    HumanZero();
  }

  lemma HumanZero()
    ensures Human(0, 0) == "0 hours, 0 minutes"
  {
    ZeroText();
  }

  /** The text of 0, and the f-string filled with it. */
  lemma ZeroText()
    ensures IntToString(0) == "0"
    ensures "0" + " hours, " + "0" + " minutes" == "0 hours, 0 minutes"
  {
  }

  /** With a clock that does not go backwards, uptime is non-negative and
      never decreases between two reads. */
  lemma ElapsedMonotone(startMicros: int, now1: int, now2: int)
    requires startMicros <= now1 <= now2
    ensures 0 <= ElapsedSeconds(startMicros, now1) <= ElapsedSeconds(startMicros, now2)
  {
    var s1, s2 := ElapsedSeconds(startMicros, now1), ElapsedSeconds(startMicros, now2);
    assert s1 * MICROS_PER_SECOND <= now2 - startMicros < (s2 + 1) * MICROS_PER_SECOND;
  }
}
