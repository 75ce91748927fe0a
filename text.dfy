/** Character-level helpers that the service's formatting relies on: Python's
    decimal rendering of integers (`str(n)`, `%0Nd`), ASCII `str.lower` and
    `str.replace`, together with the parsers that invert them. */
module Text {
  import opened Wrappers

  predicate IsDigit(c: char) {
    '0' <= c <= '9'
  }

  predicate AllDigits(s: string) {
    forall i :: 0 <= i < |s| ==> IsDigit(s[i])
  }

  function DigitChar(d: nat): (c: char)
    requires d < 10
    ensures IsDigit(c) && DigitValue(c) == d
  {
    ('0' as int + d) as char
  }

  function DigitValue(c: char): (d: nat)
    requires IsDigit(c)
    ensures d < 10
  {
    c as int - '0' as int
  }

  function Pow10(k: nat): (p: nat)
    ensures p >= 1
  {
    if k == 0 then 1 else 10 * Pow10(k - 1)
  }

  /** The number a string of decimal digits denotes (most significant first). */
  function DigitsValue(s: string): (v: nat)
    requires AllDigits(s)
    ensures v < Pow10(|s|)
  {
    if s == [] then 0 else DigitsValue(s[..|s| - 1]) * 10 + DigitValue(s[|s| - 1])
  }

  /** Python's `str(n)` for a natural number: shortest decimal form, no leading zero. */
  function NatToString(n: nat): (s: string)
    ensures |s| >= 1 && AllDigits(s)
    ensures n > 0 ==> s[0] != '0'
    ensures n == 0 ==> s == "0"
  {
    if n < 10 then [DigitChar(n)] else NatToString(n / 10) + [DigitChar(n % 10)]
  }

  /** A natural number as Python's `str` writes it: at least one decimal
      digit, and no leading zero unless the number is 0 itself. */
  predicate IsNatText(s: string) {
    |s| >= 1 && AllDigits(s) && (s[0] == '0' ==> |s| == 1)
  }

  /** Python's `str(i)` (and `f"{i}"`) for any integer: a leading `-` exactly
      when negative, then the magnitude in shortest form (never "-0"). */
  function IntToString(i: int): (s: string)
    ensures |s| >= 1 && ' ' !in s
    ensures s[0] == '-' <==> i < 0
    ensures i < 0 ==> |s| >= 2 && s[1] != '0' && IsNatText(s[1..])
    ensures i >= 0 ==> IsNatText(s)
  {
    if i < 0 then
      var m := NatToString(-i);
      assert ("-" + m)[1..] == m;
      "-" + m
    else NatToString(i)
  }

  /** Python's `"%0{width}d" % n` for `0 <= n < 10^width`: exactly `width` digits, zero-padded. */
  function PadDigits(n: nat, width: nat): (s: string)
    requires n < Pow10(width)
    ensures |s| == width && AllDigits(s)
  {
    if width == 0 then [] else PadDigits(n / 10, width - 1) + [DigitChar(n % 10)]
  }

  /** Reads back an integer rendered by `IntToString`; only the canonical
      rendering is accepted (no leading zero, no "-0", no `+`). */
  function ParseInt(s: string): (r: Option<int>)
    ensures r.Some? ==> |s| >= 1 && ' ' !in s
  {
    if |s| >= 2 && s[0] == '-' && s[1] != '0' && IsNatText(s[1..]) then
      assert forall k | 1 <= k < |s| :: s[k] == s[1..][k - 1];
      Some(0 - DigitsValue(s[1..]))
    else if IsNatText(s) then Some(DigitsValue(s))
    else None
  }

  lemma {:induction false} NatToStringRoundTrip(n: nat)
    ensures DigitsValue(NatToString(n)) == n
  {
    if n >= 10 {
      var s := NatToString(n);
      NatToStringRoundTrip(n / 10);
      assert s[..|s| - 1] == NatToString(n / 10);
    }
  }

  /** `ParseInt` inverts `IntToString` on every integer. */
  lemma IntToStringRoundTrip(i: int)
    ensures ParseInt(IntToString(i)) == Some(i)
  {
    var s := IntToString(i);
    if i < 0 {
      assert s[1..] == NatToString(-i);
      NatToStringRoundTrip(-i);
    } else {
      NatToStringRoundTrip(i);
    }
  }

  /** A digit string without a leading zero is the shortest rendering of its value. */
  lemma {:induction false} NatTextRoundTrip(s: string)
    requires IsNatText(s)
    ensures NatToString(DigitsValue(s)) == s
    decreases |s|
  {
    var last := s[|s| - 1];
    var v := DigitsValue(s);
    if |s| == 1 {
      assert s == [last];
      assert DigitChar(DigitValue(last)) == last;
    } else {
      var init := s[..|s| - 1];
      assert init[0] == s[0];
      NatTextRoundTrip(init);
      LeadingDigitPositive(init);
      assert v / 10 == DigitsValue(init) && v % 10 == DigitValue(last);
      assert DigitChar(DigitValue(last)) == last;
      assert s == init + [last];
    }
  }

  /** A digit string that starts with a non-zero digit denotes a positive number. */
  lemma {:induction false} LeadingDigitPositive(s: string)
    requires |s| >= 1 && AllDigits(s) && s[0] != '0'
    ensures DigitsValue(s) >= 1
    decreases |s|
  {
    if |s| >= 2 {
      var init := s[..|s| - 1];
      assert init[0] == s[0];
      LeadingDigitPositive(init);
    }
  }

  /** The text `ParseInt` accepts is exactly the text `IntToString` writes:
      each integer has one rendering and every rendering reads back. */
  lemma ParseIntIff(s: string, i: int)
    ensures ParseInt(s) == Some(i) <==> s == IntToString(i)
  {
    IntToStringRoundTrip(i);
    if ParseInt(s) == Some(i) {
      ParseIntCanonical(s);
    }
  }

  /** Whatever `ParseInt` accepts is the rendering of the value it reads. */
  lemma ParseIntCanonical(s: string)
    requires ParseInt(s).Some?
    ensures s == IntToString(ParseInt(s).value)
  {
    if |s| >= 2 && s[0] == '-' && s[1] != '0' && IsNatText(s[1..]) {
      var m := s[1..];
      var v: int := DigitsValue(m);
      NatTextRoundTrip(m);
      LeadingDigitPositive(m);
      assert ParseInt(s).value == 0 - v;
      assert s == "-" + m;
    } else {
      NatTextRoundTrip(s);
    }
  }

  lemma {:induction false} PadDigitsRoundTrip(n: nat, width: nat)
    requires n < Pow10(width)
    ensures DigitsValue(PadDigits(n, width)) == n
  {
    if width > 0 {
      var s := PadDigits(n, width);
      assert s[..|s| - 1] == PadDigits(n / 10, width - 1);
      PadDigitsRoundTrip(n / 10, width - 1);
    }
  }

  /** The other direction: padding the value of a digit string restores it. */
  lemma {:induction false} DigitsValueRoundTrip(s: string)
    requires AllDigits(s)
    ensures PadDigits(DigitsValue(s), |s|) == s
  {
    if s != [] {
      var init := s[..|s| - 1];
      DigitsValueRoundTrip(init);
      var v := DigitsValue(s);
      assert v / 10 == DigitsValue(init);
      assert v % 10 == DigitValue(s[|s| - 1]);
      assert DigitChar(v % 10) == s[|s| - 1];
      assert s == init + [s[|s| - 1]];
    }
  }

  /** ASCII lowering of one character (what Python's `str.lower` does on ASCII). */
  function LowerChar(c: char): (l: char)
    ensures 'A' <= c <= 'Z' ==> l as int == c as int + 32
    ensures !('A' <= c <= 'Z') ==> l == c
  {
    if 'A' <= c <= 'Z' then (c as int + 32) as char else c
  }

  /** Python's `s.lower()`, restricted to ASCII case mapping. */
  function Lower(s: string): (r: string)
    ensures |r| == |s|
    ensures forall i :: 0 <= i < |s| ==> r[i] == LowerChar(s[i])
  {
    if s == [] then [] else [LowerChar(s[0])] + Lower(s[1..])
  }

  /** Whether `t` occurs in `s` starting at index `i`. */
  predicate OccursAt(s: string, t: string, i: int) {
    0 <= i <= |s| - |t| && s[i..i + |t|] == t
  }

  /** Whether `t` occurs anywhere in `s` (Python's `t in s`). */
  ghost predicate Contains(s: string, t: string) {
    exists i :: OccursAt(s, t, i)
  }

  /** An occurrence in the tail of `s` is an occurrence in `s`, one place later. */
  lemma ContainsInTail(s: string, t: string)
    requires |s| >= 1
    ensures Contains(s[1..], t) ==> Contains(s, t)
  {
    if Contains(s[1..], t) {
      var i :| OccursAt(s[1..], t, i);
      assert s[i + 1..i + 1 + |t|] == s[1..][i..i + |t|];
      assert OccursAt(s, t, i + 1);
    }
  }

  /** Python's `s.replace(pat, rep)` for a non-empty `pat`: every occurrence,
      found left to right without overlap, is replaced. */
  function ReplaceAll(s: string, pat: string, rep: string): (r: string)
    requires |pat| > 0
    ensures rep == pat ==> r == s
    decreases |s|
  {
    if |s| < |pat| then s
    else if s[..|pat|] == pat then
      assert s == s[..|pat|] + s[|pat|..];
      rep + ReplaceAll(s[|pat|..], pat, rep)
    else [s[0]] + ReplaceAll(s[1..], pat, rep)
  }

  /** One step of the left-to-right scan: when the first occurrence of `pat`
      in `p + pat + rest` is the one after `p`, that occurrence is replaced,
      `p` is kept, and the scan resumes right after it (so occurrences never
      overlap). */
  lemma {:induction false} ReplaceFirst(p: string, pat: string, rep: string, rest: string)
    requires |pat| > 0
    requires forall j :: 0 <= j < |p| ==> !OccursAt(p + pat + rest, pat, j)
    ensures ReplaceAll(p + pat + rest, pat, rep) == p + rep + ReplaceAll(rest, pat, rep)
    decreases |p|
  {
    if p == [] {
      ReplaceAtFront(pat, rep, rest);
    } else {
      OccurrencesInTail(p, pat, rest);
      ReplaceFirst(p[1..], pat, rep, rest);
      ReplaceKeepsFirst(p, pat, rep, rest);
    }
  }

  lemma ReplaceAtFront(pat: string, rep: string, rest: string)
    requires |pat| > 0
    ensures ReplaceAll([] + pat + rest, pat, rep) == [] + rep + ReplaceAll(rest, pat, rep)
  {
    var w := pat + rest;
    assert [] + pat + rest == w && w[..|pat|] == pat && w[|pat|..] == rest;
  }

  /** With no occurrence at the front, the first character is kept and the
      rest of the scan is the scan of the tail. */
  lemma ReplaceKeepsFirst(p: string, pat: string, rep: string, rest: string)
    requires |pat| > 0 && |p| > 0 && !OccursAt(p + pat + rest, pat, 0)
    requires ReplaceAll(p[1..] + pat + rest, pat, rep) == p[1..] + rep + ReplaceAll(rest, pat, rep)
    ensures ReplaceAll(p + pat + rest, pat, rep) == p + rep + ReplaceAll(rest, pat, rep)
  {
    var w := p + pat + rest;
    assert w[1..] == p[1..] + pat + rest;
    ReplaceNotAtStart(w, pat, rep);
    assert p + rep == [p[0]] + (p[1..] + rep);
  }

  lemma ReplaceNotAtStart(s: string, pat: string, rep: string)
    requires 0 < |pat| <= |s| && !OccursAt(s, pat, 0)
    ensures ReplaceAll(s, pat, rep) == [s[0]] + ReplaceAll(s[1..], pat, rep)
  {
    assert s[0..|pat|] == s[..|pat|];
  }

  /** No occurrence in the first `|p|` places of `p + pat + rest` means none
      in the first `|p| - 1` places of its tail. */
  lemma OccurrencesInTail(p: string, pat: string, rest: string)
    requires |p| > 0
    requires forall j :: 0 <= j < |p| ==> !OccursAt(p + pat + rest, pat, j)
    ensures forall j :: 0 <= j < |p| - 1 ==> !OccursAt(p[1..] + pat + rest, pat, j)
  {
    var w := p + pat + rest;
    assert w[1..] == p[1..] + pat + rest;
    forall j | 0 <= j < |p| - 1 ensures !OccursAt(w[1..], pat, j) {
      assert !OccursAt(w, pat, j + 1);
      if j + |pat| <= |w| - 1 {
        assert w[1..][j..j + |pat|] == w[j + 1..j + 1 + |pat|];
      }
    }
  }

  /** Without an occurrence of `pat`, replacing it changes nothing. */
  lemma {:induction false} ReplaceAbsent(s: string, pat: string, rep: string)
    requires |pat| > 0 && !Contains(s, pat)
    ensures ReplaceAll(s, pat, rep) == s
    decreases |s|
  {
    if |s| >= |pat| {
      assert !OccursAt(s, pat, 0);
      ContainsInTail(s, pat);
      ReplaceAbsent(s[1..], pat, rep);
      assert s == [s[0]] + s[1..];
    }
  }

  /** When `pat` ends `s + pat` and its first character never occurs in `s`,
      replacing `pat` rewrites exactly that trailing occurrence. */
  lemma ReplaceTrailing(s: string, pat: string, rep: string)
    requires |pat| > 0 && pat[0] !in s
    ensures ReplaceAll(s + pat, pat, rep) == s + rep
  {
    var w := s + pat + [];
    forall j | 0 <= j < |s| ensures !OccursAt(w, pat, j) {
      assert w[j..j + |pat|][0] == s[j];
    }
    ReplaceFirst(s, pat, rep, []);
    assert w == s + pat;
    assert ReplaceAll([], pat, rep) == [];
  }
}
