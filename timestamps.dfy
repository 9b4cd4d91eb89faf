/** The timestamp format `%Y-%m-%d %H:%M:%S` with which the analyzer reads a
    record's timestamp (and the command line's time bounds), read strictly:
    every field has its full width, and the values must form a real
    calendar date and time of day. */
module Timestamps {
  import opened Wrappers

  /** A calendar date and time of day, to the second. */
  datatype DateTime = DateTime(year: int, month: int, day: int, hour: int, minute: int, second: int)

  predicate IsLeapYear(y: int)
  {
    y % 4 == 0 && (y % 100 != 0 || y % 400 == 0)
  }

  function DaysInMonth(y: int, m: int): int
    requires 1 <= m <= 12
  {
    if m == 2 then (if IsLeapYear(y) then 29 else 28)
    else if m == 4 || m == 6 || m == 9 || m == 11 then 30
    else 31
  }

  /** The values a parsed timestamp can take: years 1 to 9999, real days,
      hours 0 to 23, minutes and seconds 0 to 59. */
  predicate Valid(t: DateTime)
  {
    && 1 <= t.year <= 9999
    && 1 <= t.month <= 12
    && 1 <= t.day <= DaysInMonth(t.year, t.month)
    && 0 <= t.hour <= 23
    && 0 <= t.minute <= 59
    && 0 <= t.second <= 59
  }

  /** Chronological order: `a` is strictly before `b`. */
  predicate Earlier(a: DateTime, b: DateTime)
  {
    if a.year != b.year then a.year < b.year
    else if a.month != b.month then a.month < b.month
    else if a.day != b.day then a.day < b.day
    else if a.hour != b.hour then a.hour < b.hour
    else if a.minute != b.minute then a.minute < b.minute
    else a.second < b.second
  }

  /** `Earlier` is a strict total order: of two timestamps, exactly one is
      earlier, or they are equal. */
  lemma EarlierTrichotomy(a: DateTime, b: DateTime)
    ensures a == b || Earlier(a, b) || Earlier(b, a)
    ensures !(Earlier(a, b) && Earlier(b, a))
    ensures !Earlier(a, a)
  {
  }

  lemma EarlierTransitive(a: DateTime, b: DateTime, c: DateTime)
    requires Earlier(a, b) && Earlier(b, c)
    ensures Earlier(a, c)
  {
  }

  predicate IsDigit(c: char)
  {
    '0' <= c <= '9'
  }

  predicate AllDigits(s: string)
  {
    forall k :: 0 <= k < |s| ==> IsDigit(s[k])
  }

  /** The number written by a string of decimal digits, most significant first. */
  function DecimalValue(s: string): nat
    requires AllDigits(s)
  {
    if s == [] then 0 else DecimalValue(s[..|s| - 1]) * 10 + (s[|s| - 1] as int - '0' as int)
  }

  function Pow10(n: nat): nat
  {
    if n == 0 then 1 else 10 * Pow10(n - 1)
  }

  /** The last `width` decimal digits of `n`, zero-padded. */
  function Digits(n: nat, width: nat): (d: string)
    ensures |d| == width
  {
    if width == 0 then [] else Digits(n / 10, width - 1) + [('0' as int + n % 10) as char]
  }

  /** A number below 10^width is written in exactly `width` digits that read back as it. */
  lemma {:induction false} DigitsRoundTrip(n: nat, width: nat)
    requires n < Pow10(width)
    ensures |Digits(n, width)| == width && AllDigits(Digits(n, width))
    ensures DecimalValue(Digits(n, width)) == n
  {
    if width > 0 {
      DigitsRoundTrip(n / 10, width - 1);
      var s := Digits(n, width);
      assert s[..|s| - 1] == Digits(n / 10, width - 1);
    }
  }

  /** A string of digits is the zero-padded writing of the number it denotes. */
  lemma {:induction false} DecimalRoundTrip(s: string)
    requires AllDigits(s)
    ensures DecimalValue(s) < Pow10(|s|)
    ensures Digits(DecimalValue(s), |s|) == s
  {
    if s != [] {
      var init := s[..|s| - 1];
      DecimalRoundTrip(init);
      var n := DecimalValue(s);
      assert n / 10 == DecimalValue(init);
      assert s == init + [s[|s| - 1]];
    }
  }

  /** The fixed layout `YYYY-MM-DD HH:MM:SS`: 19 characters, the separators
      in place and digits everywhere else. */
  predicate Shaped(s: string)
  {
    && |s| == 19
    && s[4] == '-' && s[7] == '-' && s[10] == ' ' && s[13] == ':' && s[16] == ':'
    && AllDigits(s[0..4]) && AllDigits(s[5..7]) && AllDigits(s[8..10])
    && AllDigits(s[11..13]) && AllDigits(s[14..16]) && AllDigits(s[17..19])
  }

  /** `datetime.strptime(s, '%Y-%m-%d %H:%M:%S')`: `None` stands for the
      `ValueError` it raises. */
  function ParseTimestamp(s: string): (r: Option<DateTime>)
    ensures r.Some? ==> Valid(r.value)
  {
    if !Shaped(s) then None
    else
      var t := DateTime(DecimalValue(s[0..4]), DecimalValue(s[5..7]), DecimalValue(s[8..10]),
                        DecimalValue(s[11..13]), DecimalValue(s[14..16]), DecimalValue(s[17..19]));
      if Valid(t) then Some(t) else None
  }

  /** The canonical text of a timestamp in the same format. */
  function Format(t: DateTime): string
    requires Valid(t)
  {
    Digits(t.year, 4) + "-" + Digits(t.month, 2) + "-" + Digits(t.day, 2) + " "
    + Digits(t.hour, 2) + ":" + Digits(t.minute, 2) + ":" + Digits(t.second, 2)
  }

  /** Where each field and separator of the layout `YYYY-MM-DD HH:MM:SS` sits,
      for fields of the right widths. */
  lemma Layout(y: string, mo: string, d: string, h: string, mi: string, se: string)
    requires |y| == 4 && |mo| == 2 && |d| == 2 && |h| == 2 && |mi| == 2 && |se| == 2
    ensures var s := y + "-" + mo + "-" + d + " " + h + ":" + mi + ":" + se;
      && |s| == 19
      && s[4] == '-' && s[7] == '-' && s[10] == ' ' && s[13] == ':' && s[16] == ':'
      && s[0..4] == y && s[5..7] == mo && s[8..10] == d
      && s[11..13] == h && s[14..16] == mi && s[17..19] == se
  {
    var date := y + "-" + mo + "-" + d;
    var time := h + ":" + mi + ":" + se;
    var s := y + "-" + mo + "-" + d + " " + h + ":" + mi + ":" + se;
    assert s == date + " " + time;
    assert s[0..4] == date[0..4] && s[5..7] == date[5..7] && s[8..10] == date[8..10];
    assert s[11..13] == time[0..2] && s[14..16] == time[3..5] && s[17..19] == time[6..8];
  }

  /** Where each field and separator of the canonical text sits. */
  lemma FormatLayout(t: DateTime)
    requires Valid(t)
    ensures var s := Format(t);
      && |s| == 19
      && s[4] == '-' && s[7] == '-' && s[10] == ' ' && s[13] == ':' && s[16] == ':'
      && s[0..4] == Digits(t.year, 4) && s[5..7] == Digits(t.month, 2)
      && s[8..10] == Digits(t.day, 2) && s[11..13] == Digits(t.hour, 2)
      && s[14..16] == Digits(t.minute, 2) && s[17..19] == Digits(t.second, 2)
  {
    Layout(Digits(t.year, 4), Digits(t.month, 2), Digits(t.day, 2),
           Digits(t.hour, 2), Digits(t.minute, 2), Digits(t.second, 2));
  }

  /** Every valid timestamp is read back from its canonical text. */
  lemma ParseFormat(t: DateTime)
    requires Valid(t)
    ensures ParseTimestamp(Format(t)) == Some(t)
  {
    DigitsRoundTrip(t.year, 4);
    DigitsRoundTrip(t.month, 2);
    DigitsRoundTrip(t.day, 2);
    DigitsRoundTrip(t.hour, 2);
    DigitsRoundTrip(t.minute, 2);
    DigitsRoundTrip(t.second, 2);
    FormatLayout(t);
  }

  /** The reading is strict: a text that parses is exactly the canonical text
      of what it parses to, so no two texts denote the same timestamp. */
  lemma FormatParse(s: string)
    ensures ParseTimestamp(s).Some? ==> Format(ParseTimestamp(s).value) == s
  {
    if ParseTimestamp(s).Some? {
      DecimalRoundTrip(s[0..4]);
      DecimalRoundTrip(s[5..7]);
      DecimalRoundTrip(s[8..10]);
      DecimalRoundTrip(s[11..13]);
      DecimalRoundTrip(s[14..16]);
      DecimalRoundTrip(s[17..19]);
      var t := ParseTimestamp(s).value;
      FormatLayout(t);
      var f := Format(t);
      forall k | 0 <= k < 19 ensures f[k] == s[k] {
        if k < 4 { assert f[k] == s[0..4][k]; }
        else if 5 <= k < 7 { assert f[k] == s[5..7][k - 5]; }
        else if 8 <= k < 10 { assert f[k] == s[8..10][k - 8]; }
        else if 11 <= k < 13 { assert f[k] == s[11..13][k - 11]; }
        else if 14 <= k < 16 { assert f[k] == s[14..16][k - 14]; }
        else if 17 <= k { assert f[k] == s[17..19][k - 17]; }
      }
    }
  }
}
