/** `parse_date_from_filename`: the first run of digits shaped
    YYYYMMDD, `-` or `_`, HHMMSS in a filename, read as a naive date-time. */
module FilenameStamp {
  import opened Wrappers
  import opened Calendar

  /** The pattern `([0-9]{4})([0-9]{2})([0-9]{2})[-_]([0-9]{2})([0-9]{2})([0-9]{2})`
      always spans fifteen characters. */
  const WindowLength: nat := 15

  /** `[0-9]`: ASCII digits only. */
  predicate IsDigit(c: char) {
    '0' <= c <= '9'
  }

  /** `[-_]` */
  predicate IsSeparator(c: char) {
    c == '-' || c == '_'
  }

  /** The pattern matches the fifteen characters of s starting at i: the
      groups `[0-9]{4}`, `[0-9]{2}`, `[0-9]{2}`, then `[-_]`, then three
      groups `[0-9]{2}`. */
  predicate MatchesAt(s: string, i: int) {
    && 0 <= i
    && i + WindowLength <= |s|
    && IsDigit(s[i]) && IsDigit(s[i + 1]) && IsDigit(s[i + 2]) && IsDigit(s[i + 3])
    && IsDigit(s[i + 4]) && IsDigit(s[i + 5])
    && IsDigit(s[i + 6]) && IsDigit(s[i + 7])
    && IsSeparator(s[i + 8])
    && IsDigit(s[i + 9]) && IsDigit(s[i + 10])
    && IsDigit(s[i + 11]) && IsDigit(s[i + 12])
    && IsDigit(s[i + 13]) && IsDigit(s[i + 14])
  }

  /** The leftmost start index at or after `from` where the pattern matches.
      The pattern has a fixed length, so the regex engine's leftmost match is
      the match with the smallest start. */
  function FindWindow(s: string, from: nat): (r: Option<nat>)
    ensures r.Some? ==> from <= r.value && MatchesAt(s, r.value)
    ensures forall j :: from <= j && (r.None? || j < r.value) ==> !MatchesAt(s, j)
    decreases |s| - from
  {
    if |s| < from + WindowLength then None
    else if MatchesAt(s, from) then Some(from)
    else FindWindow(s, from + 1)
  }

  function DigitValue(c: char): (v: nat)
    requires IsDigit(c)
    ensures v < 10
  {
    c as int - '0' as int
  }

  /** `str::parse` of the two-digit group at k. */
  function TwoDigitValue(s: string, k: nat): (v: nat)
    requires k + 2 <= |s| && IsDigit(s[k]) && IsDigit(s[k + 1])
    ensures v < 100
  {
    10 * DigitValue(s[k]) + DigitValue(s[k + 1])
  }

  /** `str::parse` of the four-digit group at k. */
  function FourDigitValue(s: string, k: nat): (v: nat)
    requires k + 4 <= |s| && IsDigit(s[k]) && IsDigit(s[k + 1]) && IsDigit(s[k + 2]) && IsDigit(s[k + 3])
    ensures v < 10000
  {
    100 * TwoDigitValue(s, k) + TwoDigitValue(s, k + 2)
  }

  /** The six capture groups of the match at i, each parsed as an integer.
      Four digits fit an `i32` and two digits a `u32`, so none of the source's
      integer parses can fail. */
  function Captures(s: string, i: nat): (f: CalendarFields)
    requires MatchesAt(s, i)
    ensures 0 <= f.year < 10000
    ensures 0 <= f.month < 100 && 0 <= f.day < 100
    ensures 0 <= f.hour < 100 && 0 <= f.minute < 100 && 0 <= f.second < 100
  {
    CalendarFields(
      FourDigitValue(s, i), TwoDigitValue(s, i + 4), TwoDigitValue(s, i + 6),
      TwoDigitValue(s, i + 9), TwoDigitValue(s, i + 11), TwoDigitValue(s, i + 13))
  }

  /** The naive date-time the filename encodes, if any. An invalid date or
      time in the leftmost match (month 13, day 32, hour 25, ...) is unwrapped
      by the source into a panic; it does not fall back to a later match. */
  function ParseDateFromFilename(filename: string): (r: Run<Option<NaiveDateTime>>)
    ensures r.Returns? && r.value.Some? ==> 0 <= r.value.value.year <= 9999
  {
    match FindWindow(filename, 0)
    case None => Returns(None)
    case Some(i) =>
      var f := Captures(filename, i);
      if IsValid(f) then Returns(Some(f)) else Panics
  }

  /** `None` exactly when no fifteen-character window of the filename fits
      the pattern. */
  lemma ParseNoneIffNoWindow(filename: string)
    ensures ParseDateFromFilename(filename) == Returns(None) <==> forall i :: !MatchesAt(filename, i)
  {
  }

  /** With the leftmost match at i, the result is the date-time its groups
      spell (year, month, day, hour, minute, second, zero sub-second) when
      that is valid, and a panic otherwise. */
  lemma {:induction false} ParseReadsLeftmostWindow(filename: string, i: nat)
    requires MatchesAt(filename, i)
    requires forall j :: 0 <= j < i ==> !MatchesAt(filename, j)
    ensures ParseDateFromFilename(filename) ==
      if IsValid(Captures(filename, i)) then Returns(Some(Captures(filename, i))) else Panics
  {
    var r := FindWindow(filename, 0);
    assert r.Some?;
    assert r.value == i;
  }

  /** The source panics exactly when there is a leftmost match whose groups
      do not form a valid date and time. */
  lemma {:induction false} ParsePanicsIffLeftmostInvalid(filename: string)
    ensures ParseDateFromFilename(filename).Panics? <==>
      exists i :: MatchesAt(filename, i) && (forall j :: 0 <= j < i ==> !MatchesAt(filename, j))
                  && !IsValid(Captures(filename, i))
  {
    var r := FindWindow(filename, 0);
    if r.Some? {
      var i := r.value;
      forall i' | MatchesAt(filename, i') && (forall j :: 0 <= j < i' ==> !MatchesAt(filename, j))
        ensures i' == i
      {
        if i' < i {
        } else if i < i' {
        }
      }
    }
  }

  function DigitChar(v: nat): (c: char)
    requires v < 10
    ensures IsDigit(c) && DigitValue(c) == v
  {
    ('0' as int + v) as char
  }

  /** n < 100 written as two digits, with a leading zero. */
  function TwoDigits(n: nat): (ds: string)
    requires n < 100
  {
    [DigitChar(n / 10), DigitChar(n % 10)]
  }

  /** n < 10000 written as four digits, with leading zeroes. */
  function FourDigits(n: nat): (ds: string)
    requires n < 10000
  {
    TwoDigits(n / 100) + TwoDigits(n % 100)
  }

  /** A date-time spelled the way the pattern expects: YYYYMMDD, the
      separator, HHMMSS. */
  function FormatStamp(dt: NaiveDateTime, sep: char): (w: string)
    requires 0 <= dt.year <= 9999
    ensures |w| == WindowLength
  {
    FourDigits(dt.year) + TwoDigits(dt.month) + TwoDigits(dt.day) + [sep]
      + TwoDigits(dt.hour) + TwoDigits(dt.minute) + TwoDigits(dt.second)
  }

  /** A formatted stamp matches the pattern, and its groups read back as its
      fields. */
  lemma FormatStampMatches(dt: NaiveDateTime, sep: char)
    requires 0 <= dt.year <= 9999 && IsSeparator(sep)
    ensures MatchesAt(FormatStamp(dt, sep), 0)
    ensures Captures(FormatStamp(dt, sep), 0) == dt
  {
    var w := FormatStamp(dt, sep);
    var y := FourDigits(dt.year);
    assert w[0..4] == y;
    assert w[4..6] == TwoDigits(dt.month) && w[6..8] == TwoDigits(dt.day) && w[8] == sep;
    assert w[9..11] == TwoDigits(dt.hour) && w[11..13] == TwoDigits(dt.minute) && w[13..15] == TwoDigits(dt.second);
    assert y[0..2] == TwoDigits(dt.year / 100) && y[2..4] == TwoDigits(dt.year % 100);
  }

  /** Whether and how the pattern matches at i depends only on the fifteen
      characters from i on. */
  lemma WindowIsLocal(s: string, i: nat)
    requires i + WindowLength <= |s|
    ensures MatchesAt(s, i) <==> MatchesAt(s[i..i + WindowLength], 0)
    ensures MatchesAt(s, i) ==> Captures(s, i) == Captures(s[i..i + WindowLength], 0)
  {
    var w := s[i..i + WindowLength];
    assert forall k :: 0 <= k < WindowLength ==> w[k] == s[i + k];
  }

  /** A formatted stamp placed after text without digits, with anything after
      it (milliseconds, a counter, an extension), is parsed back exactly. */
  lemma {:induction false} ParseFindsEmbeddedStamp(prefix: string, dt: NaiveDateTime, sep: char, suffix: string)
    requires 0 <= dt.year <= 9999 && IsSeparator(sep)
    requires forall k :: 0 <= k < |prefix| ==> !IsDigit(prefix[k])
    ensures ParseDateFromFilename(prefix + FormatStamp(dt, sep) + suffix) == Returns(Some(dt))
  {
    var w := FormatStamp(dt, sep);
    var s := prefix + w + suffix;
    var p := |prefix|;
    assert s[p..p + WindowLength] == w;
    FormatStampMatches(dt, sep);
    WindowIsLocal(s, p);
    forall j | 0 <= j < p ensures !MatchesAt(s, j) {
      assert s[j] == prefix[j];
    }
    ParseReadsLeftmostWindow(s, p);
  }

  /** Whatever the filename, a parsed date-time is a real calendar date and
      time of day with a four-digit year. */
  lemma ParsedDateIsValid(filename: string)
    requires ParseDateFromFilename(filename).Returns? && ParseDateFromFilename(filename).value.Some?
    ensures var d := ParseDateFromFilename(filename).value.value;
            && 0 <= d.year <= 9999
            && 1 <= d.month <= 12 && 1 <= d.day <= DaysInMonth(d.year, d.month)
            && 0 <= d.hour < 24 && 0 <= d.minute < 60 && 0 <= d.second < 60
  {
  }
}
