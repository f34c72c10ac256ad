// Timestamps: how a `datetime` is written into a TEXT column (the sqlite3
// adapter stores `dt.isoformat(" ")`), how the legacy variant derives a
// timestamp from a file name and validates it with
// `datetime.strptime(s, '%Y-%m-%d %H:%M:%S')`, and how each variant picks
// between the file-name timestamp and the payload's ISO-8601 timestamp.
module Timestamps {
  import opened Types
  import opened Text

  // ---------------------------------------------------------------------------
  // Decimal digits

  predicate IsDigit(c: char) {
    '0' <= c <= '9'
  }

  predicate AllDigits(s: string) {
    forall i :: 0 <= i < |s| ==> IsDigit(s[i])
  }

  function DigitValue(c: char): nat
    requires IsDigit(c)
  {
    c as int - '0' as int
  }

  function DigitChar(d: nat): (c: char)
    requires d < 10
    ensures IsDigit(c) && DigitValue(c) == d
  {
    ('0' as int + d) as char
  }

  /** The number a string of decimal digits denotes. */
  function DecimalValue(s: string): nat
    requires AllDigits(s)
    decreases |s|
  {
    if s == [] then 0 else DecimalValue(s[..|s| - 1]) * 10 + DigitValue(s[|s| - 1])
  }

  function Pow10(n: nat): (p: nat)
    ensures p >= 1
  {
    if n == 0 then 1 else 10 * Pow10(n - 1)
  }

  /** `n` written with exactly `width` digits, zero-padded (`%0<width>d`). */
  function Digits(n: nat, width: nat): (r: string)
    ensures |r| == width && AllDigits(r)
    ensures n < Pow10(width) ==> DecimalValue(r) == n
    decreases width
  {
    if width == 0 then []
    else
      var r := Digits(n / 10, width - 1) + [DigitChar(n % 10)];
      assert r[..|r| - 1] == Digits(n / 10, width - 1);
      r
  }

  /** Writing the value of a digit string back at its own width gives the string. */
  lemma {:induction false} DigitsOfValue(s: string)
    requires AllDigits(s)
    ensures Digits(DecimalValue(s), |s|) == s
    decreases |s|
  {
    if s != [] {
      var init := s[..|s| - 1];
      DigitsOfValue(init);
      var v := DecimalValue(s);
      assert v / 10 == DecimalValue(init) && v % 10 == DigitValue(s[|s| - 1]);
      assert s == init + [s[|s| - 1]];
    }
  }

  // ---------------------------------------------------------------------------
  // Calendar

  predicate IsLeapYear(y: nat) {
    y % 4 == 0 && (y % 100 != 0 || y % 400 == 0)
  }

  function DaysInMonth(y: nat, m: nat): (d: nat)
    requires 1 <= m <= 12
    ensures 28 <= d <= 31
  {
    if m == 2 then (if IsLeapYear(y) then 29 else 28)
    else if m == 4 || m == 6 || m == 9 || m == 11 then 30
    else 31
  }

  /** The values Python's `datetime` constructor accepts. */
  predicate ValidDateTime(dt: DateTime) {
    && 1 <= dt.year <= 9999
    && 1 <= dt.month <= 12
    && 1 <= dt.day <= DaysInMonth(dt.year, dt.month)
    && dt.hour < 24 && dt.minute < 60 && dt.second < 60
    && dt.microsecond < 1000000
  }

  // ---------------------------------------------------------------------------
  // Writing a datetime into a TEXT column

  function RenderOffset(offset: Option<int>): string {
    match offset
    case None => ""
    case Some(m) =>
      var a := if m < 0 then -m else m;
      (if m < 0 then "-" else "+") + Digits(a / 60, 2) + ":" + Digits(a % 60, 2)
  }

  /** `HH:MM:SS`. */
  function Clock(dt: DateTime): string {
    Digits(dt.hour, 2) + ":" + Digits(dt.minute, 2) + ":" + Digits(dt.second, 2)
  }

  /**
   * `dt.isoformat(" ")`: `YYYY-MM-DD HH:MM:SS[.ffffff][+HH:MM]` (grouped from
   * the day onwards, which is the grouping the parser below cuts it in).
   */
  function Render(dt: DateTime): string {
    Digits(dt.year, 4) + "-" + Digits(dt.month, 2) + "-"
    + (Digits(dt.day, 2) + " "
       + (Clock(dt) + (if dt.microsecond == 0 then "" else "." + Digits(dt.microsecond, 6))
          + RenderOffset(dt.utcOffset)))
  }

  // ---------------------------------------------------------------------------
  // datetime.strptime(s, '%Y-%m-%d %H:%M:%S')
  //
  // CPython compiles the format to the regular expression
  //   (?P<Y>\d\d\d\d)-(?P<m>1[0-2]|0[1-9]|[1-9])-(?P<d>3[01]|[12]\d|0[1-9]|[1-9]| [1-9])
  //   \s+(?P<H>2[0-3]|[0-1]\d|\d):(?P<M>[0-5]\d|\d):(?P<S>6[0-1]|[0-5]\d|\d)
  // matches it at the start of `s`, fails if input remains after the match
  // ("unconverted data remains"), and then builds a datetime, which rejects
  // year 0, a day past the end of its month and a second of 60 or 61.
  // Every field is followed by a separator that cannot occur in it, so each
  // field is exactly the text up to that separator.

  /** Python's `\s`: the characters `str.isspace()` accepts. */
  predicate IsSpace(c: char) {
    var n := c as int;
    (9 <= n <= 13) || (28 <= n <= 32) || n == 0x85 || n == 0xA0 || n == 0x1680
    || (0x2000 <= n <= 0x200A) || n == 0x2028 || n == 0x2029 || n == 0x202F
    || n == 0x205F || n == 0x3000
  }

  function LeadingDigits(s: string): (n: nat)
    ensures n <= |s| && AllDigits(s[..n])
    ensures n < |s| ==> !IsDigit(s[n])
  {
    if s == [] || !IsDigit(s[0]) then 0
    else
      var n := 1 + LeadingDigits(s[1..]);
      assert s[..n] == [s[0]] + s[1..][..n - 1];
      n
  }

  function LeadingSpaces(s: string): (n: nat)
    ensures n <= |s|
    ensures forall i :: 0 <= i < n ==> IsSpace(s[i])
    ensures n < |s| ==> !IsSpace(s[n])
  {
    if s == [] || !IsSpace(s[0]) then 0 else 1 + LeadingSpaces(s[1..])
  }

  /** The text before and after the first `c`, or None when `c` does not occur. */
  function SplitAtFirst(s: string, c: char): (r: Option<(string, string)>)
    ensures r.Some? ==> s == r.value.0 + [c] + r.value.1 && c !in r.value.0
    ensures r.None? ==> c !in s
  {
    if s == [] then None
    else if s[0] == c then Some(([], s[1..]))
    else match SplitAtFirst(s[1..], c)
      case None => None
      case Some((a, b)) => Some(([s[0]] + a, b))
  }

  /** A one- or two-digit field: two digits with a value in [lo, hi], or one digit at least lo. */
  function NumberField(f: string, lo: nat, hi: nat): (r: Option<nat>)
    ensures r.Some? ==> lo <= r.value && (r.value <= hi || r.value <= 9)
  {
    if |f| == 2 && AllDigits(f) && lo <= DecimalValue(f) <= hi then Some(DecimalValue(f))
    else if |f| == 1 && IsDigit(f[0]) && lo <= DigitValue(f[0]) then Some(DigitValue(f[0]))
    else None
  }

  /** `%d` also accepts a space-padded day such as " 5". */
  function DayField(f: string): (r: Option<nat>)
    ensures r.Some? ==> 1 <= r.value <= 31
  {
    if |f| == 2 && f[0] == ' ' && IsDigit(f[1]) && f[1] != '0' then Some(DigitValue(f[1]))
    else NumberField(f, 1, 31)
  }

  /** The day field after the second '-', and what follows the whitespace after it. */
  function SplitDay(t: string): Option<(string, string)> {
    var n := if |t| > 0 && t[0] == ' ' then 2 else LeadingDigits(t);
    if n == 0 || n > |t| then None
    else
      var ws := LeadingSpaces(t[n..]);
      if ws == 0 then None else Some((t[..n], t[n + ws..]))
  }

  function BuildDateTime(
    year: nat, month: Option<nat>, day: Option<nat>,
    hour: Option<nat>, minute: Option<nat>, second: Option<nat>): (r: Option<DateTime>)
    ensures r.Some? ==> ValidDateTime(r.value) && r.value.microsecond == 0 && r.value.utcOffset.None?
  {
    if month.None? || day.None? || hour.None? || minute.None? || second.None? then None
    else if year < 1 || year > 9999 || month.value < 1 || month.value > 12 then None
    else if day.value < 1 || day.value > DaysInMonth(year, month.value) then None
    else if hour.value > 23 || minute.value > 59 || second.value > 59 then None
    else Some(DateTime(year, month.value, day.value, hour.value, minute.value, second.value, 0, None))
  }

  /** `datetime.strptime(s, '%Y-%m-%d %H:%M:%S')`, None where it raises ValueError. */
  function Strptime(s: string): (r: Option<DateTime>)
    ensures r.Some? ==> ValidDateTime(r.value) && r.value.microsecond == 0 && r.value.utcOffset.None?
  {
    if |s| < 5 || !AllDigits(s[..4]) || s[4] != '-' then None
    else match SplitAtFirst(s[5..], '-')
      case None => None
      case Some((monthText, t)) => StrptimeFromDay(DecimalValue(s[..4]), monthText, t)
  }

  /** The rest of the match once the year and month fields are cut off. */
  function StrptimeFromDay(year: nat, monthText: string, t: string): (r: Option<DateTime>)
    ensures r.Some? ==> ValidDateTime(r.value) && r.value.microsecond == 0 && r.value.utcOffset.None?
  {
    match SplitDay(t)
    case None => None
    case Some((dayText, u)) => StrptimeFromHour(year, monthText, dayText, u)
  }

  /** The rest of the match once the date and the whitespace after it are cut off. */
  function StrptimeFromHour(year: nat, monthText: string, dayText: string, u: string): (r: Option<DateTime>)
    ensures r.Some? ==> ValidDateTime(r.value) && r.value.microsecond == 0 && r.value.utcOffset.None?
  {
    match SplitAtFirst(u, ':')
    case None => None
    case Some((hourText, w)) =>
      match SplitAtFirst(w, ':')
      case None => None
      case Some((minuteText, secondText)) =>
        BuildDateTime(
          year, NumberField(monthText, 1, 12), DayField(dayText),
          NumberField(hourText, 0, 23), NumberField(minuteText, 0, 59),
          NumberField(secondText, 0, 61))
  }

  /** The naive datetime with microsecond 0 and its rendering parse back to each other. */
  lemma StrptimeRender(dt: DateTime)
    requires ValidDateTime(dt) && dt.microsecond == 0 && dt.utcOffset.None?
    ensures Strptime(Render(dt)) == Some(dt)
  {
    var y, mo, d := Digits(dt.year, 4), Digits(dt.month, 2), Digits(dt.day, 2);
    var h, mi, se := Digits(dt.hour, 2), Digits(dt.minute, 2), Digits(dt.second, 2);
    RenderOfParts(dt, y, mo, d, h, mi, se);
    StrptimeFields(y, mo, d, h, mi, se);
    TwoDigitField(dt.month, 1, 12);
    TwoDigitField(dt.day, 1, 31);
    TwoDigitField(dt.hour, 0, 23);
    TwoDigitField(dt.minute, 0, 59);
    TwoDigitField(dt.second, 0, 61);
  }

  lemma TwoDigitField(v: nat, lo: nat, hi: nat)
    requires lo <= v <= hi && v < 100
    ensures NumberField(Digits(v, 2), lo, hi) == Some(v)
    ensures DayField(Digits(v, 2)) == NumberField(Digits(v, 2), 1, 31)
  {
    var f := Digits(v, 2);
    assert f[0] != ' ';
  }

  /** Strptime on text of the rendered shape reads each field where it stands. */
  lemma StrptimeFields(y: string, mo: string, d: string, h: string, mi: string, se: string)
    requires |y| == 4 && AllDigits(y) && '-' !in mo
    requires |d| == 2 && AllDigits(d)
    requires |h| > 0 && IsDigit(h[0]) && ':' !in h && ':' !in mi
    ensures Strptime(y + "-" + mo + "-" + (d + " " + (h + ":" + mi + ":" + se)))
      == BuildDateTime(DecimalValue(y), NumberField(mo, 1, 12), DayField(d),
                       NumberField(h, 0, 23), NumberField(mi, 0, 59), NumberField(se, 0, 61))
  {
    var u := h + ":" + mi + ":" + se;
    StrptimeYearMonth(y, mo, d + " " + u);
    SplitDayTwoDigits(d, u);
    StrptimeTimeFields(DecimalValue(y), mo, d, h, mi, se);
  }

  lemma StrptimeYearMonth(y: string, mo: string, t: string)
    requires |y| == 4 && AllDigits(y) && '-' !in mo
    ensures Strptime(y + "-" + mo + "-" + t) == StrptimeFromDay(DecimalValue(y), mo, t)
  {
    var s := y + "-" + mo + "-" + t;
    assert s[..4] == y && s[4] == '-' && s[5..] == mo + ['-'] + t;
    SplitAtFirstAfter(mo, '-', t);
  }

  lemma StrptimeTimeFields(year: nat, mo: string, d: string, h: string, mi: string, se: string)
    requires ':' !in h && ':' !in mi
    ensures StrptimeFromHour(year, mo, d, h + ":" + mi + ":" + se)
      == BuildDateTime(year, NumberField(mo, 1, 12), DayField(d),
                       NumberField(h, 0, 23), NumberField(mi, 0, 59), NumberField(se, 0, 61))
  {
    assert h + ":" + mi + ":" + se == h + [':'] + (mi + ":" + se);
    SplitAtFirstAfter(h, ':', mi + ":" + se);
    assert mi + ":" + se == mi + [':'] + se;
    SplitAtFirstAfter(mi, ':', se);
  }

  lemma SplitDayTwoDigits(d: string, u: string)
    requires |d| == 2 && AllDigits(d) && |u| > 0 && IsDigit(u[0])
    ensures SplitDay(d + " " + u) == Some((d, u))
  {
    var t := d + " " + u;
    assert t[0] != ' ' && t[2] == ' ';
    assert LeadingDigits(t) == 2 by {
      assert t[1..][1..] == t[2..];
      assert LeadingDigits(t[1..][1..]) == 0;
    }
    assert t[2..][1..] == u;
    assert LeadingSpaces(t[2..]) == 1 by {
      assert !IsSpace(u[0]);
      assert LeadingSpaces(u) == 0;
    }
    assert t[..2] == d && t[2 + 1..] == u;
  }

  lemma SplitAtFirstAfter(a: string, c: char, b: string)
    requires c !in a
    ensures SplitAtFirst(a + [c] + b, c) == Some((a, b))
  {
    if a != [] {
      assert (a + [c] + b)[1..] == a[1..] + [c] + b;
      SplitAtFirstAfter(a[1..], c, b);
      assert [a[0]] + a[1..] == a;
    }
  }

  // ---------------------------------------------------------------------------
  // Choosing the timestamp of an ingestion

  /**
   * The current variant (watcher.py): the payload timestamp as
   * `dateutil.isoparse` reads it, else as `datetime.fromisoformat` reads it
   * after `Z` is replaced by `+00:00`; None when the key is missing or both
   * parsers raise.
   */
  function PayloadTimestamp(env: Env, raw: Option<string>): (r: Option<DateTime>)
    ensures r.Some? <==> raw.Some? && (env.isoParse(raw.value).Some? || env.fromIsoFormat(ReplaceZ(raw.value)).Some?)
    ensures r.Some? && env.isoParse(raw.value).Some? ==> r == env.isoParse(raw.value)
    ensures r.Some? && env.isoParse(raw.value).None? ==> r == env.fromIsoFormat(ReplaceZ(raw.value))
  {
    match raw
    case None => None
    case Some(text) =>
      var viaFromIsoFormat := env.fromIsoFormat(ReplaceZ(text));
      var viaIsoParse := env.isoParse(text);
      if viaIsoParse.Some? then viaIsoParse else viaFromIsoFormat
  }

  /** The timestamp text `<YYYY>-<MM>-<DD> <hh>:<mm>:<ss>` cut out of the date and time parts of a file name. */
  function FilenameTimestampText(dateStr: string, timeStr: string): string {
    Slice(dateStr, 0, 4) + "-" + Slice(dateStr, 4, 6) + "-"
    + (From(dateStr, 6) + " " + (Slice(timeStr, 0, 2) + ":" + Slice(timeStr, 2, 4) + ":" + Slice(timeStr, 4, 6)))
  }

  /**
   * The legacy variant (database.py): when the file name split on `_` has at
   * least three parts, the timestamp cut out of parts 1 and 2, validated by
   * `strptime` with no fallback; otherwise the payload timestamp through
   * `fromisoformat` after `Z` is replaced by `+00:00`.
   */
  function LegacyTimestamp(env: Env, name: string, raw: Option<string>): (r: Option<DateTime>)
    ensures var parts := Split(name, '_');
      |parts| >= 3 ==> r == Strptime(FilenameTimestampText(parts[1], parts[2]))
    ensures var parts := Split(name, '_');
      |parts| < 3 ==> r == (if raw.None? then None else env.fromIsoFormat(ReplaceZ(raw.value)))
  {
    var parts := Split(name, '_');
    if |parts| >= 3 then Strptime(FilenameTimestampText(parts[1], parts[2]))
    else if raw.None? then None
    else env.fromIsoFormat(ReplaceZ(raw.value))
  }

  /** A name part of eight digits and one that starts with six digits, read as a date and a time. */
  predicate ConventionalStamp(dateStr: string, timeStr: string) {
    |dateStr| == 8 && AllDigits(dateStr) && |timeStr| >= 6 && AllDigits(timeStr[..6])
  }

  function StampDateTime(dateStr: string, timeStr: string): DateTime
    requires ConventionalStamp(dateStr, timeStr)
  {
    DateTime(
      DecimalValue(dateStr[..4]), DecimalValue(dateStr[4..6]), DecimalValue(dateStr[6..]),
      DecimalValue(timeStr[..2]), DecimalValue(timeStr[2..4]), DecimalValue(timeStr[4..6]),
      0, None)
  }

  /**
   * A file name following the `<bin>_<YYYYMMDD>_<HHMMSS>...` convention with
   * a real calendar date-time yields exactly that date-time, whatever the
   * payload says, and the text cut from the name is the text stored for it.
   */
  lemma ConventionalFilenameTimestamp(env: Env, name: string, raw: Option<string>)
    requires |Split(name, '_')| >= 3
    requires ConventionalStamp(Split(name, '_')[1], Split(name, '_')[2])
    requires ValidDateTime(StampDateTime(Split(name, '_')[1], Split(name, '_')[2]))
    ensures var parts := Split(name, '_');
      && LegacyTimestamp(env, name, raw) == Some(StampDateTime(parts[1], parts[2]))
      && Render(StampDateTime(parts[1], parts[2])) == FilenameTimestampText(parts[1], parts[2])
  {
    var parts := Split(name, '_');
    StampRendersAsName(parts[1], parts[2]);
    StrptimeRender(StampDateTime(parts[1], parts[2]));
  }

  /** For a conventional stamp, the text cut from the name is the rendering of its date-time. */
  lemma StampRendersAsName(ds: string, ts: string)
    requires ConventionalStamp(ds, ts)
    ensures Render(StampDateTime(ds, ts)) == FilenameTimestampText(ds, ts)
  {
    var dt := StampDateTime(ds, ts);
    var y, mo, d := ds[..4], ds[4..6], ds[6..];
    var h, mi, se := ts[..2], ts[2..4], ts[4..6];
    assert AllDigits(y) && AllDigits(mo) && AllDigits(d);
    assert AllDigits(h) && AllDigits(mi) && AllDigits(se);
    DigitsOfValue(y);
    DigitsOfValue(mo);
    DigitsOfValue(d);
    DigitsOfValue(h);
    DigitsOfValue(mi);
    DigitsOfValue(se);
    RenderOfParts(dt, y, mo, d, h, mi, se);
    assert Slice(ds, 0, 4) == y && Slice(ds, 4, 6) == mo && From(ds, 6) == d;
    assert Slice(ts, 0, 2) == h && Slice(ts, 2, 4) == mi && Slice(ts, 4, 6) == se;
  }

  lemma RenderOfParts(dt: DateTime, y: string, mo: string, d: string, h: string, mi: string, se: string)
    requires dt.microsecond == 0 && dt.utcOffset.None?
    requires Digits(dt.year, 4) == y && Digits(dt.month, 2) == mo && Digits(dt.day, 2) == d
    requires Digits(dt.hour, 2) == h && Digits(dt.minute, 2) == mi && Digits(dt.second, 2) == se
    ensures Render(dt) == y + "-" + mo + "-" + (d + " " + (h + ":" + mi + ":" + se))
  {
    assert Clock(dt) + "" + "" == Clock(dt);
  }
}
