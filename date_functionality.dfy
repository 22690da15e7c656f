/** `formatDateWithTime` (app/utils/dateFunctionality.js): a date and time,
    read through the local-time getters of a JavaScript Date, written as
    "DD-MonthName-YYYY HH:MM:SS". */
module DateFunctionality {
  import opened Wrappers

  type Month = m: nat | m < 12
  type Day = d: nat | 1 <= d <= 31 witness 1
  type Hour = h: nat | h < 24
  type Minute = n: nat | n < 60

  /** What `getFullYear`, `getMonth` (0-based), `getDate`, `getHours`,
      `getMinutes` and `getSeconds` return. */
  datatype DateTime = DateTime(year: int, month: Month, day: Day, hours: Hour, minutes: Minute, seconds: Minute)

  /** The month table of lines 7-20, indexed by the 0-based month. */
  const MonthNames: seq<string> :=
    ["January", "February", "March", "April", "May", "June",
     "July", "August", "September", "October", "November", "December"]

  /** The month abbreviations `Date.prototype.toString` prints. */
  const MonthAbbreviations: seq<string> :=
    ["Jan", "Feb", "Mar", "Apr", "May", "Jun", "Jul", "Aug", "Sep", "Oct", "Nov", "Dec"]

  predicate IsDigit(c: char) {
    '0' <= c <= '9'
  }

  predicate AllDigits(s: string) {
    forall i :: 0 <= i < |s| ==> IsDigit(s[i])
  }

  function DigitChar(n: nat): (c: char)
    requires n < 10
    ensures IsDigit(c)
  {
    ('0' as int + n) as char
  }

  function DigitValue(c: char): (n: nat)
    requires IsDigit(c)
    ensures n < 10
  {
    c as int - '0' as int
  }

  /** The decimal numeral `String(n)` writes for a natural number. */
  function Digits(n: nat): (s: string)
    ensures |s| >= 1 && AllDigits(s)
    ensures n >= 10 ==> |s| >= 2
  {
    if n < 10 then [DigitChar(n)] else Digits(n / 10) + [DigitChar(n % 10)]
  }

  /** The number a string of digits denotes. */
  function DigitsValue(s: string): nat
    requires AllDigits(s)
  {
    if s == [] then 0 else 10 * DigitsValue(s[..|s| - 1]) + DigitValue(s[|s| - 1])
  }

  /** Reading a numeral back gives the number it was written for. */
  lemma {:induction false} DigitsRoundTrip(n: nat)
    ensures DigitsValue(Digits(n)) == n
  {
    if n >= 10 {
      DigitsRoundTrip(n / 10);
      var s := Digits(n);
      assert s[..|s| - 1] == Digits(n / 10);
    }
  }

  /** `String(year)`: a negative year is written with a minus sign. */
  function YearText(y: int): string {
    if y < 0 then "-" + Digits(-y) else Digits(y)
  }

  /** `("0" + n).slice(-2)`: the last two characters of the numeral with a zero
      in front, that is the two-digit form of any number below 100. */
  function Pad2(n: nat): (r: string)
    ensures |r| == 2 && AllDigits(r)
    ensures n < 100 ==> r == [DigitChar(n / 10), DigitChar(n % 10)]
  {
    PaddedDigits(n);
    var s := "0" + Digits(n);
    s[|s| - 2..]
  }

  lemma PaddedDigits(n: nat)
    ensures var s := "0" + Digits(n);
      && |s| >= 2 && AllDigits(s[|s| - 2..])
      && (n < 100 ==> s[|s| - 2..] == [DigitChar(n / 10), DigitChar(n % 10)])
  {
    var s := "0" + Digits(n);
    if n < 10 {
      assert n / 10 == 0 && n % 10 == n;
      assert s == ['0', DigitChar(n)];
    } else {
      var t := Digits(n);
      assert s[|s| - 2..] == t[|t| - 2..];
      if n < 100 {
        TwoDigitNumeral(n);
      }
    }
  }

  lemma TwoDigitNumeral(n: nat)
    requires 10 <= n < 100
    ensures Digits(n) == [DigitChar(n / 10), DigitChar(n % 10)]
  {
    var q := n / 10;
    assert q < 10;
    assert Digits(q) == [DigitChar(q)];
  }

  /** The part of lines 28-33 after the year: " HH:MM:SS". */
  function TimeText(d: DateTime): string {
    " " + Pad2(d.hours) + ":" + Pad2(d.minutes) + ":" + Pad2(d.seconds)
  }

  /** `formatDateWithTime(currentDate)`, lines 5-36. */
  function FormatDateWithTime(d: DateTime): string {
    Pad2(d.day) + "-" + (MonthNames[d.month] + "-" + YearText(d.year) + TimeText(d))
  }

  // ----- Reading a formatted date back -----

  /** The part of `s` before the first `c`, or all of `s` when it has none. */
  function TakeUntil(s: string, c: char): (r: string)
    ensures |r| <= |s| && r == s[..|r|] && c !in r
    ensures |r| < |s| ==> s[|r|] == c
  {
    if s == [] || s[0] == c then [] else [s[0]] + TakeUntil(s[1..], c)
  }

  lemma {:induction false} TakeUntilPrefix(a: string, c: char, b: string)
    requires c !in a
    ensures TakeUntil(a + [c] + b, c) == a
  {
    if a != [] {
      assert (a + [c] + b)[1..] == a[1..] + [c] + b;
      TakeUntilPrefix(a[1..], c, b);
    }
  }

  /** The number a two-character numeral denotes. */
  function ParseTwo(s: string): Option<nat> {
    if |s| == 2 && AllDigits(s) then Some(10 * DigitValue(s[0]) + DigitValue(s[1])) else None
  }

  /** The integer a numeral with an optional minus sign denotes. */
  function ParseYear(s: string): Option<int> {
    if |s| >= 2 && s[0] == '-' && AllDigits(s[1..]) then Some(0 - DigitsValue(s[1..]))
    else if |s| >= 1 && AllDigits(s) then Some(DigitsValue(s))
    else None
  }

  /** The 0-based month whose name is `name`. */
  function MonthNumber(name: string): (r: Option<Month>)
    ensures r.Some? ==> MonthNames[r.value] == name
  {
    if name == "January" then Some(0) else if name == "February" then Some(1)
    else if name == "March" then Some(2) else if name == "April" then Some(3)
    else if name == "May" then Some(4) else if name == "June" then Some(5)
    else if name == "July" then Some(6) else if name == "August" then Some(7)
    else if name == "September" then Some(8) else if name == "October" then Some(9)
    else if name == "November" then Some(10) else if name == "December" then Some(11)
    else None
  }

  /** The clock time " HH:MM:SS" stands for. */
  function ParseTime(t: string): Option<(Hour, Minute, Minute)> {
    if |t| != 9 || t[0] != ' ' || t[3] != ':' || t[6] != ':' then None
    else
      match (ParseTwo(t[1..3]), ParseTwo(t[4..6]), ParseTwo(t[7..]))
      case (Some(h), Some(mi), Some(sec)) => if h < 24 && mi < 60 && sec < 60 then Some((h, mi, sec)) else None
      case _ => None
  }

  /** The day, month and year "DD-MonthName-YYYY" stands for. */
  function ParseDay(p: string): Option<(Day, Month, int)> {
    if |p| < 3 || p[2] != '-' then None
    else
      var middle := p[3..];
      var name := TakeUntil(middle, '-');
      if |name| == |middle| then None
      else
        match (ParseTwo(p[..2]), MonthNumber(name), ParseYear(middle[|name| + 1..]))
        case (Some(day), Some(m), Some(y)) => if 1 <= day <= 31 then Some((day, m, y)) else None
        case _ => None
  }

  /** The date a string of the form "DD-MonthName-YYYY HH:MM:SS" stands for. */
  function ParseDateWithTime(s: string): Option<DateTime> {
    if |s| < 9 then None
    else
      match (ParseDay(s[..|s| - 9]), ParseTime(s[|s| - 9..]))
      case (Some((day, m, y)), Some((h, mi, sec))) => Some(DateTime(y, m, day, h, mi, sec))
      case _ => None
  }

  lemma MonthNamesHaveNoDash(m: Month)
    ensures '-' !in MonthNames[m] && |MonthNames[m]| >= 3
  {
  }

  lemma MonthNumberOfName(m: Month)
    ensures MonthNumber(MonthNames[m]) == Some(m)
  {
  }

  lemma {:induction false} ParseYearText(y: int)
    ensures ParseYear(YearText(y)) == Some(y)
  {
    var n: nat := if y < 0 then -y else y;
    var ds := Digits(n);
    DigitsRoundTrip(n);
    if y < 0 {
      assert YearText(y) == "-" + ds;
      ParseNegativeYear(ds);
    } else {
      assert YearText(y) == ds;
      ParseNaturalYear(ds);
    }
  }

  lemma ParseNegativeYear(ds: string)
    requires |ds| >= 1 && AllDigits(ds)
    ensures ParseYear("-" + ds) == Some(0 - DigitsValue(ds))
  {
    assert ("-" + ds)[1..] == ds;
  }

  lemma ParseNaturalYear(ds: string)
    requires |ds| >= 1 && AllDigits(ds)
    ensures ParseYear(ds) == Some(DigitsValue(ds))
  {
    assert IsDigit(ds[0]);
  }

  lemma ParsePad2(n: nat)
    requires n < 100
    ensures ParseTwo(Pad2(n)) == Some(n)
  {
  }

  /** Where each field sits in a formatted date: the day in the first two
      characters, then a dash, the month name, a dash, the year, and the last
      nine characters " HH:MM:SS". */
  lemma FormatLayout(d: DateTime)
    ensures var r := FormatDateWithTime(d);
      var name := MonthNames[d.month];
      && |r| == |name| + |YearText(d.year)| + 13
      && r[..2] == Pad2(d.day) && r[2] == '-'
      && r[3..|r| - 9] == name + "-" + YearText(d.year)
      && r[|r| - 9] == ' ' && r[|r| - 8..|r| - 6] == Pad2(d.hours)
      && r[|r| - 6] == ':' && r[|r| - 5..|r| - 3] == Pad2(d.minutes)
      && r[|r| - 3] == ':' && r[|r| - 2..] == Pad2(d.seconds)
  {
    var head, middle, tail := Pad2(d.day) + "-", MonthNames[d.month] + "-" + YearText(d.year), TimeText(d);
    TimeLayout(d);
    var r := FormatDateWithTime(d);
    assert r == head + (middle + tail);
    assert r[..3] == head;
    assert r[3..|r| - 9] == middle;
    assert r[|r| - 9..] == tail;
  }

  lemma TimeLayout(d: DateTime)
    ensures var t := TimeText(d);
      && |t| == 9 && t[0] == ' ' && t[1..3] == Pad2(d.hours) && t[3] == ':'
      && t[4..6] == Pad2(d.minutes) && t[6] == ':' && t[7..] == Pad2(d.seconds)
  {
  }

  /** A formatted date can be read back: the format loses no field, so two
      different dates never print alike. */
  lemma FormatRoundTrip(d: DateTime)
    ensures ParseDateWithTime(FormatDateWithTime(d)) == Some(d)
  {
    var day := Pad2(d.day) + "-" + (MonthNames[d.month] + "-" + YearText(d.year));
    var r := FormatDateWithTime(d);
    TimeLayout(d);
    assert r == day + TimeText(d);
    assert r[..|r| - 9] == day && r[|r| - 9..] == TimeText(d);
    DayRoundTrip(d);
    TimeRoundTrip(d);
  }

  lemma TimeRoundTrip(d: DateTime)
    ensures ParseTime(TimeText(d)) == Some((d.hours, d.minutes, d.seconds))
  {
    TimeLayout(d);
    ParsePad2(d.hours);
    ParsePad2(d.minutes);
    ParsePad2(d.seconds);
  }

  lemma DayRoundTrip(d: DateTime)
    ensures ParseDay(Pad2(d.day) + "-" + (MonthNames[d.month] + "-" + YearText(d.year))) == Some((d.day, d.month, d.year))
  {
    var name, year := MonthNames[d.month], YearText(d.year);
    var p := Pad2(d.day) + "-" + (name + "-" + year);
    assert p[..2] == Pad2(d.day) && p[2] == '-';
    var middle := p[3..];
    assert middle == name + "-" + year;
    MonthNamesHaveNoDash(d.month);
    TakeUntilPrefix(name, '-', year);
    assert middle[|name| + 1..] == year;
    MonthNumberOfName(d.month);
    ParseYearText(d.year);
    ParsePad2(d.day);
  }

  /** The formatted date carries the month abbreviation `Date.prototype.toString`
      prints, right after the day. */
  lemma MonthAbbreviationAppears(d: DateTime)
    ensures var r := FormatDateWithTime(d);
      |r| >= 6 && r[3..6] == MonthAbbreviations[d.month]
  {
    FormatLayout(d);
    MonthNamesHaveNoDash(d.month);
    var r := FormatDateWithTime(d);
    assert r[3..6] == (r[3..|r| - 9])[..3];
  }

  /** The output depends on the date's fields alone and tells them apart:
      two dates print alike exactly when they are the same. */
  lemma FormatInjective(d1: DateTime, d2: DateTime)
    ensures FormatDateWithTime(d1) == FormatDateWithTime(d2) <==> d1 == d2
  {
    FormatRoundTrip(d1);
    FormatRoundTrip(d2);
  }
}
