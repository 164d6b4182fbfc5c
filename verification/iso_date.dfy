/** Calendar dates and their date keys: the `YYYY-MM-DD` part of
    `Date.prototype.toISOString()`, which is the calendar-date extended format
    of section 5.2.1.1 of ISO 8601:2004, widened to a sign and six year digits
    outside the years 0 through 9999 (the "Expanded Years" clause of
    ECMA-262's Date Time String Format). */
module IsoDate {
  import opened Results
  import opened StringOrder

  /** A proleptic Gregorian year, month and day. */
  datatype Ymd = Ymd(year: int, month: int, day: int)

  predicate IsLeapYear(y: int) {
    y % 4 == 0 && (y % 100 != 0 || y % 400 == 0)
  }

  function DaysInMonth(y: int, m: int): int
    requires 1 <= m <= 12
  {
    if m == 2 then (if IsLeapYear(y) then 29 else 28)
    else if m == 4 || m == 6 || m == 9 || m == 11 then 30
    else 31
  }

  /** Chronological order of dates. */
  predicate Before(a: Ymd, b: Ymd) {
    a.year < b.year || (a.year == b.year && (a.month < b.month || (a.month == b.month && a.day < b.day)))
  }

  /** The first and last UTC days a JavaScript time value can fall on: time
      values reach 8.64e15 milliseconds, 100,000,000 days, either side of
      1970-01-01 (the "Time Values and Time Range" clause of ECMA-262). */
  const Earliest := Ymd(-271821, 4, 20)
  const Latest := Ymd(275760, 9, 13)

  predicate IsCalendarDate(d: Ymd) {
    && 1 <= d.month <= 12
    && 1 <= d.day <= DaysInMonth(d.year, d.month)
    && !Before(d, Earliest)
    && !Before(Latest, d)
  }

  /** The UTC calendar date of a valid JavaScript `Date`. */
  type CivilDate = d: Ymd | IsCalendarDate(d) witness Ymd(1970, 1, 1)

  /** The string a record is bucketed under. */
  type DateKey = string

  function Pow10(n: nat): (p: nat)
    ensures p >= 1
  {
    if n == 0 then 1 else 10 * Pow10(n - 1)
  }

  predicate IsDigit(c: char) {
    '0' <= c <= '9'
  }

  predicate AllDigits(s: string) {
    forall i :: 0 <= i < |s| ==> IsDigit(s[i])
  }

  function DigitChar(v: int): (c: char)
    requires 0 <= v < 10
    ensures IsDigit(c)
  {
    (48 + v) as char
  }

  /** The number a string of decimal digits spells. */
  function Value(s: string): nat
    requires AllDigits(s)
  {
    if s == [] then 0 else 10 * Value(s[..|s| - 1]) + (s[|s| - 1] as int - 48)
  }

  /** `n` in decimal, left-padded with zeros to exactly `w` digits. */
  function Pad(n: nat, w: nat): (s: string)
    requires n < Pow10(w)
    ensures |s| == w && AllDigits(s)
    ensures Value(s) == n
  {
    if w == 0 then []
    else
      var p := Pad(n / 10, w - 1);
      var s := p + [DigitChar(n % 10)];
      assert s[..|s| - 1] == p;
      s
  }

  /** The year as the date string writes it. */
  function YearText(y: int): (s: string)
    requires -999999 <= y <= 999999
  {
    if 0 <= y <= 9999 then Pad(y, 4)
    else if y < 0 then "-" + Pad(-y, 6)
    else "+" + Pad(y, 6)
  }

  /** `new Date(...).toISOString().split("T")[0]` for a date on this UTC day:
      ten characters `YYYY-MM-DD` for the years 0 through 9999, thirteen
      `±YYYYYY-MM-DD` outside them. */
  function FormatDate(d: CivilDate): (k: DateKey)
    ensures |k| == if 0 <= d.year <= 9999 then 10 else 13
    ensures k[|k| - 6] == '-' && k[|k| - 3] == '-'
    ensures 0 <= d.year <= 9999 <==> IsDigit(k[0])
  {
    YearText(d.year) + MonthDayText(d)
  }

  /** The `-MM-DD` that follows the year. */
  function MonthDayText(d: CivilDate): string {
    "-" + (Pad(d.month, 2) + ("-" + Pad(d.day, 2)))
  }

  /** The key of a date in a negative year: a minus sign, six digits, then month and day. */
  lemma NegativeYearKey(d: CivilDate)
    requires d.year < 0
    ensures -d.year < Pow10(6)
    ensures FormatDate(d) == ['-'] + (Pad(-d.year, 6) + MonthDayText(d))
  {
    assert Pow10(6) == 1000000;
  }

  /** Reads the year part of a key: four digits, or a sign and six digits. */
  function ParseYear(s: string): Option<int> {
    if |s| == 4 && AllDigits(s) then Some(Value(s))
    else if |s| == 7 && (s[0] == '+' || s[0] == '-') && AllDigits(s[1..]) then
      var y: int := Value(s[1..]);
      Some(if s[0] == '-' then -y else y)
    else None
  }

  /** Reads the `-MM-DD` part of a key. */
  function ParseMonthDay(s: string): Option<(int, int)> {
    if |s| == 6 && s[0] == '-' && AllDigits(s[1..3]) && s[3] == '-' && AllDigits(s[4..]) then
      Some((Value(s[1..3]), Value(s[4..])))
    else None
  }

  /** Reads a date key back: the partner of `FormatDate`. The last six
      characters are the month and day, everything before them the year. */
  function ParseDateKey(s: string): Option<Ymd> {
    if |s| < 6 then None
    else
      var year := ParseYear(s[..|s| - 6]);
      var monthDay := ParseMonthDay(s[|s| - 6..]);
      if year.Some? && monthDay.Some? then Some(Ymd(year.value, monthDay.value.0, monthDay.value.1))
      else None
  }

  /** Every date key reads back as the date it was made from. */
  lemma ParseFormatRoundTrip(d: CivilDate)
    ensures ParseDateKey(FormatDate(d)) == Some(d)
  {
    var y, md := YearText(d.year), MonthDayText(d);
    var s := y + md;
    ParseYearText(d.year);
    ParseMonthDayText(d);
    assert s[..|s| - 6] == y && s[|s| - 6..] == md;
  }

  lemma ParseYearText(y: int)
    requires -999999 <= y <= 999999
    ensures ParseYear(YearText(y)) == Some(y)
  {
    assert Pow10(6) == 1000000;
    if y < 0 {
      ParseSignedYear('-', Pad(-y, 6));
    } else if y > 9999 {
      ParseSignedYear('+', Pad(y, 6));
    }
  }

  lemma ParseSignedYear(sign: char, digits: string)
    requires (sign == '+' || sign == '-') && |digits| == 6 && AllDigits(digits)
    ensures ParseYear([sign] + digits) == Some(if sign == '-' then -(Value(digits) as int) else Value(digits))
  {
    assert ([sign] + digits)[1..] == digits;
  }

  lemma ParseMonthDayText(d: CivilDate)
    ensures ParseMonthDay(MonthDayText(d)) == Some((d.month, d.day))
  {
    ParseMonthDayParts(Pad(d.month, 2), Pad(d.day, 2));
  }

  lemma ParseMonthDayParts(mm: string, dd: string)
    requires |mm| == 2 && |dd| == 2 && AllDigits(mm) && AllDigits(dd)
    ensures ParseMonthDay("-" + (mm + ("-" + dd))) == Some((Value(mm), Value(dd)))
  {
    var t := "-" + (mm + ("-" + dd));
    assert t[1..3] == mm && t[4..] == dd;
  }

  /** Different dates never share a key. */
  lemma FormatDateInjective(a: CivilDate, b: CivilDate)
    requires FormatDate(a) == FormatDate(b)
    ensures a == b
  {
    ParseFormatRoundTrip(a);
    ParseFormatRoundTrip(b);
  }

  /** Zero-padded numbers of one width compare as strings as they do as numbers. */
  lemma {:induction false} PadLess(m: nat, n: nat, w: nat)
    requires m < Pow10(w) && n < Pow10(w)
    ensures Less(Pad(m, w), Pad(n, w)) <==> m < n
    decreases w
  {
    if w == 0 {
      LessIrreflexive([]);
    } else {
      var pm, pn := Pad(m / 10, w - 1), Pad(n / 10, w - 1);
      var cm, cn := DigitChar(m % 10), DigitChar(n % 10);
      assert Pad(m, w) == pm + [cm] && Pad(n, w) == pn + [cn];
      PadLess(m / 10, n / 10, w - 1);
      assert pm == pn <==> m / 10 == n / 10;
      DigitStep(pm, pn, cm, cn, m / 10, n / 10, m % 10, n % 10);
    }
  }

  /** One more digit on two equal-width numbers: the earlier digits decide,
      and the last one breaks a tie. */
  lemma DigitStep(pm: string, pn: string, cm: char, cn: char, a: nat, b: nat, x: nat, y: nat)
    requires |pm| == |pn| && x < 10 && y < 10
    requires Less(pm, pn) <==> a < b
    requires pm == pn <==> a == b
    requires cm < cn <==> x < y
    ensures Less(pm + [cm], pn + [cn]) <==> 10 * a + x < 10 * b + y
  {
    LessConcat(pm, [cm], pn, [cn]);
    SingleCharLess(cm, cn);
  }

  lemma SingleCharLess(c: char, d: char)
    ensures Less([c], [d]) <==> c < d
  {
    assert [c][1..] == [] && [d][1..] == [];
    LessIrreflexive([]);
  }

  /** Putting the same character in front of two strings keeps their order. */
  lemma LessSamePrefix(c: char, a: string, b: string)
    ensures Less([c] + a, [c] + b) <==> Less(a, b)
  {
    assert ([c] + a)[1..] == a && ([c] + b)[1..] == b;
  }

  /** The `-MM-DD` parts compare as strings as the month and day do. */
  lemma MonthDayLess(a: CivilDate, b: CivilDate)
    ensures Less(MonthDayText(a), MonthDayText(b)) <==> a.month < b.month || (a.month == b.month && a.day < b.day)
  {
    var ma, mb := Pad(a.month, 2), Pad(b.month, 2);
    var da, db := Pad(a.day, 2), Pad(b.day, 2);
    LessSamePrefix('-', ma + ("-" + da), mb + ("-" + db));
    LessConcat(ma, "-" + da, mb, "-" + db);
    LessSamePrefix('-', da, db);
    PadLess(a.month, b.month, 2);
    PadLess(a.day, b.day, 2);
    assert ma == mb <==> a.month == b.month;
  }

  /** For the years 0 through 9999 the string order of the keys is the
      chronological order of the dates. */
  lemma FourDigitYearsSortChronologically(a: CivilDate, b: CivilDate)
    requires 0 <= a.year <= 9999 && 0 <= b.year <= 9999
    ensures Less(FormatDate(a), FormatDate(b)) <==> Before(a, b)
  {
    var ya, yb := Pad(a.year, 4), Pad(b.year, 4);
    assert FormatDate(a) == ya + MonthDayText(a) && FormatDate(b) == yb + MonthDayText(b);
    LessConcat(ya, MonthDayText(a), yb, MonthDayText(b));
    MonthDayLess(a, b);
    PadLess(a.year, b.year, 4);
    assert ya == yb <==> a.year == b.year;
  }

  /** Outside the four-digit years the string order is not chronological: a
      key with a `+` year sorts before every four-digit-year key although its
      date comes after. */
  lemma ExpandedYearsSortFirst(a: CivilDate, b: CivilDate)
    requires 0 <= a.year <= 9999 < b.year
    ensures Before(a, b)
    ensures Less(FormatDate(b), FormatDate(a))
  {
    assert FormatDate(b)[0] == '+';
    assert IsDigit(FormatDate(a)[0]);
  }

  lemma LessBehindSameSign(y1: string, y2: string, t1: string, t2: string)
    requires |y1| == |y2| && Less(y1, y2) && t1 == t2
    ensures Less(['-'] + (y1 + t1), ['-'] + (y2 + t2))
  {
    LessConcat(y1, t1, y2, t2);
    LessSamePrefix('-', y1 + t1, y2 + t2);
  }

  /** Among negative years the string order is reversed. */
  lemma NegativeYearsSortBackwards(a: CivilDate, b: CivilDate)
    requires a.year < b.year < 0 && a.month == b.month && a.day == b.day
    ensures Before(a, b)
    ensures Less(FormatDate(b), FormatDate(a))
  {
    NegativeYearKey(a);
    NegativeYearKey(b);
    PadLess(-b.year, -a.year, 6);
    LessBehindSameSign(Pad(-b.year, 6), Pad(-a.year, 6), MonthDayText(a), MonthDayText(b));
  }
}
