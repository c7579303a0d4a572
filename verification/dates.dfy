/**
 * Calendar dates as the vacancy code uses them: the `YYYY-MM-DD` rendering of
 * `str(date)`, the parse that `datetime.fromisoformat` performs on it, Python's
 * string order on such renderings, and the conversion of "Seconds Since the
 * Epoch" (POSIX.1-2017 Base Definitions, section 4.16) to a UTC calendar date.
 */
module Dates {
  import opened Wrappers

  /** A proleptic Gregorian date, the fields of Python's `datetime.date`. */
  datatype Date = Date(year: int, month: int, day: int)

  predicate IsLeapYear(y: int) {
    y % 4 == 0 && (y % 100 != 0 || y % 400 == 0)
  }

  function DaysInYear(y: int): int {
    if IsLeapYear(y) then 366 else 365
  }

  function DaysInMonth(y: int, m: int): (n: int)
    requires 1 <= m <= 12
    ensures 28 <= n <= 31
  {
    if m == 2 then (if IsLeapYear(y) then 29 else 28)
    else if m == 4 || m == 6 || m == 9 || m == 11 then 30
    else 31
  }

  /** The month and day exist in the Gregorian calendar (any year). */
  predicate InCalendar(d: Date) {
    1 <= d.month <= 12 && 1 <= d.day <= DaysInMonth(d.year, d.month)
  }

  /** A date `datetime.date` can hold: years MINYEAR = 1 to MAXYEAR = 9999. */
  predicate Valid(d: Date) {
    1 <= d.year <= 9999 && InCalendar(d)
  }

  /** Chronological order of calendar dates. */
  predicate Before(p: Date, q: Date) {
    p.year < q.year || (p.year == q.year && (p.month < q.month || (p.month == q.month && p.day < q.day)))
  }

  /** An integer key whose order is the chronological order (see BeforeIsKeyOrder). */
  function DateKey(d: Date): int {
    d.year * 10000 + d.month * 100 + d.day
  }

  lemma BeforeIsKeyOrder(p: Date, q: Date)
    requires InCalendar(p) && InCalendar(q)
    ensures Before(p, q) <==> DateKey(p) < DateKey(q)
    ensures p == q <==> DateKey(p) == DateKey(q)
  {
  }

  // ----- Decimal digits -----

  predicate IsDigit(c: char) {
    '0' <= c <= '9'
  }

  predicate AllDigits(s: string) {
    forall i :: 0 <= i < |s| ==> IsDigit(s[i])
  }

  function DigitChar(n: int): (c: char)
    requires 0 <= n <= 9
    ensures IsDigit(c) && c as int - '0' as int == n
  {
    ('0' as int + n) as char
  }

  function DigitValue(c: char): (n: int)
    requires IsDigit(c)
    ensures 0 <= n <= 9 && DigitChar(n) == c
  {
    c as int - '0' as int
  }

  /** The number a string of decimal digits denotes. */
  function DecimalValue(s: string): int
    requires AllDigits(s)
  {
    if s == [] then 0 else 10 * DecimalValue(s[..|s| - 1]) + DigitValue(s[|s| - 1])
  }

  /** `%02d` */
  function Pad2(n: int): string
    requires 0 <= n <= 99
  {
    [DigitChar(n / 10), DigitChar(n % 10)]
  }

  /** `%04d` */
  function Pad4(n: int): string
    requires 0 <= n <= 9999
  {
    [DigitChar(n / 1000), DigitChar(n / 100 % 10), DigitChar(n / 10 % 10), DigitChar(n % 10)]
  }

  /** `str(date)`: the ISO 8601 calendar date `YYYY-MM-DD` (RFC 3339 full-date). */
  function Format(d: Date): string
    requires Valid(d)
  {
    Pad4(d.year) + "-" + Pad2(d.month) + "-" + Pad2(d.day)
  }

  /** Ten characters shaped `DDDD-DD-DD` where D is a decimal digit. */
  predicate Shaped(s: string) {
    |s| == 10 && AllDigits(s[..4]) && s[4] == '-' && AllDigits(s[5..7]) && s[7] == '-' && AllDigits(s[8..])
  }

  /**
   * `datetime.fromisoformat(s).date()` on the extended calendar-date form: the
   * date is returned when the year, month and day exist, and the call fails
   * (None) otherwise.
   */
  function Parse(s: string): Option<Date> {
    if Shaped(s) then
      var d := Date(DecimalValue(s[..4]), DecimalValue(s[5..7]), DecimalValue(s[8..]));
      if Valid(d) then Some(d) else None
    else None
  }

  /**
   * The canonical rendering of a real date: the text `YYYY-MM-DD` that parses
   * and renders back to itself. DateTestIsIsoDate shows it is exactly the test
   * `s == str(datetime.fromisoformat(s).date())` of `Vacancy.check_date_pub`.
   */
  predicate IsIsoDate(s: string) {
    Parse(s).Some? && Format(Parse(s).value) == s
  }

  // ----- datetime.fromisoformat, as Python 3.7 to 3.10 define it -----

  /** Two decimal digits whose value is below `bound`. */
  predicate Field(t: string, bound: int) {
    |t| == 2 && AllDigits(t) && DecimalValue(t) < bound
  }

  /** `.fff` or `.ffffff` */
  predicate Fraction(t: string) {
    (|t| == 4 || |t| == 7) && t[0] == '.' && AllDigits(t[1..])
  }

  /** `HH[:MM[:SS[.fff[fff]]]]` naming a time of day: hour below 24, minute and second below 60. */
  predicate IsClock(t: string) {
    |t| >= 2 && Field(t[..2], 24) &&
    (|t| == 2 ||
     (|t| >= 5 && t[2] == ':' && Field(t[3..5], 60) &&
      (|t| == 5 || (|t| >= 8 && t[5] == ':' && Field(t[6..8], 60) && (|t| == 8 || Fraction(t[8..]))))))
  }

  /** `+HH:MM[:SS[.ffffff]]`, or the same after `-`: a UTC offset of less than a day. */
  predicate IsOffset(z: string) {
    |z| >= 6 && (z[0] == '+' || z[0] == '-') && Field(z[1..3], 24) && z[3] == ':' && Field(z[4..6], 60) &&
    (|z| == 6 || (|z| >= 9 && z[6] == ':' && Field(z[7..9], 60) && (|z| == 9 || (|z| == 16 && Fraction(z[9..])))))
  }

  /** Where the UTC offset of a time text starts: at its first `+` or `-`, or at its end. */
  function OffsetStart(t: string): (k: nat)
    ensures k <= |t|
    ensures forall i :: 0 <= i < k ==> t[i] != '+' && t[i] != '-'
    ensures k < |t| ==> t[k] == '+' || t[k] == '-'
  {
    if t == [] || t[0] == '+' || t[0] == '-' then 0 else 1 + OffsetStart(t[1..])
  }

  /** The time part after the separator: a time of day, then an optional UTC offset. */
  predicate IsTime(t: string) {
    var k := OffsetStart(t);
    IsClock(t[..k]) && (k == |t| || IsOffset(t[k..]))
  }

  /**
   * `datetime.fromisoformat(s).date()`: the first ten characters are the date
   * `YYYY-MM-DD`; when there are more, the eleventh is a separator (any
   * character) and the rest a time. None stands for the ValueError the call
   * raises on any other text and on a date or time that does not exist.
   */
  function FromIsoFormat(s: string): (r: Option<Date>)
    ensures r.Some? ==> |s| >= 10 && r == Parse(s[..10]) && Valid(r.value)
    ensures |s| <= 10 ==> r == Parse(s)
    ensures |s| > 10 ==> (r.Some? <==> Parse(s[..10]).Some? && IsTime(s[11..]))
  {
    if |s| < 10 then None
    else if |s| == 10 then (assert s[..10] == s; Parse(s))
    else if IsTime(s[11..]) then Parse(s[..10])
    else None
  }

  /**
   * check_date_pub's test `s == str(datetime.fromisoformat(s).date())` holds
   * exactly on the canonical renderings: text with a time part may parse, but
   * it is longer than the date it names.
   */
  lemma DateTestIsIsoDate(s: string)
    ensures (FromIsoFormat(s).Some? && Format(FromIsoFormat(s).value) == s) <==> IsIsoDate(s)
  {
    if FromIsoFormat(s).Some? && Format(FromIsoFormat(s).value) == s {
      ParseFormat(FromIsoFormat(s).value);
    }
  }

  /** An impossible date does not parse: February 2023 has no 30th. */
  lemma ImpossibleDateFails()
    ensures FromIsoFormat("2023-02-30") == None
  {
    var b := "2023-02-30";
    DecimalValue4(b[..4]);
    DecimalValue2(b[5..7]);
    DecimalValue2(b[8..]);
    assert !Valid(Date(2023, 2, 30));
  }

  /** A date with a time of day parses, but does not render back to the text. */
  lemma TimePartParses()
    ensures FromIsoFormat("2023-01-05T10:00") == Some(Date(2023, 1, 5))
    ensures !IsIsoDate("2023-01-05T10:00")
  {
    var s := "2023-01-05T10:00";
    var u := s[..10];
    assert u == "2023-01-05";
    DecimalValue4(u[..4]);
    DecimalValue2(u[5..7]);
    DecimalValue2(u[8..]);
    assert Parse(u) == Some(Date(2023, 1, 5));
    var t := s[11..];
    assert t == "10:00";
    assert OffsetStart(t[4..]) == 1;
    assert OffsetStart(t) == |t|;
    assert t[..|t|] == t;
    DecimalValue2(t[..2]);
    DecimalValue2(t[3..5]);
    assert Field(t[..2], 24) && Field(t[3..5], 60);
    assert IsClock(t);
  }

  lemma DecimalValue2(t: string)
    requires |t| == 2 && AllDigits(t)
    ensures DecimalValue(t) == 10 * DigitValue(t[0]) + DigitValue(t[1])
  {
    assert t[..1] == [t[0]] && [t[0]][..0] == [];
    assert DecimalValue(t[..1]) == DigitValue(t[0]);
  }

  lemma DecimalValue4(t: string)
    requires |t| == 4 && AllDigits(t)
    ensures DecimalValue(t) == 1000 * DigitValue(t[0]) + 100 * DigitValue(t[1]) + 10 * DigitValue(t[2]) + DigitValue(t[3])
  {
    assert t[..3][..2] == t[..2];
    DecimalValue2(t[..2]);
    assert DecimalValue(t[..3]) == 10 * DecimalValue(t[..2]) + DigitValue(t[2]);
  }

  lemma Pad2Value(n: int)
    requires 0 <= n <= 99
    ensures |Pad2(n)| == 2 && AllDigits(Pad2(n)) && DecimalValue(Pad2(n)) == n
  {
    DecimalValue2(Pad2(n));
  }

  lemma Pad4Value(n: int)
    requires 0 <= n <= 9999
    ensures |Pad4(n)| == 4 && AllDigits(Pad4(n)) && DecimalValue(Pad4(n)) == n
  {
    var a := n / 10;
    var b := a / 10;
    assert n / 100 == b && n / 1000 == b / 10;
    assert n == 10 * a + n % 10 && a == 10 * b + a % 10 && b == 10 * (b / 10) + b % 10;
    DecimalValue4(Pad4(n));
  }

  lemma Pad2Of(t: string)
    requires |t| == 2 && AllDigits(t)
    ensures 0 <= DecimalValue(t) <= 99 && Pad2(DecimalValue(t)) == t
  {
    DecimalValue2(t);
    var a, b := DigitValue(t[0]), DigitValue(t[1]);
    assert DecimalValue(t) / 10 == a && DecimalValue(t) % 10 == b;
    assert Pad2(DecimalValue(t)) == [DigitChar(a), DigitChar(b)];
  }

  lemma Pad4Of(t: string)
    requires |t| == 4 && AllDigits(t)
    ensures 0 <= DecimalValue(t) <= 9999 && Pad4(DecimalValue(t)) == t
  {
    DecimalValue4(t);
    var v := DecimalValue(t);
    var d0, d1, d2, d3 := DigitValue(t[0]), DigitValue(t[1]), DigitValue(t[2]), DigitValue(t[3]);
    assert v / 10 == 100 * d0 + 10 * d1 + d2 && v % 10 == d3;
    assert v / 100 == 10 * d0 + d1 && v / 10 % 10 == d2;
    assert v / 1000 == d0 && v / 100 % 10 == d1;
  }

  /** Every real date renders to a string that parses back to it. */
  lemma ParseFormat(d: Date)
    requires Valid(d)
    ensures Shaped(Format(d)) && Parse(Format(d)) == Some(d)
  {
    var s := Format(d);
    Pad4Value(d.year);
    Pad2Value(d.month);
    Pad2Value(d.day);
    assert s[..4] == Pad4(d.year);
    assert s[5..7] == Pad2(d.month);
    assert s[8..] == Pad2(d.day);
  }

  /** A string that parses is the rendering of the date it parses to. */
  lemma FormatParse(s: string)
    requires Parse(s).Some?
    ensures Format(Parse(s).value) == s
  {
    var d := Parse(s).value;
    Pad4Of(s[..4]);
    Pad2Of(s[5..7]);
    Pad2Of(s[8..]);
    assert s == s[..4] + "-" + s[5..7] + "-" + s[8..];
  }

  /**
   * The re-rendering test accepts exactly the canonical renderings of real
   * dates: a string passes iff it is `str(d)` for some date d with year 1..9999.
   */
  lemma IsIsoDateExactly(s: string)
    ensures IsIsoDate(s) <==> Parse(s).Some?
    ensures IsIsoDate(s) <==> exists d :: Valid(d) && Format(d) == s
  {
    if Parse(s).Some? {
      FormatParse(s);
      assert Valid(Parse(s).value) && Format(Parse(s).value) == s;
    }
    if exists d :: Valid(d) && Format(d) == s {
      var d :| Valid(d) && Format(d) == s;
      ParseFormat(d);
    }
  }

  /** The rendering of the epoch day, a string check_date_pub accepts. */
  function EpochText(): (s: string)
    ensures IsIsoDate(s)
  {
    ParseFormat(Date(1970, 1, 1));
    Format(Date(1970, 1, 1))
  }

  lemma EpochRendering()
    ensures Format(Date(1970, 1, 1)) == "1970-01-01"
  {
    assert DigitChar(1) == '1' && DigitChar(9) == '9' && DigitChar(7) == '7' && DigitChar(0) == '0';
    assert Pad4(1970) == "1970";
    assert Pad2(1) == "01";
  }

  // ----- Python's string order -----

  /** Python's `<` on str: lexicographic on code points, a proper prefix first. */
  predicate StrLess(a: string, b: string) {
    if a == [] then b != []
    else if b == [] then false
    else if a[0] != b[0] then a[0] < b[0]
    else StrLess(a[1..], b[1..])
  }

  lemma {:induction false} StrLessAppend(a1: string, a2: string, b1: string, b2: string)
    requires |a1| == |b1|
    ensures StrLess(a1 + a2, b1 + b2) <==> StrLess(a1, b1) || (a1 == b1 && StrLess(a2, b2))
  {
    if a1 == [] {
      assert a1 + a2 == a2 && b1 + b2 == b2;
    } else {
      assert (a1 + a2)[1..] == a1[1..] + a2;
      assert (b1 + b2)[1..] == b1[1..] + b2;
      assert a1 == [a1[0]] + a1[1..] && b1 == [b1[0]] + b1[1..];
      StrLessAppend(a1[1..], a2, b1[1..], b2);
    }
  }

  /** On digit strings of one length, string order is numeric order. */
  lemma {:induction false} DigitsOrder(a: string, b: string)
    requires |a| == |b| && AllDigits(a) && AllDigits(b)
    ensures StrLess(a, b) <==> DecimalValue(a) < DecimalValue(b)
    ensures a == b <==> DecimalValue(a) == DecimalValue(b)
  {
    if a != [] {
      var n := |a| - 1;
      var a', b' := a[..n], b[..n];
      assert a == a' + [a[n]] && b == b' + [b[n]];
      assert AllDigits(a') && AllDigits(b');
      DigitsOrder(a', b');
      StrLessAppend(a', [a[n]], b', [b[n]]);
      assert StrLess([a[n]], [b[n]]) <==> a[n] < b[n];
      assert a[..|a| - 1] == a' && b[..|b| - 1] == b';
      LastDigitOrder(DecimalValue(a'), DecimalValue(b'), DigitValue(a[n]), DigitValue(b[n]));
    }
  }

  /** Numbers that differ only in their last digit are ordered by it; otherwise by the rest. */
  lemma LastDigitOrder(x: int, y: int, d: int, e: int)
    requires 0 <= d <= 9 && 0 <= e <= 9
    ensures 10 * x + d < 10 * y + e <==> x < y || (x == y && d < e)
    ensures 10 * x + d == 10 * y + e <==> x == y && d == e
  {
  }

  /**
   * For canonical `YYYY-MM-DD` strings, Python's string order is the
   * chronological order of the dates they name.
   */
  lemma IsoOrderIsChronological(a: string, b: string)
    requires IsIsoDate(a) && IsIsoDate(b)
    ensures StrLess(a, b) <==> Before(Parse(a).value, Parse(b).value)
    ensures a == b <==> Parse(a).value == Parse(b).value
  {
    var ra, rb := a[4..], b[4..];
    var ta, tb := a[7..], b[7..];
    assert a == a[..4] + ra && b == b[..4] + rb;
    assert ra == "-" + (a[5..7] + ta) && rb == "-" + (b[5..7] + tb);
    assert ta == "-" + a[8..] && tb == "-" + b[8..];
    StrLessAppend(a[..4], ra, b[..4], rb);
    StrLessAppend("-", a[5..7] + ta, "-", b[5..7] + tb);
    StrLessAppend(a[5..7], ta, b[5..7], tb);
    StrLessAppend("-", a[8..], "-", b[8..]);
    DigitsOrder(a[..4], b[..4]);
    DigitsOrder(a[5..7], b[5..7]);
    DigitsOrder(a[8..], b[8..]);
    if Parse(a).value == Parse(b).value {
      FormatParse(a);
      FormatParse(b);
    }
  }

  // ----- Seconds Since the Epoch -----

  /** Days from 1970-01-01 to January 1 of year y, negative before 1970, counted year by year. */
  function DaysBeforeYear(y: int): int
    decreases if y < 1970 then 1970 - y else y - 1970
  {
    if y == 1970 then 0
    else if y > 1970 then DaysBeforeYear(y - 1) + DaysInYear(y - 1)
    else DaysBeforeYear(y + 1) - DaysInYear(y)
  }

  lemma YearLength(y: int)
    ensures DaysBeforeYear(y + 1) == DaysBeforeYear(y) + DaysInYear(y)
  {
    if y < 1969 {
      assert DaysBeforeYear(y) == DaysBeforeYear(y + 1) - DaysInYear(y);
    }
  }

  /** The leap-day count in closed form, with floor division. */
  function ClosedDays(y: int): int {
    365 * (y - 1970) + (y - 1969) / 4 - (y - 1901) / 100 + (y - 1601) / 400
  }

  lemma FloorStep(a: int, k: int)
    requires k == 4 || k == 100 || k == 400
    ensures (a + 1) / k == a / k + (if (a + 1) % k == 0 then 1 else 0)
  {
  }

  lemma ClosedStep(y: int)
    ensures ClosedDays(y + 1) == ClosedDays(y) + DaysInYear(y)
  {
    FloorStep(y - 1969, 4);
    FloorStep(y - 1901, 100);
    FloorStep(y - 1601, 400);
    assert (y - 1968) % 4 == y % 4;
    assert (y - 1900) % 100 == y % 100;
    assert (y - 1600) % 400 == y % 400;
  }

  /** The year-by-year count agrees with the closed form. */
  lemma {:induction false} DaysBeforeYearClosed(y: int)
    ensures DaysBeforeYear(y) == ClosedDays(y)
    decreases if y < 1970 then 1970 - y else y - 1970
  {
    if y > 1970 {
      DaysBeforeYearClosed(y - 1);
      ClosedStep(y - 1);
    } else if y < 1970 {
      DaysBeforeYearClosed(y + 1);
      ClosedStep(y);
      YearLength(y);
    }
  }

  lemma {:induction false} DaysBeforeYearMonotone(a: int, b: int)
    requires a <= b
    ensures DaysBeforeYear(a) <= DaysBeforeYear(b)
    decreases b - a
  {
    if a < b {
      YearLength(b - 1);
      DaysBeforeYearMonotone(a, b - 1);
    }
  }

  /** At most one year's first day lies in any window of year length. */
  lemma YearUnique(n: int, a: int, b: int)
    requires DaysBeforeYear(a) <= n < DaysBeforeYear(a + 1)
    requires DaysBeforeYear(b) <= n < DaysBeforeYear(b + 1)
    ensures a == b
  {
    if a < b {
      DaysBeforeYearMonotone(a + 1, b);
    } else if b < a {
      DaysBeforeYearMonotone(b + 1, a);
    }
  }

  function YearUp(n: int, y: int): (r: int)
    requires DaysBeforeYear(y) <= n
    ensures DaysBeforeYear(r) <= n < DaysBeforeYear(r + 1)
    decreases n - DaysBeforeYear(y)
  {
    YearLength(y);
    if n < DaysBeforeYear(y + 1) then y else YearUp(n, y + 1)
  }

  function YearDown(n: int, y: int): (r: int)
    requires n < DaysBeforeYear(y + 1)
    ensures DaysBeforeYear(r) <= n < DaysBeforeYear(r + 1)
    decreases DaysBeforeYear(y + 1) - n
  {
    YearLength(y);
    if DaysBeforeYear(y) <= n then y else YearDown(n, y - 1)
  }

  /** The year holding day number n (day 0 is 1970-01-01). */
  function YearOf(n: int): (r: int)
    ensures DaysBeforeYear(r) <= n < DaysBeforeYear(r + 1)
  {
    YearLength(1969);
    if n >= 0 then YearUp(n, 1970) else YearDown(n, 1969)
  }

  /** Days from January 1 to the first day of month m (m = 13 is the next January 1). */
  function DaysBeforeMonth(y: int, m: int): int
    requires 1 <= m <= 13
  {
    (if m > 2 && IsLeapYear(y) then 1 else 0) +
    (if m == 1 then 0 else if m == 2 then 31 else if m == 3 then 59 else if m == 4 then 90
     else if m == 5 then 120 else if m == 6 then 151 else if m == 7 then 181
     else if m == 8 then 212 else if m == 9 then 243 else if m == 10 then 273
     else if m == 11 then 304 else if m == 12 then 334 else 365)
  }

  lemma MonthStep(y: int, m: int)
    requires 1 <= m <= 12
    ensures DaysBeforeMonth(y, m + 1) == DaysBeforeMonth(y, m) + DaysInMonth(y, m)
    ensures DaysBeforeMonth(y, 13) == DaysInYear(y)
  {
  }

  lemma {:induction false} DaysBeforeMonthMonotone(y: int, a: int, b: int)
    requires 1 <= a <= b <= 13
    ensures DaysBeforeMonth(y, a) <= DaysBeforeMonth(y, b)
    decreases b - a
  {
    if a < b {
      MonthStep(y, b - 1);
      DaysBeforeMonthMonotone(y, a, b - 1);
    }
  }

  function MonthOf(y: int, doy: int, m: int): (r: int)
    requires 1 <= m <= 12 && DaysBeforeMonth(y, m) <= doy < DaysInYear(y)
    ensures m <= r <= 12 && DaysBeforeMonth(y, r) <= doy < DaysBeforeMonth(y, r + 1)
    decreases 12 - m
  {
    MonthStep(y, m);
    if m == 12 || doy < DaysBeforeMonth(y, m + 1) then m else MonthOf(y, doy, m + 1)
  }

  /** Day number of a date, 1970-01-01 being day 0. */
  function ToDays(d: Date): int
    requires 1 <= d.month <= 12
  {
    DaysBeforeYear(d.year) + DaysBeforeMonth(d.year, d.month) + d.day - 1
  }

  /** The calendar date of day number n: the inverse of ToDays. */
  function FromDays(n: int): (d: Date)
    ensures InCalendar(d) && ToDays(d) == n
  {
    var y := YearOf(n);
    YearLength(y);
    var doy := n - DaysBeforeYear(y);
    var m := MonthOf(y, doy, 1);
    MonthStep(y, m);
    Date(y, m, doy - DaysBeforeMonth(y, m) + 1)
  }

  /** A date's day number lies within its year, and within its month of that year. */
  lemma DayWithin(d: Date)
    requires InCalendar(d)
    ensures DaysBeforeYear(d.year) <= ToDays(d) < DaysBeforeYear(d.year + 1)
    ensures DaysBeforeMonth(d.year, d.month) <= ToDays(d) - DaysBeforeYear(d.year) < DaysBeforeMonth(d.year, d.month + 1)
  {
    MonthStep(d.year, d.month);
    DaysBeforeMonthMonotone(d.year, d.month + 1, 13);
    YearLength(d.year);
  }

  /** At most one month's first day lies in any window of that month's length. */
  lemma MonthUnique(y: int, doy: int, a: int, b: int)
    requires 1 <= a <= 12 && DaysBeforeMonth(y, a) <= doy < DaysBeforeMonth(y, a + 1)
    requires 1 <= b <= 12 && DaysBeforeMonth(y, b) <= doy < DaysBeforeMonth(y, b + 1)
    ensures a == b
  {
    if a < b {
      DaysBeforeMonthMonotone(y, a + 1, b);
    } else if b < a {
      DaysBeforeMonthMonotone(y, b + 1, a);
    }
  }

  /** Dates with the same day number are in the same year. */
  lemma SameDaySameYear(p: Date, q: Date)
    requires InCalendar(p) && InCalendar(q) && ToDays(p) == ToDays(q)
    ensures p.year == q.year
  {
    DayWithin(p);
    DayWithin(q);
    YearUnique(ToDays(p), p.year, q.year);
  }

  lemma ToDaysInjective(p: Date, q: Date)
    requires InCalendar(p) && InCalendar(q) && ToDays(p) == ToDays(q)
    ensures p == q
  {
    SameDaySameYear(p, q);
    DayWithin(p);
    DayWithin(q);
    MonthUnique(p.year, ToDays(p) - DaysBeforeYear(p.year), p.month, q.month);
  }

  lemma ToFromDays(d: Date)
    requires InCalendar(d)
    ensures FromDays(ToDays(d)) == d
  {
    ToDaysInjective(FromDays(ToDays(d)), d);
  }

  /**
   * Seconds Since the Epoch of a UTC time, by the formula of POSIX.1-2017 Base
   * Definitions section 4.16, with tm_year = year - 1900 and tm_yday the
   * zero-based day of the year. POSIX states it for tm_year >= 70; the floor
   * division used here extends it to the proleptic calendar before 1970, as
   * Python's `utcfromtimestamp` does.
   */
  function PosixSeconds(d: Date, hour: int, minute: int, second: int): int
    requires 1 <= d.month <= 12
  {
    var tmYear := d.year - 1900;
    var tmYday := DaysBeforeMonth(d.year, d.month) + d.day - 1;
    second + minute * 60 + hour * 3600 + tmYday * 86400 + (tmYear - 70) * 31536000
      + ((tmYear - 69) / 4) * 86400 - ((tmYear - 1) / 100) * 86400 + ((tmYear + 299) / 400) * 86400
  }

  /** `datetime.utcfromtimestamp(ts).date()` before its year-range check. */
  function UtcDate(ts: int): Date {
    FromDays(ts / 86400)
  }

  /** Every timestamp of one 86400-second block has the same UTC date. */
  lemma UtcDateOfDay(k: int, ts: int)
    requires k * 86400 <= ts < (k + 1) * 86400
    ensures UtcDate(ts) == FromDays(k)
  {
    assert ts / 86400 == k;
  }

  /** The UTC date of a POSIX timestamp is the date it was computed from. */
  lemma UtcDateInvertsPosix(d: Date, hour: int, minute: int, second: int)
    requires InCalendar(d)
    requires 0 <= hour < 24 && 0 <= minute < 60 && 0 <= second < 60
    ensures UtcDate(PosixSeconds(d, hour, minute, second)) == d
  {
    var k := ToDays(d);
    DaysBeforeYearClosed(d.year);
    assert PosixSeconds(d, hour, minute, second) == k * 86400 + second + minute * 60 + hour * 3600;
    UtcDateOfDay(k, PosixSeconds(d, hour, minute, second));
    ToFromDays(d);
  }

  /** Timestamp 0 and the rest of its 86400-second block fall on 1970-01-01. */
  lemma UtcDateOfFirstDay(ts: int)
    requires 0 <= ts < 86400
    ensures UtcDate(ts) == Date(1970, 1, 1)
  {
    var k := ts / 86400;
    assert k == 0;
    var epoch := Date(1970 + k, 1, 1);
    assert InCalendar(epoch) && ToDays(epoch) == k;
    ToFromDays(epoch);
  }
}
