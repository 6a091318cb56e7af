/** Calendar dates, times of day and instants, as Python's `datetime` module
    gives them to the site, plus the two `strftime` layouts it uses for event
    dates: `'%d-%b-%Y'` (labels) and `'%d%b%Y'` (URLs), and the `strptime`
    that reads the latter back out of a URL.

    A date compares like Python's `date` does, through its proleptic
    Gregorian ordinal (0001-01-01 is day 1). Times are kept to the minute; an
    instant is the number of minutes since the start of day 0.
 */
module Calendar {
  import opened Text

  datatype Date = Date(year: int, month: int, day: int)
  datatype Time = Time(hour: int, minute: int)
  datatype DateTime = DateTime(date: Date, time: Time)

  predicate IsLeapYear(y: int) {
    y % 4 == 0 && (y % 100 != 0 || y % 400 == 0)
  }

  function DaysInMonth(y: int, m: int): (n: int)
    requires 1 <= m <= 12
    ensures 28 <= n <= 31
  {
    if m == 2 then (if IsLeapYear(y) then 29 else 28)
    else if m == 4 || m == 6 || m == 9 || m == 11 then 30
    else 31
  }

  /** The range of Python's `date` type. */
  predicate ValidDate(d: Date) {
    1 <= d.year <= 9999 && 1 <= d.month <= 12 && 1 <= d.day <= DaysInMonth(d.year, d.month)
  }

  predicate ValidTime(t: Time) {
    0 <= t.hour < 24 && 0 <= t.minute < 60
  }

  predicate ValidDateTime(dt: DateTime) {
    ValidDate(dt.date) && ValidTime(dt.time)
  }

  function DaysBeforeMonth(y: int, m: int): nat
    requires 1 <= m <= 13
  {
    if m == 1 then 0 else DaysBeforeMonth(y, m - 1) + DaysInMonth(y, m - 1)
  }

  function DaysBeforeYear(y: int): int
    requires y >= 1
  {
    var p := y - 1;
    p * 365 + p / 4 - p / 100 + p / 400
  }

  /** `date.toordinal()`. */
  function Ordinal(d: Date): (n: int)
    requires ValidDate(d)
  {
    DaysBeforeYear(d.year) + DaysBeforeMonth(d.year, d.month) + d.day
  }

  lemma DaysInYear(y: int)
    ensures DaysBeforeMonth(y, 13) == if IsLeapYear(y) then 366 else 365
  {
    var feb := if IsLeapYear(y) then 29 else 28;
    assert DaysBeforeMonth(y, 2) == 31;
    assert DaysBeforeMonth(y, 3) == 31 + feb;
    assert DaysBeforeMonth(y, 4) == 62 + feb;
    assert DaysBeforeMonth(y, 5) == 92 + feb;
    assert DaysBeforeMonth(y, 6) == 123 + feb;
    assert DaysBeforeMonth(y, 7) == 153 + feb;
    assert DaysBeforeMonth(y, 8) == 184 + feb;
    assert DaysBeforeMonth(y, 9) == 215 + feb;
    assert DaysBeforeMonth(y, 10) == 245 + feb;
    assert DaysBeforeMonth(y, 11) == 276 + feb;
    assert DaysBeforeMonth(y, 12) == 306 + feb;
  }

  lemma YearLength(y: int)
    requires y >= 1
    ensures DaysBeforeYear(y + 1) - DaysBeforeYear(y) == if IsLeapYear(y) then 366 else 365
  {
    DivStep4(y);
    DivStep100(y);
    DivStep400(y);
    ModChain(y);
    assert DaysBeforeYear(y + 1) == y * 365 + y / 4 - y / 100 + y / 400;
    assert DaysBeforeYear(y) == (y - 1) * 365 + (y - 1) / 4 - (y - 1) / 100 + (y - 1) / 400;
  }

  /** A multiple of 400 is one of 100, and a multiple of 100 one of 4. */
  lemma ModChain(y: int)
    ensures y % 400 == 0 ==> y % 100 == 0
    ensures y % 100 == 0 ==> y % 4 == 0
  {
    if y % 400 == 0 {
      MultipleOf400(y);
    }
    if y % 100 == 0 {
      MultipleOf100(y);
    }
  }

  lemma MultipleOf400(y: int)
    requires y % 400 == 0
    ensures y % 100 == 0
  {
    var m := 4 * (y / 400);
    assert y == 100 * m;
  }

  lemma MultipleOf100(y: int)
    requires y % 100 == 0
    ensures y % 4 == 0
  {
    var m := 25 * (y / 100);
    assert y == 4 * m;
  }

  /** Going from `y - 1` to `y` passes one more multiple of 4 exactly when
      `y` is one; likewise for 100 and 400. */
  lemma DivStep4(y: int)
    ensures y / 4 == (y - 1) / 4 + (if y % 4 == 0 then 1 else 0)
  {
  }

  lemma DivStep100(y: int)
    ensures y / 100 == (y - 1) / 100 + (if y % 100 == 0 then 1 else 0)
  {
  }

  lemma DivStep400(y: int)
    ensures y / 400 == (y - 1) / 400 + (if y % 400 == 0 then 1 else 0)
  {
  }

  lemma DaysBeforeMonthBound(y: int, m: int)
    requires 1 <= m <= 12
    ensures DaysBeforeMonth(y, m) + DaysInMonth(y, m) <= DaysBeforeMonth(y, 13)
  {
    MonthGap(y, m, 13);
  }

  /** Day 1 is 0001-01-01, and every valid date has a positive ordinal. */
  lemma OrdinalPositive(d: Date)
    requires ValidDate(d)
    ensures Ordinal(d) >= 1
    ensures Ordinal(d) == 1 <==> d == Date(1, 1, 1)
  {
    if d.month > 1 {
      MonthGap(d.year, 1, d.month);
      assert DaysBeforeMonth(d.year, d.month) >= 28;
    }
    if d.year == 1 {
      assert DaysBeforeYear(1) == 0;
      if d.month == 1 {
        assert Ordinal(d) == d.day;
      }
    } else {
      YearsBefore(d.year);
      assert DaysBeforeYear(d.year) >= 365;
      assert Ordinal(d) > 1;
    }
  }

  lemma {:induction false} YearsBefore(y: int)
    requires y >= 1
    ensures DaysBeforeYear(y) >= 365 * (y - 1)
  {
    if y > 1 {
      YearsBefore(y - 1);
      YearLength(y - 1);
    }
  }

  /** Python compares dates field by field; the ordinal orders them the same
      way, so comparing ordinals is comparing dates. */
  lemma {:induction false} OrdinalOrder(a: Date, b: Date)
    requires ValidDate(a) && ValidDate(b)
    ensures (a.year, a.month, a.day) == (b.year, b.month, b.day) <==> Ordinal(a) == Ordinal(b)
    ensures LexLess(a, b) <==> Ordinal(a) < Ordinal(b)
  {
    if a.year < b.year {
      OrdinalYearGap(a, b);
    } else if b.year < a.year {
      OrdinalYearGap(b, a);
    } else if a.month < b.month {
      MonthGap(a.year, a.month, b.month);
    } else if b.month < a.month {
      MonthGap(a.year, b.month, a.month);
    }
  }

  predicate LexLess(a: Date, b: Date) {
    a.year < b.year || (a.year == b.year && (a.month < b.month || (a.month == b.month && a.day < b.day)))
  }

  lemma {:induction false} MonthGap(y: int, m1: int, m2: int)
    requires 1 <= m1 < m2 <= 13
    ensures DaysBeforeMonth(y, m1) + DaysInMonth(y, m1) <= DaysBeforeMonth(y, m2)
  {
    if m2 > m1 + 1 {
      MonthGap(y, m1, m2 - 1);
    }
  }

  lemma {:induction false} OrdinalYearGap(a: Date, b: Date)
    requires ValidDate(a) && ValidDate(b) && a.year < b.year
    ensures Ordinal(a) < Ordinal(b)
  {
    DaysBeforeMonthBound(a.year, a.month);
    YearLength(a.year);
    DaysInYear(a.year);
    YearsMonotone(a.year + 1, b.year);
  }

  lemma {:induction false} YearsMonotone(y1: int, y2: int)
    requires 1 <= y1 <= y2
    ensures DaysBeforeYear(y1) <= DaysBeforeYear(y2)
  {
    if y1 < y2 {
      YearsMonotone(y1, y2 - 1);
      YearLength(y2 - 1);
    }
  }

  /** `d - timedelta(days=1)` for every date but the first. */
  function PrevDay(d: Date): (p: Date)
    requires ValidDate(d) && d != Date(1, 1, 1)
    ensures ValidDate(p)
  {
    if d.day > 1 then Date(d.year, d.month, d.day - 1)
    else if d.month > 1 then Date(d.year, d.month - 1, DaysInMonth(d.year, d.month - 1))
    else Date(d.year - 1, 12, 31)
  }

  /** The previous calendar day is the day whose ordinal is one less. */
  lemma PrevDayOrdinal(d: Date)
    requires ValidDate(d) && d != Date(1, 1, 1)
    ensures Ordinal(PrevDay(d)) == Ordinal(d) - 1
  {
    var y := d.year;
    if d.day == 1 && d.month == 1 {
      NewYearOrdinal(y - 1);
      assert PrevDay(d) == Date(y - 1, 12, 31) && d == Date(y - 1 + 1, 1, 1);
    } else if d.day == 1 {
      var m := d.month - 1;
      assert PrevDay(d) == Date(y, m, DaysInMonth(y, m));
      assert DaysBeforeMonth(y, d.month) == DaysBeforeMonth(y, m) + DaysInMonth(y, m);
    } else {
      assert PrevDay(d) == Date(y, d.month, d.day - 1);
    }
  }

  /** New Year's Day follows the last day of the year before. */
  lemma NewYearOrdinal(y: int)
    requires 1 <= y < 9999
    ensures Ordinal(Date(y + 1, 1, 1)) == Ordinal(Date(y, 12, 31)) + 1
  {
    YearLength(y);
    DaysInYear(y);
    assert DaysBeforeMonth(y, 13) == DaysBeforeMonth(y, 12) + 31;
  }

  /** Minutes since the start of day 0; `datetime` values compare this way. */
  function Instant(dt: DateTime): int
    requires ValidDateTime(dt)
  {
    Ordinal(dt.date) * 1440 + dt.time.hour * 60 + dt.time.minute
  }

  /** Every instant of a day comes before every instant of a later day. */
  lemma InstantDayBounds(dt: DateTime)
    requires ValidDateTime(dt)
    ensures Ordinal(dt.date) * 1440 <= Instant(dt) < Ordinal(dt.date) * 1440 + 1440
  {
  }

  // ---------------------------------------------------------------------
  // strftime('%d-%b-%Y'), strftime('%d%b%Y') and strptime(s, '%d%b%Y')
  // ---------------------------------------------------------------------

  const MonthAbbrevs: seq<string> :=
    ["Jan", "Feb", "Mar", "Apr", "May", "Jun", "Jul", "Aug", "Sep", "Oct", "Nov", "Dec"]

  /** `%b` in the C locale. */
  function MonthAbbrev(m: int): (s: string)
    requires 1 <= m <= 12
    ensures |s| == 3
  {
    MonthAbbrevs[m - 1]
  }

  /** Two zero-padded decimal digits (`%d`). */
  function Pad2(n: int): (s: string)
    requires 0 <= n < 100
    ensures |s| == 2 && AllDigits(s)
  {
    [DigitChar(n / 10), DigitChar(n % 10)]
  }

  /** Four zero-padded decimal digits (`%Y`). */
  function Pad4(n: int): (s: string)
    requires 0 <= n < 10000
    ensures |s| == 4 && AllDigits(s)
  {
    Pad2(n / 100) + Pad2(n % 100)
  }

  /** `date.strftime('%d' + sep + '%b' + sep + '%Y')`. */
  function FormatDate(d: Date, sep: string): (s: string)
    requires ValidDate(d)
    ensures |s| == 9 + 2 * |sep|
  {
    Pad2(d.day) + sep + MonthAbbrev(d.month) + sep + Pad4(d.year)
  }

  function MonthNumber(name: string, i: nat): (r: Option<int>)
    requires i <= 12
    decreases 12 - i
    ensures r.Some? ==> i + 1 <= r.value <= 12 && MonthAbbrevs[r.value - 1] == name
    ensures r.None? ==> forall j :: i <= j < 12 ==> MonthAbbrevs[j] != name
  {
    if i == 12 then None
    else if MonthAbbrevs[i] == name then Some(i + 1)
    else MonthNumber(name, i + 1)
  }

  /** `datetime.strptime(s, '%d%b%Y').date()` on the layout the site itself
      writes: two-digit day, English month abbreviation, four-digit year.
      None stands for the ValueError of a string that is not such a date. */
  function ParseCompactDate(s: string): (r: Option<Date>)
    ensures r.Some? ==> ValidDate(r.value)
  {
    if |s| != 9 || !AllDigits(s[..2]) || !AllDigits(s[5..]) then None
    else
      match MonthNumber(s[2..5], 0)
      case None => None
      case Some(m) =>
        var d := Date(DigitsValue(s[5..]), m, DigitsValue(s[..2]));
        if ValidDate(d) then Some(d) else None
  }

  lemma Pad2Value(n: int)
    requires 0 <= n < 100
    ensures DigitsValue(Pad2(n)) == n
  {
    var s := Pad2(n);
    assert s[..1] == [DigitChar(n / 10)];
    assert s[..1][..0] == [];
    assert DigitsValue(s[..1]) == n / 10;
    assert DigitValue(s[1]) == n % 10;
    assert DigitsValue(s) == (n / 10) * 10 + n % 10;
  }

  lemma Pad4Value(n: int)
    requires 0 <= n < 10000
    ensures DigitsValue(Pad4(n)) == n
  {
    var s := Pad4(n);
    var hi, lo := n / 100, n % 100;
    Pad2Value(hi);
    assert s[..3] == Pad2(hi) + [DigitChar(lo / 10)];
    assert s[..2] == Pad2(hi);
    assert DigitsValue(s[..3]) == hi * 10 + lo / 10;
  }

  /** The URL date layout reads back to the date it was written from. */
  lemma {:induction false} ParseFormatDate(d: Date)
    requires ValidDate(d)
    ensures ParseCompactDate(FormatDate(d, "")) == Some(d)
  {
    var s := FormatDate(d, "");
    assert s[..2] == Pad2(d.day);
    assert s[2..5] == MonthAbbrev(d.month);
    assert s[5..] == Pad4(d.year);
    Pad2Value(d.day);
    Pad4Value(d.year);
    MonthAbbrevsDistinct();
    var m := MonthNumber(s[2..5], 0);
    assert m == Some(d.month);
  }

  lemma MonthAbbrevsDistinct()
    ensures forall i, j :: 0 <= i < j < 12 ==> MonthAbbrevs[i] != MonthAbbrevs[j]
  {
    forall i, j | 0 <= i < j < 12 ensures MonthAbbrevs[i] != MonthAbbrevs[j] {
      assert MonthAbbrevs[i][0] != MonthAbbrevs[j][0] || MonthAbbrevs[i][1] != MonthAbbrevs[j][1]
        || MonthAbbrevs[i][2] != MonthAbbrevs[j][2];
    }
  }

  /** `str(year)[-2:]`: the last two characters of the year's decimal form. */
  function YearSuffix(year: nat): string {
    var s := NatToString(year);
    if |s| >= 2 then s[|s| - 2..] else s
  }

  /** The last character of `str(n)` is the units digit. */
  lemma LastDigit(n: nat)
    ensures NatToString(n)[|NatToString(n)| - 1] == DigitChar(n % 10)
  {
  }

  /** From year 10 on the suffix is the year modulo 100, zero-padded. */
  lemma YearSuffixDigits(year: nat)
    requires year >= 10
    ensures YearSuffix(year) == Pad2(year % 100)
  {
    LastTwoDigits(year);
    TensDigit(year);
  }

  /** The last two characters of `str(year)` are its tens and units digits. */
  lemma LastTwoDigits(year: nat)
    requires year >= 10
    ensures YearSuffix(year) == [DigitChar(year / 10 % 10), DigitChar(year % 10)]
  {
    var q := year / 10;
    var s := NatToString(year);
    var t := NatToString(q);
    assert s == t + [DigitChar(year % 10)];
    LastDigit(q);
    assert s[|s| - 2..] == [t[|t| - 1], DigitChar(year % 10)];
  }

  /** The tens and units digits of a number are those of its last two. */
  lemma TensDigit(year: nat)
    ensures year / 10 % 10 == year % 100 / 10 && year % 10 == year % 100 % 10
  {
    var r := year % 100;
    assert year == 100 * (year / 100) + r;
    assert year / 10 == 10 * (year / 100) + r / 10;
  }
}
