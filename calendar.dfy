/**
 * `get_day_name`: `datetime.strptime(date_str, "%Y-%m-%d").strftime("%A")`.
 * Parsing follows the patterns strptime uses for the three directives
 * (`%Y` four digits, `%m` one or two digits, `%d` one or two digits or a
 * space and a digit, all of the string consumed), then the range checks of
 * the proleptic Gregorian calendar; the weekday comes from the day's ordinal,
 * with 0001-01-01 a Monday.
 */
module Calendar {
  import opened Wrappers
  import opened Bson

  datatype Date = Date(year: int, month: int, day: int)

  predicate IsLeap(y: int)
  {
    y % 4 == 0 && (y % 100 != 0 || y % 400 == 0)
  }

  function DaysInMonth(y: int, m: int): int
    requires 1 <= m <= 12
  {
    if m == 2 then (if IsLeap(y) then 29 else 28)
    else if m == 4 || m == 6 || m == 9 || m == 11 then 30
    else 31
  }

  function DaysInYear(y: int): int
  {
    if IsLeap(y) then 366 else 365
  }

  /** A date Python's `datetime.date` accepts. */
  predicate Valid(d: Date)
  {
    1 <= d.year <= 9999 && 1 <= d.month <= 12 && 1 <= d.day <= DaysInMonth(d.year, d.month)
  }

  function DaysBeforeYear(y: int): int
    requires y >= 1
  {
    var n := y - 1;
    365 * n + n / 4 - n / 100 + n / 400
  }

  function DaysBeforeMonth(y: int, m: int): int
    requires 1 <= m <= 12
  {
    [0, 31, 59, 90, 120, 151, 181, 212, 243, 273, 304, 334][m - 1] + (if m > 2 && IsLeap(y) then 1 else 0)
  }

  /** `date.toordinal()`: 0001-01-01 is day 1. */
  function Ordinal(d: Date): int
    requires Valid(d)
  {
    DaysBeforeYear(d.year) + DaysBeforeMonth(d.year, d.month) + d.day
  }

  /** `date.weekday()`: Monday is 0. */
  function Weekday(d: Date): (w: int)
    requires Valid(d)
    ensures 0 <= w < 7
  {
    (Ordinal(d) + 6) % 7
  }

  const DayNames: seq<string> := ["Monday", "Tuesday", "Wednesday", "Thursday", "Friday", "Saturday", "Sunday"]

  predicate IsDigit(c: char)
  {
    '0' <= c <= '9'
  }

  function DigitValue(c: char): int
    requires IsDigit(c)
  {
    c as int - '0' as int
  }

  /** `%m`: `1[0-2]`, `0[1-9]` or `[1-9]`. */
  function MonthToken(t: string): Option<int>
  {
    if |t| == 2 && ((t[0] == '1' && '0' <= t[1] <= '2') || (t[0] == '0' && '1' <= t[1] <= '9')) then
      Some(10 * DigitValue(t[0]) + DigitValue(t[1]))
    else if |t| == 1 && '1' <= t[0] <= '9' then Some(DigitValue(t[0]))
    else None
  }

  /** `%d`: `3[01]`, `[12][0-9]`, `0[1-9]`, `[1-9]` or a space and `[1-9]`. */
  function DayToken(t: string): Option<int>
  {
    if |t| == 2 && ((t[0] == '3' && '0' <= t[1] <= '1') || ('1' <= t[0] <= '2' && IsDigit(t[1])) || (t[0] == '0' && '1' <= t[1] <= '9')) then
      Some(10 * DigitValue(t[0]) + DigitValue(t[1]))
    else if |t| == 2 && t[0] == ' ' && '1' <= t[1] <= '9' then Some(DigitValue(t[1]))
    else if |t| == 1 && '1' <= t[0] <= '9' then Some(DigitValue(t[0]))
    else None
  }

  /** The pattern match of `%Y-%m-%d` against the whole string, before range checks. */
  function ParseFields(s: string): Option<Date>
  {
    if |s| < 8 || !(IsDigit(s[0]) && IsDigit(s[1]) && IsDigit(s[2]) && IsDigit(s[3])) || s[4] != '-' then None
    else
      var year := 1000 * DigitValue(s[0]) + 100 * DigitValue(s[1]) + 10 * DigitValue(s[2]) + DigitValue(s[3]);
      var rest := s[5..];
      var monthLen := if |rest| > 2 && rest[2] == '-' && MonthToken(rest[..2]).Some? then 2 else 1;
      if |rest| <= monthLen || rest[monthLen] != '-' then None
      else match (MonthToken(rest[..monthLen]), DayToken(rest[monthLen + 1..]))
        case (Some(m), Some(d)) => Some(Date(year, m, d))
        case _ => None
  }

  /** `datetime.strptime(s, "%Y-%m-%d")`; None where it raises ValueError. */
  function ParseDate(s: string): (r: Option<Date>)
    ensures r.Some? ==> Valid(r.value)
  {
    match ParseFields(s)
    case Some(d) => if Valid(d) then Some(d) else None
    case None => None
  }

  /** `get_day_name`: None where strptime raises. */
  function DayName(s: string): (r: Option<string>)
    ensures r.Some? <==> ParseDate(s).Some?
    ensures r.Some? ==> r.value in DayNames
  {
    match ParseDate(s)
    case Some(d) => Some(DayNames[Weekday(d)])
    case None => None
  }

  function Digit(n: int): char
    requires 0 <= n <= 9
  {
    ('0' as int + n) as char
  }

  function Pad2(n: int): (r: string)
    requires 0 <= n <= 99
    ensures |r| == 2
  {
    [Digit(n / 10), Digit(n % 10)]
  }

  function Pad4(n: int): (r: string)
    requires 0 <= n <= 9999
    ensures |r| == 4
  {
    Pad2(n / 100) + Pad2(n % 100)
  }

  /** `date.strftime("%Y-%m-%d")`, the form `get_today_str` produces. */
  function Format(d: Date): (r: string)
    requires Valid(d)
    ensures |r| == 10
  {
    Pad4(d.year) + "-" + Pad2(d.month) + "-" + Pad2(d.day)
  }

  /** Parsing the canonical form gives the date back. */
  lemma ParseFormat(d: Date)
    requires Valid(d)
    ensures ParseDate(Format(d)) == Some(d)
  {
    var s := Format(d);
    var y := d.year;
    assert s[0] == Digit(y / 100 / 10) && s[1] == Digit(y / 100 % 10);
    assert s[2] == Digit(y % 100 / 10) && s[3] == Digit(y % 100 % 10);
    assert 1000 * (y / 100 / 10) + 100 * (y / 100 % 10) + 10 * (y % 100 / 10) + y % 100 % 10 == y;
    var rest := s[5..];
    assert rest == Pad2(d.month) + "-" + Pad2(d.day);
    assert rest[..2] == Pad2(d.month) && rest[3..] == Pad2(d.day);
    assert MonthToken(rest[..2]) == Some(d.month);
    assert DayToken(rest[3..]) == Some(d.day);
  }

  /** The canonical form is one-to-one. */
  lemma FormatInjective(a: Date, b: Date)
    requires Valid(a) && Valid(b) && Format(a) == Format(b)
    ensures a == b
  {
    ParseFormat(a);
    ParseFormat(b);
  }

  /** strptime also accepts unpadded fields, so two different strings name one day. */
  lemma UnpaddedAlias()
    ensures ParseDate("2024-1-5") == ParseDate("2024-01-05") == Some(Date(2024, 1, 5))
  {
    assert ParseFields("2024-1-5") == Some(Date(2024, 1, 5));
    assert ParseFields("2024-01-05") == Some(Date(2024, 1, 5));
  }

  /** A month or day number without a leading zero, which `%m` and `%d` also accept. */
  function Short(n: int): (r: string)
    requires 1 <= n <= 99
    ensures 1 <= |r| <= 2
  {
    if n < 10 then [Digit(n)] else Pad2(n)
  }

  /** A date written with unpadded month and day, such as "2024-1-5". */
  function UnpaddedForm(d: Date): string
    requires Valid(d)
  {
    Pad4(d.year) + "-" + Short(d.month) + "-" + Short(d.day)
  }

  /**
   * Every day has an unpadded spelling that strptime reads as that day, and
   * it differs from the canonical form whenever the month or the day is a
   * single digit.
   */
  lemma UnpaddedAliases(d: Date)
    requires Valid(d)
    ensures ParseDate(UnpaddedForm(d)) == Some(d)
    ensures UnpaddedForm(d) == Format(d) <==> d.month >= 10 && d.day >= 10
  {
    var s := UnpaddedForm(d);
    var y := d.year;
    assert s[..4] == Pad4(y);
    assert s[0] == Digit(y / 100 / 10) && s[1] == Digit(y / 100 % 10);
    assert s[2] == Digit(y % 100 / 10) && s[3] == Digit(y % 100 % 10);
    assert 1000 * (y / 100 / 10) + 100 * (y / 100 % 10) + 10 * (y % 100 / 10) + y % 100 % 10 == y;
    var rest := s[5..];
    var m, dd := Short(d.month), Short(d.day);
    assert rest == m + "-" + dd;
    assert rest[..|m|] == m && rest[|m|] == '-' && rest[|m| + 1..] == dd;
    if |m| == 1 {
      assert |rest| > 2 ==> rest[2] == dd[0] && dd[0] != '-';
    }
    assert MonthToken(m) == Some(d.month);
    assert DayToken(dd) == Some(d.day);
    assert ParseFields(s) == Some(d);
    if d.month < 10 || d.day < 10 {
      assert |s| < |Format(d)|;
    }
  }

  /**
   * The unpadded spelling of a day in January to September sorts after the
   * canonical form of every day of January to September of that year.
   */
  lemma UnpaddedSortsLate(d: Date, e: Date)
    requires Valid(d) && Valid(e) && e.year == d.year && d.month < 10 && e.month < 10
    ensures StrLt(Format(e), UnpaddedForm(d))
  {
    var prefix := Pad4(d.year) + "-";
    var a2 := Pad2(e.month) + "-" + Pad2(e.day);
    var b2 := Short(d.month) + "-" + Short(d.day);
    assert Format(e) == prefix + a2;
    assert UnpaddedForm(d) == prefix + b2;
    StrLtConcat(prefix, a2, prefix, b2);
    StrLtIrreflexive(prefix);
    assert a2[0] == '0' && b2[0] == Digit(d.month);
    DigitOrder(0, d.month);
  }

  /** Day one of the calendar, 0001-01-01, is a Monday. */
  lemma FirstDayIsMonday()
    ensures DayNames[Weekday(Date(1, 1, 1))] == "Monday"
  {
  }

  /** `get_day_name("2024-01-01")` is "Monday". */
  lemma KnownMonday()
    ensures DayName("2024-01-01") == Some("Monday")
  {
    assert ParseFields("2024-01-01") == Some(Date(2024, 1, 1));
    assert Ordinal(Date(2024, 1, 1)) == 738886;
  }

  /** The following day. */
  function Next(d: Date): Date
    requires Valid(d)
  {
    if d.day < DaysInMonth(d.year, d.month) then Date(d.year, d.month, d.day + 1)
    else if d.month < 12 then Date(d.year, d.month + 1, 1)
    else Date(d.year + 1, 1, 1)
  }

  /** Moving from y - 1 to y adds one to y / q exactly when q divides y. */
  lemma DivStep(y: int, q: int)
    requires y >= 1 && q in {4, 100, 400}
    ensures y / q == (y - 1) / q + (if y % q == 0 then 1 else 0)
  {
    var a, r := (y - 1) / q, (y - 1) % q;
    assert y - 1 == a * q + r && 0 <= r < q;
    if r == q - 1 {
      assert y == (a + 1) * q;
    } else {
      assert y == a * q + (r + 1) && 0 < r + 1 < q;
    }
  }

  /** A multiple of 400 is a multiple of 100, and a multiple of 100 is a multiple of 4. */
  lemma ModChain(y: int)
    ensures y % 400 == 0 ==> y % 100 == 0
    ensures y % 100 == 0 ==> y % 4 == 0
  {
    if y % 400 == 0 {
      var k := y / 400;
      assert y == 100 * (4 * k);
    }
    if y % 100 == 0 {
      var k := y / 100;
      assert y == 4 * (25 * k);
    }
  }

  lemma DaysBeforeNextYear(y: int)
    requires y >= 1
    ensures DaysBeforeYear(y + 1) == DaysBeforeYear(y) + DaysInYear(y)
  {
    DivStep(y, 4);
    DivStep(y, 100);
    DivStep(y, 400);
    ModChain(y);
    var n := y - 1;
    assert DaysBeforeYear(y + 1) == 365 * y + y / 4 - y / 100 + y / 400;
    assert DaysBeforeYear(y) == 365 * n + n / 4 - n / 100 + n / 400;
  }

  lemma DaysBeforeNextMonth(y: int, m: int)
    requires 1 <= m < 12
    ensures DaysBeforeMonth(y, m + 1) == DaysBeforeMonth(y, m) + DaysInMonth(y, m)
  {
  }

  lemma EndOfYear(y: int)
    ensures DaysBeforeMonth(y, 12) + DaysInMonth(y, 12) == DaysInYear(y)
  {
  }

  /** Consecutive days have consecutive ordinals. */
  lemma NextOrdinal(d: Date)
    requires Valid(d) && Valid(Next(d))
    ensures Ordinal(Next(d)) == Ordinal(d) + 1
  {
    if d.day == DaysInMonth(d.year, d.month) {
      if d.month < 12 {
        DaysBeforeNextMonth(d.year, d.month);
      } else {
        DaysBeforeNextYear(d.year);
        EndOfYear(d.year);
      }
    }
  }

  lemma WeekdayStep(n: int)
    ensures (n + 1 + 6) % 7 == ((n + 6) % 7 + 1) % 7
  {
  }

  /** The day names cycle: the day after a Monday is a Tuesday, the day after a Sunday a Monday. */
  lemma NextWeekday(d: Date)
    requires Valid(d) && Valid(Next(d))
    ensures Weekday(Next(d)) == (Weekday(d) + 1) % 7
  {
    NextOrdinal(d);
    WeekdayStep(Ordinal(d));
  }

  /** `get_day_name` of the canonical form of a date is that date's name. */
  lemma DayNameOfFormat(d: Date)
    requires Valid(d)
    ensures DayName(Format(d)) == Some(DayNames[Weekday(d)])
  {
    ParseFormat(d);
  }

  lemma {:induction false} DaysBeforeYearGrows(y: int, z: int)
    requires 1 <= y <= z
    ensures DaysBeforeYear(y) + 365 * (z - y) <= DaysBeforeYear(z)
    decreases z - y
  {
    if y < z {
      DaysBeforeNextYear(y);
      DaysBeforeYearGrows(y + 1, z);
    }
  }

  lemma {:induction false} DaysBeforeMonthGrows(y: int, m: int, n: int)
    requires 1 <= m <= n <= 12
    ensures DaysBeforeMonth(y, m) + DaysInMonth(y, m) <= DaysBeforeMonth(y, n) + (if m == n then DaysInMonth(y, m) else 0)
    decreases n - m
  {
    if m < n {
      DaysBeforeNextMonth(y, m);
      if m + 1 < n {
        DaysBeforeMonthGrows(y, m + 1, n);
      }
    }
  }

  /** Dates in calendar order. */
  predicate Before(a: Date, b: Date)
  {
    a.year < b.year || (a.year == b.year && (a.month < b.month || (a.month == b.month && a.day < b.day)))
  }

  lemma OrdinalMonotone(a: Date, b: Date)
    requires Valid(a) && Valid(b) && Before(a, b)
    ensures Ordinal(a) < Ordinal(b)
  {
    if a.year < b.year {
      DaysBeforeMonthGrows(a.year, a.month, 12);
      EndOfYear(a.year);
      DaysBeforeNextYear(a.year);
      DaysBeforeYearGrows(a.year + 1, b.year);
    } else if a.month < b.month {
      DaysBeforeMonthGrows(a.year, a.month, b.month);
    }
  }

  lemma DigitOrder(i: int, j: int)
    requires 0 <= i <= 9 && 0 <= j <= 9
    ensures Digit(i) < Digit(j) <==> i < j
    ensures Digit(i) == Digit(j) <==> i == j
  {
  }

  lemma Pad2Order(x: int, y: int)
    requires 0 <= x <= 99 && 0 <= y <= 99
    ensures StrLt(Pad2(x), Pad2(y)) <==> x < y
  {
    var a, b := Pad2(x), Pad2(y);
    DigitOrder(x / 10, y / 10);
    DigitOrder(x % 10, y % 10);
    assert a[1..] == [Digit(x % 10)] && b[1..] == [Digit(y % 10)];
    assert [Digit(x % 10)][1..] == [] && [Digit(y % 10)][1..] == [];
    assert StrLt(a[1..], b[1..]) <==> Digit(x % 10) < Digit(y % 10);
    assert StrLt(a, b) <==> x / 10 < y / 10 || (x / 10 == y / 10 && x % 10 < y % 10);
  }

  lemma Pad4Order(x: int, y: int)
    requires 0 <= x <= 9999 && 0 <= y <= 9999
    ensures StrLt(Pad4(x), Pad4(y)) <==> x < y
  {
    StrLtConcat(Pad2(x / 100), Pad2(x % 100), Pad2(y / 100), Pad2(y % 100));
    Pad2Order(x / 100, y / 100);
    Pad2Order(x % 100, y % 100);
    if Pad2(x / 100) == Pad2(y / 100) {
      assert Digit(x / 100 / 10) == Digit(y / 100 / 10) && Digit(x / 100 % 10) == Digit(y / 100 % 10);
      assert x / 100 == y / 100;
    } else {
      assert x / 100 != y / 100;
    }
  }

  /** The canonical strings sort in calendar order. */
  lemma FormatOrder(a: Date, b: Date)
    requires Valid(a) && Valid(b)
    ensures StrLt(Format(a), Format(b)) <==> Before(a, b)
  {
    var ma, mb := "-" + Pad2(a.month), "-" + Pad2(b.month);
    var da, db := "-" + Pad2(a.day), "-" + Pad2(b.day);
    assert Format(a) == Pad4(a.year) + (ma + da);
    assert Format(b) == Pad4(b.year) + (mb + db);
    StrLtConcat(Pad4(a.year), ma + da, Pad4(b.year), mb + db);
    StrLtConcat(ma, da, mb, db);
    StrLtConcat("-", Pad2(a.month), "-", Pad2(b.month));
    StrLtConcat("-", Pad2(a.day), "-", Pad2(b.day));
    StrLtIrreflexive("-");
    Pad4Order(a.year, b.year);
    Pad2Order(a.month, b.month);
    Pad2Order(a.day, b.day);
    if Pad4(a.year) == Pad4(b.year) {
      Pad4Order(b.year, a.year);
    }
    if ma == mb {
      assert Pad2(a.month) == ma[1..] == mb[1..] == Pad2(b.month);
      Pad2Order(b.month, a.month);
    }
  }

  /** So the string comparison `$lt` on canonical dates is the chronological one. */
  lemma FormatOrderIsChronological(a: Date, b: Date)
    requires Valid(a) && Valid(b)
    ensures StrLt(Format(a), Format(b)) <==> Ordinal(a) < Ordinal(b)
  {
    FormatOrder(a, b);
    if Before(a, b) {
      OrdinalMonotone(a, b);
    } else if Before(b, a) {
      OrdinalMonotone(b, a);
    }
  }
}
