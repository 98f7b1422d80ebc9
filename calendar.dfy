/** Dates of the proleptic Gregorian calendar as Python's `datetime.date` has
    them (years 1 to 9999), with day arithmetic through the ordinal day number
    (0001-01-01 is day 1), the one-month step of `relativedelta(months=1)`
    and the `YYYY-MM-DD` rendering of `str(date)`, the extended calendar-date
    format of section 4.1.2.2 of ISO 8601:2004. */
module Calendar {
  import opened Wrappers
  import opened PyStr

  datatype Date = Date(year: int, month: int, day: int)

  /** The errors date arithmetic raises. */
  datatype DateError =
    | OverflowError                // a day step leaves years 1..9999
    | ValueError(message: string)  // the month step reaches year 10000

  const MaxYear := 9999
  /** The ordinal of 9999-12-31. */
  const MaxOrdinal := 3652059

  predicate IsLeap(y: int) {
    y % 4 == 0 && (y % 100 != 0 || y % 400 == 0)
  }

  function DaysInMonth(y: int, m: int): int
    requires 1 <= m <= 12
  {
    if m == 2 then (if IsLeap(y) then 29 else 28)
    else if m == 4 || m == 6 || m == 9 || m == 11 then 30
    else 31
  }

  /** A date that `datetime.date` accepts. */
  predicate Valid(d: Date) {
    1 <= d.year <= MaxYear && 1 <= d.month <= 12 && 1 <= d.day <= DaysInMonth(d.year, d.month)
  }

  /** The length of year `y` in days. */
  function YearDays(y: int): int {
    if IsLeap(y) then 366 else 365
  }

  /** Days in the years before `y`, counted year by year (the closed form
      `datetime` uses is `DaysBeforeYearClosedForm`). */
  function DaysBeforeYear(y: int): int
    requires y >= 1
    decreases y
  {
    if y == 1 then 0 else DaysBeforeYear(y - 1) + YearDays(y - 1)
  }

  /** Days in the months of year `y` before month `m`. */
  function DaysBeforeMonth(y: int, m: int): int
    requires 1 <= m <= 12
  {
    [0, 31, 59, 90, 120, 151, 181, 212, 243, 273, 304, 334][m - 1]
      + (if m > 2 && IsLeap(y) then 1 else 0)
  }

  /** `date.toordinal()`: the day number, counting 0001-01-01 as 1. */
  function ToOrdinal(d: Date): int
    requires Valid(d)
  {
    DaysBeforeYear(d.year) + DaysBeforeMonth(d.year, d.month) + d.day
  }

  // ---------------------------------------------------------------------
  // Ordinal facts
  // ---------------------------------------------------------------------

  /** A year has 366 days when it is a leap year and 365 otherwise. */
  lemma YearLength(y: int)
    requires y >= 1
    ensures DaysBeforeYear(y + 1) == DaysBeforeYear(y) + (if IsLeap(y) then 366 else 365)
  {
  }

  /** The year count agrees with the closed form `365 * p + p / 4 - p / 100
      + p / 400` for `p = y - 1`, the days before year `y` in `datetime`. */
  lemma {:induction false} DaysBeforeYearClosedForm(y: int)
    requires y >= 1
    ensures var p := y - 1; DaysBeforeYear(y) == 365 * p + p / 4 - p / 100 + p / 400
    decreases y
  {
    if y > 1 {
      DaysBeforeYearClosedForm(y - 1);
      DivStep4(y - 1);
      DivStep100(y - 1);
      DivStep400(y - 1);
      DivisorChain(y - 1);
    }
  }

  /** Every multiple of 400 is a multiple of 100, and every multiple of 100
      a multiple of 4. */
  lemma DivisorChain(y: int)
    ensures y % 400 == 0 ==> y % 100 == 0
    ensures y % 100 == 0 ==> y % 4 == 0
  {
    if y % 400 == 0 {
      var k := y / 400;
      assert y == 400 * k;
      assert y / 100 == 4 * k;
    }
    if y % 100 == 0 {
      var k := y / 100;
      assert y == 100 * k;
      assert y / 4 == 25 * k;
    }
  }

  // Going from `y - 1` to `y` adds one to `y / k` exactly when `k` divides `y`.

  lemma DivStep4(y: int)
    requires y >= 1
    ensures y / 4 == (y - 1) / 4 + (if y % 4 == 0 then 1 else 0)
  {
    var q, r := (y - 1) / 4, (y - 1) % 4;
    assert y == 4 * q + r + 1;
  }

  lemma DivStep100(y: int)
    requires y >= 1
    ensures y / 100 == (y - 1) / 100 + (if y % 100 == 0 then 1 else 0)
  {
    var q, r := (y - 1) / 100, (y - 1) % 100;
    assert y == 100 * q + r + 1;
  }

  lemma DivStep400(y: int)
    requires y >= 1
    ensures y / 400 == (y - 1) / 400 + (if y % 400 == 0 then 1 else 0)
  {
    var q, r := (y - 1) / 400, (y - 1) % 400;
    assert y == 400 * q + r + 1;
  }

  /** Each month's days follow on from the months before it. */
  lemma MonthStep(y: int, m: int)
    requires 1 <= m < 12
    ensures DaysBeforeMonth(y, m + 1) == DaysBeforeMonth(y, m) + DaysInMonth(y, m)
  {
  }

  /** The last month ends the year. */
  lemma DecemberEndsYear(y: int)
    requires y >= 1
    ensures DaysBeforeMonth(y, 12) + DaysInMonth(y, 12) == (if IsLeap(y) then 366 else 365)
  {
  }

  /** `DaysBeforeYear` grows with the year. */
  lemma {:induction false} DaysBeforeYearMonotone(y: int, z: int)
    requires 1 <= y <= z
    ensures DaysBeforeYear(y) + 365 * (z - y) <= DaysBeforeYear(z)
    decreases z - y
  {
    if y < z {
      YearLength(y);
      DaysBeforeYearMonotone(y + 1, z);
    }
  }

  /** A date's ordinal lies within its own year. */
  lemma OrdinalInYear(d: Date)
    requires Valid(d)
    ensures DaysBeforeYear(d.year) < ToOrdinal(d) <= DaysBeforeYear(d.year + 1)
  {
    YearLength(d.year);
    DecemberEndsYear(d.year);
    MonthWithinYear(d.year, d.month);
  }

  /** The months up to and including `m` fit in the year. */
  lemma MonthWithinYear(y: int, m: int)
    requires y >= 1 && 1 <= m <= 12
    ensures DaysBeforeMonth(y, m) + DaysInMonth(y, m) <= (if IsLeap(y) then 366 else 365)
  {
  }

  /** Year 9999 starts after 3651694 days. */
  lemma LastYearStart(y: int)
    requires y == MaxYear
    ensures DaysBeforeYear(y) == 3651694
  {
    DaysBeforeYearClosedForm(y);
  }

  /** The ordinals of valid dates are exactly 1..MaxOrdinal, with the first
      and the last date at the ends. */
  lemma OrdinalBounds(d: Date)
    requires Valid(d)
    ensures 1 <= ToOrdinal(d) <= MaxOrdinal
    ensures ToOrdinal(d) == 1 <==> d == Date(1, 1, 1)
    ensures ToOrdinal(d) == MaxOrdinal <==> d == Date(MaxYear, 12, 31)
  {
    OrdinalRange(d);
    OrdinalFirst(d);
    OrdinalLast(d);
  }

  /** Every valid date has an ordinal in 1..MaxOrdinal. */
  lemma OrdinalRange(d: Date)
    requires Valid(d)
    ensures 1 <= ToOrdinal(d) <= MaxOrdinal
  {
    OrdinalInYear(d);
    DaysBeforeYearMonotone(1, d.year);
    var last := MaxYear;
    LastYearStart(last);
    if d.year < last {
      DaysBeforeYearMonotone(d.year + 1, last);
    }
  }

  /** Ordinal 1 is 0001-01-01 and no other date. */
  lemma OrdinalFirst(d: Date)
    requires Valid(d)
    ensures ToOrdinal(d) == 1 <==> d == Date(1, 1, 1)
  {
    if d.year > 1 {
      DaysBeforeYearMonotone(1, d.year);
    }
  }

  /** Ordinal MaxOrdinal is 9999-12-31 and no other date. */
  lemma OrdinalLast(d: Date)
    requires Valid(d)
    ensures ToOrdinal(d) == MaxOrdinal <==> d == Date(MaxYear, 12, 31)
  {
    OrdinalInYear(d);
    var last := MaxYear;
    LastYearStart(last);
    if d.year < last {
      DaysBeforeYearMonotone(d.year + 1, last);
    } else if d.month < 12 {
      MonthsApart(d.year, d.month, 12);
    }
  }

  /** Two valid dates with the same ordinal are the same date. */
  lemma OrdinalInjective(d: Date, e: Date)
    requires Valid(d) && Valid(e)
    requires ToOrdinal(d) == ToOrdinal(e)
    ensures d == e
  {
    OrdinalInYear(d);
    OrdinalInYear(e);
    if d.year < e.year {
      DaysBeforeYearMonotone(d.year + 1, e.year);
    } else if e.year < d.year {
      DaysBeforeYearMonotone(e.year + 1, d.year);
    }
    assert d.year == e.year;
    if d.month != e.month {
      var (a, b) := if d.month < e.month then (d, e) else (e, d);
      MonthsApart(a.year, a.month, b.month);
    }
  }

  /** A day of an earlier month precedes every day of a later month. */
  lemma {:induction false} MonthsApart(y: int, m: int, n: int)
    requires 1 <= m < n <= 12
    ensures DaysBeforeMonth(y, m) + DaysInMonth(y, m) <= DaysBeforeMonth(y, n)
    decreases n - m
  {
    MonthStep(y, m);
    if m + 1 < n {
      MonthsApart(y, m + 1, n);
    }
  }

  // ---------------------------------------------------------------------
  // Day steps
  // ---------------------------------------------------------------------

  /** The following day. */
  function NextDay(d: Date): (r: Date)
    requires Valid(d) && d != Date(MaxYear, 12, 31)
    ensures Valid(r) && ToOrdinal(r) == ToOrdinal(d) + 1
  {
    if d.day < DaysInMonth(d.year, d.month) then Date(d.year, d.month, d.day + 1)
    else if d.month < 12 then
      MonthStep(d.year, d.month);
      Date(d.year, d.month + 1, 1)
    else
      YearLength(d.year);
      DecemberEndsYear(d.year);
      Date(d.year + 1, 1, 1)
  }

  /** The preceding day. */
  function PrevDay(d: Date): (r: Date)
    requires Valid(d) && d != Date(1, 1, 1)
    ensures Valid(r) && ToOrdinal(r) == ToOrdinal(d) - 1
  {
    if d.day > 1 then Date(d.year, d.month, d.day - 1)
    else if d.month > 1 then
      MonthStep(d.year, d.month - 1);
      Date(d.year, d.month - 1, DaysInMonth(d.year, d.month - 1))
    else
      YearLength(d.year - 1);
      DecemberEndsYear(d.year - 1);
      Date(d.year - 1, 12, 31)
  }

  /** The date `n` days after `d` (before it when `n` is negative), taken one
      day at a time; the walk stops at the first and the last date of the
      calendar, which `PlusDays` never walks past (see `AddDaysOrdinal`). */
  function AddDays(d: Date, n: int): (r: Date)
    requires Valid(d)
    ensures Valid(r)
    decreases if n >= 0 then n else -n
  {
    if n == 0 then d
    else if n > 0 then (if d == Date(MaxYear, 12, 31) then d else AddDays(NextDay(d), n - 1))
    else (if d == Date(1, 1, 1) then d else AddDays(PrevDay(d), n + 1))
  }

  /** Within the calendar, walking `n` days adds `n` to the ordinal. */
  lemma AddDaysOrdinal(d: Date, n: int)
    requires Valid(d) && 1 <= ToOrdinal(d) + n <= MaxOrdinal
    ensures ToOrdinal(AddDays(d, n)) == ToOrdinal(d) + n
  {
    if n >= 0 {
      ForwardOrdinal(d, n);
    } else {
      BackwardOrdinal(d, -n as nat);
    }
  }

  /** Walking forward `n` days adds `n` to the ordinal. */
  lemma {:induction false} ForwardOrdinal(d: Date, n: nat)
    requires Valid(d) && ToOrdinal(d) + n <= MaxOrdinal
    ensures ToOrdinal(AddDays(d, n)) == ToOrdinal(d) + n
    decreases n
  {
    if n > 0 {
      OrdinalBounds(d);
      var e := NextDay(d);
      assert AddDays(d, n) == AddDays(e, n - 1);
      ForwardOrdinal(e, n - 1);
    }
  }

  /** Walking back `n` days takes `n` from the ordinal. */
  lemma {:induction false} BackwardOrdinal(d: Date, n: nat)
    requires Valid(d) && 1 <= ToOrdinal(d) - n
    ensures ToOrdinal(AddDays(d, -(n as int))) == ToOrdinal(d) - n
    decreases n
  {
    if n > 0 {
      OrdinalBounds(d);
      var e := PrevDay(d);
      assert AddDays(d, -(n as int)) == AddDays(e, -((n - 1) as int));
      BackwardOrdinal(e, n - 1);
    }
  }

  /** `date + timedelta(days=n)`: `OverflowError` when the result would fall
      outside years 1..9999 (this includes every `n` that `timedelta` itself
      rejects, those beyond 999999999 days). */
  function PlusDays(d: Date, n: int): (r: Result<Date, DateError>)
    requires Valid(d)
    ensures r.Success? <==> 1 <= ToOrdinal(d) + n <= MaxOrdinal
    ensures r.Success? ==> Valid(r.value) && ToOrdinal(r.value) == ToOrdinal(d) + n
    ensures r.Failure? ==> r.error == OverflowError
  {
    if 1 <= ToOrdinal(d) + n <= MaxOrdinal then
      AddDaysOrdinal(d, n);
      Success(AddDays(d, n))
    else Failure(OverflowError)
  }

  /** Adding days is the same as adding them in two parts. */
  lemma PlusDaysTwice(d: Date, m: int, n: int)
    requires Valid(d)
    requires PlusDays(d, m).Success?
    ensures PlusDays(PlusDays(d, m).value, n) == PlusDays(d, m + n)
  {
    var e := PlusDays(d, m).value;
    if PlusDays(e, n).Success? {
      OrdinalInjective(PlusDays(e, n).value, PlusDays(d, m + n).value);
    }
  }

  // ---------------------------------------------------------------------
  // The month step
  // ---------------------------------------------------------------------

  /** The number of the month, counted from January of year 0. */
  function MonthIndex(d: Date): int {
    12 * d.year + d.month - 1
  }

  /** `date + relativedelta(months=1)`: the same day of the next month,
      moving December to January of the next year and clamping the day to
      the length of the new month; `ValueError` when that is year 10000. */
  function AddOneMonth(d: Date): (r: Result<Date, DateError>)
    requires Valid(d)
    ensures r.Failure? <==> d.year == MaxYear && d.month == 12
    ensures r.Failure? ==> r.error == ValueError("year 10000 is out of range")
    ensures r.Success? ==> Valid(r.value) && MonthIndex(r.value) == MonthIndex(d) + 1
    ensures r.Success? ==>
      r.value.day == if d.day <= DaysInMonth(r.value.year, r.value.month) then d.day
                     else DaysInMonth(r.value.year, r.value.month)
  {
    var (y, m) := if d.month == 12 then (d.year + 1, 1) else (d.year, d.month + 1);
    var days := DaysInMonth(y, m);
    if y > MaxYear then Failure(ValueError("year 10000 is out of range"))
    else Success(Date(y, m, if d.day < days then d.day else days))
  }

  /** A day that every month has is kept by the month step. */
  lemma AddOneMonthKeepsSmallDay(d: Date)
    requires Valid(d) && d.day <= 28
    requires AddOneMonth(d).Success?
    ensures AddOneMonth(d).value.day == d.day
  {
  }

  // ---------------------------------------------------------------------
  // Rendering and reading `YYYY-MM-DD`
  // ---------------------------------------------------------------------

  function DigitChar(n: int): char
    requires 0 <= n < 10
  {
    (48 + n) as char
  }

  /** `n` written with exactly `width` decimal digits, zero-padded. */
  function Digits(n: nat, width: nat): (s: string)
    ensures |s| == width
    ensures forall i :: 0 <= i < width ==> IsDigit(s[i])
  {
    if width == 0 then "" else Digits(n / 10, width - 1) + [DigitChar(n % 10)]
  }

  /** The number a string of decimal digits denotes. */
  function Number(s: string): nat
    requires forall i :: 0 <= i < |s| ==> IsDigit(s[i])
  {
    if s == [] then 0 else 10 * Number(s[..|s| - 1]) + DigitValue(s[|s| - 1])
  }

  /** Ten to the power `k`. */
  function Power10(k: nat): nat {
    if k == 0 then 1 else 10 * Power10(k - 1)
  }

  /** Reading back `width` digits gives the number, when it fits. */
  lemma {:induction false} NumberDigits(n: nat, width: nat)
    requires n < Power10(width)
    ensures Number(Digits(n, width)) == n
  {
    if width > 0 {
      var s := Digits(n, width);
      assert s[..|s| - 1] == Digits(n / 10, width - 1);
      NumberDigits(n / 10, width - 1);
    }
  }

  /** Writing a digit string's number back with as many digits gives the
      string again. */
  lemma {:induction false} DigitsNumber(s: string)
    requires forall i :: 0 <= i < |s| ==> IsDigit(s[i])
    ensures Digits(Number(s), |s|) == s
  {
    if s != [] {
      var init := s[..|s| - 1];
      DigitsNumber(init);
      var n := Number(s);
      assert n / 10 == Number(init) && n % 10 == DigitValue(s[|s| - 1]);
    }
  }

  /** `str(date)`: `YYYY-MM-DD`. */
  function FormatDate(d: Date): (s: string)
    requires Valid(d)
    ensures |s| == 10 && s[4] == '-' && s[7] == '-'
  {
    Digits(d.year, 4) + "-" + Digits(d.month, 2) + "-" + Digits(d.day, 2)
  }

  /** Reads `YYYY-MM-DD` back; `None` for anything else or an invalid date. */
  function ParseIsoDate(s: string): Option<Date> {
    if |s| == 10 && s[4] == '-' && s[7] == '-'
       && (forall i :: 0 <= i < 10 && i != 4 && i != 7 ==> IsDigit(s[i]))
    then
      var d := Date(Number(s[..4]), Number(s[5..7]), Number(s[8..]));
      if Valid(d) then Some(d) else None
    else None
  }

  /** Reading a rendered date gives the date back. */
  lemma ParseFormat(d: Date)
    requires Valid(d)
    ensures ParseIsoDate(FormatDate(d)) == Some(d)
  {
    var s := FormatDate(d);
    var y, m, dd := Digits(d.year, 4), Digits(d.month, 2), Digits(d.day, 2);
    assert s == y + "-" + m + "-" + dd;
    assert s[..4] == y && s[5..7] == m && s[8..] == dd;
    assert Power10(4) == 10000 && Power10(2) == 100;
    NumberDigits(d.year, 4);
    NumberDigits(d.month, 2);
    NumberDigits(d.day, 2);
    forall i | 0 <= i < 10 && i != 4 && i != 7 ensures IsDigit(s[i]) {
      if i < 4 {
        assert s[i] == y[i];
      } else if i < 7 {
        assert s[i] == m[i - 5];
      } else {
        assert s[i] == dd[i - 8];
      }
    }
  }

  /** A string that reads as a date is that date's rendering. */
  lemma FormatParse(s: string)
    requires ParseIsoDate(s).Some?
    ensures FormatDate(ParseIsoDate(s).value) == s
  {
    var d := ParseIsoDate(s).value;
    DigitsNumber(s[..4]);
    DigitsNumber(s[5..7]);
    DigitsNumber(s[8..]);
    assert s == s[..4] + "-" + s[5..7] + "-" + s[8..];
  }
}
