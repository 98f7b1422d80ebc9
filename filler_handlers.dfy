/** `plus_days_from_now` (src/handlers/filler_handlers.py): the five dates
    the filler writes, from today's date and the day offsets of the mono
    settings. The clock is not read: "today" is a parameter. */
module FillerHandlers {
  import opened Wrappers
  import opened Calendar

  /** `MonoDatesModel`: the four day offsets. */
  datatype MonoDates = MonoDates(date1: int, date2: int, date3: int, std: int)

  /** `DatesModel`: the five dates, rendered as `YYYY-MM-DD`. */
  datatype DatesModel = DatesModel(date1: string, date2: string, date3: string, std: string, nextStd: string)

  /** The value `datetime.today()` returns: a date and a time of day. */
  datatype DateTime = DateTime(date: Date, hour: int, minute: int, second: int, microsecond: int)

  /** `plus_days_from_now`: `datetime + timedelta(days=n)` moves only the
      date when `n` is a whole number of days, and `.date()` drops the time
      of day, so the dates follow from today's date alone. */
  function PlusDaysFromNow(settings: MonoDates, today: DateTime): (r: Result<DatesModel, DateError>)
    requires Valid(today.date)
    ensures r.Failure? ==> r.error == OverflowError || r.error == ValueError("year 10000 is out of range")
    ensures r.Success? ==> AllIsoShaped(r.value)
  {
    DatesFrom(settings, today.date)
  }

  /** The three offset dates and `std`, each `today` plus its offset, and
      `next_std`, one calendar month after `std`. The first step to fail
      decides the error. */
  function DatesFrom(settings: MonoDates, today: Date): (r: Result<DatesModel, DateError>)
    requires Valid(today)
    ensures r.Failure? ==> r.error == OverflowError || r.error == ValueError("year 10000 is out of range")
    ensures r.Success? ==> AllIsoShaped(r.value)
  {
    var date1 :- PlusDays(today, settings.date1);
    var date2 :- PlusDays(today, settings.date2);
    var date3 :- PlusDays(today, settings.date3);
    var std :- PlusDays(today, settings.std);
    var nextStd :- AddOneMonth(std);
    Success(DatesModel(FormatDate(date1), FormatDate(date2), FormatDate(date3), FormatDate(std), FormatDate(nextStd)))
  }

  /** Ten characters with dashes at positions 4 and 7, as `YYYY-MM-DD`. */
  predicate IsoShaped(s: string) {
    |s| == 10 && s[4] == '-' && s[7] == '-'
  }

  /** Every field of the result has the `YYYY-MM-DD` shape. */
  predicate AllIsoShaped(m: DatesModel) {
    IsoShaped(m.date1) && IsoShaped(m.date2) && IsoShaped(m.date3) && IsoShaped(m.std) && IsoShaped(m.nextStd)
  }

  /** Two moments of the same day give the same dates: the time of day is
      dropped by `.date()`. */
  lemma TimeOfDayIgnored(settings: MonoDates, a: DateTime, b: DateTime)
    requires Valid(a.date) && a.date == b.date
    ensures PlusDaysFromNow(settings, a) == PlusDaysFromNow(settings, b)
  {
  }

  /** Each offset field names the date that many days after today, and
      `next_std` the date one calendar month after `std`. */
  lemma PlusDaysFromNowDates(settings: MonoDates, today: DateTime)
    requires Valid(today.date)
    ensures var r := PlusDaysFromNow(settings, today);
      r.Success? ==> && OffsetBy(r.value.date1, today.date, settings.date1)
                     && OffsetBy(r.value.date2, today.date, settings.date2)
                     && OffsetBy(r.value.date3, today.date, settings.date3)
                     && OffsetBy(r.value.std, today.date, settings.std)
                     && MonthAfter(r.value.nextStd, r.value.std)
  {
    var d := today.date;
    if PlusDaysFromNow(settings, today).Success? {
      var date1, date2, date3, std := PlusDays(d, settings.date1).value, PlusDays(d, settings.date2).value,
        PlusDays(d, settings.date3).value, PlusDays(d, settings.std).value;
      var nextStd := AddOneMonth(std).value;
      ParseFormat(date1);
      ParseFormat(date2);
      ParseFormat(date3);
      ParseFormat(std);
      ParseFormat(nextStd);
    }
  }

  /** `s` is the `YYYY-MM-DD` rendering of the date `n` days after `d`. */
  predicate OffsetBy(s: string, d: Date, n: int)
    requires Valid(d)
  {
    ParseIsoDate(s).Some? && ToOrdinal(ParseIsoDate(s).value) == ToOrdinal(d) + n
  }

  /** `s` is the rendering of the date one calendar month after the date `t`
      renders: the next month, with the day clamped to that month's length. */
  predicate MonthAfter(s: string, t: string) {
    && ParseIsoDate(s).Some? && ParseIsoDate(t).Some?
    && var next, prev := ParseIsoDate(s).value, ParseIsoDate(t).value;
       && MonthIndex(next) == MonthIndex(prev) + 1
       && next.day == if prev.day <= DaysInMonth(next.year, next.month) then prev.day
                      else DaysInMonth(next.year, next.month)
  }

  /** The dates fail to exist exactly when an offset leaves years 1..9999
      (`OverflowError`), or `std` falls in December 9999 so that the month
      step reaches year 10000 (`ValueError`). */
  lemma PlusDaysFromNowFailsIff(settings: MonoDates, today: DateTime)
    requires Valid(today.date)
    ensures var o := ToOrdinal(today.date);
      PlusDaysFromNow(settings, today).Failure? <==>
        || !(1 <= o + settings.date1 <= MaxOrdinal)
        || !(1 <= o + settings.date2 <= MaxOrdinal)
        || !(1 <= o + settings.date3 <= MaxOrdinal)
        || !(1 <= o + settings.std <= MaxOrdinal)
        || var std := PlusDays(today.date, settings.std).value;
           std.year == MaxYear && std.month == 12
  {
  }

  /** 2024-01-15 with offsets 1, 2, 3 and 16 gives 2024-01-16, -17 and -18,
      `std` 2024-01-31 and, clamped to the leap February, 2024-02-29. */
  lemma Example()
    ensures PlusDaysFromNow(MonoDates(1, 2, 3, 16), DateTime(Date(2024, 1, 15), 9, 30, 0, 0))
      == Success(DatesModel("2024-01-16", "2024-01-17", "2024-01-18", "2024-01-31", "2024-02-29"))
  {
    var today := Date(2024, 1, 15);
    SameOrdinalStep(today, 1, Date(2024, 1, 16));
    SameOrdinalStep(today, 2, Date(2024, 1, 17));
    SameOrdinalStep(today, 3, Date(2024, 1, 18));
    SameOrdinalStep(today, 16, Date(2024, 1, 31));
    assert AddOneMonth(Date(2024, 1, 31)) == Success(Date(2024, 2, 29));
    FormatExamples();
  }

  lemma FormatExamples()
    ensures FormatDate(Date(2024, 1, 16)) == "2024-01-16"
    ensures FormatDate(Date(2024, 1, 17)) == "2024-01-17"
    ensures FormatDate(Date(2024, 1, 18)) == "2024-01-18"
    ensures FormatDate(Date(2024, 1, 31)) == "2024-01-31"
    ensures FormatDate(Date(2024, 2, 29)) == "2024-02-29"
  {
    YearDigits();
    DayDigits();
  }

  lemma YearDigits()
    ensures Digits(2024, 4) == "2024"
  {
  }

  lemma DayDigits()
    ensures Digits(1, 2) == "01" && Digits(2, 2) == "02"
    ensures Digits(16, 2) == "16" && Digits(17, 2) == "17" && Digits(18, 2) == "18"
    ensures Digits(31, 2) == "31" && Digits(29, 2) == "29"
  {
  }

  /** The day step lands on the date with the expected ordinal. */
  lemma SameOrdinalStep(d: Date, n: int, e: Date)
    requires Valid(d) && Valid(e)
    requires ToOrdinal(e) == ToOrdinal(d) + n
    ensures PlusDays(d, n) == Success(e)
  {
    OrdinalBounds(e);
    OrdinalInjective(PlusDays(d, n).value, e);
  }
}
