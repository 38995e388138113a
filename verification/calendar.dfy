/**
 Gregorian calendar conversion: the closed form of tst_mktime and the
 estimate-and-correct loops of tst_rtc_time_to_tm, both measured against counting
 days one at a time from 1970-01-01.
 */
module Calendar {

  const INT_MAX := 0x7fff_ffff
  const U32 := 0x1_0000_0000

  /** A month runs from 1 to 12. */
  datatype Date = Date(year: int, month: int, day: int)

  /** struct rtc_time: months from 0, years from 1900. */
  datatype RtcTime = RtcTime(sec: int, min: int, hour: int, mday: int, mon: int,
                             year: int, wday: int, yday: int, isdst: int)

  predicate IsLeap(year: int) {
    (year % 4 == 0 && year % 100 != 0) || year % 400 == 0
  }

  /** rtc_month_days; here the month runs from 0 to 11. */
  function MonthDays(month: int, year: int): int
    requires 0 <= month < 12
  {
    [31, 28, 31, 30, 31, 30, 31, 31, 30, 31, 30, 31][month] + if IsLeap(year) && month == 1 then 1 else 0
  }

  function LeapsThrough(year: int): int {
    year / 4 - year / 100 + year / 400
  }

  ghost predicate Valid(d: Date) {
    1 <= d.month <= 12 && 1 <= d.day <= MonthDays(d.month - 1, d.year)
  }

  // ----- The reference: the day after, over and over -----

  function Next(d: Date): Date
    requires Valid(d)
  {
    if d.day < MonthDays(d.month - 1, d.year) then d.(day := d.day + 1)
    else if d.month < 12 then Date(d.year, d.month + 1, 1)
    else Date(d.year + 1, 1, 1)
  }

  ghost function DateAfter(days: nat): (d: Date)
    ensures Valid(d) && d.year >= 1970
  {
    if days == 0 then Date(1970, 1, 1) else Next(DateAfter(days - 1))
  }

  ghost predicate Before(d: Date, e: Date) {
    || d.year < e.year
    || (d.year == e.year && d.month < e.month)
    || (d.year == e.year && d.month == e.month && d.day < e.day)
  }

  // ----- tst_mktime -----

  /** The day count of the closed form, in 32-bit unsigned pieces added as long long. */
  function ClosedDays(year0: int, month0: int, day: int): int {
    var early := month0 - 2 <= 0;
    var month := if early then month0 + 10 else month0 - 2;
    var year := if early then year0 - 1 else year0;
    (year / 4 - year / 100 + year / 400 + 367 * month / 12 + day) % U32 + year * 365 % U32 - 719499
  }

  function MkTime(year: int, month: int, day: int, hour: int, min: int, sec: int): int {
    ((ClosedDays(year, month, day) * 24 + hour) * 60 + min) * 60 + sec
  }

  function TmToTime(tm: RtcTime): int {
    MkTime(tm.year + 1900, tm.mon + 1, tm.mday, tm.hour, tm.min, tm.sec)
  }

  /** The closed form without the 32-bit wrap. */
  function Days(d: Date): int {
    var month := if d.month <= 2 then d.month + 10 else d.month - 2;
    var year := if d.month <= 2 then d.year - 1 else d.year;
    LeapsThrough(year) + 367 * month / 12 + d.day + year * 365 - 719499
  }

  lemma DivStep(n: int, k: int)
    requires k > 0
    ensures n / k == (n - 1) / k + if n % k == 0 then 1 else 0
  {
    var q, r := n / k, n % k;
    assert n == q * k + r;
    if r == 0 {
      DivUnique(n - 1, k, q - 1, k - 1);
    } else {
      DivUnique(n - 1, k, q, r - 1);
    }
  }

  lemma DivUnique(n: int, k: int, q: int, r: int)
    requires k > 0 && 0 <= r < k && n == q * k + r
    ensures n / k == q && n % k == r
  {
    var d := n / k - q;
    assert d * k == r - n % k;
    assert d >= 1 ==> d * k >= k;
    assert d <= -1 ==> d * k <= -k;
  }

  lemma Multiples(n: int)
    ensures n % 400 == 0 ==> n % 100 == 0
    ensures n % 100 == 0 ==> n % 4 == 0
  {
  }

  lemma LeapStep(year: int)
    ensures LeapsThrough(year) == LeapsThrough(year - 1) + if IsLeap(year) then 1 else 0
  {
    DivStep(year, 4);
    DivStep(year, 100);
    DivStep(year, 400);
    Multiples(year);
  }

  /** The month part of the closed form, counted from March. */
  lemma MonthTerm(month: int)
    requires 1 <= month <= 12
    ensures 367 * month / 12 == [30, 61, 91, 122, 152, 183, 214, 244, 275, 305, 336, 367][month - 1]
  {
  }

  lemma DaysNext(d: Date)
    requires Valid(d)
    ensures Days(Next(d)) == Days(d) + 1
  {
    LeapStep(d.year);
    MonthTerm(if d.month <= 2 then d.month + 10 else d.month - 2);
    var e := Next(d);
    MonthTerm(if e.month <= 2 then e.month + 10 else e.month - 2);
  }

  /** Grows by one from day to day. */
  ghost predicate StepsByOne(f: Date -> int) {
    forall x :: Valid(x) ==> f(Next(x)) == f(x) + 1
  }

  lemma DaysStepByOne()
    ensures StepsByOne(Days)
  {
    forall x | Valid(x) ensures Days(Next(x)) == Days(x) + 1 {
      DaysNext(x);
    }
  }

  lemma {:induction false} StepCount(f: Date -> int, n: nat)
    requires StepsByOne(f)
    ensures f(DateAfter(n)) == f(Date(1970, 1, 1)) + n
  {
    if n > 0 {
      StepCount(f, n - 1);
    }
  }

  /** The closed form counts days one by one. */
  lemma DaysCount(n: nat)
    ensures Days(DateAfter(n)) == n
  {
    DaysStepByOne();
    StepCount(Days, n);
  }

  function Spread(d: Date): int {
    d.year * 372 + d.month * 31 + d.day
  }

  lemma NextIsLeast(d: Date, e: Date)
    requires Valid(d) && Valid(e) && Before(d, e)
    ensures Next(d) == e || Before(Next(d), e)
  {
  }

  /** Anything that grows by one from day to day is strictly monotone in the order of dates. */
  lemma {:induction false} StepMonotone(f: Date -> int, d: Date, e: Date)
    requires StepsByOne(f)
    requires Valid(d) && Valid(e) && Before(d, e)
    ensures f(d) < f(e)
    decreases Spread(e) - Spread(d)
  {
    NextIsLeast(d, e);
    if Next(d) != e {
      StepMonotone(f, Next(d), e);
    }
  }

  /** The closed form is strictly monotone in the order of dates. */
  lemma DaysMonotone(d: Date, e: Date)
    requires Valid(d) && Valid(e) && Before(d, e)
    ensures Days(d) < Days(e)
  {
    DaysStepByOne();
    StepMonotone(Days, d, e);
  }

  /** Every date from 1970 on is reached by counting, after as many days as the closed form says. */
  lemma DaysInverse(d: Date)
    requires Valid(d) && d.year >= 1970
    ensures Days(d) >= 0 && DateAfter(Days(d)) == d
  {
    var epoch := Date(1970, 1, 1);
    if d != epoch {
      DaysMonotone(epoch, d);
    }
    var n: nat := Days(d);
    var e := DateAfter(n);
    DaysCount(n);
    if Before(d, e) {
      DaysMonotone(d, e);
    } else if Before(e, d) {
      DaysMonotone(e, d);
    }
  }

  /**
   tst_mktime is the number of days counted from 1970-01-01 exactly as long as 365 times
   the (shifted) year fits 32 bits; beyond that the product wraps and it is wrong.
   */
  lemma ClosedDaysExact(d: Date)
    requires Valid(d) && 1970 <= d.year < U32
    ensures var year := if d.month <= 2 then d.year - 1 else d.year;
      ClosedDays(d.year, d.month, d.day) == Days(d) <==> year * 365 < U32
  {
    var year := if d.month <= 2 then d.year - 1 else d.year;
    var month := if d.month <= 2 then d.month + 10 else d.month - 2;
    LeapsSmall(year);
    MonthTerm(month);
    TwoWraps(LeapsThrough(year) + 367 * month / 12 + d.day, year * 365);
  }

  lemma TwoWraps(x: nat, y: nat)
    requires x < U32
    ensures x % U32 + y % U32 == x + y <==> y < U32
  {
  }

  lemma LeapsSmall(year: int)
    requires 0 <= year < U32
    ensures 0 <= LeapsThrough(year) <= year
  {
  }

  lemma WrapsTooLate()
    ensures Valid(Date(11767034, 3, 1))
    ensures ClosedDays(11767034, 3, 1) == Days(Date(11767034, 3, 1)) - U32
  {
  }

  // ----- tst_rtc_time_to_tm -----

  function YearDays(year: int): int {
    365 + if IsLeap(year) then 1 else 0
  }

  /** Days from 1970-01-01 to the first of January of `year`. */
  function YearStart(year: int): (days: nat)
    ensures year > 1970 ==> days >= 365
  {
    if year <= 1970 then 0 else YearStart(year - 1) + YearDays(year - 1)
  }

  /** The day count the first estimate subtracts. */
  lemma {:induction false} YearStartClosed(year: int)
    requires year >= 1970
    ensures YearStart(year) == (year - 1970) * 365 + LeapsThrough(year - 1) - LeapsThrough(1970 - 1)
    decreases year
  {
    if year > 1970 {
      YearStartClosed(year - 1);
      LeapStep(year - 1);
    }
  }

  function MonthStart(month: int, year: int): (days: int)
    requires 0 <= month < 12
    ensures days == [0, 31, 59, 90, 120, 151, 181, 212, 243, 273, 304, 334][month]
                    + if IsLeap(year) && month >= 2 then 1 else 0
  {
    if month == 0 then 0 else MonthStart(month - 1, year) + MonthDays(month - 1, year)
  }

  lemma MonthStep(year: int, month: int, day: int)
    requires 1 <= month < 12
    ensures Days(Date(year, month + 1, day)) == Days(Date(year, month, day)) + MonthDays(month - 1, year)
  {
    LeapStep(year);
    MonthTerm(if month <= 2 then month + 10 else month - 2);
    MonthTerm(if month + 1 <= 2 then month + 11 else month - 1);
  }

  /** Anything that grows by the length of each month splits into year and month. */
  lemma {:induction false} MonthsAdd(f: Date -> int, year: int, month: int, day: int)
    requires 0 <= month < 12
    requires forall m :: 1 <= m < 12 ==> f(Date(year, m + 1, day)) == f(Date(year, m, day)) + MonthDays(m - 1, year)
    ensures f(Date(year, month + 1, day)) == f(Date(year, 1, day)) + MonthStart(month, year)
    decreases month
  {
    if month > 0 {
      MonthsAdd(f, year, month - 1, day);
    }
  }

  lemma JanuaryTerm(year: int, day: int)
    ensures Days(Date(year, 1, day)) == LeapsThrough(year - 1) + 336 + day + (year - 1) * 365 - 719499
  {
    MonthTerm(11);
  }

  lemma JanuarySum(days: int, start: int, leaps: int, year: int, day: int)
    requires days == leaps + 336 + day + (year - 1) * 365 - 719499
    requires start == (year - 1970) * 365 + leaps - 477
    ensures days == start + day - 1
  {
  }

  lemma LeapsBefore1970(start: int, years: int, leaps: int)
    requires start == years + leaps - LeapsThrough(1970 - 1)
    ensures start == years + leaps - 477
  {
  }

  lemma DaysJanuary(year: int, day: int)
    requires year >= 1970
    ensures Days(Date(year, 1, day)) == YearStart(year) + day - 1
  {
    YearStartClosed(year);
    LeapsBefore1970(YearStart(year), (year - 1970) * 365, LeapsThrough(year - 1));
    JanuaryTerm(year, day);
    JanuarySum(Days(Date(year, 1, day)), YearStart(year), LeapsThrough(year - 1), year, day);
  }

  lemma DaysSplit(year: int, month: int, day: int)
    requires year >= 1970 && 0 <= month < 12
    ensures Days(Date(year, month + 1, day)) == YearStart(year) + MonthStart(month, year) + day - 1
  {
    forall m | 1 <= m < 12
      ensures Days(Date(year, m + 1, day)) == Days(Date(year, m, day)) + MonthDays(m - 1, year)
    {
      MonthStep(year, m, day);
    }
    DaysJanuary(year, day);
    MonthsAdd(Days, year, month, day);
  }

  /** What the fields of an rtc_time may be. */
  ghost predicate InRange(tm: RtcTime) {
    && 0 <= tm.sec < 60 && 0 <= tm.min < 60 && 0 <= tm.hour < 24
    && 0 <= tm.mon < 12 && tm.year >= 70
    && 1 <= tm.mday <= MonthDays(tm.mon, tm.year + 1900)
    && 1 <= tm.yday <= YearDays(tm.year + 1900)
    && tm.isdst == 0
  }

  ghost function DateOf(tm: RtcTime): Date {
    Date(tm.year + 1900, tm.mon + 1, tm.mday)
  }

  /** The first guess is never too early. */
  lemma {:induction false} GuessTooLate(years: nat)
    ensures YearStart(1970 + years) >= years * 365
  {
    if years > 0 {
      GuessTooLate(years - 1);
    }
  }

  /** Splitting off hours, minutes and seconds loses nothing. */
  lemma TmTime(tm: RtcTime, time: nat)
    requires InRange(tm) && Days(DateOf(tm)) == time / 86400 <= INT_MAX
    requires tm.hour * 3600 + tm.min * 60 + tm.sec == time % 86400
    ensures TmToTime(tm) == time
  {
    FitsInt(DateOf(tm));
    ClosedDaysExact(DateOf(tm));
  }

  // ----- The weekday -----

  /** Sunday is 0; 1970-01-01 was a Thursday. */
  ghost function WeekdayAfter(days: nat): int {
    if days == 0 then 4
    else
      var before := WeekdayAfter(days - 1);
      if before == 6 then 0 else before + 1
  }

  lemma WeekStep(n: nat)
    ensures (n + 1) % 7 == if n % 7 == 6 then 0 else n % 7 + 1
  {
  }

  lemma {:induction false} WeekdayCount(days: nat)
    ensures WeekdayAfter(days) == (days + 4) % 7
  {
    if days > 0 {
      WeekdayCount(days - 1);
      WeekStep(days + 3);
    }
  }

  /** The sum of two ints, wrapped around. */
  function IntSum(x: int, y: int): int {
    if x + y > INT_MAX then x + y - U32 else x + y
  }

  /** The C remainder takes the sign of its first operand. */
  function Remainder(x: int, k: int): int
    requires k > 0
  {
    if x >= 0 then x % k else -(-x % k)
  }

  /** (days + 4) % 7 on ints */
  function Weekday(days: int): int {
    Remainder(IntSum(days, 4), 7)
  }

  /** The weekday is right exactly until four days before the day count runs out. */
  lemma WeekdayExactly(days: nat)
    requires days <= INT_MAX
    ensures Weekday(days) == WeekdayAfter(days) <==> days <= INT_MAX - 4
    ensures days <= INT_MAX - 4 ==> 0 <= Weekday(days) < 7
  {
    WeekdayCount(days);
    if days > INT_MAX - 4 {
      var last := INT_MAX - days;
      assert last == 0 || last == 1 || last == 2 || last == 3;
    }
  }

  /** On the last day the sum wraps and the field is not even in range. */
  lemma LastWeekday(time: int, days: nat)
    requires time == INT_MAX * 86400 && days == time / 86400
    ensures Weekday(days) == -6 && WeekdayAfter(days) == 5
  {
    WeekdayCount(days);
    assert days == INT_MAX;
  }

  /** The fields tst_rtc_time_to_tm is to produce, the weekday aside. */
  ghost predicate Describes(tm: RtcTime, time: nat) {
    && InRange(tm)
    && DateOf(tm) == DateAfter(time / 86400)
    && tm.yday == time / 86400 - YearStart(tm.year + 1900) + 1
    && tm.hour * 3600 + tm.min * 60 + tm.sec == time % 86400
  }

  function Clock(secs: int): (int, int, int) {
    (secs / 3600, (secs - secs / 3600 * 3600) / 60, (secs - secs / 3600 * 3600) - (secs - secs / 3600 * 3600) / 60 * 60)
  }

  lemma FieldsInRange(tm: RtcTime, secs: int)
    requires tm.year >= 70 && 0 <= tm.mon < 12 && 1 <= tm.mday <= MonthDays(tm.mon, tm.year + 1900) && tm.isdst == 0
    requires tm.yday == MonthStart(tm.mon, tm.year + 1900) + tm.mday
    requires 0 <= secs < 86400 && (tm.hour, tm.min, tm.sec) == Clock(secs)
    ensures InRange(tm) && tm.hour * 3600 + tm.min * 60 + tm.sec == secs
  {
  }

  lemma DateFound(tm: RtcTime, n: nat)
    requires tm.year >= 70 && 0 <= tm.mon < 12 && 1 <= tm.mday <= MonthDays(tm.mon, tm.year + 1900) && tm.isdst == 0
    requires tm.yday == MonthStart(tm.mon, tm.year + 1900) + tm.mday
    requires YearStart(tm.year + 1900) + tm.yday - 1 == n
    ensures Days(DateOf(tm)) == n && DateOf(tm) == DateAfter(n)
  {
    DaysSplit(tm.year + 1900, tm.mon, tm.mday);
    ByDate(DateOf(tm), n);
  }

  lemma Assembled(tm: RtcTime, time: nat)
    requires tm.year >= 70 && 0 <= tm.mon < 12 && 1 <= tm.mday <= MonthDays(tm.mon, tm.year + 1900) && tm.isdst == 0
    requires tm.yday == MonthStart(tm.mon, tm.year + 1900) + tm.mday
    requires YearStart(tm.year + 1900) + tm.yday - 1 == time / 86400 <= INT_MAX
    requires (tm.hour, tm.min, tm.sec) == Clock(time % 86400)
    ensures Describes(tm, time) && TmToTime(tm) == time
  {
    FieldsInRange(tm, time % 86400);
    DateFound(tm, time / 86400);
    TmTime(tm, time);
  }

  /** The estimate and the loop that corrects it: the year of a day and the days before it in that year. */
  method FindYear(total: nat) returns (year: int, days: int)
    ensures year >= 1970 && YearStart(year) + days == total && 0 <= days < YearDays(year)
  {
    year := 1970 + total / 365;
    GuessTooLate(total / 365);
    YearStartClosed(year);
    days := total - ((year - 1970) * 365 + LeapsThrough(year - 1) - LeapsThrough(1970 - 1));
    while days < 0
      invariant year >= 1970
      invariant YearStart(year) + days == total
      invariant days < YearDays(year)
      decreases -days
    {
      year := year - 1;
      days := days + 365 + if IsLeap(year) then 1 else 0;
    }
  }

  /** The month of a day in its year and the days before it in that month. */
  method FindMonth(year: int, yday: nat) returns (month: int, days: int)
    requires yday < YearDays(year)
    ensures 0 <= month < 12 && 0 <= days < MonthDays(month, year) && MonthStart(month, year) + days == yday
  {
    month, days := 0, yday;
    while month < 11
      invariant 0 <= month <= 11
      invariant 0 <= days
      invariant MonthStart(month, year) + days == yday
    {
      var newdays := days - MonthDays(month, year);
      if newdays < 0 {
        break;
      }
      days := newdays;
      month := month + 1;
    }
  }

  method TimeToTm(time: int) returns (tm: RtcTime)
    requires 0 <= time && time / 86400 <= INT_MAX
    ensures Describes(tm, time)
    ensures TmToTime(tm) == time
    ensures tm.wday == WeekdayAfter(time / 86400) <==> time / 86400 <= INT_MAX - 4
  {
    var days := time / 86400;
    var secs := time % 86400;
    WeekdayExactly(days);
    var wday := Weekday(days);
    var year, before := FindYear(days);
    var yday := before + 1;
    var month, left := FindMonth(year, before);
    var hour := secs / 3600;
    secs := secs - hour * 3600;
    var min := secs / 60;
    tm := RtcTime(secs - min * 60, min, hour, left + 1, month, year - 1900, wday, yday, 0);
    Assembled(tm, time);
  }

  lemma ByDate(d: Date, n: nat)
    requires Valid(d) && d.year >= 1970 && Days(d) == n
    ensures d == DateAfter(n)
  {
    DaysInverse(d);
  }

  /** A day count that fits an int belongs to a year the closed form can handle. */
  lemma FitsInt(d: Date)
    requires Valid(d) && d.year >= 1970 && Days(d) <= INT_MAX
    ensures d.year * 365 < U32
  {
  }

  lemma SecondsSplit(tm: RtcTime)
    requires InRange(tm) && Days(DateOf(tm)) <= INT_MAX
    ensures var secs := tm.hour * 3600 + tm.min * 60 + tm.sec;
      && 0 <= secs < 86400
      && TmToTime(tm) == Days(DateOf(tm)) * 86400 + secs
  {
    FitsInt(DateOf(tm));
    ClosedDaysExact(DateOf(tm));
  }

  lemma ClockUnique(h: int, m: int, s: int, h': int, m': int, s': int)
    requires 0 <= m < 60 && 0 <= s < 60 && 0 <= m' < 60 && 0 <= s' < 60
    requires h * 3600 + m * 60 + s == h' * 3600 + m' * 60 + s'
    ensures h == h' && m == m' && s == s'
  {
  }

  /**
   The other round trip: from the time of any valid date and time of day the conversion
   recovers every field it started from.
   */
  lemma TmRecovered(tm: RtcTime, tm': RtcTime)
    requires InRange(tm) && Days(DateOf(tm)) <= INT_MAX
    requires TmToTime(tm) >= 0 && Describes(tm', TmToTime(tm))
    ensures DateOf(tm') == DateOf(tm)
    ensures tm'.hour == tm.hour && tm'.min == tm.min && tm'.sec == tm.sec
  {
    SecondsSplit(tm);
    var secs := tm.hour * 3600 + tm.min * 60 + tm.sec;
    DaysInverse(DateOf(tm));
    DivUnique(TmToTime(tm), 86400, Days(DateOf(tm)), secs);
    ClockUnique(tm.hour, tm.min, tm.sec, tm'.hour, tm'.min, tm'.sec);
  }
}
