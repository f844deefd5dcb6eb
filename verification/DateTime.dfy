/** Date and time: a Julian day number and the milliseconds since midnight. */
module DateTimes {
  import opened Calendar

  const SECONDS_PER_DAY := 86400
  const MILLIS_PER_SEC := 1000
  const MILLIS_PER_DAY := 86400000
  const JULIAN_19700101 := 2440588

  /** Division and remainder as in C, where the quotient is cut towards zero. */
  function TruncDiv(x: int, k: int): int
    requires k > 0
  {
    if x >= 0 then x / k else -(-x / k)
  }

  function TruncMod(x: int, k: int): int
    requires k > 0
  {
    x - k * TruncDiv(x, k)
  }

  /** A time of day. */
  datatype Clock = Clock(hour: int, minute: int, second: int, millis: int)

  predicate IsClock(c: Clock) {
    0 <= c.hour < 24 && 0 <= c.minute < 60 && 0 <= c.second < 60 && 0 <= c.millis < 1000
  }

  function MakeHms(c: Clock): int {
    MILLIS_PER_SEC * (3600 * c.hour + 60 * c.minute + c.second) + c.millis
  }

  function GetHms(time: nat): Clock {
    var ticks := time / MILLIS_PER_SEC;
    Clock(ticks / 3600, (ticks / 60) % 60, ticks % 60, time % MILLIS_PER_SEC)
  }

  lemma ClockRoundTrip(c: Clock)
    requires IsClock(c)
    ensures 0 <= MakeHms(c) < MILLIS_PER_DAY && GetHms(MakeHms(c)) == c
  {
    var ticks := 3600 * c.hour + 60 * c.minute + c.second;
    assert MakeHms(c) / 1000 == ticks && MakeHms(c) % 1000 == c.millis;
    assert ticks / 3600 == c.hour;
    assert ticks / 60 == 60 * c.hour + c.minute;
    assert (60 * c.hour + c.minute) % 60 == c.minute;
  }

  lemma TimeRoundTrip(time: nat)
    requires time < MILLIS_PER_DAY
    ensures IsClock(GetHms(time)) && MakeHms(GetHms(time)) == time
  {
    var ticks := time / 1000;
    assert ticks == 60 * (ticks / 60) + ticks % 60;
    assert ticks / 60 == 60 * (ticks / 3600) + (ticks / 60) % 60;
  }

  lemma SecondsOf(c: Clock)
    requires IsClock(c)
    ensures 0 <= MakeHms(c) < MILLIS_PER_DAY && MakeHms(c) / MILLIS_PER_SEC == 3600 * c.hour + 60 * c.minute + c.second
    ensures MakeHms(c) % MILLIS_PER_SEC == c.millis
  {
  }

  /** The epoch of time_t. */
  lemma EpochIs()
    ensures Julian(Date(1970, 1, 1)) == JULIAN_19700101
  {
  }

  /** Years and months are added first; a day that the month then does not have becomes the
      last of the month. */
  function AddMonths(d: Date, years: int, months: int): (r: Date)
    requires IsDate(d)
    ensures IsDate(r)
    ensures 12 * r.year + r.month == 12 * (d.year + years) + d.month + months
    ensures r.day == if d.day > DaysIn(r.year, r.month) then DaysIn(r.year, r.month) else d.day
  {
    var m := d.month + months;
    var y, m' := d.year + years + (m - 1) / 12, (m - 1) % 12 + 1;
    Date(y, m', if d.day > DaysIn(y, m') then DaysIn(y, m') else d.day)
  }

  /** The month that the code comes to is from January on. */
  predicate MonthsStay(d: Date, months: int) {
    TruncMod(d.month + months - 1, 12) >= 0
  }

  function CutTo28(day: int): int {
    if day > 28 then 28 else day
  }

  /** Month and year of the code, when no remainder is negative, are those of AddMonths. */
  lemma MonthsFrom(d: Date, years: int, months: int)
    requires InDomain(d) && MonthsStay(d, months)
    ensures var y, m := d.year + years + TruncDiv(d.month + months - 1, 12), TruncMod(d.month + months - 1, 12) + 1;
      && 1 <= m <= 12
      && AddMonths(d, years, months) == Date(y, m, if d.day > DaysIn(y, m) then DaysIn(y, m) else d.day)
    ensures d.day >= 1 && (years == 0 && months == 0 ==> AddMonths(d, years, months) == d)
  {
    TruncIs(d.month + months - 1);
  }

  lemma TruncIs(x: int)
    ensures TruncMod(x, 12) >= 0 ==> TruncDiv(x, 12) == x / 12 && TruncMod(x, 12) == x % 12
  {
  }

  /** Months before January are taken to have 28 days. */
  function MaxDayInMonthFor(year: int, month: int): (n: int)
    ensures 1 <= month <= 12 ==> n == DaysIn(year, month)
    ensures n >= 28
  {
    var m := TruncMod(month - 1, 12) + 1;
    if m >= 1 then DaysIn(year, m) else 28
  }

  /** A month before January of a year is one of the year before. */
  lemma MonthOfYearBefore(year: int, month: int, day: int)
    requires -11 <= month <= 0
    ensures JulianDate(year, month, day) == JulianDate(year - 1, month + 12, day)
  {
  }

  /** Otherwise the month is one of the year before, of 28 days. */
  lemma MonthsBeforeJanuary(d: Date, years: int, months: int)
    requires InDomain(d) && !MonthsStay(d, months)
    ensures var y, m := d.year + years + TruncDiv(d.month + months - 1, 12), TruncMod(d.month + months - 1, 12) + 1;
      && -10 <= m <= 0 && MaxDayInMonthFor(y, m) == 28
      && var start := AddMonths(d, years, months);
         && JulianDate(y, m, CutTo28(d.day)) == Julian(start) + CutTo28(d.day) - start.day
         && CutTo28(start.day) == CutTo28(d.day) && d.day >= 1
  {
    hide JulianDate;
    var x := d.month + months - 1;
    BeforeIs(x);
    var y, m := d.year + years + TruncDiv(x, 12), TruncMod(x, 12) + 1;
    MonthOfYearBefore(y, m, CutTo28(d.day));
    assert 12 * (y - 1) + m + 12 == 12 * (d.year + years) + d.month + months;
    var start := AddMonths(d, years, months);
    OneMonth(start.year, start.month, y - 1, m + 12);
    DayOfMonth(start.year, start.month, CutTo28(d.day));
    DayOfMonth(start.year, start.month, start.day);
  }

  lemma NoMonths(d: Date)
    requires InDomain(d)
    ensures MonthsStay(d, 0) && AddMonths(d, 0, 0) == d
  {
  }

  lemma BeforeIs(x: int)
    requires TruncMod(x, 12) < 0
    ensures -11 <= TruncMod(x, 12) && x == 12 * TruncDiv(x, 12) + TruncMod(x, 12)
    ensures TruncMod(TruncMod(x, 12), 12) == TruncMod(x, 12)
  {
  }

  lemma OneMonth(y: int, m: int, y': int, m': int)
    requires 12 * y + m == 12 * y' + m' && 1 <= m <= 12 && 1 <= m' <= 12
    ensures y == y' && m == m'
  {
  }

  /** The month after begins as many days later as the month has. */
  lemma MonthStart(year: int, month: int)
    requires 1 <= month <= 12 && InDomain(Date(year, month, 1))
    ensures var y, m := year + month / 12, month % 12 + 1;
      InDomain(Date(y, m, 1)) && JulianDate(y, m, 1) == JulianDate(year, month, 1) + DaysIn(year, month)
  {
    hide JulianDate;
    DayOfMonth(year, month, DaysIn(year, month));
    NextDayIsNextNumber(Date(year, month, DaysIn(year, month)));
  }

  lemma DayOfMonth(year: int, month: int, day: int)
    ensures JulianDate(year, month, day) == JulianDate(year, month, 1) + day - 1
  {
  }

  /** How many days the added time of day comes to. */
  function HourCarry(c: Clock, hours: int, minutes: int, seconds: int): int {
    TruncDiv(c.hour + hours + TruncDiv(c.minute + minutes + TruncDiv(c.second + seconds, 60), 60), 24)
  }

  lemma SecondsIn(time: int)
    ensures time >= 0 ==> TruncDiv(time, MILLIS_PER_SEC) == time / MILLIS_PER_SEC
    ensures time % MILLIS_PER_SEC == 0 ==> MILLIS_PER_SEC * TruncDiv(time, MILLIS_PER_SEC) == time
  {
  }

  lemma MillisOf(c: Clock)
    requires -24 < c.hour < 24 && -60 < c.minute < 60 && -60 < c.second < 60 && c.millis == 0
    ensures MakeHms(c) == MILLIS_PER_SEC * (3600 * c.hour + 60 * c.minute + c.second) && MakeHms(c) % MILLIS_PER_SEC == 0
    ensures -MILLIS_PER_DAY < MakeHms(c) < MILLIS_PER_DAY
    ensures c.hour >= 0 && c.minute >= 0 && c.second >= 0 ==> MakeHms(c) >= 0
  {
  }

  /** The day before 1 January comes out as 28 December, and a month before 31 January as well: the
      December reached from January of the same year has 28 days. */
  lemma BeforeJanuary(year: int)
    ensures MaxDayInMonthFor(year, 0) == 28
    ensures JulianDate(year, 0, 28) == JulianDate(year - 1, 12, 28) == JulianDate(year, 1, 1) - 4
    ensures TruncMod(1 - 1 - 1, 12) + 1 == 0
  {
  }

  // ---- the walk from month to month ---------------------------------------------------------------

  /** The first day of a month; months from -10 on are those of the year before. */
  function First(year: int, month: int): int {
    JulianDate(year, month, 1)
  }

  function MonthBefore(year: int, month: int): (int, int) {
    (year + TruncDiv(month - 2, 12), TruncMod(month - 2, 12) + 1)
  }

  /** Going back by so many days never leads out of the domain of the computations. */
  predicate WalkInDomain(year: int, month: int, day: int) {
    && InDomain(Date(year, month, 1))
    && (day < 1 ==> year > -4800 && 28 * (12 * (year + 4800) + month - 4) >= 1 - day)
  }

  /** Where the walk from a day of a month has come to. */
  predicate Walks(year: int, month: int, day: int, y: int, m: int, d: int) {
    && -10 <= m <= 12
    && (day >= 1 ==>
          && m >= 1 && d >= 1 && InDomain(Date(y, m, 1))
          && First(y, m) + d == First(year, month) + day)
    && (day < 1 ==>
          && y <= year && d <= MaxDayInMonthFor(y, m)
          && d - day >= 28 * (12 * year + month - 12 * y - m)
          && if y == year && m >= 1 then First(y, m) + d == First(year, month) + day
             else First(y, m) + d < First(year, month) + day <= First(year, 1))
  }

  lemma Remainders(y: int, m: int)
    requires -10 <= m <= 12
    ensures var (y', m') := MonthBefore(y, m);
      && y' == y + TruncDiv(m - 2, 12) && m' == TruncMod(m - 2, 12) + 1
      && -10 <= m' <= 12 && MaxDayInMonthFor(y', m') == MaxDayInMonthFor(y, m - 1) >= 28
    ensures -10 <= TruncMod(m, 12) + 1 <= 12
  {
    MonthBeforeIs(y, m);
    if m == -10 { January(y - 1); }
  }

  lemma WalkBegins(year: int, month: int, day: int)
    requires 1 <= month <= 12 && WalkInDomain(year, month, day)
    ensures Walks(year, month, day, year, month, day)
  {
  }

  /** What the remainders make of the month before. */
  lemma MonthBeforeIs(y: int, m: int)
    requires -10 <= m <= 12
    ensures MonthBefore(y, m) == if m == -10 then (y - 1, 1) else (y, m - 1)
    ensures MaxDayInMonthFor(y, m - 1)
         == if m >= 2 then DaysIn(y, m - 1) else if m == -10 then 31 else 28
  {
  }

  lemma FirstBefore(y: int, m: int)
    requires 2 <= m <= 12 && 12 * y + m - 1 >= 3 - 12 * 4800
    ensures First(y, m - 1) + DaysIn(y, m - 1) == First(y, m)
  {
    hide JulianDate, DaysIn;
    MonthStart(y, m - 1);
  }

  lemma FirstOfYear(y: int)
    requires 12 * y >= 3 - 12 * 4800
    ensures First(y, 0) + 31 == First(y, 1)
  {
    hide JulianDate;
    MonthStart(y - 1, 12);
    MonthOfYearBefore(y, 0, 1);
  }

  lemma FirstOfYearBefore(y: int, m: int)
    requires -10 <= m <= 0 && 12 * y + m - 1 >= 3 - 12 * 4800
    ensures First(y, m) == First(y - 1, m + 12) && (m > -10 ==> First(y, m - 1) == First(y - 1, m + 11))
  {
    hide JulianDate;
    MonthOfYearBefore(y, m, 1);
    if m > -10 { MonthOfYearBefore(y, m - 1, 1); }
  }

  /** A step back within a year is exact; that from January, and others before it, take no more days than
      the month has. */
  lemma StepBack(y: int, m: int)
    requires -10 <= m <= 12 && 12 * y + m - 1 >= 3 - 12 * 4800
    ensures var (y', m') := MonthBefore(y, m);
      && -10 <= m' <= 12 && 12 * y' + m' == 12 * y + m - 1 && y' <= y && (m >= 2 ==> y' == y && m' == m - 1)
      && (m == 1 ==> y' == y && m' == 0) && MaxDayInMonthFor(y', m') == MaxDayInMonthFor(y, m - 1)
      && First(y', m') + MaxDayInMonthFor(y, m - 1) <= First(y, m)
      && (m >= 2 ==> First(y', m') + MaxDayInMonthFor(y, m - 1) == First(y, m))
      && (m == 1 ==> First(y', m') + MaxDayInMonthFor(y, m - 1) < First(y, m))
  {
    hide First, MaxDayInMonthFor, MonthBefore;
    MonthBeforeIs(y, m);
    if m >= 2 {
      FirstBefore(y, m);
    } else if m == 1 {
      FirstOfYear(y);
    } else {
      FirstOfYearBefore(y, m);
      FirstBefore(y - 1, m + 12);
      if m == -10 { January(y - 1); }
    }
  }

  lemma January(y: int)
    ensures MaxDayInMonthFor(y, 1) == 31 && DaysIn(y, 1) == 31
  {
  }

  lemma WalksBack(year: int, month: int, day: int, y: int, m: int, d: int)
    requires 1 <= month <= 12 && WalkInDomain(year, month, day) && Walks(year, month, day, y, m, d) && d < 1
    ensures var (y', m') := MonthBefore(y, m);
      Walks(year, month, day, y', m', d + MaxDayInMonthFor(y, m - 1))
  {
    hide First, MaxDayInMonthFor, MonthBefore;
    StepBack(y, m);
  }

  lemma WalksOn(year: int, month: int, day: int, y: int, m: int, d: int)
    requires 1 <= month <= 12 && WalkInDomain(year, month, day) && Walks(year, month, day, y, m, d)
    requires d > MaxDayInMonthFor(y, m) && d >= 1
    ensures Walks(year, month, day, y + TruncDiv(m, 12), TruncMod(m, 12) + 1, d - MaxDayInMonthFor(y, m))
  {
    hide JulianDate;
    MonthStart(y, m);
    TruncIs(m);
  }

  lemma WalkEnds(year: int, month: int, day: int, y: int, m: int, d: int)
    requires 1 <= month <= 12 && WalkInDomain(year, month, day) && Walks(year, month, day, y, m, d)
    requires 1 <= d <= MaxDayInMonthFor(y, m)
    ensures var found, target := JulianDate(y, m, d), First(year, month) + day - 1;
      && found <= target && (found == target <==> day >= 1 || target >= First(year, 1))
      && (day >= 1 ==> InDomain(Date(y, m, d)))
  {
    hide JulianDate;
    DayOfMonth(y, m, d);
    if day < 1 && y == year && m > 1 {
      EarlierIsSmaller(Date(year, 1, 1), Date(year, m, 1));
    }
  }

  class DateTime {
    var mDate: int
    var mTime: int

    constructor (date: int, time: int)
      ensures mDate == date && mTime == time
    {
      mDate, mTime := date, time;
    }

    predicate Normal()
      reads this
    {
      mDate >= -32044 && 0 <= mTime < MILLIS_PER_DAY
    }

    /** Milliseconds since the beginning of day 0. */
    function Total(): int
      reads this
    {
      mDate * MILLIS_PER_DAY + mTime
    }

    function ToTimeT(): int
      reads this
    {
      SECONDS_PER_DAY * (mDate - JULIAN_19700101) + TruncDiv(mTime, MILLIS_PER_SEC)
    }

    /** operator+=.  The time is moved exactly; but where the time of day comes to a full day
        it is left so, and the day is not begun. */
    method AddSeconds(seconds: int)
      requires 0 <= mTime < MILLIS_PER_DAY
      modifies this
      ensures Total() == old(Total()) + MILLIS_PER_SEC * seconds
      ensures 0 <= mTime <= MILLIS_PER_DAY
      ensures mTime < MILLIS_PER_DAY <==> old(mTime) + MILLIS_PER_SEC * TruncMod(seconds, SECONDS_PER_DAY) != MILLIS_PER_DAY
    {
      var d, s := TruncDiv(seconds, SECONDS_PER_DAY), TruncMod(seconds, SECONDS_PER_DAY);
      mDate := mDate + d;
      mTime := mTime + s * MILLIS_PER_SEC;
      if mTime > MILLIS_PER_DAY {
        mDate := mDate + 1;
        mTime := mTime % MILLIS_PER_DAY;
      } else if mTime < 0 {
        mDate := mDate - 1;
        mTime := mTime + MILLIS_PER_DAY;
      }
    }

    /** add_duration_date_time; `was` is the date of `mDate`.  The time is added exactly, and the date is
        exact unless the days lead back beyond January of the year. */
    method AddDuration(years: int, months: int, days: int, hours: int, minutes: int, seconds: int, ghost was: Date)
      requires Normal() && InDomain(was) && Julian(was) == mDate
      requires MonthsStay(was, months) ==>
        var start, carry := AddMonths(was, years, months), HourCarry(GetHms(mTime), hours, minutes, seconds);
        WalkInDomain(start.year, start.month, start.day + days + carry)
      modifies this
      ensures var carry := HourCarry(GetHms(old(mTime)), hours, minutes, seconds);
        && mTime % MILLIS_PER_SEC == 0 && -MILLIS_PER_DAY < mTime < MILLIS_PER_DAY
        && (hours >= 0 && minutes >= 0 && seconds >= 0 ==> mTime >= 0)
        && MILLIS_PER_DAY * carry + mTime == MILLIS_PER_SEC * (old(mTime) / MILLIS_PER_SEC + 3600 * hours + 60 * minutes + seconds)
        && var start := AddMonths(was, years, months);
           var target := Julian(start) + days + carry;
           && (if MonthsStay(was, months) then
                 mDate <= target && (mDate == target <==> start.day + days + carry >= 1 || target >= JulianDate(start.year, 1, 1))
               else
                 1 <= CutTo28(was.day) + days + carry <= 28 ==> (mDate == target <==> start.day <= 28))
           && (years == 0 && months == 0 ==>
                 (ToTimeT() == old(ToTimeT()) + SECONDS_PER_DAY * days + 3600 * hours + 60 * minutes + seconds <==> mDate == target))
    {
      hide JulianDate, GetYmd, GetHms, MakeHms, AddMonths, DaysIn, HourCarry, WalkInDomain, TruncMod, TruncDiv;
      var date, clock := GetYmd(mDate), GetHms(mTime);
      DateRoundTrip(was);
      TimeRoundTrip(mTime);
      SecondsOf(clock);
      var eClock, carryHour := AddClock(clock, hours, minutes, seconds);
      MillisOf(eClock);
      SecondsIn(mTime);
      NoMonths(was);
      mDate := AddDate(date, years, months, days + carryHour);
      mTime := MakeHms(eClock);
      SecondsIn(mTime);
    }

    /** The part of the computation that deals with the date. */
    static method AddDate(date: Date, years: int, months: int, days: int) returns (jday: int)
      requires InDomain(date)
      requires MonthsStay(date, months) ==>
        var start := AddMonths(date, years, months); WalkInDomain(start.year, start.month, start.day + days)
      ensures var start := AddMonths(date, years, months); var target := Julian(start) + days;
        if MonthsStay(date, months) then
          jday <= target && (jday == target <==> start.day + days >= 1 || target >= JulianDate(start.year, 1, 1))
        else
          1 <= CutTo28(date.day) + days <= 28 ==> (jday == target <==> start.day <= 28)
    {
      hide JulianDate, DaysIn, AddMonths, InDomain, WalkInDomain, TruncMod, TruncDiv, MaxDayInMonthFor;
      var tmpMonth := date.month + months;
      var eMonth, carryMonth := TruncMod(tmpMonth - 1, 12) + 1, TruncDiv(tmpMonth - 1, 12);
      var eYear := date.year + years + carryMonth;
      if MonthsStay(date, months) { MonthsFrom(date, years, months); } else { MonthsBeforeJanuary(date, years, months); }
      var tmpDay := date.day;
      if date.day > MaxDayInMonthFor(eYear, eMonth) {
        tmpDay := MaxDayInMonthFor(eYear, eMonth);
      } else if date.day < 1 {
        tmpDay := 1;
      }
      DayOfMonth(eYear, eMonth, tmpDay);
      var eDay;
      eYear, eMonth, eDay := SettleDay(eYear, eMonth, tmpDay + days);
      DayOfMonth(eYear, eMonth, eDay);
      jday := JulianDate(eYear, eMonth, eDay);
    }

    /** Seconds, minutes and hours with their carries; the milliseconds are dropped. */
    static method AddClock(c: Clock, hours: int, minutes: int, seconds: int) returns (r: Clock, carryHour: int)
      requires IsClock(c)
      ensures carryHour == HourCarry(c, hours, minutes, seconds)
      ensures -24 < r.hour < 24 && -60 < r.minute < 60 && -60 < r.second < 60 && r.millis == 0
      ensures hours >= 0 && minutes >= 0 && seconds >= 0 ==> r.hour >= 0 && r.minute >= 0 && r.second >= 0
      ensures SECONDS_PER_DAY * carryHour + 3600 * r.hour + 60 * r.minute + r.second
           == 3600 * c.hour + 60 * c.minute + c.second + 3600 * hours + 60 * minutes + seconds
    {
      var tmpSec := c.second + seconds;
      var eSec, carrySec := TruncMod(tmpSec, 60), TruncDiv(tmpSec, 60);
      var tmpMin := c.minute + minutes + carrySec;
      var eMin, carryMin := TruncMod(tmpMin, 60), TruncDiv(tmpMin, 60);
      var tmpHour := c.hour + hours + carryMin;
      r := Clock(TruncMod(tmpHour, 24), eMin, eSec, 0);
      carryHour := TruncDiv(tmpHour, 24);
    }

    /** The loop that carries days into months.  Backwards it is exact as far as January of the year;
        beyond, it takes months for shorter than they are. */
    static method SettleDay(year: int, month: int, day: int) returns (eYear: int, eMonth: int, eDay: int)
      requires -10 <= month <= 12 && (month >= 1 ==> WalkInDomain(year, month, day))
      ensures month >= 1 ==>
        var found, target := JulianDate(eYear, eMonth, eDay), JulianDate(year, month, 1) + day - 1;
        && found <= target && (found == target <==> day >= 1 || target >= JulianDate(year, 1, 1))
        && (day >= 1 ==> InDomain(Date(eYear, eMonth, eDay)))
      ensures 1 <= day <= MaxDayInMonthFor(year, month) ==> (eYear, eMonth, eDay) == (year, month, day)
    {
      hide JulianDate, DaysIn, WalkInDomain, InDomain, MaxDayInMonthFor, Walks, TruncDiv, TruncMod, MonthBefore;
      eYear, eMonth, eDay := year, month, day;
      if month >= 1 { WalkBegins(year, month, day); }
      while true
        invariant -10 <= eMonth <= 12
        invariant if day >= 1 then eDay >= 1 else eDay <= MaxDayInMonthFor(eYear, eMonth)
        invariant month >= 1 ==> Walks(year, month, day, eYear, eMonth, eDay)
        invariant 1 <= day <= MaxDayInMonthFor(year, month) ==> (eYear, eMonth, eDay) == (year, month, day)
        decreases if eDay < 1 then 1 - eDay else 0, if eDay < 1 then 0 else eDay
      {
        Remainders(eYear, eMonth);
        var carryDay;
        if eDay < 1 {
          if month >= 1 { WalksBack(year, month, day, eYear, eMonth, eDay); }
          eDay := eDay + MaxDayInMonthFor(eYear, eMonth - 1);
          carryDay := -1;
        } else if eDay > MaxDayInMonthFor(eYear, eMonth) {
          if month >= 1 { WalksOn(year, month, day, eYear, eMonth, eDay); }
          eDay := eDay - MaxDayInMonthFor(eYear, eMonth);
          carryDay := 1;
        } else {
          break;
        }
        var tmpMonth := eMonth + carryDay;
        eMonth, eYear := TruncMod(tmpMonth - 1, 12) + 1, eYear + TruncDiv(tmpMonth - 1, 12);
      }
      if month >= 1 { WalkEnds(year, month, day, eYear, eMonth, eDay); }
    }
  }
}
