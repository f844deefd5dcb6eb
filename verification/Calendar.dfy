/** Julian day numbers and the Gregorian calendar. */
module Calendar {

  /** A date of the Gregorian calendar, extended to all years; year 0 is 1 BC. */
  datatype Date = Date(year: int, month: int, day: int)

  predicate IsLeap(year: int) {
    year % 4 == 0 && (year % 100 != 0 || year % 400 == 0)
  }

  function DaysIn(year: int, month: int): (n: int)
    requires 1 <= month <= 12
    ensures 28 <= n <= 31
  {
    if month in {4, 6, 9, 11} then 30
    else if month == 2 then (if IsLeap(year) then 29 else 28)
    else 31
  }

  predicate IsDate(d: Date) {
    1 <= d.month <= 12 && 1 <= d.day <= DaysIn(d.year, d.month)
  }

  /** The day after. */
  function NextDay(d: Date): (r: Date)
    requires IsDate(d)
    ensures IsDate(r)
  {
    if d.day < DaysIn(d.year, d.month) then d.(day := d.day + 1)
    else if d.month < 12 then Date(d.year, d.month + 1, 1)
    else Date(d.year + 1, 1, 1)
  }

  predicate Earlier(a: Date, b: Date) {
    a.year < b.year || (a.year == b.year && (a.month < b.month || (a.month == b.month && a.day < b.day)))
  }

  /** The computations are made for dates from 1 March of the year -4800 on: from there on no
      operand of a division is negative. */
  predicate InDomain(d: Date) {
    IsDate(d) && (d.year > -4800 || (d.year == -4800 && d.month >= 3))
  }

  function JulianDate(year: int, month: int, day: int): int {
    var a := (14 - month) / 12;
    var y := year + 4800 - a;
    var m := month + 12 * a - 3;
    day + (153 * m + 2) / 5 + y * 365 + y / 4 - y / 100 + y / 400 - 32045
  }

  function Julian(d: Date): int {
    JulianDate(d.year, d.month, d.day)
  }

  function GetYmd(jday: int): Date
    requires jday >= -32044
  {
    var a := jday + 32044;
    var b := (4 * a + 3) / 146097;
    var c := a - (b * 146097) / 4;
    var d := (4 * c + 3) / 1461;
    var e := c - (1461 * d) / 4;
    var m := (5 * e + 2) / 153;
    Date(b * 100 + d - 4800 + m / 10, m + 3 - 12 * (m / 10), e - (153 * m + 2) / 5 + 1)
  }

  // ---- the range of a 32-bit int -------------------------------------------------------------

  /** The last day that get_ymd can deal with. */
  const LAST_DAY := 536838867

  predicate FitsInt(x: int) { -0x8000_0000 <= x < 0x8000_0000 }

  /** No result within julian_date leaves the range of an int. */
  predicate JulianFits(d: Date) {
    var a := (14 - d.month) / 12;
    var y := d.year + 4800 - a;
    var m := d.month + 12 * a - 3;
    var sum := d.day + (153 * m + 2) / 5 + y * 365;
    && FitsInt(d.year + 4800) && FitsInt(y) && FitsInt(m) && FitsInt(153 * m + 2) && FitsInt(y * 365)
    && FitsInt(d.day + (153 * m + 2) / 5) && FitsInt(sum) && FitsInt(sum + y / 4) && FitsInt(sum + y / 4 - y / 100)
    && FitsInt(sum + y / 4 - y / 100 + y / 400) && FitsInt(sum + y / 4 - y / 100 + y / 400 - 32045)
  }

  /** No result within get_ymd leaves the range of an int. */
  predicate GetYmdFits(jday: int)
    requires jday >= -32044
  {
    var a := jday + 32044;
    var b := (4 * a + 3) / 146097;
    var c := a - (b * 146097) / 4;
    var d := (4 * c + 3) / 1461;
    var e := c - (1461 * d) / 4;
    var m := (5 * e + 2) / 153;
    && FitsInt(a) && FitsInt(4 * a) && FitsInt(4 * a + 3) && FitsInt(b * 146097) && FitsInt(c) && FitsInt(4 * c + 3)
    && FitsInt(1461 * d) && FitsInt(e) && FitsInt(5 * e + 2) && FitsInt(153 * m + 2) && FitsInt(e - (153 * m + 2) / 5 + 1)
    && FitsInt(m + 3) && FitsInt(12 * (m / 10)) && FitsInt(b * 100) && FitsInt(b * 100 + d) && FitsInt(b * 100 + d - 4800 + m / 10)
  }

  // ---- years that begin in March ----------------------------------------------------------

  /** Days from 1 March to the first of month `m` counted from March. */
  function DaysBefore(m: int): int { (153 * m + 2) / 5 }

  /** Days from 1 March of the year -4800 to 1 March of the year `y` after it. */
  function YearStart(y: int): int { 365 * y + y / 4 - y / 100 + y / 400 }

  /** The year that begins in March of year `y` after -4800 ends with a leap day. */
  predicate LongYear(y: int) { (y + 1) % 4 == 0 && ((y + 1) % 100 != 0 || (y + 1) % 400 == 0) }

  lemma YearLength(y: int)
    requires y >= 0
    ensures YearStart(y + 1) == YearStart(y) + if LongYear(y) then 366 else 365
  {
    CarryOf4(y);
    CarryOf100(y);
    CarryOf400(y);
  }

  lemma CarryOf4(y: int)
    requires y >= 0
    ensures (y + 1) / 4 == y / 4 + if (y + 1) % 4 == 0 then 1 else 0
  {
  }

  lemma CarryOf100(y: int)
    requires y >= 0
    ensures (y + 1) / 100 == y / 100 + if (y + 1) % 100 == 0 then 1 else 0
    ensures (y + 1) % 100 == 0 ==> (y + 1) % 4 == 0
  {
  }

  lemma CarryOf400(y: int)
    requires y >= 0
    ensures (y + 1) / 400 == y / 400 + if (y + 1) % 400 == 0 then 1 else 0
    ensures (y + 1) % 400 == 0 ==> (y + 1) % 100 == 0
  {
  }

  /** The month and day of a day of such a year. */
  lemma MonthOf(m: int, day: int, length: int)
    requires 0 <= m <= 11 && 1 <= day <= length
    requires length == if m in {1, 3, 6, 8} then 30 else if m == 11 then 29 else 31
    ensures (5 * (DaysBefore(m) + day - 1) + 2) / 153 == m
    ensures 0 <= DaysBefore(m) + day - 1 <= 365
  {
  }

  /** Every day of such a year lies in one month. */
  lemma MonthExists(e: int) returns (m: int)
    requires 0 <= e <= 365
    ensures m == (5 * e + 2) / 153 && 0 <= m <= 11
    ensures 0 <= e - DaysBefore(m) < if m in {1, 3, 6, 8} then 30 else if m == 11 then 29 else 31
    ensures m == 11 && e < 365 ==> e - DaysBefore(m) < 28
  {
    m := (5 * e + 2) / 153;
  }

  /** A year counted from -4800 in centuries and years of the century. */
  lemma YearStartByCentury(b: int, yy: int)
    requires b >= 0 && 0 <= yy < 100
    ensures YearStart(100 * b + yy) == (146097 * b) / 4 + (1461 * yy) / 4
  {
    assert (100 * b + yy) / 100 == b;
    assert (100 * b + yy) / 4 == 25 * b + yy / 4;
    assert (100 * b + yy) / 400 == b / 4;
    assert (146097 * b) / 4 == 36524 * b + b / 4;
    assert (1461 * yy) / 4 == 365 * yy + yy / 4;
  }

  /** The year of a day number, and the day in the year. */
  lemma YearOf(y: int, e: int)
    requires y >= 0 && 0 <= e <= (if LongYear(y) then 365 else 364)
    ensures var b, yy := y / 100, y % 100; var a := YearStart(y) + e;
      && a >= 0 && (4 * a + 3) / 146097 == b
      && var c := a - (b * 146097) / 4;
      && c == (1461 * yy) / 4 + e && (4 * c + 3) / 1461 == yy && c - (1461 * yy) / 4 == e
  {
    var b, yy := y / 100, y % 100;
    assert y == 100 * b + yy;
    YearStartByCentury(b, yy);
    var a, c := YearStart(y) + e, (1461 * yy) / 4 + e;
    assert a == (146097 * b) / 4 + c;
    DivideCycle(b, yy, e, c);
    assert b * 146097 == 146097 * b;
  }

  lemma DivideCycle(b: int, yy: int, e: int, c: int)
    requires b >= 0 && 0 <= yy < 100 && c == (1461 * yy) / 4 + e
    requires 0 <= e <= (if LongYear(100 * b + yy) then 365 else 364)
    ensures (4 * c + 3) / 1461 == yy
    ensures (4 * ((146097 * b) / 4 + c) + 3) / 146097 == b
  {
    FourYears(yy);
    FourCenturies(b);
    if e == 365 { LongYears(b, yy); }
    Divide1461(4 * c + 3, yy);
    Divide146097(4 * ((146097 * b) / 4 + c) + 3, b);
  }

  lemma FourYears(yy: int)
    ensures 4 * ((1461 * yy) / 4) == 1461 * yy - yy % 4
  {
  }

  lemma FourCenturies(b: int)
    ensures 4 * ((146097 * b) / 4) == 146097 * b - b % 4
  {
  }

  /** The last year of a century is long only at the end of a cycle. */
  lemma LongYears(b: int, yy: int)
    requires 0 <= yy < 100 && LongYear(100 * b + yy)
    ensures yy % 4 == 3 && (yy == 99 ==> b % 4 == 3)
  {
    CenturyMod4(b, yy + 1);
    CenturyMod400(b + 1);
  }

  lemma CenturyMod4(b: int, n: int)
    ensures (100 * b + n) % 4 == n % 4
  {
    assert 100 * b + n == 4 * (25 * b + n / 4) + n % 4;
    ModIs4(100 * b + n, 25 * b + n / 4, n % 4);
  }

  lemma ModIs4(x: int, q: int, r: int)
    requires x == 4 * q + r && 0 <= r < 4
    ensures x % 4 == r
  {
  }

  lemma CenturyMod400(b: int)
    ensures (100 * b) % 100 == 0
    ensures (100 * b) % 400 == 100 * (b % 4)
  {
  }

  lemma Divide1461(x: int, q: int)
    requires 1461 * q <= x < 1461 * (q + 1)
    ensures x / 1461 == q
  {
  }

  lemma Divide146097(x: int, q: int)
    requires 146097 * q <= x < 146097 * (q + 1)
    ensures x / 146097 == q
  {
  }

  // ---- the two conversions -------------------------------------------------------------------

  /** A date as year, month and day counted from March. */
  lemma FromMarch(d: Date) returns (y: int, m: int)
    requires InDomain(d)
    ensures y >= 0 && 0 <= m <= 11
    ensures d.month == (if m < 10 then m + 3 else m - 9) && d.year == y - 4800 + (if m < 10 then 0 else 1)
    ensures Julian(d) == YearStart(y) + DaysBefore(m) + d.day - 1 - 32044
    ensures DaysIn(d.year, d.month) == if m in {1, 3, 6, 8} then 30 else if m == 11 then (if LongYear(y) then 29 else 28) else 31
  {
    var a := (14 - d.month) / 12;
    assert a == if d.month <= 2 then 1 else 0;
    y, m := d.year + 4800 - a, d.month + 12 * a - 3;
    if d.month == 2 { LeapShift(d.year); }
  }

  lemma LeapShift(year: int)
    requires year >= -4799
    ensures IsLeap(year) <==> LongYear(year + 4799)
  {
    ShiftBy4(year);
    ShiftBy100(year);
    ShiftBy400(year);
  }

  lemma ShiftBy4(year: int)
    ensures (year + 4800) % 4 == year % 4
  {
  }

  lemma ShiftBy100(year: int)
    ensures (year + 4800) % 100 == year % 100
  {
  }

  lemma ShiftBy400(year: int)
    ensures (year + 4800) % 400 == year % 400
  {
  }

  lemma DayInYear(d: Date, y: int, m: int)
    requires InDomain(d) && y >= 0 && 0 <= m <= 11
    requires d.month == (if m < 10 then m + 3 else m - 9)
    requires DaysIn(d.year, d.month) == if m in {1, 3, 6, 8} then 30 else if m == 11 then (if LongYear(y) then 29 else 28) else 31
    ensures 0 <= DaysBefore(m) + d.day - 1 <= if LongYear(y) then 365 else 364
    ensures (5 * (DaysBefore(m) + d.day - 1) + 2) / 153 == m
  {
    MonthOf(m, d.day, if m in {1, 3, 6, 8} then 30 else if m == 11 then 29 else 31);
  }

  /** get_ymd takes back what julian_date has made of a date. */
  lemma DateRoundTrip(d: Date)
    requires InDomain(d)
    ensures Julian(d) >= -32044 && GetYmd(Julian(d)) == d
    ensures JulianFits(d) && GetYmdFits(Julian(d)) <==> Julian(d) <= LAST_DAY
  {
    hide JulianFits, GetYmdFits, LongYear, YearStart, Julian, DaysIn, IsLeap, DaysBefore;
    var y, m := FromMarch(d);
    DayInYear(d, y, m);
    var e := DaysBefore(m) + d.day - 1;
    YearOf(y, e);
    AssembleDate(Julian(d), y, m, d.day);
    YmdFits(Julian(d));
    if Julian(d) <= LAST_DAY { DateFits(d); }
  }

  lemma YmdFits(jday: int)
    requires jday >= -32044
    ensures GetYmdFits(jday) <==> jday <= LAST_DAY
  {
    var a := jday + 32044;
    var b := (4 * a + 3) / 146097;
    CenturyRest(a, b);
    var c := a - (b * 146097) / 4;
    YearRest(c, (4 * c + 3) / 1461);
  }

  lemma CenturyRest(a: int, b: int)
    requires a >= 0 && b == (4 * a + 3) / 146097
    ensures 0 <= b * 146097 <= 4 * a + 3 && 0 <= a - (b * 146097) / 4 <= 36524
  {
  }

  lemma YearRest(c: int, d: int)
    requires 0 <= c <= 36524 && d == (4 * c + 3) / 1461
    ensures 0 <= d <= 100 && 0 <= c - (1461 * d) / 4 <= 366
  {
  }

  lemma DateFits(d: Date)
    requires InDomain(d) && Julian(d) <= LAST_DAY
    ensures JulianFits(d)
  {
    var a := (14 - d.month) / 12;
    assert a == if d.month <= 2 then 1 else 0;
    var y, m := d.year + 4800 - a, d.month + 12 * a - 3;
    assert y >= 0 && 0 <= m <= 11;
    assert y / 400 <= y / 100 <= y / 4;
  }

  lemma AssembleDate(jday: int, y: int, m: int, day: int)
    requires y >= 0 && 0 <= m <= 11 && jday + 32044 >= 0
    requires var a, b, yy, e := jday + 32044, y / 100, y % 100, DaysBefore(m) + day - 1;
      && (4 * a + 3) / 146097 == b
      && var c := a - (b * 146097) / 4;
      && (4 * c + 3) / 1461 == yy && c - (1461 * yy) / 4 == e && (5 * e + 2) / 153 == m
    ensures GetYmd(jday) == Date(y - 4800 + (if m < 10 then 0 else 1), if m < 10 then m + 3 else m - 9, day)
  {
  }

  /** A year, and a day in it, for every day number. */
  lemma YearExists(a: int) returns (y: int, e: int)
    requires a >= 0
    ensures y >= 0 && 0 <= e <= (if LongYear(y) then 365 else 364) && a == YearStart(y) + e
    decreases a
  {
    if a < 365 {
      y, e := 0, a;
    } else {
      var y0, e0 := YearExists(a - 1);
      YearLength(y0);
      if e0 < (if LongYear(y0) then 365 else 364) {
        y, e := y0, e0 + 1;
      } else {
        y, e := y0 + 1, 0;
      }
    }
  }

  /** julian_date takes back what get_ymd has made of a day number, and that is a date. */
  lemma DayRoundTrip(jday: int)
    requires jday >= -32044
    ensures InDomain(GetYmd(jday)) && Julian(GetYmd(jday)) == jday
    ensures JulianFits(GetYmd(jday)) && GetYmdFits(jday) <==> jday <= LAST_DAY
  {
    var d := DateExists(jday);
    DateRoundTrip(d);
  }

  lemma DateExists(jday: int) returns (d: Date)
    requires jday >= -32044
    ensures InDomain(d) && Julian(d) == jday
  {
    var y, e := YearExists(jday + 32044);
    var m := MonthExists(e);
    d := Date(y - 4800 + (if m < 10 then 0 else 1), if m < 10 then m + 3 else m - 9, e - DaysBefore(m) + 1);
    if m == 11 { LeapShift(d.year); }
    var y', m' := FromMarch(d);
    assert y' == y && m' == m;
  }

  /** The day after has the next day number. */
  lemma NextDayIsNextNumber(d: Date)
    requires InDomain(d)
    ensures InDomain(NextDay(d)) && Julian(NextDay(d)) == Julian(d) + 1
  {
    hide YearStart, LongYear, IsLeap, Julian, DaysBefore;
    var y, m := FromMarch(d);
    var y', m' := FromMarch(NextDay(d));
    if d.day == DaysIn(d.year, d.month) {
      if m == 11 {
        assert y' == y + 1 && m' == 0;
        YearLength(y);
      } else {
        assert y' == y && m' == m + 1;
      }
      MonthLength(m);
    } else {
      assert y' == y && m' == m;
    }
  }

  lemma MonthLength(m: int)
    requires 0 <= m <= 11
    ensures DaysBefore(0) == 0 && DaysBefore(11) == 337
    ensures m < 11 ==> DaysBefore(m + 1) == DaysBefore(m) + if m in {1, 3, 6, 8} then 30 else 31
  {
  }

  /** Day numbers are in the order of the dates. */
  lemma JulianIsMonotone(a: Date, b: Date)
    requires InDomain(a) && InDomain(b)
    ensures Earlier(a, b) <==> Julian(a) < Julian(b)
  {
    if Earlier(a, b) {
      EarlierIsSmaller(a, b);
    } else if Earlier(b, a) {
      EarlierIsSmaller(b, a);
    } else {
      assert a == b;
    }
  }

  lemma {:induction false} YearStartGrows(y: int, z: int)
    requires 0 <= y < z
    ensures YearStart(y) + (if LongYear(y) then 366 else 365) <= YearStart(z)
    decreases z - y
  {
    YearLength(y);
    if y + 1 < z {
      YearStartGrows(y + 1, z);
    }
  }

  lemma EarlierIsSmaller(a: Date, b: Date)
    requires InDomain(a) && InDomain(b) && Earlier(a, b)
    ensures Julian(a) < Julian(b)
  {
    var y, m := FromMarch(a);
    var z, n := FromMarch(b);
    DayInYear(a, y, m);
    DayInYear(b, z, n);
    if y < z {
      YearStartGrows(y, z);
    } else {
      assert y == z && (m < n || (m == n && a.day < b.day));
      if m < n { MonthsGrow(m, n, a.day); }
    }
  }

  lemma MonthsGrow(m: int, n: int, day: int)
    requires 0 <= m < n <= 11 && 1 <= day <= if m in {1, 3, 6, 8} then 30 else 31
    ensures DaysBefore(m) + day <= DaysBefore(n)
  {
  }
}
