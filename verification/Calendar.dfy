/** Date arithmetic of Kernel/Devices/Clock/rtc.cpp (date to epoch) and Kernel/Library/time.cpp
    (epoch to date), against a calendar that only knows how one day follows another. */
module Calendar {

  const FIRST_YEAR := 1970
  const LAST_YEAR := 65535 // largest `uint16_t`

  datatype Date = Date(day: int, month: int, year: int)
  datatype Clock = Clock(seconds: int, minutes: int, hours: int)

  // ---------- The civil calendar, one day at a time ----------

  predicate Leap(year: int) {
    year % 4 == 0 && (year % 100 != 0 || year % 400 == 0)
  }

  function DaysIn(month: int, year: int): int {
    if month == 2 then if Leap(year) then 29 else 28
    else if month == 4 || month == 6 || month == 9 || month == 11 then 30
    else 31
  }

  predicate Valid(d: Date) {
    && FIRST_YEAR <= d.year
    && 1 <= d.month <= 12
    && 1 <= d.day <= DaysIn(d.month, d.year)
  }

  predicate ValidClock(c: Clock) {
    0 <= c.seconds < 60 && 0 <= c.minutes < 60 && 0 <= c.hours < 24
  }

  function NextDay(d: Date): (r: Date)
    requires Valid(d)
    ensures Valid(r)
  {
    if d.day < DaysIn(d.month, d.year) then d.(day := d.day + 1)
    else if d.month < 12 then Date(1, d.month + 1, d.year)
    else Date(1, 1, d.year + 1)
  }

  /** The date n days after the first of January 1970. */
  function DayAfter(n: nat): (r: Date)
    ensures Valid(r)
  {
    if n == 0 then Date(1, 1, FIRST_YEAR) else NextDay(DayAfter(n - 1))
  }

  // ---------- Machine arithmetic ----------

  /** Every `int` of the source is 32 bits wide and signed. */
  predicate Int32(x: int) {
    -0x8000_0000 <= x < 0x8000_0000
  }

  /** C division, which truncates toward zero. */
  function Quot(x: int, y: int): int
    requires y > 0
  {
    if x >= 0 then x / y else -(-x / y)
  }

  // ---------- rtc.cpp ----------

  /** `getJulianDay` */
  function JulianDay(d: Date): int {
    var a := Quot(14 - d.month, 12);
    var y := d.year + 4800 - a;
    var m := d.month + 12 * a - 3;
    d.day + Quot(153 * m + 2, 5) + 365 * y + Quot(y, 4) - Quot(y, 100) + Quot(y, 400) - 32045
  }

  /** Julian day of the first of January 1970. */
  const EPOCH_DAY := 2440588

  lemma EpochDay()
    ensures JulianDay(Date(1, 1, 1970)) == EPOCH_DAY
  {
  }

  /** `getUnixEpoch` */
  function UnixEpoch(d: Date, c: Clock): int {
    (JulianDay(d) - JulianDay(Date(1, 1, 1970))) * (60 * 60 * 24) + c.hours * 3600 + c.minutes * 60 + c.seconds
  }

  // ---------- The date split at the first of March ----------

  /** The year that starts on the first of March. */
  function MarchYear(d: Date): int {
    if d.month <= 2 then d.year - 1 else d.year
  }

  /** Months since March. */
  function MarchMonth(d: Date): int {
    if d.month <= 2 then d.month + 9 else d.month - 3
  }

  /** Days before a month in the March year, `(153 * m + 2) / 5`. */
  function DaysBefore(m: int): int {
    (153 * m + 2) / 5
  }

  /** Leap days up to year y since year 0. */
  function LeapDays(y: int): int {
    y / 4 - y / 100 + y / 400
  }

  lemma FoursStep(y: int)
    ensures y / 4 == (y - 1) / 4 + if y % 4 == 0 then 1 else 0
  {
  }

  lemma CenturiesStep(y: int)
    ensures y / 100 == (y - 1) / 100 + if y % 100 == 0 then 1 else 0
  {
  }

  lemma CyclesStep(y: int)
    ensures y / 400 == (y - 1) / 400 + if y % 400 == 0 then 1 else 0
  {
  }

  lemma LeapNested(y: int)
    ensures (y % 100 == 0 ==> y % 4 == 0) && (y % 400 == 0 ==> y % 100 == 0)
  {
  }

  lemma LeapDaysStep(y: int)
    ensures LeapDays(y) == LeapDays(y - 1) + if Leap(y) then 1 else 0
  {
    FoursStep(y);
    CenturiesStep(y);
    CyclesStep(y);
    LeapNested(y);
  }

  /** The Julian day in terms of the March year. */
  function Serial(d: Date): int {
    d.day + DaysBefore(MarchMonth(d)) + 365 * MarchYear(d) + LeapDays(MarchYear(d)) + 1721119
  }

  lemma JulianDaySplit(d: Date)
    requires Valid(d)
    ensures JulianDay(d) == Serial(d)
  {
    var y := MarchYear(d);
    assert Quot(14 - d.month, 12) == if d.month <= 2 then 1 else 0;
    assert (y + 4800) / 4 == y / 4 + 1200;
    assert (y + 4800) / 100 == y / 100 + 48;
    assert (y + 4800) / 400 == y / 400 + 12;
  }

  lemma MonthStarts()
    ensures DaysBefore(0) == 0 && DaysBefore(1) == 31 && DaysBefore(2) == 61 && DaysBefore(3) == 92
    ensures DaysBefore(4) == 122 && DaysBefore(5) == 153 && DaysBefore(6) == 184 && DaysBefore(7) == 214
    ensures DaysBefore(8) == 245 && DaysBefore(9) == 275 && DaysBefore(10) == 306 && DaysBefore(11) == 337
  {
  }

  lemma MonthStep(d: Date)
    requires 1 <= d.month <= 12 && d.month != 2
    ensures DaysBefore(MarchMonth(d) + 1) == DaysBefore(MarchMonth(d)) + DaysIn(d.month, d.year)
  {
    MonthStarts();
    assert DaysBefore(10 + 1) == 337;
  }

  lemma SerialStep(d: Date)
    requires Valid(d)
    ensures Serial(NextDay(d)) == Serial(d) + 1
  {
    if d.day == DaysIn(d.month, d.year) {
      if d.month == 2 {
        LeapDaysStep(d.year);
        MonthStarts();
      } else {
        MonthStep(d);
      }
    }
  }

  /** Across month ends, leap years and centuries the Julian day grows by exactly one a day. */
  lemma JulianDayStep(d: Date)
    requires Valid(d)
    ensures JulianDay(NextDay(d)) == JulianDay(d) + 1
  {
    JulianDaySplit(d);
    JulianDaySplit(NextDay(d));
    SerialStep(d);
  }

  /** The epoch of a date counts the days from the first of January 1970. */
  lemma {:induction false} JulianDayCounts(n: nat)
    ensures JulianDay(DayAfter(n)) == EPOCH_DAY + n
  {
    if n == 0 {
      EpochDay();
    } else {
      JulianDayCounts(n - 1);
      JulianDayStep(DayAfter(n - 1));
    }
  }

  // ---------- time.cpp ----------

  /** The day count of a Julian calendar, in which every fourth year is a leap year. */
  function Adjusted(epoch: int): int {
    var a := (4 * epoch + 102032) / 146097 + 15;
    epoch + 2442113 + a - a / 4
  }

  function FromAdjusted(b: int): Date {
    var year := (20 * b - 2442) / 7305;
    var c := b - 365 * year - year / 4;
    var month := c * 1000 / 30601;
    var day := c - month * 30 - month * 601 / 1000;
    if month <= 13 then Date(day, month - 1, year - 4716) else Date(day, month - 13, year - 4715)
  }

  /** The day part of `converterEpochToDate`, for a day number counted from 1970. */
  function DateOf(epoch: int): Date {
    FromAdjusted(Adjusted(epoch))
  }

  /** The March year has 365 days, and a 366th, the 29th of February, before a leap year's March. */
  lemma DayOfYear(d: Date)
    requires Valid(d)
    ensures var inYear := d.day + DaysBefore(MarchMonth(d));
            1 <= inYear <= 366 && (inYear == 366 ==> Leap(MarchYear(d) + 1))
  {
    MonthStarts();
  }

  lemma CenturyParts(y: int)
    ensures var c, r := y / 100, y % 100;
            y == 100 * c + r && y / 4 == 25 * c + r / 4 && y / 400 == c / 4 && 0 <= r < 100
  {
  }

  /** A day that ends the century is the 29th of February of a year that 400 divides. */
  lemma CenturyEnd(y: int)
    requires y % 100 == 99 && Leap(y + 1)
    ensures (y / 100) % 4 == 3
  {
    assert (y + 1) % 100 == 0;
    assert (y + 1) % 400 == 0;
  }

  lemma CenturyBounds(c: int, r: int, q: int, inYear: int, e: int)
    requires 4 * q <= c <= 4 * q + 3 && 0 <= r < 100 && 1 <= inYear <= 366
    requires inYear == 366 && r == 99 ==> c == 4 * q + 3
    requires inYear == 366 ==> r % 4 == 3
    requires e == inYear + 36524 * c + q + 365 * r + r / 4 - 719469
    ensures 146097 * (c - 19) <= 4 * e + 102032 < 146097 * (c - 18)
  {
  }

  lemma LeapInFours(y: int)
    requires Leap(y + 1)
    ensures (y % 100) % 4 == 3
  {
    assert (y + 1) % 4 == 0;
  }

  lemma DividesTo(n: int, k: int)
    requires 146097 * k <= n < 146097 * (k + 1)
    ensures n / 146097 == k
  {
  }

  /** The first division finds the century of the March year. */
  lemma CenturyFound(d: Date)
    requires Valid(d)
    ensures (4 * (Serial(d) - 2440588) + 102032) / 146097 + 15 == MarchYear(d) / 100 - 4
  {
    var y := MarchYear(d);
    var c, r, e := y / 100, y % 100, Serial(d) - 2440588;
    var inYear := d.day + DaysBefore(MarchMonth(d));
    DayOfYear(d);
    CenturyParts(y);
    if inYear == 366 {
      LeapInFours(y);
      if r == 99 {
        CenturyEnd(y);
      }
    }
    CenturyBounds(c, r, c / 4, inYear, e);
    DividesTo(4 * e + 102032, c - 19);
  }

  /** Adding the days the Gregorian centuries skipped leaves a plain four-year cycle. */
  lemma YearFound(d: Date, b: int, inYear: int)
    requires Valid(d)
    requires inYear == d.day + DaysBefore(MarchMonth(d))
    requires var y := MarchYear(d) + 4716; b == 365 * y + y / 4 + 122 + inYear
    ensures (20 * b - 2442) / 7305 == MarchYear(d) + 4716
  {
    var y := MarchYear(d) + 4716;
    DayOfYear(d);
    var k, t := y / 4, y % 4;
    assert y == 4 * k + t;
    assert 20 * b - 2442 == 7305 * y - 5 * t + 20 * inYear - 2;
    assert inYear == 366 ==> t == 3;
  }

  lemma MonthFound(d: Date, c: int)
    requires Valid(d)
    requires c == 122 + d.day + DaysBefore(MarchMonth(d))
    ensures c * 1000 / 30601 == MarchMonth(d) + 4
    ensures (MarchMonth(d) + 4) * 30 + (MarchMonth(d) + 4) * 601 / 1000 == c - d.day
  {
    MonthStarts();
    match d.month
    case 1 => case 2 => case 3 => case 4 => case 5 => case 6 =>
    case 7 => case 8 => case 9 => case 10 => case 11 => case _ =>
  }

  lemma AdjustedForm(d: Date)
    requires Valid(d)
    ensures var y := MarchYear(d) + 4716;
            Adjusted(Serial(d) - 2440588) == 365 * y + y / 4 + 122 + d.day + DaysBefore(MarchMonth(d))
  {
    CenturyFound(d);
    var y := MarchYear(d);
    assert y / 400 == (y / 100) / 4;
    assert (y / 100 - 4) / 4 == y / 400 - 1;
    assert (y + 4716) / 4 == y / 4 + 1179;
  }

  lemma DateFound(d: Date, b: int)
    requires Valid(d)
    requires var y := MarchYear(d) + 4716; b == 365 * y + y / 4 + 122 + d.day + DaysBefore(MarchMonth(d))
    ensures FromAdjusted(b) == d
  {
    YearFound(d, b, d.day + DaysBefore(MarchMonth(d)));
    MonthFound(d, 122 + d.day + DaysBefore(MarchMonth(d)));
  }

  /** The two closed forms are inverse to each other on every valid date. */
  lemma DateOfJulianDay(d: Date)
    requires Valid(d)
    ensures DateOf(JulianDay(d) - EPOCH_DAY) == d
  {
    JulianDaySplit(d);
    AdjustedForm(d);
    DateFound(d, Adjusted(Serial(d) - 2440588));
  }

  /** The closed form of the n-th day agrees with n steps of the calendar from the first of January 1970. */
  lemma DateOfCounts(n: nat)
    ensures DateOf(n) == DayAfter(n)
  {
    JulianDayCounts(n);
    DateOfJulianDay(DayAfter(n));
  }

  lemma By60(n: int, q: int, r: int)
    requires n == 60 * q + r && 0 <= r < 60
    ensures n / 60 == q && n % 60 == r
  {
  }

  lemma By24(n: int, q: int, r: int)
    requires n == 24 * q + r && 0 <= r < 24
    ensures n / 24 == q && n % 24 == r
  {
  }

  lemma By3600(n: int, q: int, r: int)
    requires n == 3600 * q + r && 0 <= r < 3600
    ensures n / 3600 == q
  {
  }

  lemma By86400(n: int, q: int, r: int)
    requires n == 86400 * q + r && 0 <= r < 86400
    ensures n / 86400 == q
  {
  }

  lemma SplitEpoch(epoch: int, n: int, c: Clock)
    requires epoch == 86400 * n + 3600 * c.hours + 60 * c.minutes + c.seconds && ValidClock(c) && epoch >= 0
    ensures epoch / 86400 == n && ClockOf(epoch) == c
  {
    By86400(epoch, n, 3600 * c.hours + 60 * c.minutes + c.seconds);
    By3600(epoch, 24 * n + c.hours, 60 * c.minutes + c.seconds);
    By60(epoch, 1440 * n + 60 * c.hours + c.minutes, c.seconds);
    By60(1440 * n + 60 * c.hours + c.minutes, 24 * n + c.hours, c.minutes);
    By24(24 * n + c.hours, n, c.hours);
  }

  /** The time of day in an epoch. */
  function ClockOf(epoch: int): Clock {
    Clock(epoch % 60, epoch / 60 % 60, epoch / 3600 % 24)
  }

  lemma JoinEpoch(epoch: int)
    ensures var c := ClockOf(epoch); epoch == 86400 * (epoch / 86400) + 3600 * c.hours + 60 * c.minutes + c.seconds
  {
    HoursInSteps(epoch);
    DaysInSteps(epoch);
  }

  lemma DivideInSteps(epoch: int)
    ensures epoch / 60 / 60 / 24 == epoch / 86400
    ensures Clock(epoch % 60, epoch / 60 % 60, epoch / 60 / 60 % 24) == ClockOf(epoch)
  {
    HoursInSteps(epoch);
    DaysInSteps(epoch);
  }

  lemma HoursInSteps(epoch: int)
    ensures epoch / 60 / 60 == epoch / 3600
  {
  }

  lemma DaysInSteps(epoch: int)
    ensures epoch / 3600 / 24 == epoch / 86400
  {
  }

  lemma EpochIsNatural(d: Date)
    requires Valid(d)
    ensures JulianDay(d) >= EPOCH_DAY
  {
    JulianDaySplit(d);
    MonthStarts();
    LeapDaysMonotone(1969, MarchYear(d));
  }

  lemma {:induction false} LeapDaysMonotone(y: int, z: int)
    requires y <= z
    ensures LeapDays(y) <= LeapDays(z)
    decreases z - y
  {
    if y < z {
      LeapDaysMonotone(y, z - 1);
      LeapDaysStep(z);
    }
  }

  /** One second later on the clock; true when it is past midnight. */
  function NextSecond(c: Clock): (Clock, bool) {
    if c.seconds < 59 then (c.(seconds := c.seconds + 1), false)
    else if c.minutes < 59 then (Clock(0, c.minutes + 1, c.hours), false)
    else if c.hours < 23 then (Clock(0, 0, c.hours + 1), false)
    else (Clock(0, 0, 0), true)
  }

  /** The epoch starts at midnight and is one second later on the clock, and one day later past midnight, for
      every second. */
  lemma EpochTicks(epoch: nat)
    ensures ClockOf(0) == Clock(0, 0, 0)
    ensures NextSecond(ClockOf(epoch)) == (ClockOf(epoch + 1), (epoch + 1) / 86400 == epoch / 86400 + 1)
  {
    JoinEpoch(epoch);
    var c, n := ClockOf(epoch), epoch / 86400;
    var next := NextSecond(c);
    SplitEpoch(epoch + 1, if next.1 then n + 1 else n, next.0);
  }

  /** Date to epoch and back: all six fields return, for every valid date and time from 1970 on. */
  lemma EpochRoundTrip(d: Date, c: Clock)
    requires Valid(d) && ValidClock(c)
    ensures var epoch := UnixEpoch(d, c);
            epoch >= 0 && DayAfter(epoch / 86400) == d && ClockOf(epoch) == c
  {
    var n := JulianDay(d) - EPOCH_DAY;
    EpochIsNatural(d);
    EpochSum(d, c);
    SplitEpoch(UnixEpoch(d, c), n, c);
    DateOfCounts(n);
    DateOfJulianDay(d);
  }

  /** Epoch to date and back. */
  lemma DateRoundTrip(epoch: nat)
    ensures UnixEpoch(DayAfter(epoch / 86400), ClockOf(epoch)) == epoch
  {
    JulianDayCounts(epoch / 86400);
    JoinEpoch(epoch);
    EpochSum(DayAfter(epoch / 86400), ClockOf(epoch));
  }

  lemma EpochSum(d: Date, c: Clock)
    ensures UnixEpoch(d, c) == 86400 * (JulianDay(d) - EPOCH_DAY) + 3600 * c.hours + 60 * c.minutes + c.seconds
  {
    EpochDay();
  }

  /** Days from 1970 to the last date the clock can hold. */
  const LAST_DAY := 23_217_003

  lemma LastDay()
    ensures JulianDay(Date(31, 12, LAST_YEAR)) == EPOCH_DAY + LAST_DAY
  {
  }

  /** Up to the end of year 65535 no date runs past the last day, and no intermediate of the Julian day
      leaves the 32-bit range. */
  lemma DatesFit(d: Date)
    requires Valid(d) && d.year <= LAST_YEAR
    ensures JulianDay(d) <= EPOCH_DAY + LAST_DAY
    ensures var y, m := MarchYear(d) + 4800, MarchMonth(d);
            Int32(153 * m + 2) && Int32(365 * y) && Int32(JulianDay(d) + 32045)
  {
    JulianDaySplit(d);
    JulianDaySplit(Date(31, 12, LAST_YEAR));
    LastDay();
    MonthStarts();
    LeapDaysMonotone(MarchYear(d), if d.month <= 2 then LAST_YEAR - 1 else LAST_YEAR);
    LeapDaysStep(LAST_YEAR);
    EpochIsNatural(d);
  }

  /** No intermediate of the closed form leaves the 32-bit range up to the end of year 65535. */
  lemma NoOverflow(epoch: int)
    requires 0 <= epoch <= LAST_DAY
    ensures var a := (4 * epoch + 102032) / 146097 + 15;
            var b := Adjusted(epoch);
            var year := (20 * b - 2442) / 7305;
            var c := b - 365 * year - year / 4;
            var month := c * 1000 / 30601;
            && Int32(a) && Int32(b) && Int32(20 * b) && Int32(20 * b - 2442) && Int32(365 * year)
            && Int32(c * 1000) && Int32(month * 30) && Int32(month * 601)
  {
    var a := (4 * epoch + 102032) / 146097 + 15;
    assert 15 <= a <= 700;
    var b := Adjusted(epoch);
    assert 0 <= b <= 30_000_000;
    var year := (20 * b - 2442) / 7305;
    assert 7305 * year <= 20 * b - 2442 < 7305 * (year + 1);
    var c := b - 365 * year - year / 4;
    assert 0 <= c <= 1000;
  }

  class TimeDescriptor {
    var seconds: int
    var minutes: int
    var hour: int
    var day: int
    var month: int
    var year: int

    constructor (sec: int, min: int, hr: int, d: int, m: int, y: int)
      ensures seconds == sec && minutes == min && hour == hr && day == d && month == m && year == y
    {
      seconds, minutes, hour, day, month, year := sec, min, hr, d, m, y;
    }

    /** Sets all six fields from an epoch that falls in a year the clock can hold. */
    method ConverterEpochToDate(number: nat)
      requires number / 86400 <= LAST_DAY
      modifies this
      ensures Clock(seconds, minutes, hour) == ClockOf(number)
      ensures Date(day, month, year) == DayAfter(number / 86400)
    {
      var epoch := SetClock(number);
      SetDate(epoch);
    }

    /** The time of day; what is left are the days. */
    method SetClock(number: nat) returns (epoch: nat)
      modifies this`seconds, this`minutes, this`hour
      ensures Clock(seconds, minutes, hour) == ClockOf(number) && epoch == number / 86400
    {
      epoch := number;
      seconds := epoch % 60;
      epoch := epoch / 60;
      minutes := epoch % 60;
      epoch := epoch / 60;
      hour := epoch % 24;
      epoch := epoch / 24;
      DivideInSteps(number);
    }

    /** The day count with the days that the Gregorian centuries skip. */
    method AddSkippedDays(epoch: nat) returns (b: int)
      ensures b == Adjusted(epoch)
    {
      var a := (4 * epoch + 102032) / 146097 + 15;
      b := epoch + 2442113 + a - (a / 4);
    }

    /** The date in a plain four-year cycle. */
    method FourYearCycle(b: int) returns (d: int, m: int, y: int)
      ensures Date(d, m, y) == FromAdjusted(b)
    {
      y := (20 * b - 2442) / 7305;
      var c := b - 365 * y - (y / 4);
      m := c * 1000 / 30601;
      d := c - m * 30 - m * 601 / 1000;
      if m <= 13 {
        y := y - 4716;
        m := m - 1;
      } else {
        y := y - 4715;
        m := m - 13;
      }
    }

    method SetDate(epoch: nat)
      requires epoch <= LAST_DAY
      modifies this`day, this`month, this`year
      ensures Date(day, month, year) == DayAfter(epoch)
    {
      var b := AddSkippedDays(epoch);
      var d, m, y := FourYearCycle(b);
      DateOfCounts(epoch);
      day := d;
      month := m;
      year := y;
    }
  }
}
