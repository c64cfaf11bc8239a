/** `bson-timegm.c`: the civil date of a second count, and its inverse by binary search. */
module CivilTime {
  import opened Bytes
  import opened Calendar

  const INT_MAX: int := INT32_MAX
  const INT_MIN: int := -INT32_MAX - 1
  const TM_YEAR_BASE: int := 1900
  const INT64_MAX: int64 := TWO_63 - 1
  const INT64_MIN: int64 := -TWO_63
  const WRONG: int64 := -1

  /** C's division and remainder by a positive number round towards zero. */
  function Quot(a: int, b: int): int
    requires b > 0
  {
    if a >= 0 then a / b else -(-a / b)
  }

  function Rem(a: int, b: int): int
    requires b > 0
  {
    a - Quot(a, b) * b
  }

  datatype Civil = Civil(sec: int, min: int, hour: int, mday: int, mon: int, year: int, wday: int, yday: int, isdst: int)

  /** `struct bson_tm`. */
  class Tm {
    var sec: int64
    var min: int64
    var hour: int64
    var mday: int64
    var mon: int64
    var year: int64
    var wday: int64
    var yday: int64
    var isdst: int64

    constructor ()
    {
      sec, min, hour, mday, mon, year, wday, yday, isdst := 0, 0, 0, 0, 0, 0, 0, 0, 0;
    }

    function Fields(): Civil
      reads this
    {
      Civil(sec, min, hour, mday, mon, year, wday, yday, isdst)
    }

    method CopyFrom(from: Tm)
      modifies this
      ensures Fields() == old(from.Fields())
    {
      sec, min, hour, mday, mon, year, wday, yday, isdst :=
        from.sec, from.min, from.hour, from.mday, from.mon, from.year, from.wday, from.yday, from.isdst;
    }
  }

  /** The day number of a date; the day of the month may be anything. */
  function DayOf(c: Civil): int
    requires 0 <= c.mon < 12
  {
    YearStart(c.year + TM_YEAR_BASE) + MonthStart(IsLeap(c.year + TM_YEAR_BASE), c.mon) + c.mday - 1
  }

  function SecondsOf(c: Civil): int
    requires 0 <= c.mon < 12
  {
    SECSPERDAY * DayOf(c) + 3600 * c.hour + 60 * c.min + c.sec
  }

  predicate InFieldRanges(c: Civil) {
    && 0 <= c.sec < 60 && 0 <= c.min < 60 && 0 <= c.hour < 24 && 0 <= c.mon < 12
    && 1 <= c.mday <= MonthLength(IsLeap(c.year + TM_YEAR_BASE), c.mon)
  }

  /** The fields are those of second `t`. */
  predicate IsCivil(c: Civil, t: int) {
    && InFieldRanges(c) && SecondsOf(c) == t
    && c.yday == MonthStart(IsLeap(c.year + TM_YEAR_BASE), c.mon) + c.mday - 1
    && c.wday == (4 + DayOf(c)) % 7 && c.isdst == 0
  }

  /** The seconds whose year, and its distance from 1900, fit an `int`. */
  predicate HasCivil(t: int) {
    SECSPERDAY * YearStart(INT_MIN + TM_YEAR_BASE) <= t < SECSPERDAY * YearStart(INT_MAX + 1)
  }

  /** `increment_overflow`: it keeps to the range of `int`, though the variable is wider. */
  method IncrementOverflow(i: int64, j: int64) returns (overflow: bool, r: int64)
    ensures overflow == if i >= 0 then i + j > INT_MAX else i + j < INT_MIN
    ensures r == if overflow then i else i + j
  {
    overflow := if i >= 0 then j > INT_MAX - i else j < INT_MIN - i;
    r := if overflow then i else i + j;
  }

  lemma YearsMonotone(a: int, b: int)
    requires a <= b
    ensures YearStart(a) <= YearStart(b)
  {
    YearsBetween(a, b);
  }

  const DAY_LIMIT: int := 0x8000_0000_0000

  /** The year-guessing loop: from a day number to a year and a day of that year. */
  method FindYear(days: int64) returns (found: bool, y: int64, tdays: int64)
    requires -DAY_LIMIT <= days <= DAY_LIMIT
    ensures found ==> YearStart(y) + tdays == days && 0 <= tdays < YearLength(y) && INT_MIN <= y <= INT_MAX
    ensures found <==> YearStart(INT_MIN) <= days < YearStart(INT_MAX + 1)
  {
    hide YearStart, LeapsThruEndOf, IsLeap;
    y, tdays := EPOCH_YEAR, days;
    EpochStart();
    while tdays < 0 || tdays >= YearLength(y)
      invariant YearStart(y) + tdays == days
      invariant days >= 0 ==> EPOCH_YEAR <= y <= INT_MAX && 0 <= tdays <= days
      invariant days < 0 ==> -DAY_LIMIT <= y <= EPOCH_YEAR && days <= tdays < YearLength(y)
      invariant y < INT_MIN ==> tdays < 0
      decreases if days >= 0 then tdays else if tdays < 0 then -tdays else 0
    {
      var idelta := Quot(tdays, 366);
      if idelta == 0 {
        idelta := if tdays < 0 then -1 else 1;
      }
      var overflow, newy := IncrementOverflow(y, idelta);
      Jump(y, tdays, idelta, days);
      if overflow {
        if days >= 0 {
          YearsMonotone(INT_MAX + 1, y + idelta);
        } else {
          YearsMonotone(y + idelta + 1, INT_MIN);
        }
        return false, y, tdays;
      }
      var leapdays := LeapsThruEndOf(newy - 1) - LeapsThruEndOf(y - 1);
      YearsApart(y, newy);
      tdays := tdays - (newy - y) * 365;
      tdays := tdays - leapdays;
      y := newy;
    }
    found := true;
    InItsYear(y, tdays, days);
  }

  lemma InItsYear(y: int, tdays: int, days: int)
    requires YearStart(y) + tdays == days && 0 <= tdays < YearLength(y) && INT_MIN <= y <= INT_MAX
    ensures YearStart(INT_MIN) <= days < YearStart(INT_MAX + 1)
  {
    YearStep(y);
    YearsMonotone(INT_MIN, y);
    YearsMonotone(y + 1, INT_MAX + 1);
  }

  lemma EpochStart()
    ensures YearStart(EPOCH_YEAR) == 0
  {}

  /** One jump never passes the year it looks for. */
  lemma Jump(y: int, tdays: int, idelta: int, days: int)
    requires YearStart(y) + tdays == days && -DAY_LIMIT <= days <= DAY_LIMIT
    requires tdays < 0 || tdays >= YearLength(y)
    requires idelta == if Quot(tdays, 366) != 0 then Quot(tdays, 366) else if tdays < 0 then -1 else 1
    requires days >= 0 ==> y >= EPOCH_YEAR && tdays >= 0
    requires days < 0 ==> y <= EPOCH_YEAR && tdays < 0
    ensures var newdays := days - YearStart(y + idelta);
            && (days >= 0 ==> idelta > 0 && 0 <= newdays < tdays && y + idelta <= DAY_LIMIT)
            && (days < 0 ==> idelta < 0 && tdays < newdays < YearLength(y + idelta) && y + idelta >= -DAY_LIMIT)
            && (days < 0 && idelta < -1 ==> newdays < 0)
            && YearStart(y + idelta + 1) == YearStart(y + idelta) + YearLength(y + idelta)
  {
    hide YearStart, IsLeap;
    EpochStart();
    YearStep(y + idelta);
    if days >= 0 {
      YearsBetween(y, y + idelta);
      YearsBetween(EPOCH_YEAR, y + idelta);
      YearStep(y);
    } else {
      YearsBetween(y + idelta, y);
      YearsBetween(y + idelta, EPOCH_YEAR);
      FewLeapDays(y + idelta, y);
    }
  }

  lemma Weekday(y: int, idays: int, w: int)
    requires w == 4 + Rem(y - EPOCH_YEAR, 7) * (365 % 7) + LeapsThruEndOf(y - 1) - LeapsThruEndOf(EPOCH_YEAR - 1) + idays
    ensures Rem(w, 7) + (if Rem(w, 7) < 0 then 7 else 0) == (4 + YearStart(y) + idays) % 7
  {
    hide LeapsThruEndOf, YearStart;
    YearsApart(EPOCH_YEAR, y);
    EpochStart();
    var n := y - EPOCH_YEAR;
    SevenApart(w, 4 + YearStart(y) + idays, 52 * n + Quot(n, 7));
  }

  lemma SevenApart(w: int, v: int, k: int)
    requires v == w + 7 * k
    ensures Rem(w, 7) + (if Rem(w, 7) < 0 then 7 else 0) == v % 7
  {}

  /** The second `rem` of day `idays` of year `y`. */
  ghost function Instant(y: int, idays: int, rem: int): int {
    SECSPERDAY * (YearStart(y) + idays) + rem
  }

  /** The adjustment loops: what is left of the day and the year is brought into range. */
  method Settle(y0: int64, idays0: int64, rem0: int64) returns (ok: bool, y: int64, idays: int64, rem: int64)
    requires -1_000_000 < rem0 < 1_000_000 && -500 < idays0 < 500 && -DAY_LIMIT <= y0 <= INT_MAX
    ensures ok ==> Instant(y, idays, rem) == Instant(y0, idays0, rem0)
    ensures ok ==> 0 <= idays < YearLength(y) && 0 <= rem < SECSPERDAY && -DAY_LIMIT - 1000 <= y <= INT_MAX
    ensures !ok ==> !HasCivil(Instant(y0, idays0, rem0))
  {
    hide YearStart, LeapsThruEndOf, IsLeap;
    ok, y, idays, rem := true, y0, idays0, rem0;
    while rem < 0
      invariant -1_000_000 < rem < 1_000_000 && -1000 < idays < 500 && Instant(y, idays, rem) == Instant(y0, idays0, rem0)
      invariant idays * SECSPERDAY + rem == idays0 * SECSPERDAY + rem0
    {
      rem := rem + SECSPERDAY;
      idays := idays - 1;
    }
    while rem >= SECSPERDAY
      invariant 0 <= rem < 1_000_000 && -1000 < idays < 1000 && Instant(y, idays, rem) == Instant(y0, idays0, rem0)
      invariant idays * SECSPERDAY + rem == idays0 * SECSPERDAY + rem0
    {
      rem := rem - SECSPERDAY;
      idays := idays + 1;
    }
    while idays < 0
      invariant -1000 < idays < 1000 && Instant(y, idays, rem) == Instant(y0, idays0, rem0)
      invariant y <= INT_MAX && 365 * (y0 - y) <= idays + 1000
      decreases -idays
    {
      var overflow;
      overflow, y := IncrementOverflow(y, -1);
      if overflow {
        TooEarly(y, idays, rem);
        return false, y, idays, rem;
      }
      YearStep(y);
      idays := idays + YearLength(y);
    }
    while idays >= YearLength(y)
      invariant 0 <= idays < 1000 && Instant(y, idays, rem) == Instant(y0, idays0, rem0)
      invariant -DAY_LIMIT - 1000 <= y <= INT_MAX
    {
      YearStep(y);
      idays := idays - YearLength(y);
      var overflow;
      ghost var before := y;
      overflow, y := IncrementOverflow(y, 1);
      if overflow {
        OutOfRange(before, idays, rem);
        return false, y, idays, rem;
      }
    }
  }

  lemma TooEarly(y: int, idays: int, rem: int)
    requires idays < 0 && 0 <= rem < SECSPERDAY && y <= INT_MIN
    ensures !HasCivil(Instant(y, idays, rem))
  {
    hide YearStart;
    YearsMonotone(y, INT_MIN + TM_YEAR_BASE);
  }

  lemma OutOfRange(y: int, idays: int, rem: int)
    requires 0 <= idays < 1000 && 0 <= rem < SECSPERDAY && (y < INT_MIN || y == INT_MAX)
    ensures !HasCivil(Instant(y + 1, idays, rem))
  {
    hide YearStart;
    if y < INT_MIN {
      YearsBetween(y + 1, INT_MIN + TM_YEAR_BASE);
    }
  }

  /** What the settled values say about the date being representable. */
  lemma YearDecides(y: int, idays: int, rem: int)
    requires 0 <= idays < YearLength(y) && 0 <= rem < SECSPERDAY && y <= INT_MAX
    ensures HasCivil(Instant(y, idays, rem)) <==> y >= INT_MIN + TM_YEAR_BASE
  {
    hide YearStart, IsLeap;
    YearStep(y);
    if y >= INT_MIN + TM_YEAR_BASE {
      YearsMonotone(INT_MIN + TM_YEAR_BASE, y);
      YearsMonotone(y + 1, INT_MAX + 1);
    } else {
      YearsMonotone(y + 1, INT_MIN + TM_YEAR_BASE);
    }
  }

  lemma NoYear(days: int, rem: int)
    requires days < YearStart(INT_MIN) || days >= YearStart(INT_MAX + 1)
    requires if days < 0 then -SECSPERDAY < rem <= 0 else 0 <= rem < SECSPERDAY || days == 0
    ensures !HasCivil(SECSPERDAY * days + rem)
  {
    hide YearStart;
    YearsMonotone(INT_MIN, INT_MIN + TM_YEAR_BASE);
    YearsMonotone(EPOCH_YEAR, INT_MAX + 1);
    YearsBetween(EPOCH_YEAR, INT_MAX + 1);
    YearsBetween(INT_MIN, EPOCH_YEAR);
    EpochStart();
  }

  /** The month loop: a day of the year becomes a month and a day of that month. */
  method FindMonth(leap: bool, yday: int64) returns (mon: int64, mday: int64)
    requires 0 <= yday < if leap then 366 else 365
    ensures 0 <= mon < 12 && 1 <= mday <= MonthLength(leap, mon) && MonthStart(leap, mon) + mday - 1 == yday
  {
    hide MonthLength;
    var idays := yday;
    mon := 0;
    MonthSums(leap);
    while idays >= MonthLength(leap, mon)
      invariant 0 <= mon < 12 && 0 <= idays && MonthStart(leap, mon) + idays == yday
      decreases idays
    {
      MonthRoom(leap, mon, idays);
      idays := idays - MonthLength(leap, mon);
      mon := mon + 1;
    }
    mday := idays + 1;
  }

  lemma MonthRoom(leap: bool, mon: int, idays: int)
    requires 0 <= mon < 12 && idays >= MonthLength(leap, mon) && MonthStart(leap, mon) + idays < (if leap then 366 else 365)
    ensures mon < 11 && MonthStart(leap, mon + 1) == MonthStart(leap, mon) + MonthLength(leap, mon)
  {
    MonthSums(leap);
    assert MonthStart(leap, mon + 1) == MonthStart(leap, mon) + MonthLength(leap, mon);
  }

  lemma QuotDays(n: int64)
    ensures var q := Quot(n, SECSPERDAY);
            && -DAY_LIMIT <= q <= DAY_LIMIT
            && (if n >= 0 then 0 <= n - q * SECSPERDAY < SECSPERDAY else -SECSPERDAY < n - q * SECSPERDAY <= 0)
            && (n < 0 ==> q <= 0) && (n >= 0 ==> q >= 0)
  {}

  /** `timesub`, for Greenwich: no offset, no leap seconds in the table. */
  method Timesub(timep: int64, tmp: Tm) returns (found: bool)
    modifies tmp
    ensures found <==> HasCivil(timep)
    ensures found ==> IsCivil(tmp.Fields(), timep)
  {
    hide YearStart, IsLeap, Quot, HasCivil, IsCivil;
    QuotDays(timep);
    var tdays: int64 := Quot(timep, SECSPERDAY);
    var rem: int64 := timep - tdays * SECSPERDAY;
    var y;
    ghost var days := tdays;
    found, y, tdays := FindYear(tdays);
    if !found {
      NoYear(days, rem);
      return;
    }
    QuotDays(tdays * SECSPERDAY);
    var seconds: int64 := tdays * SECSPERDAY;
    tdays := Quot(seconds, SECSPERDAY);
    rem := rem + (seconds - tdays * SECSPERDAY);
    var idays;
    found, y, idays, rem := Settle(y, tdays, rem);
    if !found {
      return;
    }
    YearDecides(y, idays, rem);
    var overflow;
    overflow, tmp.year := IncrementOverflow(y, -TM_YEAR_BASE);
    if overflow {
      return false;
    }
    WriteFields(tmp, y, idays, rem);
  }

  lemma LeapsBounded(y: int)
    requires -0x1_0000_0000 < y < 0x1_0000_0000
    ensures -0x1_0000_0000 <= LeapsThruEndOf(y) <= 0x1_0000_0000
  {
    LeapsAsFloors(y);
  }

  /** The day of the week, with the extra remainders that avoid overflow. */
  method FindWeekday(y: int64, idays: int64) returns (wday: int64)
    requires INT_MIN <= y <= INT_MAX && 0 <= idays < 400
    ensures wday == (4 + YearStart(y) + idays) % 7
  {
    hide YearStart, LeapsThruEndOf, Rem;
    LeapsBounded(y - 1);
    LeapsBounded(EPOCH_YEAR - 1);
    RemBound(y - EPOCH_YEAR, 7);
    wday := 4 + Rem(y - EPOCH_YEAR, 7) * (365 % 7) + LeapsThruEndOf(y - 1) - LeapsThruEndOf(EPOCH_YEAR - 1) + idays;
    Weekday(y, idays, wday);
    RemBound(wday, 7);
    wday := Rem(wday, 7);
    if wday < 0 {
      wday := wday + 7;
    }
  }

  /** The end of `timesub`, once the year, the day and the second are known. */
  method WriteFields(tmp: Tm, y: int64, idays: int64, rem0: int64)
    requires tmp.year == y - TM_YEAR_BASE && INT_MIN <= y <= INT_MAX
    requires 0 <= idays < YearLength(y) && 0 <= rem0 < SECSPERDAY
    modifies tmp
    ensures IsCivil(tmp.Fields(), Instant(y, idays, rem0))
  {
    hide YearStart, IsLeap, MonthStart, MonthLength, Quot, Rem, IsCivil, Instant;
    tmp.yday := idays;
    tmp.wday := FindWeekday(y, idays);
    var rem := rem0;
    ClockParts(rem);
    tmp.hour := Quot(rem, 3600);
    rem := Rem(rem, 3600);
    ClockParts(rem);
    tmp.min := Quot(rem, 60);
    tmp.sec := Rem(rem, 60);
    tmp.mon, tmp.mday := FindMonth(IsLeap(y), idays);
    tmp.isdst := 0;
    Assembled(tmp.Fields(), y, idays, rem0);
  }

  lemma Assembled(c: Civil, y: int, idays: int, rem: int)
    requires c.year == y - TM_YEAR_BASE && c.yday == idays && c.isdst == 0 && c.wday == (4 + YearStart(y) + idays) % 7
    requires 0 <= c.sec < 60 && 0 <= c.min < 60 && 0 <= c.hour < 24 && rem == 3600 * c.hour + 60 * c.min + c.sec
    requires 0 <= c.mon < 12 && 1 <= c.mday <= MonthLength(IsLeap(y), c.mon)
    requires MonthStart(IsLeap(y), c.mon) + c.mday - 1 == idays
    ensures IsCivil(c, Instant(y, idays, rem))
  {
    hide YearStart, IsLeap, MonthStart, MonthLength;
  }

  lemma RemBound(a: int, b: int)
    requires b > 0
    ensures -b < Rem(a, b) < b && (a >= 0 ==> Rem(a, b) == a % b)
  {}

  lemma ClockParts(rem: int)
    requires 0 <= rem < SECSPERDAY
    ensures 0 <= Quot(rem, 3600) < 24 && 0 <= Rem(rem, 3600) < 3600 && rem == 3600 * Quot(rem, 3600) + Rem(rem, 3600)
    ensures 0 <= Rem(rem, 60) < 60 && rem == 60 * Quot(rem, 60) + Rem(rem, 60) && (rem < 3600 ==> 0 <= Quot(rem, 60) < 60)
    ensures 0 <= Quot(rem, 60)
  {}
}
