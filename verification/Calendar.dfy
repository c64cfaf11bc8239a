/** The proleptic Gregorian calendar, by counting days, and the closed forms `bson-timegm.c` relies on. */
module Calendar {

  const SECSPERDAY: int := 86400
  const EPOCH_YEAR: int := 1970

  predicate IsLeap(y: int) { y % 4 == 0 && (y % 100 != 0 || y % 400 == 0) }

  function YearLength(y: int): int { if IsLeap(y) then 366 else 365 }

  const COMMON_LENGTHS: seq<int> := [31, 28, 31, 30, 31, 30, 31, 31, 30, 31, 30, 31]
  const LEAP_LENGTHS: seq<int> := [31, 29, 31, 30, 31, 30, 31, 31, 30, 31, 30, 31]

  function MonthLength(leap: bool, m: int): (n: int)
    requires 0 <= m < 12
    ensures 28 <= n <= 31
  {
    if leap then LEAP_LENGTHS[m] else COMMON_LENGTHS[m]
  }

  /** The day number of January 1st of a year, counted one year at a time from 1970. */
  function YearStart(y: int): int
    decreases if y >= EPOCH_YEAR then y - EPOCH_YEAR else EPOCH_YEAR - y
  {
    if y == EPOCH_YEAR then 0
    else if y > EPOCH_YEAR then YearStart(y - 1) + YearLength(y - 1)
    else YearStart(y + 1) - YearLength(y)
  }

  /** The days of a year before a month. */
  function MonthStart(leap: bool, m: int): int
    requires 0 <= m <= 12
  {
    if m == 0 then 0 else MonthStart(leap, m - 1) + MonthLength(leap, m - 1)
  }

  /** `leaps_thru_end_of`, with C's division. */
  function LeapsThruEndOf(y: int): int
    decreases if y >= 0 then 0 else 1
  {
    if y >= 0 then y / 4 - y / 100 + y / 400 else -(LeapsThruEndOf(-(y + 1)) + 1)
  }

  lemma LeapsAsFloors(y: int)
    ensures LeapsThruEndOf(y) == y / 4 - y / 100 + y / 400
  {
    if y < 0 {
      var z := -(y + 1);
      assert y / 4 == -(z / 4) - 1;
      assert y / 100 == -(z / 100) - 1;
      assert y / 400 == -(z / 400) - 1;
    }
  }

  /** Each year adds exactly its own leap day, before and after year zero. */
  lemma LeapsStep(y: int)
    ensures LeapsThruEndOf(y) - LeapsThruEndOf(y - 1) == if IsLeap(y) then 1 else 0
  {
    hide LeapsThruEndOf;
    LeapsAsFloors(y);
    LeapsAsFloors(y - 1);
    FloorStep(y, 4);
    FloorStep(y, 100);
    FloorStep(y, 400);
    Multiples(y);
  }

  lemma Multiples(y: int)
    ensures y % 400 == 0 ==> y % 100 == 0
    ensures y % 100 == 0 ==> y % 4 == 0
  {
    if y % 400 == 0 {
      Multiple(y, y / 400, 4, 100);
    }
    if y % 100 == 0 {
      Multiple(y, y / 100, 25, 4);
    }
  }

  lemma Multiple(y: int, q: int, a: int, b: int)
    requires (a == 4 && b == 100) || (a == 25 && b == 4)
    requires y == q * (a * b)
    ensures y % b == 0
  {
    var k := q * a;
    assert y == k * b;
  }

  lemma FloorStep(y: int, k: int)
    requires k == 4 || k == 100 || k == 400
    ensures y / k - (y - 1) / k == if y % k == 0 then 1 else 0
  {}

  /** The source's jump between two years, however far apart, is the number of days between them. */
  lemma {:induction false} YearsApart(a: int, b: int)
    ensures YearStart(b) - YearStart(a) == (b - a) * 365 + LeapsThruEndOf(b - 1) - LeapsThruEndOf(a - 1)
    decreases if a <= b then b - a else a - b
  {
    hide LeapsThruEndOf, IsLeap;
    if a < b {
      YearsApart(a, b - 1);
      YearStep(b - 1);
      LeapsStep(b - 1);
    } else if b < a {
      YearsApart(a, b + 1);
      YearStep(b);
      LeapsStep(b);
    }
  }

  lemma YearStep(y: int)
    ensures YearStart(y + 1) == YearStart(y) + YearLength(y)
  {}

  lemma {:induction false} YearsBetween(a: int, b: int)
    requires a <= b
    ensures 365 * (b - a) <= YearStart(b) - YearStart(a) <= 366 * (b - a)
    decreases b - a
  {
    if a < b {
      YearsBetween(a, b - 1);
      YearStep(b - 1);
    }
  }

  /** Four consecutive years hold at most one leap day. */
  lemma FourYears(y: int)
    ensures YearLength(y) <= 366
    ensures YearLength(y) + YearLength(y + 1) <= 731
    ensures YearLength(y) + YearLength(y + 1) + YearLength(y + 2) <= 1096
    ensures YearLength(y) + YearLength(y + 1) + YearLength(y + 2) + YearLength(y + 3) <= 1461
  {}

  lemma {:induction false} FewLeapDays(a: int, b: int)
    requires a <= b
    ensures YearStart(b) - YearStart(a) <= 365 * (b - a) + (b - a) / 4 + 1
    decreases b - a
  {
    FourYears(a);
    YearStep(a);
    YearStep(a + 1);
    YearStep(a + 2);
    YearStep(a + 3);
    hide YearStart, YearLength;
    if b > a + 3 {
      FewLeapDays(a + 4, b);
    }
  }

  lemma MonthSums(leap: bool)
    ensures MonthStart(leap, 12) == (if leap then 366 else 365)
    ensures MonthStart(leap, 0) == 0 && MonthStart(leap, 1) == 31
  {
    assert MonthStart(leap, 3) == MonthStart(leap, 1) + MonthLength(leap, 1) + 31;
    assert MonthStart(leap, 5) == MonthStart(leap, 3) + 61;
    assert MonthStart(leap, 7) == MonthStart(leap, 5) + 61;
    assert MonthStart(leap, 9) == MonthStart(leap, 7) + 61;
    assert MonthStart(leap, 11) == MonthStart(leap, 9) + 61;
  }

  lemma {:induction false} MonthsAlike()
    ensures forall m | 2 <= m <= 12 :: MonthStart(true, m) == MonthStart(false, m) + 1
  {
    var k := 2;
    assert MonthStart(true, 1) == 31 && MonthStart(false, 1) == 31;
    while k < 12
      invariant 2 <= k <= 12
      invariant forall m | 2 <= m <= k :: MonthStart(true, m) == MonthStart(false, m) + 1
    {
      assert MonthLength(true, k) == MonthLength(false, k);
      k := k + 1;
    }
  }

  /** Days from the March before to a month: 153 days in five months. */
  function DaysFromMarch(m: int): int
    requires 0 <= m < 12
  {
    (153 * ((m + 10) % 12) + 2) / 5
  }

  /** The day number of a date in the Gregorian calendar, in closed form: the year begins in March. */
  function GregorianDay(y: int, m: int, d: int): int
    requires 0 <= m < 12
  {
    var c := if m < 2 then y - 1 else y;
    365 * c + c / 4 - c / 100 + c / 400 + DaysFromMarch(m) + d - 1 - 719468
  }

  /** The days of a year before a month: from March on there are 153 in five months. */
  lemma {:induction false} MonthsFromMarch(leap: bool, m: int)
    requires 0 <= m < 12
    ensures MonthStart(leap, m) == if m < 2 then DaysFromMarch(m) - 306 else DaysFromMarch(m) + (if leap then 60 else 59)
  {
    MonthStep(leap, 0);
    if m > 0 {
      MonthsFromMarch(leap, m - 1);
      MonthStep(leap, m - 1);
      LengthsListed(leap, m - 1);
      hide MonthStart, MonthLength;
      FromMarch();
    }
  }

  lemma FromMarch()
    ensures DaysFromMarch(0) == 306 && DaysFromMarch(1) == 337 && DaysFromMarch(2) == 0 && DaysFromMarch(3) == 31
    ensures DaysFromMarch(4) == 61 && DaysFromMarch(5) == 92 && DaysFromMarch(6) == 122 && DaysFromMarch(7) == 153
    ensures DaysFromMarch(8) == 184 && DaysFromMarch(9) == 214 && DaysFromMarch(10) == 245 && DaysFromMarch(11) == 275
  {}

  /** Counting years and months one at a time comes to the closed form, for every integer year. */
  lemma DayIsGregorian(y: int, m: int, d: int)
    requires 0 <= m < 12
    ensures YearStart(y) + MonthStart(IsLeap(y), m) + d - 1 == GregorianDay(y, m, d)
  {
    hide YearStart, MonthStart, IsLeap, LeapsThruEndOf, DaysFromMarch;
    YearsApart(EPOCH_YEAR, y);
    EpochBegins();
    MonthsFromMarch(IsLeap(y), m);
    LeapsStep(y);
    LeapsAsFloors(y);
    LeapsAsFloors(y - 1);
  }

  lemma EpochBegins()
    ensures YearStart(EPOCH_YEAR) == 0 && LeapsThruEndOf(EPOCH_YEAR - 1) == 477
  {}

  /** A month has 31, 30, or in February 28 or 29 days. */
  lemma DaysInMonth(y: int, m: int)
    requires 0 <= m < 12
    ensures MonthLength(IsLeap(y), m)
         == if m in {3, 5, 8, 10} then 30 else if m == 1 then (if IsLeap(y) then 29 else 28) else 31
    ensures MonthLength(IsLeap(y), m) == (if m < 11 then GregorianDay(y, m + 1, 1) else GregorianDay(y + 1, 0, 1)) - GregorianDay(y, m, 1)
  {
    hide YearStart, MonthLength, IsLeap, GregorianDay;
    LengthsListed(IsLeap(y), m);
    DayIsGregorian(y, m, 1);
    if m < 11 {
      DayIsGregorian(y, m + 1, 1);
      MonthStep(IsLeap(y), m);
    } else {
      DayIsGregorian(y + 1, 0, 1);
      YearStep(y);
      MonthSums(IsLeap(y));
      MonthStep(IsLeap(y), m);
    }
  }

  lemma LengthsListed(leap: bool, m: int)
    requires 0 <= m < 12
    ensures MonthLength(leap, m) == if m in {3, 5, 8, 10} then 30 else if m == 1 then (if leap then 29 else 28) else 31
  {}

  lemma MonthStep(leap: bool, m: int)
    requires 0 <= m < 12
    ensures MonthStart(leap, m + 1) == MonthStart(leap, m) + MonthLength(leap, m)
    ensures MonthStart(leap, 0) == 0
  {}
}
