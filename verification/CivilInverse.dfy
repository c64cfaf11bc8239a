/** `_bson_timegm`: from civil fields back to seconds, by normalising and then searching all of `int64_t`. */
module CivilInverse {
  import opened Bytes
  import opened Calendar
  import opened CivilTime

  /** `tmcomp`. */
  function Tmcomp(a: Civil, b: Civil): int {
    if a.year != b.year then (if a.year < b.year then -1 else 1)
    else if a.mon != b.mon then a.mon - b.mon
    else if a.mday != b.mday then a.mday - b.mday
    else if a.hour != b.hour then a.hour - b.hour
    else if a.min != b.min then a.min - b.min
    else a.sec - b.sec
  }

  lemma {:induction false} MonthsApart(leap: bool, a: int, b: int)
    requires 0 <= a < b <= 12
    ensures MonthStart(leap, a) + MonthLength(leap, a) <= MonthStart(leap, b)
    decreases b - a
  {
    hide MonthLength;
    if a + 1 < b {
      MonthsApart(leap, a, b - 1);
      assert MonthStart(leap, b) == MonthStart(leap, b - 1) + MonthLength(leap, b - 1);
    } else {
      assert MonthStart(leap, b) == MonthStart(leap, b - 1) + MonthLength(leap, b - 1);
    }
  }

  lemma {:induction false} MonthsNotNegative(leap: bool, m: int)
    requires 0 <= m <= 12
    ensures MonthStart(leap, m) >= 0
  {
    if m > 0 {
      MonthsApart(leap, 0, m);
    }
  }

  lemma DayInYear(c: Civil)
    requires InFieldRanges(c)
    ensures var y := c.year + TM_YEAR_BASE;
            YearStart(y) <= DayOf(c) < YearStart(y + 1)
  {
    hide YearStart, MonthLength, MonthStart;
    var y := c.year + TM_YEAR_BASE;
    YearStep(y);
    MonthSums(IsLeap(y));
    MonthsApart(IsLeap(y), c.mon, 12);
    MonthsNotNegative(IsLeap(y), c.mon);
  }

  /** Within a date's day. */
  lemma EarlierDay(a: Civil, b: Civil)
    requires InFieldRanges(a) && InFieldRanges(b)
    requires a.year < b.year || (a.year == b.year && (a.mon < b.mon || (a.mon == b.mon && a.mday < b.mday)))
    ensures DayOf(a) < DayOf(b)
  {
    hide YearStart, MonthLength, MonthStart, IsLeap;
    if a.year < b.year {
      DayInYear(a);
      DayInYear(b);
      YearsMonotone(a.year + TM_YEAR_BASE + 1, b.year + TM_YEAR_BASE);
    } else if a.mon < b.mon {
      MonthsApart(IsLeap(a.year + TM_YEAR_BASE), a.mon, b.mon);
    }
  }

  /** `tmcomp` orders dates exactly as their seconds are ordered. */
  lemma TmcompOrders(a: Civil, b: Civil)
    requires InFieldRanges(a) && InFieldRanges(b)
    ensures Tmcomp(a, b) < 0 <==> SecondsOf(a) < SecondsOf(b)
    ensures Tmcomp(a, b) == 0 <==> SecondsOf(a) == SecondsOf(b)
  {
    hide DayOf, MonthLength;
    if Tmcomp(a, b) < 0 {
      Earlier(a, b);
    } else if Tmcomp(a, b) > 0 {
      Earlier(b, a);
    } else {
      assert DayOf(a) == DayOf(b) by {
        SameDay(a, b);
      }
    }
  }

  lemma SameDay(a: Civil, b: Civil)
    requires 0 <= a.mon < 12 && a.year == b.year && a.mon == b.mon && a.mday == b.mday
    ensures DayOf(a) == DayOf(b)
  {}

  lemma Earlier(a: Civil, b: Civil)
    requires InFieldRanges(a) && InFieldRanges(b) && Tmcomp(a, b) < 0
    ensures Tmcomp(b, a) > 0 && SecondsOf(a) < SecondsOf(b)
  {
    hide DayOf, MonthLength;
    if a.year != b.year || a.mon != b.mon || a.mday != b.mday {
      EarlierDay(a, b);
    } else {
      SameDay(a, b);
    }
  }

  /** `timesub` is strictly monotone, and a second has only one date. */
  lemma CivilMonotone(a: Civil, s: int, b: Civil, t: int)
    requires IsCivil(a, s) && IsCivil(b, t)
    ensures s < t <==> Tmcomp(a, b) < 0
    ensures s == t <==> a == b
  {
    hide DayOf, SecondsOf, MonthLength;
    TmcompOrders(a, b);
    if s == t {
      SameDay(a, b);
    }
  }

  lemma FourYears(y: int)
    requires y >= 1970
    ensures YearStart(y) == 365 * (y - 1970) + (y - 1969) / 4 - (y - 1901) / 100 + (y - 1601) / 400
  {
    hide YearStart, LeapsThruEndOf;
    YearsApart(EPOCH_YEAR, y);
    EpochStart();
    LeapsAsFloors(y - 1);
    LeapsAsFloors(EPOCH_YEAR - 1);
    Shift4(y - 1);
    Shift100(y - 1);
    Shift400(y - 1);
  }

  lemma Shift4(n: int)
    ensures (n - 1968) / 4 == n / 4 - 492
  {}

  lemma Shift100(n: int)
    ensures (n - 1900) / 100 == n / 100 - 19
  {}

  lemma Shift400(n: int)
    ensures (n - 1600) / 400 == n / 400 - 4
  {}

  /** "Seconds Since the Epoch", section 4.16 of POSIX.1-2017, for the fields of a date from 1970 on. */
  lemma PosixFormula(c: Civil, t: int)
    requires IsCivil(c, t) && c.year >= 70
    ensures t == c.sec + c.min * 60 + c.hour * 3600 + c.yday * 86400 + (c.year - 70) * 31536000
                 + (c.year - 69) / 4 * 86400 - (c.year - 1) / 100 * 86400 + (c.year + 299) / 400 * 86400
  {
    hide YearStart, MonthStart, MonthLength, IsLeap;
    FourYears(c.year + TM_YEAR_BASE);
  }

  /** The second a set of fields asks for: a month out of range moves the year, all else just adds up. */
  function Requested(c: Civil): int {
    SecondsOf(c.(year := c.year + c.mon / 12, mon := c.mon % 12))
  }

  const FIELD_BOUND: int := 1_000_000_000

  predicate Small(n: int) { -FIELD_BOUND <= n <= FIELD_BOUND }

  predicate Modest(c: Civil) {
    Small(c.sec) && Small(c.min) && Small(c.hour) && Small(c.mday) && Small(c.mon) && Small(c.year)
  }

  /** `increment_overflow32`, where `int_fast32_t` has 64 bits. */
  method IncrementOverflow32(l: int64, m: int64) returns (overflow: bool, r: int64)
    ensures overflow <==> (l >= 0 && l + m > INT64_MAX) || (l < 0 && l + m < INT64_MIN)
    ensures r == if overflow then l else l + m
  {
    overflow := if l >= 0 then m > INT64_MAX - l else m < INT64_MIN - l;
    r := if overflow then l else l + m;
  }

  /** The common part of both `normalize_overflow`s. */
  method TensDelta(units: int64, base: int) returns (delta: int64, rest: int64)
    requires base == 60 || base == 24 || base == 12
    ensures delta == units / base && rest == units % base
  {
    delta := if units >= 0 then Quot(units, base) else -1 - Quot(-1 - units, base);
    rest := units - delta * base;
  }

  method NormalizeOverflow(tens: int64, units: int64, base: int) returns (overflow: bool, tens': int64, units': int64)
    requires base == 60 || base == 24
    ensures units' == units % base
    ensures Small2(tens) && Small2(units) ==> !overflow
    ensures !overflow ==> tens' == tens + units / base
  {
    var delta;
    delta, units' := TensDelta(units, base);
    overflow, tens' := IncrementOverflow(tens, delta);
  }

  /** Twice what the caller may pass: room for what the smaller units carry over. */
  predicate Small2(n: int) { -2 * FIELD_BOUND <= n <= 2 * FIELD_BOUND }

  method NormalizeOverflow32(tens: int64, units: int64, base: int) returns (overflow: bool, tens': int64, units': int64)
    requires base == 12
    ensures units' == units % base
    ensures Small2(tens) && Small2(units) ==> !overflow
    ensures !overflow ==> tens' == tens + units / base
  {
    var delta;
    delta, units' := TensDelta(units, base);
    overflow, tens' := IncrementOverflow32(tens, delta);
  }

  /** The day number of day `mday` of a month, from one year's start; `mday` may be anything. */
  ghost function DayNumber(y: int, mon: int, mday: int): int
    requires 0 <= mon < 12
  {
    YearStart(y) + MonthStart(IsLeap(y), mon) + mday
  }

  /** The same month of the next year is one year length on: its own before March, the next year's after. */
  lemma SameMonthNextYear(y: int, mon: int)
    requires 0 <= mon < 12
    ensures DayNumber(y + 1, mon, 0) == DayNumber(y, mon, 0) + YearLength(y + if 1 < mon then 1 else 0)
  {
    hide YearStart, MonthStart, IsLeap;
    YearStep(y);
    MonthsAlike();
    MonthSums(true);
    MonthSums(false);
    if 2 <= mon {
      assert MonthStart(true, mon) == MonthStart(false, mon) + 1;
    }
  }

  lemma NextMonth(y: int, mon: int)
    requires 0 <= mon < 12
    ensures if mon < 11 then DayNumber(y, mon + 1, 0) == DayNumber(y, mon, 0) + MonthLength(IsLeap(y), mon)
            else DayNumber(y + 1, 0, 0) == DayNumber(y, mon, 0) + MonthLength(IsLeap(y), mon)
  {
    hide YearStart, MonthLength;
    YearStep(y);
    MonthSums(IsLeap(y));
    MonthSums(IsLeap(y + 1));
    assert MonthStart(IsLeap(y), mon + 1) == MonthStart(IsLeap(y), mon) + MonthLength(IsLeap(y), mon);
  }

  /** The three loops that bring the day of the month into range. */
  method NormalizeDay(y0: int64, mon0: int64, mday0: int64) returns (ok: bool, y: int64, mon: int64, mday: int64)
    requires 0 <= mon0 < 12
    ensures ok ==> 0 <= mon < 12 && 1 <= mday <= MonthLength(IsLeap(y), mon)
    ensures ok ==> DayNumber(y, mon, mday) == DayNumber(y0, mon0, mday0)
    ensures Small2(y0) && Small2(mday0) ==> ok && y0 - 6_000_000 <= y <= y0 + 6_000_000
  {
    hide DayNumber, YearLength, MonthLength;
    ok, y, mon, mday := true, y0, mon0, mday0;
    Shifts(y, mon, mday);
    while mday <= 0
      invariant mday <= 366 || mday == mday0
      invariant DayNumber(y, mon, mday) == DayNumber(y0, mon0, mday0)
      invariant 365 * (y0 - y) <= mday - mday0 && y <= y0
      decreases 0 - mday
    {
      ghost var before := mday;
      var overflow;
      overflow, y := IncrementOverflow32(y, -1);
      if overflow {
        return false, y, mon, mday;
      }
      SameMonthNextYear(y, mon);
      YearLengths(y + if 1 < mon then 1 else 0);
      mday := mday + YearLength(y + if 1 < mon then 1 else 0);
      Shifts(y, mon, mday);
      Shifts(y + 1, mon, before);
    }
    ghost var y1, mday1 := y, mday;
    while mday > 366
      invariant mday >= 1 && DayNumber(y, mon, mday) == DayNumber(y0, mon0, mday0)
      invariant 365 * (y - y1) <= mday1 - mday && y >= y1
    {
      ghost var before := mday;
      SameMonthNextYear(y, mon);
      YearLengths(y + if 1 < mon then 1 else 0);
      mday := mday - YearLength(y + if 1 < mon then 1 else 0);
      var overflow;
      overflow, y := IncrementOverflow32(y, 1);
      if overflow {
        return false, y, mon, mday;
      }
      Shifts(y, mon, mday);
      Shifts(y - 1, mon, before);
    }
    ghost var y2 := y;
    while mday > MonthLength(IsLeap(y), mon)
      invariant 0 <= mon < 12 && 1 <= mday <= 366 && y >= y2
      invariant DayNumber(y, mon, mday) == DayNumber(y0, mon0, mday0)
      invariant 28 * (12 * (y - y2) + mon - mon0) <= 366 - mday
      decreases mday
    {
      ghost var before := mday;
      NextMonth(y, mon);
      Shifts(y, mon, mday);
      mday := mday - MonthLength(IsLeap(y), mon);
      mon := mon + 1;
      if mon >= 12 {
        mon := 0;
        var overflow;
        overflow, y := IncrementOverflow32(y, 1);
        if overflow {
          return false, y, mon, mday;
        }
      }
      Shifts(y, mon, mday);
    }
  }

  lemma Shifts(y: int, mon: int, mday: int)
    requires 0 <= mon < 12
    ensures DayNumber(y, mon, mday) == DayNumber(y, mon, 0) + mday
  {}

  lemma YearLengths(y: int)
    ensures 365 <= YearLength(y) <= 366
  {}

  /** A date the search can find: in range, standard time, representable. */
  ghost predicate Findable(c: Civil) {
    InFieldRanges(c) && c.isdst == 0 && HasCivil(SecondsOf(c)) && INT64_MIN <= SecondsOf(c) <= INT64_MAX
  }

  /** How a guess compares with the date sought; a guess too extreme for a date counts by its sign. */
  method Compare(t: int64, yourtm: Tm, mytm: Tm) returns (dir: int)
    requires yourtm != mytm
    modifies mytm
    ensures Findable(yourtm.Fields()) ==>
              var target := SecondsOf(yourtm.Fields());
              (dir > 0 <==> t > target) && (dir < 0 <==> t < target) && (dir == 0 ==> mytm.isdst == 0)
  {
    hide SecondsOf, YearStart, MonthLength;
    var found := Timesub(t, mytm);
    if !found {
      dir := if t > 0 then 1 else -1;
      SignDecides(t);
    } else {
      dir := Tmcomp(mytm.Fields(), yourtm.Fields());
      if InFieldRanges(yourtm.Fields()) {
        TmcompOrders(mytm.Fields(), yourtm.Fields());
      }
    }
  }

  lemma SignDecides(t: int)
    requires !HasCivil(t)
    ensures forall target | HasCivil(target) :: if t > 0 then t > target else t < target
  {
    hide YearStart;
    EpochStart();
    YearsMonotone(INT_MIN + TM_YEAR_BASE, EPOCH_YEAR);
    YearsBetween(EPOCH_YEAR, INT_MAX + 1);
  }

  /**
   The binary search over all of `int64_t`: a date that can be found stays between `lo` and `hi`, each round
   shrinks the interval, and `WRONG` (here `!found`) is never the answer for such a date.
   */
  method Search(yourtm: Tm) returns (found: bool, t: int64)
    ensures Findable(yourtm.Fields()) ==> found && t == SecondsOf(yourtm.Fields())
  {
    hide Findable, SecondsOf;
    var mytm := new Tm();
    var lo: int64, hi: int64 := INT64_MIN, INT64_MAX;
    ghost var good, target := Findable(yourtm.Fields()), if InFieldRanges(yourtm.Fields()) then SecondsOf(yourtm.Fields()) else 0;
    FindableBounds(yourtm.Fields());
    while true
      invariant lo <= hi && (good ==> lo <= target <= hi)
      decreases hi - lo
    {
      t := Quot(lo, 2) + Quot(hi, 2);
      if t < lo {
        t := lo;
      } else if t > hi {
        t := hi;
      }
      var dir := Compare(t, yourtm, mytm);
      if dir != 0 {
        if t == lo {
          if t == INT64_MAX {
            return false, t;
          }
          t := t + 1;
          lo := lo + 1;
        } else if t == hi {
          if t == INT64_MIN {
            return false, t;
          }
          t := t - 1;
          hi := hi - 1;
        }
        if lo > hi {
          return false, t;
        }
        if dir > 0 {
          hi := t;
        } else {
          lo := t;
        }
        continue;
      }
      // Looking for another type of local time fails at once: the table holds the one type of Greenwich.
      found := yourtm.isdst < 0 || mytm.isdst == yourtm.isdst;
      return found, t;
    }
  }

  lemma FindableBounds(c: Civil)
    ensures Findable(c) ==> InFieldRanges(c) && c.isdst == 0 && INT64_MIN <= SecondsOf(c) <= INT64_MAX
  {}

  /** Seconds that do not belong to a minute are set aside before the search. */
  method SetAside(sec: int64, y: int64) returns (ok: bool, sec': int64, saved: int64)
    ensures 0 <= sec < 60 ==> ok && sec' == sec && saved == 0
    ensures Small(sec) ==> ok && 0 <= sec' < 60 && sec' + saved == sec
  {
    ok, sec', saved := true, sec, 0;
    if 0 <= sec < 60 {
      return;
    } else if y + TM_YEAR_BASE < EPOCH_YEAR {
      var overflow;
      overflow, sec' := IncrementOverflow(sec, 1 - 60);
      if overflow {
        return false, sec', saved;
      }
      saved := sec';
      sec' := 59;
    } else {
      saved := sec;
      sec' := 0;
    }
  }

  /** Minutes and hours, and seconds if asked, carry over into the day of the month. */
  method NormalizeClock(yourtm: Tm, doNormSecs: bool) returns (ok: bool)
    modifies yourtm
    ensures var c, c0 := yourtm.Fields(), old(yourtm.Fields());
            && (Modest(c0) ==> ok)
            && (ok ==> Within(c) == Within(c0) && 0 <= c.min < 60 && 0 <= c.hour < 24)
            && c.mon == c0.mon && c.year == c0.year && c.isdst == c0.isdst
            && (ok ==> if doNormSecs then 0 <= c.sec < 60 else c.sec == c0.sec)
            && (ok && Modest(c0) ==> Small2(c.mday))
  {
    var overflow := false;
    if doNormSecs {
      overflow, yourtm.min, yourtm.sec := NormalizeOverflow(yourtm.min, yourtm.sec, 60);
      if overflow {
        return false;
      }
    }
    overflow, yourtm.hour, yourtm.min := NormalizeOverflow(yourtm.hour, yourtm.min, 60);
    if overflow {
      return false;
    }
    overflow, yourtm.mday, yourtm.hour := NormalizeOverflow(yourtm.mday, yourtm.hour, 24);
    return !overflow;
  }

  /** Normalising everything but, possibly, the seconds. */
  method Normalize(yourtm: Tm, doNormSecs: bool) returns (ok: bool)
    modifies yourtm
    ensures var c, c0 := yourtm.Fields(), old(yourtm.Fields());
            && (Modest(c0) ==> ok)
            && (ok && Modest(c0) ==> 
                  && InFieldRanges(c.(sec := 0)) && SecondsOf(c) == Requested(c0) && c.isdst == c0.isdst
                  && (if doNormSecs then 0 <= c.sec < 60 else c.sec == c0.sec)
                  && -NEAR_YEAR <= c.year <= NEAR_YEAR)
  {
    hide DayNumber, MonthLength, YearStart, SecondsOf, Within;
    ghost var c0 := yourtm.Fields();
    ghost var y0, mon0 := c0.year + c0.mon / 12, c0.mon % 12;
    DayByNumber(c0.(year := y0, mon := mon0));
    ok := NormalizeClock(yourtm, doNormSecs);
    if !ok {
      return;
    }
    ghost var clock := yourtm.Fields();
    var overflow, y;
    overflow, y, yourtm.mon := NormalizeOverflow32(yourtm.year, yourtm.mon, 12);
    if overflow {
      return false;
    }
    overflow, y := IncrementOverflow32(y, TM_YEAR_BASE);
    if overflow {
      return false;
    }
    ghost var c1, start := yourtm.Fields(), y;
    ok, y, yourtm.mon, yourtm.mday := NormalizeDay(y, yourtm.mon, yourtm.mday);
    if !ok {
      return;
    }
    overflow, y := IncrementOverflow32(y, -TM_YEAR_BASE);
    if overflow {
      return false;
    }
    yourtm.year := y;
    ghost var c := yourtm.Fields();
    Shifts(start, c1.mon, c1.mday);
    Shifts(y + TM_YEAR_BASE, c.mon, c.mday);
    DayByNumber(c);
    WithinDay(c0, c0.(year := y0, mon := mon0));
    WithinDay(clock, c1);
    WithinDay(c1, c);
  }

  lemma WithinDay(a: Civil, b: Civil)
    requires a.hour == b.hour && a.min == b.min && a.sec == b.sec
    ensures Within(b) - Within(a) == SECSPERDAY * (b.mday - a.mday)
  {}

  lemma DayByNumber(c: Civil)
    requires 0 <= c.mon < 12
    ensures SecondsOf(c) == SECSPERDAY * (DayNumber(c.year + TM_YEAR_BASE, c.mon, 0) - 1) + Within(c)
  {}

  /** The seconds from the start of the month. */
  function Within(c: Civil): int {
    SECSPERDAY * c.mday + 3600 * c.hour + 60 * c.min + c.sec
  }

  /** Fields this close to the epoch give a second that has a date, with room to spare. */
  lemma FarFromTheEnds(c: Civil, extra: int)
    requires InFieldRanges(c.(sec := 0)) && -4 * FIELD_BOUND <= c.sec <= 4 * FIELD_BOUND && Small2(extra)
    requires -NEAR_YEAR <= c.year <= NEAR_YEAR
    ensures HasCivil(SecondsOf(c) + extra) && -0x4000_0000_0000_0000 < SecondsOf(c) + extra < 0x4000_0000_0000_0000
  {
    hide YearStart, MonthStart, MonthLength, IsLeap;
    var y := c.year + TM_YEAR_BASE;
    SameDay(c, c.(sec := 0));
    DayInYear(c.(sec := 0));
    EpochStart();
    YearsBetween(INT_MIN + TM_YEAR_BASE, -NEAR_YEAR);
    YearsBetween(-NEAR_YEAR, EPOCH_YEAR);
    YearsBetween(EPOCH_YEAR, NEAR_YEAR + 2000);
    YearsBetween(NEAR_YEAR + 2000, INT_MAX + 1);
    YearsMonotone(-NEAR_YEAR, y);
    YearsMonotone(y + 1, NEAR_YEAR + 2000);
  }

  const NEAR_YEAR: int := 2_000_000_000

  /** `int64_t` addition. */
  function Wrap64(n: int): int64 {
    var r := n % TWO_64;
    if r >= TWO_63 then r - TWO_64 else r
  }

  /** `time2sub`. */
  method Time2sub(tmp: Tm, doNormSecs: bool) returns (t: int64, okay: bool)
    modifies tmp
    ensures var c0 := old(tmp.Fields());
            Modest(c0) && c0.isdst == 0 ==> okay && t == Requested(c0) && IsCivil(tmp.Fields(), t)
  {
    hide SecondsOf, YearStart, MonthLength, HasCivil, IsCivil;
    ghost var c0 := tmp.Fields();
    var yourtm := new Tm();
    yourtm.CopyFrom(tmp);
    okay := Normalize(yourtm, doNormSecs);
    if !okay {
      return WRONG, false;
    }
    ghost var c1 := yourtm.Fields();
    var saved;
    okay, yourtm.sec, saved := SetAside(yourtm.sec, yourtm.year);
    if !okay {
      return WRONG, false;
    }
    ghost var c2 := yourtm.Fields();
    if Modest(c0) {
      SecondsAside(c1, c2, saved);
      FarFromTheEnds(c2, 0);
      FarFromTheEnds(c2, saved);
    }
    var found;
    found, t := Search(yourtm);
    if !found {
      return WRONG, false;
    }
    var newt := Wrap64(t + saved);
    if (newt < t) != (saved < 0) {
      return WRONG, false;
    }
    t := newt;
    okay := Timesub(t, tmp);
  }

  lemma SecondsAside(c1: Civil, c2: Civil, saved: int)
    requires 0 <= c1.mon < 12 && c2 == c1.(sec := c2.sec) && c2.sec + saved == c1.sec
    ensures SecondsOf(c2) + saved == SecondsOf(c1)
  {
    DayByNumber(c1);
    DayByNumber(c2);
  }

  /** `time2`: first with the seconds as given, then with seconds normalised. */
  method Time2(tmp: Tm) returns (t: int64, okay: bool)
    modifies tmp
    ensures var c0 := old(tmp.Fields());
            Modest(c0) && c0.isdst == 0 ==> okay && t == Requested(c0) && IsCivil(tmp.Fields(), t)
  {
    t, okay := Time2sub(tmp, false);
    if !okay {
      t, okay := Time2sub(tmp, true);
    }
  }

  /**
   `_bson_timegm`: the second asked for, whatever mixture of fields asks for it, and the fields themselves
   brought into range for that second.
   */
  method Timegm(tmp: Tm) returns (t: int64)
    modifies tmp
    ensures var c0 := old(tmp.Fields());
            Modest(c0) ==> t == Requested(c0) && IsCivil(tmp.Fields(), t)
  {
    hide IsCivil, DayOf;
    ghost var c0 := tmp.Fields();
    tmp.isdst := 0;
    SameRequest(c0, tmp.Fields());
    var okay;
    t, okay := Time2(tmp);
    if !okay {
      // The table has no transitions to try.
      t := WRONG;
    }
  }

  lemma SameRequest(a: Civil, b: Civil)
    requires b == a.(isdst := b.isdst)
    ensures Requested(a) == Requested(b)
  {}

  /** The formula for the usual fields, without a table: a day past its month's end runs into the next one. */
  lemma RequestedIsGregorian(c: Civil)
    requires 0 <= c.mon < 12
    ensures Requested(c) == 86400 * GregorianDay(c.year + 1900, c.mon, c.mday) + 3600 * c.hour + 60 * c.min + c.sec
  {
    hide GregorianDay;
    assert c.(year := c.year + c.mon / 12, mon := c.mon % 12) == c;
    DayIsGregorian(c.year + TM_YEAR_BASE, c.mon, c.mday);
  }

  /** So does the date of a second: its fields are those of the Gregorian calendar, and no other table's. */
  lemma CivilIsGregorian(c: Civil, t: int)
    requires IsCivil(c, t)
    ensures var y := c.year + 1900;
            && t == 86400 * GregorianDay(y, c.mon, c.mday) + 3600 * c.hour + 60 * c.min + c.sec
            && GregorianDay(y, c.mon, 1) <= GregorianDay(y, c.mon, c.mday)
                 < (if c.mon < 11 then GregorianDay(y, c.mon + 1, 1) else GregorianDay(y + 1, 0, 1))
            && c.yday == GregorianDay(y, c.mon, c.mday) - GregorianDay(y, 0, 1)
            && c.wday == (4 + GregorianDay(y, c.mon, c.mday)) % 7
  {
    hide GregorianDay, MonthLength, IsLeap, YearStart;
    var y := c.year + 1900;
    DayIsGregorian(y, c.mon, c.mday);
    DayIsGregorian(y, c.mon, 1);
    DayIsGregorian(y, 0, 1);
    MonthStep(IsLeap(y), 0);
    DaysInMonth(y, c.mon);
  }
}
