/**
  Calendar conversion of src/lib/time.c: gmtime() by field-by-field reduction,
  timegm() by a binary search over the 32-bit time_t range with shrinking
  steps.  Leap seconds and zones other than GMT are not part of this model.
 */
module Calendar {
  const SECSPERMIN := 60
  const SECSPERHOUR := 3600
  const SECSPERDAY := 86400
  const EPOCH_YEAR := 1990
  const TM_YEAR_BASE := 1900
  const WRONG := -1
  const TIME_MIN := -0x8000_0000
  const TIME_MAX := 0x7fff_ffff

  datatype Tm = Tm(sec: int, min: int, hour: int, mday: int, mon: int, year: int,
                   wday: int, yday: int, isdst: int)

  // ----- the calendar -----

  // The header's leap rule: every fourth year, centuries included
  predicate IsLeap(y: int) { y % 4 == 0 }

  function YearLen(y: int): int { if IsLeap(y) then 366 else 365 }

  function MonthLen(leap: bool, m: int): int {
    if m == 1 then (if leap then 29 else 28)
    else if m == 3 || m == 5 || m == 8 || m == 10 then 30
    else 31
  }

  // Days from 1 January of the epoch year to 1 January of year y
  function YearStart(y: int): int { 365 * (y - EPOCH_YEAR) + (y - 1) / 4 - 497 }

  // Days from 1 January to the first of month m
  function MonthStart(leap: bool, m: nat): nat {
    if m == 0 then 0 else MonthStart(leap, m - 1) + MonthLen(leap, m - 1)
  }

  function DayNo(year: int, mon: nat, mday: int): int {
    YearStart(year + TM_YEAR_BASE) + MonthStart(IsLeap(year + TM_YEAR_BASE), mon) + mday - 1
  }

  // Seconds since the epoch
  function Seconds(tm: Tm): int
    requires 0 <= tm.mon
  {
    DayNo(tm.year, tm.mon, tm.mday) * SECSPERDAY + tm.hour * SECSPERHOUR + tm.min * SECSPERMIN + tm.sec
  }

  predicate InRange(tm: Tm) {
    && 0 <= tm.sec < 60 && 0 <= tm.min < 60 && 0 <= tm.hour < 24
    && 0 <= tm.mon < 12 && 1 <= tm.mday <= MonthLen(IsLeap(tm.year + TM_YEAR_BASE), tm.mon)
  }

  lemma YearStep(y: int)
    ensures YearStart(y + 1) == YearStart(y) + YearLen(y)
  {
  }

  // The days of the year before each month
  lemma MonthTable(leap: bool)
    ensures MonthStart(leap, 0) == 0 && MonthStart(leap, 1) == 31
    ensures var d := if leap then 1 else 0;
            && MonthStart(leap, 2) == 59 + d && MonthStart(leap, 3) == 90 + d && MonthStart(leap, 4) == 120 + d
            && MonthStart(leap, 5) == 151 + d && MonthStart(leap, 6) == 181 + d && MonthStart(leap, 7) == 212 + d
            && MonthStart(leap, 8) == 243 + d && MonthStart(leap, 9) == 273 + d && MonthStart(leap, 10) == 304 + d
            && MonthStart(leap, 11) == 334 + d && MonthStart(leap, 12) == 365 + d
  {
    var d := if leap then 1 else 0;
    assert MonthStart(leap, 1) == 31;
    assert MonthStart(leap, 2) == 59 + d;
    assert MonthStart(leap, 3) == 90 + d;
    assert MonthStart(leap, 4) == 120 + d;
    assert MonthStart(leap, 5) == 151 + d;
    assert MonthStart(leap, 6) == 181 + d;
    assert MonthStart(leap, 7) == 212 + d;
    assert MonthStart(leap, 8) == 243 + d;
    assert MonthStart(leap, 9) == 273 + d;
    assert MonthStart(leap, 10) == 304 + d;
    assert MonthStart(leap, 11) == 334 + d;
  }

  // Time 0 is the start of 1990; every fourth year has a day more, at the end of February
  lemma Epoch(y: int)
    ensures Seconds(Tm(0, 0, 0, 1, 0, 90, 0, 0, 0)) == 0
    ensures YearStart(y + 1) - YearStart(y) == if y % 4 == 0 then 366 else 365
    ensures MonthLen(IsLeap(y), 1) == if y % 4 == 0 then 29 else 28
  {
    assert DayNo(90, 0, 1) == 0;
  }

  lemma {:induction false} MonthsApart(leap: bool, m: nat, n: nat)
    requires m < n <= 12
    ensures MonthStart(leap, m) + MonthLen(leap, m) <= MonthStart(leap, n)
    decreases n - m
  {
    if m + 1 < n { MonthsApart(leap, m, n - 1); }
  }

  lemma {:induction false} YearsApart(y: int, z: int)
    requires y < z
    ensures YearStart(y) + YearLen(y) <= YearStart(z)
    decreases z - y
  {
    YearStep(z - 1);
    if y + 1 < z { YearsApart(y, z - 1); }
  }

  // ----- tmcomp() orders broken-down times as the clock does -----

  function TmComp(a: Tm, b: Tm): int {
    if a.year != b.year then a.year - b.year
    else if a.mon != b.mon then a.mon - b.mon
    else if a.mday != b.mday then a.mday - b.mday
    else if a.hour != b.hour then a.hour - b.hour
    else if a.min != b.min then a.min - b.min
    else a.sec - b.sec
  }

  lemma {:induction false} DaysOrdered(a: Tm, b: Tm)
    requires InRange(a) && InRange(b)
    requires a.year < b.year || (a.year == b.year && (a.mon < b.mon || (a.mon == b.mon && a.mday < b.mday)))
    ensures DayNo(a.year, a.mon, a.mday) < DayNo(b.year, b.mon, b.mday)
  {
    var leap := IsLeap(a.year + TM_YEAR_BASE);
    if a.year < b.year {
      YearsApart(a.year + TM_YEAR_BASE, b.year + TM_YEAR_BASE);
      MonthTable(leap);
      if a.mon < 11 { MonthsApart(leap, a.mon, 12); }
    } else if a.mon < b.mon {
      MonthsApart(leap, a.mon, b.mon);
    }
  }

  lemma {:induction false} ComparesEarlier(a: Tm, b: Tm)
    requires InRange(a) && InRange(b) && TmComp(a, b) < 0
    ensures Seconds(a) < Seconds(b)
  {
    if a.year == b.year && a.mon == b.mon && a.mday == b.mday {
    } else {
      DaysOrdered(a, b);
    }
  }

  // Strict monotonicity in both directions, hence injectivity
  lemma CompareIsClockOrder(a: Tm, b: Tm)
    requires InRange(a) && InRange(b)
    ensures TmComp(a, b) < 0 <==> Seconds(a) < Seconds(b)
    ensures TmComp(a, b) == 0 <==> Seconds(a) == Seconds(b)
    ensures TmComp(a, b) > 0 <==> Seconds(a) > Seconds(b)
  {
    if TmComp(a, b) < 0 { ComparesEarlier(a, b); }
    if TmComp(a, b) > 0 { ComparesEarlier(b, a); }
  }

  // ----- gmtime() -----

  // C's truncating division and remainder
  function CDiv(a: int, b: int): int
    requires b > 0
  {
    if a >= 0 then a / b else -(-a / b)
  }

  function CMod(a: int, b: int): int
    requires b > 0
  {
    a - b * CDiv(a, b)
  }

  // The weekday, once a negative remainder has been moved up by a week
  lemma Weekday(n: int)
    ensures var w := CMod(n, 7);
            var w' := if w < 0 then w + 7 else w;
            0 <= w' < 7 && (n - w') % 7 == 0
  {
  }

  // timesub() without leap seconds: the fields are in range and recombine to the time
  method TimeSub(t: int, offset: int) returns (tm: Tm)
    ensures InRange(tm) && Seconds(tm) == t + offset
    ensures tm.yday == DayNo(tm.year, tm.mon, tm.mday) - YearStart(tm.year + TM_YEAR_BASE)
    ensures 0 <= tm.wday < 7 && (1 + DayNo(tm.year, tm.mon, tm.mday) - tm.wday) % 7 == 0
    ensures tm.isdst == 0
  {
    var days := CDiv(t, SECSPERDAY);
    var rem := CMod(t, SECSPERDAY) + offset;
    while rem < 0
      invariant days * SECSPERDAY + rem == t + offset
    {
      rem := rem + SECSPERDAY;
      days := days - 1;
    }
    while rem >= SECSPERDAY
      invariant days * SECSPERDAY + rem == t + offset && 0 <= rem
    {
      rem := rem - SECSPERDAY;
      days := days + 1;
    }
    ghost var dayno := days;
    ghost var inDay := rem;
    var hour := rem / SECSPERHOUR;
    rem := rem % SECSPERHOUR;
    var min := rem / SECSPERMIN;
    var sec := rem % SECSPERMIN;
    assert inDay == hour * SECSPERHOUR + min * SECSPERMIN + sec && 0 <= hour < 24 && 0 <= min < 60 && 0 <= sec < 60;
    var wday := CMod(1 + days, 7);
    if wday < 0 {
      wday := wday + 7;
    }
    Weekday(1 + days);
    var y: int;
    y, days := YearOf(days);
    var yday := days;
    var mon;
    mon, days := MonthOf(IsLeap(y), days);
    tm := Tm(sec, min, hour, days + 1, mon, y - TM_YEAR_BASE, wday, yday, 0);
  }

  // The loops over whole years, forwards or backwards from the epoch
  method YearOf(dayno: int) returns (y: int, days: int)
    ensures 0 <= days < YearLen(y) && YearStart(y) + days == dayno
  {
    y, days := EPOCH_YEAR, dayno;
    if days >= 0 {
      while days >= YearLen(y)
        invariant 0 <= days && YearStart(y) + days == dayno
      {
        YearStep(y);
        days := days - YearLen(y);
        y := y + 1;
      }
    } else {
      while days < 0
        invariant YearStart(y) + days == dayno && days < YearLen(y)
      {
        YearStep(y - 1);
        y := y - 1;
        days := days + YearLen(y);
      }
    }
  }

  // The loop over whole months
  method MonthOf(leap: bool, yday: int) returns (mon: nat, days: int)
    requires 0 <= yday < if leap then 366 else 365
    ensures mon < 12 && 0 <= days < MonthLen(leap, mon) && MonthStart(leap, mon) + days == yday
  {
    mon, days := 0, yday;
    MonthTable(leap);
    while days >= MonthLen(leap, mon)
      invariant mon < 12 && 0 <= days && MonthStart(leap, mon) + days == yday
      decreases 12 - mon
    {
      days := days - MonthLen(leap, mon);
      mon := mon + 1;
    }
  }
}
