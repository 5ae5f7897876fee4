/**
  timegm() of src/lib/time.c: normalisation of the fields, then a search for
  the time_t whose gmtime() fields match.
 */
module TimeSearch {
  import opened Calendar
  import opened Arithmetic

  // ----- normalise() -----

  function Norm(tens: int, units: int, base: int): (int, int)
    requires base > 0
  {
    if units >= base then (tens + units / base, units % base)
    else if units < 0 then (tens - (1 + -units / base), base - -units % base)
    else (tens, units)
  }

  // normalise() conserves the total, and leaves units in range unless they were a negative
  // exact multiple of the base
  lemma NormExact(tens: int, units: int, base: int)
    requires base > 0
    ensures var (t, u) := Norm(tens, units, base);
            && t * base + u == tens * base + units && 0 <= u <= base
            && (u == base <==> units < 0 && -units % base == 0)
  {
    var q := (if units < 0 then -units else units) / base;
    assert (tens - (1 + q)) * base == tens * base - base - q * base;
    assert (tens + q) * base == tens * base + q * base;
  }

  // The fields after the four normalise() calls of time2(); tm_sec up to 61 is left alone
  function Carried(tm: Tm): Tm {
    var (min1, sec1) := if tm.sec >= 62 || tm.sec < 0 then Norm(tm.min, tm.sec, 60) else (tm.min, tm.sec);
    var (hour1, min2) := Norm(tm.hour, min1, 60);
    var (mday1, hour2) := Norm(tm.mday, hour1, 24);
    var (year1, mon1) := Norm(tm.year, tm.mon, 12);
    tm.(sec := sec1, min := min2, hour := hour2, mday := mday1, mon := mon1, year := year1)
  }

  lemma CarriedExact(tm: Tm)
    ensures var c := Carried(tm);
            && c.mday * SECSPERDAY + c.hour * SECSPERHOUR + c.min * SECSPERMIN + c.sec
               == tm.mday * SECSPERDAY + tm.hour * SECSPERHOUR + tm.min * SECSPERMIN + tm.sec
            && c.year * 12 + c.mon == tm.year * 12 + tm.mon
            && 0 <= c.sec < 62 && 0 <= c.min <= 60 && 0 <= c.hour <= 24 && 0 <= c.mon <= 12
            && (c.mon == 12 <==> tm.mon < 0 && -tm.mon % 12 == 0)
  {
    NormExact(tm.min, tm.sec, 60);
    var min1 := if tm.sec >= 62 || tm.sec < 0 then Norm(tm.min, tm.sec, 60).0 else tm.min;
    NormExact(tm.hour, min1, 60);
    NormExact(tm.mday, Norm(tm.hour, min1, 60).0, 24);
    NormExact(tm.year, tm.mon, 12);
  }

  // The loop that moves a day number below 1 into earlier years
  function BackUp(year: int, mday: int): (int, int)
    decreases if mday > 0 then 0 else 1 - mday
  {
    if mday > 0 then (year, mday)
    else BackUp(year - 1, mday + YearLen(year - 1 + TM_YEAR_BASE))
  }

  function Leap(year: int): int { if IsLeap(year + TM_YEAR_BASE) then 1 else 0 }

  // Backing up keeps the date, except that from March on it is off by one whenever the
  // years it starts and ends in differ in being leap years
  lemma {:induction false} BackUpDay(year: int, mon: nat, mday: int)
    requires mon < 12
    ensures var (y, d) := BackUp(year, mday);
            d > 0 && DayNo(y, mon, d) == DayNo(year, mon, mday) + if mon >= 2 then Leap(y) - Leap(year) else 0
    decreases if mday > 0 then 0 else 1 - mday
  {
    if mday <= 0 {
      BackUpDay(year - 1, mon, mday + YearLen(year - 1 + TM_YEAR_BASE));
      YearStep(year - 1 + TM_YEAR_BASE);
      LeapMonths(mon);
    }
  }

  // Leap years shift the start of every month from March on by one day
  lemma {:induction false} LeapMonths(m: nat)
    requires m < 12
    ensures MonthStart(true, m) - MonthStart(false, m) == if m >= 2 then 1 else 0
  {
    if m > 0 { LeapMonths(m - 1); }
  }

  // How many years before `year` the last leap year began
  function SinceLeap(year: int): (k: int)
    ensures 1 <= k <= 4
  {
    var r := (year + TM_YEAR_BASE) % 4;
    if r == 0 then 4 else r
  }

  // The day -mday days before the year falls into a leap year
  predicate IntoLeap(year: int, mday: int) {
    var back := -mday % 1461;
    365 * (SinceLeap(year) - 1) <= back <= 365 * SinceLeap(year)
  }

  // What the date moves by, once a day number below 1 has been moved into earlier years
  function DaySlip(year: int, mon: int, mday: int): int {
    if mday > 0 || mon < 2 || IntoLeap(year, mday) == IsLeap(year + TM_YEAR_BASE) then 0
    else if IsLeap(year + TM_YEAR_BASE) then -1 else 1
  }

  // Where the loop ends
  lemma {:induction false} BackUpYear(year: int, mday: int)
    requires mday <= 0
    ensures var (y, d) := BackUp(year, mday);
            && y < year && 1 <= d <= YearLen(y + TM_YEAR_BASE)
            && YearStart(y + TM_YEAR_BASE) + d == YearStart(year + TM_YEAR_BASE) + mday
    decreases 1 - mday
  {
    var next := mday + YearLen(year - 1 + TM_YEAR_BASE);
    YearStep(year - 1 + TM_YEAR_BASE);
    if next <= 0 { BackUpYear(year - 1, next); } else { assert BackUp(year, mday) == (year - 1, next); }
  }

  lemma {:induction false} BackUpLeap(year: int, mday: int)
    requires mday <= 0
    ensures IsLeap(BackUp(year, mday).0 + TM_YEAR_BASE) <==> IntoLeap(year, mday)
  {
    BackUpYear(year, mday);
    var (y, d) := BackUp(year, mday);
    LeapByDays(year + TM_YEAR_BASE, y + TM_YEAR_BASE, -mday, d);
  }

  // The calendar repeats after 1461 days
  lemma {:induction false} LeapByDays(to: int, y: int, back: nat, d: int)
    requires y < to && 1 <= d <= YearLen(y) && YearStart(y) + d + back == YearStart(to)
    ensures var k := if to % 4 == 0 then 4 else to % 4;
            IsLeap(y) <==> 365 * (k - 1) <= back % 1461 <= 365 * k
  {
    var a, b := to / 4, y / 4;
    var r, s := to % 4, y % 4;
    var k := if r == 0 then 4 else r;
    var cycles := if r == 0 then a - b - 1 else a - b;
    assert to == 4 * a + r && y == 4 * b + s;
    if s == 0 {
      assert back == 1461 * cycles + 365 * k + 1 - d;
      Cycles(back, cycles, 365 * k + 1 - d);
    } else if k > s {
      assert back == 1461 * cycles + 365 * (k - s) - d;
      Cycles(back, cycles, 365 * (k - s) - d);
    } else {
      assert back == 1461 * (cycles - 1) + 1461 + 365 * (k - s) - d;
      Cycles(back, cycles - 1, 1461 + 365 * (k - s) - d);
    }
  }

  lemma Cycles(n: nat, q: int, r: int)
    requires n == 1461 * q + r && 0 <= r < 1461
    ensures n % 1461 == r
  {
  }

  // Backing up is right exactly when the day falls into a leap year just if the year is one
  lemma {:induction false} BackUpExact(year: int, mon: nat, mday: int)
    requires mon < 12
    ensures var (y, d) := BackUp(year, mday);
            && DayNo(y, mon, d) == DayNo(year, mon, mday) + DaySlip(year, mon, mday)
            && (DayNo(y, mon, d) == DayNo(year, mon, mday) <==>
                  mday > 0 || mon < 2 || IntoLeap(year, mday) == IsLeap(year + TM_YEAR_BASE))
  {
    BackUpDay(year, mon, mday);
    if mday <= 0 { BackUpLeap(year, mday); }
  }

  // A date for which it is wrong: 0 March 1993, the last day of February, comes out as 1 March
  lemma BackUpWrong()
    ensures var (y, d) := BackUp(93, 0);
            DayNo(y, 2, d) == DayNo(93, 2, 1) == DayNo(93, 2, 0) + 1
  {
    assert BackUp(93, 0) == (92, 366);
    MonthTable(true);
    MonthTable(false);
  }

  method FixDay(year0: int, mon0: nat, mday0: int) returns (year: int, mon: nat, mday: int)
    requires mon0 < 12
    ensures mon < 12 && 1 <= mday <= MonthLen(IsLeap(year + TM_YEAR_BASE), mon)
    ensures var (y, d) := BackUp(year0, mday0);
            DayNo(year, mon, mday) == DayNo(y, mon0, d)
  {
    year, mon, mday := year0, mon0, mday0;
    while mday <= 0
      invariant BackUp(year, mday) == BackUp(year0, mday0)
      decreases 1 - mday
    {
      year := year - 1;
      mday := mday + YearLen(year + TM_YEAR_BASE);
    }
    ghost var day := DayNo(year, mon, mday);
    while mday > MonthLen(IsLeap(year + TM_YEAR_BASE), mon)
      invariant mon < 12 && 1 <= mday && DayNo(year, mon, mday) == day
      decreases mday
    {
      var leap := IsLeap(year + TM_YEAR_BASE);
      mday := mday - MonthLen(leap, mon);
      mon := mon + 1;
      if mon >= 12 {
        MonthTable(leap);
        YearStep(year + TM_YEAR_BASE);
        mon := 0;
        year := year + 1;
      }
    }
  }

  // ----- the search -----

  lemma Pow2Of31()
    ensures Pow2(30) == 0x4000_0000 && Pow2(31) == 0x8000_0000
  {
    assert Pow2(5) == 32;
    assert Pow2(10) == 1024;
    assert Pow2(15) == 32768;
    assert Pow2(20) == 1048576;
    assert Pow2(25) == 33554432;
  }

  function Wrap32(n: int): int {
    (n + 0x8000_0000) % 0x1_0000_0000 - 0x8000_0000
  }

  // The loop that counts the magnitude bits of a time_t by shifting a one out of it
  method MagnitudeBits() returns (bits: nat)
    ensures bits == 31
  {
    var t := 1;
    bits := 0;
    Pow2Of31();
    while t > 0
      invariant bits <= 31 && t == if bits < 31 then Pow2(bits) else TIME_MIN
      decreases 31 - bits
    {
      Pow2Bound(bits);
      bits := bits + 1;
      t := Wrap32(2 * t);
    }
  }

  lemma {:induction false} Pow2Bound(n: nat)
    requires n <= 30
    ensures Pow2(n) <= 0x4000_0000 && (n < 30 ==> Pow2(n) <= 0x2000_0000)
    decreases 30 - n
  {
    if n == 30 { Pow2Of31(); } else { Pow2Bound(n + 1); }
  }

  ghost predicate Reaches(target: Tm, offset: int) {
    InRange(target) && TIME_MIN <= Seconds(target) - offset <= TIME_MAX
  }

  // The search never leaves the time_t range, and finds the unique matching time iff there is one
  method Search(target: Tm, offset: int) returns (found: bool, t: int)
    requires target.mon >= 0
    ensures found <==> Reaches(target, offset)
    ensures found ==> t == Seconds(target) - offset
    ensures TIME_MIN <= t <= TIME_MAX
  {
    var bits: int := MagnitudeBits();
    t := 0;
    Pow2Of31();
    while true
      invariant -1 <= bits <= 31
      invariant bits >= 0 ==> Pow2(bits) - 0x8000_0000 <= t <= 0x8000_0000 - Pow2(bits)
      invariant TIME_MIN <= t <= TIME_MAX
      invariant Reaches(target, offset) ==>
                  var d := Seconds(target) - offset - t;
                  if bits < 0 then d == 0 else 0 <= d + Pow2(bits) && d < Pow2(bits)
      decreases bits
    {
      var mine := TimeSub(t, offset);
      var dir := TmComp(mine, target);
      if InRange(target) { CompareIsClockOrder(mine, target); }
      if dir == 0 {
        assert InRange(target);
        return true, t;
      }
      if bits < 0 {
        return false, t;
      }
      bits := bits - 1;
      if bits < 0 {
        t := t - 1;
      } else if dir > 0 {
        t := t - Pow2(bits);
      } else {
        t := t + Pow2(bits);
      }
    }
  }

  // ----- time2(), time1() and timegm() -----

  // The memory that time2() reads: a month that is a negative multiple of 12 would index
  // past the month table
  predicate MonthReadable(tm: Tm) {
    !(tm.mon < 0 && -tm.mon % 12 == 0)
  }

  // The start of the minute that the fields denote, the day of the month counted from its first
  function Denoted(tm: Tm): int
    requires MonthReadable(tm)
  {
    var c := Carried(tm);
    CarriedExact(tm);
    DayNo(c.year, c.mon, c.mday) * SECSPERDAY + c.hour * SECSPERHOUR + c.min * SECSPERMIN
  }

  function Slip(tm: Tm): int {
    DaySlip(Carried(tm).year, Carried(tm).mon, Carried(tm).mday)
  }

  // The start of the minute that time2() looks for
  function MinuteStart(tm: Tm): int
    requires MonthReadable(tm)
  {
    Denoted(tm) + Slip(tm) * SECSPERDAY
  }

  // When timegm() succeeds: no minute or hour is a negative exact multiple of its base after
  // the carries, the minute starts inside the time_t range, and no daylight saving is asked for
  predicate Convertible(tm: Tm, offset: int)
    requires MonthReadable(tm)
  {
    && Carried(tm).min < 60 && Carried(tm).hour < 24
    && TIME_MIN <= MinuteStart(tm) - offset <= TIME_MAX
    && tm.isdst <= 0
  }

  // With the zone state of GMT, whose one time type has tt_isdst == 0, the hunt for another
  // type always fails, here and in time1()
  method Time2(tm: Tm, offset: int) returns (okay: bool, t: int, after: Tm)
    requires MonthReadable(tm)
    ensures okay <==> Convertible(tm, offset)
    ensures okay ==> t == Wrap32(MinuteStart(tm) - offset + Carried(tm).sec)
    ensures okay ==> (t == Wrap32(Denoted(tm) - offset + Carried(tm).sec) <==> Slip(tm) == 0)
    ensures okay ==> InRange(after) && Seconds(after) == t + offset
    ensures !okay ==> t == WRONG && after == tm
  {
    var yours := Carried(tm);
    CarriedExact(tm);
    BackUpExact(yours.year, yours.mon, yours.mday);
    var y, m, d := FixDay(yours.year, yours.mon, yours.mday);
    yours := yours.(year := y, mon := m, mday := d);
    var seconds := yours.sec;
    yours := yours.(sec := 0);
    assert Seconds(yours) == MinuteStart(tm);
    var found;
    found, t := Search(yours, offset);
    if !found || yours.isdst > 0 {
      return false, WRONG, tm;
    }
    WrapsApart(Denoted(tm) - offset + seconds, Slip(tm));
    t := Wrap32(t + seconds);
    after := TimeSub(t, offset);
    okay := true;
  }

  // A day more or less is not lost in the width of a time_t
  lemma WrapsApart(n: int, slip: int)
    requires -1 <= slip <= 1
    ensures Wrap32(n + slip * SECSPERDAY) == Wrap32(n) <==> slip == 0
  {
  }

  method Time1(tm0: Tm, offset: int) returns (t: int, after: Tm)
    requires MonthReadable(tm0)
    ensures t == if Convertible(tm0, offset) then Wrap32(MinuteStart(tm0) - offset + Carried(tm0).sec) else WRONG
    ensures Convertible(tm0, offset) ==> (t == Wrap32(Denoted(tm0) - offset + Carried(tm0).sec) <==> Slip(tm0) == 0)
  {
    var tm := if tm0.isdst > 1 then tm0.(isdst := 1) else tm0;
    assert Carried(tm) == Carried(tm0).(isdst := tm.isdst);
    var okay;
    okay, t, after := Time2(tm, offset);
    if !okay {
      t := WRONG;
    }
  }

  // For fields already in range nothing is carried, and the result is the clock's own count
  lemma InRangeConverts(tm: Tm)
    requires InRange(tm) && tm.isdst <= 0
    ensures MonthReadable(tm) && Carried(tm) == tm && MinuteStart(tm) == Seconds(tm) - tm.sec
    ensures Convertible(tm, 0) <==> TIME_MIN <= Seconds(tm) - tm.sec <= TIME_MAX
  {
  }

  // timegm(gmtime(t)) == t exactly for those t whose minute starts in the time_t range
  method RoundTrip(t: int) returns (back: int)
    requires TIME_MIN <= t <= TIME_MAX
    ensures TIME_MIN <= t - t % 60 ==> back == t
    ensures t - t % 60 < TIME_MIN ==> back == WRONG
    ensures back == t <==> TIME_MIN <= t - t % 60
  {
    var tm := TimeSub(t, 0);
    InRangeConverts(tm);
    MinuteOf(tm);
    var after;
    back, after := Time1(tm, 0);
  }

  lemma MinuteOf(tm: Tm)
    requires InRange(tm)
    ensures Seconds(tm) % 60 == tm.sec
  {
    var day := DayNo(tm.year, tm.mon, tm.mday);
    var minutes := day * 1440 + tm.hour * 60 + tm.min;
    assert Seconds(tm) == 60 * minutes + tm.sec;
    Remainder(minutes, tm.sec);
  }

  lemma Remainder(q: int, r: int)
    requires 0 <= r < 60
    ensures (60 * q + r) % 60 == r
  {
  }

  // The other way round: broken-down times that timegm() accepts come back unchanged
  method RoundTripFields(tm: Tm) returns (t: int, back: Tm)
    requires InRange(tm) && tm.isdst <= 0 && TIME_MIN <= Seconds(tm) - tm.sec && Seconds(tm) <= TIME_MAX
    ensures t == Seconds(tm)
    ensures (back.year, back.mon, back.mday, back.hour, back.min, back.sec)
         == (tm.year, tm.mon, tm.mday, tm.hour, tm.min, tm.sec)
  {
    var after;
    t, after := Time1(tm, 0);
    assert t == Seconds(tm) by { InRangeConverts(tm); }
    back := TimeSub(t, 0);
    CompareIsClockOrder(tm, back);
  }
}
