/** Cron expressions: a parser to sets of values, and the search for the next
    time that matches, by the civil calendar at a fixed UTC offset (POSIX.1-2017
    Base Definitions, section 4.16). */
module Cron {
  import opened Wrappers

  /** Each field's bit mask as the set of its values. */
  datatype CronExpr = CronExpr(seconds: set<nat>, minutes: set<nat>, hours: set<nat>,
                               days: set<nat>, months: set<nat>, wdays: set<nat>,
                               domStar: bool, dowStar: bool)

  // ── The calendar ──────────────────────────────────────────────────────

  /** Days from 1970-01-01 to the first day of year `y`. */
  function YearStart(y: int): int {
    365 * (y - 1970) + (y - 1969) / 4 - (y - 1901) / 100 + (y - 1601) / 400
  }

  predicate Leap(y: int) { y % 4 == 0 && (y % 100 != 0 || y % 400 == 0) }

  function MonthStart(leap: bool, m: int): int
    requires 1 <= m <= 13
  {
    var extra := if leap && m > 2 then 1 else 0;
    extra + (if m == 1 then 0 else if m == 2 then 31 else if m == 3 then 59 else if m == 4 then 90
             else if m == 5 then 120 else if m == 6 then 151 else if m == 7 then 181 else if m == 8 then 212
             else if m == 9 then 243 else if m == 10 then 273 else if m == 11 then 304 else if m == 12 then 334 else 365)
  }

  function MonthLength(leap: bool, m: int): int
    requires 1 <= m <= 12
  {
    MonthStart(leap, m + 1) - MonthStart(leap, m)
  }

  function FirstDay(y: int, m: int): int
    requires 1 <= m <= 13
  {
    YearStart(y) + MonthStart(Leap(y), m)
  }

  lemma DivNext4(a: int)
    ensures (a + 1) / 4 == a / 4 + if (a + 1) % 4 == 0 then 1 else 0
  {
  }

  lemma DivNext100(a: int)
    ensures (a + 1) / 100 == a / 100 + if (a + 1) % 100 == 0 then 1 else 0
  {
  }

  lemma DivNext400(a: int)
    ensures (a + 1) / 400 == a / 400 + if (a + 1) % 400 == 0 then 1 else 0
  {
  }

  lemma Shift4(y: int)
    ensures (y - 1968) % 4 == y % 4
  {
  }

  lemma Shift100(y: int)
    ensures (y - 1900) % 100 == y % 100
  {
  }

  lemma Shift400(y: int)
    ensures (y - 1600) % 400 == y % 400
  {
  }

  lemma Times100(k: int)
    ensures 100 * k % 100 == 0
  {
  }

  lemma Times4(k: int)
    ensures 4 * k % 4 == 0
  {
  }

  lemma Multiples(y: int)
    ensures y % 400 == 0 ==> y % 100 == 0
    ensures y % 100 == 0 ==> y % 4 == 0
  {
    Times100(4 * (y / 400));
    Times4(25 * (y / 100));
  }

  lemma YearLength(y: int)
    ensures YearStart(y + 1) - YearStart(y) == if Leap(y) then 366 else 365
    ensures FirstDay(y, 13) == YearStart(y + 1)
  {
    DivNext4(y - 1969);
    DivNext100(y - 1901);
    DivNext400(y - 1601);
    Shift4(y);
    Shift100(y);
    Shift400(y);
    Multiples(y);
  }

  lemma {:induction false} YearsGrow(a: int, b: int)
    requires a <= b
    ensures YearStart(b) - YearStart(a) >= 365 * (b - a)
    decreases b - a
  {
    if a < b {
      YearsGrow(a, b - 1);
      YearLength(b - 1);
    }
  }

  function YearFrom(d: int, y: int): (r: int)
    requires YearStart(y) <= d
    ensures YearStart(r) <= d < YearStart(r + 1)
    decreases d - YearStart(y)
  {
    YearLength(y);
    if d < YearStart(y + 1) then y else YearFrom(d, y + 1)
  }

  /** The year of day `d`. */
  function YearOf(d: int): (y: int)
    ensures YearStart(y) <= d < YearStart(y + 1)
  {
    if d >= 0 then YearFrom(d, 1970)
    else
      YearsGrow(1970 + d / 365, 1970);
      YearFrom(d, 1970 + d / 365)
  }

  lemma YearIs(d: int, y: int)
    requires YearStart(y) <= d < YearStart(y + 1)
    ensures YearOf(d) == y
  {
    YearUnique(d, y, YearOf(d));
  }

  lemma YearUnique(d: int, y: int, r: int)
    requires YearStart(y) <= d < YearStart(y + 1) && YearStart(r) <= d < YearStart(r + 1)
    ensures r == y
  {
    if r < y { YearsGrow(r + 1, y); }
    if y < r { YearsGrow(y + 1, r); }
  }

  function MonthFrom(leap: bool, doy: int, m: int): (r: int)
    requires 1 <= m <= 12 && MonthStart(leap, m) <= doy < MonthStart(leap, 13)
    ensures m <= r <= 12 && MonthStart(leap, r) <= doy < MonthStart(leap, r + 1)
    decreases 12 - m
  {
    if doy < MonthStart(leap, m + 1) then m else MonthFrom(leap, doy, m + 1)
  }

  /** Broken-down local time; months from 1, week days from Sunday. */
  datatype Tm = Tm(year: int, mon: int, mday: int, hour: int, min: int, sec: int, wday: int)

  function DayOf(off: int, t: int): int { (t + off) / 86400 }

  // A day's number within its year.
  function Doy(d: int): (n: int)
    ensures 0 <= n < MonthStart(Leap(YearOf(d)), 13)
  {
    var y := YearOf(d);
    YearLength(y);
    d - YearStart(y)
  }

  function MonthOf(d: int): (m: int)
    ensures 1 <= m <= 12
  {
    MonthFrom(Leap(YearOf(d)), Doy(d), 1)
  }

  lemma MonthHolds(d: int)
    ensures FirstDay(YearOf(d), MonthOf(d)) <= d < FirstDay(YearOf(d), MonthOf(d) + 1)
  {
  }

  function Date(d: int, hour: int, min: int, sec: int): (r: Tm)
    ensures 1 <= r.mon <= 12
  {
    Tm(YearOf(d), MonthOf(d), d - FirstDay(YearOf(d), MonthOf(d)) + 1, hour, min, sec, (d + 4) % 7)
  }

  /** A date names its day, and no day past its month's end. */
  lemma DateNames(d: int)
    ensures var r := Date(d, 0, 0, 0);
            r.mday >= 1 && FirstDay(r.year, r.mon) + r.mday - 1 == d && r.mday <= MonthLength(Leap(r.year), r.mon)
  {
    MonthHolds(d);
  }

  function Local(off: int, t: int): (r: Tm)
    ensures 1 <= r.mon <= 12
  {
    var s := (t + off) % 86400;
    Date(DayOf(off, t), s / 3600, s % 3600 / 60, s % 60)
  }

  /** The time of a broken-down local time whose month may be 13, day 32 or
      hour 24. */
  function Mktime(off: int, year: int, mon: int, mday: int, hour: int, min: int, sec: int): int
    requires 1 <= mon <= 13
  {
    86400 * (FirstDay(year, mon) + mday - 1) + 3600 * hour + 60 * min + sec - off
  }

  lemma {:induction false} MonthsGrow(leap: bool, a: int, b: int)
    requires 1 <= a <= b <= 13
    ensures MonthStart(leap, a) <= MonthStart(leap, b) && (a < b ==> MonthStart(leap, a) + 28 <= MonthStart(leap, b))
  {
  }

  lemma MonthUnique(leap: bool, doy: int, m: int, r: int)
    requires 1 <= m <= 12 && MonthStart(leap, m) <= doy < MonthStart(leap, m + 1)
    requires 1 <= r <= 12 && MonthStart(leap, r) <= doy < MonthStart(leap, r + 1)
    ensures r == m
  {
    if r < m { MonthsGrow(leap, r + 1, m); }
    if m < r { MonthsGrow(leap, m + 1, r); }
  }

  lemma MonthInYear(y: int, m: int)
    requires 1 <= m <= 12
    ensures YearStart(y) <= FirstDay(y, m) && FirstDay(y, m + 1) <= YearStart(y + 1)
  {
    YearLength(y);
    MonthsGrow(Leap(y), 1, m);
    MonthsGrow(Leap(y), m + 1, 13);
  }

  lemma DateIs(d: int, y: int, m: int)
    requires 1 <= m <= 12 && FirstDay(y, m) <= d < FirstDay(y, m + 1)
    ensures YearOf(d) == y && MonthOf(d) == m
  {
    MonthInYear(y, m);
    YearIs(d, y);
    MonthUnique(Leap(y), Doy(d), m, MonthFrom(Leap(y), Doy(d), 1));
  }

  // ── What matches ──────────────────────────────────────────────────────

  /** The day rule: a starred field leaves the day to the other; with neither
      starred, either will do. */
  predicate DayOk(e: CronExpr, r: Tm) {
    if e.domStar && e.dowStar then true
    else if e.domStar then r.wday in e.wdays
    else if e.dowStar then r.mday in e.days
    else r.mday in e.days || r.wday in e.wdays
  }

  predicate Matches(e: CronExpr, off: int, t: int) {
    var r := Local(off, t);
    r.sec in e.seconds && r.min in e.minutes && r.hour in e.hours && r.mon in e.months && DayOk(e, r)
  }

  // ── What a jump skips ─────────────────────────────────────────────────

  function MonthAfter(off: int, r: Tm): int
    requires 1 <= r.mon <= 12
  {
    Mktime(off, r.year, r.mon + 1, 1, 0, 0, 0)
  }

  function DayAfter(off: int, r: Tm): int
    requires 1 <= r.mon <= 12
  {
    Mktime(off, r.year, r.mon, r.mday + 1, 0, 0, 0)
  }

  function HourAfter(off: int, r: Tm): int
    requires 1 <= r.mon <= 12
  {
    Mktime(off, r.year, r.mon, r.mday, r.hour + 1, 0, 0)
  }

  function NextMonth(off: int, t: int): int { MonthAfter(off, Local(off, t)) }
  function NextDay(off: int, t: int): int { DayAfter(off, Local(off, t)) }
  function NextHour(off: int, t: int): int { HourAfter(off, Local(off, t)) }

  lemma NextDayIs(off: int, t: int)
    ensures NextDay(off, t) == 86400 * (DayOf(off, t) + 1) - off > t
  {
    DateNames(DayOf(off, t));
  }

  lemma NextMonthIs(off: int, t: int)
    ensures NextMonth(off, t) == 86400 * FirstDay(Local(off, t).year, Local(off, t).mon + 1) - off > t
  {
    MonthHolds(DayOf(off, t));
  }

  lemma NextHourIs(off: int, t: int)
    ensures NextHour(off, t) == 86400 * DayOf(off, t) + 3600 * (Local(off, t).hour + 1) - off > t
  {
    DateNames(DayOf(off, t));
  }

  // The same day: the same date.
  lemma SameDay(off: int, t: int, u: int)
    requires DayOf(off, t) == DayOf(off, u)
    ensures Local(off, u).year == Local(off, t).year && Local(off, u).mon == Local(off, t).mon
    ensures Local(off, u).mday == Local(off, t).mday && Local(off, u).wday == Local(off, t).wday
  {
  }

  lemma DayBlock(off: int, t: int, u: int)
    requires t <= u < NextDay(off, t)
    ensures DayOf(off, u) == DayOf(off, t)
  {
    NextDayIs(off, t);
  }

  lemma MonthBlock(off: int, t: int, u: int)
    requires t <= u < NextMonth(off, t)
    ensures Local(off, u).year == Local(off, t).year && Local(off, u).mon == Local(off, t).mon
  {
    NextMonthIs(off, t);
    MonthHolds(DayOf(off, t));
    var r := Local(off, t);
    DateIs(DayOf(off, u), r.year, r.mon);
  }

  lemma Split(d: int, s: int)
    requires 0 <= s < 86400
    ensures (86400 * d + s) / 86400 == d && (86400 * d + s) % 86400 == s
  {
  }

  lemma Hours(h: int, r: int)
    requires 0 <= r < 3600
    ensures (3600 * h + r) / 3600 == h && (3600 * h + r) % 3600 == r
  {
  }

  lemma Minutes(m: int, r: int)
    requires 0 <= r < 60
    ensures (60 * m + r) / 60 == m && (60 * m + r) % 60 == r
  {
  }

  // Time of day and day, k seconds on within the day.
  lemma Later(off: int, t: int, u: int)
    requires t <= u && (t + off) % 86400 + (u - t) < 86400
    ensures DayOf(off, u) == DayOf(off, t) && (u + off) % 86400 == (t + off) % 86400 + (u - t)
  {
    Split(DayOf(off, t), (t + off) % 86400 + (u - t));
  }

  lemma HourBlock(off: int, t: int, u: int)
    requires t <= u < NextHour(off, t)
    ensures DayOf(off, u) == DayOf(off, t) && Local(off, u).hour == Local(off, t).hour
  {
    var s := (t + off) % 86400;
    NextHourIs(off, t);
    Later(off, t, u);
    Hours(s / 3600, s % 3600 + (u - t));
  }

  lemma Clock(m: int, s: int)
    requires 0 <= m && 0 <= s < 60
    ensures (60 * m + s) / 3600 == m / 60 && (60 * m + s) % 3600 / 60 == m % 60 && (60 * m + s) % 60 == s
  {
    var h, r := m / 60, m % 60;
    assert 60 * m + s == 3600 * h + (60 * r + s);
    Hours(h, 60 * r + s);
    Minutes(r, s);
    Minutes(m, s);
  }

  lemma SameMinute(s: int, k: int)
    requires 0 <= s && 0 <= k < 60 - s % 60
    ensures (s + k) / 3600 == s / 3600 && (s + k) % 3600 / 60 == s % 3600 / 60
  {
    Clock(s / 60, s % 60);
    Clock(s / 60, s % 60 + k);
  }

  lemma MinuteFits(s: int, k: int)
    requires 0 <= s < 86400 && 0 <= k < 60 - s % 60
    ensures s + k < 86400
  {
    assert s / 60 < 1440;
  }

  lemma MinuteBlock(off: int, t: int, u: int)
    requires t <= u < t + (60 - Local(off, t).sec)
    ensures DayOf(off, u) == DayOf(off, t) && Local(off, u).hour == Local(off, t).hour && Local(off, u).min == Local(off, t).min
  {
    var s := (t + off) % 86400;
    MinuteFits(s, u - t);
    SameMinute(s, u - t);
    Later(off, t, u);
  }

  // ── The search ────────────────────────────────────────────────────────

  /** Where the search jumps from a time whose month, day or hour is wrong. */
  function JumpOf(e: CronExpr, off: int, r: Tm): Option<int>
    requires 1 <= r.mon <= 12
  {
    if r.mon !in e.months then Some(MonthAfter(off, r))
    else if !DayOk(e, r) then Some(DayAfter(off, r))
    else if r.hour !in e.hours then Some(HourAfter(off, r))
    else None
  }

  function Jump(e: CronExpr, off: int, t: int): Option<int> { JumpOf(e, off, Local(off, t)) }

  // What a jump's target depends on.
  lemma JumpAlike(e: CronExpr, off: int, r: Tm, q: Tm)
    requires 1 <= r.mon <= 12 && q.year == r.year && q.mon == r.mon && JumpOf(e, off, r).Some?
    requires r.mon in e.months ==> q.mday == r.mday && q.wday == r.wday
    requires r.mon in e.months && DayOk(e, r) ==> q.hour == r.hour
    ensures JumpOf(e, off, q) == JumpOf(e, off, r)
  {
  }

  // Until the target, those parts stay.
  lemma PartsStay(e: CronExpr, off: int, t: int, u: int)
    requires Jump(e, off, t).Some? && t <= u < Jump(e, off, t).value
    ensures var r, q := Local(off, t), Local(off, u);
            && q.year == r.year && q.mon == r.mon
            && (r.mon in e.months ==> q.mday == r.mday && q.wday == r.wday)
            && (r.mon in e.months && DayOk(e, r) ==> q.hour == r.hour)
  {
    var r := Local(off, t);
    if r.mon !in e.months {
      MonthBlock(off, t, u);
    } else if !DayOk(e, r) {
      DayBlock(off, t, u);
      SameDay(off, t, u);
    } else {
      HourBlock(off, t, u);
      SameDay(off, t, u);
    }
  }

  lemma JumpNoMatch(e: CronExpr, off: int, u: int)
    ensures Matches(e, off, u) ==> Jump(e, off, u).None?
  {
  }

  /** No jump skips a match: everything up to the target jumps to the same
      place. */
  lemma JumpBlock(e: CronExpr, off: int, t: int, u: int)
    requires Jump(e, off, t).Some? && t <= u < Jump(e, off, t).value
    ensures Jump(e, off, u) == Jump(e, off, t) && !Matches(e, off, u)
  {
    JumpNoMatch(e, off, u);
    PartsStay(e, off, t, u);
    JumpAlike(e, off, Local(off, t), Local(off, u));
  }

  lemma JumpAdvances(e: CronExpr, off: int, t: int)
    requires Jump(e, off, t).Some?
    ensures Jump(e, off, t).value > t
  {
    NextDayIs(off, t);
    NextHourIs(off, t);
  }

  lemma MinuteKeepsJump(e: CronExpr, off: int, t: int, u: int)
    requires Jump(e, off, t).None? && t <= u < t + (60 - Local(off, t).sec)
    ensures Jump(e, off, u).None? && Local(off, u).min == Local(off, t).min
  {
    MinuteBlock(off, t, u);
    SameDay(off, t, u);
  }

  ghost predicate Quiet(e: CronExpr, off: int, from: int, to: int) {
    forall u :: from < u < to ==> !Matches(e, off, u)
  }

  ghost predicate Least(e: CronExpr, off: int, from: int, to: int, t: int) {
    from < t < to && Matches(e, off, t) && Quiet(e, off, from, t)
  }

  /** mktime cannot tell the time -1 from a failure: the search that would jump
      to it gives up. */
  ghost predicate GivesUp(e: CronExpr, off: int, from: int) {
    from < -2 && Quiet(e, off, from, -1) && Jump(e, off, -2) == Some(-1)
  }

  /** That takes a start before 1970 and an offset one second past a minute. */
  lemma GivesUpIsRare(e: CronExpr, off: int, from: int)
    requires GivesUp(e, off, from)
    ensures from < -2 && off % 60 == 1
  {
    NextDayIs(off, -2);
    NextHourIs(off, -2);
    var k := (-1 + off) / 60;
    Aligned(off);
  }

  lemma Aligned(off: int)
    requires exists d: int, h: int :: 86400 * d + 3600 * h - off == -1
    ensures off % 60 == 1
  {
    var d: int, h: int :| 86400 * d + 3600 * h - off == -1;
    assert off == 60 * (1440 * d + 60 * h) + 1;
  }

  const FOUR_YEARS := 4 * 365 * 24 * 3600

  // The month, the day or the hour is not selected: where the search goes on.
  method JumpFrom(e: CronExpr, off: int, r: Tm) returns (j: Option<int>)
    requires 1 <= r.mon <= 12
    ensures j == JumpOf(e, off, r)
  {
    if r.mon !in e.months { return Some(Mktime(off, r.year, r.mon + 1, 1, 0, 0, 0)); }
    var dayOk := DayRule(e, r);
    if !dayOk { return Some(Mktime(off, r.year, r.mon, r.mday + 1, 0, 0, 0)); }
    if r.hour !in e.hours { return Some(Mktime(off, r.year, r.mon, r.mday, r.hour + 1, 0, 0)); }
    return None;
  }

  // One turn of the search: a match, the end of it at mktime's error value, or
  // the next time to look at.
  method Turn(e: CronExpr, off: int, from: int, t: int) returns (j: int, hit: bool, gaveUp: bool)
    requires Searched(e, off, from, t)
    ensures hit ==> Matches(e, off, t) && j == t && !gaveUp
    ensures gaveUp ==> GivesUp(e, off, from)
    ensures !hit && !gaveUp ==> j > t && Searched(e, off, from, j)
  {
    var r := Local(off, t);
    j, hit, gaveUp := t, false, false;
    var jump := JumpFrom(e, off, r);
    if jump.Some? {
      Jumped(e, off, from, t);
      j := jump.value;
      gaveUp := j == -1;
    } else if r.min !in e.minutes {
      MinuteSkipped(e, off, from, t);
      j := t + (60 - r.sec);
    } else if r.sec !in e.seconds {
      SecondSkipped(e, off, from, t);
      j := t + 1;
    } else {
      hit := true;
    }
  }

  /** The least time strictly after `from` that matches, within four years; 0
      when there is none, or when the search gives up. */
  method CronNext(e: CronExpr, off: int, from: int) returns (r: int)
    ensures GivesUp(e, off, from) ==> r == 0
    ensures !GivesUp(e, off, from) && Quiet(e, off, from, from + FOUR_YEARS) ==> r == 0
    ensures !GivesUp(e, off, from) && !Quiet(e, off, from, from + FOUR_YEARS) ==> Least(e, off, from, from + FOUR_YEARS, r)
  {
    var t := from + 1;
    var limit := from + FOUR_YEARS;
    while t < limit
      invariant Searched(e, off, from, t)
      decreases limit - t
    {
      var j, hit, gaveUp := Turn(e, off, from, t);
      if gaveUp { return 0; }
      if hit {
        Found(e, off, from, t, limit);
        return t;
      }
      t := j;
    }
    return 0;
  }

  method DayRule(e: CronExpr, r: Tm) returns (dayOk: bool)
    ensures dayOk == DayOk(e, r)
  {
    var domMatch, dowMatch := r.mday in e.days, r.wday in e.wdays;
    if e.domStar && e.dowStar { dayOk := true; }
    else if e.domStar { dayOk := dowMatch; }
    else if e.dowStar { dayOk := domMatch; }
    else { dayOk := domMatch || dowMatch; }
  }

  // What the search knows when it has come to `t`.
  ghost predicate Searched(e: CronExpr, off: int, from: int, t: int) {
    from < t && Quiet(e, off, from, t) && (GivesUp(e, off, from) ==> t <= -2)
  }

  lemma QuietTo(e: CronExpr, off: int, from: int, t: int)
    requires Jump(e, off, t).Some? && Quiet(e, off, from, t)
    ensures Quiet(e, off, from, Jump(e, off, t).value)
  {
    forall u | from < u < Jump(e, off, t).value
      ensures !Matches(e, off, u)
    {
      if t <= u { JumpBlock(e, off, t, u); }
    }
  }

  // A jump keeps what the search knows, or meets -1 exactly when it gives up.
  lemma Jumped(e: CronExpr, off: int, from: int, t: int)
    requires Jump(e, off, t).Some? && Searched(e, off, from, t)
    ensures var j := Jump(e, off, t).value;
            j > t && if j == -1 then GivesUp(e, off, from) else Searched(e, off, from, j)
  {
    JumpAdvances(e, off, t);
    QuietTo(e, off, from, t);
    if t <= -2 < Jump(e, off, t).value { JumpBlock(e, off, t, -2); }
  }

  lemma MinuteSkipped(e: CronExpr, off: int, from: int, t: int)
    requires Jump(e, off, t).None? && Searched(e, off, from, t) && Local(off, t).min !in e.minutes
    ensures Local(off, t).sec < 60 && Searched(e, off, from, t + (60 - Local(off, t).sec))
  {
    var j := t + (60 - Local(off, t).sec);
    forall u | from < u < j
      ensures !Matches(e, off, u)
    {
      if t <= u { MinuteKeepsJump(e, off, t, u); }
    }
    if t <= -2 < j { MinuteKeepsJump(e, off, t, -2); }
  }

  lemma SecondSkipped(e: CronExpr, off: int, from: int, t: int)
    requires Jump(e, off, t).None? && Searched(e, off, from, t) && Local(off, t).sec !in e.seconds
    ensures Searched(e, off, from, t + 1)
  {
    assert !Matches(e, off, t);
  }

  lemma Found(e: CronExpr, off: int, from: int, t: int, limit: int)
    requires Searched(e, off, from, t) && Matches(e, off, t) && t < limit
    ensures !GivesUp(e, off, from) && Least(e, off, from, limit, t) && !Quiet(e, off, from, limit)
  {
  }

  // ── When there is a next time ─────────────────────────────────────────

  /** Every field has values, all in range: what a parsed expression satisfies. */
  ghost predicate InRange(e: CronExpr) {
    && FieldOk(e.seconds, 0, 59) && FieldOk(e.minutes, 0, 59) && FieldOk(e.hours, 0, 23)
    && FieldOk(e.days, 1, 31) && FieldOk(e.months, 1, 12) && FieldOk(e.wdays, 0, 6)
  }

  ghost predicate FieldOk(vs: set<nat>, lo: int, hi: int) {
    vs != {} && forall v :: v in vs ==> lo <= v <= hi
  }

  /** The day rule admits a date of a selected month that every year has. */
  ghost predicate Admits(e: CronExpr) {
    (e.dowStar && !e.domStar) ==>
      exists m: int, d: int :: m in e.months && d in e.days && 1 <= m <= 12 && 1 <= d <= MonthLength(false, m)
  }

  lemma Pick(vs: set<nat>) returns (v: nat)
    requires vs != {}
    ensures v in vs
  {
    var w :| w in vs;
    v := w;
  }

  lemma SomeValue(vs: set<nat>, lo: int, hi: int) returns (v: nat)
    requires FieldOk(vs, lo, hi)
    ensures v in vs && lo <= v <= hi
  {
    v := Pick(vs);
  }

  lemma TimeOfDay(h: int, mi: int, s: int)
    requires 0 <= h < 24 && 0 <= mi < 60 && 0 <= s < 60
    ensures var n := 3600 * h + 60 * mi + s; 0 <= n < 86400 && n / 3600 == h && n % 3600 / 60 == mi && n % 60 == s
  {
    Clock(60 * h + mi, s);
  }

  lemma InMonth(y: int, m: int, d: int, day: int)
    requires 1 <= m <= 12 && 1 <= d <= MonthLength(Leap(y), m) && day == FirstDay(y, m) + d - 1
    ensures YearOf(day) == y && MonthOf(day) == m
  {
    DateIs(day, y, m);
  }

  lemma DateOf(day: int, y: int, m: int, h: int, mi: int, s: int)
    requires 1 <= m <= 12 && YearOf(day) == y && MonthOf(day) == m
    ensures Date(day, h, mi, s) == Tm(y, m, day - FirstDay(y, m) + 1, h, mi, s, (day + 4) % 7)
  {
  }

  lemma LocalOf(off: int, t: int, day: int, h: int, mi: int, s: int)
    requires t + off == 86400 * day + (3600 * h + 60 * mi + s) && 0 <= h < 24 && 0 <= mi < 60 && 0 <= s < 60
    ensures Local(off, t) == Date(day, h, mi, s)
  {
    TimeOfDay(h, mi, s);
    Split(day, 3600 * h + 60 * mi + s);
    assert DayOf(off, t) == day && (t + off) % 86400 == 3600 * h + 60 * mi + s;
  }

  // A time given by date and time of day reads back.
  lemma LocalIs(off: int, t: int, y: int, m: int, d: int, h: int, mi: int, s: int)
    requires 1 <= m <= 12 && 1 <= d <= MonthLength(Leap(y), m) && 0 <= h < 24 && 0 <= mi < 60 && 0 <= s < 60
    requires t == Mktime(off, y, m, d, h, mi, s)
    ensures Local(off, t) == Tm(y, m, d, h, mi, s, (FirstDay(y, m) + d + 3) % 7)
  {
    var day := FirstDay(y, m) + d - 1;
    InMonth(y, m, d, day);
    LocalNamed(off, t, day, y, m, d, h, mi, s);
  }

  lemma LocalNamed(off: int, t: int, day: int, y: int, m: int, d: int, h: int, mi: int, s: int)
    requires 1 <= m <= 12 && YearOf(day) == y && MonthOf(day) == m && day == FirstDay(y, m) + d - 1
    requires t + off == 86400 * day + (3600 * h + 60 * mi + s) && 0 <= h < 24 && 0 <= mi < 60 && 0 <= s < 60
    ensures Local(off, t) == Tm(y, m, d, h, mi, s, (FirstDay(y, m) + d + 3) % 7)
  {
    LocalOf(off, t, day, h, mi, s);
    DateOf(day, y, m, h, mi, s);
  }

  lemma Mod7(q: int, w: int)
    requires 0 <= w <= 6
    ensures (7 * q + w) % 7 == w
  {
  }

  // The first week of a month has each week day.
  lemma FirstWeek(f: int, w: int) returns (d: int)
    requires 0 <= w <= 6
    ensures 1 <= d <= 7 && (f + d + 3) % 7 == w
  {
    var q, r := (f + 4) / 7, (f + 4) % 7;
    if w >= r {
      d := 1 + w - r;
      Mod7(q, w);
    } else {
      d := 8 + w - r;
      Mod7(q + 1, w);
    }
  }

  // A date of year `y` the day rule admits.
  lemma SomeDate(e: CronExpr, y: int) returns (m: int, d: int)
    requires InRange(e) && Admits(e)
    ensures m in e.months && 1 <= m <= 12 && 1 <= d <= MonthLength(Leap(y), m)
    ensures forall r: Tm :: r.mday == d && r.wday == (FirstDay(y, m) + d + 3) % 7 ==> DayOk(e, r)
  {
    if e.dowStar && !e.domStar {
      m, d :| m in e.months && d in e.days && 1 <= m <= 12 && 1 <= d <= MonthLength(false, m);
    } else {
      m := SomeValue(e.months, 1, 12);
      var w := SomeValue(e.wdays, 0, 6);
      d := FirstWeek(FirstDay(y, m), w);
    }
  }

  /** A parsed expression whose day rule admits a date other than 29 February
      has a match within the four years searched. */
  lemma HasNext(e: CronExpr, off: int, from: int)
    requires InRange(e) && Admits(e)
    ensures !Quiet(e, off, from, from + FOUR_YEARS)
  {
    var y := YearOf(DayOf(off, from)) + 1;
    YearLength(y - 1);
    YearLength(y);
    var m, d := SomeDate(e, y);
    var h := SomeValue(e.hours, 0, 23);
    var mi := SomeValue(e.minutes, 0, 59);
    var s := SomeValue(e.seconds, 0, 59);
    var t := Mktime(off, y, m, d, h, mi, s);
    LocalIs(off, Mktime(off, y, m, d, h, mi, s), y, m, d, h, mi, s);
    assert Matches(e, off, t);
    MonthInYear(y, m);
    assert from < t < from + FOUR_YEARS by {
      assert 86400 * DayOf(off, from) <= from + off < 86400 * (DayOf(off, from) + 1);
    }
  }

  /** A day rule that admits no date at all never matches. */
  lemma NoDateNoMatch(e: CronExpr, off: int, t: int)
    requires e.dowStar && !e.domStar && forall m: int, d: int :: m in e.months && d in e.days && 1 <= m <= 12 ==> d > MonthLength(true, m)
    ensures !Matches(e, off, t)
  {
    var r := Local(off, t);
    DateNames(DayOf(off, t));
    assert MonthLength(Leap(r.year), r.mon) <= MonthLength(true, r.mon);
  }

  // Midnight of every 29 February.
  const LeapDay := CronExpr({0}, {0}, {0}, {29}, {2}, {0, 1, 2, 3, 4, 5, 6}, false, true)

  function LeapMidnight(y: int): int { Mktime(0, y, 2, 29, 0, 0, 0) }

  /** It matches in every leap year. */
  lemma LeapDayMatches(y: int)
    requires Leap(y)
    ensures Matches(LeapDay, 0, LeapMidnight(y))
  {
    LocalIs(0, Mktime(0, y, 2, 29, 0, 0, 0), y, 2, 29, 0, 0, 0);
  }

  lemma DayParts(n: int)
    requires 0 <= n < 86400
    ensures n == 3600 * (n / 3600) + 60 * (n % 3600 / 60) + n % 60
    ensures 0 <= n / 3600 < 24 && 0 <= n % 3600 / 60 < 60 && 0 <= n % 60 < 60
  {
    Clock(n / 60, n % 60);
  }

  // Every time is the one its local date and time of day name.
  lemma LocalBack(off: int, t: int)
    ensures var r := Local(off, t);
            && t == Mktime(off, r.year, r.mon, r.mday, r.hour, r.min, r.sec)
            && 1 <= r.mday <= MonthLength(Leap(r.year), r.mon)
            && 0 <= r.hour < 24 && 0 <= r.min < 60 && 0 <= r.sec < 60
  {
    DateNames(DayOf(off, t));
    DayParts((t + off) % 86400);
  }

  /** The only date of a selected month and day that some year has is
      29 February. */
  ghost predicate OnlyLeapDay(e: CronExpr) {
    e.dowStar && !e.domStar && !Admits(e) && 2 in e.months && 29 in e.days
  }

  /** 29 February of leap year `y`, at a selected time of day, lies within the
      four years after `from`. */
  ghost predicate LeapDayAt(e: CronExpr, off: int, from: int, y: int, h: nat, mi: nat, s: nat) {
    && Leap(y) && h in e.hours && mi in e.minutes && s in e.seconds
    && from < Mktime(off, y, 2, 29, h, mi, s) < from + FOUR_YEARS
  }

  /** Some selected time of a 29 February of this year or the next four does. */
  ghost predicate LeapDaySoon(e: CronExpr, off: int, from: int) {
    var now := Local(off, from).year;
    exists y: int, h: nat, mi: nat, s: nat :: now <= y <= now + 4 && LeapDayAt(e, off, from, y, h, mi, s)
  }

  lemma ShortMonth(y: int, m: int, d: int)
    requires 1 <= m <= 12 && MonthLength(false, m) < d <= MonthLength(Leap(y), m)
    ensures m == 2 && d == 29 && Leap(y)
  {
  }

  lemma LeapDayIs(e: CronExpr, off: int, u: int)
    requires e.dowStar && !e.domStar && !Admits(e) && Matches(e, off, u)
    ensures var r := Local(off, u);
            && OnlyLeapDay(e) && Leap(r.year)
            && r.hour in e.hours && r.min in e.minutes && r.sec in e.seconds
            && u == Mktime(off, r.year, 2, 29, r.hour, r.min, r.sec)
  {
    LocalBack(off, u);
    var r := Local(off, u);
    ShortMonth(r.year, r.mon, r.mday);
  }

  lemma DaySoon(off: int, from: int, u: int)
    requires from < u < from + FOUR_YEARS
    ensures DayOf(off, from) <= DayOf(off, u) <= DayOf(off, from) + 1460
  {
  }

  lemma YearsNear(d: int, x: int, a: int, b: int)
    requires YearStart(a) <= d < YearStart(a + 1) && YearStart(b) <= x < YearStart(b + 1)
    requires d <= x <= d + 1460
    ensures a <= b <= a + 4
  {
    if b < a { YearsGrow(b + 1, a); }
    if b > a + 4 { YearsGrow(a + 1, b); }
  }

  // Within four years of `from` is this year or the next four.
  lemma YearSoon(off: int, from: int, u: int)
    requires from < u < from + FOUR_YEARS
    ensures Local(off, from).year <= Local(off, u).year <= Local(off, from).year + 4
  {
    DaySoon(off, from, u);
    var d, x := DayOf(off, from), DayOf(off, u);
    YearsNear(d, x, YearOf(d), YearOf(x));
  }

  lemma LeapDayMatch(e: CronExpr, off: int, from: int, y: int, h: nat, mi: nat, s: nat)
    requires InRange(e) && OnlyLeapDay(e) && LeapDayAt(e, off, from, y, h, mi, s)
    ensures Matches(e, off, Mktime(off, y, 2, 29, h, mi, s))
  {
    LocalIs(off, Mktime(off, y, 2, 29, h, mi, s), y, 2, 29, h, mi, s);
  }

  lemma LeapDayNear(e: CronExpr, off: int, from: int, u: int)
    requires InRange(e) && e.dowStar && !e.domStar && !Admits(e)
    requires from < u < from + FOUR_YEARS && Matches(e, off, u)
    ensures OnlyLeapDay(e) && LeapDaySoon(e, off, from)
  {
    LeapDayIs(e, off, u);
    YearSoon(off, from, u);
    LocalBack(off, u);
    var r := Local(off, u);
    assert LeapDayAt(e, off, from, r.year, r.hour, r.min, r.sec);
  }

  /** For an expression whose only date is 29 February, from any start at any
      offset: the search finds a match exactly when a selected time of such a
      day lies within its four years. */
  lemma LeapDayFound(e: CronExpr, off: int, from: int)
    requires InRange(e) && e.dowStar && !e.domStar && !Admits(e)
    ensures !Quiet(e, off, from, from + FOUR_YEARS) <==> OnlyLeapDay(e) && LeapDaySoon(e, off, from)
  {
    if !Quiet(e, off, from, from + FOUR_YEARS) {
      var u :| from < u < from + FOUR_YEARS && Matches(e, off, u);
      LeapDayNear(e, off, from, u);
    }
    if OnlyLeapDay(e) && LeapDaySoon(e, off, from) {
      LeapDayComes(e, off, from);
    }
  }

  lemma LeapDayComes(e: CronExpr, off: int, from: int)
    requires InRange(e) && OnlyLeapDay(e) && LeapDaySoon(e, off, from)
    ensures !Quiet(e, off, from, from + FOUR_YEARS)
  {
    var now := Local(off, from).year;
    var y: int, h: nat, mi: nat, s: nat :| now <= y <= now + 4 && LeapDayAt(e, off, from, y, h, mi, s);
    LeapDayMatch(e, off, from, y, h, mi, s);
  }

  /** Which expressions match within four years of `from`: those whose day rule
      admits a date other than 29 February, from every start; those that only
      have 29 February, when one is near enough; no others. */
  ghost predicate Near(e: CronExpr, off: int, from: int) {
    Admits(e) || (OnlyLeapDay(e) && LeapDaySoon(e, off, from))
  }

  lemma FoundExactly(e: CronExpr, off: int, from: int)
    requires InRange(e)
    ensures !Quiet(e, off, from, from + FOUR_YEARS) <==> Near(e, off, from)
  {
    if Admits(e) {
      HasNext(e, off, from);
    } else {
      LeapDayFound(e, off, from);
    }
  }

  lemma LeapDayOnly()
    ensures OnlyLeapDay(LeapDay)
  {
    assert MonthLength(false, 2) == 28;
  }

  lemma LeapDayTimes(u: int)
    requires Matches(LeapDay, 0, u)
    ensures u <= LeapMidnight(2024) || u >= LeapMidnight(2028)
  {
    LeapDayOnly();
    LeapDayIs(LeapDay, 0, u);
    LeapDaysGrow(Local(0, u).year);
  }

  lemma LeapDaysGrow(y: int)
    requires Leap(y)
    ensures LeapMidnight(y) <= LeapMidnight(2024) || LeapMidnight(y) >= LeapMidnight(2028)
  {
    assert y <= 2024 || y >= 2028;
    if y < 2024 { YearsGrow(y, 2024); }
    if y > 2028 { YearsGrow(2028, y); }
  }

  lemma LeapDayBetween(u: int)
    requires LeapMidnight(2024) < u < LeapMidnight(2028)
    ensures !Matches(LeapDay, 0, u)
  {
    if Matches(LeapDay, 0, u) { LeapDayTimes(u); }
  }

  lemma LeapGap()
    ensures LeapMidnight(2028) == LeapMidnight(2024) + FOUR_YEARS + 86400
  {
  }

  /** The four years are 1460 days, and 29 February comes 1461 days apart: from
      midnight of one, the search for the next finds nothing. */
  lemma LeapDayIsMissed()
    ensures Quiet(LeapDay, 0, LeapMidnight(2024), LeapMidnight(2024) + FOUR_YEARS)
    ensures LeapMidnight(2024) + FOUR_YEARS < LeapMidnight(2028)
  {
    LeapGap();
    forall u | LeapMidnight(2024) < u < LeapMidnight(2024) + FOUR_YEARS
      ensures !Matches(LeapDay, 0, u)
    {
      LeapDayBetween(u);
    }
  }

  // ── Steps in the day fields ───────────────────────────────────────────

  // Of seven leap years in a row, one has date (m, d) on week day `w`.
  lemma SomeYear(m: int, d: int, w: int) returns (y: int)
    requires 1 <= m <= 12 && 1 <= d <= MonthLength(true, m) && 0 <= w <= 6
    ensures Leap(y) && (FirstDay(y, m) + d + 3) % 7 == w
  {
    var c := MonthStart(true, m) + d + 3;
    var n := 3 * (w - 2 - c);
    var j, k := n / 7, n % 7;
    y := 2000 + 4 * k;
    LeapYears(k);
    var q := 1565 + 208 * k + 2 * (w - 2 - c) - 5 * j;
    assert 10957 + 1461 * k + c == 7 * q + w;
    Mod7(q, w);
  }

  lemma LeapYears(k: int)
    requires 0 <= k <= 6
    ensures Leap(2000 + 4 * k) && YearStart(2000 + 4 * k) == 10957 + 1461 * k
  {
  }

  /** An expression fires on no other days than its day field lists. */
  ghost predicate DaysHonoured(e: CronExpr, off: int) {
    forall t :: Matches(e, off, t) ==> Local(off, t).mday in e.days
  }

  /** With a starred day field, stepped or not, that is so only when the list
      leaves out no day of a selected month: a step is never looked at. */
  lemma DayStepIgnored(e: CronExpr, off: int)
    requires InRange(e) && e.domStar
    ensures DaysHonoured(e, off) <==>
            forall m: int, d: int :: m in e.months && 1 <= d <= MonthLength(true, m) ==> d in e.days
  {
    forall m: int, d: int | DaysHonoured(e, off) && m in e.months && 1 <= d <= MonthLength(true, m)
      ensures d in e.days
    {
      DayFires(e, off, m, d);
    }
    forall t | (forall m: int, d: int :: m in e.months && 1 <= d <= MonthLength(true, m) ==> d in e.days)
               && Matches(e, off, t)
      ensures Local(off, t).mday in e.days
    {
      LocalBack(off, t);
      var r := Local(off, t);
      assert MonthLength(Leap(r.year), r.mon) <= MonthLength(true, r.mon);
    }
  }

  // A starred day field keeps no day of a selected month from firing.
  lemma DayFires(e: CronExpr, off: int, m: int, d: int)
    requires InRange(e) && e.domStar && m in e.months && 1 <= d <= MonthLength(true, m)
    ensures exists t :: Matches(e, off, t) && Local(off, t).mday == d
  {
    var w := SomeValue(e.wdays, 0, 6);
    var h := SomeValue(e.hours, 0, 23);
    var mi := SomeValue(e.minutes, 0, 59);
    var s := SomeValue(e.seconds, 0, 59);
    var y := SomeYear(m, d, w);
    LocalIs(off, Mktime(off, y, m, d, h, mi, s), y, m, d, h, mi, s);
    var t := Mktime(off, y, m, d, h, mi, s);
    assert Matches(e, off, t) && Local(off, t).mday == d;
  }

  /** An expression fires on no other week days than its week-day field lists. */
  ghost predicate WeekDaysHonoured(e: CronExpr, off: int) {
    forall t :: Matches(e, off, t) ==> Local(off, t).wday in e.wdays
  }

  /** A date that the month and day fields select in some year. */
  ghost predicate Selected(e: CronExpr, m: int, d: int) {
    m in e.months && (e.domStar || d in e.days) && 1 <= m <= 12 && 1 <= d <= MonthLength(true, m)
  }

  /** With a starred week-day field, stepped or not, that is so only when the
      list leaves out no week day, or no date is ever selected. */
  lemma WeekDayStepIgnored(e: CronExpr, off: int)
    requires InRange(e) && e.dowStar
    ensures WeekDaysHonoured(e, off) <==>
            (forall w: int :: 0 <= w <= 6 ==> w in e.wdays) || !(exists m: int, d: int :: Selected(e, m, d))
  {
    forall m: int, d: int, w: int | WeekDaysHonoured(e, off) && Selected(e, m, d) && 0 <= w <= 6
      ensures w in e.wdays
    {
      WeekDayFires(e, off, m, d, w);
    }
    forall t | Matches(e, off, t) ensures 0 <= Local(off, t).wday <= 6 && exists m: int, d: int :: Selected(e, m, d) {
      MatchSelected(e, off, t);
    }
  }

  lemma WeekDayFires(e: CronExpr, off: int, m: int, d: int, w: int)
    requires InRange(e) && e.dowStar && Selected(e, m, d) && 0 <= w <= 6
    ensures exists t :: Matches(e, off, t) && Local(off, t).wday == w
  {
    var h := SomeValue(e.hours, 0, 23);
    var mi := SomeValue(e.minutes, 0, 59);
    var s := SomeValue(e.seconds, 0, 59);
    var y := SomeYear(m, d, w);
    LocalIs(off, Mktime(off, y, m, d, h, mi, s), y, m, d, h, mi, s);
    var t := Mktime(off, y, m, d, h, mi, s);
    assert Matches(e, off, t) && Local(off, t).wday == w;
  }

  lemma MatchSelected(e: CronExpr, off: int, t: int)
    requires InRange(e) && e.dowStar && Matches(e, off, t)
    ensures Selected(e, Local(off, t).mon, Local(off, t).mday)
  {
    LocalBack(off, t);
  }

  // ── What an expression denotes ────────────────────────────────────────

  predicate IsDigit(c: char) { '0' <= c <= '9' }
  predicate IsSpace(c: char) { c == ' ' || '\t' <= c <= '\r' }
  predicate IsBlank(c: char) { c == ' ' || c == '\t' }

  function Number(ds: string): nat
    requires forall c :: c in ds ==> IsDigit(c)
  {
    if ds == "" then 0
    else
      var c := ds[|ds| - 1];
      assert c in ds && IsDigit(c);
      10 * Number(ds[..|ds| - 1]) + (c as nat - '0' as nat)
  }

  function SkipSpace(s: string): string {
    if s != "" && IsSpace(s[0]) then SkipSpace(s[1..]) else s
  }

  const INT_MAX := 0x7FFF_FFFF

  /** A whole decimal number: spaces, a sign, digits to the end, and a value
      that fits an int. */
  function ParseInt(s: string): Option<int> {
    var r := SkipSpace(s);
    var signed := r != "" && (r[0] == '+' || r[0] == '-');
    var ds := if signed then r[1..] else r;
    if ds == "" || exists c :: c in ds && !IsDigit(c) then None
    else
      var v := if signed && r[0] == '-' then -(Number(ds) as int) else Number(ds);
      if -INT_MAX - 1 <= v <= INT_MAX then Some(v) else None
  }

  /** Where `c` first is in `s`; |s| when it is not. */
  function IndexOf(s: string, c: char): (i: nat)
    ensures i <= |s| && (i < |s| ==> s[i] == c) && c !in s[..i]
  {
    if s == "" || s[0] == c then 0 else IndexOf(s[1..], c) + 1
  }

  predicate OnStep(a: nat, v: nat, step: nat)
    requires step > 0
  {
    a <= v && (v - a) % step == 0
  }

  /** The values from `a` to `b` in steps of `step`. */
  function Steps(a: nat, b: nat, step: nat): set<nat>
    requires step > 0
  {
    set v: nat | a <= v <= b && OnStep(a, v, step)
  }

  /** What a range `N-M` or `N-M/step` denotes within lo..hi. */
  function Range(first: string, last: string, step: string, lo: nat, hi: nat): Option<set<nat>> {
    var a, b, n := ParseInt(first), ParseInt(last), ParseInt(step);
    if a.None? || b.None? || n.None? || n.value <= 0 || a.value < lo || b.value > hi || a.value > b.value then None
    else Some(Steps(a.value, b.value, n.value))
  }

  /** What one list item denotes within lo..hi. */
  function Item(tok: string, lo: nat, hi: nat): Option<set<nat>> {
    var d := IndexOf(tok, '-');
    if d < |tok| then
      var rest := tok[d + 1..];
      var j := IndexOf(rest, '/');
      if j < |rest| then Range(tok[..d], rest[..j], rest[j + 1..], lo, hi) else Range(tok[..d], rest, "1", lo, hi)
    else
      var v := ParseInt(tok);
      if v.None? || v.value < lo || v.value > hi then None else Some({v.value})
  }

  /** The pieces between commas. */
  function Pieces(s: string): seq<string>
    decreases |s|
  {
    var i := IndexOf(s, ',');
    if i == |s| then [s] else [s[..i]] + Pieces(s[i + 1..])
  }

  /** A list denotes its items' values; every item that is not empty must
      denote some. */
  function Union(ps: seq<string>, lo: nat, hi: nat): Option<set<nat>> {
    if ps == [] then Some({})
    else
      var more := Union(ps[1..], lo, hi);
      if ps[0] == "" then more
      else
        var item := Item(ps[0], lo, hi);
        if item.None? || more.None? then None else Some(item.value + more.value)
  }

  /** What a field denotes: `*`, `*` with a step, or a list. */
  function Field(s: string, lo: nat, hi: nat): Option<set<nat>>
    requires lo <= hi
  {
    if s != "" && s[0] == '*' then
      if s == "*" then Some(Steps(lo, hi, 1))
      else if s[1] != '/' then None
      else
        var n := ParseInt(s[2..]);
        if n.None? || n.value <= 0 then None else Some(Steps(lo, hi, n.value))
    else if |s| >= 128 then None
    else
      var u := Union(Pieces(s), lo, hi);
      if u.None? || u.value == {} then None else u
  }

  predicate Starred(s: string) { s != "" && s[0] == '*' }

  lemma {:induction false} UnionInRange(ps: seq<string>, lo: nat, hi: nat)
    requires Union(ps, lo, hi).Some?
    ensures forall v :: v in Union(ps, lo, hi).value ==> lo <= v <= hi
    decreases |ps|
  {
    if ps != [] { UnionInRange(ps[1..], lo, hi); }
  }

  /** A field that parses denotes at least one value, and none out of range. */
  lemma FieldInRange(s: string, lo: nat, hi: nat)
    requires lo <= hi && Field(s, lo, hi).Some?
    ensures FieldOk(Field(s, lo, hi).value, lo, hi)
  {
    if Starred(s) {
      assert lo in Field(s, lo, hi).value;
    } else {
      UnionInRange(Pieces(s), lo, hi);
    }
  }

  lemma {:induction false} UnionIs(ps: seq<string>, lo: nat, hi: nat, v: nat)
    ensures Union(ps, lo, hi).Some? <==> forall p :: p in ps && p != "" ==> Item(p, lo, hi).Some?
    ensures Union(ps, lo, hi).Some? ==>
              (v in Union(ps, lo, hi).value <==> exists p :: p in ps && p != "" && v in Item(p, lo, hi).value)
    decreases |ps|
  {
    if ps != [] {
      UnionIs(ps[1..], lo, hi, v);
      assert forall p :: p in ps <==> p == ps[0] || p in ps[1..];
    }
  }

  // ── Parsing ───────────────────────────────────────────────────────────

  lemma {:induction false} Above(n: nat, p: nat, q: nat)
    ensures p > q ==> n * p >= n * q + n
    decreases p
  {
    if p > q + 1 {
      Above(n, p - 1, q);
      assert n * p == n * (p - 1) + n;
    } else if p == q + 1 {
      assert n * p == n * q + n;
    }
  }

  lemma MultipleGap(a: nat, b: nat, n: nat)
    requires n > 0 && a % n == 0 && b % n == 0 && b <= a < b + n
    ensures a == b
  {
    var p, q := a / n, b / n;
    assert a == n * p && b == n * q;
    Above(n, p, q);
    Above(n, q, p);
  }

  lemma MultipleNext(a: nat, n: nat)
    requires n > 0 && a % n == 0
    ensures (a + n) % n == 0
  {
    var q := a / n;
    assert a + n == n * (q + 1) + 0;
    ModOfMultiple(q + 1, n);
  }

  lemma ModOfMultiple(q: nat, n: nat)
    requires n > 0
    ensures (n * q) % n == 0
  {
    if q > 0 {
      ModOfMultiple(q - 1, n);
      assert n * q == n * (q - 1) + n;
      assert (n * (q - 1) + n) % n == (n * (q - 1)) % n by { ModPlus(n * (q - 1), n); }
    }
  }

  lemma ModPlus(a: nat, n: nat)
    requires n > 0
    ensures (a + n) % n == a % n
  {
    var q, r := a / n, a % n;
    assert a == n * q + r;
    assert a + n == n * (q + 1) + r;
    QuotientUnique(a + n, n, q + 1, r);
  }

  lemma QuotientUnique(a: nat, n: nat, q: nat, r: nat)
    requires n > 0 && a == n * q + r && r < n
    ensures a % n == r
  {
    var p, x := a / n, a % n;
    assert a == n * p + x;
    Above(n, p, q);
    Above(n, q, p);
  }

  // Below the next step there is just the one value.
  lemma StepsNext(a: nat, v: nat, step: nat, b: nat)
    requires step > 0 && OnStep(a, v, step) && v <= b
    ensures forall x: nat :: v <= x <= b && x < v + step && OnStep(a, x, step) ==> x == v
    ensures OnStep(a, v + step, step)
  {
    forall x: nat | v <= x <= b && x < v + step && OnStep(a, x, step)
      ensures x == v
    {
      MultipleGap(x - a, v - a, step);
    }
    MultipleNext(v - a, step);
  }

  /** A step past the span matches the first value only, clamped or not. */
  lemma ClampIsHarmless(a: nat, b: nat, step: nat, span: nat)
    requires a <= b && b - a <= span && step > span
    ensures Steps(a, b, step) == Steps(a, b, span + 1) == {a}
  {
    StepsNext(a, a, step, b);
    StepsNext(a, a, span + 1, b);
  }

  method SetSteps(bits: set<nat>, a: nat, b: nat, step: nat) returns (r: set<nat>)
    requires step > 0 && a <= b
    ensures r == bits + Steps(a, b, step)
  {
    r := bits;
    var v := a;
    while v <= b
      invariant OnStep(a, v, step)
      invariant r == bits + set x: nat | a <= x <= b && x < v && OnStep(a, x, step)
      decreases b + step - v
    {
      StepsNext(a, v, step, b);
      r := r + {v};
      v := v + step;
    }
  }

  /** strtok_r: the next piece that is not empty, and what follows it. */
  function NextTok(s: string): (r: Option<(string, string)>)
    ensures r.Some? ==> |r.value.1| < |s| && r.value.0 != ""
    decreases |s|
  {
    if s == "" then None
    else if s[0] == ',' then NextTok(s[1..])
    else
      var i := IndexOf(s, ',');
      Some((s[..i], if i < |s| then s[i + 1..] else ""))
  }

  lemma {:induction false} NextTokUnion(s: string, lo: nat, hi: nat)
    ensures Union(Pieces(s), lo, hi) ==
            match NextTok(s)
            case None => Some({})
            case Some(t) => Union([t.0] + Pieces(t.1), lo, hi)
    decreases |s|
  {
    var i := IndexOf(s, ',');
    if s != "" && s[0] == ',' {
      assert Pieces(s) == [""] + Pieces(s[1..]);
      NextTokUnion(s[1..], lo, hi);
    } else if i < |s| {
      assert Pieces(s) == [s[..i]] + Pieces(s[i + 1..]);
    } else if s != "" {
      assert s[..i] == s;
      assert Pieces("") == [""];
      assert [""][1..] == [] && [s] + [] == [s];
      UnionHead(s, [""], lo, hi);
      UnionHead(s, [], lo, hi);
    } else {
      assert Pieces(s) == [""];
    }
  }

  // A step past the field's span is clamped first, so that it cannot overflow.
  method SetClamped(bits: set<nat>, a: nat, b: nat, step: nat, span: nat) returns (r: set<nat>)
    requires step > 0 && a <= b && b - a <= span
    ensures r == bits + Steps(a, b, step)
  {
    var n := step;
    if n > span {
      ClampIsHarmless(a, b, step, span);
      n := span + 1;
    }
    r := SetSteps(bits, a, b, n);
  }

  // A range: its ends, and a step when there is one.
  method ParseEnds(tok: string, dash: nat) returns (ok: bool, lo: int, hi: int, step: int)
    requires dash == IndexOf(tok, '-') < |tok|
    ensures var a, rest := ParseInt(tok[..dash]), tok[dash + 1..];
            var slash := IndexOf(rest, '/');
            var b, n := ParseInt(rest[..slash]), if slash < |rest| then ParseInt(rest[slash + 1..]) else Some(1);
            && (ok <==> a.Some? && b.Some? && n.Some? && n.value > 0)
            && (ok ==> lo == a.value && hi == b.value && step == n.value)
  {
    lo, hi, step := 0, 0, 1;
    var a := ParseInt(tok[..dash]);
    if a.None? { return false, lo, hi, step; }
    var rest := tok[dash + 1..];
    var slash := IndexOf(rest, '/');
    var b := ParseInt(rest[..slash]);
    if b.None? { return false, lo, hi, step; }
    if slash < |rest| {
      var n := ParseInt(rest[slash + 1..]);
      if n.None? || n.value <= 0 { return false, lo, hi, step; }
      step := n.value;
    }
    return true, a.value, b.value, step;
  }

  // A range item in terms of what `ParseEnds` reads.
  lemma RangeItem(tok: string, dash: nat, lo: nat, hi: nat)
    requires dash == IndexOf(tok, '-') < |tok|
    ensures var a, rest := ParseInt(tok[..dash]), tok[dash + 1..];
            var slash := IndexOf(rest, '/');
            var b, n := ParseInt(rest[..slash]), if slash < |rest| then ParseInt(rest[slash + 1..]) else Some(1);
            Item(tok, lo, hi) ==
            if a.None? || b.None? || n.None? || n.value <= 0 || a.value < lo || b.value > hi || a.value > b.value then None
            else Some(Steps(a.value, b.value, n.value))
  {
    var rest := tok[dash + 1..];
    OneParses();
    assert rest[..|rest|] == rest;
  }

  // One list item's values join the set.
  method ParseItem(tok: string, lo: nat, hi: nat, bits: set<nat>) returns (ok: bool, r: set<nat>)
    requires lo <= hi
    ensures ok <==> Item(tok, lo, hi).Some?
    ensures ok ==> r == bits + Item(tok, lo, hi).value
  {
    r := bits;
    var dash := IndexOf(tok, '-');
    if dash < |tok| {
      ok, r := ParseRange(tok, dash, lo, hi, bits);
    } else {
      var v := ParseInt(tok);
      ok := v.Some? && lo <= v.value <= hi;
      if ok { r := r + {v.value}; }
    }
  }

  method ParseRange(tok: string, dash: nat, lo: nat, hi: nat, bits: set<nat>) returns (ok: bool, r: set<nat>)
    requires lo <= hi && dash == IndexOf(tok, '-') < |tok|
    ensures ok <==> Item(tok, lo, hi).Some?
    ensures ok ==> r == bits + Item(tok, lo, hi).value
  {
    RangeItem(tok, dash, lo, hi);
    var good, a, b, step := ParseEnds(tok, dash);
    ok, r := good && lo <= a <= b <= hi, bits;
    if ok {
      r := SetClamped(r, a, b, step, hi - lo);
    }
  }

  lemma OneParses()
    ensures ParseInt("1") == Some(1)
  {
    assert Number("") == 0;
    assert "1"[..0] == "";
  }

  method ParseField(s: string, lo: nat, hi: nat) returns (ok: bool, bits: set<nat>, star: bool)
    requires lo <= hi
    ensures ok <==> Field(s, lo, hi).Some?
    ensures ok ==> bits == Field(s, lo, hi).value && star == Starred(s)
  {
    bits, star := {}, false;
    if s != "" && s[0] == '*' {
      var step := 1;
      if |s| > 1 && s[1] == '/' {
        var n := ParseInt(s[2..]);
        if n.None? || n.value <= 0 { return false, bits, star; }
        step := n.value;
      } else if |s| > 1 {
        return false, bits, star;
      }
      bits := SetClamped(bits, lo, hi, step, hi - lo);
      return true, bits, true;
    }
    if |s| >= 128 { return false, bits, star; }
    ok, bits := ParseList(s, lo, hi);
    ok := ok && bits != {};
  }

  method ParseList(s: string, lo: nat, hi: nat) returns (ok: bool, bits: set<nat>)
    requires lo <= hi
    ensures ok <==> Union(Pieces(s), lo, hi).Some?
    ensures ok ==> bits == Union(Pieces(s), lo, hi).value
  {
    bits := {};
    var tok := NextTok(s);
    NextTokUnion(s, lo, hi);
    PlusEmpty(Left(tok, lo, hi));
    while tok.Some?
      invariant tok.Some? ==> tok.value.0 != ""
      invariant Union(Pieces(s), lo, hi) == Plus(bits, Left(tok, lo, hi))
      decreases if tok.Some? then |tok.value.1| + 1 else 0
    {
      LeftNext(tok.value.0, tok.value.1, lo, hi, bits);
      ok, bits := ParseItem(tok.value.0, lo, hi, bits);
      if !ok { return; }
      tok := NextTok(tok.value.1);
    }
    ok := true;
  }

  ghost function Plus(bits: set<nat>, more: Option<set<nat>>): Option<set<nat>> {
    if more.None? then None else Some(bits + more.value)
  }

  lemma PlusEmpty(more: Option<set<nat>>)
    ensures Plus({}, more) == more
  {
    if more.Some? { assert {} + more.value == more.value; }
  }

  // What the list from this token on denotes.
  ghost function Left(tok: Option<(string, string)>, lo: nat, hi: nat): Option<set<nat>> {
    match tok case None => Some({}) case Some(t) => Union([t.0] + Pieces(t.1), lo, hi)
  }

  lemma LeftNext(tok: string, rest: string, lo: nat, hi: nat, bits: set<nat>)
    requires tok != ""
    ensures Item(tok, lo, hi).None? ==> Left(Some((tok, rest)), lo, hi).None?
    ensures Item(tok, lo, hi).Some? ==>
              Plus(bits, Left(Some((tok, rest)), lo, hi)) == Plus(bits + Item(tok, lo, hi).value, Left(NextTok(rest), lo, hi))
  {
    UnionHead(tok, Pieces(rest), lo, hi);
    NextTokUnion(rest, lo, hi);
    var more := Union(Pieces(rest), lo, hi);
    if Item(tok, lo, hi).Some? && more.Some? {
      assert bits + (Item(tok, lo, hi).value + more.value) == bits + Item(tok, lo, hi).value + more.value;
    }
  }

  lemma UnionHead(p: string, ps: seq<string>, lo: nat, hi: nat)
    requires p != ""
    ensures Union([p] + ps, lo, hi) ==
            if Item(p, lo, hi).None? || Union(ps, lo, hi).None? then None
            else Some(Item(p, lo, hi).value + Union(ps, lo, hi).value)
  {
    assert ([p] + ps)[1..] == ps;
  }

  // ── Whole expressions ─────────────────────────────────────────────────

  function BlankRun(s: string): (i: nat)
    ensures i <= |s| && (i < |s| ==> !IsBlank(s[i]))
  {
    if s == "" || !IsBlank(s[0]) then 0 else BlankRun(s[1..]) + 1
  }

  function WordRun(s: string): (i: nat)
    ensures i <= |s| && (i < |s| ==> IsBlank(s[i]))
  {
    if s == "" || IsBlank(s[0]) then 0 else WordRun(s[1..]) + 1
  }

  /** The words between blanks. */
  function Words(s: string): seq<string>
    decreases |s|
  {
    var r := s[BlankRun(s)..];
    if r == "" then []
    else
      var i := WordRun(r);
      [r[..i]] + Words(if i < |r| then r[i + 1..] else "")
  }

  /** What an expression denotes: five fields fire at second 0, six begin with
      the seconds. */
  function Meaning(text: string): Option<CronExpr> {
    var ws := Words(text);
    if text == "" || |text| >= 128 then None
    else if |ws| == 5 then Fields({0}, ws)
    else if |ws| == 6 && Field(ws[0], 0, 59).Some? then Fields(Field(ws[0], 0, 59).value, ws[1..])
    else None
  }

  function Fields(seconds: set<nat>, ws: seq<string>): Option<CronExpr>
    requires |ws| == 5
  {
    var mi, ho := Field(ws[0], 0, 59), Field(ws[1], 0, 23);
    var da, mo, wd := Field(ws[2], 1, 31), Field(ws[3], 1, 12), Field(ws[4], 0, 6);
    if mi.None? || ho.None? || da.None? || mo.None? || wd.None? then None
    else Some(CronExpr(seconds, mi.value, ho.value, da.value, mo.value, wd.value, Starred(ws[2]), Starred(ws[4])))
  }

  /** A parsed expression has values in every field, all in range, so its
      search finds a time whenever its day rule admits a date. */
  lemma ParsedInRange(text: string)
    requires Meaning(text).Some?
    ensures InRange(Meaning(text).value)
  {
    var ws := Words(text);
    if |ws| == 6 { FieldInRange(ws[0], 0, 59); }
    var five := if |ws| == 6 then ws[1..] else ws;
    FieldInRange(five[0], 0, 59);
    FieldInRange(five[1], 0, 23);
    FieldInRange(five[2], 1, 31);
    FieldInRange(five[3], 1, 12);
    FieldInRange(five[4], 0, 6);
  }

  /** A day or week-day field that is a star with a step gives the same
      schedule as the bare star. */
  lemma StepIsStar(seconds: set<nat>, ws: seq<string>, i: nat, off: int, t: int)
    requires |ws| == 5 && (i == 2 || i == 4) && Starred(ws[i]) && Fields(seconds, ws).Some?
    ensures Fields(seconds, ws[i := "*"]).Some?
    ensures Matches(Fields(seconds, ws).value, off, t) <==> Matches(Fields(seconds, ws[i := "*"]).value, off, t)
  {
    StarParses(1, 31);
    StarParses(0, 6);
    var e, f := Fields(seconds, ws).value, Fields(seconds, ws[i := "*"]).value;
    assert f == if i == 2 then e.(days := f.days) else e.(wdays := f.wdays);
  }

  lemma StarParses(lo: nat, hi: nat)
    requires lo <= hi
    ensures Field("*", lo, hi).Some? && Starred("*")
  {
  }

  // One word off the front.
  lemma WordsNext(s: string)
    ensures BlankRun(s) == |s| ==> Words(s) == []
    ensures BlankRun(s) < |s| ==>
              var r := s[BlankRun(s)..];
              WordRun(r) > 0 && Words(s) == [r[..WordRun(r)]] + Words(if WordRun(r) < |r| then r[WordRun(r) + 1..] else "")
  {
  }

  lemma AppendWord(ws: seq<string>, w: string, more: seq<string>)
    ensures ws + ([w] + more) == ws + [w] + more
  {
  }

  // At most n words off the front, and the rest.
  method SplitWords(text: string, n: nat) returns (fields: seq<string>, rest: string)
    ensures |fields| <= n && Words(text) == fields + Words(rest)
    ensures |fields| < n ==> rest == ""
  {
    fields, rest := [], text;
    while rest != "" && |fields| < n
      invariant |fields| <= n && Words(text) == fields + Words(rest)
      decreases |rest|
    {
      WordsNext(rest);
      WordsNext("");
      var r := rest[BlankRun(rest)..];
      if r == "" {
        rest := "";
        break;
      }
      var i := WordRun(r);
      var next := if i < |r| then r[i + 1..] else "";
      AppendWord(fields, r[..i], Words(next));
      fields := fields + [r[..i]];
      rest := next;
    }
  }

  method CronParse(text: string) returns (r: Option<CronExpr>)
    ensures r == Meaning(text)
  {
    if text == "" || |text| >= 128 { return None; }
    var fields, rest := SplitWords(text, 6);
    WordsNext(rest);
    var n := |fields|;
    if n != 5 && n != 6 { return None; }
    if BlankRun(rest) < |rest| { return None; }
    if n == 6 {
      var ok, se, st := ParseField(fields[0], 0, 59);
      if !ok { return None; }
      r := ParseFields(se, fields[1..]);
    } else {
      r := ParseFields({0}, fields);
    }
  }

  // The fields in order; the first that does not parse fails the whole.
  method ParseFields(seconds: set<nat>, ws: seq<string>) returns (r: Option<CronExpr>)
    requires |ws| == 5
    ensures r == Fields(seconds, ws)
  {
    var ok, mi, st := ParseField(ws[0], 0, 59);
    if !ok { return None; }
    var ho, da, mo, wd, dom, dow;
    ok, ho, st := ParseField(ws[1], 0, 23);
    if !ok { return None; }
    ok, da, dom := ParseField(ws[2], 1, 31);
    if !ok { return None; }
    ok, mo, st := ParseField(ws[3], 1, 12);
    if !ok { return None; }
    ok, wd, dow := ParseField(ws[4], 0, 6);
    if !ok { return None; }
    return Some(CronExpr(seconds, mi, ho, da, mo, wd, dom, dow));
  }

  /** For every parsed expression and every start from 1970 on: the search
      returns a time exactly when one is near, and then the least. */
  method NextOfParsed(text: string, off: int, from: int) returns (r: int)
    requires Meaning(text).Some? && from >= 0
    ensures r != 0 <==> Near(Meaning(text).value, off, from)
    ensures r != 0 ==> Least(Meaning(text).value, off, from, from + FOUR_YEARS, r)
  {
    var e := CronParse(text);
    ParsedInRange(text);
    FoundExactly(e.value, off, from);
    r := CronNext(e.value, off, from);
  }

  // ── The calendar, the day rule and the fields in plain terms ──────────

  lemma MonthDays(y: int, m: int)
    requires 1 <= m <= 12
    ensures MonthLength(Leap(y), m) ==
            if m == 2 then (if Leap(y) then 29 else 28) else if m in {4, 6, 9, 11} then 30 else 31
  {
  }

  /** The first second of 1970 is a Thursday's. */
  lemma Epoch(off: int, t: int, y: int)
    requires y == 1970 && t + off == 0
    ensures Local(off, t) == Tm(y, 1, 1, 0, 0, 0, 4)
  {
    assert FirstDay(y, 1) == 0;
    LocalIs(off, t, y, 1, 1, 0, 0, 0);
  }

  /** An offset shifts the clock, and every day takes the week day after the
      last. */
  lemma WeekDayTurns(off: int, t: int)
    ensures Local(off, t) == Local(0, t + off)
    ensures Local(off, t + 86400).wday == if Local(off, t).wday == 6 then 0 else Local(off, t).wday + 1
  {
    var d := DayOf(off, t);
    Split(d + 1, (t + off) % 86400);
    WeekTurns(d + 4);
  }

  lemma WeekTurns(n: int)
    ensures (n + 1) % 7 == if n % 7 == 6 then 0 else n % 7 + 1
  {
  }

  ghost predicate IsTime(h: int, mi: int, s: int) { 0 <= h < 24 && 0 <= mi < 60 && 0 <= s < 60 }

  ghost predicate IsDate(y: int, m: int, d: int) { 1 <= m <= 12 && 1 <= d <= MonthLength(Leap(y), m) }

  /** Date by date: with both day fields starred the day does not matter, with
      one starred the other decides, and with neither starred a day that is
      listed in either one fires. */
  lemma DateFires(e: CronExpr, off: int, y: int, m: int, d: int, h: int, mi: int, s: int, w: int)
    requires IsDate(y, m, d) && IsTime(h, mi, s) && w == Local(off, Mktime(off, y, m, d, h, mi, s)).wday
    ensures var t := Mktime(off, y, m, d, h, mi, s);
            var selected := m in e.months && h in e.hours && mi in e.minutes && s in e.seconds;
            && (!e.domStar && !e.dowStar ==> (Matches(e, off, t) <==> selected && (d in e.days || w in e.wdays)))
            && (!e.domStar && e.dowStar ==> (Matches(e, off, t) <==> selected && d in e.days))
            && (e.domStar && !e.dowStar ==> (Matches(e, off, t) <==> selected && w in e.wdays))
            && (e.domStar && e.dowStar ==> (Matches(e, off, t) <==> selected))
  {
    LocalIs(off, Mktime(off, y, m, d, h, mi, s), y, m, d, h, mi, s);
  }

  lemma {:induction false} NumberOfText(n: nat)
    ensures Number(Text(n)) == n
  {
    if n >= 10 {
      NumberOfText(n / 10);
      assert Text(n)[..|Text(n)| - 1] == Text(n / 10);
    } else {
      assert Text(n)[..0] == "";
    }
  }

  /** A plain number reads as itself, up to the largest int. */
  lemma TextParses(n: nat)
    ensures ParseInt(Text(n)) == if n <= INT_MAX then Some(n) else None
  {
    var s := Text(n);
    assert s[0] in s;
    NumberOfText(n);
  }

  lemma {:induction false} NotIn(s: string, c: char)
    requires c !in s
    ensures IndexOf(s, c) == |s|
  {
    if s != "" { NotIn(s[1..], c); }
  }

  lemma {:induction false} IndexAfter(a: string, c: char, b: string)
    requires c !in a
    ensures IndexOf(a + [c] + b, c) == |a|
    ensures (a + [c] + b)[..|a|] == a && (a + [c] + b)[|a| + 1..] == b
  {
    var s := a + [c] + b;
    if a != "" {
      assert s[1..] == a[1..] + [c] + b;
      IndexAfter(a[1..], c, b);
    }
  }

  lemma OnePiece(s: string, lo: nat, hi: nat)
    requires ',' !in s && s != ""
    ensures Union(Pieces(s), lo, hi) == Item(s, lo, hi)
  {
    NotIn(s, ',');
    assert Pieces(s) == [s];
    UnionHead(s, [], lo, hi);
    if Item(s, lo, hi).Some? { assert Item(s, lo, hi).value + {} == Item(s, lo, hi).value; }
  }

  lemma NumberItem(n: nat, lo: nat, hi: nat)
    ensures Item(Text(n), lo, hi) == if lo <= n <= hi && n <= INT_MAX then Some({n}) else None
  {
    NotIn(Text(n), '-');
    TextParses(n);
  }

  /** A field that is a plain number denotes that number, when it is in range. */
  lemma NumberField(n: nat, lo: nat, hi: nat)
    requires lo <= hi < 100
    ensures Field(Text(n), lo, hi) == if lo <= n <= hi then Some({n}) else None
    ensures !Starred(Text(n))
  {
    assert Text(n)[0] in Text(n);
    OnePiece(Text(n), lo, hi);
    NumberItem(n, lo, hi);
    if n <= hi { TextLength(n, 2); }
  }

  /** Two numbers and a comma denote both. */
  lemma PairField(a: nat, b: nat, lo: nat, hi: nat)
    requires lo <= a <= hi && lo <= b <= hi < 100
    ensures Field(Text(a) + "," + Text(b), lo, hi) == Some({a, b})
  {
    var s := Text(a) + "," + Text(b);
    IndexAfter(Text(a), ',', Text(b));
    assert Pieces(s) == [Text(a)] + Pieces(Text(b));
    assert ([Text(a)] + Pieces(Text(b)))[1..] == Pieces(Text(b));
    OnePiece(Text(b), lo, hi);
    NumberItem(a, lo, hi);
    NumberItem(b, lo, hi);
    TextLength(a, 2);
    TextLength(b, 2);
    assert s[0] == Text(a)[0] && Text(a)[0] in Text(a);
    assert {a} + {b} == {a, b};
  }

  /** A range with a step denotes every step-th number from the first end to
      the second. */
  lemma RangeField(a: nat, b: nat, n: nat, lo: nat, hi: nat)
    requires lo <= a <= b <= hi < 100 && 0 < n < 100
    ensures var f := Field(Text(a) + "-" + Text(b) + "/" + Text(n), lo, hi);
            f.Some? && forall v :: v in f.value <==> a <= v <= b && (v - a) % n == 0
  {
    var rest := Text(b) + "/" + Text(n);
    var s := Text(a) + "-" + rest;
    assert s == Text(a) + "-" + Text(b) + "/" + Text(n);
    RangeItemIs(a, b, n, rest, s, lo, hi);
    RangeText(a, b, n, rest, s);
    OnePiece(s, lo, hi);
    assert a in Steps(a, b, n);
  }

  lemma RangeText(a: nat, b: nat, n: nat, rest: string, s: string)
    requires a < 100 && b < 100 && n < 100
    requires rest == Text(b) + "/" + Text(n) && s == Text(a) + "-" + rest
    ensures s != "" && ',' !in s && !Starred(s) && |s| < 128
  {
    TextLength(a, 2);
    TextLength(b, 2);
    TextLength(n, 2);
    assert s[0] == Text(a)[0] && Text(a)[0] in Text(a);
  }

  lemma RangeItemIs(a: nat, b: nat, n: nat, rest: string, s: string, lo: nat, hi: nat)
    requires lo <= a <= b <= hi < 100 && 0 < n < 100
    requires rest == Text(b) + "/" + Text(n) && s == Text(a) + "-" + rest
    ensures Item(s, lo, hi) == Some(Steps(a, b, n))
  {
    IndexAfter(Text(a), '-', rest);
    IndexAfter(Text(b), '/', Text(n));
    TextParses(a);
    TextParses(b);
    TextParses(n);
  }

  /** A star denotes the whole range, with a step every step-th of it. */
  lemma StarField(n: nat, lo: nat, hi: nat)
    requires lo <= hi && 0 < n <= INT_MAX
    ensures var f := Field("*", lo, hi); f.Some? && forall v :: v in f.value <==> lo <= v <= hi
    ensures var f := Field("*/" + Text(n), lo, hi);
            f.Some? && forall v :: v in f.value <==> lo <= v <= hi && (v - lo) % n == 0
  {
    TextParses(n);
    assert ("*/" + Text(n))[2..] == Text(n);
  }

  lemma {:induction false} OneWord(w: string, rest: string)
    requires w != "" && forall c :: c in w ==> !IsBlank(c)
    ensures WordRun(w + " " + rest) == |w| && WordRun(w) == |w|
  {
    assert w[0] in w;
    if |w| > 1 {
      assert (w + " " + rest)[1..] == w[1..] + " " + rest;
      OneWord(w[1..], rest);
    }
  }

  lemma WordFirst(w: string, rest: string)
    requires w != "" && forall c :: c in w ==> !IsBlank(c)
    ensures Words(w + " " + rest) == [w] + Words(rest) && Words(w) == [w]
  {
    var s := w + " " + rest;
    assert w[0] in w && s[0] == w[0];
    OneWord(w, rest);
    WordsNext(s);
    WordsNext(w);
    WordsNext("");
    assert s[0..] == s && w[0..] == w;
    assert s[..|w|] == w && s[|w| + 1..] == rest && w[..|w|] == w;
    assert [w] + [] == [w];
  }

  lemma NumberFirst(n: nat, rest: string)
    ensures Words(Text(n) + " " + rest) == [Text(n)] + Words(rest) && Words(Text(n)) == [Text(n)]
  {
    WordFirst(Text(n), rest);
  }

  /** Numbers with a blank between two of them. */
  function Spaced(ns: seq<nat>): string
    requires ns != []
  {
    if |ns| == 1 then Text(ns[0]) else Text(ns[0]) + " " + Spaced(ns[1..])
  }

  ghost predicate AreTexts(ws: seq<string>, ns: seq<nat>) {
    |ws| == |ns| && forall i :: 0 <= i < |ns| ==> ws[i] == Text(ns[i])
  }

  lemma {:induction false} SpacedWords(ns: seq<nat>)
    requires ns != []
    ensures AreTexts(Words(Spaced(ns)), ns)
    decreases |ns|
  {
    var rest := Spaced(if |ns| == 1 then ns else ns[1..]);
    NumberFirst(ns[0], rest);
    if |ns| > 1 {
      var more := Words(rest);
      SpacedWords(ns[1..]);
      TextsNext(ns, more);
    }
  }

  lemma TextsNext(ns: seq<nat>, more: seq<string>)
    requires ns != [] && AreTexts(more, ns[1..])
    ensures AreTexts([Text(ns[0])] + more, ns)
  {
  }

  ghost predicate Small(ns: seq<nat>) { forall i :: 0 <= i < |ns| ==> ns[i] < 100 }

  lemma {:induction false} SpacedLength(ns: seq<nat>)
    requires ns != []
    ensures Spaced(ns) != "" && (Small(ns) ==> |Spaced(ns)| < 3 * |ns|)
    decreases |ns|
  {
    if Small(ns) { TextLength(ns[0], 2); }
    if |ns| > 1 { SpacedLength(ns[1..]); }
  }

  predicate FiveRanges(ns: seq<nat>)
    requires |ns| == 5
  {
    ns[0] < 60 && ns[1] < 24 && 1 <= ns[2] <= 31 && 1 <= ns[3] <= 12 && ns[4] <= 6
  }

  function FivePlain(seconds: set<nat>, ns: seq<nat>): Option<CronExpr>
    requires |ns| == 5
  {
    if ns[0] < 60 && ns[1] < 24 && 1 <= ns[2] <= 31 && 1 <= ns[3] <= 12 && ns[4] <= 6
    then Some(CronExpr(seconds, {ns[0]}, {ns[1]}, {ns[2]}, {ns[3]}, {ns[4]}, false, false))
    else None
  }

  /** Five plain numbers are minute, hour, day, month and week day, in that
      order, and parse exactly when each is in its range. */
  lemma FiveNumbers(ns: seq<nat>)
    requires |ns| == 5
    ensures Meaning(Spaced(ns)) == FivePlain({0}, ns)
  {
    var text := Spaced(ns);
    SpacedWords(ns);
    SpacedShort(ns, text);
    var ws := Words(text);
    FieldsOf(ns, {0}, ws);
    MeaningFive(text, ws, FivePlain({0}, ns));
  }

  lemma SpacedShort(ns: seq<nat>, text: string)
    requires |ns| == 5 && text == Spaced(ns)
    ensures text != "" && (FivePlain({0}, ns).Some? ==> |text| < 15)
  {
    SpacedLength(ns);
  }

  lemma MeaningFive(text: string, ws: seq<string>, m: Option<CronExpr>)
    requires Words(text) == ws && |ws| == 5 && Fields({0}, ws) == m
    requires text != "" && (m.Some? ==> |text| < 128)
    ensures Meaning(text) == m
  {
  }

  lemma MeaningSix(text: string, n: nat, ws: seq<string>, m: Option<CronExpr>)
    requires Words(text) == [Text(n)] + ws && |ws| == 5 && Fields({n}, ws) == m
    requires text != "" && (m.Some? && n < 60 ==> |text| < 128)
    ensures Meaning(text) == if n < 60 then m else None
  {
    NumberField(n, 0, 59);
    assert ([Text(n)] + ws)[1..] == ws;
  }

  lemma FieldsOf(ns: seq<nat>, seconds: set<nat>, ws: seq<string>)
    requires |ns| == 5 && AreTexts(ws, ns)
    ensures Fields(seconds, ws) == FivePlain(seconds, ns)
  {
    NumberField(ns[0], 0, 59);
    NumberField(ns[1], 0, 23);
    NumberField(ns[2], 1, 31);
    NumberField(ns[3], 1, 12);
    NumberField(ns[4], 0, 6);
  }

  /** A sixth number in front is the second. */
  lemma SixNumbers(n: nat, ns: seq<nat>)
    requires |ns| == 5
    ensures Meaning(Text(n) + " " + Spaced(ns)) == if n < 60 then FivePlain({n}, ns) else None
  {
    var rest := Spaced(ns);
    SpacedWords(ns);
    SpacedShort(ns, rest);
    NumberFirst(n, rest);
    var ws := Words(rest);
    FieldsOf(ns, {n}, ws);
    if n < 60 { TextLength(n, 2); }
    MeaningSix(Text(n) + " " + rest, n, ws, FivePlain({n}, ns));
  }
}
