/** The proleptic Gregorian calendar, day by day, and the closed formula
    `timestamp` takes a date from: the 400 year eras, centuries and four year
    spans it divides by, and that it is the calendar's date for every day
    count. */
module Calendar {

  datatype Date = Date(year: int, month: int, day: int)

  // ----- The calendar -----

  predicate IsLeap(year: int) {
    year % 4 == 0 && (year % 100 != 0 || year % 400 == 0)
  }

  function MonthLength(year: int, month: int): int {
    if month == 2 then (if IsLeap(year) then 29 else 28)
    else if month in {4, 6, 9, 11} then 30
    else 31
  }

  predicate IsDate(d: Date) {
    1 <= d.month <= 12 && 1 <= d.day <= MonthLength(d.year, d.month)
  }

  const EPOCH := Date(1970, 1, 1)

  function NextDay(d: Date): Date {
    if d.day < MonthLength(d.year, d.month) then d.(day := d.day + 1)
    else if d.month < 12 then Date(d.year, d.month + 1, 1)
    else Date(d.year + 1, 1, 1)
  }

  predicate Earlier(d: Date, e: Date) {
    if d.year != e.year then d.year < e.year
    else if d.month != e.month then d.month < e.month
    else d.day < e.day
  }

  function YearLength(year: int): int {
    if IsLeap(year) then 366 else 365
  }

  function DaysBeforeYear(year: int): int
    requires year >= 1970
    decreases year
  {
    if year == 1970 then 0 else DaysBeforeYear(year - 1) + YearLength(year - 1)
  }

  function DaysBeforeMonth(year: int, month: int): int
    requires 1 <= month <= 12
    decreases month
  {
    if month == 1 then 0 else DaysBeforeMonth(year, month - 1) + MonthLength(year, month - 1)
  }

  /** How many days `d` is after 1970-01-01, counted over whole years and
      whole months. */
  function DayCount(d: Date): int
    requires d.year >= 1970 && IsDate(d)
  {
    DaysBeforeYear(d.year) + DaysBeforeMonth(d.year, d.month) + d.day - 1
  }

  // ----- The closed formula -----

  /** Days since 0000-03-01, split into the year of its 400-year era that
      starts in March and the day of that year. */
  function YearOfEra(doe: int): int {
    (doe - doe / 1460 + doe / 36524 - doe / 146096) / 365
  }

  function DayOfYear(doe: int): int {
    var yoe := YearOfEra(doe);
    doe - (365 * yoe + yoe / 4 - yoe / 100)
  }

  /** The civil date `days` days after 1970-01-01. */
  function CivilDate(days: int): Date {
    var z := days + 719468;
    var era, doe := z / 146097, z % 146097;
    var yoe, doy := YearOfEra(doe), DayOfYear(doe);
    var mp := (5 * doy + 2) / 153;
    var day := doy - (153 * mp + 2) / 5 + 1;
    var month := if mp < 10 then mp + 3 else mp - 9;
    Date(yoe + era * 400 + (if month <= 2 then 1 else 0), month, day)
  }

  // ----- The formula against the calendar -----

  /** A day by its place in the calendar's cycles: the 400-year era, the
      century of it, the 4-year group of that, the year of that, and the day
      of that year, which starts in March. */
  datatype Place = Place(era: int, century: int, group: int, year: int, day: int)

  /** The year from March of `p` ends with a 29th of February. */
  predicate LongYear(p: Place) {
    p.year == 3 && (p.group < 24 || p.century == 3)
  }

  predicate IsPlace(p: Place) {
    && 0 <= p.century <= 3 && 0 <= p.group <= 24 && 0 <= p.year <= 3
    && 0 <= p.day <= (if LongYear(p) then 365 else 364)
  }

  function DayOfEra(p: Place): int {
    36524 * p.century + 1461 * p.group + 365 * p.year + p.day
  }

  function PlaceOf(days: int): (p: Place)
    ensures IsPlace(p) && 146097 * p.era + DayOfEra(p) == days + 719468
  {
    var z := days + 719468;
    var doe := z % 146097;
    var century := if doe == 146096 then 3 else doe / 36524;
    var inCentury := doe - 36524 * century;
    var group := inCentury / 1461;
    var inGroup := inCentury - 1461 * group;
    var year := if inGroup == 1460 then 3 else inGroup / 365;
    Place(z / 146097, century, group, year, inGroup - 365 * year)
  }

  function NextPlace(p: Place): Place {
    if p.day < (if LongYear(p) then 365 else 364) then p.(day := p.day + 1)
    else if p.year < 3 then p.(year := p.year + 1, day := 0)
    else if p.group < 24 then p.(group := p.group + 1, year := 0, day := 0)
    else if p.century < 3 then p.(century := p.century + 1, group := 0, year := 0, day := 0)
    else Place(p.era + 1, 0, 0, 0, 0)
  }

  lemma PlaceIsDetermined(p: Place, q: Place)
    requires IsPlace(p) && IsPlace(q)
    requires 146097 * p.era + DayOfEra(p) == 146097 * q.era + DayOfEra(q)
    ensures p == q
  {
    assert 0 <= DayOfEra(p) <= 146096 && 0 <= DayOfEra(q) <= 146096;
    assert p.era == q.era;
    assert p.century == q.century;
    assert p.group == q.group;
    assert p.year == q.year;
  }

  lemma PlaceOfNext(days: int)
    ensures PlaceOf(days + 1) == NextPlace(PlaceOf(days))
  {
    PlaceIsDetermined(PlaceOf(days + 1), NextPlace(PlaceOf(days)));
  }

  /** The year that starts in March at `p`. */
  function MarchYear(p: Place): int {
    400 * p.era + 100 * p.century + 4 * p.group + p.year
  }

  function DateAt(p: Place): Date {
    var mp := (5 * p.day + 2) / 153;
    var month := if mp < 10 then mp + 3 else mp - 9;
    Date(MarchYear(p) + (if month <= 2 then 1 else 0), month, p.day - (153 * mp + 2) / 5 + 1)
  }

  lemma YearOfEraAt(p: Place)
    requires IsPlace(p)
    ensures YearOfEra(DayOfEra(p)) == 100 * p.century + 4 * p.group + p.year
    ensures DayOfYear(DayOfEra(p)) == p.day
  {
    var doe := DayOfEra(p);
    var over := if 24 * p.century + p.group + 365 * p.year + p.day >= 1460 then 1 else 0;
    Groups(p);
    Centuries(p);
    var y := 100 * p.century + 4 * p.group + p.year;
    YearsByDays(y, p.day - over, doe - doe / 1460 + doe / 36524 - doe / 146096);
    LeapsBefore(p);
  }

  lemma Groups(p: Place)
    requires IsPlace(p)
    ensures DayOfEra(p) / 1460 == 25 * p.century + p.group +
      if 24 * p.century + p.group + 365 * p.year + p.day >= 1460 then 1 else 0
  {
    assert DayOfEra(p) == 1460 * (25 * p.century + p.group) + (24 * p.century + p.group + 365 * p.year + p.day);
  }

  lemma Centuries(p: Place)
    requires IsPlace(p)
    ensures DayOfEra(p) / 36524 - DayOfEra(p) / 146096 == p.century
  {
    assert DayOfEra(p) == 36524 * p.century + (1461 * p.group + 365 * p.year + p.day);
    assert 1461 * p.group + 365 * p.year + p.day <= 36524;
  }

  lemma YearsByDays(y: int, day: int, days: int)
    requires 0 <= day <= 364 && days == 365 * y + day
    ensures days / 365 == y
  {
  }

  lemma LeapsBefore(p: Place)
    requires IsPlace(p)
    ensures var y := 100 * p.century + 4 * p.group + p.year; y / 4 == 25 * p.century + p.group && y / 100 == p.century
  {
  }

  lemma CivilByPlace(days: int)
    ensures CivilDate(days) == DateAt(PlaceOf(days))
  {
    var p := PlaceOf(days);
    var z := days + 719468;
    assert 0 <= DayOfEra(p) <= 146096;
    assert z / 146097 == p.era && z % 146097 == DayOfEra(p);
    YearOfEraAt(p);
  }

  lemma FullFour(q: int, r: int)
    requires 1 <= r <= 4
    ensures (4 * q + r) % 4 == 0 <==> r == 4
  {
  }

  lemma FullCentury(q: int, r: int)
    requires 1 <= r <= 100
    ensures (100 * q + r) % 100 == 0 <==> r == 100
  {
  }

  lemma FullEra(q: int, r: int)
    requires 1 <= r <= 400
    ensures (400 * q + r) % 400 == 0 <==> r == 400
  {
  }

  lemma LongYearIsLeap(p: Place)
    requires IsPlace(p)
    ensures LongYear(p) <==> IsLeap(MarchYear(p) + 1)
  {
    var r := 4 * p.group + p.year + 1;
    FullFour(100 * p.era + 25 * p.century + p.group, p.year + 1);
    FullCentury(4 * p.era + p.century, r);
    FullEra(p.era, 100 * p.century + r);
  }

  lemma DateAtIsDate(p: Place)
    requires IsPlace(p)
    ensures IsDate(DateAt(p))
  {
    LongYearIsLeap(p);
    var mp := (5 * p.day + 2) / 153;
    assert 0 <= mp <= 11;
  }

  lemma NextInYear(p: Place)
    requires IsPlace(p) && p.day < (if LongYear(p) then 365 else 364)
    ensures DateAt(p.(day := p.day + 1)) == NextDay(DateAt(p))
  {
    LongYearIsLeap(p);
    var mp := (5 * p.day + 2) / 153;
    assert 0 <= mp <= 11;
  }

  lemma LastOfYear(p: Place)
    requires IsPlace(p) && p.day == (if LongYear(p) then 365 else 364)
    ensures NextDay(DateAt(p)) == Date(MarchYear(p) + 1, 3, 1)
  {
    LongYearIsLeap(p);
  }

  lemma NextMarch(p: Place)
    requires IsPlace(p) && p.day == (if LongYear(p) then 365 else 364)
    ensures DateAt(NextPlace(p)) == Date(MarchYear(p) + 1, 3, 1)
  {
    assert NextPlace(p).day == 0 && MarchYear(NextPlace(p)) == MarchYear(p) + 1;
  }

  /** Each day's date is the calendar's next day after the date before it. */
  lemma CivilNext(days: int)
    ensures IsDate(CivilDate(days))
    ensures CivilDate(days + 1) == NextDay(CivilDate(days))
  {
    var p := PlaceOf(days);
    CivilByPlace(days);
    CivilByPlace(days + 1);
    PlaceOfNext(days);
    DateAtIsDate(p);
    if p.day == (if LongYear(p) then 365 else 364) {
      LastOfYear(p);
      NextMarch(p);
    } else {
      NextInYear(p);
      assert NextPlace(p) == p.(day := p.day + 1);
    }
  }

  lemma NextDayIsLater(d: Date)
    requires IsDate(d)
    ensures IsDate(NextDay(d)) && Earlier(d, NextDay(d)) && NextDay(d).year >= d.year
  {
  }

  lemma {:induction false} NextDayCounts(d: Date)
    requires IsDate(d) && d.year >= 1970
    ensures DayCount(NextDay(d)) == DayCount(d) + 1
  {
    if d.month == 12 && d.day == 31 {
      MonthsMakeYear(d.year);
      assert DaysBeforeMonth(d.year + 1, 1) == 0;
    }
  }

  lemma MonthsMakeYear(year: int)
    ensures DaysBeforeMonth(year, 12) + 31 == YearLength(year)
  {
    var y := year;
    assert DaysBeforeMonth(y, 4) == DaysBeforeMonth(y, 1) + 31 + MonthLength(y, 2) + 31;
    assert DaysBeforeMonth(y, 7) == DaysBeforeMonth(y, 4) + 30 + 31 + 30;
    assert DaysBeforeMonth(y, 10) == DaysBeforeMonth(y, 7) + 31 + 31 + 30;
    assert DaysBeforeMonth(y, 12) == DaysBeforeMonth(y, 10) + 31 + 30;
  }

  /** The date `days` days after 1970-01-01, counted on one day at a time. */
  function DateAfter(days: nat): Date {
    if days == 0 then EPOCH else NextDay(DateAfter(days - 1))
  }

  lemma {:induction false} DateAfterCounts(days: nat)
    ensures IsDate(DateAfter(days)) && DateAfter(days).year >= 1970
    ensures DayCount(DateAfter(days)) == days
  {
    if days == 0 {
      assert DaysBeforeYear(1970) == 0 && DaysBeforeMonth(1970, 1) == 0;
    } else {
      DateAfterCounts(days - 1);
      NextDayIsLater(DateAfter(days - 1));
      NextDayCounts(DateAfter(days - 1));
    }
  }

  lemma CivilAtEpoch()
    ensures CivilDate(0) == EPOCH
  {
    assert 719468 / 146097 == 4 && 719468 % 146097 == 135080;
    YearOfEpoch();
    assert 369 / 4 == 92 && 369 / 100 == 3;
    assert DayOfYear(135080) == 306;
    assert (5 * 306 + 2) / 153 == 10 && (153 * 10 + 2) / 5 == 306;
  }

  lemma YearOfEpoch()
    ensures YearOfEra(135080) == 369
  {
    assert 135080 / 1460 == 92 && 135080 / 36524 == 3 && 135080 / 146096 == 0;
  }

  lemma CivilTomorrow(day: nat)
    requires CivilDate(day) == DateAfter(day)
    ensures CivilDate(day + 1) == DateAfter(day + 1)
  {
    CivilNext(day);
  }

  lemma CivilIsDateAfter(days: nat)
    ensures CivilDate(days) == DateAfter(days)
  {
    CivilAtEpoch();
    for day := 0 to days
      invariant CivilDate(day) == DateAfter(day)
    {
      CivilTomorrow(day);
    }
  }

  /** The date `timestamp` takes from a day count is the date that many days
      after 1970-01-01. */
  lemma CivilCountsDays(days: nat)
    ensures CivilDate(days) == DateAfter(days)
    ensures IsDate(CivilDate(days)) && CivilDate(days).year >= 1970
    ensures DayCount(CivilDate(days)) == days
  {
    CivilIsDateAfter(days);
    DateAfterCounts(days);
  }

  /** Dates and day counts are in the same order. */
  lemma {:induction false} DateAfterKeepsOrder(m: nat, n: nat)
    requires m < n
    ensures Earlier(DateAfter(m), DateAfter(n))
    decreases n
  {
    DateAfterCounts(n - 1);
    NextDayIsLater(DateAfter(n - 1));
    if m < n - 1 {
      DateAfterKeepsOrder(m, n - 1);
    }
  }

  lemma {:induction false} LaterDatesCountMore(d: Date, e: Date)
    requires IsDate(d) && IsDate(e) && 1970 <= d.year && Earlier(d, e)
    ensures DayCount(d) < DayCount(e)
  {
    if d.year < e.year {
      DayWithinYear(d);
      YearsAddUp(d.year + 1, e.year);
      MonthsAddUp(e.year, 1, e.month);
    } else if d.month < e.month {
      MonthsAddUp(d.year, d.month + 1, e.month);
    }
  }

  lemma {:induction false} YearsAddUp(y: int, z: int)
    requires 1970 <= y <= z
    ensures DaysBeforeYear(y) <= DaysBeforeYear(z)
    decreases z
  {
    if y < z {
      YearsAddUp(y, z - 1);
    }
  }

  lemma {:induction false} MonthsAddUp(year: int, m: int, n: int)
    requires 1 <= m <= n <= 12
    ensures DaysBeforeMonth(year, m) <= DaysBeforeMonth(year, n)
    decreases n
  {
    if m < n {
      MonthsAddUp(year, m, n - 1);
    }
  }

  lemma DayWithinYear(d: Date)
    requires IsDate(d) && d.year >= 1970
    ensures DayCount(d) < DaysBeforeYear(d.year + 1)
  {
    MonthsMakeYear(d.year);
    if d.month < 12 {
      MonthsAddUp(d.year, d.month + 1, 12);
    }
  }

  /** Every date from 1970 on is the date of exactly its own day count, so
      the formula's inverse is the count. */
  lemma CivilIsInverse(d: Date)
    requires IsDate(d) && d.year >= 1970
    ensures DayCount(d) >= 0 && CivilDate(DayCount(d)) == d
  {
    YearsAddUp(1970, d.year);
    MonthsAddUp(d.year, 1, d.month);
    var e := CivilDate(DayCount(d));
    CivilCountsDays(DayCount(d));
    if Earlier(d, e) {
      LaterDatesCountMore(d, e);
    } else if Earlier(e, d) {
      LaterDatesCountMore(e, d);
    }
  }
}
