/** Civil dates and day numbers: two closed forms that must be inverse, checked against the
    Gregorian rules and the plain notion of the next day. */
module Calendar {
  import opened Numerics

  datatype Date = Date(year: int, month: nat, day: nat) {
    predicate Valid() {
      1 <= month <= 12 && 1 <= day <= DaysIn(year, month)
    }

    /** The Gregorian calendar's own successor. */
    function Next(): Date
      requires Valid()
    {
      if day < DaysIn(year, month) then Date(year, month, day + 1)
      else if month < 12 then Date(year, month + 1, 1)
      else Date(year + 1, 1, 1)
    }
  }

  predicate IsLeap(year: int) {
    year % 4 == 0 && (year % 100 != 0 || year % 400 == 0)
  }

  function DaysIn(year: int, month: nat): nat
    requires 1 <= month <= 12
  {
    if month == 2 then (if IsLeap(year) then 29 else 28)
    else if month == 4 || month == 6 || month == 9 || month == 11 then 30
    else 31
  }

  const EPOCH_SHIFT: int := 719_468
  const ERA_DAYS: int := 146_097

  /** Days since 1970-01-01 to a date. */
  function CivilFromDays(days: int): Date {
    var z := days + EPOCH_SHIFT;
    var era, doe := z / ERA_DAYS, z % ERA_DAYS;
    var yoe := YearOfEra(doe);
    var doy := doe - YearStart(yoe);
    DateOf(yoe + era * 400, doy)
  }

  /** The day of the era a March year starts on. */
  function YearStart(yoe: int): int {
    365 * yoe + yoe / 4 - yoe / 100
  }

  /** The year, counted from March and within 400 years, that a day of the era falls in. */
  function YearOfEra(doe: int): int {
    (doe - doe / 1460 + doe / 36_524 - doe / 146_096) / 365
  }

  /** The date of a day counted from the first of March. */
  function DateOf(y: int, doy: int): Date {
    var mp := (5 * doy + 2) / 153;
    var d := doy - (153 * mp + 2) / 5 + 1;
    var m := if mp < 10 then mp + 3 else mp - 9;
    Date(if m <= 2 then y + 1 else y, if m < 0 then 0 else m, if d < 0 then 0 else d)
  }

  /** A date to days since 1970-01-01. */
  function DaysFromCivil(date: Date): int {
    var y := if date.month <= 2 then date.year - 1 else date.year;
    var era, yoe := y / 400, y % 400;
    var doy := DayOfYear(date.month, date.day);
    var doe := YearStart(yoe) + doy;
    era * ERA_DAYS + doe - EPOCH_SHIFT
  }

  /** The day counted from the first of March. */
  function DayOfYear(month: nat, day: nat): int {
    (153 * (if month > 2 then month - 3 else month + 9) + 2) / 5 + day - 1
  }

  // ---- one March year ----

  /** Does the March year starting in `y` hold a leap day, at its end? */
  predicate EndsLeap(y: int) {
    IsLeap(y + 1)
  }

  function MarchYearLength(y: int): nat {
    if EndsLeap(y) then 366 else 365
  }

  lemma DateOfIsValid(y: int, doy: int)
    requires 0 <= doy < MarchYearLength(y)
    ensures var d := DateOf(y, doy); d.Valid() && DayOfYear(d.month, d.day) == doy
    ensures var d := DateOf(y, doy); y == if d.month <= 2 then d.year - 1 else d.year
  {
  }

  lemma DayOfYearIsValid(date: Date)
    requires date.Valid()
    ensures var y := if date.month <= 2 then date.year - 1 else date.year;
            var doy := DayOfYear(date.month, date.day);
            0 <= doy < MarchYearLength(y) && DateOf(y, doy) == date
  {
  }

  lemma NextInYear(y: int, doy: int)
    requires 0 <= doy < MarchYearLength(y)
    ensures DateOf(y, doy).Valid()
    ensures DateOf(y, doy).Next() == if doy + 1 < MarchYearLength(y) then DateOf(y, doy + 1) else DateOf(y + 1, 0)
  {
    DateOfIsValid(y, doy);
  }

  // ---- one era of 400 March years ----

  /** The era splits into centuries, fours and years. */
  lemma YearStartSplits(yoe: int, c: int, q: int, r: int)
    requires 0 <= c < 4 && 0 <= q < 25 && 0 <= r < 4 && yoe == 100 * c + 4 * q + r
    ensures YearStart(yoe) == 36_524 * c + 1461 * q + 365 * r
    ensures EndsLeap(yoe) <==> r == 3 && (q != 24 || c == 3)
  {
    assert yoe / 4 == 25 * c + q && yoe % 4 == r;
    assert yoe / 100 == c;
    assert yoe + 1 == 100 * c + 4 * q + (r + 1);
  }

  lemma YearOfEraFromParts(c: int, q: int, r: int, doy: int)
    requires 0 <= c < 4 && 0 <= q < 25 && 0 <= r < 4
    requires 0 <= doy < if r == 3 && (q != 24 || c == 3) then 366 else 365
    ensures var doe := 36_524 * c + 1461 * q + 365 * r + doy;
            YearOfEra(doe) == 100 * c + 4 * q + r
  {
    var doe := 36_524 * c + 1461 * q + 365 * r + doy;
    var late := if 24 * c + q + 365 * r + doy >= 1460 then 1 else 0;
    var last := if doe == 146_096 then 1 else 0;
    assert doe / 1460 == 25 * c + q + late;
    assert doe / 36_524 == c + last;
    assert doe / 146_096 == last;
    assert 0 <= doy - late < 365;
  }

  /** The closed form finds the year of every day of the era. */
  lemma YearOfEraIsRight(yoe: int, doy: int)
    requires 0 <= yoe < 400 && 0 <= doy < MarchYearLength(yoe)
    ensures YearOfEra(YearStart(yoe) + doy) == yoe
    ensures 0 <= YearStart(yoe) + doy < ERA_DAYS
  {
    var c, q, r := yoe / 100, yoe % 100 / 4, yoe % 4;
    YearStartSplits(yoe, c, q, r);
    YearOfEraFromParts(c, q, r, doy);
  }

  /** Every day of the era lies in some year. */
  lemma EraIsCovered(doe: int) returns (yoe: int, doy: int)
    requires 0 <= doe < ERA_DAYS
    ensures 0 <= yoe < 400 && 0 <= doy < MarchYearLength(yoe) && doe == YearStart(yoe) + doy
  {
    var c := if doe == 146_096 then 3 else doe / 36_524;
    var inCentury := doe - 36_524 * c;
    var q := if inCentury / 1461 == 25 then 24 else inCentury / 1461;
    var inFour := inCentury - 1461 * q;
    var r := if inFour / 365 >= 4 then 3 else inFour / 365;
    yoe, doy := 100 * c + 4 * q + r, inFour - 365 * r;
    YearStartSplits(yoe, c, q, r);
  }

  lemma LeapRepeats(era: int, yoe: int)
    ensures MarchYearLength(yoe + era * 400) == MarchYearLength(yoe)
  {
    var y := yoe + 1;
    assert yoe + era * 400 + 1 == y + 4 * (100 * era) == y + 100 * (4 * era) == y + 400 * era;
    Remainder4(y, 100 * era);
    Remainder100(y, 4 * era);
    Remainder400(y, era);
  }

  lemma Remainder4(y: int, k: int)
    ensures (y + 4 * k) % 4 == y % 4
  {
  }

  lemma Remainder100(y: int, k: int)
    ensures (y + 100 * k) % 100 == y % 100
  {
  }

  lemma Remainder400(y: int, k: int)
    ensures (y + 400 * k) % 400 == y % 400
  {
  }

  /** Where a day number falls: an era, a year in it, a day in that year. */
  lemma Placed(days: int) returns (era: int, yoe: int, doy: int)
    ensures 0 <= yoe < 400 && 0 <= doy < MarchYearLength(yoe + era * 400)
    ensures days == era * ERA_DAYS + YearStart(yoe) + doy - EPOCH_SHIFT
    ensures 0 <= YearStart(yoe) + doy < ERA_DAYS
    ensures CivilFromDays(days) == DateOf(yoe + era * 400, doy)
  {
    hide DateOf, YearOfEra, MarchYearLength, YearStart;
    var z := days + EPOCH_SHIFT;
    era := z / ERA_DAYS;
    yoe, doy := EraIsCovered(z % ERA_DAYS);
    YearOfEraIsRight(yoe, doy);
    LeapRepeats(era, yoe);
  }

  lemma EraOfYear(era: int, yoe: int)
    requires 0 <= yoe < 400
    ensures (yoe + era * 400) / 400 == era && (yoe + era * 400) % 400 == yoe
  {
  }

  lemma EraOfDay(era: int, doe: int)
    requires 0 <= doe < ERA_DAYS
    ensures (era * ERA_DAYS + doe) / ERA_DAYS == era && (era * ERA_DAYS + doe) % ERA_DAYS == doe
  {
  }

  // ---- main results ----

  /** Every day number is a valid Gregorian date, and converts back to itself. */
  lemma DaysRoundTrip(days: int)
    ensures CivilFromDays(days).Valid() && DaysFromCivil(CivilFromDays(days)) == days
  {
    hide DateOf, CivilFromDays;
    var era, yoe, doy := Placed(days);
    DateOfIsValid(yoe + era * 400, doy);
    EraOfYear(era, yoe);
  }

  /** Every valid Gregorian date converts to a day number and back to itself. */
  lemma DatesRoundTrip(date: Date)
    requires date.Valid()
    ensures CivilFromDays(DaysFromCivil(date)) == date
  {
    hide DateOf, CivilFromDays, MarchYearLength, DayOfYear;
    var y := if date.month <= 2 then date.year - 1 else date.year;
    var doy := DayOfYear(date.month, date.day);
    DayOfYearIsValid(date);
    OnDay(DaysFromCivil(date), y / 400, y % 400, doy);
  }

  /** The day after day n is the next day of the calendar, and day zero is 1970-01-01: the
      closed form is the calendar counted out one day at a time. */
  lemma NextDay(days: int)
    ensures CivilFromDays(0) == Date(1970, 1, 1)
    ensures CivilFromDays(days).Valid() && CivilFromDays(days + 1) == CivilFromDays(days).Next()
  {
    hide DateOf, CivilFromDays;
    FirstDay();
    var era, yoe, doy := Placed(days);
    var y := yoe + era * 400;
    NextInYear(y, doy);
    if doy + 1 < MarchYearLength(y) {
      OnDay(days + 1, era, yoe, doy + 1);
    } else if yoe < 399 {
      NextYearStarts(yoe);
      LeapRepeats(era, yoe);
      OnDay(days + 1, era, yoe + 1, 0);
    } else {
      LeapRepeats(era, yoe);
      OnDay(days + 1, era + 1, 0, 0);
    }
  }

  lemma FirstDay()
    ensures CivilFromDays(0) == Date(1970, 1, 1)
  {
    hide CivilFromDays;
    DatesRoundTrip(Date(1970, 1, 1));
    assert DaysFromCivil(Date(1970, 1, 1)) == 0;
  }

  lemma NextYearStarts(yoe: int)
    requires 0 <= yoe < 399
    ensures YearStart(yoe + 1) == YearStart(yoe) + MarchYearLength(yoe)
  {
    NextFour(yoe);
    NextHundred(yoe);
  }

  lemma NextFour(n: int)
    ensures (n + 1) / 4 == n / 4 + if (n + 1) % 4 == 0 then 1 else 0
  {
  }

  lemma NextHundred(n: int)
    ensures (n + 1) / 100 == n / 100 + if (n + 1) % 100 == 0 then 1 else 0
    ensures (n + 1) % 100 == 0 ==> (n + 1) % 4 == 0
  {
  }

  lemma OnDay(days: int, era: int, yoe: int, doy: int)
    requires 0 <= yoe < 400 && 0 <= doy < MarchYearLength(yoe + era * 400)
    requires days == era * ERA_DAYS + YearStart(yoe) + doy - EPOCH_SHIFT
    ensures CivilFromDays(days) == DateOf(yoe + era * 400, doy)
  {
    hide DateOf, YearStart, YearOfEra, MarchYearLength;
    LeapRepeats(era, yoe);
    YearOfEraIsRight(yoe, doy);
    EraOfDay(era, YearStart(yoe) + doy);
  }

  // ---- months of a timestamp ----

  const DAY_SECS: nat := 86_400

  /** A month file's place in time: twelve to the year. */
  function MonthIndex(year: int, month: nat): int {
    12 * year + month - 1
  }

  function IndexOf(date: Date): int {
    MonthIndex(date.year, date.month)
  }

  /** The month of a Unix second. */
  function MonthOf(ts: nat): int {
    IndexOf(CivilFromDays(ts / DAY_SECS))
  }

  /** The first day after a month. */
  function FirstAfter(year: int, month: nat): Date {
    if month == 12 then Date(year + 1, 1, 1) else Date(year, month + 1, 1)
  }

  /** The last second of a month, or the largest 32-bit value when it is not one. */
  function MonthEnd(year: int, month: nat): (end: nat)
    ensures end <= U32_MAX
  {
    var last := DaysFromCivil(FirstAfter(year, month)) * DAY_SECS - 1;
    if 0 <= last <= U32_MAX then last else U32_MAX
  }

  /** A later day never has an earlier month. */
  lemma {:induction false} MonthsNeverGoBack(a: int, b: int)
    requires a <= b
    ensures IndexOf(CivilFromDays(a)) <= IndexOf(CivilFromDays(b))
    decreases b - a
  {
    if a < b {
      hide CivilFromDays, Date.Next, Date.Valid, IndexOf;
      MonthsNeverGoBack(a, b - 1);
      NextDay(b - 1);
      NextIsNoEarlier(CivilFromDays(b - 1));
    }
  }

  lemma NextIsNoEarlier(date: Date)
    requires date.Valid()
    ensures IndexOf(date) <= IndexOf(date.Next())
  {
  }

  /** The month is monotone in the timestamp. */
  lemma MonthIsMonotone(a: nat, b: nat)
    requires a <= b
    ensures MonthOf(a) <= MonthOf(b)
  {
    hide CivilFromDays, IndexOf;
    MonthsNeverGoBack(a / DAY_SECS, b / DAY_SECS);
  }

  /** An earlier month holds only strictly earlier seconds. */
  lemma EarlierMonthIsEarlier(a: nat, b: nat)
    requires MonthOf(a) < MonthOf(b)
    ensures a < b
  {
    hide MonthOf;
    if b <= a {
      MonthIsMonotone(b, a);
    }
  }

  /** The first day of the next month is the first day with a later month. */
  lemma DayBeforeNextMonth(days: int, year: int, month: nat)
    requires 1 <= month <= 12
    ensures IndexOf(CivilFromDays(days)) <= MonthIndex(year, month) <==> days < DaysFromCivil(FirstAfter(year, month))
  {
    hide CivilFromDays, DaysFromCivil;
    var first := FirstAfter(year, month);
    var start := DaysFromCivil(first);
    DatesRoundTrip(first);
    if days >= start {
      MonthsNeverGoBack(start, days);
    } else {
      MonthsNeverGoBack(days, start - 1);
      NextDay(start - 1);
    }
  }

  /** A month ends on its last second: for every timestamp and month, the second belongs to
      that month or an earlier one exactly when it is no later than the month's end, as long
      as that end is itself a 32-bit timestamp. */
  lemma MonthEndIsItsLastSecond(ts: nat, year: int, month: nat)
    requires 1 <= month <= 12
    requires MonthEnd(year, month) < U32_MAX
    ensures MonthOf(ts) <= MonthIndex(year, month) <==> ts <= MonthEnd(year, month)
  {
    hide CivilFromDays, DaysFromCivil, IndexOf;
    DayBeforeNextMonth(ts / DAY_SECS, year, month);
  }

  /** No 32-bit timestamp is later than the end of its own month, the last month of the range
      included. */
  lemma OwnMonthHasNotEnded(ts: nat, year: int, month: nat)
    requires 1 <= month <= 12 && ts <= U32_MAX && MonthOf(ts) <= MonthIndex(year, month)
    ensures ts <= MonthEnd(year, month)
  {
    hide CivilFromDays, DaysFromCivil, IndexOf, MonthOf;
    if MonthEnd(year, month) < U32_MAX {
      MonthEndIsItsLastSecond(ts, year, month);
    }
  }

  /** A month's end is a second of that month. */
  lemma MonthHoldsItsEnd(year: int, month: nat)
    requires 1 <= month <= 12 && MonthEnd(year, month) < U32_MAX
    ensures MonthOf(MonthEnd(year, month)) == MonthIndex(year, month)
  {
    hide CivilFromDays, DaysFromCivil;
    var first := FirstAfter(year, month);
    DatesRoundTrip(first);
    NextDay(DaysFromCivil(first) - 1);
  }

  /** Later months end later, from 1970 on. */
  lemma MonthEndIsMonotone(y: int, m: nat, y': int, m': nat)
    requires 1 <= m <= 12 && 1 <= m' <= 12 && 1970 <= y && MonthIndex(y, m) <= MonthIndex(y', m')
    ensures MonthEnd(y, m) <= MonthEnd(y', m')
  {
    hide CivilFromDays, DaysFromCivil;
    var first, first' := FirstAfter(y, m), FirstAfter(y', m');
    var start, start' := DaysFromCivil(first), DaysFromCivil(first');
    DatesRoundTrip(first);
    DatesRoundTrip(first');
    if start' < start {
      MonthsNeverGoBack(start', start);
    }
    FirstDay();
    if start <= 0 {
      MonthsNeverGoBack(start, 0);
    }
  }

  /** Every 32-bit timestamp falls in 1970 to 2106. */
  lemma MonthsOfTheClock(ts: nat)
    requires ts <= U32_MAX
    ensures MonthIndex(1970, 1) <= MonthOf(ts) <= MonthIndex(2106, 2)
  {
    hide CivilFromDays, MonthOf, DaysFromCivil;
    MonthIsMonotone(0, ts);
    MonthIsMonotone(ts, U32_MAX);
    ClockStarts();
    ClockEnds();
  }

  lemma ClockStarts()
    ensures MonthOf(0) == MonthIndex(1970, 1)
  {
    hide CivilFromDays;
    FirstDay();
  }

  lemma ClockEnds()
    ensures MonthOf(U32_MAX) == MonthIndex(2106, 2)
  {
    hide CivilFromDays;
    DatesRoundTrip(Date(2106, 2, 7));
    assert DaysFromCivil(Date(2106, 2, 7)) == U32_MAX / DAY_SECS;
  }
}
