/** The civil calendar: days since the epoch turned into year, month and day, against the calendar
    itself. `/` and `%` are Euclidean here, as `div_euclid` and `rem_euclid` are. */
module Civil {

  datatype Date = Date(year: int, month: int, day: int)

  // ---- The calendar ----

  /** The leap-year rule of Appendix C of RFC 3339. */
  predicate Leap(year: int) { year % 4 == 0 && (year % 100 != 0 || year % 400 == 0) }

  function MonthLength(year: int, month: int): int
  {
    if month == 2 then (if Leap(year) then 29 else 28)
    else if month == 4 || month == 6 || month == 9 || month == 11 then 30
    else 31
  }

  predicate Valid(d: Date) { 1 <= d.month <= 12 && 1 <= d.day <= MonthLength(d.year, d.month) }

  function NextDay(d: Date): Date
  {
    if d.day < MonthLength(d.year, d.month) then Date(d.year, d.month, d.day + 1)
    else if d.month < 12 then Date(d.year, d.month + 1, 1)
    else Date(d.year + 1, 1, 1)
  }

  // ---- The program's arithmetic ----

  function YearOfEra(doe: int): int { (doe - doe / 1460 + doe / 36524 - doe / 146096) / 365 }

  /** Days from the first of March that opens an era to the one that opens its year `y`. */
  function YearStart(y: int): int { 365 * y + y / 4 - y / 100 }

  /** Days from the first of March to the first of the month `mp` months later. */
  function MonthStart(mp: int): int { (153 * mp + 2) / 5 }

  function FromDays(days: int): Date
  {
    var z := days + 719468;
    var era := z / 146097;
    DateIn(era, z - era * 146097)
  }

  /** The date of a day of an era of 400 years. */
  function DateIn(era: int, doe: int): Date
  {
    var yoe := YearOfEra(doe);
    var doy := doe - YearStart(yoe);
    var mp := (5 * doy + 2) / 153;
    var day := doy - MonthStart(mp) + 1;
    var month := if mp < 10 then mp + 3 else mp - 9;
    Date(yoe + era * 400 + (if month <= 2 then 1 else 0), month, day)
  }

  /** The inverse: days since the epoch of a date. */
  function ToDays(d: Date): int
  {
    var y := if d.month <= 2 then d.year - 1 else d.year;
    var mp := if d.month > 2 then d.month - 3 else d.month + 9;
    y / 400 * 146097 + YearStart(y % 400) + MonthStart(mp) + d.day - 1 - 719468
  }

  /** The days of the March year `y` of an era: 366 when the February in it is a leap one. */
  function YearLength(y: int): int { if Leap(y + 1) then 366 else 365 }

  lemma {:induction false} DivIs(n: int, d: int, q: int)
    requires d > 0 && d * q <= n < d * q + d
    ensures n / d == q
  {
    var k, r := n / d, n % d;
    assert n == d * k + r;
    if k < q {
      MulAtLeast(d, q - k);
    } else if k > q {
      MulAtLeast(d, k - q);
    }
  }

  lemma {:induction false} MulAtLeast(d: int, k: int)
    requires d > 0 && k >= 1
    ensures d * k >= d
  {
  }

  /** A day of an era is day `u` of year `s` of the four-year group `q` of century `c`. */
  ghost predicate Placed(doe: int, c: int, q: int, s: int, u: int)
  {
    0 <= c <= 3 && 0 <= q <= 24 && 0 <= s <= 3 && 0 <= u && doe == 36524 * c + 1461 * q + 365 * s + u &&
    (u <= 364 || (u == 365 && s == 3 && (q < 24 || c == 3)))
  }

  lemma {:induction false} Place(doe: int) returns (c: int, q: int, s: int, u: int)
    requires 0 <= doe < 146097
    ensures Placed(doe, c, q, s, u)
  {
    if doe == 146096 {
      return 3, 24, 3, 365;
    }
    c := doe / 36524;
    var r := doe % 36524;
    q := r / 1461;
    var v := r % 1461;
    s := if v == 1460 then 3 else v / 365;
    u := v - 365 * s;
  }

  lemma {:induction false} PlacedYear(c: int, q: int, s: int)
    requires 0 <= c <= 3 && 0 <= q <= 24 && 0 <= s <= 3
    ensures YearStart(100 * c + 4 * q + s) == 36524 * c + 1461 * q + 365 * s
    ensures 0 <= 100 * c + 4 * q + s < 400
  {
    var y := 100 * c + 4 * q + s;
    DivIs(y, 4, 25 * c + q);
    DivIs(y, 100, c);
  }

  /** The closed formula finds the year whose days hold `doe`. */
  lemma {:induction false} FormulaFindsYear(doe: int, c: int, q: int, s: int, u: int)
    requires Placed(doe, c, q, s, u)
    ensures YearOfEra(doe) == 100 * c + 4 * q + s
  {
    var y := 100 * c + 4 * q + s;
    var over := 24 * c + q + 365 * s + u;
    var carry := if over >= 1460 then 1 else 0;
    DivIs(doe, 1460, 25 * c + q + carry);
    if u == 365 && q == 24 && c == 3 {
      DivIs(doe, 36524, 4);
      DivIs(doe, 146096, 1);
    } else {
      DivIs(doe, 36524, c);
      DivIs(doe, 146096, 0);
    }
    DivIs(doe - doe / 1460 + doe / 36524 - doe / 146096, 365, y);
  }

  lemma {:induction false} PlacedLength(c: int, q: int, s: int, u: int)
    requires 0 <= c <= 3 && 0 <= q <= 24 && 0 <= s <= 3 && 0 <= u
    ensures u < YearLength(100 * c + 4 * q + s) <==> u <= 364 || (u == 365 && s == 3 && (q < 24 || c == 3))
  {
  }

  lemma {:induction false} YearOfEraIsTheYear(doe: int)
    requires 0 <= doe < 146097
    ensures 0 <= YearOfEra(doe) < 400
    ensures 0 <= doe - YearStart(YearOfEra(doe)) < YearLength(YearOfEra(doe))
  {
    var c, q, s, u := Place(doe);
    PlacedYear(c, q, s);
    FormulaFindsYear(doe, c, q, s, u);
    PlacedLength(c, q, s, u);
  }

  /** And no other: the formula inverts the year and the day of the year. */
  lemma {:induction false} YearOfEraInverts(y: int, doy: int)
    requires 0 <= y < 400 && 0 <= doy < YearLength(y)
    ensures 0 <= YearStart(y) + doy < 146097 && YearOfEra(YearStart(y) + doy) == y
  {
    var c, q, s := y / 100, y % 100 / 4, y % 4;
    assert y == 100 * c + 4 * q + s;
    PlacedYear(c, q, s);
    PlacedLength(c, q, s, doy);
    FormulaFindsYear(YearStart(y) + doy, c, q, s, doy);
  }

  // ---- Months ----

  /** The month of a March year and the civil month it is. */
  function CivilMonth(mp: int): int { if mp < 10 then mp + 3 else mp - 9 }

  function MarchMonth(month: int): int { if month > 2 then month - 3 else month + 9 }

  /** Where the month `mp` ends in a March year of `length` days. */
  function MonthEnd(mp: int, length: int): int { if mp < 11 then MonthStart(mp + 1) else length }

  lemma {:induction false} MonthOfDay(doy: int)
    requires 0 <= doy < 366
    ensures var mp := (5 * doy + 2) / 153; 0 <= mp <= 11 && MonthStart(mp) <= doy < MonthEnd(mp, 366)
  {
  }

  lemma {:induction false} MonthOfYearDay(y: int, doy: int)
    requires 0 <= y < 400 && 0 <= doy < YearLength(y)
    ensures var mp := (5 * doy + 2) / 153; 0 <= mp <= 11 && MonthStart(mp) <= doy < MonthEnd(mp, YearLength(y))
  {
    MonthOfDay(doy);
  }

  lemma {:induction false} MonthOfDayInverts(mp: int, doy: int)
    requires 0 <= mp <= 11 && MonthStart(mp) <= doy < MonthEnd(mp, 366)
    ensures (5 * doy + 2) / 153 == mp
  {
  }

  /** The months of a March year are those of the calendar, February last and as long as the year
      needs. */
  lemma {:induction false} MonthLengths(mp: int, y: int)
    requires 0 <= mp <= 11
    ensures MonthEnd(mp, YearLength(y)) - MonthStart(mp) ==
              MonthLength(if mp < 10 then y else y + 1, CivilMonth(mp))
  {
  }

  lemma {:induction false} AddMultiple(n: int, d: int, k: int)
    requires d > 0
    ensures (n + d * k) % d == n % d
  {
    var q := n / d;
    assert d * (q + k) == d * q + d * k;
    DivIs(n + d * k, d, q + k);
  }

  lemma {:induction false} LeapIsPeriodic(y: int, era: int)
    ensures Leap(y + 400 * era) == Leap(y)
  {
    AddMultiple(y, 4, 100 * era);
    AddMultiple(y, 100, 4 * era);
    AddMultiple(y, 400, era);
  }

  // ---- The map and its inverse ----

  lemma {:induction false} EraIs(days: int, era: int, doe: int)
    requires 0 <= doe < 146097 && days == era * 146097 + doe
    ensures days / 146097 == era
  {
    DivIs(days, 146097, era);
  }

  /** The day `doy` of the March year `y` of an era. */
  lemma {:induction false} DateInYear(era: int, y: int, doy: int)
    requires 0 <= y < 400 && 0 <= doy < YearLength(y)
    ensures var mp := (5 * doy + 2) / 153;
            DateIn(era, YearStart(y) + doy) ==
              Date(y + era * 400 + (if CivilMonth(mp) <= 2 then 1 else 0), CivilMonth(mp), doy - MonthStart(mp) + 1)
  {
    YearOfEraInverts(y, doy);
  }

  /** `days` split as the program splits it. */
  lemma {:induction false} FromDaysParts(days: int) returns (era: int, y: int, mp: int, doy: int)
    ensures 0 <= y < 400 && 0 <= mp <= 11 && 0 <= doy < YearLength(y)
    ensures MonthStart(mp) <= doy < MonthEnd(mp, YearLength(y))
    ensures days + 719468 == era * 146097 + YearStart(y) + doy
    ensures FromDays(days) ==
              Date(y + era * 400 + (if mp < 10 then 0 else 1), CivilMonth(mp), doy - MonthStart(mp) + 1)
  {
    era := (days + 719468) / 146097;
    var doe := days + 719468 - era * 146097;
    YearOfEraIsTheYear(doe);
    y := YearOfEra(doe);
    doy := doe - YearStart(y);
    MonthOfYearDay(y, doy);
    mp := (5 * doy + 2) / 153;
    DateInYear(era, y, doy);
  }

  /** Every day count is a valid date, and the date gives the day count back. */
  lemma {:induction false} FromDaysIsValid(days: int)
    ensures Valid(FromDays(days)) && ToDays(FromDays(days)) == days
  {
    var era, y, mp, doy := FromDaysParts(days);
    PartsToDays(era, y, mp, doy - MonthStart(mp) + 1);
  }

  /** What the parts of a day count make is a valid date of that day count. */
  lemma {:induction false} PartsToDays(era: int, y: int, mp: int, day: int)
    requires 0 <= y < 400 && 0 <= mp <= 11 && 1 <= day
    requires MonthStart(mp) + day - 1 < MonthEnd(mp, YearLength(y))
    ensures var d := Date(y + era * 400 + (if mp < 10 then 0 else 1), CivilMonth(mp), day);
            Valid(d) && ToDays(d) == era * 146097 + YearStart(y) + MonthStart(mp) + day - 1 - 719468
  {
    MonthLengths(mp, y);
    LeapIsPeriodic(y, era);
    LeapIsPeriodic(y + 1, era);
    DivIs(y + era * 400, 400, era);
  }

  /** The parts of a valid date's day count are those the program splits it into. */
  lemma {:induction false} PartsInvert(era: int, y: int, mp: int, day: int)
    requires 0 <= y < 400 && 0 <= mp <= 11 && 1 <= day
    requires MonthStart(mp) + day - 1 < MonthEnd(mp, YearLength(y))
    ensures FromDays(era * 146097 + YearStart(y) + MonthStart(mp) + day - 1 - 719468) ==
              Date(y + era * 400 + (if mp < 10 then 0 else 1), CivilMonth(mp), day)
  {
    var start, doy := YearStart(y), MonthStart(mp) + day - 1;
    MonthOfDayInverts(mp, doy);
    YearOfEraInverts(y, doy);
    DateInYear(era, y, doy);
    EraIs(era * 146097 + (start + doy), era, start + doy);
  }

  /** A date's parts, as `ToDays` takes them. */
  lemma {:induction false} DateParts(d: Date) returns (era: int, y: int, mp: int)
    requires Valid(d)
    ensures 0 <= y < 400 && 0 <= mp <= 11 && MonthStart(mp) + d.day - 1 < MonthEnd(mp, YearLength(y))
    ensures d == Date(y + era * 400 + (if mp < 10 then 0 else 1), CivilMonth(mp), d.day)
    ensures ToDays(d) == era * 146097 + YearStart(y) + MonthStart(mp) + d.day - 1 - 719468
  {
    var year := if d.month <= 2 then d.year - 1 else d.year;
    era, y, mp := year / 400, year % 400, MarchMonth(d.month);
    MonthLengths(mp, y);
    LeapIsPeriodic(y, era);
    LeapIsPeriodic(y + 1, era);
  }

  /** Every valid date is the date of its day count. */
  lemma {:induction false} ToDaysInverts(d: Date)
    requires Valid(d)
    ensures FromDays(ToDays(d)) == d
  {
    var era, y, mp := DateParts(d);
    PartsInvert(era, y, mp, d.day);
  }

  /** The next day's day count is the next one. */
  lemma {:induction false} NextDayIsNextCount(d: Date)
    requires Valid(d)
    ensures Valid(NextDay(d)) && ToDays(NextDay(d)) == ToDays(d) + 1
  {
    var e := NextDay(d);
    var y := if d.month <= 2 then d.year - 1 else d.year;
    var mp := MarchMonth(d.month);
    if d.day == MonthLength(d.year, d.month) {
      MonthLengths(mp, y);
      if d.month == 2 {
        NextMarchYear(y);
      }
    }
  }

  /** A March year's days end where the next one starts, also across an era. */
  lemma {:induction false} NextMarchYear(y: int)
    ensures (y + 1) / 400 * 146097 + YearStart((y + 1) % 400) ==
              y / 400 * 146097 + YearStart(y % 400) + YearLength(y)
  {
    var era, yoe := y / 400, y % 400;
    LeapIsPeriodic(yoe + 1, era);
    if yoe == 399 {
      DivIs(y + 1, 400, era + 1);
    } else {
      DivIs(y + 1, 400, era);
      YearStartStep(yoe);
    }
  }

  lemma {:induction false} YearStartStep(y: int)
    requires 0 <= y < 399
    ensures YearStart(y + 1) == YearStart(y) + YearLength(y)
  {
  }

  /** Day 0 is day 719468 from the first of March of the year 0: era 4, its year 369, month 10, day 1. */
  lemma {:induction false} EpochIsDayZero()
    ensures FromDays(0) == Date(1970, 1, 1)
  {
    assert YearStart(369) == 134774 && MonthStart(10) == 306 && CivilMonth(10) == 1;
    PartsInvert(4, 369, 10, 1);
  }

  lemma {:induction false} NextCountIsNextDay(d: Date, days: int)
    requires Valid(d) && ToDays(d) == days
    ensures FromDays(days + 1) == NextDay(d)
  {
    NextDayIsNextCount(d);
    CountInverts(NextDay(d), days + 1);
  }

  lemma {:induction false} CountInverts(d: Date, days: int)
    requires Valid(d) && ToDays(d) == days
    ensures FromDays(days) == d
  {
    ToDaysInverts(d);
  }

  /** Day 0 is 1970-01-01 and each following day count is the calendar's next day: the map is the
      Gregorian calendar, and with its inverse a bijection. */
  lemma {:induction false} FromDaysIsTheCalendar(days: int)
    ensures FromDays(0) == Date(1970, 1, 1)
    ensures FromDays(days + 1) == NextDay(FromDays(days))
  {
    EpochIsDayZero();
    FromDaysIsValid(days);
    NextCountIsNextDay(FromDays(days), days);
  }

  // ---- Order ----

  /** Calendar order of dates. */
  predicate Before(a: Date, b: Date)
  {
    a.year < b.year || (a.year == b.year && (a.month < b.month || (a.month == b.month && a.day < b.day)))
  }

  lemma {:induction false} NextDayIsLater(d: Date)
    requires Valid(d)
    ensures Before(d, NextDay(d))
  {
  }

  lemma {:induction false} BeforeTransitive(a: Date, b: Date, c: Date)
    requires Before(a, b) && Before(b, c)
    ensures Before(a, c)
  {
  }

  /** Each day of `f` is the calendar's next. */
  ghost predicate FollowsCalendar(f: int -> Date)
  {
    forall n {:trigger NextDay(f(n))} :: Valid(f(n)) && f(n + 1) == NextDay(f(n))
  }

  lemma {:induction false} CalendarIncreases(f: int -> Date, j: int, k: int)
    requires FollowsCalendar(f) && j < k
    ensures Before(f(j), f(k))
    decreases k - j
  {
    assert f(k - 1 + 1) == NextDay(f(k - 1));
    NextDayIsLater(f(k - 1));
    if j < k - 1 {
      CalendarIncreases(f, j, k - 1);
      BeforeTransitive(f(j), f(k - 1), f(k));
    }
  }

  lemma {:induction false} FromDaysFollowsCalendar()
    ensures FollowsCalendar(FromDays)
  {
    forall n ensures Valid(FromDays(n)) && FromDays(n + 1) == NextDay(FromDays(n)) {
      FromDaysIsValid(n);
      FromDaysIsTheCalendar(n);
    }
  }

  /** Later days have later dates. */
  lemma {:induction false} FromDaysIncreases(j: int, k: int)
    requires j < k
    ensures Before(FromDays(j), FromDays(k))
  {
    FromDaysFollowsCalendar();
    CalendarIncreases(FromDays, j, k);
  }
}
