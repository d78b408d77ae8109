/** Calendar dates from day numbers, against the proleptic Gregorian calendar of RFC 3339. */
module CivilDate {

  datatype Date = Date(year: int, month: int, day: int)

  // ---------------------------------------------------------------- the calendar

  /** Leap years: Appendix C of RFC 3339. */
  predicate IsLeap(y: int) {
    y % 4 == 0 && (y % 100 != 0 || y % 400 == 0)
  }

  /** Month lengths: section 5.7 of RFC 3339. */
  function DaysInMonth(y: int, m: int): int
    requires 1 <= m <= 12
  {
    if m == 2 then (if IsLeap(y) then 29 else 28)
    else if m == 4 || m == 6 || m == 9 || m == 11 then 30 else 31
  }

  predicate Valid(d: Date) {
    1 <= d.month <= 12 && 1 <= d.day <= DaysInMonth(d.year, d.month)
  }

  function YearLength(y: int): int {
    if IsLeap(y) then 366 else 365
  }

  const EPOCH := Date(1970, 1, 1)

  /** The day after a valid date. */
  function NextDay(d: Date): Date
    requires Valid(d)
  {
    if d.day < DaysInMonth(d.year, d.month) then d.(day := d.day + 1)
    else if d.month < 12 then Date(d.year, d.month + 1, 1)
    else Date(d.year + 1, 1, 1)
  }

  /** Days from the epoch to the first of January of `y`, year by year. */
  function DaysBeforeYear(y: int): int
    decreases if y >= 1970 then y - 1970 else 1970 - y
  {
    if y == 1970 then 0
    else if y > 1970 then DaysBeforeYear(y - 1) + YearLength(y - 1)
    else DaysBeforeYear(y + 1) - YearLength(y)
  }

  /** Days of year `y` before the first of month `m`. */
  function DaysBeforeMonth(y: int, m: int): int
    requires 1 <= m <= 12
  {
    if m == 1 then 0 else DaysBeforeMonth(y, m - 1) + DaysInMonth(y, m - 1)
  }

  /** The distance of a date from the epoch, in days. */
  function DayNumber(d: Date): int
    requires Valid(d)
  {
    DaysBeforeYear(d.year) + DaysBeforeMonth(d.year, d.month) + d.day - 1
  }

  // ---------------------------------------------------------------- the algorithm

  /** Integer division of the source, which truncates toward zero. */
  function TruncDiv(a: int, b: int): int
    requires b > 0
  {
    if a >= 0 then a / b else -(-a / b)
  }

  /** The cast to a signed 32-bit integer, which wraps around. */
  function AsI32(x: int): int {
    (x + 0x8000_0000) % 0x1_0000_0000 - 0x8000_0000
  }

  predicate FitsI32(x: int) {
    -0x8000_0000 <= x < 0x8000_0000
  }

  function Era(z: int): int {
    TruncDiv(if z >= 0 then z else z - 146_096, 146_097)
  }

  function YearOfEra(doe: nat): (yoe: nat)
    requires doe <= 146_096
  {
    YearBounds(doe);
    (doe - doe / 1460 + doe / 36_524 - doe / 146_096) / 365
  }

  /** The day number's year before the cast, with its month and day. All subtractions of unsigned
      quantities are typed as natural numbers, so none goes below zero. */
  function CivilUncast(zIn: int): Date {
    var z := zIn + 719_468;
    EraBounds(z);
    var doe: nat := z - Era(z) * 146_097;
    var yoe: nat := YearOfEra(doe);
    YearOfEraBounds(doe);
    var doy: nat := doe - (365 * yoe + yoe / 4 - yoe / 100);
    var mp: nat := (5 * doy + 2) / 153;
    var day: nat := doy - (153 * mp + 2) / 5 + 1;
    var month: nat := if mp < 10 then mp + 3 else mp - 9;
    var y := yoe + Era(z) * 400;
    Date(if month <= 2 then y + 1 else y, month, day)
  }

  function CivilFromDays(zIn: int): Date {
    var d := CivilUncast(zIn);
    d.(year := AsI32(d.year))
  }

  // ---------------------------------------------------------------- eras and years

  lemma EraBounds(z: int)
    ensures Era(z) == z / 146_097
    ensures 0 <= z - Era(z) * 146_097 <= 146_096
  {
    if z < 0 {
      var q := (-(z - 146_096)) / 146_097;
      assert Era(z) == -q;
      assert q * 146_097 <= -z + 146_096 < q * 146_097 + 146_097;
    }
  }

  /** Days of an era before its year `n`, years starting in March. */
  function EraDays(n: int): int {
    365 * n + n / 4 - n / 100
  }

  lemma YearBounds(doe: nat)
    requires doe <= 146_096
    ensures 0 <= doe - doe / 1460
    ensures 0 <= doe - doe / 1460 + doe / 36_524 - doe / 146_096
  {}

  /** The year of the era is the last one that starts on or before the day. */
  lemma YearOfEraBounds(doe: nat)
    requires doe <= 146_096
    ensures var yoe := YearOfEra(doe);
      yoe <= 399 && EraDays(yoe) <= doe && (yoe < 399 ==> doe < EraDays(yoe + 1))
  {
    YearInEra(doe);
    YearStarted(doe);
    YearNotOver(doe);
  }

  lemma YearInEra(doe: nat)
    requires doe <= 146_096
    ensures YearOfEra(doe) <= 399
  {
    assert doe / 146_096 == if doe == 146_096 then 1 else 0;
  }

  lemma YearStarted(doe: nat)
    requires doe <= 146_096
    ensures EraDays(YearOfEra(doe)) <= doe
  {
    if doe < 73_048 {
      YearStartedEarly(doe);
    } else {
      YearStartedLate(doe);
    }
  }

  lemma YearStartedEarly(doe: nat)
    requires doe < 73_048
    ensures EraDays(YearOfEra(doe)) <= doe
  {
    assert doe / 146_096 == 0;
    assert doe / 36_524 == if doe < 36_524 then 0 else 1;
  }

  lemma YearStartedLate(doe: nat)
    requires 73_048 <= doe <= 146_096
    ensures EraDays(YearOfEra(doe)) <= doe
  {
    assert doe / 146_096 == if doe == 146_096 then 1 else 0;
    assert doe / 36_524 == if doe < 109_572 then 2 else if doe < 146_096 then 3 else 4;
  }

  lemma YearNotOver(doe: nat)
    requires doe <= 146_096
    ensures YearOfEra(doe) < 399 ==> doe < EraDays(YearOfEra(doe) + 1)
  {
    var c := doe / 36_524;
    assert doe / 146_096 == if doe == 146_096 then 1 else 0;
    if c == 0 {} else if c == 1 {} else if c == 2 {} else if c == 3 {} else {}
  }

  // ---------------------------------------------------------------- day numbers of years

  /** Distance of the first of March of `y` from the first of March of year zero, in closed form. */
  function MarchDays(y: int): int {
    365 * y + y / 4 - y / 100 + y / 400
  }

  lemma MarchStep(y: int)
    ensures MarchDays(y + 1) - MarchDays(y) == YearLength(y + 1)
  {
    FourStep(y);
    HundredStep(y);
    FourHundredStep(y);
    LeapFactors(y + 1);
  }

  lemma FourStep(y: int)
    ensures (y + 1) / 4 - y / 4 == if (y + 1) % 4 == 0 then 1 else 0
  {}

  lemma HundredStep(y: int)
    ensures (y + 1) / 100 - y / 100 == if (y + 1) % 100 == 0 then 1 else 0
  {}

  lemma FourHundredStep(y: int)
    ensures (y + 1) / 400 - y / 400 == if (y + 1) % 400 == 0 then 1 else 0
  {}

  lemma LeapFactors(y: int)
    ensures y % 400 == 0 ==> y % 100 == 0
    ensures y % 100 == 0 ==> y % 4 == 0
  {}

  lemma MarchFirst(y: int)
    ensures DaysBeforeYear(y) + DaysBeforeMonth(y, 3) == MarchDays(y) - 719_468
    decreases if y >= 1970 then y - 1970 else 1970 - y
  {
    FirstMonths(y);
    if y > 1970 {
      MarchFirst(y - 1);
      FirstMonths(y - 1);
      MarchStep(y - 1);
    } else if y < 1970 {
      MarchFirst(y + 1);
      FirstMonths(y + 1);
      MarchStep(y);
    }
  }

  lemma FirstMonths(y: int)
    ensures DaysBeforeMonth(y, 2) == 31 && DaysBeforeMonth(y, 3) == 59 + (if IsLeap(y) then 1 else 0)
  {
    assert DaysBeforeMonth(y, 1) == 0;
  }

  lemma MarchOfEra(era: int, yoe: nat)
    requires yoe <= 399
    ensures MarchDays(yoe + era * 400) == EraDays(yoe) + era * 146_097
    ensures IsLeap(yoe + era * 400 + 1) <==> IsLeap(yoe + 1)
  {
    var y := yoe + era * 400;
    EraFours(era, yoe);
    EraHundreds(era, yoe);
    EraFourHundreds(era, yoe);
    assert y + 1 == (yoe + 1) + era * 400;
    EraFours(era, yoe + 1);
    EraHundreds(era, yoe + 1);
    EraFourHundreds(era, yoe + 1);
  }

  lemma EraFours(era: int, n: nat)
    ensures (n + era * 400) / 4 == n / 4 + era * 100 && (n + era * 400) % 4 == n % 4
  {}

  lemma EraHundreds(era: int, n: nat)
    ensures (n + era * 400) / 100 == n / 100 + era * 4 && (n + era * 400) % 100 == n % 100
  {}

  lemma EraFourHundreds(era: int, n: nat)
    ensures (n + era * 400) / 400 == n / 400 + era && (n + era * 400) % 400 == n % 400
  {}

  /** A day of an era lies in its year, in which day 365 exists only before a leap February. */
  lemma DayOfYearBounds(doe: nat)
    requires doe <= 146_096
    ensures var yoe := YearOfEra(doe); var doy := doe - EraDays(yoe);
      0 <= doy <= 365 && (doy == 365 ==> IsLeap(yoe + 1))
  {
    YearOfEraBounds(doe);
    DayInYear(doe, YearOfEra(doe));
  }

  lemma DayInYear(doe: nat, y: nat)
    requires y <= 399 && doe <= 146_096 && EraDays(y) <= doe && (y < 399 ==> doe < EraDays(y + 1))
    ensures doe - EraDays(y) <= 365 && (doe - EraDays(y) == 365 ==> IsLeap(y + 1))
  {
    EraDaysStep(y);
    assert y == 399 ==> EraDays(y) == 145_731 && IsLeap(y + 1);
  }

  lemma EraDaysStep(y: nat)
    ensures EraDays(y + 1)
            == EraDays(y) + 365 + (if (y + 1) % 4 == 0 then 1 else 0) - (if (y + 1) % 100 == 0 then 1 else 0)
  {}

  // ---------------------------------------------------------------- months

  /** The months in order from March, with the days from the first of March to their first. */
  lemma MonthTable(y: int)
    ensures forall mp | 0 <= mp <= 9 :: DaysBeforeMonth(y, mp + 3) == DaysBeforeMonth(y, 3) + (153 * mp + 2) / 5
    ensures DaysBeforeMonth(y, 12) + 31 == DaysBeforeMonth(y, 3) + 306
  {
    assert DaysBeforeMonth(y, 4) == DaysBeforeMonth(y, 3) + 31;
    assert DaysBeforeMonth(y, 5) == DaysBeforeMonth(y, 4) + 30;
    assert DaysBeforeMonth(y, 6) == DaysBeforeMonth(y, 5) + 31;
    assert DaysBeforeMonth(y, 7) == DaysBeforeMonth(y, 6) + 30;
    assert DaysBeforeMonth(y, 8) == DaysBeforeMonth(y, 7) + 31;
    assert DaysBeforeMonth(y, 9) == DaysBeforeMonth(y, 8) + 31;
    assert DaysBeforeMonth(y, 10) == DaysBeforeMonth(y, 9) + 30;
    assert DaysBeforeMonth(y, 11) == DaysBeforeMonth(y, 10) + 31;
    assert DaysBeforeMonth(y, 12) == DaysBeforeMonth(y, 11) + 30;
    forall mp | 0 <= mp <= 9
      ensures DaysBeforeMonth(y, mp + 3) == DaysBeforeMonth(y, 3) + (153 * mp + 2) / 5
    {
      if mp == 0 {} else if mp == 1 {} else if mp == 2 {} else if mp == 3 {} else if mp == 4 {}
      else if mp == 5 {} else if mp == 6 {} else if mp == 7 {} else if mp == 8 {} else {}
    }
  }

  /** The date of day `doy` of the year that starts in March of `y`. */
  function DateOfYear(y: int, doy: nat): Date
    requires doy <= 365
  {
    var mp := (5 * doy + 2) / 153;
    var day := doy - (153 * mp + 2) / 5 + 1;
    var month := if mp < 10 then mp + 3 else mp - 9;
    Date(if month <= 2 then y + 1 else y, month, day)
  }

  lemma DateOfYearValid(y: int, doy: nat)
    requires doy <= 365 && (doy == 365 ==> IsLeap(y + 1))
    ensures Valid(DateOfYear(y, doy))
  {
    var mp := (5 * doy + 2) / 153;
    assert 0 <= mp <= 11;
    if mp == 0 {} else if mp == 1 {} else if mp == 2 {} else if mp == 3 {} else if mp == 4 {} else if mp == 5 {}
    else if mp == 6 {} else if mp == 7 {} else if mp == 8 {} else if mp == 9 {} else if mp == 10 {} else {}
  }

  lemma DateOfYearNumber(y: int, doy: nat)
    requires doy <= 365 && (doy == 365 ==> IsLeap(y + 1))
    ensures Valid(DateOfYear(y, doy)) && DayNumber(DateOfYear(y, doy)) == MarchDays(y) - 719_468 + doy
  {
    DateOfYearValid(y, doy);
    var mp := (5 * doy + 2) / 153;
    MarchFirst(y);
    MonthTable(y);
    FirstMonths(y + 1);
    NewYear(y);
    if mp < 10 {
      assert DaysBeforeMonth(y, mp + 3) == DaysBeforeMonth(y, 3) + (153 * mp + 2) / 5;
    } else {
      assert DaysBeforeMonth(y + 1, 1) == 0;
      assert (153 * 10 + 2) / 5 == 306 && (153 * 11 + 2) / 5 == 337;
      assert mp == 10 || mp == 11;
    }
  }

  lemma NewYear(y: int)
    ensures DaysBeforeYear(y + 1) == DaysBeforeYear(y) + YearLength(y)
    ensures DaysBeforeMonth(y, 12) + 31 == YearLength(y)
  {
    MonthTable(y);
    FirstMonths(y);
  }

  // ---------------------------------------------------------------- correctness

  /** The year, starting in March, that the algorithm finds for a day number. */
  function StartYear(zIn: int): int {
    var z := zIn + 719_468;
    EraBounds(z);
    YearOfEra(z - Era(z) * 146_097) + Era(z) * 400
  }

  /** The day of that year. */
  function DayOfYear(zIn: int): (doy: int)
    ensures 0 <= doy <= 365
  {
    var z := zIn + 719_468;
    EraBounds(z);
    var doe := z - Era(z) * 146_097;
    DayOfYearBounds(doe);
    doe - EraDays(YearOfEra(doe))
  }

  lemma PartsMakeTheDate(zIn: int)
    ensures CivilUncast(zIn) == DateOfYear(StartYear(zIn), DayOfYear(zIn))
  {}

  /** The parts add up to the day number. */
  lemma PartsAddUp(zIn: int)
    ensures MarchDays(StartYear(zIn)) - 719_468 + DayOfYear(zIn) == zIn
    ensures DayOfYear(zIn) == 365 ==> IsLeap(StartYear(zIn) + 1)
  {
    var z := zIn + 719_468;
    EraBounds(z);
    YearOfEraBounds(z - Era(z) * 146_097);
    PartsOf(zIn, z, Era(z), z - Era(z) * 146_097);
  }

  lemma PartsOf(zIn: int, z: int, era: int, doe: nat)
    requires z == zIn + 719_468 && era == Era(z) && doe == z - era * 146_097 && doe <= 146_096 && YearOfEra(doe) <= 399
    ensures MarchDays(StartYear(zIn)) - 719_468 + DayOfYear(zIn) == zIn
    ensures DayOfYear(zIn) == 365 ==> IsLeap(StartYear(zIn) + 1)
  {
    var yoe := YearOfEra(doe);
    assert StartYear(zIn) == yoe + era * 400 && DayOfYear(zIn) == doe - EraDays(yoe);
    DayOfYearBounds(doe);
    EraAddsUp(z, era, doe, yoe);
  }

  lemma EraAddsUp(z: int, era: int, doe: int, yoe: nat)
    requires doe == z - era * 146_097 && yoe <= 399
    ensures MarchDays(yoe + era * 400) + doe - EraDays(yoe) == z
    ensures IsLeap(yoe + era * 400 + 1) <==> IsLeap(yoe + 1)
  {
    MarchOfEra(era, yoe);
  }

  /** Before the cast the date is valid and lies exactly `zIn` days from the epoch. */
  lemma CivilUncastCorrect(zIn: int)
    ensures Valid(CivilUncast(zIn)) && DayNumber(CivilUncast(zIn)) == zIn
  {
    PartsMakeTheDate(zIn);
    PartsAddUp(zIn);
    DateOfYearNumber(StartYear(zIn), DayOfYear(zIn));
  }

  // ---------------------------------------------------------------- the calendar has no gaps

  /** Calendar order. */
  predicate Before(a: Date, b: Date) {
    a.year < b.year || (a.year == b.year && (a.month < b.month || (a.month == b.month && a.day < b.day)))
  }

  lemma MonthsIncrease(y: int, m: int, n: int)
    requires 1 <= m < n <= 12
    ensures DaysBeforeMonth(y, m) + DaysInMonth(y, m) <= DaysBeforeMonth(y, n)
  {}

  lemma MonthsFit(y: int, m: int)
    requires 1 <= m <= 12
    ensures 0 <= DaysBeforeMonth(y, m) && DaysBeforeMonth(y, m) + DaysInMonth(y, m) <= YearLength(y)
  {
    NewYear(y);
    if m < 12 {
      MonthsIncrease(y, m, 12);
    }
    if m > 1 {
      MonthsIncrease(y, 1, m);
    }
  }

  lemma YearsIncrease(x: int, y: int)
    requires x < y
    ensures DaysBeforeYear(x) + YearLength(x) <= DaysBeforeYear(y)
    decreases y - x
  {
    NewYear(x);
    if x + 1 < y {
      YearsIncrease(x + 1, y);
    }
  }

  /** Day numbers order valid dates as the calendar does. */
  lemma DayNumberIncreases(a: Date, b: Date)
    requires Valid(a) && Valid(b) && Before(a, b)
    ensures DayNumber(a) < DayNumber(b)
  {
    MonthsFit(a.year, a.month);
    MonthsFit(b.year, b.month);
    if a.year < b.year {
      YearsIncrease(a.year, b.year);
    } else if a.month < b.month {
      MonthsIncrease(a.year, a.month, b.month);
    }
  }

  lemma DayNumberInjective(a: Date, b: Date)
    requires Valid(a) && Valid(b) && DayNumber(a) == DayNumber(b)
    ensures a == b
  {
    if Before(a, b) {
      DayNumberIncreases(a, b);
    } else if Before(b, a) {
      DayNumberIncreases(b, a);
    }
  }

  lemma NextDayNumber(d: Date)
    requires Valid(d)
    ensures Valid(NextDay(d)) && DayNumber(NextDay(d)) == DayNumber(d) + 1
  {
    NewYear(d.year);
  }

  /** The day number of the first of January of `y`, in closed form. */
  function YearStart(y: int): int {
    MarchDays(y) - 719_527 - (if IsLeap(y) then 1 else 0)
  }

  lemma YearStarts(y: int)
    ensures DaysBeforeYear(y) == YearStart(y)
  {
    MarchFirst(y);
    FirstMonths(y);
  }

  /** A day lies in a span of years exactly when its number lies between the first days of the first year
      and of the one after the last. */
  lemma DaysOfYears(z: int, first: int, after: int)
    requires first < after
    ensures first <= CivilUncast(z).year < after <==> YearStart(first) <= z < YearStart(after)
  {
    var d := CivilUncast(z);
    CivilUncastCorrect(z);
    MonthsFit(d.year, d.month);
    YearSides(d, z, first);
    YearSides(d, z, after);
    YearStarts(first);
    YearStarts(after);
  }

  lemma YearSides(d: Date, z: int, y: int)
    requires Valid(d) && DayNumber(d) == z
    ensures d.year < y <==> z < DaysBeforeYear(y)
  {
    MonthsFit(d.year, d.month);
    if d.year < y {
      YearsIncrease(d.year, y);
    } else if d.year > y {
      YearsIncrease(y, d.year);
      MonthsFit(y, 12);
    }
  }

  // ---------------------------------------------------------------- what the source promises

  lemma WrapFits(x: int)
    ensures AsI32(x) == x <==> FitsI32(x)
  {}

  /** Casting the year of the right date. */
  lemma CastDate(d: Date, c: Date, n: int)
    requires Valid(d) && DayNumber(d) == n && c == d.(year := AsI32(d.year))
    ensures Valid(c) && DayNumber(c) == n <==> FitsI32(d.year)
    ensures FitsI32(d.year) ==> c == d
  {
    WrapFits(d.year);
    if Valid(c) && DayNumber(c) == n {
      DayNumberInjective(c, d);
    }
  }

  const FIRST_DAY: int := -784_353_015_833
  const END_DAY: int := 784_351_576_777

  /** The day numbers of the years that fit 32 bits. */
  predicate InYears32(zIn: int) {
    FIRST_DAY <= zIn < END_DAY
  }

  lemma InYears32Exactly(zIn: int)
    ensures InYears32(zIn) <==> FitsI32(CivilUncast(zIn).year)
  {
    EndsOfYears32(-0x8000_0000, 0x8000_0000);
    DaysOfYears(zIn, -0x8000_0000, 0x8000_0000);
  }

  lemma EndsOfYears32(first: int, after: int)
    requires first == -0x8000_0000 && after == 0x8000_0000
    ensures YearStart(first) == FIRST_DAY && YearStart(after) == END_DAY
  {}

  /** The result is a valid date at that distance from the epoch exactly when its year fits 32 bits;
      then it is the only such date. */
  lemma CivilFromDaysCorrect(zIn: int)
    ensures Valid(CivilFromDays(zIn)) && DayNumber(CivilFromDays(zIn)) == zIn <==> InYears32(zIn)
    ensures InYears32(zIn) ==> CivilFromDays(zIn) == CivilUncast(zIn)
    ensures InYears32(zIn) ==>
      forall d | Valid(d) && DayNumber(d) == zIn :: d == CivilFromDays(zIn)
  {
    var u, c := CivilUncast(zIn), CivilFromDays(zIn);
    InYears32Exactly(zIn);
    CivilUncastCorrect(zIn);
    CastDate(u, c, zIn);
    forall d | Valid(d) && DayNumber(d) == zIn
      ensures d == u
    {
      DayNumberInjective(d, u);
    }
  }

  /** The epoch is day zero. */
  lemma CivilEpoch()
    ensures CivilFromDays(0) == EPOCH
  {
    EpochNumber();
    EpochIsDay(0);
  }

  lemma EpochNumber()
    ensures Valid(EPOCH) && DayNumber(EPOCH) == 0 && FitsI32(1970)
  {
    assert DaysBeforeMonth(1970, 1) == 0;
  }

  lemma EpochIsDay(n: int)
    requires Valid(EPOCH) && DayNumber(EPOCH) == n
    ensures CivilFromDays(n) == EPOCH
  {
    CivilUncastCorrect(n);
    DayNumberInjective(CivilUncast(n), EPOCH);
    WrapFits(1970);
  }

  /** Consecutive day numbers are consecutive days. */
  lemma CivilFromDaysSteps(zIn: int)
    requires InYears32(zIn) && InYears32(zIn + 1)
    ensures Valid(CivilFromDays(zIn)) && CivilFromDays(zIn + 1) == NextDay(CivilFromDays(zIn))
  {
    CivilFromDaysCorrect(zIn);
    CivilFromDaysCorrect(zIn + 1);
    NextDayNumber(CivilFromDays(zIn));
  }
}
