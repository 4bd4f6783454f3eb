/** Civil time and Unix seconds, in UTC, without leap seconds (section 4.16 of POSIX.1-2017 Base Definitions). */
module Calendar {

  const U64_SIZE: nat := 0x1_0000_0000_0000_0000
  const I32_MAX: nat := 0x7FFF_FFFF
  const I32_MIN: int := -0x8000_0000

  predicate IsLeap(year: int) {
    (year % 4 == 0 && year % 100 != 0) || year % 400 == 0
  }

  function YearDays(year: int): nat {
    if IsLeap(year) then 366 else 365
  }

  function MonthDays(year: int, month: nat): (days: nat)
    requires 1 <= month <= 12
    ensures 28 <= days <= 31
  {
    if month == 2 then (if IsLeap(year) then 29 else 28)
    else if month == 4 || month == 6 || month == 9 || month == 11 then 30
    else 31
  }

  /** Days from 1970 to the start of `year`; none for earlier years. */
  function DaysBeforeYear(year: int): nat
    decreases year
  {
    if year <= 1970 then 0 else DaysBeforeYear(year - 1) + YearDays(year - 1)
  }

  /** Days of the first `months` months, of which there are at most twelve. */
  function DaysOfMonths(year: int, months: nat): nat {
    if months == 0 then 0
    else if months > 12 then DaysOfMonths(year, 12)
    else DaysOfMonths(year, months - 1) + MonthDays(year, months)
  }

  datatype Civil = Civil(year: int, month: nat, day: nat, hour: nat, minute: nat, second: nat)

  /** Month, day and time of day are those of some date of the year. */
  predicate FieldsValid(c: Civil) {
    && 1 <= c.month <= 12 && 1 <= c.day <= MonthDays(c.year, c.month)
    && c.hour < 24 && c.minute < 60 && c.second < 60
  }

  /** A real date and time of day, from 1970 on. */
  predicate IsReal(c: Civil) {
    c.year >= 1970 && FieldsValid(c)
  }

  function DayNumber(year: int, month: nat, day: nat): int {
    DaysBeforeYear(year) + DaysOfMonths(year, if month == 0 then 0 else month - 1) + day - 1
  }

  function SecondOfDay(c: Civil): nat {
    c.hour * 3600 + c.minute * 60 + c.second
  }

  /** Seconds since the epoch, in 64-bit arithmetic. */
  function ToEpoch(c: Civil): nat {
    (DayNumber(c.year, c.month, c.day) * 86400 + SecondOfDay(c)) % U64_SIZE
  }

  /** The next year of a 32-bit counter, which wraps around. */
  function NextYear(year: int): int {
    if year == I32_MAX then I32_MIN else year + 1
  }

  /** The year a day falls in, counting from `year`, and the day of that year. */
  function YearAt(days: nat, year: int): (int, nat)
    decreases days
  {
    if days < YearDays(year) then (year, days) else YearAt(days - YearDays(year), NextYear(year))
  }

  /** How many whole months are over by a day of the year, counting from `done`. */
  function MonthAt(year: int, day: nat, done: nat): nat
    requires done <= 12
    decreases 12 - done
  {
    if done < 12 && DaysOfMonths(year, done + 1) <= day then MonthAt(year, day, done + 1) else done
  }

  function FromEpoch(secs: nat): Civil {
    var (year, day) := YearAt(secs / 86400, 1970);
    var months := MonthAt(year, day, 0);
    Civil(year, months + 1, if day < DaysOfMonths(year, months) then 0 else day - DaysOfMonths(year, months) + 1,
          secs / 3600 % 24, secs / 60 % 60, secs % 60)
  }

  // ---------------------------------------------------------------- the loops

  method DaysFromEpoch(year: int, month: nat, day: nat) returns (days: int)
    ensures days == DayNumber(year, month, day)
  {
    days := 0;
    if year > 1970 {
      for y := 1970 to year
        invariant days == DaysBeforeYear(y)
      {
        days := days + if IsLeap(y) then 366 else 365;
      }
    }
    var before := days;
    var whole := if month == 0 then 0 else month - 1;
    for m := 0 to if whole > 12 then 12 else whole
      invariant days == before + DaysOfMonths(year, m)
    {
      days := days + MonthDays(year, m + 1);
    }
    days := days + day - 1;
  }

  method CivilToEpoch(c: Civil) returns (secs: nat)
    ensures secs == ToEpoch(c)
  {
    var days := DaysFromEpoch(c.year, c.month, c.day);
    secs := (days * 86400 + c.hour * 3600 + c.minute * 60 + c.second) % U64_SIZE;
  }

  method EpochToCivil(secs: nat) returns (c: Civil)
    ensures c == FromEpoch(secs)
  {
    var second, minutes := secs % 60, secs / 60;
    var minute, hours := minutes % 60, minutes / 60;
    var hour, d := hours % 24, hours / 24;
    assert hours == secs / 3600 && d == secs / 86400;
    var year := 1970;
    while d >= YearDays(year)
      invariant d >= 0 && YearAt(d, year) == YearAt(secs / 86400, 1970)
      decreases d
    {
      d, year := d - YearDays(year), NextYear(year);
    }
    var m, acc := 0, 0;
    while m < 12 && acc + MonthDays(year, m + 1) <= d
      invariant m <= 12 && acc == DaysOfMonths(year, m)
      invariant MonthAt(year, d, m) == MonthAt(year, d, 0)
      invariant acc <= d
    {
      acc, m := acc + MonthDays(year, m + 1), m + 1;
    }
    c := Civil(year, m + 1, d - acc + 1, hour, minute, second);
  }

  // ---------------------------------------------------------------- years and months

  lemma TwelveMonths(year: int)
    ensures DaysOfMonths(year, 12) == YearDays(year)
  {
    assert DaysOfMonths(year, 1) == 31;
    assert DaysOfMonths(year, 2) == 31 + MonthDays(year, 2);
    assert DaysOfMonths(year, 4) == DaysOfMonths(year, 2) + 61;
    assert DaysOfMonths(year, 6) == DaysOfMonths(year, 4) + 61;
    assert DaysOfMonths(year, 8) == DaysOfMonths(year, 6) + 62;
    assert DaysOfMonths(year, 10) == DaysOfMonths(year, 8) + 61;
    assert DaysOfMonths(year, 12) == DaysOfMonths(year, 10) + 61;
  }

  lemma {:induction false} YearsGrow(a: int, b: int)
    requires 1970 <= a <= b
    ensures DaysBeforeYear(a) <= DaysBeforeYear(b)
    ensures a < b ==> DaysBeforeYear(a) + YearDays(a) <= DaysBeforeYear(b)
    ensures DaysBeforeYear(b) - DaysBeforeYear(a) <= 366 * (b - a)
    decreases b - a
  {
    if a < b {
      YearsGrow(a, b - 1);
    }
  }

  lemma {:induction false} MonthsGrow(year: int, a: nat, b: nat)
    requires a <= b <= 12
    ensures DaysOfMonths(year, a) <= DaysOfMonths(year, b)
    ensures a < b ==> DaysOfMonths(year, a + 1) <= DaysOfMonths(year, b)
  {
    if a < b {
      MonthsGrow(year, a, b - 1);
    }
  }

  /** The search stays inside the 32-bit years, and inside the year it stops at. */
  lemma {:induction false} YearAtStops(days: nat, from: int)
    requires I32_MIN <= from <= I32_MAX
    ensures var (year, day) := YearAt(days, from); I32_MIN <= year <= I32_MAX && day < YearDays(year)
    decreases days
  {
    if days >= YearDays(from) {
      YearAtStops(days - YearDays(from), NextYear(from));
    }
  }

  lemma {:induction false} YearAtFinds(days: nat, from: int)
    requires 1970 <= from <= I32_MAX && DaysBeforeYear(from) + days < DaysBeforeYear(I32_MAX + 1)
    ensures var (year, day) := YearAt(days, from);
      from <= year && day < YearDays(year) && DaysBeforeYear(from) + days == DaysBeforeYear(year) + day
    decreases days
  {
    if days >= YearDays(from) {
      YearAtFinds(days - YearDays(from), from + 1);
    }
  }

  lemma {:induction false} YearAtUnique(from: int, year: int, day: nat)
    requires 1970 <= from <= year <= I32_MAX && day < YearDays(year)
    ensures DaysBeforeYear(from) <= DaysBeforeYear(year)
    ensures YearAt(DaysBeforeYear(year) - DaysBeforeYear(from) + day, from) == (year, day)
    decreases year - from
  {
    YearsGrow(from, year);
    if from < year {
      YearAtUnique(from + 1, year, day);
    }
  }

  /** One day after the last 32-bit year the counter has wrapped. */
  lemma {:induction false} YearAtWraps(from: int, last: int)
    requires last == I32_MAX && 1970 <= from <= last
    ensures DaysBeforeYear(from) <= DaysBeforeYear(last + 1)
    ensures YearAt(DaysBeforeYear(last + 1) - DaysBeforeYear(from), from) == (I32_MIN, 0)
    decreases last - from
  {
    YearsGrow(from, last + 1);
    if from < last {
      YearAtWraps(from + 1, last);
    }
  }

  lemma {:induction false} MonthAtFinds(year: int, day: nat, done: nat)
    requires done <= 12 && DaysOfMonths(year, done) <= day < YearDays(year)
    ensures var m := MonthAt(year, day, done); m < 12 && DaysOfMonths(year, m) <= day < DaysOfMonths(year, m + 1)
    decreases 12 - done
  {
    TwelveMonths(year);
    if done < 12 && DaysOfMonths(year, done + 1) <= day {
      MonthAtFinds(year, day, done + 1);
    }
  }

  lemma MonthUnique(year: int, day: nat, a: nat, b: nat)
    requires a < 12 && b < 12
    requires DaysOfMonths(year, a) <= day < DaysOfMonths(year, a + 1)
      && DaysOfMonths(year, b) <= day < DaysOfMonths(year, b + 1)
    ensures a == b
  {
    if a < b {
      MonthsGrow(year, a, b);
    } else if b < a {
      MonthsGrow(year, b, a);
    }
  }

  // ---------------------------------------------------------------- round trips

  lemma ClockParts(secs: nat)
    ensures secs == secs / 86400 * 86400 + secs / 3600 % 24 * 3600 + secs / 60 % 60 * 60 + secs % 60
  {
    assert secs / 86400 == secs / 3600 / 24 && secs / 3600 == secs / 60 / 60;
  }

  /** The first second whose year does not fit a 32-bit integer. */
  ghost function FirstUncounted(): nat {
    DaysBeforeYear(I32_MAX + 1) * 86400
  }

  lemma MonthOfDay(year: int, day: nat, months: nat)
    requires day < YearDays(year) && months == MonthAt(year, day, 0)
    ensures months < 12 && DaysOfMonths(year, months) <= day
    ensures day - DaysOfMonths(year, months) + 1 <= MonthDays(year, months + 1)
  {
    MonthAtFinds(year, day, 0);
  }

  lemma FromEpochIsValid(secs: nat)
    ensures FieldsValid(FromEpoch(secs)) && I32_MIN <= FromEpoch(secs).year <= I32_MAX
  {
    var (year, day) := YearAt(secs / 86400, 1970);
    YearAtStops(secs / 86400, 1970);
    MonthOfDay(year, day, MonthAt(year, day, 0));
  }

  lemma FromEpochDay(secs: nat)
    requires secs < FirstUncounted()
    ensures var c := FromEpoch(secs); c.year >= 1970 && DayNumber(c.year, c.month, c.day) == secs / 86400
  {
    var (year, day) := YearAt(secs / 86400, 1970);
    YearAtFinds(secs / 86400, 1970);
    MonthOfDay(year, day, MonthAt(year, day, 0));
  }

  /** Seconds of the 32-bit years all come before the first uncounted one, also for years before 1970. */
  lemma EpochBound(c: Civil)
    requires FieldsValid(c) && c.year <= I32_MAX
    ensures ToEpoch(c) < FirstUncounted()
  {
    FieldDay(c);
    var days, bound := DayNumber(c.year, c.month, c.day), DaysBeforeYear(I32_MAX + 1);
    if c.year >= 1970 {
      YearsGrow(c.year, I32_MAX + 1);
      YearsGrow(1970, c.year);
    } else {
      YearsGrow(1970, I32_MAX + 1);
    }
    SecondsBelow(days, SecondOfDay(c), bound);
  }

  lemma SecondsBelow(days: int, second: nat, bound: nat)
    requires 0 <= days <= 366 * (I32_MAX + 1) && days < bound && second < 86400
    ensures (days * 86400 + second) % U64_SIZE < bound * 86400
  {
    FitsU64(days, second);
  }

  lemma FieldDay(c: Civil)
    requires FieldsValid(c)
    ensures var day := DayNumber(c.year, c.month, c.day) - DaysBeforeYear(c.year);
      0 <= DaysOfMonths(c.year, c.month - 1) <= day < DaysOfMonths(c.year, c.month) <= YearDays(c.year)
    ensures SecondOfDay(c) < 86400
  {
    TwelveMonths(c.year);
    MonthsGrow(c.year, c.month, 12);
  }

  lemma BackAgain(secs: nat, c: Civil)
    requires secs < U64_SIZE && DayNumber(c.year, c.month, c.day) == secs / 86400
    requires c.hour == secs / 3600 % 24 && c.minute == secs / 60 % 60 && c.second == secs % 60
    ensures ToEpoch(c) == secs
  {
    ClockParts(secs);
    assert DayNumber(c.year, c.month, c.day) * 86400 + SecondOfDay(c) == secs;
  }

  /** A second has a real civil time that converts back to it exactly while the year fits a 32-bit integer. */
  lemma EpochRoundTrip(secs: nat)
    requires secs < U64_SIZE
    ensures ToEpoch(FromEpoch(secs)) == secs <==> secs < FirstUncounted()
    ensures secs < FirstUncounted() ==> IsReal(FromEpoch(secs))
  {
    FromEpochIsValid(secs);
    if secs < FirstUncounted() {
      FromEpochDay(secs);
      BackAgain(secs, FromEpoch(secs));
    } else {
      EpochBound(FromEpoch(secs));
    }
  }

  lemma FirstDayOf(secs: nat, days: nat, year: int)
    requires secs == days * 86400 && YearAt(days, 1970) == (year, 0)
    ensures FromEpoch(secs) == Civil(year, 1, 1, 0, 0, 0)
  {
    ClockUnique(days, 0, 0, 0);
    MonthAtFinds(year, 0, 0);
    assert DaysOfMonths(year, 1) == 31;
    assert MonthAt(year, 0, 0) == 0;
  }

  /** At the first uncounted second the year has wrapped to the least 32-bit integer. */
  lemma FirstUncountedWraps(last: int)
    requires last == I32_MAX
    ensures FirstUncounted() == DaysBeforeYear(last + 1) * 86400 < U64_SIZE
    ensures FromEpoch(FirstUncounted()) == Civil(I32_MIN, 1, 1, 0, 0, 0)
  {
    YearsGrow(1970, last + 1);
    YearAtWraps(1970, last);
    FirstDayOf(FirstUncounted(), DaysBeforeYear(last + 1), I32_MIN);
  }

  /** Real times up to the last year a 32-bit integer holds do not wrap around. */
  lemma NoWrap(c: Civil)
    requires IsReal(c) && c.year <= I32_MAX
    ensures ToEpoch(c) == DayNumber(c.year, c.month, c.day) * 86400 + SecondOfDay(c)
  {
    FieldDay(c);
    YearsGrow(1970, c.year);
    FitsU64(DayNumber(c.year, c.month, c.day), SecondOfDay(c));
  }

  lemma FitsU64(days: int, second: nat)
    requires 0 <= days <= 366 * (I32_MAX + 1) && second < 86400
    ensures (days * 86400 + second) % U64_SIZE == days * 86400 + second
  {
  }

  lemma ClockUnique(days: nat, hour: nat, minute: nat, second: nat)
    requires hour < 24 && minute < 60 && second < 60
    ensures var secs := days * 86400 + hour * 3600 + minute * 60 + second;
      secs / 86400 == days && secs / 3600 % 24 == hour && secs / 60 % 60 == minute && secs % 60 == second
  {
    var secs := days * 86400 + hour * 3600 + minute * 60 + second;
    assert secs / 60 == days * 1440 + hour * 60 + minute;
    assert secs / 3600 == days * 24 + hour;
  }

  lemma CivilRoundTrip(c: Civil)
    requires IsReal(c) && c.year <= I32_MAX
    ensures FromEpoch(ToEpoch(c)) == c
  {
    NoWrap(c);
    FieldDay(c);
    var days := DayNumber(c.year, c.month, c.day);
    ClockUnique(days, c.hour, c.minute, c.second);
    DateOfDay(c, days, days - DaysBeforeYear(c.year));
    FromParts(ToEpoch(c), days, c, days - DaysBeforeYear(c.year));
  }

  lemma DateOfDay(c: Civil, days: nat, day: nat)
    requires IsReal(c) && c.year <= I32_MAX && days == DaysBeforeYear(c.year) + day
    requires DaysOfMonths(c.year, c.month - 1) <= day < DaysOfMonths(c.year, c.month) <= YearDays(c.year)
    ensures YearAt(days, 1970) == (c.year, day) && MonthAt(c.year, day, 0) == c.month - 1
  {
    YearAtUnique(1970, c.year, day);
    MonthAtFinds(c.year, day, 0);
    MonthUnique(c.year, day, MonthAt(c.year, day, 0), c.month - 1);
  }

  lemma FromParts(secs: nat, days: nat, c: Civil, day: nat)
    requires secs / 86400 == days && YearAt(days, 1970) == (c.year, day)
    requires c.month >= 1 && MonthAt(c.year, day, 0) == c.month - 1
    requires secs / 3600 % 24 == c.hour && secs / 60 % 60 == c.minute && secs % 60 == c.second
    requires day == DaysOfMonths(c.year, c.month - 1) + c.day - 1 && c.day >= 1
    ensures FromEpoch(secs) == c
  {
  }

  /** Fields of a year before 1970 are taken for 1970. */
  lemma EarlyYears(c: Civil)
    requires FieldsValid(c) && c.year < 1970
    ensures FromEpoch(ToEpoch(c)).year >= 1970
  {
    EpochBound(c);
    FromEpochDay(ToEpoch(c));
  }

  /** Converting there and back gives the same fields exactly for the real times. */
  lemma RoundTripExactly(c: Civil)
    requires c.year <= I32_MAX
    ensures FromEpoch(ToEpoch(c)) == c <==> IsReal(c)
  {
    if IsReal(c) {
      CivilRoundTrip(c);
    } else {
      FromEpochIsValid(ToEpoch(c));
      if FieldsValid(c) {
        EarlyYears(c);
      }
    }
  }

  // ---------------------------------------------------------------- order

  predicate Earlier(a: Civil, b: Civil) {
    a.year < b.year || (a.year == b.year && (
      a.month < b.month || (a.month == b.month && (
        a.day < b.day || (a.day == b.day && (
          a.hour < b.hour || (a.hour == b.hour && (
            a.minute < b.minute || (a.minute == b.minute && a.second < b.second)))))))))
  }

  lemma EarlierDay(a: Civil, b: Civil)
    requires IsReal(a) && IsReal(b) && Earlier(a, b)
    ensures var x, y := DayNumber(a.year, a.month, a.day), DayNumber(b.year, b.month, b.day);
      x < y || (x == y && SecondOfDay(a) < SecondOfDay(b))
  {
    FieldDay(a);
    FieldDay(b);
    if a.year < b.year {
      YearsGrow(a.year, b.year);
    } else if a.month < b.month {
      MonthsGrow(a.year, a.month - 1, b.month - 1);
    }
  }

  /** The order of civil times is the order of seconds. */
  lemma OrderIsKept(a: Civil, b: Civil)
    requires IsReal(a) && IsReal(b) && a.year <= I32_MAX && b.year <= I32_MAX
    ensures Earlier(a, b) <==> ToEpoch(a) < ToEpoch(b)
  {
    NoWrap(a);
    NoWrap(b);
    FieldDay(a);
    FieldDay(b);
    if Earlier(a, b) {
      EarlierDay(a, b);
    } else if Earlier(b, a) {
      EarlierDay(b, a);
    }
  }

  // ---------------------------------------------------------------- closed forms

  /** Leap years of the Gregorian calendar before `year`, counted from year one. */
  function LeapsBefore(year: nat): int
    requires year >= 1
  {
    (year - 1) / 4 - (year - 1) / 100 + (year - 1) / 400
  }

  lemma LeapsStep(year: nat)
    requires year >= 1
    ensures LeapsBefore(year + 1) == LeapsBefore(year) + if IsLeap(year) then 1 else 0
  {
    FourthStep(year);
    HundredthStep(year);
    FourHundredthStep(year);
    HundredIsFour(year);
    FourHundredIsHundred(year);
  }

  lemma FourthStep(year: nat)
    requires year >= 1
    ensures year / 4 == (year - 1) / 4 + if year % 4 == 0 then 1 else 0
  {
  }

  lemma HundredthStep(year: nat)
    requires year >= 1
    ensures year / 100 == (year - 1) / 100 + if year % 100 == 0 then 1 else 0
  {
  }

  lemma HundredIsFour(year: nat)
    ensures year % 100 == 0 ==> year % 4 == 0
  {
    if year % 100 == 0 {
      assert year == 4 * (25 * (year / 100));
    }
  }

  lemma FourHundredIsHundred(year: nat)
    ensures year % 400 == 0 ==> year % 100 == 0
  {
    if year % 400 == 0 {
      assert year == 100 * (4 * (year / 400));
    }
  }

  lemma FourHundredthStep(year: nat)
    requires year >= 1
    ensures year / 400 == (year - 1) / 400 + if year % 400 == 0 then 1 else 0
  {
  }

  /** Years have 365 days and a leap day every fourth, but not every hundredth, but every four hundredth year. */
  lemma {:induction false} DaysClosedForm(year: nat)
    requires year >= 1970
    ensures DaysBeforeYear(year) == 365 * (year - 1970) + LeapsBefore(year) - 477
  {
    if year > 1970 {
      DaysClosedForm(year - 1);
      LeapsStep(year - 1);
    }
  }

  /** The days before the twelve months of a common year. */
  const MONTH_STARTS: seq<nat> := [0, 31, 59, 90, 120, 151, 181, 212, 243, 273, 304, 334]

  /** Months begin at their day of a common year, one later after February of a leap year. */
  lemma MonthClosedForm(year: nat, month: nat)
    requires 1 <= month <= 12
    ensures DaysOfMonths(year, month - 1) ==
            MONTH_STARTS[month - 1] +
            if month > 2 && ((year % 4 == 0 && year % 100 != 0) || year % 400 == 0) then 1 else 0
  {
    var leap := if IsLeap(year) then 1 else 0;
    assert DaysOfMonths(year, 1) == 31 && DaysOfMonths(year, 2) == 59 + leap && DaysOfMonths(year, 3) == 90 + leap;
    assert DaysOfMonths(year, 4) == 120 + leap && DaysOfMonths(year, 5) == 151 + leap;
    assert DaysOfMonths(year, 6) == 181 + leap && DaysOfMonths(year, 7) == 212 + leap;
    assert DaysOfMonths(year, 8) == 243 + leap && DaysOfMonths(year, 9) == 273 + leap;
    assert DaysOfMonths(year, 10) == 304 + leap && DaysOfMonths(year, 11) == 334 + leap;
  }

  /** The seconds of a real time, in closed form. */
  lemma SecondsExactly(c: Civil)
    requires IsReal(c) && c.year <= I32_MAX
    ensures var leapDay := c.month > 2 && ((c.year % 4 == 0 && c.year % 100 != 0) || c.year % 400 == 0);
      ToEpoch(c) ==
        (365 * (c.year - 1970) + LeapsBefore(c.year) - 477 + MONTH_STARTS[c.month - 1] + (if leapDay then 1 else 0)
         + c.day - 1) * 86400 + c.hour * 3600 + c.minute * 60 + c.second
  {
    NoWrap(c);
    DaysClosedForm(c.year);
    MonthClosedForm(c.year, c.month);
  }
}
