/** The proleptic Gregorian calendar of section 21.4.1 of ECMA-262: the fields of a
    millisecond instant, and their order. */
module Calendar {
  import opened Text

  const MS_PER_DAY := 86_400_000

  /** Widest instant a `Date` can hold: 100,000,000 days either side of 1970. */
  const MAX_TIME_VALUE := 8_640_000_000_000_000

  type TimeValue = t: int | -MAX_TIME_VALUE <= t <= MAX_TIME_VALUE

  /** 0000-01-01T00:00:00.000Z and 9999-12-31T23:59:59.999Z. */
  const FIRST_STAMPED := -62_167_219_200_000
  const LAST_STAMPED := 253_402_300_799_999

  function DayFromYear(y: int): int {
    365 * (y - 1970) + (y - 1969) / 4 - (y - 1901) / 100 + (y - 1601) / 400
  }

  predicate IsLeap(y: int) {
    y % 4 == 0 && (y % 100 != 0 || y % 400 == 0)
  }

  lemma FourYearStep(y: int)
    ensures (y - 1968) / 4 - (y - 1969) / 4 == if y % 4 == 0 then 1 else 0
  {}

  lemma CenturyStep(y: int)
    ensures (y - 1900) / 100 - (y - 1901) / 100 == if y % 100 == 0 then 1 else 0
  {}

  lemma FourCenturyStep(y: int)
    ensures (y - 1600) / 400 - (y - 1601) / 400 == if y % 400 == 0 then 1 else 0
  {}

  lemma FourHundredIsHundreds(y: int)
    requires y % 400 == 0
    ensures y % 100 == 0
  {
    var k := y / 400;
    assert y == 100 * (4 * k);
  }

  lemma HundredIsFours(y: int)
    requires y % 100 == 0
    ensures y % 4 == 0
  {
    var k := y / 100;
    assert y == 4 * (25 * k);
  }

  lemma YearLength(y: int)
    ensures DayFromYear(y + 1) - DayFromYear(y) == if IsLeap(y) then 366 else 365
  {
    FourYearStep(y);
    CenturyStep(y);
    FourCenturyStep(y);
    if y % 400 == 0 { FourHundredIsHundreds(y); }
    if y % 100 == 0 { HundredIsFours(y); }
  }

  lemma {:induction false} YearsIncrease(y: int, z: int)
    requires y < z
    ensures DayFromYear(y) + 365 <= DayFromYear(z)
    decreases z - y
  {
    YearLength(z - 1);
    if y < z - 1 {
      YearsIncrease(y, z - 1);
    }
  }

  predicate InYear(day: int, y: int) {
    DayFromYear(y) <= day < DayFromYear(y + 1)
  }

  /** An estimate from the mean length of a Gregorian year is off by at most one. */
  lemma YearEstimate(day: int)
    ensures var y := 1970 + 400 * day / 146_097; DayFromYear(y - 1) <= day < DayFromYear(y + 2)
  {
    var k := 400 * day / 146_097;
    assert 146_097 * k <= 400 * day < 146_097 * k + 146_097;
    assert DayFromYear(1970 + k - 1) == 365 * (k - 1) + k / 4 - (k + 68) / 100 + (k + 368) / 400;
    assert DayFromYear(1970 + k + 2) == 365 * (k + 2) + (k + 3) / 4 - (k + 71) / 100 + (k + 371) / 400;
  }

  /** The largest year that starts on or before `day`. */
  function YearOf(day: int): (y: int)
    ensures InYear(day, y)
  {
    var y := 1970 + 400 * day / 146_097;
    YearEstimate(day);
    if day < DayFromYear(y) then y - 1 else if day < DayFromYear(y + 1) then y else y + 1
  }

  lemma YearUnique(day: int, y: int, z: int)
    requires InYear(day, y) && InYear(day, z)
    ensures y == z
  {
    if y + 1 < z { YearsIncrease(y + 1, z); }
    if z + 1 < y { YearsIncrease(z + 1, y); }
  }

  /** Days of the year before month `m + 1` starts. */
  function DaysBefore(m: nat, leap: bool): (d: nat)
    requires m <= 12
  {
    var l := if leap then 1 else 0;
    [0, 31, 59 + l, 90 + l, 120 + l, 151 + l, 181 + l, 212 + l, 243 + l, 273 + l, 304 + l, 334 + l, 365 + l][m]
  }

  function MonthOf(dayInYear: nat, leap: bool): (m: nat)
    requires dayInYear < DaysBefore(12, leap)
    ensures 1 <= m <= 12 && DaysBefore(m - 1, leap) <= dayInYear < DaysBefore(m, leap)
  {
    if dayInYear < DaysBefore(1, leap) then 1
    else if dayInYear < DaysBefore(2, leap) then 2
    else if dayInYear < DaysBefore(3, leap) then 3
    else if dayInYear < DaysBefore(4, leap) then 4
    else if dayInYear < DaysBefore(5, leap) then 5
    else if dayInYear < DaysBefore(6, leap) then 6
    else if dayInYear < DaysBefore(7, leap) then 7
    else if dayInYear < DaysBefore(8, leap) then 8
    else if dayInYear < DaysBefore(9, leap) then 9
    else if dayInYear < DaysBefore(10, leap) then 10
    else if dayInYear < DaysBefore(11, leap) then 11
    else 12
  }

  // ---------------------------------------------------------------------
  // From an instant to its seven fields and back
  // ---------------------------------------------------------------------

  /** Hour, minute, second and millisecond of a day. */
  function TimeFields(ms: nat): (f: seq<nat>)
    requires ms < MS_PER_DAY
    ensures |f| == 4 && f[0] < 24 && f[1] < 60 && f[2] < 60 && f[3] < 1000
  {
    [ms / 3_600_000, ms / 60_000 % 60, ms / 1000 % 60, ms % 1000]
  }

  /** Month and day of the month. */
  function DateFields(day: int): (f: seq<nat>)
    ensures |f| == 2 && 1 <= f[0] <= 12 && 1 <= f[1] <= 31
  {
    var y := YearOf(day);
    YearLength(y);
    var d := day - DayFromYear(y);
    var m := MonthOf(d, IsLeap(y));
    MonthLength(m, IsLeap(y));
    [m, d - DaysBefore(m - 1, IsLeap(y)) + 1]
  }

  lemma MonthLength(m: nat, leap: bool)
    requires 1 <= m <= 12
    ensures DaysBefore(m, leap) - DaysBefore(m - 1, leap) <= 31
  {}

  /** The six fields of an instant below its year. */
  function Below(t: int): (f: seq<nat>)
    ensures |f| == 6 && 1 <= f[0] <= 12
  {
    DateFields(t / MS_PER_DAY) + TimeFields(t % MS_PER_DAY)
  }

  function YearAt(t: int): int {
    YearOf(t / MS_PER_DAY)
  }

  /** The instant seven calendar fields name. */
  function Instant(y: int, f: seq<nat>): int
    requires |f| == 6 && 1 <= f[0] <= 12
  {
    (DayFromYear(y) + DaysBefore(f[0] - 1, IsLeap(y)) + f[1] - 1) * MS_PER_DAY
      + f[2] * 3_600_000 + f[3] * 60_000 + f[4] * 1000 + f[5]
  }

  lemma ClockOfDay(ms: nat)
    requires ms < MS_PER_DAY
    ensures ms == (ms / 3_600_000) * 3_600_000 + (ms / 60_000 % 60) * 60_000 + (ms / 1000 % 60) * 1000 + ms % 1000
  {
    assert ms / 60_000 == (ms / 1000) / 60;
    assert ms / 3_600_000 == (ms / 60_000) / 60;
  }

  /** The calendar fields determine the instant. */
  lemma InstantRoundTrip(t: int)
    ensures Instant(YearAt(t), Below(t)) == t
  {
    ClockOfDay(t % MS_PER_DAY);
  }

  function TimeOfDay(h: int, mi: int, s: int, ms: int): int {
    h * 3_600_000 + mi * 60_000 + s * 1000 + ms
  }

  /** Each field outweighs everything to its right. */
  lemma TimeOfDayOrder(f: seq<nat>, g: seq<nat>)
    requires |f| == |g| == 4 && f[1] < 60 && g[1] < 60 && f[2] < 60 && g[2] < 60 && f[3] < 1000 && g[3] < 1000
    requires Less(f, g)
    ensures TimeOfDay(f[0], f[1], f[2], f[3]) < TimeOfDay(g[0], g[1], g[2], g[3])
  {
    LessHead(f, g);
    if f[0] == g[0] {
      LessHead(f[1..], g[1..]);
      if f[1] == g[1] {
        assert f[1..][1..] == f[2..] && g[1..][1..] == g[2..];
        LessHead(f[2..], g[2..]);
        if f[2] == g[2] {
          assert f[2..][1..] == f[3..] && g[2..][1..] == g[3..];
          LessHead(f[3..], g[3..]);
        }
      }
    }
  }

  lemma DaysBeforeMonotone(m: nat, n: nat, leap: bool)
    requires m <= n <= 12
    ensures DaysBefore(m, leap) <= DaysBefore(n, leap)
  {}

  lemma BelowOrder(a: int, b: int)
    requires YearAt(a) == YearAt(b) && Less(Below(a), Below(b))
    ensures a < b
  {
    var f, g := Below(a), Below(b);
    InstantRoundTrip(a);
    InstantRoundTrip(b);
    var leap := IsLeap(YearAt(a));
    if f[0] < g[0] {
      DaysBeforeMonotone(f[0], g[0] - 1, leap);
      assert a / MS_PER_DAY < b / MS_PER_DAY;
    } else {
      assert f[1..][1..] == f[2..] && g[1..][1..] == g[2..];
      if f[1] < g[1] {
        assert a / MS_PER_DAY < b / MS_PER_DAY;
      } else {
        TimeOfDayOrder(f[2..], g[2..]);
      }
    }
  }

  /** Lexicographically smaller fields name earlier instants. */
  lemma InstantOrder(a: int, b: int)
    requires Less([YearAt(a)] + Below(a), [YearAt(b)] + Below(b))
    ensures a < b
  {
    var y, z := YearAt(a), YearAt(b);
    LessConcat([y], Below(a), [z], Below(b));
    if y != z {
      assert y < z;
      if y + 1 < z {
        YearsIncrease(y + 1, z);
      }
    } else {
      BelowOrder(a, b);
    }
  }

  /** Earlier instants have lexicographically smaller fields. */
  lemma FieldsOrder(a: int, b: int)
    requires a < b
    ensures Less([YearAt(a)] + Below(a), [YearAt(b)] + Below(b))
  {
    var k, l := [YearAt(a)] + Below(a), [YearAt(b)] + Below(b);
    assert k[0] == YearAt(a) && l[0] == YearAt(b) && k[1..] == Below(a) && l[1..] == Below(b);
    InstantRoundTrip(a);
    InstantRoundTrip(b);
    LessTrichotomous(k, l);
    if Less(l, k) {
      InstantOrder(b, a);
    }
  }
}
