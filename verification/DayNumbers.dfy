/** Calendar day numbers: `fnday`, `fndate` and the epoch day of `P13Satellite_tGS::tle`,
    lib/AioP13/src/AioP13.cpp.  The doubles are exact: 365.25, 30.6, 30.61 and 122.1 as reals. */
module DayNumbers {

  datatype Date = Date(y: int, m: int, d: int)

  /** A C cast from floating point to an integer type: towards zero. */
  function Trunc(x: real): int
  {
    if x >= 0.0 then x.Floor else -((-x).Floor)
  }

  /** Convert date to day number. */
  function FnDay(y: int, m: int, d: int): int
  {
    if m < 3 then FromMarch(y - 1, m + 12, d) else FromMarch(y, m, d)
  }

  function FromMarch(y: int, m: int, d: int): int
  {
    Trunc(y as real * 365.25) + Trunc((m + 1) as real * 30.6) + (d - 428)
  }

  /** Convert day number to date: what `fndate` computes. */
  function DateOf(n: int): Date
  {
    var t := n + 428;
    var y := Trunc((t as real - 122.1) / 365.25);
    var u := t - Trunc(y as real * 365.25);
    var m := Trunc(u as real / 30.61);
    var d := u - Trunc(m as real * 30.6);
    if m - 1 > 12 then Date(y + 1, m - 13, d) else Date(y, m - 1, d)
  }

  /** `fndate`, writing through its three references. */
  method FnDate(n: int) returns (y: int, m: int, d: int)
    ensures Date(y, m, d) == DateOf(n)
  {
    var idt := n + 428;
    y := Trunc((idt as real - 122.1) / 365.25);
    idt := idt - Trunc(y as real * 365.25);
    m := Trunc(idt as real / 30.61);
    idt := idt - Trunc(m as real * 30.6);
    m := m - 1;
    if m > 12 {
      m := m - 12;
      y := y + 1;
    }
    d := idt;
  }

  // ------------------------------------------------------ the calendar

  predicate Leap(y: int)
  {
    y % 4 == 0
  }

  function DaysIn(y: int, m: int): int
  {
    if m == 2 then (if Leap(y) then 29 else 28)
    else if m == 4 || m == 6 || m == 9 || m == 11 then 30
    else 31
  }

  predicate Valid(t: Date)
  {
    1 <= t.m <= 12 && 1 <= t.d <= DaysIn(t.y, t.m)
  }

  /** The day after. */
  function Next(t: Date): Date
  {
    if t.d < DaysIn(t.y, t.m) then t.(d := t.d + 1)
    else if t.m < 12 then Date(t.y, t.m + 1, 1)
    else Date(t.y + 1, 1, 1)
  }

  /** The date lies on or after 1 March of year 0, where the truncations are floors. */
  predicate FromYearZero(t: Date)
  {
    t.y > 0 || (t.y == 0 && t.m >= 3)
  }

  // ------------------------------------------------------ the magic constants

  /** Years of 365.25 days, cut: one leap day after every four years. */
  lemma YearStart(y: int)
    requires y >= 0
    ensures Trunc(y as real * 365.25) == 365 * y + y / 4
  {
    var q, r := y / 4, y % 4;
    assert y as real == 4.0 * q as real + r as real;
    assert y as real * 365.25 == (365 * y + q) as real + r as real * 0.25;
  }

  lemma NegativeYearStart(y: int)
    requires y < 0
    ensures Trunc(y as real * 365.25) == 365 * y - (-y) / 4
  {
    YearStart(-y);
    assert -(y as real * 365.25) == (-y) as real * 365.25;
  }

  /** Days before month `m` (3 = March .. 14 = February of the next year), up to a constant. */
  function MonthStart(m: int): int
  {
    if m == 3 then 122 else if m == 4 then 153 else if m == 5 then 183 else if m == 6 then 214
    else if m == 7 then 244 else if m == 8 then 275 else if m == 9 then 306 else if m == 10 then 336
    else if m == 11 then 367 else if m == 12 then 397 else if m == 13 then 428 else 459
  }

  lemma MonthStartIsCut(m: int)
    requires 3 <= m <= 14
    ensures Trunc((m + 1) as real * 30.6) == MonthStart(m)
  {
    if
    case m == 3 => case m == 4 => case m == 5 => case m == 6 => case m == 7 => case m == 8 =>
    case m == 9 => case m == 10 => case m == 11 => case m == 12 => case m == 13 => case m == 14 =>
  }

  /** The month is found again from the days since 1 March. */
  lemma MonthFound(m: int, d: int)
    requires 3 <= m <= 14 && 1 <= d <= 31 && MonthStart(m) + d <= 488
    requires m == 4 || m == 6 || m == 9 || m == 11 ==> d <= 30
    ensures Trunc((MonthStart(m) + d) as real / 30.61) == m + 1
  {
    if
    case m == 3 => case m == 4 => case m == 5 => case m == 6 => case m == 7 => case m == 8 =>
    case m == 9 => case m == 10 => case m == 11 => case m == 12 => case m == 13 => case m == 14 =>
  }

  /** The year is found again. */
  lemma YearFound(y: int, u: int)
    requires y >= 0 && 123 <= u <= 488 && (u == 488 ==> (y + 1) % 4 == 0)
    ensures Trunc(((365 * y + y / 4 + u) as real - 122.1) / 365.25) == y
  {
    var q, r := y / 4, y % 4;
    var x := ((365 * y + q + u) as real - 122.1) / 365.25;
    assert y == 4 * q + r;
    assert 365.25 * y as real == (365 * y + q) as real + 0.25 * r as real;
    assert x * 365.25 == 365.25 * y as real + (u as real - 122.1 - 0.25 * r as real);
    assert 0.0 <= u as real - 122.1 - 0.25 * r as real < 365.25;
    assert y as real <= x < (y + 1) as real;
  }

  // ------------------------------------------------------ inverses

  /** The two functions invert each other on every date from 1 March of year 0 on, under the
      every-fourth-year leap rule. */
  lemma RoundTrip(t: Date)
    requires Valid(t) && FromYearZero(t)
    ensures DateOf(FnDay(t.y, t.m, t.d)) == t
  {
    var y, m := if t.m < 3 then t.y - 1 else t.y, if t.m < 3 then t.m + 12 else t.m;
    FnDayValue(t);
    hide Trunc, DateOf, FnDay;
    assert MonthStart(m) + t.d <= 488 && (MonthStart(m) + t.d == 488 ==> (y + 1) % 4 == 0);
    MarchDate(y, m, t.d);
  }

  lemma FnDayValue(t: Date)
    requires Valid(t) && FromYearZero(t)
    ensures var y, m := if t.m < 3 then t.y - 1 else t.y, if t.m < 3 then t.m + 12 else t.m;
            FnDay(t.y, t.m, t.d) == 365 * y + y / 4 + MonthStart(m) + (t.d - 428)
  {
    hide Trunc;
    YearStart(if t.m < 3 then t.y - 1 else t.y);
    MonthStartIsCut(if t.m < 3 then t.m + 12 else t.m);
  }

  lemma MarchDate(y: int, m: int, d: int)
    requires y >= 0 && 3 <= m <= 14 && 1 <= d <= 31 && MonthStart(m) + d <= 488
    requires m == 4 || m == 6 || m == 9 || m == 11 ==> d <= 30
    requires MonthStart(m) + d == 488 ==> (y + 1) % 4 == 0
    ensures DateOf(365 * y + y / 4 + MonthStart(m) + (d - 428))
            == if m > 12 then Date(y + 1, m - 12, d) else Date(y, m, d)
  {
    var u := MonthStart(m) + d;
    hide Trunc;
    YearFound(y, u);
    YearStart(y);
    MonthFound(m, d);
    MonthStartIsCut(m);
    assert 365 * y + y / 4 + MonthStart(m) + (d - 428) + 428 == 365 * y + y / 4 + u;
  }

  /** Before that date they never do: the condition is exact. */
  lemma RoundTripIff(t: Date)
    requires Valid(t)
    ensures DateOf(FnDay(t.y, t.m, t.d)) == t <==> FromYearZero(t)
  {
    if FromYearZero(t) {
      RoundTrip(t);
    } else {
      var y, m := if t.m < 3 then t.y - 1 else t.y, if t.m < 3 then t.m + 12 else t.m;
      NegativeYearStart(y);
      MonthStartIsCut(m);
      YearMissed(y, MonthStart(m) + t.d);
    }
  }

  /** With a negative year the cut goes the other way, and the year comes out too large unless the
      remainder is large enough, in which case the day is off. */
  lemma YearMissed(y: int, u: int)
    requires y < 0 && 123 <= u <= 488
    ensures Trunc(((365 * y - (-y) / 4 + u) as real - 122.1) / 365.25) != y
  {
  }

  /** The next day has the next number. */
  lemma NextDayNextNumber(t: Date)
    requires Valid(t) && FromYearZero(t)
    ensures Valid(Next(t)) && FromYearZero(Next(t))
    ensures var n := Next(t); FnDay(n.y, n.m, n.d) == FnDay(t.y, t.m, t.d) + 1
  {
    var y := if t.m < 3 then t.y - 1 else t.y;
    YearStart(y);
    YearStart(y + 1);
    MonthStartIsCut(if t.m < 3 then t.m + 12 else t.m);
    MonthStartIsCut(if t.m == 12 then 13 else if t.m + 1 < 3 then t.m + 13 else t.m + 1);
    hide Trunc;
  }

  /** Days of a year up to the end of the month before `m`. */
  function DaysBefore(y: int, m: int): int
    requires 1 <= m <= 12
    decreases m
  {
    if m == 1 then 0 else DaysBefore(y, m - 1) + DaysIn(y, m - 1)
  }

  /** Counting from day 0 of January, as the element sets do, gives the day of the year. */
  lemma {:induction false} DayOfYear(y: int, m: int, d: int)
    requires y > 0 && 1 <= m <= 12
    ensures FnDay(y, m, d) == FnDay(y, 1, 0) + DaysBefore(y, m) + d
    decreases m
  {
    hide Trunc;
    if m > 1 {
      DayOfYear(y, m - 1, d);
      MonthStep(y, m - 1, d);
    }
  }

  lemma MonthStep(y: int, m: int, d: int)
    requires y > 0 && 1 <= m < 12
    ensures FnDay(y, m + 1, d) == FnDay(y, m, d) + DaysIn(y, m)
  {
    YearStart(y - 1);
    YearStart(y);
    MonthStartIsCut(if m < 3 then m + 12 else m);
    MonthStartIsCut(if m + 1 < 3 then m + 13 else m + 1);
    hide Trunc;
  }

  // ------------------------------------------------------ the epoch of an element set

  /** `cp_lYE` and `cp_lDE`: two-digit year, day of the year cut from the day with fraction. */
  function EpochYear(yy: int): int
  {
    if yy < 58 then yy + 2000 else yy + 1900
  }

  function EpochDay(yy: int, day: real): int
  {
    FnDay(EpochYear(yy), 1, 0) + Trunc(day)
  }

  /** The epoch day is day number `n` of the epoch year, for every day the year has. */
  lemma EpochIsNthDay(yy: int, day: real, t: Date)
    requires 0 <= yy <= 255 && day >= 1.0 && Valid(t) && t.y == EpochYear(yy)
    requires DaysBefore(t.y, t.m) + t.d == day.Floor
    ensures DateOf(EpochDay(yy, day)) == t
  {
    DayOfYear(t.y, t.m, t.d);
    RoundTrip(t);
  }

  /** Day 1 is 1 January of year 1, and from there the days are counted through. */
  lemma DayNumberIs(t: Date)
    requires Valid(t) && t.y > 0
    ensures FnDay(t.y, t.m, t.d) == 365 * (t.y - 1) + (t.y - 1) / 4 + DaysBefore(t.y, t.m) + t.d
  {
    DayOfYear(t.y, t.m, t.d);
    YearStart(t.y - 1);
    MonthStartIsCut(13);
    hide Trunc;
  }

  /** Two digits stand for a year from 1958 to 2057. */
  lemma TwoDigitsNameTheYear(y: int)
    requires 1958 <= y <= 2057
    ensures EpochYear(y % 100) == y
  {
  }

  /** So the epoch of an element set is day number `n`, cut, of the year its two digits stand for. */
  lemma EpochIsDayOfItsYear(day: real, t: Date)
    requires 1958 <= t.y <= 2057 && day >= 1.0 && Valid(t) && DaysBefore(t.y, t.m) + t.d == day.Floor
    ensures DateOf(EpochDay(t.y % 100, day)) == t
  {
    TwoDigitsNameTheYear(t.y);
    EpochIsNthDay(t.y % 100, day, t);
  }
}
