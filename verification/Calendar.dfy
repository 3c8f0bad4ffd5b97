/** `chrono_today` of `bench/runner.rs`: a closed form from days since
    1970-01-01 to the Gregorian date, against walking day by day. */
module Calendar {

  datatype Date = Date(y: int, m: int, d: int)

  /** Leap years, as in Appendix C of RFC 3339. */
  predicate Leap(y: int) { y % 4 == 0 && (y % 100 != 0 || y % 400 == 0) }

  /** Month lengths, as in section 5.7 of RFC 3339. */
  function DaysIn(y: int, m: int): int {
    if m == 2 then (if Leap(y) then 29 else 28)
    else if m == 4 || m == 6 || m == 9 || m == 11 then 30
    else 31
  }

  predicate Valid(t: Date) { 1 <= t.m <= 12 && 1 <= t.d <= DaysIn(t.y, t.m) }

  function Tomorrow(t: Date): Date {
    if t.d < DaysIn(t.y, t.m) then Date(t.y, t.m, t.d + 1)
    else if t.m < 12 then Date(t.y, t.m + 1, 1)
    else Date(t.y + 1, 1, 1)
  }

  /** The calendar, one day at a time. */
  function Walk(days: nat): Date {
    if days == 0 then Date(1970, 1, 1) else Tomorrow(Walk(days - 1))
  }

  // ---------------------------------------------------------------------
  // The closed form.

  function YearOfEra(doe: int): int { (doe - doe / 1460 + doe / 36524 - doe / 146096) / 365 }

  /** The first day of a year of the era; years begin in March. */
  function Start(yoe: int): int { 365 * yoe + yoe / 4 - yoe / 100 }

  /** The first day of a month of such a year. */
  function MonthStart(mp: int): int { (153 * mp + 2) / 5 }

  function FromYear(y: int, doy: int): Date {
    var mp := (5 * doy + 2) / 153;
    var m := if mp < 10 then mp + 3 else mp - 9;
    Date(if m <= 2 then y + 1 else y, m, doy - MonthStart(mp) + 1)
  }

  function FromDays(days: nat): Date {
    var z := days + 719_468;
    var era := z / 146_097;
    var doe := z - era * 146_097;
    var yoe := YearOfEra(doe);
    FromYear(yoe + era * 400, doe - Start(yoe))
  }

  // ---------------------------------------------------------------------
  // Eras, years and days.

  /** A March year is long when the February in it is. */
  function YearLength(yoe: int): int { if Leap(yoe + 1) then 366 else 365 }

  /** Day `z` is day `doy` of year `yoe` of its era. */
  predicate Parts(z: int, era: int, yoe: int, doy: int) {
    0 <= yoe < 400 && 0 <= doy < YearLength(yoe) && z == era * 146_097 + Start(yoe) + doy
  }

  /** A year of the era as century, cycle of four and year of the cycle. */
  predicate Cycle(yoe: int, c: int, q: int, k: int) {
    0 <= c <= 3 && 0 <= q <= 24 && 0 <= k <= 3 && yoe == 100 * c + 4 * q + k
  }

  lemma CycleOf(yoe: int) returns (c: int, q: int, k: int)
    requires 0 <= yoe < 400
    ensures Cycle(yoe, c, q, k)
  {
    c, q, k := yoe / 100, yoe % 100 / 4, yoe % 4;
  }

  lemma StartOf(yoe: int, c: int, q: int, k: int)
    requires Cycle(yoe, c, q, k)
    ensures Start(yoe) == 36_524 * c + 1_461 * q + 365 * k
  {
    assert yoe / 4 == 25 * c + q && yoe / 100 == c;
  }

  /** Only the fourth year of a cycle is long, and of the hundredth only the
      four hundredth. */
  lemma LongYears(yoe: int, c: int, q: int, k: int)
    requires Cycle(yoe, c, q, k)
    ensures YearLength(yoe) == if k == 3 && (q < 24 || c == 3) then 366 else 365
  {
    assert (yoe + 1) % 4 == if k == 3 then 0 else k + 1;
    if k == 3 { assert yoe + 1 == 100 * c + 4 * (q + 1); }
  }

  lemma YearsFollow(yoe: int)
    requires 0 <= yoe < 400
    ensures Start(yoe) + YearLength(yoe) == if yoe < 399 then Start(yoe + 1) else 146_097
  {
    var c, q, k := CycleOf(yoe);
    StartOf(yoe, c, q, k);
    LongYears(yoe, c, q, k);
    if k < 3 {
      StartOf(yoe + 1, c, q, k + 1);
    } else if q < 24 {
      StartOf(yoe + 1, c, q + 1, 0);
    } else if c < 3 {
      StartOf(yoe + 1, c + 1, 0, 0);
    }
  }

  /** The closed form finds the year of any day that has these parts. */
  lemma YearFound(yoe: int, doy: int)
    requires 0 <= yoe < 400 && 0 <= doy < YearLength(yoe)
    ensures var doe := Start(yoe) + doy; 0 <= doe < 146_097 && YearOfEra(doe) == yoe
  {
    var c, q, k := CycleOf(yoe);
    StartOf(yoe, c, q, k);
    LongYears(yoe, c, q, k);
    var doe := Start(yoe) + doy;
    var late := Late(c, q, k, doy, doe);
    var sum := doe - doe / 1460 + doe / 36524 - doe / 146096;
    assert sum == 365 * yoe + (doy - late);
  }

  /** What the divisions give: one too many when the day is late in its cycle. */
  lemma Late(c: int, q: int, k: int, doy: int, doe: int) returns (late: int)
    requires 0 <= c <= 3 && 0 <= q <= 24 && 0 <= k <= 3 && 0 <= doy < if k == 3 && (q < 24 || c == 3) then 366 else 365
    requires doe == 36_524 * c + 1_461 * q + 365 * k + doy
    ensures 0 <= doe < 146_097 && 0 <= doy - late < 365
    ensures doe / 1460 - doe / 36524 + doe / 146096 == 24 * c + q + late
  {
    var rest := 24 * c + q + 365 * k + doy;
    late := if rest >= 1_460 then 1 else 0;
    assert doe == 1_460 * (25 * c + q) + rest;
    assert doe / 1_460 == 25 * c + q + late;
    if doe == 146_096 {
      assert c == 3;
    } else {
      assert doe / 36_524 == c;
    }
  }

  lemma FoundFromDays(days: nat, era: int, yoe: int, doy: int)
    requires Parts(days + 719_468, era, yoe, doy)
    ensures FromDays(days) == FromYear(yoe + era * 400, doy)
  {
    YearFound(yoe, doy);
    var z, doe := days + 719_468, Start(yoe) + doy;
    assert z / 146_097 == era;
  }

  // ---------------------------------------------------------------------
  // Months.

  /** The month found is the one the day lies in. */
  lemma MonthFound(doy: int)
    requires 0 <= doy <= 365
    ensures var mp := (5 * doy + 2) / 153; 0 <= mp <= 11 && MonthStart(mp) <= doy < MonthStart(mp + 1)
  {
  }

  lemma MonthIs(doy: int, mp: int)
    requires 0 <= mp && MonthStart(mp) <= doy < MonthStart(mp + 1)
    ensures (5 * doy + 2) / 153 == mp
  {
  }

  /** Where a month begins in a year counted from March. */
  lemma MonthLength(y: int, mp: int)
    requires 0 <= mp <= 10
    ensures var m := if mp < 10 then mp + 3 else mp - 9;
            MonthStart(mp + 1) - MonthStart(mp) == DaysIn(if m <= 2 then y + 1 else y, m)
  {
  }

  lemma Remainder4(a: int, b: int)
    ensures (a + 4 * b) % 4 == a % 4
  {
    assert a + 4 * b == 4 * (a / 4 + b) + a % 4;
  }

  lemma Remainder100(a: int, b: int)
    ensures (a + 100 * b) % 100 == a % 100
  {
    assert a + 100 * b == 100 * (a / 100 + b) + a % 100;
  }

  lemma Remainder400(a: int, b: int)
    ensures (a + 400 * b) % 400 == a % 400
  {
    assert a + 400 * b == 400 * (a / 400 + b) + a % 400;
  }

  /** Leap years repeat every 400 years. */
  lemma LeapAgain(y: int, era: int)
    ensures Leap(y + 400 * era) == Leap(y)
  {
    Remainder4(y, 100 * era);
    Remainder100(y, 4 * era);
    Remainder400(y, era);
  }

  /** The next day of the year is the next day of the calendar. */
  lemma NextInYear(era: int, yoe: int, doy: int)
    requires 0 <= yoe < 400 && 0 <= doy && doy + 1 < YearLength(yoe)
    ensures FromYear(yoe + era * 400, doy + 1) == Tomorrow(FromYear(yoe + era * 400, doy))
  {
    var y, mp := yoe + era * 400, (5 * doy + 2) / 153;
    MonthFound(doy);
    MonthFound(doy + 1);
    LeapAgain(yoe + 1, era);
    if doy + 1 < MonthStart(mp + 1) {
      MonthIs(doy + 1, mp);
    } else {
      MonthIs(doy + 1, mp + 1);
    }
    if mp <= 10 { MonthLength(y, mp); }
  }

  /** After the last day of February comes the first of March. */
  lemma NextYear(era: int, yoe: int)
    requires 0 <= yoe < 400
    ensures FromYear(yoe + 1 + era * 400, 0) == Tomorrow(FromYear(yoe + era * 400, YearLength(yoe) - 1))
  {
    LeapAgain(yoe + 1, era);
    MonthIs(YearLength(yoe) - 1, 11);
    MonthIs(0, 0);
  }

  /** One day on: in the same year, in the next, or in the next era. */
  lemma NextParts(z: int, e: int, y: int, d: int) returns (era: int, yoe: int, doy: int)
    requires Parts(z, e, y, d)
    ensures Parts(z + 1, era, yoe, doy)
    ensures if d + 1 < YearLength(y) then yoe + era * 400 == y + e * 400 && doy == d + 1
            else yoe + era * 400 == y + 1 + e * 400 && doy == 0 && d == YearLength(y) - 1
  {
    YearsFollow(y);
    if d + 1 < YearLength(y) {
      era, yoe, doy := e, y, d + 1;
    } else if y < 399 {
      era, yoe, doy := e, y + 1, 0;
    } else {
      assert Start(0) == 0;
      era, yoe, doy := e + 1, 0, 0;
    }
  }

  lemma DayAfter(e: int, y: int, d: int, year: int, doy: int)
    requires 0 <= y < 400 && 0 <= d < YearLength(y)
    requires if d + 1 < YearLength(y) then year == y + e * 400 && doy == d + 1
             else year == y + 1 + e * 400 && doy == 0 && d == YearLength(y) - 1
    ensures FromYear(year, doy) == Tomorrow(FromYear(y + e * 400, d))
  {
    if d + 1 < YearLength(y) { NextInYear(e, y, d); } else { NextYear(e, y); }
  }

  lemma {:induction false} WalkHasParts(days: nat) returns (era: int, yoe: int, doy: int)
    ensures Parts(days + 719_468, era, yoe, doy) && Walk(days) == FromYear(yoe + era * 400, doy)
  {
    if days == 0 {
      era, yoe, doy := 4, 369, 306;
    } else {
      var e, y, d := WalkHasParts(days - 1);
      era, yoe, doy := NextParts(days - 1 + 719_468, e, y, d);
      DayAfter(e, y, d, yoe + era * 400, doy);
    }
  }

  lemma {:induction false} WalkValid(days: nat)
    ensures Valid(Walk(days))
  {
    if days > 0 { WalkValid(days - 1); }
  }

  /** For every day from 1970 on the closed form is the calendar's date, and a
      date there is. */
  lemma FromDaysIsTheCalendar(days: nat)
    ensures FromDays(days) == Walk(days) && Valid(FromDays(days))
  {
    var era, yoe, doy := WalkHasParts(days);
    FoundFromDays(days, era, yoe, doy);
    WalkValid(days);
  }
}
