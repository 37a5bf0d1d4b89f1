/** Proleptic Gregorian day numbers (zte-agent/src/calendar.rs), over all integers. */
module Calendar {

  datatype Date = Date(y: int, m: int, d: int)

  // ---------------------------------------------------------------- the calendar itself

  predicate Leap(y: int) {
    y % 4 == 0 && (y % 100 != 0 || y % 400 == 0)
  }

  function MonthLength(y: int, m: int): (r: int) {
    if m == 2 then (if Leap(y) then 29 else 28)
    else if m == 4 || m == 6 || m == 9 || m == 11 then 30
    else 31
  }

  predicate Valid(t: Date) {
    1 <= t.m <= 12 && 1 <= t.d <= MonthLength(t.y, t.m)
  }

  /** The day after `t` in the Gregorian calendar. */
  function NextDay(t: Date): Date {
    if t.d < MonthLength(t.y, t.m) then t.(d := t.d + 1)
    else if t.m < 12 then Date(t.y, t.m + 1, 1)
    else Date(t.y + 1, 1, 1)
  }

  // ---------------------------------------------------------------- the program's formulas

  /** Rust's `/` on i64 truncates toward zero. */
  function TruncDiv(a: int, b: int): int
    requires b > 0
  {
    if a >= 0 then a / b else -((-a) / b)
  }

  /** Rust's `%` on i64 takes the sign of the dividend. */
  function TruncRem(a: int, b: int): int
    requires b > 0
  {
    a - TruncDiv(a, b) * b
  }

  function DaysFromCivil(y: int, m: int, d: int): int {
    var y := if m <= 2 then y - 1 else y;
    var era := y / 400;
    var yoe := y - era * 400;
    var doy := TruncDiv(153 * TruncRem(m + 9, 12) + 2, 5) + d - 1;
    era * 146_097 + yoe * 365 + TruncDiv(yoe, 4) - TruncDiv(yoe, 100) + doy - 719_468
  }

  function Civil(days: int): Date {
    var z := days + 719_468;
    var era := z / 146_097;
    var doe := z - era * 146_097;
    var yoe := TruncDiv(doe - TruncDiv(doe, 1460) + TruncDiv(doe, 36_524) - TruncDiv(doe, 146_096), 365);
    var doy := doe - (365 * yoe + TruncDiv(yoe, 4) - TruncDiv(yoe, 100));
    var mp := TruncDiv(5 * doy + 2, 153);
    var d := doy - TruncDiv(153 * mp + 2, 5) + 1;
    var m := if mp < 10 then mp + 3 else mp - 9;
    Date(yoe + era * 400 + (if m <= 2 then 1 else 0), m, d)
  }

  // ---------------------------------------------------------------- years within an era
  // An era is 400 years counted from 1 March, so year `yoe` starts on day `YearStart(yoe)` of it.

  function YearStart(yoe: int): int {
    365 * yoe + yoe / 4 - yoe / 100
  }

  function YearOf(doe: int): int {
    (doe - doe / 1460 + doe / 36_524 - doe / 146_096) / 365
  }

  /** Leap years repeat with the era. */
  lemma LeapInEra(era: int, n: int)
    ensures Leap(era * 400 + n) == Leap(n)
  {
    assert (era * 400 + n) / 4 == 100 * era + n / 4;
    assert (era * 400 + n) / 100 == 4 * era + n / 100;
    assert (era * 400 + n) / 400 == era + n / 400;
  }

  /** A March-based year is long exactly when the February that ends it is. */
  lemma YearLength(era: int, yoe: int)
    requires 0 <= yoe < 400
    ensures DaysInYear(yoe) == (if Leap(era * 400 + yoe + 1) then 366 else 365)
  {
    LeapInEra(era, yoe + 1);
    if yoe < 399 {
      Quotients(yoe, 4);
      Quotients(yoe, 100);
    }
  }

  lemma Quotients(n: int, k: int)
    requires k == 4 || k == 100
    ensures (n + 1) / k == n / k + (if (n + 1) % k == 0 then 1 else 0)
  {
    if k == 4 {
      assert (n + 1) / 4 == n / 4 + (if (n + 1) % 4 == 0 then 1 else 0);
    } else {
      assert (n + 1) / 100 == n / 100 + (if (n + 1) % 100 == 0 then 1 else 0);
    }
  }

  function DaysInYear(yoe: int): int {
    (if yoe == 399 then 146_097 else YearStart(yoe + 1)) - YearStart(yoe)
  }

  /** The year formula on day `doy` of year `r` of four-year cycle `q` of century `c`. */
  lemma YearOfParts(c: int, q: int, r: int, doy: int)
    requires 0 <= c < 4 && 0 <= q < 25 && 0 <= r < 4 && 0 <= doy <= 365
    requires doy == 365 ==> r == 3 && (q < 24 || c == 3)
    ensures YearOf(36_524 * c + 1461 * q + 365 * r + doy) == 100 * c + 4 * q + r
  {
    var doe := 36_524 * c + 1461 * q + 365 * r + doy;
    assert doe / 36_524 - doe / 146_096 == c;
    var e := if 24 * c + q + 365 * r + doy >= 1460 then 1 else 0;
    assert doe / 1460 == 25 * c + q + e;
  }

  /** The program's year-of-era formula inverts `YearStart`. */
  lemma YearOfDay(yoe: int, doy: int)
    requires 0 <= yoe < 400 && 0 <= doy < DaysInYear(yoe)
    ensures 0 <= YearStart(yoe) + doy < 146_097
    ensures YearOf(YearStart(yoe) + doy) == yoe
  {
    var c, q, r := yoe / 100, yoe % 100 / 4, yoe % 4;
    assert yoe == 100 * c + 4 * q + r && yoe / 4 == 25 * c + q;
    if yoe < 399 {
      assert (yoe + 1) / 4 == 25 * c + q + (if r == 3 then 1 else 0);
      assert (yoe + 1) / 100 == c + (if r == 3 && q == 24 then 1 else 0);
    }
    YearOfParts(c, q, r, doy);
  }

  /** Every day of an era lies in exactly the year the formula names. */
  lemma DayInYear(doe: int) returns (yoe: int, doy: int)
    requires 0 <= doe < 146_097
    ensures 0 <= yoe < 400 && 0 <= doy < DaysInYear(yoe)
    ensures doe == YearStart(yoe) + doy && YearOf(doe) == yoe
  {
    var c := if doe / 36_524 > 3 then 3 else doe / 36_524;
    var inCentury := doe - 36_524 * c;
    var q := inCentury / 1461;
    var inCycle := inCentury - 1461 * q;
    var r := if inCycle / 365 > 3 then 3 else inCycle / 365;
    doy := inCycle - 365 * r;
    yoe := 100 * c + 4 * q + r;
    assert yoe / 4 == 25 * c + q && yoe / 100 == c;
    if yoe < 399 {
      assert (yoe + 1) / 4 == 25 * c + q + (if r == 3 then 1 else 0);
      assert (yoe + 1) / 100 == c + (if r == 3 && q == 24 then 1 else 0);
    }
    YearOfParts(c, q, r, doy);
  }

  // ---------------------------------------------------------------- months, counted from March

  function MonthStart(mp: int): int {
    (153 * mp + 2) / 5
  }

  function MarchMonth(m: int): int {
    if m <= 2 then m + 9 else m - 3
  }

  /** The month formula lays the months out with their Gregorian lengths, February last. */
  lemma MonthLayout(y: int, m: int)
    requires 1 <= m <= 12
    ensures var mp := MarchMonth(m);
            && 0 <= mp < 12
            && (m != 2 ==> MonthStart(mp + 1) == MonthStart(mp) + MonthLength(y, m))
            && (m == 2 ==> MonthStart(mp) + MonthLength(y, m) == (if Leap(y) then 366 else 365))
  {}

  /** Each day of a March-based year is in the month, and on the day, the program computes. */
  lemma MonthOfDay(mp: int, d: int)
    requires 0 <= mp < 12
    requires 1 <= d && MonthStart(mp) + d - 1 < (if mp == 11 then 366 else MonthStart(mp + 1))
    ensures (5 * (MonthStart(mp) + d - 1) + 2) / 153 == mp
  {}

  // ---------------------------------------------------------------- main results

  /** The first day, counted from the start of era 0, of the year that starts in March of `y`. */
  function YearBase(y: int): int {
    y / 400 * 146_097 + YearStart(y % 400)
  }

  lemma YearBases(y: int)
    ensures YearBase(y + 1) == YearBase(y) + (if Leap(y + 1) then 366 else 365)
  {
    var era, yoe := y / 400, y % 400;
    YearLength(era, yoe);
    if yoe == 399 {
      assert (y + 1) / 400 == era + 1;
    } else {
      assert (y + 1) / 400 == era;
    }
  }

  /** The program's day number, by March-based year and month. */
  lemma DaysOfParts(t: Date)
    requires Valid(t)
    ensures DaysFromCivil(t.y, t.m, t.d)
         == YearBase(if t.m <= 2 then t.y - 1 else t.y) + MonthStart(MarchMonth(t.m)) + t.d - 1 - 719_468
  {
    assert TruncRem(t.m + 9, 12) == MarchMonth(t.m);
  }

  /** The program's date, with its truncating divisions resolved. */
  lemma CivilOfDay(days: int, era: int, yoe: int, doy: int)
    requires 0 <= yoe < 400 && 0 <= doy < DaysInYear(yoe)
    requires days == era * 146_097 + YearStart(yoe) + doy - 719_468
    ensures var mp := (5 * doy + 2) / 153;
            var m := if mp < 10 then mp + 3 else mp - 9;
            Civil(days) == Date(yoe + era * 400 + (if m <= 2 then 1 else 0), m, doy - MonthStart(mp) + 1)
  {
    YearOfDay(yoe, doy);
    EraOfDay(days + 719_468, era, YearStart(yoe) + doy);
    assert days + 719_468 - era * 146_097 == YearStart(yoe) + doy;
  }

  lemma EraOfDay(z: int, era: int, doe: int)
    requires 0 <= doe < 146_097 && z == era * 146_097 + doe
    ensures z / 146_097 == era
    ensures TruncDiv(doe - TruncDiv(doe, 1460) + TruncDiv(doe, 36_524) - TruncDiv(doe, 146_096), 365) == YearOf(doe)
  {
    assert doe - doe / 1460 + doe / 36_524 - doe / 146_096 >= 0;
  }

  /** Every valid date of every year survives the trip through its day number. */
  lemma DateRoundTrip(t: Date)
    requires Valid(t)
    ensures Civil(DaysFromCivil(t.y, t.m, t.d)) == t
  {
    var y := if t.m <= 2 then t.y - 1 else t.y;
    var mp := MarchMonth(t.m);
    var doy := MonthStart(mp) + t.d - 1;
    DayBounds(t, y);
    MonthOfDay(mp, t.d);
    DaysOfParts(t);
    CivilOfDay(DaysFromCivil(t.y, t.m, t.d), y / 400, y % 400, doy);
  }

  /** A valid date lies within its March-based year and month. */
  lemma DayBounds(t: Date, y: int)
    requires Valid(t) && y == (if t.m <= 2 then t.y - 1 else t.y)
    ensures var mp := MarchMonth(t.m);
            && 0 <= mp < 12
            && 0 <= MonthStart(mp) + t.d - 1 < (if mp == 11 then DaysInYear(y % 400) else MonthStart(mp + 1))
            && MonthStart(mp) + t.d - 1 < DaysInYear(y % 400) <= 366
  {
    MonthLayout(t.y, t.m);
    YearLength(y / 400, y % 400);
  }

  /** Every day number has a valid date, and that date has that day number. */
  lemma DayRoundTrip(days: int)
    ensures Valid(Civil(days))
    ensures var t := Civil(days); DaysFromCivil(t.y, t.m, t.d) == days
  {
    var z := days + 719_468;
    var era := z / 146_097;
    var yoe, doy := DayInYear(z - era * 146_097);
    CivilOfDay(days, era, yoe, doy);
    DayInMonth(doy);
    var mp := (5 * doy + 2) / 153;
    var m := if mp < 10 then mp + 3 else mp - 9;
    var t := Date(yoe + era * 400 + (if m <= 2 then 1 else 0), m, doy - MonthStart(mp) + 1);
    ValidParts(era, yoe, doy, t);
    DaysOfParts(t);
  }

  lemma ValidParts(era: int, yoe: int, doy: int, t: Date)
    requires 0 <= yoe < 400 && 0 <= doy < DaysInYear(yoe)
    requires var mp := (5 * doy + 2) / 153;
             var m := if mp < 10 then mp + 3 else mp - 9;
             t == Date(yoe + era * 400 + (if m <= 2 then 1 else 0), m, doy - MonthStart(mp) + 1)
    ensures Valid(t)
    ensures YearBase(if t.m <= 2 then t.y - 1 else t.y) == era * 146_097 + YearStart(yoe)
  {
    YearLength(era, yoe);
    DayInMonth(doy);
    MonthLayout(t.y, t.m);
    assert (era * 400 + yoe) / 400 == era;
  }

  lemma DayInMonth(doy: int)
    requires 0 <= doy < 366
    ensures var mp := (5 * doy + 2) / 153;
            0 <= mp < 12 && MonthStart(mp) <= doy && (mp < 11 ==> doy < MonthStart(mp + 1))
  {}

  lemma NextDayNumber(t: Date, u: Date)
    requires Valid(t) && u == NextDay(t)
    ensures Valid(u) && DaysFromCivil(u.y, u.m, u.d) == DaysFromCivil(t.y, t.m, t.d) + 1
  {
    DaysOfParts(t);
    DaysOfParts(u);
    if u.d == 1 {
      NextMonthStart(t, u);
    }
  }

  lemma NextMonthStart(t: Date, u: Date)
    requires Valid(t) && u == NextDay(t) && u.d == 1
    ensures YearBase(if u.m <= 2 then u.y - 1 else u.y) + MonthStart(MarchMonth(u.m))
         == YearBase(if t.m <= 2 then t.y - 1 else t.y) + MonthStart(MarchMonth(t.m)) + MonthLength(t.y, t.m)
  {
    MonthLayout(t.y, t.m);
    if t.m == 2 {
      YearBases(t.y - 1);
    }
  }

  /** Successive day numbers are successive dates under the 4/100/400 leap rule. */
  lemma SuccessiveDays(days: int)
    ensures Civil(days + 1) == NextDay(Civil(days))
  {
    DayRoundTrip(days);
    var t := Civil(days);
    var u := NextDay(t);
    NextDayNumber(t, u);
    DateRoundTrip(u);
  }

  /** Day 0 is 1 January 1970, which with `SuccessiveDays` fixes every other day. */
  lemma Epoch()
    ensures Civil(0) == Date(1970, 1, 1)
  {
    assert DaysFromCivil(1970, 1, 1) == 0;
    DateRoundTrip(Date(1970, 1, 1));
  }
}
