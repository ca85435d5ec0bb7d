/** Days since 1970-01-01 and calendar dates, each way (`civil_from_days`, `days_from_civil`). */
module Civil {
  import opened Prelude

  /** Division that truncates toward zero. */
  function TruncDiv(a: int, b: int): int
    requires b > 0
  {
    if a >= 0 then a / b else -((-a) / b)
  }

  datatype Date = Date(y: int, m: int, d: int)

  function DaysFromCivil(date: Date): int {
    var y := if date.m <= 2 then date.y - 1 else date.y;
    var era := TruncDiv(if y >= 0 then y else y - 399, 400);
    var yoe := y - era * 400;
    var mp := if date.m > 2 then date.m - 3 else date.m + 9;
    var doy := TruncDiv(153 * mp + 2, 5) + date.d - 1;
    var doe := yoe * 365 + TruncDiv(yoe, 4) - TruncDiv(yoe, 100) + doy;
    era * 146_097 + doe - 719_468
  }

  function CivilFromDays(z0: int): Date {
    var z := z0 + 719_468;
    var era := TruncDiv(if z >= 0 then z else z - 146_096, 146_097);
    var doe := z - era * 146_097;
    var yoe := TruncDiv(doe - TruncDiv(doe, 1460) + TruncDiv(doe, 36_524) - TruncDiv(doe, 146_096), 365);
    var y := yoe + era * 400;
    var doy := doe - (365 * yoe + TruncDiv(yoe, 4) - TruncDiv(yoe, 100));
    var mp := TruncDiv(5 * doy + 2, 153);
    var d := doy - TruncDiv(153 * mp + 2, 5) + 1;
    var m := if mp < 10 then mp + 3 else mp - 9;
    Date(if m <= 2 then y + 1 else y, m, d)
  }

  // ---------------------------------------------------------------------------------------
  // The calendar
  // ---------------------------------------------------------------------------------------

  predicate Leap(y: int) {
    y % 4 == 0 && (y % 100 != 0 || y % 400 == 0)
  }

  function MonthLength(y: int, m: int): int {
    if m == 2 then (if Leap(y) then 29 else 28)
    else if m == 4 || m == 6 || m == 9 || m == 11 then 30
    else 31
  }

  predicate ValidDate(date: Date) {
    1 <= date.m <= 12 && 1 <= date.d <= MonthLength(date.y, date.m)
  }

  /** The next day on the calendar. */
  function Tomorrow(date: Date): Date {
    if date.d < MonthLength(date.y, date.m) then Date(date.y, date.m, date.d + 1)
    else if date.m < 12 then Date(date.y, date.m + 1, 1)
    else Date(date.y + 1, 1, 1)
  }

  predicate Before(a: Date, b: Date) {
    a.y < b.y || (a.y == b.y && (a.m < b.m || (a.m == b.m && a.d < b.d)))
  }

  // ---------------------------------------------------------------------------------------
  // Years that start in March
  // ---------------------------------------------------------------------------------------

  /** Days before year `yoe` of an era, the leap day last. */
  function YearStart(yoe: int): int {
    365 * yoe + yoe / 4 - yoe / 100 + yoe / 400
  }

  /** Days before month `mp` (March is 0), as a table. */
  function MonthStart(mp: int): int {
    if mp <= 0 then 0 else if mp == 1 then 31 else if mp == 2 then 61 else if mp == 3 then 92
    else if mp == 4 then 122 else if mp == 5 then 153 else if mp == 6 then 184 else if mp == 7 then 214
    else if mp == 8 then 245 else if mp == 9 then 275 else if mp == 10 then 306 else if mp == 11 then 337
    else 367
  }

  lemma TableIsFormula(mp: int)
    requires 0 <= mp <= 12
    ensures MonthStart(mp) == (153 * mp + 2) / 5
  {
  }

  lemma EraOf(a: int, width: int)
    requires width > 0
    ensures TruncDiv(if a >= 0 then a else a - (width - 1), width) == a / width
  {
    if a < 0 {
      var q := a / width;
      var r := a % width;
      assert a == width * q + r;
      assert -(a - (width - 1)) == width * (-q) + (width - 1 - r);
      DivUnique(-(a - (width - 1)), width, -q, width - 1 - r);
    }
  }

  lemma DivUnique(a: int, width: int, q: int, r: int)
    requires width > 0 && a == width * q + r && 0 <= r < width
    ensures a / width == q
  {
    var e := a / width - q;
    assert width * e == r - a % width;
    assert e >= 1 ==> width * e >= width;
    assert e <= -1 ==> width * e <= -width;
  }

  predicate InCycles(doe: int, c: int, q: int, s: int, r: int) {
    && doe == 36_524 * c + 1461 * q + 365 * s + r
    && 0 <= c <= 3 && 0 <= q <= 24 && 0 <= s <= 3 && 0 <= r <= 365
    && (r == 365 ==> s == 3 && (q < 24 || c == 3))
  }

  /** Day `doe` of an era: century, four-year cycle, year of it and day of that year. */
  lemma Cycles(doe: int) returns (c: int, q: int, s: int, r: int)
    requires 0 <= doe < 146_097
    ensures InCycles(doe, c, q, s, r)
  {
    c := if doe / 36_524 < 3 then doe / 36_524 else 3;
    var rem := doe - 36_524 * c;
    q := rem / 1461;
    var rem' := rem - 1461 * q;
    s := if rem' / 365 < 3 then rem' / 365 else 3;
    r := rem' - 365 * s;
  }

  lemma YearStartOf(c: int, q: int, s: int)
    requires 0 <= c <= 3 && 0 <= q <= 24 && 0 <= s <= 3
    ensures YearStart(100 * c + 4 * q + s) == 36_524 * c + 1461 * q + 365 * s
  {
    var y := 100 * c + 4 * q + s;
    DivUnique(y, 4, 25 * c + q, s);
    DivUnique(y, 100, c, 4 * q + s);
  }

  /** A year's length, from its place in the cycles. */
  lemma YearLengthOf(c: int, q: int, s: int)
    requires 0 <= c <= 3 && 0 <= q <= 24 && 0 <= s <= 3
    ensures var y := 100 * c + 4 * q + s;
            YearStart(y + 1) - YearStart(y) == if s == 3 && (q < 24 || c == 3) then 366 else 365
  {
    YearStartOf(c, q, s);
    if s < 3 {
      YearStartOf(c, q, s + 1);
    } else if q < 24 {
      YearStartOf(c, q + 1, 0);
    } else if c < 3 {
      YearStartOf(c + 1, 0, 0);
    }
  }

  lemma By1460(doe: int, c: int, q: int, s: int, r: int)
    requires InCycles(doe, c, q, s, r)
    ensures doe / 1460 == 25 * c + q + if 24 * c + q + 365 * s + r >= 1460 then 1 else 0
  {
    var t := 24 * c + q + 365 * s + r;
    var k := if t >= 1460 then 1 else 0;
    DivUnique(doe, 1460, 25 * c + q + k, t - 1460 * k);
  }

  /** The two corrections for the era's last day cancel out. */
  lemma ByCentury(doe: int, c: int, q: int, s: int, r: int)
    requires 0 <= doe < 146_097 && InCycles(doe, c, q, s, r)
    ensures doe / 36_524 - doe / 146_096 == c
  {
    if doe == 146_096 {
      assert c == 3;
    } else {
      DivUnique(doe, 36_524, c, doe - 36_524 * c);
      DivUnique(doe, 146_096, 0, doe);
    }
  }

  /** The year of an era that day `doe` falls in. */
  lemma YearOfEra(doe: int)
    requires 0 <= doe < 146_097
    ensures var yoe := (doe - doe / 1460 + doe / 36_524 - doe / 146_096) / 365;
            0 <= yoe < 400 && YearStart(yoe) <= doe < YearStart(yoe + 1)
  {
    var c, q, s, r := Cycles(doe);
    By1460(doe, c, q, s, r);
    ByCentury(doe, c, q, s, r);
    var k := doe / 1460 - 25 * c - q;
    var sum := doe - doe / 1460 + doe / 36_524 - doe / 146_096;
    assert sum == 365 * (100 * c + 4 * q + s) + (r - k);
    DivUnique(sum, 365, 100 * c + 4 * q + s, r - k);
    YearStartOf(c, q, s);
    YearLengthOf(c, q, s);
  }

  // ---------------------------------------------------------------------------------------
  // The two functions, without eras
  // ---------------------------------------------------------------------------------------

  lemma YearStartShift(yoe: int, era: int)
    ensures YearStart(yoe + 400 * era) == YearStart(yoe) + 146_097 * era
  {
    DivUnique(yoe + 400 * era, 4, yoe / 4 + 100 * era, yoe % 4);
    DivUnique(yoe + 400 * era, 100, yoe / 100 + 4 * era, yoe % 100);
    DivUnique(yoe + 400 * era, 400, yoe / 400 + era, yoe % 400);
  }

  lemma DivStep(a: int, width: int)
    requires width > 1
    ensures (a + 1) / width - a / width == if (a + 1) % width == 0 then 1 else 0
  {
    if a % width == width - 1 {
      DivUnique(a + 1, width, a / width + 1, 0);
    } else {
      DivUnique(a + 1, width, a / width, a % width + 1);
    }
  }

  /** A year from March holds the leap day at its end. */
  lemma YearLength(y: int)
    ensures YearStart(y + 1) - YearStart(y) == if Leap(y + 1) then 366 else 365
  {
    DivStep(y, 4);
    DivStep(y, 100);
    DivStep(y, 400);
  }

  function MarchYear(date: Date): int {
    if date.m <= 2 then date.y - 1 else date.y
  }

  function MarchMonth(m: int): int {
    if m > 2 then m - 3 else m + 9
  }

  lemma DaysAre(date: Date)
    requires 1 <= date.m <= 12
    ensures DaysFromCivil(date)
            == YearStart(MarchYear(date)) + MonthStart(MarchMonth(date.m)) + date.d - 1 - 719_468
  {
    var y := MarchYear(date);
    TableIsFormula(MarchMonth(date.m));
    EraOf(y, 400);
    var era := y / 400;
    var yoe := y - era * 400;
    assert yoe == y % 400;
    YearStartShift(yoe, era);
  }

  lemma MonthOf(doy: int)
    requires 0 <= doy <= 365
    ensures var mp := (5 * doy + 2) / 153;
            0 <= mp <= 11 && MonthStart(mp) <= doy < MonthStart(mp + 1) && MonthStart(mp) == (153 * mp + 2) / 5
  {
    var mp := (5 * doy + 2) / 153;
    TableIsFormula(mp);
    TableIsFormula(mp + 1);
  }

  /** The March year that day `z` (from 0000-03-01) falls in. */
  function YearIn(z: int): int {
    var doe := z % 146_097;
    (doe - doe / 1460 + doe / 36_524 - doe / 146_096) / 365 + z / 146_097 * 400
  }

  lemma YearInIs(z: int)
    ensures YearStart(YearIn(z)) <= z < YearStart(YearIn(z) + 1)
  {
    var doe, era := z % 146_097, z / 146_097;
    YearOfEra(doe);
    var yoe := (doe - doe / 1460 + doe / 36_524 - doe / 146_096) / 365;
    YearStartShift(yoe, era);
    YearStartShift(yoe + 1, era);
  }

  function DateIn(y: int, mp: int, d: int): Date {
    Date(if mp < 10 then y else y + 1, if mp < 10 then mp + 3 else mp - 9, d)
  }

  lemma CivilIs(z0: int)
    ensures var z := z0 + 719_468;
            var doy := z - YearStart(YearIn(z));
            var mp := (5 * doy + 2) / 153;
            CivilFromDays(z0) == DateIn(YearIn(z), mp, doy - (153 * mp + 2) / 5 + 1)
  {
    hide CivilFromDays, YearStart, YearIn;
    var z := z0 + 719_468;
    var doe, yoe := DayOfMarchYear(z);
    DayInYear(z);
    CivilUnfold(z0, doe, yoe, z - YearStart(YearIn(z)));
  }

  lemma DayOfMarchYear(z: int) returns (doe: int, yoe: int)
    ensures doe == z % 146_097
    ensures yoe == (doe - doe / 1460 + doe / 36_524 - doe / 146_096) / 365 && 0 <= yoe
    ensures YearIn(z) == yoe + z / 146_097 * 400
    ensures z - YearStart(YearIn(z)) == doe - (365 * yoe + yoe / 4 - yoe / 100)
  {
    doe := z % 146_097;
    yoe := (doe - doe / 1460 + doe / 36_524 - doe / 146_096) / 365;
    YearOfEra(doe);
    YearStartShift(yoe, z / 146_097);
  }

  lemma CivilUnfold(z0: int, doe: int, yoe: int, doy: int)
    requires doe == (z0 + 719_468) % 146_097
    requires yoe == (doe - doe / 1460 + doe / 36_524 - doe / 146_096) / 365 && 0 <= yoe
    requires doy == doe - (365 * yoe + yoe / 4 - yoe / 100) && 0 <= doy <= 365
    ensures var mp := (5 * doy + 2) / 153;
            CivilFromDays(z0)
            == DateIn(yoe + (z0 + 719_468) / 146_097 * 400, mp, doy - (153 * mp + 2) / 5 + 1)
  {
    hide TruncDiv, DateIn;
    EraOf(z0 + 719_468, 146_097);
    var mp := (5 * doy + 2) / 153;
    var days := doe - doe / 1460 + doe / 36_524 - doe / 146_096;
    Whole(days);
    Forward(doe, 1460);
    Forward(doe, 36_524);
    Forward(doe, 146_096);
    Forward(days, 365);
    Forward(yoe, 4);
    Forward(yoe, 100);
    Forward(5 * doy + 2, 153);
    Forward(153 * mp + 2, 5);
    MonthSplits(yoe + (z0 + 719_468) / 146_097 * 400, mp, doy - (153 * mp + 2) / 5 + 1);
  }

  lemma Whole(days: int)
    requires days / 365 >= 0
    ensures days >= 0
  {
  }

  lemma Forward(a: int, b: int)
    requires a >= 0 && b > 0
    ensures TruncDiv(a, b) == a / b
  {
  }

  lemma MonthSplits(y: int, mp: int, d: int)
    requires 0 <= mp
    ensures var m := if mp < 10 then mp + 3 else mp - 9;
      mp <= 11 ==> Date(if m <= 2 then y + 1 else y, m, d) == DateIn(y, mp, d)
  {
  }

  lemma DayInYear(z: int)
    ensures 0 <= z - YearStart(YearIn(z)) <= 365
    ensures z - YearStart(YearIn(z)) == 365 ==> Leap(YearIn(z) + 1)
  {
    YearInIs(z);
    YearLength(YearIn(z));
  }

  /** The date a day number gives, and the March year, month and day it comes from. */
  lemma DateIs(z0: int) returns (y: int, mp: int, d: int)
    ensures CivilFromDays(z0) == DateIn(y, mp, d)
    ensures 0 <= mp <= 11 && 1 <= d <= MonthStart(mp + 1) - MonthStart(mp)
    ensures z0 == YearStart(y) + MonthStart(mp) + d - 1 - 719_468
    ensures mp == 11 && d > 28 ==> d == 29 && Leap(y + 1)
  {
    hide CivilFromDays, YearStart, YearIn, Leap, DateIn, MonthStart;
    var z := z0 + 719_468;
    CivilIs(z0);
    DayInYear(z);
    y := YearIn(z);
    var doy := z - YearStart(y);
    MonthOf(doy);
    mp := (5 * doy + 2) / 153;
    TableIsFormula(mp);
    d := doy - MonthStart(mp) + 1;
    MarchEnds();
  }

  /** February comes last, with room for the leap day. */
  lemma MarchEnds()
    ensures MonthStart(11) == 337 && MonthStart(12) == 367
  {
  }

  // ---------------------------------------------------------------------------------------
  // Main results
  // ---------------------------------------------------------------------------------------

  /** Every day number gives a date of the calendar, and `days_from_civil` takes it back. */
  lemma DayRoundTrip(z: int)
    ensures ValidDate(CivilFromDays(z))
    ensures DaysFromCivil(CivilFromDays(z)) == z
  {
    hide DaysFromCivil, CivilFromDays, YearStart;
    var y, mp, d := DateIs(z);
    DaysAre(DateIn(y, mp, d));
  }

  lemma EpochIsZero()
    ensures DaysFromCivil(Date(1970, 1, 1)) == 0
  {
  }

  /** The day after a date has the next number: both functions count the calendar's days. */
  lemma TomorrowIsNext(date: Date)
    requires ValidDate(date)
    ensures ValidDate(Tomorrow(date)) && DaysFromCivil(Tomorrow(date)) == DaysFromCivil(date) + 1
    ensures DaysFromCivil(Date(1970, 1, 1)) == 0
  {
    hide DaysFromCivil, YearStart;
    DaysAre(date);
    DaysAre(Tomorrow(date));
    YearLength(MarchYear(date));
    EpochIsZero();
  }

  lemma {:induction false} YearsGrow(y: int, k: nat)
    ensures YearStart(y + k) >= YearStart(y) + 365 * k
    decreases k
  {
    if k > 0 {
      YearsGrow(y, k - 1);
      YearLength(y + k - 1);
    }
  }

  lemma InsideYear(date: Date)
    requires ValidDate(date)
    ensures YearStart(MarchYear(date)) <= DaysFromCivil(date) + 719_468 < YearStart(MarchYear(date) + 1)
  {
    hide DaysFromCivil, YearStart;
    DaysAre(date);
    YearLength(MarchYear(date));
  }

  /** Day order is calendar order. */
  lemma DaysKeepOrder(a: Date, b: Date)
    requires ValidDate(a) && ValidDate(b)
    ensures Before(a, b) <==> DaysFromCivil(a) < DaysFromCivil(b)
  {
    if a != b {
      if Before(a, b) {
        LaterIsMore(a, b);
      } else {
        LaterIsMore(b, a);
      }
    }
  }

  lemma LaterIsMore(a: Date, b: Date)
    requires ValidDate(a) && ValidDate(b) && Before(a, b)
    ensures DaysFromCivil(a) < DaysFromCivil(b)
  {
    hide DaysFromCivil, YearStart;
    var p, q := MarchYear(a), MarchYear(b);
    if p < q {
      YearsGrow(p + 1, q - p - 1);
      InsideYear(a);
      InsideYear(b);
    } else {
      DaysAre(a);
      DaysAre(b);
    }
  }

  /** A date of the calendar survives the trip through its day number. */
  lemma DateRoundTrip(date: Date)
    requires ValidDate(date)
    ensures CivilFromDays(DaysFromCivil(date)) == date
  {
    var back := CivilFromDays(DaysFromCivil(date));
    DayRoundTrip(DaysFromCivil(date));
    DaysKeepOrder(back, date);
    DaysKeepOrder(date, back);
  }
}
