/** Proleptic Gregorian calendar of date.h: serial day numbers, their inverse, and the
    day-by-day calendar both are checked against.  Fixed-width wrap-around is written out. */
module Calendar {

  type Short = x: int | -0x8000 <= x < 0x8000
  type UChar = x: nat | x < 0x100

  /** An unsigned 32-bit value. */
  function U32(x: int): nat { x % 0x1_0000_0000 }

  /** Reinterpretation of 32 unsigned bits as a signed int. */
  function I32(u: int): int { if u % 0x1_0000_0000 < 0x8000_0000 then u % 0x1_0000_0000 else u % 0x1_0000_0000 - 0x1_0000_0000 }

  /** The narrowing of an int to the 16 bits a year is stored in. */
  function ToShort(x: int): Short { (x + 0x8000) % 0x1_0000 - 0x8000 }

  /** Division that truncates toward zero. */
  function TruncDiv(a: int, b: int): int
    requires b > 0
  {
    if a >= 0 then a / b else -((-a) / b)
  }

  datatype Date = Date(year: Short, month: UChar, day: UChar)

  predicate IsLeap(y: int) { y % 4 == 0 && (y % 100 != 0 || y % 400 == 0) }

  function LastDay(y: int, m: nat): nat
    requires 1 <= m <= 12
  {
    if m != 2 || !IsLeap(y) then [31, 28, 31, 30, 31, 30, 31, 31, 30, 31, 30, 31][m - 1] else 29
  }

  predicate Ok(d: Date) {
    d.year != -0x8000 && 1 <= d.month <= 12 && 1 <= d.day <= LastDay(d.year, d.month)
  }

  predicate Before(a: Date, b: Date) {
    a.year < b.year || (a.year == b.year && (a.month < b.month || (a.month == b.month && a.day < b.day)))
  }

  function ToDays(dt: Date): int {
    var y := dt.year - (if dt.month <= 2 then 1 else 0);
    var era := TruncDiv(if y >= 0 then y else y - 399, 400);
    var yoe := U32(y - era * 400);
    var mp := if dt.month > 2 then dt.month - 3 else dt.month + 9;
    var doy := U32(MonthStart(mp) + dt.day - 1);
    var doe := U32(EraDays(yoe) + doy);
    era * 146097 + I32(doe) - 719468
  }

  /** Days of the era before year yoe of the era. */
  function EraDays(yoe: nat): int { yoe * 365 + yoe / 4 - yoe / 100 }

  /** Days of a March year before its month mp. */
  function MonthStart(mp: nat): nat { (153 * mp + 2) / 5 }

  function YearOf(doe: nat): int { (doe - doe / 1460 + doe / 36524 - doe / 146096) / 365 }

  function MonthOf(doy: nat): nat { (5 * doy + 2) / 153 }

  /** The year, month and day fields, from the day of the era. */
  function Fields(era: int, doe: nat): Date {
    var yoe := U32(YearOf(doe));
    var doy := U32(doe - EraDays(yoe));
    var mp := MonthOf(doy);
    var d := U32(doy - MonthStart(mp) + 1);
    var m := if mp < 10 then mp + 3 else U32(mp - 9);
    Date(ToShort(yoe + era * 400 + (if m <= 2 then 1 else 0)), m % 0x100, d % 0x100)
  }

  function FromDays(n: int): Date {
    var z := n + 719468;
    var era := TruncDiv(if z >= 0 then z else z - 146096, 146097);
    Fields(era, U32(z - era * 146097))
  }

  const FirstDate := Date(-32767, 1, 1)
  const FinalDate := Date(32767, 12, 31)
  const Epoch := Date(1970, 1, 1)

  /** The day after d, by the month-length table alone. */
  function Next(d: Date): Date
    requires Ok(d) && d != FinalDate
  {
    if d.day < LastDay(d.year, d.month) then Date(d.year, d.month, d.day + 1)
    else if d.month < 12 then Date(d.year, d.month + 1, 1)
    else Date(d.year + 1, 1, 1)
  }

  // ---- Years that start in March ----------------------------------------------------------

  function YearStart(y: int): int { 365 * y + y / 4 - y / 100 + y / 400 }

  /** Length of the year that starts in March of year y, hence holds February of y + 1. */
  function YearLength(y: int): nat { if IsLeap(y + 1) then 366 else 365 }

  function MarchYear(d: Date): int { d.year - (if d.month <= 2 then 1 else 0) }

  function MarchMonth(d: Date): int { if d.month > 2 then d.month - 3 else d.month + 9 }

  lemma DivStep(y: int, k: nat)
    requires k == 4 || k == 100 || k == 400
    ensures (y + 1) / k == y / k + (if (y + 1) % k == 0 then 1 else 0)
  {}

  /** A multiple of a * b is a multiple of a. */
  lemma Nested(y: int, a: nat, b: nat)
    requires (a == 4 && b == 25) || (a == 100 && b == 4)
    ensures y % (a * b) == 0 ==> y % a == 0
  {}

  lemma YearStartStep(y: int)
    ensures YearStart(y + 1) == YearStart(y) + YearLength(y)
  {
    DivStep(y, 4);
    DivStep(y, 100);
    DivStep(y, 400);
    Nested(y + 1, 4, 25);
    Nested(y + 1, 100, 4);
  }

  lemma YearStartMonotone(a: int, b: int)
    requires a <= b
    ensures YearStart(a) + 365 * (b - a) <= YearStart(b)
  {
    var wa, wb := a / 4, b / 4;
    assert a / 100 == wa / 25 && b / 100 == wb / 25;
    assert wa <= wb && wa - wa / 25 <= wb - wb / 25;
    assert a / 400 <= b / 400;
  }

  /** Truncating division with the offset for negative years is the floor; the year start splits by era. */
  lemma EraSplit(y: int)
    ensures TruncDiv(if y >= 0 then y else y - 399, 400) == y / 400
    ensures y / 4 == 100 * (y / 400) + y % 400 / 4
    ensures y / 100 == 4 * (y / 400) + y % 400 / 100
    ensures YearStart(y) == 146097 * (y / 400) + EraDays(y % 400)
  {}

  /** Small sums survive the unsigned detour, a negative one included. */
  lemma WrapSum(v: nat, w: int)
    requires v <= 150000 && -1 <= w <= 1000
    ensures I32(U32(v + U32(w))) == v + w
  {
    if w >= 0 {
      assert U32(w) == w;
    } else {
      assert U32(w) == 0xFFFF_FFFF;
      assert v >= 1 ==> U32(v + 0xFFFF_FFFF) == v - 1;
    }
  }

  /** The day count is linear in the day field, for every day a byte can hold. */
  lemma ToDaysShape(d: Date)
    requires 1 <= d.month <= 12
    ensures ToDays(d) == YearStart(MarchYear(d)) + MonthStart(MarchMonth(d)) + d.day - 1 - 719468
  {
    hide YearStart, EraDays, U32, I32, TruncDiv, MonthStart;
    var y, mp := MarchYear(d), MarchMonth(d);
    EraSplit(y);
    EraDaysBound(y % 400);
    MonthStartBound(mp);
    assert y - y / 400 * 400 == y % 400;
    Fits(y % 400);
    WrapSum(EraDays(y % 400), MonthStart(mp) + d.day - 1);
  }

  lemma EraDaysBound(yoe: nat)
    requires yoe < 400
    ensures 0 <= EraDays(yoe) <= 150_000
  {}

  lemma MonthStartBound(mp: nat)
    requires mp < 12
    ensures MonthStart(mp) <= 337
  {}

  lemma Fits(x: nat)
    requires x < 0x1_0000_0000
    ensures U32(x) == x
  {}

  /** Every month of a March year starts where the one before it ends. */
  lemma MonthTable(y: int, m: nat)
    requires 1 <= m <= 12
    ensures var mp := if m > 2 then m - 3 else m + 9;
            && (mp < 11 ==> MonthStart(mp + 1) == MonthStart(mp) + LastDay(y, m))
            && (mp == 11 ==> YearLength(y - 1) == MonthStart(mp) + LastDay(y, m))
  {}

  // ---- The closed form and the day-by-day calendar --------------------------------------------

  lemma NextIsOneMore(d: Date)
    requires Ok(d) && d != FinalDate
    ensures Ok(Next(d)) && ToDays(Next(d)) == ToDays(d) + 1
  {
    hide ToDays, YearStart, YearLength;
    var e := Next(d);
    ToDaysShape(d);
    ToDaysShape(e);
    MonthTable(d.year, d.month);
    if d.day < LastDay(d.year, d.month) {
    } else if d.month == 2 {
      YearStartStep(d.year - 1);
      assert MonthStart(0) == 0;
    } else {
      assert MarchYear(e) == MarchYear(d) && MarchMonth(e) == MarchMonth(d) + 1;
    }
  }

  lemma EpochIsZero()
    ensures ToDays(Epoch) == 0 && FromDays(0) == Epoch
  {
    hide ToDays, FromDays;
    ToDaysShape(Epoch);
    FromToDays(Epoch);
  }

  lemma DayOfYearBound(d: Date)
    requires Ok(d)
    ensures 0 <= MonthStart(MarchMonth(d)) + d.day - 1 < YearLength(MarchYear(d))
    ensures MarchMonth(d) < 11 ==> MonthStart(MarchMonth(d)) + d.day - 1 < MonthStart(MarchMonth(d) + 1)
  {
    MonthTable(d.year, d.month);
  }

  lemma Monotone(a: Date, b: Date)
    requires Ok(a) && Ok(b)
    ensures Before(a, b) <==> ToDays(a) < ToDays(b)
    ensures a == b <==> ToDays(a) == ToDays(b)
  {
    if Before(a, b) { MonotoneOneWay(a, b); }
    if Before(b, a) { MonotoneOneWay(b, a); }
  }

  lemma MonotoneOneWay(a: Date, b: Date)
    requires Ok(a) && Ok(b) && Before(a, b)
    ensures ToDays(a) < ToDays(b)
  {
    hide ToDays, YearStart, YearLength, MonthStart;
    ToDaysShape(a);
    ToDaysShape(b);
    DayOfYearBound(a);
    DayOfYearBound(b);
    var ya, yb := MarchYear(a), MarchYear(b);
    if ya < yb {
      YearStartStep(ya);
      YearStartMonotone(ya + 1, yb);
    } else if MarchMonth(a) < MarchMonth(b) {
      MonthStartMonotone(MarchMonth(a) + 1, MarchMonth(b));
    }
  }

  lemma MonthStartMonotone(a: nat, b: nat)
    requires a <= b
    ensures MonthStart(a) <= MonthStart(b)
  {}

  // ---- The inverse ------------------------------------------------------------------------------

  /** A year of the era, split into centuries, four-year groups and years. */
  lemma EraDaysSplit(yoe: nat, c: nat, q: nat, r: nat)
    requires yoe == 100 * c + 4 * q + r < 400 && q < 25 && r < 4
    ensures EraDays(yoe) == 36524 * c + 1461 * q + 365 * r
    ensures YearLength(yoe) == if r == 3 && (q < 24 || c == 3) then 366 else 365
  {
    hide YearLength;
    assert yoe / 4 == 25 * c + q && yoe / 100 == c;
    LeapSplit(c, q, r);
  }

  lemma LeapSplit(c: nat, q: nat, r: nat)
    requires c < 4 && q < 25 && r < 4
    ensures YearLength(100 * c + 4 * q + r) == if r == 3 && (q < 24 || c == 3) then 366 else 365
  {
    var y := 100 * c + 4 * q + r + 1;
    assert y % 4 == (r + 1) % 4;
    if r == 3 {
      assert y == 100 * c + 4 * (q + 1);
      assert y % 100 == 0 <==> q == 24;
    }
  }

  /** The divisions of YearOf, at a day of the era in split form. */
  lemma YearOfSplit(doe: nat, c: nat, q: nat, r: nat, doy: nat)
    requires c < 4 && q < 25 && r < 4 && doe == 36524 * c + 1461 * q + 365 * r + doy
    requires doy < if r == 3 && (q < 24 || c == 3) then 366 else 365
    ensures doe <= 146096 && YearOf(doe) == 100 * c + 4 * q + r
  {
    var rest, last := 24 * c + q + 365 * r + doy, 1461 * q + 365 * r + doy;
    var a, b, e := (if rest >= 1460 then 1 else 0), (if last >= 36524 then 1 else 0), (if doe == 146096 then 1 else 0);
    assert doe / 1460 == 25 * c + q + a by { assert doe == 1460 * (25 * c + q) + rest; }
    assert doe / 36524 == c + b by { assert doe == 36524 * c + last; }
    assert doe / 146096 == e;
    assert doe - doe / 1460 + doe / 36524 - doe / 146096 == 365 * (100 * c + 4 * q + r) + (doy - a + b - e);
  }

  /** Recovering the year of the era from a day of the era. */
  lemma YearOfEra(yoe: nat, doy: nat)
    requires yoe < 400 && doy < YearLength(yoe)
    ensures 0 <= EraDays(yoe) + doy <= 146096 && YearOf(EraDays(yoe) + doy) == yoe
  {
    hide *;
    var c, q, r := yoe / 100, yoe % 100 / 4, yoe % 4;
    EraDaysSplit(yoe, c, q, r);
    YearOfSplit(EraDays(yoe) + doy, c, q, r, doy);
  }

  /** Recovering the month from a day of the March year. */
  lemma MonthOfYear(mp: nat, d: nat)
    requires mp < 12 && 1 <= d && MonthStart(mp) + d - 1 < 366
    requires mp < 11 ==> MonthStart(mp) + d - 1 < MonthStart(mp + 1)
    ensures MonthOf(MonthStart(mp) + d - 1) == mp
  {}

  lemma DayEra(z: int, era: int, doe: nat)
    requires z == 146097 * era + doe && doe <= 146096
    ensures TruncDiv(if z >= 0 then z else z - 146096, 146097) == era
    ensures U32(z - era * 146097) == doe
  {}

  lemma FieldsAt(era: int, doe: nat, yoe: nat, doy: nat, mp: nat, d: nat)
    requires YearOf(doe) == yoe < 400 && doe - EraDays(yoe) == doy < 366
    requires MonthOf(doy) == mp < 12 && doy - MonthStart(mp) + 1 == d && 1 <= d <= 31
    ensures var m := if mp < 10 then mp + 3 else mp - 9;
            Fields(era, doe) == Date(ToShort(yoe + era * 400 + (if m <= 2 then 1 else 0)), m, d)
  {
    hide YearOf, EraDays, MonthOf, MonthStart, ToShort, U32;
    Fits(yoe);
    Fits(doy);
    Fits(d);
    if mp >= 9 { Fits(mp - 9); }
  }

  /** Whole eras do not matter to leap years. */
  lemma LeapByEra(y: int)
    ensures YearLength(y % 400) == YearLength(y) <= 366
  {
    hide IsLeap;
    var e, r := y / 400, y % 400;
    assert y + 1 == 400 * e + (r + 1);
    LeapTurns(e, r + 1);
  }

  lemma LeapTurns(e: int, x: int)
    ensures IsLeap(400 * e + x) <==> IsLeap(x)
  {
    FourTurns(100 * e, x);
    HundredTurns(4 * e, x);
    FourHundredTurns(e, x);
  }

  lemma FourTurns(e: int, x: int)
    ensures (4 * e + x) % 4 == x % 4
  {}

  lemma HundredTurns(e: int, x: int)
    ensures (100 * e + x) % 100 == x % 100
  {}

  lemma FourHundredTurns(e: int, x: int)
    ensures (400 * e + x) % 400 == x % 400
  {}

  lemma FromDaysIs(n: int)
    ensures var z := n + 719468;
            var era := TruncDiv(if z >= 0 then z else z - 146096, 146097);
            FromDays(n) == Fields(era, U32(z - era * 146097))
  {}

  /** The inverse at a day whose era, year of the era, month and day are known. */
  lemma FromDaysAt(n: int, era: int, yoe: nat, mp: nat, d: nat)
    requires n + 719468 == 146097 * era + (EraDays(yoe) + (MonthStart(mp) + d - 1))
    requires yoe < 400 && mp < 12 && 1 <= d <= 31 && MonthStart(mp) + d - 1 < YearLength(yoe) <= 366
    requires mp < 11 ==> MonthStart(mp) + d - 1 < MonthStart(mp + 1)
    ensures var m := if mp < 10 then mp + 3 else mp - 9;
            FromDays(n) == Date(ToShort(yoe + era * 400 + (if m <= 2 then 1 else 0)), m, d)
  {
    hide *;
    var doy := MonthStart(mp) + d - 1;
    var doe := EraDays(yoe) + doy;
    YearOfEra(yoe, doy);
    MonthOfYear(mp, d);
    DayEra(n + 719468, era, doe);
    FromDaysIs(n);
    FieldsAt(era, doe, yoe, doy, mp, d);
  }

  /** The fields of a date, from those of its March year. */
  lemma MarchFields(d: Date)
    requires Ok(d)
    ensures var (y, mp) := (MarchYear(d), MarchMonth(d));
            var m := if mp < 10 then mp + 3 else mp - 9;
            && 0 <= mp < 12 && 1 <= d.day <= 31 && 1 <= d.month <= 12
            && d == Date(ToShort(y % 400 + y / 400 * 400 + (if m <= 2 then 1 else 0)), m, d.day)
  {}

  lemma FromToDays(d: Date)
    requires Ok(d)
    ensures FromDays(ToDays(d)) == d
  {
    hide *;
    var y, mp := MarchYear(d), MarchMonth(d);
    MarchFields(d);
    ToDaysShape(d);
    DayOfYearBound(d);
    EraSplit(y);
    LeapByEra(y);
    FromDaysAt(ToDays(d), y / 400, y % 400, mp, d.day);
  }

  /** The date of day n: from the first date on, one step of the calendar a day. */
  function DateAt(n: int): (d: Date)
    requires ToDays(FirstDate) <= n <= ToDays(FinalDate)
    ensures Ok(d) && ToDays(d) == n
    decreases n - ToDays(FirstDate)
  {
    if n == ToDays(FirstDate) then FirstDate
    else
      var p := DateAt(n - 1);
      NextIsOneMore(p);
      Next(p)
  }

  lemma ToFromDays(n: int)
    requires ToDays(FirstDate) <= n <= ToDays(FinalDate)
    ensures Ok(FromDays(n)) && ToDays(FromDays(n)) == n
  {
    hide ToDays, FromDays, Ok;
    FromToDays(DateAt(n));
  }

  /** The closed form is the calendar counted day by day: over the whole range, with the epoch at day 0, so that n
      steps lead from the epoch to day n, or from day -n to the epoch. */
  lemma ClosedFormCountsDays(n: int)
    requires ToDays(FirstDate) <= n <= ToDays(FinalDate)
    ensures FromDays(n) == DateAt(n)
    ensures n == 0 ==> DateAt(n) == Epoch
    ensures n > ToDays(FirstDate) ==> DateAt(n - 1) != FinalDate && DateAt(n) == Next(DateAt(n - 1))
  {
    hide ToDays, FromDays, Ok;
    FromToDays(DateAt(n));
    EpochIsZero();
    if n > ToDays(FirstDate) { NotFinal(n - 1); }
  }

  lemma NotFinal(n: int)
    requires ToDays(FirstDate) <= n < ToDays(FinalDate)
    ensures DateAt(n) != FinalDate
  {
    hide ToDays;
  }
}
