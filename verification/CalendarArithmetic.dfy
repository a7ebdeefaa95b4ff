/** Weekday, month and year-month arithmetic of date.h, over 32-bit operands. */
module CalendarArithmetic {
  import opened Calendar

  type Int32 = x: int | -0x8000_0000 <= x < 0x8000_0000

  predicate IsWeekday(w: nat) { w <= 6 }

  predicate IsMonth(m: nat) { 1 <= m <= 12 }

  // ---- Weekdays, Sunday = 0 -----------------------------------------------------------------

  function WeekdayFromDays(z: Int32): nat {
    var u := U32(z);
    if z >= -4 then U32(u + 4) % 7 else u % 7
  }

  function WeekdayMinus(x: nat, y: nat): int {
    var wdu := x - y;
    var wk := TruncDiv(if wdu >= 0 then wdu else wdu - 6, 7);
    wdu - wk * 7
  }

  function WeekdayPlus(x: nat, days: Int32): nat {
    var wdu := x + days;
    var wk := TruncDiv(if wdu >= 0 then wdu else wdu - 6, 7);
    var wd := U32(wdu - wk * 7);
    if wd != 7 then wd else 0
  }

  lemma WeekdayFromDaysIsEuclidean(z: Int32)
    ensures WeekdayFromDays(z) == (z + 4) % 7
  {
    if z >= -4 {
      assert U32(U32(z) + 4) == z + 4;
    } else {
      assert U32(z) == 7 * 613_566_756 + (z + 4);
      SevenTurns(613_566_756, z + 4);
    }
  }

  lemma SevenTurns(e: int, x: int)
    ensures (7 * e + x) % 7 == x % 7
  {}

  lemma WeekdayPlusIsEuclidean(x: nat, days: Int32)
    requires IsWeekday(x)
    ensures WeekdayPlus(x, days) == (x + days) % 7
  {
    var wdu := x + days;
    assert TruncDiv(if wdu >= 0 then wdu else wdu - 6, 7) == wdu / 7;
  }

  /** Adding n days to a day number advances its weekday by n. */
  lemma WeekdayFollowsDays(z: Int32, n: Int32)
    requires -0x8000_0000 <= z + n < 0x8000_0000
    ensures WeekdayPlus(WeekdayFromDays(z), n) == WeekdayFromDays(z + n)
  {
    hide *;
    WeekdayFromDaysIsEuclidean(z);
    WeekdayFromDaysIsEuclidean(z + n);
    assert 0 <= (z + 4) % 7 <= 6;
    IsWeekdayRange((z + 4) % 7);
    WeekdayPlusIsEuclidean((z + 4) % 7, n);
    ModSevenSum(z + 4, n);
  }

  lemma IsWeekdayRange(w: nat)
    ensures IsWeekday(w) <==> w <= 6
  {}

  lemma ModSevenSum(a: int, n: int)
    ensures (a % 7 + n) % 7 == (a + n) % 7
  {}

  /** x - y is the one number of days from 0 to 6 that leads from y to x. */
  lemma WeekdayDifference(x: nat, y: nat, n: nat)
    requires IsWeekday(x) && IsWeekday(y) && n <= 6
    ensures 0 <= WeekdayMinus(x, y) <= 6
    ensures WeekdayPlus(y, n) == x <==> n == WeekdayMinus(x, y)
  {
    hide WeekdayPlus;
    WeekdayPlusIsEuclidean(y, n);
    assert (y + n) % 7 == if y + n < 7 then y + n else y + n - 7;
  }

  // ---- Months ---------------------------------------------------------------------------------

  function MonthMinus(x: nat, y: nat): int {
    var d := U32(x - y);
    I32(if d <= 11 then d else U32(d + 12))
  }

  function MonthPlus(x: nat, months: Int32): nat {
    var mu := x + months - 1;
    var yr := TruncDiv(if mu >= 0 then mu else mu - 11, 12);
    U32(mu - yr * 12 + 1) % 0x100
  }

  lemma MonthPlusIsEuclidean(x: nat, months: Int32)
    requires IsMonth(x)
    ensures MonthPlus(x, months) == (x - 1 + months) % 12 + 1
  {
    hide TruncDiv, U32;
    FloorTwelfth(x + months - 1);
    MonthRest(x + months - 1);
  }

  /** The month within its year, through the unsigned detour. */
  lemma MonthRest(n: int)
    ensures U32(n - n / 12 * 12 + 1) % 0x100 == n % 12 + 1
  {
    assert 0 <= n - n / 12 * 12 == n % 12 < 12;
    SmallByte(n % 12 + 1);
  }

  lemma SmallByte(x: nat)
    requires x < 0x100
    ensures U32(x) % 0x100 == x
  {}

  lemma FloorTwelfth(n: int)
    ensures TruncDiv(if n >= 0 then n else n - 11, 12) == n / 12
  {}

  lemma MonthMinusIsEuclidean(x: nat, y: nat)
    requires IsMonth(x) && IsMonth(y)
    ensures MonthMinus(x, y) == if x >= y then x - y else x - y + 12
  {
    if x < y { assert U32(x - y) == x - y + 0x1_0000_0000; }
  }

  /** x - y is the one number of months from 0 to 11 that leads from y to x. */
  lemma MonthDifference(x: nat, y: nat, n: nat)
    requires IsMonth(x) && IsMonth(y) && n <= 11
    ensures 0 <= MonthMinus(x, y) <= 11
    ensures MonthPlus(y, n) == x <==> n == MonthMinus(x, y)
  {
    hide MonthPlus, MonthMinus;
    MonthPlusIsEuclidean(y, n);
    MonthMinusIsEuclidean(x, y);
  }

  // ---- Year-months ------------------------------------------------------------------------------

  datatype YearMonth = YearMonth(year: Short, month: UChar)

  /** The months since January of year 0. */
  function Index(ym: YearMonth): int { 12 * ym.year + ym.month - 1 }

  predicate OkYearMonth(ym: YearMonth) { IsMonth(ym.month) }

  /** The month counts that lead from ym to a year the 16 bits can hold. */
  predicate Reaches(ym: YearMonth, months: int) {
    12 * -0x8000 <= Index(ym) + months < 12 * 0x8000
  }

  function YearMonthPlus(ym: YearMonth, months: Int32): YearMonth {
    var dmi := ym.month - 1 + months;
    var dy := TruncDiv(if dmi >= 0 then dmi else dmi - 11, 12);
    YearMonth(ToShort(ym.year + dy), U32(dmi - dy * 12 + 1) % 0x100)
  }

  function YearMonthMinus(x: YearMonth, y: YearMonth): int {
    (x.year - y.year) * 12 + I32(U32(x.month - y.month))
  }

  /** The year-month i months after January of year 0, the year kept to 16 bits. */
  function FromIndex(i: int): YearMonth { YearMonth(ToShort(i / 12), i % 12 + 1) }

  /** The sums formed on the way are ints: month - 1 + months, and 11 less when that is negative. */
  predicate Fits(ym: YearMonth, months: int) {
    -0x8000_0000 <= months < 0x8000_0000 && -0x8000_0000 + 11 <= ym.month - 1 + months < 0x8000_0000
  }

  lemma YearMonthPlusIndex(ym: YearMonth, months: Int32)
    requires OkYearMonth(ym)
    ensures YearMonthPlus(ym, months) == FromIndex(Index(ym) + months)
  {
    hide TruncDiv, U32, ToShort;
    var dmi := ym.month - 1 + months;
    FloorTwelfth(dmi);
    MonthRest(dmi);
    TwelveTurns(ym.year, dmi);
  }

  lemma TwelveTurns(e: int, x: int)
    ensures (12 * e + x) / 12 == e + x / 12 && (12 * e + x) % 12 == x % 12
  {}

  /** Index undoes FromIndex up to whole turns of the 16-bit year. */
  lemma IndexOfFromIndex(i: int) returns (turns: int)
    ensures OkYearMonth(FromIndex(i)) && Index(FromIndex(i)) == i - 786_432 * turns
    ensures 12 * -0x8000 <= i < 12 * 0x8000 ==> turns == 0
  {
    turns := (i / 12 + 0x8000) / 0x1_0000;
    assert ToShort(i / 12) == i / 12 - 0x1_0000 * turns;
  }

  lemma FromIndexTurns(i: int, turns: int)
    ensures FromIndex(i + 786_432 * turns) == FromIndex(i)
  {
    var j := i + 786_432 * turns;
    assert j / 12 == i / 12 + 0x1_0000 * turns && j % 12 == i % 12;
    assert (j / 12 + 0x8000) % 0x1_0000 == (i / 12 + 0x8000) % 0x1_0000;
  }

  lemma IndexInjective(x: YearMonth, y: YearMonth)
    requires OkYearMonth(x) && OkYearMonth(y) && Index(x) == Index(y)
    ensures x == y
  {}

  /** x - y leads from y to x, and no other number of months does short of a full turn of the years. */
  lemma YearMonthDifference(x: YearMonth, y: YearMonth, n: Int32)
    requires OkYearMonth(x) && OkYearMonth(y) && Reaches(y, n)
    ensures YearMonthPlus(y, n) == x <==> n == YearMonthMinus(x, y)
  {
    hide YearMonthPlus, FromIndex;
    assert I32(U32(x.month - y.month)) == x.month - y.month;
    YearMonthPlusIndex(y, n);
    var _ := IndexOfFromIndex(Index(y) + n);
    if n == YearMonthMinus(x, y) { IndexInjective(YearMonthPlus(y, n), x); }
  }

  /** Adding months twice is adding their sum, wrapped years included. */
  lemma YearMonthAction(ym: YearMonth, a: Int32, b: Int32)
    requires OkYearMonth(ym)
    requires Fits(ym, a) && Fits(YearMonthPlus(ym, a), b) && Fits(ym, a + b)
    ensures YearMonthPlus(YearMonthPlus(ym, a), b) == YearMonthPlus(ym, a + b)
  {
    hide YearMonthPlus, FromIndex;
    YearMonthPlusIndex(ym, a);
    var turns := IndexOfFromIndex(Index(ym) + a);
    YearMonthPlusIndex(FromIndex(Index(ym) + a), b);
    YearMonthPlusIndex(ym, a + b);
    FromIndexTurns(Index(ym) + a + b, -turns);
  }
}
