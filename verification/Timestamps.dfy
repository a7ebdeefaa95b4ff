/** The wire timestamp of time_helper.h and its conversions to and from the system clock's
    nanosecond count. */
module Timestamps {
  import opened Calendar

  // Nanoseconds in days and in the parts of a clock reading.
  function Days(n: int): int { n * 86_400_000_000_000 }
  function Hours(n: int): int { n * 3_600_000_000_000 }
  function Minutes(n: int): int { n * 60_000_000_000 }
  function Seconds(n: int): int { n * 1_000_000_000 }

  type UInt16 = x: nat | x < 0x1_0000
  type UInt32 = x: nat | x < 0x1_0000_0000

  datatype Timestamp = Timestamp(year: UInt16, month: UChar, day: UChar,
                                 hour: UChar, minute: UChar, second: UChar, subSecond: UInt32)

  /** The clock values whose nanoseconds, and those of the midnight before them, fit in 64 signed bits. */
  predicate InRange(t: int) { Days(-106_751) <= t < 0x8000_0000_0000_0000 }

  function DateOf(ts: Timestamp): Date { Date(ToShort(ts.year), ts.month, ts.day) }

  predicate WellFormed(ts: Timestamp) {
    ts.year < 0x8000 && Ok(DateOf(ts)) &&
    ts.hour < 24 && ts.minute < 60 && ts.second < 60 && ts.subSecond < 10_000_000
  }

  /** The comparison of two timestamps, field by field from the year down. */
  predicate Less(a: Timestamp, b: Timestamp) {
    a.year < b.year || (a.year == b.year && (
    a.month < b.month || (a.month == b.month && (
    a.day < b.day || (a.day == b.day && (
    a.hour < b.hour || (a.hour == b.hour && (
    a.minute < b.minute || (a.minute == b.minute && (
    a.second < b.second || (a.second == b.second && a.subSecond < b.subSecond)))))))))))
  }

  /** Rounding down to whole days, by truncation and a correction for values before the epoch. */
  function FloorDays(t: int): int {
    var d := TruncDiv(t, 86_400_000_000_000);
    if Days(d) > t then d - 1 else d
  }

  function FromChrono(t: int): Timestamp
    requires InRange(t)
  {
    var ymd := FromDays(FloorDays(t));
    var since := t - Days(FloorDays(t));
    var h := TruncDiv(since, 3_600_000_000_000);
    var m := TruncDiv(since, 60_000_000_000) - h * 60;
    var s := TruncDiv(since - Hours(h) - Minutes(m), 1_000_000_000);
    Timestamp(ymd.year % 0x1_0000, ymd.month, ymd.day, h % 0x100, m % 0x100, s % 0x100,
              TruncDiv(since, 100) % 10_000_000)
  }

  function ToChrono(ts: Timestamp): int {
    Days(ToDays(DateOf(ts))) + Hours(ts.hour) + Minutes(ts.minute) + Seconds(ts.second)
      + U32(ts.subSecond * 100)
  }

  /** Nanoseconds since midnight of a clock reading. */
  function ClockNanos(h: nat, m: nat, s: nat, sub: nat): nat {
    Hours(h) + Minutes(m) + Seconds(s) + sub * 100
  }

  lemma FloorDaysIsFloor(t: int, day: int, since: nat)
    requires t == Days(day) + since && since < 86_400_000_000_000
    ensures FloorDays(t) == day
  {}

  /** A clock reading below the day's end is recovered from its nanoseconds, and a remainder below
      100 ns is dropped. */
  lemma ClockDigits(h: nat, m: nat, s: nat, sub: nat, r: nat)
    requires h < 24 && m < 60 && s < 60 && sub < 10_000_000 && r < 100
    ensures var n := ClockNanos(h, m, s, sub) + r;
            && n < 86_400_000_000_000 && n / 3_600_000_000_000 == h && n / 60_000_000_000 == h * 60 + m
            && (n - Hours(h) - Minutes(m)) / 1_000_000_000 == s
            && n / 100 % 10_000_000 == sub
  {
    var n := ClockNanos(h, m, s, sub) + r;
    assert n / 100 == ((h * 60 + m) * 60 + s) * 10_000_000 + sub;
  }

  /** Every nanosecond of the day is some clock reading. */
  lemma ClockReading(n: nat) returns (h: nat, m: nat, s: nat, sub: nat)
    requires n < 86_400_000_000_000
    ensures h < 24 && m < 60 && s < 60 && sub < 10_000_000
    ensures n == ClockNanos(h, m, s, sub) + n % 100
  {
    h := n / 3_600_000_000_000;
    var r1 := n % 3_600_000_000_000;
    m := r1 / 60_000_000_000;
    var r2 := r1 % 60_000_000_000;
    s := r2 / 1_000_000_000;
    var r3 := r2 % 1_000_000_000;
    sub := r3 / 100;
    HoursSplit(n);
    MinutesSplit(r1);
    SecondsSplit(r2);
    TicksSplit(r3);
    hide *;
    ReadingSum(h, m, s, sub, r3 % 100);
  }

  lemma HoursSplit(n: nat)
    requires n < Days(1)
    ensures n / 3_600_000_000_000 < 24 && n == Hours(n / 3_600_000_000_000) + n % 3_600_000_000_000
  {}

  lemma MinutesSplit(n: nat)
    requires n < Hours(1)
    ensures n / 60_000_000_000 < 60 && n == Minutes(n / 60_000_000_000) + n % 60_000_000_000
  {}

  lemma SecondsSplit(n: nat)
    requires n < Minutes(1)
    ensures n / 1_000_000_000 < 60 && n == Seconds(n / 1_000_000_000) + n % 1_000_000_000
  {}

  lemma TicksSplit(n: nat)
    requires n < Seconds(1)
    ensures n / 100 < 10_000_000 && n == 100 * (n / 100) + n % 100
  {}

  lemma ReadingSum(h: nat, m: nat, s: nat, sub: nat, r: nat)
    requires r < 100
    ensures Hours(h) + Minutes(m) + Seconds(s) + 100 * sub + r == ClockNanos(h, m, s, sub) + r
    ensures (ClockNanos(h, m, s, sub) + r) % 100 == r
  {
    HundredTurns(36_000_000_000 * h + 600_000_000 * m + 10_000_000 * s + sub, r);
  }

  lemma FromChronoAt(d: Date, h: nat, m: nat, s: nat, sub: nat, r: nat)
    requires Ok(d) && h < 24 && m < 60 && s < 60 && sub < 10_000_000 && r < 100
    requires InRange(Days(ToDays(d)) + ClockNanos(h, m, s, sub) + r)
    ensures FromChrono(Days(ToDays(d)) + ClockNanos(h, m, s, sub) + r)
         == Timestamp(d.year % 0x1_0000, d.month, d.day, h, m, s, sub)
  {
    hide ToDays, FromDays, FloorDays, ClockNanos;
    ClockDigits(h, m, s, sub, r);
    var n := ClockNanos(h, m, s, sub) + r;
    FloorDaysIsFloor(Days(ToDays(d)) + n, ToDays(d), n);
    FromToDays(d);
  }

  /** The days the clock can hold all have dates, with years 1677 to 2262. */
  lemma ClockDates(day: int)
    requires -106_751 <= day <= 106_751
    ensures Ok(FromDays(day)) && ToDays(FromDays(day)) == day && 1677 <= FromDays(day).year <= 2262
  {
    hide ToDays, FromDays;
    ToDaysShape(FirstDate);
    ToDaysShape(FinalDate);
    ToFromDays(day);
    var lo, hi := Date(1677, 1, 1), Date(2262, 12, 31);
    ToDaysShape(lo);
    ToDaysShape(hi);
    Monotone(FromDays(day), lo);
    Monotone(hi, FromDays(day));
  }

  /** From the clock and back: the value, floored to 100 ns. */
  lemma ChronoRoundTrip(t: int)
    requires InRange(t)
    ensures WellFormed(FromChrono(t))
    ensures ToChrono(FromChrono(t)) == t - t % 100
  {
    hide ToDays, FromDays, FloorDays, ClockNanos, FromChrono;
    var day, n := t / 86_400_000_000_000, t % 86_400_000_000_000;
    ClockDates(day);
    var h, m, s, sub := ClockReading(n);
    FromChronoAt(FromDays(day), h, m, s, sub, n % 100);
    DayHundreds(day, n);
    ClockSum(FromChrono(t));
  }

  lemma DayHundreds(day: int, n: nat)
    ensures (Days(day) + n) % 100 == n % 100
  {
    HundredTurns(864_000_000_000 * day, n);
  }

  lemma ClockSum(ts: Timestamp)
    requires ts.subSecond < 10_000_000
    ensures ToChrono(ts) == Days(ToDays(DateOf(ts))) + ClockNanos(ts.hour, ts.minute, ts.second, ts.subSecond)
  {
    hide ToDays, Days, Hours, Minutes, Seconds, U32;
    Fits(ts.subSecond * 100);
  }

  /** To the clock and back: exact, precisely for the well-formed timestamps. */
  lemma TimestampRoundTrip(ts: Timestamp)
    requires InRange(ToChrono(ts))
    ensures FromChrono(ToChrono(ts)) == ts <==> WellFormed(ts)
  {
    hide ToDays, FromDays, ClockNanos, FromChrono, ToChrono;
    if WellFormed(ts) {
      ClockSum(ts);
      FromChronoAt(DateOf(ts), ts.hour, ts.minute, ts.second, ts.subSecond, 0);
    }
    ChronoRoundTrip(ToChrono(ts));
  }

  /** The order of two clock readings of a day. */
  predicate ReadingLess(a: Timestamp, b: Timestamp) {
    a.hour < b.hour || (a.hour == b.hour && (
    a.minute < b.minute || (a.minute == b.minute && (
    a.second < b.second || (a.second == b.second && a.subSecond < b.subSecond)))))
  }

  lemma ReadingOrder(a: Timestamp, b: Timestamp)
    requires WellFormed(a) && WellFormed(b)
    ensures var (m, n) := (ClockNanos(a.hour, a.minute, a.second, a.subSecond), ClockNanos(b.hour, b.minute, b.second, b.subSecond));
            m < Days(1) && n < Days(1) && (ReadingLess(a, b) ==> m < n)
  {}

  lemma LessByDay(a: Timestamp, b: Timestamp)
    requires WellFormed(a) && WellFormed(b)
    ensures Less(a, b) <==> Before(DateOf(a), DateOf(b)) || (DateOf(a) == DateOf(b) && ReadingLess(a, b))
  {}

  lemma OrderOneWay(a: Timestamp, b: Timestamp)
    requires WellFormed(a) && WellFormed(b) && Less(a, b)
    ensures ToChrono(a) < ToChrono(b)
  {
    hide ToDays, Less, Before, ReadingLess, ToChrono, ClockNanos;
    ClockSum(a);
    ClockSum(b);
    ReadingOrder(a, b);
    LessByDay(a, b);
    Monotone(DateOf(a), DateOf(b));
  }

  /** Timestamp order is clock order. */
  lemma OrderAgrees(a: Timestamp, b: Timestamp)
    requires WellFormed(a) && WellFormed(b)
    ensures Less(a, b) <==> ToChrono(a) < ToChrono(b)
    ensures a == b <==> ToChrono(a) == ToChrono(b)
  {
    if Less(a, b) { OrderOneWay(a, b); }
    if Less(b, a) { OrderOneWay(b, a); }
  }
}
