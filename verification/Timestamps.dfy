/** Timestamps as Python and SQLite write them, and how they compare as text. */
module Timestamps {
  import opened Decimal

  /** Instants are microseconds since the epoch. */
  const SECOND := 1_000_000
  const DAY := 86400 * SECOND

  // ---------------------------------------------------------------------------------------------
  // The calendar

  datatype Date = Date(year: nat, month: nat, day: nat)

  predicate IsLeap(year: nat) {
    year % 4 == 0 && (year % 100 != 0 || year % 400 == 0)
  }

  function DaysIn(year: nat, month: nat): nat {
    if month == 2 then (if IsLeap(year) then 29 else 28)
    else if month in {4, 6, 9, 11} then 30
    else 31
  }

  predicate IsDate(d: Date) {
    1 <= d.month <= 12 && 1 <= d.day <= DaysIn(d.year, d.month)
  }

  function DayAfter(d: Date): Date {
    if d.day < DaysIn(d.year, d.month) then Date(d.year, d.month, d.day + 1)
    else if d.month < 12 then Date(d.year, d.month + 1, 1)
    else Date(d.year + 1, 1, 1)
  }

  /** The date `n` days after the epoch. */
  function DateOf(n: nat): (d: Date)
    ensures IsDate(d)
  {
    if n == 0 then Date(1970, 1, 1) else DayAfter(DateOf(n - 1))
  }

  predicate Before(d: Date, e: Date) {
    d.year < e.year || (d.year == e.year && (d.month < e.month || (d.month == e.month && d.day < e.day)))
  }

  lemma {:induction false} LaterDate(a: nat, b: nat)
    requires a < b
    ensures Before(DateOf(a), DateOf(b))
    decreases b
  {
    if a < b - 1 {
      LaterDate(a, b - 1);
    }
  }

  /** How many years from 1970 on and before this one are leap years: every fourth, but of the centuries only
      every fourth. */
  function LeapYears(year: nat): nat {
    if year <= 1970 then 0
    else LeapYears(year - 1) + if (year - 1) % 400 == 0 || ((year - 1) % 4 == 0 && (year - 1) % 100 != 0) then 1 else 0
  }

  /** Days of a common year before the month. */
  function MonthStart(month: nat): nat {
    match month
    case 2 => 31 case 3 => 59 case 4 => 90 case 5 => 120 case 6 => 151 case 7 => 181
    case 8 => 212 case 9 => 243 case 10 => 273 case 11 => 304 case 12 => 334 case _ => 0
  }

  /** How many days after the epoch a date is. */
  function DayNumber(d: Date): int {
    var leapDay := if d.month > 2 && LeapYears(d.year + 1) > LeapYears(d.year) then 1 else 0;
    365 * (d.year - 1970) + LeapYears(d.year) + MonthStart(d.month) + leapDay + d.day - 1
  }

  lemma {:induction false} LeapYearAdds(year: nat)
    requires year >= 1970
    ensures LeapYears(year + 1) == LeapYears(year) + if IsLeap(year) then 1 else 0
  {
    if year % 400 == 0 {
      assert year == 4 * (100 * (year / 400));
    }
  }

  lemma {:induction false} DayAfterCounts(d: Date)
    requires IsDate(d) && d.year >= 1970
    ensures DayNumber(DayAfter(d)) == DayNumber(d) + 1
  {
    LeapYearAdds(d.year);
  }

  /** The calendar counted day by day is the Gregorian one: the date of day `n` is that with the number `n`. */
  lemma {:induction false} DateOfCounts(n: nat)
    ensures DateOf(n).year >= 1970 && DayNumber(DateOf(n)) == n
  {
    if n > 0 {
      DateOfCounts(n - 1);
      DayAfterCounts(DateOf(n - 1));
    }
  }

  // ---------------------------------------------------------------------------------------------
  // Text

  /** The order of text, character by character. */
  predicate TextLess(a: string, b: string) {
    b != [] && (a == [] || a[0] < b[0] || (a[0] == b[0] && TextLess(a[1..], b[1..])))
  }

  lemma {:induction false} SamePrefix(p: string, a: string, b: string)
    ensures TextLess(p + a, p + b) <==> TextLess(a, b)
  {
    if p == [] {
      assert p + a == a && p + b == b;
    } else {
      assert (p + a)[1..] == p[1..] + a && (p + b)[1..] == p[1..] + b;
      SamePrefix(p[1..], a, b);
    }
  }

  /** Texts of one length that differ decide, whatever follows them. */
  lemma {:induction false} PrefixDecides(p: string, q: string, a: string, b: string)
    requires |p| == |q| && TextLess(p, q)
    ensures TextLess(p + a, q + b) && !TextLess(q + b, p + a)
  {
    assert (p + a)[0] == p[0] && (q + b)[0] == q[0];
    if p[0] == q[0] {
      assert (p + a)[1..] == p[1..] + a && (q + b)[1..] == q[1..] + b;
      PrefixDecides(p[1..], q[1..], a, b);
    }
  }

  /** The last `width` digits of a number. */
  function Padded(n: nat, width: nat): (s: string)
    ensures |s| == width
  {
    if width == 0 then "" else Padded(n / 10, width - 1) + [Digit(n % 10)]
  }

  function Pow10(n: nat): nat {
    if n == 0 then 1 else 10 * Pow10(n - 1)
  }

  lemma {:induction false} DigitsOrdered(a: nat, b: nat)
    requires a < b < 10
    ensures Digit(a) < Digit(b)
  {
  }

  lemma {:induction false} PaddedOrdered(a: nat, b: nat, width: nat)
    requires a < b < Pow10(width)
    ensures TextLess(Padded(a, width), Padded(b, width))
  {
    var p, q := Padded(a / 10, width - 1), Padded(b / 10, width - 1);
    if a / 10 < b / 10 {
      PaddedOrdered(a / 10, b / 10, width - 1);
      PrefixDecides(p, q, [Digit(a % 10)], [Digit(b % 10)]);
    } else {
      DigitsOrdered(a % 10, b % 10);
      SamePrefix(p, [Digit(a % 10)], [Digit(b % 10)]);
    }
  }

  function MonthAndDay(d: Date): string {
    Padded(d.month, 2) + "-" + Padded(d.day, 2)
  }

  function DateText(d: Date): (s: string)
    ensures |s| == 10
  {
    Padded(d.year, 4) + ("-" + MonthAndDay(d))
  }

  lemma {:induction false} MonthAndDayOrdered(d: Date, e: Date)
    requires IsDate(d) && IsDate(e) && d.year == e.year && Before(d, e)
    ensures TextLess(MonthAndDay(d), MonthAndDay(e))
  {
    var m, n := Padded(d.month, 2), Padded(e.month, 2);
    assert MonthAndDay(d) == m + ("-" + Padded(d.day, 2)) && MonthAndDay(e) == n + ("-" + Padded(e.day, 2));
    assert Pow10(2) == 100;
    if d.month < e.month {
      PaddedOrdered(d.month, e.month, 2);
      PrefixDecides(m, n, "-" + Padded(d.day, 2), "-" + Padded(e.day, 2));
    } else {
      PaddedOrdered(d.day, e.day, 2);
      SamePrefix(m + "-", Padded(d.day, 2), Padded(e.day, 2));
    }
  }

  lemma {:induction false} DateTextOrdered(d: Date, e: Date)
    requires IsDate(d) && IsDate(e) && Before(d, e) && e.year <= 9999
    ensures TextLess(DateText(d), DateText(e))
  {
    if d.year < e.year {
      assert Pow10(4) == 10000 by {
        assert Pow10(2) == 100;
      }
      PaddedOrdered(d.year, e.year, 4);
      PrefixDecides(Padded(d.year, 4), Padded(e.year, 4), "-" + MonthAndDay(d), "-" + MonthAndDay(e));
    } else {
      MonthAndDayOrdered(d, e);
      SamePrefix("-", MonthAndDay(d), MonthAndDay(e));
      SamePrefix(Padded(d.year, 4), "-" + MonthAndDay(d), "-" + MonthAndDay(e));
    }
  }

  // ---------------------------------------------------------------------------------------------
  // Two formats

  /** The instants that a Python `datetime` since the epoch can hold. */
  predicate Representable(at: int) {
    at >= 0 && DateOf(at / DAY).year <= 9999
  }

  /** The time of day to the second. */
  function Clock(at: nat): string {
    var s := at % DAY / SECOND;
    Padded(s / 3600, 2) + ":" + Padded(s / 60 % 60, 2) + ":" + Padded(s % 60, 2)
  }

  /** It tells hours, minutes and seconds that add up to the seconds of the day gone by. */
  lemma {:induction false} ClockTells(at: nat) returns (h: nat, m: nat, s: nat)
    ensures h < 24 && m < 60 && s < 60 && 3600 * h + 60 * m + s == at % DAY / SECOND
    ensures Clock(at) == Padded(h, 2) + ":" + Padded(m, 2) + ":" + Padded(s, 2)
  {
    var all := at % DAY / SECOND;
    h, m, s := all / 3600, all / 60 % 60, all % 60;
    assert all / 60 / 60 == all / 3600;
  }

  /** The dates decide, and on one day the letter T outweighs the blank. */
  lemma {:induction false} DatesDecide(n: nat, w: nat, a: string, b: string)
    requires DateOf(n).year <= 9999 && DateOf(w).year <= 9999
    requires a != "" && b != "" && a[0] == ' ' && b[0] == 'T'
    ensures TextLess(DateText(DateOf(n)) + a, DateText(DateOf(w)) + b) <==> n <= w
  {
    if n < w {
      LaterDate(n, w);
      DateTextOrdered(DateOf(n), DateOf(w));
      PrefixDecides(DateText(DateOf(n)), DateText(DateOf(w)), a, b);
    } else if n == w {
      SamePrefix(DateText(DateOf(n)), a, b);
    } else {
      LaterDate(w, n);
      DateTextOrdered(DateOf(w), DateOf(n));
      PrefixDecides(DateText(DateOf(w)), DateText(DateOf(n)), b, a);
    }
  }

  function IsoTime(at: nat): (s: string)
    ensures s != "" && s[0] == 'T'
  {
    "T" + Clock(at) + (if at % SECOND == 0 then "" else "." + Padded(at % SECOND, 6)) + "+00:00"
  }

  function SqliteTime(at: nat): (s: string)
    ensures s != "" && s[0] == ' '
  {
    " " + Clock(at)
  }

  /** `datetime.isoformat()` of an instant in UTC. */
  function IsoFormat(at: nat): string {
    DateText(DateOf(at / DAY)) + IsoTime(at)
  }

  /** SQLite's `datetime('now')`. */
  function SqliteNow(at: nat): string {
    DateText(DateOf(at / DAY)) + SqliteTime(at)
  }

  /** Compared as text, what Python wrote is later than what SQLite writes exactly if its date is not earlier. */
  lemma {:induction false} FormatsCompareByDate(written: int, now: int)
    requires Representable(written) && Representable(now)
    ensures TextLess(SqliteNow(now), IsoFormat(written)) <==> now / DAY <= written / DAY
  {
    DatesDecide(now / DAY, written / DAY, SqliteTime(now), IsoTime(written));
  }
}
