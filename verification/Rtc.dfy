/**
 * kernel/driver/rtc.c: seconds at the start of a year and of a month, in 64-bit unsigned
 * arithmetic, against the Gregorian calendar counted year by year.
 */
module Rtc {
  import opened Util

  const M: nat := 0x1_0000_0000_0000_0000
  const DAY: nat := 86400

  /** The value a uint64_t holds. */
  function U64(x: int): nat { x % M }

  // ---------- the calendar ----------

  predicate IsLeap(year: int) { year % 4 == 0 && (year % 100 != 0 || year % 400 == 0) }

  function YearLength(year: int): nat { if IsLeap(year) then 366 else 365 }

  /** Days from the start of 1970 to the start of `year`, one year at a time. */
  function Days(year: int): int
    decreases if year < 1970 then 1970 - year else year - 1970
  {
    if year == 1970 then 0
    else if year > 1970 then Days(year - 1) + YearLength(year - 1)
    else Days(year + 1) - YearLength(year)
  }

  /** Leap years up to and with `year`, counted from year 1. */
  function Leaps(year: int): int { year / 4 - year / 100 + year / 400 }

  lemma LeapsNext(year: int)
    ensures Leaps(year) == Leaps(year - 1) + if IsLeap(year) then 1 else 0
  {
    Step(year, 4);
    Step(year, 100);
    Step(year, 400);
    Hundreds(year);
  }

  lemma Hundreds(year: int)
    ensures (year % 100 == 0 ==> year % 4 == 0) && (year % 400 == 0 ==> year % 100 == 0)
  {
    if year % 100 == 0 { By4(25 * (year / 100), year); }
    if year % 400 == 0 { By100(4 * (year / 400), year); }
  }

  lemma By4(k: int, year: int)
    requires year == 4 * k
    ensures year % 4 == 0
  {
  }

  lemma By100(k: int, year: int)
    requires year == 100 * k
    ensures year % 100 == 0
  {
  }

  lemma Step(x: int, a: int)
    requires a in {4, 100, 400}
    ensures x / a == (x - 1) / a + if x % a == 0 then 1 else 0
  {
  }

  lemma {:induction false} DaysClosed(year: int)
    ensures Days(year) == 365 * (year - 1970) + Leaps(year - 1) - 477
    decreases if year < 1970 then 1970 - year else year - 1970
  {
    if year > 1970 {
      DaysClosed(year - 1);
      LeapsNext(year - 1);
    } else if year < 1970 {
      DaysClosed(year + 1);
      LeapsNext(year);
    }
  }

  /** The value of section 4.16 of IEEE Std 1003.1-2017, Base Definitions, for the first second
      of a year since the Epoch. */
  function Posix(year: nat): int
    requires year >= 1970
  {
    var y := year - 1900;
    (y - 70) * 31536000 + (y - 69) / 4 * 86400 - (y - 1) / 100 * 86400 + (y + 299) / 400 * 86400
  }

  lemma PosixAgrees(year: nat)
    requires year >= 1970
    ensures Posix(year) == DAY * Days(year)
  {
    DaysClosed(year);
    var y := year - 1900;
    assert (year - 1) / 4 == (y - 69) / 4 + 492;
    assert (year - 1) / 100 == (y - 1) / 100 + 19;
    assert (year - 1) / 400 == (y + 299) / 400 + 4;
  }

  // ---------- years ----------

  lemma SameU64(a: int, b: int, k: int)
    requires a == b + k * M
    ensures U64(a) == U64(b)
  {
  }

  /** The branch for years up to 2038: before 1968 the subtraction wraps around, and the shift
      makes that 2^62 too much, which a day's 86400 seconds cancel. */
  function NearLeaps(year: nat): nat
    requires 1902 <= year < M
  {
    var d := U64(year - 1968);
    if d % 4 == 0 then U64(d / 4 - 1) else d / 4
  }

  lemma NearLeap(year: nat)
    requires 1902 <= year <= 2038
    ensures IsLeap(year) <==> year % 4 == 0
  {
    if year % 100 == 0 { assert year == 2000; }
  }

  lemma Centuries(x: nat)
    requires 1901 <= x <= 2037
    ensures x / 100 - x / 400 == 15
  {
    assert x / 100 == (if x < 2000 then 19 else 20) && x / 400 == (if x < 2000 then 4 else 5);
  }

  lemma Shift4(x: int, k: int)
    ensures (x + 4 * k) / 4 == x / 4 + k && (x + 4 * k) % 4 == x % 4
  {
  }

  /** Between 1902 and 2038 every fourth year is a leap year. */
  lemma NearDays(year: nat)
    requires 1902 <= year <= 2038
    ensures IsLeap(year) <==> (year - 1968) % 4 == 0
    ensures Days(year) == 365 * (year - 1970) + (year - 1968) / 4 - (if IsLeap(year) then 1 else 0)
  {
    hide IsLeap, Days;
    NearLeap(year);
    DaysClosed(year);
    Centuries(year - 1);
    Shift4(year - 1969, 492);
    Shift4(year - 1968, 492);
    Step(year - 1968, 4);
  }

  lemma Wraps(x: int)
    requires 0 <= x + M && x < M
    ensures U64(x) == (if x < 0 then x + M else x) && U64(x) % 4 == x % 4
    ensures U64(x) / 4 == x / 4 + if x < 0 then M / 4 else 0
  {
    assert U64(x) == if x < 0 then x + M else x;
    Shift4(x, M / 4);
  }

  lemma NearFacts(year: nat)
    requires 1902 <= year <= 2038
    ensures U64(year - 1968) % 4 == 0 <==> IsLeap(year)
    ensures U64(31536000 * U64(year - 1970) + DAY * NearLeaps(year)) == U64(DAY * Days(year))
  {
    hide IsLeap, Days, U64, NearLeaps;
    NearDays(year);
    Wraps(year - 1968);
    NearSum(year, (year - 1968) / 4 - (if IsLeap(year) then 1 else 0));
  }

  /** How far the wrapped count of leap years is off. */
  function Excess(year: nat): nat { if year < 1968 then M / 4 else if year == 1968 then M else 0 }

  lemma NearExcess(year: nat)
    requires 1902 <= year <= 2038
    ensures NearLeaps(year) == (year - 1968) / 4 - (if (year - 1968) % 4 == 0 then 1 else 0) + Excess(year)
  {
    Wraps(year - 1968);
    var d: int := U64(year - 1968);
    if d % 4 == 0 { Wraps(d / 4 - 1); }
  }

  /** Wrapped subtractions differ from the true ones by multiples that vanish. */
  lemma NearSum(year: nat, leaps: int)
    requires 1902 <= year <= 2038 && leaps == (year - 1968) / 4 - (if (year - 1968) % 4 == 0 then 1 else 0)
    ensures U64(31536000 * U64(year - 1970) + DAY * NearLeaps(year)) == U64(31536000 * (year - 1970) + DAY * leaps)
  {
    hide U64, NearLeaps;
    Wraps(year - 1970);
    NearExcess(year);
    var a := if year < 1970 then 31536000 else 0;
    var b := if year < 1968 then DAY / 4 else if year == 1968 then DAY else 0;
    assert DAY * Excess(year) == b * M;
    SameU64(31536000 * U64(year - 1970) + DAY * NearLeaps(year), 31536000 * (year - 1970) + DAY * leaps, a + b);
  }

  /** The branch for years from 2039 on: 400-year cycles, centuries, and what remains. */
  lemma Parts(cycles: nat, centuries: nat, rem: nat)
    requires centuries < 4 && rem < 100
    ensures var year := 2000 + 400 * cycles + 100 * centuries + rem;
      && year / 4 == 500 + 100 * cycles + 25 * centuries + rem / 4 && year % 4 == rem % 4
      && year / 100 == 20 + 4 * cycles + centuries && year % 100 == rem
      && year / 400 == 5 + cycles && (year % 400 == 0 <==> rem == 0 && centuries == 0)
  {
    Shift4(rem, 500 + 100 * cycles + 25 * centuries);
  }

  lemma FarFacts(year: nat, cycles: nat, centuries: nat, rem: nat)
    requires centuries < 4 && rem < 100 && year == 2000 + 400 * cycles + 100 * centuries + rem
    ensures IsLeap(year) <==> if rem == 0 then centuries == 0 else rem % 4 == 0
    ensures Days(year) == 365 * (year - 2000) + rem / 4 + 97 * cycles + 24 * centuries
                          - (if IsLeap(year) then 1 else 0) + 10957 + 1
  {
    hide Days;
    Parts(cycles, centuries, rem);
    DaysClosed(year);
    LeapsNext(year);
  }

  /** ytosec; `leap` is None when is_leap is left alone. */
  method YToSec(year: nat) returns (sec: nat, leap: Option<bool>)
    requires year < M
    ensures year >= 1902 ==> sec == U64(DAY * Days(year)) && leap == Some(IsLeap(year))
    ensures year < 1902 ==> sec == 0 && leap == None
    ensures sec == U64(DAY * Days(year)) <==> year >= 1902
  {
    if year < 1902 {
      EarlyYears(year);
      return 0, None;
    }
    var y := year - 1900;
    if y - 2 <= 136 {
      var leaps := U64(y - 68) / 4;
      if U64(y - 68) % 4 == 0 {
        leaps := U64(leaps - 1);
        leap := Some(true);
      } else {
        leap := Some(false);
      }
      NearFacts(year);
      sec := U64(31536000 * U64(y - 70) + DAY * leaps);
      return;
    }
    var cycles, rem := (y - 100) / 400, (y - 100) % 400;
    var centuries, leaps, isLeap := 0, 0, false;
    ghost var r := rem;
    if rem == 0 {
      isLeap := true;
    } else {
      if rem >= 200 {
        if rem >= 300 { centuries := 3; rem := rem - 300; }
        else { centuries := 2; rem := rem - 200; }
      } else {
        if rem >= 100 { centuries := 1; rem := rem - 100; }
        else { centuries := 0; }
      }
      if rem == 0 {
        isLeap := false;
        leaps := 0;
      } else {
        leaps := rem / 4;
        isLeap := rem % 4 == 0;
      }
    }
    assert r == 100 * centuries + rem;
    FarFacts(year, cycles, centuries, rem);
    leap := Some(isLeap);
    var total := U64(leaps + 97 * cycles + 24 * centuries - (if isLeap then 1 else 0));
    sec := U64(U64(U64(y - 100) * 31536000) + U64(total * DAY) + 946684800 + 86400);
    Folds(y - 100, leaps + 97 * cycles + 24 * centuries - (if isLeap then 1 else 0));
  }

  /** Reducing on the way changes nothing. */
  lemma Folds(a: nat, b: nat)
    ensures U64(U64(U64(a) * 31536000) + U64(U64(b) * DAY) + 946684800 + 86400) ==
            U64(a * 31536000 + b * DAY + 946684800 + 86400)
  {
    var p, q := U64(a) * 31536000, U64(b) * DAY;
    var i, j := a / M, b / M;
    assert a == i * M + U64(a) && b == j * M + U64(b);
    assert p == p / M * M + U64(p) && q == q / M * M + U64(q);
    SameU64(a * 31536000 + b * DAY + 946684800 + 86400, U64(p) + U64(q) + 946684800 + 86400,
            i * 31536000 + j * DAY + p / M + q / M);
  }

  lemma LeapsBound(year: int)
    requires -1 <= year < 1902
    ensures -20 <= Leaps(year) <= 480
  {
  }

  lemma NegativeDays(d: int)
    requires -800_000 < d < 0
    ensures U64(DAY * d) != 0
  {
    SameU64(DAY * d, DAY * d + M, -1);
  }

  /** Zero is wrong for every year before 1902. */
  lemma EarlyYears(year: nat)
    requires year < 1902
    ensures U64(DAY * Days(year)) != 0
  {
    DaysClosed(year);
    LeapsBound(year - 1);
    assert -800_000 < Days(year) < 0;
    NegativeDays(Days(year));
  }

  // ---------- months ----------

  /** Seconds at the start of each month of a common year. */
  const MSEC: seq<nat> := [0, 31 * 86400, 59 * 86400, 90 * 86400, 120 * 86400, 151 * 86400,
                           181 * 86400, 212 * 86400, 243 * 86400, 273 * 86400, 304 * 86400, 334 * 86400]

  method MToSec(month: nat, isLeap: bool) returns (t: nat)
    requires month < 12
    ensures t == DAY * MonthDays(month, isLeap)
  {
    t := MSEC[month];
    if isLeap && month >= 2 { t := t + 86400; }
    MonthTable(month, isLeap);
  }

  /** January is month 0. */
  function MonthLength(month: nat, leap: bool): nat {
    if month == 1 then (if leap then 29 else 28)
    else if month in {3, 5, 8, 10} then 30
    else 31
  }

  /** Days of the year before `month`, one month at a time. */
  function MonthDays(month: nat, leap: bool): nat {
    if month == 0 then 0 else MonthDays(month - 1, leap) + MonthLength(month - 1, leap)
  }

  lemma {:induction false} MonthTable(month: nat, leap: bool)
    requires month < 12
    ensures MSEC[month] + (if leap && month >= 2 then 86400 else 0) == DAY * MonthDays(month, leap)
  {
    if month > 0 { MonthTable(month - 1, leap); }
  }

  /** The months of a year make up the year. */
  lemma MonthsFillYear(year: int)
    ensures MonthDays(12, IsLeap(year)) == YearLength(year)
  {
    MonthTable(11, IsLeap(year));
  }

  /** The sum rtc_get_time takes: the exact start of a month. */
  method MonthStart(year: nat, month: nat) returns (sec: nat)
    requires 1902 <= year < M && month < 12
    ensures sec == U64(DAY * (Days(year) + MonthDays(month, IsLeap(year))))
  {
    var y, leap := YToSec(year);
    var m := MToSec(month, leap.value);
    sec := U64(y + m);
    ghost var x := DAY * Days(year);
    assert x == x / M * M + y;
    SameU64(x + m, y + m, x / M);
  }
}
