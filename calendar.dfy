/**
 * Proleptic Gregorian calendar over epoch days (day 0 is 1970-01-01, a
 * Thursday), as pandas Timestamps index the tables: day of week, month, year,
 * `DateOffset(years = n)` subtraction and the `BusinessDay(n)` offset.
 */
module Calendar {

  datatype Civil = Civil(year: int, month: int, day: int)

  predicate IsLeapYear(y: int)
  {
    y % 4 == 0 && (y % 100 != 0 || y % 400 == 0)
  }

  function DaysInMonth(y: int, m: int): (n: int)
    requires 1 <= m <= 12
    ensures 28 <= n <= 31
  {
    if m == 2 then (if IsLeapYear(y) then 29 else 28)
    else if m == 4 || m == 6 || m == 9 || m == 11 then 30
    else 31
  }

  predicate ValidCivil(c: Civil)
  {
    1 <= c.month <= 12 && 1 <= c.day <= DaysInMonth(c.year, c.month)
  }

  /** Day of the year counted from March 1 (0 .. 365), for month m and day d. */
  function DayOfShiftedYear(m: int, d: int): int
  {
    (153 * (if m > 2 then m - 3 else m + 9) + 2) / 5 + d - 1
  }

  /** Epoch day of a civil date (the days-from-civil algorithm of H. Hinnant). */
  function DaysFromCivil(c: Civil): int
  {
    var y := if c.month <= 2 then c.year - 1 else c.year;
    var era := y / 400;
    var yoe := y - era * 400;
    var doy := DayOfShiftedYear(c.month, c.day);
    var doe := yoe * 365 + yoe / 4 - yoe / 100 + doy;
    era * 146097 + doe - 719468
  }

  /**
   * Civil date of an epoch day: the day of the 400-year era is split into
   * centuries, four-year cycles and years counted from March 1, the inverse of
   * `DaysFromCivil`.
   */
  function CivilFromDays(z: int): (c: Civil)
    ensures 1 <= c.month <= 12 && 1 <= c.day <= 31
    ensures DaysFromCivil(c) == z
  {
    var zz := z + 719468;
    var era := zz / 146097;
    var doe := zz % 146097;
    var cen := if doe / 36524 < 3 then doe / 36524 else 3;
    var e := doe - 36524 * cen;
    var cyc := e / 1461;
    var g := e - 1461 * cyc;
    var yic := if g / 365 < 3 then g / 365 else 3;
    var doy := g - 365 * yic;
    var yoe := 100 * cen + 4 * cyc + yic;
    EraParts(doe, cen, e, cyc, g, yic);
    var mp := (5 * doy + 2) / 153;
    var d := doy - (153 * mp + 2) / 5 + 1;
    var m := if mp < 10 then mp + 3 else mp - 9;
    assert DayOfShiftedYear(m, d) == doy;
    var y := yoe + era * 400;
    ShiftedMonth(doy, mp, d);
    var c := Civil(if m <= 2 then y + 1 else y, m, d);
    DaysFromCivilOfParts(c, era, yoe, doy);
    c
  }

  /** `DaysFromCivil` of a date given by its era, year of the era and day of the March-based year. */
  lemma DaysFromCivilOfParts(c: Civil, era: int, yoe: int, doy: int)
    requires 0 <= yoe < 400 && 1 <= c.month <= 12
    requires (if c.month <= 2 then c.year - 1 else c.year) == yoe + era * 400
    requires DayOfShiftedYear(c.month, c.day) == doy
    ensures DaysFromCivil(c) == era * 146097 + (yoe * 365 + yoe / 4 - yoe / 100 + doy) - 719468
  {
    var y := if c.month <= 2 then c.year - 1 else c.year;
    DivOfEra(yoe, era);
    assert y / 400 == era;
    assert y - era * 400 == yoe;
  }

  /** What the era split of `CivilFromDays` computes: a year of the era and a day of that year. */
  lemma EraParts(doe: int, cen: int, e: int, cyc: int, g: int, yic: int)
    requires 0 <= doe < 146097
    requires cen == (if doe / 36524 < 3 then doe / 36524 else 3) && e == doe - 36524 * cen
    requires cyc == e / 1461 && g == e - 1461 * cyc
    requires yic == (if g / 365 < 3 then g / 365 else 3)
    ensures var yoe := 100 * cen + 4 * cyc + yic; var doy := g - 365 * yic;
      0 <= doy <= 365 && 0 <= yoe < 400 && yoe / 4 == 25 * cen + cyc && yoe / 100 == cen
      && yoe * 365 + yoe / 4 - yoe / 100 + doy == doe
  {
    assert 0 <= cen <= 3 && 0 <= e <= 36524;
    assert 0 <= cyc <= 24 && 0 <= g < 1461;
    assert 0 <= yic <= 3 && 0 <= g - 365 * yic <= 365;
    var yoe := 100 * cen + 4 * cyc + yic;
    assert yoe == 4 * (25 * cen + cyc) + yic;
    assert yoe / 4 == 25 * cen + cyc;
    assert yoe == 100 * cen + (4 * cyc + yic) && 0 <= 4 * cyc + yic < 100;
    assert yoe / 100 == cen;
  }

  /** The month split of a day counted from March 1. */
  lemma ShiftedMonth(doy: int, mp: int, d: int)
    requires 0 <= doy <= 365 && mp == (5 * doy + 2) / 153 && d == doy - (153 * mp + 2) / 5 + 1
    ensures 0 <= mp <= 11 && 1 <= d <= 31
  {
    assert 153 * mp <= 5 * doy + 2 < 153 * mp + 153;
    assert 5 * ((153 * mp + 2) / 5) <= 153 * mp + 2 < 5 * ((153 * mp + 2) / 5) + 5;
  }

  lemma DivOfEra(yoe: int, era: int)
    requires 0 <= yoe < 400
    ensures (yoe + era * 400) / 400 == era
  {
  }

  /** `DaysFromCivil` as a closed formula in the March-based year. */
  lemma DaysFromCivilFormula(c: Civil)
    ensures var y := if c.month <= 2 then c.year - 1 else c.year;
      DaysFromCivil(c) == 365 * y + y / 4 - y / 100 + y / 400 + DayOfShiftedYear(c.month, c.day) - 719468
  {
    var y := if c.month <= 2 then c.year - 1 else c.year;
    var era := y / 400;
    var yoe := y - era * 400;
    assert y == era * 400 + yoe;
    YearStartOfEra(era, yoe);
  }

  /** The days before March 1 of a year, split at its 400-year era. */
  lemma YearStartOfEra(era: int, yoe: int)
    requires 0 <= yoe < 400
    ensures var y := era * 400 + yoe;
      365 * y + y / 4 - y / 100 + y / 400 == era * 146097 + yoe * 365 + yoe / 4 - yoe / 100
  {
    var y := era * 400 + yoe;
    assert y == 4 * (era * 100) + yoe;
    assert y / 4 == era * 100 + yoe / 4;
    assert y == 100 * (era * 4) + yoe;
    assert y / 100 == era * 4 + yoe / 100;
    assert y / 400 == era;
  }

  lemma YearStartMonotone(y1: int, y2: int)
    requires y1 <= y2
    ensures 365 * y1 + y1 / 4 - y1 / 100 + y1 / 400 <= 365 * y2 + y2 / 4 - y2 / 100 + y2 / 400
  {
  }

  /** An earlier year with the same month and a day not later gives an earlier epoch day. */
  lemma DaysFromCivilMonotone(y1: int, y2: int, m: int, d1: int, d2: int)
    requires y1 <= y2 && 1 <= m <= 12 && d1 <= d2
    ensures DaysFromCivil(Civil(y1, m, d1)) <= DaysFromCivil(Civil(y2, m, d2))
  {
    DaysFromCivilFormula(Civil(y1, m, d1));
    DaysFromCivilFormula(Civil(y2, m, d2));
    var s1 := if m <= 2 then y1 - 1 else y1;
    var s2 := if m <= 2 then y2 - 1 else y2;
    YearStartMonotone(s1, s2);
  }

  /**
   * `z - DateOffset(years = n)`: the same month and day `n` years earlier, the
   * day clipped to the length of that month (February 29 becomes February 28).
   */
  function MinusYears(z: int, n: int): int
  {
    YearsBack(CivilFromDays(z), n)
  }

  /** The same month `n` years before `c`, its day clamped to that month's length, as an epoch day. */
  function YearsBack(c: Civil, n: int): int
    requires 1 <= c.month <= 12
  {
    var y := c.year - n;
    var dim := DaysInMonth(y, c.month);
    DaysFromCivil(Civil(y, c.month, if c.day <= dim then c.day else dim))
  }

  /** Going back a non-negative number of years never yields a later day. */
  lemma MinusYearsNotLater(z: int, n: int)
    requires n >= 0
    ensures MinusYears(z, n) <= z
  {
    ClampedYearsBack(CivilFromDays(z), n);
  }

  /** The same month `n` years earlier, its day clamped to that month's length, is not later. */
  lemma ClampedYearsBack(c: Civil, n: int)
    requires n >= 0 && 1 <= c.month <= 12
    ensures YearsBack(c, n) <= DaysFromCivil(c)
  {
    var y := c.year - n;
    var dim := DaysInMonth(y, c.month);
    var d := if c.day <= dim then c.day else dim;
    assert YearsBack(c, n) == DaysFromCivil(Civil(y, c.month, d));
    assert c == Civil(c.year, c.month, c.day);
    DaysFromCivilMonotone(y, c.year, c.month, d, c.day);
  }

  /** pandas `dayofweek`: Monday is 0, Sunday is 6. */
  function Weekday(z: int): (w: int)
    ensures 0 <= w < 7
  {
    (z + 3) % 7
  }

  predicate IsBusinessDay(z: int)
  {
    Weekday(z) < 5
  }

  function Month(z: int): (m: int)
    ensures 1 <= m <= 12
  {
    CivilFromDays(z).month
  }

  function Year(z: int): int
  {
    CivilFromDays(z).year
  }

  lemma WeekdayPlus(z: int, k: int)
    ensures Weekday(z + k) == (Weekday(z) + k) % 7
  {
    var q := (z + 3) / 7;
    var x := Weekday(z) + k;
    assert z + 3 == 7 * q + Weekday(z);
    assert x == 7 * (x / 7) + x % 7;
    assert z + k + 3 == 7 * (q + x / 7) + x % 7;
  }

  lemma WeekdayShift(z: int, k: int)
    ensures Weekday(z + 7 * k) == Weekday(z)
  {
    WeekdayPlus(z, 7 * k);
  }

  /** The first Monday-to-Friday day strictly after `z`. */
  function NextBusinessDay(z: int): (r: int)
    ensures z < r <= z + 3 && IsBusinessDay(r)
  {
    var w := Weekday(z);
    WeekdayPlus(z, 1);
    WeekdayPlus(z, 2);
    WeekdayPlus(z, 3);
    if w == 4 then z + 3 else if w == 5 then z + 2 else z + 1
  }

  /** No business day lies strictly between `z` and `NextBusinessDay(z)`. */
  lemma NextBusinessDayIsFirst(z: int, k: int)
    requires z < k < NextBusinessDay(z)
    ensures !IsBusinessDay(k)
  {
    WeekdayPlus(z, k - z);
  }

  /** The `n`-th Monday-to-Friday day after `z` (no holiday calendar). */
  function NthBusinessDayAfter(z: int, n: nat): (r: int)
    ensures r >= z
    ensures n >= 1 ==> IsBusinessDay(r) && r > z
  {
    if n == 0 then z else NextBusinessDay(NthBusinessDayAfter(z, n - 1))
  }

  /** pandas `Timestamp + BusinessDay(n)` (the whole-week fast path of its `_apply`). */
  function AddBusinessDays(z: int, n: int): int
  {
    var wday := Weekday(z);
    var weeks := n / 5;
    var n1 := if n <= 0 && wday > 4 then n + 1 else n;
    var n2 := n1 - 5 * weeks;
    var days :=
      if n2 == 0 && wday > 4 then 4 - wday
      else if wday > 4 then (7 - wday) + (n2 - 1)
      else if wday + n2 <= 4 then n2
      else n2 + 2;
    z + 7 * weeks + days
  }

  lemma {:induction false} NthShift(z: int, n: nat, k: int)
    ensures NthBusinessDayAfter(z + 7 * k, n) == NthBusinessDayAfter(z, n) + 7 * k
  {
    if n > 0 {
      NthShift(z, n - 1, k);
      WeekdayShift(NthBusinessDayAfter(z, n - 1), k);
    }
  }

  lemma {:induction false} NthCompose(z: int, n: nat, m: nat)
    ensures NthBusinessDayAfter(z, n + m) == NthBusinessDayAfter(NthBusinessDayAfter(z, n), m)
  {
    if m > 0 {
      NthCompose(z, n, m - 1);
    }
  }

  /** Up to five business days from a business day, by its weekday. */
  lemma {:induction false} FewBusinessDays(b: int, r: nat)
    requires IsBusinessDay(b) && r <= 5
    ensures NthBusinessDayAfter(b, r) == b + (if Weekday(b) + r <= 4 then r else r + 2)
  {
    if r > 0 {
      FewBusinessDays(b, r - 1);
      if Weekday(b) + r - 1 <= 4 {
        WeekdayPlus(b, r - 1);
      } else {
        WeekdayPlus(b, r + 1);
      }
    }
  }

  lemma {:induction false} WholeWeeks(b: int, w: nat)
    requires IsBusinessDay(b)
    ensures NthBusinessDayAfter(b, 5 * w) == b + 7 * w
  {
    if w > 0 {
      var p := b + 7 * (w - 1);
      WholeWeeks(b, w - 1);
      NthCompose(b, 5 * (w - 1), 5);
      assert 5 * (w - 1) + 5 == 5 * w && p + 7 == b + 7 * w;
      WeekdayShift(b, w - 1);
      FewBusinessDays(p, 5);
    }
  }

  /** Counting business days from a business day: whole weeks, then the rest. */
  lemma NthFromBusinessDay(b: int, n: nat)
    requires IsBusinessDay(b)
    ensures NthBusinessDayAfter(b, n) ==
      b + 7 * (n / 5) + (if Weekday(b) + n % 5 <= 4 then n % 5 else n % 5 + 2)
  {
    var q := n / 5;
    var r := n % 5;
    assert n == 5 * q + r;
    WeeksThenRest(b, q, r);
  }

  /** `5 * q + r` business days from a business day: `q` whole weeks, then `r < 5` more days. */
  lemma WeeksThenRest(b: int, q: nat, r: nat)
    requires IsBusinessDay(b) && r < 5
    ensures NthBusinessDayAfter(b, 5 * q + r) == b + 7 * q + (if Weekday(b) + r <= 4 then r else r + 2)
  {
    NthCompose(b, 5 * q, r);
    WholeWeeks(b, q);
    NthShift(b, r, q);
    FewBusinessDays(b, r);
  }

  /** From a weekend day, counting on is the same as counting from the Friday before. */
  lemma WeekendCountsFromFriday(z: int, n: nat)
    requires Weekday(z) > 4 && n >= 1
    ensures NthBusinessDayAfter(z, n) == NthBusinessDayAfter(z - (Weekday(z) - 4), n)
  {
    var f := z - (Weekday(z) - 4);
    WeekdayPlus(f, Weekday(z) - 4);
    WeekdayPlus(z, 4 - Weekday(z));
    assert Weekday(f) == 4;
    NthCompose(z, 1, n - 1);
    NthCompose(f, 1, n - 1);
    assert NthBusinessDayAfter(z, 1) == NextBusinessDay(z);
    assert NthBusinessDayAfter(f, 1) == NextBusinessDay(f);
  }

  /** For `n >= 1` the pandas offset lands on the `n`-th weekday after `z`. */
  lemma AddBusinessDaysCorrect(z: int, n: int)
    requires n >= 1
    ensures AddBusinessDays(z, n) == NthBusinessDayAfter(z, n)
  {
    var wday := Weekday(z);
    var q := n / 5;
    var r := n % 5;
    assert n - 5 * q == r;
    var days :=
      if r == 0 && wday > 4 then 4 - wday
      else if wday > 4 then (7 - wday) + (r - 1)
      else if wday + r <= 4 then r
      else r + 2;
    assert AddBusinessDays(z, n) == z + 7 * q + days;
    if wday > 4 {
      FromWeekend(z, n);
    } else {
      NthFromBusinessDay(z, n);
    }
  }

  /** From a Saturday or Sunday: whole weeks from the Friday before, then the rest. */
  lemma FromWeekend(z: int, n: nat)
    requires Weekday(z) > 4 && n >= 1
    ensures NthBusinessDayAfter(z, n) ==
      z + 7 * (n / 5) + (if n % 5 == 0 then 4 - Weekday(z) else (7 - Weekday(z)) + (n % 5 - 1))
  {
    var w := Weekday(z);
    var f := z - (w - 4);
    WeekendCountsFromFriday(z, n);
    WeekdayPlus(z, 4 - w);
    assert Weekday(f) == 4;
    NthFromBusinessDay(f, n);
    var q := n / 5;
    var r := n % 5;
    assert NthBusinessDayAfter(z, n) == f + 7 * q + (if r == 0 then 0 else r + 2);
  }

}
