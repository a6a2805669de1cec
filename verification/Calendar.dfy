/** The proleptic Gregorian calendar and the ISO 8601 week calendar, as far as period
    derivation needs them. Day 0 is 0000-01-01, a Saturday; instants are seconds from its midnight, UTC. */
module Calendar {

  const SECONDS_PER_DAY: int := 86400

  function DayOf(instant: int): int {
    instant / SECONDS_PER_DAY
  }

  predicate IsLeap(y: int) {
    y % 4 == 0 && (y % 100 != 0 || y % 400 == 0)
  }

  /** The day on which year `y` starts: 365 days a year and one more for each leap year before `y`. */
  function YearStart(y: int): int {
    365 * y + (y + 3) / 4 - (y + 99) / 100 + (y + 399) / 400
  }

  /** Moving one step past `y` crosses a multiple of `k` exactly when `y` is one. */
  lemma CeilingStep(y: int, k: int)
    requires 0 < k
    ensures (y + k) / k - (y + k - 1) / k == if y % k == 0 then 1 else 0
  {
    var q := y / k;
    var r := y % k;
    assert y == k * q + r;
    QuotientIs(y + k, k, q + 1, r);
    if r == 0 {
      QuotientIs(y + k - 1, k, q, k - 1);
    } else {
      QuotientIs(y + k - 1, k, q + 1, r - 1);
    }
  }

  lemma QuotientIs(n: int, k: int, q: int, r: int)
    requires 0 <= r < k && n == k * q + r
    ensures n / k == q && n % k == r
  {
    var d := n / k - q;
    assert n == k * (n / k) + n % k;
    assert k * d == r - n % k by {
      assert k * d == k * (n / k) - k * q;
    }
    ProductBounds(k, d);
  }

  lemma ProductBounds(k: int, d: int)
    requires 0 < k
    ensures d >= 1 ==> k * d >= k
    ensures d <= -1 ==> k * d <= -k
  {
  }

  lemma YearLength(y: int)
    ensures YearStart(y + 1) - YearStart(y) == if IsLeap(y) then 366 else 365
  {
    CeilingStep(y, 4);
    CeilingStep(y, 100);
    CeilingStep(y, 400);
    if y % 400 == 0 {
      assert y % 100 == 0 by { QuotientIs(y, 100, 4 * (y / 400), 0); }
    }
    if y % 100 == 0 {
      assert y % 4 == 0 by { QuotientIs(y, 4, 25 * (y / 100), 0); }
    }
  }

  lemma {:induction false} YearStartMonotone(y: int, z: int)
    requires y < z
    ensures YearStart(y) + 365 * (z - y) <= YearStart(z)
    decreases z - y
  {
    YearLength(y);
    if y + 1 < z {
      YearStartMonotone(y + 1, z);
    }
  }

  /** The year a day falls in, found by walking from a year known to start on or before the day. */
  function YearFrom(y: int, day: int): (r: int)
    requires YearStart(y) <= day
    ensures YearStart(r) <= day < YearStart(r + 1)
    decreases day - YearStart(y)
  {
    YearLength(y);
    if day < YearStart(y + 1) then y else YearFrom(y + 1, day)
  }

  function YearOf(day: int): (y: int)
    ensures YearStart(y) <= day < YearStart(y + 1)
  {
    if day >= 0 then YearFrom(0, day)
    else
      YearStartMonotone(day, 0);
      YearFrom(day, day)
  }

  /** `YearOf` is the only year whose days include `day`. */
  lemma YearUnique(day: int, y: int)
    ensures YearOf(day) < y <==> day < YearStart(y)
    ensures YearOf(day) == y <==> YearStart(y) <= day < YearStart(y + 1)
  {
    var z := YearOf(day);
    if z < y {
      StartsAfter(z, y);
    } else if y < z {
      StartsAfter(y, z);
    }
  }

  lemma StartsAfter(y: int, z: int)
    requires y < z
    ensures YearStart(y) < YearStart(y + 1) <= YearStart(z)
  {
    YearsAreLong(y);
    if y + 1 < z { YearStartMonotone(y + 1, z); }
  }

  /** Days of the year before month `m`; month 13 stands for the end of the year. */
  function MonthStart(m: int, leap: bool): int
    requires 1 <= m <= 13
  {
    var extra := if leap && m > 2 then 1 else 0;
    extra + [0, 31, 59, 90, 120, 151, 181, 212, 243, 273, 304, 334, 365][m - 1]
  }

  function MonthFrom(m: int, dayOfYear: int, leap: bool): (r: int)
    requires 1 <= m <= 12
    requires MonthStart(m, leap) <= dayOfYear < MonthStart(13, leap)
    ensures 1 <= r <= 12
    ensures MonthStart(r, leap) <= dayOfYear < MonthStart(r + 1, leap)
    decreases 12 - m
  {
    if dayOfYear < MonthStart(m + 1, leap) then m else MonthFrom(m + 1, dayOfYear, leap)
  }

  lemma DayOfYear(day: int)
    ensures var leap := IsLeap(YearOf(day));
            MonthStart(1, leap) <= day - YearStart(YearOf(day)) < MonthStart(13, leap)
  {
    YearLength(YearOf(day));
  }

  function MonthOf(day: int): (m: int)
    ensures 1 <= m <= 12
    ensures MonthStart(m, IsLeap(YearOf(day))) <= day - YearStart(YearOf(day)) < MonthStart(m + 1, IsLeap(YearOf(day)))
  {
    var y := YearOf(day);
    DayOfYear(day);
    MonthFrom(1, day - YearStart(y), IsLeap(y))
  }

  lemma MonthStartMonotone(m: int, n: int, leap: bool)
    requires 1 <= m < n <= 13
    ensures MonthStart(m, leap) < MonthStart(n, leap)
  {
  }

  // ---------- the lengths of years and months ----------

  /** A leap year has 366 days, every other year 365. */
  lemma YearLengths(y: int)
    ensures YearStart(0) == 0
    ensures YearStart(y + 1) - YearStart(y) == if (y % 4 == 0 && y % 100 != 0) || y % 400 == 0 then 366 else 365
  {
    YearLength(y);
    if y % 400 == 0 {
      assert y % 4 == 0 by { QuotientIs(y, 4, 100 * (y / 400), 0); }
    }
  }

  function MonthLength(m: int, leap: bool): int {
    if m == 2 then (if leap then 29 else 28)
    else if m == 4 || m == 6 || m == 9 || m == 11 then 30
    else 31
  }

  /** The days before month `m`, counted month by month. */
  function DaysBefore(m: int, leap: bool): int
    decreases m
  {
    if m <= 1 then 0 else DaysBefore(m - 1, leap) + MonthLength(m - 1, leap)
  }

  /** The table holds the sums of the month lengths. */
  lemma {:induction false} MonthTable(m: int, leap: bool)
    requires 1 <= m <= 13
    ensures MonthStart(m, leap) == DaysBefore(m, leap)
    ensures m <= 12 ==> MonthStart(m + 1, leap) - MonthStart(m, leap) == MonthLength(m, leap)
    decreases m
  {
    if m > 1 {
      MonthTable(m - 1, leap);
    }
  }

  // ---------- ISO 8601 weeks (section 4.1.4 of ISO 8601:2004) ----------

  /** The Monday on or before `day`. */
  function Monday(day: int): int {
    day - (day - 2) % 7
  }

  /** A week belongs to the year that holds its Thursday. */
  function IsoYear(day: int): int {
    YearOf(Monday(day) + 3)
  }

  function IsoWeek(day: int): (w: int)
    ensures 1 <= w <= 53
  {
    var thursday := Monday(day) + 3;
    YearLength(YearOf(thursday));
    (thursday - YearStart(YearOf(thursday))) / 7 + 1
  }

  /** Week numbers order the weeks of a week-year as their Mondays do. */
  lemma WeekOrder(c: int, d: int)
    requires IsoYear(c) == IsoYear(d)
    ensures IsoWeek(c) < IsoWeek(d) <==> Monday(c) < Monday(d)
  {
    MondayResidue(c);
    MondayResidue(d);
    var k := Monday(d) / 7 - Monday(c) / 7;
    var s := Monday(c) + 3 - YearStart(IsoYear(c));
    assert Monday(d) - Monday(c) == 7 * k;
    QuotientIs(s + 7 * k, 7, s / 7 + k, s % 7);
    assert IsoWeek(d) == IsoWeek(c) + k;
  }

  lemma MondayResidue(day: int)
    ensures Monday(day) % 7 == 2
  {
    var q := (day - 2) / 7;
    assert day - 2 == 7 * q + (day - 2) % 7;
    assert Monday(day) == 7 * q + 2;
  }

  /** For weeks, `c` lies before the week of `d` exactly when it lies before that week's Monday. */
  lemma MondayOrder(c: int, d: int)
    ensures Monday(c) < Monday(d) <==> c < Monday(d)
  {
    MondayResidue(c);
    MondayResidue(d);
    var p := Monday(c) / 7;
    var q := Monday(d) / 7;
    assert Monday(c) == 7 * p + 2 && Monday(d) == 7 * q + 2;
    if Monday(c) < Monday(d) {
      assert p < q;
    }
  }

  /** The days count from the Unix epoch as they should: 1970-01-01 is day 719528, a Thursday. */
  lemma UnixEpoch()
    ensures YearStart(1970) == 719528 && Monday(YearStart(1970)) + 3 == YearStart(1970)
  {
  }

  /** The week rule in its other usual form: 4 January always lies in week 1 of its own year. */
  lemma FourthOfJanuary(y: int)
    ensures IsoYear(YearStart(y) + 3) == y && IsoWeek(YearStart(y) + 3) == 1
  {
    var d := YearStart(y) + 3;
    var start := YearStart(y);
    assert start <= Monday(d) + 3 < start + 7;
    YearsAreLong(y);
    YearUnique(Monday(d) + 3, y);
    QuotientIs(Monday(d) + 3 - start, 7, 0, Monday(d) + 3 - start);
  }

  lemma NextMonday(day: int)
    ensures Monday(day + 7) == Monday(day) + 7
  {
    QuotientIs(day + 5, 7, (day - 2) / 7 + 1, (day - 2) % 7);
  }

  lemma YearsAreLong(y: int)
    ensures YearStart(y) + 365 <= YearStart(y + 1)
  {
    YearLength(y);
  }

  lemma SameYear(day: int, later: int)
    requires day <= later < YearStart(YearOf(day) + 1)
    ensures YearOf(later) == YearOf(day)
  {
    YearUnique(later, YearOf(day));
  }

  lemma NextYear(day: int, later: int)
    requires YearStart(YearOf(day) + 1) <= later < YearStart(YearOf(day) + 1) + 365
    ensures YearOf(later) == YearOf(day) + 1
  {
    YearsAreLong(YearOf(day) + 1);
    YearUnique(later, YearOf(day) + 1);
  }

  /** A week after `day` is in the same year, or in the first seven days of the next. */
  lemma WeekLater(day: int)
    ensures YearOf(day + 7) == if day + 7 < YearStart(YearOf(day) + 1) then YearOf(day) else YearOf(day) + 1
  {
    if day + 7 < YearStart(YearOf(day) + 1) {
      SameYear(day, day + 7);
    } else {
      NextYear(day, day + 7);
    }
  }

  /** Week numbers run on: the week after one is the next of its year or week 1 of the next. */
  lemma NextWeek(day: int)
    ensures if IsoYear(day + 7) == IsoYear(day) then IsoWeek(day + 7) == IsoWeek(day) + 1
            else IsoYear(day + 7) == IsoYear(day) + 1 && IsoWeek(day + 7) == 1
  {
    NextMonday(day);
    var thursday := Monday(day) + 3;
    WeekLater(thursday);
    var s := thursday - YearStart(YearOf(thursday));
    QuotientIs(s + 7, 7, s / 7 + 1, s % 7);
  }
}
