/** The monthly accumulation series refines the yearly one: merging its bars by year, keeping each
    year's last cumulative value, gives exactly the bars the yearly mode computes. */
module YearlyRefinement {
  import opened Text
  import opened Calendar
  import opened Periods
  import opened Sums
  import opened Ordered
  import opened Accumulation

  /** One month's bar joins the years so far. */
  function AddMonth(years: seq<Bar>, bar: Bar): seq<Bar>
    requires |bar.bucket| >= 4
  {
    var m := |years| - 1;
    var y := bar.bucket[..4];
    if years != [] && years[m].bucket == y then
      years[..m] + [Bar(y, years[m].periodCents + bar.periodCents, bar.cumulativeCents)]
    else years + [Bar(y, bar.periodCents, bar.cumulativeCents)]
  }

  /** Merge the bars by the four characters of their year. */
  function MergeYears(bars: seq<Bar>): seq<Bar>
    requires forall i :: 0 <= i < |bars| ==> |bars[i].bucket| >= 4
  {
    if bars == [] then [] else AddMonth(MergeYears(bars[..|bars| - 1]), bars[|bars| - 1])
  }

  /** A month key starts with its year key, and the order of month keys extends that of year keys. */
  ghost predicate Refines(month: Keying, year: Keying, points: seq<Point>) {
    (forall p :: p in points ==> |month(p)| >= 4 && month(p)[..4] == year(p))
    && (forall p, q :: p in points && q in points && AtMost(month(p), month(q)) ==> AtMost(year(p), year(q)))
  }

  /** The calendar keys refine each other for the years that print as four digits. */
  lemma MonthKeyRefines(p: Point, q: Point)
    requires PrintableInstant(p.submittedAt) && PrintableInstant(q.submittedAt)
    ensures |MonthKey()(p)| == 7 && MonthKey()(p)[..4] == YearKey()(p)
    ensures AtMost(MonthKey()(p), MonthKey()(q)) ==> AtMost(YearKey()(p), YearKey()(q))
  {
    var d, e := DayOf(p.submittedAt), DayOf(q.submittedAt);
    PrintableDays(Monthly, d);
    PrintableDays(Monthly, e);
    PrintShape(PeriodAt(Monthly, d));
    PrintShape(PeriodAt(Monthly, e));
    var s, t := "-" + Padded(MonthOf(d), 2), "-" + Padded(MonthOf(e), 2);
    assert MonthKey()(p) == YearKey()(p) + s && MonthKey()(q) == YearKey()(q) + t;
    LessAppend(YearKey()(p), YearKey()(q), s, t);
  }

  // ---------- taking the last month away ----------

  /** The points outside one month. */
  function Outside(points: seq<Point>, month: Keying, k: string): seq<Point> {
    if points == [] then []
    else
      var front, p := Outside(points[..|points| - 1], month, k), points[|points| - 1];
      if month(p) == k then front else front + [p]
  }

  function MaskedOutside(month: Keying, k: string, f: Point -> int): Point -> int {
    (p: Point) => if month(p) == k then 0 else f(p)
  }

  lemma {:induction false} OutsideSum(points: seq<Point>, month: Keying, k: string, f: Point -> int)
    ensures SeqSum(Outside(points, month, k), f) == SeqSum(points, MaskedOutside(month, k, f))
  {
    if points != [] {
      OutsideSum(points[..|points| - 1], month, k, f);
      var front, p := Outside(points[..|points| - 1], month, k), points[|points| - 1];
      if month(p) != k {
        assert (front + [p])[..|front|] == front;
      }
    }
  }

  lemma {:induction false} OutsideMembers(points: seq<Point>, month: Keying, k: string, p: Point)
    ensures p in Outside(points, month, k) <==> p in points && month(p) != k
  {
    if points != [] {
      var init, x := points[..|points| - 1], points[|points| - 1];
      OutsideMembers(init, month, k, p);
      assert points == init + [x];
    }
  }

  lemma HasKeyMember(points: seq<Point>, key: Keying, k: string)
    ensures HasKey(points, key, k) <==> exists p :: p in points && key(p) == k
  {
    if HasKey(points, key, k) {
      var i :| 0 <= i < |points| && key(points[i]) == k;
      assert points[i] in points;
    }
    if p :| p in points && key(p) == k {
      var i :| 0 <= i < |points| && points[i] == p;
    }
  }

  lemma HasKeyOutside(points: seq<Point>, month: Keying, last: string, k: string)
    ensures HasKey(Outside(points, month, last), month, k) <==> HasKey(points, month, k) && k != last
  {
    var rest := Outside(points, month, last);
    HasKeyMember(points, month, k);
    HasKeyMember(rest, month, k);
    forall p ensures p in rest <==> p in points && month(p) != last {
      OutsideMembers(points, month, last, p);
    }
  }

  /** Taking the last month away leaves the series of the remaining points. */
  lemma SeriesFront(points: seq<Point>, month: Keying, seed: int, bars: seq<Bar>)
    requires IsSeries(points, month, seed, bars) && bars != []
    ensures IsSeries(Outside(points, month, bars[|bars| - 1].bucket), month, seed, bars[..|bars| - 1])
  {
    var n := |bars| - 1;
    var last := bars[n].bucket;
    var rest := Outside(points, month, last);
    var keys := Buckets(bars);
    assert Buckets(bars[..n]) == keys[..n];
    forall k ensures k in keys[..n] <==> HasKey(rest, month, k) {
      FrontMembers(keys, k);
      HasKeyOutside(points, month, last, k);
    }
    forall i | 0 <= i < n
      ensures bars[i].periodCents == SeqSum(rest, InBucket(month, bars[i].bucket))
      ensures bars[i].cumulativeCents == seed + SeqSum(rest, UpTo(month, bars[i].bucket))
    {
      var k := bars[i].bucket;
      AscendingNoRepeats(keys, i, n);
      LessAsymmetric(k, last);
      OutsideSum(points, month, last, InBucket(month, k));
      OutsideSum(points, month, last, UpTo(month, k));
      SeqSumSame(points, InBucket(month, k), MaskedOutside(month, last, InBucket(month, k)));
      SeqSumSame(points, UpTo(month, k), MaskedOutside(month, last, UpTo(month, k)));
    }
  }

  // ---------- what the last month adds to the years ----------

  lemma NoKeyNoSum(points: seq<Point>, key: Keying, k: string)
    requires !HasKey(points, key, k)
    ensures SeqSum(points, InBucket(key, k)) == 0
  {
    SeqSumNonNegative(points, InBucket(key, k));
  }

  /** The latest month `last` and its year `y` in a collection of points. */
  ghost predicate Latest(points: seq<Point>, month: Keying, year: Keying, last: string, y: string) {
    HasKey(points, month, last)
    && (forall i :: 0 <= i < |points| ==> AtMost(month(points[i]), last) && AtMost(year(points[i]), y))
    && (forall i :: 0 <= i < |points| && month(points[i]) == last ==> year(points[i]) == y)
  }

  lemma LastBarIsLatest(points: seq<Point>, month: Keying, year: Keying, seed: int, bars: seq<Bar>)
    requires Refines(month, year, points) && IsSeries(points, month, seed, bars) && bars != []
    ensures var last := bars[|bars| - 1].bucket; |last| >= 4 && Latest(points, month, year, last, last[..4])
  {
    var last := bars[|bars| - 1].bucket;
    assert Buckets(bars)[|bars| - 1] in Buckets(bars);
    var i :| 0 <= i < |points| && month(points[i]) == last;
    assert points[i] in points;
    forall j | 0 <= j < |points|
      ensures AtMost(month(points[j]), last) && AtMost(year(points[j]), last[..4])
      ensures month(points[j]) == last ==> year(points[j]) == last[..4]
    {
      assert points[j] in points;
      assert HasKey(points, month, month(points[j]));
      LastIsGreatest(Buckets(bars), month(points[j]));
    }
  }

  /** Away from the latest month the yearly sums do not change; in its year they gain that month. */
  lemma OtherYearSums(points: seq<Point>, month: Keying, year: Keying, last: string, y: string, k: string)
    requires Latest(points, month, year, last, y) && k != y
    ensures SeqSum(points, InBucket(year, k)) == SeqSum(Outside(points, month, last), InBucket(year, k))
    ensures Less(k, y) ==> SeqSum(points, UpTo(year, k)) == SeqSum(Outside(points, month, last), UpTo(year, k))
  {
    var f, g := InBucket(year, k), UpTo(year, k);
    OutsideSum(points, month, last, f);
    OutsideSum(points, month, last, g);
    SeqSumSame(points, f, MaskedOutside(month, last, f));
    if Less(k, y) {
      LessAsymmetric(k, y);
      SeqSumSame(points, g, MaskedOutside(month, last, g));
    }
  }

  lemma LatestYearSums(points: seq<Point>, month: Keying, year: Keying, last: string, y: string)
    requires Latest(points, month, year, last, y)
    ensures SeqSum(points, InBucket(year, y))
         == SeqSum(Outside(points, month, last), InBucket(year, y)) + SeqSum(points, InBucket(month, last))
    ensures SeqSum(points, UpTo(year, y)) == SeqSum(points, UpTo(month, last))
  {
    var f := InBucket(year, y);
    OutsideSum(points, month, last, f);
    SeqSumSplit(points, f, MaskedOutside(month, last, f), InBucket(month, last));
    SeqSumSame(points, UpTo(year, y), UpTo(month, last));
  }

  lemma YearsInUse(points: seq<Point>, month: Keying, year: Keying, last: string, y: string, k: string)
    requires Latest(points, month, year, last, y)
    ensures HasKey(points, year, k) <==> HasKey(Outside(points, month, last), year, k) || k == y
    ensures HasKey(Outside(points, month, last), year, k) ==> AtMost(k, y)
  {
    var rest := Outside(points, month, last);
    HasKeyMember(points, year, k);
    HasKeyMember(rest, year, k);
    HasKeyMember(points, month, last);
    forall p ensures p in rest <==> p in points && month(p) != last {
      OutsideMembers(points, month, last, p);
    }
    forall p | p in points ensures AtMost(year(p), y) && (month(p) == last ==> year(p) == y) {
      var i :| 0 <= i < |points| && points[i] == p;
    }
  }

  /** What the yearly series of `points` needs from that of the points outside the latest month. */
  ghost predicate Extends(points: seq<Point>, rest: seq<Point>, year: Keying, seed: int, bar: Bar, y: string) {
    (forall k :: HasKey(points, year, k) <==> HasKey(rest, year, k) || k == y)
    && (forall k :: HasKey(rest, year, k) ==> AtMost(k, y))
    && (forall k :: k != y ==> SeqSum(points, InBucket(year, k)) == SeqSum(rest, InBucket(year, k)))
    && (forall k :: Less(k, y) ==> SeqSum(points, UpTo(year, k)) == SeqSum(rest, UpTo(year, k)))
    && SeqSum(points, InBucket(year, y)) == SeqSum(rest, InBucket(year, y)) + bar.periodCents
    && bar.cumulativeCents == seed + SeqSum(points, UpTo(year, y))
  }

  lemma LatestMonthExtends(points: seq<Point>, month: Keying, year: Keying, seed: int, bars: seq<Bar>)
    requires Refines(month, year, points) && IsSeries(points, month, seed, bars) && bars != []
    ensures var b := bars[|bars| - 1];
            |b.bucket| >= 4 && Extends(points, Outside(points, month, b.bucket), year, seed, b, b.bucket[..4])
  {
    var b := bars[|bars| - 1];
    LastBarIsLatest(points, month, year, seed, bars);
    var y := b.bucket[..4];
    var rest := Outside(points, month, b.bucket);
    forall k
      ensures HasKey(points, year, k) <==> HasKey(rest, year, k) || k == y
      ensures HasKey(rest, year, k) ==> AtMost(k, y)
    {
      YearsInUse(points, month, year, b.bucket, y, k);
    }
    LessIrreflexive(y);
    forall k | k != y
      ensures SeqSum(points, InBucket(year, k)) == SeqSum(rest, InBucket(year, k))
      ensures Less(k, y) ==> SeqSum(points, UpTo(year, k)) == SeqSum(rest, UpTo(year, k))
    {
      OtherYearSums(points, month, year, b.bucket, y, k);
    }
    LatestYearSums(points, month, year, b.bucket, y);
  }

  // ---------- the year series with the last month ----------

  /** Every earlier year bar stays valid when the latest month comes in. */
  lemma EarlierYearStays(points: seq<Point>, rest: seq<Point>, year: Keying, seed: int, years: seq<Bar>, bar: Bar,
                         y: string, i: nat)
    requires IsSeries(rest, year, seed, years) && Extends(points, rest, year, seed, bar, y)
    requires i < |years| && years[i].bucket != y
    ensures Less(years[i].bucket, y)
    ensures years[i].periodCents == SeqSum(points, InBucket(year, years[i].bucket))
    ensures years[i].cumulativeCents == seed + SeqSum(points, UpTo(year, years[i].bucket))
  {
    assert Buckets(years)[i] in Buckets(years);
    assert HasKey(rest, year, years[i].bucket);
  }

  lemma AddToLastYear(points: seq<Point>, rest: seq<Point>, year: Keying, seed: int, years: seq<Bar>, bar: Bar)
    requires |bar.bucket| >= 4 && IsSeries(rest, year, seed, years)
    requires Extends(points, rest, year, seed, bar, bar.bucket[..4])
    requires years != [] && years[|years| - 1].bucket == bar.bucket[..4]
    ensures IsSeries(points, year, seed, AddMonth(years, bar))
  {
    var m, y := |years| - 1, bar.bucket[..4];
    var r := AddMonth(years, bar);
    assert Buckets(r) == Buckets(years);
    forall i | 0 <= i < |r|
      ensures r[i].periodCents == SeqSum(points, InBucket(year, r[i].bucket))
      ensures r[i].cumulativeCents == seed + SeqSum(points, UpTo(year, r[i].bucket))
    {
      if i < m {
        AscendingNoRepeats(Buckets(years), i, m);
        EarlierYearStays(points, rest, year, seed, years, bar, y, i);
      }
    }
    assert Buckets(years)[m] == y;
  }

  lemma LatestYearIsNew(points: seq<Point>, rest: seq<Point>, year: Keying, seed: int, years: seq<Bar>, bar: Bar,
                        y: string)
    requires IsSeries(rest, year, seed, years) && Extends(points, rest, year, seed, bar, y)
    requires years != [] ==> years[|years| - 1].bucket != y
    ensures y !in Buckets(years)
  {
    var keys := Buckets(years);
    if y in keys {
      LastIsGreatest(keys, y);
      EarlierYearStays(points, rest, year, seed, years, bar, y, |years| - 1);
      LessAsymmetric(y, keys[|years| - 1]);
    }
  }

  lemma AddNewYear(points: seq<Point>, rest: seq<Point>, year: Keying, seed: int, years: seq<Bar>, bar: Bar)
    requires |bar.bucket| >= 4 && IsSeries(rest, year, seed, years)
    requires Extends(points, rest, year, seed, bar, bar.bucket[..4])
    requires years != [] ==> years[|years| - 1].bucket != bar.bucket[..4]
    ensures IsSeries(points, year, seed, AddMonth(years, bar))
  {
    var y := bar.bucket[..4];
    var keys := Buckets(years);
    LatestYearIsNew(points, rest, year, seed, years, bar, y);
    NoKeyNoSum(rest, year, y);
    var r := AddMonth(years, bar);
    assert Buckets(r) == keys + [y];
    forall i | 0 <= i < |years|
      ensures Less(keys[i], y)
      ensures r[i].periodCents == SeqSum(points, InBucket(year, r[i].bucket))
      ensures r[i].cumulativeCents == seed + SeqSum(points, UpTo(year, r[i].bucket))
    {
      assert keys[i] in keys;
      EarlierYearStays(points, rest, year, seed, years, bar, y, i);
    }
  }

  // ---------- the refinement ----------

  lemma BucketsLong(points: seq<Point>, month: Keying, year: Keying, seed: int, bars: seq<Bar>)
    requires Refines(month, year, points) && IsSeries(points, month, seed, bars)
    ensures forall i :: 0 <= i < |bars| ==> |bars[i].bucket| >= 4
  {
    forall i | 0 <= i < |bars| ensures |bars[i].bucket| >= 4 {
      assert Buckets(bars)[i] in Buckets(bars);
      HasKeyMember(points, month, bars[i].bucket);
    }
  }

  lemma RefinesOutside(points: seq<Point>, month: Keying, year: Keying, last: string)
    requires Refines(month, year, points)
    ensures Refines(month, year, Outside(points, month, last))
  {
    forall p ensures p in Outside(points, month, last) ==> p in points {
      OutsideMembers(points, month, last, p);
    }
  }

  /** Merging a fine series gives the coarse one, for any keys of which one refines the other. */
  lemma {:induction false} FineRefinesCoarse(points: seq<Point>, month: Keying, year: Keying, seed: int, bars: seq<Bar>)
    requires Refines(month, year, points) && IsSeries(points, month, seed, bars)
    ensures forall i :: 0 <= i < |bars| ==> |bars[i].bucket| >= 4
    ensures IsSeries(points, year, seed, MergeYears(bars))
    decreases |bars|
  {
    BucketsLong(points, month, year, seed, bars);
    if bars == [] {
      assert |points| > 0 ==> HasKey(points, month, month(points[0]));
    } else {
      var n := |bars| - 1;
      var rest := Outside(points, month, bars[n].bucket);
      SeriesFront(points, month, seed, bars);
      RefinesOutside(points, month, year, bars[n].bucket);
      FineRefinesCoarse(rest, month, year, seed, bars[..n]);
      LatestMonthExtends(points, month, year, seed, bars);
      var years := MergeYears(bars[..n]);
      if years != [] && years[|years| - 1].bucket == bars[n].bucket[..4] {
        AddToLastYear(points, rest, year, seed, years, bars[n]);
      } else {
        AddNewYear(points, rest, year, seed, years, bars[n]);
      }
    }
  }

  /** Merging the monthly chart by year gives exactly the yearly chart, for the years 0 to 9999. */
  lemma MonthlyRefinesYearly(points: seq<Point>, seed: int, monthly: seq<Bar>, yearly: seq<Bar>)
    requires forall p :: p in points ==> PrintableInstant(p.submittedAt)
    requires IsSeries(points, MonthKey(), seed, monthly) && IsSeries(points, YearKey(), seed, yearly)
    ensures forall i :: 0 <= i < |monthly| ==> |monthly[i].bucket| >= 4
    ensures MergeYears(monthly) == yearly
  {
    forall p, q | p in points && q in points
      ensures |MonthKey()(p)| >= 4 && MonthKey()(p)[..4] == YearKey()(p)
      ensures AtMost(MonthKey()(p), MonthKey()(q)) ==> AtMost(YearKey()(p), YearKey()(q))
    {
      MonthKeyRefines(p, q);
    }
    FineRefinesCoarse(points, MonthKey(), YearKey(), seed, monthly);
    SeriesUnique(points, YearKey(), seed, MergeYears(monthly), yearly);
  }
}
