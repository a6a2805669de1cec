/** The accumulation series: `bucket_series` against a declarative sum, and its end
    against the pool view. */
module Accumulation {
  import opened Text
  import opened Calendar
  import opened Periods
  import opened Sums
  import opened Ordered
  import opened TenantLedger
  import Pool

  datatype Point = Point(submittedAt: int, amountCents: int)

  datatype Bar = Bar(bucket: string, periodCents: int, cumulativeCents: int)

  /** How points are keyed. The series does not depend on what the keys mean, so it is stated
      for any keying; `YearKey` and `MonthKey` are the two in use. */
  type Keying = Point -> string

  /** `"year"`: the four-digit UTC year. */
  function YearKey(): Keying {
    (p: Point) => YearText(YearOf(DayOf(p.submittedAt)))
  }

  /** Any other mode: year and month. */
  function MonthKey(): Keying {
    (p: Point) => YearText(YearOf(DayOf(p.submittedAt))) + "-" + Padded(MonthOf(DayOf(p.submittedAt)), 2)
  }

  // ---------- the declarative sums ----------

  function InBucket(key: Keying, k: string): Point -> int {
    (p: Point) => if key(p) == k then p.amountCents else 0
  }

  function UpTo(key: Keying, k: string): Point -> int {
    (p: Point) => if AtMost(key(p), k) then p.amountCents else 0
  }

  function Amount(): Point -> int {
    (p: Point) => p.amountCents
  }

  predicate HasKey(points: seq<Point>, key: Keying, k: string) {
    exists i :: 0 <= i < |points| && key(points[i]) == k
  }

  function Buckets(bars: seq<Bar>): (r: seq<string>)
    ensures |r| == |bars| && forall i :: 0 <= i < |r| ==> r[i] == bars[i].bucket
  {
    seq(|bars|, i requires 0 <= i < |bars| => bars[i].bucket)
  }

  /** What a series must be: ascending buckets, one for every key in use, each with its own sum and with
      the seed plus everything in this or an earlier bucket. */
  ghost predicate IsSeries(points: seq<Point>, key: Keying, seed: int, bars: seq<Bar>) {
    Ascending(Buckets(bars))
    && (forall k :: k in Buckets(bars) <==> HasKey(points, key, k))
    && (forall i :: 0 <= i < |bars| ==> bars[i].periodCents == SeqSum(points, InBucket(key, bars[i].bucket)))
    && (forall i :: 0 <= i < |bars| ==> bars[i].cumulativeCents == seed + SeqSum(points, UpTo(key, bars[i].bucket)))
  }

  // ---------- the algorithm ----------

  lemma HasKeyStep(points: seq<Point>, key: Keying, n: nat, k: string)
    requires n < |points|
    ensures HasKey(points[..n + 1], key, k) <==> HasKey(points[..n], key, k) || key(points[n]) == k
  {
    var a, b := points[..n], points[..n + 1];
    forall i | 0 <= i < n ensures a[i] == b[i] == points[i] {
    }
    assert b[n] == points[n];
  }

  /** The running total after bucket `i` is everything in the buckets up to `i`. */
  lemma UpToNext(points: seq<Point>, key: Keying, keys: seq<string>, i: nat)
    requires Ascending(keys) && i < |keys|
    requires forall j :: 0 <= j < |points| ==> key(points[j]) in keys
    ensures SeqSum(points, UpTo(key, keys[i]))
         == (if i == 0 then 0 else SeqSum(points, UpTo(key, keys[i - 1]))) + SeqSum(points, InBucket(key, keys[i]))
  {
    forall j | 0 <= j < |points|
      ensures UpTo(key, keys[i])(points[j])
           == (if i == 0 then 0 else UpTo(key, keys[i - 1])(points[j])) + InBucket(key, keys[i])(points[j])
    {
      var m :| 0 <= m < |keys| && keys[m] == key(points[j]);
      AscendingNoRepeats(keys, m, i);
      if i > 0 {
        AscendingNoRepeats(keys, m, i - 1);
      }
    }
    if i == 0 {
      SeqSumSame(points, UpTo(key, keys[0]), InBucket(key, keys[0]));
    } else {
      SeqSumSplit(points, UpTo(key, keys[i]), UpTo(key, keys[i - 1]), InBucket(key, keys[i]));
    }
  }

  lemma SumStep(points: seq<Point>, f: Point -> int, n: nat)
    requires n < |points|
    ensures SeqSum(points[..n + 1], f) == SeqSum(points[..n], f) + f(points[n])
  {
    assert points[..n + 1][..n] == points[..n];
  }

  /** The ordered map holds the keys in use and the sum of each. */
  ghost predicate IsFilled(points: seq<Point>, key: Keying, keys: seq<string>, cents: map<string, int>) {
    Ascending(keys) && (forall k :: k in keys <==> HasKey(points, key, k)) && (forall k :: k in keys <==> k in cents)
    && forall k :: SeqSum(points, InBucket(key, k)) == if k in cents then cents[k] else 0
  }

  lemma FilledStep(points: seq<Point>, key: Keying, n: nat, keys: seq<string>, cents: map<string, int>)
    requires n < |points| && IsFilled(points[..n], key, keys, cents)
    ensures var k := key(points[n]);
            IsFilled(points[..n + 1], key, Insert(keys, k), AddTo(cents, k, points[n].amountCents))
  {
    var k := key(points[n]);
    forall j ensures HasKey(points[..n + 1], key, j) <==> HasKey(points[..n], key, j) || k == j {
      HasKeyStep(points, key, n, j);
    }
    forall j
      ensures SeqSum(points[..n + 1], InBucket(key, j))
           == SeqSum(points[..n], InBucket(key, j)) + if k == j then points[n].amountCents else 0
    {
      SumStep(points, InBucket(key, j), n);
    }
  }

  /** The first loop: `*buckets.entry(key).or_default() += amount`. */
  method FillBuckets(points: seq<Point>, key: Keying) returns (keys: seq<string>, cents: map<string, int>)
    ensures IsFilled(points, key, keys, cents)
  {
    keys, cents := [], map[];
    for n := 0 to |points|
      invariant IsFilled(points[..n], key, keys, cents)
    {
      FilledStep(points, key, n, keys, cents);
      var k := key(points[n]);
      keys := Insert(keys, k);
      cents := AddTo(cents, k, points[n].amountCents);
    }
    assert points[..|points|] == points;
  }

  /** The bars of the first keys and the running total after them. */
  ghost predicate WalkedTo(points: seq<Point>, key: Keying, keys: seq<string>, initial: int, bars: seq<Bar>,
                           running: int) {
    |bars| <= |keys|
    && (forall j :: 0 <= j < |bars| ==> IsBar(points, key, keys[j], initial, bars[j]))
    && running == initial + if bars == [] then 0 else SeqSum(points, UpTo(key, keys[|bars| - 1]))
  }

  /** The bar of one key, given the running total before it. */
  lemma NextBar(points: seq<Point>, key: Keying, keys: seq<string>, cents: map<string, int>, initial: int, i: nat,
                running: int)
    requires IsFilled(points, key, keys, cents) && i < |keys|
    requires running == initial + if i == 0 then 0 else SeqSum(points, UpTo(key, keys[i - 1]))
    ensures keys[i] in cents && cents[keys[i]] == SeqSum(points, InBucket(key, keys[i]))
    ensures running + cents[keys[i]] == initial + SeqSum(points, UpTo(key, keys[i]))
  {
    EveryKeyListed(points, key, keys, cents);
    assert keys[i] in keys;
    UpToNext(points, key, keys, i);
  }

  /** What the bar of one key must say. */
  ghost predicate IsBar(points: seq<Point>, key: Keying, k: string, initial: int, bar: Bar) {
    bar.bucket == k && bar.periodCents == SeqSum(points, InBucket(key, k))
    && bar.cumulativeCents == initial + SeqSum(points, UpTo(key, k))
  }

  lemma OneMoreBar(points: seq<Point>, key: Keying, keys: seq<string>, initial: int, bars: seq<Bar>, bar: Bar)
    requires |bars| < |keys| && IsBar(points, key, keys[|bars|], initial, bar)
    requires forall j :: 0 <= j < |bars| ==> IsBar(points, key, keys[j], initial, bars[j])
    ensures forall j :: 0 <= j < |bars| + 1 ==> IsBar(points, key, keys[j], initial, (bars + [bar])[j])
  {
  }

  lemma WalkStep(points: seq<Point>, key: Keying, keys: seq<string>, cents: map<string, int>, initial: int,
                 bars: seq<Bar>, running: int)
    requires IsFilled(points, key, keys, cents)
    requires WalkedTo(points, key, keys, initial, bars, running) && |bars| < |keys|
    ensures var k := keys[|bars|];
            k in cents
            && WalkedTo(points, key, keys, initial, bars + [Bar(k, cents[k], running + cents[k])], running + cents[k])
  {
    NextBar(points, key, keys, cents, initial, |bars|, running);
    var k := keys[|bars|];
    OneMoreBar(points, key, keys, initial, bars, Bar(k, cents[k], running + cents[k]));
  }

  lemma WalkedIsSeries(points: seq<Point>, key: Keying, keys: seq<string>, cents: map<string, int>, initial: int,
                       bars: seq<Bar>, running: int)
    requires IsFilled(points, key, keys, cents)
    requires WalkedTo(points, key, keys, initial, bars, running) && |bars| == |keys|
    ensures IsSeries(points, key, initial, bars)
  {
    assert Buckets(bars) == keys;
  }

  /** The second loop: bars in key order, with a running total. */
  method WalkBuckets(ghost points: seq<Point>, ghost key: Keying, keys: seq<string>, cents: map<string, int>,
                     initial: int)
    returns (bars: seq<Bar>)
    requires IsFilled(points, key, keys, cents)
    ensures IsSeries(points, key, initial, bars)
  {
    var running := initial;
    bars := [];
    for i := 0 to |keys|
      invariant |bars| == i && WalkedTo(points, key, keys, initial, bars, running)
    {
      WalkStep(points, key, keys, cents, initial, bars, running);
      running := running + cents[keys[i]];
      bars := bars + [Bar(keys[i], cents[keys[i]], running)];
    }
    WalkedIsSeries(points, key, keys, cents, initial, bars, running);
  }

  lemma EveryKeyListed(points: seq<Point>, key: Keying, keys: seq<string>, cents: map<string, int>)
    requires IsFilled(points, key, keys, cents)
    ensures forall j :: 0 <= j < |points| ==> key(points[j]) in keys
  {
    forall j | 0 <= j < |points| ensures key(points[j]) in keys {
      assert HasKey(points, key, key(points[j]));
    }
  }

  /** `bucket_series`: fill the ordered map, then walk it with a running total. */
  method BucketSeries(points: seq<Point>, key: Keying, initial: int) returns (bars: seq<Bar>)
    ensures IsSeries(points, key, initial, bars)
  {
    var keys, cents := FillBuckets(points, key);
    bars := WalkBuckets(points, key, keys, cents, initial);
  }

  // ---------- the series is determined by the points as a collection ----------

  lemma SeriesUnique(points: seq<Point>, key: Keying, seed: int, a: seq<Bar>, b: seq<Bar>)
    requires IsSeries(points, key, seed, a) && IsSeries(points, key, seed, b)
    ensures a == b
  {
    AscendingUnique(Buckets(a), Buckets(b));
    forall i | 0 <= i < |a| ensures a[i] == b[i] {
      assert Buckets(a)[i] == Buckets(b)[i];
    }
  }

  lemma HasKeyPermuted(points: seq<Point>, other: seq<Point>, key: Keying, k: string)
    requires multiset(points) == multiset(other) && HasKey(points, key, k)
    ensures HasKey(other, key, k)
  {
    var i :| 0 <= i < |points| && key(points[i]) == k;
    assert points[i] in multiset(other);
    var j :| 0 <= j < |other| && other[j] == points[i];
  }

  /** The order in which the points arrive does not matter. */
  lemma SeriesOfPermutation(points: seq<Point>, other: seq<Point>, key: Keying, seed: int, a: seq<Bar>, b: seq<Bar>)
    requires multiset(points) == multiset(other)
    requires IsSeries(points, key, seed, a) && IsSeries(other, key, seed, b)
    ensures a == b
  {
    forall k ensures HasKey(points, key, k) <==> HasKey(other, key, k) {
      if HasKey(points, key, k) { HasKeyPermuted(points, other, key, k); }
      if HasKey(other, key, k) { HasKeyPermuted(other, points, key, k); }
    }
    forall k ensures SeqSum(points, InBucket(key, k)) == SeqSum(other, InBucket(key, k))
                  && SeqSum(points, UpTo(key, k)) == SeqSum(other, UpTo(key, k)) {
      SeqSumPermutation(points, other, InBucket(key, k));
      SeqSumPermutation(points, other, UpTo(key, k));
    }
    SeriesUnique(points, key, seed, a, b);
  }

  /** Where a series ends; an empty one still stands at the seed. */
  function End(bars: seq<Bar>, seed: int): int {
    if bars == [] then seed else bars[|bars| - 1].cumulativeCents
  }

  /** A series ends at the seed plus every amount. */
  lemma SeriesEnd(points: seq<Point>, key: Keying, seed: int, bars: seq<Bar>)
    requires IsSeries(points, key, seed, bars)
    ensures End(bars, seed) == seed + SeqSum(points, Amount())
  {
    forall j | 0 <= j < |points| ensures key(points[j]) in Buckets(bars) {
      assert HasKey(points, key, key(points[j]));
    }
    if bars != [] {
      var last := bars[|bars| - 1].bucket;
      forall j | 0 <= j < |points| ensures UpTo(key, last)(points[j]) == Amount()(points[j]) {
        LastIsGreatest(Buckets(bars), key(points[j]));
      }
      SeqSumSame(points, UpTo(key, last), Amount());
    } else {
      assert |points| > 0 ==> key(points[0]) in Buckets(bars);
    }
  }

  // ---------- the end of the chart and the pool view ----------

  /** `accumulation_points`: the non-rejected rows. */
  function PointsOf(rows: seq<Contribution>): seq<Point> {
    if rows == [] then []
    else
      var front, c := PointsOf(rows[..|rows| - 1]), rows[|rows| - 1];
      if c.status == "rejected" then front else front + [Point(c.submittedAt, c.amountCents)]
  }

  lemma {:induction false} PointsTotal(rows: seq<Contribution>)
    ensures SeqSum(PointsOf(rows), Amount()) == Pool.TotalPaid(rows)
  {
    if rows != [] {
      PointsTotal(rows[..|rows| - 1]);
      var front, c := PointsOf(rows[..|rows| - 1]), rows[|rows| - 1];
      if c.status != "rejected" {
        assert (front + [Point(c.submittedAt, c.amountCents)])[..|front|] == front;
      }
    }
  }

  function ValidIn(periods: seq<string>): Contribution -> int {
    (c: Contribution) => if c.period in periods then Pool.ValidCents(c) else 0
  }

  /** The rows a pool view selects hold all the money of their period. */
  lemma PoolHoldsPeriod(table: map<nat, Contribution>, ids: seq<nat>, period: string)
    requires Lists(ids, Pool.ByPeriod(table, period))
    ensures Pool.TotalPaid(Rows(ids, Pool.ByPeriod(table, period))) == MapSum(table, ValidIn([period]))
  {
    var part := Pool.ByPeriod(table, period);
    forall i | 0 <= i < |ids| ensures Rows(ids, part)[i].period == period {
      assert ids[i] in ids;
    }
    SeqSumSame(Rows(ids, part), (c: Contribution) => Pool.ValidCents(c), ValidIn([period]));
    SeqSumOfTable(ids, part, ValidIn([period]));
    Pool.MapSumSubtable(table, part, ValidIn([period]));
  }

  /** `views[i]` is what the pool view of `periods[i]` reports, its query having listed `selected[i]`. */
  ghost predicate ArePoolViews(table: map<nat, Contribution>, periods: seq<string>, selected: seq<seq<nat>>,
                               views: seq<Pool.PoolSummary>) {
    |periods| == |selected| == |views|
    && forall i :: 0 <= i < |periods| ==>
         Lists(selected[i], Pool.ByPeriod(table, periods[i]))
         && views[i].paidCents == Pool.TotalPaid(Rows(selected[i], Pool.ByPeriod(table, periods[i])))
  }

  function ViewPaid(): Pool.PoolSummary -> int {
    (v: Pool.PoolSummary) => v.paidCents
  }

  /** The pool views of different periods together report what their rows hold. */
  lemma {:induction false} PoolsAddUp(table: map<nat, Contribution>, ids: seq<nat>, periods: seq<string>,
                                      selected: seq<seq<nat>>, views: seq<Pool.PoolSummary>)
    requires Lists(ids, table) && Distinct(periods) && ArePoolViews(table, periods, selected, views)
    ensures SeqSum(views, ViewPaid()) == SeqSum(Rows(ids, table), ValidIn(periods))
    decreases |periods|
  {
    var rows := Rows(ids, table);
    if periods == [] {
      SeqSumNonNegative(rows, ValidIn([]));
    } else {
      var n := |periods| - 1;
      var front, p := periods[..n], periods[n];
      PoolsAddUp(table, ids, front, selected[..n], views[..n]);
      assert periods == front + [p] && p !in front;
      SeqSumSplit(rows, ValidIn(periods), ValidIn(front), ValidIn([p]));
      PoolHoldsPeriod(table, selected[n], p);
      SeqSumOfTable(ids, table, ValidIn([p]));
    }
  }

  /** The chart of all rows ends at the seed plus what the pool views of all stored periods report as paid. */
  lemma SeriesEndsAtPools(table: map<nat, Contribution>, ids: seq<nat>, periods: seq<string>, selected: seq<seq<nat>>,
                          views: seq<Pool.PoolSummary>, key: Keying, seed: int, bars: seq<Bar>)
    requires Lists(ids, table) && IsSeries(PointsOf(Rows(ids, table)), key, seed, bars)
    requires Distinct(periods) && forall id :: id in table ==> table[id].period in periods
    requires ArePoolViews(table, periods, selected, views)
    ensures End(bars, seed) == seed + SeqSum(views, ViewPaid())
  {
    var rows := Rows(ids, table);
    SeriesEnd(PointsOf(rows), key, seed, bars);
    PointsTotal(rows);
    PoolsAddUp(table, ids, periods, selected, views);
    forall i | 0 <= i < |rows| ensures rows[i].period in periods {
      assert ids[i] in ids;
    }
    SeqSumSame(rows, ValidIn(periods), (c: Contribution) => Pool.ValidCents(c));
  }

  // ---------- what the bars say of the rows ----------

  /** The keys are the printed periods of the day a payment was submitted. */
  lemma KeysArePeriods(p: Point)
    ensures YearKey()(p) == Print(PeriodAt(Yearly, DayOf(p.submittedAt)))
    ensures MonthKey()(p) == Print(PeriodAt(Monthly, DayOf(p.submittedAt)))
  {
  }

  /** A row taken as a point, for a sum: its own time and amount, unless it is rejected. */
  function AsPoint(f: Point -> int): Contribution -> int {
    (c: Contribution) => if c.status != "rejected" then f(Point(c.submittedAt, c.amountCents)) else 0
  }

  lemma {:induction false} PointsSum(rows: seq<Contribution>, f: Point -> int)
    ensures SeqSum(PointsOf(rows), f) == SeqSum(rows, AsPoint(f))
  {
    if rows != [] {
      PointsSum(rows[..|rows| - 1], f);
      var front, c := PointsOf(rows[..|rows| - 1]), rows[|rows| - 1];
      if c.status != "rejected" {
        assert (front + [Point(c.submittedAt, c.amountCents)])[..|front|] == front;
      }
    }
  }

  /** The non-rejected amount of a row submitted in the period of cadence `c` that prints as `text`. */
  function SubmittedIn(c: Cadence, text: string): Contribution -> int {
    (r: Contribution) =>
      if r.status != "rejected" && Print(PeriodAt(c, DayOf(r.submittedAt))) == text then r.amountCents else 0
  }

  /** Every monthly bar holds the non-rejected payments submitted in its calendar month, and every yearly
      bar those submitted in its year. */
  lemma BarsHoldTheirPeriods(rows: seq<Contribution>, seed: int, months: seq<Bar>, years: seq<Bar>, i: nat)
    requires IsSeries(PointsOf(rows), MonthKey(), seed, months) && IsSeries(PointsOf(rows), YearKey(), seed, years)
    ensures i < |months| ==> months[i].periodCents == SeqSum(rows, SubmittedIn(Monthly, months[i].bucket))
    ensures i < |years| ==> years[i].periodCents == SeqSum(rows, SubmittedIn(Yearly, years[i].bucket))
  {
    if i < |months| {
      InPeriodSum(rows, MonthKey(), Monthly, months[i].bucket);
    }
    if i < |years| {
      InPeriodSum(rows, YearKey(), Yearly, years[i].bucket);
    }
  }

  lemma InPeriodSum(rows: seq<Contribution>, key: Keying, c: Cadence, text: string)
    requires (c == Monthly && key == MonthKey()) || (c == Yearly && key == YearKey())
    ensures SeqSum(PointsOf(rows), InBucket(key, text)) == SeqSum(rows, SubmittedIn(c, text))
  {
    PointsSum(rows, InBucket(key, text));
    forall i | 0 <= i < |rows| ensures AsPoint(InBucket(key, text))(rows[i]) == SubmittedIn(c, text)(rows[i]) {
      SameInPeriod(rows[i], key, c, text);
    }
    SeqSumSame(rows, AsPoint(InBucket(key, text)), SubmittedIn(c, text));
  }

  lemma SameInPeriod(r: Contribution, key: Keying, c: Cadence, text: string)
    requires (c == Monthly && key == MonthKey()) || (c == Yearly && key == YearKey())
    ensures AsPoint(InBucket(key, text))(r) == SubmittedIn(c, text)(r)
  {
    KeysArePeriods(Point(r.submittedAt, r.amountCents));
  }
}
