/** The period list of a venture: `list_active_periods` and the gateway's `active_periods`. */
module ActivePeriods {
  import opened Text
  import opened Calendar
  import opened Periods
  import opened Sums
  import opened Ordered
  import opened TenantLedger
  import opened TenantRuns

  /** The stored periods through a `BTreeSet`, newest first. */
  method ListActivePeriods(raw: seq<string>) returns (r: seq<string>)
    ensures Descending(r)
    ensures forall p :: p in r <==> p in raw
  {
    var uniq := [];
    for i := 0 to |raw|
      invariant Ascending(uniq)
      invariant forall p :: p in uniq <==> p in raw[..i]
    {
      assert raw[..i + 1] == raw[..i] + [raw[i]];
      uniq := Insert(uniq, raw[i]);
    }
    assert raw[..|raw|] == raw;
    r := [];
    for i := 0 to |uniq|
      invariant |r| == i && forall j :: 0 <= j < i ==> r[j] == uniq[i - 1 - j]
    {
      r := [uniq[i]] + r;
    }
    forall p ensures p in r <==> p in uniq {
      if p in uniq {
        var j :| 0 <= j < |uniq| && uniq[j] == p;
        assert r[|uniq| - 1 - j] == p;
      }
    }
  }

  lemma DescendingDistinct(s: seq<string>)
    requires Descending(s)
    ensures Distinct(s)
  {
    forall i, j | 0 <= i < j < |s| ensures s[i] != s[j] {
      LessIrreflexive(s[j]);
    }
  }

  /** The list `active_periods` answers: the stored periods newest first, the current one put before
      them if it is not stored. */
  ghost predicate IsActiveList(r: seq<string>, raw: seq<string>, current: string) {
    (current !in raw ==> r != [] && r[0] == current)
    && var stored := if current in raw then r else r[1..];
       Descending(stored) && forall p :: p in stored <==> p in raw
  }

  /** Exactly the stored periods and the current one, each once; newest first exactly
      when the current period is stored or later than every stored one. */
  lemma ActiveListFacts(r: seq<string>, raw: seq<string>, current: string)
    requires IsActiveList(r, raw, current)
    ensures forall p :: p in r <==> p in raw || p == current
    ensures Distinct(r)
    ensures Descending(r) <==> current in raw || forall p :: p in raw ==> Less(p, current)
  {
    if current in raw {
      DescendingDistinct(r);
    } else {
      var stored := r[1..];
      assert r == [current] + stored;
      DescendingDistinct(stored);
      forall i, j | 0 <= i < j < |r| ensures r[i] != r[j] {
        assert r[j] == stored[j - 1] && stored[j - 1] in raw;
      }
      CurrentFirst(stored, raw, current);
    }
  }

  lemma CurrentFirst(stored: seq<string>, raw: seq<string>, current: string)
    requires Descending(stored) && forall p :: p in stored <==> p in raw
    ensures Descending([current] + stored) <==> forall p :: p in raw ==> Less(p, current)
  {
    var r := [current] + stored;
    if forall p :: p in raw ==> Less(p, current) {
      forall i, j | 0 <= i < j < |r| ensures Less(r[j], r[i]) {
        assert r[j] == stored[j - 1] && stored[j - 1] in raw;
      }
    }
    if Descending(r) {
      forall p | p in raw ensures Less(p, current) {
        assert p in stored;
        var i :| 0 <= i < |stored| && stored[i] == p;
        assert r[i + 1] == p && r[0] == current;
      }
    }
  }

  /** `active_periods` */
  method ListWithCurrent(raw: seq<string>, current: string) returns (r: seq<string>)
    ensures IsActiveList(r, raw, current)
    ensures forall p :: p in r <==> p in raw || p == current
    ensures Distinct(r)
    ensures Descending(r) <==> current in raw || forall p :: p in raw ==> Less(p, current)
  {
    var periods := ListActivePeriods(raw);
    r := periods;
    if current !in periods {
      r := [current] + periods;
      assert r[1..] == periods;
    }
    ActiveListFacts(r, raw, current);
  }

  // ---------- ventures run through the gateway ----------

  /** A time zone: its offset from UTC, in seconds, at each instant. */
  type Zone = int -> int

  /** The day the zone's calendar shows. */
  function LocalDay(zone: Zone, instant: int): int {
    DayOf(LocalInstant(instant, zone(instant)))
  }

  /** Between two instants the zone's calendar never goes back a day, however its clocks are set. */
  ghost predicate DaysForward(zone: Zone, from: int, to: int) {
    forall a, b :: from <= a <= b <= to ==> LocalDay(zone, a) <= LocalDay(zone, b)
  }

  /** The period of the cadence named `cadence` that the gateway derives. */
  function LocalPeriod(cadence: string, zone: Zone, instant: int): string {
    CurrentPeriodFor(cadence, LocalInstant(instant, zone(instant)))
  }

  /** What the gateway does in a venture whose cadence stays the same: payments carry it,
      and the current period in the venture's zone. */
  ghost predicate GatewayStep(s: State, op: Op, zone: Zone) {
    match op
    case CreateRow(_, d) =>
      d.cadence == s.settings.cadence && d.period == LocalPeriod(s.settings.cadence, zone, s.now)
    case UpdateRow(_, _) => false
    case ChangeSettings(p) => p.cadence.None? || p.cadence.value == s.settings.cadence
    case _ => true
  }

  ghost predicate GatewayRun(s: State, ops: seq<Op>, zone: Zone)
    decreases |ops|
  {
    ops != [] ==> GatewayStep(s, ops[0], zone) && GatewayRun(After(s, ops[0]), ops[1..], zone)
  }

  /** Every stored payment carries the period its zone showed when it was taken, which the lock then let pass. */
  ghost predicate Stamped(s: State, zone: Zone, cadence: string, from: int) {
    forall id :: id in s.rows ==>
      from <= s.rows[id].submittedAt <= s.now
      && s.rows[id].period == LocalPeriod(cadence, zone, s.rows[id].submittedAt)
      && OpenAt(cadence, zone, s.rows[id].submittedAt)
  }

  /** The lock lets a payment carrying the local period pass. */
  predicate OpenAt(cadence: string, zone: Zone, instant: int) {
    !Less(LocalPeriod(cadence, zone, instant), CurrentPeriodFor(cadence, instant))
  }

  lemma GatewayStepStamps(s: State, op: Op, zone: Zone, from: int)
    requires GatewayStep(s, op, zone) && Stamped(s, zone, s.settings.cadence, from) && from <= s.now
    ensures After(s, op).settings.cadence == s.settings.cadence && s.now <= After(s, op).now
    ensures Stamped(After(s, op), zone, s.settings.cadence, from)
  {
    if op.CreateRow? && Verdict(s, op) == Accepted {
      AcceptedIffAdmissible(s, op.id, Written(s, op));
    }
  }

  lemma {:induction false} GatewayRunStamps(s: State, ops: seq<Op>, zone: Zone, from: int)
    requires GatewayRun(s, ops, zone) && Stamped(s, zone, s.settings.cadence, from) && from <= s.now
    ensures Run(s, ops).settings.cadence == s.settings.cadence && s.now <= Run(s, ops).now
    ensures Stamped(Run(s, ops), zone, s.settings.cadence, from)
    decreases |ops|
  {
    if ops != [] {
      GatewayStepStamps(s, ops[0], zone, from);
      GatewayRunStamps(After(s, ops[0]), ops[1..], zone, from);
    }
  }

  /** The periods `list_active_periods` reads: one of each row, in any order. */
  ghost predicate StoredPeriods(raw: seq<string>, rows: map<nat, Contribution>) {
    forall p :: p in raw <==> exists id :: id in rows && rows[id].period == p
  }

  lemma StoredAndCurrent(raw: seq<string>, rows: map<nat, Contribution>, current: string)
    requires StoredPeriods(raw, rows)
    ensures current in raw <==> exists id :: id in rows && rows[id].period == current
    ensures (forall p :: p in raw ==> Less(p, current)) <==> forall id :: id in rows ==> Less(rows[id].period, current)
  {
    if forall p :: p in raw ==> Less(p, current) {
      forall id | id in rows ensures Less(rows[id].period, current) {
        assert rows[id].period in raw;
      }
    }
  }

  /** After any run through the gateway, in any zone, the list is newest first exactly if some stored payment
      was taken in what is the current period, or all were taken in earlier ones. */
  lemma GatewayListOrder(s: State, ops: seq<Op>, zone: Zone, raw: seq<string>, r: seq<string>)
    requires s.rows == map[] && GatewayRun(s, ops, zone)
    requires StoredPeriods(raw, Run(s, ops).rows)
    requires IsActiveList(r, raw, LocalPeriod(s.settings.cadence, zone, Run(s, ops).now))
    ensures var rows, c := Run(s, ops).rows, s.settings.cadence;
            var current := LocalPeriod(c, zone, Run(s, ops).now);
            Descending(r)
            <==> (exists id :: id in rows && LocalPeriod(c, zone, rows[id].submittedAt) == current)
                 || forall id :: id in rows ==> Less(LocalPeriod(c, zone, rows[id].submittedAt), current)
  {
    var current := LocalPeriod(s.settings.cadence, zone, Run(s, ops).now);
    GatewayRunStamps(s, ops, zone, s.now);
    ActiveListFacts(r, raw, current);
    StoredAndCurrent(raw, Run(s, ops).rows, current);
    StampedOrder(Run(s, ops), zone, s.settings.cadence, s.now, current);
  }

  lemma StampedOrder(t: State, zone: Zone, cadence: string, from: int, current: string)
    requires Stamped(t, zone, cadence, from)
    ensures (exists id :: id in t.rows && LocalPeriod(cadence, zone, t.rows[id].submittedAt) == current)
            <==> exists id :: id in t.rows && t.rows[id].period == current
    ensures (forall id :: id in t.rows ==> Less(LocalPeriod(cadence, zone, t.rows[id].submittedAt), current))
            <==> forall id :: id in t.rows ==> Less(t.rows[id].period, current)
  {
  }

  // ---------- zones in which the list always is in order ----------

  /** Between two instants the derived period never goes back behind one in which a payment got past the lock. */
  ghost predicate PeriodsForward(cadence: string, zone: Zone, from: int, to: int) {
    forall a, b :: from <= a <= b <= to && OpenAt(cadence, zone, a) ==>
      AtMost(LocalPeriod(cadence, zone, a), LocalPeriod(cadence, zone, b))
  }

  /** Whatever is done through the gateway until `to`, the answered list is newest first. */
  ghost predicate AlwaysNewestFirst(s: State, zone: Zone, to: int) {
    forall ops, raw, r ::
      GatewayRun(s, ops, zone) && Run(s, ops).now <= to && StoredPeriods(raw, Run(s, ops).rows)
      && IsActiveList(r, raw, LocalPeriod(s.settings.cadence, zone, Run(s, ops).now))
      ==> Descending(r)
  }

  /** In a venture of one cadence run through the gateway the list is strictly newest first after any run
      in which the derived period does not go back behind a paid one. */
  lemma GatewayListNewestFirst(s: State, ops: seq<Op>, zone: Zone, raw: seq<string>, r: seq<string>)
    requires s.rows == map[] && GatewayRun(s, ops, zone)
    requires PeriodsForward(s.settings.cadence, zone, s.now, Run(s, ops).now)
    requires StoredPeriods(raw, Run(s, ops).rows)
    requires IsActiveList(r, raw, LocalPeriod(s.settings.cadence, zone, Run(s, ops).now))
    ensures Descending(r)
  {
    var current := LocalPeriod(s.settings.cadence, zone, Run(s, ops).now);
    GatewayRunStamps(s, ops, zone, s.now);
    NoneAhead(Run(s, ops), zone, s.settings.cadence, s.now);
    ActiveListFacts(r, raw, current);
    StoredAndCurrent(raw, Run(s, ops).rows, current);
  }

  lemma NoneAhead(t: State, zone: Zone, cadence: string, from: int)
    requires Stamped(t, zone, cadence, from) && PeriodsForward(cadence, zone, from, t.now)
    ensures forall id :: id in t.rows ==> AtMost(t.rows[id].period, LocalPeriod(cadence, zone, t.now))
  {
    forall id | id in t.rows ensures AtMost(t.rows[id].period, LocalPeriod(cadence, zone, t.now)) {
      assert OpenAt(cadence, zone, t.rows[id].submittedAt);
    }
  }

  /** It is so after every run exactly in the zones whose derived period never goes back that way. */
  lemma NewestFirstExactlyIf(s: State, zone: Zone, to: int, email: string)
    requires s.rows == map[] && SettingsAsserts(s.settings) && s.isEmail(email) && s.now <= to
    requires forall t :: s.now <= t <= to ==> PrintableDay(LocalDay(zone, t))
    ensures AlwaysNewestFirst(s, zone, to) <==> PeriodsForward(s.settings.cadence, zone, s.now, to)
  {
    var c := s.settings.cadence;
    if PeriodsForward(c, zone, s.now, to) {
      forall ops, raw, r
        | GatewayRun(s, ops, zone) && Run(s, ops).now <= to && StoredPeriods(raw, Run(s, ops).rows)
          && IsActiveList(r, raw, LocalPeriod(c, zone, Run(s, ops).now))
        ensures Descending(r)
      {
        GatewayListNewestFirst(s, ops, zone, raw, r);
      }
    } else {
      var a, b :| s.now <= a <= b <= to && OpenAt(c, zone, a)
                  && !AtMost(LocalPeriod(c, zone, a), LocalPeriod(c, zone, b));
      OrderLost(s, zone, to, email, a, b);
    }
  }

  // ---------- a payment that loses the order ----------

  /** Wait, pay one cent, wait. */
  function PayBetween(s: State, zone: Zone, email: string, a: int, b: int): seq<Op>
    requires s.now <= a <= b
  {
    [Tick(a - s.now), CreateRow(0, CentAt(s.settings.cadence, zone, email, a)), Tick(b - a)]
  }

  function CentAt(cadence: string, zone: Zone, email: string, a: int): Draft {
    Draft(email, cadence, LocalPeriod(cadence, zone, a), 1, "submitted", None, None)
  }

  lemma LocalPeriodMatches(cadence: string, zone: Zone, a: int)
    requires PrintableDay(LocalDay(zone, a))
    ensures MatchesSchema(LocalPeriod(cadence, zone, a))
  {
    CurrentPeriodOpen(cadence, LocalInstant(a, zone(a)));
  }

  /** One cent into an empty table is accepted while the lock lets the local period pass. */
  lemma CentAccepted(s: State, zone: Zone, email: string)
    requires s.rows == map[] && SettingsAsserts(s.settings) && s.isEmail(email)
    requires PrintableDay(LocalDay(zone, s.now)) && OpenAt(s.settings.cadence, zone, s.now)
    ensures var d := CentAt(s.settings.cadence, zone, email, s.now);
            Verdict(s, CreateRow(0, d)) == Accepted
            && After(s, CreateRow(0, d)) == s.(rows := map[0 := d.Stored(s.now)])
  {
    var d := CentAt(s.settings.cadence, zone, email, s.now);
    LocalPeriodMatches(s.settings.cadence, zone, s.now);
    PaidAfterPut(s.rows, 0, d.Stored(s.now), email, d.period);
    AcceptedIffAdmissible(s, 0, d.Stored(s.now));
    CreateVerdict(s, 0, d);
    assert s.rows[0 := d.Stored(s.now)] == map[0 := d.Stored(s.now)];
  }

  lemma PaidBetween(s: State, zone: Zone, email: string, a: int, b: int)
    requires s.rows == map[] && SettingsAsserts(s.settings) && s.isEmail(email) && s.now <= a <= b
    requires PrintableDay(LocalDay(zone, a)) && OpenAt(s.settings.cadence, zone, a)
    ensures var ops := PayBetween(s, zone, email, a, b);
            var d := CentAt(s.settings.cadence, zone, email, a);
            GatewayRun(s, ops, zone) && Run(s, ops) == s.(rows := map[0 := d.Stored(a)], now := b)
  {
    var ops, d := PayBetween(s, zone, email, a, b), CentAt(s.settings.cadence, zone, email, a);
    var waited := After(s, ops[0]);
    assert waited == s.(now := a);
    CentAccepted(waited, zone, email);
    var paid := After(waited, ops[1]);
    assert After(paid, ops[2]) == s.(rows := map[0 := d.Stored(a)], now := b);
    RunOfThree(s, ops[0], ops[1], ops[2], zone);
  }

  lemma FirstOp(s: State, op: Op, rest: seq<Op>, zone: Zone)
    ensures Run(s, [op] + rest) == Run(After(s, op), rest)
    ensures GatewayRun(s, [op] + rest, zone) <==> GatewayStep(s, op, zone) && GatewayRun(After(s, op), rest, zone)
  {
    assert ([op] + rest)[1..] == rest;
  }

  lemma RunOfThree(s: State, x: Op, y: Op, z: Op, zone: Zone)
    ensures Run(s, [x, y, z]) == After(After(After(s, x), y), z)
    ensures GatewayStep(s, x, zone) && GatewayStep(After(s, x), y, zone) && GatewayStep(After(After(s, x), y), z, zone)
            ==> GatewayRun(s, [x, y, z], zone)
  {
    assert [x, y, z] == [x] + [y, z] && [y, z] == [y] + [z] && [z] == [z] + [];
    FirstOp(s, x, [y, z], zone);
    FirstOp(After(s, x), y, [z], zone);
    FirstOp(After(After(s, x), y), z, [], zone);
  }

  /** Paid when the lock lets the period pass, and looked at when the derived period has gone back behind it. */
  lemma OrderLost(s: State, zone: Zone, to: int, email: string, a: int, b: int)
    requires s.rows == map[] && SettingsAsserts(s.settings) && s.isEmail(email) && s.now <= a <= b <= to
    requires PrintableDay(LocalDay(zone, a)) && OpenAt(s.settings.cadence, zone, a)
    requires !AtMost(LocalPeriod(s.settings.cadence, zone, a), LocalPeriod(s.settings.cadence, zone, b))
    ensures !AlwaysNewestFirst(s, zone, to)
  {
    var ops := PayBetween(s, zone, email, a, b);
    PaidBetween(s, zone, email, a, b);
    OneStored(Run(s, ops).rows, 0);
    NotAlways(s, zone, to, ops, LocalPeriod(s.settings.cadence, zone, a), LocalPeriod(s.settings.cadence, zone, b));
  }

  lemma NotAlways(s: State, zone: Zone, to: int, ops: seq<Op>, paid: string, current: string)
    requires GatewayRun(s, ops, zone) && Run(s, ops).now <= to && StoredPeriods([paid], Run(s, ops).rows)
    requires current == LocalPeriod(s.settings.cadence, zone, Run(s, ops).now) && !AtMost(paid, current)
    ensures !AlwaysNewestFirst(s, zone, to)
  {
    TwoListed(paid, current);
  }

  lemma OneStored(rows: map<nat, Contribution>, id: nat)
    requires rows.Keys == {id}
    ensures StoredPeriods([rows[id].period], rows)
  {
    assert id in rows;
  }

  lemma TwoListed(paid: string, current: string)
    requires !AtMost(paid, current)
    ensures IsActiveList([current, paid], [paid], current) && !Descending([current, paid])
  {
    LessTotal(paid, current);
    assert [current, paid][1..] == [paid];
    assert [current, paid][0] == current && [current, paid][1] == paid;
  }

  // ---------- zones ----------

  /** A calendar that never goes back a day is enough, however the clocks are set. */
  lemma DaysForwardSuffice(cadence: string, zone: Zone, from: int, to: int)
    requires DaysForward(zone, from, to) && forall t :: from <= t <= to ==> PrintableDay(LocalDay(zone, t))
    ensures PeriodsForward(cadence, zone, from, to)
  {
    forall a, b | from <= a <= b <= to && OpenAt(cadence, zone, a)
      ensures AtMost(LocalPeriod(cadence, zone, a), LocalPeriod(cadence, zone, b))
    {
      DayPeriodMonotone(cadence, zone, a, b);
    }
  }

  /** Later days have later or the same printed periods. */
  lemma DayPeriodMonotone(cadence: string, zone: Zone, a: int, b: int)
    requires LocalDay(zone, a) <= LocalDay(zone, b)
    requires PrintableDay(LocalDay(zone, a)) && PrintableDay(LocalDay(zone, b))
    ensures AtMost(LocalPeriod(cadence, zone, a), LocalPeriod(cadence, zone, b))
  {
    var c := LockCadence(cadence);
    var d, e := LocalDay(zone, a), LocalDay(zone, b);
    PeriodMonotone(c, d, e);
    PrintableDays(c, d);
    PrintableDays(c, e);
    PrintOrder(PeriodAt(c, e), PeriodAt(c, d));
    LessTotal(Print(PeriodAt(c, d)), Print(PeriodAt(c, e)));
  }

  /** An hour ahead of UTC until `at`, then at UTC: the clocks go back by an hour. */
  function SetBackAt(at: int): Zone {
    (t: int) => if t < at then 3600 else 0
  }

  lemma SetBackDays(d: int)
    ensures var at := d * SECONDS_PER_DAY - 1800;
            LocalDay(SetBackAt(at), at - 60) == d && LocalDay(SetBackAt(at), at) == d - 1 && DayOf(at - 60) == d - 1
  {
    QuotientIs(d * SECONDS_PER_DAY + 1740, SECONDS_PER_DAY, d, 1740);
    QuotientIs(d * SECONDS_PER_DAY - 1800, SECONDS_PER_DAY, d - 1, SECONDS_PER_DAY - 1800);
    QuotientIs(d * SECONDS_PER_DAY - 1860, SECONDS_PER_DAY, d - 1, SECONDS_PER_DAY - 1860);
  }

  lemma EarlierDayPrintsLess(c: Cadence, d: int)
    requires PeriodStart(c, d) == d && PrintableDay(d - 1) && PrintableDay(d)
    ensures Less(Print(PeriodAt(c, d - 1)), Print(PeriodAt(c, d)))
  {
    PeriodBoundary(c, d - 1, d);
    PrintableDays(c, d - 1);
    PrintableDays(c, d);
    PrintOrder(PeriodAt(c, d - 1), PeriodAt(c, d));
  }

  function DayPeriod(cadence: string, day: int): string {
    Print(PeriodAt(LockCadence(cadence), day))
  }

  /** The zone shows day `d` at `a`, when UTC shows the day before, and goes back to that day by `b`. */
  lemma BackADay(cadence: string, zone: Zone, a: int, b: int, d: int)
    requires LocalDay(zone, a) == d && LocalDay(zone, b) == d - 1 && DayOf(a) == d - 1
    requires Less(DayPeriod(cadence, d - 1), DayPeriod(cadence, d))
    ensures OpenAt(cadence, zone, a) && !AtMost(LocalPeriod(cadence, zone, a), LocalPeriod(cadence, zone, b))
  {
    var earlier, later := DayPeriod(cadence, d - 1), DayPeriod(cadence, d);
    assert LocalPeriod(cadence, zone, a) == later && LocalPeriod(cadence, zone, b) == earlier;
    LessAsymmetric(earlier, later);
    LessIrreflexive(later);
  }

  lemma SetBackGoesBack(cadence: string, d: int, at: int)
    requires PeriodStart(LockCadence(cadence), d) == d && PrintableDay(d - 1) && PrintableDay(d)
    requires at == d * SECONDS_PER_DAY - 1800
    ensures PrintableDay(LocalDay(SetBackAt(at), at - 60)) && OpenAt(cadence, SetBackAt(at), at - 60)
    ensures !AtMost(LocalPeriod(cadence, SetBackAt(at), at - 60), LocalPeriod(cadence, SetBackAt(at), at))
  {
    SetBackDays(d);
    EarlierDayPrintsLess(LockCadence(cadence), d);
    BackADay(cadence, SetBackAt(at), at - 60, at, d);
  }

  /** Clocks set back from half past midnight on the first day of a period: a payment a minute before passes
      the lock with the new period, and the derived period then goes back to the old one. */
  lemma SetBackLosesOrder(s: State, d: int, email: string)
    requires s.rows == map[] && SettingsAsserts(s.settings) && s.isEmail(email)
    requires PeriodStart(LockCadence(s.settings.cadence), d) == d && PrintableDay(d - 1) && PrintableDay(d)
    requires s.now <= d * SECONDS_PER_DAY - 1860
    ensures var at := d * SECONDS_PER_DAY - 1800; !AlwaysNewestFirst(s, SetBackAt(at), at)
  {
    var at := d * SECONDS_PER_DAY - 1800;
    SetBackGoesBack(s.settings.cadence, d, at);
    OrderLost(s, SetBackAt(at), at, email, at - 60, at);
  }

  lemma MondayIn2024()
    ensures YearStart(2024) == 739251 && Monday(739251) == 739251
  {
  }

  lemma YearBegins(y: int)
    ensures PeriodStart(Yearly, YearStart(y)) == YearStart(y)
  {
    FirstDayOfYear(y);
  }

  lemma MonthBegins(y: int)
    ensures PeriodStart(Monthly, YearStart(y)) == YearStart(y)
  {
    FirstDayOfYear(y);
    assert MonthStart(1, IsLeap(y)) == 0;
  }

  /** There is such a day: on Monday, 1 January 2024, a week, a month and a year begin. */
  lemma AllCadencesBegin(c: Cadence)
    ensures PeriodStart(c, 739251) == 739251
  {
    MondayIn2024();
    match c
    case Weekly =>
    case Monthly => MonthBegins(2024);
    case Yearly => YearBegins(2024);
  }

  lemma FirstDayOfYear(y: int)
    ensures YearOf(YearStart(y)) == y && MonthOf(YearStart(y)) == 1
  {
    YearsAreLong(y);
    YearUnique(YearStart(y), y);
    var m := MonthOf(YearStart(y));
    if m > 1 {
      MonthStartMonotone(1, m, IsLeap(y));
    }
  }
}
