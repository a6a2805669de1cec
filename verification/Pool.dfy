/** The venture-wide pool view and its agreement with the members' own period summaries. */
module Pool {
  import opened Text
  import opened Sums
  import opened TenantLedger
  import opened TenantRuns
  import opened ControlPlane
  import opened ControlRuns

  datatype PoolSummary = PoolSummary(
    memberCount: nat, targetCents: int, paidCents: int, remainingCents: int, settledCount: nat)

  /** `i64::saturating_mul` */
  function SaturatingMul(a: int, b: int): int {
    if a * b > I64_MAX then I64_MAX else if a * b < I64_MIN then I64_MIN else a * b
  }

  function NonNegative(n: int): int {
    if n > 0 then n else 0
  }

  // ---------- declarative sums over the rows of one period ----------

  function ValidCents(c: Contribution): int {
    if c.status != "rejected" then c.amountCents else 0
  }

  function ValidFrom(email: string): Contribution -> int {
    (c: Contribution) => if c.userEmail == email then ValidCents(c) else 0
  }

  function PaidBy(rows: seq<Contribution>, email: string): int {
    SeqSum(rows, ValidFrom(email))
  }

  function TotalPaid(rows: seq<Contribution>): int {
    SeqSum(rows, (c: Contribution) => ValidCents(c))
  }

  /** The members with at least one non-rejected payment. */
  function Contributors(rows: seq<Contribution>): set<string> {
    set i | 0 <= i < |rows| && rows[i].status != "rejected" :: rows[i].userEmail
  }

  /** Who counts as settled: a full payment, or any payment when there are no dues. */
  function SettledContributors(rows: seq<Contribution>, dues: int): set<string> {
    set e | e in Contributors(rows) && CountsAsSettled(PaidBy(rows, e), dues)
  }

  // ---------- the aggregation ----------

  function SameAmount(): int -> int {
    (v: int) => v
  }

  /** The test that makes a per-member sum count as settled. */
  predicate CountsAsSettled(v: int, dues: int) {
    if dues > 0 then v >= dues else v > 0
  }

  /** `m` holds the non-rejected sum of each contributor. */
  ghost predicate IsByMember(m: map<string, int>, rows: seq<Contribution>) {
    m.Keys == Contributors(rows) && (forall e :: e in m ==> m[e] == PaidBy(rows, e))
    && MapSum(m, SameAmount()) == TotalPaid(rows)
  }

  lemma SumsStep(rows: seq<Contribution>, i: nat, e: string)
    requires i < |rows|
    ensures PaidBy(rows[..i + 1], e) == PaidBy(rows[..i], e) + ValidFrom(e)(rows[i])
    ensures TotalPaid(rows[..i + 1]) == TotalPaid(rows[..i]) + ValidCents(rows[i])
  {
    assert rows[..i + 1][..i] == rows[..i];
  }

  lemma AddToSum(m: map<string, int>, email: string, cents: int)
    ensures MapSum(AddTo(m, email, cents), SameAmount()) == MapSum(m, SameAmount()) + cents
  {
    var was := if email in m then m[email] else 0;
    MapSumPut(m, email, was + cents, SameAmount());
    MapSumWithout(m, email, SameAmount());
  }

  /** One round of the loop: a rejected row is skipped. */
  function CountIn(m: map<string, int>, c: Contribution): map<string, int> {
    if c.status != "rejected" then AddTo(m, c.userEmail, c.amountCents) else m
  }

  lemma ByMemberStep(m: map<string, int>, rows: seq<Contribution>, i: nat)
    requires i < |rows| && IsByMember(m, rows[..i])
    ensures IsByMember(CountIn(m, rows[i]), rows[..i + 1])
  {
    ContributorsStep(rows, i);
    MemberTotalStep(m, rows, i);
    MemberSumsStep(m, rows, i);
  }

  lemma MemberTotalStep(m: map<string, int>, rows: seq<Contribution>, i: nat)
    requires i < |rows| && MapSum(m, SameAmount()) == TotalPaid(rows[..i])
    ensures MapSum(CountIn(m, rows[i]), SameAmount()) == TotalPaid(rows[..i + 1])
  {
    SumsStep(rows, i, rows[i].userEmail);
    AddToSum(m, rows[i].userEmail, rows[i].amountCents);
  }

  lemma MemberSumsStep(m: map<string, int>, rows: seq<Contribution>, i: nat)
    requires i < |rows| && m.Keys == Contributors(rows[..i]) && forall e :: e in m ==> m[e] == PaidBy(rows[..i], e)
    ensures var after := CountIn(m, rows[i]); forall e :: e in after ==> after[e] == PaidBy(rows[..i + 1], e)
  {
    var after := CountIn(m, rows[i]);
    NonContributorsPaidNothing(rows[..i]);
    forall e | e in after ensures after[e] == PaidBy(rows[..i + 1], e) {
      SumsStep(rows, i, e);
    }
  }

  /** The map `by_member`. */
  method SumByMember(rows: seq<Contribution>) returns (byMember: map<string, int>)
    ensures byMember.Keys == Contributors(rows)
    ensures forall e :: e in byMember ==> byMember[e] == PaidBy(rows, e)
    ensures MapSum(byMember, SameAmount()) == TotalPaid(rows)
  {
    byMember := map[];
    for i := 0 to |rows|
      invariant IsByMember(byMember, rows[..i])
    {
      ByMemberStep(byMember, rows, i);
      if rows[i].status != "rejected" {
        byMember := AddTo(byMember, rows[i].userEmail, rows[i].amountCents);
      }
    }
    assert rows[..|rows|] == rows;
  }

  function SettledIn(m: map<string, int>, dues: int): set<string> {
    set e | e in m && CountsAsSettled(m[e], dues)
  }

  /** `by_member.values().sum()` and the count of settled values. */
  method SumAndCount(byMember: map<string, int>, dues: int) returns (paid: int, settled: nat)
    ensures paid == MapSum(byMember, SameAmount())
    ensures settled == |SettledIn(byMember, dues)|
  {
    paid, settled := 0, 0;
    var left := byMember;
    while left != map[]
      invariant paid + MapSum(left, SameAmount()) == MapSum(byMember, SameAmount())
      invariant settled + |SettledIn(left, dues)| == |SettledIn(byMember, dues)|
      decreases |left|
    {
      var e :| e in left;
      MapSumRemove(left, e, SameAmount());
      SettledRemove(left, e, dues);
      paid := paid + left[e];
      if CountsAsSettled(left[e], dues) {
        settled := settled + 1;
      }
      left := left - {e};
    }
  }

  lemma SettledRemove(m: map<string, int>, e: string, dues: int)
    requires e in m
    ensures |SettledIn(m, dues)| == |SettledIn(m - {e}, dues)| + if CountsAsSettled(m[e], dues) then 1 else 0
  {
    if CountsAsSettled(m[e], dues) {
      assert SettledIn(m, dues) == SettledIn(m - {e}, dues) + {e};
    } else {
      assert SettledIn(m, dues) == SettledIn(m - {e}, dues);
    }
  }

  /** What the pool view says of the rows of one period. */
  ghost predicate IsPoolView(v: PoolSummary, rows: seq<Contribution>, members: seq<string>, dues: int) {
    v.memberCount == |members|
    && v.targetCents == SaturatingMul(dues, |members|)
    && v.paidCents == TotalPaid(rows)
    && v.remainingCents == NonNegative(v.targetCents - v.paidCents)
    && v.settledCount == |SettledContributors(rows, dues)|
  }

  /** `pool_contributions`: one map of per-member sums, then its values summed and counted. */
  method PoolContributions(rows: seq<Contribution>, members: seq<string>, dues: int) returns (s: PoolSummary)
    ensures IsPoolView(s, rows, members, dues)
  {
    var byMember := SumByMember(rows);
    var paid, settled := SumAndCount(byMember, dues);
    assert SettledIn(byMember, dues) == SettledContributors(rows, dues);
    var target := SaturatingMul(dues, |members|);
    s := PoolSummary(|members|, target, paid, NonNegative(target - paid), settled);
  }

  lemma {:induction false} NonContributorsPaidNothing(rows: seq<Contribution>)
    ensures forall e :: e !in Contributors(rows) ==> PaidBy(rows, e) == 0
  {
    if rows != [] {
      var n := |rows| - 1;
      assert rows[..n + 1] == rows;
      ContributorsStep(rows, n);
      NonContributorsPaidNothing(rows[..n]);
    }
  }

  lemma ContributorsStep(rows: seq<Contribution>, i: nat)
    requires i < |rows|
    ensures Contributors(rows[..i + 1])
         == Contributors(rows[..i]) + (if rows[i].status != "rejected" then {rows[i].userEmail} else {})
  {
    var a, b := rows[..i], rows[..i + 1];
    forall j | 0 <= j < i && rows[j].status != "rejected"
      ensures rows[j].userEmail in Contributors(a) && rows[j].userEmail in Contributors(b)
    {
      assert a[j] == rows[j] && b[j] == rows[j];
    }
    assert forall j :: 0 <= j < |b| ==> b[j] == rows[j];
    if rows[i].status != "rejected" {
      assert b[i] == rows[i];
      assert rows[i].userEmail in Contributors(b);
    }
  }

  // ---------- pool and member views ----------

  function Remaining(rows: seq<Contribution>, dues: int): string -> int {
    (e: string) => NonNegative(dues - PaidBy(rows, e))
  }

  function Overpaid(rows: seq<Contribution>, dues: int): string -> int {
    (e: string) => NonNegative(PaidBy(rows, e) - dues)
  }

  /** What non-members paid. */
  function FromOutside(members: seq<string>): Contribution -> int {
    (c: Contribution) => if c.userEmail in members then 0 else ValidCents(c)
  }

  /** Money the members' own dues do not account for: overpayments, and payments of non-members. */
  function Excess(rows: seq<Contribution>, members: seq<string>, dues: int): int {
    SeqSum(members, Overpaid(rows, dues)) + SeqSum(rows, FromOutside(members))
  }

  ghost predicate AmountsPositive(rows: seq<Contribution>) {
    forall i :: 0 <= i < |rows| ==> rows[i].amountCents > 0
  }

  /** The total splits into what the listed members paid and what came from outside. */
  lemma {:induction false} TotalByMembers(rows: seq<Contribution>, members: seq<string>)
    requires Distinct(members)
    ensures TotalPaid(rows) == SeqSum(members, (e: string) => PaidBy(rows, e)) + SeqSum(rows, FromOutside(members))
  {
    if members == [] {
      SeqSumSame(rows, (c: Contribution) => ValidCents(c), FromOutside([]));
    } else {
      var n := |members| - 1;
      var front, e := members[..n], members[n];
      TotalByMembers(rows, front);
      assert members == front + [e];
      assert e !in front;
      SeqSumSplit(rows, FromOutside(front), FromOutside(members), ValidFrom(e));
    }
  }

  lemma OneMore(dues: int, n: nat)
    ensures dues * (n + 1) == dues * n + dues
  {
  }

  /** Dues still owed minus excess is the target minus the total. */
  lemma {:induction false} Balance(rows: seq<Contribution>, members: seq<string>, dues: int)
    ensures SeqSum(members, Remaining(rows, dues)) - SeqSum(members, Overpaid(rows, dues))
         == dues * |members| - SeqSum(members, (e: string) => PaidBy(rows, e))
  {
    if members != [] {
      var n := |members| - 1;
      Balance(rows, members[..n], dues);
      OneMore(dues, n);
      var e := members[n];
      assert Remaining(rows, dues)(e) - Overpaid(rows, dues)(e) == dues - PaidBy(rows, e);
    }
  }

  /** The pool's remaining amount is the sum of the members' remaining amounts exactly when there is no
      excess, or nobody has anything remaining. */
  lemma PoolAgreesExactlyWithoutExcess(rows: seq<Contribution>, members: seq<string>, dues: int)
    requires Distinct(members) && AmountsPositive(rows)
    requires I64_MIN <= dues * |members| <= I64_MAX
    ensures NonNegative(SaturatingMul(dues, |members|) - TotalPaid(rows)) == SeqSum(members, Remaining(rows, dues))
            <==> Excess(rows, members, dues) == 0 || SeqSum(members, Remaining(rows, dues)) == 0
  {
    RemainingAndExcess(rows, members, dues);
    SeqSumNonNegative(members, Remaining(rows, dues));
    SeqSumNonNegative(members, Overpaid(rows, dues));
    SeqSumNonNegative(rows, FromOutside(members));
  }

  /** What remains for the members minus the excess is what the pool is short of its target. */
  lemma RemainingAndExcess(rows: seq<Contribution>, members: seq<string>, dues: int)
    requires Distinct(members)
    ensures SeqSum(members, Remaining(rows, dues)) - Excess(rows, members, dues) == dues * |members| - TotalPaid(rows)
  {
    Balance(rows, members, dues);
    TotalByMembers(rows, members);
  }

  /** There is no excess exactly when every member is within the dues and every payer is a member. */
  lemma NoExcessIff(rows: seq<Contribution>, members: seq<string>, dues: int)
    requires AmountsPositive(rows)
    ensures Excess(rows, members, dues) == 0
            <==> (forall i :: 0 <= i < |members| ==> PaidBy(rows, members[i]) <= dues)
                 && forall e :: e in Contributors(rows) ==> e in members
  {
    SeqSumNonNegative(members, Overpaid(rows, dues));
    SeqSumNonNegative(rows, FromOutside(members));
    if SeqSum(rows, FromOutside(members)) == 0 {
      forall e | e in Contributors(rows) ensures e in members {
        var i :| 0 <= i < |rows| && rows[i].status != "rejected" && rows[i].userEmail == e;
        assert FromOutside(members)(rows[i]) == 0;
      }
    }
    if forall e :: e in Contributors(rows) ==> e in members {
      forall i | 0 <= i < |rows| ensures FromOutside(members)(rows[i]) == 0 {
        assert rows[i].status != "rejected" ==> rows[i].userEmail in Contributors(rows);
      }
    }
  }

  // ---------- settled members ----------

  ghost function SettledMembers(rows: seq<Contribution>, members: seq<string>, dues: int): set<string> {
    set e | e in members && Remaining(rows, dues)(e) == 0
  }

  function Elements(s: seq<string>): set<string> {
    set e | e in s
  }

  lemma {:induction false} DistinctCount(s: seq<string>)
    requires Distinct(s)
    ensures |Elements(s)| == |s|
  {
    if s != [] {
      var n := |s| - 1;
      DistinctCount(s[..n]);
      assert s == s[..n] + [s[n]];
      assert Elements(s) == Elements(s[..n]) + {s[n]} && s[n] !in Elements(s[..n]);
    }
  }

  lemma SubsetCount(a: set<string>, b: set<string>)
    requires a <= b
    ensures |a| <= |b| && (|a| == |b| <==> a == b)
  {
    assert b == a + (b - a);
    assert |b| == |a| + |b - a|;
  }

  /** With dues and every payer a member, `settled_count` counts the members with nothing remaining,
      and everybody is settled exactly when nothing remains for anybody. */
  lemma SettledCountsMembers(rows: seq<Contribution>, members: seq<string>, dues: int)
    requires dues > 0 && Distinct(members)
    requires forall e :: e in Contributors(rows) ==> e in members
    ensures SettledContributors(rows, dues) == SettledMembers(rows, members, dues)
    ensures |SettledContributors(rows, dues)| == |members| <==> SeqSum(members, Remaining(rows, dues)) == 0
  {
    NonContributorsPaidNothing(rows);
    assert SettledContributors(rows, dues) == SettledMembers(rows, members, dues);
    DistinctCount(members);
    SubsetCount(SettledMembers(rows, members, dues), Elements(members));
    SeqSumNonNegative(members, Remaining(rows, dues));
    if SettledMembers(rows, members, dues) == Elements(members) {
      forall i | 0 <= i < |members| ensures Remaining(rows, dues)(members[i]) == 0 {
        assert members[i] in Elements(members);
      }
    }
  }

  lemma {:induction false} ContributorsPaidSomething(rows: seq<Contribution>, e: string)
    requires AmountsPositive(rows)
    ensures PaidBy(rows, e) >= 0
    ensures PaidBy(rows, e) > 0 <==> e in Contributors(rows)
  {
    if rows != [] {
      var n := |rows| - 1;
      assert rows[..n + 1] == rows;
      assert AmountsPositive(rows[..n]) by {
        assert forall i :: 0 <= i < n ==> rows[..n][i] == rows[i];
      }
      ContributorsStep(rows, n);
      ContributorsPaidSomething(rows[..n], e);
    }
  }

  /** Without dues everybody who paid anything counts as settled, so the count is the number of different payers. */
  lemma SettledWithoutDues(rows: seq<Contribution>, members: seq<string>, dues: int, v: PoolSummary)
    requires AmountsPositive(rows) && dues <= 0 && IsPoolView(v, rows, members, dues)
    ensures v.settledCount == |Contributors(rows)|
  {
    forall e ensures e in SettledContributors(rows, dues) <==> e in Contributors(rows) {
      ContributorsPaidSomething(rows, e);
    }
    assert SettledContributors(rows, dues) == Contributors(rows);
  }

  /** With dues it is the number of different payers who paid them in full. */
  lemma SettledWithDues(rows: seq<Contribution>, members: seq<string>, dues: int, v: PoolSummary)
    requires dues > 0 && IsPoolView(v, rows, members, dues)
    ensures v.settledCount == |set e | e in Contributors(rows) && PaidBy(rows, e) >= dues|
  {
    assert SettledContributors(rows, dues) == set e | e in Contributors(rows) && PaidBy(rows, e) >= dues;
  }

  function Distance(a: int, b: int): nat {
    if a < b then b - a else a - b
  }

  /** The target is the i64 nearest to dues times members, and what remains is never negative. */
  lemma TargetNearest(v: PoolSummary, rows: seq<Contribution>, members: seq<string>, dues: int, other: int)
    requires IsPoolView(v, rows, members, dues) && I64_MIN <= other <= I64_MAX
    ensures I64_MIN <= v.targetCents <= I64_MAX
    ensures Distance(v.targetCents, dues * |members|) <= Distance(other, dues * |members|)
    ensures v.remainingCents >= 0 && v.remainingCents >= v.targetCents - v.paidCents
    ensures v.remainingCents == 0 || v.remainingCents + v.paidCents == v.targetCents
  {
  }

  // ---------- over runs of the ledger ----------

  /** The rows `list_pool_contributions` selects. */
  ghost function ByPeriod(table: map<nat, Contribution>, period: string): map<nat, Contribution> {
    map id | id in table && table[id].period == period :: table[id]
  }

  lemma {:induction false} MapSumSubtable<K, V>(m: map<K, V>, part: map<K, V>, f: V -> int)
    requires part.Keys <= m.Keys && forall k :: k in part ==> part[k] == m[k]
    requires forall k :: k in m && k !in part ==> f(m[k]) == 0
    ensures MapSum(part, f) == MapSum(m, f)
    decreases |m|
  {
    if part.Keys == m.Keys {
      assert part == m;
    } else {
      var k :| k in m && k !in part;
      MapSumRemove(m, k, f);
      MapSumSubtable(m - {k}, part, f);
    }
  }

  /** What the pool view calls a member's payments is what `period_summary` reports for that member. */
  lemma PaidByIsSummaryPaid(table: map<nat, Contribution>, ids: seq<nat>, period: string, email: string)
    requires Lists(ids, ByPeriod(table, period))
    ensures PaidBy(Rows(ids, ByPeriod(table, period)), email) == Paid(table, email, period)
  {
    var part := ByPeriod(table, period);
    forall i | 0 <= i < |ids| ensures Rows(ids, part)[i].period == period {
      assert ids[i] in ids;
    }
    SeqSumSame(Rows(ids, part), ValidFrom(email), Counted(email, period));
    SeqSumOfTable(ids, part, Counted(email, period));
    MapSumSubtable(table, part, Counted(email, period));
  }

  /** `remaining_cents` of a member's `period_summary`. */
  ghost function SummaryRemaining(s: State, period: string): string -> int {
    (e: string) => NonNegative(s.settings.duesAmountCents - Paid(s.rows, e, period))
  }

  /** A table whose rows are valid and whose sums are within the dues. */
  ghost predicate CappedAt(t: State, dues: int) {
    dues > 0 && t.settings.duesAmountCents == dues && RowsValid(t) && EverySumWithin(t, dues)
  }

  lemma ReachesCapped(s: State, ops: seq<Op>, dues: int)
    requires dues > 0 && s.settings.duesAmountCents == dues && s.rows == map[]
    requires forall i :: 0 <= i < |ops| ==> KeepsDues(ops[i], dues)
    ensures CappedAt(TenantLedger.Run(s, ops), dues)
  {
    FreshLedgerWithinCaps(s);
    forall e, p ensures Paid(s.rows, e, p) <= dues {
    }
    ConstantDuesCap(s, ops, dues);
    RunKeepsRowsValid(s, ops);
  }

  lemma MemberWithinDues(t: State, dues: int, period: string, ids: seq<nat>, e: string)
    requires EverySumWithin(t, dues) && Lists(ids, ByPeriod(t.rows, period))
    ensures PaidBy(Rows(ids, ByPeriod(t.rows, period)), e) == Paid(t.rows, e, period) <= dues
  {
    PaidByIsSummaryPaid(t.rows, ids, period, e);
  }

  lemma PositiveAmounts(t: State, period: string, ids: seq<nat>)
    requires RowsValid(t) && Lists(ids, ByPeriod(t.rows, period))
    ensures AmountsPositive(Rows(ids, ByPeriod(t.rows, period)))
  {
    forall i | 0 <= i < |ids| ensures ids[i] in t.rows && t.rows[ids[i]].amountCents > 0 {
      assert ids[i] in ids;
    }
  }

  /** What the pool view must say to agree with the members' summaries: the same money remains, and
      nothing remains exactly when the settled count is the member count. */
  ghost predicate Agrees(v: PoolSummary, t: State, period: string, members: seq<string>) {
    v.remainingCents == SeqSum(members, SummaryRemaining(t, period))
    && (v.remainingCents == 0 <==> v.settledCount == v.memberCount)
  }

  lemma RemainingSame(t: State, rows: seq<Contribution>, dues: int, period: string, members: seq<string>)
    requires t.settings.duesAmountCents == dues
    requires forall e :: PaidBy(rows, e) == Paid(t.rows, e, period)
    ensures SeqSum(members, Remaining(rows, dues)) == SeqSum(members, SummaryRemaining(t, period))
  {
    SeqSumSame(members, Remaining(rows, dues), SummaryRemaining(t, period));
  }

  lemma TargetFits(dues: int, count: nat)
    requires dues > 0
    ensures dues * count >= 0
  {
  }

  lemma PoolRemaining(rows: seq<Contribution>, members: seq<string>, dues: int)
    requires dues > 0 && Distinct(members) && dues * |members| <= I64_MAX && AmountsPositive(rows)
    requires forall e :: e in Contributors(rows) ==> e in members
    requires forall e :: PaidBy(rows, e) <= dues
    ensures NonNegative(SaturatingMul(dues, |members|) - TotalPaid(rows)) == SeqSum(members, Remaining(rows, dues))
  {
    NoExcessIff(rows, members, dues);
    TargetFits(dues, |members|);
    PoolAgreesExactlyWithoutExcess(rows, members, dues);
  }

  lemma AgreesForRows(v: PoolSummary, t: State, rows: seq<Contribution>, dues: int, period: string,
                      members: seq<string>)
    requires IsPoolView(v, rows, members, dues)
    requires dues > 0 && Distinct(members) && dues * |members| <= I64_MAX && AmountsPositive(rows)
    requires forall e :: e in Contributors(rows) ==> e in members
    requires t.settings.duesAmountCents == dues
    requires forall e :: PaidBy(rows, e) == Paid(t.rows, e, period) <= dues
    ensures Agrees(v, t, period, members)
  {
    PoolRemaining(rows, members, dues);
    RemainingSame(t, rows, dues, period, members);
    SettledCountsMembers(rows, members, dues);
  }

  /** With positive dues, the cap holding and every payer a member, the pool view of any period agrees
      with the members' summaries. `ReachesCapped` says that every run under constant dues gets here. */
  lemma PoolAgreesWithSummaries(v: PoolSummary, t: State, dues: int, period: string, ids: seq<nat>,
                                members: seq<string>)
    requires Lists(ids, ByPeriod(t.rows, period)) && IsPoolView(v, Rows(ids, ByPeriod(t.rows, period)), members, dues)
    requires CappedAt(t, dues)
    requires Distinct(members) && dues * |members| <= I64_MAX
    requires forall e :: e in Contributors(Rows(ids, ByPeriod(t.rows, period))) ==> e in members
    ensures Agrees(v, t, period, members)
  {
    PositiveAmounts(t, period, ids);
    var rows := Rows(ids, ByPeriod(t.rows, period));
    forall e ensures PaidBy(rows, e) == Paid(t.rows, e, period) <= dues {
      MemberWithinDues(t, dues, period, ids, e);
    }
    AgreesForRows(v, t, rows, dues, period, members);
  }

  // ---------- the member list ----------

  /** `list_tenant_members`: the memberships of a venture, each joined with its user's email. */
  function MemberEmails(p: Plane, memberships: seq<(nat, string)>): (r: seq<string>)
    ensures |r| == |memberships|
  {
    seq(|memberships|, i requires 0 <= i < |memberships| =>
      if memberships[i].0 in p.users then p.users[memberships[i].0] else "")
  }

  /** `memberships` lists memberships of the venture `slug`, each once. */
  ghost predicate ListsMemberships(p: Plane, slug: string, memberships: seq<(nat, string)>) {
    (forall i :: 0 <= i < |memberships| ==> memberships[i] in p.memberships && memberships[i].1 == slug)
    && Distinct(memberships)
  }

  /** Where the control plane is intact, as in every reachable state, the join finds every user,
      and no email appears twice. */
  lemma MemberEmailsDistinct(p: Plane, slug: string, memberships: seq<(nat, string)>)
    requires Intact(p) && ListsMemberships(p, slug, memberships)
    ensures Distinct(MemberEmails(p, memberships))
    ensures forall i :: 0 <= i < |memberships| ==>
              memberships[i].0 in p.users && MemberEmails(p, memberships)[i] == p.users[memberships[i].0]
  {
    var r := MemberEmails(p, memberships);
    forall i, j | 0 <= i < j < |r| ensures r[i] != r[j] {
      assert memberships[i] in p.memberships && memberships[j] in p.memberships;
      assert memberships[i].0 != memberships[j].0;
    }
  }
}
