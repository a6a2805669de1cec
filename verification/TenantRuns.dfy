/** What the tenant ledger promises over whole runs. */
module TenantRuns {
  import opened Text
  import opened Calendar
  import opened Periods
  import opened Sums
  import opened TenantLedger

  // ---------- the shape of runs ----------

  lemma {:induction false} ClockOnlyAdvances(s: State, ops: seq<Op>)
    ensures s.now <= Run(s, ops).now
    decreases |ops|
  {
    if ops != [] {
      ClockOnlyAdvances(After(s, ops[0]), ops[1..]);
    }
  }

  lemma PrintableBetween(a: int, b: int, c: int)
    requires a <= b <= c && PrintableInstant(a) && PrintableInstant(c)
    ensures PrintableInstant(b)
  {
    DayMonotone(a, b);
    DayMonotone(b, c);
  }

  /** The stored rows always satisfy the field asserts. */
  ghost predicate RowsValid(s: State) {
    forall id :: id in s.rows ==> RowAsserts(s.rows[id], s.isEmail)
  }

  lemma {:induction false} RunKeepsRowsValid(s: State, ops: seq<Op>)
    requires RowsValid(s)
    ensures RowsValid(Run(s, ops))
    decreases |ops|
  {
    if ops != [] {
      RunKeepsRowsValid(After(s, ops[0]), ops[1..]);
    }
  }

  // ---------- frozen periods ----------

  /** The rows of one cadence and period. */
  ghost function Slice(rows: map<nat, Contribution>, cadence: string, period: string): map<nat, Contribution> {
    map id | id in rows && rows[id].cadence == cadence && rows[id].period == period :: rows[id]
  }

  /** An update that leaves the cadence and the period of a locked row as they are. */
  ghost predicate KeepsLockedLabels(s: State, op: Op) {
    op.UpdateRow? && op.id in s.rows && Locked(s.rows[op.id], s.now)
    ==> op.draft.cadence == s.rows[op.id].cadence && op.draft.period == s.rows[op.id].period
  }

  ghost predicate RunKeepsLockedLabels(s: State, ops: seq<Op>)
    decreases |ops|
  {
    ops != [] ==> KeepsLockedLabels(s, ops[0]) && RunKeepsLockedLabels(After(s, ops[0]), ops[1..])
  }

  /** What the asserts and the two events ask of a row about to be written. */
  ghost predicate Admissible(s: State, id: nat, w: Contribution) {
    RowAsserts(w, s.isEmail) && !Locked(w, s.now)
    && (w.status == "rejected" || s.settings.duesAmountCents <= 0
        || Paid(s.rows[id := w], w.userEmail, w.period) <= s.settings.duesAmountCents)
  }

  lemma AcceptedIffAdmissible(s: State, id: nat, w: Contribution)
    ensures WriteVerdict(s, id, w) == Accepted <==> Admissible(s, id, w)
  {
  }

  predicate Labelled(c: Contribution, cadence: string, period: string) {
    c.cadence == cadence && c.period == period
  }

  lemma SliceAfterPut(rows: map<nat, Contribution>, id: nat, w: Contribution, cadence: string, period: string)
    requires !Labelled(w, cadence, period)
    ensures Slice(rows[id := w], cadence, period) == Slice(rows, cadence, period) - {id}
  {
  }

  lemma SliceAfterDelete(rows: map<nat, Contribution>, id: nat, cadence: string, period: string)
    ensures Slice(rows - {id}, cadence, period) == Slice(rows, cadence, period) - {id}
  {
  }

  lemma RemovingMatters<K, V>(m: map<K, V>, k: K)
    ensures m - {k} != m <==> k in m
  {
    if k !in m {
      assert m - {k} == m;
    }
  }

  lemma FrozenPut(s: State, op: Op, cadence: string, period: string)
    requires Less(period, CurrentPeriodFor(cadence, s.now))
    requires (op.CreateRow? && op.id !in s.rows) || (op.UpdateRow? && op.id in s.rows)
    ensures Slice(After(s, op).rows, cadence, period) != Slice(s.rows, cadence, period)
            <==> op.id in Slice(s.rows, cadence, period) && Admissible(s, op.id, Written(s, op))
  {
    var w := Written(s, op);
    AcceptedIffAdmissible(s, op.id, w);
    assert Labelled(w, cadence, period) ==> Locked(w, s.now);
    if Admissible(s, op.id, w) {
      SliceAfterPut(s.rows, op.id, w, cadence, period);
      RemovingMatters(Slice(s.rows, cadence, period), op.id);
    }
  }

  lemma FrozenDelete(s: State, id: nat, cadence: string, period: string)
    requires Less(period, CurrentPeriodFor(cadence, s.now))
    ensures Slice(After(s, DeleteRow(id)).rows, cadence, period) == Slice(s.rows, cadence, period)
  {
    if id in s.rows && !Locked(s.rows[id], s.now) {
      assert id !in Slice(s.rows, cadence, period);
      SliceAfterDelete(s.rows, id, cadence, period);
      RemovingMatters(Slice(s.rows, cadence, period), id);
    }
  }

  lemma OnlyRowOpsTouchRows(s: State, op: Op)
    requires !op.DeleteRow? && !(op.CreateRow? && op.id !in s.rows) && !(op.UpdateRow? && op.id in s.rows)
    ensures After(s, op).rows == s.rows
  {
  }

  /** Whether one step changes a closed slice is decided by the written row alone: the step must
      relabel a row of the slice to a period still open, within the cap that applies there. */
  lemma FrozenBrokenExactlyByRelabel(s: State, op: Op, cadence: string, period: string)
    requires Less(period, CurrentPeriodFor(cadence, s.now))
    ensures Slice(After(s, op).rows, cadence, period) != Slice(s.rows, cadence, period)
            <==> op.UpdateRow? && op.id in Slice(s.rows, cadence, period) && Admissible(s, op.id, Written(s, op))
  {
    if (op.CreateRow? && op.id !in s.rows) || (op.UpdateRow? && op.id in s.rows) {
      FrozenPut(s, op, cadence, period);
    } else if op.DeleteRow? {
      FrozenDelete(s, op.id, cadence, period);
    } else {
      OnlyRowOpsTouchRows(s, op);
    }
  }

  /** Such a step: it takes a row out of the slice. */
  ghost predicate TakesRow(s: State, op: Op, cadence: string, period: string) {
    op.UpdateRow? && op.id in Slice(s.rows, cadence, period) && Admissible(s, op.id, Written(s, op))
  }

  ghost predicate NeverTakesRow(s: State, ops: seq<Op>, cadence: string, period: string)
    decreases |ops|
  {
    ops != [] ==> !TakesRow(s, ops[0], cadence, period) && NeverTakesRow(After(s, ops[0]), ops[1..], cadence, period)
  }

  /** It takes that one row and adds or alters none. */
  lemma TakingShrinks(s: State, op: Op, cadence: string, period: string)
    requires Less(period, CurrentPeriodFor(cadence, s.now)) && TakesRow(s, op, cadence, period)
    ensures Slice(After(s, op).rows, cadence, period) == Slice(s.rows, cadence, period) - {op.id}
  {
    var w := Written(s, op);
    AcceptedIffAdmissible(s, op.id, w);
    assert !Labelled(w, cadence, period);
    SliceAfterPut(s.rows, op.id, w, cadence, period);
  }

  /** A period once closed stays closed. */
  lemma StaysClosed(s: State, op: Op, cadence: string, period: string)
    requires PrintableInstant(s.now) && PrintableInstant(After(s, op).now)
    requires Less(period, CurrentPeriodFor(cadence, s.now))
    ensures Less(period, CurrentPeriodFor(cadence, After(s, op).now))
  {
    var cur, next := CurrentPeriodFor(cadence, s.now), CurrentPeriodFor(cadence, After(s, op).now);
    ClockOnlyAdvances(s, [op]);
    assert Run(s, [op]) == After(s, op);
    CurrentPeriodMonotone(cadence, s.now, After(s, op).now);
    if cur != next {
      LessTransitive(period, cur, next);
    }
  }

  ghost predicate SubTable<K(!new), V(!new)>(a: map<K, V>, b: map<K, V>) {
    forall k :: k in a ==> k in b && a[k] == b[k]
  }

  lemma PrintableNext(s: State, ops: seq<Op>)
    requires ops != [] && PrintableInstant(s.now) && PrintableInstant(Run(s, ops).now)
    ensures PrintableInstant(After(s, ops[0]).now)
  {
    var t := After(s, ops[0]);
    ClockOnlyAdvances(s, [ops[0]]);
    assert Run(s, [ops[0]]) == t;
    ClockOnlyAdvances(t, ops[1..]);
    PrintableBetween(s.now, t.now, Run(s, ops).now);
  }

  /** Closed periods are permanent: once a cadence has moved past `period`, no run adds or alters a row of
      that cadence and period, and all of them stay exactly if no step relabels one. */
  lemma {:induction false} FrozenExactlyIf(s: State, ops: seq<Op>, cadence: string, period: string)
    requires PrintableInstant(s.now) && PrintableInstant(Run(s, ops).now)
    requires Less(period, CurrentPeriodFor(cadence, s.now))
    ensures SubTable(Slice(Run(s, ops).rows, cadence, period), Slice(s.rows, cadence, period))
    ensures Slice(Run(s, ops).rows, cadence, period) == Slice(s.rows, cadence, period)
            <==> NeverTakesRow(s, ops, cadence, period)
    decreases |ops|
  {
    if ops != [] {
      var t := After(s, ops[0]);
      PrintableNext(s, ops);
      StaysClosed(s, ops[0], cadence, period);
      FrozenExactlyIf(t, ops[1..], cadence, period);
      FrozenBrokenExactlyByRelabel(s, ops[0], cadence, period);
      if TakesRow(s, ops[0], cadence, period) {
        TakingShrinks(s, ops[0], cadence, period);
        assert ops[0].id !in Slice(Run(t, ops[1..]).rows, cadence, period);
      }
    }
  }

  /** An update of a closed period's row that keeps its labels is never accepted. */
  lemma KeptLabelsTakeNothing(s: State, op: Op, cadence: string, period: string)
    requires Less(period, CurrentPeriodFor(cadence, s.now)) && KeepsLockedLabels(s, op)
    ensures !TakesRow(s, op, cadence, period)
  {
  }

  lemma {:induction false} KeptLabelsNeverTake(s: State, ops: seq<Op>, cadence: string, period: string)
    requires PrintableInstant(s.now) && PrintableInstant(Run(s, ops).now)
    requires Less(period, CurrentPeriodFor(cadence, s.now)) && RunKeepsLockedLabels(s, ops)
    ensures NeverTakesRow(s, ops, cadence, period)
    decreases |ops|
  {
    if ops != [] {
      PrintableNext(s, ops);
      StaysClosed(s, ops[0], cadence, period);
      KeptLabelsTakeNothing(s, ops[0], cadence, period);
      KeptLabelsNeverTake(After(s, ops[0]), ops[1..], cadence, period);
    }
  }

  /** In particular nothing of a closed period changes over a run that keeps the labels of locked rows. */
  lemma FrozenOverRuns(s: State, ops: seq<Op>, cadence: string, period: string)
    requires PrintableInstant(s.now) && PrintableInstant(Run(s, ops).now)
    requires Less(period, CurrentPeriodFor(cadence, s.now))
    requires RunKeepsLockedLabels(s, ops)
    ensures Slice(Run(s, ops).rows, cadence, period) == Slice(s.rows, cadence, period)
  {
    KeptLabelsNeverTake(s, ops, cadence, period);
    FrozenExactlyIf(s, ops, cadence, period);
  }

  /** The period now open in a cadence is well shaped and not locked. */
  lemma CurrentPeriodOpen(cadence: string, now: int)
    requires PrintableInstant(now)
    ensures var cur := CurrentPeriodFor(cadence, now); MatchesSchema(cur) && !Less(cur, cur)
  {
    var p := PeriodAt(LockCadence(cadence), DayOf(now));
    PrintableDays(LockCadence(cadence), DayOf(now));
    PrintMatches(p, p.Cadence());
    LessIrreflexive(Print(p));
  }

  lemma RejectedAccepted(s: State, id: nat, w: Contribution)
    requires RowAsserts(w, s.isEmail) && !Locked(w, s.now) && w.status == "rejected"
    ensures WriteVerdict(s, id, w) == Accepted
  {
  }

  /** Without that restriction the promise fails: any locked row can be moved, as rejected, into
      the current period of its cadence, because the lock event looks at the row after the write. */
  lemma RelabelEscapesLock(s: State, id: nat)
    requires RowsValid(s) && PrintableInstant(s.now)
    requires id in s.rows && Locked(s.rows[id], s.now)
    ensures var c := s.rows[id];
            var cur := CurrentPeriodFor(c.cadence, s.now);
            var op := UpdateRow(id, Draft(c.userEmail, c.cadence, cur, c.amountCents, "rejected", c.proofKey, c.note));
            Verdict(s, op) == Accepted && id !in Slice(After(s, op).rows, c.cadence, c.period)
  {
    var c := s.rows[id];
    var cur := CurrentPeriodFor(c.cadence, s.now);
    CurrentPeriodOpen(c.cadence, s.now);
    var w := Contribution(c.userEmail, c.cadence, cur, c.amountCents, "rejected", c.proofKey, c.note, c.submittedAt);
    RejectedAccepted(s, id, w);
    assert c.period != cur;
  }

  // ---------- the dues cap ----------

  type Key = (string, string)

  /** For each (email, period), the dues in force at the last accepted non-rejected write to it. */
  ghost function CapsAfter(s: State, op: Op, caps: map<Key, int>): map<Key, int> {
    if (op.CreateRow? || op.UpdateRow?) && Verdict(s, op) == Accepted && op.draft.status != "rejected"
    then caps[(op.draft.userEmail, op.draft.period) := s.settings.duesAmountCents]
    else caps
  }

  ghost function RunCaps(s: State, ops: seq<Op>, caps: map<Key, int>): map<Key, int>
    decreases |ops|
  {
    if ops == [] then caps else RunCaps(After(s, ops[0]), ops[1..], CapsAfter(s, ops[0], caps))
  }

  /** A key never written holds nothing; a key last written under positive dues holds at most those. */
  ghost predicate WithinCaps(s: State, caps: map<Key, int>) {
    forall e, p :: if (e, p) in caps then caps[(e, p)] > 0 ==> Paid(s.rows, e, p) <= caps[(e, p)]
                   else Paid(s.rows, e, p) == 0
  }

  /** The effect of one write on every sum: the old row leaves, the new one enters. */
  lemma PaidAfterPut(rows: map<nat, Contribution>, id: nat, w: Contribution, e: string, p: string)
    ensures Paid(rows[id := w], e, p)
         == Paid(rows, e, p) - (if id in rows then Counted(e, p)(rows[id]) else 0) + Counted(e, p)(w)
  {
    MapSumPut(rows, id, w, Counted(e, p));
    MapSumWithout(rows, id, Counted(e, p));
  }

  lemma PaidNonNegative(s: State, e: string, p: string)
    requires RowsValid(s)
    ensures Paid(s.rows, e, p) >= 0
  {
    MapSumNonNegative(s.rows, Counted(e, p));
  }

  /** No accepted step raises the sum of a key except a non-rejected write to that very key,
      and such a write leaves it within the dues then in force. */
  lemma StepRaisesOnlyTheWrittenKey(s: State, op: Op, e: string, p: string)
    requires RowsValid(s)
    ensures Paid(After(s, op).rows, e, p) > Paid(s.rows, e, p) ==>
              (op.CreateRow? || op.UpdateRow?) && Verdict(s, op) == Accepted
              && op.draft.status != "rejected" && op.draft.userEmail == e && op.draft.period == p
    ensures (op.CreateRow? || op.UpdateRow?) && Verdict(s, op) == Accepted && op.draft.status != "rejected"
            && op.draft.userEmail == e && op.draft.period == p && s.settings.duesAmountCents > 0
            ==> Paid(After(s, op).rows, e, p) <= s.settings.duesAmountCents
  {
    if Verdict(s, op) == Accepted {
      if op.CreateRow? || op.UpdateRow? {
        PaidAfterPut(s.rows, op.id, Written(s, op), e, p);
      } else if op.DeleteRow? {
        MapSumWithout(s.rows, op.id, Counted(e, p));
      }
    }
  }

  lemma StepKeepsCaps(s: State, op: Op, caps: map<Key, int>)
    requires RowsValid(s) && WithinCaps(s, caps)
    ensures RowsValid(After(s, op)) && WithinCaps(After(s, op), CapsAfter(s, op, caps))
  {
    var t, caps' := After(s, op), CapsAfter(s, op, caps);
    forall e, p
      ensures if (e, p) in caps' then caps'[(e, p)] > 0 ==> Paid(t.rows, e, p) <= caps'[(e, p)]
              else Paid(t.rows, e, p) == 0
    {
      KeyStaysWithinCap(s, op, caps, e, p);
    }
    RunKeepsRowsValid(s, [op]);
    assert Run(s, [op]) == t;
  }

  lemma KeyStaysWithinCap(s: State, op: Op, caps: map<Key, int>, e: string, p: string)
    requires RowsValid(s) && WithinCaps(s, caps)
    ensures var t, caps' := After(s, op), CapsAfter(s, op, caps);
            if (e, p) in caps' then caps'[(e, p)] > 0 ==> Paid(t.rows, e, p) <= caps'[(e, p)]
            else Paid(t.rows, e, p) == 0
  {
    StepRaisesOnlyTheWrittenKey(s, op, e, p);
    RunKeepsRowsValid(s, [op]);
    assert Run(s, [op]) == After(s, op);
    PaidNonNegative(After(s, op), e, p);
  }

  /** Nobody overpays: from an empty table, after any run, every (email, period) holds at most the
      dues in force at the last accepted non-rejected write to it, when those were positive. */
  lemma {:induction false} DuesCapOverRuns(s: State, ops: seq<Op>, caps: map<Key, int>)
    requires RowsValid(s) && WithinCaps(s, caps)
    ensures WithinCaps(Run(s, ops), RunCaps(s, ops, caps))
    decreases |ops|
  {
    if ops != [] {
      StepKeepsCaps(s, ops[0], caps);
      DuesCapOverRuns(After(s, ops[0]), ops[1..], CapsAfter(s, ops[0], caps));
    }
  }

  lemma FreshLedgerWithinCaps(s: State)
    requires s.rows == map[]
    ensures RowsValid(s) && WithinCaps(s, map[])
  {
    forall e, p ensures Paid(s.rows, e, p) == 0 {
    }
  }

  ghost predicate KeepsDues(op: Op, dues: int) {
    op.ChangeSettings? ==> op.patch.duesAmountCents.None? || op.patch.duesAmountCents.value == dues
  }

  ghost predicate EverySumWithin(s: State, dues: int) {
    forall e, p :: Paid(s.rows, e, p) <= dues
  }

  /** While the dues stay at one positive amount no sum ever exceeds it. */
  lemma {:induction false} ConstantDuesCap(s: State, ops: seq<Op>, dues: int)
    requires dues > 0 && s.settings.duesAmountCents == dues
    requires RowsValid(s) && EverySumWithin(s, dues)
    requires forall i :: 0 <= i < |ops| ==> KeepsDues(ops[i], dues)
    ensures EverySumWithin(Run(s, ops), dues) && Run(s, ops).settings.duesAmountCents == dues
    decreases |ops|
  {
    if ops != [] {
      var op, t := ops[0], After(s, ops[0]);
      forall e, p ensures Paid(t.rows, e, p) <= dues {
        StepRaisesOnlyTheWrittenKey(s, op, e, p);
      }
      assert RowsValid(t);
      assert forall i :: 0 <= i < |ops[1..]| ==> ops[1..][i] == ops[i + 1];
      ConstantDuesCap(t, ops[1..], dues);
    }
  }

  /** Some sum is above the current dues. */
  ghost predicate Over(s: State) {
    s.settings.duesAmountCents > 0 && SomeSumAbove(s, s.settings.duesAmountCents)
  }

  ghost predicate SomeSumAbove(s: State, dues: int) {
    exists e, p :: Paid(s.rows, e, p) > dues
  }

  /** An accepted change of settings to positive dues below a sum already paid; the dues
      before it may have been higher, or none. */
  ghost predicate SetsDuesBelowASum(s: State, op: Op) {
    op.ChangeSettings? && op.patch.duesAmountCents.Some? && Verdict(s, op) == Accepted
    && op.patch.duesAmountCents.value > 0 && SomeSumAbove(s, op.patch.duesAmountCents.value)
  }

  /** The cap speaks of the dues at the write, not of the current ones. Where no sum is above the dues,
      a step puts one above them exactly if it sets the dues below a sum already paid. */
  lemma OverExactlyBySettingDues(s: State, op: Op)
    requires RowsValid(s) && !Over(s)
    ensures Over(After(s, op)) <==> SetsDuesBelowASum(s, op)
  {
    var t := After(s, op);
    if op.ChangeSettings? {
      SettingsOver(s, op);
    } else if Over(t) {
      var e, p :| Paid(t.rows, e, p) > t.settings.duesAmountCents;
      StepRaisesOnlyTheWrittenKey(s, op, e, p);
      assert false;
    }
  }

  lemma SettingsOver(s: State, op: Op)
    requires !Over(s) && op.ChangeSettings?
    ensures Over(After(s, op)) <==> SetsDuesBelowASum(s, op)
  {
    var t := After(s, op);
    assert t.rows == s.rows;
    if Over(t) {
      var e, p :| Paid(t.rows, e, p) > t.settings.duesAmountCents;
      assert Paid(s.rows, e, p) > t.settings.duesAmountCents;
    }
    if SetsDuesBelowASum(s, op) {
      var e, p :| Paid(s.rows, e, p) > op.patch.duesAmountCents.value;
      assert Paid(t.rows, e, p) > t.settings.duesAmountCents;
    }
  }

  ghost predicate NeverOver(s: State, ops: seq<Op>)
    decreases |ops|
  {
    !Over(s) && (ops != [] ==> NeverOver(After(s, ops[0]), ops[1..]))
  }

  ghost predicate NeverSetsDuesBelowASum(s: State, ops: seq<Op>)
    decreases |ops|
  {
    ops != [] ==> !SetsDuesBelowASum(s, ops[0]) && NeverSetsDuesBelowASum(After(s, ops[0]), ops[1..])
  }

  /** Over any run: every sum stays within the current dues throughout, exactly if no step sets the
      dues below a sum already paid. */
  lemma {:induction false} WithinDuesThroughoutIff(s: State, ops: seq<Op>)
    requires RowsValid(s) && !Over(s)
    ensures NeverOver(s, ops) <==> NeverSetsDuesBelowASum(s, ops)
    decreases |ops|
  {
    if ops != [] {
      OverExactlyBySettingDues(s, ops[0]);
      if !SetsDuesBelowASum(s, ops[0]) {
        RunKeepsRowsValid(s, [ops[0]]);
        assert Run(s, [ops[0]]) == After(s, ops[0]);
        WithinDuesThroughoutIff(After(s, ops[0]), ops[1..]);
      }
    }
  }

  /** Such steps are there to be taken: any sum can be left above the dues by lowering them. */
  lemma LoweredDuesStrandASum(s: State, e: string, p: string, dues: int)
    requires SettingsAsserts(s.settings) && 0 < dues < Paid(s.rows, e, p)
    ensures var op := ChangeSettings(Patch(None, None, None, None, Some(dues)));
            SetsDuesBelowASum(s, op) && Over(After(s, op))
  {
    var op := ChangeSettings(Patch(None, None, None, None, Some(dues)));
    assert Paid(After(s, op).rows, e, p) > dues;
  }

  // ---------- write-once seed, refusals ----------

  /** Once seeded, the carry-forward never changes again. */
  lemma {:induction false} SeedIsPermanent(s: State, ops: seq<Op>)
    requires s.carryForward.Some?
    ensures Run(s, ops).carryForward == s.carryForward
    decreases |ops|
  {
    if ops != [] {
      SeedIsPermanent(After(s, ops[0]), ops[1..]);
    }
  }

  // ---------- the gateway's writes ----------

  /** `post_contribution` for a venture whose zone is now `offset` seconds east of UTC: amount
      check, cadence parse, and the current local period. */
  function GatewayDraft(settings: Settings, now: int, offset: int, email: string, amount: int,
                        proofKey: Option<string>, note: Option<string>): (r: Option<Draft>)
    ensures r.Some? <==> amount > 0 && CadenceAllowed(settings.cadence)
  {
    if amount <= 0 then None
    else
      match ParseCadence(settings.cadence)
      case None => None
      case Some(c) =>
        var period := Print(PeriodAt(c, DayOf(LocalInstant(now, offset))));
        Some(Draft(email, settings.cadence, period, amount, "submitted", proofKey, note))
  }

  /** What the gateway derives always passes the field asserts. */
  lemma GatewayDraftValid(s: State, offset: int, email: string, amount: int, proofKey: Option<string>,
                          note: Option<string>, d: Draft)
    requires PrintableInstant(LocalInstant(s.now, offset))
    requires GatewayDraft(s.settings, s.now, offset, email, amount, proofKey, note) == Some(d)
    requires s.isEmail(email)
    ensures d == Draft(email, s.settings.cadence, CurrentPeriodFor(s.settings.cadence, LocalInstant(s.now, offset)),
                       amount, "submitted", proofKey, note)
    ensures RowAsserts(d.Stored(s.now), s.isEmail)
  {
    var c := LockCadence(s.settings.cadence);
    assert CadenceText(c) == s.settings.cadence;
    PrintableDays(c, DayOf(LocalInstant(s.now, offset)));
    PrintMatches(PeriodAt(c, DayOf(LocalInstant(s.now, offset))), c);
  }

  lemma LockMessageIsNoCapMessage(period: string, current: string, paid: int, dues: int)
    ensures LockMessage(period, current) != CapMessage(paid, dues)
  {
    assert LockMessage(period, current)[0] == 'p' && CapMessage(paid, dues)[0] == 'd';
  }

  lemma LockRefusal(s: State, id: nat, w: Contribution)
    requires RowAsserts(w, s.isEmail)
    ensures WriteVerdict(s, id, w) == Refused(Thrown(LockMessage(w.period, CurrentPeriodFor(w.cadence, s.now))))
            <==> Locked(w, s.now)
  {
    LockMessageIsNoCapMessage(w.period, CurrentPeriodFor(w.cadence, s.now),
      Paid(s.rows[id := w], w.userEmail, w.period), s.settings.duesAmountCents);
  }

  lemma LocalRowLocked(c: Contribution, now: int, offset: int)
    requires PrintableInstant(now) && PrintableInstant(LocalInstant(now, offset))
    requires c.period == CurrentPeriodFor(c.cadence, LocalInstant(now, offset))
    ensures Locked(c, now) <==> Lags(c.cadence, now, offset)
  {
    LocalPeriodLags(c.cadence, now, offset);
  }

  lemma CreateVerdict(s: State, id: nat, d: Draft)
    requires id !in s.rows
    ensures Verdict(s, CreateRow(id, d)) == WriteVerdict(s, id, d.Stored(s.now))
  {
  }

  lemma CreateRefusedByLock(s: State, id: nat, d: Draft)
    requires id !in s.rows && RowAsserts(d.Stored(s.now), s.isEmail)
    ensures Verdict(s, CreateRow(id, d)) == Refused(Thrown(LockMessage(d.period, CurrentPeriodFor(d.cadence, s.now))))
            <==> Locked(d.Stored(s.now), s.now)
  {
    LockRefusal(s, id, d.Stored(s.now));
  }

  /** The lock refuses a payment carrying the local current period, as every gateway payment does,
      exactly when the venture's zone lags: when the UTC period began more recently than that. */
  lemma LocalPaymentLockedExactlyWhenLagging(s: State, id: nat, offset: int, d: Draft)
    requires PrintableInstant(s.now) && PrintableInstant(LocalInstant(s.now, offset)) && id !in s.rows
    requires RowAsserts(d.Stored(s.now), s.isEmail)
             && d.period == CurrentPeriodFor(d.cadence, LocalInstant(s.now, offset))
    ensures Verdict(s, CreateRow(id, d)) == Refused(Thrown(LockMessage(d.period, CurrentPeriodFor(d.cadence, s.now))))
            <==> Lags(d.cadence, s.now, offset)
  {
    LocalRowLocked(d.Stored(s.now), s.now, offset);
    CreateRefusedByLock(s, id, d);
  }
}
