/** One step of the tenant ledger, said field by field: when it is accepted, what it stores,
    and what it leaves as it was. */
module TenantEffects {
  import opened Text
  import opened Periods
  import opened Sums
  import opened TenantLedger
  import opened TenantRuns

  // ---------- the non-rejected sum ----------

  /** A table without rows sums to nothing, and one more row counts for its own email and period unless rejected. */
  lemma PaidCounts(rows: map<nat, Contribution>, id: nat, c: Contribution, email: string, period: string)
    requires id !in rows
    ensures Paid(map[], email, period) == 0
    ensures Paid(rows[id := c], email, period)
         == Paid(rows, email, period)
            + if c.userEmail == email && c.period == period && c.status != "rejected" then c.amountCents else 0
  {
    PaidAfterPut(rows, id, c, email, period);
  }

  /** Without row `id`. */
  lemma PaidWithout(rows: map<nat, Contribution>, id: nat, w: Contribution)
    ensures Paid(rows[id := w], w.userEmail, w.period)
         == Paid(rows - {id}, w.userEmail, w.period) + if w.status != "rejected" then w.amountCents else 0
  {
    assert rows[id := w] == (rows - {id})[id := w];
    PaidCounts(rows - {id}, id, w, w.userEmail, w.period);
  }

  // ---------- contributions ----------

  /** A period some cadence can print. */
  ghost predicate IsPeriodText(text: string) {
    exists p: Period :: p.Printable() && Print(p) == text
  }

  lemma SchemaIsPeriodText(text: string)
    ensures MatchesSchema(text) <==> IsPeriodText(text)
  {
    PatternIffCanonical(text);
    if IsPeriodText(text) {
      var p: Period :| p.Printable() && Print(p) == text;
      ParsePrint(p);
    }
  }

  /** What the schema asks of each field a writer chooses. */
  ghost predicate GoodFields(isEmail: string -> bool, d: Draft) {
    isEmail(d.userEmail)
    && (d.cadence == "weekly" || d.cadence == "monthly" || d.cadence == "yearly")
    && IsPeriodText(d.period)
    && d.amountCents > 0
    && (d.status == "submitted" || d.status == "verified" || d.status == "rejected")
  }

  lemma FieldAsserts(isEmail: string -> bool, d: Draft, submittedAt: int)
    ensures RowAsserts(d.Stored(submittedAt), isEmail) <==> GoodFields(isEmail, d)
  {
    SchemaIsPeriodText(d.period);
  }

  /** What it asks beside the other rows of the table. */
  ghost predicate Acceptable(s: State, others: map<nat, Contribution>, d: Draft) {
    GoodFields(s.isEmail, d)
    && !Less(d.period, CurrentPeriodFor(d.cadence, s.now))
    && (d.status == "rejected" || s.settings.duesAmountCents <= 0
        || Paid(others, d.userEmail, d.period) + d.amountCents <= s.settings.duesAmountCents)
  }

  lemma AcceptableWrite(s: State, id: nat, d: Draft, submittedAt: int)
    ensures WriteVerdict(s, id, d.Stored(submittedAt)) == Accepted <==> Acceptable(s, s.rows - {id}, d)
  {
    var w := d.Stored(submittedAt);
    AcceptedIffAdmissible(s, id, w);
    FieldAsserts(s.isEmail, d, submittedAt);
    PaidWithout(s.rows, id, w);
  }

  /** Everything but the rows is as before. */
  ghost predicate OnlyRows(s: State, t: State) {
    t.settings == s.settings && t.carryForward == s.carryForward && t.now == s.now && t.isEmail == s.isEmail
  }

  /** The table holds row `id` with the draft's fields and this stamp, and all other rows as before. */
  ghost predicate Holds(s: State, t: State, id: nat, d: Draft, submittedAt: int) {
    OnlyRows(s, t) && t.rows.Keys == s.rows.Keys + {id}
    && (forall other :: other in s.rows && other != id ==> t.rows[other] == s.rows[other])
    && t.rows[id].userEmail == d.userEmail && t.rows[id].cadence == d.cadence && t.rows[id].period == d.period
    && t.rows[id].amountCents == d.amountCents && t.rows[id].status == d.status
    && t.rows[id].proofKey == d.proofKey && t.rows[id].note == d.note
    && t.rows[id].submittedAt == submittedAt
  }

  /** A new payment: accepted exactly if its fields are, and then stored field by field, stamped now. */
  lemma CreateExactly(s: State, id: nat, d: Draft)
    ensures Verdict(s, CreateRow(id, d)) == Accepted <==> id !in s.rows && Acceptable(s, s.rows, d)
    ensures if Verdict(s, CreateRow(id, d)) == Accepted then Holds(s, After(s, CreateRow(id, d)), id, d, s.now)
            else After(s, CreateRow(id, d)) == s
  {
    if id !in s.rows {
      CreateVerdict(s, id, d);
      AcceptableWrite(s, id, d, s.now);
      assert s.rows - {id} == s.rows;
    }
  }

  /** An update: accepted exactly if the row exists and its new fields are acceptable beside the other rows;
      the stamp stays the one of the creation. */
  lemma UpdateExactly(s: State, id: nat, d: Draft)
    ensures Verdict(s, UpdateRow(id, d)) == Accepted <==> id in s.rows && Acceptable(s, s.rows - {id}, d)
    ensures if Verdict(s, UpdateRow(id, d)) == Accepted
            then Holds(s, After(s, UpdateRow(id, d)), id, d, s.rows[id].submittedAt)
            else After(s, UpdateRow(id, d)) == s
  {
    if id in s.rows {
      AcceptableWrite(s, id, d, s.rows[id].submittedAt);
    }
  }

  /** A deletion: accepted exactly if the row exists and its period is not over, and then only that row goes. */
  lemma DeleteExactly(s: State, id: nat)
    ensures Verdict(s, DeleteRow(id)) == Accepted
            <==> id in s.rows && !Less(s.rows[id].period, CurrentPeriodFor(s.rows[id].cadence, s.now))
    ensures Verdict(s, DeleteRow(id)) != Accepted ==>
              Verdict(s, DeleteRow(id)).why
              == if id !in s.rows then NotFound
                 else Thrown("period_locked: " + "cannot delete locked contribution " + s.rows[id].period)
    ensures var t := After(s, DeleteRow(id));
            OnlyRows(s, t) && t.rows == if Verdict(s, DeleteRow(id)) == Accepted then s.rows - {id} else s.rows
  {
  }

  // ---------- settings, seed, clock ----------

  /** A field after a patch: the new value if there is one. */
  predicate Patched<T(==)>(before: T, change: Option<T>, after: T) {
    match change
    case Some(v) => after == v
    case None => after == before
  }

  /** A change of settings: accepted exactly if the resulting cadence and dues are allowed,
      and then each given field and no other changes. */
  lemma SettingsExactly(s: State, p: Patch)
    ensures Verdict(s, ChangeSettings(p)) == Accepted
            <==> (var c := if p.cadence.Some? then p.cadence.value else s.settings.cadence;
                  c == "weekly" || c == "monthly" || c == "yearly")
                 && (if p.duesAmountCents.Some? then p.duesAmountCents.value else s.settings.duesAmountCents) >= 0
    ensures var t := After(s, ChangeSettings(p));
            t.rows == s.rows && t.carryForward == s.carryForward && t.now == s.now && t.isEmail == s.isEmail
            && if Verdict(s, ChangeSettings(p)) == Accepted then
                 Patched(s.settings.timezone, p.timezone, t.settings.timezone)
                 && Patched(s.settings.currency, p.currency, t.settings.currency)
                 && Patched(s.settings.displayName, p.displayName, t.settings.displayName)
                 && Patched(s.settings.cadence, p.cadence, t.settings.cadence)
                 && Patched(s.settings.duesAmountCents, p.duesAmountCents, t.settings.duesAmountCents)
               else t.settings == s.settings
  {
  }

  /** A calendar date as text, the day not checked against the month. */
  ghost predicate IsDateText(text: string) {
    exists y: nat, m: nat, d: nat ::
      y <= 9999 && 1 <= m <= 12 && 1 <= d <= 31 && text == Padded(y, 4) + "-" + Padded(m, 2) + "-" + Padded(d, 2)
  }

  lemma MonthPart(text: string)
    requires MatchesMonth(text)
    ensures exists y: nat, m: nat :: y <= 9999 && 1 <= m <= 12 && text == Padded(y, 4) + "-" + Padded(m, 2)
  {
    PatternIffCanonical(text);
    var p := Parse(text).value;
    PrintMatches(p, Monthly);
    assert p.Month?;
    assert text == Padded(p.year, 4) + "-" + Padded(p.month, 2);
  }

  /** Two digits from 01 to 31. */
  predicate DayDigits(d: string) {
    |d| == 2
    && ((d[0] == '0' && '1' <= d[1] <= '9')
        || ('1' <= d[0] <= '2' && IsDigit(d[1]))
        || (d[0] == '3' && '0' <= d[1] <= '1'))
  }

  lemma DayDigitsExactly(d: string)
    requires |d| == 2
    ensures DayDigits(d) <==> AllDigits(d) && 1 <= Value(d) <= 31
  {
    if AllDigits(d) {
      TwoDigits(d);
      assert IsDigit(d[0]) && IsDigit(d[1]);
    }
  }

  /** The seed's date pattern takes exactly the texts `YYYY-MM-DD` with month 1 to 12 and day 1 to 31. */
  lemma DatePattern(text: string)
    ensures MatchesDate(text) <==> IsDateText(text)
  {
    if MatchesDate(text) {
      var d := text[8..];
      assert DayDigits(d) by { assert d[0] == text[8] && d[1] == text[9]; }
      DayDigitsExactly(d);
      PaddedOfValue(d);
      MonthPart(text[..7]);
      var y: nat, m: nat :| y <= 9999 && 1 <= m <= 12 && text[..7] == Padded(y, 4) + "-" + Padded(m, 2);
      assert text == text[..7] + "-" + d;
      assert text == Padded(y, 4) + "-" + Padded(m, 2) + "-" + Padded(Value(d), 2);
    }
    if IsDateText(text) {
      var y: nat, m: nat, d: nat :| y <= 9999 && 1 <= m <= 12 && 1 <= d <= 31
                                    && text == Padded(y, 4) + "-" + Padded(m, 2) + "-" + Padded(d, 2);
      DateMatches(y, m, d);
    }
  }

  lemma DateMatches(y: nat, m: nat, d: nat)
    requires y <= 9999 && 1 <= m <= 12 && 1 <= d <= 31
    ensures MatchesDate(Padded(y, 4) + "-" + Padded(m, 2) + "-" + Padded(d, 2))
  {
    var front, part := Padded(y, 4) + "-" + Padded(m, 2), Padded(d, 2);
    PrintMatches(Month(y, m), Monthly);
    assert Print(Month(y, m)) == front;
    PaddedWidth(d, 2);
    DayDigitsExactly(part);
    var text := front + "-" + part;
    assert text[..7] == front && text[7] == '-' && text[8] == part[0] && text[9] == part[1];
  }

  /** What the schema asks of a seed. */
  ghost predicate GoodSeed(isEmail: string -> bool, c: CarryForward) {
    IsDateText(c.fromDate) && IsDateText(c.toDate) && c.amountCents > 0 && isEmail(c.recordedBy)
  }

  lemma SeedFieldAsserts(isEmail: string -> bool, c: CarryForward)
    ensures SeedAsserts(c, isEmail) <==> GoodSeed(isEmail, c)
  {
    DatePattern(c.fromDate);
    DatePattern(c.toDate);
  }

  /** The seed: accepted exactly once and with these fields, and then stored as it is; it is neither
      overwritten nor deleted. */
  lemma SeedExactly(s: State, c: CarryForward)
    ensures Verdict(s, Seed(c)) == Accepted <==> s.carryForward == None && GoodSeed(s.isEmail, c)
    ensures After(s, Seed(c)) == if Verdict(s, Seed(c)) == Accepted then s.(carryForward := Some(c)) else s
    ensures After(s, OverwriteSeed(c)) == After(s, DeleteSeed) == s
    ensures Verdict(s, OverwriteSeed(c)) == Verdict(s, DeleteSeed)
         == Refused(if s.carryForward.Some? then Thrown(SEED_MESSAGE) else NotFound)
  {
    SeedFieldAsserts(s.isEmail, c);
    SeedVerdict(s, c);
    SeedStored(s, c);
    SeedUntouched(s, c);
  }

  lemma SeedStored(s: State, c: CarryForward)
    ensures After(s, Seed(c)) == if Verdict(s, Seed(c)) == Accepted then s.(carryForward := Some(c)) else s
  {
  }

  lemma SeedVerdict(s: State, c: CarryForward)
    ensures Verdict(s, Seed(c)) == Accepted <==> s.carryForward == None && SeedAsserts(c, s.isEmail)
  {
  }

  lemma SeedUntouched(s: State, c: CarryForward)
    ensures After(s, OverwriteSeed(c)) == After(s, DeleteSeed) == s
    ensures Verdict(s, OverwriteSeed(c)) == Verdict(s, DeleteSeed)
         == Refused(if s.carryForward.Some? then Thrown(SEED_MESSAGE) else NotFound)
  {
  }

  lemma WriteRefusedBecause(s: State, id: nat, w: Contribution)
    requires WriteVerdict(s, id, w) != Accepted
    ensures WriteVerdict(s, id, w).why
         == if !RowAsserts(w, s.isEmail) then FieldAssert
            else if Locked(w, s.now) then Thrown(LockMessage(w.period, CurrentPeriodFor(w.cadence, s.now)))
            else Thrown(CapMessage(Paid(s.rows[id := w], w.userEmail, w.period), s.settings.duesAmountCents))
  {
  }

  lemma CappedRowCounts(s: State, id: nat, w: Contribution)
    requires id !in s.rows && RowAsserts(w, s.isEmail) && !Locked(w, s.now) && WriteVerdict(s, id, w) != Accepted
    ensures Paid(s.rows[id := w], w.userEmail, w.period) == Paid(s.rows, w.userEmail, w.period) + w.amountCents
  {
    AcceptedIffAdmissible(s, id, w);
    PaidCounts(s.rows, id, w, w.userEmail, w.period);
  }

  /** Why a payment is refused: a taken id, a bad field, a period that is over, or else the cap. */
  lemma CreateRefusedBecause(s: State, id: nat, d: Draft)
    requires Verdict(s, CreateRow(id, d)) != Accepted
    ensures var why := Verdict(s, CreateRow(id, d)).why;
            var current := CurrentPeriodFor(d.cadence, s.now);
            if id in s.rows then why == AlreadyExists
            else if !GoodFields(s.isEmail, d) then why == FieldAssert
            else if Less(d.period, current) then why == Thrown("period_locked: " + d.period + " < " + current)
            else why == Thrown("dues_cap_exceeded: "
                               + IntText(Paid(s.rows, d.userEmail, d.period) + d.amountCents)
                               + " > " + IntText(s.settings.duesAmountCents))
  {
    if id !in s.rows {
      CreateVerdict(s, id, d);
      RefusedWriteSpelled(s, id, d);
    }
  }

  lemma RefusedWriteSpelled(s: State, id: nat, d: Draft)
    requires id !in s.rows && WriteVerdict(s, id, d.Stored(s.now)) != Accepted
    ensures var why := WriteVerdict(s, id, d.Stored(s.now)).why;
            var current := CurrentPeriodFor(d.cadence, s.now);
            if !GoodFields(s.isEmail, d) then why == FieldAssert
            else if Less(d.period, current) then why == Thrown(LockMessage(d.period, current))
            else
              var paid := Paid(s.rows, d.userEmail, d.period) + d.amountCents;
              why == Thrown(CapMessage(paid, s.settings.duesAmountCents))
  {
    var w := d.Stored(s.now);
    FieldAsserts(s.isEmail, d, s.now);
    WriteRefusedBecause(s, id, w);
    if RowAsserts(w, s.isEmail) && !Locked(w, s.now) {
      CappedRowCounts(s, id, w);
    }
    StoredFields(d, s.now);
  }

  lemma StoredFields(d: Draft, submittedAt: int)
    ensures var w := d.Stored(submittedAt);
            w.userEmail == d.userEmail && w.cadence == d.cadence && w.period == d.period
              && w.amountCents == d.amountCents
  {
  }
}
