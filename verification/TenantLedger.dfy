/** One venture's namespace: the contribution table, `settings:current`, `carry_forward:current`
    and the clock, as the tenant schema guards them. A step is one query; a THROW undoes it. */
module TenantLedger {
  import opened Text
  import opened Periods
  import opened Sums

  // ---------- stored records ----------

  datatype Contribution = Contribution(
    userEmail: string, cadence: string, period: string, amountCents: int, status: string,
    proofKey: Option<string>, note: Option<string>, submittedAt: int)

  /** The fields a writer chooses; `submitted_at` is READONLY and stamped on creation. */
  datatype Draft = Draft(
    userEmail: string, cadence: string, period: string, amountCents: int, status: string,
    proofKey: Option<string>, note: Option<string>)
  {
    function Stored(submittedAt: int): Contribution {
      Contribution(userEmail, cadence, period, amountCents, status, proofKey, note, submittedAt)
    }
  }

  datatype Settings = Settings(
    timezone: string, currency: string, displayName: string, cadence: string, duesAmountCents: int)

  /** `UpdateSettings`: a missing field is left alone. */
  datatype Patch = Patch(
    timezone: Option<string>, currency: Option<string>, displayName: Option<string>,
    cadence: Option<string>, duesAmountCents: Option<int>)

  datatype CarryForward = CarryForward(
    fromDate: string, toDate: string, amountCents: int, note: Option<string>, recordedBy: string)

  /** `isEmail` is the database's `string::is_email`, whatever strings that accepts. */
  datatype State = State(
    rows: map<nat, Contribution>, settings: Settings, carryForward: Option<CarryForward>, now: int,
    isEmail: string -> bool)

  datatype Op =
    | CreateRow(id: nat, draft: Draft)
    | UpdateRow(id: nat, draft: Draft)
    | DeleteRow(id: nat)
    | ChangeSettings(patch: Patch)
    | Seed(seed: CarryForward)
    | OverwriteSeed(seed: CarryForward)
    | DeleteSeed
    | Tick(seconds: nat)

  datatype Refusal = AlreadyExists | NotFound | FieldAssert | Thrown(message: string)

  datatype Outcome = Accepted | Refused(why: Refusal)

  // ---------- field asserts ----------

  predicate CadenceAllowed(s: string) {
    s in ["weekly", "monthly", "yearly"]
  }

  predicate RowAsserts(c: Contribution, isEmail: string -> bool) {
    isEmail(c.userEmail) && CadenceAllowed(c.cadence) && MatchesSchema(c.period) && c.amountCents > 0
    && c.status in ["submitted", "verified", "rejected"]
  }

  predicate SettingsAsserts(s: Settings) {
    CadenceAllowed(s.cadence) && s.duesAmountCents >= 0
  }

  /** `^[0-9]{4}-(0[1-9]|1[0-2])-(0[1-9]|[12][0-9]|3[01])$` */
  predicate MatchesDate(s: string) {
    |s| == 10 && MatchesMonth(s[..7]) && s[7] == '-'
    && ((s[8] == '0' && '1' <= s[9] <= '9')
        || ('1' <= s[8] <= '2' && IsDigit(s[9]))
        || (s[8] == '3' && '0' <= s[9] <= '1'))
  }

  predicate SeedAsserts(c: CarryForward, isEmail: string -> bool) {
    MatchesDate(c.fromDate) && MatchesDate(c.toDate) && c.amountCents > 0 && isEmail(c.recordedBy)
  }

  function Merge(s: Settings, p: Patch): Settings {
    Settings(
      if p.timezone.Some? then p.timezone.value else s.timezone,
      if p.currency.Some? then p.currency.value else s.currency,
      if p.displayName.Some? then p.displayName.value else s.displayName,
      if p.cadence.Some? then p.cadence.value else s.cadence,
      if p.duesAmountCents.Some? then p.duesAmountCents.value else s.duesAmountCents)
  }

  // ---------- the events ----------

  /** A row whose period is over: `period < fn::current_period_for(cadence)`. */
  predicate Locked(c: Contribution, now: int) {
    Less(c.period, CurrentPeriodFor(c.cadence, now))
  }

  /** What a row adds to the non-rejected sum of one (email, period). */
  function Counted(email: string, period: string): Contribution -> int {
    (c: Contribution) =>
      if c.userEmail == email && c.period == period && c.status != "rejected" then c.amountCents else 0
  }

  ghost function Paid(rows: map<nat, Contribution>, email: string, period: string): int {
    MapSum(rows, Counted(email, period))
  }

  function LockMessage(period: string, current: string): string {
    "period_locked: " + period + " < " + current
  }

  const DELETE_WORDS := "cannot delete locked contribution "

  function DeleteLockMessage(period: string): string {
    "period_locked: " + DELETE_WORDS + period
  }

  function CapMessage(paid: int, dues: int): string {
    "dues_cap_exceeded: " + IntText(paid) + " > " + IntText(dues)
  }

  const SEED_HEAD := "carry_forward_immutable:"

  const SEED_RULE := " the carry-forward seed is set once"

  const SEED_REASON := " at venture creation and cannot be modified"

  const SEED_MESSAGE := SEED_HEAD + (SEED_RULE + SEED_REASON)

  function LockThrow(after: Contribution, now: int): Option<string> {
    if Locked(after, now) then Some(LockMessage(after.period, CurrentPeriodFor(after.cadence, now))) else None
  }

  /** `rows` is the table after the write, as the event sees it. */
  ghost function CapThrow(rows: map<nat, Contribution>, dues: int, after: Contribution): Option<string> {
    if after.status == "rejected" then None
    else
      var paid := Paid(rows, after.userEmail, after.period);
      if dues > 0 && paid > dues then Some(CapMessage(paid, dues)) else None
  }

  // ---------- one step ----------

  ghost function WriteVerdict(s: State, id: nat, after: Contribution): Outcome {
    if !RowAsserts(after, s.isEmail) then Refused(FieldAssert)
    else if LockThrow(after, s.now).Some? then Refused(Thrown(LockThrow(after, s.now).value))
    else
      match CapThrow(s.rows[id := after], s.settings.duesAmountCents, after)
      case Some(m) => Refused(Thrown(m))
      case None => Accepted
  }

  /** The row a create or an update would leave behind. */
  function Written(s: State, op: Op): Contribution
    requires op.CreateRow? || (op.UpdateRow? && op.id in s.rows)
  {
    op.draft.Stored(if op.CreateRow? then s.now else s.rows[op.id].submittedAt)
  }

  ghost function Verdict(s: State, op: Op): Outcome {
    match op
    case CreateRow(id, _) =>
      if id in s.rows then Refused(AlreadyExists) else WriteVerdict(s, id, Written(s, op))
    case UpdateRow(id, _) =>
      if id !in s.rows then Refused(NotFound) else WriteVerdict(s, id, Written(s, op))
    case DeleteRow(id) =>
      if id !in s.rows then Refused(NotFound)
      else if Locked(s.rows[id], s.now) then Refused(Thrown(DeleteLockMessage(s.rows[id].period)))
      else Accepted
    case ChangeSettings(patch) =>
      if SettingsAsserts(Merge(s.settings, patch)) then Accepted else Refused(FieldAssert)
    case Seed(c) =>
      if s.carryForward.Some? then Refused(AlreadyExists)
      else if SeedAsserts(c, s.isEmail) then Accepted else Refused(FieldAssert)
    case OverwriteSeed(_) =>
      if s.carryForward.Some? then Refused(Thrown(SEED_MESSAGE)) else Refused(NotFound)
    case DeleteSeed =>
      if s.carryForward.Some? then Refused(Thrown(SEED_MESSAGE)) else Refused(NotFound)
    case Tick(_) => Accepted
  }

  ghost function After(s: State, op: Op): State {
    if Verdict(s, op) != Accepted then s
    else
      match op
      case CreateRow(id, _) => s.(rows := s.rows[id := Written(s, op)])
      case UpdateRow(id, _) => s.(rows := s.rows[id := Written(s, op)])
      case DeleteRow(id) => s.(rows := s.rows - {id})
      case ChangeSettings(patch) => s.(settings := Merge(s.settings, patch))
      case Seed(c) => s.(carryForward := Some(c))
      case OverwriteSeed(_) => s
      case DeleteSeed => s
      case Tick(seconds) => s.(now := s.now + seconds)
  }

  ghost function Run(s: State, ops: seq<Op>): State
    decreases |ops|
  {
    if ops == [] then s else Run(After(s, ops[0]), ops[1..])
  }

  // ---------- the imperative ledger ----------

  /** The stored records, written first and rolled back when an event throws. */
  class Tenant {
    var rows: map<nat, Contribution>
    var settings: Settings
    var carryForward: Option<CarryForward>
    var now: int
    const isEmail: string -> bool

    ghost function Snapshot(): State
      reads this
    {
      State(rows, settings, carryForward, now, isEmail)
    }

    /** The venture exists once the database has accepted its settings. */
    constructor (settings: Settings, now: int, isEmail: string -> bool)
      requires SettingsAsserts(settings)
      ensures Snapshot() == State(map[], settings, None, now, isEmail)
    {
      this.rows, this.settings, this.carryForward := map[], settings, None;
      this.now, this.isEmail := now, isEmail;
    }

    /** `math::sum(SELECT VALUE amount_cents FROM contribution WHERE ...)` */
    method SumPaid(email: string, period: string) returns (paid: int)
      ensures paid == Paid(rows, email, period)
    {
      paid := 0;
      var todo := rows.Keys;
      ghost var seen := rows;
      while todo != {}
        invariant seen.Keys == todo && seen.Keys <= rows.Keys
        invariant forall k :: k in seen ==> seen[k] == rows[k]
        invariant paid + MapSum(seen, Counted(email, period)) == Paid(rows, email, period)
        decreases |todo|
      {
        var k :| k in todo;
        var c := rows[k];
        if c.userEmail == email && c.period == period && c.status != "rejected" {
          paid := paid + c.amountCents;
        }
        MapSumRemove(seen, k, Counted(email, period));
        todo, seen := todo - {k}, seen - {k};
      }
    }

    /** `contribution_dues_cap`, run against the table after the write. */
    method DuesCapEvent(after: Contribution) returns (thrown: Option<string>)
      ensures thrown == CapThrow(rows, settings.duesAmountCents, after)
    {
      if after.status == "rejected" {
        return None;
      }
      var dues := settings.duesAmountCents;
      var paid := SumPaid(after.userEmail, after.period);
      if dues > 0 && paid > dues {
        return Some(CapMessage(paid, dues));
      }
      return None;
    }

    /** The common part of CREATE and UPDATE: put the row, run both events, undo on a throw. */
    method Put(id: nat, after: Contribution) returns (r: Outcome)
      modifies this`rows
      ensures r == old(WriteVerdict(Snapshot(), id, after))
      ensures rows == if r == Accepted then old(rows)[id := after] else old(rows)
    {
      if !RowAsserts(after, isEmail) {
        return Refused(FieldAssert);
      }
      var before := rows;
      rows := rows[id := after];
      var thrown := LockThrow(after, now);
      if thrown == None {
        thrown := DuesCapEvent(after);
      }
      if thrown != None {
        rows := before;
        return Refused(Thrown(thrown.value));
      }
      return Accepted;
    }

    method CreateContribution(id: nat, draft: Draft) returns (r: Outcome)
      modifies this
      ensures r == old(Verdict(Snapshot(), CreateRow(id, draft)))
      ensures Snapshot() == old(After(Snapshot(), CreateRow(id, draft)))
    {
      if id in rows {
        return Refused(AlreadyExists);
      }
      r := Put(id, draft.Stored(now));
    }

    method UpdateContribution(id: nat, draft: Draft) returns (r: Outcome)
      modifies this
      ensures r == old(Verdict(Snapshot(), UpdateRow(id, draft)))
      ensures Snapshot() == old(After(Snapshot(), UpdateRow(id, draft)))
    {
      if id !in rows {
        return Refused(NotFound);
      }
      r := Put(id, draft.Stored(rows[id].submittedAt));
    }

    /** Deletes the row, then runs `contribution_delete_lock` on what it was. */
    method DeleteContribution(id: nat) returns (r: Outcome)
      modifies this
      ensures r == old(Verdict(Snapshot(), DeleteRow(id)))
      ensures Snapshot() == old(After(Snapshot(), DeleteRow(id)))
    {
      if id !in rows {
        return Refused(NotFound);
      }
      var before := rows;
      rows := rows - {id};
      if Locked(before[id], now) {
        rows := before;
        return Refused(Thrown(DeleteLockMessage(before[id].period)));
      }
      return Accepted;
    }

    /** `update_settings`: an empty patch writes nothing. */
    method UpdateSettings(patch: Patch) returns (r: Outcome)
      requires SettingsAsserts(settings)
      modifies this
      ensures r == old(Verdict(Snapshot(), ChangeSettings(patch)))
      ensures Snapshot() == old(After(Snapshot(), ChangeSettings(patch)))
      ensures SettingsAsserts(settings)
    {
      if patch == Patch(None, None, None, None, None) {
        return Accepted;
      }
      var merged := Merge(settings, patch);
      if !SettingsAsserts(merged) {
        return Refused(FieldAssert);
      }
      settings := merged;
      return Accepted;
    }

    /** `set_carry_forward`, with its look before the write. */
    method SetCarryForward(seed: CarryForward) returns (r: Outcome)
      modifies this
      ensures r == old(Verdict(Snapshot(), Seed(seed)))
      ensures Snapshot() == old(After(Snapshot(), Seed(seed)))
    {
      if carryForward.Some? {
        return Refused(AlreadyExists);
      }
      if !SeedAsserts(seed, isEmail) {
        return Refused(FieldAssert);
      }
      carryForward := Some(seed);
      return Accepted;
    }

    /** `period_summary`: the amounts of one member and period, summed by the client. */
    method PeriodSummary(email: string, period: string) returns (dues: int, paid: int, remaining: int)
      ensures dues == settings.duesAmountCents
      ensures paid == Paid(rows, email, period)
      ensures remaining == if dues > paid then dues - paid else 0
    {
      dues := settings.duesAmountCents;
      paid := SumPaid(email, period);
      remaining := if dues - paid > 0 then dues - paid else 0;
    }
  }
}
