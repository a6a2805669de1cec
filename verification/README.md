# Sharam ledger: verified model

Sharam keeps the books of invite-only ventures. This project models, in Dafny, the parts of it
whose promises are about whole runs or about several functions together, and proves those promises.

* **Text, Calendar, Periods** - lexicographic order, decimal text and the integer parsing of the Rust
  standard library; the Gregorian and ISO 8601 week calendars; period text and the period a clock derives.
* **TenantLedger, TenantEffects, TenantRuns** - one venture's namespace. `State`, `Op`, `Verdict` and `After`
  say what one query does under the field asserts and the three events; the class `Tenant` does it as the
  database does (write, run the events on the table after the write, undo on a throw) and is proved equal to
  that specification. `TenantEffects` says field by field when a step is accepted and what it stores,
  `TenantRuns` holds the promises over runs.
* **ControlPlane, ControlEffects, ControlRuns, Acceptance** - users, invites, memberships, directory and
  namespaces. A call is a sequence of atomic queries. `Step` lets the queries of any number of calls interleave
  and lets a call be abandoned between any two; `Serve` runs one call undisturbed for a number of queries, and
  the class `Ledger` is proved equal to it. `ControlEffects` says row by row what each operation checks and
  stores, `ControlRuns` what every reachable state keeps, `Acceptance` what cutting a sign-in off and repeating
  it does, **Ownership** and **Memberships** who owns a venture and where its memberships come from.
* **Pool, Accumulation, YearlyRefinement, ActivePeriods** (with **Sums** and **Ordered**) - the read models,
  written with the loops of the source and proved against order-free sums. **VentureRuns** runs the books and
  the control plane together.
* **ErrorChannel, Money, UrlEncoding, ProofKeys, Slugs** - parsers and printers.

Amounts and instants are mathematical integers; the i64 limits appear where the code checks them
(`checked_mul`, `saturating_mul`, `parse`). Day 0 of the calendar is 0000-01-01. "Printable" days run from
0000-01-03 to 9999-12-31, where both year and week-year have four digits.

## What the proofs found

* The period lock is computed in UTC and the gateway derives its period in the venture's zone. A payment
  carrying the local current period is refused exactly while the UTC period is younger than the zone lags
  behind UTC: never at or east of UTC, and at some instant of every period west of it
  (`LocalPaymentLockedExactlyWhenLagging`, `EastNeverLags`, `WestLagsAtOpening`).
* The lock looks at the row after the write. A closed period changes by one kind of step only, an update that
  relabels one of its rows to an open period (`FrozenBrokenExactlyByRelabel`, `FrozenExactlyIf`,
  `RelabelEscapesLock`). No query of the client updates a contribution, so this is a property of the schema.
* The dues cap binds at the write. Sums stay within the current dues throughout a run exactly if no step sets
  the dues to a positive amount below a sum already paid, be it by lowering them or by introducing them
  (`OverExactlyBySettingDues`, `WithinDuesThroughoutIff`).
* A `create_tenant` cut off after writing `settings:current` and before listing the venture loses the slug
  for good. A valid slug can still be listed by some later run exactly when that has not happened to it
  (`CutOffStrands`, `StrandedForever`, `ListableIffNotStranded`, `CreationListsExactlyIf`).
* The comment at crate/ledger/src/client.rs:365 promises both queries of an acceptance atomically. The code
  sends two. They are safe to cut and repeat, but two overlapping sign-ins of one user overwrite `accepted_at`
  (`StampChangesExactlyByMark`, `OverlappingSignInsRestamp`, `StampKeptWhileApart`).
* Accepting overwrites a role, so a venture can lose its last owner: by exactly the upsert of a lesser role for
  him (`OwnerLostExactlyBy`, `OwnedThroughoutIff`). `create_invite` lets an owner invite himself, which is enough
  (`SelfInviteLosesOwner`, `ReachableWithoutOwner`).
* Revoking an accepted invite leaves its membership in place, and inviting again shows it as accepted at once
  (`ReachableIntact`, `StatusMoves`). Revoking or deleting a pending one comes too late for exactly the sign-ins
  that listed it before (`WithdrawnInviteStillGrantsIff`); one of them may itself be stopped, by a deleted invite
  that it has to mark first.
* The refused delete reuses the tag of the period lock, and the parser takes its words for the period
  (`DeleteThrowMisread`). No query of the client deletes a contribution or touches a seed once set, so
  `map_db_error` does not receive that text, nor the one of `SeedRoundTrip`, from the client as it stands.
* `parse_dues_to_cents` means to refuse negative amounts and lets one kind through: two decimals that are a
  minus and a digit other than 0, behind a whole part that is empty or reads as 0 (`NegativeExactlyIf`).
  Behind any other whole part the same minus lowers the amount: `5.-5` is 495 cents (`SignedDecimal`).
* The period list is newest first after all runs in exactly the zones whose derived period never goes back
  behind one in which the lock let a payment pass (`NewestFirstExactlyIf`). Zones with summer time qualify
  unless clocks are set back across a midnight at which a period begins; then a payment made in between puts the
  list out of order (`DaysForwardSuffice`, `SetBackLosesOrder`).

## Model

| member | source | states |
|---|---|---|
| Text.ParseDigits | crate/common/src/domain.rs:211-218 | `str::parse` reads a digit string exactly, or fails exactly when the value does not fit the type |
| Text.ParseMinus | crate/common/src/domain.rs:211-218 | digits behind a minus are read negative, and by signed types only |
| Text.DigitsOrder | crate/ledger/schema/tenant/000_init.surql:82-85 | zero-padded digit strings of one length compare lexicographically as the numbers they denote |
| Calendar.YearUnique | crate/common/src/domain.rs:179-183 | `year()` is the only year whose first day is on or before the day and whose successor starts later |
| Calendar.YearLengths | crate/common/src/domain.rs:179-183 | leap years by the Gregorian rule have 366 days, all others 365 |
| Calendar.MonthTable | crate/common/src/domain.rs:179-182 | months begin where the lengths of the months before them add up to |
| Calendar.FourthOfJanuary | crate/common/src/domain.rs:172-178 | the ISO week rule: 4 January is in week 1 of its own year, in every year |
| Calendar.NextWeek | crate/common/src/domain.rs:172-178 | ISO week numbers run on by one and restart at 1 exactly where the week-year changes |
| Calendar.UnixEpoch | crate/common/src/domain.rs:169-171 | the day count is anchored: 1970-01-01 is day 719528, a Thursday |
| Periods.ParsePrint | crate/common/src/domain.rs:196-229 | parsing undoes printing for every well-formed period of the years 0 to 9999 |
| Periods.TwoDigitParts | crate/common/src/domain.rs:206-229 | month and week texts parse exactly if the number is 1 to 12, or 1 to 53 |
| Periods.PrintMatches | crate/ledger/schema/tenant/000_init.surql:63-66 | the printed text matches the pattern of its own cadence and of no other |
| Periods.PatternIffCanonical | crate/ledger/schema/tenant/000_init.surql:63-66 | a string satisfies the schema pattern iff it parses to a printable period that prints back to it |
| Periods.PrintOrder | crate/common/src/domain.rs:139-141 | within a cadence chronological and lexicographic order coincide |
| Periods.OrderKeptExactlyOn | crate/common/src/domain.rs:196-204 | of the ranges of years around 0, the order holds on exactly those within -1 to 9999, in every cadence |
| Periods.PeriodBoundary | crate/common/src/domain.rs:169-185 | a day's period is earlier than another's iff the day lies before the first day of that period, for weeks, months and years |
| Periods.DayInMonth | crate/common/src/domain.rs:179-182 | day k of month m of year y is in period y-m, counted by month lengths |
| Periods.DayInWeek | crate/common/src/domain.rs:172-178 | the seven days of week w of a week-year, counted from the Monday nearest its start, are in that week |
| Periods.EpochPeriods | crate/ledger/schema/tenant/000_init.surql:35-43 | at the Unix epoch the periods are 1970-W01, 1970-01 and 1970, and an unknown cadence counts as monthly |
| Periods.PrintableExactly | crate/common/src/domain.rs:196-204 | the printable days are exactly those whose periods all have four-digit years |
| Periods.CurrentPeriodMonotone | crate/ledger/schema/tenant/000_init.surql:35-43 | as the clock advances the printed current period of every cadence never decreases |
| Periods.LocalPeriodLags | crate/gateway/src/routes/contributions.rs:206-214 | the period derived in a zone is older than the UTC one iff the UTC period is younger than the zone lags |
| Periods.EastNeverLags | crate/gateway/src/routes/contributions.rs:206-214 | a zone at or east of UTC never lags |
| Periods.WestLagsAtOpening | crate/gateway/src/routes/contributions.rs:206-214 | a zone west of UTC lags whenever a UTC period opens |
| TenantLedger.Tenant.constructor | crate/ledger/src/client.rs:158-175 | a venture starts with settings the asserts accept, no rows and no seed |
| TenantLedger.Tenant.SumPaid | crate/ledger/schema/tenant/000_init.surql:107-112 | the event's query computes the order-free non-rejected sum of one (email, period) |
| TenantLedger.Tenant.DuesCapEvent | crate/ledger/schema/tenant/000_init.surql:100-116 | throws exactly when a non-rejected row leaves the post-write sum above positive dues, and with which text |
| TenantLedger.Tenant.Put | crate/ledger/schema/tenant/000_init.surql:86-116 | write, both events, undo: the table holds the row iff the verdict accepts it, else it is unchanged |
| TenantLedger.Tenant.CreateContribution | crate/ledger/src/client.rs:644-675 | CREATE has the specified verdict and the specified new state |
| TenantLedger.Tenant.UpdateContribution | crate/ledger/schema/tenant/000_init.surql:58-116 | UPDATE likewise; `submitted_at` survives |
| TenantLedger.Tenant.DeleteContribution | crate/ledger/schema/tenant/000_init.surql:118-125 | DELETE likewise; a locked row stays |
| TenantLedger.Tenant.UpdateSettings | crate/ledger/src/client.rs:804-852 | merges the given fields only, refuses what the asserts refuse |
| TenantLedger.Tenant.SetCarryForward | crate/ledger/src/client.rs:873-915 | seeds once, refuses a second seed and malformed ones |
| TenantLedger.Tenant.PeriodSummary | crate/ledger/src/client.rs:760-787 | reports the dues, the non-rejected sum and the clamped difference |
| TenantEffects.CreateExactly | crate/ledger/schema/tenant/000_init.surql:58-116 | a payment is accepted iff each field is allowed, its period is not over and the member's sum stays within positive dues; then each field is stored and stamped now, and nothing else changes |
| TenantEffects.CreateRefusedBecause | crate/ledger/schema/tenant/000_init.surql:86-116 | which refusal a payment meets, with its text |
| TenantEffects.UpdateExactly | crate/ledger/schema/tenant/000_init.surql:58-116 | an update likewise, beside the other rows; the stamp of the creation stays |
| TenantEffects.DeleteExactly | crate/ledger/schema/tenant/000_init.surql:118-125 | a deletion is accepted iff the row exists and its period is not over, and removes that row only |
| TenantEffects.PaidCounts | crate/ledger/schema/tenant/000_init.surql:107-112 | one more row adds its amount to the sum of its own email and period, unless it is rejected |
| TenantEffects.SettingsExactly | crate/ledger/src/client.rs:804-852 | which changes of settings are accepted, and that each given field and no other changes |
| TenantEffects.SeedExactly | crate/ledger/schema/tenant/000_init.surql:138-158 | which seed is accepted, that it is stored as it is, and that nothing overwrites or deletes it |
| TenantEffects.DatePattern | crate/ledger/schema/tenant/000_init.surql:139-142 | the date pattern takes exactly the texts of a four-digit year, a month 1 to 12 and a day 1 to 31 |
| TenantRuns.FrozenBrokenExactlyByRelabel | crate/ledger/schema/tenant/000_init.surql:86-125 | one step changes the rows of a closed cadence and period iff it is an admissible update of one of them |
| TenantRuns.FrozenExactlyIf | crate/ledger/schema/tenant/000_init.surql:55-57 | over every run a closed period gains or alters no row, and keeps all of them iff no step relabels one |
| TenantRuns.FrozenOverRuns | crate/ledger/schema/tenant/000_init.surql:55-57 | over every run that keeps the labels of locked rows, no row of a closed period is added, removed or altered |
| TenantRuns.RelabelEscapesLock | crate/ledger/schema/tenant/000_init.surql:90 | any locked row can be moved to the current period as rejected |
| TenantRuns.StepRaisesOnlyTheWrittenKey | crate/ledger/schema/tenant/000_init.surql:95-99 | no step raises a sum but an accepted non-rejected write to that key, which leaves it within positive dues |
| TenantRuns.DuesCapOverRuns | crate/ledger/schema/tenant/000_init.surql:100-116 | over every run each sum stays within the dues of the last accepted non-rejected write to its key, when those were positive |
| TenantRuns.FreshLedgerWithinCaps | crate/ledger/src/client.rs:158-175 | an empty table meets the hypotheses of the cap theorem |
| TenantRuns.ConstantDuesCap | crate/ledger/schema/tenant/000_init.surql:45-49 | while the dues stay at one positive amount no sum ever exceeds it |
| TenantRuns.OverExactlyBySettingDues | crate/ledger/schema/tenant/000_init.surql:113 | a step puts a sum above the current dues iff it sets positive dues below a sum already paid |
| TenantRuns.WithinDuesThroughoutIff | crate/ledger/schema/tenant/000_init.surql:45-49 | over every run no sum is ever above the current dues iff no step does that |
| TenantRuns.LoweredDuesStrandASum | crate/ledger/src/client.rs:804-852 | every sum above 1 can be left above the dues by an accepted change of settings |
| TenantRuns.SeedIsPermanent | crate/ledger/schema/tenant/000_init.surql:150-158 | the carry-forward never changes once seeded, over every run |
| TenantRuns.GatewayDraftValid | crate/gateway/src/routes/contributions.rs:289-308 | the gateway's payment carries the venture's cadence and its local current period and passes the asserts |
| TenantRuns.LocalPaymentLockedExactlyWhenLagging | crate/ledger/schema/tenant/000_init.surql:26-29 | the lock refuses a payment for the local current period iff the zone lags |
| ControlPlane.Ledger.constructor | crate/ledger/src/client.rs:43-53 | the client works on whatever tables it finds |
| ControlPlane.Ledger.CreateTenant | crate/ledger/src/client.rs:131-204 | after any number of successful queries the tables and the outcome are those of the query-by-query specification |
| ControlPlane.Ledger.AcceptPendingInvites | crate/ledger/src/client.rs:377-459 | the loop, cut off anywhere, equals the specification query by query |
| ControlPlane.Ledger.AcceptOne | crate/ledger/src/client.rs:407-457 | one round of the loop: upsert, then mark unless already accepted |
| ControlPlane.Ledger.FindInvite | crate/ledger/src/client.rs:516-528 | finds the row of a slug and email, or there is none |
| ControlPlane.Ledger.CreateInvite | crate/ledger/src/client.rs:515-576 | guard, look-up, then reactivate or create, as specified |
| ControlPlane.Ledger.RevokeInvite | crate/ledger/src/client.rs:620-636 | revokes exactly an unrevoked invite of the owner's venture, else changes nothing |
| ControlPlane.Ledger.DeleteInvite | crate/ledger/src/client.rs:596-614 | deletes exactly an unaccepted invite of the owner's venture, else changes nothing |
| ControlEffects.RevokeExactly | crate/gateway/src/routes/invites.rs:126-156 | a revocation stamps exactly one unrevoked row of the venture, for an owner with an account and nobody else |
| ControlEffects.DeleteExactly | crate/ledger/src/client.rs:596-614 | a deletion removes exactly one unaccepted row of the venture, for such an owner and nobody else |
| ControlEffects.InvitingExactly | crate/gateway/src/routes/invites.rs:126-156 | when an invitation is refused, and which row it goes on with; only an owner gets past the guard |
| ControlEffects.InviteStored | crate/ledger/src/client.rs:515-576 | what its second query stores, field by field |
| ControlEffects.CreationStores | crate/ledger/src/client.rs:131-204 | what an undisturbed creation of a new slug leaves in each table |
| ControlEffects.SignUpExactly | crate/ledger/schema/control/000_init.surql:17-23 | a sign-up adds a user iff neither id nor email is taken |
| ControlEffects.StatusExactly | crate/gateway/src/routes/invites.rs:89-97 | revoked hides accepted, and pending is neither |
| ControlRuns.WriteKeepsIntact | crate/ledger/schema/control/000_init.surql:37-72 | each guarded write keeps the integrity invariant and removes nothing but unaccepted invites |
| ControlRuns.StepKeepsSound | crate/ledger/src/client.rs:131-204 | every event of every call, in any interleaving, keeps the invariant and what calls in flight rely on |
| ControlRuns.ReachableIntact | crate/gateway/src/routes/invites.rs:126-156 | in every reachable state listed ventures are provisioned and have their creator's membership, invites and memberships name listed ventures, accepted invites have memberships, keys are unique |
| ControlRuns.EndedCallsStay | crate/ledger/src/client.rs:131-204 | a call that has ended keeps its outcome whatever happens later |
| ControlRuns.CutOffStrands | crate/ledger/src/client.rs:158-200 | from every sound state a creation cut off after its second query strands a slug that was neither listed nor provisioned |
| ControlRuns.StrandedForever | crate/ledger/src/client.rs:158-200 | a slug provisioned but unlisted, with no call left to list it, is never listed in any later run |
| ControlRuns.ListableIffNotStranded | crate/ledger/src/client.rs:131-204 | from every sound state some run lists a valid slug iff it is not stranded |
| ControlRuns.CreationListsExactlyIf | crate/ledger/src/client.rs:131-204 | an undisturbed creation leaves the slug listed iff it was listed or its namespace had no settings, and succeeds iff neither existed |
| ControlRuns.AcceptedForever | crate/ledger/src/client.rs:596-614 | over every run an accepted invite is never deleted or un-accepted and keeps its slug and email |
| ControlRuns.StampChangesExactlyByMark | crate/ledger/src/client.rs:444-456 | the stamp of an accepted invite changes iff a sign-in with an older snapshot marks it |
| ControlRuns.OverlappingSignInsRestamp | crate/ledger/src/client.rs:444-456 | from any state with an invite pending, a run of two overlapping sign-ins stamps it twice and the later stamp wins |
| ControlRuns.StampKeptWhileApart | crate/ledger/src/client.rs:444-446 | while sign-ins of one user do not overlap, the stamp never changes over any run |
| ControlRuns.StatusMoves | crate/gateway/src/routes/invites.rs:89-97 | which events can move the displayed status of an invite, and between which statuses; only an owner revokes |
| ControlRuns.OtherVenturesUntouched | crate/ledger/src/client.rs:616-619 | an administrator's step for one venture leaves every other venture's invites as they are |
| ControlRuns.ReinviteKeepsTheRow | crate/ledger/src/client.rs:505-511 | revoke then invite again gives the same row with its acceptance and a new role |
| Acceptance.SignInReachesOutcome | crate/ledger/src/client.rs:361-375 | cut off anywhere a sign-in changes only what its invites grant; with two queries an invite it settles all of them |
| Acceptance.OutcomeUnique | crate/ledger/src/client.rs:361-375 | the starting state determines the outcome, whatever the order of the rows |
| Acceptance.RetryReachesSameOutcome | crate/ledger/src/client.rs:371-374 | cut off after any query and repeated later, a sign-in reaches the memberships, roles and accepted invites of one whole run |
| Acceptance.SecondSignInIdle | crate/ledger/src/client.rs:361-363 | after a whole sign-in another one changes nothing and accepts nothing |
| Acceptance.SignInReports | crate/ledger/src/client.rs:376 | a whole sign-in returns exactly the slugs it newly accepted, in order |
| Acceptance.SignInGrantsEveryInvite | crate/ledger/src/client.rs:385-457 | a whole sign-in accepts every invite to the user's email in force, whatever its role, and leaves him with that role |
| Acceptance.SignInLeavesOtherInvites | crate/ledger/src/client.rs:385-457 | cut off anywhere it changes no other invite, and of those nothing but the acceptance |
| Acceptance.SignInLeavesOtherMemberships | crate/ledger/src/client.rs:407-430 | it changes no membership but the user's own, each to the role of an invite of his in force |
| Acceptance.ServeKeepsIntact | crate/ledger/src/client.rs:444-456 | after each single query of a call every accepted invite has its membership |
| Ownership.OwnerKeptExactlyIf | crate/ledger/src/client.rs:416-419 | a venture has an owner after a whole undisturbed sign-in iff someone else owns it, or the user's invite is for an owner, or the user owned it uninvited |
| Ownership.OwnerLostExactlyBy | crate/ledger/src/client.rs:407-430 | whatever calls are in flight, a step leaves an owned venture without an owner iff it is a sign-in's upsert of a lesser role for the last owner |
| Ownership.OwnedThroughoutIff | crate/ledger/src/client.rs:407-430 | over every run a venture stays owned throughout iff no such step occurs |
| Ownership.SelfInviteLosesOwner | crate/ledger/src/client.rs:515-576 | an only owner who invites himself as a member loses the venture at his next whole sign-in |
| Ownership.ReachableWithoutOwner | crate/ledger/src/client.rs:361-375 | for every valid slug some run from the empty control plane lists its venture and leaves it without an owner |
| Ownership.ServeIsRun | crate/ledger/src/client.rs:377-459 | serving a call undisturbed is a run of the interleaved system |
| Memberships.EveryMembershipGranted | crate/gateway/src/routes/invites.rs:126-156 | over every run a membership is its venture's creator's as owner, or in the role of an invite an owner of the venture issued to that email |
| Memberships.WithdrawnInviteStillGrantsIff | crate/ledger/src/client.rs:377-406 | an invite revoked or deleted and not reissued can still become a membership iff a sign-in in flight holds its snapshot and can get to it |
| Pool.SumByMember | crate/gateway/src/routes/contributions.rs:476-482 | the map holds the non-rejected sum of exactly the contributors and adds up to the total |
| Pool.SumAndCount | crate/gateway/src/routes/contributions.rs:483-494 | the sum of the values and the number that count as settled |
| Pool.PoolContributions | crate/gateway/src/routes/contributions.rs:472-495 | target, total, clamped remainder and settled count in declarative terms |
| Pool.PoolAgreesExactlyWithoutExcess | crate/gateway/src/routes/contributions.rs:474-495 | the pool's remainder is the sum of the members' remainders iff there is no excess money or nobody owes |
| Pool.NoExcessIff | crate/ledger/src/client.rs:756-759 | there is no excess iff every member is within the dues and every payer is a member |
| Pool.SettledCountsMembers | crate/gateway/src/routes/contributions.rs:484-488 | with dues, the settled count counts members with nothing remaining and is the member count iff nothing remains |
| Pool.SettledWithoutDues | crate/gateway/src/routes/contributions.rs:489-494 | without dues the settled count is the number of different payers |
| Pool.SettledWithDues | crate/gateway/src/routes/contributions.rs:484-488 | with dues it is the number of different payers who paid them in full |
| Pool.TargetNearest | crate/gateway/src/routes/contributions.rs:472-474 | the target is the i64 nearest to dues times members, and the remainder is never negative |
| Pool.PaidByIsSummaryPaid | crate/ledger/src/client.rs:768-780 | the pool's per-member sum is what the member's period summary reports |
| Pool.ReachesCapped | crate/ledger/schema/tenant/000_init.surql:100-116 | every run under constant positive dues reaches a state that meets the agreement's hypotheses |
| Pool.PoolAgreesWithSummaries | crate/gateway/src/routes/contributions.rs:472-495 | what the pool view reports as remaining equals the sum of the summaries' remainders, and is zero iff its settled count is its member count |
| Pool.MemberEmailsDistinct | crate/ledger/src/client.rs:465-501 | in every intact state, so in every reachable one, the member list finds every user and repeats no email |
| VentureRuns.StepKeepsCoherent | crate/gateway/src/routes/contributions.rs:216-231 | every event of the books or of the control plane keeps the control plane sound, the sums within the dues and every payer a member |
| VentureRuns.PoolAgreesOverRuns | crate/gateway/src/routes/contributions.rs:472-495 | after every joint run of members' payments and control-plane calls under constant dues, pool view and members' summaries agree |
| Accumulation.FillBuckets | crate/gateway/src/routes/contributions.rs:648-655 | the ordered map holds exactly the keys in use with their sums |
| Accumulation.BucketSeries | crate/gateway/src/routes/contributions.rs:641-668 | ascending buckets, one a key in use, each with its own sum and the seed plus everything up to it |
| Accumulation.SeriesOfPermutation | crate/gateway/src/routes/contributions.rs:637-640 | the series does not depend on the order of the points |
| Accumulation.PoolsAddUp | crate/gateway/src/routes/contributions.rs:476-483 | the pool views of different periods together report what the rows of those periods hold |
| Accumulation.SeriesEndsAtPools | crate/gateway/src/routes/contributions.rs:656-667 | the chart ends at the seed plus what the pool views of all stored periods report as paid |
| Accumulation.BarsHoldTheirPeriods | crate/gateway/src/routes/contributions.rs:648-655 | each bar holds the non-rejected payments submitted in the month or year that prints as its bucket |
| YearlyRefinement.MonthlyRefinesYearly | crate/gateway/src/routes/contributions.rs:649-667 | merging the monthly chart by year gives exactly the yearly chart |
| ActivePeriods.ListActivePeriods | crate/ledger/src/client.rs:724-734 | the stored periods, each once, strictly descending |
| ActivePeriods.ListWithCurrent | crate/gateway/src/routes/contributions.rs:535-548 | exactly the stored periods and the current one; descending iff the current one is stored or later than all |
| ActivePeriods.GatewayListOrder | crate/gateway/src/routes/contributions.rs:535-548 | after every gateway run of one cadence, in every zone, the list is descending iff a stored payment was taken in the current period or all were taken in earlier ones |
| ActivePeriods.GatewayListNewestFirst | crate/gateway/src/routes/contributions.rs:544-548 | it is strictly descending after every run in which the derived period does not go back behind an open one |
| ActivePeriods.NewestFirstExactlyIf | crate/gateway/src/routes/contributions.rs:544-548 | it is so after all runs until an instant iff the zone's derived period never goes back that way until then |
| ActivePeriods.DaysForwardSuffice | crate/common/src/domain.rs:169-185 | a zone whose calendar never goes back a day qualifies, whatever its clocks do |
| ActivePeriods.SetBackLosesOrder | crate/gateway/src/routes/contributions.rs:206-214 | clocks set back from half past midnight on the first day of a period: a payment a minute before is accepted and puts the list out of order |
| ErrorChannel.LockRoundTrip | crate/ledger/src/error.rs:39-43 | the refused period comes back exactly from the lock throw |
| ErrorChannel.CapRoundTrip | crate/ledger/src/error.rs:44-53 | the post-write sum and the cap come back exactly from the cap throw |
| ErrorChannel.SeedRoundTrip | crate/ledger/src/error.rs:54-56 | touching the seed reads as an existing carry-forward |
| ErrorChannel.DeleteThrowMisread | crate/ledger/schema/tenant/000_init.surql:123 | the delete throw is parsed as a lock on its whole wording |
| ErrorChannel.RefusedPaymentExplained | crate/ledger/src/error.rs:35-53 | a payment refused by an event is reported with its period, or with the sum it would have made and the dues |
| ErrorChannel.MappedExactly | crate/ledger/src/error.rs:35-66 | which error a message becomes, by the tags that occur in it; without any it is passed on as it is |
| ErrorChannel.TrimExactly | crate/ledger/src/error.rs:41-46 | white space at both ends goes, and nothing else |
| ErrorChannel.UnreadableCap | crate/ledger/src/error.rs:46-48 | a cap text whose parts are missing or no numbers reads as zeros |
| Money.DuesExact | sharam-ui/src/pages/create_tenant.rs:98-131 | on digit strings with at most two decimals the exact cents come back iff they fit an i64; which error otherwise |
| Money.RefusedTexts | sharam-ui/src/pages/create_tenant.rs:102-111 | a leading minus is negative, more than two characters behind the dot are too many decimals |
| Money.AcceptedText | sharam-ui/src/pages/create_tenant.rs:98-131 | whatever is accepted is digits and signs without a leading minus, with at most one dot and two characters behind it |
| Money.NegativeExactlyIf | sharam-ui/src/pages/create_tenant.rs:96-131 | a negative amount comes out iff the text is an empty or zero whole part, a dot, a minus and a digit other than 0 |
| Money.SignedDecimal | sharam-ui/src/pages/create_tenant.rs:112-131 | a sign inside the decimals adds or takes off that many cents, behind every whole part |
| Money.SignInDecimals | sharam-ui/src/pages/create_tenant.rs:96-97 | two instances: `0.-5` is -5 and `5.-5` is 495 |
| Money.Group | sharam-ui/src/pages/venture.rs:402-411 | the reversed walk groups the digits |
| Money.FmtMoney | sharam-ui/src/pages/venture.rs:396-413 | the displayed text of every i64 but the least reads back as the amount, sign included |
| Money.LeastText | sharam-ui/src/pages/venture.rs:396-413 | the least i64 wraps to itself and prints three signs |
| Money.GroupsOfThree | sharam-ui/src/pages/venture.rs:401-410 | counted from the right every fourth character is a comma and no other, and none leads |
| Money.ParseFormatted | sharam-ui/src/pages/venture.rs:396-413 | reading a displayed amount back gives it, for every non-negative i64 |
| UrlEncoding.UrlEncode | sharam-ui/src/pages/venture.rs:379-392 | the loop produces the encoding of every byte in order |
| UrlEncoding.DecodeEncode | sharam-ui/src/pages/venture.rs:379-392 | decoding per section 2.1 of RFC 3986 undoes it on every byte string |
| UrlEncoding.EncodingInjective | sharam-ui/src/pages/venture.rs:379-392 | different byte strings have different encodings |
| UrlEncoding.EncodedWell | sharam-ui/src/pages/venture.rs:376-378 | only unreserved characters (section 2.3) and whole upper-case triples appear |
| UrlEncoding.EncodedByteByByte | sharam-ui/src/pages/venture.rs:379-392 | letters, digits and `-_.~` stay as they are and every other byte becomes a triple |
| ProofKeys.SanitizeEmailFrag | crate/storage/src/proof.rs:144-162 | the loop collapses each run of dropped characters of the lower-cased address to one dash and trims the ends; the result holds only `[a-z0-9._-]` and is its own fragment |
| ProofKeys.FragmentShape | crate/storage/src/proof.rs:140-143 | only `[a-z0-9._-]`, no dash at either end |
| ProofKeys.FragmentIdempotent | crate/storage/src/proof.rs:144-162 | sanitizing again changes nothing |
| ProofKeys.PlainEmailFragment | crate/storage/src/proof.rs:140-142 | an address of kept characters becomes `local_at_domain` |
| ProofKeys.DroppedRun | crate/storage/src/proof.rs:150-160 | a run of dropped characters between kept ones becomes one dash |
| ProofKeys.KeyBelongsToItsVenture | crate/gateway/src/routes/contributions.rs:275-287 | a minted key passes a venture's prefix check iff it was minted for it |
| ProofKeys.KeyText | crate/storage/src/proof.rs:108-110 | the key and the prefix, written out |
| ProofKeys.KeyHasFourSegments | crate/storage/src/proof.rs:108-110 | a key splits into exactly prefix, slug, fragment and file name |
| Slugs.ValidatorsAgree | crate/common/src/domain.rs:117-128 | server, form and schema accept the same strings |
| Slugs.CharBytesExactly | sharam-ui/src/pages/create_tenant.rs:75-81 | the byte lengths the validators compare are those of UTF-8 |
| Slugs.Slugify | sharam-ui/src/pages/create_tenant.rs:146-165 | the loop joins the words of the name with single underscores, from the first letter on, cut at 41 |
| Slugs.SlugShape | sharam-ui/src/pages/create_tenant.rs:146-165 | every result is under 3 characters or accepted everywhere, with no doubled underscore |
| Slugs.SlugOfSlug | sharam-ui/src/pages/create_tenant.rs:146-165 | a valid slug without doubled or trailing underscores is its own proposal, up to the full 41 characters |
| Slugs.SlugIgnoresCase | sharam-ui/src/pages/create_tenant.rs:150-152 | capitals make no difference |
| Slugs.SlugIgnoresSeparators | sharam-ui/src/pages/create_tenant.rs:153-156 | which characters separate the words makes no difference |
| Slugs.IssueExactly | sharam-ui/src/pages/create_tenant.rs:71-94 | which issue the form reports |

## Left out

- TenantLedger.Tenant.CreateContribution: `string::is_email` is a database builtin and a parameter of the model, whatever it accepts. `updated_at`, `locked_at` and `audit_log` are not stored.
- TenantLedger.Tenant.Put: when both events would throw, the model reports the lock, the first in the schema file; the database's own event order decides which text a caller sees, not whether the step is undone.
- TenantLedger.Tenant.UpdateSettings: `purpose` is not modelled; nothing else reads it, and what the database makes of the JSON null that clears it is its own matter.
- Periods.CurrentPeriodMonotone: covers printable days only; beyond year 9999 the database's `%Y` and `%G` add a sign that `{:04}` does not, and the order is lost (`OrderKeptExactlyOn`).
- Pool.PoolContributions: i64 overflow of the running sums is not modelled; the saturating target is.
- ControlPlane.Ledger.CreateTenant: namespace creation and schema application count as one query, and the connection cache is not modelled. Settings refused by the asserts end the call as an abandonment before the settings does. Timestamps of memberships and directory rows are not stored.
- ControlPlane.Ledger.CreateInvite: the owner guard counts as one step with the query that follows it, as it does for revoking and deleting; the gateway's `require_owner` sends two queries of its own before. `string::is_email` on users and invites is not asserted; the address normalisation and the invitation mail of the gateway are not modelled; emails are compared as given.
- ProofKeys.SanitizeEmailFrag: `to_lowercase` is the library's and a parameter of the model; what is used of it is that no ASCII capital is left and that lower-case ASCII stays as it is.
- ErrorChannel.LockRoundTrip: `trim` strips ASCII white space only; the texts the events throw hold no other.
- Slugs.Slugify: the loop lower-cases ASCII letters and digits only, which is all it keeps.
- The timezone database is not part of this model: a zone is an integer UTC offset at each instant, any function of the instant over runs.
- SurrealDB itself: each query, and each BEGIN..COMMIT, is one atomic step.
- HTTP handlers, sessions, password hashing, identity providers, object storage, mail and configuration: libraries do the work.
- The user interface beyond the money, slug and encoding helpers, and its floating-point amount entry.
- `decide_bucket` and other one-branch helpers: they would only add easy members.
