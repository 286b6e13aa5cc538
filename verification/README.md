# A verified model of the data platform's services

This project models, in Dafny, the parts of the platform where a rule has to hold over every input or every run,
and proves those rules. It covers seven areas.

- **Wall-clock scheduling** (`scheduling-service`): the civil calendar, turning a zone's wall time into an instant,
  the DAILY strategy, catching up on missed runs, backoff. Files: `Civil`, `Zones`, `TimeZone`, `DstPolicy`,
  `DailySchedule`, `MissedRun`, `Backoff`.
- **Contract registration** (`data-product-catalog-service`): canonical JSON and what its text identifies, version
  texts as the service and the database read them, the structural validator, the append-only version history. Files:
  `Json`, `StableSort`, `CanonicalJson`, `HashText`, `VersionText`, `ContractValidator`, `Registry`.
- **Entitlement mirror** (the portal's link, grant and revoke calls against the exchange service's sync script). File:
  `EntitlementMirror`.
- **Pipeline worker** (`data-exchange-service`): one job's chain, and poll loop and admin runs together. File: `PipelineWorker`.
- **Deletion** (`data-exchange-service`): object keys, the deletion control plane, and exchanges over whole runs in which
  publications, uploads, downloads, legal holds and deletions interleave at every await. Files: `Decimal`, `StorageKeys`,
  `Deletion`, `ExchangeLifecycle`, `LifecycleMeaning`, `SerialCompletion`, `LegalHold`, `DeletionLog`, `DeletionLasts`,
  `SerialDeletion`, `StrayObjects`, `RequestTruth`.
- **Observability**: the rollup of stage runs, the failure detector, the timeline. Files: `Rollup`, `ExecutionMeaning`,
  `Timeline`.
- **Query API** (`data-product-api-service`): strict dates, query policy, the signed cursor down to UTF-8 and base64url,
  keyset pagination. Files: `StrictDate`, `Encoding`, `Cursor`, `QueryPolicy`, `QueryMeaning`, `Pagination`.

`Options` holds the one type they share.

Where the source works step by step the model does too: loops are methods with invariants, services that rewrite their
tables are classes (`Registry.Service`, `EntitlementMirror.Portal`, `PipelineWorker.JobTable`, `Deletion.DeletionService`),
each proved equal to a step function on values, about which the theorems are stated. What each step does, which text is
read or printed and what an answer means is stated besides without the functions that compute it: in constants, rows and
characters of the source. What the source obtains from outside
is a parameter: the zone table, SHA-256 and HMAC, replies of downstream services and of the object store, whether a push
arrives, the clock, the compatibility engine's verdict, the timestamp check, `Number` on text, and what `Buffer` does with
malformed input.

`dafny verify dfyconfig.toml` checks everything.

## Where the code and its documentation differ

The model follows the code. In each case the project proves exactly when the documented rule holds.

- The header of `scheduling-service/src/domain/timezone.ts` says a repeated wall time resolves to its first occurrence.
  That holds exactly when the wall time read as UTC precedes the change: never where the later offset is at or east of
  UTC (`DstPolicy.OverlapPolicy`).
- Wall times in the years 0 to 99 are taken for 1900 to 1999 and never come back (`DstPolicy.HonouredExactlyWhenShown`).
- Resolution is meant to keep calendar order. It reverses two wall times exactly when the earlier one lies in a gap, has
  the later second within its minute, and lands past the later one on the far side of the gap (`DstPolicy.OrderPolicy`);
  every odd second before the far side is such a time (`DstPolicy.SecondsReorder`).
- A schedule strategy promises the next occurrence strictly after its argument. The DAILY strategy keeps this at every
  instant exactly for zones and delivery times no clock change catches: not around midnight, and not in a jump of more than
  six hours, which makes it throw (`DailySchedule.DailyContract`). All four kinds of clock change exist
  (`DailySchedule.StallHappens` and its siblings); the last one happened in Samoa.
- The canonical contract text is documented to identify a contract up to key order. `result[k] = ...` loses members named
  `__proto__`, so it does so exactly for contracts without them (`CanonicalJson.FaithfulIffProtoFree`, and at such inputs
  `CanonicalJson.ProtoIsLost`). The contract schema takes only the values of `quality.rules` as they come
  (`data-product-catalog-service/src/registration/contract-schema.ts:92`), so such a member has to sit inside one of them, and
  over HTTP the framework's default JSON parser refuses the key: it takes a direct caller of `registerContract`.
- Versions are to increase strictly. A version text that starts with white space passes the parser but sorts as NULL in the
  "latest version" query and from then on hides the real latest; the order can be broken exactly after such a version
  (`Registry.OrderBreaksIffBlank`); any valid contract gets there from an empty catalog in three registrations
  (`Registry.BlankBreaksFromNothing`).
- The sync script calls itself the backstop for whatever the pushes missed. It restores agreement exactly when the table is right
  off the catalogue, that is, where the catalogue lists every link and grant, when no row off it still grants anything
  (`EntitlementMirror.SyncRestoresIff`). Deleting a dataset pushes nothing and takes it
  out of the catalogue, so no sync ever takes back what it granted (`EntitlementMirror.SyncAfterRemovalIff`).
- Each push is meant to carry the tenant's decision for the dataset. Revoking a product pushes "no" to every dataset it links,
  also to those another ACTIVE grant covers: a fully delivered call keeps the table right exactly when it removes no dataset
  anybody holds and revokes no product a dataset of which is covered otherwise (`EntitlementMirror.CallAgreesIff`,
  `EntitlementMirror.RevokingCutsOff`).
- `docs/security/retention-deletion.md:25` says a legal hold overrides deletion. A held exchange can lose an object exactly when
  a call begun before the hold may still delete it, or when it is the data of an upload not yet completed: `completeUpload`
  deletes an object it finds oversized without reading the hold (`LegalHold.HoldProtectsIff`, event by event `LegalHold.HeldLosesIff`;
  both happen: `LegalHold.OversizedIgnoresHold`, `LegalHold.HoldComesLate`).
- DELETED is documented as terminal. `requestDownloadUrl` moves any expired exchange, deleted ones included, to EXPIRED
  without consulting the transition table, `failOutboundPublication` moves it to FAILED, which the table allows from
  everywhere although its comment says "any non-terminal status", and a completion begun before sets its status
  unconditionally. DELETED is left exactly in these three ways (`DeletionLasts.DeletedIsLeft`); a second deletion is then
  audited as having deleted every file again though none was there (`SerialDeletion.DeletedTwice`).
- Deletion is to remove the objects for good. It deletes what has a file row. An object gets no row exactly when its put throws after
  it took effect and nothing else records it (`StrayObjects.UnrecordedIff`), and then outlives a COMPLETED deletion
  (`StrayObjects.StrayOutlivesDeletion`). Once nothing of an exchange is in storage, that stays so exactly until somebody uses an
  upload URL that has not lapsed (`StrayObjects.StaysBareIff`), so for good once it has (`StrayObjects.BareForGood`).
- A request's status is to tell what became of the exchange. With no completion of it under way, COMPLETED means in every run that
  nothing of the exchange is left exactly when, as the deletion read the rows, the data file could no longer be put and no object
  was without a row (`RequestTruth.CompletedBareIff`). FAILED leaves the exchange EXPIRED, as it found it, exactly when no request of it was
  COMPLETED meanwhile, its publication was not failed and no completion set its status (`RequestTruth.EligibleStaysIff`); two
  overlapping deletions can leave a FAILED request on a DELETED exchange (`SerialDeletion.OverlappingDeletions`).
- The rollup's current stage of a RETRYING execution depends on the order in which stage runs are listed, exactly when two
  stages are retrying (`Rollup.CurrentStageDependsIff`).

## Model

| member | source | states |
|---|---|---|
| Civil.DateOf | scheduling-service/src/domain/timezone.ts:83-94 | the getUTC date fields of a day number are a real Gregorian date whose day number it is |
| Civil.Tomorrow | scheduling-service/src/domain/timezone.ts:73-94 | days count from 1 January 1970 and each is followed by the calendar's next one: months of 30 and 31 days, leap years by the rules of 4, 100 and 400 |
| Civil.DayNumberMonotone | scheduling-service/src/domain/timezone.ts:73-94 | calendar order of real dates is the order of their day numbers |
| Civil.DateRoundTrip | scheduling-service/src/domain/timezone.ts:73-94 | every real date is the date of its own day number (section 21.4.1 of ECMA-262) |
| Civil.WallRoundTrip | scheduling-service/src/domain/timezone.ts:83-94 | fields to epoch and back is the identity outside the two-digit years |
| Civil.UtcRoundTrip | scheduling-service/src/domain/timezone.ts:58-77 | epoch to fields and back loses exactly the milliseconds |
| Civil.FieldsCount | scheduling-service/src/domain/timezone.ts:83-94 | an instant is its day number and clock fields in milliseconds |
| Civil.AddMinutesComposes | scheduling-service/src/domain/timezone.ts:83-94 | stepping a minutes and then b is stepping a + b, across days, months and years |
| Zones.HitsIffOccurs | scheduling-service/src/domain/timezone.ts:100-119 | the two passes find an instant reading a wall time exactly when one exists, either side of any transition, either sign of offset |
| Zones.OnceStrictlyMonotone | scheduling-service/src/domain/timezone.ts:100-107 | existing wall times resolve in their own order |
| Zones.MissingIsInGap | scheduling-service/src/domain/timezone.ts:120-134 | a wall time never occurs exactly when some transition skips it |
| Zones.GapFirstStep | scheduling-service/src/domain/timezone.ts:120-134 | the first whole-minute step out of a gap resolves within the minute after the transition |
| Zones.GapSettles | scheduling-service/src/domain/timezone.ts:120-134 | inside a gap the search succeeds exactly when the far side is at most 21 600 000 ms off, and where it lands |
| Zones.OccurringSettles | scheduling-service/src/domain/timezone.ts:111-119 | an existing wall time is answered by the first try, with an instant that reads it |
| Zones.OverlapChoice | scheduling-service/src/domain/timezone.ts:100-107 | a repeated wall time has exactly two instants, and which one is taken |
| Zones.SettleMonotone | scheduling-service/src/domain/timezone.ts:111-135 | wall times whole minutes apart resolve in order |
| Zones.SettleStrictlyMonotone | scheduling-service/src/domain/timezone.ts:111-135 | wall times further apart than the search resolve strictly in order |
| Zones.ReversedIff | scheduling-service/src/domain/timezone.ts:111-135 | two wall times resolve in reverse order if and only if the earlier lies in a gap, with the later second, and lands past the later |
| Zones.DailySpacing | scheduling-service/src/domain/timezone.ts:111-135 | the same time a day later resolves 24 hours later, up to the largest jump |
| TimeZone.ZonedWallTimeToUtc | scheduling-service/src/domain/timezone.ts:111-135 | the loop with early return computes the minute-by-minute resolution, and fails on unknown zones |
| TimeZone.OffsetThroughFields | scheduling-service/src/domain/timezone.ts:58-77 | the offset computed through formatted fields is the zone's offset |
| TimeZone.ResolveIsSettle | scheduling-service/src/domain/timezone.ts:73-135 | the code on fields computes the resolution on the plain local clock |
| DstPolicy.HonouredExactlyWhenShown | scheduling-service/src/domain/timezone.ts:100-119 | a wall time is answered with an instant showing it exactly when its year is above 99 and the zone's clock ever shows it |
| DstPolicy.TwoDigitYearsAreLost | scheduling-service/src/domain/timezone.ts:83-119 | years 0 to 99 are never honoured |
| DstPolicy.GapPolicy | scheduling-service/src/domain/timezone.ts:83-134 | a skipped time moves to the first later whole-minute step that occurs, keeping its seconds, in [T, T + 60 s); the code gives up exactly where the far side is more than 21 600 000 ms off |
| DstPolicy.NeverGivesUp | scheduling-service/src/domain/timezone.ts:120-135 | with no jump over 21 600 000 ms the code always answers |
| DstPolicy.OverlapPolicy | scheduling-service/src/domain/timezone.ts:11-18 | a repeated time resolves to its first occurrence exactly when it precedes the transition read as UTC: always west of UTC, never east of it |
| DstPolicy.OrderPolicy | scheduling-service/src/domain/timezone.ts:111-135 | existing times resolve strictly in order; any two are reversed if and only if the earlier is skipped by a change, has the later second and lands past the later |
| DstPolicy.SecondsReorder | scheduling-service/src/domain/timezone.ts:120-134 | at every gap, any time with odd seconds in the last minute before the far side resolves after the far side |
| DstPolicy.DailyPolicy | scheduling-service/src/domain/timezone.ts:111-135 | deliveries on successive days are strictly increasing, a day apart up to the largest jump |
| DstPolicy.NewYork2026 | scheduling-service/src/domain/timezone.ts:98-135 | New York's 02:30 of 8 March 2026 is answered with 07:00 UTC, its 01:30 of 1 November with 05:30 UTC |
| DailySchedule.NextRunIsNext | scheduling-service/src/domain/strategies/daily.strategy.ts:15-32 | where no clock change catches the delivery time the strategy returns the least delivery after its argument |
| DailySchedule.StallBreaks | scheduling-service/src/domain/strategies/daily.strategy.ts:24-30 | a fall-back over midnight taken in its first pass makes the strategy answer with an instant already gone |
| DailySchedule.SkipBreaks | scheduling-service/src/domain/strategies/daily.strategy.ts:24-30 | a fall-back over midnight taken in its second pass makes it skip a delivery |
| DailySchedule.SplitBreaks | scheduling-service/src/domain/strategies/daily.strategy.ts:24-30 | a jump over midnight past a delivery with odd seconds makes it skip one |
| DailySchedule.LossBreaks | scheduling-service/src/domain/timezone.ts:120-135 | a jump past the delivery that lands more than 21 600 000 ms on makes it throw |
| DailySchedule.DailyContract | scheduling-service/src/domain/schedule.ts:19-25 | the strategy keeps the promise at every instant if and only if none of the four happens |
| DailySchedule.StallHappens | scheduling-service/src/domain/strategies/daily.strategy.ts:24-30 | a zone and delivery time where the first happens |
| DailySchedule.SkipHappens | scheduling-service/src/domain/strategies/daily.strategy.ts:24-30 | one where the second happens |
| DailySchedule.SplitHappens | scheduling-service/src/domain/strategies/daily.strategy.ts:24-30 | one where the third happens |
| DailySchedule.LossHappens | scheduling-service/src/domain/timezone.ts:120-135 | one where the fourth happens, a calendar day left out |
| MissedRun.FindLatestDueOccurrence | scheduling-service/src/domain/missed-run.ts:31-47 | the loop computes the bounded walk over occurrences |
| MissedRun.FindsLatestIff | scheduling-service/src/domain/missed-run.ts:31-47 | null exactly before the first due time; otherwise the latest due occurrence exactly when no more than maxIterations were missed |
| MissedRun.TwoScansAreOne | scheduling-service/src/domain/missed-run.ts:31-47 | catching up to a middle instant and then to now finds what one scan finds |
| MissedRun.RunsOnlyFresh | scheduling-service/src/domain/missed-run.ts:16-25 | RUN is decided exactly when the policy allows it and the latest due occurrence is within the grace window |
| MissedRun.DailyCatchesUp | scheduling-service/src/domain/missed-run.ts:31-47 | the DAILY strategy satisfies the contract the scan needs, so it finds the last delivery |
| Backoff.DelayBounds | scheduling-service/src/domain/retry-policy.ts:14-19 | for every draw the delay lies between the capped one less and plus its jitter share, and below the cap with full jitter |
| Backoff.DelayIs | scheduling-service/src/domain/retry-policy.ts:14-19 | the delay is the initial one multiplied once per attempt after the first, capped, moved linearly by the draw, rounded half up and never negative |
| Backoff.ClampUnusedIff | scheduling-service/src/domain/retry-policy.ts:14-19 | the clamp at zero never acts if and only if the worst draw rounds to zero or more; so for every ratio up to 1 |
| Backoff.LaterWaitsLonger | scheduling-service/src/domain/retry-policy.ts:14-19 | for one draw the delay is nondecreasing in the attempt |
| Backoff.ReachesCapIff | scheduling-service/src/domain/retry-policy.ts:14-19 | a delay starting below the cap reaches it for good after finitely many attempts if and only if the multiplier exceeds 1 |
| Json.StringRoundTrip | data-product-catalog-service/src/registration/contract-hash.ts:25-27 | every string, lone surrogates included, is read back from its quoted form |
| Json.UnitText | data-product-catalog-service/src/registration/contract-hash.ts:25-27 | each unit's printed form: seven two-character escapes, four lower-case hexadecimal digits for the other controls and lone surrogates, every other unit itself |
| Json.UnitShortest | data-product-catalog-service/src/registration/contract-hash.ts:25-27 | no text that is read as a unit other than a surrogate is shorter than the one printed for it |
| Json.PairText | data-product-catalog-service/src/registration/contract-hash.ts:25-27 | surrogate pairs are printed as they are |
| Json.CompactText | data-product-catalog-service/src/registration/contract-hash.ts:25-27 | between the parts of arrays and objects stand only commas and colons, no spaces |
| Json.HexIff | data-product-api-service/src/domain/cursor.ts:63 | the digits of an escape that is read: sixteen, the last six in either case |
| Json.ParseStringify | data-product-catalog-service/src/registration/contract-hash.ts:25-27 | JSON.stringify (section 25.5.2 of ECMA-262) is unambiguous: reading its text gives the value meant |
| CanonicalJson.CanonicalizeByAssignment | data-product-catalog-service/src/registration/contract-hash.ts:8-23 | filter, sort, then assign one by one computes the canonical form |
| CanonicalJson.CanonicalMeaning | data-product-catalog-service/src/registration/contract-hash.ts:8-23 | the canonical form means the same data but for `__proto__` members |
| CanonicalJson.TextIdentifies | data-product-catalog-service/src/registration/contract-hash.ts:8-27 | two contracts have one text if and only if they are equal up to key order and undefined members at every depth, `__proto__` members aside |
| CanonicalJson.FaithfulIffProtoFree | data-product-catalog-service/src/registration/contract-hash.ts:16-20 | the canonical form loses nothing if and only if no member is named `__proto__` |
| CanonicalJson.ProtoIsLost | data-product-catalog-service/src/registration/contract-hash.ts:16-20 | contracts that differ by a `__proto__` member only have one text, whatever its value |
| CanonicalJson.ProtoFreeTextIdentifies | data-product-catalog-service/src/registration/contract-hash.ts:8-27 | on contracts without such members one text is equality up to key order |
| CanonicalJson.CanonicalizeIdempotent | data-product-catalog-service/src/registration/contract-hash.ts:8-23 | canonicalising twice is canonicalising once |
| CanonicalJson.HashIdentifies | data-product-catalog-service/src/registration/contract-hash.ts:29-31 | equal hashes are equal contracts for a collision-free hash |
| HashText.IndexIff | data-product-catalog-service/src/registration/contract-hash.ts:16-20 | the keys JavaScript enumerates first are the numbers from 0 to 2^32 - 2 as they are written (section 10.1.11 of ECMA-262) |
| HashText.ObjectPrints | data-product-catalog-service/src/registration/contract-hash.ts:8-27 | the text of an object: its defined members but `__proto__`, index keys first by size and the others by code unit |
| HashText.ArrayPrints | data-product-catalog-service/src/registration/contract-hash.ts:8-27 | the text of an array: its elements, canonical, in their own order |
| HashText.WholeNumber | data-product-catalog-service/src/registration/contract-hash.ts:25-27 | the text of every whole number is one of the notations a contract's numbers have |
| StableSort.SortSorts | data-platform-observability-service/src/domain/timeline.ts:66 | sorting orders and keeps exactly the elements |
| StableSort.SortIsStable | data-platform-observability-service/src/domain/timeline.ts:66 | equal elements keep their order |
| VersionText.KeyOfParsed | data-product-catalog-service/src/modules/versions/version.repository.ts:61-75 | the database sorts an accepted version by its parsed numbers unless it starts with white space, then as NULL |
| VersionText.NumberReads | data-product-catalog-service/src/common/utils/semver.ts:14-22 | the decimal text of every number is read as that number |
| VersionText.TextIsRead | data-product-catalog-service/src/common/utils/semver.ts:8-22 | MAJOR.MINOR.PATCH in decimal is read as these three numbers, by the service and by the database |
| VersionText.ThreeParts | data-product-catalog-service/src/common/utils/semver.ts:8-22 | with white space around it too, and with leading zeros |
| VersionText.TwoParts | data-product-catalog-service/src/common/utils/semver.ts:8-22 | without PATCH it is 0 |
| VersionText.LeadingZero | data-product-catalog-service/src/common/utils/semver.ts:14-22 | a leading zero does not change a component |
| VersionText.AcceptedIsShaped | data-product-catalog-service/src/common/utils/semver.ts:8-13 | nothing else is a version |
| VersionText.TrailingSpace | data-product-catalog-service/src/common/utils/semver.ts:8-22 | a trailing space is another text of the same version |
| VersionText.LessOrder | data-product-catalog-service/src/common/utils/semver.ts:24-28 | semver comparison is a strict total order |
| ContractValidator.CollectFieldNames | data-product-catalog-service/src/registration/registration.validator.ts:18-24 | the growing set rejects exactly repeated names and ends as the set of declared names |
| ContractValidator.CheckGrain | data-product-catalog-service/src/registration/registration.validator.ts:26-40 | grain keys and grain fields name each other |
| ContractValidator.CheckGovernance | data-product-catalog-service/src/registration/registration.validator.ts:70-91 | accepts exactly when every field is governed |
| ContractValidator.ValidateContractStructure | data-product-catalog-service/src/registration/registration.validator.ts:10-100 | the successive checks accept exactly the declaratively valid structures |
| Registry.Service.RegisterContract | data-product-catalog-service/src/registration/registration.service.ts:59-329 | the service's new tables, events and answer are those of the step function, every rejection included |
| Registry.Service.InsertVersion | data-product-catalog-service/src/registration/registration.service.ts:163-317 | the transaction appends exactly one version and contract with fresh ids and their events |
| Registry.RejectsFirst | data-product-catalog-service/src/registration/registration.service.ts:59-80 | an invalid contract, an unknown domain and an unknown owner are found in that order, and a rejection changes nothing |
| Registry.NewVersionIs | data-product-catalog-service/src/registration/registration.service.ts:113-161 | a version new to the product is registered exactly when the version rules allow it after the version the query finds, at the engine's level |
| Registry.GateSays | data-product-catalog-service/src/registration/registration.service.ts:133-161 | each version error with its condition: not above; BREAKING without a higher major; NON_BREAKING without a higher minor or major |
| Registry.SuccessDoes | data-product-catalog-service/src/registration/registration.service.ts:163-329 | what is accepted appends one row with fresh ids, the contract, its hash and the engine's level, and its events; nothing else moves |
| Registry.RunKeeps | data-product-catalog-service/src/registration/registration.service.ts:78-329 | over every run rows are only added, every stored contract is valid and hashed as stored, no version text repeats |
| Registry.ReplayIsDuplicate | data-product-catalog-service/src/registration/registration.service.ts:82-111 | under a taken version an equivalent contract gets DUPLICATE with the original ids and one event; any other is refused and adds nothing |
| Registry.RegisteredForGood | data-product-catalog-service/src/registration/registration.service.ts:82-111 | after any number of later requests the version still stands for the contract first registered |
| Registry.LatestIsLast | data-product-catalog-service/src/modules/versions/version.repository.ts:61-75 | on increasing versions without leading blanks the latest-version query finds the newest row |
| Registry.BlankIsLatest | data-product-catalog-service/src/modules/versions/version.repository.ts:61-75 | a version with a leading blank hides all others from that query |
| Registry.GateKeepsOrder | data-product-catalog-service/src/registration/registration.service.ts:113-161 | what the compatibility and bump rules let through is greater than every version before it, by a bump that fits its level |
| Registry.RunKeepsOrder | data-product-catalog-service/src/registration/registration.service.ts:113-161 | over every run without leading blanks versions strictly increase as registered, and every BREAKING one opens a major line above all before it |
| Registry.OrderBreaksIffBlank | data-product-catalog-service/src/registration/registration.service.ts:113-161 | an increasing history can be broken by the next registration if and only if a version before the newest starts with a blank |
| Registry.BlankBreaksFromNothing | data-product-catalog-service/src/registration/registration.service.ts:59-329 | any valid contract registered as " 1.0", "2.0" and "2.0 " in an empty catalog is accepted three times, whatever the compatibility engine says, and the versions do not increase |
| EntitlementMirror.QueriesDecide | src/lib/entitlement-directory.ts:73-84 | linked products and the ACTIVE lookup together decide entitlement of a tenant to a dataset |
| EntitlementMirror.Portal.AssociateDataset | src/lib/data-product-dataset-directory.ts:102-125 | link row and pushes for the affected tenants, whichever pushes arrive |
| EntitlementMirror.Portal.DissociateDataset | src/lib/data-product-dataset-directory.ts:127-147 | row removed and the affected tenants recomputed, whichever pushes arrive |
| EntitlementMirror.Portal.DissociateAllForDataset | src/lib/data-product-dataset-directory.ts:149-153 | every link of the dataset goes and nothing is pushed |
| EntitlementMirror.Portal.GrantEntitlement | src/services/mongo/mongo-entitlement-service.ts:33-42 | a new ACTIVE row, and "yes" to every dataset of the product, whichever pushes arrive |
| EntitlementMirror.Portal.RevokeEntitlement | src/services/mongo/mongo-entitlement-service.ts:44-48 | the tenant's row REVOKED, and "no" to every dataset of its product; an unknown row changes nothing |
| EntitlementMirror.Portal.ReactivateEntitlement | src/services/mongo/mongo-entitlement-service.ts:50-54 | the tenant's row ACTIVE again, and "yes" to every dataset of its product |
| EntitlementMirror.Portal.SyncCatalog | data-exchange-service/scripts/sync-cdep-catalog.ts:106-158 | the nested loops set every (tenant, dataset) row of the catalogue to the recomputed decision |
| EntitlementMirror.AssociateDoes | src/lib/data-product-dataset-directory.ts:102-125 | delivered, a new link stands last and every tenant ACTIVE for the product reads "yes"; a known link changes nothing |
| EntitlementMirror.DissociateDoes | src/lib/data-product-dataset-directory.ts:127-147 | the first link of the pair goes and those tenants read what the remaining links give; no other row changes |
| EntitlementMirror.RemoveDoes | src/lib/data-product-dataset-directory.ts:149-153 | exactly the dataset's links go, and nothing else changes |
| EntitlementMirror.GrantDoes | src/services/mongo/mongo-entitlement-service.ts:33-42 | a new ACTIVE row, and "yes" to every dataset of the product; every other decision as it was |
| EntitlementMirror.StatusDoes | src/services/mongo/mongo-entitlement-service.ts:44-54 | a revocation makes the tenant's row REVOKED and answers "no", a reactivation makes it ACTIVE and answers "yes", to every dataset of its product; every other row, link and decision as it was |
| EntitlementMirror.UnknownRow | src/services/mongo/mongo-entitlement-service.ts:44-66 | an id the tenant has no row with changes nothing |
| EntitlementMirror.CallAgreesIff | src/services/mongo/mongo-entitlement-service.ts:23-54 | a delivered call keeps the pushed table equal to the from-scratch join if and only if it neither removes a dataset somebody is entitled to nor revokes a product with a dataset another ACTIVE grant of the tenant covers; linking, unlinking, granting and reactivating always do |
| EntitlementMirror.CallKeepsOneRow | src/lib/data-product-dataset-directory.ts:102-153 | at most one link row per pair, present exactly after an association, and none after the dataset's removal |
| EntitlementMirror.RunKeepsAgreement | src/lib/data-product-dataset-directory.ts:102-153 | so does every run of delivered calls that do neither |
| EntitlementMirror.SyncAgreesIff | data-exchange-service/scripts/sync-cdep-catalog.ts:106-158 | a full sync restores agreement if and only if the table is right off the catalogue; where that lists every link and grant, if and only if no row off it still grants anything |
| EntitlementMirror.SyncRestoresIff | data-exchange-service/scripts/sync-cdep-catalog.ts:106-158 | so after any run, whatever was dropped or pushed wrongly; over a catalogue listing everything, if and only if no row off it granted anything before the run; later untroubled runs keep it |
| EntitlementMirror.SyncAfterRemovalIff | src/services/mongo/mongo-dataset-service.ts:75-78 | once a dataset is deleted, syncs restore agreement if and only if nobody was entitled to it |
| EntitlementMirror.RevokingCutsOff | src/services/mongo/mongo-entitlement-service.ts:44-48 | five delivered calls from an empty portal after which an entitled tenant is cut off |
| PipelineWorker.ReplyKeepsOrder | data-exchange-service/src/pipeline-worker/pipeline-worker.service.ts:34-84 | each reply continues the chain with the id it returned, or ends the run truthfully |
| PipelineWorker.RunIsTruthful | data-exchange-service/src/pipeline-worker/pipeline-worker.service.ts:34-84 | a run ends SUCCEEDED only after four successes in order, each fed its predecessor's id, else FAILED at the first failure |
| PipelineWorker.JobTable.RunClaimedJob | data-exchange-service/src/pipeline-worker/pipeline-worker.service.ts:34-84 | the method makes exactly the calls of that run and leaves its end in this job's row and no other |
| PipelineWorker.ServeIsRun | data-exchange-service/src/pipeline-worker/pipeline-worker.service.ts:86-106 | a runner in the concurrent system takes its job through exactly that run, touching no other row |
| PipelineWorker.ClaimKeeps | data-exchange-service/src/modules/pipeline-jobs/pipeline-job.repository.ts:78-113 | an atomic claim keeps runners and RUNNING jobs in one-to-one correspondence |
| PipelineWorker.ReceiveKeeps | data-exchange-service/src/pipeline-worker/pipeline-worker.service.ts:34-84 | so does every reply, wherever it ends the run |
| PipelineWorker.StepKeeps | data-exchange-service/src/pipeline-worker/worker-loop.ts:19-27 | every step of the poll loop, an admin run, an enqueue or a reply keeps the invariant |
| PipelineWorker.WorkerSafety | data-exchange-service/src/pipeline-worker/pipeline-worker.service.ts:34-106 | in every reachable state of every interleaving a RUNNING job has exactly one runner, the poll loop at most one, and every row tells the truth about its calls |
| PipelineWorker.SucceededJob | data-exchange-service/src/pipeline-worker/pipeline-worker.service.ts:19-84 | in every reachable state a SUCCEEDED job's first three replies are COMPLETED or SKIPPED_DUPLICATE and its last READY or SKIPPED_DUPLICATE with the id it carries, each fed the id before |
| PipelineWorker.FailedJob | data-exchange-service/src/pipeline-worker/pipeline-worker.service.ts:19-84 | a FAILED job stopped at its first reply that threw, was empty, had another status, or published without an id |
| PipelineWorker.RunDoes | data-exchange-service/src/pipeline-worker/pipeline-worker.service.ts:34-84 | a run call by call: on to the next stage, or FAILED at the first reply it does not want |
| PipelineWorker.ReplyDoes | data-exchange-service/src/pipeline-worker/pipeline-worker.service.ts:34-106 | what one reply does to job, runner and poll loop |
| PipelineWorker.ClaimsDo | data-exchange-service/src/modules/pipeline-jobs/pipeline-job.repository.ts:78-113 | which job a tick or an admin run claims, and that nothing else changes |
| PipelineWorker.SomeClaim | data-exchange-service/src/modules/pipeline-jobs/pipeline-job.repository.ts:78-113 | while a job is PENDING the poll loop can claim one |
| PipelineWorker.EnqueueDoes | data-exchange-service/src/modules/pipeline-jobs/pipeline-job.repository.ts:22-40 | a new job is PENDING without calls; a known id changes nothing |
| Decimal.TextIdentifies | data-exchange-service/src/storage/storage-path-builder.ts:7-13 | String(n) is injective |
| Decimal.PaddedIdentifies | data-exchange-service/src/storage/storage-path-builder.ts:7-13 | so is it padded to two digits |
| Decimal.TextReads | data-exchange-service/src/storage/storage-path-builder.ts:7-13 | a number's text is its digits in base ten after its sign, without leading zeros; padded, two digits at least |
| StorageKeys.KeyIsJoin | data-exchange-service/src/storage/storage-path-builder.ts:15-57 | all four builders produce ten slash-separated segments and a filename |
| StorageKeys.KeysIdentify | data-exchange-service/src/storage/storage-path-builder.ts:15-57 | for slash-free ids two keys are equal if and only if builder, ids, filename and UTC day are; filenames may be anything |
| Deletion.DeletionService.DeleteObjects | data-exchange-service/src/retention/deletion.service.ts:74-77 | the loop deletes in order up to the first exception, and reports it |
| Deletion.DeletionService.RequestDeletion | data-exchange-service/src/retention/deletion.service.ts:24-127 | request, status changes and audit appends add up to one verdict with its evidence; an unknown exchange changes nothing |
| Deletion.DeletionService.SetLegalHold | data-exchange-service/src/retention/deletion.service.ts:129-150 | sets the hold of one exchange and audits it |
| Deletion.EligibleMayBeDeleted | data-exchange-service/src/modules/exchanges/exchange-transitions.ts:13-28 | the transition check never fails an eligible exchange |
| Deletion.DeletionEnds | data-exchange-service/src/retention/deletion.service.ts:24-127 | BLOCKED exactly when ineligible and nothing touched; COMPLETED exactly when every delete came back, then DELETED with no object left; else FAILED, still eligible, with a prefix gone |
| Deletion.DeletionSays | data-exchange-service/src/retention/deletion.service.ts:24-127 | which direction, status or hold blocks a request, and the audit events of each ending |
| Deletion.TransitionsInto | data-exchange-service/src/config/constants.ts:58-80 | what may come before each status in either direction |
| Deletion.CompletedIsIngested | data-exchange-service/src/config/constants.ts:58-68 | by the table an upload is COMPLETED only right after its whole ingestion, in order |
| Deletion.DeletedIsExpired | data-exchange-service/src/config/constants.ts:70-77 | and a publication is DELETED only right after it is EXPIRED |
| Deletion.RetryCompletes | data-exchange-service/src/retention/deletion.service.ts:71-127 | after a failed attempt one on a working storage completes |
| ExchangeLifecycle.OneOwner | data-exchange-service/src/storage/storage-path-builder.ts:15-57 | no object belongs to two exchanges |
| ExchangeLifecycle.OneRowEach | data-exchange-service/src/modules/exchanges/exchange.repository.ts:235-281 | over every run an object has one file row at most, however often its file is recorded |
| ExchangeLifecycle.StepKeeps | data-exchange-service/src/modules/outbound-publications/outbound-publication.service.ts:159-308 | every step of every call keeps: rows and calls in flight stay with their own exchange, an OUTBOUND exchange is EXPIRED or DELETED only past its expiry, outside a deletion only the step after an examination deletes |
| ExchangeLifecycle.RunKeeps | data-exchange-service/src/modules/uploads/upload.service.ts:153-343 | so does every interleaving of calls |
| LifecycleMeaning.CreateDoes | data-exchange-service/src/modules/outbound-publications/outbound-publication.service.ts:72-147 | a new exchange's row, without a hold, the row of its data file under its key, and how long its URL stands; a known id changes nothing |
| LifecycleMeaning.SimulateDoes | data-exchange-service/src/modules/publications/publication.service.ts:46-152 | a simulated publication's row and what its call goes on to write |
| LifecycleMeaning.CallsDo | data-exchange-service/src/modules/uploads/upload.service.ts:153-180 | when each other call begins or acts at once, and all it changes |
| LifecycleMeaning.TableStepDoes | data-exchange-service/src/modules/uploads/upload.service.ts:205-343 | a call's step in the tables |
| LifecycleMeaning.StorageStepDoes | data-exchange-service/src/modules/uploads/upload.service.ts:153-343 | a call's step in storage, where an exception ends the call, its effect done or not |
| SerialCompletion.PublicationEnds | data-exchange-service/src/modules/outbound-publications/outbound-publication.service.ts:159-292 | a publication whose data is there ends READY with its manifest written and recorded, or FAILED on another checksum |
| SerialCompletion.UploadEnds | data-exchange-service/src/modules/uploads/upload.service.ts:153-343 | an upload whose data is there ends VALIDATED or VALIDATION_FAILED with manifest and validation result; oversized, FAILED without its data |
| SerialCompletion.NothingToComplete | data-exchange-service/src/modules/uploads/upload.service.ts:153-180 | without the data in storage a completion changes nothing |
| LegalHold.StepLoses | data-exchange-service/src/modules/uploads/upload.service.ts:186-201 | an object disappears only in a deletion that read its own exchange as OUTBOUND, EXPIRED and not held, or in the completion of its own oversized upload |
| LegalHold.OthersUntouched | data-exchange-service/src/retention/deletion.service.ts:74-77 | no step on one exchange removes an object of another |
| LegalHold.HeldLosesIff | data-exchange-service/src/retention/deletion.service.ts:129-150 | over a run under a hold an object goes exactly when a deletion begun before the hold, or the completion of an oversized upload, deletes it |
| LegalHold.HoldTakesForce | data-exchange-service/src/retention/deletion.service.ts:129-150 | a hold set on any exchange is in force for every call that begins after it |
| LegalHold.HoldProtectsIff | data-exchange-service/src/modules/uploads/upload.service.ts:157-201 | no run short of its release takes an object from a held exchange if and only if no deletion or discard under way may still reach it and it is not the data of an upload still to be completed or under examination |
| LegalHold.OversizedIgnoresHold | data-exchange-service/src/modules/uploads/upload.service.ts:186-201 | a held upload completed oversized loses its object |
| LegalHold.HoldComesLate | data-exchange-service/src/retention/deletion.service.ts:29-77 | a hold set after a deletion has read the exchange does not stop it |
| LegalHold.UploadWaits | data-exchange-service/src/modules/uploads/upload.service.ts:34-143 | the upload of that input is two calls away from an empty service |
| DeletionLog.RunAccounts | data-exchange-service/src/retention/deletion.service.ts:38-125 | in every interleaving a request is open exactly while one call works on it, and the log holds exactly the evidence its status calls for, in order, a completed one's with the number of file rows it read |
| DeletionLog.Reachable | data-exchange-service/src/retention/deletion.service.ts:24-150 | every run from an empty service keeps these and the exchange invariants |
| DeletionLog.CountStands | data-exchange-service/src/retention/deletion.service.ts:73-99 | the number a deletion read stays what it is recorded with |
| DeletionLog.ClosedForGood | data-exchange-service/src/retention/deletion.service.ts:79-125 | a request that has ended stays as it ended |
| DeletionLasts.DeletedIsLeft | data-exchange-service/src/modules/downloads/download.service.ts:24-43 | DELETED is left if and only if the owner asks for a download, the publication is failed, or a completion begun before sets its status |
| DeletionLasts.DeletedStaysIff | data-exchange-service/src/modules/outbound-publications/outbound-publication.service.ts:294-308 | with no such completion under way an exchange stays DELETED over a run if and only if neither call occurs |
| DeletionLasts.StepAdds | data-exchange-service/src/modules/publications/publication.service.ts:46-152 | an object appears only through its exchange's signed URL or in a step of a call completing or simulating its exchange |
| DeletionLasts.ExpiredHasLapsed | data-exchange-service/src/modules/outbound-publications/outbound-publication.service.ts:72-147 | where the upload URL lapses no later than the exchange expires, an EXPIRED or DELETED exchange's has lapsed |
| SerialDeletion.ServeIsDelete | data-exchange-service/src/retention/deletion.service.ts:24-127 | a deletion whose steps run alone does exactly what the deletion method does |
| SerialDeletion.DeletedTwice | data-exchange-service/src/modules/downloads/download.service.ts:31-43 | after the owner's download request a second deletion completes and is audited in full though no object was there |
| SerialDeletion.OverlappingDeletions | data-exchange-service/src/retention/deletion.service.ts:71-125 | of two overlapping deletions one can end FAILED on an exchange the other has DELETED |
| StrayObjects.UnrecordedIff | data-exchange-service/src/modules/outbound-publications/outbound-publication.service.ts:236-292 | a step leaves an object of an exchange without a row for good if and only if it is a put that throws after its effect, of an object without a row that no other call is about to record |
| StrayObjects.StaysBareIff | data-exchange-service/src/storage/s3-storage.adapter.ts:96-100 | once nothing that belongs to an exchange is in storage, that stays so over a run if and only if nobody uses an upload URL of it that has not lapsed |
| StrayObjects.BareForGood | data-exchange-service/src/retention/deletion.service.ts:73-83 | once its URL has lapsed no later run brings an object of it back |
| StrayObjects.StrayOutlivesDeletion | data-exchange-service/src/modules/publications/publication.service.ts:46-152 | six steps from an empty service after which the only request is COMPLETED and the object still in storage |
| RequestTruth.ExpiredIsLeft | data-exchange-service/src/modules/outbound-publications/outbound-publication.service.ts:294-308 | EXPIRED is left if and only if the publication is failed, a completion begun before sets its status, or a deletion of the exchange finishes |
| RequestTruth.FinishesIff | data-exchange-service/src/retention/deletion.service.ts:79-85 | a deletion finishes if and only if a request of the exchange becomes COMPLETED |
| RequestTruth.EligibleStaysIff | data-exchange-service/src/retention/deletion.service.ts:108-125 | so over a run, a FAILED request among others, an exchange stays EXPIRED if and only if no request of it becomes COMPLETED, its publication is not failed and no completion sets its status |
| RequestTruth.NeverSet | data-exchange-service/src/modules/outbound-publications/outbound-publication.service.ts:169-171 | where no completion is under way none ever sets the status of an exchange no longer PREPARING |
| RequestTruth.AskedIsAtFirst | data-exchange-service/src/retention/deletion.service.ts:54-77 | an eligible deletion's first step reads all rows of the exchange and is at the first |
| RequestTruth.CompletedEmptyIff | data-exchange-service/src/retention/deletion.service.ts:73-83 | from there COMPLETED means in every run that the files of all rows are gone, if and only if the data file could no longer be put |
| RequestTruth.CompletedBareIff | data-exchange-service/src/retention/deletion.service.ts:73-83 | and that nothing of the exchange is left in storage, if and only if moreover no object of it was without a row |
| Rollup.LatestAttemptPerStage | data-platform-observability-service/src/domain/execution.ts:25-34 | the Map loop keeps one entry a stage, namely its latest attempt |
| Rollup.LatestOfIs | data-platform-observability-service/src/domain/execution.ts:25-34 | that attempt has the stage's highest number, and there is one exactly when the stage has a run |
| Rollup.OrderIrrelevant | data-platform-observability-service/src/domain/execution.ts:46-89 | without repeated (stage, attempt) pairs any permutation gives the same status, start and completion, and the same current stage unless RETRYING |
| Rollup.CurrentStageDependsIff | data-platform-observability-service/src/domain/execution.ts:66-69 | the current stage depends on the order if and only if two stages are being retried |
| Rollup.DetectorAgrees | data-platform-observability-service/src/domain/failed-stage-detector.ts:28-49 | FAILED exactly when the detector names a stage; it is the current one and the earliest failed; never-started are exactly the later stages without a run, in pipeline order; without a failure nothing is blocked |
| Rollup.SucceededIff | data-platform-observability-service/src/domain/execution.ts:71-75 | SUCCEEDED exactly when a delivery stage is the furthest recorded and succeeded, and nothing failed, was cancelled or is retried |
| ExecutionMeaning.LatestOfIff | data-platform-observability-service/src/domain/execution.ts:25-34 | the attempt kept of a stage is its highest numbered one, the last delivered of these |
| ExecutionMeaning.RollupSays | data-platform-observability-service/src/domain/execution.ts:46-89 | which status, stage and completion an execution has: FAILED before CANCELLED before RETRYING, then what the furthest stage says; retrying, the stage first heard of |
| ExecutionMeaning.StartSays | data-platform-observability-service/src/domain/execution.ts:36-44 | it started with the earliest start of the attempts kept |
| Timeline.BuildTimeline | data-platform-observability-service/src/domain/timeline.ts:38-67 | the pushed entries, sorted by time, none lost or added |
| Timeline.OneEntryEach | data-platform-observability-service/src/domain/timeline.ts:41-64 | each entry occurs as often as runs start or complete with it |
| Timeline.TimelineSays | data-platform-observability-service/src/domain/timeline.ts:25-64 | every entry's time, stage, status, duration and message, in the words of the run it comes from |
| Timeline.SameInstantKeepsOrder | data-platform-observability-service/src/domain/timeline.ts:66 | entries of one instant keep the order of the runs |
| Timeline.StartShowsFirst | data-platform-observability-service/src/domain/timeline.ts:38-67 | a run's start precedes its completion on the timeline if and only if it started no later |
| StrictDate.AcceptedIff | data-product-api-service/src/domain/contract-policy.ts:19-28 | accepted are exactly the real calendar dates of the right shape with year 100 or later |
| StrictDate.AcceptedAreDates | data-product-api-service/src/domain/contract-policy.ts:19-28 | accepted are exactly the texts YYYY-MM-DD of calendar dates of the years 100 to 9999 |
| StrictDate.StringOrderIsCalendarOrder | data-product-api-service/src/domain/contract-policy.ts:63-67 | on accepted dates string comparison is calendar order |
| Encoding.Utf8RoundTrip | data-product-api-service/src/domain/cursor.ts:30-35 | text without lone surrogates survives UTF-8 |
| Encoding.Utf8Exact | data-product-api-service/src/domain/cursor.ts:49-53 | bytes that read as text are the UTF-8 of that text |
| Encoding.LoneWritten | data-product-api-service/src/domain/cursor.ts:33-35 | a surrogate that stands alone is written as U+FFFD |
| Encoding.AsciiExact | data-product-api-service/src/domain/cursor.ts:55-61 | comparing bytes with an ASCII signature is comparing texts |
| Encoding.Base64UrlRoundTrip | data-product-api-service/src/domain/cursor.ts:30-35 | any bytes survive base64url (section 5 of RFC 4648), which is ASCII and free of dots |
| Encoding.LetterIff | data-product-api-service/src/domain/cursor.ts:30-35 | the alphabet is read and written alike, and no other unit is a letter |
| Cursor.StringifyPaired | data-product-api-service/src/domain/cursor.ts:31-32 | JSON.stringify escapes lone surrogates, so a payload's text survives UTF-8 whatever its strings |
| Cursor.DecodeInvertsEncode | data-product-api-service/src/domain/cursor.ts:30-79 | decoding gives back every payload under its own secret, and under another exactly when that signs the payload alike |
| QueryPolicy.CompleteSort | data-product-api-service/src/domain/contract-policy.ts:90-96 | the loop appends each missing default: requested fields first, all defaults present, nothing else |
| QueryPolicy.CompleteHolds | data-product-api-service/src/domain/contract-policy.ts:90-96 | completion keeps the request as a prefix and adds no field twice |
| QueryPolicy.CompleteTwice | data-product-api-service/src/domain/contract-policy.ts:90-96 | completing a completed sort changes nothing |
| QueryPolicy.TiesAgreeOnDefaults | data-product-api-service/src/domain/contract-policy.ts:90-96 | rows that tie under a completed sort agree on every default field |
| QueryPolicy.SplitIs | data-product-api-service/src/domain/contract-policy.ts:81 | joining the parts with commas gives the text back, and no part holds one |
| QueryPolicy.TrimIs | data-product-api-service/src/domain/contract-policy.ts:81 | trimming cuts off white space at the ends and no more |
| QueryMeaning.ListsIs | data-product-api-service/src/domain/contract-policy.ts:78-117 | the fields of a list are its parts between commas without the white space around them, which determines them |
| QueryMeaning.AppendedInOrder | data-product-api-service/src/domain/contract-policy.ts:90-96 | the defaults appended keep their order |
| QueryPolicy.FingerprintIdentifies | data-product-api-service/src/domain/cursor.ts:23-28 | two fingerprints are equal if and only if the filter sets are, absent and empty told apart |
| QueryPolicy.ReprintsIff | data-product-api-service/src/domain/contract-policy.ts:130 | comparing the printed sorts is comparing the sorts, whatever the cursor's array holds |
| QueryPolicy.CursorTakenBackIff | data-product-api-service/src/domain/contract-policy.ts:119-138 | a cursor handed out for one request is accepted by another if and only if tenant, product, version, filters and sort match |
| QueryPolicy.CheckFilters | data-product-api-service/src/domain/contract-policy.ts:57-76 | the filter checks fail with the first problem, else return the filters |
| QueryPolicy.RangeIsCalendar | data-product-api-service/src/domain/contract-policy.ts:63-67 | an accepted date range is ordered in the calendar |
| QueryPolicy.ParseAndValidateQuery | data-product-api-service/src/domain/contract-policy.ts:40-151 | accepts exactly the requests with no problem, fails with the first one, and returns the completed sort over allowed fields |
| QueryMeaning.RefusedFor | data-product-api-service/src/domain/contract-policy.ts:40-138 | each thing asked of a request, in the order it is asked, with its error; a request that misses none is accepted |
| QueryMeaning.QuerySays | data-product-api-service/src/domain/contract-policy.ts:50-150 | what an accepted request's parameters turn into |
| QueryMeaning.FingerprintOf | data-product-api-service/src/domain/cursor.ts:23-28 | a fingerprint is taken of exactly the given filters |
| QueryMeaning.EntriesInOrder | data-product-api-service/src/domain/cursor.ts:24-26 | in the order of their names |
| QueryMeaning.DecodeSays | data-product-api-service/src/domain/cursor.ts:41-79 | a cursor is taken exactly when it is two parts at one dot, the second signs the text in the first, and that is JSON with all seven members of their kinds |
| Pagination.KeysetIsAhead | data-product-api-service/src/infrastructure/persistence/postgres-serving-store.ts:57-77 | the generated OR of ANDs means later in the ORDER BY |
| Pagination.AnswerIsRest | data-product-api-service/src/infrastructure/persistence/postgres-serving-store.ts:57-93 | without ties the rows after a cursor are exactly the rest of the list |
| Pagination.CrawlDelivers | data-product-api-service/src/application/services/event-performance-query.service.ts:147-169 | without ties following nextCursor delivers every row exactly once, in order, in full pages but the last |
| Pagination.TiesAreLost | data-product-api-service/src/infrastructure/persistence/postgres-serving-store.ts:57-93 | with ties pages of one row never deliver everything, in whatever order ties come |
| Pagination.CrawlExists | data-product-api-service/src/application/services/event-performance-query.service.ts:147-169 | a client always gets to the last page |
| Pagination.PagingCompleteIff | data-product-api-service/src/infrastructure/persistence/postgres-serving-store.ts:57-108 | paging delivers all rows at every page size if and only if no two rows tie under the sort |
| Pagination.CompletedSortSeparates | data-product-api-service/src/domain/contract-policy.ts:90-96 | if the default sort tells rows apart, every completed sort does |

## Left out

- DstPolicy.HonouredExactlyWhenShown: leaves out negative years, which `Intl` prints without their era, so that the fields the code reads are not the calendar's, and the year 100, where the instant's own year may fall among the two-digit ones.
- DstPolicy.GapPolicy: speaks of years from 101 on, because below it the zone shift can cross into the two-digit years.
- DstPolicy.NeverGivesUp: speaks of years from 101 on, for that reason.
- DstPolicy.OverlapPolicy: speaks of years from 101 on, for that reason.
- DstPolicy.OrderPolicy: speaks of years from 101 on, for that reason.
- DstPolicy.DailyPolicy: speaks of years from 101 on, for that reason.
- DailySchedule.DailyContract: quantifies over instants from early in the year 101 on, in zones whose changes come later.
- DailySchedule.NextRunIsNext: speaks of the same instants and zones.
- EntitlementMirror.CallAgreesIff: expiry dates are not modelled, since nothing here reads them; calls run one after the other.
- Registry.Service.RegisterContract: the schema-field, policy, delivery and compatibility-result rows it also writes are not represented.
- Registry.Service.InsertVersion: the same rows of the same transaction.
- Registry.RunKeepsOrder: speaks of serial runs, because the service reads before it opens its transaction and concurrent registrations can pass the gate together.
- PipelineWorker.WorkerSafety: assumes the job table's own writes succeed, as a failing write inside the `catch` leaves a job RUNNING; the claim and the first stage update are one step.
- Deletion.DeletionEnds: speaks of a deletion that runs alone (`SerialDeletion.ServeIsDelete`), and lets only storage fail, because a failing audit or table write inside the `try` marks FAILED after the effect has happened.
- Deletion.RetryCompletes: speaks of a retry that runs alone.
- DeletionLog.RunAccounts: takes the table and audit writes between two storage calls as one step, so it does not see a crash between them.
- ExchangeLifecycle.StepKeeps: a completion asks storage twice, whether the object is there and for its bytes; the model has one examination, at one moment.
- RequestTruth.CompletedBareIff: speaks of exchanges no completion of which is under way, as nothing written after the rows are read is deleted.
- Cursor.DecodeInvertsEncode: JSON.parse is modelled on what JSON.stringify prints, without white space between tokens.
- Pagination.CrawlDelivers: the rows do not change between pages, and a column value survives the trip through the cursor's text.
- Backoff.DelayBounds: arithmetic is exact, floating-point rounding is not modelled.
- Date values beyond the range of a JavaScript Date (the year 275760) and NaN instants.
- The IANA database and `Intl` formatting: a zone is a list of transitions on whole minutes, more than four days apart, with whole-minute offsets below a day.
- The WEEKLY and CRON strategies, `dayOfWeekInZone`, `daysUntil` and parsing of delivery times.
- VersionText.KeyOfParsed: a version component above 2^31 - 1 overflows the query's `::int`, which makes the query fail; the model sorts by it.
- Numbers above 2^53 in version texts, -0 and other number notations in contracts: a number is its printed text.
- The zod schema of a contract, the policy and delivery rows `registerContract` writes, and the compatibility engine, which is a function into three levels.
- Which of two rows with equal sort keys Postgres returns first in the latest-version query: the model takes the earlier row.
- Membership, invitations, tokens, id and slug helpers.
- Attempts, timestamps and error texts of pipeline jobs; more than one worker process.
- What inbound validation checks (its outcome is a parameter), exchange events, request reasons and actors, the exchange service's idempotency keys beyond renewing an upload URL.
- Stuck-run detection, SLA and alert rules, correlation, health roll-ups.
- The timestamp filter's own format, response projection and masking, entitlement and subscription checks before a query.
- Routes, pages, clients, environment parsing, SQL text and the Python pipelines.
