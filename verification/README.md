# Flash-sale reservations: a model and its proofs

A flash sale sells `total` units inside a time window. A unit is granted by one atomic Lua script
on four Redis keys (config, stock, buyers, reservations ledger), made durable by a queue job that
inserts the user's only row in the Postgres `orders` table, and given back by a compensation when
the job has failed for good. A reconciliation worker repairs the gaps between the three stores, a
load audit decides whether a finished sale was correct, and the API keeps a clock anchored to
Redis and a per-user rate limiter in front of it all. This project models those parts and proves
what they are for.

| file | models |
|---|---|
| `Types.dfy` | payloads, rows, ledger entries, the four Redis keys |
| `SaleScripts.dfy`, `SaleStore.dfy` | the Lua scripts, as state transformers and as the in-place code that makes those transitions |
| `ScriptMeaning.dfy` | what each script promises on any keys, damaged ones included |
| `SaleRefinement.dfy` | the scripts against a sale that only remembers who holds a unit |
| `OrderMachine.dfy`, `OrderInvariant.dfy`, `OrderTheorems.dfy` | purchases and any number of workers in the middle of `persist` and `resolveFailed`, one SQL statement or script call per step, with the advisory, row and unique-index locks |
| `OrderRollbacks.dfy` | the part of that which survives when any open transaction may be rolled back at any time |
| `OrderProgress.dfy` | who waits for whom in the machine, and that everyone gets on |
| `OrderRepository.dfy` | the two transactions as straight-line code, and the proof that the machine runs exactly that code when nothing interferes |
| `JobId.dfy` | the queue's job id |
| `RecoverySpec.dfy`, `SweepSpec.dfy`, `FailedSweep.dfy` | what one reconciliation pass and one failed-job sweep do to one user, and the rotation of the sweep |
| `RecoveryMeaning.dfy` | the outcome of a pass for one user in one step, in terms of the stored fields |
| `Reconciliation.dfy` | the worker's pass in place: the scans, the repairs, the stock step, the sweep |
| `RecoveryLinks.dfy`, `Revival.dfy` | the pass on states the order machine can reach, and what a reservation that it puts back does to the stock |
| `AuditTypes.dfy`, `Convergence.dfy`, `Fingerprint.dfy`, `AuditReport.dfy`, `AuditTrail.dfy` | the auditor's polling loop, its fingerprint, its verdict, and how they fit together and fit the order machine |
| `Clock.dfy`, `RateLimit.dfy`, `LedgerCodec.dfy`, `Readiness.dfy` | the clock and the fast-path guard, the limiter, the ledger's text format, the worker's lifecycle and readiness probe |

Conventions. Time is an integer number of milliseconds, except in `Clock.dfy` and
`Convergence.dfy`, where instants are `real`. The machine carries two histories that the program
does not keep: every payload ever confirmed, and a multiset of the reservations given back to
stock. A worker may start `persist` or `resolveFailed` for any payload ever confirmed, at any
time, any number of times.

Hypotheses. Reservation ids of confirmed purchases are fresh. Redis loses nothing during a run of
the order machine (the recovery theorems start from arbitrary damage instead). After compensating,
`resolveFailed` is rolled back only where its user has a committed row or another resolver has
inserted one and is about to commit; theorems over `FreelyReachable` states and `RunFreely` runs do
without this. The steps of the machine are purchases, persists and resolutions: the scripts of the
recovery pass are not among them, so a statement about reachable states holds between passes, and
after a pass exactly as far as `Revival.PassLeavesKeysIff` and `Revival.PassAndSweepsIff` say. The
recovery pass runs without interleaved steps.

## Findings

Where the code does not meet a property everywhere, the exact condition is proved.

- After a rollback forced on `resolveFailed` between its call of `compensate` and its commit, every
  continuation of purchases, persists and resolutions leaves every persisted order holding its unit
  exactly when the user has a committed row or another resolver has inserted one and is about to
  commit it (`OrderTheorems.CrashHarmlessIff`). In every other case redelivery leads to a persisted
  order whose unit is back in stock (`OrderTheorems.CrashLosesTheUnit`). In every sale with a unit
  to sell and for every purchase in its window such a state is reached
  (`OrderTheorems.CrashIsReachable`), and so is the state of an admitted crash without a committed
  row (`OrderTheorems.HarmlessCrashIsReachable`). Redis itself stays balanced, no reservation is
  credited twice and no persisted row changes, whatever is rolled back
  (`OrderTheorems.UnitsAreConserved`, `CreditedOnceThenGone`, `PersistedIsAbsorbing`).
- Where such a rollback, even an admitted one, leaves no compensated row of the credited reservation,
  a recovery pass puts it back while its failed job is queued and its user holds nothing
  (`RecoveryLinks.PassRevivesIff`), and the sweep of that job then credits it a second time
  (`Revival.RevivedIsCreditedAgain`). The pass leaves the keys alone
  exactly when there is no such job (`Revival.PassLeavesKeysIff`). Its stock step accepts what it
  put back exactly when a unit is left for each (`Revival.StockStepIff`). The sweeps then lead back
  to the keys before the pass exactly when that was so or nobody holds a unit
  (`Revival.PassAndSweepsIff`); otherwise a refused pass and its sweeps put more units on sale than
  are left (`Revival.RefusedPassOversells`). In a sale of one unit, with every rollback admitted and
  the user's row committed, a run of the machine, one pass and one sweep let two users hold it
  (`Revival.OversellIsReachable`).
- The fast-path guard is safe for every exchange and every request exactly when
  `CLOCK_GUARD_SKEW_MS` is at least 1. With 0 and a round trip inside one millisecond the margin
  is 0 and the guard can reject what the script would accept (`Clock.GuardIsSafeIff`). The code
  comments call such a rejection structurally impossible; the configured default, 250, makes it so.
- The limiter admits every request that arrives in the very millisecond its window expires, because
  the store then reports a time to live of 0, which the guard takes for a malformed reply
  (`RateLimit.LetThroughIff`, `RateLimit.ExpiryBurstIsUnbounded`).
- A recovery pass can put a compensated reservation back on file. For a user whose row is
  compensated this happens exactly when the user is still a buyer without a ledger entry and a live
  job carries that identity (`RecoverySpec.CompensatedRevivedIff`). From states that the order
  machine reaches, it happens exactly when the user holds nothing and a job that can be restored
  from has outlived its reservation without a compensated row to show it
  (`RecoveryLinks.PassRevivesIff`). Two inputs are on record: a crash without a committed row
  (`RecoveryLinks.RevivalIsReachable`) and one with the row of an earlier reservation
  (`Revival.OversellIsReachable`).
- A seed keeps stock and ledger balanced exactly when it stocks the configured total or writes
  nothing (`SaleRefinement.SeedConservesIff`).
- What `purchase.lua` writes reads back exactly for UUIDs and times before 10^14 ms, where Lua
  changes to exponent form (`LedgerCodec.PurchaseValueReadsBackIff`). The auditor's reader accepts
  more than the store's does (`LedgerCodec.StoreTakesIff`).
- A report that passes has no compensated order, although one of its checks adds persisted and
  compensated orders and another looks at the compensated ones (`AuditReport.PassIff`,
  `AuditTrail.ReportPassesIff`).
- Job ids of two different sales can coincide, and exactly how is stated (`JobId.SameJobIff`).

## Model

| member | source | states |
|---|---|---|
| SaleStore.Store.Seed | packages/redis/src/scripts/seed.lua.ts:16-37 | the whole new state and the reply with stock and configuration: the first seed writes config and stock, later ones write nothing and report drift or missing stock |
| SaleStore.Store.Purchase | packages/redis/src/scripts/purchase.lua.ts:38-69 | the whole new state and the reply of the purchase decision, negative stock read as zero |
| SaleStore.Store.Compensate | packages/redis/src/scripts/compensate.lua.ts:43-69 | the whole new state, the code and the stock left: only the presented identity is released, the credit is capped, a missing buyer gives nothing back |
| SaleStore.Store.CompareRestore | packages/redis/src/scripts/compare-restore-reservation.lua.ts:10-27 | restores only where no entry is on file, never overwrites another identity, returns what is on file |
| SaleStore.Store.ReconcileMembership | packages/redis/src/scripts/reconcile-membership.lua.ts:7-12 | membership becomes what the ledger says and nothing else changes |
| SaleStore.Store.ReconcileStock | packages/redis/src/scripts/reconcile-state.lua.ts:7-16 | stock becomes total minus ledger size, or nothing changes when uninitialised or overcommitted; the reply gives stock before and after, ledger size and total |
| SaleStore.Store.Inspect | packages/redis/src/scripts/inspect-reservation-membership.lua.ts:7-19 | the four-way classification of one user and the value on file |
| ScriptMeaning.ConfirmedIff | packages/redis/src/scripts/purchase.lua.ts:44-69 | on any keys a unit is granted exactly inside the window, to a user in neither key, while at least one unit is left |
| ScriptMeaning.RefusedIff | packages/redis/src/scripts/purchase.lua.ts:44-64 | on any keys each refusal has exactly its own cause, in the script's order |
| ScriptMeaning.PurchaseWrites | packages/redis/src/scripts/purchase.lua.ts:57-68 | every key after a purchase on any keys: only a confirmation spends stock and writes the ledger, and a repeated one restores membership |
| ScriptMeaning.PurchaseReplies | packages/redis/src/scripts/purchase.lua.ts:44-69 | the reply's stock is what is left and never negative, and the id is given exactly on confirmation |
| ScriptMeaning.CompensateWrites | packages/redis/src/scripts/compensate.lua.ts:46-59 | on any keys nothing changes without a match, and with one exactly one user leaves ledger and buyers |
| ScriptMeaning.CreditedIff | packages/redis/src/scripts/compensate.lua.ts:56-69 | on any keys a unit goes back exactly when a buyer's own reservation is released and stock is below the total |
| ScriptMeaning.CompensateOnce | packages/redis/src/scripts/compensate.lua.ts:43-53 | a second compensation of the same identity does nothing, whatever the keys |
| ScriptMeaning.NeverOverfilled | packages/redis/src/scripts/compensate.lua.ts:63-66 | a compensation never lifts the stock above the total |
| ScriptMeaning.CompareRestoreMeans | packages/redis/src/scripts/compare-restore-reservation.lua.ts:10-27 | on any keys an entry is given only to a user without one, a matching user becomes a buyer, and nothing else changes |
| ScriptMeaning.MembershipMeans | packages/redis/src/scripts/reconcile-membership.lua.ts:7-12 | on any keys one user's membership becomes what the ledger says and nothing else changes |
| ScriptMeaning.StockMeans | packages/redis/src/scripts/reconcile-state.lua.ts:7-16 | on any keys stock and ledger add up to the total afterwards, or nothing changed for one of two named causes |
| ScriptMeaning.InspectMeans | packages/redis/src/scripts/inspect-reservation-membership.lua.ts:7-19 | the answer tells membership and reservation apart, both ways |
| ScriptMeaning.SeedMeans | packages/redis/src/scripts/seed.lua.ts:16-37 | on any keys only the first seed writes, and the later answers tell missing stock, drift and agreement apart |
| SaleRefinement.PurchaseRefines | packages/redis/src/scripts/purchase.lua.ts:44-69 | from a balanced state the reply and the next holders are those of a sale that only knows its holders, so SOLD_OUT means that exactly total users hold a unit; the balance is kept |
| SaleRefinement.PurchaseEffect | packages/redis/src/scripts/purchase.lua.ts:57-69 | only a confirmed purchase writes, and it adds one entry for a user who had none |
| SaleRefinement.CompensateRefines | packages/redis/src/scripts/compensate.lua.ts:56-69 | a release happens exactly for the identity on file; the capped branch and the branch where the buyer was already gone cannot be taken from a balanced state |
| SaleRefinement.SeedConservesIff | packages/redis/src/scripts/seed.lua.ts:16-37 | seeding keeps the balance exactly when it stocks the total or the sale is already seeded |
| SaleRefinement.RunsRefine | packages/redis/src/scripts/purchase.lua.ts:38-69 | over every run from a balanced state the scripts give the replies of the simple sale |
| SaleRefinement.ScriptsRefineHolders | packages/redis/src/scripts/seed.lua.ts:16-37 | the same for every run of seeds, purchases and compensations from empty keys |
| OrderInvariant.StepKeeps | apps/worker/src/orders/order.repository.ts:94-206 | every seed, purchase, SQL statement, script call, commit and permitted rollback of any worker keeps the invariant over Redis, rows, locks and histories; a rollback after the compensation is permitted exactly where CrashHarmlessIff says it is harmless |
| OrderInvariant.LockExcludesResolver | apps/worker/src/orders/order.repository.ts:299-303 | while a persister holds the advisory lock of its reservation, no resolver of it is between its compensation and its commit, and unless someone has inserted the user's row no resolver accounts for it at all |
| OrderInvariant.ResolveReleaseKeeps | apps/worker/src/orders/order.repository.ts:162-173 | the compensation inside an open transaction disturbs no row and no other transaction |
| OrderInvariant.CommitKeeps | apps/worker/src/orders/order.repository.ts:316-333 | committing a write touches one user whom no other open transaction has claimed |
| OrderTheorems.PersistedOrdersHoldUnits | apps/worker/src/orders/order.repository.ts:94-206 | in every reachable state a persisted row's user is a buyer, the ledger holds exactly the row's id and time, and that time lies in the configured window |
| OrderTheorems.CreditedOnceThenGone | packages/redis/src/scripts/compensate.lua.ts:43-69 | over every run of purchases, persists and resolutions, whatever is rolled back: no id is credited twice, and the ids on file are exactly the confirmed ids that were not credited |
| OrderTheorems.PersistedIsNotCredited | apps/worker/src/orders/order.repository.ts:118-149 | in every reachable state no id is both credited and the id of a persisted row |
| OrderRollbacks.StepFreelyKeeps | apps/worker/src/orders/order.repository.ts:316-333 | every step, and a rollback of any open transaction at any time, keeps Redis balanced and in step with the histories, the locks exclusive, and every read row as it was read |
| OrderTheorems.UnitsAreConserved | packages/redis/src/scripts/compensate.lua.ts:63-69 | over every such run, whatever is rolled back: stock is total minus confirmations plus credits, between 0 and total |
| OrderTheorems.PersistedIsAbsorbing | apps/worker/src/orders/order.repository.ts:106-148 | over every run, whatever is rolled back, persisted rows keep id, status and time, rows never vanish, credits never shrink, and the seeded config never changes |
| OrderTheorems.OneRowPerReservation | apps/worker/src/orders/order.repository.ts:106-117 | whatever is rolled back, no two users' rows share a reservation id |
| OrderTheorems.ReachableIsFree | apps/worker/src/orders/order.repository.ts:316-333 | what holds whatever is rolled back holds in every reachable state |
| OrderTheorems.RowsInsideWindow | packages/redis/src/scripts/purchase.lua.ts:51-69 | whatever is rolled back, every row, persisted or compensated, carries a time inside the configured window |
| OrderProgress.BlockedIff | apps/worker/src/orders/order.repository.ts:299-314 | a transaction is held up exactly by an advisory, row or unique-index lock that it needs next and another open transaction holds |
| OrderProgress.SomeoneGoesOn | apps/worker/src/orders/order.repository.ts:94-206 | no deadlock: while a transaction is open, some transaction can take its next step |
| OrderProgress.StepsRunOut | apps/worker/src/orders/order.repository.ts:94-206 | every step brings its transaction nearer to its end and leaves the others alone |
| OrderProgress.StepsAsIfAlone | apps/worker/src/orders/order.repository.ts:94-206 | apart from waiting, a step does to Redis, the table and its transaction what it would do alone |
| OrderTheorems.StaleRowsStaySettled | apps/worker/src/reconciliation/reconciliation.service.ts:709-732 | a row seen in any earlier snapshot stays settled in every later state: persisted as it was, or credited once |
| OrderTheorems.NothingIsLost | apps/worker/src/orders/order.repository.ts:94-206 | every confirmed reservation is persisted, credited or still on file |
| OrderTheorems.RestoreIsNoopIff | packages/redis/src/scripts/compare-restore-reservation.lua.ts:10-27 | restoring a confirmed payload changes nothing exactly when it was not credited or its user holds a unit |
| OrderTheorems.RecoveryScriptsAreNoops | packages/redis/src/scripts/reconcile-membership.lua.ts:7-12 | on every reachable state the membership, stock and persisted-restore scripts change nothing and the inspection is never one-sided |
| OrderTheorems.CrashHarmlessIff | apps/worker/src/orders/order.repository.ts:316-333 | after a rollback forced on any open transaction of a reachable state, every continuation of purchases, persists and resolutions leaves every persisted order holding its unit, exactly when the transaction had not compensated, or its user has a committed row, or another resolver has inserted one |
| OrderTheorems.RedeliveryInserts | apps/worker/src/orders/order.repository.ts:106-118 | a persist that meets no row and no lock inserts one whatever Redis says |
| OrderTheorems.CrashLosesTheUnit | apps/worker/src/orders/order.repository.ts:106-118 | after any other rollback some continuation ends with a persisted row whose id was credited and is not on file, whoever holds the unique-index slot meanwhile |
| OrderTheorems.CrashIsReachable | apps/worker/src/orders/order.repository.ts:160-185 | in every sale and for every purchase in its window such a state is reached |
| OrderTheorems.HarmlessCrashIsReachable | apps/worker/src/orders/order.repository.ts:174-185 | an admitted crash without a committed row is reached too: the user buys again and a second resolver has inserted its row |
| OrderRepository.Repository.Persist | apps/worker/src/orders/order.repository.ts:98-149 | the answer and the table left by `persist` when nothing interferes: it throws unless the row is then the payload's, has written exactly when it says so, and calls a repetition one only for a persisted row of that id |
| OrderRepository.Repository.ResolveFailed | apps/worker/src/orders/order.repository.ts:154-206 | the answer, the Redis keys and the table left by `resolveFailed` when nothing interferes, with the compensation after commit: the user has a row, its own or a persisted one |
| OrderRepository.Repository.ResolveRolledBack | apps/worker/src/orders/order.repository.ts:316-333 | what is left when an error after the compensation rolls `resolveFailed` back: the compensation, and no row |
| OrderRepository.PersistMeans | apps/worker/src/orders/order.repository.ts:118-149 | `persist` does not throw exactly when the user's row is then the payload's; it writes exactly when there was no row, or a compensated one of another reservation while this one is on file; the other two answers tell the row's status |
| OrderRepository.ResolveMeans | apps/worker/src/orders/order.repository.ts:162-206 | `resolveFailed` leaves a persisted order of the payload alone; otherwise the payload is off the ledger and the row is its compensated one unless another order is persisted; when it answers that it compensated |
| OrderRepository.PersistAlone | apps/worker/src/orders/order.repository.ts:94-152 | the machine's steps of one lone persist end in exactly that table, with Redis untouched |
| OrderRepository.ResolveAlone | apps/worker/src/orders/order.repository.ts:154-206 | the machine's steps of one lone resolver end in exactly those keys and that table |
| JobId.SameJobIff | packages/shared/src/queue.ts:40-44 | two job ids are equal exactly for the same sale and user or when one sale id continues the other over a dash |
| JobId.OneJobPerUser | packages/shared/src/queue.ts:40-44 | within one sale the job id identifies the user |
| RecoverySpec.DiffRepairs | apps/worker/src/reconciliation/reconciliation.service.ts:449-533 | whatever the damage, a user whose scans do not throw ends with membership equal to having an entry, a persisted row that matches the entry or the incident of that conflict, and an unpersisted entry with a live job of its identity or the incident of a retained collision |
| RecoverySpec.DiffKeepsEntries | packages/redis/src/scripts/compare-restore-reservation.lua.ts:18-27 | an entry on file before the pass is on file after it, unchanged |
| RecoverySpec.DiffDoesNoHarm | apps/worker/src/reconciliation/reconciliation.service.ts:459-533 | on a sound user the scans never throw, leave entry, membership and row alone, and can only record a retained collision |
| RecoverySpec.DiffDropsSafely | apps/worker/src/reconciliation/reconciliation.service.ts:693-751 | a job goes only if its identity is that of the user's persisted or compensated row, or it was completed and its identity is queued again; the live reservation is queued in its place |
| RecoverySpec.CompensatedRevivedIff | apps/worker/src/reconciliation/reconciliation.service.ts:623-648 | exactly when a pass puts the reservation of a compensated row back on file |
| RecoverySpec.LedgerPhaseIdempotent | apps/worker/src/reconciliation/reconciliation.service.ts:490-502 | a ledger entry that a cursor scan returns twice is treated as if returned once |
| RecoverySpec.BuyerPhaseIdempotent | apps/worker/src/reconciliation/reconciliation.service.ts:514-529 | a buyer that a cursor scan returns twice is treated as if returned once |
| RecoveryMeaning.EnsureQueuedMeans | apps/worker/src/reconciliation/reconciliation.service.ts:693-790 | a job for the live reservation is queued exactly when none is there or the one there may give way, with a fresh set of attempts; otherwise the queue stays, and a collision is reported exactly when the reservation is neither covered nor durably stored |
| RecoveryMeaning.CollisionMeans | apps/worker/src/reconciliation/reconciliation.service.ts:702-728 | a collision is reported only about a job that is there and stays, is not the reservation's own unfinished job, and may not be dropped |
| RecoveryMeaning.DiffIs | apps/worker/src/reconciliation/reconciliation.service.ts:449-533 | the four scans in their order are one step: when they throw, which entry, membership and job they leave, and which incidents they record, for any cell |
| RecoveryMeaning.DiffThrowsIff | apps/worker/src/reconciliation/reconciliation.service.ts:449-533 | the scans throw on a user exactly when the entry does not parse, or a buyer without an entry has an entry in the queue that is not its own or has neither a row nor a live job |
| RecoveryMeaning.DiffEntryIs | apps/worker/src/reconciliation/reconciliation.service.ts:459-485 | what is on file after the scans: the entry that was there, else the persisted order's, else the queued one that may be restored from |
| RecoveryMeaning.DiffJobAndIncidentsAre | apps/worker/src/reconciliation/reconciliation.service.ts:490-502 | which job the scans leave and exactly which incidents they record |
| RecoveryMeaning.DiffCollisionMeans | apps/worker/src/reconciliation/reconciliation.service.ts:497-500 | after a whole pass too, a retained collision means a job that was there, was left, did not cover the reservation and could not be dropped |
| Reconciliation.Service.EnqueueLiveReservation | apps/worker/src/reconciliation/reconciliation.service.ts:753-790 | the repaired job carries the live identity and its time, 0 when the entry has none |
| Reconciliation.Service.EnsureLiveReservationQueued | apps/worker/src/reconciliation/reconciliation.service.ts:693-751 | the queue and the coverage result in every branch; no other user's job changes |
| Reconciliation.Service.ApplyPersistedCandidate | apps/worker/src/reconciliation/reconciliation.service.ts:661-691 | the user's cell after restoring from a persisted row, and exactly when it throws |
| Reconciliation.Service.ApplyQueuedCandidate | apps/worker/src/reconciliation/reconciliation.service.ts:661-678 | the user's cell after restoring from a queued payload, and exactly when it throws |
| Reconciliation.Service.ResolveBuyerInspection | apps/worker/src/reconciliation/reconciliation.service.ts:555-584 | the user's cell after the inspection, and exactly when it throws |
| Reconciliation.Service.AdjudicateBuyerOnly | apps/worker/src/reconciliation/reconciliation.service.ts:586-659 | the user's cell after adjudicating a buyer without an entry, and exactly when it throws |
| Reconciliation.Service.RestorePersisted | apps/worker/src/reconciliation/reconciliation.service.ts:459-469 | every user's cell after the loop over persisted orders; it fails only if some user's step throws |
| Reconciliation.Service.RestoreQueued | apps/worker/src/reconciliation/reconciliation.service.ts:470-485 | every user's cell after the loop over the scanned jobs |
| Reconciliation.Service.ScanLedger | apps/worker/src/reconciliation/reconciliation.service.ts:1018-1035 | every entry is seen, and the scan fails exactly when some value does not parse |
| Reconciliation.Service.CoverLedger | apps/worker/src/reconciliation/reconciliation.service.ts:490-502 | every user's cell after the loop over the ledger, however often the scan repeats a user |
| Reconciliation.Service.CheckBuyers | apps/worker/src/reconciliation/reconciliation.service.ts:504-530 | every user's cell after the loop over the buyers |
| Reconciliation.Service.Diff | apps/worker/src/reconciliation/reconciliation.service.ts:449-543 | it succeeds exactly when no user's scans throw and the ledger fits the total; every user's cell is the specified one even if the stock step refuses, and stock changes only on success; from a sound state it succeeds and leaves all four Redis keys unchanged |
| Reconciliation.Service.RunDiff | apps/worker/src/reconciliation/reconciliation.service.ts:449-553 | past the stock step, with or without errors in the sweep, buyers equal ledger keys, stock is total minus ledger size, every user is repaired, and every user's cell is what the scans and then the sweep's window make it, the sweep moving only users whose job has failed for good; short of it, a user's scans throw or the ledger does not fit; from a sound start it gets there; when it throws, when jobs are retained as unsafe, and when it is degraded |
| Reconciliation.Service.SweepFailed | apps/worker/src/reconciliation/reconciliation.service.ts:808-905 | exactly the removable jobs of the window are resolved and removed, jobs struck by an error stay with what the error left, the next offset is the rotation's, and it throws exactly when an error struck; only users whose job has failed for good are changed, and exactly the other failed jobs of the window are counted as retained |
| Reconciliation.Service.SweepOnTimer | apps/worker/src/reconciliation/reconciliation.service.ts:390-392 | repeated sweeps without new failures or errors: the list left is the rotation's, what is off it is resolved, only users whose job has failed for good are changed, and after (number removable) times (ceil(n/k)+1) sweeps exactly the jobs that have not failed for good are left |
| Reconciliation.Service.SweepAfterDiff | apps/worker/src/reconciliation/reconciliation.service.ts:544-545 | the sweep of a repaired sale leaves it repaired, changes exactly the resolvable jobs of its window, and moves the offset as the rotation says |
| Reconciliation.Service.ResolveJob | apps/worker/src/reconciliation/reconciliation.service.ts:864-869 | the job goes only with its resolution applied, one user is touched, and the balance is kept |
| Reconciliation.Service.ResolveFaulted | apps/worker/src/reconciliation/reconciliation.service.ts:864-891 | a resolution struck before its effect, after its compensation or after its commit: one user is touched, the job stays, the balance is kept |
| Reconciliation.Service.DiffMeansRepaired | apps/worker/src/reconciliation/reconciliation.service.ts:532-543 | the cells that the scans leave and a successful stock step make the whole sale balanced and repaired |
| SweepSpec.ResolveIsLocal | apps/worker/src/orders/order.repository.ts:154-206 | resolving one payload changes one user's view of all the stores, in the specified way |
| SweepSpec.ResolveKeepsBalance | packages/redis/src/scripts/compensate.lua.ts:56-69 | a resolution from balanced keys leaves balanced keys |
| SweepSpec.SweepKeepsRepaired | apps/worker/src/reconciliation/reconciliation.service.ts:864-891 | a repaired user stays repaired when its job is swept, wherever an error strikes |
| SweepSpec.SweepSettles | apps/worker/src/reconciliation/reconciliation.service.ts:864-869 | a removed job's identity is persisted, or is off the ledger with a compensated or foreign row; persisted rows do not change |
| SweepSpec.ResolvableIff | apps/worker/src/reconciliation/reconciliation.service.ts:838-863 | a sweep may resolve exactly this user's persist jobs that have failed with all five attempts used up or stalled too often |
| SweepSpec.SweptMeans | apps/worker/src/reconciliation/reconciliation.service.ts:836-892 | a sweep changes only users with such a job in its window, removes such a job unless an error strikes, and retains every other failed job |
| SweepSpec.UnsafeJobsAre | apps/worker/src/reconciliation/reconciliation.service.ts:839-863 | the jobs counted as retained are exactly those that have not failed for good |
| SweepSpec.SweptAfterDiffMeans | apps/worker/src/reconciliation/reconciliation.service.ts:544-545 | whom the sweep of a pass moves had, after the scans, a job that has failed for good |
| SweepSpec.RemovedMeansResolved | apps/worker/src/reconciliation/reconciliation.service.ts:844-891 | through any series of sweeps with any errors, a job that is gone has left its user where one undisturbed resolution would have, and until then it is as it was |
| SweepSpec.SweepCellMeans | apps/worker/src/orders/order.repository.ts:154-206 | the row, entry, membership and job that a resolution leaves, from the user's fields before it |
| SweepSpec.FaultMeans | apps/worker/src/orders/order.repository.ts:170-195 | an error leaves everything, the release alone, or all but the removal of the job, and never loses the job |
| SweepSpec.RetryHeals | apps/worker/src/reconciliation/reconciliation.service.ts:844-891 | sweeping again after an error leaves what one undisturbed sweep would have left |
| FailedSweep.SweepsVisitEverything | apps/worker/src/reconciliation/reconciliation.service.ts:820-834 | from any starting offset ceil(n/k)+1 removal-free sweeps look at every position |
| FailedSweep.SomeSweepRemoves | apps/worker/src/reconciliation/reconciliation.service.ts:893-900 | while something is removable, one of the next ceil(n/k)+1 sweeps removes something |
| FailedSweep.SweepsDrain | apps/worker/src/reconciliation/reconciliation.service.ts:812-834 | after (number removable) times (ceil(n/k)+1) sweeps exactly the retained jobs are left, in their order, from any offset |
| FailedSweep.NextOffsetMeans | apps/worker/src/reconciliation/reconciliation.service.ts:898-900 | where the next sweep starts: at the same place after a removal, behind the window otherwise, always inside the list |
| FailedSweep.WindowEndMeans | apps/worker/src/reconciliation/reconciliation.service.ts:820-826 | a sweep looks at the scan count of entries or at the rest of the list |
| RecoveryLinks.StoresAgree | apps/worker/src/reconciliation/reconciliation.service.ts:449-533 | in every reachable state Redis and the table agree about every user, whatever the queue holds |
| RecoveryLinks.SoundIff | apps/worker/src/reconciliation/reconciliation.service.ts:470-485 | a reachable user is sound exactly when no live job has outlived its reservation |
| RecoveryLinks.PassRevivesIff | apps/worker/src/reconciliation/reconciliation.service.ts:470-485 | on a reachable user the scans never throw and change the ledger exactly when the user holds nothing and such a job can be restored from |
| RecoveryLinks.RevivalIsReachable | apps/worker/src/reconciliation/reconciliation.service.ts:470-485 | in every sale with a unit and for every purchase in its window, a reachable state and a queue from which a pass puts a credited reservation back; the pass sees the same after the resolver has crashed |
| RecoveryLinks.NewJobsAreConfirmed | apps/worker/src/reconciliation/reconciliation.service.ts:753-764 | any job the pass adds carries a payload that was confirmed, with its time |
| RecoveryLinks.StaleReplacementIsSafe | apps/worker/src/reconciliation/reconciliation.service.ts:693-733 | a job that the pass replaces on the strength of a row read in any earlier state is settled by now, or was completed and is queued again with its identity |
| RecoveryLinks.StaleRestoreIsNoop | apps/worker/src/reconciliation/reconciliation.service.ts:459-469 | restoring from a persisted row changes nothing in any later state, however old the snapshot it was read from |
| Revival.ScannedIff | apps/worker/src/reconciliation/reconciliation.service.ts:459-530 | the keys that the scans leave are exactly those that restoring the revived payloads leaves |
| Revival.PassLeavesKeysIff | apps/worker/src/reconciliation/reconciliation.service.ts:470-530 | the scans leave the keys of a reachable state as they are exactly when no job has outlived its reservation and can be restored from |
| Revival.StockStepIff | packages/redis/src/scripts/reconcile-state.lua.ts:7-16 | on what the scans leave of a reachable state the stock step succeeds exactly when a unit is left for each revived reservation |
| Revival.RevivedIsCreditedAgain | packages/redis/src/scripts/compensate.lua.ts:56-69 | the sweep of a revived user's job credits an id that was credited before |
| Revival.SweepsAfterRevivalIff | packages/redis/src/scripts/reconcile-state.lua.ts:7-16 | the same for any balanced keys and any payloads put back, with the exact stock that is left |
| Revival.PassAndSweepsIff | apps/worker/src/reconciliation/reconciliation.service.ts:532-544 | a pass on a reachable state and the sweeps of the jobs it revived lead back to the keys before it exactly when a unit was left for each or nobody holds one; otherwise the keys are out of balance |
| Revival.RefusedPassOversells | packages/redis/src/scripts/purchase.lua.ts:57-69 | a refused stock step and the sweeps after it leave more units on sale than are left, and the next purchase is confirmed |
| Revival.OversellIsReachable | packages/redis/src/scripts/compensate.lua.ts:63-69 | in a sale of one unit, a run of the machine whose rollback meets a committed row, then one pass and one sweep, after which a purchase is confirmed and two users hold the unit |
| Convergence.Probe.CollectOne | load/audit.ts:1166-1182 | one collection, its stamp, and that it is expired exactly when the deadline has passed at the look after it |
| Convergence.SleepForRetry | load/audit.ts:1160-1165 | the backoff grows by half, rounded up, to at most 2000 ms; one delay is asked for, no longer than the backoff; a round consumes the backoff or all the time left |
| Convergence.Pause | load/audit.ts:1160-1165 | the pause between two rounds: the time left, and the next delay of the backoff |
| Convergence.FinalCollection | load/audit.ts:1206-1224 | the final collection counts exactly when it comes within the deadline, has converged and repeats the candidate |
| Convergence.Observe | load/audit.ts:1180-1224 | one round: a deadline that has passed, a justified result, or a candidate for want of which nothing has been missed |
| Convergence.WaitForConvergence | load/audit.ts:1131-1232 | a result is the last collection of a suffix of all collections that is entirely successful, converged and equal in fingerprint, whose first and next-to-last are at least 250 ms apart, with exact counts, in time; without a result the deadline has passed and no run of like collections, 250 ms long even without its first one, was followed by one more in time; delays keep to the backoff from 100 to 2000 ms; the loop ends |
| Convergence.Concludes | load/audit.ts:1203-1222 | a candidate that has stood 250 ms and a matching final collection justify the result |
| Fingerprint.SortedIsUnique | load/audit.ts:1067-1081 | a multiset has one sorted arrangement under an injective text |
| Fingerprint.FingerprintsAgreeIff | load/audit.ts:1066-1114 | two fingerprints are equal exactly when scalars agree, orders and ledger errors agree as multisets, buyers as sets and reservations as maps |
| AuditReport.DistinctByCounting | load/audit.ts:97-100 | as many users as orders exactly when no user repeats |
| AuditReport.ChecksIffOneToOne | load/audit.ts:109-117 | the report's counting and matching checks hold exactly when persisted orders and ledger entries correspond one to one with equal ids and times and the buyers are those users |
| AuditReport.PassMeansOneToOne | load/audit.ts:96-192 | a passing report implies that correspondence, that no user is both persisted and compensated, that compensated users hold nothing, and that every entry lies in the window |
| AuditReport.PassIff | load/audit.ts:96-192 | a report passes exactly when both services are ready and the queue is empty, the observation was long enough, nothing was compensated and every count is the planned one, the sale is described alike everywhere, nothing lies outside its window, no error or duplicate was found, and persisted orders and ledger entries correspond |
| AuditTrail.ResultMeansStillness | load/audit.ts:1180-1222 | all snapshots behind a convergence result have the same content, in whatever order they were read |
| AuditTrail.VerdictIgnoresOrder | load/audit.ts:96-192 | the verdict does not depend on the order in which orders were read |
| AuditTrail.PassHoldsThroughout | load/audit.ts:1259-1292 | the report built from a convergence result has the same verdict for every snapshot of the still suffix, and a pass means the correspondence in each of them |
| AuditTrail.AuditorAcceptsIff | load/audit.ts:124-177 | on every reachable state of the order machine the correspondence checks pass exactly when everyone who holds a unit has a persisted row |
| AuditTrail.ReportPassesIff | load/audit.ts:96-192 | on every reachable state of the order machine the whole report passes exactly when all units held are persisted, nothing was compensated, the plan was met and the system is at rest |
| AuditTrail.ResultIsAtRest | load/audit.ts:1054-1064 | every snapshot behind a convergence result shows both services ready and all four queue counts at zero |
| Clock.RedisAnchoredClock.AttemptSync | apps/api/src/infra/clock.service.ts:129-164 | the newest sample and the four before it are kept, the one in use is the first of least round trip, a failed call changes nothing, and samples stay those of real exchanges |
| Clock.LastFiveMeans | apps/api/src/infra/clock.service.ts:152-153 | the kept samples end with the newest one, behind the last four of those before it or all of them |
| Clock.OffsetError | apps/api/src/infra/clock.service.ts:138-150 | with readings exact to the millisecond the offset is within (rtt+1)/2 of the true one |
| Clock.OffsetIsRounded | apps/api/src/infra/clock.service.ts:138-150 | the offset is that of the midpoint, rounded to a whole millisecond with halves up |
| Clock.BestIsFirstLowest | apps/api/src/infra/clock.service.ts:155-159 | offset and round trip in use come from the oldest sample of least round trip |
| Clock.ReadersMean | apps/api/src/infra/clock.service.ts:166-185 | the clock is fresh exactly with a recent enough sample, and without one it reads zero |
| Clock.CorrectedClockError | apps/api/src/infra/clock.service.ts:166-176 | with readings rounded down, how far the corrected clock can be from the server's at any instant |
| Clock.PositiveSkewIsSafe | apps/api/src/purchase/purchase.service.ts:72-82 | with a margin of at least 1 ms a guarded rejection agrees with the server's clock |
| Clock.GuardSpeaksIff | apps/api/src/purchase/purchase.service.ts:66-82 | the guard rejects exactly when clock and window are recent and the corrected time is outside the window by the configured margin and by four round trips |
| Clock.GuardRejectsFarOutside | apps/api/src/purchase/purchase.service.ts:72-82 | far enough outside the window the guard does reject, whatever the exchange |
| Clock.ZeroSkewRejectsWrongly | apps/api/src/purchase/purchase.service.ts:72-82 | one exchange and one request that a guard without margin rejects wrongly |
| Clock.GuardIsSafeIff | apps/api/src/purchase/purchase.service.ts:61-83 | the guard is safe for every exchange and request exactly when the configured margin is at least 1 |
| Clock.GuardMatchesScript | apps/api/src/purchase/purchase.service.ts:61-83 | with a margin, honest samples and the seeded window, a guarded rejection is the code purchase.lua would return at that instant |
| RateLimit.PerUserRateLimitGuard.CanActivate | apps/api/src/common/per-user-rate-limit.guard.ts:143-210 | one key's bucket is stepped, malformed replies and an unreachable store fail open, and retry-after is the time to live in whole seconds, at least 1 |
| RateLimit.NeverExtended | apps/api/src/common/per-user-rate-limit.guard.ts:47-55 | in any schedule, every request up to a window's last millisecond falls in that window and adds exactly one to its count |
| RateLimit.WindowOpens | apps/api/src/common/per-user-rate-limit.guard.ts:48-52 | without a live window a request opens one of full length and counts one, also on a key without an expiry |
| RateLimit.NextWindowOpens | apps/api/src/common/per-user-rate-limit.guard.ts:48-52 | in any schedule the first request after a window's last millisecond opens the next one |
| RateLimit.FirstWindowOpens | apps/api/src/common/per-user-rate-limit.guard.ts:48-52 | so does the first request on a key without a window |
| RateLimit.LetThroughInWindowIff | apps/api/src/common/per-user-rate-limit.guard.ts:159-178 | within a window exactly the first `max` requests are let through, and those on its last millisecond |
| RateLimit.SameOrLater | apps/api/src/common/per-user-rate-limit.guard.ts:47-55 | two requests share a window with rising counts, or their windows end more than a window length apart |
| RateLimit.AdmittedBound | apps/api/src/common/per-user-rate-limit.guard.ts:159-178 | in any schedule, every interval of one window length sees at most 2*max-1 admissions by well-formed replies |
| RateLimit.LetThroughIff | apps/api/src/common/per-user-rate-limit.guard.ts:198-207 | what gets through is exactly that plus the requests on a window's expiry millisecond |
| RateLimit.LimiterBound | apps/api/src/common/per-user-rate-limit.guard.ts:159-210 | the bound on everything let through, for any schedule on one key |
| RateLimit.ExpiryBurstIsUnbounded | apps/api/src/common/per-user-rate-limit.guard.ts:47-55 | any number of requests on the expiry millisecond all get through, whatever the maximum |
| LedgerCodec.DecodedIdIsLuaId | packages/redis/src/sale-store.ts:123-145 | every reader sees the identity that the scripts cut off at the first colon |
| LedgerCodec.TimedIff | packages/redis/src/sale-store.ts:123-145 | exactly which texts the store reads as a given id and time |
| LedgerCodec.BareIff | packages/redis/src/sale-store.ts:129-136 | a bare value is a UUID and nothing else |
| LedgerCodec.AuditTakesIff | load/audit.ts:1043-1048 | the auditor accepts exactly something before the last colon and a number after it |
| LedgerCodec.UuidGroupsIff | packages/redis/src/sale-store.ts:107-108 | of the values in five hexadecimal groups, exactly those with version 1 to 8 and the RFC's variant, the nil and the max UUID are UUIDs (section 5 of RFC 9562) |
| LedgerCodec.UuidInGroups | packages/redis/src/sale-store.ts:107-108 | every UUID falls into its five groups |
| LedgerCodec.AuditAgrees | load/audit.ts:1040-1048 | the auditor's parser reads every stamped value alike and refuses every bare one |
| LedgerCodec.StoreTakesIff | load/audit.ts:1040-1048 | of the values the auditor accepts, exactly which the store accepts too |
| LedgerCodec.PurchaseValueReadsBackIff | packages/redis/src/scripts/purchase.lua.ts:66-69 | what the purchase writes reads back exactly for UUIDs and times before 10^14 |
| LedgerCodec.RestoreValueReadsBackIff | packages/redis/src/scripts/compare-restore-reservation.lua.ts:10-16 | what the restore writes reads back exactly for UUIDs and safe integers |
| LedgerCodec.PurchaseRefinesEntries | packages/redis/src/scripts/purchase.lua.ts:57-69 | the purchase on stored text is the purchase on parsed entries |
| LedgerCodec.CompensateRefinesEntries | packages/redis/src/scripts/compensate.lua.ts:43-69 | the compensation on stored text is the compensation on parsed entries, for any text at all |
| LedgerCodec.CompareRestoreRefinesEntries | packages/redis/src/scripts/compare-restore-reservation.lua.ts:10-27 | the restore on stored text is the restore on parsed entries |
| Readiness.HealthService.Readiness | apps/worker/src/health/health.service.ts:51-82 | the answer, the gated flag and the remembered start of the stall |
| Readiness.GraceIff | apps/worker/src/health/health.service.ts:69-82 | during one routine stall a probe is ready exactly until five intervals after the first probe that saw it |
| Readiness.ReadyIff | apps/worker/src/health/health.service.ts:51-82 | ready exactly when started and either healthy or in a routine stall within five intervals |
| Readiness.ConfirmedIsNeverReady | apps/worker/src/health/health.service.ts:75-78 | a probe on a confirmed failure is never ready |
| Readiness.FailuresFailClosed | apps/worker/src/reconciliation/reconciliation.service.ts:276-285 | an error in a pass or a sweep, jobs retained as unsafe, termination and stop are confirmed at once, and no probe after them is ready |
| Readiness.PassEndsMeans | apps/worker/src/reconciliation/reconciliation.service.ts:420-431 | a pass decides the health flag; a confirmed failure stays confirmed exactly when the pass began and ends unhealthy |
| Readiness.CleanPassRestores | apps/worker/src/reconciliation/reconciliation.service.ts:420-431 | in a started worker a clean pass restores readiness |
| Readiness.LastStepMeans | apps/worker/src/reconciliation/reconciliation.service.ts:213-219 | the last step of a start makes the worker ready exactly on a clean boot diff, without stop or termination |
| Readiness.BootIsRetried | apps/worker/src/reconciliation/reconciliation.service.ts:244-247 | a boot attempt that fails before the consumer was started is made again from the beginning |
| Readiness.ErrorsEndTheAwait | apps/worker/src/reconciliation/reconciliation.service.ts:220-248 | which errors of the start are retried, which lead to the cleanup, and which end it |
| Readiness.AwaitsHalt | apps/worker/src/reconciliation/reconciliation.service.ts:233-239 | a cleanup during stop ends in a confirmed failure |
| Readiness.StopHaltsTheStart | apps/worker/src/reconciliation/reconciliation.service.ts:185-249 | once stop has begun, a start goes no further than the await it is at |
| Readiness.LateFailuresEndIt | apps/worker/src/reconciliation/reconciliation.service.ts:199-227 | a consumer that is not ready, a queue that stays paused or an error on the way end the start |
| Readiness.OverIsFinal | apps/worker/src/reconciliation/reconciliation.service.ts:233-239 | after that the worker is never ready |
| Readiness.TerminationIsNoticed | apps/worker/src/reconciliation/reconciliation.service.ts:192-194 | a ready worker notices the end of its run loop and is not ready from then on |
| Readiness.StepKeepsInv | apps/worker/src/reconciliation/reconciliation.service.ts:185-249 | no await boundary, stop, termination, pass or sweep breaks the relation of the flags to the start sequence |
| Readiness.ReadyMeansBooted | apps/worker/src/reconciliation/reconciliation.service.ts:206-219 | in every interleaving a ready answer means that in the current start attempt a boot diff passed and the queue was read unpaused after its resume, and that stop has not begun and the run loop has not terminated |
| Readiness.DownIsFinal | apps/worker/src/reconciliation/reconciliation.service.ts:300-306 | after termination or stop no later probe is ready, whatever runs meanwhile |
| Readiness.HealthFlagMayRiseAfterStop | apps/worker/src/reconciliation/reconciliation.service.ts:412-431 | a pass in flight when stop begins may still raise the health flag |
| Readiness.ReadyAfterUndisturbedStart | apps/worker/src/reconciliation/reconciliation.service.ts:185-219 | an undisturbed start on a clean diff is ready after its last step and at no earlier one |

## Left out

- Several sales at once: everything is one sale, so `sale_id`, the sale's name and its ISO date texts do not appear, and `ensureSale` and the drift comparison of the boot pass are not modelled.
- Request ids, metrics, logging, HTTP envelopes and the outcome of a failed Redis call in `PurchaseService.purchase`; the enqueue that follows a confirmed purchase, retried once, is covered only as the machine's freedom to start a persist at any time or never.
- Partly missing config fields: the config hash is absent or complete with a non-negative total; a config hash without a total is not represented.
- OrderInvariant.StepKeeps: does not admit a rollback between the compensation and the commit of `resolveFailed` in the cases where OrderTheorems.CrashHarmlessIff shows that the property itself would be lost (OrderRollbacks.StepFreelyKeeps does), and has no recovery pass among its steps.
- SaleStore.Store.ReconcileStock: does not represent a config hash without a total, which the script answers with OVERCOMMITTED.
- Reconciliation.Service.RunDiff: does not interleave with purchases, workers or a second pass, and reads each job when it acts on it, so job handles that went stale between two awaits (the re-read after a removal, the targeted handle of an adjudication) are not represented.
- Reconciliation.Service.SweepFailed: takes the failed jobs as one list that does not change during the sweep; the re-read from 0 when a page comes back empty cannot happen on such a list. Which resolutions an outside error strikes, and where, is given to the sweep; a removal that is reported as failed although it took effect is not represented.
- Reconciliation.Service.EnqueueLiveReservation: does not run the payload assertion or classify the job that the queue returns, because an entry that the store has parsed passes the one and a queue without interleaved traffic returns the job just added.
- Reconciliation.Service.EnsureLiveReservationQueued: has no targeted handle and no re-read after a removal, which can only differ from the current job when something interleaves.
- User ids in Redis are valid: a ledger or buyer key that is not a user id stops the pass in the source.
- Incidents are a set per user instead of a list of messages, and the issues of the queue scan are one flag per user.
- Queue entries are keyed by user, which JobId.OneJobPerUser justifies within one sale; entries under any other id, which the scan only reports, are not represented.
- `withSessionReconciliationLock`: passes do not overlap in the model, so the polling for its advisory lock is not needed.
- Postgres timestamps: the conversion between epoch milliseconds and `timestamptz` is taken as exact, and the hash that turns a reservation id into an advisory lock key as injective.
- JSON text: the fingerprint's encodings of an order, of a reservation and of the whole are taken as injective functions; `canonicalFingerprint` compares UTF-16 code units and the model compares characters.
- Convergence.WaitForConvergence: assumes a clock that never steps back and delays that last at least as long as requested; the collection itself (HTTP, SQL and Redis reads) is an arbitrary result, and the diagnostics of the thrown error are left out.
- Clock.GuardMatchesScript: assumes that the server's clock runs at a fixed drift from the local one.
- The exponent form of large Lua numbers is a parameter that is only known to contain an `e`; JavaScript's `Number` is a parameter fixed on digit strings and on the empty string.
- `restoreReservations`, `reconcileStock`, `reset`, the buyer and ledger cursors and the membership tuple decoder of the store: operator primitives or easy decoding with no protocol guarantee of their own.
- The limiter's key text, candidate extraction and response headers other than retry-after; all keys of the limiter evolve independently.
- The lifecycle is a step machine over values, because its subject is the interleaving of asynchronous calls; the awaited calls are left out (draining active jobs, closing the consumer, releasing the lock), and so are the errors that shutdown collects.
- The internals of BullMQ, node-postgres, ioredis and the Lua runtime, and the web client.
