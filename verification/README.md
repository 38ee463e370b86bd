# Verification of the WaaS control plane

A Dafny model of the concurrent protocols and the small algorithms at the heart of the
WaaS api-server and frontend, with proofs of what they are for. `dafny verify
dfyconfig.toml` checks all of it.

Code that changes rows, maps or objects in place is a class whose methods are proved
against a function of the old state (`Accounts.UserTable`, `UserService.Service`,
`CatalogSync.Worker`, `Sessions.SessionTable`, `IdleSweep.Cluster`, `ConflictRetry.Store`,
`EventHub.Hub`). Where goroutines, transactions or requests interleave, a state machine
takes each statement, mutex section, channel operation or API call as one step, and the
theorems are about every run of it.

| files | what they model |
|---|---|
| `Accounts`, `AdminFloor`, `LockOrder` | the `users` table, guarded demotion and deactivation, its row locks |
| `Revocation`, `UserService` | per-request token vetting, admin and self-service edits, login and logout |
| `EditColumns`, `EditRefusals` | what an edit leaves in each column and whose sessions it ends; edits refused half-way |
| `CatalogSync`, `CatalogResync` | the watch-driven catalog sync worker; images deleted and recreated |
| `Sessions`, `SessionRaces`, `SweepAlone` | the `sessions` table, the orphan sweep, what it races with, and a pass with nothing in between |
| `Calendar`, `Timestamps`, `IdleSweep` | timestamps stored as text, MAX over them, the idle sweep |
| `CronFields`, `CronWords`, `Zones`, `Cron` | the cron preview: fields, their stepped ranges and names, local time to UTC, the search |
| `CronAnswers`, `CronZones`, `CronTexts`, `CronDays` | what its answer means under a fixed offset, in a zone whose offset changes, for expression texts, and for days of the week and the month |
| `ConflictRetry` | optimistic-concurrency retry on the Workspace object |
| `EventHub` | the notification hub behind the server-sent event streams |
| `TabEdit`, `Fuzzy`, `Quantity` | the editor's Tab key, fuzzy matching, quantity printing and reading |
| `Wrappers`, `Text`, `Listing`, `Subsequences` | shared vocabulary |

## Where the code and its comments disagree

The model follows the code. In each case a lemma gives the exact condition, or a concrete
input, or both.

- `session_sql.go:115-116` says MAX compares the stored timestamps correctly. Inside one
  second it may not: RFC3339Nano trims trailing zeros, and `Z` sorts after every digit and
  after `.`. `Timestamps.TextOrder` gives the exact pairs that compare the wrong way round,
  `Timestamps.WholeSecondSortsLast` the common one, `Timestamps.MaxWithinASecond` when MAX
  is exact and how far off it can be otherwise.
- `user_sql.go:340-341` says ascending lock order keeps two guards from deadlocking. It does
  as long as no guard lists a target that the target's own guard did not list
  (`LockOrder.NeverStuck`). `LockOrder.TwoGuardsStickExactly` says which two guards can wait
  for each other until the database aborts one of them. A promotion between their lists can do it
  (`LockOrder.TargetOutsideCandidatesSticks`), and so can an ordinary edit of role and
  activation, whose second guard no longer lists the account the first one demoted
  (`LockOrder.RoleAndActivationEditSticks`).
- A guard whose target is deleted between its read and its write reports success although
  nothing was written (`AdminFloor.DeletedTargetReportsDone`). An answer differs from the
  serial one exactly at a commit whose target is gone (`AdminFloor.AnswerDiffersExactly`).
- `user_service.go:216-217` says the pre-check spares the caller a half-applied edit. A
  refusal that comes later, from the guard, leaves one: a new password can be in place
  without the bound that revokes the old tokens (`UserService.LateRefusal`). It comes
  exactly when a guarded call finds the account's own seat to be the only one
  (`EditRefusals.LateRefusalExactly`, `OneColumnRefusal`, `BothColumnsRefusal`), and leaves
  the table that call found (`EditRefusals.LateRefusalLeaves`). The bound lands exactly when
  the edit reports success (`UserService.BoundLandsWhenDone`).
- `catalog_sync_worker.go:316-317` says a deleted and recreated image resyncs. It need not
  when a sync that read the old copy records after the deletion was handled
  (`CatalogResync.RecreatedGoesUnattempted`); it does whenever no sync of the image has yet
  to record at the deletion (`CatalogResync.RecreatedIsAttempted`).
- `nextOccurrence` promises the earliest activation. With several expressions it can return
  a later one of the first day (`CronTexts.SecondExpressionOverlooked`);
  `CronAnswers.ExactUnlessOverlooked` says exactly when, under a fixed offset.
- Around a repeated hour one expression is enough to miss its earliest activation: west of
  Greenwich the second showing of a wall clock (`CronTexts.RepeatedHourWest`), east of it
  the first (`CronTexts.RepeatedHourEast`), because the inversion takes the first showing
  just when that reading, as UTC, comes before the change (`Zones.RepeatedTakes`). For one
  expression, or past the first day, an answer that names a wall clock the zone shows misses
  an activation exactly when the earliest one is the showing that is not taken
  (`CronZones.MissedExactly`, `CronZones.ExactUnlessRepeated`). A wall clock that a change
  skips is answered with an instant off by the shift (`CronZones.AnswerFires`), which may
  also come after a true activation (`CronTexts.SkippedHourMisplaces`).
- A token bound is what its last setter wrote, not the latest instant: an edit stamps the
  clock it read before its first write, so a bound may move back
  (`Revocation.BoundMovesBack`; `Revocation.PassesExactly` for the rule).
- `computeTabEdit`: a selection starting at 0 in a text that begins with a newline comes
  back from indent and dedent starting at 1, because `lastIndexOf` counts a negative
  position as 0 (`TabEdit.DedentUndoesIndent`).
- `fuzzy.ts:8-11` says contiguous runs beat scattered characters and an earlier first hit
  wins among equals. `Fuzzy.RunAgainstScattered` says exactly when a run wins
  (`Fuzzy.ScatteredCanOutrankRun` is a pair for which it does not). A match counts as a run
  only where the query occurs at its first character's first place (`Fuzzy.RunExactly`):
  `axab` contains `ab` and still matches in pieces (`Fuzzy.LaterOccurrenceIsScattered`). And
  `Fuzzy.MorePointsOutrank` exactly which of two equally scored matches is ahead
  (`Fuzzy.EarlierHitCanLose` is a pair for which it is not the earlier hit).

## Model

| member | source | states |
|---|---|---|
| Accounts.UserTable.Create | api-server/internal/repository/user_sql.go:28-42 | inserts under a fresh id and username, otherwise reports a duplicate and changes nothing |
| Accounts.UserTable.Execute | api-server/internal/repository/user_sql.go:119-221 | each one-row writer changes the columns it names and no other, reports a missing row, and touches no other row |
| Accounts.UserTable.CountActiveAdmins | api-server/internal/repository/user_sql.go:231-241 | counting row by row gives the number of accounts that hold a seat |
| Accounts.UserTable.WithAdminFloor | api-server/internal/repository/user_sql.go:314-415 | on a single connection: the guarded call does what it does alone, an error leaves the table unchanged, and a platform that had an active administrator keeps one |
| Accounts.LastAdminExactly | api-server/internal/repository/user_sql.go:365-386 | the guard refuses if and only if the target is the only active administrator and the write unseats it; then nothing is written |
| Accounts.InsertAddsRow | api-server/internal/repository/user_sql.go:28-42 | an insert adds the account unless its id or username is taken, and then changes nothing |
| Accounts.UpdatesOwnColumns | api-server/internal/repository/user_sql.go:119-210 | column by column: each one-row writer rewrites the columns it names, keeps the others and touches no other row |
| Accounts.SeatsAreAdministrators | api-server/internal/repository/user_sql.go:231-241 | a seat is held exactly by an active account with the administrator role |
| Accounts.SerialKeepsFloor | api-server/internal/repository/user_sql.go:368-380 | any call other than an unguarded vacancy keeps an active administrator |
| Accounts.SerialRunsKeepFloor | api-server/internal/repository/user_sql.go:314-324 | so does any list of calls |
| AdminFloor.LockExcludes | api-server/internal/repository/user_sql.go:332-352 | a guard can take the seats only when no other guard is past its lock |
| AdminFloor.JudgeIsSound | api-server/internal/repository/user_sql.go:354-382 | skipping the count for a target that held no seat when read is safe, whatever was committed since |
| AdminFloor.StepKeepsInv | api-server/internal/repository/user_sql.go:325-387 | every step of every writer keeps: locked seats are non-empty and still taken, at most one guard is past its lock, the floor holds |
| AdminFloor.RefusedExactly | api-server/internal/repository/user_sql.go:370-382 | in any reachable state a guard rolls back if and only if its commit would leave no active administrator, and leaves the rows as they were |
| AdminFloor.StepIsSerial | api-server/internal/repository/user_sql.go:325-387 | a step that answers a call changes the committed table as the call alone would; every other step changes no committed row |
| AdminFloor.RunsAreSerial | api-server/internal/repository/user_sql.go:325-387 | any interleaving commits what its calls would leave one after another, in the order of their answers; the answers are the serial ones, except `Done` instead of `UserNotFound` for a target deleted under its guard |
| AdminFloor.AnswersAreSerial | api-server/internal/repository/user_sql.go:325-387 | in any such run each answer is the one its call gets alone on what the calls answered before it leave, or `Done` for a guard whose target is gone |
| AdminFloor.FloorHolds | api-server/internal/repository/user_sql.go:325-415 | in every reachable state an active administrator is committed and at most one guard is between its lock and its end |
| AdminFloor.AdministratorRemains | api-server/internal/repository/user_sql.go:325-415 | in every such state some committed row has the administrator role and is active |
| AdminFloor.GuardsNeverStall | api-server/internal/repository/user_sql.go:332-352 | a guard past its lock never waits, and when there is none every guard may lock |
| AdminFloor.UnguardedVacancyEmpties | api-server/internal/repository/user_sql.go:389-394 | in any reachable state, guards open or not, one plain demotion, deactivation or deletion empties the platform if and only if it hits the only seat |
| AdminFloor.DeletedTargetReportsDone | api-server/internal/repository/user_sql.go:354-387 | a run in which a guard whose target is deleted after its read answers `Done`, where the call alone answers `UserNotFound`; nothing else is changed |
| AdminFloor.AnswerDiffersExactly | api-server/internal/repository/user_sql.go:354-387 | in any reachable state the answer given by a step differs from the lone call's if and only if the step is a commit whose target is no longer there |
| LockOrder.StepKeepsInv | api-server/internal/repository/user_sql.go:340-352 | rows locked one by one stay exclusively held, in ascending order |
| LockOrder.WaitsUpwards | api-server/internal/repository/user_sql.go:340-352 | whatever the targets, a guard waiting for one that still collects candidates wants a lower row than that one |
| LockOrder.NeverStuck | api-server/internal/repository/user_sql.go:340-342 | in every reachable state in which no guard lists a target its own guard did not list, some unfinished guard can step: no wait cycle |
| LockOrder.TwoGuardsStickExactly | api-server/internal/repository/user_sql.go:340-352 | two guards have a run after which each waits for the other if and only if, up to swapping them, one's target is on the other's list, not on its own and below every row both list, or the lists are disjoint and each target is on the other's list |
| LockOrder.TargetOutsideCandidatesSticks | api-server/internal/repository/user_sql.go:340-342 | a run in which a promotion between two guards' lists makes them wait for each other |
| LockOrder.RoleAndActivationEditSticks | api-server/internal/service/user_service.go:255-274 | a run without any promotion: the second guard of an edit of role and activation, and a rival that listed the same seats, wait for each other |
| Revocation.RevokedByTruncation | api-server/internal/middleware/middleware.go:183-206 | a bound rejects every token issued before it; a later token is rejected only within the bound's own second, less than a second after it |
| Revocation.PassNeedsAccount | api-server/internal/middleware/middleware.go:150-206 | a token passes if and only if its account was found, is active, has the token's role and no bound later than the second of issue; which answer each failure gets, a failed lookup included |
| Revocation.ColumnsFollowSetters | api-server/internal/repository/user_sql.go:119-210 | after any statements, role, activation and bound are what their own last setter wrote: full-row updates and login stamps never touch them |
| Revocation.RunsCommitStatements | api-server/internal/repository/user_sql.go:314-387 | any interleaving leaves the table its committed statements leave; a rolled-back guard leaves nothing |
| Revocation.PassesExactly | api-server/internal/middleware/middleware.go:150-206 | after any run a token passes if and only if the last committed role, activation and bound let it |
| Revocation.RevocationHolds | api-server/internal/middleware/middleware.go:183-206 | once a bound is committed, no token issued before it passes until the bound is set again, whatever stale writes land |
| Revocation.LockoutHolds | api-server/internal/middleware/middleware.go:158-181 | a deactivated account stays shut until activated, a lost role's tokens stay refused until the role is set back |
| Revocation.BoundMovesBack | api-server/internal/middleware/middleware.go:183-206 | bounds of 20 s and then 10 s: a token of second 15 is refused after the first and passes after the second |
| UserService.Service.ApplyFields | api-server/internal/service/user_service.go:180-245 | the edited copy, and that tokens are revoked exactly for a password, a role other than the account's, or the deactivation of an active account |
| UserService.Service.SetSeat | api-server/internal/service/user_service.go:247-274 | one seat column through the guarded or the plain writer, with that writer's outcome |
| UserService.Service.WriteEdit | api-server/internal/service/user_service.go:240-283 | the writes in order, each after whatever other writers committed meanwhile; the first refusal ends the edit where it stands |
| UserService.Service.Update | api-server/internal/service/user_service.go:168-283 | refused for a missing account or an unknown role before anything else, otherwise the pre-check and the writes among other writers' calls |
| UserService.LoneEdit | api-server/internal/service/user_service.go:168-283 | with nobody else writing: refused before any write exactly when it would unseat the only administrator, otherwise applied in full with its bound; the floor survives |
| EditColumns.LoneEditColumns | api-server/internal/service/user_service.go:180-283 | with nobody else writing, what a successful edit leaves in every column; the bound becomes the edit's instant exactly for a password, another role or a deactivation, and is kept otherwise |
| EditColumns.LoneEditRefused | api-server/internal/service/user_service.go:206-232 | with nobody else writing, refused if and only if local login is on and the edit demotes or deactivates the only account that is an active administrator |
| EditColumns.BoundMovesExactly | api-server/internal/service/user_service.go:202-281 | whatever other writers do meanwhile to other columns, the bound moves if and only if the edit reports success and carries a password, another role or a deactivation |
| EditColumns.SessionsStayEnded | api-server/internal/service/user_service.go:200-206 | a token issued before a deactivating edit is rejected even after the account is activated again |
| UserService.FloorHoldsAmongRivals | api-server/internal/service/user_service.go:206-272 | among any writers that keep the floor, an edit that read an active administrator keeps it, wherever it is refused |
| UserService.BoundLandsWhenDone | api-server/internal/service/user_service.go:274-281 | whatever other writers do meanwhile to other columns, the bound of a revoking edit lands if and only if the edit reports success |
| UserService.LateRefusal | api-server/internal/service/user_service.go:254-272 | a demotion with a new password that the guard refuses after the row write: the password is in place, the bound is not, and every token that passed still passes |
| EditRefusals.LateRefusalExactly | api-server/internal/service/user_service.go:206-272 | among any writers, an edit is refused for the last administrator if and only if the pre-check finds at most one seat or one of its guarded calls finds its account's seat the only one; then the table left is just what that call found |
| EditRefusals.OneColumnRefusal | api-server/internal/service/user_service.go:206-272 | a guarded edit of role or of activation alone: refused if and only if at most one seat was left at the pre-check, or the seat is the only one after the row write and what others commit before the guard |
| EditRefusals.BothColumnsRefusal | api-server/internal/service/user_service.go:206-272 | the same for an edit of both columns, at either guard, with the table each leaves |
| EditRefusals.LateRefusalLeaves | api-server/internal/service/user_service.go:240-283 | a late refusal of a password edit, among writers of other columns: the new password is in the row, the old bound still is, and the account holds the only seat |
| UserService.Service.UpdateProfile | api-server/internal/service/user_service.go:285-352 | refused before any write for an identity provider's fields or a wrong current password; otherwise the row write and, for a new password, the bound, each after whatever other writers committed meanwhile |
| UserService.LoneProfileEdit | api-server/internal/service/user_service.go:297-352 | with nobody else writing the account is as edited, and a password change bounds every session |
| EditColumns.LoneProfileColumns | api-server/internal/service/user_service.go:297-352 | the self-service edit column by column; the bound moves exactly for a new password |
| UserService.ProfileEditKeepsStanding | api-server/internal/service/user_service.go:328-346 | however stale its copy of the row, the accounts, names, roles and activations left are those the other writers alone would leave |
| UserService.Service.Login | api-server/internal/service/auth_service.go:50-102 | refused exactly when no account as read is active with that name and password; otherwise stamps the login on what other writers left meanwhile, and the token passes just when that row is active, in the role as read, with a bound no later than the second it was signed in |
| UserService.PasswordChangeDuringLogin | api-server/internal/service/auth_service.go:71-92 | a login that read the account before a password edit: its token passes after the edit if and only if the account is active in its old role and the signing second starts no earlier than the edit |
| UserService.Service.Logout | api-server/internal/service/auth_service.go:104-121 | every token issued before the logout is refused from then on |
| UserService.UsernamesStayUnique | api-server/internal/repository/user_sql.go:28-42 | no call makes two accounts share a username |
| UserService.EditKeepsSeat | api-server/internal/service/user_service.go:212-232 | an edit empties the platform only by unseating the only administrator |
| CatalogSync.Worker.RecordSource | api-server/internal/service/catalog_sync_worker.go:387-391 | after recording, the source no longer counts as changed |
| CatalogSync.Worker.Enqueue | api-server/internal/service/catalog_sync_worker.go:363-374 | the name is pending and the wake token is there, one token however many enqueues |
| CatalogSync.Worker.DrainPending | api-server/internal/service/catalog_sync_worker.go:376-385 | hands out every pending name exactly once and leaves none |
| CatalogSync.Worker.OnImageEvent | api-server/internal/service/catalog_sync_worker.go:302-326 | a deletion and an image without registry or catalog are forgotten, an image whose catalog is not the tracked one is enqueued, anything else does nothing |
| CatalogSync.Worker.SyncIfSourceChanged | api-server/internal/service/catalog_sync_worker.go:232-300 | under the semaphore, attempts and records the attempt exactly for an image with registry and catalog whose catalog is not the tracked one |
| CatalogSync.StepKeepsInv | api-server/internal/service/catalog_sync_worker.go:197-407 | every step of watcher, consumer, ticker and forced syncs keeps: one holder of the semaphore, a pending set is announced, a stale image is covered |
| CatalogSync.SomeoneMoves | api-server/internal/service/catalog_sync_worker.go:328-361 | unless everything is idle some goroutine can move: no deadlock |
| CatalogSync.EnqueuedIsHandedOver | api-server/internal/service/catalog_sync_worker.go:332-385 | no lost wakeup: in a run that ends idle every name was handed to `syncPending` after each of its enqueues |
| CatalogSync.StuckMeansConverged | api-server/internal/service/catalog_sync_worker.go:224-407 | when no goroutine can move, every live eligible image's last attempted source is its current one, and nothing is pending |
| CatalogSync.RestHoldsCurrentSources | api-server/internal/service/catalog_sync_worker.go:110-120 | from the start, at rest after any run, the tracking map holds the current catalog of every live image that has a registry and a catalog |
| CatalogSync.AttemptsAreOfCatalogs | api-server/internal/service/catalog_sync_worker.go:239-249 | every attempt recorded in any run is of a copy that has a registry and a catalog |
| CatalogSync.OwnStepsRunOut | api-server/internal/service/catalog_sync_worker.go:224-407 | every step of the worker's own strictly reduces a well-founded measure: left alone, it always comes to rest |
| CatalogSync.AlwaysConverges | api-server/internal/service/catalog_sync_worker.go:224-407 | from the start, after any run, the pending set is announced, a state at rest is converged, and rest can be reached |
| CatalogSync.TrackingFollowsMarks | api-server/internal/service/catalog_sync_worker.go:387-407 | the tracking map changes by forgets and attempts only, as those say |
| CatalogSync.ReopenedFirst | api-server/internal/service/catalog_sync_worker.go:239-249 | while the last attempt of an image is of a source, the watch path does not fetch it again before a forget or another source |
| CatalogSync.NoHotLoop | api-server/internal/service/catalog_sync_worker.go:239-256 | between an attempt and a watch-path fetch of the same source there is a forget of the image or an attempt of another source, failed fetches included |
| CatalogSync.HandlerIsItsSteps | api-server/internal/service/catalog_sync_worker.go:309-374 | the interleaved watcher steps, run back to back, are `OnImageEvent` |
| CatalogResync.RecreatedIsAttempted | api-server/internal/service/catalog_sync_worker.go:314-317 | an image deleted while no sync of it has yet to record, and live again when the worker rests: its last attempt was of its current source, from a copy read after the deletion |
| CatalogResync.RecreatedGoesUnattempted | api-server/internal/service/catalog_sync_worker.go:314-317 | from any idle state, a run in which a sync records its old copy after the deletion was handled, and the recreated image is never attempted |
| Sessions.EndIsWriteOnce | api-server/internal/repository/session_sql.go:53-72 | whatever ends a session first, in any order of statements, decides its end for good |
| Sessions.EndedNeverConnects | api-server/internal/service/workspace_service.go:697-707 | once ended, a session never resolves again |
| Sessions.ConnectsWhileOpen | api-server/internal/service/workspace_service.go:694-740 | a session resolves to its own target if and only if it is there without an end and the target is known and running; which answer each failure gets |
| Sessions.SessionTable.Open | api-server/internal/repository/session_sql.go:26-39 | inserts an open row under a fresh id |
| Sessions.SessionTable.EndSession | api-server/internal/repository/session_sql.go:53-59 | ends the row only if it is open |
| Sessions.SessionTable.EndAll | api-server/internal/repository/session_sql.go:61-72 | ends exactly the target's open rows, at the given instant, and returns how many |
| Sessions.SessionTable.ListOpen | api-server/internal/repository/session_sql.go:74-90 | exactly the open rows, each once |
| Sessions.Sweep | api-server/internal/service/session_sweeper.go:67-123 | succeeds exactly when no lookup of an open session's machine failed; then an open desktop session is ended exactly when its workspace is not in the live list, an open remote one exactly when there is a registry that does not know its machine, at the pass's instant; a failed pass ended such sessions only; no other row changes |
| SessionRaces.StepKeepsInv | api-server/internal/service/session_sweeper.go:70-123 | every step of connects, deletions, ends and sweeps keeps: what a pass's live set misses is gone for good |
| SessionRaces.MovedPassSound | api-server/internal/service/session_sweeper.go:81-108 | listing live objects after open sessions makes the orphan verdict sound |
| SessionRaces.SweepSpares | api-server/internal/service/session_sweeper.go:81-115 | in any interleaving, a session a sweep ends has lost its target for good |
| SessionRaces.SweepCovers | api-server/internal/service/session_sweeper.go:70-123 | a sweep that starts after the row and the loss of its target and returns without error leaves the session ended |
| SweepAlone.PassAlone | api-server/internal/service/session_sweeper.go:67-123 | a pass with nothing in between succeeds and ends exactly the open sessions whose target is gone, those on machines only with a registry |
| SweepAlone.LateConnectIsSwept | api-server/internal/service/session_sweeper.go:67-123 | a connect that fetched its target before the deletion leaves an open session on nothing, and the next pass ends it |
| SweepAlone.SweepSeesTheSame | api-server/internal/service/session_sweeper.go:81-110 | given the live list and the lookups of one moment, the loop's verdict is that the target is gone |
| SessionRaces.FirstEndStays | api-server/internal/service/workspace_service.go:381-395 | over whole runs the first end stays, and the session never resolves again |
| Timestamps.EncodeReadsBack | api-server/internal/repository/time.go:11-52 | what is written is read back, to the nanosecond |
| Timestamps.TextOfAnInstant | api-server/internal/repository/time.go:11-30 | an instant of the leap day of 2024 as text, with half a second and without |
| Timestamps.TextOrder | api-server/internal/repository/time.go:11 | text order is time order, reversed exactly for two instants of one second whose trimmed fractions continue one another |
| Timestamps.WholeSecondSortsLast | api-server/internal/repository/time.go:11 | a whole second sorts after every later instant of that second |
| Timestamps.SecondsOrder | api-server/internal/repository/time.go:11 | across seconds text order is time order |
| Timestamps.MaxWithinASecond | api-server/internal/repository/session_sql.go:115-141 | MAX over the texts is one of the instants, in the second of the latest, and the latest exactly when nothing clashes with it |
| Calendar.DatesAscend | api-server/internal/repository/time.go:11 | dates compare field by field as their day numbers do |
| Calendar.CivilOfDayNumber | frontend/src/lib/cron.ts:149-159 | a date and its day number determine each other |
| Calendar.FourCenturies | frontend/src/lib/cron.ts:128-159 | the calendar repeats every 146097 days |
| Calendar.WeekdaysFollow | frontend/src/lib/cron.ts:182 | days of the week follow one another; 1 January 2000 was a Saturday, 1 January 1970 a Thursday |
| Calendar.MonthEnds | frontend/src/lib/cron.ts:128-159 | which months have 30 and 31 days, and 29 February in 2000 and 2024 but not in 1900 or 2023 |
| IdleSweep.ActivityByWorkspace | api-server/internal/repository/session_sql.go:117-141 | one aggregate for each workspace that has sessions, and no other |
| IdleSweep.AggregateIsClose | api-server/internal/repository/session_sql.go:115-123 | the aggregate is never later than the latest stored and less than a second earlier; exact for the values native columns store |
| IdleSweep.Sweep | api-server/internal/service/idle_sweeper.go:58-116 | exactly the listed workspaces that are due, and whose write is accepted, end up paused; one that is paused, being deleted or without a positive limit is left as listed; nothing else changes |
| IdleSweep.PausedWhenIdle | api-server/internal/service/idle_sweeper.go:90-105 | due exactly when neither paused nor being deleted, with a positive limit that has passed since creation and since the end of every session, none of them open; on text columns possibly up to a second before, and then only up to those ends |
| CronFields.AddRange | frontend/src/lib/cron.ts:62-71 | adds exactly the numbers the range steps through |
| CronFields.ParseField | frontend/src/lib/cron.ts:39-75 | null exactly for an ill-formed text, otherwise the non-empty set the text stands for |
| CronFields.DenotesWithinBounds | frontend/src/lib/cron.ts:14-37 | a field stands for numbers of its own range only, 7 folded into 0 for weekdays |
| CronFields.EverySetCanBeSpelled | frontend/src/lib/cron.ts:39-75 | every non-empty set of the field's numbers has a text that parses to exactly it |
| CronWords.EveryStep | frontend/src/lib/cron.ts:44-71 | a star with a step names every so many numbers of the field from its first, 7 folded into 0 |
| CronWords.SteppedRange | frontend/src/lib/cron.ts:44-71 | a range with a step names every so many of its numbers from its low end |
| CronWords.QuarterHours | frontend/src/lib/cron.ts:44-71 | a star with step 15 names the minutes 0, 15, 30 and 45 |
| CronWords.SevenIsSunday | frontend/src/lib/cron.ts:68-70 | 7 names the weekday 0 |
| CronWords.WeekdayNames | frontend/src/lib/cron.ts:36 | the weekday names stand for 0 to 6, Sunday first, whatever their case |
| CronWords.MonthNames | frontend/src/lib/cron.ts:23-35 | the month names stand for 1 to 12 |
| Zones.UtcFromZoned | frontend/src/lib/cron.ts:149-159 | the loop arrives at the twice-corrected instant |
| Zones.TwoPassesFind | frontend/src/lib/cron.ts:128-159 | whenever some instant shows the wall clock, the instant returned shows it |
| Zones.ShownUnlessSkipped | frontend/src/lib/cron.ts:128-147 | a wall clock is shown by no instant exactly when a change skips it |
| Zones.SkippedMissesByShift | frontend/src/lib/cron.ts:149-159 | for a skipped wall clock the instant returned misses it by exactly the shift, and on which side |
| Zones.RepeatedTakes | frontend/src/lib/cron.ts:149-159 | a repeated wall clock is shown once before and once after the change, and which of the two is returned |
| Zones.NotTakenExactly | frontend/src/lib/cron.ts:149-159 | an instant is not the one returned for the wall clock it shows if and only if it is the other showing of a repeated one |
| Zones.TakenAscend | frontend/src/lib/cron.ts:149-159 | the instants returned for shown wall clocks are in the order of those wall clocks |
| Cron.ParseCron | frontend/src/lib/cron.ts:88-102 | null exactly for an invalid expression, otherwise the sets its five words stand for and which day fields are restricted |
| Cron.ParsedIsUnique | frontend/src/lib/cron.ts:88-102 | a text has one parse |
| Cron.ScanHour | frontend/src/lib/cron.ts:185-201 | after the minutes loop the best is the least of what it was and the hour's hits |
| Cron.ScanExpression | frontend/src/lib/cron.ts:181-202 | after the hours loop the best is the least of what it was and the expression's hits that are looked at, the early break included |
| Cron.ScanDay | frontend/src/lib/cron.ts:176-203 | after the expressions loop: there exactly when the day has a hit, and the least of those looked at |
| Cron.Search | frontend/src/lib/cron.ts:168-204 | nothing in nine days, or the least looked-at hit of the earliest day that has one |
| Cron.NextOccurrence | frontend/src/lib/cron.ts:163-204 | null for an empty list or an invalid expression, otherwise the search's answer for what the texts parse to |
| CronAnswers.NoneInHorizon | frontend/src/lib/cron.ts:161-204 | under a fixed offset null means no expression fires after `from` in the nine days |
| CronAnswers.EarliestDay | frontend/src/lib/cron.ts:168-204 | under a fixed offset an answer fires, strictly after `from`, on the earliest day on which anything does, and is that day's earliest unless it is the first day |
| CronAnswers.HitsAreFirings | frontend/src/lib/cron.ts:128-192 | under a fixed offset the instants the search considers are exactly those at which the local clock shows what an expression names |
| CronAnswers.ExactUnlessOverlooked | frontend/src/lib/cron.ts:196-199 | under a fixed offset the answer is the earliest firing if and only if not every expression that has the first day's earliest hit comes after one that hits that day and has it outside its own first hour |
| CronAnswers.OneExpressionIsExact | frontend/src/lib/cron.ts:196-199 | for one expression the answer is the earliest firing |
| CronZones.NoneMeansShownBefore | frontend/src/lib/cron.ts:161-204 | in any zone with changes far enough apart, null leaves only instants whose wall clock was already shown by `from`, in a repeated hour |
| CronZones.AnswerFires | frontend/src/lib/cron.ts:149-204 | in any such zone an expression fires at the answer, unless a change skips the wall clock it names; then the answer misses that by exactly the shift |
| CronZones.EarlierDaysShownBefore | frontend/src/lib/cron.ts:168-204 | in any such zone, on a day before the answer's only instants whose wall clock was already shown by `from` can fire |
| CronZones.ExactUnlessRepeated | frontend/src/lib/cron.ts:149-204 | in any such zone, for one expression or past the first day, an answer whose wall clock is not skipped is the earliest firing if and only if that firing is the instant returned for the wall clock it shows |
| CronZones.MissedExactly | frontend/src/lib/cron.ts:149-204 | equivalently, a firing before the answer exists if and only if the earliest firing is the other showing of a repeated wall clock; every missed firing is one |
| CronTexts.ParsedFires | frontend/src/lib/cron.ts:88-192 | the parsed sets match a local time exactly when the five words name it |
| CronTexts.PreviewUnderFixedOffset | frontend/src/lib/cron.ts:161-204 | for texts under a fixed offset: null if and only if none fires in the nine days; an answer fires on the earliest day on which any does, and is the earliest firing past the first day or for one text |
| CronTexts.PreviewOfOneText | frontend/src/lib/cron.ts:161-204 | for one text in any zone with changes far enough apart: unless the answer's wall clock is skipped, it fires, and is the first firing if and only if that is not the other showing of a repeated wall clock |
| CronTexts.DailyParses | frontend/src/lib/cron.ts:39-102 | a text of listed minutes and hours and three stars parses to those minutes and hours on every day |
| CronDays.WeeklyFires | frontend/src/lib/cron.ts:182-192 | a time on one weekday fires a whole number of weeks from that time in the first week of 2000 |
| CronDays.MonthlyFires | frontend/src/lib/cron.ts:182-192 | a time on one day of the month fires at that time of the dates with that day |
| CronDays.EitherDayFires | frontend/src/lib/cron.ts:182-192 | with both day fields given the text fires exactly when it would with either alone |
| CronDays.WeeklyPreview | frontend/src/lib/cron.ts:161-204 | under a fixed offset the preview of a weekly text is its next time after `from`, within the week |
| CronDays.MondaysAtNine | frontend/src/lib/cron.ts:161-204 | `0 9 * * 1`: the next whole number of weeks from nine o'clock of Monday, 3 January 2000 |
| CronTexts.SecondExpressionOverlooked | frontend/src/lib/cron.ts:196-199 | `0 23 * * *` and `0 1,12 * * *` seen from 10:00: the preview says 23:00 although the second fires at 12:00 |
| CronTexts.RepeatedHourWest | frontend/src/lib/cron.ts:149-159 | `30 1 * * *` seen from the moment an hour is repeated in the west: the preview says tomorrow although it fires half an hour on |
| CronTexts.RepeatedHourEast | frontend/src/lib/cron.ts:149-159 | `30 2 * * *` seen before an hour is repeated in the east: the preview says the second showing although it fires at the first |
| CronTexts.SkippedHourMisplaces | frontend/src/lib/cron.ts:149-199 | `0,45 2,3 * * *` with half an hour skipped: the preview says 03:15, at which nothing fires, although it fires at 03:00 |
| ConflictRetry.ReloadKeepsIntent | api-server/internal/service/workspace_lifecycle.go:262-277 | a reload changes neither the pause intent nor the manual-state stamp |
| ConflictRetry.AcceptedWriteStores | api-server/internal/service/workspace_lifecycle.go:59-277 | field by field what an accepted pause, resume, update or reload stores: the flag and its stamp, the resources and overrides, the reload's stamp |
| ConflictRetry.RefusedWriteIsReload | api-server/internal/service/workspace_lifecycle.go:262-277 | a closure refuses exactly a reload of a copy that is not running |
| ConflictRetry.OverridesReplacedFieldwise | api-server/internal/service/workspace_lifecycle.go:140-195 | provided fields replace or clear, others stay, no empty block is stored, and re-running the change on its own result changes nothing |
| ConflictRetry.StoredIsReplay | api-server/internal/service/workspace_lifecycle.go:24-57 | in every run the stored object is the accepted changes applied one after another in commit order |
| ConflictRetry.SuccessIsAppliedOnce | api-server/internal/service/workspace_lifecycle.go:33-57 | a successful call is in that history exactly once, any other not at all |
| ConflictRetry.ConflictMeansLost | api-server/internal/service/workspace_lifecycle.go:33-53 | a call reports a conflict only after as many commits of others as it made attempts, and left nothing behind |
| ConflictRetry.UpdateWithConflictRetry | api-server/internal/service/workspace_lifecycle.go:33-57 | the loop: a success applies the change on top of everything that landed before its attempt, the first undisturbed one; a conflict means every attempt was disturbed |
| EventHub.Hub.Subscribe | api-server/internal/service/event_hub.go:42-60 | a fresh open stream, counted |
| EventHub.Hub.Cancel | api-server/internal/service/event_hub.go:50-58 | the first call closes and uncounts the stream, any other changes nothing |
| EventHub.Hub.Notify | api-server/internal/service/event_hub.go:62-76 | every stream of an administrator, of the named owner, or any when no owner is named, gets the kind if fewer than 16 are buffered; no other buffer changes, nothing closed is sent on |
| EventHub.RunsKeepInv | api-server/internal/service/event_hub.go:44-76 | in every run a stream is open exactly while registered, holds at most 16, and the gauge is the live streams less those not yet counted |
| EventHub.NeverPanics | api-server/internal/service/event_hub.go:50-76 | in no run does a step send on or close a closed channel; with no subscribe in progress the gauge is the number of live streams |
| EventHub.StreamGetsWhatItIsEntitledTo | api-server/internal/service/event_hub.go:62-76 | received plus buffered is an in-order part of what was due, short by exactly the notifications that met a full buffer |
| EventHub.DueByOwner | api-server/internal/service/event_hub.go:62-76 | over a run, a stream that is no administrator's is due nothing while every notification names another owner, and an administrator's is due all of them |
| EventHub.NotifyWakes | api-server/internal/service/event_hub.go:62-76 | after a notification for it a live stream has something to wake up to, and with fewer than 16 buffered the kind is at the back |
| EventHub.CancelIsFinal | api-server/internal/service/event_hub.go:50-58 | a cancelled stream is due nothing more and further cancels change nothing |
| TabEdit.LineStart | frontend/src/components/YamlEditor.tsx:72 | where the first touched line begins, with `lastIndexOf`'s treatment of a negative position |
| TabEdit.LineEnd | frontend/src/components/YamlEditor.tsx:73-74 | where the last touched line ends |
| TabEdit.Removed | frontend/src/components/YamlEditor.tsx:85 | only leading spaces, at most two |
| TabEdit.TabTypesSpaces | frontend/src/components/YamlEditor.tsx:62-70 | within one line Tab replaces the selection, or types at the caret, two spaces |
| TabEdit.TabIndentsLines | frontend/src/components/YamlEditor.tsx:71-84 | across lines Tab puts two spaces before every touched line; where the selection goes |
| TabEdit.ShiftDedentsLines | frontend/src/components/YamlEditor.tsx:85-95 | Shift takes up to two leading spaces off every touched line; where the selection goes |
| TabEdit.DedentsWhenIndented | frontend/src/components/YamlEditor.tsx:85-87 | a dedent does nothing exactly when no touched line begins with a space |
| TabEdit.EditStaysInside | frontend/src/components/YamlEditor.tsx:56-95 | every edit replaces a part of the text and selects a part of the result |
| TabEdit.DedentUndoesIndent | frontend/src/components/YamlEditor.tsx:62-95 | indent then dedent of a multi-line selection restores the text always, and the selection except one starting at 0 in a text starting with a newline |
| Fuzzy.FuzzyScore | frontend/src/lib/fuzzy.ts:13-33 | the loop computes the score of the greedy hits |
| Fuzzy.GreedyIsLeftmost | frontend/src/lib/fuzzy.ts:22-32 | however the query lies in the text, the greedy hits exist and none is further right |
| Fuzzy.MatchesSubsequences | frontend/src/lib/fuzzy.ts:6-12 | a score exists if and only if the query is a subsequence of the text |
| Fuzzy.MorePointsOutrank | frontend/src/lib/fuzzy.ts:30-33 | more points outrank any position; among equal points the hit earlier relative to its text's length wins, and only that |
| Fuzzy.EarlierHitWins | frontend/src/lib/fuzzy.ts:8-12 | among equal points the earlier hit wins in texts of one length or at the very start |
| Fuzzy.EarlierHitCanLose | frontend/src/lib/fuzzy.ts:8-12 | two texts of different lengths for which it does not |
| Fuzzy.PointsCountBreaks | frontend/src/lib/fuzzy.ts:22-32 | three points a hit, less two for each that is not right behind the one before |
| Fuzzy.RunExactly | frontend/src/lib/fuzzy.ts:22-32 | the match is one contiguous run if and only if the query occurs where its first character first does |
| Fuzzy.LaterOccurrenceIsScattered | frontend/src/lib/fuzzy.ts:8-12 | `axab` contains `ab` and still matches in pieces |
| Fuzzy.RunAgainstScattered | frontend/src/lib/fuzzy.ts:8-12 | a contiguous match outranks a scattered one if and only if it starts its text or the other breaks twice or more; otherwise the scattered one is strictly ahead |
| Fuzzy.ScatteredCanOutrankRun | frontend/src/lib/fuzzy.ts:8-12 | a scattered match that outranks a contiguous one |
| Fuzzy.SortByScore | frontend/src/lib/fuzzy.ts:54-55 | a stable descending sort, each element once |
| Fuzzy.FuzzyFilter | frontend/src/lib/fuzzy.ts:37-57 | a blank query leaves the items untouched; otherwise exactly the matching items, best first, equals in list order |
| Fuzzy.BestFirstIsUnique | frontend/src/lib/fuzzy.ts:37-57 | that promise determines the result |
| Quantity.CpuReadsBack | frontend/src/lib/quantity.ts:16-26 | every whole number of millicores survives format then parse |
| Quantity.MemoryReadsBack | frontend/src/lib/quantity.ts:33-47 | bytes come back as the nearest multiple of 1024: unchanged if and only if divisible by 1024, otherwise within 512 |
| Quantity.WholeCountsRead | frontend/src/lib/quantity.ts:28-40 | a whole count with each of the units is that many bytes |
| Quantity.MemoryTextExactly | frontend/src/lib/quantity.ts:33-40 | a text is a number of bytes if and only if it is a numeral followed by one of the units or none |
| Quantity.PrintedUnits | frontend/src/lib/quantity.ts:22-47 | which unit a size or a number of cores is printed in |
| Quantity.ThreePlacesRead | frontend/src/lib/quantity.ts:16-21 | cores with three places are read to the millicore |

## Left out

- AdminFloor.FloorHolds: runs in which an unguarded writer takes a seat are excluded (the OIDC role sync, the plain setters when the admin edit did not see an active administrator or local login is disabled, and account deletion); the code claims no floor there, and `UnguardedVacancyEmpties` says what such a writer can do.
- AdminFloor.LockExcludes: taking the seats is one atomic step; PostgreSQL's re-check of rows after a wait is not modelled. `LockOrder` takes the locks one by one, each guard's candidates being those it listed when it started.
- LockOrder.TwoGuardsStickExactly: the model has no deadlock detector; PostgreSQL's aborts one of two guards that wait for each other, and that guard's call fails.
- UserService.Service.Update: other writers are whole calls committed one after another (`AdminFloor.RunsAreSerial` says their interleavings amount to that); database errors other than a missing row or a refusal are not modelled.
- Revocation.PassesExactly: bounds and times are whole nanoseconds; PostgreSQL's timestamps keep microseconds, so the bound compared there is the nearest one it can store.
- UserService.Service.Login: password hashing and verification, audit lines and the token's signature are parameters or absent; a token is its subject, role and stamps.
- CatalogSync.AlwaysConverges: assumes events arrive in order and each sync of an existing image patches its status successfully and emits an event; watch restarts, failed reads of the image and no-op patches are not modelled. That the goroutines keep being scheduled is assumed for rest to be reached.
- CatalogSync.Worker.SyncIfSourceChanged: the fetched entries, their normalisation and the status fields patched afterwards are absent; only the attempt and the event it emits are kept.
- Sessions.SessionTable.ListOpen: the order by start time is not stated; on text columns it is text order, and the sweep does not use it.
- Timestamps.EncodeReadsBack: instants from year 0 to 9999; of the layouts `Scan` tries, the one `timeArg` writes.
- IdleSweep.AggregateIsClose: speaks of the instants as stored; native columns keep microseconds of the nanoseconds written to them, so what was written can differ from the aggregate by less than a microsecond.
- IdleSweep.PausedWhenIdle: the same holds of its exact case; policy resolution is a parameter; a listed workspace is taken as unchanged until the sweep writes it.
- CronFields.ParseField: numbers are digits; JavaScript's other spellings of numbers in a step (hexadecimal, exponents, blanks) are not modelled. A name is looked up among the field's own names only; the source's lookup also finds `constructor` and `__proto__`, inherited by every object, and takes them for a bound.
- Zones.TwoPassesFind: a zone is any list of changes of whole-minute offsets further apart than twice the largest offset; time zone databases and `Intl` are not part of this model, nor is `Date.UTC`'s reading of years 0 to 99.
- CronAnswers.ExactUnlessOverlooked: needs a fixed offset, because across a change a later wall clock may be an earlier instant; for several expressions on the first day in another zone, `CronZones.AnswerFires`, `NoneMeansShownBefore` and `EarlierDaysShownBefore` say what an answer and its absence mean.
- CatalogResync.RecreatedIsAttempted: its condition is sufficient; that every sync left to record can be scheduled so as to spoil the recreation is shown from idle states only.
- Cron.NextOccurrence: days are counted from year 0 and `from` lies after that.
- ConflictRetry.ConflictMeansLost: five attempts is the retry library's default, which is not part of this repository; the back-off between attempts and calls refused for other reasons by the API server are not modelled.
- EventHub.StreamGetsWhatItIsEntitledTo: the Kubernetes watch that feeds the hub and the HTTP stream that drains it are not modelled.
- TabEdit.DedentUndoesIndent: texts are sequences of characters; surrogate pairs and the browser's undo stack are not modelled.
- Fuzzy.FuzzyFilter: texts and queries are taken already lowered, and scores are exact rationals; the engine's sort is represented by an insertion sort.
- Quantity.MemoryReadsBack: non-negative whole counts with exact arithmetic; signs, exponents and other spellings `Number` accepts are not modelled, and neither are the two display helpers.
- HTTP handlers, routing, JSON, configuration, databases and their migrations, and audit lines.
- Cryptography, OIDC and JWT signing.
- The operator, the projections of objects to API models, input validation lists, and React components other than the Tab edit.
