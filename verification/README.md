# The consent server, modelled and proved in Dafny

This project models the protocol core of the server: the lifecycle of a consent request, the BLE
session table, the tamper cascade that writes to both, the operator-to-device assignments, the two
append-only trails (`ble_event_audit` and `audit_logs`) and migration 003. It proves what every
reachable state and every run of that protocol keeps. `dafny verify dfyconfig.toml` checks it all.

## How it is built

- **Entities** (`Entities.dfy`, `Trails.dfy`): the tables as values, one `Store` holding them all,
  and a `Config` holding the users and devices, which no modelled call writes.
- **Specification functions** (`Consents.dfy`, `Sessions.dfy`, `Tampers.dfy`, `Assignments.dfy`):
  each service call as a function from a store to a store and an answer.
- **Transactions** (`Transactions.dfy`): a program of statements, each sent through the open
  transaction's manager or past it; COMMIT performs the first kind, ROLLBACK forgets them, the second
  kind is durable at once. The cascade and the session insert are such programs.
- **Services** (`Database.dfy`, `ConsentService.dfy`, `SessionsService.dfy`, `TamperService.dfy`,
  `BleDevicesService.dfy`): the same calls statement by statement, as classes whose methods change
  shared tables in place, each proved to do exactly what its specification function says.
- **Protocol** (`Protocol.dfy`): one call is one atomic step; a run is a sequence of permitted steps
  with a clock that never goes back. Lookups without an order may answer any matching row, generated
  row ids are fresh, clients may post any event, and the server's push log may write at any time.
- **What each call does** (`Columns.dfy`, `Decisions.dfy`, `SessionCheck.dfy`, `Filings.dfy`,
  `Aborts.dfy`, `Polls.dfy`): for each consent call exactly when it succeeds, what it answers
  otherwise, and the columns it writes, said of the tables; `SessionHistory`, `Cascade` and `Parties`
  do so for sessions, cascades and assignments.
- **Properties**: `ConsentSteps.dfy` and `ConsentRuns.dfy` say what one step may do to the consents
  and their trails, and carry it over runs; `TrailLockStep`, `PollStability`, `Sweep`, `Deadlines`,
  `Reasons`, `Cascade`, `Identifiers`, `Parties`, `SessionRuns` and `SessionHistory` prove the results
  below; `Frames` says which tables each group of calls writes, and `Witnesses` holds the runs on which
  an expectation fails.
- **Interleaving** (`Interleaving.dfy`, `Overlaps.dfy`, `SplitTrails.dfy`): consent calls split at their
  awaits into read, check, whole-row save and the two trail writes after it, in any interleaving;
  `Sequential.dfy` proves that a call nobody interrupts does what the atomic call does.
- **Migration** (`Migration.dfy`) and **EventViews** (`EventViews.dfy`): the ordered UPDATEs on the
  table in place, and reading the event log back.

## What the code does not give

These expectations fail. The model says exactly when they hold and gives a run that breaks each.

- *The trails match the consents.* A cascade that rolls back has already written a
  `CONSENT_TAMPER_ABORTED` pair, which stays. A request's trail is in lock-step exactly when no
  rolled-back cascade reached it while it was pending (`TrailLockStep.LockStepIffNoRollback`); one
  rejected session update is enough to break it (`Witnesses.LockStepMayFail`).
- *The abort endpoint acts on the row it checked.* It does exactly when the key is UUID-shaped or is
  not at once one request's consent id and another's transaction (`Identifiers.ActsOnCheckedIff`);
  two filings make such a key (`Witnesses.AbortMayActElsewhere`).
- *Starting a session never ends one for nothing.* It can, exactly when another id's session is open
  on the device and the started id has an open row and an ended one, or, if the insert may fail by
  itself, an ended row or none (`SessionHistory.StartMayEndForNothing`); in
  `Witnesses.SessionEndsForNothing` it does, its insert refused by the unique index alone.
- *A rejected request says why.* A decision body's `reason` is not validated, and the default of
  `reject` stands in for one left out, not for null: a null reason is stored as such, with an event
  without error code. A call leaves its request so exactly when it rejects with a null reason
  (`Reasons.SubmitLeavesNoReason`), and over every run exactly such calls do
  (`Reasons.UnreasonedIffRejectedNull`, with split calls `Overlaps.UnreasonedIffLastSave`);
  `Witnesses.RejectionMayLackReason` is a run. Polls hide it: null and left out read alike
  (`PollStability.SubmitAgreesWithPolls`).
- *Decisions are final.* True when calls are atomic (`PollStability.DecisionsAreFinal`). With calls
  split at their awaits a schedule overwrites no decision exactly when no two of its calls overlap on
  a row, which is when it saves no row twice (`Overlaps.OverwritesIffOverlap`,
  `Overlaps.OverwritesIffSavedTwice`); a schedule that does exists from every pending request still in
  its window (`Interleaving.DecisionsMayBeOverwritten`).
- *Each trail ends a decided request once.* With split calls it does, once the calls have written what
  they owe, exactly when no decision was overwritten (`SplitTrails.TrailsFitIff`);
  `SplitTrails.OverwritingBreaksTrails` runs the schedule above to rest.

Comments in the source still speak of a firmware-owned 60 s window
(`src/consent/consent.service.ts:292-296`, `:558-559`); the code takes the window from the device's
settings by priority, and the model follows the code.

## Model

| member | source | states |
|---|---|---|
| `TrailLockStep.LockStep` | src/consent/consent.service.ts:202-253 | over every run, a request's trail is one CONSENT_REQUESTED pair, one orphan pair per rolled-back cascade that hit it pending, and one terminal pair iff it is decided; event and audit row always agree on public id, txn, session and transition, and the terminal errorCode is the stored reason |
| `TrailLockStep.LockStepIffNoRollback` | src/tamper/tamper.service.ts:24-87 | the trail counts a request's transitions and no more iff no rolled-back cascade had reached it pending |
| `ConsentRuns.StepEffect` | src/consent/consent.service.ts:550-633 | any step keeps each request or settles a pending one, files at most one fresh request, and extends each trail by exactly the matching pair |
| `ConsentRuns.RunKeepsInv` | src/consent/consent.service.ts:1180-1217 | in every reachable state the decision columns fit the status, keys are unique, sessions carry one pending request, trails name stored requests |
| `ConsentRuns.OnePendingConsent` | src/consent/consent.service.ts:801-815 | no session with a non-empty id ever carries two pending requests; ids, txns and consent ids identify one row |
| `ConsentRuns.FilingSucceedsIff` | src/consent/consent.service.ts:787-815 | filing succeeds exactly when parties, assignment, session and keys allow; a refusal changes nothing |
| `ConsentRuns.CreateEffect` | src/consent/consent.service.ts:962-1007 | a filed request is fresh and pending and starts its trail with one mirrored pair; every other trail is untouched |
| `ConsentRuns.DecideEffect` | src/consent/consent.service.ts:1229-1306 | a decision call settles at most its own pending row and adds one matching pair to that row's trail only |
| `ConsentRuns.MarkAbortedEffect` | src/consent/consent.service.ts:1146-1227 | an abort settles at most one pending row by its reason and adds one matching pair to its trail only |
| `ConsentRuns.TamperEffect` | src/tamper/tamper.service.ts:38-56 | committed, a cascade settles like an abort; rolled back after the abort, it leaves one orphan pair and the row pending |
| `Decisions.SubmitSucceedsIff` | src/consent/consent.service.ts:1047-1076 | a decision call succeeds iff its answer is one of the two, its key names a request, and that is pending, in its window and without a newest session on another device |
| `Decisions.SubmitOnRow` | src/consent/consent.service.ts:1047-1089 | what a decision call on a request writes, column by column, and answers; each refusal with its error, changing nothing but a request that ran out of time, which expires |
| `Decisions.SubmitNotFound` | src/consent/consent.service.ts:1060-1065 | a key that names no request is not found and changes nothing |
| `Decisions.DecideSucceedsIff` | src/consent/consent.service.ts:550-572 | approve and reject succeed iff the row is found, pending, in its window and its newest session not elsewhere |
| `Decisions.DecideRefusals` | src/consent/consent.service.ts:556-572 | the error of each refusal, and that only an overdue request changes |
| `Decisions.DecideWrites` | src/consent/consent.service.ts:574-633 | the row, event and audit row a decision writes, column by column |
| `SessionCheck.RefusesIff` | src/consent/consent.service.ts:180-200 | the session check refuses iff session and device are given and the newest session of that id is on another device |
| `Filings.FilingWrites` | src/consent/consent.service.ts:937-1007 | a filed request has the body's keys, title, expiry, priority (or normal), its creation time, and the deadline of that priority on that device; its event and audit row column by column |
| `Filings.FilingRefusals` | src/consent/consent.service.ts:787-815 | when a filing between proper parties is refused for its session, for a pending request on it, or for a taken key; a refusal changes nothing |
| `Filings.PartyRefusals` | src/consent/consent.service.ts:652-738 | when party validation passes, and when it answers not found, forbidden or bad party |
| `Filings.FiledAsAsked` | src/consent/consent.service.ts:937-962 | over every run each stored request still has the keys, parties, priority and deadline its filing asked for |
| `Aborts.AbortWrites` | src/consent/consent.service.ts:1146-1227 | which request an abort settles, the verdict of its reason, the stamp, event and audit row, column by column; anything else is left alone |
| `Polls.PollAnswers` | src/consent/consent.service.ts:366-461 | who is answered what: not found, forbidden, nothing while pending, and every field and claim once decided |
| `Sweep.SweepExact` | src/consent/consent.service.ts:255-290 | after a sweep nothing pending is past its deadline, exactly the overdue pending rows changed, the count is the drop in pending rows and the expiry events added, and a second sweep is a no-op returning 0 |
| `Sweep.SweepRowsTrail` | src/consent/consent.service.ts:274-286 | the sweep's loop adds one expiry pair to the trail of each listed request and none elsewhere |
| `Consents.Find` | src/consent/consent.service.ts:1163-1177 | a keyed lookup answers a matching row, and none only when there is none |
| `PollStability.DecisionsAreFinal` | src/consent/consent.service.ts:1180-1187 | over every run no request is lost and a decided one is never written again |
| `PollStability.PollIsStable` | src/consent/consent.service.ts:366-461 | once a poll returns a decision, every later poll returns the same id, txn, decision, payload, reason, decided_at and token claims |
| `PollStability.PollTellsStatus` | src/consent/consent.service.ts:397-439 | no decision iff pending, approved iff APPROVED, PIN only with an approval, reason iff rejected |
| `PollStability.SubmitAgreesWithPolls` | src/consent/consent.service.ts:1047-1089 | the answer of a successful decision call is what every later poll reads, with the owner's PIN or the stored reason |
| `PollStability.SubmitOutcome` | src/consent/consent.service.ts:1067-1081 | a successful call decided the resolved pending row as asked, at the time it reports |
| `PollStability.AnswersNeverChange` | src/consent/consent.service.ts:366-461 | along one run from the empty store, a decision polled after any prefix is what every later poll returns |
| `PollStability.CascadeIsTold` | src/tamper/tamper.service.ts:38-57 | a cascade that commits anywhere in such a run on a pending request is what every later poll of it tells |
| `PollStability.PollAfterCascade` | src/consent/consent.service.ts:426-439 | after a committed cascade on a pending request every poll says rejected, TAMPER_DETECTED, no payload |
| `Deadlines.LazyRefinesEager` | src/consent/consent.service.ts:292-318 | approve and reject give the same answer, row and protocol trail whether or not the sweep ran just before |
| `Deadlines.DecisionCommutesWithSweep` | src/consent/consent.service.ts:255-290 | deciding then sweeping leaves the same table as sweeping then deciding |
| `Deadlines.DecisionsAreInTime` | src/consent/consent.service.ts:550-568 | a decision succeeds exactly when the row is found, pending, not past its deadline and on its session's device |
| `Deadlines.RunDeadlines` | src/consent/consent.service.ts:954-959 | over every run a deadline is creation time plus the priority/device window, no approval stamp is past it, and with non-negative windows nothing pending was due before the last sweep |
| `Deadlines.RecordedDecisionsAreInTime` | src/consent/consent.service.ts:550-633 | over every run an approval or rejection recorded by a decision call is the last entry of its trail and stamped no later than the deadline |
| `Deadlines.PendingIsFresh` | src/consent/consent.service.ts:83-97 | with non-negative windows and sweeps at most 60000 ms apart nothing is pending later than its deadline plus 60000 ms |
| `Deadlines.DeadlineIgnoresExpiresAt` | src/consent/consent.service.ts:953-959 | the client's expires_at changes neither the outcome of filing nor the deadline |
| `Deadlines.LegacyDeadlines` | src/consent/consent.service.ts:535-548 | the deadline of any row: the stored one, else expires_at, else one or two minutes after creation |
| `Deadlines.PriorityIgnoresCase` | src/consent/consent.service.ts:48-61 | "high" in any case takes the short window, everything else the normal one, with the fallbacks when there is no device |
| `Reasons.SubmitLeavesNoReason` | src/consent/consent-response.controller.ts:34-53 | a successful decision call leaves its request rejected without a reason iff it rejects with a null one |
| `Reasons.UnreasonedIffRejectedNull` | src/consent/consent.service.ts:1229-1255 | over every run a stored request is rejected without a reason iff a successful rejection with a null reason decided it |
| `Cascade.CascadeIsAtomic` | src/tamper/tamper.service.ts:33-57 | cut off in front of any statement or at COMMIT, the rollback leaves the three tables as before and trails that only grew; as a call it fails so for every rejected statement, the report not announced, and with none the report is stored, the pending referenced request TAMPER_ABORTED, no session of the device open, the abort's pair and one TAMPER_DETECTED event written column by column, all else untouched |
| `Cascade.ManagerIsNeeded` | src/tamper/tamper.service.ts:43-55 | were the manager not handed on, a cut-off cascade would be undone only where there was nothing to abort and no session to close |
| `Cascade.QuietAfterCascade` | src/tamper/tamper.service.ts:50-55 | after a committed cascade no session of the device is open over any continuation without a start on it |
| `Tampers.LogOutcome` | src/tamper/tamper.service.ts:38-60 | the transaction run statement by statement equals its closed form: all three tables and then the event, or the old tables plus the abort's trail pair when the rejected statement comes after it |
| `Tampers.AbortIsItsProgram` | src/consent/consent.service.ts:1153-1157 | without a manager the abort's statements leave what the specified abort leaves |
| `Transactions.RollbackRestoresIff` | src/tamper/tamper.service.ts:33-37 | a rollback undoes a program, at every store and cut-off, iff every table write goes through the manager |
| `Transactions.CommitIsSequential` | src/tamper/tamper.service.ts:38-57 | holding the managed writes back until COMMIT leaves what all writes leave one after the other |
| `Transactions.TransactIsAtomic` | src/tamper/tamper.service.ts:38-57 | any program that writes tables through the manager and trails past it is performed in full, or changes no table, whichever statement is rejected |
| `Transactions.InsertIsAtomic` | src/sessions/sessions.service.ts:116-136 | a session and its snapshot are inserted together or not at all |
| `Identifiers.ResolvedRowIsAborted` | src/consent/consent.service.ts:378-391 | what the poll and decision lookups resolve, the abort resolves to the same, unique row |
| `Identifiers.UuidShape` | src/consent/consent.service.ts:1158-1161 | which keys are UUID-shaped: 36 characters, four dashes, hex digits of either case |
| `Identifiers.IdsIgnoreCase` | src/consent/consent.service.ts:378-391 | a row id in any letter case is looked up alike |
| `Identifiers.CheckedKeyResolves` | src/consent/consent.service.ts:486-502 | a key the party check accepts is one the abort resolves |
| `Identifiers.ActsOnCheckedIff` | src/consent/consent.controller.ts:71-78 | the abort is sure to act on the checked row iff the key is UUID-shaped or not ambiguous |
| `Identifiers.TableCoherentIff` | src/consent/consent.service.ts:1158-1178 | a whole table is coherent iff no request's non-UUID txn is another's consent id |
| `Parties.RunKeepsOneActive` | src/ble-devices/ble-devices.service.ts:114-163 | over every run an operator has at most one active assignment |
| `Parties.AssignAnswers` | src/ble-devices/ble-devices.service.ts:114-149 | when an assignment succeeds, what it answers, and the rows it leaves |
| `Parties.RemoveWrites` | src/ble-devices/ble-devices.service.ts:151-163 | a removal succeeds iff the pair is assigned and turns one such row inactive, nothing else |
| `Parties.AssignTakesEffect` | src/ble-devices/ble-devices.service.ts:114-149 | after an assignment the operator's only device is the one asked for; other operators keep theirs |
| `Parties.RemoveTakesEffect` | src/ble-devices/ble-devices.service.ts:151-163 | removal succeeds iff the operator is on the device, leaves it with none, and touches no other operator |
| `Parties.RemovalLasts` | src/ble-devices/ble-devices.service.ts:151-163 | an operator removed from its device has none over any continuation that does not assign it again |
| `Parties.AtMostOneDevice` | src/ble-devices/ble-devices.service.ts:26-32 | the device list of an operator has at most one entry |
| `Parties.OneDevicePasses` | src/consent/consent.service.ts:710-726 | an operator passes party validation for one device only, the one its list shows |
| `Parties.RunKeepsParties` | src/consent/consent.service.ts:652-738 | every stored request's owner is its device's owner with role owner, its operator an operator and another user |
| `Sessions.Latest` | src/sessions/sessions.service.ts:163-173 | the ordered lookup answers a row of the id with the greatest startedAt, and none only when there is none |
| `SessionHistory.EndedRowsBulk` | src/sessions/sessions.service.ts:255-274 | a bulk end ends as many rows as the count it reports, leaves its device none open and every other device as many as before |
| `SessionRuns.RunKeepsSessions` | src/sessions/sessions.service.ts:71-179 | over every run, whichever rows the lookups answer: one open row per session_id and per device, the open row newest of its id, end columns written together and only on ending sessions |
| `SessionRuns.StepAdvances` | src/sessions/sessions.service.ts:181-275 | any step moves each row along the transition table or leaves it, never touches an ended row, and adds at most one fresh open row |
| `SessionRuns.OpenIsNewest` | src/sessions/entities/ble-session.entity.ts:13-21 | an id's open row is its only open one and has its greatest startedAt |
| `SessionRuns.LookupFindsOpenRow` | src/sessions/sessions.service.ts:163-173 | the ordered lookup lands on the open row whenever there is one |
| `SessionHistory.StartAnswers` | src/sessions/sessions.service.ts:71-161 | start answers a stored row of its id, that very row when it is the id's only one and open, and an error iff it inserts none and the id has none |
| `SessionHistory.StartIsIdempotent` | src/sessions/sessions.service.ts:71-87 | a start of a session open on its device changes nothing at all, whichever rows its lookups answer |
| `SessionHistory.StartInserts` | src/sessions/sessions.service.ts:96-161 | start inserts iff no session of the id is open and the insert goes through; the new row is the device's only open one, with a snapshot iff identity was given |
| `SessionHistory.StartDisplacesOnly` | src/sessions/sessions.service.ts:89-94 | start changes no existing row but the device's other open session, ended as DISCONNECTED with its one event |
| `SessionHistory.StartEndsForNothing` | src/sessions/sessions.service.ts:89-147 | for given lookup answers, exactly when start ends a session without inserting one |
| `SessionHistory.StartMayEndForNothing` | src/sessions/sessions.service.ts:84-147 | which stores let some lookup answers do that, with and without a failing insert: both directions, over rows a caller can see |
| `SessionHistory.EndIsExact` | src/sessions/sessions.service.ts:217-242 | end closes the id's open session, with reason and one event, and is otherwise a no-op |
| `SessionHistory.UpdateIsExact` | src/sessions/sessions.service.ts:181-215 | updateState succeeds iff the id has an open session and the table allows the move, and changes that state only |
| `SessionHistory.BulkCloses` | src/sessions/sessions.service.ts:255-265 | a bulk end closes exactly the device's open rows, at its time and for its reason |
| `SessionHistory.EndsAreConserved` | src/sessions/sessions.service.ts:217-275 | over every run, ended rows = server SESSION_ENDED events + counts returned by committed bulk ends |
| `SessionHistory.ReachesExactly` | src/sessions/sessions.service.ts:22-41 | for any two states, exactly the numbers of moves that lead from one to the other |
| `SessionHistory.ActiveAgainAfterWholeRound` | src/sessions/sessions.service.ts:181-215 | over every run, a session active at two moments stayed so or changed state an even number of times, at least four |
| `SessionHistory.HistoryIsPath` | src/sessions/sessions.service.ts:181-275 | every row's history over every run is a path of the transition table from IDLE |
| `SessionHistory.MoveIsRecorded` | src/sessions/sessions.service.ts:181-215 | an allowed move is the next state of the open row's history |
| `SessionHistory.EndsAreFinal` | src/sessions/sessions.service.ts:220-225 | an ended row is never written again and SESSION_ENDING is absorbing |
| `SessionHistory.PhasesAlternate` | src/sessions/sessions.service.ts:22-41 | along a path COMPLETED <= ACTIVE <= COMPLETED+1 and ACTIVE <= REQUESTED <= IDLE <= REQUESTED+1, with equality as the state says |
| `SessionHistory.RowPhasesAlternate` | src/sessions/sessions.service.ts:191-201 | those counts for every session row of every run |
| `Sequential.DecideAlone` | src/consent/consent.service.ts:550-633 | the moves of a decision, uninterrupted, leave the rows and write the trail rows of the atomic decision |
| `Sequential.AbortAlone` | src/consent/consent.service.ts:1146-1227 | the same for an abort |
| `Sequential.FileAlone` | src/consent/consent.service.ts:937-1007 | the same for a filing that goes through |
| `Sequential.SweepAlone` | src/consent/consent.service.ts:255-290 | the same for a whole sweep |
| `Interleaving.RowsAreRobust` | src/consent/consent.service.ts:255-318 | under any interleaving the decision columns fit the status, rows keep their request, and none returns to PENDING |
| `Overlaps.HeldRow` | src/consent/consent.service.ts:1153-1187 | for every schedule, every call in flight and every row object it holds, a sweep's list included: the row is still that object unless some call saved it after this one started, and is pending iff it was read pending and none did |
| `Overlaps.OverwritesIffOverlap` | src/consent/consent.service.ts:550-572 | a schedule overwrites no decision iff no call saves a row that another saved since the first one started |
| `Overlaps.OverwritesIffSavedTwice` | src/consent/consent.service.ts:274-286 | a schedule overwrites no decision iff it saves no row twice |
| `Overlaps.DecisionsAreFinalWithoutOverlap` | src/consent/consent.service.ts:1180-1187 | in a schedule without overlaps a decided request is never written again |
| `Overlaps.RowIsLastSave` | src/consent/consent.service.ts:1180-1216 | in every schedule a saved row is what its last save made of a pending version of it, an unsaved one is as found or filed |
| `Overlaps.UnreasonedIffLastSave` | src/consent/consent.service.ts:1248-1255 | in every schedule a row is rejected without a reason iff its last save was a rejection with a null one |
| `SplitTrails.EntriesCountSaves` | src/consent/consent.service.ts:202-253 | in every schedule the terminal entries written or owed about a request, in either trail, number its saves |
| `SplitTrails.TrailsFitIff` | src/consent/consent.service.ts:202-253 | once no call owes a trail row, each trail has one terminal entry per decided request and none for a pending one iff no row was saved twice, iff no decision was overwritten |
| `SplitTrails.PairTellsRow` | src/consent/consent.service.ts:1253-1293 | then a decided request has exactly one terminal event and one terminal audit row, and both tell its stored state |
| `SplitTrails.OverwritingBreaksTrails` | src/consent/consent.service.ts:550-572 | the overwriting schedule, run to rest, leaves trails that do not fit |
| `Interleaving.DecisionsMayBeOverwritten` | src/consent/consent.service.ts:550-572 | from any pending request in its window, a schedule that leaves it TAMPER_ABORTED and then APPROVED |
| `Witnesses.LockStepMayFail` | src/tamper/tamper.service.ts:43-55 | a run whose request is pending while its trail says CONSENT_TAMPER_ABORTED |
| `Witnesses.RejectionMayLackReason` | src/consent/consent.service.ts:1229-1254 | a run that ends with a request rejected without a reason |
| `Witnesses.AbortMayActElsewhere` | src/consent/consent.controller.ts:71-78 | a run of two filings after which the party check may read a row the abort does not act on |
| `Witnesses.SessionEndsForNothing` | src/sessions/sessions.service.ts:84-147 | a run whose last start closes the device's session and opens none, its insert refused by the unique index |
| `Migration.Migrate` | migrations/003-consent-status-enum-and-pin.sql:31-102 | the transaction translates every row and meets the CHECK iff every status is known, else leaves the table as it was |
| `Migration.UpdateWhere` | migrations/003-consent-status-enum-and-pin.sql:53-68 | one UPDATE changes exactly the selected rows |
| `Migration.PassesTranslate` | migrations/003-consent-status-enum-and-pin.sql:52-75 | the ordered passes equal one per-row translation |
| `Migration.TranslateMeetsCheck` | migrations/003-consent-status-enum-and-pin.sql:80-88 | a translated row is in the CHECK set iff its status was known |
| `Migration.PassesAreIdempotent` | migrations/003-consent-status-enum-and-pin.sql:52-75 | running the passes again changes nothing |
| `Migration.AgreesWithMarkAborted` | src/consent/consent.service.ts:1189-1208 | a legacy aborted row gets the status markAborted gives for the same reason |
| `Migration.OrderMatters` | migrations/003-consent-status-enum-and-pin.sql:59-68 | folding the leftovers first gives the same result iff the reason stands for a rejection |
| `EventViews.HumanizeExact` | src/ble-events/ble-events.service.ts:100-107 | an event type is shown with spaces for underscores, each word begun with a capital, the rest small, position by position |
| `EventViews.MatchingExact` | src/ble-events/ble-events.service.ts:47-60 | a session's replay shows exactly its rows, in log order |
| `EventViews.RenderingRoundTrip` | src/ble-events/ble-events.service.ts:100-107 | an event type can be restored from its rendering |
| `EventViews.RenderingIsInjective` | src/ble-events/ble-events.service.ts:100-107 | two event types never render alike |
| `EventViews.AuditIsReversedTail` | src/ble-events/ble-events.service.ts:77-84 | the audit list is the last matching rows, newest first |
| `EventViews.ReplayIsStable` | src/ble-events/ble-events.service.ts:47-60 | the replay is a prefix of insertion order that later rows only extend |
| `Database.AuditService.Log` | src/audit/audit.service.ts:13-27 | appends the row with defaulted keys |
| `Database.Transaction.Send` | src/tamper/tamper.service.ts:38-39 | a statement joins the held-back ones unless the database rejects it |
| `Database.Transaction.Commit` | src/tamper/tamper.service.ts:38-57 | performs the held-back statements in order, or none of them |
| `Database.BleEventsService.RecordEvent` | src/ble-events/ble-events.service.ts:29-45 | appends the event |
| `ConsentService.ConsentService.ExpireStalePending` | src/consent/consent.service.ts:255-290 | the loops leave the specified store and return the specified count |
| `ConsentService.ConsentService.EnforceDecisionWindow` | src/consent/consent.service.ts:297-318 | expires an overdue pending row and records it, else changes nothing |
| `ConsentService.ConsentService.AssertSessionConsistent` | src/consent/consent.service.ts:180-200 | false only for a known session of another device |
| `ConsentService.ConsentService.Approve` | src/consent/consent.service.ts:550-633 | leaves the store and answer of the specified approval |
| `ConsentService.ConsentService.Reject` | src/consent/consent.service.ts:1229-1306 | leaves the store and answer of the specified rejection |
| `ConsentService.ConsentService.SubmitConsentResponse` | src/consent/consent.service.ts:1047-1089 | leaves the store and answer of the specified decision call |
| `ConsentService.ConsentService.MarkAborted` | src/consent/consent.service.ts:1146-1227 | without a manager leaves the store of the specified abort; with one, runs the abort's statements in the caller's transaction |
| `ConsentService.ConsentService.CreateConsentRequest` | src/consent/consent.service.ts:752-1042 | leaves the store and answer of the specified filing |
| `ConsentService.ConsentService.RecordConsentTerminal` | src/consent/consent.service.ts:206-237 | appends one event and one audit row for the transition |
| `SessionsService.SessionsService.Start` | src/sessions/sessions.service.ts:71-161 | for the rows its lookups answered, leaves the specified store and answer |
| `SessionsService.SessionsService.FindBySessionId` | src/sessions/sessions.service.ts:163-173 | the scan answers the row with the greatest startedAt |
| `SessionsService.SessionsService.GetActiveByDevice` | src/sessions/sessions.service.ts:175-179 | answers an open row of the device, none only if there is none |
| `SessionsService.SessionsService.UpdateState` | src/sessions/sessions.service.ts:181-215 | leaves the specified store and answer |
| `SessionsService.SessionsService.End` | src/sessions/sessions.service.ts:217-242 | leaves the specified store and answer |
| `SessionsService.SessionsService.EndAllActive` | src/sessions/sessions.service.ts:244-274 | ends exactly the device's open rows and returns their number, or sends that update through the caller's transaction |
| `SessionsService.SessionsService.Insert` | src/sessions/sessions.service.ts:116-136 | inserts row and snapshot through one transaction, or nothing |
| `TamperService.TamperService.Log` | src/tamper/tamper.service.ts:24-87 | the service calls made through one manager leave the specified store and answer, whichever statement is rejected |
| `BleDevicesService.BleDevicesService.AssignOperator` | src/ble-devices/ble-devices.service.ts:114-149 | leaves the specified store and answer |
| `BleDevicesService.BleDevicesService.RemoveOperator` | src/ble-devices/ble-devices.service.ts:151-163 | leaves the specified store and answer |
| `BleDevicesService.BleDevicesService.FindAllForOperator` | src/ble-devices/ble-devices.service.ts:26-32 | the devices of the operator's active assignments |

## Left out

- Controllers, guards, DTO validation and bootstrap: preconditions only (a decision is a text, an abort has a reason).
- Push sends, token signing and hashing: a token is its claims, a push is the log row it may leave at any time.
- Attachment, geo, address and packet-snapshot fields, log lines, audit detail texts and event payload summaries: copied text with no state behind it.
- `notifyHidInjectUsed`, RTC sync, devices, users, login, tamper resolution, seeds and the other migrations: no state that meets the core.
- Trail writes that fail: the server swallows them; the model has every trail write succeed.
- Tampers.Log: in runs a cascade stops at a rejected statement; a process that dies between two statements is covered for the tables by `Cascade.CascadeIsAtomic`, not for the trails.
- Transactions.TransactIsAtomic: one transaction at a time; what other calls write between its statements, and database isolation levels, are not modelled.
- Deadlines.DecisionsAreInTime: a step reads the clock once, so the stamp of a decision is the time its window was checked; the source reads the clock again after the session lookup.
- A reason that is neither text nor null (nothing validates that either), and texts too long for their column.
- Row ids that are not UUIDs: the source only passes stored row ids to approve and reject; the model answers not found where the database would raise.
- Changes to users and devices during a run: both tables are fixed, with unique ids, so a later poll reads the same PIN.
- The order among several expiries of one sweep: the table's order here, unspecified in the source; each request's own trail does not depend on it.
- Letter case outside ASCII and the timezone skew of `createdAt`.
- Interleaving.RowsAreRobust: assumes that each `save` is one atomic write of the whole row as it was read and changed, as do all results on split calls; these are for consents and their trails only, sessions and the one-pending rule being proved for atomic calls.
