# A verified model of the event registration service

The event registration service keeps student activity scores (MosActive), merges duplicate
identities, reviews finished events, scans attendance offline, migrates its own schema,
serialises registrations with named locks and delivers mail. This project models those
parts in Dafny 4.11 and proves what they keep. `dafny verify dfyconfig.toml` checks all of it.

## The main results

1. **The score ledger.** One invariant ties a participation's status, cycle, scoring state and
   sequence to the append-only ledger. Every operation keeps it, under scoring rules that may
   change between steps, so over every run a participation's rows sum to its one standing award
   (`ActivityRuns.EveryRunKeepsInv`), a person's total is their standing awards plus adjustments
   (`ActivityRuns.TotalsAfterEveryRun`), and no row is ever edited but for its owner
   (`ActivityRuns.EveryRunGrows`).
2. **Merging identities.** The ordered merge, a five-phase rewrite of two histories, ends exactly
   at the submitted order with every recalculated award worth its new position and nothing else
   changed (`PersonMergeProofs.OrderedMergeCorrect`). Aliases stay one hop deep, and no accepted
   merge lets a membership or a status multiplier count twice (`ActivityRuns.AcceptedMergeAppliesOnce`).
3. **Event review.** An approval ends exactly as the sheet decided (`ApprovalCorrect`,
   `ApprovedIffEligible`), touches nothing else, and repeats without effect
   (`ReapprovalChangesNothing`). After every run, under scoring rules that may change at every step, a
   READY preview is exactly what approval writes, whatever else is on the sheet
   (`PreviewRuns.EveryPreviewIsAwarded`): because reviewed events refuse direct confirmations and
   corrections, all that stands in them was numbered by an approval (`EveryRunAttributed`).
4. **The scanner queue.** Under every interleaving of scans, overlapping flushes, lost answers,
   failures, handoffs, owner changes and logouts, every scan is stored or left for a recorded,
   genuine reason, and deletion is final (`ScannerProtocol`); the database object's flush is a run
   of that protocol (`FlushIsRun`). Cached lookups always answer from the bundle accepted last
   (`CacheRuns`).
5. **Migrations, locks, registrations, mail.** Crash-resumed migrations equal one clean run,
   whatever was not torn or is harmless to repeat where it was torn; sorted
   lock lists never deadlock; registrations stay within capacities that may change, and replays change nothing;
   a mail delivery has one live holder, final outcomes and exactly the allowed number of claims.
6. **Exact answers.** For every request the laws say, over the rows of the tables and apart from the
   functions that specify it, when it is accepted and what it leaves: confirmations and their price
   (`ConfirmAnswered`, `ConfirmedAtFormula`), merges (`MergeIsExact`), approvals (`ApprovalChecked`,
   `ApprovalSound`), previews, whose READY is exactly what an approval of the row would go through with
   (`ReadyIsApprovable`), server results and handoffs (`ScannerLaws`) and forms (`RegistrationLaws`).

## How it is organised

Operations are specified as functions from the tables before to the tables after, or to the
error that rolls the transaction back. The classes `ActivityStore`, `ScannerDatabase`,
`Migrator`, `LockServer`, `RegistrationDesk` and `Deliveries` hold the tables as fields that
their methods update statement by statement, loops included, and each method is proved to leave
exactly what its specification gives. The laws are lemmas about the specifications.

| file | content |
|---|---|
| `Common`, `Identities`, `Statements` | options, results, `ORDER BY id` listings; alias links; UPDATE, COUNT and self-joins row by row |
| `Scoring`, `ScoringEngine`, `AwardFormula` | the v2 formula and its rounding, the v1 and v2 rule lookups, awards at the formula |
| `ActivityModel`, `ActivityService`, `ActivityLaws` | the tables; award, reverse, confirm, cancel, reclassify; what each answers |
| `LedgerInvariant`, `ActivityInvariant` | the invariant, per elementary write and per operation |
| `PersonMerge`, `PersonMergeProofs`, `MergeLaws`, `PersonLaws` | both merges, what is accepted; totals, aliases, periods |
| `EventReview`, `EventReviewProofs`, `ReviewLaws`, `ReviewLinks` | sheet and approval |
| `PreviewProofs`, `PreviewRuns`, `PreviewLaws` | preview |
| `ActivityRuns`, `RequestLaws`, `ActivityStore` | every run; what the handlers admit; the imperative services |
| `ScannerModel`, `ScannerLaws`, `FlushModel`, `ScannerDatabase` | offline tables, flushes |
| `ScannerProtocol`, `CacheRuns` | interleavings |
| `Registration`, `RegistrationLaws`, `RegistrationDesk`, `NamedLocks` | the registration transaction and its locks |
| `Migrate`, `EmailWorker`, `MailQueue` | migrations, mail |

The ledger laws hold for every `Engine`, a record of the questions the services ask of the
reference tables; `ScoringEngine.EngineOf` builds the one of the MosActive rules. Points are
integers in units of 0.0001; the formula itself is exact over `real`. A table is a map from its
key, a transaction an atomic step, a row of the ledger is identified by its position, and a
digest or checksum is modelled as the data it covers. Identifiers, clock readings, mail history,
form validation, network answers and the SMTP outcome are inputs.

## Where the code does less than one might expect

Each point is the code's behaviour, kept as it is, with the exact or a sufficient condition proved.

- **Only drafts follow a relinked registration** (`backend/src/event_api/event_review.py:556-560`). The
  exact rule for who is credited is `ApprovalCredits`. The input that misses the roster student is a
  participation that was cancelled, unnumbered, before migration 017 made its event one that is scored
  by review (`backend/migrations/017_event_mosactive_review.sql:17-22`), and whose registration is
  linked to somebody else afterwards (`CancelledStaysBehind`); in every event that was scored by review
  from the start the points reach the roster student (`EveryApprovalCreditsRosterStudent`).
- **A changed owner can lose a scan.** `bindOwner` counts unresolved scans outside the transaction
  that clears them (`LateScanIsLost`, `TakeoverLosesLateScans`). `docs/08-offline-sync.md:182-196` names
  confirmed results, acknowledged handoffs and logout as what removes a scan.
- **A queued answer may follow a confirmation.** `recordAttendance` reports QUEUED although the scan
  is gone exactly when an earlier batch of the same flush confirmed it (`RecordAttendance`). That needs
  a scan that sorts before another one at a batch boundary (`QueuedThoughConfirmed`): another scan was
  queued before the snapshot was taken, the clock was set back, or two scans share a time. While the
  scan is the youngest of the snapshot, QUEUED means stored (`UnansweredStaysStored`).
- **An alias can overwrite its primary** through a new public registration
  (`AliasDataOverwritesExactly`).
- **A mail crash is not an attempt the limit sees.** A claim exceeds the maximum exactly when it picks
  up a delivery abandoned in its last attempt (`ClaimExceedsMaxExactly`, `CrashExceedsMax`).
- **A late outcome overwrites a final one**, since the updates have no status guard: exactly when the
  worker holds a delivery that is already final with another status, which only an expired lease
  allows (`LateOverwritesExactly`, `LateOutcomeUndoesSent`).
- **A torn migration statement is run again.** It goes wrong exactly when repeating it neither fails
  nor changes nothing (`CrashAndResumeExactly`).
- **The status overlap check treats the retirement day as still covered** although the calculation
  does not, so it refuses some merges that would be harmless (`ClashIsExactUpToRetirement`).
- **An award of zero points aborts** its transaction, because the schema refuses such rows
  (`backend/migrations/013_active_foundation.sql:256`).

## Model

| member | source | states |
|---|---|---|
| `Scoring.Subtotal` | backend/src/event_api/scoring_v2.py:36-45 | The accumulating loop computes the exact product of role, level, boost, every status and the newcomer multiplier |
| `Scoring.Calculate` | backend/src/event_api/scoring_v2.py:36-62 | The calculation records the rounded subtotal, the bonus and the rounded total of the exact formula |
| `Scoring.QuantizeNearest` | backend/src/event_api/scoring_v2.py:36-62 | Rounding is within half of 0.0001, and an integer number of units that is strictly nearer than half is the result |
| `Scoring.QuantizeNegates` | backend/src/event_api/scoring_v2.py:36-62 | ROUND_HALF_UP commutes with negation |
| `Scoring.ShiftCommutes` | backend/src/event_api/scoring_v2.py:36-62 | Rounding commutes with adding a bonus exactly when the amount is not a tie that the bonus carries across zero |
| `Scoring.FinalPointsNearFormula` | backend/src/event_api/scoring_v2.py:36-62 | The awarded total is within half of 0.0001 of the exact formula |
| `Scoring.RecordedPartsAddUp` | backend/src/event_api/scoring_v2.py:36-62 | About rounding alone, for any reals: the rounded total equals rounded subtotal plus rounded bonus exactly when the exact subtotal is not a tie carried across zero |
| `Scoring.NonNegativeInputsAddUp` | backend/src/event_api/scoring_v2.py:36-62 | For every input the schema admits the recorded parts add up to the recorded total |
| `Scoring.StatusOrderIrrelevant` | backend/src/event_api/scoring_v2.py:193-208 | The calculation does not depend on the order in which status rows are read |
| `ScoringEngine.RankIsBest` | backend/src/event_api/activity_service.py:189-224 | The v1 rule chosen is the single applicable rule of highest priority and specificity wherever it stands in the table; the choice is refused exactly when two share the highest rank, and empty exactly when none applies |
| `ScoringEngine.TierStartsLatest` | backend/src/event_api/scoring_v2.py:209-220 | The newcomer tier taken covers the position and starts latest of those that do; none is taken only when none covers it |
| `AwardFormula.ConfirmedAtFormula` | backend/src/event_api/scoring_v2.py:142-267 | A v2 confirmation that passes the checks leaves the row within half of 0.0001 of role base * level multiplier * boost * every applying status row * newcomer tier + result bonus, read off the rows of the only version in force at the event start, for the role and result taken and the row's number; without a rule exactly when no version is in force or that one lacks a component; and refused only when two versions are in force or the price rounds to zero |
| `AwardFormula.ConfirmedAtRule` | backend/src/event_api/activity_service.py:374-451 | Without a v2 policy a confirmation leaves the row, its number unchanged, at the points of the first rule that fits, or without a rule exactly when none fits; it is refused only when two rules tie or the rule gives zero |
| `AwardFormula.PointsAreExact` | backend/src/event_api/scoring_v2.py:71-86 | Points, a missing component, no version, two versions and no policy are each answered exactly when the rows of the reference tables say so |
| `AwardFormula.RulePointsAreExact` | backend/src/event_api/activity_service.py:189-224 | The v1 points are those of the only rule that fits and precedes every other that fits, by priority and then by the number of its conditions; ambiguous exactly when two such rules tie, missing when none fits |
| `ActivityTables.ActivityStore.AssignScoringSequence` | backend/src/event_api/scoring_v2.py:103-139 | A stored sequence is kept; otherwise the next one is stored for this participation and nothing else changes |
| `LedgerInvariant.NextSequenceIsNew` | backend/src/event_api/scoring_v2.py:103-139 | A new sequence exceeds every number the person has and the count of their other scored history |
| `ActivityLaws.NextNumberIsLeast` | backend/src/event_api/scoring_v2.py:103-139 | A number is the stored one, or one more than the larger of the person's largest other number and the count of their other confirmed or once awarded participations in seasons |
| `LedgerInvariant.AwardKeepsSequences` | backend/src/event_api/scoring_v2.py:103-139 | Awarding never gives a person the same sequence twice |
| `ActivityTables.ActivityStore.RecordAward` | backend/src/event_api/activity_service.py:308-352 | The idempotency key keeps an existing row of the cycle, a zero amount is refused by the schema, and the participation becomes AWARDED |
| `ActivityTables.ActivityStore.AwardScore` | backend/src/event_api/activity_service.py:264-451 | The statement-by-statement award leaves exactly the tables of its specification, for v1 and v2 seasons, missing components and errors |
| `ActivityTables.ActivityStore.ReverseCurrentAward` | backend/src/event_api/activity_service.py:454-540 | The current cycle's award is negated by one row unless it already was |
| `ActivityTables.ActivityStore.ConfirmRegistration` | backend/src/event_api/activity_service.py:543-655 | The confirmation leaves exactly the tables, or the error, of its specification |
| `ActivityTables.ActivityStore.CancelParticipation` | backend/src/event_api/activity_service.py:658-695 | The cancellation leaves exactly the tables, or the error, of its specification |
| `ActivityTables.ActivityStore.UpdateParticipation` | backend/src/event_api/activity_service.py:698-763 | The reclassification leaves exactly the tables, or the error, of its specification |
| `LedgerInvariant.AwardKeepsLedgered` | backend/src/event_api/activity_service.py:264-451 | An award on a participation whose earlier cycles are closed appends exactly one row of the engine's worth, or none when a component is missing; the key conflict never fires; no other net changes; the ledger invariant holds again |
| `LedgerInvariant.ReverseKeepsLedgered` | backend/src/event_api/activity_service.py:454-540 | A reversal brings the participation's net to zero, changes no other net, and keeps the ledger invariant for everything else |
| `ActivityInvariant.NetIsLivePoints` | backend/src/event_api/activity_service.py:264-763 | In every consistent database a participation's rows sum to its one current-cycle award when it is CONFIRMED and AWARDED, and to zero otherwise; the sum is non-zero exactly in that state |
| `ActivityInvariant.OldAwardsReversedOnce` | backend/src/event_api/activity_service.py:454-540 | No award is ahead of the current cycle, a cycle has at most one award, and every award that does not stand has exactly one reversal, its exact negation |
| `ActivityInvariant.DraftsHaveNoRows` | backend/src/event_api/activity_service.py:543-655 | A draft has no ledger rows |
| `ActivityInvariant.OpenedAward` | backend/src/event_api/activity_service.py:543-655 | Confirming an unconfirmed participation opens a new cycle worth exactly what the engine gives, keeps the invariant and touches only that registration's row and ledger |
| `ActivityInvariant.ReclassifiedAward` | backend/src/event_api/activity_service.py:698-763 | Reclassifying a confirmed participation reverses the old award and opens a new cycle worth exactly what the engine gives for the new role and result |
| `ActivityInvariant.ConfirmKeepsInv` | backend/src/event_api/activity_service.py:543-655 | A confirmation keeps the invariant, ends CONFIRMED, is local to its registration, and does nothing when already confirmed; which role, result, number and points the row ends with is `ActivityLaws.ConfirmAnswered` |
| `ActivityLaws.ConfirmAnswered` | backend/src/event_api/activity_service.py:543-655 | A confirmation is refused by the first failing check, does nothing when confirmed already, and otherwise leaves a row with the requested role and result (the stored ones where none is requested), of the registration's person and event when new, in the next cycle, at the person's next or stored number, worth exactly what the rules of its season give that row; a failing rule or zero points refuse it |
| `ActivityLaws.UpdateAnswered` | backend/src/event_api/activity_service.py:698-763 | A correction is refused by the first failing check, changes the two fields alone of an unconfirmed row, and gives a confirmed one a new cycle worth exactly what the rules give the corrected row |
| `ActivityLaws.CancelAnswered` | backend/src/event_api/activity_service.py:658-695 | A cancellation changes the status alone, and the state of an awarded row, and leaves no points |
| `ActivityInvariant.CancelKeepsInv` | backend/src/event_api/activity_service.py:658-695 | A cancellation keeps the invariant, brings the net to zero, is local, and is idempotent |
| `ActivityInvariant.UpdateKeepsInv` | backend/src/event_api/activity_service.py:698-763 | An update keeps the invariant and the status, stores the patched role and result, and is local |
| `ActivityInvariant.AssignKeepsInv` | backend/src/event_api/routers/activity.py:1270-1330 | Assigning a draft role keeps the invariant and is local |
| `ActivityInvariant.AdjustKeepsInv` | backend/src/event_api/routers/activity.py:1443-1470 | A manual adjustment keeps the invariant, moves the person's total by its points once per request identifier and no participation's net; repeating it at once changes nothing |
| `ActivityInvariant.LocalChangeKeepsOthers` | backend/src/event_api/activity_service.py:543-763 | A local operation leaves every other participation's row and net unchanged |
| `ActivityTables.ActivityStore.MergeConflicts` | backend/src/event_api/person_merge.py:59-123 | The five self-joins, searched row by row, find exactly the conflicts; a clean report means that the plain merge of two different people keeps every invariant |
| `ActivityTables.ActivityStore.ApplyPersonMerge` | backend/src/event_api/person_merge.py:261-311 | The UPDATE statements, executed row by row in their order, leave the merged tables: no participation's net changes, the target's total is the sum of both and the source's is zero |
| `ActivityTables.ActivityStore.ApplyOrderedPersonMerge` | backend/src/event_api/person_merge.py:180-258 | The loops that reverse, clear, merge, renumber and re-award leave exactly the tables, or the error, of the specification |
| `ActivityTables.ActivityStore.MergePerson` | backend/src/event_api/routers/participants.py:277-320 | The merge request picks the plain or the ordered merge, or refuses, as specified |
| `MergeLaws.MergeIsExact` | backend/src/event_api/routers/participants.py:277-320 | A merge is accepted if and only if the two are different current KAIT students of the tenant, never both actively registered or both confirmed at one event, without overlapping memberships or statuses of a type, and either share no number and send no order, or share one and send an order that is accepted |
| `MergeLaws.OrderIsExact` | backend/src/event_api/person_merge.py:180-258 | An order is accepted if and only if at most 5000 participations are confirmed or numbered, the version quotes each as it is now, the order lists each once, and every confirmed v2 one is worth something other than zero and no error at its new position |
| `MergeLaws.MergeRefused` | backend/src/event_api/routers/participants.py:277-320 | A refused request is told the first reason that applies |
| `MergeLaws.AcceptedMergeHandsOver` | backend/src/event_api/routers/participants.py:277-320 | Every accepted merge, plain or ordered, is between two different current students, changes nothing but owner, number and award bookkeeping of a participation, and leaves the target at most one confirmed participation an event if both had |
| `PersonMergeProofs.PlainMergeKeepsInv` | backend/src/event_api/person_merge.py:261-325 | A plain merge without conflicts keeps the invariant, including unique sequences |
| `PersonMergeProofs.PlainMergePoints` | backend/src/event_api/person_merge.py:261-325 | A plain merge gives the target exactly the two old totals, the source zero, nobody else anything, and leaves every participation's net |
| `PersonMergeProofs.OrderedMergeCorrect` | backend/src/event_api/person_merge.py:180-258 | A successful ordered merge lists exactly the confirmed or numbered participations of both people; they end on the target with sequences 1..n in the submitted order; recalculated ones are worth the engine at the new position in a new cycle; every other net and everybody else is untouched; the ledger only grows; the invariant holds |
| `PersonMergeProofs.AcceptedOrderValid` | backend/src/event_api/person_merge.py:180-215 | An accepted order is a permutation of the numbered participations, and the version check saw the current rows |
| `PersonMergeProofs.ConflictsAreExact` | backend/src/event_api/person_merge.py:59-123 | An active-registration, confirmed-participation or sequence conflict is reported exactly when the plain merge would break the uniqueness it protects |
| `PersonMergeProofs.SourceLeftEmpty` | backend/src/event_api/person_merge.py:261-325 | After a merge nothing refers to the source, its aliases point at the target, and the roster keeps everybody |
| `ActivityRuns.MergeKeepsInv` | backend/src/event_api/routers/participants.py:277-320 | Every accepted merge request keeps the invariant |
| `ActivityRuns.AcceptedMergeAppliesOnce` | backend/src/event_api/person_merge.py:93-113 | After any accepted merge request, ordered or plain, the target has at most one membership in force on any date and each status type at most once, if both people had |
| `ActivityTables.ActivityStore.PrepareReview` | backend/src/event_api/event_review.py:25-90 | The snapshot loop leaves exactly the prepared sheet, or the error, of the specification |
| `ActivityRuns.PrepareKeepsInv` | backend/src/event_api/event_review.py:25-90 | Preparing keeps the invariant and every earlier decision, and gives every active registration a row |
| `ReviewLaws.PrepareAnswered` | backend/src/event_api/event_review.py:25-90 | Completing a reviewed event is refused without a default role, for an unknown event, or above 5000 registrations; otherwise exactly the active registrations without a row get one, with the scanner's mark, the participation's role and result or the default, and the registration's own link |
| `ReviewLaws.DecisionAnswered` | backend/src/event_api/event_review.py:317-434 | A decision is refused by the first failing check, and otherwise saves exactly its fields, the current scanner mark and the match state that follows, and changes no other row |
| `EventReviewProofs.UnlinkedStudentBlocks` | backend/src/event_api/event_review.py:527-529 | A present student without a link blocks the whole approval, whatever its match state says |
| `ActivityTables.ActivityStore.ApproveStudent` | backend/src/event_api/event_review.py:530-589 | Linking, reclassifying and confirming one student follows the specification |
| `ActivityTables.ActivityStore.ApproveRow` | backend/src/event_api/event_review.py:501-589 | One row of the loop follows the specification and counts present, absent and awarded |
| `ActivityTables.ActivityStore.ApproveReview` | backend/src/event_api/event_review.py:437-597 | The approval over the sheet as it was first read leaves exactly the specified tables or error, and returns the specified counters |
| `ReviewLaws.ApprovalChecked` | backend/src/event_api/event_review.py:437-497 | Before its first row an approval is stopped if and only if the event is not completed and pending, a re-approval is not by a super administrator, scoring is not set up, an active registration has no row, a scanner mark is not the one the row was decided on, or a student's match is open; then it walks exactly the active registrations by id |
| `ReviewLaws.ApprovalSound` | backend/src/event_api/event_review.py:437-597 | All that was true of the tables of every successful approval; it leaves a row that was present, a KAIT student and not rejected confirmed, awarded as decided and on the linked student, and every other one without points |
| `ReviewLaws.ApprovalLinks` | backend/src/event_api/event_review.py:530-560 | An approval relinks exactly the scored registrations of somebody else, as MATCHED, and no other |
| `ReviewLaws.ApprovalWithdraws` | backend/src/event_api/event_review.py:501-526 | It cancels exactly the confirmed participations of the rows not to score, and leaves their drafts alone |
| `ReviewLaws.CountsAreSizes` | backend/src/event_api/event_review.py:501-597 | The counters are the numbers of rows, of present, of absent and of scored ones |
| `EventReviewProofs.SheetIsComplete` | backend/src/event_api/event_review.py:468-497 | A sheet that passes the checks has exactly one row for each active registration of the event |
| `EventReviewProofs.ApprovalCorrect` | backend/src/event_api/event_review.py:437-597 | A successful approval keeps the invariant, and every active registration ends as decided: scored with the reviewed role and result on the linked student, or unconfirmed with net zero |
| `EventReviewProofs.ApprovalTouchesOnlyTheSheet` | backend/src/event_api/event_review.py:437-597 | Registrations outside the sheet keep net, participation and link; the ledger only grows |
| `EventReviewProofs.ApprovedIffEligible` | backend/src/event_api/event_review.py:501-589 | After approval a registration is confirmed and awarded as reviewed if and only if it was present, a KAIT student and not rejected |
| `EventReviewProofs.ReapprovalChangesNothing` | backend/src/event_api/event_review.py:437-597 | Setting an approved review back to pending and approving it again with the same decisions gives back exactly the same tables |
| `PreviewRuns.EveryPreviewIsAwarded` | backend/src/event_api/event_review.py:217-314 | After every run, whatever the scoring rules were and are, a READY preview due an award is exactly what a successful approval writes: person, points, position and award row |
| `PreviewLaws.PreviewAnswered` | backend/src/event_api/event_review.py:217-314 | A preview is refused by the first failing check, is NO_SCORE exactly for a row not to score, BLOCKED by the first obstacle the tables show (a link conflict exactly when another active registration of the event belongs to the roster student), and otherwise quotes the rules at the student's number |
| `PreviewLaws.ReadyIsApprovable` | backend/src/event_api/event_review.py:217-314 | On the same tables an approval would go through with a MATCHED row due points to its roster student if and only if its preview is READY with points other than zero, role and result are active, and a numbered participation belongs to the registration's person |
| `PreviewRuns.EveryApprovalCreditsRosterStudent` | backend/src/event_api/event_review.py:530-589 | After every run, in an event scored by review from the start, the points of every eligible row go to the roster student it names |
| `ReviewLinks.NoReviewMeetsLockedIdentity` | backend/src/event_api/event_review.py:530-552 | After every run, in an event scored by review from the start, no approval and no preview finds a numbered participation of another student than the linked one: the check made when a decision is saved is enough |
| `ReviewLinks.ServiceRulesFailOnTheirOwn` | backend/src/event_api/scoring_v2.py:142-267 | The scoring rules of the service meet the one assumption of that result: they never fail with the identity error |
| `PreviewRuns.EveryRunAttributed` | backend/src/event_api/routers/activity.py:1347-1411 | Over every run, under scoring rules that change at every step, what stands in an event scored by review was numbered and awarded there, and a participation belongs to its registration's person except where an approval linked one that was cancelled before its event came to be scored by review |
| `PreviewRuns.AttributedSheetIsSafe` | backend/src/event_api/event_review.py:530-589 | On such tables no row of a sheet disturbs the numbering a READY preview relied on |
| `PreviewProofs.PreviewExact` | backend/src/event_api/event_review.py:217-314 | On any consistent tables, whatever else is on the sheet, a READY preview that is credited to its roster student and due an award is what approval writes if and only if the number computed row by row from the tables before the approval is the previewed one |
| `PreviewProofs.AwardPredicted` | backend/src/event_api/event_review.py:501-589 | The approval of a due row awards exactly the sequence computed from the tables before it (the stored one, or one more than the tally the earlier rows leave) and the engine's points at that sequence |
| `PreviewProofs.RowTallied` | backend/src/event_api/event_review.py:501-589 | Deciding one row moves another student's history count and largest number exactly as read off the tables before it: a first award counts and takes a number, an unscored confirmation withdrawn stops counting, anything else changes neither |
| `PreviewProofs.RosterStudentsDiffer` | backend/src/event_api/event_review.py:530-560 | A successful approval never credits one roster student through two registrations of the event |
| `PreviewProofs.ApprovalCredits` | backend/src/event_api/event_review.py:530-589 | On any consistent tables the points go to the roster student if and only if the participation was absent, already theirs, or a draft of a registration linked to somebody else |
| `PreviewProofs.CancelledStaysBehind` | backend/src/event_api/event_review.py:556-560 | The points of a cancelled participation whose registration is linked to somebody else go to the person it had |
| `ActivityRuns.OperationKeepsInv` | backend/src/event_api/activity_service.py:264-763 | Every operation of the activity, merge, review and registration tables keeps the invariant |
| `ActivityRuns.EveryRunKeepsInv` | backend/src/event_api/activity_service.py:264-763 | Over every run, under any changing scoring rules, the invariant holds, sequences stay unique per person, and each participation's rows sum to its standing award |
| `ActivityRuns.TotalsAfterEveryRun` | backend/src/event_api/activity_service.py:264-763 | From an empty installation, after any run a person's total is the standing awards of the participations they own plus their adjustments |
| `ActivityRuns.EveryRunGrows` | backend/src/event_api/activity_service.py:454-540 | No run edits a ledger row except its owner, drops one, turns a cycle back, or returns anything to DRAFT |
| `ActivityRuns.RepeatedAdjustment` | backend/src/event_api/routers/activity.py:1432-1495 | After any further history one row serves an adjustment request, and sending it again changes nothing: it is accepted exactly while that row is still the person's, and refused as reused after a merge took it |
| `ActivityRuns.AliasesFlatAfterEveryRun` | backend/src/event_api/person_merge.py:301-311 | After every run an alias is one hop from a person who is no alias |
| `ActivityRuns.PersonsChange` | backend/src/event_api/person_merge.py:26-56 | Only a merge of two different current people, or a new person, changes who is an alias of whom |
| `ActivityTables.ActivityStore.Execute` | backend/src/event_api/routers/activity.py:1270-1411 | One request is refused by its handler, commits what its operation gives, or restores the tables; consistent tables stay consistent |
| `PersonLaws.RowsFollowOwner` | backend/src/event_api/person_merge.py:261-325 | Every ledger row about a participation belongs to the participation's person |
| `PersonLaws.TotalIsStandingAwards` | backend/src/event_api/activity_service.py:454-540 | A person's total is the sum of the standing awards of their participations plus adjustments |
| `PersonLaws.AliasesStayFlat` | backend/src/event_api/person_merge.py:301-311 | After any history of merges the one-hop lookup leads where the whole history leads |
| `PersonLaws.MergedMembershipsApplyOnce` | backend/src/event_api/person_merge.py:93-101 | A merge without a membership conflict leaves at most one membership in force on any date |
| `PersonLaws.MembershipClashIsExact` | backend/src/event_api/person_merge.py:93-101 | Two memberships with proper periods clash exactly when some day is in both, whatever their organizations |
| `PersonLaws.MergedStatusesMultiplyOnce` | backend/src/event_api/person_merge.py:102-113 | A merge without a status conflict leaves each status type in force at most once on any date |
| `PersonLaws.ClashIsExactUpToRetirement` | backend/src/event_api/person_merge.py:102-113 | Two clashing statuses of one type really multiply together on some date exactly when neither is retired on the later start |
| `PersonLaws.MultipliersCountedOnce` | backend/src/event_api/scoring_v2.py:193-208 | Then the calculation multiplies by each applying status type exactly once |
| `PersonLaws.LookupUnambiguous` | backend/src/event_api/activity_service.py:227-262 | With at most one membership in force the membership lookup is never ambiguous |
| `OfflineDatabase.ScannerDatabase.QueueAttendance` | apps/scanner/src/offline-database.ts:196-224 | A scan is stored as PENDING with its estimated time, and nothing else changes |
| `OfflineDatabase.ScannerDatabase.UpdatePendingStatus` | apps/scanner/src/offline-database.ts:459-468 | The blind status update changes stored rows only and never re-creates a deleted one |
| `OfflineDatabase.ScannerDatabase.ApplySyncResults` | apps/scanner/src/offline-database.ts:361-398 | Results are applied one by one: confirmed scans deleted and their cached attendance updated, others rejected |
| `ScannerLaws.ResultsAppliedExactly` | apps/scanner/src/offline-database.ts:361-398 | Whatever results repeat, exactly the stored scans that some result calls ACCEPTED, ALREADY_PROCESSED or ALREADY_ATTENDED are deleted, any other scan mentioned is rejected for the last reason, and the rest are as they were |
| `OfflineDatabase.ScannerDatabase.AcknowledgeRejectedHandoff` | apps/scanner/src/offline-database.ts:330-351 | The scan is deleted exactly when it is still the rejected record that was handed over |
| `ScannerLaws.HandoffExactly` | apps/scanner/src/offline-database.ts:330-351 | A handoff deletes a scan if and only if it is stored as rejected, for the reason quoted, with every field of the scan as quoted |
| `OfflineDatabase.ScannerDatabase.ReplaceBundle` | apps/scanner/src/offline-database.ts:95-164 | An accepted bundle replaces the event's cache; a bundle that fails its checks changes nothing |
| `ScannerLaws.BundleAnswered` | apps/scanner/src/offline-database.ts:95-164 | A bundle is installed if and only if its count and digest fit and the event's summary is given or known; other events keep everything |
| `OfflineDatabase.ScannerDatabase.ClearExpired` | apps/scanner/src/offline-database.ts:413-434 | Every expired event loses its bundle, cache and sync state, and no other |
| `OfflineDatabase.ScannerDatabase.BindOwner` | apps/scanner/src/offline-database.ts:252-295 | Uninterrupted, a change of owner is refused while any scan is stored, and otherwise clears the caches |
| `ScannerLaws.OwnerBoundExactly` | apps/scanner/src/offline-database.ts:252-295 | A sign-in is refused if and only if another owner's scans are stored; a first or changed owner finds the caches empty, the same one everything as it was |
| `OfflineDatabase.ScannerDatabase.FlushPending` | apps/scanner/src/scanner-service.ts:160-195 | The flush loop sends the snapshot batch by batch and has exactly the specified effect, results and error |
| `OfflineDatabase.RecordAttendance` | apps/scanner/src/scanner-service.ts:113-152 | The operator is told what the flush heard about the scan; the scan is gone exactly when an answered batch of this flush confirmed it, and without a shown result it is still stored if it was the youngest and answers name only what they were sent |
| `ScannerModel.SnapshotComplete` | apps/scanner/src/offline-database.ts:226-232 | The snapshot is exactly the event's scans that are not rejected, each once, in creation order |
| `ScannerModel.LookupIsFresh` | apps/scanner/src/offline-database.ts:413-434 | After clearing, an offline lookup answers only from a bundle that has not expired, and as before |
| `ScannerModel.BundleMirrored` | apps/scanner/src/offline-database.ts:95-175 | After an accepted bundle the index lookup agrees with a linear search of the bundle for every code |
| `ScannerModel.ResultsKeepMirror` | apps/scanner/src/offline-database.ts:361-398 | Applying server results keeps the cache equal to the bundle up to attendance times |
| `ScannerModel.LookupIsSearch` | apps/scanner/src/offline-database.ts:166-175 | The index lookup finds the registration a linear search of the mirrored bundle finds |
| `ScannerModel.AttendanceFromResults` | apps/scanner/src/offline-database.ts:361-398 | A cached attendance time changes only to that of a result confirming a stored scan of that registration, and stays when there is none |
| `CacheRuns.EveryRunCachesLastBundle` | apps/scanner/src/offline-database.ts:95-164 | Over any interleaving of answers, downloads, expiry, owner changes and logouts the cache of an event is the bundle accepted last and not cleared since, up to attendance times, with that bundle's version and expiry, or empty |
| `CacheRuns.EveryLookupFromLastBundle` | apps/scanner/src/offline-database.ts:166-175 | After any such interleaving a lookup finds what a linear search of that bundle finds, and nothing without one |
| `FlushModel.BatchesCover` | apps/scanner/src/scanner-service.ts:164-180 | Every record of the snapshot is sent exactly once, in order, in batches of 1 to 500 distinct identifiers |
| `FlushModel.FullAnswerSettlesAll` | apps/scanner/src/scanner-service.ts:160-195 | If the server answers every scan it is sent, nothing of the snapshot is left to send |
| `FlushModel.AnsweredStaysSettled` | apps/scanner/src/scanner-service.ts:160-195 | What an answered batch settled stays settled through the rest of the flush |
| `FlushModel.FailureKeepsRest` | apps/scanner/src/scanner-service.ts:185-193 | When a request fails, what is left of its batch is PENDING again, and scans of later batches are exactly as they were unless an earlier answer mentioned them |
| `FlushModel.FlushDeletesExactly` | apps/scanner/src/scanner-service.ts:160-195 | A flush, failed or not, deletes exactly the stored scans that one of its answers confirmed |
| `FlushModel.UnansweredStaysStored` | apps/scanner/src/scanner-service.ts:113-152 | If the scan is the youngest of the queue and answers name only scans of their own batch, an operator who is not shown a result may rely on the scan being stored |
| `FlushModel.QueuedThoughConfirmed` | apps/scanner/src/scanner-service.ts:113-152 | For every backlog of more than one batch, a scan that sorts first is reported QUEUED although the first batch confirmed and deleted it, when the second batch fails |
| `ScannerProtocol.EveryScanAccountedFor` | apps/scanner/src/offline-database.ts:330-398 | Under every interleaving each scan ever queued is stored unchanged or left because the server has this scan, a handoff quoted its stored record and the refusal the server really gave, somebody logged out, or an owner change cleared it after its check |
| `ScannerProtocol.DeletedScansStayDeleted` | apps/scanner/src/offline-database.ts:459-468 | A deleted scan never reappears, whatever late answers and resets follow |
| `ScannerProtocol.OnlyClearingLoses` | apps/scanner/src/offline-database.ts:330-398 | Apart from logouts and owner changes no step removes a scan without a confirmation or a matching handoff |
| `ScannerProtocol.TakeoverLosesLateScans` | apps/scanner/src/offline-database.ts:252-295 | An owner change loses exactly the scans queued after its check that are still stored, and none if and only if there are none |
| `ScannerProtocol.LateScanIsLost` | apps/scanner/src/offline-database.ts:252-295 | A concrete interleaving in which a scan queued between check and clearing is lost |
| `ScannerProtocol.FlushIsRun` | apps/scanner/src/scanner-service.ts:160-195 | An undisturbed flush of the database object, started after any interleaving and whatever fails, is a run of the many-step protocol, so all laws of interleavings hold of it |
| `Migrations.Migrator.ApplyOne` | backend/src/event_api/migrate.py:101-140 | One file is resumed from its recorded count and cut off after any number of committed units |
| `Migrations.Migrator.ApplyMigrations` | backend/src/event_api/migrate.py:53-71 | The file loop performs exactly the specified units, however early it is cut off |
| `Migrations.EveryHistoryTracked` | backend/src/event_api/migrate.py:101-140 | For any crashes and restarts each file's statements take effect in order with only immediate repeats, at most one beyond the recorded count |
| `Migrations.EarlierFilesFinished` | backend/src/event_api/migrate.py:53-71 | While a file is being worked on every earlier one is finished and unmodified |
| `Migrations.HistoryResumable` | backend/src/event_api/migrate.py:101-140 | After any crashed runs over a list that may grow at its end, if each statement really torn fails or changes nothing when repeated there, the schema is the clean run up to the counts, or one uncounted implicit-commit statement further, and no later file has started |
| `Migrations.FinalSchemaIsClean` | backend/src/event_api/migrate.py:53-140 | Under that condition on the statements really torn, a finished history leaves the schema of one undisturbed run over the final list |
| `Migrations.NothingTornIsSafe` | backend/src/event_api/migrate.py:101-140 | A history in which no attempt was cut off in an implicit-commit statement meets the condition, whatever else its files contain |
| `Migrations.CrashAndResumeExactly` | backend/src/event_api/migrate.py:101-140 | After any history a run cut off in an implicit-commit statement and resumed ends where an undisturbed run does, is stuck uncounted, or counts the statement over a wrong schema: exactly when repeating the statement there changes nothing, fails, or does neither |
| `NamedLocks.LockServer.AcquireLockKeys` | backend/src/event_api/registration_service.py:127-145 | Either every key is taken, or the lock table is exactly as it was |
| `NamedLocks.LockServer.ReleasePersonLocks` | backend/src/event_api/registration_service.py:154-156 | Keys are released in reverse order, one count each |
| `NamedLocks.ReleaseAllUndoesGrantAll` | backend/src/event_api/registration_service.py:127-156 | Releasing what was granted restores the lock table exactly, including keys already held |
| `NamedLocks.NoDeadlock` | backend/src/event_api/registration_service.py:100-145 | Over every interleaving of sessions that take ascending keys, sessions never wait for each other in a circle |
| `NamedLocks.SomebodyProceeds` | backend/src/event_api/registration_service.py:100-156 | While anybody waits, some session can take its next key, finish or release |
| `RegistrationTables.RegistrationDesk.Submit` | backend/src/event_api/registration_service.py:443-660 | The registration transaction has exactly the specified outcome or leaves the tables as they were, and keeps the limits |
| `RegistrationTables.RegistrationDesk.FindOrCreatePerson` | backend/src/event_api/registration_service.py:191-233 | The loop over the matching rows follows the specification; the person found or created is no alias, aliases stay one hop deep, and nobody else's data changes |
| `RegistrationLaws.LookupAnswered` | backend/src/event_api/registration_service.py:191-233 | The lookup returns the one current identity behind all rows of the tenant with the same name and a shared contact or birth date, refreshed only on request and when no alias was among them; otherwise a new person, marked for review exactly when several were recognised |
| `RegistrationLaws.PersonAnswered` | backend/src/event_api/registration_service.py:236-261 | A form is for the only current roster student with its name and group, and otherwise for whoever the lookup finds |
| `RegistrationLaws.LocksFitLookup` | backend/src/event_api/registration_service.py:100-124 | Two forms take no common named lock if and only if they differ in tenant or name or share no contact or birth date, which is when the lookup would not recognise the one as the other |
| `RegistrationTables.RegistrationDesk.CreateRegistration` | backend/src/event_api/registration_service.py:264-325 | Counting row by row, a registration is created only if a seat was free or overbooking was asked for and the event stays within 5000, adds exactly itself, and otherwise nothing changes |
| `RegistrationLaws.AdmissionAnswered` | backend/src/event_api/registration_service.py:264-325 | A new registration is refused exactly for a missing seat without overbooking, for 5000 active ones, or for a taken identifier, and otherwise written as the form says |
| `RegistrationLaws.FormAnswered` | backend/src/event_api/registration_service.py:443-660 | A form is refused by the first failing check, answered from its earlier submission, or registered for the person it is for, whose data a public form refreshes only when the roster proposes nobody |
| `RegistrationService.EveryRunWithinLimits` | backend/src/event_api/routers/streams.py:104-139 | Over every run of submissions, imports, withdrawals, relinks, merges and capacity changes an event has at most 5000 active registrations; registrations without a stream exceed the event's capacity then in force, and those of a stream its capacity, only by overbooked seats; a person has at most one active registration an event |
| `RegistrationService.ReplayChangesNothing` | backend/src/event_api/registration_service.py:494-528 | A request that succeeded once, submitted again after any run, changes nothing and answers with its registration while that is active |
| `RegistrationService.FormsReachPrimaries` | backend/src/event_api/registration_service.py:199-233 | A form always lands on a primary identity, never on an alias |
| `SharedIdentities.FormsReachPrimariesAfterEveryRun` | backend/src/event_api/registration_service.py:199-233 | Whatever merges and other operations came before, a form lands on a current identity |
| `RegistrationService.AliasDataOverwritesExactly` | backend/src/event_api/registration_service.py:589-590 | A form recognised through an alias changes the primary exactly when it is a new public registration without roster proposals |
| `MailQueue.Deliveries.Claim` | backend/src/event_api/email_worker.py:168-207 | A claim takes the oldest due or abandoned delivery and counts the attempt; without one nothing changes |
| `MailQueue.Deliveries.Finish` | backend/src/event_api/email_worker.py:316-402 | The outcome is written from the attempts of the claim, whatever the row says |
| `MailQueue.Deliveries.ProcessOnce` | backend/src/event_api/email_worker.py:316-402 | One iteration is a claim and an outcome of the many-worker machine |
| `EmailWorker.DelaysGrow` | backend/src/event_api/email_worker.py:360-366 | Retry delays never shrink and lie between 60 and 3600 seconds |
| `EmailWorker.DelayDoubles` | backend/src/event_api/email_worker.py:360-366 | The first delay is 60 seconds and each further one twice the last, up to an hour |
| `EmailWorker.EveryTimelyRunLeased` | backend/src/event_api/email_worker.py:168-207 | While outcomes are written within the lease a delivery has at most one live holder, and its attempts count its claims |
| `EmailWorker.OutcomesAreFinal` | backend/src/event_api/email_worker.py:316-402 | SENT, FAILED and CANCELLED are final in every timely run |
| `EmailWorker.LateOverwritesExactly` | backend/src/event_api/email_worker.py:367-394 | After a timely history a step changes a final status exactly when it is the outcome of a worker whose lease has run out, for a delivery that is already final with another status |
| `EmailWorker.LateOutcomeUndoesSent` | backend/src/event_api/email_worker.py:367-394 | Such an outcome exists: a late one puts a sent delivery back in the queue |
| `EmailWorker.FailsAfterExactlyMax` | backend/src/event_api/email_worker.py:353-366 | With prompt workers a delivery is claimed at most the maximum number of times, and a FAILED one exactly that often |
| `EmailWorker.ClaimExceedsMaxExactly` | backend/src/event_api/email_worker.py:168-207 | After any timely history a claim takes a delivery beyond its maximum exactly when it picks up one abandoned in its last allowed attempt |
| `EmailWorker.AlwaysFailing` | backend/src/event_api/email_worker.py:353-366 | A delivery that always fails is queued again after each earlier round and FAILED after the last allowed one |
| `EmailWorker.CrashExceedsMax` | backend/src/event_api/email_worker.py:168-207 | Such a claim exists: after a crash a delivery is claimed more often than the maximum |

## Left out

- Migrations.FinalSchemaIsClean: the list may grow by later names only; a file added under an earlier name after later ones have started is executed late, as the code does. It does not say that an unsafe tear always leaves another schema in the end, only that it does when resumed (`CrashAndResumeExactly`).
- The capacity of an event with streams, which the code derives from theirs, is not a limit of its own; nor are the 100 streams and the 5000 combined seats an event may have.
- EmailWorker.EveryTimelyRunLeased: assumes outcomes are written within the ten-minute lease, since the updates have no status guard.
- The season and the reason of an adjustment, which a repeated request must match too.
- Surrogate ids: a participation is named by its registration, which the schema makes unique.
- Timestamps other than attendance, leases and schedules, including `updated_at` in the merge order version; audit and outbox rows; message texts; calculation snapshots beyond the amounts.
- The membership id stored on an award; only its lookup is modelled.
- DECIMAL(12,4) overflow of a stored amount and the 28-digit context of Decimal; arithmetic is exact.
- SHA-256 and HMAC: stand for what they cover.
- Profiles and staff accounts that a merge relabels; the merge preview's counts.
- Row locks and isolation: each transaction is one step; the locks that justify it are not modelled, except the named locks.
- The scheduler that opens due reviews, and the routers' access checks.
- Fuzzy roster proposals.
- Offline search, the QR scanner and all screens.
- IndexedDB writes that the browser itself refuses; such a failure is a failed request.
- Splitting a migration file into statements, and the bootstrap of the tracking table; the legacy marker it leaves is modelled.
- The texts of lock keys: keys are numbers in the order of the texts.
- Custom answers, consent and display fields of a registration; stream selection.
- SMTP, message texts, and the decision whether a message is still wanted.
