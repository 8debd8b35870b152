# Verification model of the event-management backend

A Dafny 4.11 model of the backend's own protocols and algorithms, with proofs of
what they promise. `dafny verify dfyconfig.toml` checks all of it. Nothing is
executed.

## What is modelled

The database is explicit state. A transaction, a row lock with the writes made
under it, or one conditional update is one atomic step; steps of different
requests interleave freely, attempts fail part-way, leases run out, and reads
made before a lock may be stale when the write lands. Code that changes rows or
builds lists step by step is a method over a class or a loop, proved against a
function; the properties are proved of that function over whole runs. Each rule
is also said of its inputs and outputs alone, by what is let by, what it leaves in
every field, and which refusal comes first, and proved to be what the code comes to.

| files | component |
|---|---|
| `RetentionDates`, `RetentionTables`, `RetentionProtocol`, `RetentionSafety`, `RetentionPurge`, `RetentionCompletion`, `RetentionCountdown`, `RetentionLeases`, `RetentionDue`, `RetentionService` | deleting archived events' media: reminder, claim, lease, batches, finish, and the countdown shown |
| `ListPlan`, `ListApply`, `DayRelabel`, `FullUpdateRules`, `FullUpdate`, `FullUpdateFields`, `FullUpdateChanges`, `ItemDays`, `FullUpdateAgain` | the full event update: plan a request against what is stored, write it, plan it again |
| `ReminderRows`, `ReminderRuns`, `ReminderService` | reminders: conditional claim, send, grouped release |
| `RollingWindow`, `SendLimits` | 2,000 emails and 5 announcements in any 24 hours |
| `GuestRows`, `GuestWrites`, `Registration`, `RegistrationAnswers`, `GuestRuns`, `GuestOutcomes`, `GuestService` | public registration, seats, guest ceilings and unique emails |
| `GuestContacts`, `ImportRows`, `ImportChecks`, `GuestImport`, `ImportResults` | checking an import file and importing it again |
| `Consent`, `FeedbackSave` | the append-only permission log, its fold, and saving a diff to it |
| `ArchivePacking`, `UriEncoding`, `Csv`, `FeedbackExport` | greedy packing of downloads; the CSV export against section 2 of RFC 4180 |
| `PassPlans`, `EventPass`, `PassPayments` | Event Pass purchases, ledger and entitlement |
| `TenantSlug`, `SlugSearch` | organisation addresses |
| `SuggestionCache` | the address search's cache |
| `Prelude`, `Text` | options and results, time, trimming, digits |

## What turned out not to hold

Each has a lemma at a concrete run or input that shows it, and a theorem that
says exactly when the property holds.

- A completed purge may leave an item uploaded in the very millisecond it began
  (`RetentionPurge.SameInstantUploadEscapes`). An attempt's read rules that out
  exactly when it comes later than the start
  (`RetentionCompletion.ReadCoversExactly`).
- An overlapping attempt that fails later clears `completedAt`
  (`RetentionPurge.CompletionCanBeUndone`). Completion stands exactly when no
  attempt is still open (`RetentionCompletion.CompletionStandsExactly`).
- The countdown steps back by the delay between a sweep's clock and its
  reminder's write (`RetentionCountdown.LateReminderStepsBack`), and only when
  there is one (`ReminderMovesTheDate`).
- A new ticket type asked for as unavailable is created available, so the same
  request has something to do again (`FullUpdateRules.UnavailableRowHasMoreToDo`);
  only such a row has (`SameTicketAgain`).
- A save that moves a label onto a day already archived fails as a whole
  (`DayRelabel.ArchivedLabelRefused`); it fails exactly when a label it sets is
  one such a day, or one archived by the same save, holds
  (`SaveFailsExactlyOnAClash`).
- Two reminders can go out with stamps an hour apart
  (`ReminderRuns.StaleReadAndLateStamp`): one request's stale read makes its
  release give back a mark older than a reminder that was sent, and another
  request's stamp waits long for its write. What leaves an invite open to this
  is exactly a release of its own mark whose request read an older one than some
  other standing claim's (`ReleaseKeepsMarkExactly`, `CoversThroughoutExactly`,
  `NextClaimIsADayApartExactly`); stamping at the write, or reading afresh, is
  enough on its own to rule it out.
- When sending fails, the registration answer tells apart a listed guest whose
  every invite is archived (`Registration.ArchivedInviteIsTold`), and no other
  (`FailedSendTellsArchivedInvites`).
- A guest archived while their own restore is under way is restored without the
  ceiling being counted (`GuestRuns.StaleRestoreOverfills`,
  `RestoreKeepsCeilingExactly`), and a stored email with blanks around it can be
  restored beside its trimmed twin (`PaddedEmailRestored`,
  `RestoreKeepsUniqueExactly`).
- Two upgrades of one pass started together overpay and can lower the tier
  (`PassPayments.OverlappingUpgradesOverpay`, `ConfirmKeepsPaidExactly`), and a
  reconciliation may answer paid for a purchase failed meanwhile
  (`EventPass.FailedIsAnsweredPaid`, `ReconcileAnswersExactly`).
- A numbered candidate address can be the first one again
  (`TenantSlug.CandidateRepeatsBaseExactly`), so 999 organisations can be enough
  to refuse one (`SlugSearch.NineHundredNinetyNineAreEnough`,
  `RefusedExactlyWhenAllHeld`).
- A cached key stored again by a second waiting lookup keeps its old place
  (`SuggestionCache.TwoWaitingLookups`, `SetKeepsOrderExactly`).

## Model

| member | source | states |
|---|---|---|
| `RetentionSafety.EveryRunIsSafe` | src/modules/media-retention/media-retention.repository.ts:74-144 | Over every run of archives, restores, uploads, reminders, due queries, claims and purge attempts, in any order: one purge and one reminder per event and archiving; a purge starts only in the archiving it names; a retention purge comes at least 30 days into it and either a week after its reminder or with nothing to download |
| `RetentionSafety.RestorePreventsPurge` | src/modules/event/event.repository.ts:280-290 | A purge that starts after a restore belongs to an archiving made at or after that restore |
| `RetentionSafety.StepKeepsClaimInv` | src/modules/media-retention/media-retention.repository.ts:88-144 | Every step keeps what ties rows, open due reads and the log together, so a due query that has gone stale can only find its archiving still due or another one |
| `RetentionSafety.ClaimPurgeKeeps` | src/modules/media-retention/media-retention.repository.ts:121-144 | The claim under the row lock adds a safe start to the history, from a due read made earlier or a super admin |
| `RetentionSafety.ClaimReminderKeeps` | src/modules/media-retention/media-retention.repository.ts:70-80 | The reminder claim keeps one reminder per archiving, never earlier than 23 days into it |
| `RetentionPurge.EveryRunKeepsPurgeInv` | src/modules/media-retention/media-retention.service.ts:159-222 | Over every run, with attempts failing, crashing and overlapping: items marked, deletions sent, attempts and counts stay accounted for |
| `RetentionPurge.CompletedMeansPurged` | src/modules/media-retention/media-retention.service.ts:211-217 | A completed purge has purged every item created at or before its start, save one created at that very instant when every attempt that finished clean read its items at that instant; RetentionCompletion.ReadCoversExactly says exactly which reads leave room for one |
| `RetentionPurge.SameInstantUploadEscapes` | src/modules/media-retention/media-retention.repository.ts:176-181 | That exception happens: a run in which a photo uploaded in the millisecond of the start is left by a completed purge |
| `RetentionPurge.MarkedItemsWereInScope` | src/modules/media-retention/media-retention.repository.ts:176-190 | A purge marks only items of its event that existed when it began, and a file in the folder only once Cloudinary says it is gone |
| `RetentionPurge.SentBatchesAreInFolder` | src/modules/media-retention/media-retention.service.ts:175-185 | Every deletion sent is 1 to 100 items of one type, all of that purge and in the event's own folder |
| `RetentionPurge.PurgedCountIsExact` | src/modules/media-retention/media-retention.repository.ts:194-204 | Once every attempt on a purge has reported, purgedCount is exactly the rows it marked, however many attempts overlapped |
| `RetentionPurge.CompletionCanBeUndone` | src/modules/media-retention/media-retention.repository.ts:194-204 | A second attempt that overlapped and then failed clears the completedAt the first one set |
| `RetentionCompletion.CompletionStandsExactly` | src/modules/media-retention/media-retention.repository.ts:194-204 | completedAt stays set, whatever happens next, exactly when no attempt on that purge is still leased or working |
| `RetentionCompletion.ReadCoversExactly` | src/modules/media-retention/media-retention.repository.ts:176-181 | In any reachable state where an attempt reads its items: its clean finish leaves every item of the purge purged in every continuation exactly when the clock is past the instant the purge began |
| `RetentionCompletion.OneLaterReadCovers` | src/modules/media-retention/media-retention.service.ts:169-217 | One attempt that finished clean and read after the start is enough, however many others overlapped it |
| `RetentionLeases.GrantedExactly` | src/modules/media-retention/media-retention.repository.ts:159-165 | In every reachable state an attempt is let at a purge exactly when it is unfinished and either an attempt on it has reported since the last was let at it, or that was more than ten minutes ago |
| `RetentionLeases.LeasesAreApart` | src/modules/media-retention/media-retention.service.ts:163-163 | Over every run, two attempts are let at one purge more than ten minutes apart unless one on it finished or aborted in between |
| `RetentionDue.QueryListsExactly` | src/modules/media-retention/media-retention.repository.ts:88-112 | The due query lists exactly the events archived 30 days, not purged since, and either reminded a week ago or with nothing to download |
| `RetentionDue.SweepClaimsExactly` | src/modules/media-retention/media-retention.service.ts:225-260 | From any state, a sweep's query and claim begin an event's purge exactly when it is due, and write exactly that row |
| `RetentionDue.SweepClaimsFromTheEmailedDate` | src/modules/event/event-media-retention.util.ts:26-30 | A reminded event with media is purged from the very instant its email gives, and never before |
| `RetentionDue.SuperAdminClaimsExactly` | src/modules/media-retention/media-retention.repository.ts:121-144 | A super admin begins a purge exactly when the event is archived and none was begun for that archiving |
| `RetentionDue.SweepRemindsExactly` | src/modules/media-retention/media-retention.service.ts:126-138 | A reminder is claimed exactly once, from 23 days after the archiving, while there is media and no purge |
| `RetentionProtocol.ChunkSizes` | src/modules/media-retention/media-retention.service.ts:98-102 | chunk cuts slices of 1 to size items, every one but the last full; its own contract puts them back together |
| `RetentionService.RunPurge` | src/modules/media-retention/media-retention.service.ts:159-222 | One run: none exactly when the purge is missing or completed, or its lease runs to now or later. Else every batch of the query's rows is sent once, in order, images before videos; failed are exactly the items whose own batch's answer does not confirm them, every other row and no other item is marked, and the purge's row records it |
| `RetentionService.PurgeBatches` | src/modules/media-retention/media-retention.service.ts:182-197 | The batch loop: the requests sent are exactly the type's chunks of at most 100, once each and in order; an item fails exactly when the answer to its own batch does not confirm it, and exactly the others are marked and counted |
| `RetentionProtocol.AnswerDecides` | src/modules/media-retention/media-retention.service.ts:184-196 | Exactly the items whose files an answer says are gone are to be marked; the batch's others, or all of a batch with no answer, have failed |
| `RetentionService.PurgeBatch` | src/modules/media-retention/media-retention.service.ts:184-196 | One deletion, sent once: failed are exactly the items its answer does not confirm, marked and counted exactly the others |
| `RetentionService.WorkOff` | src/modules/media-retention/media-retention.service.ts:169-197 | Hidden rows are marked unsent; images and then videos are sent and split by their own answers; together every row is accounted for once |
| `RetentionTables.MediaRetentionRepository.ClaimPurgeOnce` | src/modules/media-retention/media-retention.repository.ts:121-144 | The claim's four outcomes and exactly the row it writes |
| `RetentionTables.MediaRetentionRepository.ClaimReminderOnce` | src/modules/media-retention/media-retention.repository.ts:74-80 | The reminder's insert, duplicates skipped |
| `RetentionTables.MediaRetentionRepository.TakeLeaseOf` | src/modules/media-retention/media-retention.repository.ts:159-165 | Taken exactly when completedAt is empty and leaseUntil is empty or before now; the row then shows the new lease and one attempt more |
| `RetentionTables.MediaRetentionRepository.MarkPurged` | src/modules/media-retention/media-retention.repository.ts:184-190 | Marks and counts only rows not purged yet |
| `RetentionTables.MediaRetentionRepository.Finish` | src/modules/media-retention/media-retention.repository.ts:194-204 | Adds to the count, sets the rest and releases the lease |
| `RetentionTables.MediaRetentionRepository.ArchiveEvent` | src/modules/event/event.repository.ts:272-278 | Starts the clock of the archiving |
| `RetentionTables.MediaRetentionRepository.ReactivateEvent` | src/modules/event/event.repository.ts:284-290 | Clears it |
| `RetentionDates.EmailedDateIsFirstDueInstant` | src/modules/event/event-media-retention.util.ts:26-30 | The date in the reminder is exactly the first instant both cutoffs of the due query hold |
| `RetentionDates.ShownExactly` | src/modules/event/event-media-retention.util.ts:70-101 | The date shown is the later of 30 days after the archiving and a week after the reminder, or after now while there is none; none while the purges are switched off |
| `RetentionCountdown.CountdownNeverGoesBack` | src/modules/event/event-media-retention.util.ts:70-101 | While an archiving keeps something to download, the date shown never decreases and is never later than the start of the purge that comes, when reminders are stamped with the instant they are written and no super admin purges the event |
| `RetentionCountdown.ShownBeforePurge` | src/modules/event/event-media-retention.util.ts:70-98 | The sweep's purge starts no earlier than the date shown until then |
| `RetentionCountdown.ReminderMovesTheDate` | src/modules/media-retention/media-retention.service.ts:136-138 | A reminder takes the date back by exactly the delay between its sweep's clock and its write, so it leaves the date alone exactly when there is none |
| `RetentionCountdown.LateReminderStepsBack` | src/modules/media-retention/media-retention.service.ts:136-138 | It happens: a run in which a reminder written an hour after its sweep's clock takes the date shown an hour back |
| `ListPlan.MatchSavedRows` | src/modules/event-full-update/event-full-update.service.ts:91-107 | Refuses exactly when a row repeats an earlier row's id or names no live row, and the first such row decides which |
| `ListPlan.PlanRows` | src/modules/event-full-update/event-full-update.service.ts:146-254 | The plan of one list: creates and updates for exactly the rows that differ from what is stored, archives for the rows left out; or the first id's refusal, or the first row's that its rules refuse |
| `ListApply.RowRepository.Apply` | src/modules/event-full-update/event-full-update.repository.ts:85-91 | The ordered writes come to exactly the plan, and touch no other row |
| `ListApply.ApplyingReachesTheRequest` | src/modules/event-full-update/event-full-update.repository.ts:85-126 | After the plan is written the live rows are the request's positions one to one, each with the values asked for, and every row left out is archived as it was |
| `ListApply.LeftOutIsArchived` | src/modules/event-full-update/event-full-update.service.ts:109-112 | A saved row the request leaves out ends archived with its values as they were |
| `ListApply.LiveIsAPosition` | src/modules/event-full-update/event-full-update.repository.ts:85-126 | No live row is anything but a position of the request |
| `ListApply.SecondPlanIsEmpty` | src/modules/event-full-update/event-full-update.service.ts:146-254 | Rules that leave each reached row as it is plan nothing for the same request with ids filled in |
| `FullUpdateRules.SameDayAgain` | src/modules/event-day/event-day-validation.util.ts:125-170 | A day's fields sent again to the day they made change nothing, on any later date |
| `FullUpdateRules.SameTicketAgain` | src/modules/event-full-update/event-full-update.service.ts:198-224 | A ticket type's fields sent again change nothing, exactly unless it was created from a row asking for it to be unavailable |
| `FullUpdateRules.UnavailableRowHasMoreToDo` | src/modules/event-full-update/event-full-update.service.ts:198-224 | Such a row: created available, and made unavailable when it is sent again |
| `FullUpdateRules.SameRsvpFieldAgain` | src/modules/event-full-update/event-full-update.service.ts:228-254 | A question's fields sent again change nothing |
| `FullUpdateRules.SameItemAgain` | src/modules/event-full-update/event-full-update.service.ts:258-337 | An item's fields sent again change nothing, its days filed under their saved ids |
| `FullUpdateRules.ItemFiledUnderItsDay` | src/modules/event-full-update/event-full-update.service.ts:258-337 | An item that names a position is filed under the id of the day at that position |
| `FullUpdate.FindDuplicateDayLabel` | src/modules/event-day/event-day-validation.util.ts:32-40 | The first label that repeats an earlier one, compared trimmed and lowercased; none exactly when all differ |
| `FullUpdate.SavingReachesTheRequest` | src/modules/event-full-update/event-full-update.repository.ts:56-138 | Writing the plan makes the event, its days, tickets, questions, program items, the program's title and visibility and the hub's opening what the request asked for, and leaves each part the request leaves out as it was |
| `FullUpdate.ProgramIsReached` | src/modules/event-full-update/event-full-update.service.ts:258-337 | A program is made or kept exactly when there is one or items are sent, titled and published as asked, where not asked as it was, and a new one untitled and published |
| `FullUpdateAgain.SavingAgainChangesNothing` | src/modules/event-full-update/event-full-update.service.ts:352-361 | The saved request sent again with its ids finds nothing to do, when it asks for no new ticket type to be unavailable |
| `FullUpdateAgain.UnavailableTicketIsChangedLater` | src/modules/event-full-update/event-full-update.service.ts:198-224 | When it does, the second save always finds something to do: the type was created available |
| `FullUpdateAgain.DaysSaveOrClash` | src/modules/event-full-update/event-full-update.repository.ts:60-81 | From request to rows: the days part is saved as asked, or fails exactly over a label an archived day holds |
| `FullUpdateAgain.ItemsLandOnTheirDays` | src/modules/event-full-update/event-full-update.repository.ts:82-126 | An item that names a position of the days, new or saved, ends filed under the saved id of the day at that position |
| `FullUpdateFields.EveryFieldIsAsAsked` | src/modules/event-full-update/event-full-update.repository.ts:56-138 | Once saved, every field of the event, and of each day, ticket type, question and program item, holds what the request gives, trimmed where it must be; and what was stored, or a new row's default, where it gives nothing |
| `FullUpdateFields.DayRefusedExactly` | src/modules/event-day/event-day-validation.util.ts:125-170 | A day is saved exactly when it has none of its nine faults, and otherwise refused for the first of them |
| `FullUpdateFields.VenueExactly` | src/modules/event-day/event-day-venue.util.ts:53-106 | A venue's name and address are kept or given and never blank, its coordinates both or neither and in range; an address that changes without them clears them |
| `FullUpdateFields.TicketExactly` | src/modules/ticket/ticket-validation.util.ts:38-54 | A ticket type is saved with every field as asked exactly when it has a name, a price of 0 or more and a quantity of 0 or more, and otherwise refused for the first it lacks |
| `FullUpdateFields.RsvpFieldExactly` | src/modules/rsvp-field/rsvp-field-validation.util.ts:31-50 | The same of a question: a label, an answer type, and choices that are a list |
| `FullUpdateFields.ItemRefusedExactly` | src/modules/event-full-update/event-full-update.service.ts:279-321 | An item is saved exactly when titled, timed, with a duration of 0 or more, on a day of the request where it must name one, and, when anything about it moved, starting within that day; otherwise refused for the first fault |
| `FullUpdateFields.ItemIsAsAsked` | src/modules/event-full-update/event-full-update.service.ts:279-321 | An item's fields, its position and its day are as asked or as they were |
| `FullUpdateFields.LabelsDiffer` | src/modules/event-full-update/event-full-update.service.ts:186-191 | After a save that sends days, no two live days have one label, case and blanks aside |
| `FullUpdateFields.ArchivedPartsAreRefused` | src/modules/event-full-update/event-full-update.service.ts:268-274 | No save changes an archived program or opens an archived Memory Hub |
| `ItemDays.ItemsKeepToTheirDays` | src/modules/event-full-update/event-full-update.service.ts:304-312 | After a save that sends items, each one under a live day starts within that day, unless its start, its day and the day's date are all as they were |
| `FullUpdateChanges.WritesExactlyWhatChanges` | src/modules/event-full-update/event-full-update.service.ts:352-361 | The write is made exactly when it would leave the event different from how it is stored |
| `DayRelabel.EveryIntermediateStateIsUnique` | src/modules/event-full-update/event-full-update.repository.ts:60-78 | Through any permutation, swap or cycle of labels, the (event, label) index holds after every single write |
| `DayRelabel.SaveFailsExactlyOnAClash` | src/modules/event-full-update/event-full-update.repository.ts:60-81 | The days part fails exactly when a changed or new label is one a day already archived, or archived by this save, holds; otherwise every planned row is written |
| `DayRelabel.ArchivedLabelRefused` | src/modules/event-full-update/event-full-update.repository.ts:60-81 | A plan like any other that does: a day relabelled as one already archived |
| `DayRelabel.RefusedExactlyOnADuplicate` | src/modules/event-full-update/event-full-update.repository.ts:49-52 | The index refuses a write exactly when labels would no longer be unique, archived rows counted |
| `DayRelabel.AcceptedWritesKeepLabelsUnique` | src/modules/event-full-update/event-full-update.repository.ts:60-78 | Any writes the index accepts leave labels unique after each |
| `DayRelabel.SwapNeedsPlaceholders` | src/modules/event-full-update/event-full-update.repository.ts:49-52 | Without the placeholders two days swapping labels are refused half-way |
| `DayRelabel.EventDayRepository.Apply` | src/modules/event-full-update/event-full-update.repository.ts:60-81 | Archives, placeholders, updates and creates in that order, rolled back whole on a refusal |
| `ReminderRuns.RemindersAreADayApart` | src/modules/invite/invite.repository.ts:89-123 | Over any interleaving of claims, sends, failures, releases and answers, two reminders that reached one invite's guest were claimed at least 24 hours apart, when each claim is written at the instant it is stamped with |
| `ReminderRuns.LateWritesAreADayApart` | src/modules/invite/invite-dispatch.service.ts:631-636 | The same however long a stamp waits for its write, while no request's read of the invite is stale when it claims |
| `ReminderRuns.StaleReadAndLateStamp` | src/modules/invite/invite-dispatch.service.ts:552-656 | A run that sends two reminders with stamps an hour apart: one request's read is stale, so its release uncovers a standing claim, and another's stamp is written late |
| `ReminderRuns.ReleaseUndoesOnlyItsOwn` | src/modules/invite/invite.repository.ts:109-123 | A release changes a row only from its own mark and only back to what its request read, never while another standing claim's mark is on it |
| `ReminderRuns.ReleaseKeepsMarkExactly` | src/modules/invite/invite.repository.ts:109-123 | While the mark is no older than any standing claim, a release keeps it so exactly when the mark is not its own or what its request read is no older than any other standing claim |
| `ReminderRuns.CoversThroughoutExactly` | src/modules/invite/invite.repository.ts:89-123 | Over a whole run the mark covers every standing claim at every moment exactly when every release is such a one |
| `ReminderRuns.NextClaimIsADayApartExactly` | src/modules/invite/invite.repository.ts:89-102 | While the invite can be reminded, every claim still to come, from any read and with any stamp, is a day from the standing ones exactly when the mark covers them |
| `ReminderRuns.SafeReleasesAreADayApart` | src/modules/invite/invite.repository.ts:89-123 | However stale reads are and however late stamps are written, reminders are a day apart over every run whose releases are such |
| `ReminderRuns.BulkClaimIsAStep` | src/modules/invite/invite.repository.ts:89-102 | The one conditional write over many invites is, for each of them, the step the run is made of |
| `ReminderRuns.BulkReleaseIsAStep` | src/modules/invite/invite.repository.ts:109-123 | So is the grouped release |
| `ReminderRows.InviteRepository.Claim` | src/modules/invite/invite.repository.ts:89-102 | Claims exactly the live, pending invites outside the cooldown |
| `ReminderRows.InviteRepository.Release` | src/modules/invite/invite.repository.ts:109-123 | One write per distinct previous value comes to each invite's own previous value |
| `ReminderRows.ReleaseEachRow` | src/modules/invite/invite.repository.ts:109-123 | Releasing one by one restores exactly the named rows still carrying this claim |
| `ReminderRows.RemindedExactlyWhenDue` | src/modules/invite/invite-reminder.util.ts:54-84 | A guest is reminded exactly when no live invite is answered, one was delivered, the last delivered hasn't expired, and none was reminded within 24 hours |
| `ReminderRows.ClassifiedExactly` | src/modules/invite/invite-reminder.util.ts:54-84 | Which of the five verdicts a guest gets, and the invite and the instant it names, said of the invites' own columns |
| `ReminderRows.RemindedByExactly` | src/modules/invite/invite-reminder.util.ts:54-84 | The invite a guest is reminded by: all pending, this one delivered last, not expired, and none reminded in 24 hours |
| `ReminderRows.NextEligibleIsExact` | src/modules/invite/invite-reminder.util.ts:78-81 | The next eligible instant reported is the first at which the cooldown is over |
| `ReminderService.RemindBulk` | src/modules/invite/invite-dispatch.service.ts:532-724 | totalSelected is everyone picked, or without a selection everyone sent an invitation who has answered none; sent and failed are the guests due whose invite was still open to the claim, reached and not; skipped is the rest; nobody due is refused with the same count. The rows end marked for exactly the guests reached, and as they were for everyone else |
| `ReminderService.CountOutcomes` | src/modules/invite/invite-dispatch.service.ts:637-712 | Each chosen invite is sent, failed or changed since, exactly one of them |
| `ReminderService.SelectedAreReported` | src/modules/invite/invite-dispatch.service.ts:570-605 | Everyone the request concerns is reminded or reported, and no one else |
| `ReminderService.TargetsAreDistinct` | src/modules/invite/invite-dispatch.service.ts:567-600 | No invite is chosen twice, so a release names each once |
| `ReminderService.ClaimThenRelease` | src/modules/invite/invite-dispatch.service.ts:632-676 | A claim and the release of the unreached leave exactly the reached marked |
| `ArchivePacking.PackArchiveParts` | src/modules/memory-hub/memory-hub-download.service.ts:90-113 | The loop computes the greedy packing |
| `ArchivePacking.PackedIsASplit` | src/modules/memory-hub/memory-hub-download.service.ts:90-113 | The parts put end to end are the items in order, and every part is allowed: within the three limits, or one item |
| `ArchivePacking.SplitExactly` | src/modules/memory-hub/memory-hub-download.service.ts:90-113 | A split is exactly allowed parts that concatenate to the items |
| `ArchivePacking.OversizeIsAlone` | src/modules/memory-hub/memory-hub-download.service.ts:90-113 | An item over a limit by itself is alone in its part |
| `ArchivePacking.NoPartIsEmpty` | src/modules/memory-hub/memory-hub-download.service.ts:90-113 | No part is empty |
| `ArchivePacking.PackingIsOptimal` | src/modules/memory-hub/memory-hub-download.service.ts:90-113 | No order-preserving split within the limits, oversize items alone, has fewer parts |
| `UriEncoding.UrlLengthExactly` | src/modules/memory-hub/memory-hub-download.service.ts:90-113 | The length packed by is the length of the URL the part gives, each public id encoded by encodeURIComponent |
| `UriEncoding.FitsExactly` | src/modules/memory-hub/memory-hub-download.service.ts:50-57 | A part fits exactly with at most 1,000 files, 95 MB and 12,000 characters |
| `UriEncoding.Utf8ReadsBack` | src/shared/cloudinary/cloudinary-archive.util.ts:40-41 | The bytes a character is escaped by are its UTF-8 and read back as it |
| `RollingWindow.EveryWindowIsWithinLimit` | src/modules/invite/event-email-limit.util.ts:59-73 | Whatever is attempted and however sends queue for the lock, no closed 24 hours exceed the limit |
| `RollingWindow.AcceptedExactly` | src/modules/invite/event-email-limit.util.ts:59-73 | In every history an attempt is accepted exactly when it and what was claimed in the 24 hours that end with it come to no more than the limit, and only it is added |
| `RollingWindow.OldestLeavesFirst` | src/modules/invite/event-email-claim.repository.ts:23-28 | Nothing leaves the window until 24 hours after its oldest row, and right after that the oldest has left |
| `SendLimits.EventEmailClaims.ClaimEventEmails` | src/modules/invite/event-email-limit.util.ts:59-73 | Refuses exactly when the window's total and this send pass 2,000, appends nothing then, and claims nothing for no emails |
| `SendLimits.EmailsNeverExceedTheLimit` | src/modules/invite/event-email-limit.util.ts:36-73 | In every reachable history each closed 24 hours hold at most 2,000 claimed emails |
| `SendLimits.EmailRoomComesBack` | src/modules/invite/event-email-limit.util.ts:59-73 | A full allowance refuses up to and including 24 hours after its oldest claim; after that at least that claim's emails go |
| `SendLimits.EventAnnouncements.Send` | src/modules/announcement/announcement.service.ts:386-404 | Sends exactly when the event isn't cancelled and fewer than five went in the window |
| `SendLimits.EventAnnouncements.Cancel` | src/modules/announcement/announcement.service.ts:444-466 | A cancellation is recorded without counting towards the limit |
| `SendLimits.SentExactly` | src/modules/announcement/announcement.service.ts:386-404 | An announcement goes out exactly when the event is not cancelled and fewer than five went out in the last 24 hours |
| `SendLimits.ToldExactly` | src/modules/announcement/announcement.service.ts:209-218 | What is shown: how many went out, how many are left of five, and with none left 24 hours after the oldest |
| `SendLimits.AnnouncementsNeverExceedTheLimit` | src/modules/announcement/announcement.repository.ts:55-72 | However sends and a cancellation race, each closed 24 hours hold at most five announcements, and none is sent once the event is cancelled |
| `SendLimits.NextAvailableIsExact` | src/modules/announcement/announcement.service.ts:209-218 | With none remaining a send is refused up to and including nextAvailableAt and accepted at any later instant if nothing else was sent |
| `Registration.DeadlineEndsOnItsDay` | src/modules/event/event-rsvp-deadline.util.ts:26-37 | A deadline ends on its own UTC day, no earlier than it says; a date alone at the day's last millisecond |
| `Registration.OpenOnlyUntilBothDates` | src/modules/event-public/registration-rules.util.ts:75-130 | Open exactly while published, a day open, not full and neither date ended; the RSVP deadline is blamed only when it ends strictly first |
| `Registration.RegistrationService.Submit` | src/modules/event-public/event-public.service.ts:290-396 | The locked read, check and write comes to the specified answer and rows |
| `RegistrationAnswers.RegisteredExactly` | src/modules/event-public/event-public.service.ts:290-396 | A registration changes the guest list exactly when no refusal applies and no live guest has the email; then exactly its party is added. A refused one names its first cause, listed or not; a listed one not refused says whether the link could be sent |
| `RegistrationAnswers.RefusedForFirstCause` | src/modules/event-public/event-public.service.ts:290-343 | The refusal is the first that applies of: status, domain, days, plus-ones, answers, the date that ends first, no open day, no room, not enough room; none exactly when none applies |
| `RegistrationAnswers.PartyRefusedExactly` | src/modules/event-public/registration-rules.util.ts:136-165 | A party is refused for want of any seat, or of enough of them |
| `Registration.AcceptedRegistrationFits` | src/modules/event-public/event-public.repository.ts:66-196 | An accepted registration raises registeredSeats and totalGuests by exactly the party and primaryGuests by one, and leaves cap, plan limit and ceiling respected |
| `Registration.AnswerDoesNotTellWhetherListed` | src/modules/event-public/event-public.service.ts:281-396 | Two guest lists alike in rules and seats but for the email being listed give the same refusal or the same answer whenever its email can be sent; the listed run changes nothing |
| `Registration.FailedSendTellsArchivedInvites` | src/modules/event-public/event-public.service.ts:246-268 | The one difference: when no email goes out, a listed guest whose every invite is archived is still told it was sent |
| `Registration.ArchivedInviteIsTold` | src/modules/event-public/event-public.service.ts:246-268 | A guest list and an email for which it shows |
| `GuestRows.PartyCounts` | src/modules/event-public/event-public.repository.ts:66-95 | Counted relationally over guests, hosts and invites, each added seat is one seat and no other's changes |
| `GuestWrites.PartyIsAdded` | src/modules/event-public/event-public.repository.ts:116-196 | After the registrant and plus-ones are written, the guest list holds exactly them and every row it held before |
| `GuestWrites.ArchivingFreesSeats` | src/modules/event-public/event-public.repository.ts:66-95 | A guest archived leaves every count, and their plus-ones no longer count as a registrant's |
| `GuestWrites.DecliningFreesASeat` | src/modules/event-public/event-public.repository.ts:66-95 | A registrant who declines lets their own seat go and no other |
| `GuestWrites.ArchivedInviteFreesASeat` | src/modules/event-public/event-public.repository.ts:66-95 | So does one whose invite is archived |
| `GuestRows.GuestTables.CreateRegistrant` | src/modules/event-public/event-public.repository.ts:116-196 | The registrant first, then each plus-one hosted by them |
| `GuestRuns.EmailsStayUnique` | src/modules/guest/guest.repository.ts:106-113 | Over any interleaving of registrations, additions, imports, restores, plus-ones, email changes and archives that starts with every stored email trimmed, archived guests' included, no two live guests share an email in normal form |
| `GuestRuns.CeilingHolds` | src/modules/guest/guest-ceiling.util.ts:27-46 | Nor are there ever more than 5,000 live guests, unless a guest is archived while their own restore is under way |
| `GuestRuns.RestoreKeepsCeilingExactly` | src/modules/guest/guest.service.ts:233-242 | A restore keeps the ceiling exactly unless its guest was live when read and archived by the write, the event is full, and the index lets the email by |
| `GuestRuns.StaleRestoreOverfills` | src/modules/guest/guest.service.ts:208-242 | The whole run to it: a restore looks at a live guest, the guest is archived, the event fills to 5,000, and the restore writes the 5,001st uncounted |
| `GuestRuns.RestoreKeepsUniqueExactly` | src/modules/guest/guest.service.ts:224-242 | A restore breaks uniqueness exactly when the limits admit it, a live guest has its email in normal form, and none has it by lowercasing alone, which is all the index compares |
| `GuestRuns.PaddedEmailRestored` | src/modules/guest/guest.service.ts:224-242 | The index lowercases without trimming, so a stored email with blanks around it is restored beside the same one without |
| `GuestRuns.UntrimmedEmailRestored` | src/modules/guest/guest.service.ts:224-242 | One such email |
| `GuestService.GuestServiceRows.Add` | src/modules/guest/guest.service.ts:123-133 | An addition, or an import's rows, all or none; the plan's limit and the ceiling before the index |
| `GuestService.GuestServiceRows.InsertAll` | src/modules/guest/guest.repository.ts:209-256 | The inserts, rolled back whole when the index refuses one |
| `GuestService.GuestServiceRows.Reactivate` | src/modules/guest/guest.service.ts:205-245 | The guest and every archived invite restored, or nothing |
| `GuestService.GuestServiceRows.ArchiveGuest` | src/modules/guest/guest.service.ts:190-203 | The guest and every live invite archived |
| `GuestOutcomes.AddedExactly` | src/modules/guest/guest.repository.ts:209-256 | Guests are added, each with a pending invite, exactly when the plan's limit and the ceiling leave room for all and no email, case aside, is a live guest's or repeated among them; otherwise nothing changes |
| `GuestOutcomes.RestoredExactly` | src/modules/guest/guest.service.ts:205-245 | A restore brings back the guest and every invite of theirs exactly when there is room, unless they were live when read, and no other live guest has the email, unless they are live when written |
| `GuestOutcomes.ArchivedExactly` | src/modules/guest/guest.service.ts:190-203 | Exactly the guest and their invites are archived |
| `GuestOutcomes.EmailChangedExactly` | src/modules/guest/guest.service.ts:141-188 | An email is changed exactly when no other live guest has it, case aside; one's own written differently is let by |
| `Consent.FoldConsentStates` | src/modules/consent/consent.service.ts:26-39 | The loop computes the fold |
| `Consent.FoldIsLatest` | src/modules/consent/consent.service.ts:26-39 | Each subject's state is its highest-numbered record's, a withdrawal keeping the latest grant before it; a subject has one exactly when it has a record |
| `Consent.FoldIgnoresOrder` | src/modules/consent/consent.service.ts:26-39 | The order records are read in does not matter |
| `Consent.KeysDiffer` | src/modules/consent/consent.service.ts:18-19 | Two subjects share a key only by being one subject, or none named |
| `Consent.KeyPrefix` | src/modules/feedback/feedback-photos.util.ts:38-43 | A key starts with a kind's prefix exactly when it is of that kind, and the rest of it is the photo |
| `FeedbackSave.ConsentLog.Save` | src/modules/feedback/feedback.service.ts:157-227 | Refused exactly when a newly selected photo isn't eligible, appending nothing; else appends exactly the changes wanted, each once |
| `FeedbackSave.PermissionsAreAsAsked` | src/modules/feedback/feedback.service.ts:173-178 | Each permission named is afterwards what was asked; one left out, or asked for as it was, keeps the very state it had |
| `FeedbackSave.SelectionIsAsAsked` | src/modules/feedback/feedback.service.ts:180-200 | A photo is selected afterwards exactly when asked for; one that stays in or out keeps its state |
| `FeedbackSave.GuestDecides` | src/modules/memory-hub/memory-hub.service.ts:745-765 | A guest's opt-in or withdrawal moves their own sharing of that photo as they say, and no other subject |
| `FeedbackSave.SelectedAreGranted` | src/modules/feedback/feedback-photos.util.ts:38-43 | The ids decoded from the keys are exactly the photos whose selection is granted |
| `FeedbackSave.GuestSharingIsUntouched` | src/modules/feedback/feedback.service.ts:157-227 | A guest's own opt-in is never touched by an organiser's save |
| `FeedbackSave.SavingAgainAppendsNothing` | src/modules/feedback/feedback.service.ts:157-227 | The same save repeated appends nothing |
| `FeedbackSave.WithdrawnAlwaysCarriesItsGrant` | src/modules/feedback/feedback.service.ts:157-227 | Over any saves and opt-ins each organiser's subject is granted and withdrawn in turn, a grant first, so a withdrawn state carries its grant |
| `Csv.QuotedExactly` | src/modules/feedback/feedback-export.util.ts:15-20 | A field is quoted exactly when it holds a comma, a quote or a line break |
| `Csv.FieldBack` | src/modules/feedback/feedback-export.util.ts:15-20 | A field printed and parsed by section 2 of RFC 4180 is itself, whatever follows it |
| `Csv.RecordBack` | src/modules/feedback/feedback-export.util.ts:64-64 | So is a record of any fields |
| `Csv.FileBack` | src/modules/feedback/feedback-export.util.ts:64-64 | So is a file of any records, line breaks inside quoted fields included |
| `FeedbackExport.FeedbackCsvReadsBack` | src/modules/feedback/feedback-export.util.ts:47-65 | After the byte order mark the file parses to the header and exactly every entry's cells, fourteen to a row |
| `FeedbackExport.EveryColumnIsItsOwn` | src/modules/feedback/feedback-export.util.ts:30-65 | Read back, the file is the fourteen headings and, under each, every entry's own value of that name |
| `FeedbackExport.DefusedExactly` | src/modules/feedback/feedback-export.util.ts:13-19 | An apostrophe is put before exactly the texts that start with a formula character; afterwards none does, and numbers are left alone |
| `FeedbackExport.ExportedAlikeExactly` | src/modules/feedback/feedback-export.util.ts:15-19 | Two texts export alike only when one is the other, a formula, with an apostrophe typed before it |
| `GuestContacts.FindDuplicateEmail` | src/modules/guest/guest-validation.util.ts:185-193 | The first contact whose email is the same in normal form, found exactly when there is one |
| `GuestContacts.ValidEmailLooksLikeOne` | src/modules/guest/guest-validation.util.ts:23-29 | Every text that is an email has an email's shape |
| `ImportRows.PassedRow` | src/modules/guest/guest-import.engine.ts:276-337 | A row that passes has exactly one contact and a day of the event; ImportChecks.RowExactly says which |
| `ImportChecks.RowExactly` | src/modules/guest/guest-import.engine.ts:276-363 | A row becomes exactly the guest typed: names trimmed or none, email in normal form or the phone's international form, the day it names or the only one, the plus-ones typed or 0. It passes exactly when it has no fault, and is otherwise refused for its first |
| `ImportChecks.ShapeExactly` | src/modules/guest/guest-validation.util.ts:23-29 | An @ makes a contact an email; a + or digit, then digits, blanks, hyphens and brackets with six digits or more, a phone |
| `ImportChecks.ValidEmailExactly` | src/shared/utils/email.util.ts:22-24 | An email is text, an @, and a domain with a dot inside it, without blanks or another @ |
| `ImportChecks.ShownAsTyped` | src/modules/guest/guest-import.engine.ts:277-279 | A failure shows the contact as typed, or that there was none |
| `ImportRows.PlusOnesReadBack` | src/modules/guest/guest-import.engine.ts:329-337 | A whole number in digits is read as itself from 0 to 20 and refused above |
| `ImportRows.DayMapHolds` | src/modules/guest/guest-import.engine.ts:274-274 | The map of labels holds each label's last day, and only labels there are |
| `ImportRows.DayFoundExactly` | src/modules/guest/guest-import.engine.ts:311-327 | With labels apart, a named day is found exactly by its own label trimmed and lowercased, a blank exactly when there is one day |
| `GuestImport.ValidateImportRows` | src/modules/guest/guest-import.engine.ts:253-369 | The loop with its remembered emails and phones comes to the verdicts said without it |
| `GuestImport.TakeRows` | src/modules/guest/guest-import.engine.ts:276-366 | One row at a time, accepted rows and failures both in file order |
| `GuestImport.FindDuplicate` | src/modules/guest/guest-import.engine.ts:339-352 | The event's guests first, then the earlier rows taken; a shared phone names its row before an email would |
| `GuestImport.VerdictExactly` | src/modules/guest/guest-import.engine.ts:339-363 | A row that passes its own checks is refused when a guest of the event has its email, else when an earlier row that passes has its contact, naming the first, and is else taken |
| `GuestImport.FirstTwinIsTaken` | src/modules/guest/guest-import.engine.ts:346-352 | The first row with a contact no guest has is the one taken with it |
| `GuestImport.RowIdReadsBack` | src/modules/guest/guest-import.engine.ts:349-364 | The row number put in a remembered contact's id is the one the pattern reads back |
| `GuestImport.RowDigitsExactly` | src/modules/guest/guest-import.engine.ts:349-352 | The pattern matches exactly row- and digits, and captures the digits |
| `ImportResults.EveryRowOnceInOrder` | src/modules/guest/guest-import.engine.ts:276-368 | Every row is in exactly one of the two lists, and both keep the file's order |
| `ImportResults.TakenContactsAreNew` | src/modules/guest/guest-import.engine.ts:339-365 | Accepted emails are pairwise distinct in normal form and none is an existing guest's; accepted phones are pairwise distinct |
| `ImportResults.AlsoOnRowNamesATakenRow` | src/modules/guest/guest-import.engine.ts:346-352 | A duplicate within the file names the earlier row that was accepted with the same contact |
| `ImportResults.JudgedAgain` | src/modules/guest/guest-import.engine.ts:253-369 | Checked again with its guests in place, every email row that passes its own checks is a duplicate and every other row is judged as before |
| `ImportResults.SameFileAgain` | src/modules/guest/guest-import.engine.ts:253-369 | Importing a file, writing its guests and importing it again accepts exactly the phone rows accepted before |
| `EventPass.OnlyRaised` | src/modules/event-pass/event-pass.service.ts:126-140 | Refused exactly when an active pass is as high already; an active pass is raised for exactly the difference in price, more than nothing; anything else is bought whole |
| `EventPass.PaidAndFailedAreFinal` | src/modules/event-pass/event-pass.service.ts:300-339 | Whatever runs, a purchase keeps its event, tier and price, and once paid or failed stays so |
| `EventPass.PaidOnceAndGranted` | src/modules/event-pass/event-pass.service.ts:295-328 | However often webhooks and reconciliation repeat: a purchase has one receipt, for its own amount, exactly when it is paid; an event has a pass exactly when it has a paid purchase, at the tier paid for last |
| `EventPass.ReconcileAnswersExactly` | src/modules/event-pass/event-pass.service.ts:430-452 | A reconciliation's answer is the purchase's status exactly unless the purchase was settled while the provider was asked |
| `EventPass.FailedIsAnsweredPaid` | src/modules/event-pass/event-pass.service.ts:430-452 | It happens: a purchase failed while the provider is asked is answered paid |
| `EventPass.EventPassTables.ConfirmPassPurchaseWithinTransaction` | src/modules/event-pass/event-pass.service.ts:295-328 | Confirms exactly a pending purchase, with its three outcomes |
| `EventPass.EventPassTables.FailPassPurchaseWithinTransaction` | src/modules/event-pass/event-pass.service.ts:330-357 | Fails exactly a pending purchase |
| `EventPass.EventPassTables.ConfirmPurchase` | src/modules/event-pass/event-pass.repository.ts:64-79 | The purchase paid and the event's one pass made or raised in place |
| `EventPass.EventPassTables.MarkPurchaseFailed` | src/modules/event-pass/event-pass.repository.ts:53-54 | Fails the purchase only while it is pending |
| `EventPass.EventPassTables.PurchasePass` | src/modules/event-pass/event-pass.service.ts:115-196 | A checkout's writes in order, opened or not |
| `EventPass.EventPassTables.ReconcilePassPurchase` | src/modules/event-pass/event-pass.service.ts:430-452 | Acts only on the provider's own success |
| `PassPayments.PaidInFullWithoutOverlap` | src/modules/event-pass/event-pass-plans.config.ts:12-25 | When no purchase starts while another is pending, what was paid since the last fresh purchase is at every moment exactly the price of the tier held |
| `PassPayments.ConfirmKeepsPaidExactly` | src/modules/event-pass/event-pass.service.ts:300-305 | A confirmation leaves the event paid in full exactly when it is a fresh purchase or an upgrade from the tier the pass still has |
| `PassPayments.OverlappingUpgradesOverpay` | src/modules/event-pass/event-pass.service.ts:126-150 | Two upgrades started from one pass and both paid: R1,699 in all, and the pass taken back from LARGE to STANDARD |
| `PassPlans.ActiveExactlyUntil` | src/modules/event-pass/event-entitlement.util.ts:57-68 | A pass is active exactly until 30 days after the end of the event's last day, and for good with no days |
| `PassPlans.EntitlementIsTheGreater` | src/modules/event-pass/event-entitlement.util.ts:76-86 | An event is entitled to the greater of the account's tier and an active pass's, and a higher pass never to less |
| `PassPlans.EntitledExactly` | src/modules/event-pass/event-entitlement.util.ts:76-86 | Elevate exactly with an Elevate account or an active large pass; Spark exactly with a Spark account and no active pass; Celebrate otherwise |
| `PassPlans.HigherCostsMore` | src/modules/event-pass/event-pass-plans.config.ts:12-25 | The three prices, and a higher pass costs more |
| `TenantSlug.PatternExactly` | src/modules/auth/tenant-slug.util.ts:21-21 | The address pattern is: lowercase letters, numbers and hyphens, none at an end and no two together |
| `TenantSlug.BaseIsSlug` | src/modules/auth/tenant-slug.util.ts:34-50 | Whatever is typed or named, a base accepted matches the pattern within 60 characters; a typed one is kept or refused, never rewritten; a name always makes one |
| `TenantSlug.SlugMakesItself` | src/modules/auth/tenant-slug.util.ts:25-50 | A name that is already an address makes that address |
| `TenantSlug.SlugKeepsEveryLetter` | src/modules/auth/tenant-slug.util.ts:25-32 | A name's slug has exactly its letters and numbers, in order, as they are once lowercased and without accents |
| `TenantSlug.CandidateIsSlug` | src/modules/auth/tenant-slug.util.ts:54-58 | Every candidate matches the pattern and is at most 60 characters |
| `TenantSlug.NumberedCandidatesDiffer` | src/modules/auth/tenant-slug.util.ts:54-58 | No two numbered candidates are the same |
| `TenantSlug.CandidateRepeatsBaseExactly` | src/modules/auth/tenant-slug.util.ts:54-58 | A numbered candidate is the base over again exactly when the base is 59 or 60 characters and already ends in that number |
| `SlugSearch.FindFreeSlug` | src/modules/auth/auth.service.ts:61-69 | The lowest-numbered candidate not taken when its batch is looked up; refused exactly when all 1,000 are |
| `SlugSearch.RefusedExactlyWhenAllHeld` | src/modules/auth/auth.service.ts:61-69 | While addresses don't change, refused exactly when every candidate is held: at least 999 organisations, 1,000 unless the base is one of its own candidates |
| `SlugSearch.NineHundredNinetyNineAreEnough` | src/modules/auth/auth.service.ts:61-69 | A 59-character address ending in -2 is refused with 999 addresses held |
| `SlugSearch.CandidateCount` | src/modules/auth/tenant-slug.util.ts:54-58 | As many different addresses as candidates, one fewer for a base that repeats itself |
| `SuggestionCache.CacheStaysInOrder` | src/modules/geocoding/geocoding.service.ts:30-53 | Over any run of lookups, at most 500 keys, each once, least recently used first, each with what was last stored for it |
| `SuggestionCache.HitIsLastStored` | src/modules/geocoding/geocoding.service.ts:32-45 | A read gives what was last stored, exactly when the key is still held and was stored no more than five minutes ago |
| `SuggestionCache.LeastRecentlyUsedGoes` | src/modules/geocoding/geocoding.service.ts:47-53 | A key is pushed out only by storing a new one in a full cache, is the least recently used of all held, and at least 500 others were used since |
| `SuggestionCache.SetKeepsOrderExactly` | src/modules/geocoding/geocoding.service.ts:47-53 | Storing a key keeps the order of use exactly when, room made, it isn't there or is already the last |
| `SuggestionCache.TwoWaitingLookups` | src/modules/geocoding/geocoding.service.ts:47-53 | It happens: two lookups of one key miss together, and the second to store finds it there and leaves it first |
| `SuggestionCache.Suggestions.GetCached` | src/modules/geocoding/geocoding.service.ts:32-45 | A hit moves its key to the end; an expired key is dropped |
| `SuggestionCache.Suggestions.SetCached` | src/modules/geocoding/geocoding.service.ts:47-53 | Room made by dropping the first key, then the key set |
| `SuggestionCache.Suggestions.Autosuggest` | src/modules/geocoding/geocoding.service.ts:64-83 | Too short is refused with nothing touched; a hit is answered; a miss asks the provider and stores its answer, or fails and stores nothing |

## Left out

- External services (Cloudinary, Paystack, Resend, Twilio, HERE, Firebase) are parameters: any answer, partial answer or failure they can give.
- Routers, tenant and role gates, feature flags other than those that decide a modelled step, email and SMS texts, workbook parsing, timers and seeds are plumbing around the modelled rules.
- RetentionSafety.EveryRunIsSafe: an organiser's upload or moderation is one step with its check that the event is live, and a reminder's reads are one step; a write that outlives its check is not modelled.
- RetentionCountdown.CountdownNeverGoesBack: says nothing of an archiving that loses its last download before its purge, nor of a super admin's purge, which may start earlier than the date shown.
- RetentionService.RunPurge: one run alone; a database failure part-way through it is the protocol's abort step.
- The completion date an event view shows beside the countdown is read straight from the purge's row.
- ListPlan.PlanRows: a plan is made from rows read before the lock, as in the source; a save between the two is not modelled, so nothing is claimed about two saves at once.
- FullUpdate.SavingReachesTheRequest: the parts of the request are taken as parsed. Texts that are not dates or numbers, the event's own field validations, tier checks and the switched-off ticketing refusal come before planning and are left out; prices and coordinates are exact values.
- DayRelabel.EventDayRepository.Apply: the label a refusal names is the last one set before the refused write, as in the source, even where that day kept its label.
- ReminderRuns.RemindersAreADayApart: is about one invite; a guest with two live invites is held to the cooldown by the classification of all of them, proved for one request at a time.
- ReminderService.RemindBulk: which sends reached their guest, and whether the email limit allows the round, are parameters; refusing a picked guest who has no live invite, which comes before any classification, and the audit log are left out.
- RollingWindow.EveryWindowIsWithinLimit: the time written with a claim is the clock as read under the lock; a database clock ahead of or behind the server's is not modelled.
- Registration.RegistrationService.Submit: names, phone, answers, days and email-domain rules are one up-front refusal; the registration settings and the plan's limit are as read before the lock.
- Lowercasing is a function relied on only to be idempotent and to commute with trimming; Unicode case tables are not part of this model.
- GuestRuns.CeilingHolds: RSVP submission is an abstract step that adds plus-ones under the same lock and ceiling.
- GuestRuns.EmailsStayUnique: starts from stored emails that are all trimmed; older rows the email migration skipped are outside it, and RestoreKeepsUniqueExactly says what a restore of one does.
- GuestService.GuestServiceRows.Reactivate: the guest's invites are listed as they are at the write; in the source the list is read before the lock.
- Consent.FoldConsentStates: the sort by sequence number is an insertion sort; only its result matters.
- Csv.FileBack: any character but a comma, a quote or a line break counts as plain text, where RFC 4180 lists printable ASCII.
- FeedbackExport.FeedbackCsvReadsBack: dates are texts already cut to their day, and numbers are whole.
- ImportRows.PassedRow: the phone library is a parameter for each of the two ways it is asked; reading the file and its 2,000-row cap are left out.
- GuestImport.TakeRows: rows are given their own checks before the loop rather than inside it; no check depends on another row.
- EventPass.PaidOnceAndGranted: a confirmation's read and writes are one atomic step, so two confirmations of one purchase at the same instant are not modelled; SMS bundles follow the same code without a pass and are left out.
- EventPass.EventPassTables.PurchasePass: reading the pass and creating the purchase are one step there; the run-level theorems let the pass read be any earlier one.
- PassPlans.ActiveExactlyUntil: guest caps by pass tier are a table and left out.
- TenantSlug.BaseIsSlug: accent stripping and lowercasing of a name are any function; nothing but the characters that come out matters.
- SlugSearch.FindFreeSlug: the retry when another sign-up takes the address first is left out.
- SuggestionCache.CacheStaysInOrder: lookups one after another; two at once are covered by SetKeepsOrderExactly and TwoWaitingLookups alone.
- Memory Hub quotas, publishing, guest-sharing toggles, check-in and vendor features have no rule harder than the ones here.
