# Placement-event engine: a verified model

The repository reads a student's mail, recognises placement events in it (tests, interviews,
talks, registrations), and keeps one record per event with its history. This project models the
parts where a mistake would be silent, and proves what the design says of them, for every input
and over whole runs. `dafny verify dfyconfig.toml` checks everything.

## The parts

**Recognition and adjudication** (`Calendar`, `Identity`, `Spelling`, `Rounds`, `Events`,
`Recognition`, `StoreInvariant`, `Outcomes`, `Replay`, `Tenancy`, `ChangeTexts`, `History`,
`OrderIndependence`, `OrderInGeneral`, `OrderOfRuns`, `OrderFromNothing`, `OrderInputs`,
`Engine`). The two tables Event and EventUpdate, and one atomic step per email or human edit. An
observation passes a viability gate and a confidence gate, meets a three-tier matcher (exact key;
identity-gated ranking within three days; sole candidate within thirty), and is then created,
merged, rescheduled or rejected. `Events` defines the decision; `Engine.EventEngine` is the
services' loops and transactions, each method proved to carry that decision out; the other files
prove what the decision means. Recognition is exact; no run ever merges an observation into an
event it contradicts; human edits are final for automation; a replay changes nothing; owners do
not affect each other; history is an unbroken chain from creation to now, whose texts read back as
the values. What the small operations mean is said without naming them: which rounds contradict
(`Rounds`), what a canonical company, a round and a viable company are (`Spelling`), what a text
in the history stands for (`ChangeTexts`).

The README's claim that order does not matter (README.md:131) is false without a condition, in
three ways, each an input from the empty tables in `OrderInputs`: a statement that changes nothing
returns before the confidence is raised, so a confirmation is not counted; a stronger message that
is silent on a field shuts out a weaker one that would have filled it; and a row can be moved out
of the reach of a message, or into it, so that one order leaves one event and the other three.
When order does not matter is stated exactly: for two observations of any kind
(`SwapCommutesIff`), for any number of full statements (`OrderFreeIff`), and for any number of any
kind together with all their parts (`PartsHaveOneOutcomeIff`). Runs of the whole engine follow:
emails about an activity no row is about yet (`OneRowIff`, `HighestTrustWins`,
`PartsMakeOneRowIff`) and emails drawn to one row (`RunOrderIff`, `RunPartsFreeIff`,
`RunSwapIff`).

**Concurrent creation** (`CreateRace`). The lookup, insert and recovery read of any number of
executions, interleaved with any updates over a unique constraint. What one execution is promised
depends on its own owner and key alone: as long as nobody takes that key from the row that carries
it, all get the one row. An execution fails exactly when it was robbed: the key taken between its
refused insert and its recovery read, and not carried again in between.

**Attachments** (`Attachments`, `AttachmentProtocol`, `AttachmentRecovery`, `AttachmentDrain`,
`AttachmentPipeline`). A row in the database, a job in the queue under a deterministic id, workers
that may stop after any write, retries, stalls, queue loss and bounded sweeps.
`AttachmentPipeline.Pipeline` is the code; `AttachmentProtocol` interleaves its writes. Recovery
does not always finish: the sweep drops rows without a parser after it has bounded its query
(attachment.reconciler.ts:81-83), so such rows, and rows whose id a failed job keeps, fill the
batch for good. `RecoveryIff` says exactly which rows are recovered and by when: a round works on
a batch less the stuck rows in front. The comment at config.ts:160-162, that the bound costs
nothing in correctness, does not hold; `OneParserlessRowStarvesTheRest` is an input.

**Identity clean-up** (`CleanupPlan`, `CleanupOrder`, `CleanupRun`, `CleanupSoundness`,
`CleanupPostconditions`, `CleanupScript`, `CleanupDecisions`, `CleanupMeaning`, `CleanupWitness`).
The plan's checks, in terms of the rows they find, its statements under a non-deferrable unique
key, and the post-conditions; ids and sizes are parameters, of which the script's own are shown to
be an instance. The two last-write-wins maps are shown to be enough, any order of the statements
is safe, and the transaction commits exactly under two facts the plan does not check; `CanCommit`
gives tables on which it does, `AcceptedCanRollBack` tables whose accepted plan it does not.

**Ownership transfer** (`MailboxOwner`, `Transfer`, `TransferProof`, `TransferTheorem`,
`TransferScript`). Scoped updates over tables whose composite foreign keys cascade, and the checks
before COMMIT. No check ever fails from a consistent database and a complete plan. The transfer
can still abort in one way: the unique key on (owner, eventKey) refuses the move of events when
the operator's destination already holds one of the keys. `CommitsIff` states that as an
equivalence. The script's table list omits DocumentIntelligence; its rows move by cascade, and the
proof covers them.

**Mailbox cursor** (`Mailbox`, `MailboxFaith`, `MailboxCursor`, `MailboxSync`). Paginated listings
of a mailbox that grows between requests, the message loop, and a cursor written last. Pages say
what they like: which history id they report and where the listing ends is the provider's choice.
A run is safe exactly when it has no blind spot, a message below the new cursor that nobody
listed; with a faithful provider, whose ids do not pass what it paged, or in a full listing the
mailbox as it was when that began, no message is lost; `BlindSpotLosesMail` is a run that loses
one.

**Text normaliser** (`TextNormalizer`, `TextOutline`). Five rewriting passes, characterised: the
result is the one clean text with the same outline as the input.

Plain helpers: `Prelude`, `Ascii`.

## Model

| member | source | states |
|---|---|---|
| Calendar.IsoRoundTrip | backend/src/shared/utils/date.ts:9-13 | a text parses to a day exactly when it is that day's ISO spelling |
| Calendar.IsoInjective | backend/src/shared/utils/date.ts:15-19 | two days with one date key are the same day, so comparing keys compares days |
| Calendar.OrdinalInjective | backend/src/modules/matching/matching.utils.ts:72-78 | day numbers identify days, so a distance of zero means the same day |
| Calendar.DistanceIs | backend/src/modules/matching/matching.utils.ts:72-78 | distances are differences of the Gregorian day number, given in closed form with the leap rule |
| Calendar.ValidDateIs | backend/src/shared/utils/date.ts:9-13 | which dates are calendar days: months of 31, 30, and 28 or 29 days |
| Calendar.IsoIs | backend/src/shared/utils/date.ts:15-19 | a date key is year, month and day in decimal, four digits, two and two |
| Identity.KeyInjective | backend/src/modules/event/event.utils.ts:4-10 | keys of barless stages and dates are equal exactly when company, stage and date are, whatever the companies hold |
| Identity.CanonicalStageIsStage | backend/src/modules/extraction/extraction.utils.ts:57-83 | a round the model supplies enters only in the canonical vocabulary |
| Identity.CanonicalShape | backend/src/modules/extraction/extraction.utils.ts:125-128 | a canonical company is lower case, single-spaced and starts with no space |
| Identity.CanonicalFixedPoint | backend/src/modules/extraction/extraction.utils.ts:125-128 | canonicalising again changes nothing exactly when the result does not end in a period or a space |
| Identity.CanonicalNotIdempotent | backend/src/modules/extraction/extraction.utils.ts:125-128 | a company on which one pass is not enough |
| Identity.MergedStage | backend/src/modules/extraction/extraction.utils.ts:180-186 | whatever the model answers, the merged stage is in the vocabulary, so the merged extraction is well-formed exactly when its confidence is in [0,1] |
| Identity.MergedCompany | backend/src/modules/extraction/extraction.utils.ts:139-178 | the merged company is canonical, and one the patterns resolved does not depend on the model's answer |
| Spelling.CanonicalIs | backend/src/modules/extraction/extraction.utils.ts:125-128 | a canonical company is its words, one space between two, less one final period, in lower case |
| Spelling.CanonicalStageIs | backend/src/modules/extraction/extraction.utils.ts:57-83 | the model's answer names a round exactly when it says one of the four, case and outer blanks aside, and then that one |
| Spelling.ResolvedCompanyIs | backend/src/modules/extraction/extraction.utils.ts:139-178 | a company is a value exactly when, outer blanks aside, it has two characters and is neither the placeholder nor one of the twelve noise words |
| Spelling.MergedFields | backend/src/modules/extraction/extraction.utils.ts:130-200 | each field of a merged extraction, from the model or from the patterns |
| Rounds.RelationIs | backend/src/modules/matching/matching.utils.ts:23-47 | two rounds contradict exactly when neither is blank or the marker and they do not say the same, case and outer blanks aside |
| Rounds.StagesContradict | backend/src/modules/matching/matching.utils.ts:34-47 | in the vocabulary: exactly when both are stated and they differ |
| Recognition.BestIsWinner | backend/src/modules/matching/matching.service.ts:88-106 | the ranking ends on the earliest eligible candidate of the highest score, and on none only when none is eligible |
| Recognition.ThresholdMeaning | backend/src/modules/matching/matching.utils.ts:62-125 | a candidate reaches the threshold exactly on the same day, with an equal round label within three days, or a day off with both confidences at least 0.75 |
| Recognition.ScoreIs | backend/src/modules/matching/matching.utils.ts:62-125 | a score is half for the day, falling to 0.35 and 0.25, three tenths for the label, a fifth of the lesser confidence, and nothing beyond three days |
| Recognition.SoftTierExact | backend/src/modules/matching/matching.service.ts:52-126 | the soft tier fires exactly when some row of the owner and company within three days, whose round is silent, met by silence or the same, convinces; and returns the earliest of the highest rating |
| Recognition.LooseTierExact | backend/src/modules/matching/matching.service.ts:128-146 | the loose tier fires exactly when its window holds one candidate, which it returns |
| Recognition.MatchSound | backend/src/modules/matching/matching.service.ts:28-156 | whatever is matched is a row of the owner, matched for one of the three reasons |
| Recognition.MatchIff | backend/src/modules/matching/matching.service.ts:28-156 | the matcher's one answer: the first row of the key; else, when a candidate convinces, the leader; else the only row of company and round within thirty days; else none |
| StoreInvariant.GateUsable | backend/src/modules/email/email.service.ts:70-77 | what passes the viability gate has a vocabulary stage, a bounded confidence and the extraction's own key |
| StoreInvariant.OwnKeyMeaning | backend/src/modules/event/event.utils.ts:4-10 | an unconfirmed event has an observation's key exactly when company, stage and day agree |
| StoreInvariant.MatchCompatible | backend/src/modules/matching/matching.service.ts:37-146 | an unconfirmed match has the same owner and company, rounds that are equal or of which one is unknown, and a day within thirty |
| StoreInvariant.RunInv | backend/src/modules/event/event.service.ts:24-147 | on every run: unique ids, unique keys per owner, keys of unconfirmed events spell their own fields, confidence in [0,1], history of existing rows only |
| StoreInvariant.NoFalseMerge | backend/src/modules/matching/matching.service.ts:37-146 | an observation leaves an existing row as it was, or improves an unconfirmed one of the same owner and company, of an equal round or with one round unknown, within thirty days |
| StoreInvariant.EditIs | backend/src/modules/event/event.service.ts:272-296 | an edit confirms the owner's rows of that id with the company and round given, keeps all else, and touches nothing else |
| StoreInvariant.ConfirmedIsFrozen | backend/src/modules/event/event.service.ts:30-53 | only the owner's edit of that very row changes a confirmed event |
| StoreInvariant.RunGrows | backend/src/modules/event/event.service.ts:69-74 | over any run no row is lost or moved, confidence never falls, confirmed stays confirmed |
| Outcomes.LowTrustOnlyAdds | backend/src/modules/email/email.service.ts:81-98 | below the confidence gate nothing existing changes; the key has a row afterwards, and a new one waits for review with a reason |
| Outcomes.NothingGoesUnrecorded | backend/src/modules/email/email.service.ts:79-115 | after a usable observation its owner has an event that speaks of it |
| Outcomes.GateIs | backend/src/modules/email/email.service.ts:70-77 | which extractions pass the viability gate, and that they pass unchanged |
| Outcomes.AddedIff | backend/src/modules/email/email.service.ts:79-115 | a row is added exactly when none has the key and the message is below 0.6 or not recognised; and every field of that row, the reason for review included |
| Outcomes.RevisedIff | backend/src/modules/event/event.service.ts:49-102 | a row changes exactly when it is the one recognised, unconfirmed, differs in a field the message states, is trusted no more, and no other row holds its new key; a new day makes it rescheduled under that day's key, else status and key stay |
| Replay.RevisedRowIsMatched | backend/src/modules/email/email.service.ts:79-111 | after a committed update the same observation finds the updated row again, by whatever tier |
| Replay.ReplayIsHarmless | backend/src/modules/email/email.service.ts:70-115 | processing the same extraction twice leaves events and history as after the first time |
| Tenancy.MatchCommutes | backend/src/modules/matching/matching.service.ts:17-27 | recognition over all tenants' rows equals recognition over the owner's rows, the loose tier's count included |
| Tenancy.TenantsDoNotInterfere | backend/src/modules/matching/matching.service.ts:17-27 | in any interleaving an owner's events and history equal those of running that owner's steps alone |
| History.HistoryIsFaithful | backend/src/modules/event/event.service.ts:104-203 | along any run the rows an event gains tell how its values then became its values now: the first starts at the old value, each where the last ended, the last at the present value, texts read back as values; without rows the value is the same |
| History.WholeHistory | backend/src/modules/event/event.service.ts:104-203 | the whole history of a field tells how the value at creation became the present one |
| History.NoHistoryWithoutChange | backend/src/modules/event/event.service.ts:104-147 | a step that writes history has revised one row in the same act, and has written one row for each field changed, with both values, and none else |
| ChangeTexts.RecordIsRight | backend/src/modules/event/event.service.ts:104-203 | the rows of one revision: one per field that changed, of that event and owner, whose texts stand for the old and the new value |
| OrderIndependence.SwapCommutesIff | backend/src/modules/event/event.service.ts:55-102 | two observations of any kind, fields left out or not, commute on an event exactly when it is confirmed or they are not order-sensitive, a condition read off the two and the row |
| OrderIndependence.OrderFreeIff | README.md:131 | any number of full statements come to one belief in every order exactly when those trusted enough repeat what is believed, or the most trusted say one new thing no less trusted one of them says |
| OrderIndependence.JudgeOrderFreeIff | backend/src/modules/event/event.service.ts:30-102 | the same equivalence for the updates of any event, human confirmation included |
| OrderIndependence.UndisputedOutcome | README.md:131 | what it comes to then: the belief as it was, or that of the most trusted |
| OrderIndependence.DifferentIsUndisputed | README.md:131 | values and trusts that are pairwise different leave nothing to dispute |
| OrderInGeneral.HearTwoIff | backend/src/modules/event/event.service.ts:55-102 | two observations of any kind, the first two about an activity or later ones, exchange exactly when they are not order-sensitive there |
| OrderInGeneral.PartsHaveOneOutcomeIff | README.md:131 | any observations, silent on some fields or not: they and all their parts come to one belief each in every order exactly when no two are order-sensitive where others of them lead |
| OrderInGeneral.FromNothingIff | README.md:131 | full statements about an activity nobody has heard of come to one belief in every order exactly when the most trusted say one thing that no less trusted one says |
| OrderOfRuns.OnlyMatch | backend/src/modules/matching/matching.service.ts:28-156 | a row of the same company and round within the loose window is the match, by whichever tier, when no other row can be |
| OrderOfRuns.RunFollowsJudge | backend/src/modules/email/email.service.ts:70-115 | emails all drawn to one row are, through recognition and key checks, verdicts on that row in turn, and touch no other |
| OrderOfRuns.RunOrderIff | README.md:131 | full statements drawn to one row leave it with one day, time, venue, confidence and key in every order, and all others untouched, exactly when it is confirmed or they are undisputed |
| OrderOfRuns.RunPartsFreeIff | README.md:131 | emails of any kind drawn to one row: whatever part arrives leaves it the same in every order exactly when it is confirmed or no two are order-sensitive where others lead |
| OrderOfRuns.RunSwapIff | README.md:131 | two emails of any kind drawn to one row: their order shows exactly when they are order-sensitive and the row is not confirmed |
| OrderFromNothing.RunMakesRow | backend/src/modules/email/email.service.ts:70-115 | emails about an activity no row is about make one row, the first by creating it and the others by verdicts on it, and touch no other |
| OrderFromNothing.OneRowIff | README.md:131 | such emails, if full statements, make the same row in every order exactly when the most trusted say one thing that no less trusted one says |
| OrderFromNothing.HighestTrustWins | README.md:131 | then the row says what the most trusted say, at their trust, whatever the order |
| OrderFromNothing.PartsMakeOneRowIff | README.md:131 | such emails of any kind: whatever part arrives makes one and the same row in every order exactly when no two are order-sensitive where others lead, the start included |
| OrderInputs.ConfirmationIsNotCounted | backend/src/modules/event/event.service.ts:57-59 | three emails from the empty tables whose order decides the venue, because a repeated statement returns early |
| OrderInputs.SilenceIsOrderSensitive | backend/src/modules/event/event.service.ts:61-74 | three emails that contradict nothing, whose order decides whether the time is known |
| OrderInputs.DriftSplitsTheEvent | backend/src/modules/matching/matching.service.ts:128-146 | three emails of one company and round that leave one event in one order and three in another |
| Engine.PassesFuse | backend/src/modules/matching/matching.service.ts:67-106 | query, gate loop and ranking loop in separate passes pick the row one ranking of the table picks |
| Engine.EventEngine.ScoreEventMatch | backend/src/modules/matching/matching.utils.ts:62-125 | the accumulated score is the rating: day, label and lesser confidence in their weights |
| Engine.EventEngine.AdmitCandidates | backend/src/modules/matching/matching.service.ts:67-86 | the gate loop keeps exactly the candidates whose round is silent, met by silence or the same, in order |
| Engine.EventEngine.RankCandidates | backend/src/modules/matching/matching.service.ts:88-106 | the ranking loop ends on the ranked row and its score |
| Engine.EventEngine.MatchEventV2 | backend/src/modules/matching/matching.service.ts:28-156 | the matcher returns the one answer recognition has, tier by tier |
| Engine.EventEngine.DetectChanges | backend/src/modules/event/event.service.ts:149-203 | the changes of date, time and venue, in this order and each only where the message states another value, with texts that stand for both values; a reschedule exactly when the day differs |
| Engine.EventEngine.PrepareUpdate | backend/src/modules/event/event.service.ts:77-102 | the row an accepted update writes |
| Engine.EventEngine.RecordChanges | backend/src/modules/event/event.service.ts:104-125 | one history row for each change, in order |
| Engine.EventEngine.UpdateEventService | backend/src/modules/event/event.service.ts:24-147 | history and row change together or not at all; a conflict exactly when an accepted update's key is taken |
| Engine.EventEngine.CreateEventService | backend/src/modules/event/event.repository.ts:71-108 | the row of the key is returned, inserted only when the owner had none |
| Engine.EventEngine.UpdateEventManuallyService | backend/src/modules/event/event.service.ts:272-296 | answers whether the owner has a row of that id; that row alone changes: confirmed at full confidence, nothing left to review, the company and round given, its key, day, time and venue kept; history is untouched |
| Engine.EventEngine.ProcessEmail | backend/src/modules/email/email.service.ts:70-115 | one email does what the model's step does and keeps the invariant |
| CreateRace.RunInv | backend/src/modules/event/event.repository.ts:81-134 | whatever else happens, while no update takes a key from the row that carries it, keys are unique and every execution for that owner and key stands on a stored row |
| CreateRace.EveryoneGetsTheOneRow | backend/src/modules/event/event.repository.ts:81-134 | while nobody takes its key an execution does not fail, and all that finish for that owner and key return the one row; every other update of every tenant is allowed |
| CreateRace.OwnStatementProgresses | backend/src/modules/event/event.repository.ts:81-134 | an unfinished execution's own next statement brings it closer to its end, others' do not move it |
| CreateRace.StatementsAre | backend/src/modules/event/event.repository.ts:81-134 | what each statement does: lookup and recovery read return the row that carries the key, the insert is refused there and else adds the row it returns |
| CreateRace.TwoCreatorsMeet | backend/src/modules/event/event.repository.ts:81-134 | over any table without the key two executions may both miss it, and both end with the one row |
| CreateRace.FailsIff | backend/src/modules/event/event.repository.ts:118-133 | over any run an execution fails exactly when its key was taken between its refused insert and its recovery read and not carried again by then |
| Attachments.SweepIsExact | backend/src/modules/attachment/attachment.repository.ts:94-117 | a swept row is unsettled, not failed and parseable; such a row is swept unless a full batch precedes it |
| Attachments.StaleSound | backend/src/modules/attachment/attachment.repository.ts:94-117 | the bounded query returns matching rows in age order, and leaves one out only behind a full batch |
| Attachments.StaleIs | backend/src/modules/attachment/attachment.repository.ts:94-117 | the query returns, oldest first, the first rows older than the cutoff that are pending, processing, or completed without a parse outcome |
| Attachments.DownloadIsAnnounced | backend/src/modules/attachment/document-processing.service.ts:133 | before a download is tried the row is marked as processing and its error cleared |
| Attachments.UnlinkedIsRecorded | backend/src/modules/attachment/document-processing.service.ts:105-131 | a row whose email lacks its message id or account fails with that reason |
| Attachments.EndedIs | backend/src/modules/attachment/attachment.queue.ts:25-31 | a job is gone after an attempt that was not thrown, waits after the first and second that were, and is kept as failed after the third |
| AttachmentProtocol.BeginIs | backend/src/modules/attachment/document-processing.service.ts:150-160 | an execution will throw exactly when there is no row or its download fails |
| AttachmentProtocol.ArrivalIs | backend/prisma/schema.prisma:237-252 | a row arrives pending, with nothing stored, read or failed, behind those before it |
| AttachmentProtocol.QueueIs | backend/src/modules/attachment/attachment.queue.ts:19-34 | an enqueue adds a job unless one is kept under the id, and touches no row |
| AttachmentProtocol.ProgramIsSafe | backend/src/modules/attachment/document-processing.service.ts:76-163 | from any safe row every write of an execution leaves it safe and none meets a settled row |
| AttachmentProtocol.SettledIsFinal | backend/src/modules/attachment/document-processing.service.ts:83-96 | no step changes a settled row |
| AttachmentProtocol.EveryRunIsSafe | backend/src/modules/attachment/document-processing.service.ts:76-205 | on every run: completed has a stored path, outcomes only on completed rows, never success and failure both; what was settled at any point is untouched at the end |
| AttachmentProtocol.WholeExecutionFinishes | backend/src/modules/attachment/document-processing.service.ts:133-163 | an uninterrupted execution settles the row or fails it, the latter exactly when the download could not be tried or failed, and is thrown exactly when it failed |
| AttachmentProtocol.ResultIsRecorded | backend/src/modules/attachment/document-processing.service.ts:133-163 | what a whole execution records: path and time of the download, text or parse error, or the download's failure; nothing else changes |
| AttachmentProtocol.NoCrashHidesTheRow | backend/src/modules/attachment/attachment.repository.ts:63-78 | at every point of every run a parseable row is finished exactly when the recovery query does not select it |
| AttachmentRecovery.StepKeepsInHand | backend/src/modules/attachment/attachment.queue.ts:16-34 | a row whose job is kept or whose execution lives stays on its way to an end through any step but the loss of that job |
| AttachmentRecovery.RoundEffect | backend/src/modules/attachment/attachment.reconciler.ts:62-111 | a sweep and a full drain finish every row the sweep started a job for, and leave the others alone |
| AttachmentRecovery.RecoveryIff | backend/src/modules/attachment/attachment.reconciler.ts:62-111 | once the rounds, at a batch less the stuck rows before it each, make up for the recoverable rows up to it, an unfinished parseable row is finished exactly when no failed job keeps its id and fewer than a batch of stuck rows precede it; otherwise it is unchanged |
| AttachmentRecovery.StarvedForever | backend/src/modules/attachment/attachment.reconciler.ts:81-83 | a row behind a full batch of stuck rows, or itself stuck, never changes, however many rounds follow |
| AttachmentRecovery.OneParserlessRowStarvesTheRest | backend/src/shared/constants/config.ts:160-162 | with a batch of one, a parserless first row keeps the second pending for ever |
| AttachmentDrain.RoundExists | backend/src/modules/attachment/attachment.queue.ts:25-31 | from every rested state a next round exists, so the recovery results are not empty |
| AttachmentDrain.CutAnywhere | backend/src/modules/attachment/document-processing.service.ts:133-163 | an execution can be cut off after any of its writes: the row stays as they left it, the job waits again with its count or is kept as failed |
| AttachmentDrain.Attempt | backend/src/modules/attachment/attachment.queue.ts:19-34 | an attempt from beginning to end: a failed download leaves the job waiting, or kept as failed at the third; anything else removes it |
| AttachmentPipeline.Pipeline.UpdateMany | backend/src/modules/attachment/attachment.repository.ts:119-210 | a write reaches the row of that id and owner, or nothing and a count of zero |
| AttachmentPipeline.ScopedIs | backend/src/modules/attachment/attachment.repository.ts:119-210 | a scoped write changes the row of that id and owner and no other |
| AttachmentPipeline.Pipeline.ParseAndPersist | backend/src/modules/attachment/document-processing.service.ts:236-257 | exactly one outcome is recorded and nothing is thrown |
| AttachmentPipeline.Pipeline.Process | backend/src/modules/attachment/document-processing.service.ts:76-163 | the writes issued are the row's program, in order, all to that row; thrown exactly when the row is missing, or not settled, linked, and its download fails |
| AttachmentPipeline.Pipeline.EnqueueAttachmentProcessing | backend/src/modules/attachment/attachment.queue.ts:19-34 | at most one job per attachment; a kept job makes the call a no-op |
| AttachmentPipeline.Pipeline.GetStaleUnfinishedAttachments | backend/src/modules/attachment/attachment.repository.ts:94-117 | the loop returns the bounded query |
| AttachmentPipeline.Pipeline.ReconcileOrphanedAttachments | backend/src/modules/attachment/attachment.reconciler.ts:46-112 | no row is written, the queue gains exactly the sweep's jobs, and the count is theirs |
| CleanupOrder.LastWriteWinsIsEnough | backend/scripts/cleanup/event-identity-plan.ts:492-528 | under unique current keys the map check passes exactly when no rewrite claims a key another survivor holds now or finally |
| CleanupOrder.FinalKeysUniqueFollows | backend/scripts/cleanup/event-identity-plan.ts:530-543 | the aggregate check is implied by the per-row one |
| CleanupMeaning.PlanOkIs | backend/scripts/cleanup/event-identity-plan.ts:260-614 | a plan is accepted exactly when sizes, keys, inventoried rows, owners, the two collisions, exported history, deletions, room for the rewrites, exclusions and both venues are found as approved |
| CleanupMeaning.PostOkIs | backend/scripts/cleanup/event-identity-plan.ts:621-790 | what the last checks ask of any database, in terms of its rows and history |
| CleanupMeaning.FailsIff | backend/scripts/cleanup/cleanup-event-identity.ts:361-463 | a statement fails exactly on a missing row, or when it gives a row a key another row of the tenant holds |
| CleanupMeaning.CommittedIs | backend/scripts/cleanup/cleanup-event-identity.ts:361-463 | what a commit leaves: the approved rows gone, every other row cleared of its old company and key and of nothing else, the kept one with its venue, the merge recorded |
| CleanupDecisions.DecisionsAreConsistent | backend/scripts/cleanup/event-identity-plan.ts:64-142 | the decisions the script was written with satisfy the hypothesis of the clean-up results |
| CleanupRun.NobodyHolds | backend/scripts/cleanup/event-identity-plan.ts:481-491 | at the moment a rewrite runs, after any other rewrites, no other row holds its key |
| CleanupRun.DeletesInAnyOrder | backend/scripts/cleanup/cleanup-event-identity.ts:418-427 | deletions in any order, none twice, all succeed, and only their set matters |
| CleanupRun.RewritesInAnyOrder | backend/scripts/cleanup/cleanup-event-identity.ts:429-437 | rewrites in any order all succeed, and only their set matters |
| CleanupSoundness.OrderDoesNotMatter | backend/scripts/cleanup/cleanup-event-identity.ts:384-437 | for an accepted plan every permutation of the deletions and then of the rewrites runs without a refused statement and ends in the same database |
| CleanupPostconditions.OnlyExcludedRemain | backend/scripts/cleanup/event-identity-plan.ts:660-681 | the remaining non-canonical rows are the excluded ones exactly when every rewrite ends well |
| CleanupPostconditions.NobodyCollides | backend/scripts/cleanup/event-identity-plan.ts:695-705 | then no two rows share a canonical identity any more |
| CleanupPostconditions.PostIff | backend/scripts/cleanup/event-identity-plan.ts:621-790 | after an accepted plan all post-conditions hold exactly when the excluded rows hold their expected companies and every rewrite ends well |
| CleanupPostconditions.CommitsIff | backend/scripts/cleanup/cleanup-event-identity.ts:361-463 | the transaction commits the cleaned database exactly under the plan's checks and those two facts |
| CleanupWitness.CanCommit | backend/scripts/cleanup/cleanup-event-identity.ts:361-463 | for any two companies and any day, a table of their spellings on which the plan is accepted and the transaction commits |
| CleanupWitness.AcceptedCanRollBack | backend/scripts/cleanup/event-identity-plan.ts:621-790 | for any company, another spelling of it and a second company, a table whose plan is accepted and whose transaction rolls back |
| CleanupWitness.AcceptedAndCommitsIff | backend/scripts/cleanup/cleanup-event-identity.ts:361-463 | on every table of that shape the plan is accepted, and it commits exactly when the rewritten company comes out without a final period or space |
| CleanupScript.CanonicalCollisionGroups | backend/scripts/cleanup/event-identity-plan.ts:242-258 | one grouping pass yields every canonical identity of more than one row |
| CleanupScript.KeyHolders | backend/scripts/cleanup/event-identity-plan.ts:492-505 | the two maps as the loop fills them, later rows winning |
| CleanupScript.PlanDeletions | backend/scripts/cleanup/event-identity-plan.ts:410-457 | the deletions in order, and whether all are present with no unexpected history |
| CleanupScript.PlanCanonicalisations | backend/scripts/cleanup/event-identity-plan.ts:467-479 | the rewrites of the surviving, non-canonical, not excluded rows |
| CleanupScript.BuildPlan | backend/scripts/cleanup/event-identity-plan.ts:260-614 | accepted exactly when every check holds, with the three kinds of operation |
| CleanupScript.Cleanup.Apply | backend/scripts/cleanup/cleanup-event-identity.ts:360-463 | commits the cleaned database or leaves the old one, exactly as `CommitsIff` says |
| MailboxOwner.ResolutionIs | backend/scripts/migration/lib/mailbox-owner-resolver.ts:91-110 | mapped exactly on one candidate at the address, active and not deleted, and then to it alone; ambiguous on several and all reported; unmapped on none with everyone at the address reported |
| MailboxOwner.MappedIff | backend/scripts/migration/lib/mailbox-owner-resolver.ts:62-110 | a mailbox maps exactly when one candidate shares its address, case and outer blanks aside, is active and is not deleted |
| TransferProof.AccountMoves | backend/scripts/migration/claim-legacy-data.ts:480-513 | moving a mailbox's account carries its mail, extractions, attachments and intelligence, and nothing else |
| TransferProof.MailboxPass | backend/scripts/migration/claim-legacy-data.ts:762-778 | the other three statements of a pass find nothing left, and the pass's own check holds |
| TransferTheorem.MoveRefusedIff | backend/prisma/schema.prisma:154 | the unique key refuses the move of events exactly when the destination holds one of the placeholder's keys |
| TransferTheorem.RemainderMoves | backend/scripts/migration/claim-legacy-data.ts:528-570 | the operator pass reaches its state, or fails at the events and nowhere else |
| TransferTheorem.FinalReleased | backend/scripts/migration/claim-legacy-data.ts:586-620 | the placeholder ends owning nothing in the six tables checked and in the seventh |
| TransferTheorem.CommitsIff | backend/scripts/migration/claim-legacy-data.ts:753-820 | from a consistent database and a complete plan the transfer commits the final state unless an event key clashes, and then rolls back |
| TransferTheorem.DoesNotAlwaysCommit | backend/scripts/migration/claim-legacy-data.ts:559-563 | a consistent database and complete plan that roll back |
| TransferTheorem.MailboxesAreExact | backend/scripts/migration/claim-legacy-data.ts:486-491 | parked mailboxes end with their assigned owner, others untouched, none lost |
| TransferTheorem.MailIsExact | backend/scripts/migration/claim-legacy-data.ts:492-546 | mail ends with its mailbox's new owner, or the operator's choice when it has none |
| TransferTheorem.EventsAreExact | backend/scripts/migration/claim-legacy-data.ts:559-563 | the placeholder's events end with the operator's choice under the same keys |
| TransferTheorem.DescendantsFollow | backend/scripts/migration/claim-legacy-data.ts:705-744 | the final database is consistent, and children that were not the placeholder's keep their owner |
| TransferTheorem.CommittedIsChecked | backend/scripts/migration/claim-legacy-data.ts:586-744 | whatever it starts from, nothing is committed in which the placeholder owns a row, a mailbox or its mail is not with its assigned owner, or a child disagrees with its parent |
| TransferTheorem.VerifiedIs | backend/scripts/migration/claim-legacy-data.ts:586-744 | the checks before COMMIT ask exactly that |
| TransferScript.AcceptedIsComplete | backend/scripts/migration/claim-legacy-data.ts:460-470 | a plan the script accepts assigns every parked mailbox and leaves nothing without a destination |
| TransferScript.NothingUnreachable | backend/scripts/migration/claim-legacy-data.ts:881-943 | the count that decides whether a destination is needed is zero exactly when every parked record has a mailbox |
| TransferScript.Claim.ExecuteTransfer | backend/scripts/migration/claim-legacy-data.ts:753-820 | the loops and checks commit what the model commits, or restore the start |
| TransferScript.Claim.Apply | backend/scripts/migration/claim-legacy-data.ts:1135-1212 | refuses exactly when some mailbox has not one active, undeleted candidate at its address, or the destination is no such user, or one is needed and missing; rolls back exactly on a clash; else commits, each mailbox with its one candidate |
| MailboxCursor.HistoryCovers | backend/src/modules/gmail/gmail.service.ts:259-298 | a complete history walk names every message from its start to the position where it ended, each once, arrivals between pages included |
| MailboxCursor.RecentCovers | backend/src/modules/gmail/gmail.service.ts:206-225 | a complete listing names every message from where it ended up to where the mailbox stood when it began |
| MailboxFaith.SucceedsIff | backend/src/modules/gmail/gmail.sync.service.ts:148-205 | a listing is complete exactly when the history answers to its end, or, without a cursor or when the history has expired, profile and full listing answer |
| MailboxFaith.CursorIs | backend/src/modules/gmail/gmail.sync.service.ts:148-228 | a run that succeeds stores the last history id its pages reported, or the old cursor when none did; a full one exactly the profile's |
| MailboxCursor.AllAccounts | backend/src/modules/gmail/gmail.sync.service.ts:112-144 | processed, duplicates and failed add up to the messages handled; each is stored or counted as failed; none is stored twice |
| MailboxCursor.OneMessage | backend/src/modules/gmail/gmail.sync.service.ts:28-66 | what one message does to table and counters, fate by fate |
| MailboxCursor.FailuresAre | backend/src/modules/gmail/gmail.sync.service.ts:112-144 | the failure counter counts exactly the messages that could not be fetched, stored or queued, and their ids are the ones recorded |
| MailboxCursor.SyncIs | backend/src/modules/gmail/gmail.sync.service.ts:148-228 | a listing that breaks off stores nothing and keeps the cursor; a complete one is handled id by id, and the cursor kept if it cannot be written |
| MailboxCursor.SyncKeepsIff | backend/src/modules/gmail/gmail.sync.service.ts:148-228 | a run keeps everything below the cursor accounted for exactly when it has no blind spot |
| MailboxCursor.NothingIsLostIff | backend/src/modules/gmail/gmail.sync.service.ts:148-228 | over any sequence of runs, from any state in order, the same after every run exactly when no run has a blind spot |
| MailboxCursor.FaithfulIsEnough | backend/src/modules/gmail/gmail.sync.service.ts:153-156 | a run has no blind spot when the last id its pages report does not pass what was paged, or in a full listing the profile's id does not pass the mailbox as it was when the listing began and the listing comes down to the old cursor |
| MailboxCursor.IncrementalStartsAtCursor | backend/src/modules/gmail/gmail.service.ts:259-298 | an incremental listing starts at the cursor, so there only the reported id is in question |
| MailboxCursor.NothingIsLost | backend/src/modules/gmail/gmail.sync.service.ts:148-228 | on every sequence of such runs every message below the cursor is a stored email or was counted as failed, and no message has two emails |
| MailboxCursor.BlindSpotLosesMail | backend/src/modules/gmail/gmail.service.ts:277-279 | a page that lists nothing and reports an id past an arrival: the cursor passes the message, which is neither stored nor counted as failed |
| MailboxSync.Service.GetRecentMessages | backend/src/modules/gmail/gmail.service.ts:206-225 | the loop returns every page's messages, or fails with the first rejected page |
| MailboxSync.Service.GetHistoryChanges | backend/src/modules/gmail/gmail.service.ts:259-298 | the loop returns each id once and the last history id a page reported |
| MailboxSync.Service.SyncSingleMessage | backend/src/modules/gmail/gmail.sync.service.ts:28-66 | an id already stored is never stored again; a failed enqueue leaves the email stored |
| MailboxSync.Service.ProcessMessages | backend/src/modules/gmail/gmail.sync.service.ts:112-144 | the counters are those of the model, one failure not stopping the rest |
| MailboxSync.Service.SyncGmailAccount | backend/src/modules/gmail/gmail.sync.service.ts:148-238 | a run does what the model's run does, keeps the invariant exactly when it has no blind spot, succeeds exactly as `SucceedsIff` says and the cursor can be written, and then stores the last history id reported, or the profile's |
| TextNormalizer.NormalizeIsClean | backend/src/modules/attachment/utils/text-normalizer.ts:11-18 | no carriage return or tab, no two adjacent spaces, no space before a newline, no three newlines, nothing to trim |
| TextNormalizer.FixedPointsAreClean | backend/src/modules/attachment/utils/text-normalizer.ts:11-18 | normalisation leaves a text alone exactly when it is clean |
| TextNormalizer.NormalizeIdempotent | backend/src/modules/attachment/utils/text-normalizer.ts:11-18 | normalising twice is normalising once |
| TextOutline.NormalizeKeepsCore | backend/src/modules/attachment/utils/text-normalizer.ts:11-18 | every character and every gap between the first and last visible ones is kept, wide gaps as two breaks |
| TextOutline.NormalizeIsTheCleanText | backend/src/modules/attachment/utils/text-normalizer.ts:11-18 | the result is the one clean text with the input's outline |

## Left out

- OrderFreeIff: is about full statements. Where some leave a field out, `PartsHaveOneOutcomeIff` is about a collection together with all its parts, not about the collection alone; the same holds of `RunOrderIff` and `OneRowIff`.
- RunOrderIff: says nothing of emails that several rows could receive; `DriftSplitsTheEvent` shows that the order of such emails can decide how many events there are.
- NothingIsLost: that history ids grow with the mailbox, and that the id reported last does not pass the messages listed, is the provider's part and a hypothesis; without it `NothingIsLostIff` applies.
- Gate: a date of the right digit pattern that is no calendar day (a model answer such as 2026-02-31) is refused here, while the code's pattern test lets it on to the host's date parser, whose behaviour is not modelled.
- Regular-expression extraction, prompts, provider calls and the confidence arithmetic: the extraction is an input with confidence in [0,1] and a vocabulary stage.
- A model answer of another JSON type than a string counts as absent.
- Floating-point rounding, host time zones, Unicode case and whitespace: exact arithmetic, calendar days and ASCII are used.
- The email status and extraction rows processEmail writes beside the two event tables, and console output.
- POST /event, routes, sessions and OAuth.
- Automated updates racing a manual confirmation, and a second execution of an attachment job after its lock went stale: the code does not guard them, so steps are atomic and executions single.
- The order rows come back in where a query names none: insertion order is used; ties in creation time likewise.
- UpdateEventService: the transaction is one act, so the intermediate state with history written and the row not yet updated is not visible.
- Attachment file storage, document intelligence calls, and losing the mailbox link of an attachment while it waits.
- Backoff delays and the number of stalls BullMQ allows: a crash may or may not exhaust them.
- BuildPlan: the messages of the checks, the written report and its export file are not modelled; `userId::key` strings are pairs, and groups of ids are sets, which the joined strings spell without loss.
- Serialisable isolation and connection failures in both scripts: each transaction is atomic.
- ExecuteTransfer: the per-statement row counts are reporting and are not modelled.
- The early exits of the claim script when no placeholder exists, when it holds nothing, or when no eligible user exists at all.
- Messages without an id, deleted messages, several mailboxes listing one message id, and the re-authentication flag.
- Within a page of messages the order is ascending; no result depends on it.
- React components, backup, restore and log redaction.
