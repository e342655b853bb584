# BidProof service: verified protocols

A Dafny model of the concurrent and bounded-use parts of BidProof, a service that scans tenders,
matches company evidence and lets people review the result. Most of that behaviour lives in small
conditional SQL updates that several processes issue at the same time, so most theorems here are
about every interleaving.

`dafny verify dfyconfig.toml` checks the whole project.

How the code is modelled:

* A table that the code updates in place is a class with a `map` or `seq` field. Each method takes the
  steps of the Python function and is proved against a function on the old table, with what a caller
  gets from it stated beside (`JobStore`, `ChallengeStore`, `LimitStore`, `RateLimiter`, `RecordStore`,
  `RunStore`, `AuditLog`).
* A protocol is a state machine over those same functions. A transaction is one event. A process that
  reads in one statement and writes in another is two events; what it read stays in the state until its
  write uses it up, so it may be arbitrarily stale. (Versions of documents and second-factor records stay
  loaded, since any number of requests may have loaded the same one.) An event whose guard fails changes nothing:
  every sequence of events is a run, and a theorem over all sequences is a theorem over all runs.
* Loops over values are methods with invariants (`ContainsActiveContent`, `Receive`, `Deduplicate`,
  `ExtractRequirements`, `MatchEvidence`, `ReviewDocument`,
  `DecideDocument`); code that only computes is functions and lemmas
  (`Totp`, `IsoText`, the presenters).

| module | models |
|---|---|
| `JobRows`, `JobProtocol` | scan jobs: rows, the statements that change them, and the processes around the table: claims, leases, publication, cancellation, retries, the stale-job reaper, supervisors and their file clean-up |
| `JobSteps`, `JobRuns` | what any one event does to the tables; runs and how they compose |
| `JobPublication`, `JobCap`, `JobFiles`, `JobLiveness` | the theorems over all runs: publication, absorption and fencing; the attempt cap; staged inputs and upload directories; live and silent attempts, cancelling and clean-up |
| `Times`, `Fresh`, `Challenges`, `WindowLimit`, `SlidingLimit` | one-time codes and the two rate limiters |
| `Totp`, `Authenticator` | one-time passwords, recovery codes, login flows |
| `Rules`, `RunDocuments`, `RunHistory` | scan rules, the run document, its review log, counters and revisions |
| `AuditChain` | the audit hash chain, its writer and its verifier |
| `TextOrder`, `IsoText` | timestamps as text |
| `Bytes`, `Substrings`, `PdfScan`, `BodyReplay` | streaming forms against simple ones |

## Where the code falls short of its promise

In each case the model follows the code, exhibits the failure, and proves the exact condition under
which the promise holds.

* Enqueueing a job is two transactions, and the second one (`update_scan_job`) protects only cancelled
  rows. Whatever it does to each promise is settled separately, by the rows on which it is safe. It
  leaves single publication intact over all continuations if and only if it does not put back a
  completed row that has an attempt to spare, or that a claimer has selected and not yet tried to claim
  (`SinglePublicationExactly`; `TwoPublications` and `LateNoteCanBeSafe` show both sides). "Never both published and cancelled" needs that the
  row is not completed (`CancelExactly`), absorption that it is neither completed nor dead
  (`NoteKeepsFinalExactly`), the staged inputs that they are neither gone nor about to be removed
  (`InputsExactly`), the attempt cap that an attempt is left (`NoteKeepsCapExactly`). A run whose second
  enqueue writes are all safe for a promise is called calm for it. Only the cap also depends on clocks.
* The attempt cap relies on a claim's timestamp being newer than any reaper's cutoff. It holds over all
  calm runs if and only if no write lands later after its clock reading than the age at which a
  running row counts as stale (`AttemptCapExactly`).
* An unconditional save by a request that loaded a run before it was deleted brings the run back, without
  its upload directory. A published run has its directory whenever it is stored, over all continuations
  that do not delete it, if and only if it was not deleted before, or is neither stored nor held by such
  a request (`UploadsExactly`).
* The sliding limiter's `Retry-After` is only about the oldest hit, and a rejected counted call takes a
  place itself. A call after the hinted wait is admitted if and only if the hits that have not left by
  then, and the call itself if it is counted, are fewer than the limit (`HintExactly`); a counted call
  needs two hits to leave (`OneLeavingIsNotEnough`), and if a fraction of a second was rounded away none
  leaves (`FractionIsRejected`, `WaitedAndRejected`).
* The cleanup at start-up deletes hits older than an hour, which still count for longer windows
  (`CleanupRespectsExactly`); the fixed-window limiter forgets windows longer than a day
  (`PruningExactly`).
* Metadata and archive saves are unconditional. A stale one drops exactly the reviews recorded since its
  document was loaded, and the decision if that differs (`StaleSaveDropsExactly`, `StaleSaveDropsReview`).
* The audit writer reads its predecessor and inserts in separate statements without a lock. A log
  verifies if and only if events were inserted in the order in which they sort and no writer was
  overtaken between its read and its insert; one exception makes it unverifiable for good
  (`HistoryExactly`, `TwoWritersFork`).
* A one-time code of digits outside ASCII raises an exception instead of being refused, exactly while the
  accepted window has an unused step (`VerifyExactly`, `FullWidthDigitRaises`).
* Enrolling a second factor checks and writes in separate statements, so an enrolment that was checked
  before another one was confirmed replaces the confirmed record. A confirmed record stays in force over
  all continuations that do not disable it if and only if no such enrolment is pending
  (`ConfirmedExactly`, `ConfirmedWhileEnrolling`).
* A checked save goes by the client's revision. It replaces the version it was computed from if and only
  if that revision is not ahead of the loaded one (`HonestyExactly`, `AheadClientLosesReview`).

## Model

| member | source | states |
|---|---|---|
| JobPublication.SinglePublication | app/services/scan_service.py:257-268 | whatever the clocks do, each job publishes at most one run over every run in which no second enqueue write puts back a completed row that has an attempt to spare or a pending claimer |
| JobPublication.SinglePublicationExactly | app/db.py:708-711 | after any such run, a second enqueue write leaves single publication intact over all continuations if and only if the row is not completed, or is out of attempts with no claimer that selected it still to try |
| JobPublication.LateNoteCanBeSafe | app/job_leases.py:33-52 | a run that reaches the second case: four failed starts, publication on the fifth attempt, all claimers done; the write puts the row back and single publication holds over all continuations |
| JobPublication.LateNoteRepublishes | app/db.py:708-711 | from any state with sound rows and no selection in the future, a second enqueue write on a completed row with an attempt to spare or a pending claimer makes a second publication reachable |
| JobPublication.TwoPublications | app/services/scan_service.py:355-356 | a run from the empty table in which one job publishes twice |
| JobPublication.PublishedIsCompleted | app/services/scan_service.py:257-268 | while a published job's row exists it is completed and linked to the run it published, and that run is stored |
| JobPublication.CancelledNeverPublished | app/db.py:723-737 | a job that is cancelled at any moment of a run is published at no moment, earlier or later |
| JobPublication.CancelExactly | app/db.py:708-711 | a second enqueue write leaves "never both published and cancelled" intact over all continuations if and only if the row is not completed |
| JobPublication.FinalIsAbsorbing | app/db.py:723-737 | between any two moments of a run completed, cancelled and dead never change, cancelled and dead rows never vanish, no job id returns, no publication is forgotten |
| JobPublication.NoteKeepsFinalExactly | app/db.py:708-711 | the second enqueue write respects final statuses if and only if the row is neither completed nor dead |
| JobPublication.LostLeaseStaysLost | app/job_leases.py:61-84 | once an attempt does not hold its lease, no write, failure report or publication by it or its supervisor changes the table in any later state of any run |
| JobPublication.LastWriteIsFenced | app/job_runner.py:43-61 | the supervisor's unconditional WORKER_EXITED write changes nothing, then or later, on a row that is completed, cancelled, dead, failed, queued again, re-owned or deleted |
| JobCap.AttemptCapExactly | app/job_leases.py:33-52 | attempts stay within five and queued rows below five over all calm runs if and only if write delay is at most the stale age |
| JobCap.SlowWritesBreakCap | app/db.py:788-818 | a run of claimers that select, read the clock and stall, and of two reapers a round, which breaks the cap whenever writes may land later than the stale age |
| JobCap.NoteKeepsCapExactly | app/db.py:708-711 | the second enqueue write respects the cap if and only if the row is missing or cancelled or has an attempt left |
| JobFiles.InputsSurvive | app/job_runner.py:67-69 | staged inputs are gone only for completed or cancelled jobs, although clean-up checks and deletes in separate steps |
| JobFiles.InputsExactly | app/services/scan_service.py:392-397 | a second enqueue write leaves the inputs of all unsettled jobs in place over all continuations if and only if it does not meet a completed row whose inputs are gone or about to be removed |
| JobFiles.QueuedIsClaimable | app/job_leases.py:33-36 | every queued row of every calm run with timely writes passes the claim's filter and still has its inputs |
| JobFiles.UploadsSurvive | app/job_runner.py:62-66 | over every run, a published run that no request has deleted is stored and has its upload directory |
| JobFiles.UploadsExactly | app/services/run_service.py:23-35 | over all continuations that do not delete it, a published run has its directory while it is stored if and only if it was not deleted before, or is neither stored nor held by a request that loaded it |
| JobLiveness.LiveAttemptIsLeftAlone | app/job_runner.py:43-57 | an attempt whose heartbeats or progress writes land often enough for the stale age, delay included, has its row changed by no reaper as long as it holds its lease |
| JobLiveness.ClaimIsAlive | app/job_leases.py:45-51 | over every run a fresh claim starts out in that state |
| JobLiveness.SilentAttemptIsReaped | app/db.py:783-818 | from any state, an attempt silent for longer than the stale age can be reaped at once: the row is queued again, or dead when its attempts are spent, and the lease is gone |
| JobLiveness.CancelEndsAttempts | app/db.py:723-737 | cancelling a queued or running job makes it cancelled, and no later write or publication by any of its attempts has an effect |
| JobLiveness.SilentExitIsRetryable | app/job_runner.py:58-61 | the last write of a supervisor whose child reported nothing makes the job FAILED, and a retry makes it claimable exactly if an attempt is left |
| JobLiveness.FailureIsRecorded | app/services/scan_service.py:399-402 | a failure reported under the lease, by the child or for a worker that cannot be started, makes the job FAILED with its error |
| JobLiveness.LeftoversAreSwept | app/job_runner.py:62-66 | over every run, a finished supervisor's attempt that published nothing has no upload directory |
| JobLiveness.SettledInputsAreRemoved | app/job_runner.py:67-69 | a supervisor removes the staged inputs exactly if it reads a completed or cancelled job |
| JobRuns.AttemptPublishes | app/services/scan_service.py:361-402 | from any state, a queued job that passes the claim's filter, or that a claimer has selected and not yet tried, can be published under a fresh token |
| JobRuns.PromptNoteIsHarmless | app/services/scan_service.py:355-356 | the two enqueue writes without interruption are safe for every promise |
| JobSteps.EventSteps | app/job_runner.py:30-69 | each of the 30 kinds of step of requests, claimers, reapers, children and supervisors changes rows, runs and reads only in the listed ways |
| JobRows.JobStore.Retry | app/job_leases.py:21-28 | succeeds exactly under its guard; then the row is queued without lease and error, restamped and claimable, and no other row changes |
| JobRows.JobStore.SelectOldest | app/job_leases.py:33-44 | finds a row exactly when one is claimable, and then the oldest by creation time and id |
| JobRows.JobStore.Claim | app/job_leases.py:31-58 | claims the oldest claimable row or nothing: the row runs under the token, restamped, one attempt spent, and no other row changes |
| JobRows.JobStore.Update | app/job_leases.py:61-68 | succeeds exactly for the lease holder of a running, uncancelled row; then the patched fields hold, the row is restamped, and every other field and row stays; otherwise nothing changes |
| JobRows.JobStore.Publish | app/services/scan_service.py:257-268 | fence, insert, link and complete all happen or none do, exactly as the lease is held |
| JobRows.JobStore.Cancel | app/db.py:723-737 | a queued or running row becomes cancelled and nobody holds a lease on it; other rows and final ones stay |
| JobRows.JobStore.RequeueStale | app/db.py:783-818 | exactly the running rows older than the cutoff change, each requeued below five attempts and dead otherwise, without lease and restamped; the answer counts the requeued ones |
| JobRows.JobStore.DeleteRun | app/db.py:408-413 | removes the run and exactly the job rows linked to it, keeps every other row as it is, and leaves no row pointing at a run that is gone |
| Challenges.ChallengeStore.Reserve | app/repositories/challenges.py:21-44 | zero exactly when the cooldown is over; then the new challenge is stored undelivered, the identifier's others are consumed, day-old rows go, and other identifiers' rows stay |
| Challenges.ChallengeStore.MarkDelivery | app/repositories/challenges.py:47-50 | no other challenge and no cooldown changes; success makes exactly an open, unexpired challenge with guesses left guessable and revives no consumed one; failure ends the challenge |
| Challenges.ChallengeStore.Verify | app/repositories/challenges.py:53-71 | Verified exactly for the right digest on a guessable challenge, which is then used up; Incorrect exactly for a wrong one with guesses left; Locked exactly when five are spent without a match; Expired otherwise; one guess is counted and nothing else changes |
| Challenges.RetryIsEnough | app/repositories/challenges.py:32-35 | waiting the returned seconds always ends the cooldown |
| Challenges.RetryIsTight | app/repositories/challenges.py:32-35 | a request more than a second before that is still refused |
| Challenges.EveryRunSafe | app/repositories/challenges.py:21-71 | over all interleavings: one open challenge per identifier, at most five comparisons and one success per challenge |
| Challenges.GuessRate | app/repositories/challenges.py:25-31 | in any history with the cooldown and five guesses per reservation, T seconds compare at most 5 * (T / 60 + 2) guesses |
| Challenges.GuessRateOverRuns | app/services/passwordless_service.py:78-98 | the same bound for every interleaving, identifier and interval, pruning included |
| Challenges.ClosedStaysClosed | app/repositories/challenges.py:36-39 | a superseded, used or pruned challenge never opens again, late delivery included, and no guess at it has any effect |
| Challenges.RequestSupersedes | app/repositories/challenges.py:37-39 | a successful new request closes the identifier's open challenge |
| Challenges.NoGuessBeforeDelivery | app/services/passwordless_service.py:88-98 | until its delivery is reported successful a challenge is compared with no guess, over all runs |
| Challenges.VerdictMatchesLog | app/repositories/challenges.py:63-71 | a guess is answered Verified exactly when it is logged as a right comparison, Incorrect only with a wrong one, and Expired with none |
| Challenges.CodeLivesExactly | app/services/passwordless_service.py:78-98 | a delivered code is answered Verified for five minutes and Expired from then on |
| WindowLimit.LimitStore.Consume | app/repositories/challenges.py:74-95 | new rows and answer of one call; zero exactly when the hit count is within the maximum |
| WindowLimit.HitsWithin | app/repositories/challenges.py:81-92 | over every call sequence, with or without the daily deletion, hits stay between 1 and maximum + 1 |
| WindowLimit.LimiterWindow | app/repositories/challenges.py:74-95 | with the daily deletion, the present window of a bucket has admitted at most the maximum, and no more than its row counts |
| WindowLimit.LimiterAdmitsExactly | app/repositories/challenges.py:74-95 | with the daily deletion, the present window of a bucket has admitted exactly its first calls, as many as the maximum allows |
| WindowLimit.PruningIsInvisible | app/repositories/challenges.py:91-92 | deleting day-old rows changes no answer, for windows up to a day |
| WindowLimit.PruningExactly | app/repositories/challenges.py:91-92 | under one limit, deleting day-old rows changes no answer of any call sequence if and only if the window is at most a day |
| WindowLimit.LimiterBounds | app/repositories/challenges.py:74-95 | with the daily deletion and all buckets mixed, any interval of one window length admits at most twice the maximum |
| WindowLimit.WaitingIsEnough | app/repositories/challenges.py:93-95 | after the returned seconds the next call is admitted if and only if the maximum is at least one |
| WindowLimit.WaitIsTight | app/repositories/challenges.py:93-95 | a call more than a second before that is still refused |
| SlidingLimit.RateLimiter.Record | app/ratelimit.py:67-93 | the rows are the old ones and the new hit without the bucket's hits that have left the window, and the answer is the count in the window |
| SlidingLimit.CountIsNumber | app/ratelimit.py:56-64 | the count is the number of the bucket's rows after the cutoff |
| SlidingLimit.RateLimiter.RetryHint | app/ratelimit.py:96-113 | hint computed from the oldest hit in the window, the window length when there is none |
| SlidingLimit.RateLimiter.Enforce | app/ratelimit.py:116-132 | admits exactly while the count, with this request if it is consumed, is below the limit; a rejection carries the retry hint of the rows it leaves |
| SlidingLimit.RateLimiter.Clear | app/ratelimit.py:146-153 | afterwards no hit of the bucket counts in any window, and every other bucket counts as before |
| SlidingLimit.PruningIsInvisible | app/ratelimit.py:79-92 | counting the kept rows equals counting the full log now and at any later time |
| SlidingLimit.CleanupRespectsExactly | app/db.py:1755-1767 | the start-up cleanup hides nothing in any history if and only if the window is at most an hour |
| SlidingLimit.WindowAdmits | app/ratelimit.py:116-126 | without a reset any window admits at most one request fewer than the limit |
| SlidingLimit.HintExactly | app/ratelimit.py:96-132 | a call after the hinted wait is admitted if and only if the hits after the edge, plus one if it is counted, are fewer than the limit |
| SlidingLimit.OneLeavingIsNotEnough | app/ratelimit.py:118-126 | after a rejection, with the hinted wait, no call is admitted unless a hit has left, and no counted call unless two have |
| SlidingLimit.FractionIsRejected | app/ratelimit.py:112-113 | when more than a second and no whole number of them was left, the call after the hinted wait is rejected again |
| SlidingLimit.WaitedAndRejected | app/ratelimit.py:116-126 | two counted calls under a limit of two per minute: the second is told to wait 59 seconds and is rejected when it has |
| SlidingLimit.WindowIsEnough | app/ratelimit.py:116-132 | waiting a whole window is enough if and only if the limit admits anything at all |
| Totp.CodeIsStandard | app/totp.py:38-43 | every code is six digits reading as the truncated value of section 5.3 of RFC 4226 modulo a million |
| Totp.VerifyExactly | app/totp.py:46-69 | for the cleaned code the answer is the smallest unused matching counter within one step of now, and there is one if there is one; digits outside ASCII raise exactly while the window has an unused step |
| Totp.StepsAreThirtySeconds | app/totp.py:34-35 | a step is thirty seconds, counted from the epoch |
| Totp.CurrentCodeIsAccepted | app/totp.py:34-69 | the code of the current step is accepted unless that step was used |
| Totp.FullWidthDigitRaises | app/totp.py:59-67 | a code of one full-width digit raises |
| Authenticator.RecordStore.ConsumeSnapshot | app/db.py:1600-1618 | takes effect exactly on the verified record |
| Authenticator.CheckExactly | app/services/auth_service.py:520-535 | a code is accepted as a one-time code exactly by its smallest acceptable counter, as a recovery code exactly if it is none, nothing is raised, the record is confirmed and its hash is listed, and refused in every other case |
| Authenticator.RecordStore.AcceptCode | app/services/auth_service.py:513-536 | the answer is the justified one, a success spends it, and refusals change nothing |
| Authenticator.AcceptedHaveCauses | app/services/auth_service.py:513-536 | over every run each accepted entry goes back to a submission, against the record then stored, of a code that justifies it |
| Authenticator.SpendAdvances | app/services/auth_service.py:520-534 | each success moves the counter up with the same codes, or takes one code off with the same counter |
| Authenticator.CounterNeverReplayed | app/services/auth_service.py:513-536 | over all interleavings one secret's accepted counters strictly increase, so none is accepted twice (section 5.2 of RFC 6238) |
| Authenticator.RecoveryCodesConserved | app/services/auth_service.py:527-535 | spent codes never exceed issued ones, and for a live record spent plus listed equals issued |
| Authenticator.SessionsBounded | app/services/auth_service.py:444-462 | one session per login flow, each resting on its own accepted code, submitted for the flow's user |
| Authenticator.FlowConsumedExactly | app/db.py:1709-1716 | a flow gets its session exactly if its code was accepted, it has none yet and it has not expired |
| Authenticator.SuccessOvertakes | app/db.py:1608-1618 | after a success every live record with that secret is strictly further on than the snapshot used |
| Authenticator.UsedSnapshotNeverRecurs | app/db.py:1600-1618 | an overtaken snapshot never returns in any later state, so no compare-and-swap on it ever succeeds |
| Authenticator.ConfirmedExactly | app/services/auth_service.py:465-474 | a confirmed record stays in force over all continuations that do not disable it if and only if no enrolment checked before is still to be written |
| Authenticator.ConfirmedWhileEnrolling | app/services/auth_service.py:465-503 | a run in which a record is confirmed while another enrolment is pending |
| Rules.Deduplicate | app/rules.py:86-96 | the loop with its seen set keeps exactly the items without an earlier item of the same key |
| Rules.FirstsKeys | app/rules.py:86-96 | after deduplication no key is lost and none occurs twice |
| Rules.FirstsEarliest | app/rules.py:86-96 | each key keeps its earliest item |
| Rules.FirstsOrder | app/rules.py:86-96 | what is kept was found, in the same order |
| Rules.ExtractRequirements | app/rules.py:40-83 | every match on a page with text is reported, by name, category, page and quote, itself or by an earlier one that reads the same; every requirement comes from such a match with its source, locator and title; numbers follow pages and matches |
| Rules.MatchEvidence | app/rules.py:99-143 | the in-place loop turns each requirement into its matched form and touches no other |
| Rules.PrecheckIsImplied | app/rules.py:104-118 | whenever some page has a term the check on the joined text has passed, so it never decides |
| Rules.CitationExactly | app/rules.py:104-143 | a citation is added exactly when a single readable page holds a term; it names the first such page, its file and the terms found, and quotes a block with a term if there is one; otherwise the status is UNKNOWN |
| Rules.OthersStay | app/rules.py:107-109 | requirements of other categories are left as they are |
| Rules.ScanIsCautious | app/rules.py:107-143 | a scan passes nothing, cites no evidence for fatal clauses and numbers requirements increasingly |
| RunDocuments.RunStore.Save | app/db.py:322-349 | conflict exactly when the revision differs, and then nothing is written; otherwise the document with its next revision and its counters, and no other run changes |
| RunDocuments.ReviewDocument | app/services/run_service.py:155-183 | succeeds exactly when the requirement exists and a PASS is cited on both sides; then its status is the one the decision says, decision by decision, and one log entry records it from the old status |
| RunDocuments.DecideDocument | app/services/run_service.py:195-214 | succeeds exactly when every named requirement exists; then the decision is replaced and nothing else |
| RunDocuments.CountsAreNumbers | app/db.py:256-269 | each counter is the number of requirements with its property |
| RunDocuments.RunStore.Review | app/services/run_service.py:184 | a review is stored exactly when it succeeds and the revision is the expected one, with recomputed counters; otherwise nothing is written, and no other run changes |
| RunHistory.LogReplays | app/services/run_service.py:155-192 | over all histories, stale overwrites included, each document is the replay of its own log over its scan, each entry records the status before it, and both logs and the matrix agree |
| RunHistory.ReplayKeepsCitations | app/services/run_service.py:163-182 | reviewing changes statuses and nothing else of any requirement |
| RunHistory.PassIsCited | app/presenters.py:156-170 | in every replayed log a PASS has a located quote on both sides |
| RunHistory.FatalNeverPasses | app/rules.py:107-109 | fatal clauses never gain evidence and are never PASS |
| RunHistory.FatalBlocks | app/db.py:256-269 | where no fatal clause passes, the blocker count is at least the fatal count |
| RunHistory.RedLine | README.md:15 | in every history every stored PASS is cited on both sides, fatal clauses never pass, blockers are at least fatal risks, and stored counters give the recomputed summary |
| RunHistory.NoLostUpdates | app/services/run_service.py:184 | in histories with honest clients and fresh metadata saves each successful checked save replaces the reviews and decisions it was computed from, and revision is one plus the number of checked saves |
| RunHistory.HonestyExactly | app/services/run_service.py:184 | in such histories a checked save that succeeds replaces the version it was computed from if and only if the client's revision is not ahead of it |
| RunHistory.AheadClientLosesReview | app/services/run_service.py:184 | a history in which a client revision ahead of the loaded document loses a review |
| RunHistory.SaveReplacesItsVersion | app/db.py:338-349 | with checked saves only, each successful save replaces exactly the stored document it was computed from |
| RunHistory.LogGrows | app/services/run_service.py:177-179 | in such histories the review log is append-only |
| RunHistory.UnconditionalSaveExactly | app/services/run_service.py:138-144 | over every history, an unconditional save leaves reviews and decisions alone if and only if its document has the stored review log and the stored decision |
| RunHistory.StaleSaveDropsExactly | app/services/run_service.py:138-144 | after a careful history it drops exactly the log entries recorded since its document was loaded, and the decision if different; nothing if the revision is current, and otherwise the revision goes back |
| RunHistory.StaleSaveDropsReview | app/services/run_service.py:33-35 | a history in which a recorded review is gone |
| AuditChain.AuditLog.Record | app/db.py:569-610 | adds one event naming the hash that sorts last, loses and reorders none; an intact log stays intact exactly when the event sorts last |
| AuditChain.AuditLog.Verify | app/db.py:613-630 | ok exactly for intact chains, otherwise the first row whose link fails |
| AuditChain.AppendExactly | app/db.py:584-609 | appending keeps an intact chain intact exactly when the event sorts last; otherwise the new event is the first break |
| AuditChain.StepExactly | app/db.py:584-609 | a writer that read any prefix of an intact log extends it exactly when it read all of it and its event sorts last; otherwise the log is damaged |
| AuditChain.HistoryExactly | app/db.py:569-630 | over every interleaving of reads and inserts, a log verifies if and only if events were inserted in sort order and no writer was overtaken between read and insert; otherwise it is damaged for good |
| AuditChain.TwoWritersFork | app/db.py:584-609 | two writers that both read the empty log leave one that does not verify, although they insert in sort order |
| AuditChain.HashesDiffer | app/db.py:591-592 | all hashes of one intact chain differ |
| AuditChain.MaterialDetermines | app/db.py:591-592 | the hashed text determines the predecessor and all four facts |
| AuditChain.LastHashPinsHistory | app/db.py:613-630 | intact chains with equal last hash have equal length and agree on id, type, time and outcome of every event |
| IsoText.DigitsSort | app/db.py:85-86 | zero-padded decimals of one width sort as numbers |
| IsoText.EarlierExactly | app/models.py:52-59 | field order is the order of microseconds on the calendar, leap years included |
| IsoText.TextOrderIsTimeOrder | app/db.py:85-86 | for all instants text order is time order and equal texts are equal instants, with microseconds left out when zero |
| IsoText.ReadBack | app/models.py:41-45 | parsing the text of any instant returns it |
| IsoText.ColumnsAgree | app/models.py:33-59 | both databases return the stored text and compare stored values as instants |
| PdfScan.ContainsActiveContent | app/file_safety.py:20-28 | for every split of every file: true exactly when an active token occurs in the whole file |
| PdfScan.ChunkedFrom | app/file_safety.py:22-27 | from any point on, the loop with the kept tail finds what a search of everything read finds |
| PdfScan.OverlapExactly | app/file_safety.py:27 | an overlap of n bytes finds a token in every split if and only if the token has at most n + 1 bytes |
| BodyReplay.AcceptedExactly | app/request_limits.py:35-51 | a body is accepted if and only if a complete request with it arrives within budget and spool |
| BodyReplay.OutcomeExactly | app/request_limits.py:35-51 | the first message that is not just one more fitting chunk decides: 408 for silence, no answer for a disconnect, 413 over the budget, 503 over the spool, accepted for a last chunk that fits |
| BodyReplay.Receive | app/request_limits.py:21-51 | 400 or 413 for a bad declared length before anything is read, otherwise what reading the messages in order gives: the body, 408, 413, 503 or a disconnect |
| BodyReplay.ReplayIsFaithful | app/request_limits.py:52-65 | replay events form one complete request with the same body in pieces of at most 64 KiB; only the last ends it; one event exactly for bodies up to 64 KiB, the empty one included |
| BodyReplay.ReceivedIsReplayed | app/request_limits.py:31-67 | what is replayed of an accepted request is what was received, within the budget |
| BodyReplay.EventAt | app/request_limits.py:57-65 | how many events there are, and what the k-th holds |
| BodyReplay.Replayer.Replay | app/request_limits.py:55-65 | the k-th call returns the k-th replay event, and every later call the live message |

## Left out

Assumed rather than proved:

- Each database transaction is atomic, except where this model splits one into its statements: claims, the reaper and the audit writer.
- The clock is monotone within a protocol; a job write's stamp is at most `lag` older than the moment it lands.
- Lease tokens, job ids, challenge ids, secrets and login-flow ids are fresh, and `attempt_run_id` has no collisions; the audit hash has no collisions and hashed fields hold no separator.
- A stopped scan child has no commit in flight, as `_stop` waits for the process to end.
- Pattern matches, lower-casing per character, squeezing of white space, page labels, a title's search terms and HMAC are given functions, arbitrary ones except that a line break is white space.

Modelled more simply than the code:

- Float seconds are integer microseconds; only texts this program writes are parsed as timestamps.
- `supervise` and `process_job` are events of the protocol rather than one method each, because their point is what other processes do in between.
- Child events allow more than `process_job` does: it may lose its lease already at its first check and still look at the job's status before ending.
- Requirement ids are numbers; progress counters and messages, payloads, workspaces, notes' stripping, tag clean-up, `action_plan` and the production-only revision requirement of `record_decision` are dropped.
- Python's tests for white space and digits are given functions that agree with ASCII on digits and the blank.
- PdfScan.OverlapExactly: overlap 0 is excluded, since a slice from minus zero keeps everything.
- Archive, unarchive, metadata and rescan saves are one event that replaces the metadata.

Not modelled:

- Unleased claims (`start_scan_job`, `claim_next_scan_job`), which the queue does not use, and interactive scans without a lease, which production refuses.
- Rate-limit calls around the authenticator and `verified_user`'s account binding.
- PDF, OCR, Office and image extraction, `_scan_ooxml`, reports, and `diff` between runs: parsing by foreign libraries or shallow lookups.
- OIDC, LDAP, SMTP and SMS clients, cookies, sessions, permissions and the HTTP layer.
- SQL dialects, migrations, pooling, encryption at rest, backups, the front end and scripts.
