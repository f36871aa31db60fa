# PostNest: a model of its queues, mailboxes, limits and certificates

This project models the parts of PostNest whose guarantees hold over whole runs, and proves
them. Postgres, Redis, Postmark and the ACME server are replaced by explicit state and by the
answers they may give.

| part | files |
|---|---|
| The job queue: one atomic step per Redis command, N workers in any interleaving | `Redis.dfy`, `JobQueue.dfy`, `NoLoss.dfy`, `SingleWorker.dfy`, `DueOrder.dfy`, `Worker.dfy` |
| What retries mean to users: sending drafts, delivering inbound mail | `SendDraft.dfy`, `Routing.dfy`, `Inbound.dfy` |
| IMAP over the mail store: flags held twice, UIDs, paging, EXPUNGE | `Flags.dfy`, `Uids.dfy`, `Expunging.dfy`, `MailStore.dfy`, `Imap.dfy`, `ImapMeaning.dfy`, `ImapBackend.dfy` |
| The sliding-window rate limiter | `RateLimiter.dfy` |
| The certificate manager: domain names, Reload and renewals, timing | `Domains.dfy`, `CertManager.dfy`, `RenewalLoop.dfy` |
| Threads: find or create under concurrency | `Threads.dfy` |
| Recipients typed into the compose screen | `Recipients.dfy` |
| Shared helpers | `Collections.dfy`, `Strings.dfy` |

Code that changes state is a class or a method with loops, and each method is proved either
against a function of the old state or to be a run of a transition system. The theorems are
about those functions and systems.

Where the code does less than one might expect, the code is kept as it is, a lemma gives the
input that shows it, and another says exactly when the code does what one expects:

- A job whose type has no processor is dropped, and that is the only way to lose one
  (`NoLoss.UnregisteredJobIsLost`, `NoLoss.LosslessExactly`).
- Two send workers at once can send a draft twice (`SendDraft.TwoProcessorsSendTwice`); the
  bound on sends holds in every run exactly for at most one (`SendDraft.SendsBoundedExactly`).
- A retried inbound job delivers again to the targets its earlier calls reached
  (`Inbound.RetryDuplicates`); every target has one copy exactly when no failed call delivered
  any (`Inbound.OneCopyEachExactly`).
- One EXPUNGE of a mailbox larger than a page can leave deleted messages behind
  (`Expunging.OnePassSkips`); it is enough exactly when none lies among the d messages behind a
  page with d deleted ones (`Expunging.OnePassEnoughExactly`).
- Marking a message unread in the webmail makes STATUS UNSEEN disagree with the flags that
  FETCH shows (`Imap.SeenThenUnread`), exactly when the message has a \Seen row
  (`Flags.WebmailAgreesExactly`, `Imap.WebmailUnseenExactly`).
- An empty message ID makes threads of different subjects merge
  (`Threads.EmptyMessageIdMergesSubjects`), and the subject decides the thread exactly when
  there is none (`Threads.SubjectDecidesExactly`). A subject of more than 64 characters has no
  thread.
- A comma in a configured name can hide a change of the domain set (`Domains.CommaHidesChange`):
  against names without commas exactly when the new names, split at their commas, are the old
  ones (`Domains.CommaHidesExactly`).
- A Reload that fails beside a certificate that does not cover the new names leaves it in
  service (`CertManager.FailedObtainUncovers`); that is the only way for a run to uncover the
  configured domains (`CertManager.CoveredExactly`).
- A name with a comma, a semicolon or a line end does not survive printing and parsing
  (`Recipients.CommaInNameIsLost`, `Recipients.BadNameIsLost`); `Recipients.ParseUndoesPrint`
  says exactly what does.
- A draft sent to nobody is marked sent, if Postmark accepts it, before the delivery log indexes
  an empty list (`SendDraft.SendService.Process`).

The comment on the rate limiter calls it a token bucket; the code is a sliding window, and
that is what is modelled. The column `subject_hash` holds the
subject itself. `GetOrCreateIMAPUID` is described as sequential within a
mailbox; its UIDs come from one sequence for all mailboxes.

## Model

| member | source | states |
|---|---|---|
| Redis.PromotedResult | internal/redis/redis.go:57-74 | promoting items one by one amounts to: the items in front of the list in reverse, gone from the delayed set, dead letters untouched |
| Redis.PromotedInDueOrder | internal/redis/redis.go:57-74 | undisturbed, one promotion moves exactly the members due, and they are dequeued after what was queued before, in the order they are due |
| Redis.PromotedDue | internal/redis/redis.go:57-74 | undisturbed, one promotion puts exactly the members with a score up to the bound, reversed, in front of the list and keeps exactly the others delayed |
| Redis.DequeueReverse | internal/redis/redis.go:37-54 | what is pushed one by one on the left is popped on the right in the same order |
| Redis.Client.Enqueue | internal/redis/redis.go:37-39 | pushes on the left of the list and touches nothing else |
| Redis.Client.Dequeue | internal/redis/redis.go:42-54 | takes the next job in dequeue order, none exactly when the list is empty |
| Redis.Client.ZRangeByScore | internal/redis/redis.go:57-61 | returns exactly the members with a score up to the bound, each once, by ascending score |
| Redis.Client.PromoteReadyDelayed | internal/redis/redis.go:57-74 | the loop of push and remove over the snapshot leaves the promoted queues |
| Redis.Client.EnqueueDelayed | internal/redis/redis.go:77-79 | adds a member to the delayed set or gives it a new score |
| Redis.Client.EnqueueDead | internal/redis/redis.go:82-84 | pushes on the dead-letter list and touches nothing else |
| JobQueue.BackoffClosedForm | internal/workers/workers.go:149-152 | a failures impose 5a(a+1)/2 seconds of backoff in all |
| JobQueue.FailMoves | internal/workers/workers.go:147-168 | a failed job with attempts left is parked for 5(a+1) seconds after the failure, a its earlier failures, with one more attempt and otherwise unchanged; without attempts left it is to be dead-lettered |
| JobQueue.PollListsDue | internal/redis/redis.go:57-61 | the reply of a poll holds exactly the delayed jobs whose score is not after the time the poll read |
| JobQueue.TimelyStep | internal/workers/workers.go:110-168 | every step of any worker keeps: each job is the submitted one but for attempts and schedule, is backed off, a listed retry is due, and no attempt starts early |
| NoLoss.ActiveFollow | internal/workers/workers.go:115-168 | a listed or held copy stays so, is settled, or goes to wait with one more attempt or because it is not due |
| NoLoss.WaitingFollow | internal/redis/redis.go:57-79 | a delayed copy leaves the delayed set only by a ZREM of itself |
| NoLoss.WitnessFollow | internal/redis/redis.go:57-74 | the copy that lets a pending ZREM go ahead still exists, with enough attempts, after any step of any worker |
| NoLoss.RemovalLeavesWitness | internal/redis/redis.go:63-72 | the ZREM leaves another copy: listed or held with at least as many attempts, or delayed with strictly more |
| NoLoss.SafeRun | internal/workers/workers.go:102-170 | the invariant of no loss holds after every run |
| NoLoss.NoJobLost | internal/workers/workers.go:102-170 | in every interleaving of any number of workers, a submitted job whose type has a processor is completed, dead-lettered, or has a copy in the list, the delayed set or a worker's hands |
| NoLoss.LosslessExactly | internal/workers/workers.go:142-146 | no run loses a job of a type if and only if the type has a processor |
| NoLoss.UnregisteredJobIsLost | internal/workers/workers.go:142-146 | a run that drops a job without a processor, leaving nothing of it |
| NoLoss.BackoffHolds | internal/workers/workers.go:129-158 | in every reachable state a job with a attempts that is waiting, held, processed or about to be delayed again is scheduled at least 5a(a+1)/2 seconds after its creation, its score is its schedule, and no attempt started before its schedule |
| NoLoss.RetryDueExactly | internal/workers/workers.go:147-158 | in every run of any number of workers, a job that failed at some time is, whenever it is delayed later, in a ZRANGEBYSCORE reply if and only if the bound is at least that time plus 5(a+1) seconds |
| SingleWorker.CopiesConserved | internal/workers/workers.go:110-168 | with one worker, only a submission creates a copy and only a failure replaces one, whatever the step |
| SingleWorker.HandIsElsewhereAbsent | internal/workers/workers.go:115-168 | what the worker holds is nowhere else, under any number of attempts |
| SingleWorker.ExactlyOnePlace | internal/workers/workers.go:110-168 | with one worker, in every reachable state each submitted ID has exactly one job, in exactly one of list, delayed set, dead list, hands, completed and dropped |
| SingleWorker.AttemptsTellPlace | internal/workers/workers.go:147-168 | a dead job was started as often as allowed, a completed one once more than it had failed, and a job started as often as allowed is dead, completed or in hand |
| SingleWorker.DeadAfterMaxAttempts | internal/workers/workers.go:147-168 | in every reachable state no job is started more than MaxAttempts times (once, if that is below one), a dead-lettered job had all its starts, and a job that had them all is dead, completed or in hand |
| SingleWorker.StartsWithinBudget | internal/workers/workers.go:147-168 | no submitted ID is started more often than its own maximum allows |
| SingleWorker.WorkIsBounded | internal/workers/workers.go:147-168 | all starts together are at most the sum of the maxima of the submitted jobs, so the work of a run ends |
| DueOrder.SnapshotAhead | internal/redis/redis.go:57-74 | after the snapshot of a promotion, an earlier item is due no later than a later one and ahead of it |
| DueOrder.AheadStep | internal/workers/workers.go:110-168 | whatever step comes, of a producer or the worker, an item stays ahead of the other until it is taken, and the other is not taken before |
| DueOrder.DueOrderInRuns | internal/redis/redis.go:57-74 | in every run of one worker, with producers pushing between the promotion's commands, jobs promoted together are dequeued in due order |
| Worker.PromotionRun | internal/redis/redis.go:57-74 | the interleaved push and remove steps of one undisturbed worker amount to one promotion |
| Worker.Pool.Enqueue | internal/workers/workers.go:173-191 | submits a job with no attempts, three at most, due at once: behind all listed jobs, in no other place |
| Worker.Pool.Promote | internal/workers/workers.go:110-113 | the first command of a turn is a run of the transition system; afterwards exactly the jobs scored up to its time are in front of the list and exactly the others still delayed |
| Worker.Pool.Fetch | internal/workers/workers.go:110-122 | promotion and dequeue are a run, and the worker then holds what was taken |
| Worker.Pool.Handle | internal/workers/workers.go:123-168 | the rest of a turn is a run; the job is put back at its schedule exactly if that is still to come, dropped exactly if it is due and has no processor, and otherwise completed, delayed until 5(a+1) seconds after the failure with one more attempt, or dead-lettered |
| Worker.Pool.Finish | internal/workers/workers.go:147-168 | after the processor returned: completed; or delayed, scored and scheduled at the failure plus 5(a+1) seconds with one more attempt, while below the maximum; or dead-lettered; the other entries stay |
| Worker.Pool.OneTurn | internal/workers/workers.go:110-168 | one turn is a run, and adds to the completed, dropped and dead-lettered jobs what its outcome says |
| Worker.Pool.Run | internal/workers/workers.go:102-170 | any number of turns of the loop is a run of the transition system, and the completed, dropped and dead-lettered jobs are those of the outcomes, in order |
| SendDraft.BalancedStep | internal/workers/send.go:55-109 | with one processor, every handler and worker step keeps the balance of accepted sends, failed updates and the draft flag |
| SendDraft.SendsBounded | internal/workers/send.go:55-109 | however many send jobs are queued or retried, a draft is accepted at most once more than its post-send update failed and IMAP set \Draft again on it; and exactly so often between jobs, less one while it is a draft, if nobody stores \Draft |
| SendDraft.TwoProcessorsSendTwice | internal/workers/send.go:55-96 | from an empty store, two or more processors can send a draft twice with no failed update |
| SendDraft.SendsBoundedExactly | internal/workers/send.go:55-109 | the bound on sends holds in every run of n processors if and only if n is at most one |
| SendDraft.SendService.CreateDraft | internal/webmail/webmail.go:393-437 | adds a draft in DRAFTS with the subject and recipients given, not outbound |
| SendDraft.SendService.UpdateDraft | internal/webmail/webmail.go:439-483 | gives any existing message, draft or not, the new subject, and the new recipients unless there are none; its flags and mailbox and all other messages stay |
| SendDraft.SendService.SendDraft | internal/webmail/webmail.go:506-546 | queues a send job exactly for an existing draft |
| SendDraft.SendService.Process | internal/workers/send.go:31-135 | one send job is a run of the steps load, post and mark; it sends exactly when the message exists, is a draft, its domain is found and Postmark accepts, and then, if the update works, the message is no draft, outbound and in SENT, with its subject and recipients; each way to end is told apart |
| Routing.AliasTargetsKeyed | internal/auth/auth.go:423-452 | the alias join returns each target of the address once, by the unique indexes |
| Routing.LookupMembers | internal/auth/auth.go:418-483 | the targets are distinct and are: the user of that address, or else the alias targets, or else the catch-all user |
| Routing.ResolvedTargets | internal/auth/auth.go:403-483 | a routed address splits at its last @ after trimming and lowering, and its targets are exactly those of that local part and domain, each once |
| Routing.UnroutableExactly | internal/auth/auth.go:403-416 | an address is refused exactly when no @ splits it into a local part and a known domain |
| Routing.CaseAndSpaceBlind | internal/auth/auth.go:403-416 | addresses that differ in the case of letters and in surrounding blanks are resolved alike |
| Inbound.InboundProcessor.FanOut | internal/workers/inbound.go:108-176 | the loop appends one copy per target in order and stops at the first failure |
| Inbound.InboundProcessor.Route | internal/workers/inbound.go:46-61 | the targets are those of the envelope recipient, whatever the header says, and of the header only without one; no target means failure |
| Inbound.EnvelopeFirst | internal/workers/inbound.go:46-61 | the targets are those that the envelope recipient resolves to, or, without one, the header; none if it is unroutable |
| Inbound.ServedAdds | internal/workers/inbound.go:72-176 | a call adds nothing unless it is to deliver, and then one copy for each target before the first failure, in order |
| Inbound.InboundProcessor.Deliver | internal/workers/inbound.go:72-176 | a blocked or greylisted message reaches nobody; otherwise the targets before the first failure get a copy each, in order |
| Inbound.InboundProcessor.Process | internal/workers/inbound.go:35-178 | one call appends copies, in order, for the targets of the envelope recipient (of the header only without one) up to the first failure, none if blocked or greylisted, and succeeds exactly when it served all of at least one |
| Inbound.OneCopyPerCall | internal/workers/inbound.go:108-176 | one call gives each target one copy and nobody else any |
| Inbound.CopiesAreCallsReached | internal/workers/inbound.go:108-176 | over any calls, a target's copies are exactly the calls that got past it |
| Inbound.CompletedJobDelivered | internal/workers/inbound.go:55-177 | a job that completes at its k-th call has given between 1 and k copies to every user that its envelope recipient (its header only without one) routes to, by address, alias or catch-all, and nobody else any |
| Inbound.RetryDuplicates | internal/workers/inbound.go:108-176 | a retry repeats what an earlier call delivered |
| Inbound.OneCopyEachExactly | internal/workers/inbound.go:55-177 | a completed job has left every target exactly one copy if and only if none of its earlier calls delivered any |
| Flags.StoreMeaning | internal/imap/backend.go:307-345 | STORE +FLAGS, -FLAGS and FLAGS act on what FETCH shows as union, difference, and replacement of the five system flags with other keywords kept, and keep rows and columns in step (section 6.4.6 of RFC 3501) |
| Flags.UnreadIffNotSeen | internal/imap/backend.go:186-202 | with rows and columns in step, the unread column agrees with the absence of \Seen |
| Flags.WebmailAgreesExactly | internal/webmail/webmail.go:265-287 | after the webmail marks a message read or unread, the column agrees with the shown \Seen if and only if it was not marked unread beside a \Seen row |
| Flags.ListedExactly | internal/imap/backend.go:186-202 | FETCH lists exactly the visible flags, one of them twice if and only if it has a row and a column |
| Uids.InvRun | internal/mailstore/pgstore.go:657-709 | over every run UIDs are positive, below the sequence, unshared, and no reported UIDNEXT is ahead of the sequence |
| Uids.UidNeverChanges | internal/mailstore/pgstore.go:657-678 | a message keeps its UID in a mailbox while it lives |
| Uids.UidsDistinct | internal/mailstore/pgstore.go:657-678 | below 2^32 two rows never show the same UID |
| Uids.NewUidIsFresh | internal/mailstore/pgstore.go:657-709 | a new UID exceeds every UID ever handed out and is at least every UIDNEXT ever reported, also after deletions lowered the maximum (section 2.3.1.1 of RFC 3501) |
| Uids.AssignAllKeeps | internal/imap/backend.go:171-173 | loading a page gives each of its messages a UID and changes none |
| Expunging.ScanKeepsOthers | internal/imap/backend.go:395-424 | paging by offset over the shrinking list removes deleted messages only |
| Expunging.FullPage | internal/imap/backend.go:397-422 | after a full page, the next offset in the shortened list skips as many messages as the page lost |
| Expunging.PassKeepsOthers | internal/imap/backend.go:395-424 | one EXPUNGE keeps every message that is not deleted, in order |
| Expunging.OnePageSuffices | internal/imap/backend.go:395-424 | a mailbox of at most one page loses all its deleted messages in one EXPUNGE |
| Expunging.PassLeavesWindows | internal/imap/backend.go:397-422 | one EXPUNGE leaves as many deleted messages as lie in the windows, the d messages behind each page with d deleted ones |
| Expunging.OnePassEnoughExactly | internal/imap/backend.go:395-424 | one EXPUNGE is enough if and only if no deleted message lies in a window |
| Expunging.OnePassSkips | internal/imap/backend.go:417-421 | with pages of one, the second of two deleted messages is skipped |
| Expunging.PassProgresses | internal/imap/backend.go:395-424 | an EXPUNGE of a mailbox with deleted messages removes at least one |
| Expunging.PassRemovesNothing | internal/imap/backend.go:395-424 | an EXPUNGE removes nothing exactly when no deleted message is left |
| Expunging.EnoughPasses | internal/imap/backend.go:395-424 | k deleted messages are gone after k passes, and only they |
| MailStore.ListingUnlabelled | internal/mailstore/pgstore.go:130-185 | taking a label from some messages takes exactly those out of its listing, order kept |
| MailStore.UnreadIsUnseen | internal/mailstore/pgstore.go:635-643 | with rows and columns in step, the unread count is the number of messages that do not show \Seen |
| MailStore.CountsAgreeExactly | internal/mailstore/pgstore.go:635-643 | the two counts of any list agree if and only if no message of it is unread with a \Seen row, and the unread count is never the smaller |
| MailStore.CountsInBox | internal/mailstore/pgstore.go:635-643 | the counts of a mailbox count each of its messages once, by the column and by what FETCH shows |
| MailStore.Store.CreateMessage | internal/mailstore/pgstore.go:24-80 | adds a message behind all others, with its labels |
| MailStore.Store.DeleteMessage | internal/mailstore/pgstore.go:236-239 | deletes the owner's message with its flag, label and UID rows, and nothing of anyone else's |
| MailStore.Store.UpdateMessage | internal/mailstore/pgstore.go:209-234 | patches the given columns of the owner's message and reports whether there is one |
| MailStore.Store.CountUnreadByLabel | internal/mailstore/pgstore.go:635-643 | the number of the label's messages whose read column is not set, which is the number that do not show \Seen when rows and columns are in step |
| MailStore.Store.GetOrCreateIMAPUID | internal/mailstore/pgstore.go:657-678 | an existing row keeps its UID; a new one takes the next value of the sequence, its modification sequence the one after, and other rows stay |
| MailStore.Store.GetMaxIMAPUID | internal/mailstore/pgstore.go:697-709 | the highest UID of the mailbox, 0 if none |
| Imap.PickedInOrder | internal/imap/backend.go:171-183 | FETCH returns messages as they stand on the page, by ascending sequence number, each with its number or its UID in the set if there is one |
| Imap.PickedAll | internal/imap/backend.go:171-183 | FETCH returns every message whose number or UID is in the set, and all without a set |
| Imap.StoreActs | internal/imap/backend.go:287-347 | STORE changes the flags of the addressed messages as its operation says, and nothing else |
| Imap.OnePage | internal/imap/backend.go:397-422 | what is left of an EXPUNGE is the same before and after each of its pages |
| Imap.ExpungeOnlyDeleted | internal/imap/backend.go:395-424 | EXPUNGE takes this mailbox's label from deleted messages of the mailbox only and changes nothing else |
| Imap.ExpungedListing | internal/imap/backend.go:395-424 | the mailbox after EXPUNGE is one pass over the mailbox before |
| Imap.EnoughExpunges | internal/imap/backend.go:395-424 | as many EXPUNGEs as there are deleted messages leave exactly the others (section 6.4.3 of RFC 3501) |
| Imap.CommandInStep | internal/imap/backend.go:159-424 | a command keeps rows and columns in step if and only if it does not clear a column beside its row, as only the webmail can |
| Imap.InStepExactly | internal/imap/backend.go:159-424 | a run keeps rows and columns in step throughout if and only if every command does, and every run of IMAP commands is one |
| Imap.CommandSound | internal/imap/backend.go:159-424 | every command, and deleting a message, keeps the UIDs sound |
| Imap.UnseenAgrees | internal/imap/backend.go:120-154 | after any run of harmless commands on any mailboxes, all IMAP commands among them, STATUS UNSEEN is the number of messages whose FETCH FLAGS lack \Seen |
| Imap.WebmailUnseenExactly | internal/webmail/webmail.go:265-287 | marking a message unread in the webmail keeps its mailbox's STATUS UNSEEN right if and only if it has no \Seen row |
| Imap.SeenThenUnread | internal/webmail/webmail.go:331-333 | a message appended, flagged \Seen by STORE and marked unread counts as unseen and shows \Seen |
| Imap.UidNamesOneMessage | internal/imap/backend.go:287-306 | after any run, below 2^32, a UID command for the UID that FETCH shows addresses that message and no other |
| ImapMeaning.AddressedExactly | internal/imap/backend.go:171-183 | a set of sequence numbers addresses exactly the messages at those places of the page, counted from 1; a set of UIDs exactly those that show one of them; no set the whole page |
| ImapMeaning.FetchAnswers | internal/imap/backend.go:186-236 | what FETCH returns is exactly the messages so meant, by ascending place, each with its place, UID and flags |
| ImapMeaning.StoreReaches | internal/imap/backend.go:287-347 | STORE changes what FETCH shows of exactly the messages so meant: union, difference, or replacement of the system flags |
| ImapMeaning.CopyReaches | internal/imap/backend.go:365-393 | COPY adds the label to exactly the messages so meant and takes none away |
| ImapMeaning.OffPageUntouched | internal/imap/backend.go:287-393 | STORE and COPY leave messages off the page as they are |
| ImapMeaning.AppendShows | internal/imap/backend.go:251-285 | APPEND adds a last message, which shows exactly those of the four flags that it was given |
| ImapMeaning.ExpungeClears | internal/imap/backend.go:395-424 | EXPUNGE of a mailbox of at most one page leaves in it exactly the messages without a \Deleted row |
| ImapMeaning.ListedInOrder | internal/mailstore/pgstore.go:130-185 | a mailbox is listed in the order of creation |
| ImapMeaning.PageExactly | internal/mailstore/pgstore.go:130-207 | a page is the stretch of the list from its offset on, limit long unless the list ends first; no limit means 50 |
| Imap.RunKeepsUids | internal/imap/backend.go:433-447 | no run changes a UID of a message that is not deleted |
| ImapBackend.Mailbox.ImapUID | internal/imap/backend.go:433-447 | the message's UID, assigned now if it has none |
| ImapBackend.Mailbox.Status | internal/imap/backend.go:120-154 | MESSAGES counts the mailbox; UNSEEN is the number of its messages that do not show \Seen, if rows and columns are in step; UIDNEXT is one above its highest UID, as 32 bits |
| ImapBackend.Mailbox.ListMessages | internal/imap/backend.go:159-236 | FETCH gives each loaded message a UID and answers with exactly those whose place on the page, or whose UID, is in the set, each with its place, the UID it shows and its flags |
| ImapBackend.Mailbox.UpdateMessagesFlags | internal/imap/backend.go:287-347 | STORE flags exactly the addressed messages (`ImapMeaning.StoreReaches` says which and how) |
| ImapBackend.Mailbox.AddAll | internal/imap/backend.go:309-318 | adding flags one by one, row and column each |
| ImapBackend.Mailbox.RemoveAll | internal/imap/backend.go:319-328 | removing flags one by one, row and column each |
| ImapBackend.Mailbox.ClearKnown | internal/imap/backend.go:329-335 | clears the rows of the five system flags and the four columns, keywords kept |
| ImapBackend.Mailbox.CopyMessages | internal/imap/backend.go:365-393 | COPY labels exactly the addressed messages (`ImapMeaning.CopyReaches` says which), and changes nothing for an unknown mailbox |
| ImapBackend.Mailbox.CreateMessage | internal/imap/backend.go:251-285 | APPEND adds a message with its four flags in the columns and no others |
| ImapBackend.Mailbox.ExpungePage | internal/imap/backend.go:397-420 | one page of EXPUNGE keeps what is left of it |
| ImapBackend.Mailbox.Expunge | internal/imap/backend.go:395-424 | EXPUNGE terminates, and unlabels exactly the messages one pass takes out |
| RateLimiter.ServedSpaced | internal/api/middleware.go:249-261 | serving requests keeps admissions spaced |
| RateLimiter.AdmissionsSpaced | internal/api/middleware.go:249-261 | over any run the (i+requests)-th admission of a client comes at least a window after the i-th |
| RateLimiter.AdmitsExactly | internal/api/middleware.go:249-261 | a request is admitted if and only if fewer than `requests` of the client's admissions are less than a window old, that is if there are fewer in all or the `requests`-th latest is at least a window old |
| RateLimiter.FirstAdmitted | internal/api/middleware.go:249-261 | over any run, a client's first `requests` requests are all admitted |
| RateLimiter.NextAdmittedExactly | internal/api/middleware.go:249-261 | after any run, the next request is admitted if and only if there are fewer than `requests` admissions or the `requests`-th latest is at least a window old |
| RateLimiter.ConsistentPruned | internal/api/middleware.go:233-248 | a cleanup keeps the map in agreement with the full history of every client |
| RateLimiter.ConsistentAdmitted | internal/api/middleware.go:249-261 | an admission keeps the map in agreement with the full history of every client |
| RateLimiter.ConsistentBounded | internal/api/middleware.go:231-261 | at most `requests` entries per client, and only clients admitted less than two windows ago or just now |
| RateLimiter.RateLimiter.Prune | internal/api/middleware.go:249-254 | keeps exactly the admissions less than a window old |
| RateLimiter.RateLimiter.Cleanup | internal/api/middleware.go:234-247 | prunes every client and forgets those with nothing left |
| RateLimiter.RateLimiter.Admit | internal/api/middleware.go:231-261 | despite pruning and cleanup, admits exactly when fewer than `requests` earlier admissions in the client's full history are less than a window old, records exactly the admitted, and memory stays bounded |
| RateLimiter.RateLimiter.MemoryBounded | internal/api/middleware.go:231-261 | between requests there are at most `requests` entries per client, and only clients admitted less than two windows ago or just now |
| RateLimiter.RateLimiter.Key | internal/api/middleware.go:226-229 | the client is the first address of X-Forwarded-For, or else the peer |
| RateLimiter.RateLimiter.Handle | internal/api/middleware.go:224-264 | a request of the client so found is admitted exactly when fewer than `requests` of that client's earlier admissions are less than a window old |
| Domains.SortedUnique | internal/certmanager/manager.go:58-60 | a strictly sorted list is determined by its members |
| Domains.LessExactly | internal/certmanager/manager.go:58-60 | a name comes before another if and only if it is a proper prefix of it or has the smaller character where the two first differ |
| Domains.CanonicalMeaning | internal/certmanager/manager.go:45-61 | the canonical form is strictly sorted and holds exactly the trimmed, lowered, non-empty names |
| Domains.SameNameExactly | internal/certmanager/manager.go:45-61 | two entries, whatever blanks and line ends surround them, stand for the same name if and only if they differ in the case of letters at most |
| Domains.CanonicalIffSameNames | internal/certmanager/manager.go:45-61 | two lists have the same canonical form exactly when they name the same domains |
| Domains.CanonicalIdempotent | internal/certmanager/manager.go:45-61 | the canonical form is its own canonical form |
| Domains.CommaHidesChange | internal/certmanager/manager.go:164-169 | for all plain names a before b, the lists [a,b] and ["a,b"] join to the same string though they name different domains |
| Domains.CommaHidesExactly | internal/certmanager/manager.go:164-169 | against names without commas, the joined string hides a change if and only if some new name has a comma and the new names split at commas are the old ones |
| Domains.SortStrings | internal/certmanager/manager.go:59-59 | sorts distinct names without losing any |
| Domains.Deduplicate | internal/certmanager/manager.go:46-57 | collects each cleaned name once and no blank |
| Domains.NormalizedDomains | internal/certmanager/manager.go:45-61 | the loop returns the canonical form |
| Strings.JoinInjective | internal/certmanager/manager.go:164-169 | joining with commas loses nothing of non-empty names without a comma |
| Strings.JoinSameExactly | internal/certmanager/manager.go:164-169 | two lists join to the same string if and only if they are the same once all names are split at commas |
| Strings.NormalExactly | internal/certmanager/manager.go:48-49 | trimmed and lowered, two padded strings are equal if and only if they differ in the case of letters at most |
| CertManager.CoveredStep | internal/certmanager/manager.go:271-316 | from a covered state a step leads to one if and only if it is harmless: it does not end a Reload, by a failed obtain or half-way, beside a certificate that does not cover the new domains |
| CertManager.CoveredExactly | internal/certmanager/manager.go:271-316 | in runs of Reloads, forced renewals and the loop, with any failures, every state is covered if and only if every step is harmless |
| CertManager.CurrentCoversDomains | internal/certmanager/manager.go:271-316 | after every run of harmless steps, failed renewals among them, with no Reload under way the current certificate covers every configured domain, and without a client there is none |
| CertManager.LoadExactly | internal/certmanager/manager.go:458-505 | a Reload without a certificate serves the file of its names if and only if it is there, has not expired and names every wanted domain, and otherwise goes on to obtain |
| CertManager.PathsDiffer | internal/certmanager/manager.go:164-169 | different canonical lists without commas are kept in different files |
| CertManager.FailedObtainUncovers | internal/certmanager/manager.go:288-303 | a run that starts without files, obtains, and then fails to obtain for changed names ends covered if and only if all new names are old ones |
| CertManager.RenewRun | internal/certmanager/manager.go:361-383 | the renewal invariant holds after every run |
| CertManager.AtMostOneRenewal | internal/certmanager/manager.go:361-374 | in every interleaving at most one goroutine of a forced renewal is unfinished, and one is exactly while the flag is set |
| CertManager.ForceRenewExactly | internal/certmanager/manager.go:361-383 | in every reachable state a forced renewal is accepted, and starts a goroutine, if and only if none is unfinished, and a status then reports that |
| CertManager.StatusReportsTheLastAttempt | internal/certmanager/manager.go:361-383 | a status of not in progress returns the result of the last attempt requested before it was asked, or of a later one |
| CertManager.Manager.ObtainCertificate | internal/certmanager/manager.go:507-540 | with domains and an ACME answer the new certificate is stored and current, otherwise nothing changes |
| CertManager.Manager.LoadCertificate | internal/certmanager/manager.go:458-505 | loads the file of the joined names exactly when it is there, has not expired and names every domain; otherwise keeps what is current |
| CertManager.Manager.ApplyConfig | internal/certmanager/manager.go:131-224 | leaves the old configuration, the new one without or with a new client, or all of it, as far as it gets; and reports a change exactly when the canonical domains changed, for names without commas |
| CertManager.Manager.Settle | internal/certmanager/manager.go:296-314 | the second part of a Reload is a run: obtain if changed, else load if there is no certificate and obtain if that failed; it says exactly when that ends in an error; and from no certificate it ends well only with one that was on file unexpired and names every domain, or the one just obtained |
| CertManager.Manager.Reload | internal/certmanager/manager.go:271-316 | a Reload is a run of its critical sections, and returns an error exactly for a refused configuration or a failed obtain, also when the last domain goes; it ends well only with the canonical domains and, from no certificate, with one that was on file unexpired and names every domain, or the one just obtained |
| CertManager.UnchangedExactly | internal/certmanager/manager.go:164-169 | the comparison of joined names is a comparison of canonical lists, for names without commas |
| CertManager.ReissueIffNamesChanged | internal/certmanager/manager.go:288-303 | an enabled-to-enabled Reload re-issues exactly when the set of names changed |
| RenewalLoop.AnchoredRun | internal/certmanager/manager.go:542-590 | every legal run keeps the expiry at least RenewBefore ahead of the check the failures are counted from |
| RenewalLoop.NeverExpires | internal/certmanager/manager.go:542-590 | once found not due, the served certificate never expires before the next check is over, if at most k attempts in a row fail and (k+1) intervals and one attempt fit in RenewBefore |
| RenewalLoop.BoundIsTight | internal/certmanager/manager.go:542-590 | if they do not fit, some legal run lets the certificate expire |
| RenewalLoop.DefaultTimingsTolerate29 | internal/certmanager/manager.go:139-144 | with the default timings the condition holds exactly for k up to 29 |
| RenewalLoop.DefaultsAre | internal/certmanager/manager.go:139-144 | settings left at zero become a check once a day and a renewal 30 days ahead, others are kept |
| RenewalLoop.PromptTicksLegal | internal/certmanager/manager.go:542-590 | ticks at most an interval apart, with bounded attempts and at most k failures in a row, make a legal run |
| RenewalLoop.NextTick | internal/certmanager/manager.go:559-590 | after any ticks, the next one changes what is served if and only if less than RenewBefore is left and its attempt succeeds |
| RenewalLoop.RenewalLoop | internal/certmanager/manager.go:542-590 | the loop serves the certificate that the run of its checks ends with; after prompt ticks it is valid until the next check and its attempt are over |
| Threads.InvStep | internal/mailstore/pgstore.go:401-457 | every select, insert, reselect, commit and abort keeps the invariant of threads, subjects and locks |
| Threads.SameThreadIffSameSubject | internal/mailstore/pgstore.go:401-457 | in every interleaving of inbound calls, two completed calls have the same thread exactly when their subjects are equal |
| Threads.MessageIdsExactly | internal/mailstore/pgstore.go:401-457 | a thread holds exactly the message IDs of the completed calls that created it or appended to it, so none of a conflicting call's |
| Threads.MessageIdsOnlyGrow | internal/mailstore/pgstore.go:416-419 | message IDs are only ever appended, and no thread goes away |
| Threads.EmptyMessageIdMergesSubjects | internal/mailstore/pgstore.go:410-416 | after a call with an empty message ID, a call for another subject is given its thread |
| Threads.SubjectDecidesExactly | internal/mailstore/pgstore.go:401-457 | for calls with no in-reply-to and message IDs from a given set, the subject decides the thread in every run if and only if the set lacks the empty ID |
| Threads.ThreadStore.FindOrCreateThread | internal/mailstore/pgstore.go:401-457 | one call alone is a run of its transaction: it appends its message ID to a thread with its in-reply-to or its subject; exactly if there is none it makes a new one, or fails if the subject is longer than 64 characters |
| Recipients.OneSurvives | web/src/api.js:88-100 | one printed recipient is parsed back exactly when it is faithful |
| Recipients.ParseUndoesPrint | web/src/api.js:88-100 | for every list, parsing undoes printing exactly when every recipient is faithful |
| Recipients.PlainRecipientsSurvive | web/src/components/Compose.jsx:57-59 | names and addresses that are trimmed and free of separators, angle brackets and line breaks survive |
| Recipients.SeparatorsPart | web/src/api.js:92-100 | two texts with a comma or a semicolon between them parse to the recipients of the one and then of the other |
| Recipients.OneRecipient | web/src/api.js:92-100 | a text without either is one recipient, or none if it is blank |
| Recipients.NamedParses | web/src/api.js:93-98 | a name and an address in angle brackets, with any blanks and line ends around and between, are one recipient with that name and address |
| Recipients.CommaInNameIsLost | web/src/components/Compose.jsx:57-59 | a name with a comma never survives |
| Recipients.BadNameIsLost | web/src/components/Compose.jsx:57-59 | a name with a semicolon or a line end never survives |

## Left out

- Jobs: Redis errors, a worker that stops between taking a job and disposing of it, cancelled contexts and shutdown; all workers share one clock that never goes back. Serialising a job is taken to lose nothing.
- Jobs: the result of a processor is free, so nothing is proved about how often a processor fails.
- SendDraft: attachments, the check of addresses, the domain's sender details and the UID of the sent message; a send job may be delivered any number of times, which allows every retry.
- Inbound: threads, UIDs, search vectors and notifications of a stored copy; the reputation engine's answer and the first target whose copy cannot be stored are parameters.
- Routing: rows of an alias join come in table order; database errors other than a missing row are not modelled.
- IMAP: a listing is ordered by creation, messages of the same instant in one fixed order. SEARCH, RECENT, UIDVALIDITY and message bodies are left out. So are database errors, including the 64-character limit on a flag, and two commands that assign the same message a UID at the same moment.
- IMAP: MESSAGES and sequence numbers as 32-bit values; UIDs are converted explicitly.
- RateLimiter.RateLimiter.Admit: requires times that do not go back, for the reason given for `Handle`.
- RateLimiter.RateLimiter.Handle: requires times that do not go back in the order of the lock, because the code reads the clock before it takes the lock.
- CertManager: the ACME client, key files and the account; an obtain that fails after it has written a file; a certificate is its names and its expiry, and the server issues exactly the names asked for. The hash of the joined names is taken to lose nothing.
- CertManager: the ticker of a manager with a zero interval. An obtain without a client, which the code does not survive, is not a step.
- RenewalLoop: ticks of a disabled manager and the end of the loop's context.
- Threads: one domain and user; the references header, which the code does not use; database errors other than the length limit and an abort.
- Routing.ResolvedTargets: lowers ASCII letters only, because the model has no table of the other letters' cases.
- Routing.UnroutableExactly: lowers ASCII letters only, for the same reason.
- Domains.CanonicalMeaning: lowers ASCII letters only, for the same reason.
- Domains.SameNameExactly: lowers ASCII letters only, for the same reason.
- Strings.NormalExactly: lowers ASCII letters only, for the same reason.
- Strings: trimming knows the white space of Unicode. JavaScript strings are sequences of characters, not of UTF-16 units.
- HTTP, cookies, the reverse proxy, the admin commands, MIME, calendars, contacts, full-text search and the dynamic rate limiter would only add easy members.
