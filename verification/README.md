# Postra: a verified model of its protocols and codecs

Postra is a self-hosted mail server.  This project models the parts of it whose correctness is hardest
to see by reading: how mail is taken in without loss or duplication, how a send is bound to an approval
and survives retries, how several nodes agree on one leader, how workers wait and wake, how an OAuth
login is carried in sealed envelopes, how administrators change settings concurrently, who a
single-sign-on identity belongs to, how a reply of vectors is filed, and four codecs and transformations
(modified UTF-7, iCalendar lines, Markdown to HTML, keyset paging).

Protocols are state machines: a datatype for the state, one function per step, and lemmas over every run.
What the outside world decides -- a lost write, a refused connection, a clock, another process -- is a
parameter of the step.  Code that updates fields or runs a loop is also given as a class or a method, and
proved to take exactly those steps.  `dafny verify dfyconfig.toml` checks everything.

| file | what it models |
|---|---|
| `Ingestion.dfy`, `AccountSync.dfy` | mailbox passes over the store: pure steps, and the loops that take them |
| `SendPayload.dfy`, `ServerDelete.dfy` | what an approval's digest tells apart; deletion on the server |
| `Outbox.dfy`, `OutboxSends.dfy`, `OutboxFlow.dfy`, `OutboxRuns.dfy`, `RetryWorker.dfy`, `Backoff.dfy` | drafts, approvals, sends, any number of retry workers |
| `Lease.dfy`, `Election.dfy`, `Wakeups.dfy`, `IdleWatch.dfy` | leader lease, worker slots, leadership edge, IDLE watch |
| `OAuthProxy.dfy` | the four legs of the OAuth proxy |
| `SettingsCas.dfy`, `SettingsTable.dfy` | settings patches, compare-and-swap, secret rollback |
| `Identity.dfy`, `UserDirectory.dfy`, `IdentityRaces.dfy` | users, single-sign-on identities, administrators: whole operations, and their reads, counts and writes interleaved |
| `Embedding.dfy`, `VectorIndex.dfy` | placing and filing embedding vectors |
| `ModifiedUtf7.dfy`, `ICalendar.dfy`, `Markdown.dfy`, `Paging.dfy` | codecs and transformations |
| `Text.dfy`, `Sorting.dfy` | facts about separated text and sorting that the others share |

Assumptions that stand for code outside the model: SHA-256 digests are symbolic or injective, sealed
envelopes open only if this server sealed them under the same kind, a store transaction is atomic, and
the clocks of the nodes agree.

## What holds only under a condition

For each of these the code is modelled as it is; the condition is part of the theorem, and a further lemma
shows what happens without it.

- An outbound row is submitted at most max(1, MaxRetries) times, an unknown outcome is never followed by
  another submission, and sent, failed and uncertain are final, if no worker takes up a row that another
  is at or has been at since it was listed, and (for the first two) the record of each retry is kept
  (`OutboxFlow.OutboxSafety`, `OutboxFlow.FinalIsFinal`).  A row's status then follows from its attempts
  alone (`OutboxFlow.StatusTellsPast`, `OutboxFlow.StatusTellsLog`).  Nothing in the code enforces either: a tick looks
  at leadership once and listing claims no row.  Ticks that do not overlap meet the first condition
  (`OutboxFlow.SeparateTicksAreSolo`); two that do can undo a final status and send again with every record
  kept (`OutboxRuns.OverlappingTicks`).  A failed record is ignored, and the row is then due again whatever
  the server had answered (`OutboxFlow.LostRecordResubmits`, `OutboxRuns.UncertainGoesOutAgain`).
- A retry sends the approved version exactly if the recorded version can be read or is still current, and
  takes its sender address from the account as it is then (`Outbox.RetrySubmitsApproved`); it is the
  approved one as long as accounts keep their addresses (`Outbox.SenderIsApproved`).
- The retry delay is base times 2^(n-1), capped, exactly while the product fits an int64 or wraps to at
  least the cap (`Backoff.DelayExactIff`), in particular for the first 34 - k attempts with a base of fewer
  than 2^k seconds (`Backoff.DelayExactUpTo`); from the 56th attempt on it is always zero
  (`Backoff.DelayVanishes`).
- At most one node leads if a node releases the lease row only while its own lease is live
  (`Lease.AtMostOneLeader`, `Lease.UnguardedReleaseBreaks`); between giving up the row and stepping down,
  a releasing node still says it leads (`Lease.ReleaseWindow`).
- A slot is granted only below the limit in force unless the limit was lowered after the thread had read
  it (`Wakeups.GrantedBelowLimitUnlessLowered`, `Wakeups.OverGrantedIff`, `Wakeups.LoweredLimitRace`).
- The IDLE watch misses nothing if the server reports counts and a sync it asks for starts, or the sync in
  its way began with everything counted (`IdleWatch.NoMailMissed`); a refused sync is remembered as done
  (`IdleWatch.RefusedSyncIff`, `IdleWatch.MailMissed`).  Its reconnect delay reaches 160 seconds, not the
  two minutes named as the maximum, because the cap is checked before doubling (`IdleWatch.WaitBounds`).
- No live minted reference is revoked if references cannot be guessed: a new one stands nowhere yet, a
  request names a minted one only if the public settings it is made on do, and nothing else that is
  written names one (`SettingsCas.NoLiveReferenceRevoked`).  Otherwise a reference written between a
  rollback's check and its revocation ends live and revoked (`SettingsCas.CheckThenRevokeRace`).
- The body part of the send digest joins text and HTML with one NUL, so it is ambiguous exactly when one
  of them holds a NUL (`SendPayload.BodiesAmbiguousIffNul`); addresses are joined with commas, so a comma
  that is not inside a quoted part would make them ambiguous too (`SendPayload.BareCommaCollides`).
- What ServerDelete takes as stored has been stored, but a message deleted locally keeps its checkpoint,
  so its server copy stays deletable with no local copy left (`ServerDelete.DeletableButGone`).
- A cursor that ListDrafts hands out is accepted back exactly when its key has a positive time, an id and
  an encoding of at most 512 characters (`Paging.CursorRefusedIff`).
- User operations read a row, may count administrators, and write the whole row later.  However these
  interleave, at most one user holds an identity (`IdentityRaces.EveryInterleavingUnique`).  A
  write that leaves no active administrator was overtaken: since its count all those counted are gone, or
  since its read the user has become one (`IdentityRaces.LostOnlyIfOvertaken`,
  `IdentityRaces.CountedWriteLosesIff`), as when two demotions pass the count together
  (`IdentityRaces.LastAdminRace`).  So one remains as long as what was read and counted still stands at
  the write (`IdentityRaces.CalmRunsKeepAdmin`), which operations that do not overlap ensure
  (`IdentityRaces.SeparateIsCalm`).  Under the same condition a bound identity ends only by a tombstone
  (`IdentityRaces.CalmBindingLasts`); a write of a row read earlier can undo a link or a tombstone
  (`IdentityRaces.LinkUndone`, `IdentityRaces.TombstoneUndone`), and nothing else can
  (`IdentityRaces.BindingStep`).

## Model

| member | source | states |
|---|---|---|
| `Ingestion.ReadIsExact` | internal/application/sync.go:535-540 | for every size limit, non-positive and MaxInt64 included, the size check passes exactly the messages within it, what passes is the whole message, and at most one octet over the limit is read |
| `Ingestion.VisitExact` | internal/application/sync.go:301-337 | one turn of the loop keeps Seen = New + Duplicate + Failed + Oversize, attempted = fetched + failed, and the cap |
| `Ingestion.PassExact` | internal/application/sync.go:438-471 | the same at the end of a whole pass, wherever it is cut |
| `Ingestion.VisitTells` | internal/application/sync.go:301-337 | what a visit counts is what it did: new is one row more, of this message, not held before; a duplicate was known and adds no row; failed and oversize change nothing and have their reason; one counter goes up by one |
| `Ingestion.PassStoresNew` | internal/application/sync.go:301-337 | a pass adds exactly as many rows as it counts new, each of a message it listed, and removes none |
| `Ingestion.PassEnds` | internal/application/sync.go:301-313 | a pass goes through the whole listing unless it is cancelled or has fetched as many as it may |
| `Ingestion.VisitStoresIff` | internal/application/sync.go:555-637 | when only the dedup reads may fail, a message is stored exactly if it is not held, no checkpoint read for it stops it and, in the Sent folder, no sent copy with its Message-ID is found |
| `Ingestion.VisitCheckpoints` | internal/application/sync.go:555-637 | a visit checkpoints nothing but its message, and does so when the writes work |
| `Ingestion.FailedMeansNothingGotThrough` | internal/application/sync.go:338-363 | a job is failed exactly when something failed, nothing was fetched and no sent mail was new; cancelled exactly when a pass was; succeeded exactly when nothing failed |
| `Ingestion.EveryRunKeeps` | internal/application/sync.go:552-709 | in every run of passes, sent copies and local deletions, with any faults, no raw hash is held twice and every checkpoint stands for content that was stored |
| `Ingestion.VisitSaves` | internal/application/sync.go:555-637 | whatever the dedup reads answer or fail to answer, a visited fetchable message ends up saved |
| `Ingestion.CompletePassSaves` | internal/application/sync.go:301-337 | an uncut, uncapped pass saves every fetchable message it lists, whatever happens to the others |
| `Ingestion.Converges` | internal/application/sync.go:552-709 | after any run, however cut, one more uncut and uncapped pass saves every fetchable message listed |
| `Ingestion.WithoutDeletionAllHeld` | internal/application/sync.go:643-709 | unless the user deletes locally, everything ever stored is still held |
| `Ingestion.HeldAfterVisit` | internal/application/sync.go:555-637 | an inbox message is held after its visit exactly if it was held before or no checkpoint stopped it |
| `Ingestion.DeletedStaysDeleted` | internal/application/delete.go:13-36 | a message deleted locally is not fetched again: its checkpoint remains |
| `Ingestion.SentIsRecorded` | internal/application/send.go:442-463 | the copy of what was sent becomes one row of the Sent folder unless that content is there, even if its check fails, or a sent copy of that Message-ID is found |
| `AccountSync.Account.SyncFolder` | internal/application/sync.go:301-337 | the loop over a folder takes exactly the steps of a pass, its counters are exact, and it adds as many rows as it counts new |
| `AccountSync.Account.IngestOne` | internal/application/sync.go:555-637 | the three dedup layers and the store on the account's tables are the ingestion step |
| `AccountSync.Account.StoreMessage` | internal/application/sync.go:643-709 | object, row and checkpoint are written in that order, each of which may fail; new is answered exactly for an inserted row, duplicate exactly for a digest already there, and a failure leaves the tables alone |
| `AccountSync.Account.IsDuplicateHash` | internal/application/sync.go:586-593 | the search finds a row exactly if one has the digest |
| `SendPayload.PayloadHashBinds` | internal/application/send.go:28-53 | two sendable payloads have the same digest exactly when they are the same mail up to display names and the case of addresses; commas inside the quoted part of an address are allowed |
| `SendPayload.BodiesAmbiguousIffNul` | internal/application/send.go:33-45 | the body part of the digest can be confused with another pair of bodies exactly when one holds a NUL |
| `SendPayload.EmptyAddressCollides` | internal/application/send.go:47-53 | no recipient and one empty recipient read the same |
| `SendPayload.QuotedCommaIsWhole` | internal/application/send.go:92-113 | an address with a quoted comma, which mail.ParseAddress accepts, is within what the digest tells apart |
| `SendPayload.BareCommaCollides` | internal/application/send.go:47-53 | an address with a bare comma and the two addresses around it would read the same |
| `SendPayload.SendIsNotDelete` | internal/application/delete.go:54-65 | no approval to send is an approval to delete |
| `ServerDelete.DeleteHashBinds` | internal/application/delete.go:54-65 | two newline-free lists of one account have the same digest exactly when they hold the same ids equally often |
| `ServerDelete.TargetsExact` | internal/application/delete.go:155-183 | the messages marked are exactly those listed, approved and stored |
| `ServerDelete.AnsweredPartition` | internal/application/delete.go:171-194 | marked and skipped messages together are exactly those DELE was sent for, each once |
| `ServerDelete.AnsweredExact` | internal/application/delete.go:171-183 | an id is reported under an answer exactly if some wanted message of that id got it |
| `ServerDelete.MarkAll` | internal/application/delete.go:171-183 | DELE is sent for the targets; an id is marked exactly if a DELE of it was accepted and skipped exactly if one was refused |
| `ServerDelete.Delete` | internal/application/delete.go:138-194 | without the approval of this very list nothing is deleted; every DELE is both approved and stored; what is reported deleted or uncertain was accepted by the server, what is skipped was refused, and conversely; which of the first two is decided by QUIT; the three partition the attempts |
| `ServerDelete.ApprovedListOnly` | internal/application/delete.go:138-147 | the list under one token cannot be widened |
| `ServerDelete.DeletableWasStored` | internal/application/delete.go:138-194 | in every run what deletion takes as stored has been stored, and is still held if nothing was deleted locally |
| `ServerDelete.DeletableButGone` | internal/application/delete.go:13-36 | a locally deleted message stays deletable on the server |
| `Outbox.StepKept` | internal/application/compose.go:260-329 | no step removes or changes a version, un-uses an approval, rebinds a row or unsends a submission |
| `Outbox.ConsumedTokenIsNew` | internal/application/send.go:72-81 | a token that can be consumed stands behind no row and no other send |
| `Outbox.UsedInTime` | internal/adapters/persistence/store.go:2086-2107 | in every run an approval is used up only by a send that names it, and before the time it was issued for has run out: ten minutes unless the request said otherwise |
| `Outbox.StepKeeps` | internal/application/send.go:306-368 | every step keeps the binding of approvals, sends, rows and submissions |
| `Outbox.SubmissionsAreApproved` | internal/application/send.go:306-368 | in every interleaving each submission carries a version over which an approval of the same mail and account was issued; the approval was used up before the step that creates the row, and two rows never share one |
| `Outbox.EditRevokes` | internal/application/compose.go:260-329 | once a draft has been edited, a send of it with any approval issued before is refused and changes nothing else |
| `Outbox.RetrySubmitsApproved` | internal/application/scheduler.go:90-119 | in every run a retry submits exactly the approved version and sender if and only if the recorded version is readable or still current and the account's address is unchanged |
| `Outbox.SenderIsApproved` | internal/application/send.go:373-436 | as long as accounts keep their addresses every submission, first or retried, goes out under the approved sender |
| `OutboxSends.OneRowPerKey` | internal/application/send.go:332-368 | in every run, however sends interleave, there is one row per idempotency key, and it stays the first one |
| `OutboxSends.ApprovedGoesOut` | internal/application/send.go:306-532 | on any state, a draft that may be sent, approved and then sent under a new key, goes out once, as approved, exactly if the approval has not expired; its row has the status, count and next time that the outcome calls for; otherwise nothing is sent and no row changes |
| `OutboxSends.ClosedIsFrozen` | internal/adapters/persistence/store.go:2000-2024 | once a draft is closed, no run adds a version to it or opens it |
| `OutboxFlow.StepFlow` | internal/application/send.go:493-532 | with any number of workers, a row waits in queued for its one send, and a listed row was waiting when it was listed and is never queued again |
| `OutboxFlow.FinalIsFinal` | internal/application/send.go:493-532 | sent, failed and uncertain never change again, lost writes included, and nothing more is submitted, if no worker takes up a row another is at or has been at since it was listed |
| `OutboxFlow.OutboxSafety` | internal/application/scheduler.go:90-119 | under that condition and with the records kept, a row is submitted at most max(1, MaxRetries) times and only a temporary refusal is followed by another submission |
| `OutboxFlow.LogIsPast` | internal/application/send.go:373-436 | in every run the SMTP log of a row holds exactly the attempts on it that were not blocked, in order |
| `OutboxFlow.StatusTellsPast` | internal/application/send.go:493-532 | under that condition a row that is not queued or being retried has the one status its history of attempts deserves, its count is the number of attempts, and if it waits it is due a backoff after its last outcome was recorded |
| `OutboxFlow.StatusTellsLog` | internal/application/send.go:493-532 | under that condition a sent row's last submission was accepted, an uncertain row's last answer was lost, a failed row has neither in its log; and an accepted message is recorded as sent, one of unknown outcome as uncertain, one refused for good as failed |
| `OutboxFlow.SeparateTicksAreSolo` | internal/application/scheduler.go:70-86 | ticks that do not overlap, which is what leadership is for, meet the condition in every run |
| `OutboxFlow.OnlyStaleListsUndo` | internal/application/scheduler.go:90-119 | in any run at all a final row is changed only by a worker that listed it while it was still waiting |
| `OutboxFlow.LostRecordResubmits` | internal/application/send.go:493-532 | after any retry whose record is lost, the next tick submits the row again whatever the server had answered |
| `OutboxRuns.UncertainGoesOutAgain` | internal/application/send.go:493-532 | a run from the empty system in which a record is lost and one worker sends a message with an unknown outcome a second time |
| `OutboxRuns.OverlappingTicks` | internal/application/scheduler.go:90-119 | a run from the empty system with every record kept in which two overlapping ticks turn an uncertain row back to waiting and send it again, beyond MaxRetries |
| `RetryWorker.Outgoing.ApplySendResult` | internal/application/send.go:493-532 | sent exactly for an accepted delivery, uncertain exactly for a lost answer, waiting exactly for a temporary refusal with retries left, otherwise failed; with the count and the next time |
| `RetryWorker.Outgoing.ListDueRetries` | internal/adapters/persistence/store.go:2162-2182 | lists due rows, each once, the earliest first, at most the limit, and all of them if they are not more |
| `RetryWorker.Outgoing.ProcessRetries` | internal/application/scheduler.go:90-119 | an uninterrupted tick is a run of the system: the earliest due rows, at most fifty, are listed, each has one turn in that order, and no other row changes |
| `RetryWorker.TickEffect` | internal/application/scheduler.go:90-119 | what the steps of an uninterrupted tick do to the rows listed and to all others |
| `Backoff.RetryBackoff` | internal/application/send.go:552-563 | the doubling loop on a wrapping int64 gives the wrapped product, capped |
| `Backoff.DelayExactIff` | internal/application/send.go:551-563 | the delay is min(base times 2^(n-1), max) exactly when the product fits or wraps to at least the cap |
| `Backoff.DelayExactUpTo` | internal/application/send.go:551-563 | a bound to check beforehand: with a base of fewer than 2^k seconds the first 34 - k delays are exact |
| `Backoff.DelayGrows` | internal/application/send.go:552-563 | without overflow the delay never decreases |
| `Backoff.DelayVanishes` | internal/application/send.go:552-563 | from the 56th attempt on the delay is zero for every base |
| `Lease.StepKeeps` | internal/application/app.go:605-674 | every step of an election or a guarded release keeps each leader's claim on the row |
| `Lease.AtMostOneLeader` | internal/application/app.go:605-674 | at any time of any run at most one node leads within its lease |
| `Lease.StaleBeliefIsBounded` | internal/application/app.go:572-592 | a node that cannot renew believes it leads for at most eleven seconds after its lease ended |
| `Lease.StaleBeliefLasts` | internal/application/app.go:572-650 | a run from the start in which it does for the full eleven seconds, so the bound is exact |
| `Lease.RefusedStepsDown` | internal/application/app.go:640-650 | a node that acts on a refusal stops leading at once and, in any run, until it acts on another answer |
| `Lease.GrantLeads` | internal/application/app.go:618-650 | a node leads after acting exactly on a grant, or on an error while its own lease lasts; only a grant moves the end of the lease, to a lease after it asked |
| `Lease.AnswerIff` | internal/adapters/persistence/store.go:2649-2704 | the row is granted exactly if there is none, it is the node's own or it expired |
| `Lease.ReleaseFrees` | internal/application/app.go:652-674 | a release by a leader frees the row for every node, and ends the node's elections |
| `Lease.UnguardedReleaseBreaks` | internal/application/app.go:652-674 | a run from the start in which a node releases after its lease ended and two others lead |
| `Lease.ReleaseWindow` | internal/application/app.go:652-674 | a run from the start with guarded releases in which a node has given up the row and still says it leads while another does |
| `Election.Elector.ElectLeader` | internal/application/app.go:618-650 | acting on the lease answer is the step of the protocol, and a change of leadership closes the edge channel that was out |
| `Wakeups.NoLostWakeUp` | internal/application/live_workers.go:75-118 | under every interleaving the counter is the number of holders, never above the highest limit set, and a release closes every waiter's channel |
| `Wakeups.OverGrantedIff` | internal/application/live_workers.go:75-90 | in every run a try is granted at or above the limit in force exactly when the slots in use lie between that limit and the one it had read |
| `Wakeups.GrantedBelowLimitUnlessLowered` | internal/application/live_workers.go:75-90 | in every run a slot is granted only below the limit then in force, unless a lower limit was set after the thread read it and before it tried |
| `Wakeups.RefusedWaitsOnOpenChannel` | internal/application/live_workers.go:75-110 | a refused thread waits on a channel that is still open |
| `Wakeups.WokenGetsFreeSlot` | internal/application/live_workers.go:75-118 | in every run a slot given back can be had by a waiter: it wakes on the closed channel, and its next try succeeds if the slots in use are below the limit |
| `Wakeups.LoweredLimitRace` | internal/application/live_workers.go:75-90 | a limit lowered between its reading and the lock admits one holder too many |
| `Wakeups.NoMissedEdge` | internal/application/app.go:497-532 | an edge channel taken before reading IsLeader is closed by any later change |
| `Wakeups.LeaderFlag.SetLeaderState` | internal/application/app.go:497-520 | a change closes the channel that is out and makes a new one; a rising edge is reported |
| `IdleWatch.NoMailMissed` | internal/application/idle.go:190-305 | across every yield, fault, restart and other sync, whatever was counted when an idling watch connected was there when some sync began |
| `IdleWatch.RefusedSyncIff` | internal/application/idle.go:287-305 | after a refused sync the reconnected watch asks again if more arrived; otherwise it has missed nothing exactly if the latest sync began with everything counted |
| `IdleWatch.MailMissed` | internal/application/idle.go:287-305 | a run in which a refused sync leaves a message unsynced under an idling watch |
| `IdleWatch.WithoutCountsOnlyOnce` | internal/application/idle.go:244-270 | in every run with a server without counts, a watch past its first sync idles on every later connection however much has arrived |
| `IdleWatch.RestartAsks` | internal/application/idle.go:190-264 | a watch that starts anew asks for a sync on its first connection, whatever the server counts |
| `IdleWatch.TurnIsSteps` | internal/application/idle.go:244-285 | one call of idleOnce is a run of the watch's steps that leaves in seen what the loop carries on |
| `IdleWatch.IdleOnce` | internal/application/idle.go:244-285 | the count returned and whether a sync was asked for |
| `IdleWatch.IdleLoop` | internal/application/idle.go:187-224 | the loop carries the last count; it does not pause after a sync, pauses five seconds after a first fault, and then twice the last pause while that was below two minutes |
| `IdleWatch.WaitBounds` | internal/application/idle.go:191-222 | the delay stays between 5 and 160 seconds, never shrinks within a streak, and stops at 160 |
| `OAuthProxy.ResolveProxyScopes` | internal/application/mcp_oauth_proxy.go:455-470 | the loops compute the resolved scopes |
| `OAuthProxy.ResolveScopes` | internal/application/mcp_oauth_proxy.go:455-470 | only supported scopes are granted: exactly the requested ones among them if there are any, otherwise exactly the defaults among them |
| `OAuthProxy.MatchesIffSameTarget` | internal/application/mcp_oauth_proxy.go:271-285 | a redirect target is admitted exactly if it is the registered string, or an http URL of a loopback host equal to the registered one in every part but the port, with no user and no fragment |
| `OAuthProxy.AuthenticatesIffProved` | internal/application/mcp_oauth_proxy.go:681-705 | a client is let in exactly if it was registered without a secret or presents the one whose hash is on record |
| `OAuthProxy.OffOrUnknownDoesNothing` | internal/application/mcp_oauth_proxy.go:500-806 | while the proxy is off, or for a client that is not registered any more, no leg does anything |
| `OAuthProxy.SwitchedOff` | internal/application/mcp_oauth_proxy.go:500-806 | once the proxy is switched off no run records or seals anything until it is configured again |
| `OAuthProxy.RegistrationLasts` | internal/application/mcp_oauth_proxy.go:681-705 | a registration cannot be overwritten, and once it is forgotten nothing is done in its name |
| `OAuthProxy.RunKeeps` | internal/application/mcp_oauth_proxy.go:152-187 | in every run each event and envelope is grounded in the one before it |
| `OAuthProxy.ExchangeProvenance` | internal/application/mcp_oauth_proxy.go:500-806 | each upstream exchange goes back through one code, one state and one allowed consent with its nonce to a request of the same client; its target is the one requested and is a registered string or the same loopback URL on another port, its scopes are supported ones requested or defaults, its challenge is the S256 of the verifier, its client proved itself, and at most 1290 seconds plus the legs' own latency lie between |
| `OAuthProxy.RefreshProvenance` | internal/application/mcp_oauth_proxy.go:719-806 | every refresh envelope was sealed by a code exchange of its client or by a refresh that goes back, envelope by envelope, to one, and that exchange has the whole chain above |
| `OAuthProxy.HonestLoginSucceeds` | internal/application/mcp_oauth_proxy.go:500-806 | on any state of the proxy, a request it has no reason to refuse, carried through consent, login and exchange within 600, 600 and 90 seconds, is exchanged with the upstream code it brought and gets a refresh envelope |
| `OAuthProxy.FirstLogin` | internal/application/mcp_oauth_proxy.go:500-806 | from a proxy without clients or envelopes, switching it on and registering a client is enough for that login to succeed |
| `OAuthProxy.RenewWorks` | internal/application/mcp_oauth_proxy.go:765-806 | a refresh envelope is good for a new one at any later time |
| `SettingsCas.Serializable` | internal/application/settings_service.go:189-270 | in every run the public settings are those of one serial order in which each committed patch was computed from exactly the public settings it replaced |
| `SettingsCas.RevisionGuards` | internal/application/settings_service.go:114-119 | a patch made on the revision of an earlier state commits only onto that state's public settings |
| `SettingsCas.BeginExactly` | internal/application/settings_service.go:189-203 | a request opens a patch exactly if it names no revision or that of the settings as they are |
| `SettingsCas.CommitExactly` | internal/application/settings_cas.go:16-33 | a commit writes all computed updates exactly if the public settings are still those read and the store does not fail, and the patch is told so exactly if the answer arrives |
| `SettingsCas.CheckExactly` | internal/application/settings_cas.go:35-81 | the sweep after a commit is over what was replaced, any other over what the patch registered itself |
| `SettingsCas.RefusedChangesNothing` | internal/application/settings_service.go:189-270 | in any run, all steps of a patch that the history does not show as saved, from its beginning to its end, leave every setting as it was |
| `SettingsCas.ToldIsSaved` | internal/application/settings_cas.go:16-33 | in any run a patch that was told it committed is in the history |
| `SettingsCas.InternalWritesNeverConflict` | internal/domain/settings.go:8-25 | between read and commit only a write to a public key can make the commit conflict |
| `SettingsCas.NoLiveReferenceRevoked` | internal/application/settings_cas.go:35-81 | in every run of patches, whatever their commits answered and lost answers included, no minted reference live in the settings is revoked, if references cannot be guessed |
| `SettingsCas.CommitWritesNothingDoomed` | internal/adapters/persistence/settings_cas.go:18-61 | by the compare-and-swap, a patch that commits a minted reference minted it itself or read it in settings that are still the same, so no rollback is about to revoke it |
| `SettingsCas.FairRunExists` | internal/application/settings_service.go:189-270 | a run that meets the conditions, in which one patch commits a secret and another is refused and revokes its own |
| `SettingsCas.LostCommitKeepsItsReferences` | internal/application/settings.go:268-341 | the rollback after a commit whose answer was lost keeps every reference it wrote |
| `SettingsCas.CheckThenRevokeRace` | internal/application/settings_cas.go:35-81 | a run from the empty system in which a guessed reference is written between a rollback's check and its revocation and ends live and revoked |
| `SettingsTable.AdminSettingsSnapshot` | internal/domain/settings.go:17-25 | the copy holds exactly the keys outside the internal namespace |
| `SettingsTable.Table.CompareAndSwapAdminSettings` | internal/adapters/persistence/settings_cas.go:18-61 | all updates or none are written, exactly when the public snapshots agree, no write fails and the commit takes place; committed, conflict and error are told apart |
| `SettingsTable.Table.RevokeUnreferenced` | internal/application/settings_cas.go:35-81 | exactly the references no setting names and no account holds are revoked, or none if a read fails |
| `SettingsTable.Table.IsReferenced` | internal/application/settings_cas.go:69-76 | the inner loop finds a value that contains the reference exactly if there is one |
| `SettingsTable.WholeSweep` | internal/application/settings_cas.go:65-81 | the steps of one sweep revoke exactly the candidates that no account holds and no setting names: what was registered if the patch was not told of a commit, what was replaced if it was |
| `Identity.EveryRunKeeps` | internal/application/auth.go:295-379 | over every sequence of operations at most one user holds an identity, and once an active administrator exists one always remains |
| `Identity.StepBinding` | internal/application/auth.go:373-379 | every whole operation leaves a bound identity as it is or tombstones its user |
| `Identity.BindingLasts` | internal/application/oidc.go:441-507 | over any run of whole operations that does not tombstone the user the bound identity is the same |
| `Identity.LoginReturnsActiveHolder` | internal/application/oidc.go:441-507 | whoever a login returns is active and holds exactly the identity asserted |
| `Identity.LinkRules` | internal/application/oidc.go:639-694 | an account is adopted only if active, unbound, local or preprovisioned for this issuer with the verified address, never on an unverified address alone, and never against a different address |
| `Identity.LinksExactly` | internal/application/oidc.go:639-694 | an account is adopted exactly if it is the one found by the trusted address, or else by an uncontradicted user name, may be adopted, and the write goes through; it gets the identity, an address if it had none, and otherwise stays as it was |
| `Identity.CreatesExactly` | internal/application/oidc.go:473-507 | where no account is found a login creates one exactly if accounts may be created and the write goes through, under the first name that is not blank, and changes nothing else |
| `Identity.LoginRoles` | internal/application/oidc.go:473-507 | a login makes nobody an administrator but the user it returns for the first time, and that one exactly if the identity provider says so; nobody loses the role |
| `Identity.NobodyPromoted` | internal/application/auth.go:245-335 | over every run in which no administrator names one, none is set up and no login carries the claim, the active administrators do not grow |
| `Identity.PreprovisionedThenLogin` | internal/application/admin_mail_provision.go:205-222 | an account set up for a provider and an address is the one its owner's first login gets, in the role the claim gives |
| `Identity.CreatedThenLogin` | internal/application/auth.go:245-277 | so is a local account created with that address, in the role it was given or the one claimed |
| `Identity.SetupExactly` | internal/application/auth.go:118-160 | an administrator is set up only where there is none, and is then the only one |
| `Identity.FailedWrites` | internal/application/oidc.go:441-507 | an operation whose writes fail changes no row |
| `Identity.SameUserAgain` | internal/application/oidc.go:441-507 | after a login and any run that neither tombstones nor disables the user, the next login of that identity returns the same user and changes nothing |
| `Identity.RacingLogins` | internal/application/oidc.go:492-500 | two first logins of one identity that missed each other end at the same user and the second writes nothing |
| `Identity.EditKeepsAdmin` | internal/application/auth.go:295-335 | editing a user leaves an active administrator |
| `Identity.EditExactly` | internal/application/auth.go:295-335 | an edit sets what it names and nothing else, exactly unless it would demote or disable the only active administrator |
| `Identity.DeleteKeepsAdmin` | internal/application/auth.go:337-371 | deleting a user leaves an active administrator |
| `Identity.DeleteExactly` | internal/application/auth.go:337-379 | a deletion leaves a row without address or identity and changes no other, exactly unless it is of oneself or of the only active administrator |
| `UserDirectory.Directory.CountAdmins` | internal/adapters/persistence/store.go:567-571 | the count is the number of active administrators |
| `UserDirectory.OidcRole` | internal/application/oidc.go:306-316 | a login claims the administrator's role exactly if one of its groups is the configured one, a leading slash aside |
| `UserDirectory.Directory.AdminEditUser` | internal/application/auth.go:295-335 | the stored rows after an edit are those of the step, and an administrator remains |
| `UserDirectory.Directory.AdminDeleteUser` | internal/application/auth.go:337-371 | the stored rows after a deletion are those of the step, and an administrator remains |
| `UserDirectory.Directory.LinkExistingLocalUser` | internal/application/oidc.go:639-670 | the candidate is linked exactly when it is linkable and the update goes through |
| `UserDirectory.Directory.ResolveOidcIdentity` | internal/application/oidc.go:441-507 | table and outcome of a login are those of the step, and the only user it makes an administrator is the one it returns for the first time with the claim |
| `IdentityRaces.EditIsThreeSteps` | internal/application/auth.go:295-335 | an edit is the reading, counting and writing steps taken without interruption |
| `IdentityRaces.DeleteIsThreeSteps` | internal/application/auth.go:337-371 | a deletion is the same three steps |
| `IdentityRaces.SetupIsTwoSteps` | internal/application/auth.go:118-160 | setting up the first administrator on a row that is there is reading and writing |
| `IdentityRaces.LinkIsTwoSteps` | internal/application/oidc.go:639-670 | so is adopting the account found for a first login |
| `IdentityRaces.EveryInterleavingUnique` | internal/application/oidc.go:441-507 | however reads, counts and writes interleave, stale writes included, at most one user holds an identity or a login |
| `IdentityRaces.LostOnlyIfOvertaken` | internal/application/auth.go:307-327 | in every interleaving, a step that leaves no active administrator is the write of an operation that was overtaken: all the other administrators it had counted are gone, or the user it read as no administrator has become one |
| `IdentityRaces.CountedWriteLosesIff` | internal/application/auth.go:307-327 | a counted write, with nobody made an administrator since its count, leaves none exactly if all those it counted are gone |
| `IdentityRaces.AdminRemains` | internal/application/auth.go:295-371 | an active administrator remains in every interleaved run in which no write comes from an overtaken operation |
| `IdentityRaces.CalmRunsKeepAdmin` | internal/application/auth.go:295-371 | an active administrator remains in every interleaved run in which, at each write, the row read is unchanged and none of those counted has gone |
| `IdentityRaces.SeparateIsCalm` | internal/application/auth.go:295-371 | operations that do not overlap meet that condition in every run |
| `IdentityRaces.LastAdminRace` | internal/application/auth.go:307-327 | a run from the empty table in which two demotions pass the count together and no administrator is left |
| `IdentityRaces.BindingStep` | internal/application/auth.go:373-379 | in every interleaved run a bound identity stays, is tombstoned, or is overwritten by an operation that read the row before it was bound |
| `IdentityRaces.CalmBindingLasts` | internal/application/oidc.go:639-670 | where what was read still stands at each write, only a tombstone ends a binding |
| `IdentityRaces.TombstoneUndone` | internal/application/oidc.go:414-421 | a run in which a last-login write begun before a deletion makes the deleted user active again |
| `IdentityRaces.LinkUndone` | internal/application/auth.go:295-335 | a run in which an edit read before an account was linked undoes the link |
| `Embedding.Embed` | internal/adapters/ai/openai.go:426-455 | a reply is accepted exactly when it is well formed, and then each vector is in the slot its item names and no other slot is filled |
| `Embedding.Pigeonhole` | internal/adapters/ai/openai.go:426-455 | n different indexes below n are all of them |
| `Embedding.EverySlotFilled` | internal/adapters/ai/openai.go:426-455 | in an accepted reply every input has exactly one nonempty vector |
| `Embedding.ValidateEmbeddingVectors` | internal/application/semantic.go:192-211 | accepts exactly the expected number of finite vectors of one nonzero length |
| `Embedding.PlacedIsUsable` | internal/application/semantic.go:188-211 | what Embed accepts passes that check |
| `Embedding.UsableIsPlaced` | internal/adapters/ai/openai.go:426-455 | vectors that pass the check, sent in any order with their indexes or in order without, are accepted and end up in their slots |
| `VectorIndex.GroupFiled` | internal/application/semantic.go:172-185 | saving one account's group files each vector under its own message |
| `VectorIndex.GroupOnly` | internal/application/semantic.go:172-185 | saving one account's group writes nothing else |
| `VectorIndex.ValidExactly` | internal/application/semantic.go:126-159 | what is embedded is exactly what was found and has text |
| `VectorIndex.MarkedExactly` | internal/application/semantic.go:144-148 | what was found without text is marked as done and no other key is touched |
| `VectorIndex.AllFiled` | internal/application/semantic.go:172-185 | on success every message with text has its own vector, under the account asked for or else under its own |
| `VectorIndex.Vectors.EmbedMessagesBatch` | internal/application/semantic.go:116-187 | no vector is written unless the whole reply is usable; a vector is only ever filed under its own message and account, even if a save fails half-way; on success every message has its vector |
| `VectorIndex.Vectors.GroupByAccount` | internal/application/semantic.go:172-180 | the grouping loop gives every account its items in order |
| `ModifiedUtf7.DecodeModifiedUtf7` | internal/adapters/imap/mailbox.go:97-130 | the index loop computes the decoding |
| `ModifiedUtf7.FillUnits` | internal/adapters/imap/mailbox.go:123-126 | the units array holds the big-endian pairs |
| `ModifiedUtf7.NoAmpersandUnchanged` | internal/adapters/imap/mailbox.go:97-100 | text without & is unchanged |
| `ModifiedUtf7.RoundTrip` | internal/adapters/imap/mailbox.go:94-130 | decoding the encoding of section 5.1.3 of RFC 3501 gives every Unicode text back |
| `ModifiedUtf7.EncodeInjective` | internal/adapters/imap/mailbox.go:94-130 | two names share an encoding only if they are the same |
| `ModifiedUtf7.OctetsOfDigits` | internal/adapters/imap/mailbox.go:118-122 | regrouping octets into six-bit digits and back loses nothing, leftover bits included |
| `ModifiedUtf7.Utf16RoundTrip` | internal/adapters/imap/mailbox.go:123-127 | text to code units and back is the identity |
| `ModifiedUtf7.UnitsSurviveIffPaired` | internal/adapters/imap/mailbox.go:123-127 | code units survive decoding exactly when every surrogate is paired |
| `ICalendar.IcsLine` | internal/application/calendar.go:132-155 | the folding loop joins the pieces of the escaped line |
| `ICalendar.ReadLine` | internal/application/calendar.go:132-155 | unfolding and unescaping a line returns its name and its value with line breaks normalised |
| `ICalendar.LinesFit` | internal/application/calendar.go:139-154 | every physical line has at most 75 octets, the continuation space included |
| `ICalendar.LinesAreValidUtf8` | internal/application/calendar.go:139-170 | no code point of a text that is valid UTF-8 (section 4 of RFC 3629) is split by a fold |
| `ICalendar.UnescapeEscape` | internal/application/calendar.go:135-137 | escaping is undone up to line breaks |
| `ICalendar.EscapeIsText` | internal/application/calendar.go:135-137 | for every value the escaped form is TEXT of section 3.3.11 of RFC 5545: backslashes, commas, semicolons and line breaks stand only in escapes |
| `ICalendar.SeparatorsEscaped` | internal/application/calendar.go:135-137 | in such a text every comma and semicolon follows a backslash |
| `ICalendar.CutKeepsValid` | internal/application/calendar.go:165-170 | cutting at a boundary leaves two valid texts |
| `Markdown.MarkdownHtml` | internal/mailrender/markdown.go:18-142 | for every input the output is well nested when read as a string, has no anchor within an anchor, links only to http, https and mailto URLs without white space, and shows only text of the body, in order; of a body without links, fences and tables, whose captured texts are their whole lines, it shows every character but the signs of the syntax |
| `Markdown.UnescapeEscape` | internal/mailrender/markdown.go:144-218 | a reader that resolves the entities sees the text that was escaped |
| `Markdown.TargetIsHref` | internal/mailrender/markdown.go:155-186 | no link target breaks out of its attribute: what a reader finds between the quotes, resolved, is the target checked |
| `Markdown.InlineMarkdown` | internal/mailrender/markdown.go:144-218 | for every text and depth the output is balanced, escapes all text, links only to safe targets, opens no anchor within another, and none at all without link syntax |
| `Markdown.LinkOrImage` | internal/mailrender/markdown.go:155-186 | a link or image is rendered by its label, with an anchor only around a safe target |
| `Markdown.Emphasis` | internal/mailrender/markdown.go:187-206 | an emphasis is rendered by its content within one element |
| `Markdown.TextInlineParagraph` | internal/mailrender/markdown.go:129-131 | the output is the rendered text with every newline of the string replaced by a break, in a paragraph, and is balanced |
| `Markdown.BreaksOnlyInText` | internal/mailrender/markdown.go:129-131 | the newline replacement never lands inside a tag or an attribute |
| `Markdown.ScanRender` | internal/mailrender/markdown.go:18-116 | reading the rendered string finds exactly the nesting of the pieces |
| `Markdown.EscapedClean` | internal/mailrender/markdown.go:144-218 | escaped text holds no markup character and keeps its line breaks |
| `Markdown.FencedCode` | internal/mailrender/markdown.go:28-41 | a fence gives one balanced code block of its lines |
| `Markdown.ListBlock` | internal/mailrender/markdown.go:72-90 | consecutive items give one balanced list, of plain lines with nothing but signs lost |
| `Markdown.QuoteBlock` | internal/mailrender/markdown.go:91-99 | consecutive quoted lines give one balanced quotation around such a paragraph |
| `Markdown.Paragraph` | internal/mailrender/markdown.go:105-113 | the lines up to the next block give one such paragraph, of plain lines with nothing but signs lost |
| `Markdown.TableBlock` | internal/mailrender/markdown.go:48-71 | a table gives balanced rows and cells |
| `Paging.PageIsSlice` | internal/application/draft_list.go:20-60 | every page is the next slice of the full list with the cursor where it ended, if anything is left |
| `Paging.FollowCursors` | internal/application/draft_list.go:20-60 | following NextCursor with any page sizes ends and the pages are the full list, nothing skipped or repeated |
| `Paging.FullIsTheListing` | internal/adapters/persistence/draft_list.go:8-31 | the full list holds each matching draft once and nothing else, by (updated, id) descending |
| `Paging.QueryContinues` | internal/adapters/persistence/draft_list.go:12-15 | the keyset condition continues the list right after the cursor's key |
| `Paging.CursorRefusedIff` | internal/application/draft_list.go:39-48 | a cursor is refused exactly when its key has no positive time, no id or too long an encoding |
| `Paging.RefusedIff` | internal/application/draft_list.go:20-60 | a listing is refused exactly for a status that does not exist or a cursor that stands for no draft |
| `Paging.PageSize` | internal/application/draft_list.go:20-60 | a page holds at most fifty drafts, or as many as asked for up to two hundred, and is full if another follows |

## Left out

- SQL text, SQLite locking, PostgreSQL notify and the pgstore adapter: the store is the contract its queries promise.
- SMTP, POP3, IMAP, HTTP, DNS and Keycloak clients: their outcomes are inputs of the steps.
- Cryptography: SHA-256, AES-GCM, HKDF and Argon2 are injective or symbolic; the key ring and object rewrapping are not modelled.
- HTML sanitising, theming and signature stripping, which rest on third-party parsers.
- Regular expressions: which lines are headings, list items or table rules, and which URL schemes parse, are parameters of `Markdown.dfy`.
- Panic recovery, metrics, audit records, incidents, command line, REST and MCP transports and the user interface.
- RBAC and scope tables, the settings catalogue and the validation of values: `compute` in `SettingsCas.dfy` stands for them.
- AI prompts, DLP patterns, send rate limits and token budgets: a blocked delivery is one verdict.
- `runBodyRepair`, mail rules and attachment extraction after a message is stored.
- `workerSchedule.due`, the map of watches in `RunIdleWorker` and `unquoteIMAP`: single-branch facts.
- Dynamic client registration and `ForwardMCPOAuthToken`: clients appear by a registration step.
- Approval preview and issue are one step in `Outbox.dfy`, and a sent draft is closed by a step of its own.
- `Identity.dfy` takes each operation as a whole, except that the identity a login looked up may have been taken since; `IdentityRaces.dfy` interleaves reads, counts and writes of rows, with the lookup of a login's candidate as part of the read.
- How a worker's tick ends when its process stops: an attempt that is never recorded simply has no further step, and another worker that takes up its row then breaks the condition of `OutboxFlow.OutboxSafety`.
- Markdown.MarkdownHtml: of fenced code, tables, links and numbered items it says that nothing is invented or moved, not that all is shown: the code drops the opening line of a fence, surplus cells, targets and the numbers; what is shown is part of the body only if the recognizers return parts of their line.
- Paging.FollowCursors: lists keys; the other columns of a draft go with its id.
- OAuthProxy.ExchangeProvenance: the 1290 seconds are counted between the sealing times the code checks, so the time each leg itself takes is added.
- VectorIndex.Vectors.EmbedMessagesBatch: of two entries for one message id in a batch it speaks for the later one; the ignored error of marking an empty message is not modelled.
