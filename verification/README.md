# QuickMail daemon: verified model

A Dafny model of the protocols inside QuickMail's daemon, with proofs over all inputs and all runs. The proofs are
grouped by topic, one module to a file:

- **Mail synchronization.** `StableId`, `ImapUids` and `NatSets` model ids, cursors and UID arithmetic; `MailboxSync`
  is the incremental IMAP sync as a state machine against a server that may change between any two commands (UID rules
  of section 2.3.1.1 of RFC 3501), `MailboxSyncSafety` proves what every run keeps, and `MailboxSyncConvergence` that a
  quiet mailbox is caught up with. `Storage` and `CacheHistory` model the mail tables, their full-text triggers and
  their history; `Threads` models References chains and conversation ids (section 3.6.4 of RFC 5322).
- **Connections and shared state.** `Connection`, `ConnectionSafety` and `ConnectionLoop` model the RPC loop with its
  worker, readers and bounded channels, and the design it avoids. `AccountRemoval` interleaves account removal with
  every task that writes for an account; `SyncMarkers` models the markers that keep two synchronizations of one account
  apart.
- **Durable operations and retries.** `AgendaLog` and `AgendaRecovery` model the agenda operation log, live mutations
  and recovery passes across interruptions. `ImapRetry` and `SmtpDelivery` model the retry loops against an arbitrary
  network, and `SmtpPool` one pooled connection over many sends, any of them dropped (sections 4.1.4 and 4.3.2 of
  RFC 5321).
- **Reading the cache.** `RowOrder`, `Paging` and `Conversation` model keyset pages and conversation lookup.
- **Codecs.** `Base64`, `Mime`, `MimeHeaders`, `MimeRoundTrip` (sections 5.1 of RFC 2046, 6.8 of RFC 2045 and 5 of
  RFC 4648), `DotStuffing` (section 4.5.2 of RFC 5321), `SafeMail` (a built message on the wire) and `Framing`. `Text`,
  `Utf8`, `Arithmetic`, `Errors` and `Wrappers` are shared by the rest.

Source code that changes state step by step is a class or a method with loops here, proved equal to a specification
function; the properties are lemmas about those functions. Protocols whose steps interleave are state machines: one
constructor per await point, one step per atomic action. The clock, UUIDs, the network, provider answers, SQLite
failures and the sizes of socket reads are parameters, arbitrary unless a lemma says otherwise.

## Findings

These promises hold only under a condition. For each the condition is proved to be exact, and a lemma or method gives an
input or a run for which the promise fails:

- `crates/quickmaild/src/daemon.rs:826-840`: a repeated `accounts.remove` of an account that is already gone fails, and
  its clean-up takes away the tombstone the first call left and puts a provider back. An agenda synchronization that was
  waiting for the lock stores tasks of the removed account if and only if the tombstone is missing
  (`AccountRemoval.ResurrectsExactly`); a download that was waiting stores a file if and only if besides the very
  provider it began with is active (`AccountRemoval.DownloadResurrectsExactly`). Runs from the start lead to both
  (`AccountRemoval.RepeatedRemoveResurrects`, `AccountRemoval.RepeatedRemoveRestoresDownload`).
- `crates/quickmaild/src/daemon.rs:3322-3332`: a download whose client disconnects while its file is written is dropped
  and frees the lock, but the file job goes on. An account that is removed meanwhile gets a file, with its tombstone in
  place, if and only if such a job puts it there after the purge (`AccountRemoval.FilesReturnExactly`), which can happen
  if and only if one is outstanding when the purge is made (`AccountRemoval.PurgeDecides`); a run from the start does it
  (`AccountRemoval.DroppedDownloadReturns`). These three writes are the only ways back
  (`AccountRemoval.OnlyWritesResurrect`).
- `crates/quickmaild/src/daemon.rs:1943-2157`: a foreground synchronization whose client disconnects is dropped with the
  connection's tasks (`daemon.rs:519`) and leaves its account marked as synchronizing. Until a restart the account is
  synchronized again if and only if its marker was not left behind like that (`SyncMarkers.SyncsAgainExactly`,
  `SyncMarkers.StrandedByDisconnect`); two steps lead there (`SyncMarkers.DisconnectStrands`).
- `crates/quickmaild/src/providers/imap_smtp.rs:633-638`: a session with a command under way must not be used again, but
  a call whose client disconnects is dropped (`daemon.rs:519`) and leaves its session in the lane. A closure runs on
  such a session if and only if a call was dropped in its closure and no run since has lost the connection
  (`ImapRetry.ReusedExactly`); two calls show it (`ImapRetry.DroppedSessionIsReused`).
- `crates/quickmaild/src/providers/imap_smtp.rs:1607`: a reply that is out of order is an error, but a line sliced
  inside a character is a panic (a release build aborts, `Cargo.toml:36`), if and only if the reply was in order until
  then (`SmtpDelivery.Xoauth2SmtpTransport.ExpectSmtp`); one line can do it (`SmtpDelivery.OneLinePanics`).
- `crates/quickmaild/src/providers/imap_smtp.rs:1514-1528`: a dropped send leaves its connection in the pool, where the
  next send reads the replies it left. A send that succeeds read the replies to its own commands if and only if the
  server was not in the middle of a message when it began (`SmtpPool.SuccessIsOwnExactly`); otherwise its commands and
  its text ended the message of a dropped send. That never happens when the server refuses a second MAIL and every send
  has a recipient (`SmtpPool.ProperSuccessIsOwn`), and it does happen without either
  (`SmtpPool.NoRecipientsMix`, `SmtpPool.SecondMailMixes`).
- `crates/quickmaild/src/providers/imap_smtp.rs:1650-1668`: dot-stuffing is transparent to a receiver that ends lines
  at CRLF if and only if no dot directly follows an LF that has no CR before it (`DotStuffing.TransparentExactly`); LF,
  dot arrives with two dots (`DotStuffing.BareDotArrivesTwice`). Messages of `SafeMimeCodec` never hold such an LF
  (`SafeMail.SafeMessagesArrive`); the daemon sends what mail-builder prints, which is not part of this model, so
  whether a bare LF reaches `send` in production is not settled here.
- `crates/quickmaild/src/providers/mime.rs:317-332` and `:447-471`: `SafeMimeCodec`, the codec of the tests, loses an
  empty body when the message has two, and gives a message without bodies an empty text; every other message comes back
  as it was (`MimeRoundTrip.ParseUndoesBuild`, `SafeMail.EmptyTextIsLost`).
- `crates/quickmaild/src/providers/mime.rs:55-72` and `imap_smtp.rs:2248-2275`: a reply whose 99 inherited entries hold
  no valid id leaves its parent's conversation, unless the parent's other ancestors hold none either and the parent is
  its own root, or the first valid one among them is the id the reply falls back to (`Threads.ReplyKeepsThread`); a
  parent whose only reference is `@x` and whose In-Reply-To is `a@b` loses its replies
  (`Threads.InvalidReferenceSplits`).
- `crates/quickmaild/src/providers/imap_smtp.rs:712-750`: the bootstrap search covers the last 65,536 UIDs. It lists the
  newest `limit` messages of the mailbox if and only if it finds that many or no live UID is older
  (`ImapUids.BootstrapExact`); a mailbox with one message in UID 1 and UIDNEXT 65,538 shows none
  (`ImapUids.OldMailIsNotListed`).

## Model

| member | source | states |
|---|---|---|
| StableId.StableIdRoundTrip | crates/quickmaild/src/providers/imap_smtp.rs:2314-2354 | for every mailbox name the printed stable id parses back to the same mailbox, generation and UID |
| StableId.KeyRoundTrip | crates/quickmaild/src/providers/imap_smtp.rs:2356-2362 | the parser of a row id recovers mailbox, generation and UID, and the cache accepts the id as one of the account |
| StableId.KeyNamesOneAccount | crates/quickmaild/src/providers/imap_smtp.rs:2356-2362 | a row id is accepted by the parser of its own account and of no other, whatever colons account and mailbox names hold |
| StableId.CursorRoundTrip | crates/quickmaild/src/providers/imap_smtp.rs:2386-2406 | a printed cursor parses back to itself exactly when it is within the 32-bit UID space |
| ImapUids.IncrementalUidPage | crates/quickmaild/src/providers/imap_smtp.rs:1201-1222 | the in-place filter, sort, dedup and truncation compute the first `limit` UIDs above the cursor and the new cursor, whatever order and duplicates the server sends |
| ImapUids.PageCovers | crates/quickmaild/src/providers/imap_smtp.rs:1179-1222 | the page holds exactly the found UIDs between the old and the new cursor, so nothing below the new cursor is left out, and the cursor rises |
| ImapUids.RecentUidSearchWindows | crates/quickmaild/src/providers/imap_smtp.rs:1156-1177 | the loop yields the bootstrap windows or refuses a UID beyond 32 bits |
| ImapUids.WindowsTile | crates/quickmaild/src/providers/imap_smtp.rs:1156-1177 | windows are adjacent, disjoint, at most 4096 wide and cover exactly the last 65,536 UIDs |
| ImapUids.SearchRecentUids | crates/quickmaild/src/providers/imap_smtp.rs:712-750 | the window loop with its early stop computes the listed UIDs, for a mailbox that may change between any two searches |
| ImapUids.RecentUidsAreNewest | crates/quickmaild/src/providers/imap_smtp.rs:712-750 | however the mailbox changes meanwhile, only UIDs live at some search are listed, and a UID of the last 65,536 that stays live is left out only when `limit` newer ones are listed |
| ImapUids.RecentOfFixed | crates/quickmaild/src/providers/imap_smtp.rs:712-750 | in a mailbox that does not change, stopping early still lists the newest `limit` live UIDs of the last 65,536 |
| ImapUids.BootstrapExact | crates/quickmaild/src/providers/imap_smtp.rs:712-750 | the bootstrap lists the newest `limit` live UIDs of the mailbox if and only if it finds that many or no live UID is at or below the floor |
| ImapUids.OldMailIsNotListed | crates/quickmaild/src/providers/imap_smtp.rs:1156-1177 | with one message in UID 1 and UIDNEXT 65,538 the bootstrap lists nothing |
| ImapUids.CursorRises | crates/quickmaild/src/providers/imap_smtp.rs:1179-1222 | on a quiet server the cursor rises strictly below the top, never falls and never leaves the 32-bit space |
| ImapUids.SyncConverges | crates/quickmaild/src/providers/imap_smtp.rs:1179-1222 | with L live UIDs above it the cursor function reaches UIDNEXT - 1 in at most floor(L/limit) + ceil(gap/4096) steps, a limit of 0 counting as 1 |
| MailboxSyncSafety.NoMailSkipped | crates/quickmaild/src/providers/imap_smtp.rs:1877-1970 | in every run with arrivals, gaps, expunges, flag changes, failures and commits, every live UID above the bootstrap and up to the stored cursor is cached and shows that message |
| MailboxSyncSafety.GenerationsNeverMix | crates/quickmaild/src/storage.rs:823-985 | in every run every cached row carries the generation of the stored cursor and a message the server assigned in it |
| MailboxSyncSafety.OnlyDeadMailRemoved | crates/quickmaild/src/providers/imap_smtp.rs:1224-1234 | every id a page removes names a UID that is gone for good in that generation and that the page does not also return |
| MailboxSyncSafety.OneGenerationPerPage | crates/quickmaild/src/providers/imap_smtp.rs:1888-1968 | the closing SELECT implies that all searches and fetches of the page ran in one generation |
| MailboxSyncSafety.PageRemovalAllowed | crates/quickmaild/src/storage.rs:839-914 | no removal of a confirmed page trips the validation of the cache |
| MailboxSyncSafety.ConfirmedPageCommits | crates/quickmaild/src/storage.rs:823-985 | a confirmed page of a listed mailbox always commits |
| MailboxSyncConvergence.SyncReachesNextHigh | crates/quickmaild/src/providers/imap_smtp.rs:1909-1935 | an incremental search of the selected mailbox moves the page's cursor one step of the cursor function |
| MailboxSyncConvergence.CursorFollowsCommits | crates/quickmaild/src/providers/imap_smtp.rs:1877-1970 | in every run, while no UID comes or goes, the stored cursor makes exactly one step per committed sync, whatever aborts, flag changes and other writers happen in between |
| MailboxSyncConvergence.QuietSyncsCatchUp | crates/quickmaild/src/providers/imap_smtp.rs:1877-1970 | after floor(L/limit) + ceil(gap/4096) committed syncs of such a stretch the stored cursor is UIDNEXT - 1 and every live UID above the bootstrap is cached |
| Storage.Repository.ApplyMailboxSyncPage | crates/quickmaild/src/storage.rs:823-985 | rows, removals, reset and cursor change together as specified, or nothing changes |
| Storage.Repository.UpsertMessagesWithBodyState | crates/quickmaild/src/storage.rs:994-1077 | the statement loop applies the whole batch or nothing; a new row takes the body it is given, and an upsert that is not full leaves the body of a row alone |
| Storage.Repository.FinishMailAction | crates/quickmaild/src/storage.rs:1287-1318 | only a success changes rows, and it changes all of them together with the operation; an unknown operation and a read or star action without messages change nothing |
| CacheHistory.IndexFollowsRows | crates/quickmaild/src/storage.rs:2087-2111 | after any run the full-text table is the projection of the rows although the update trigger skips most updates |
| CacheHistory.BodiesFollowFullUpserts | crates/quickmaild/src/storage.rs:994-1097 | after any run each row has the body of the last full upsert since its insertion and is marked loaded exactly when there was one |
| CacheHistory.RunKeepsKeys | crates/quickmaild/src/storage.rs:2040-2075 | no run leaves a message, mailbox or cursor without its account |
| Threads.ReplyBuiltExactly | crates/quickmaild/src/providers/mime.rs:181-195 | a reply is built if and only if the parent has a usable Message-ID and the first 99 entries of its chain are usable |
| Threads.ReplyRoot | crates/quickmaild/src/providers/mime.rs:181-195 | for every parent, the root of its reply: the first inherited entry that is valid as written, else the parent's id as written, else the reply's own id |
| Threads.ReplyKeepsThread | crates/quickmaild/src/providers/imap_smtp.rs:2248-2275 | with ids in at most one pair of brackets, a reply that is built stays in its parent's conversation if and only if a valid ancestor is among the 99 entries it inherits; or the References beyond them and In-Reply-To hold no valid id but the parent's own is valid; or the first valid id of those is the parent's own, or the reply's when the parent's is not valid |
| Threads.InvalidReferenceSplits | crates/quickmaild/src/providers/imap_smtp.rs:2248-2275 | a literal parent whose replies leave its conversation |
| Threads.RepliesStayInConversation | crates/quickmaild/src/providers/mime.rs:55-72 | when all ancestor ids are bare and valid, a reply at any depth is built, names its parent, carries the root first among at most 100 References and belongs to the root's conversation, even when ids repeat |
| Threads.ReferencesExactly | crates/quickmaild/src/providers/mime.rs:181-195 | when besides no id repeats, the References are all ancestors, or the 99 oldest and the parent |
| ConnectionSafety.ConnectionDrains | crates/quickmaild/src/daemon.rs:515-667 | once input stops every internal step lowers a measure, and a connection that cannot step has drained, so no state deadlocks |
| ConnectionSafety.BoundsHold | crates/quickmaild/src/daemon.rs:515-667 | at most 32 queued responses, 32 queued ordered requests and 32 tasks including the worker ever exist |
| ConnectionSafety.RequestsConserved | crates/quickmaild/src/daemon.rs:519-702 | every id read is answered or held exactly once per request; nothing else is answered, notifications never are, and a drained connection has answered all |
| ConnectionSafety.OrderedLaneIsFifo | crates/quickmaild/src/daemon.rs:626-655 | requests outside the reader and subscription lanes are executed and answered in arrival order |
| ConnectionSafety.AwaitedStuckExactly | crates/quickmaild/src/daemon.rs:656-663 | with an awaited send in place of the reserve branch the connection is stuck exactly when both bounded queues are full and loop and worker wait for each other |
| ConnectionSafety.AwaitedSendDeadlocks | crates/quickmaild/src/daemon.rs:656-663 | that state is reachable with 66 requests and no answer written |
| ConnectionLoop.Client.Serve | crates/quickmaild/src/daemon.rs:519-667 | driven by any schedule of frames, events and task steps, the loop keeps its bounds, answers or holds every request, and executes and answers the ordered lane in arrival order |
| ConnectionLoop.Client.Drain | crates/quickmaild/src/daemon.rs:519-667 | once the client sends nothing more the loop comes to rest by itself, with every request answered as often as it was read and the ordered answers in arrival order |
| AccountRemoval.RemovalIsFinal | crates/quickmaild/src/daemon.rs:793-845 | in every interleaving with cancellations, file jobs that outlive their task, and restarts, a removed account has no mail rows until it is stored again, no task and event until its tombstone is taken away, and until then a file only when the file job of a dropped download put one in place after the purge |
| AccountRemoval.FilesReturnExactly | crates/quickmaild/src/daemon.rs:3304-3340 | over any stretch of a run from the purge on, files of the account come if and only if the file job of a dropped download of it puts them in place |
| AccountRemoval.FilesCanComeExactly | crates/quickmaild/src/daemon.rs:3304-3340 | while an account is removed and has no file it can get one if and only if such a job is outstanding |
| AccountRemoval.PurgeDecides | crates/quickmaild/src/daemon.rs:3343-3396 | so files can come after the purge of a removal if and only if such a job is outstanding when the purge is made |
| AccountRemoval.DroppedDownloadReturns | crates/quickmaild/src/daemon.rs:1049-1066 | a concrete run from the start, with a client that disconnects, after which a removed account has a file although its tombstone stands |
| AccountRemoval.FinalEnds | crates/quickmaild/src/daemon.rs:793-845 | only a failing later removal of the same id or an add takes the tombstone away |
| AccountRemoval.ResurrectsExactly | crates/quickmaild/src/daemon.rs:1604-1625 | an agenda sync that waited for the lock writes rows of a removed account if and only if the tombstone is missing when it gets the lock |
| AccountRemoval.RepeatedRemoveResurrects | crates/quickmaild/src/daemon.rs:826-840 | a concrete run from the start in which a repeated removal leads there |
| AccountRemoval.DownloadResurrectsExactly | crates/quickmaild/src/daemon.rs:1049-1066 | a download that waited for the lock writes a file of a removed account if and only if the tombstone is missing and the very provider instance it began with is active when it gets the lock |
| AccountRemoval.OnlyWritesResurrect | crates/quickmaild/src/daemon.rs:793-845 | whatever step is taken in any state that can be reached, a removed account without tasks, events and files gets some if and only if the step is the write of an agenda sync, of a download, or of the file job of a dropped download of that account |
| AccountRemoval.RepeatedRemoveRestoresDownload | crates/quickmaild/src/daemon.rs:826-840 | a concrete run from the start, with a reauthorization that outlives the removal and a repeated removal, after which a waiting download stores a file of the removed account |
| SyncMarkers.StrandedByDisconnect | crates/quickmaild/src/daemon.rs:1943-2157 | in every run an account is marked without anybody at work for it if and only if a client disconnected during its foreground synchronization after the last restart |
| SyncMarkers.SyncsAgainExactly | crates/quickmaild/src/daemon.rs:1943-1947 | without a restart an account can be synchronized again if and only if its marker is not left behind |
| SyncMarkers.DisconnectStrands | crates/quickmaild/src/daemon.rs:1943-1990 | a concrete run of two steps after which the account is passed over |
| AgendaLog.ListIsPrefix | crates/quickmaild/src/storage.rs:1379-1424 | the recovery list is, per account, the beginning in row order of the pending operations, cut only at 128 |
| AgendaLog.AgendaRepository.ListPendingAgendaOperations | crates/quickmaild/src/storage.rs:1379-1424 | the row loop with its limit computes that list |
| AgendaLog.AgendaRepository.CommitAgendaUpsert | crates/quickmaild/src/storage.rs:1426-1463 | item and operation change together; a failed check leaves both tables and the log as they were |
| AgendaLog.AgendaRepository.CommitAgendaDelete | crates/quickmaild/src/storage.rs:1465-1485 | the same for deletions |
| AgendaRecovery.CreateCalledOnce | crates/quickmaild/src/daemon.rs:1628-1866 | over every run with crashes at any await point an operation's provider create is called at most once |
| AgendaRecovery.TerminalIsFinal | crates/quickmaild/src/storage.rs:1255-1285 | succeeded and failed are absorbing although finishing an operation does not look at its state |
| AgendaRecovery.CacheMovesWithLog | crates/quickmaild/src/storage.rs:2746-2772 | the tables change only in the step that moves an operation to succeeded, and then by exactly what the provider carried out |
| AgendaRecovery.PassTakesPrefix | crates/quickmaild/src/daemon.rs:1632-1866 | at any point of a pass, when an operation has been touched, every earlier pending one of its account is terminal |
| AgendaRecovery.PassCompletes | crates/quickmaild/src/daemon.rs:1632-1866 | a finished pass has settled every listed operation of the accounts it did not have to leave |
| AgendaRecovery.ResolveMoves | crates/quickmaild/src/daemon.rs:1656-1866 | one recovered operation ends terminal, or stays pending exactly when its account is blocked; creates always end failed |
| AgendaRecovery.AgendaDaemon.RecoverPendingAgendaOperations | crates/quickmaild/src/daemon.rs:1628-1866 | the loop with its set of blocked accounts is a pass of the machine for every pattern of SQLite failures at commits, at revision reads and at recording errors, returns its reports, and ends early exactly at the first operation whose error cannot be recorded, leaving the log of the pass so far |
| AgendaRecovery.EndsExactly | crates/quickmaild/src/daemon.rs:1739-1748 | a pass ends at an operation if and only if SQLite fails to record its error, or fails to read the revision right after a deletion without a target was finished, which then cannot be deferred any more |
| AgendaRecovery.WorkingPassEnds | crates/quickmaild/src/daemon.rs:1809-1841 | while SQLite reads revisions and records errors a pass over any log of distinct ids gets to its end, whatever the providers answer and whichever commits fail |
| AgendaRecovery.AgendaDaemon.MutateAgenda | crates/quickmaild/src/daemon.rs:1199-1222 | a live mutation queues its operation before it asks the provider, leaves the log as the machine does, and reports success if and only if the operation is recorded as succeeded |
| AgendaRecovery.ReportTells | crates/quickmaild/src/daemon.rs:1838-1862 | an operation that is tried succeeds or is reported, and is reported as retryable if and only if it stays pending |
| ImapRetry.CallsAreDisciplined | crates/quickmaild/src/providers/imap_smtp.rs:318-331 | a mutating closure runs at most once, a read closure at most twice, nothing repeats unless the connection was lost, and a lost session is dropped and never used again |
| ImapRetry.AsyncImapTransport.RunSessionOperation | crates/quickmaild/src/providers/imap_smtp.rs:460-501 | the loop makes one turn, or a second on a fresh session only for a retry-safe call that lost the connection |
| ImapRetry.ReusedExactly | crates/quickmaild/src/providers/imap_smtp.rs:447-501 | over any sequence of calls, a closure runs on a session with an unfinished command if and only if a call was dropped in its closure and no run since has lost the connection |
| ImapRetry.DroppedSessionIsReused | crates/quickmaild/src/providers/imap_smtp.rs:485-501 | two calls after which the second has run on the session the first was dropped on |
| SmtpDelivery.Xoauth2SmtpTransport.Send | crates/quickmaild/src/providers/imap_smtp.rs:1509-1538 | for every server the body is handed over at most once, success means exactly one accepted copy after the whole dialogue, an error leaves no connection in the pool while a panic leaves the one it was reading from, and the two-attempt loop never falls through |
| SmtpDelivery.Xoauth2SmtpTransport.Transaction | crates/quickmaild/src/providers/imap_smtp.rs:1540-1578 | commands, body, terminator and flush go out in order; an error says truthfully whether the body was begun |
| SmtpDelivery.Xoauth2SmtpTransport.ExpectSmtp | crates/quickmaild/src/providers/imap_smtp.rs:1592-1617 | it succeeds if and only if every line heard carries the code, all but the last have a dash after it and the last a space, and lines and total are within their limits; it panics if and only if a line sliced inside a character follows such lines; nothing is read beyond |
| SmtpDelivery.OneLinePanics | crates/quickmaild/src/providers/imap_smtp.rs:1607 | a literal reply of one line that panics whatever code is awaited |
| SmtpPool.SuccessIsOwnExactly | crates/quickmaild/src/providers/imap_smtp.rs:1509-1578 | for every history of sends on one connection, dropped anywhere, a send that succeeds read the replies to its own commands and message if and only if the server was not taking a message when it began; otherwise it went on the 354 of an earlier DATA; either way nothing is outstanding afterwards |
| SmtpPool.DropLeavesCleanExactly | crates/quickmaild/src/providers/imap_smtp.rs:1514-1528 | a send on a clean connection that is dropped leaves it clean if and only if it is neither waiting for a reply nor told to go ahead with its message |
| SmtpPool.HarmlessDropsMixNothing | crates/quickmaild/src/providers/imap_smtp.rs:1514-1538 | while sends are dropped at such points only, every success is the send's own |
| SmtpPool.ProperSuccessIsOwn | crates/quickmaild/src/providers/imap_smtp.rs:1540-1578 | with a server that refuses a second MAIL and at least one recipient for every send, every success is the send's own, wherever earlier sends were dropped |
| SmtpPool.NoRecipientsMix | crates/quickmaild/src/providers/imap_smtp.rs:1540-1578 | a concrete run with such a server in which a send without recipients ends another send's message and succeeds |
| SmtpPool.SecondMailMixes | crates/quickmaild/src/providers/imap_smtp.rs:1540-1578 | a concrete run of four sends with one recipient each and a server that accepts a second MAIL, with the same result |
| DotStuffing.DotStuff | crates/quickmaild/src/providers/imap_smtp.rs:1650-1668 | the two loops compute the stuffed message |
| DotStuffing.MarkIsFinal | crates/quickmaild/src/providers/imap_smtp.rs:1565-1571 | for every message the only end-of-data mark on the wire is the appended one |
| DotStuffing.TransparentExactly | crates/quickmaild/src/providers/imap_smtp.rs:1650-1668 | the receiver gets the message without trailing newlines plus CRLF if and only if no dot directly follows a bare LF |
| DotStuffing.CrlfMessagesAreTransparent | crates/quickmaild/src/providers/imap_smtp.rs:1650-1668 | so it does for messages whose every LF follows a CR |
| DotStuffing.BareDotArrivesTwice | crates/quickmaild/src/providers/imap_smtp.rs:1650-1668 | the message LF, dot arrives with two dots |
| Paging.ListMessages | crates/quickmaild/src/storage.rs:1099-1130 | the page is the newest `limit` matching rows below the cursor, with a cursor exactly when there are more |
| Paging.WalkDescends | crates/quickmaild/src/storage.rs:2319-2369 | keys over a walk strictly descend and never repeat, whatever happens to the tables between pages |
| Paging.UnchangedRowListed | crates/quickmaild/src/storage.rs:2319-2369 | a row that matches with the same key throughout a finished walk is listed |
| Paging.FixedStoreWalkIsComplete | crates/quickmaild/src/storage.rs:1099-1130 | on a fixed store a finished walk has listed precisely the matching rows in order |
| Paging.FixedStoreWalkEnds | crates/quickmaild/src/storage.rs:1099-1130 | on a fixed store a walk goes on exactly while its pages hold fewer rows than match, so it ends |
| Paging.WalkContinues | crates/quickmaild/src/storage.rs:1099-1130 | every page a walk goes on from is full |
| Conversation.GetThread | crates/quickmaild/src/storage.rs:1167-1234 | the lookup returns the shown rows in ascending order, or the requested row alone without a thread id |
| Conversation.OneRepresentative | crates/quickmaild/src/storage.rs:1185-1209 | every Message-ID of the conversation has exactly one representative |
| Conversation.ShowsRepresentatives | crates/quickmaild/src/storage.rs:1185-1209 | the result holds the requested copy and only representatives |
| Conversation.ShowsNewest | crates/quickmaild/src/storage.rs:1205-1222 | every representative left out is older than all shown ones besides the requested copy |
| Conversation.ShowsUpToLimit | crates/quickmaild/src/storage.rs:1220-1233 | it shows as many rows as there are Message-IDs up to 100, and is truncated if and only if there are more |
| Base64.WrapBase64 | crates/quickmaild/src/providers/mime.rs:618-644 | the two loops compute the 76-column encoding |
| Base64.DecodeInput | crates/quickmaild/src/providers/mime.rs:489-518 | the accumulator loop computes the decoder that both adapters share |
| Base64.DecodeWrapped | crates/quickmaild/src/providers/mime.rs:489-518 | decoding inverts the 76-column encoder on every byte string |
| Base64.DecodeUrlSafe | crates/quickmaild/src/providers/gmail.rs:1172-1216 | and Gmail's unpadded pair |
| Base64.AccumulatorBounded | crates/quickmaild/src/providers/gmail.rs:1194-1216 | over every input the accumulator stays below 2^12 and the byte cast never truncates |
| Base64.LinesAreShort | crates/quickmaild/src/providers/mime.rs:638-643 | no encoded line exceeds 76 characters |
| Mime.SplitMultipartBody | crates/quickmaild/src/providers/mime.rs:447-471 | the segment loop with its offset computes the parts as slices of the body |
| MimeHeaders.HeadersRoundTrip | crates/quickmaild/src/providers/mime.rs:345-364 | a printed header block parses to its fields with trimmed values |
| MimeHeaders.BlockSeparates | crates/quickmaild/src/providers/mime.rs:337-343 | the first blank line of a printed message is the one after its headers |
| MimeRoundTrip.PartsOfMultipart | crates/quickmaild/src/providers/mime.rs:447-471 | a printed multipart body splits into its two parts, whatever the bodies hold |
| MimeRoundTrip.ParseUndoesBuild | crates/quickmaild/src/providers/mime.rs:252-335 | every accepted message within 64 MiB parses without attachments and Bcc, its bodies exactly as given if and only if there is one and none of two is empty; a larger one is refused |
| SafeMail.SafeMessagesArrive | crates/quickmaild/src/providers/mime.rs:289-335 | a built message never has a bare LF, passes dot-stuffing unchanged if and only if its body is not blank, and then parses at the receiver to what was sent |
| SafeMail.EmptyTextIsLost | crates/quickmaild/src/providers/mime.rs:447-471 | a literal message with an empty text and the HTML x comes back without text |
| Framing.RpcTransport.ConsumeReadyRead | ui/hosttypes.cpp:400-436 | for every split of the stream into reads the transport behaves as if it took single bytes, and its buffer never exceeds 16 MiB + 1 |
| Framing.RpcTransport.Receive | ui/hosttypes.cpp:400-436 | a whole stream, in arrivals of any size each read in pieces of any size, is delivered as its frames |
| Framing.LinesAreFrames | ui/hosttypes.cpp:400-436 | the lines are exactly the newline-separated frames before the first one longer than 16 MiB, and the stream is rejected if and only if there is one |

## Left out

- Sockets, TLS, D-Bus, the keyring, HTTP and file permissions: foreign calls; their results are arbitrary parameters.
- SQL text, the SQLite engine and migrations: a table is a map, a statement or transaction one atomic step, and
  cascading deletes fire row triggers. Full-text matching is a function parameter; a query the engine refuses is not
  modelled.
- JSON encoding of rows, cursors and payloads: cursors of message pages are pairs, operation payloads are values.
- UUIDv5 hashing: a thread id is represented by the name it is hashed from. `updated_at` columns are not modelled.
- MailboxSyncSafety.NoMailSkipped: local moves, archiving and trash actions and message fetches that insert rows during
  a sync are not steps of the sync machine (a server without UIDPLUS keeps a \Deleted copy, and a moved row keeps its
  old stable id); other writers keep the mailbox's rows, and a mailbox is listed again only between syncs of its
  account.
- Servers that omit UIDNEXT, send unsolicited FETCH data or break the UID rules.
- ImapUids.SearchRecentUids: one run of the search session; a session that is lost starts over, which the state machine
  of `MailboxSync` has as a step.
- Threads.ReplyKeepsThread: ids in two pairs of brackets, which the header parser never returns
  (`Threads.HeaderIdsArePlain`); `Threads.ReplyRoot` covers them too.
- Threads.ReplyRoot: mail-builder's printing and mail-parser's reading of the written headers; the parser is taken to
  return the ids as they were written.
- ConnectionSafety.RequestsConserved: holds while a connection is open; the loop ends at once on shutdown, end of file,
  a failed write or an oversized request.
- Byte-level framing inside the daemon's select loop: a cancelled read can drop part of a frame, so frames arrive whole.
- Subscription topics: whether a client receives an event is arbitrary.
- AccountRemoval.RemovalIsFinal: drafts and queued operations are not tracked; tasks of one account write only rows of
  that account; mail rows of one account are a set of keys. A database job runs before any later one, so it is one step
  with its task; a file is there from the moment it is created, and one that is created while a removal reads the
  directory counts as coming after the purge.
- AgendaRecovery.PassTakesPrefix: orders one recovery pass, not a live mutation against operations deferred earlier; the
  live path does not consult the queue.
- AgendaRecovery.CreateCalledOnce: each queued operation has a fresh id, and mail operations of the same table are not
  modelled.
- AgendaRecovery.AgendaDaemon.RecoverPendingAgendaOperations: listing the operations fails or works as a whole, before
  the pass, and events published on success are not modelled.
- SyncMarkers.SyncsAgainExactly: a background task that panics, and the locks taken around the marker set.
- Task updates and completions that are purely local, and the fields of tasks and events beyond identity, scope,
  external id, completion and content.
- SmtpDelivery.Xoauth2SmtpTransport.Send: opening a connection (greeting, STARTTLS, AUTH) is one step that works or
  fails, a command line with its break is one write, and reply lines are given by length, first three bytes and
  separator. Calls that are dropped halfway are the subject of `SmtpPool`.
- SmtpPool.SuccessIsOwnExactly: a line is written as a whole, and the rest of a reply that was read in part counts as
  the reply; each line the server does not take as text gets one reply, in order.
- ImapRetry.AsyncImapTransport.RunSessionOperation: waiting for the lane's lock, the commands inside a closure, and the
  second loop of `list_mailboxes`, which counts messages outside this one.
- Conversation.GetThread: rows are their (timestamp, id) keys; the other columns of a row go along unchanged.
- MimeRoundTrip.ParseUndoesBuild: address lists, dates and Message-ID lists are kept as header text; their parsers are
  not modelled. Dates have no line breaks and UUIDs are hexadecimal.
- Framing.RpcTransport.ConsumeReadyRead: what a receiver of a line does to the transport while it is being notified, and
  decoding a line to text.
- Mail parsing and building by mail-parser and mail-builder, the agenda REST adapters, the Gmail and Graph mail adapters
  beyond base64.
- The HTML sanitizer, avatar checks, URL allowlists, settings, QML, single-instance routing and the command-line client:
  they would add only allowlist checks or glue.
