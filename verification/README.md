# Silent Whisper: verified models of the chat server's core

Silent Whisper is a team chat server (Node.js, Postgres, WebSockets) with a React client.
This project models the parts of it whose correctness does not show in any single
function, and proves what they promise over every input, every run and every interleaving:

* **The audit log.** `Json`, `KeyOrder` and `CanonicalText` are the canonical printer,
  `HashChain` the chain and its paged verifier, `AuditChain` what a head hash commits to,
  `AuditWriter` the concurrent append transactions and `AuditAppends` what each of them
  adds, `AuditOutbox` the retry outbox statement by statement.
* **Inline checkboxes.** `TaskScanner` is the tokenizer's regular expression, `TaskReading`
  what an entry says in characters, `TaskToggle` the one-character update, `References` what
  a message refers to, `MessageHistory` edits and toggles with the revision history,
  `TaskRows`, `Markdown` and `MarkdownLinks` the renderer's passes, `MessageRenderer` the
  renderer as a whole.
* **Durable side effects.** `JobQueue` is the life cycle of the job tables under any number
  of workers, `JobAttempts` what the attempts column counts, `SideEffectQueue` how rows get
  in, `Naming`, `EntityLinks`, `EntityRaces`, `LinkJobs` and `LostEdits` the entity links,
  `Mentions` the mention notifications.
* **Authorization.** `Workspaces` holds the handlers' decisions and row changes,
  `WorkspaceRights` who can do what, said of roles alone, `WorkspaceRuns` what every run of
  requests keeps, `WorkspaceStore` the transactions of several statements.
* **In-memory state.** `ConcurrencyGate` with `GateClients` and `GateProgress`, `Presence`
  with `PresenceSteps`, `PresenceRuns`, `PresenceHub` and `PresenceAwaits`, `RateLimiter`,
  `RefreshTokens`, `Sentiment`.

`dafny verify dfyconfig.toml` checks everything.

## How to read it

Functions and datatypes give the tables and module variables as values; a step function
gives the effect of one handler, statement or tick; classes hold the same fields and their
methods are proved equal to the step functions; lemmas then speak about all runs of steps.
Lemmas whose names end in `Exactly` say what a step does in terms of rows, roles, characters
and counts, without the functions that the step is made of.
`JsText` holds JavaScript strings (UTF-16 code units) and the character classes of the
regular expressions, `Sets` a fact about sizes.

Hypotheses that the theorems carry, all of them stated in the contracts:

* SHA-256 is a parameter. `Faithful` asks that it does not collide on the finitely many
  texts that the two tables in question hash, gives 64 characters and never the genesis
  value. (An injective function from all texts to 64 characters does not exist.)
* The owner-token alias is on one line (`OneLine`). `backend/src/config.js:40-45` admits
  letters, digits, `_` and `-` only. `BrokenAliasLosesTask` shows that the toggle would
  lose a checkbox for an alias that breaks a line.
* `toLowerCase` is a parameter, as is the square root, of which only its defining equation
  is used.
* Handlers are atomic where the module says so. Where the code interleaves, the exact
  conditions are given beside: `WorkspaceRuns.StaleTransfer`, `StaleRoleChange` and
  `StaleRemoval` for ownership, `EntityRaces` for names, `PresenceAwaits` for sockets.
* The clock does not run backwards (`RateLimiter`), random tokens are new (`RefreshTokens`),
  and vectors that are compared have the same length (`Sentiment`).

What the proofs found out about the code:

* An edit whose enqueue finds the row `processing` after the job has loaded its message is
  lost to the entity links, although the comment at
  `backend/src/services/messageSideEffectsQueue.js:31-34` says that the job will read the
  latest content (`LinkJobs.EditWhileLoadedIsLost`). The links then fit the present text
  only if it names the same names (`LostEdits.LostEditIffNewNames`).
  `LinkJobs.LinksAgreeWithContent` is the good case.
* When `onQueued` throws, its queue entry stays. The next release can hand the slot to that
  call, which is over, and then nobody gives it back (`GateClients.LostCallGetsSlot`,
  `LostSlotStaysTaken`). No other exception at any statement loses a slot
  (`GateClients.FinishedHoldsIffLost`).
* A transfer of ownership can leave no OWNER row, when its target leaves between the check
  and the transaction, or two of them (`WorkspaceRuns.DepartedTarget`, `RacingTransfers`).
* Public channels can hold people who are neither members of the workspace nor system
  administrators: those who joined as administrators and were demoted
  (`WorkspaceRuns.GuestJoinedAsAdmin`, `DemotedGuestStays`).
* The renderer loses text exactly at newlines that touch a checkbox row and at links with
  an unsafe target, inside a description too (`MessageRenderer.MessageTextKeptIff`).
* A name can come to mean two entities: by two alias patches, or by a patch and a creation,
  whose checks precede both writes (`EntityRaces.RacingPatches`, `RacingCreation`). The
  unique index catches two creations only.
* A socket that closes while its authentication waits for the database stays in the
  registry for good, and its user is never offline again (`PresenceAwaits.GhostForGood`).
* A row is stranded in `processing` exactly when an exception escapes its tick or its
  worker dies, and then for good (`JobQueue.StrandedExactly`). Where finished rows are
  deleted, a dead-lettered row blocks its key for good (`JobQueue.DeadLetterStays`).
* A mention frame that a failing run did not get to push is never pushed
  (`Mentions.SettledForever`).
* The outbox replays an event that is already in the log only after a lost reply to the
  append or a failed delete, once for each at most (`AuditOutbox.CopiesWithinMisled`), and
  then up to `retryMaxAttempts` times (`AuditOutbox.BoundReached`).
* The rate limiter lets fewer than twice the maximum through in any window-long interval,
  one less than the obvious bound, and that is reached for every maximum and window
  (`RateLimiter.BoundReached`).
* `\s` does match line breaks, unlike the comment at
  `backend/src/services/taskParser.js:31-32` says: a description or an owner token may
  stand on the next line. The models follow the expression.
* The comment at `backend/src/routes/messages.js:363-365` holds up to checkbox marks only,
  since toggles write no history row; `MessageHistory.HistoryLosesNothing` says precisely
  how.
* The comment at `frontend/src/markdown.jsx:487-491` says that newlines next to a row are
  trimmed on both sides. The code trims the one before each row and the one after the last.

## Model

| member | source | states |
|---|---|---|
| CanonicalText.StringifyEqualIffSame | backend/src/audit/auditService.js:30-47 | two JSON values print to the same canonical text exactly when they differ in the order of object keys at most |
| Json.SameIffCanonicalEqual | backend/src/audit/auditService.js:30-43 | canonicalising identifies exactly the values that agree up to key order |
| Json.CanonicalFieldsMap | backend/src/audit/auditService.js:34-41 | a canonicalised object has the same keys, sorted, each value canonicalised in place |
| CanonicalText.StringifyInjective | backend/src/audit/auditService.js:45-47 | the serialiser's text determines the value |
| CanonicalText.EmitPrints | backend/src/audit/auditService.js:45-47 | the printer that the injectivity proof works on prints what the serialiser, written as its standard reads, prints |
| KeyOrder.NamesInOrder | backend/src/audit/auditService.js:34-41 | of two names that begin with no digit the one that is a prefix of the other, or has the smaller code unit where they first differ, comes first, whatever their order before |
| KeyOrder.NumbersInOrder | backend/src/audit/auditService.js:34-41 | numbers of up to nine digits come before names, and among themselves by value, fewer digits or the smaller first different digit first, since objects enumerate array indices so |
| CanonicalText.FieldsPrinted | backend/src/audit/auditService.js:45-47 | the characters of an object with two one-letter keys: braces, quotes, colons and one comma |
| CanonicalText.UnitsInHex | backend/src/audit/auditService.js:45-47 | a control character or lone surrogate goes out as `\u` and four lower-case digits whose value is its code |
| CanonicalText.UnitsEscaped | backend/src/audit/auditService.js:45-47 | the seven characters with an escape of two characters, and all those that go out as they are |
| Json.EmitInjective | backend/src/audit/auditService.js:45-47 | the printed text, whatever may follow a value, determines the value and what follows |
| Json.EmitStringInjective | backend/src/audit/auditService.js:45-47 | string escaping, lone surrogates included, loses nothing |
| HashChain.VerifiedIffLinked | backend/src/audit/auditService.js:184-213 | the one-pass check accepts a table exactly when every row names its predecessor's hash and carries its own |
| HashChain.CheckFindsFirst | backend/src/audit/auditService.js:184-213 | on any table the verdict is the first ill-linked row with the right one of the two reasons |
| HashChain.VerifyAuditChain | backend/src/audit/auditService.js:169-222 | on an arbitrary table the verdict is the one-pass check for every batch size from 1 on; with rows appended between pages it is that of the table as last fetched, and rowsChecked counts whole pages |
| HashChain.CheckPage | backend/src/audit/auditService.js:184-213 | the loop over a page fails with the verdict of the whole table or has passed all rows so far |
| HashChain.HeadDeterminesLog | backend/src/audit/auditService.js:49-62 | two linked tables with one head hash record the same events, for any row hash that binds |
| AuditChain.HeadHashIdentifiesLog | backend/src/audit/auditService.js:49-62 | linked tables, which are those that verify, have the same head hash exactly when they record the same actors, ips, actions, targets and payloads in the same order, payload keys in any order |
| AuditChain.SameLogSameHead | backend/src/audit/auditService.js:49-62 | the same events give the same head hash whatever the ids and key orders, with no assumption on the hash |
| AuditChain.NoFork | backend/src/audit/auditService.js:75-116 | no two rows of a linked table name the same predecessor |
| AuditChain.RecordTextEqualIffEventSame | backend/src/audit/auditService.js:49-56 | the hashed text identifies the event up to payload key order |
| AuditChain.HashedExactly | backend/src/audit/auditService.js:49-62 | the hash is of the previous hash followed by the canonical text of an object with exactly the five named members of the event |
| AuditWriter.EveryScheduleIsSerial | backend/src/audit/auditService.js:75-116 | after every interleaving of append transactions, commits and rollbacks, the table verifies, holds the committed events in commit order, which `AuditAppends` counts over the steps, and has the head hash of appending them one at a time |
| AuditWriter.LockExcludes | backend/src/audit/auditService.js:81-82 | in every schedule at most one transaction is past the advisory lock |
| AuditWriter.RunKeeps | backend/src/audit/auditService.js:75-116 | every schedule keeps the chain linked, ids ascending and each prepared row fitting the committed head |
| AuditAppends.AppendsFromAnywhere | backend/src/audit/auditService.js:75-116 | from every state that a schedule reaches a new transaction can append: the holder of the lock, if any, rolled back, its five statements leave the old rows and exactly one more, which records its event, names the old head as predecessor, has the hash of the event on the old head and a greater id, with the lock free |
| AuditAppends.StatementsAppend | backend/src/audit/auditService.js:81-115 | so do the four statements of a transaction that waits for a free lock, in every reachable state |
| AuditAppends.RowsAreCommits | backend/src/audit/auditService.js:75-116 | after every schedule there are as many rows as its steps committed transactions, counted over the steps, and row i records the event of number i |
| AuditAppends.RowsOnlyGrow | backend/src/audit/auditService.js:75-116 | the rows after any part of a schedule are the first rows after the whole of it |
| AuditAppends.EventWasGiven | backend/src/audit/auditService.js:75-116 | the event of a transaction is the one it was begun with at an earlier step, and is complete |
| AuditAppends.BeginsExactly | backend/src/audit/auditService.js:75-81 | a transaction begins exactly for an event with an actor, an address and an action |
| AuditWriter.AuditLog.AppendAuditEvent | backend/src/audit/auditService.js:75-116 | an append keeps the table verifying, adds one row for the event and moves the head hash to that of the event on the old head; an incomplete event is refused and changes nothing |
| AuditOutbox.NothingLost | backend/src/audit/auditRetryWorker.js:41-76 | after every statement of every run an enqueued event is in the outbox as enqueued or in the log, with at most retryMaxAttempts replayed copies |
| AuditOutbox.CopiesWithinMisled | backend/src/audit/auditRetryWorker.js:41-76 | in every run an event is in the log at most once more than there were misleading replies that took effect on its own row, a lost reply to an append or a failed delete; crashes and other rows never add a copy |
| AuditOutbox.AtMostOnceUnlessMisled | backend/src/audit/auditRetryWorker.js:41-76 | so without a lost reply to the row's append and a failed delete of the row its event is not in the log twice, and not at all while it is still to be replayed |
| AuditOutbox.BoundReached | backend/src/audit/auditRetryWorker.js:41-76 | with either of them at each of n attempts the log holds n copies, for every n up to retryMaxAttempts: two such attempts log an event twice |
| AuditOutbox.RunKeeps | backend/src/audit/auditRetryWorker.js:22-76 | every run keeps the copies of each event within the attempts recorded for its row |
| AuditOutbox.ClaimExactly | backend/src/audit/auditRetryWorker.js:22-39 | a claim succeeds exactly on pending rows, hands each out with its event and attempts, and changes no other |
| AuditOutbox.RecordExactly | backend/src/audit/auditRetryWorker.js:57-76 | a failure is recorded as one attempt more than was claimed, pending until that is the maximum and failed then, on that row only; without a reply to the update the worker drops its whole batch |
| TaskScanner.ScannerParses | backend/src/services/taskParser.js:33-39 | once the opening matches, the whole expression does, and the scanner's reading is one |
| TaskScanner.ScannerIsFirstParse | backend/src/services/taskParser.js:33-39 | every other reading at the same start comes later in the matcher's backtracking order, and there is none where nothing opens |
| TaskScanner.OwnerUnique | backend/src/services/taskParser.js:33-39 | at a position at most one owner token can be read, and it is the one the scanner finds |
| TaskScanner.MatchesOrdered | backend/src/services/taskParser.js:45-57 | matches follow one another without overlap |
| TaskScanner.ParseTasks | backend/src/services/taskParser.js:45-57 | the loop lists every match with its index, mark, description and owner, which `TaskReading.EntriesSay` reads off the characters |
| TaskReading.EntriesSay | backend/src/services/taskParser.js:33-57 | in characters, for every text: entry i has index i, is checked exactly when the mark is x or X, its text is what stands between the white space after the bracket and the tail, without a line break, its owner is the 3 to 50 name characters between @ and the closing bracket, and after the tail the line ends; entries follow one another, and every place where a task opens lies within one |
| TaskReading.LineIsReadBack | backend/src/services/taskParser.js:33-57 | a line printed from a mark, a description and an owner is read back as that one task, unless no owner is written and the description itself ends in one |
| TaskReading.ClassesExactly | backend/src/services/taskParser.js:33-39 | the characters that `\s`, the class of user names and the line anchors stand for, one by one |
| TaskReading.NoOpeningMissed | backend/src/services/taskParser.js:45-57 | the search passes over no opening from where it starts |
| TaskScanner.SetTaskChecked | backend/src/services/taskParser.js:69-87 | the loop finds match number index and changes its mark, or gives null when there is none |
| TaskToggle.ToggleRefinesParse | backend/src/services/taskParser.js:69-87 | for every text, index and flag the toggled text parses to the same list with only that entry's flag set, and null comes exactly for an index out of range |
| TaskToggle.ToggleIsLocal | backend/src/services/taskParser.js:59-68 | the length stays and at most one character changes, a mark |
| TaskToggle.TogglesCommute | backend/src/services/taskParser.js:69-87 | toggles of different entries commute and the last toggle of one entry wins |
| TaskToggle.BrokenAliasLosesTask | backend/src/config.js:40-45 | with an alias that breaks a line a toggle can merge two entries into one, so the alias check is needed |
| References.EntityAtExact | backend/src/services/entityService.js:3 | the entity scanner matches at a position exactly where the expression does |
| References.MentionAtLongest | backend/src/services/mentionService.js:10 | the mention scanner takes the longest match the expression allows |
| References.NoMentionMissed | backend/src/services/mentionService.js:25-41 | the mention tokens are those of all positions where the expression matches, in text order |
| References.NoEntityMissed | backend/src/services/entityService.js:25-35 | and so are the entity tokens |
| References.ToggleKeepsReferences | backend/src/routes/messages.js:303-309 | no toggle changes the entity tokens or the mention tokens of a text, whatever the alias |
| MessageHistory.HistoryLosesNothing | backend/src/routes/messages.js:339-390 | over every run of toggles and edits the history rows number exactly the successful edits, and row k is the text number k that was written, same length, descriptions, owners and references, up to checkbox marks |
| MessageHistory.WrittenByAuthor | backend/src/routes/messages.js:350-366 | every later text was written by the author within the window counted from sending, however often edited before |
| MessageHistory.HistoryOnlyGrows | backend/src/routes/messages.js:368-373 | no request rewrites or drops a history row, and content keeps its length limits |
| MessageHistory.EveryTaskReachable | backend/src/routes/messages.js:214-233 | the bound on the index path parameter refuses no checkbox that a message of legal length can hold |
| MessageHistory.ToggleSameButMarks | backend/src/routes/messages.js:262-267 | a toggle leaves a text that differs in checkbox marks only |
| MessageHistory.ToggleExactly | backend/src/routes/messages.js:214-277 | a toggle succeeds exactly for an index up to 1666 that the parsed list has, in the channel of the message, whoever asks; then the parsed list has that one flag set as asked and the history is as before |
| MessageHistory.EditExactly | backend/src/routes/messages.js:328-390 | an edit succeeds exactly for the author, in the channel, within the window, with 1 to 10000 characters; then the text is the given one and the old one the last history row; each refusal has its own answer |
| MessageHistory.StoredMessage.PatchTask | backend/src/routes/messages.js:226-277 | answers and new row of the toggle route, errors included, and no history row |
| MessageHistory.StoredMessage.PatchContent | backend/src/routes/messages.js:328-390 | answers and new row of the edit route, errors in the source's order, the replaced text filed first |
| JobQueue.RunKeeps | backend/src/workers/messageSideEffectsWorker.js:29-46 | over every interleaving of workers, enqueues, backfills and crashes pending rows have attempts left, dead-lettered rows have used exactly all, attempts being the throws that `JobAttempts` counts, and no row is in two batches or twice in one |
| JobAttempts.AttemptsAreFailures | backend/src/workers/messageSideEffectsWorker.js:176-201 | in every run from the empty system the attempts of a row are the number of steps at which its job threw since it was last inserted or re-enqueued, and it is dead-lettered if and only if that number is the maximum |
| JobAttempts.RetriedUntilLast | backend/src/workers/messageSideEffectsWorker.js:176-201 | a row whose job throws once more is pending again while its throws, counted over the run, are fewer than the maximum, and failed when they are as many |
| JobAttempts.WorkExactly | backend/src/workers/messageSideEffectsWorker.js:127-201 | how each of the four endings of a job leaves its row, attempts and batch, every other row and batch being untouched |
| JobAttempts.ClaimTakesOldest | backend/src/workers/messageSideEffectsWorker.js:29-46 | a claim takes pending unlocked rows only, no row while an older free one is left, and leaves a free one only when the batch is full |
| JobAttempts.ClaimExists | backend/src/workers/messageSideEffectsWorker.js:29-46 | for every table, locks and batch size there is such a claim |
| JobAttempts.ClaimExactly | backend/src/workers/messageSideEffectsWorker.js:29-46 | claimed rows are marked as processing and handed out with the attempts they had; other rows and batches stay |
| JobAttempts.EnqueueExactly | backend/src/services/messageSideEffectsQueue.js:11-64 | an enqueue makes a fresh row where there is none, puts a finished one back to zero attempts where these are kept, and touches nothing else |
| JobQueue.ClaimsWithinBudget | backend/src/workers/messageSideEffectsWorker.js:176-201 | without new work all workers together claim no more often than the attempts that were left |
| JobQueue.TicksDrain | backend/src/workers/messageSideEffectsWorker.js:204-225 | as many ticks as attempts were left leave no row pending, whatever the fate of each job |
| JobQueue.TickIsRun | backend/src/workers/messageSideEffectsWorker.js:204-225 | the tick's loop is a run of the interleaving model |
| JobQueue.ClaimSpends | backend/src/workers/messageSideEffectsWorker.js:29-46 | a claim uses up exactly one attempt of each row it takes |
| JobQueue.StrandedExactly | backend/src/workers/messageSideEffectsWorker.js:140-151 | a row is stranded exactly by an exception that escapes its tick or by a crash, and nothing touches it afterwards |
| JobQueue.DeadLetterStays | backend/src/search/embeddingQueue.js:10-26 | where finished rows are deleted no enqueue revives a dead-lettered row |
| JobQueue.RowLeavesDone | backend/src/search/embeddingWorker.js:55-92 | a row disappears only with its message or with its own work done |
| JobQueue.Worker.Tick | backend/src/workers/messageSideEffectsWorker.js:204-225 | a tick that finds running set does nothing; otherwise it backfills when due and processes the claim as the run steps do (`TickIsRun`), whose effect row by row is `JobAttempts.WorkExactly`, and running is cleared whatever throws; a backfill or claim that throws leaves the jobs as they are and the reconciliation clock advanced |
| SideEffectQueue.UpsertedRows | backend/src/services/messageSideEffectsQueue.js:11-64 | after an enqueue every row asked for is pending, but for those claimed and not finished, which are left as they are, stranded ones included; all other rows are untouched |
| SideEffectQueue.BackfillCompletes | backend/src/services/messageSideEffectsQueue.js:79-107 | after a backfill nothing is missing, nothing present has changed, and a second one adds nothing |
| SideEffectQueue.WantedExactly | backend/src/services/messageSideEffectsQueue.js:79-107 | every message is owed a notification job and exactly those of a workspace an entity-link job |
| SideEffectQueue.SideEffectJobs.EnqueueMessageSideEffectJobs | backend/src/services/messageSideEffectsQueue.js:11-64 | the loop upserts one row per job type that applies, up to the statement that fails |
| SideEffectQueue.SideEffectJobs.EnqueueMissingMessageSideEffectJobs | backend/src/services/messageSideEffectsQueue.js:79-107 | both anti-join inserts together add exactly the missing rows |
| Naming.SameNameIffSameWords | backend/src/services/entityService.js:21-29 | two spellings share a canonical name exactly when they have the same words, and the form is stable |
| Naming.CanonicalJoinsWords | backend/src/services/entityService.js:21-29 | trimming and collapsing gives the words with single blanks between |
| Naming.TokenAndAliasAgree | backend/src/services/entityService.js:25-33 | a token in a message and an alias typed alike are normalized alike |
| Naming.NamesAreFirstDistinct | backend/src/services/entityService.js:25-35 | the names are distinct, at most 20, and those of the first tokens, of all tokens unless the twentieth cuts off the rest |
| Naming.NamesAreWritten | backend/src/services/entityService.js:25-35 | each name is written as a token is, its words with single blanks between, and normalized from that; later tokens add names at the end only |
| Naming.ExtractEntityNames | backend/src/services/entityService.js:25-35 | the loop with its early exit gives those names in order |
| EntityLinks.PatchKeeps | backend/src/services/entityService.js:75-111 | an accepted alias list leaves every name with at most one entity per workspace |
| EntityLinks.PatchExactly | backend/src/services/entityService.js:75-111 | an alias list is accepted exactly when it has at most 20 entries, each an alias, and none names another entity of the workspace; then the entity has each normalized name once, and nothing else changes |
| EntityLinks.AliasErrorsExactly | backend/src/services/entityService.js:75-111 | more than 20 entries, then an entry that is no alias, then a collision: the first that applies is the answer |
| EntityLinks.AliasExactly | backend/src/services/entityService.js:75-81 | an entry is an alias exactly when it has at most 255 characters and one that is not white space |
| EntityLinks.FindOrCreateKeeps | backend/src/services/entityService.js:37-65 | find-or-create keeps names unambiguous and changes no entity there is |
| EntityLinks.FindOrCreateExactly | backend/src/services/entityService.js:46-65 | a name that an entity has, as its own or as an alias, finds it and makes nothing; another makes one entity with that name and no alias under an unused id |
| EntityLinks.LinkPartExactly | backend/src/services/entityService.js:122-151 | a job that throws has resolved so many names with the links as they were, or has dropped the links no longer meant, or has them all |
| EntityLinks.ResolveAllExactly | backend/src/services/entityService.js:122-135 | linking makes entities for the names that had none, and no other |
| EntityLinks.LinkReconciles | backend/src/services/entityService.js:122-151 | after linking the message's links are exactly the entities its names mean, each name meaning one, and other messages' links and existing entities are unchanged |
| EntityLinks.LinkIdempotent | backend/src/services/entityService.js:122-151 | running the job again changes nothing |
| EntityLinks.LinkPartKeeps | backend/src/services/entityService.js:122-151 | a job that throws between its statements keeps names unambiguous and other messages' links |
| EntityLinks.DistinctAliasesComplete | backend/src/services/entityService.js:83-93 | every alias of the list survives normalization exactly once |
| EntityLinks.EntityStore.FindOrCreateEntity | backend/src/services/entityService.js:46-65 | the id found or created and the new tables |
| EntityLinks.EntityStore.LinkMessageEntities | backend/src/services/entityService.js:122-151 | the loop and the two link statements together do the reconciliation |
| EntityLinks.EntityStore.NormalizeAndValidateAliases | backend/src/services/entityService.js:75-111 | the accepted list or the first error in the source's order |
| LinkJobs.NamesUnambiguous | backend/src/services/entityService.js:37-65 | in every reachable state each name resolves to at most one entity per workspace, given that a creation and an alias patch each check and write without interruption |
| EntityRaces.UnambiguousIffNoClash | backend/src/services/entityService.js:37-111 | with check and write apart and any number of patches and creations interleaved, each name means one entity at every moment of a run if and only if no write meets a clash: an alias that another entity has taken since, or a looked-up name that has become an alias |
| EntityRaces.PendingExactly | backend/src/services/entityService.js:46-111 | a look-up leaves an insert to do exactly when nothing has the name, a validation its normalized list exactly when that is acceptable then, and tables change by the writes alone |
| EntityRaces.StalePatch | backend/src/routes/entities.js:547-582 | a validated alias list written late keeps names unambiguous if and only if it collides with no entity as they are by then |
| EntityRaces.StaleInsert | backend/src/services/entityService.js:46-65 | a late insert keeps names unambiguous if and only if the index has the name, so that nothing is inserted, or nothing resolves to it |
| EntityRaces.RunIndexed | database/migrations/0019_entities.js:23 | in every interleaving a canonical name is one entity's per workspace, which is all that the index guarantees |
| EntityRaces.UninterruptedIsAtomic | backend/src/services/entityService.js:46-111 | with nothing in between, check and write are the atomic steps of the other modules |
| EntityRaces.RacingPatches | backend/src/routes/entities.js:547-582 | a run from the empty system in which two patches give two entities the same alias |
| EntityRaces.RacingCreation | backend/src/services/entityService.js:46-65 | a run from the empty system in which a name is looked up, taken as an alias and created all the same |
| LinkJobs.LinksAgree | backend/src/workers/messageSideEffectsWorker.js:127-178 | a completed job's links are what the names of the content it loaded meant when it ran, and unless an edit came after the load those are the names of the present content |
| LinkJobs.WritesExactly | backend/src/routes/messages.js:328-390 | a send or edit changes that text only and leaves the job it asks for pending, unless one is pending or running or the message has no workspace |
| LinkJobs.TogglesExactly | backend/src/routes/messages.js:214-277 | a toggle sets that entry of the parsed list and touches no job, whatever its state |
| LinkJobs.EndsExactly | backend/src/workers/messageSideEffectsWorker.js:127-201 | a job that ends leaves its row completed with the links of the text it had loaded, or pending, or failed |
| LinkJobs.LinksAgreeWithContent | backend/src/workers/messageSideEffectsWorker.js:127-178 | when no edit of the message lands on a job that has loaded it, whatever happens to other messages, a completed job's links are exactly what the current content's first 20 names meant when it ran |
| LinkJobs.EditWhileLoadedIsLost | backend/src/services/messageSideEffectsQueue.js:31-44 | in any state an edit that lands on a running job that has loaded its message leaves the row completed with the links of the old text |
| LostEdits.LostEditIffNewNames | backend/src/services/messageSideEffectsQueue.js:31-44 | in the run from the empty system in which one edit does so, the links of the completed job fit the present text if and only if both texts name the same set of names |
| LostEdits.EditedAwayLinkRemains | backend/src/services/messageSideEffectsQueue.js:31-44 | for one, `[[a]]` edited to a dash keeps its link |
| Mentions.AtMostOneFrame | backend/src/workers/messageSideEffectsWorker.js:87-125 | over every run of jobs, whatever each has read as recipients and however often it is re-run or fails, at most one frame is pushed per recipient and message, and only for a row that is there |
| Mentions.FrameFollowsOwnInsert | backend/src/workers/messageSideEffectsWorker.js:97-124 | every frame in every run was pushed by the very job run that inserted its row at an earlier step and was not abandoned in between |
| Mentions.NextFits | backend/src/workers/messageSideEffectsWorker.js:113-124 | at every step a row is due for a push in one run at most, and only before its first frame |
| Mentions.NextExactly | backend/src/services/mentionNotificationService.js:45-61 | pair by pair: after an insert a recipient and message have a row exactly if they had one or are among those given, and a push is due for the new ones only; a push adds one frame of one row; an abandoned run pushes nothing more |
| Mentions.SettledForever | backend/src/workers/messageSideEffectsWorker.js:97-124 | who was pushed to, or whose run gave up first, is never pushed to again |
| Mentions.MentionedExactly | backend/src/services/mentionService.js:25-41 | with 20 different names or fewer exactly the channel members other than the author whose name is a token are notified |
| Mentions.MentionedBeyondCap | backend/src/services/mentionService.js:25-41 | beyond 20 names those whose name is among the first tokens, as many of them as hold 20 different names |
| Mentions.ToggleMentionsSame | backend/src/routes/messages.js:307-309 | a toggle mentions the same people |
| Mentions.ExtractMentionedUserIds | backend/src/services/mentionService.js:25-41 | the loop over the tokens, the cap of 20 and the filter give those people |
| Mentions.NotificationStore.CreateMentionNotifications | backend/src/services/mentionNotificationService.js:45-61 | afterwards a user and a message have a row exactly if they had one, or the message is this one and the user a recipient; the rows returned are those that are new |
| Mentions.NotificationStore.ProcessNotificationJob | backend/src/workers/messageSideEffectsWorker.js:87-125 | under the cap a user has a row for the message afterwards exactly if he had one or is a channel member other than the author whose name is a token; each new row of this message has one frame more, and no other pair has |
| ConcurrencyGate.RunKeeps | backend/src/llm/concurrencyGate.js:44-90 | in every run the count is the number of unreleased holders and within the limit, nobody waits while a slot is free, and no request both waits and is settled |
| ConcurrencyGate.SettlesOnce | backend/src/llm/concurrencyGate.js:57-77 | an outcome never changes, and an aborted or refused request never holds a slot |
| ConcurrencyGate.SettledWithinPosition | backend/src/llm/concurrencyGate.js:31-34 | a waiter at place p of the queue is settled within p releases, whoever arrives or aborts in between |
| ConcurrencyGate.AnnouncedPosition | backend/src/llm/concurrencyGate.js:58-76 | the position told to onQueued is that place, at most the queue's depth, and the call is settled within so many releases |
| ConcurrencyGate.Fifo | backend/src/llm/concurrencyGate.js:79-90 | of two waiters the later is granted only after the earlier is settled |
| ConcurrencyGate.NoBarging | backend/src/llm/concurrencyGate.js:49-52 | while others wait a newcomer is not granted |
| ConcurrencyGate.AcquireExactly | backend/src/llm/concurrencyGate.js:44-77 | a call is granted exactly when a slot is free and it is not aborted, refused exactly when none is and the queue is full, and otherwise goes to the end of the queue; nobody else is affected |
| ConcurrencyGate.ReleaseExactly | backend/src/llm/concurrencyGate.js:79-90 | a release hands the slot to the head of the queue and to nobody else, or frees it |
| ConcurrencyGate.AbortExactly | backend/src/llm/concurrencyGate.js:60-66 | an abort takes that one waiter out and settles it; on anybody else it does nothing |
| ConcurrencyGate.Gate.AcquireSlot | backend/src/llm/concurrencyGate.js:44-77 | the reply, with the 1-based position when queued, and the new state |
| ConcurrencyGate.Gate.OnAbort | backend/src/llm/concurrencyGate.js:60-66 | only a waiter is taken out of the queue, and it is settled as aborted |
| ConcurrencyGate.Gate.ReleaseSlot | backend/src/llm/concurrencyGate.js:79-90 | the slot passes to the longest-waiting request or the count drops |
| GateClients.ClientsKeepRules | backend/src/llm/aiService.js:65-137 | in every reachable state a step of a client, whatever throws, asks the gate for a slot only once and releases only while it holds one, so each of its calls is one that the rules of the gate allow |
| GateClients.RunKeeps | backend/src/llm/aiService.js:35-137 | every interleaving of any number of calls, aborts and exceptions keeps the gate's invariant and, per call, its place: not asked yet, waiting, holding, or over |
| GateClients.ReleasesAreByHolders | backend/src/llm/aiService.js:85-136 | in every run a call inside the second try or about to release is a current holder, although release() itself checks nothing |
| GateClients.FinishedHoldsIffLost | backend/src/llm/aiService.js:35-137 | in every run a call that returned or threw holds a slot if and only if its onQueued threw and its entry has been granted one since, waits if and only if its onQueued threw and its entry is unsettled, and otherwise called release() once if it was granted a slot and never if not |
| GateClients.ClientsRefineGate | backend/src/llm/concurrencyGate.js:44-90 | what any run of the clients does to the gate is a run of the gate's own rules |
| GateClients.LostCallGetsSlot | backend/src/llm/concurrencyGate.js:58-76 | when onQueued throws with an empty queue in front, the next release hands the slot to the call that is over |
| GateClients.LostSlotReachable | backend/src/llm/concurrencyGate.js:58-90 | a run from the empty system gets there with one slot and room in the queue: a holder fails, the next call's onQueued throws, the holder releases |
| GateClients.LostSlotStaysTaken | backend/src/llm/concurrencyGate.js:79-90 | and in every run from there on that slot stays taken |
| GateClients.ReturnedIsComplete | backend/src/llm/aiService.js:85-133 | in every run a streaming call that returned has set its headers once, written exactly the streamed pieces or else the whole text and ended the response; one that threw has not ended it |
| GateProgress.CallSucceeds | backend/src/llm/aiService.js:35-137 | from every state that a run of calls reaches with a slot free, a new call without an exception, its audit's apart, is granted the slot, streams its pieces or writes its whole text, sets its headers once, ends, and leaves slots, queue and all other calls as it found them |
| GateProgress.ExceptionsExactly | backend/src/llm/aiService.js:35-137 | an exception before the gate ends the call; one after the grant leaves the release as the only statement to come, the response as it is; one of the audit is swallowed |
| GateClients.OwnFits | backend/src/services/entitySummaryService.js:22-57 | every statement of either program, whether it goes on or throws, leaves the call in a place that the gate agrees with: not asked yet, waiting, holding a slot with release() still to come, or over with nothing held, a throwing onQueued apart |
| WorkspaceRuns.RunKeeps | backend/src/routes/workspaces.js:865-1096 | after every run of requests, promotions and demotions of system administrators included, each workspace has exactly one OWNER row, that of owner_id, members of private channels are workspace members, and there is a system administrator left if there was one |
| WorkspaceRuns.GuestJoinedAsAdmin | backend/src/routes/workspaces.js:1398-1424 | in every run whoever is in a channel without being a member of its workspace joined it himself at a step where he was system administrator, and the channel is public |
| WorkspaceRuns.DemotedGuestStays | backend/src/routes/admin.js:257-292 | a demotion leaves such a guest in the channel, so public channels can hold people who are neither members nor administrators |
| WorkspaceRuns.DemotedGuestReachable | backend/src/routes/admin.js:257-292 | four requests from an initial deployment lead there |
| WorkspaceRuns.RolesChangeOnlySo | backend/src/routes/workspaces.js:435-478 | every change of anybody's role in any handler is one of a short list, by a caller who may, which `WorkspaceRights` says in roles |
| WorkspaceRights.PowerlessChangesNothing | backend/src/authz/permissions.js:45-60 | of membership rows and the administrators alone: a caller who is no administrator and neither OWNER nor MANAGER of a workspace changes there by no request anybody's role but his own, that only by leaving, subscribing or accepting an invitation to him, neither owner nor flag, and creates no invitation |
| WorkspaceRights.RowsChangeOnlySo | backend/src/authz/permissions.js:45-60 | of any request: `archived` changes only by the OWNER or an administrator, or by a MANAGER where managers may archive; the other flags and `owner_id` by the OWNER or an administrator only, each by its own request |
| WorkspaceRights.RefusedAs | backend/src/authz/permissions.js:45-60 | every request that takes authority is answered not found to a stranger, forbidden to a MEMBER, and on an archived workspace, flags apart, a conflict even to the OWNER |
| WorkspaceRights.ManagerRefused | backend/src/authz/permissions.js:45-60 | a MANAGER is forbidden what takes the OWNER, and archiving where managers may not |
| WorkspaceRights.WrongTarget | backend/src/routes/workspaces.js:435-690 | to a caller with the OWNER's power the answers to requests about unknown users, members, strangers, the OWNER and the invited, each exactly |
| WorkspaceRights.WrongAnswer | backend/src/routes/workspaces.js:994-1030 | the answers to leaving, subscribing and redeeming that fail |
| WorkspaceRights.AddMemberExactly | backend/src/routes/workspaces.js:435-478 | adding succeeds exactly for who has the OWNER's power, or for a plain MEMBER the MANAGER's, on an open workspace, for a user who is no member; he then has that role and nothing else changes |
| WorkspaceRights.ChangeRoleExactly | backend/src/routes/workspaces.js:865-930 | a role change succeeds exactly so, a MANAGER on either side taking the OWNER's power, never to or from OWNER; only that role changes |
| WorkspaceRights.RemoveMemberExactly | backend/src/routes/workspaces.js:940-984 | a removal succeeds exactly so; he is out of the workspace and of its channels, and nothing else changes |
| WorkspaceRights.LeaveExactly | backend/src/routes/workspaces.js:994-1030 | leaving succeeds exactly for members of an open workspace other than the OWNER, with the same effect |
| WorkspaceRights.TransferExactly | backend/src/routes/workspaces.js:1052-1096 | a transfer succeeds exactly with the OWNER's power, on an open workspace, to another member; he is OWNER and owner_id, the old owner MANAGER, and all else stays |
| WorkspaceRights.ArchiveExactly | backend/src/routes/workspaces.js:376-430 | archiving and unarchiving succeed exactly with the OWNER's power or for a MANAGER where managers may archive, and set that flag |
| WorkspaceRights.VisibilityExactly | backend/src/routes/workspaces.js:1102-1130 | only with the OWNER's power, on an open workspace |
| WorkspaceRights.SettingsExactly | backend/src/routes/workspaces.js:1137-1160 | only with the OWNER's power |
| WorkspaceRights.InviteExactly | backend/src/routes/workspaces.js:492-690 | an invitation is made exactly by who could give the role, on an open workspace, for nobody who is a member or has one pending; it is open and in his name |
| WorkspaceRights.RevokeExactly | backend/src/routes/invitations.js:187-219 | a token is revoked exactly by who made it or who may manage members |
| WorkspaceRights.SubscribeExactly | backend/src/routes/workspaces.js:326-370 | subscribing succeeds exactly where a workspace is open and discoverable, and makes a MEMBER of who had no role |
| WorkspaceRights.CreateWorkspaceExactly | backend/src/routes/workspaces.js:82-143 | a new workspace has its creator as OWNER and nobody else |
| WorkspaceRights.AcceptExactly | backend/src/routes/membershipInvitations.js:111-154 | accepting succeeds exactly for the invited, while pending and the workspace open, and gives the role of the invitation unless he has one |
| WorkspaceRights.DeclineExactly | backend/src/routes/membershipInvitations.js:173-197 | declining succeeds exactly for the invited, while pending, and changes only that |
| WorkspaceRights.AcceptTokenExactly | backend/src/routes/invitations.js:72-146 | a token that is pending, not expired and for an open workspace makes a new account with its role, and no other does |
| WorkspaceRights.CreateChannelExactly | backend/src/routes/workspaces.js:1246-1285 | members and administrators create channels in open workspaces; a member is in it, an administrator is not |
| WorkspaceRights.JoinExactly | backend/src/routes/workspaces.js:1398-1424 | public channels of open workspaces only, by members and administrators, for themselves |
| WorkspaceRights.AddToChannelExactly | backend/src/routes/workspaces.js:1472-1535 | by who is in the channel or an administrator, for members of its workspace |
| WorkspaceRights.RemoveFromChannelExactly | backend/src/routes/workspaces.js:1543-1592 | by the same, for who is in it |
| WorkspaceRights.LeaveChannelExactly | backend/src/routes/workspaces.js:1600-1620 | by who is in it |
| WorkspaceRights.WriteExactly | backend/src/authz/membershipService.js:186-191 | only who is in a channel writes to it, and not while its workspace is archived; an administrator's power does not reach there |
| WorkspaceRights.AdminsExactly | backend/src/routes/admin.js:227-292 | accounts, promotions and demotions are the administrators', nobody demotes himself |
| WorkspaceRuns.ManagersCannotManageManagers | backend/src/routes/workspaces.js:897-909 | a caller who is only a MANAGER makes nobody a MANAGER, invites nobody as one and unmakes none but himself |
| WorkspaceRuns.ManagerProvenance | backend/src/authz/permissions.js:45-60 | in every run every MANAGER traces back to a grant by who could manage managers, a transfer, or an invitation to the role |
| WorkspaceRuns.InvitationProvenance | backend/src/routes/workspaces.js:492-535 | in every run an open invitation to the MANAGER role was made by a caller who could manage managers |
| WorkspaceRuns.ArchivedFrozen | backend/src/authz/membershipService.js:186-191 | while a workspace stays archived its members, owner, channels, channel members and messages do not change under any request |
| WorkspaceRuns.StaleTransfer | backend/src/routes/workspaces.js:1058-1082 | whatever changed between its reads and its transaction, a transfer leaves exactly one OWNER row, that of owner_id, if and only if the target still is a member and the owner it read still is it or the target has become it |
| WorkspaceRuns.DepartedTarget | backend/src/routes/workspaces.js:1067-1082 | a target who left in between leaves the workspace without any OWNER row |
| WorkspaceRuns.StaleRoleChange | backend/src/routes/workspaces.js:880-912 | the late update of a role change keeps one OWNER row, that of owner_id, if and only if the target has not become the owner |
| WorkspaceRuns.StaleRemoval | backend/src/routes/workspaces.js:947-970 | so do the late deletes of a removal or a leave |
| WorkspaceRuns.RacingTransfers | backend/src/routes/workspaces.js:1058-1082 | two transfers that read the same owner leave two OWNER rows |
| WorkspaceRuns.WithoutMemberKeeps | backend/src/routes/workspaces.js:964-970 | a member taken out of the workspace is in none of its channels, every other channel membership stays, and the invariant holds |
| WorkspaceRuns.AcceptTokenKeeps | backend/src/routes/invitations.js:81-146 | redeeming a token gives the newcomer the invitation's role and keeps one OWNER and members among the users |
| WorkspaceRuns.AcceptKeeps | backend/src/routes/membershipInvitations.js:115-154 | accepting an invitation keeps one OWNER and every role there is; the one new membership it can make is the caller's with the role of the invitation |
| WorkspaceRuns.ChannelsKeep | backend/src/routes/workspaces.js:1246-1620 | creating, joining, filling and leaving channels keeps private channels within the workspace |
| WorkspaceStore.TransferNeedsAll | backend/src/routes/workspaces.js:1074-1082 | after one or two of the transfer's three updates the workspace has no single OWNER that is owner_id, so the transaction is needed |
| WorkspaceStore.CreationNeedsAll | backend/src/routes/workspaces.js:102-109 | after the first insert alone the workspace has no OWNER row |
| WorkspaceStore.RedemptionNeedsAll | backend/src/routes/invitations.js:115-146 | after a part of a redemption the newcomer would be locked out: the account is there, the token open, and redeeming it again a conflict |
| WorkspaceStore.RemovalOrder | backend/src/routes/workspaces.js:964-970 | a removal keeps every invariant after each statement because the channels come first; the other order would leave a stranger in a private channel |
| WorkspaceStore.TransferIsStep | backend/src/routes/workspaces.js:1074-1082 | the three updates in sequence are the transfer of the run theorems, absent rows included |
| WorkspaceStore.Database.RunTransaction | backend/src/routes/workspaces.js:1074-1082 | the loop executes the statements in order; whichever of them or the commit throws, the tables are as before, which is the database's own promise |
| WorkspaceStore.Database.PostWorkspace | backend/src/routes/workspaces.js:82-143 | both inserts make the caller the one OWNER; if either or the commit throws there is no workspace |
| WorkspaceStore.Database.DeleteWorkspaceMember | backend/src/routes/workspaces.js:940-984 | checks in the source's order, then channel memberships and membership both go, or neither when a statement throws |
| WorkspaceStore.Database.PostLeave | backend/src/routes/workspaces.js:994-1030 | an owner cannot leave; anybody else leaves the workspace and its channels, or nothing when a statement throws |
| WorkspaceStore.Database.PostTransferOwnership | backend/src/routes/workspaces.js:1052-1096 | by the OWNER or an administrator only; the handler's checks, then all three updates or, when any of them or the commit throws, none |
| WorkspaceStore.Database.PostChannel | backend/src/routes/workspaces.js:1246-1285 | the channel with its creator in it when he is a member, or no channel when a statement throws |
| WorkspaceStore.Database.PostTokenAccept | backend/src/routes/invitations.js:72-146 | the account, the membership and the invitation's status change together or, when any of the five statements or the commit throws, not at all |
| WorkspaceStore.Database.PostInvitationAccept | backend/src/routes/membershipInvitations.js:111-154 | the membership, if there was none, and the invitation's status change together or not at all |
| PresenceRuns.ViewsAreFaithful | backend/src/ws/presence.js:14-56 | in every run every open authenticated socket that folds its presence frames since its snapshot has exactly the server's statuses |
| PresenceRuns.RegistryIsExact | backend/src/ws/connectionRegistry.js:13-65 | users with presence are exactly those with a connected socket, never more sockets than the cap, and rooms mirror joinedChannels, given that no socket closes during a handler's await |
| PresenceAwaits.ExactIffNeverTooLate | backend/src/ws/server.js:133-204 | with the awaits of authenticate and join apart, registry, cap, rooms, presence and views are exact at every moment of a run if and only if no handler goes on too late: to register a closed socket, to beat for a user without connections, or to put a closed socket into a room |
| PresenceAwaits.GhostForGood | backend/src/ws/server.js:106-183 | a socket that closed before its authentication went on stays registered in every continuation, counts against the cap, and its user never goes offline |
| PresenceAwaits.GhostReachable | backend/src/ws/server.js:106-183 | connect, authenticate, close and the rest of the authentication lead there |
| PresenceRuns.AuthenticateKeeps | backend/src/ws/server.js:133-183 | authentication, re-authentication and refusal keep registry, cap, rooms and views |
| PresenceRuns.CloseKeeps | backend/src/ws/server.js:106-112 | the close handler leaves no trace of the socket and tells everybody when the user is gone |
| PresenceRuns.SweptFits | backend/src/ws/presence.js:48-56 | the sweep's changes and its frames agree for every client |
| PresenceSteps.SweepExactly | backend/src/ws/presence.js:48-56 | after a sweep a user is away exactly if he was, or his last heartbeat is longer ago than the limit; nobody goes offline, no heartbeat, connection or room changes |
| PresenceSteps.HeartbeatExactly | backend/src/ws/presence.js:19-25 | a heartbeat makes that user online as of now and changes nobody else's presence |
| PresenceSteps.AuthenticateExactly | backend/src/ws/server.js:133-183 | authentication is refused exactly for a bad token, another user's socket or one too many, and then only starts to close the socket; otherwise the socket is its user's and connected, and he is online |
| PresenceSteps.CloseExactly | backend/src/ws/server.js:106-112 | a close takes the socket out of registry and rooms, and its user offline exactly when that was his last |
| PresenceSteps.JoinExactly | backend/src/ws/server.js:185-204 | a join puts that socket into that room exactly for members |
| PresenceSteps.LeaveExactly | backend/src/ws/connectionRegistry.js:49-58 | a leave takes that socket out of that room and no other |
| PresenceHub.Hub.SweepStalePresence | backend/src/ws/presence.js:48-56 | the loop sets every stale user away and tells every open socket of each |
| PresenceHub.Hub.BroadcastPresence | backend/src/ws/connectionRegistry.js:119-128 | the frame reaches exactly the registered sockets that are open |
| PresenceHub.Hub.RecordHeartbeat | backend/src/ws/presence.js:19-25 | the user is online, and others are told only if that is news |
| PresenceHub.Hub.HandleDisconnect | backend/src/ws/presence.js:28-35 | presence goes with the last connection only |
| PresenceHub.Hub.LeaveAllRooms | backend/src/ws/connectionRegistry.js:61-65 | the loop over a copy empties joinedChannels and takes the socket out of those rooms |
| PresenceHub.Hub.LeaveRoom | backend/src/ws/connectionRegistry.js:49-58 | the socket leaves the room, and an empty room goes |
| PresenceHub.Hub.JoinRoom | backend/src/ws/connectionRegistry.js:41-47 | room and joinedChannels both get the entry |
| PresenceHub.Hub.RegisterConnection | backend/src/ws/connectionRegistry.js:13-18 | the socket is added to its user's set |
| PresenceHub.Hub.UnregisterConnection | backend/src/ws/connectionRegistry.js:20-27 | the socket goes, and the user with the last one |
| PresenceHub.Hub.OnAuthenticate | backend/src/ws/server.js:133-183 | refusals close the socket; success registers it once, beats and takes the snapshot |
| PresenceHub.Hub.OnClose | backend/src/ws/server.js:106-112 | rooms, registry and presence are cleaned up, for authenticated sockets only |
| RateLimiter.SlidingBound | backend/src/ws/rateLimiter.js:12-27 | in any closed interval as long as the window fewer than twice the maximum sends of a user go through, and no counter exceeds the maximum |
| RateLimiter.UsersIndependent | backend/src/ws/rateLimiter.js:12-27 | what a user is allowed depends on that user's calls only |
| RateLimiter.LimitedOnlyAfterMax | backend/src/ws/rateLimiter.js:12-27 | who is refused has had the maximum of sends through within the last window, so who has had fewer is not limited |
| RateLimiter.WindowCounts | backend/src/ws/rateLimiter.js:12-27 | the counter never exceeds the sends that went through since its window began, and is 1 at least |
| RateLimiter.BoundReached | backend/src/ws/rateLimiter.js:12-27 | for every maximum and window of at least 1 the bound is reached, at any time and for any user |
| RateLimiter.Limiter.IsMessageRateLimited | backend/src/ws/rateLimiter.js:12-27 | the decision and the new counter |
| RefreshTokens.RotatesOnce | backend/src/auth/refreshTokens.js:46-80 | a raw token rotates successfully at most once; presented again it is reported as reused and its user is left without a live token |
| RefreshTokens.ReuseLeavesNone | backend/src/auth/refreshTokens.js:62-67 | presenting any revoked token leaves its user with no live one and other users untouched |
| RefreshTokens.RevokedForever | backend/src/auth/refreshTokens.js:46-96 | a revoked token is never live again, in any run |
| RefreshTokens.RotatesWithinLifetime | backend/src/auth/refreshTokens.js:23-31 | in any run a token rotates successfully within one lifetime of its own issue only |
| RefreshTokens.RotationConserves | backend/src/auth/refreshTokens.js:72-74 | a successful rotation trades one live token of the user for another |
| RefreshTokens.RotateExactly | backend/src/auth/refreshTokens.js:46-80 | row by row: what an unknown, a revoked, an expired and a good token leave; expiry is a time strictly past |
| RefreshTokens.OthersExactly | backend/src/auth/refreshTokens.js:23-96 | what issuing and both revocations leave |
| RefreshTokens.LiveWithinLogins | backend/src/auth/refreshTokens.js:23-31 | a user never has more live tokens than logins |
| RefreshTokens.TokenStore.RotateRefreshToken | backend/src/auth/refreshTokens.js:46-80 | the result and the table, the reuse branch's revocations kept |
| RefreshTokens.TokenStore.RevokeRefreshToken | backend/src/auth/refreshTokens.js:85-92 | revokes a known live token and says whose it was |
| RefreshTokens.TokenStore.RevokeAllRefreshTokensForUser | backend/src/auth/refreshTokens.js:94-96 | all tokens of the user and no others are revoked |
| Sentiment.CauchySchwarz | backend/src/search/sentimentService.js:20-31 | for vectors of any length the squared dot product is at most the product of the norms |
| Sentiment.CosineSimilarity | backend/src/search/sentimentService.js:20-31 | the loop's result is the similarity, 0 for a zero vector, and lies between -1 and 1 |
| Sentiment.ComputeSentimentScore | backend/src/search/sentimentService.js:50-53 | the score lies between -2 and 2 |
| Sentiment.SelfSimilarity | backend/src/search/sentimentService.js:20-31 | a vector that is not zero has similarity 1 to itself |
| Sentiment.SimilarityIsCosine | backend/src/search/sentimentService.js:20-31 | times both lengths the similarity is the dot product, and 0 where a length is 0 |
| Sentiment.DotLinear | backend/src/search/sentimentService.js:20-31 | the accumulated product is linear |
| Sentiment.DotSymmetric | backend/src/search/sentimentService.js:20-31 | and symmetric |
| Sentiment.DotUnit | backend/src/search/sentimentService.js:20-31 | and picks out each coordinate, so that it is the dot product |
| Markdown.PassConserves | frontend/src/markdown.jsx:243-272 | a pass loses no character and moves none if and only if no match of its scan becomes a bare string, and otherwise the text gets shorter |
| Markdown.TokensStay | frontend/src/markdown.jsx:243-249 | tokens of earlier passes stay, in order, between the expansions of their neighbours |
| Markdown.ElementsAreTaken | frontend/src/markdown.jsx:243-272 | the elements that a pass makes of a string are the accepted matches of its scan, in order, and no others |
| Markdown.PipelineConserves | frontend/src/markdown.jsx:409-433 | the whole sequence of passes conserves the text if and only if no match of the run becomes a bare string |
| MarkdownLinks.LinkAtLongest | frontend/src/markdown.jsx:39 | the link scanner finds a match exactly where the link expression has one, and the longest |
| MarkdownLinks.FindLinkFirst | frontend/src/markdown.jsx:39 | the search finds the first position that has a match |
| MarkdownLinks.LinkPassIsPass | frontend/src/markdown.jsx:274-289 | the link pass meets the assumptions of the conservation theorems: its matches are not empty and a bare label is shorter than its match |
| MarkdownLinks.UnwrapsIffUnsafe | frontend/src/markdown.jsx:274-289 | the link pass makes a bare string of a match if and only if the target of some link that it finds is unsafe |
| MarkdownLinks.InlineTextKeptIffSafe | frontend/src/markdown.jsx:409-433 | applyInlinePasses on one string conserves it if and only if the targets of all its Markdown links are safe, and otherwise makes it shorter |
| MessageRenderer.MessageTextKeptIff | frontend/src/markdown.jsx:550-562 | rendering a whole message, task pass, nested passes and inline passes, conserves its text if and only if no newline stands right before a row or right after the last one and all links in the segments and in the descriptions are safe; otherwise the text gets shorter |
| MessageRenderer.CutIffTakes | frontend/src/markdown.jsx:500-539 | a segment is cut exactly where a newline touches a row |
| MessageRenderer.RowTakesNewline | frontend/src/markdown.jsx:505-509 | a message whose first row follows a newline loses it, whatever its links |
| MessageRenderer.LinklessTextLost | frontend/src/markdown.jsx:550-562 | for one, the letter a, a newline and `- [ ] b`, which holds no link |
| MessageRenderer.RenderMessageContent | frontend/src/markdown.jsx:550-562 | the loop over the pieces with the nested passes, then the inline passes, gives that rendering |
| MarkdownLinks.UnsafeLinkLosesText | frontend/src/markdown.jsx:274-283 | a message that is one link with an unsafe target comes out as the label alone, for every label and target |
| MarkdownLinks.ScriptLinkLosesText | frontend/src/markdown.jsx:274-283 | for one, `[x](javascript:1)` |
| Markdown.ApplyPass | frontend/src/markdown.jsx:243-272 | the loops end, rejected matches included, with each string cut at its accepted matches |
| Markdown.ApplyInlinePasses | frontend/src/markdown.jsx:409-433 | the passes run one after the other on what the earlier ones left |
| TaskRows.RowsAreTasks | frontend/src/markdown.jsx:500-539 | the rows shown are the server's parsed list, in order, with the indices the toggle route takes, optimistic toggles overriding |
| TaskRows.RowsDisabled | frontend/src/markdown.jsx:511-524 | a row is disabled exactly while its own toggle is under way |
| TaskRows.ClickChangesRow | frontend/src/markdown.jsx:526 | a click that the server accepts comes back as that row changed and no other |
| TaskRows.TaskPassConserves | frontend/src/markdown.jsx:500-539 | the pieces make up the text, and what is shown is those pieces in order without the empty segments; nothing else is lost but one newline before each row and one after the last |
| TaskRows.ApplyTaskPass | frontend/src/markdown.jsx:500-539 | the loop with its cursor shows every row and every segment that is not empty |

## Left out

- Number texts in payloads: a JSON number is the text that JavaScript prints for it, so two numerals of one number are two values. Dates, `__proto__` keys and values outside JSON do not occur in payloads.
- Audit ids and timestamps are not hashed by the code, so nothing is claimed of them beyond ids ascending. Cutting off the end of the table is noticed only by who knows the head hash.
- HashChain.VerifyAuditChain: `rowsChecked` counts whole fetched pages when a row fails, as in the code, so only the verdict is independent of the batch size. Rows come in key order with keys from 1 on, as the column's sequence gives them.
- AuditOutbox.NothingLost: counts the worker's replays only; the request's own append may have committed with a lost reply before the event was enqueued. An event whose enqueue fails is lost, as the code says.
- JobQueue.TicksDrain: the measure also counts the later retries of rows that are being processed when it starts; on a table without such rows it is the sum of the attempts left over pending rows.
- TaskToggle.ToggleRefinesParse: for aliases on one line, which is more than the configuration admits. For other aliases one failing family is shown, not an exact condition.
- LinkJobs.LinksAgree: finding or creating one entity, patching aliases, and the statements of one link job after its load are atomic steps here. EntityRaces says exactly when names stay unambiguous without that; what a link job makes of a name that means two entities is not modelled.
- Mentions.AtMostOneFrame: which runs of a job there are is left open, so that it holds for every claim, retry, re-enqueue and backfill; sockets are not modelled here, so a frame is the call that would send it.
- ConcurrencyGate.RunKeeps: the limits are fixed; a change of `maxConcurrent` between calls is not modelled.
- GateClients.RunKeeps: a statement goes on or throws as its event says; what the settings, the prompt, the provider and the audit callback compute is not modelled, and the response is what was written to it.
- Workspaces: organizations enter as one flag of workspace creation, disabled accounts are not distinguished, usernames are ids, names of workspaces and channels and direct-message channels are absent, and handlers of one statement are step functions only.
- WorkspaceRights.PowerlessChangesNothing: redeeming a token is not among the requests, since nobody is logged in then; `WorkspaceRights.AcceptTokenExactly` says what it does.
- GateProgress.CallSucceeds: for a call that finds a slot free; one that waits first is the subject of `ConcurrencyGate.SettledWithinPosition`.
- PresenceRuns.ViewsAreFaithful: each frame handler is one step; PresenceAwaits has the awaits of `backend/src/ws/server.js:150` and `backend/src/ws/server.js:196` apart. Delivery delays are not modelled.
- Sentiment.CosineSimilarity: real numbers, no rounding, overflow or NaN; the anchors' cache is absent.
- RateLimiter.SlidingBound: the in-process map only, and a clock that does not run backwards.
- Markdown.PassConserves: elements are the slices they stand for, and the nested passes inside bold, italic and highlighted text are not followed. The renderer's expressions are parameters, but for the checkbox line and the link, and so is isSafeHttpUrl.
- MessageRenderer.MessageTextKeptIff: a row stands for its whole match but for its description, so the white space and the owner token at its end count as shown.
- WorkspaceStore.Database.RunTransaction: all-or-nothing is the database's and modelled as such, by a saved copy; what is proved of the transactions is that their statements add up to the handler's step (the lemmas named IsStep), and what a part of them would break (NeedsAll, RemovalOrder). A transaction runs alone.
- Embedding vectors, provider calls, JWT, bcrypt, the HTTP and WebSocket transports, SQL and Postgres themselves, validation of request fields, read-only queries, dashboards and settings: foreign calls or members settled by reading one branch.
