# Verified model of the company assistant's back end

The service answers WhatsApp messages with company data: a large language model reads a user's
question, calls permission-checked reporting tools, and its answer is sent back once.  This
project models the parts of it whose correctness is hardest to see from the code, and proves
their properties for all inputs, all states or all runs.

| area | modules |
|---|---|
| schema discovery in 16,000-byte pages and the start-up budget that promises at most three of them | Json, Ordering, FieldTypes, SchemaPages, Paging, Discovery, PageContents, SchemaListing, Federation, PagePromise, BudgetGap |
| structured queries, compiled to SQL with placeholders and to MongoDB pipelines with positional names | Escaping, Queries, Sorting, ShownRows, SortSpecs, MongoQuery, SqlQuery, Dialects, DialectAnswers |
| the durable inbox and outbox on one messages table, with crashes, replicas and webhooks | MessageRows, Outbox, OutboxGrants, OutboxSafety, OutboxProgress |
| the hash-chained audit log: append, purge, rotation, verification | Canonical, Numerals, AuditChain, AuditRuns |
| tool schemas with references inlined, and the loop between the model and the tools | SchemaPointers, GeminiSchema, GeminiProperties, GeminiValues, AnthropicSchema, AnthropicSent, ToolLoop |
| bounded resources around them | WorkerPool, Semaphore, RateLimits, SplitText |

`dafny verify dfyconfig.toml` verifies everything.

Two styles are used side by side.  Code that changes state step by step is a class or a method
with loops, proved against a specification function; protocols that interleave are state
machines whose steps are the atomic statements, with an invariant and a theorem over runs.
Whatever the code cannot see (databases, HMAC, case folding, the model, clocks) is a parameter,
as weak as the proofs allow: the audit theorems ask the keyed hash to be injective, the ILIKE
theorem asks case folding to keep the wildcards, the rate limits ask the clock to be monotone.

## What the proofs rest on

- Budget: the page size is base + schemas + relations + flag + cursor, and a run-time page that ends
  where a budgeted page ends is no larger, so greedy paging over a lighter sub-list never falls
  behind.  Any relation outweighs any cursor, so a shorter page is never the larger one, and greedy
  packing is minimal.
- Pipelines: grouping, projection and sorting commute with the renaming to `g_i`, `c_i` and `a_i`,
  because decimal numerals are injective and a sort does not see a change of representation.
- Outbox: as long as another attempt can be granted, one result is awaited, it is that of the current
  attempt, and a `failed` row means that this attempt failed definitely.  What can no longer be
  granted stays so.
- Audit: the chain state row is locked before the sequence number is drawn, so link order is
  sequence order; canonical JSON determines the event, so equal hashes mean equal rows.
- Inlining: following a reference shrinks the set of references not being followed; otherwise the
  schema itself shrinks.

## Where the code does less than it promises

- The static budget sizes a PostgreSQL column by its manifest type if one is given
  (src/reports/schema-policy.ts:285), although discovery shows the longer catalog type.  A forty-column
  manifest is accepted with one page and can then not be shown (BudgetGap).  The promise of n pages
  holds for every catalog if and only if the listing with the widest catalog types takes at most n
  pages; it holds if the budget without column types is accepted with n pages (PagePromise).
- A failure report for an earlier send attempt that arrives after a retry was granted marks the retry
  as failed (src/messages/message.repository.ts:366-378), because the row keeps the old id.  A second
  worker may then send at the same time, or a retry may follow an attempt of unknown outcome.  This
  can happen if and only if the current attempt has not failed definitely and another one can still be
  granted; all runs without such reports are safe, and one with it is exhibited (OutboxSafety).
- The MongoDB sort document loses the position or direction of a repeated order target, which
  validation accepts (src/reports/mongodb-query.repository.ts:504-509, 465-467).  The order is
  followed exactly when no target ends with another direction than it began with (SortSpecs,
  MongoQuery).
- A grouped MongoDB row shows a missing key as the text `undefined`
  (src/reports/mongodb-query.repository.ts:78-96, 523-527).  The rows are as promised exactly when every
  selected key is present in the documents behind them (MongoQuery).
- The Gemini schema loses declared properties (src/llm/gemini-chat-completions.gateway.ts:133-185): one
  that is named like a dropped keyword (`pattern`, `definitions`, ...), one declared beside a union
  with null that is folded into its branch, and one of a reference's target when the reference has
  `properties` beside it.  GeminiProperties shows one schema for each and the exact condition.
- A tool property that is named like a bound (`maximum`, `minItems`, ...) disappears from the Anthropic
  schema with the bounds (src/llm/anthropic-messages.gateway.ts:244-252), which makes a closed object
  stricter (AnthropicSchema).
- The two query backends differ on `ne` with nulls, on filter texts that sanitising changes (only
  MongoDB sanitises them) and on counting a column (Dialects says exactly when), on summing no value,
  on aggregating nothing, and on where rows without a value stand in the order.  DialectAnswers gives a
  condition under which whole answers are the same, exact for queries with at most one order target
  that is a column.

## Model

| member | source | states |
|---|---|---|
| Json.SizeIsByteLength | src/reports/schema-policy.ts:302-309 | the size computed field by field is the UTF-8 byte length of the JSON text, escapes included, so byte limits can be reasoned about as sums of weights |
| Json.RenderReadsBack | src/messages/audit.repository.ts:36-52 | what is written for a value is read back, by the grammar of RFC 8259 sections 2 to 7, to that value, and what follows is left |
| Json.RenderUnique | src/messages/audit.repository.ts:36-52 | a JSON value followed by a delimiter can be read back from its text in one way only |
| Json.RenderInjective | src/messages/audit.repository.ts:36-52 | two values with the same JSON text are the same value |
| SchemaPages.PageBytesSplit | src/reports/schema-query.repository.ts:496-505 | a page costs a fixed base plus its schemas, its relations, its flag and its cursor; the cursor makes it not purely additive |
| SchemaPages.PageCompare | src/reports/schema-query.repository.ts:496-505 | a page whose relations, schemas and cursor weigh no more than those of another page is no larger |
| Paging.RelationOutweighsCursor | src/reports/schema-policy.ts:302-309 | a serialised relation costs at least as much as any cursor that a manifest name can make |
| Paging.PagesAreWalk | src/reports/schema-query.repository.ts:464-525 | following nextCursor from no cursor yields exactly the greedy pages and stops after them |
| Paging.PagesAreLossless | src/reports/schema-query.repository.ts:464-525 | the pages together show every relation exactly once, in name order, in at most one page per relation |
| Paging.PageFits | src/reports/schema-query.repository.ts:503-524 | every page that is returned is within 16,000 bytes, so the second size check after the loop never refuses a page the loop built |
| Paging.StaysAhead | src/reports/schema-policy.ts:272-339 | greedy stays ahead: over any lighter sub-list of the budgeted relations, run-time paging never needs more pages than the budget counted |
| Paging.EveryCursorWorks | src/reports/schema-query.repository.ts:464-512 | after an accepted budget a discovery call fails only for a cursor that names no visible relation; schema_page_too_large cannot occur |
| Paging.CannotFitIff | src/reports/schema-policy.ts:313-332 | the budget refuses outright if and only if some relation does not fit on a page of its own |
| Paging.GreedyIsDivision | src/reports/schema-policy.ts:298-339 | the greedy count is the length of an actual division into fitting pages |
| Paging.GreedyIsMinimal | src/reports/schema-policy.ts:298-339 | when no cursor outweighs a relation, no other division into fitting pages has fewer pages than the greedy one |
| Discovery.PackCandidates | src/reports/schema-policy.ts:298-339 | the packing loop returns the greedy page count, or the refusal, for all manifests |
| Discovery.AssertDiscoveryBudget | src/reports/schema-policy.ts:272-339 | the start-up check sorts by name, sizes every relation conservatively and returns what greedy packing gives |
| Discovery.ManifestCursorsAreLight | src/reports/schema-policy.ts:298-310 | in every manifest no cursor outweighs a relation, so greedy packing is minimal for all of them |
| Discovery.TooManyPagesIff | src/reports/schema-policy.ts:298-339 | a manifest is refused for its number of pages if and only if every relation fits alone and no division at all has three pages or fewer |
| Discovery.DiscoverPostgres | src/reports/schema-query.repository.ts:455-525 | the PostgreSQL discovery call, with its loop and its final size check, returns the page that the paging specification gives for the cursor; the page is truncated if and only if the catalog is or another relation follows, names its last relation as cursor exactly then, and lists the parts of its names before the first dot, each once, by first appearance |
| Discovery.DiscoverMerged | src/reports/mongodb-query.repository.ts:385-445 | the MongoDB discovery loop returns the page that the paging specification gives for the cursor, with the same flag, cursor and schemas |
| PageContents.DiscoverTells | src/reports/schema-query.repository.ts:496-524 | said of the page alone: it holds the relations that follow the cursor, is truncated if and only if the catalog is or another relation follows, exactly in that last case goes on at its last relation, and lists each schema once, by first appearance |
| SchemaListing.PostgresListed | src/reports/schema-query.repository.ts:475-493 | a PostgreSQL relation is listed with the types, nullability and descriptions of the catalog and the policy, column by column, and asks for a filter exactly when unfiltered queries are not allowed |
| SchemaListing.MongoListed | src/reports/mongodb-query.repository.ts:404-422 | a MongoDB relation is listed with the field types, nullability and descriptions of the policy, column by column |
| SchemaListing.PostgresPolicyListed | src/reports/schema-query.repository.ts:488-492 | the listing asks for a filter if and only if PostgreSQL refuses every query without one, and the columns and operators it approves are exactly those that meet the demand |
| SchemaListing.MongoPolicyListed | src/reports/mongodb-query.repository.ts:417-421 | the same of MongoDB |
| Discovery.MongoNoLarger | src/reports/mongodb-query.repository.ts:404-422 | a MongoDB relation is shown in no more bytes than it was budgeted |
| Discovery.ColumnWithinBudgetIff | src/reports/schema-policy.ts:283-290 | a column that is never null is shown within its budget exactly when its catalog type takes no more bytes than the manifest type, or than 80 characters if there is none |
| Discovery.PostgresNoLarger | src/reports/schema-query.repository.ts:475-493 | a PostgreSQL relation is shown in no more bytes than it was budgeted, provided every column with a manifest type has a catalog type that is no longer |
| Federation.DrainIsLossless | src/reports/federated-query.repository.ts:52-68 | draining a provider returns its remaining relations in order, and succeeds exactly when it needs at most 50 pages |
| Federation.DrainProvider | src/reports/federated-query.repository.ts:53-67 | the inner loop returns what draining specifies; the repeated-cursor guard never fires for a provider that pages in name order |
| Federation.DiscoverFederated | src/reports/federated-query.repository.ts:46-105 | the federated call drains all providers, merges by name and re-pages the merged list; the page tells the same of the merged list |
| Federation.BudgetBoundsPaging | src/reports/schema-policy.ts:272-339 | a manifest accepted with n pages (at most three): every permitted subset is paged without error in at most n pages and shown completely |
| Federation.ProvidersDrain | src/reports/federated-query.repository.ts:52-68 | under an accepted budget no provider guard fires and draining returns the concatenation of the providers |
| Federation.FederationWithinBudget | src/reports/federated-query.repository.ts:46-105 | the federation shows every allowed relation once, in name order, within the budgeted number of pages |
| PagePromise.CoversEveryCatalogIff | src/reports/schema-policy.ts:283-290 | the budget of one relation covers every catalog if and only if it covers the catalog with the widest type in every column |
| PagePromise.ListingStaysAhead | src/reports/schema-query.repository.ts:464-525 | paging a lighter sub-list never needs more pages than paging the whole list, flags and cursors included |
| PagePromise.PromiseKeptIff | src/reports/schema-policy.ts:272-339 | the page promise (every permitted subset, every catalog, both truncated flags, shown completely on at most n pages) holds if and only if the listing of all relations with the widest catalog types takes at most n pages |
| PagePromise.UntypedBudgetSuffices | src/reports/schema-policy.ts:283-339 | if the same manifest without column types is accepted with n pages, the promise of n pages holds for it with them |
| BudgetGap.AcceptedButNotShown | src/reports/schema-policy.ts:285-285 | a concrete manifest that start-up accepts with one page and whose relation discovery then cannot show at all, with types that PostgreSQL has |
| Canonical.SameTextIff | src/messages/audit.repository.ts:36-52 | two values have the same canonical text if and only if they agree up to the order of keys and undefined fields |
| Canonical.CanonicalReadsBack | src/messages/audit.repository.ts:36-52 | the canonical text, parsed again, is the value it was made for, with the keys of every object in ascending order |
| Canonical.ParsedIsCanonical | src/messages/audit.repository.ts:71-75 | a value read back from stored JSON always has a canonical text |
| Numerals.DecimalInjective | src/messages/audit.repository.ts:80-82 | sequence numbers are recovered from their decimal text |
| AuditChain.PayloadDeterminesEvent | src/messages/audit.repository.ts:54-56 | equal canonical payloads come from the same event, field by field |
| AuditChain.AnchorHashDeterminesAnchor | src/messages/audit.repository.ts:58-60 | two authentic anchors with the same hash are the same anchor: sequence, event hash and key |
| AuditChain.AnchorIsNoEvent | src/messages/audit.repository.ts:54-60 | no hash authenticates both an anchor and an event |
| AuditChain.InjectiveIsPossible | src/messages/audit.repository.ts:54-60 | the assumption about the keyed hash can be met |
| AuditChain.SameEventSamePayload | src/messages/audit.repository.ts:54-56 | an event whose details come back from jsonb with another key order has the same payload |
| AuditChain.VerifyAuditLog | scripts/verify-audit-log.ts:25-97 | verification accepts exactly the intact chains; a rejection names the first failing check |
| AuditChain.ChainUnique | scripts/verify-audit-log.ts:69-97 | two authentic chains from one anchor that end in the same hash are the same chain |
| AuditChain.AcceptedIsOriginal | scripts/verify-audit-log.ts:69-97 | with an injective keyed hash, accepted rows are exactly the original rows after the anchor, in order |
| AuditRuns.StepKeepsInv | src/messages/audit.repository.ts:76-142 | every step of concurrent appends, rollbacks, purges, key changes and anchor rotations keeps the chain, because the state row is locked before the sequence number is drawn |
| AuditRuns.RunsVerify | scripts/verify-audit-log.ts:25-97 | after every run the committed tables verify, gaps and purged prefixes included |
| AuditRuns.TamperingIsDetected | scripts/verify-audit-log.ts:25-97 | whatever the events table is replaced with after a run, it is accepted only if it holds exactly the appended rows that were not purged |
| AuditRuns.MovedAnchorIsDetected | scripts/verify-audit-log.ts:33-97 | after a run, a stored anchor that still carries the hash of the run is accepted only if it is the anchor of the run, unchanged |
| AuditRuns.AppendCommits | src/messages/audit.repository.ts:76-142 | an append can always be carried through: it adds one row that holds the event, field by field, under the next sequence number, linked to the last hash and sealed with the active key |
| AuditRuns.PurgeAnchors | migrations/005_security_operations.sql:193-216 | a purge removes the oldest rows and anchors the chain at the last of them, as it was sealed |
| AuditRuns.RotationReseals | scripts/encrypt-existing-data.ts:320-358 | rotation puts a genuine anchor under the active key and changes nothing that it says |
| AuditRuns.CleanedIs | scripts/encrypt-existing-data.ts:240-245 | only the field senderReference is removed, and only from unsigned authorization events |
| AuditRuns.ProtectAuditChain | scripts/encrypt-existing-data.ts:229-318 | does nothing exactly when every row is signed, refuses exactly when there are unsigned rows and anchors, and otherwise seals every row once under the active key, the sender reference removed from unsigned authorization events, and leaves an intact chain |
| MessageRows.ReportsTakeTheHighest | src/messages/message.repository.ts:366-384 | a sequence of sent, delivered and read reports, with duplicates, leaves the highest status reported |
| MessageRows.ReportOrderIsIrrelevant | src/messages/message.repository.ts:366-384 | the same reports in any order and multiplicity end in the same status |
| MessageRows.ReportsMoveOn | src/messages/message.repository.ts:366-384 | a report moves a row on, never back; a failure report takes any row but one that arrived; a failed row takes no other report |
| MessageRows.MessageRepository.constructor | src/messages/message.repository.ts:95-99 | an empty table |
| MessageRows.MessageRepository.SaveInbound | src/messages/message.repository.ts:117-158 | a repeated webhook changes nothing; a new message is stored as received |
| MessageRows.MessageRepository.ClaimInbound | src/messages/message.repository.ts:160-169 | claims exactly a received or failed row with fewer than three attempts and counts the attempt |
| MessageRows.MessageRepository.ClaimNextInbound | src/messages/message.repository.ts:171-209 | claims the oldest row that has a user, is not locked elsewhere, has fewer than three attempts and is received, failed, or processing without a change for more than two minutes; none exactly when there is none; the claimed row is not claimed again before two minutes have passed |
| MessageRows.MessageRepository.SetInboundStatus | src/messages/message.repository.ts:211-213 | sets the status unconditionally |
| MessageRows.MessageRepository.MarkInboundUndeliverable | src/messages/message.repository.ts:255-262 | afterwards neither claim accepts the row again |
| MessageRows.MessageRepository.ReserveOutbound | src/messages/message.repository.ts:293-336 | permission to send is given exactly for a new reply row or a failed one with fewer than three attempts |
| MessageRows.MessageRepository.MarkOutboundSent | src/messages/message.repository.ts:338-349 | succeeds exactly on a row that is still sending, and stores the id |
| MessageRows.MessageRepository.MarkOutboundFailed | src/messages/message.repository.ts:351-356 | changes only a row that is sending |
| MessageRows.MessageRepository.MarkOutboundDeliveryUnknown | src/messages/message.repository.ts:358-364 | changes only a row that is sending or failed |
| MessageRows.MessageRepository.UpdateOutboundStatus | src/messages/message.repository.ts:366-384 | advances only the row that stores the id, only if the update is ahead of its status |
| OutboxSafety.StepKeepsInv | src/messages/message-processor.ts:592-644 | every step of every worker, every crash and every report that is not harmful keeps: one sender per reply, sending the current attempt, all earlier ones rejected, and, while another attempt can be granted, a failed row only after a definite failure |
| OutboxSafety.RunsAreSafe | src/messages/message-processor.ts:592-644 | in every interleaving without harmful reports at most one worker may send the reply to a message, and each later permission follows a definite failure of the one before |
| OutboxSafety.TimelyIsHarmless | src/messages/message.repository.ts:366-384 | runs whose failure reports come before the next retry is granted have no harmful report |
| OutboxSafety.LateReportHarmsIff | src/messages/message.repository.ts:366-384 | a failure report of an earlier attempt lets some continuation violate safety if and only if it is harmful: the current attempt has not failed definitely, and another one can still be granted (a worker on its way to the reservation, or an inbound row that can still be claimed) |
| Outbox.RunsAreCounted | src/messages/message.repository.ts:160-209 | in every interleaving, successful claims and send permissions never exceed three and agree with the stored counters |
| Outbox.CounterCountsClaims | src/messages/message.repository.ts:160-169 | the stored attempt counter rises by exactly one with a claim and otherwise only when the message is given up |
| Outbox.RunsKeepFinalStates | src/messages/message.repository.ts:338-384 | a delivery_unknown reply without an id never changes again; delivered can only become read, read never changes |
| OutboxSafety.LateFailureOpensGate | src/messages/message.repository.ts:366-384 | in every state where a retry is being sent and the row still stores the id of an earlier attempt, a failure report of that attempt lets a second worker send at the same time |
| OutboxSafety.LateFailureHappens | src/messages/message.repository.ts:366-384 | such a state is reachable: a run of the real steps, with one failed status update, that ends with two senders |
| OutboxProgress.FailureIsRetriedIff | src/messages/message-processor.ts:592-644 | after a definite, not permanent failure the workers alone can come to send the next attempt if and only if the worker can still mark it, fewer than three attempts were made, and a worker is on its way or the message can still be claimed |
| OutboxProgress.SentIsSettled | src/messages/message-processor.ts:625-643 | after an accepted send the one worker can store it and finish; the inbound row is then processed, the reply sent under its id |
| OutboxProgress.SettledForGood | src/messages/message-processor.ts:592-644 | a settled message is never claimed again in any run: its row does not change, no attempt is granted, nobody works on it |
| OutboxProgress.PermanentFailureIsSettled | src/messages/message-processor.ts:661-690 | a permanent rejection leaves the reply failed and the message settled |
| OutboxProgress.UnknownIsSettled | src/messages/message-processor.ts:625-643 | an uncertain send leaves the reply delivery_unknown and the message processed |
| OutboxProgress.FoundIsSettled | src/messages/message-processor.ts:613-623 | a worker that finds the reply begun and not retryable settles the message without sending |
| OutboxProgress.IgnoredIsSettled | src/messages/message-processor.ts:446-455 | an ignored message is settled |
| OutboxProgress.ErrorLeavesRetry | src/messages/message-processor.ts:522-532 | any other error leaves the message failed with its attempts as they were, to be claimed again below three |
| OutboxProgress.AuditErrorLeavesRetry | src/messages/message-processor.ts:498-532 | so does an audit event that cannot be written after an unknown result |
| WorkerPool.StepKeepsInv | src/messages/message-processor.ts:408-436 | active tasks stay within the concurrency, pending plus active within the buffer, pending work implies a scheduled pump or a full pool |
| WorkerPool.RunKeepsInv | src/messages/message-processor.ts:408-436 | over every run the jobs handed to workers are the accepted ones in order, none dropped, none twice, and the rest are pending in order |
| WorkerPool.NothingIsStranded | src/messages/message-processor.ts:415-436 | every callback makes progress, and when none is left no accepted job is waiting |
| WorkerPool.DrainIsBounded | src/messages/message-processor.ts:415-436 | without new jobs the pool drains in a bounded number of callbacks |
| WorkerPool.MessageProcessor.constructor | src/messages/message-processor.ts:138-141 | the buffer is the larger of 1,000 and 250 jobs per worker |
| WorkerPool.MessageProcessor.QueueWork | src/messages/message-processor.ts:408-413 | a job is refused exactly when the buffer is full |
| WorkerPool.MessageProcessor.Pump | src/messages/message-processor.ts:424-436 | the loop hands as many pending jobs to workers as are free, oldest first |
| WorkerPool.MessageProcessor.FirePump | src/messages/message-processor.ts:418-421 | the scheduled callback clears the flag and pumps |
| WorkerPool.MessageProcessor.TaskSettled | src/messages/message-processor.ts:430-434 | a settled task frees its worker and pumps |
| Semaphore.RunsAreSafe | src/reports/schema-query.repository.ts:224-270 | over all interleavings of arrivals, completions and timeouts: the counter equals running plus handed-over slots, stays within capacity, waiters exist only when it is full, hand-over is first come first served, quiescence means zero |
| Semaphore.PhasesOnlyAdvance | src/reports/mongodb-query.repository.ts:23-69 | a waiter is resolved or rejected once, never both |
| Semaphore.QuerySemaphore.Arrive | src/reports/schema-query.repository.ts:237-257 | a call is refused exactly when all slots and all queue places are taken, and waits exactly when all slots are |
| Semaphore.QuerySemaphore.TimedOut | src/reports/schema-query.repository.ts:247-251 | the waiter is spliced out, the others keep their order |
| Semaphore.QuerySemaphore.Completed | src/reports/schema-query.repository.ts:260-267 | the slot goes to the first waiter, or is given back when there is none |
| RateLimits.FixedWindowBound | src/security/rate-limiter.ts:21-39 | in any k consecutive minutes the fixed window grants at most (k+1) times the capacity |
| RateLimits.FixedWindowPasses | src/security/rate-limiter.ts:21-39 | a request passes if the last minute, this request included, has seen no more requests than capacity, whatever was cleaned up |
| RateLimits.CleaningIsUnobservable | src/security/rate-limiter.ts:24-35 | deleting expired buckets at any moments changes no decision |
| RateLimits.TokenBucketBound | src/security/rate-limiter.ts:68-91 | in every run over any keys, with eviction, a key passes at most capacity for each time it starts anew plus what is refilled between the first request and the last; a key still tracked at its later requests starts once |
| RateLimits.TrackedKeyBound | src/security/rate-limiter.ts:68-91 | a new key that is tracked from its first request on passes at most capacity plus what is refilled |
| RateLimits.TokenBucketPasses | src/security/rate-limiter.ts:68-80 | in every run over any keys a request passes if from each earlier request of its key on, this one included, the key has asked no more often than capacity plus what is refilled since |
| RateLimits.TokenBucketRateLimiter.Consume | src/security/rate-limiter.ts:68-80 | the decision, and the map afterwards: the new bucket of the key last, the least recently used key giving way when there is one too many |
| RateLimits.TokenBucketRateLimiter.Prune | src/security/rate-limiter.ts:82-91 | keeps exactly the most recently used keys, at most maxTrackedKeys of them |
| SplitText.SplitWhatsAppText | src/whatsapp/client.ts:148-167 | terminates for every limit of at least one; every chunk is non-empty and within the limit; the trimmed text is the chunks separated by white space only |
| SplitText.CutsAtLastCoarsestBreak | src/whatsapp/client.ts:155-159 | a paragraph break in the second half of the window is never passed over for a line break, nor that for a space, and the cut is at the last break of its kind |
| SplitText.LastIndexIsLast | src/whatsapp/client.ts:156-158 | lastIndexOf finds an occurrence at or after every given one |
| SplitText.ChunkCount | src/whatsapp/client.ts:154-165 | a text of at most limit + n*(limit/2) units gives at most n + 1 chunks |
| SplitText.GuardChunks | src/whatsapp/client.ts:171-175 | text_empty exactly for blank text; text_too_long never for up to 4,096 + 7*2,048 units |
| Escaping.EscapedPrefix | src/reports/schema-query.repository.ts:651-655 | the LIKE pattern escape(v)% matches exactly the texts that begin with v, and is never ill-formed |
| Escaping.EscapedSubstring | src/reports/schema-query.repository.ts:646-650 | the LIKE pattern %escape(v)% matches exactly the texts that contain v |
| Escaping.StartsWithPattern | src/reports/schema-query.repository.ts:276-278 | the same under ILIKE, for every case folding that keeps the wildcards |
| Escaping.ContainsPattern | src/reports/schema-query.repository.ts:276-278 | the same under ILIKE, for every case folding that keeps the wildcards |
| Escaping.EscapedIsLiteral | src/reports/mongodb-query.repository.ts:145-147 | an escaped value parses, as a regular expression, to exactly its own characters |
| Escaping.ContainsRegex | src/reports/mongodb-query.repository.ts:278-282 | the search finds exactly the texts that contain the value, ignoring case |
| Escaping.StartsWithRegex | src/reports/mongodb-query.repository.ts:283-287 | the anchored search finds exactly the texts that begin with the value, ignoring case |
| Escaping.DialectsAgree | src/reports/mongodb-query.repository.ts:278-287 | the ILIKE pattern and the regular expression for one value accept the same texts |
| Queries.BoundedRows | src/reports/mongodb-query.repository.ts:293-313 | the rows sent are the longest part of the answer within the row limit and 16,000 bytes, and truncated says whether anything was left out |
| Queries.SortEach | src/reports/mongodb-query.repository.ts:500-509 | sorting commutes with a change of representation that the comparison does not see |
| Queries.GroupsAgree | src/reports/mongodb-query.repository.ts:482-494 | the groups depend only on which rows share a key |
| Sorting.SortSorts | src/reports/mongodb-query.repository.ts:500-509 | the sort that the meaning of a query uses keeps all rows, orders them under every total preorder and leaves ties in their order |
| Sorting.AnswerRanks | src/reports/mongodb-query.repository.ts:460-533 | the rows of an answer are the first limit + 1 of all units, none lost or repeated, ordered by one target after the other, each in its direction |
| Sorting.GroupsPartition | src/reports/mongodb-query.repository.ts:482-494 | a group holds all rows of one key in their order, different groups have different keys, and every row is in one |
| SortSpecs.FromEntriesValue | src/reports/mongodb-query.repository.ts:504-509 | Object.fromEntries keeps every key once, with its last value |
| SortSpecs.FromEntriesRenamed | src/reports/mongodb-query.repository.ts:504-509 | building an object from keys renamed one to one gives the object with its keys renamed |
| SortSpecs.CollapseSortsAlike | src/reports/mongodb-query.repository.ts:504-509 | the sort object orders rows as the list does when no target ends with another direction than it began with |
| SortSpecs.CollapseAgreesIff | src/reports/mongodb-query.repository.ts:465-467 | and only then: otherwise two rows are ordered differently |
| MongoQuery.ValidateAccepts | src/reports/mongodb-query.repository.ts:149-225 | validation raises no complaint if and only if every name resolves, every aggregate fits its field and a required selective filter is there |
| MongoQuery.ComplaintIsSo | src/reports/mongodb-query.repository.ts:149-225 | the complaint of a refused query is justified |
| MongoQuery.ClauseMeansFilter | src/reports/mongodb-query.repository.ts:229-289 | the clause for a filter holds of exactly the documents that meet the filter, for all eleven operators |
| MongoQuery.CompileFilter | src/reports/mongodb-query.repository.ts:227-291 | refused exactly for a filter with wrong operands or an unreadable value; otherwise the match document selects exactly the documents that meet all filters |
| MongoQuery.OperandStandsFor | src/reports/mongodb-query.repository.ts:107-143 | a filter text stands for the boolean it spells, for its visible characters cut to 500, or for the number or date that is read from it |
| MongoQuery.GroupIdIsKey | src/reports/mongodb-query.repository.ts:482-484 | documents share the positional group key exactly when they agree on the grouping fields |
| MongoQuery.ColumnByName | src/reports/mongodb-query.repository.ts:482-499 | after grouping and projection c_i holds the value of the i-th selected column |
| MongoQuery.AggregateByName | src/reports/mongodb-query.repository.ts:485-499 | after grouping and projection a_i holds the i-th aggregate |
| MongoQuery.SortDocumentMeansOrder | src/reports/mongodb-query.repository.ts:500-509 | sorting documents by positional names orders them as the query orders its groups |
| MongoQuery.PipelineMeansQuery | src/reports/mongodb-query.repository.ts:482-533 | the whole pipeline, read back by position, equals the meaning of the query (filter, group, aggregate, select, order, take) for all accepted aggregate queries with settled order targets |
| MongoQuery.FindMeansQuery | src/reports/mongodb-query.repository.ts:460-480 | the find branch equals the meaning of the query under the same condition |
| MongoQuery.AnswersCollapsed | src/reports/mongodb-query.repository.ts:460-533 | both branches answer every accepted query as if each order target stood once, where it first stands, with its last direction |
| MongoQuery.RunQuery | src/reports/mongodb-query.repository.ts:446-534 | a request is answered exactly when every check passes; the rows are then the longest part, within the limits, of the answer with every order target once, first position and last direction, which is the answer as asked when the targets are settled; in each row the i-th name, columns before aliases, stands over the i-th cell, null, boolean and sanitised text shown as such |
| MongoQuery.SortFollowsOrderIff | src/reports/mongodb-query.repository.ts:504-509 | for all pairs of documents the sort object follows order_by if and only if no target is repeated with another final direction |
| MongoQuery.RepeatedTargetSortsBackwards | src/reports/mongodb-query.repository.ts:460-473 | order_by [n asc, n desc] is accepted and returns the rows in descending order |
| MongoQuery.MissingKeyShownIff | src/reports/mongodb-query.repository.ts:78-105 | the rows sent for an aggregate query show a missing key as null if and only if no selected key is missing in the documents behind them |
| MongoQuery.MissingKeyShown | src/reports/mongodb-query.repository.ts:482-533 | an accepted grouped query over a document without the key is answered with the text "undefined" |
| SqlQuery.ValidateAccepts | src/reports/schema-query.repository.ts:556-600 | validation raises no complaint if and only if every name resolves and every operand and aggregate fits its column |
| SqlQuery.ComplaintIsSo | src/reports/schema-query.repository.ts:556-600 | the complaint of a refused query is justified: the name does not resolve, the operand or the aggregate does not fit, and so on |
| SqlQuery.CompileFilters | src/reports/schema-query.repository.ts:619-668 | every condition is bound to the values of its own filter, and the placeholders from left to right are $1 up to the number of values, in lists too |
| SqlQuery.CompileFilter | src/reports/schema-query.repository.ts:625-667 | one round of that loop: the condition and the values it pushes |
| SqlQuery.BindsMeans | src/reports/schema-query.repository.ts:625-667 | a condition is true of a row exactly when the row meets the filter; unknown never keeps a row |
| SqlQuery.WhereMeans | src/reports/schema-query.repository.ts:686-690 | the conjunction is true of exactly the rows that meet every filter, in three-valued logic |
| SqlQuery.CompileSelections | src/reports/schema-query.repository.ts:602-617 | the select list and the expression of every alias; every catalog lookup is of a known column |
| SqlQuery.CompileOrder | src/reports/schema-query.repository.ts:675-685 | an alias orders by its aggregate expression, any other target by its column, and no lookup is undefined |
| SqlQuery.CompileStatement | src/reports/schema-query.repository.ts:602-690 | the statement for an accepted query has the shape that the next row gives a meaning to |
| SqlQuery.StatementMeansQuery | src/reports/schema-query.repository.ts:602-690 | executing the statement with its values equals the meaning of the query, text and exact numbers cut to 500 characters; an aggregate without GROUP BY gives one row even for no rows |
| SqlQuery.RunQuery | src/reports/schema-query.repository.ts:527-720 | refused by the first check that fails, otherwise the longest part of the answer within the limits; in each row the i-th name, columns before aliases, stands over the i-th cell, null, boolean and sanitised text shown as such |
| ShownRows.SanitizeIs | src/reports/schema-query.repository.ts:286-291 | a shown text is the subsequence of its visible characters, cut behind the 500th |
| ShownRows.ShowCellShows | src/reports/schema-query.repository.ts:293-306 | null and boolean cells are shown as such, texts sanitised, a missing value as the text undefined |
| ShownRows.RemovedIff | src/reports/schema-query.repository.ts:286-291 | removed are the control characters other than tab, line feed and carriage return, delete, and the direction marks |
| Dialects.FiltersAgreeIff | src/reports/mongodb-query.repository.ts:229-289 | a filter keeps the same rows in both backends for every table if and only if it is portable: never ne, and on a text field only with texts that sanitising does not change |
| Dialects.ControlCharacterDiffers | src/reports/mongodb-query.repository.ts:140-141 | contains with a control character in its value: accepted by both, met by the text without it in MongoDB only |
| Dialects.CountsAgreeIff | src/reports/mongodb-query.repository.ts:485-494 | count of a column agrees in both backends exactly when no row lacks a value |
| DialectAnswers.AnswerSizesAgreeIff | src/reports/schema-query.repository.ts:670-690 | the two answers have the same number of rows if and only if it is not an aggregation without grouping over an empty selection, which gives one row in PostgreSQL and none in MongoDB |
| DialectAnswers.EmptyTable | src/reports/schema-query.repository.ts:670-690 | that difference on the empty table, whatever the filters are |
| DialectAnswers.AggregateAgreesIff | src/reports/mongodb-query.repository.ts:485-494 | one aggregate of one group agrees in both backends if and only if no counted column lacks a value and no sum is over nothing |
| DialectAnswers.AnswersAgree | src/reports/mongodb-query.repository.ts:460-533 | the whole answers are the same if the filters are portable, it is not an aggregation of nothing, every aggregate of every group agrees, and no order target has a value in some groups only |
| DialectAnswers.AnswersAgreeIff | src/reports/mongodb-query.repository.ts:460-533 | for queries with at most one order target, a selected column: the whole answers are the same if and only if it is not an aggregation of nothing, the order target does not have a value in some groups only, and the aggregates of the groups shown agree |
| SchemaPointers.PointerReadsBack | src/llm/anthropic-messages.gateway.ts:180-188 | the reference written for a path (RFC 6901 sections 3, 4 and 6) is read back to that path, whatever the names contain |
| SchemaPointers.LocateRefs | src/llm/gemini-chat-completions.gateway.ts:99-121 | the target of a reference holds no reference that the root does not; the termination of inlining rests on it |
| SchemaPointers.RankedIsAcyclic | src/llm/gemini-chat-completions.gateway.ts:135-143 | references whose targets only hold lower-ranked references have no cycle |
| GeminiSchema.NormalizeClean | src/llm/gemini-chat-completions.gateway.ts:123-186 | the normalised schema has none of the dropped keywords anywhere, and no reference when every $ref is a string |
| GeminiSchema.NormalizedIff | src/llm/gemini-chat-completions.gateway.ts:123-186 | a schema is normalised if and only if every reference on every way through it resolves and no way comes back to a reference it has passed; a refusal names the fault at the end of a way |
| GeminiSchema.AcyclicIsNormalised | src/llm/gemini-chat-completions.gateway.ts:123-186 | a cyclic refusal means a cycle among the references of the schema; without one every schema whose references resolve is normalised |
| GeminiSchema.NamesKept | src/llm/gemini-chat-completions.gateway.ts:169-185 | the field loop leaves exactly the names that are not dropped keywords, in their order |
| GeminiProperties.PropertiesSurviveIff | src/llm/gemini-chat-completions.gateway.ts:123-186 | of every accepted object all declared properties are sent if and only if none is named like a dropped keyword, whatever is declared beside a folded union is declared in its branch, and of a reference's target and siblings the one whose property map is sent declares what the other does; nothing is sent that was not declared |
| GeminiProperties.KeywordNameIsLost | src/llm/gemini-chat-completions.gateway.ts:169-185 | the property pattern is not sent |
| GeminiProperties.PropertyBesideUnionIsLost | src/llm/gemini-chat-completions.gateway.ts:154-166 | a property declared beside a union with null is not sent: only the branch is left |
| GeminiProperties.PropertyOfTargetIsLost | src/llm/gemini-chat-completions.gateway.ts:133-152 | a property of a reference's target is not sent when properties stand beside the reference |
| GeminiValues.PlainValues | src/llm/gemini-chat-completions.gateway.ts:169-185 | an object without reference and nullable union keeps exactly the keywords that are not one of the seven dropped ones, each over its own value, normalised |
| GeminiValues.FoldedValues | src/llm/gemini-chat-completions.gateway.ts:154-166 | a folded union is its branch, normalised and marked nullable; a description of its own wins over that of the branch |
| GeminiValues.ReferenceValues | src/llm/gemini-chat-completions.gateway.ts:133-152 | a reference is its normalised target, and each key beside it overrides the key of the target |
| GeminiValues.NonNullIff | src/llm/gemini-chat-completions.gateway.ts:154-160 | a union is folded exactly when it has two branches, one of type null and one object that is not |
| GeminiValues.ResolvesIff | src/llm/gemini-chat-completions.gateway.ts:99-121 | a reference resolves exactly when it is local and leads to something, and the error says which of the two it is not |
| GeminiValues.ItemsValue | src/llm/gemini-chat-completions.gateway.ts:128-130 | a list keeps its length and order |
| AnthropicSchema.IndexReadsBack | src/llm/anthropic-messages.gateway.ts:196-200 | every array position can be named by its decimal numeral |
| AnthropicSchema.VisitWithinBudget | src/llm/anthropic-messages.gateway.ts:213-221 | the result of a visit is no larger than the visits it took and no deeper than they went |
| AnthropicSchema.DepthOfFields | src/llm/anthropic-messages.gateway.ts:213-221 | the depth of an object is that of its deepest field and one |
| AnthropicSchema.SentSchemaIsSmall | src/llm/anthropic-messages.gateway.ts:213-262 | however references fan out, a schema that is sent has at most 10,000 nodes in 65 levels |
| AnthropicSchema.AnyMeans | src/llm/anthropic-messages.gateway.ts:213-262 | anyOf accepts what one of its schemas accepts (draft-07 validation section 6.7.2) |
| AnthropicSchema.PropertiesMean | src/llm/anthropic-messages.gateway.ts:213-262 | properties accepts an object each of whose declared properties is accepted by its schema (draft-07 validation section 6.5.4) |
| AnthropicSchema.ExtraMeans | src/llm/anthropic-messages.gateway.ts:213-262 | additionalProperties looks at exactly the properties that are not declared (draft-07 validation section 6.5.6) |
| AnthropicSent.SentIff | src/llm/anthropic-messages.gateway.ts:213-262 | a schema is sent if and only if it is an object and no reference itself, everything that can be reached from it (references followed, bounds left out) lies within 64 steps and is without fault, and that is at most 10,000 places; a fault is a forbidden key, or a reference with keys beside it, back to a target on its own way, or to nothing |
| AnthropicSent.ErrorNamesFault | src/llm/anthropic-messages.gateway.ts:213-256 | any error but the exhausted budget names a fault that some way through the schema leads to |
| AnthropicSent.BudgetIsExhausted | src/llm/anthropic-messages.gateway.ts:216-220 | the budget is exhausted only if some way leads more than 64 steps deep or there are more than 10,000 places |
| AnthropicSent.ResolvesIff | src/llm/anthropic-messages.gateway.ts:180-211 | a reference resolves exactly when its pointer is local, leads to something and passes through no forbidden name |
| AnthropicSchema.VisitWeakens | src/llm/anthropic-messages.gateway.ts:215-256 | visiting a supported schema at any depth accepts every instance the original accepts, and no other one when no bound occurs |
| AnthropicSchema.InliningWeakens | src/llm/anthropic-messages.gateway.ts:213-262 | the schema that is sent accepts every instance the tool accepts; equality when no dropped bound occurs (draft-07 core section 8.3 for $ref) |
| AnthropicSchema.BoundIsLost | src/llm/anthropic-messages.gateway.ts:244-252 | a schema that is one bound is sent as a schema that accepts everything, so the inclusion is strict as soon as a bound occurs |
| AnthropicSchema.PropertyNamedLikeBound | src/llm/anthropic-messages.gateway.ts:244-252 | a property named like a bound is removed with the bounds: under additionalProperties false the schema that is sent refuses an object that the tool accepts |
| ToolLoop.AnswerCall | src/llm/company-assistant.ts:1060-1107 | one call: an error says which check failed; otherwise its reply is appended under its id, that of the server for an executed call (exactly the listed company tools within three discoveries and one query), the refusal for any other |
| ToolLoop.AnswerTurn | src/llm/company-assistant.ts:1059-1108 | all calls of a turn are answered in order under their ids, unless one throws, and then why |
| ToolLoop.FinalText | src/llm/company-assistant.ts:179-186 | refused exactly when nothing but white space is visible; otherwise the visible text without surrounding white space, cut behind 3,480 characters when longer than 3,500 |
| ToolLoop.Handle | src/llm/company-assistant.ts:977-1109 | for every model and server: at most one turn more than there may be calls; each turn is asked for with the whole conversation so far, the n-th answer carrying the id of the n-th call and the text of its reply; only listed tools executed, discovery at most three times and the query once, in runs that throw as well; a tool demanded exactly while a company question has brought nothing but successful discovery; an error names its cause |
| ToolLoop.ProseIff | src/llm/company-assistant.ts:998-1056 | said of the replies: the model's own words are returned exactly when every reply was a success and one of them brought data, or nothing was called on a turn that is not about company data, and they are not blank and, if there was data, grounded in the evidence of the data calls; blank words are an error exactly then; the schema list exactly when it was asked for and every call was a successful discovery |
| ToolLoop.OutcomeIff | src/llm/company-assistant.ts:998-1056 | denied exactly when some reply carried permission_denied, a failure when a call broke and none was denied, a success exactly for the schema list and for words that rest on data or general chat |
| ToolLoop.RecentIs | src/llm/company-assistant.ts:953-975 | the model is told the six latest messages of the user and nothing that was said to the user |
| ToolLoop.OpeningIs | src/llm/company-assistant.ts:953-975 | the conversation begins with that context, if there is any, and the request comes last |

## Left out

- Characters are Unicode scalar values; lone surrogates are not part of the model.  In SplitText and
  wherever a text is cut to a length, one character stands for one UTF-16 unit.
- Json.RenderReadsBack: the reader takes texts without white space and without escaped surrogate pairs,
  which are the ones that JSON.stringify writes for these values.
- Sorting.AnswerRanks: assumes that comparing values is a total preorder, as a sort needs it.
- Encryption, HMAC and SHA internals: a keyed hash is an injective function of key, purpose and
  payload.  Name patterns and the size limit on audit details are not part of this model.
- Verification reads anchor, events and state in separate statements; the model reads one snapshot.
- The retention function in the database is modelled as deleting a prefix of the events and keeping
  its anchor, and as deleting expired buckets.  Deletion of message rows is not part of this model.
- Sending is modelled per call of sendText, not per chunk.  The delivery path without outbox methods
  (src/messages/message-processor.ts:601-611) and repeated deliveries of one webhook to replicas with
  different active keys are not part of this model.
- OutboxSafety.RunsAreSafe: assumes that no report is harmful, because the promise is false otherwise;
  OutboxSafety.LateReportHarmsIff says that the assumption cannot be weakened.
- Discovery.PostgresNoLarger: assumes that catalog types are no longer than budgeted ones, because the
  promise is false otherwise; PagePromise.PromiseKeptIff says exactly when it holds for a manifest.
- Federation.BudgetBoundsPaging: assumes relation names of at least three characters, as the manifest
  parser enforces, and catalog type names of at most 82 bytes as JSON text, quotation marks included.
- DialectAnswers.AnswersAgreeIff: assumes portable filters, engines that sort values alike, nulls last in
  ascending order in PostgreSQL and first in MongoDB, and aggregates that agree on values; with more
  order targets, or an aggregate as target, DialectAnswers.AnswersAgree states the condition one way,
  because two differing aggregates can change places and show the same rows.
- GeminiProperties.PropertiesSurviveIff: assumes that a property map takes names to objects or booleans,
  as JSON Schema requires (draft-07 validation section 6.5.4), and that the keys of an object are
  distinct.
- Dialects.FiltersAgreeIff: assumes that the engines compare equal operands alike and order texts
  totally; collations that differ between the databases are not part of this model.
- SQL statements are syntax trees: identifier quoting and the printing of the text are not part of this
  model.
- Loading and caching the PostgreSQL catalog, readiness probes, permissions, transport settings and
  timeouts of the databases.
- MongoDB documents are maps from field paths to values: arrays and partly missing objects along a
  dotted path are not part of this model.  Groups keep the order of first appearance and sorts are
  stable; the engines promise neither.
- Numbers and dates in filter values are read by a parameter; SQL casts, comparisons, collation and
  aggregate arithmetic likewise.
- MongoQuery.RunQuery: row field names are not sanitised again, because valid names are unchanged by it.
- GeminiSchema: reading an array index with Number() is a parameter; a property named `__proto__` is
  not part of this model.
- AnthropicSchema.InliningWeakens: covers schemas built from properties, additionalProperties, items,
  anyOf, allOf and single-keyword assertions with plain values; negation, conditionals and properties
  named like a bound are excluded, since dropping a bound does not weaken those
  (AnthropicSchema.PropertyNamedLikeBound shows one).  A schema that refers
  to itself is refused by the code and has no meaning in the model.
- ToolLoop.Handle: request classification, number grounding, redaction, wording and the session's
  opening and closing are parameters or absent; collecting discovered relations is not part of this
  model.
- The rate limit upsert reads the clock once per request.
- HTTP routes, admin pages, configuration parsing, migrations, provisioning, logging and notifiers.
