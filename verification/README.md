# Verification models of the notification platform

This project models the parts of the notification platform whose correctness spans several functions or whole runs, and
proves properties of those models with Dafny's verifier: `dafny verify dfyconfig.toml`.

One module per component:

| module | component |
|---|---|
| `DeliveryProtocol`, `DeliveryRuns` | one notification's row, the worker that sends it, and everything else that writes the row, as a step system: every database write, Kafka send and channel send is a step, and crashes, redeliveries, admin retries, provider webhooks and clean-up come between any two of them |
| `RetryRouting` | where a failed message goes: the retry topic, the dead letter queue (DLQ), or nowhere |
| `CircuitBreakers` | the circuit breaker, with calls split into start and completion so that they may overlap, and the per-service registry |
| `NotificationCreate` | idempotent creation over Redis, the notifications table and Kafka, with failing or dying creates, time, row removal and anonymisation in between |
| `RateLimiter` | the two token-bucket guards, as one algorithm with two sets of constants |
| `TextChunker` | chunking by sentences with a sentence overlap and by fixed size with a character overlap |
| `CsvExport` | the CSV printer of the three exports, and a parser following section 2, rules 5 to 7, of RFC 4180 as its inverse |
| `SearchResults`, `ContextAssembly` | relevance filter, greedy deduplication, ranking by maximal marginal relevance (MMR), packing into a token budget |
| `RetrievalMerge`, `QueryOrder` | score normalisation and the merge of several queries' results; when the order of the queries matters |
| `Archival` | the archival loops, with any number of archivers interleaved |
| `ConversationMemory` | adding turns to a conversation and pruning old ones |
| `EmbeddingBatch` | batched embedding with a hashed cache, against embedding texts one by one |

Code that changes state step by step is modelled by methods and classes, each proved against a specification function;
the properties of whole runs are lemmas about those functions. Times are integer milliseconds; scores, similarities and
percentages are exact reals. What the database, Redis, Kafka, the channels, the embedding model and the clock answer is
a parameter of the step that asks.

## Where the code falls short of what is said about it

Each point names the member that states it; where a promise fails, the exact condition under which it holds is proved.

- "No send once `sentAt` is set" holds of a state exactly when no attempt is between its idempotency check and its send
  (`NoSendOnceSetIff`); a provider webhook can set `sentAt` in that gap (`SendAfterSentAt`).
- Over whole runs, a send happens with `sentAt` set exactly when a "sent" webhook arrived while that attempt was between
  its check and its send (`SendsWhenSetIff`).
- A repeated create within 24 hours is answered with a row that is in neither topic exactly when the first create stopped
  between storing the key and publishing, or both its Kafka sends failed (`RepeatReturnsFirst`, `RepeatOfUnpublished`).
  A row whose key was never stored blocks its own repeats (`UnstoredKeyBlocksRepeats`).
- Within 24 hours of a row a second one with its key can follow exactly when the first key was not stored and the user
  has been anonymised since (`SecondWithinDayIff`; `SpacingNeedsStoredKey` is such a run). What lets a create through in
  general is `CreatesIff`.
- The sentence overlap is the promised share exactly for percentages in (0, 100]; at 0 the whole previous chunk is kept
  (`KeepsPromisedOverlapIff`).
- The check that fixed-size chunking comments as preventing an infinite loop does so exactly when chunks are larger than
  their overlap or the text fits into one chunk (`FixedSizeTerminatesIff`).
- A CSV export can be read back exactly when no unescaped column contains a comma, a quote or a line feed (`RoundTripIff`).
- Cached embeddings are right exactly when no two texts with different embeddings share a 32-bit hash (`RightIffHarmless`);
  "Aa" and "BB" share one (`HashCollides`).
- The 'avg' merge is the same for every order of the queries exactly when the id occurs at most twice or always with the
  same normalised score (`AverageQueryOrderIff`, and `AverageOrderFreeIff` for a list of scores); `AverageDependsOnOrder`
  gives three queries whose order decides between 0.5 and 0.25.
- The breaker treats a failure recorded at time 0 as no failure (`RecoveryTakesTwoSuccesses`).
- The 16 s backoff of the comments in `retry.service.ts` is never queued (`QueuedWaitsAtMostEightSeconds`), and five
  attempts are made where `docs/SYSTEM_DESIGN.md` and `docs/DEMO_SCRIPT.md` speak of three retries (`FullChain`).
- Archival takes DELIVERED notifications too, where the comment in `archival.service.ts` names only SENT and FAILED
  (`ArchiveOldNotifications`).
- The comment on MMR in `context-assembly.service.ts` weighs relevance by λ; the code weighs it by 1 - λ, and the model
  follows the code (`RankWithDiversity`).

## Model

| member | source | states |
|---|---|---|
| DeliveryProtocol.SendsBounded | src/notification/notification-worker.service.ts:155-233 | In every run, successful channel sends are at most one more than the sends that a crash or a failed SENT update kept from being recorded, and at most one send is ever recorded |
| DeliveryProtocol.SendsBoundIsReached | src/notification/notification-worker.service.ts:155-191 | That bound is tight: for every n a run with n crashes between send and record sends n + 1 times |
| DeliveryProtocol.SendInvariantHolds | src/notification/notification-worker.service.ts:155-233 | What every step keeps: each send is recorded, unrecorded or in flight, and after a recorded send no attempt is near another one while the row exists |
| DeliveryProtocol.SentAtNeverCleared | src/admin/admin.controller.ts:240-248 | No writer (worker, admin reset, webhooks, clean-up) ever clears sentAt, and a removed row stays removed |
| DeliveryProtocol.NoSendOnceSet | src/notification/notification-worker.service.ts:155-169 | Once sentAt is set and no attempt is between check and send, no later event of any kind leads to a send |
| DeliveryProtocol.NoSendOnceSetIff | src/notification/notification-worker.service.ts:155-181 | "No later send" holds of a state with sentAt set if and only if no attempt is between its check and its send |
| DeliveryProtocol.SendAfterSentAt | src/integrations/webhooks.controller.ts:157-164 | The failing case is reachable: crash after a send, redelivery, and the provider's "sent" webhook after the second attempt's check give a second send with sentAt set |
| DeliveryRuns.SendsWhenSetIff | src/notification/notification-worker.service.ts:155-181 | Over whole runs: an event is a successful send with sentAt set if and only if the row exists and a "sent" webhook arrived while that same attempt was past its check and not yet at its send |
| DeliveryRuns.WebhookFound | src/integrations/webhooks.controller.ts:157-164 | An attempt can be past its check with sentAt set only because of such a webhook |
| DeliveryRuns.AttemptsBounded | src/notification/notification-worker.service.ts:201-239 | In every run that hands over each published message and each retry record at most once, there are at most 5 attempts per published message, and of no retry count more than were published, whatever sends, writes, crashes and other writers do |
| DeliveryRuns.RunQueues | src/notification/retry.service.ts:57-73 | In every run, the records queued with count c + 1 and the attempt under way with count c are together at most the attempts made with count c |
| DeliveryProtocol.AttemptsAccounted | src/notification/notification-worker.service.ts:201-239 | Every step keeps the accounts: attempts = recorded + routed + crashed + under way, and routed messages = entries of retry topic, DLQ and lost together |
| DeliveryProtocol.EveryAttemptAccounted | src/notification/notification-worker.service.ts:121-243 | In every run from creation each failed attempt is in exactly one of retry topic, DLQ and lost, and every record the worker itself queues has a retry count of 1 to 4 (a message that creation sent to the retry topic has count 0 and is among the published ones) |
| DeliveryProtocol.RouteAccounts | src/notification/notification-worker.service.ts:210-219 | Routing one failure moves one attempt from "under way" to exactly one of the three destinations |
| DeliveryProtocol.LostOnlyByDlq | src/notification/retry.service.ts:120-125 | If no DLQ send fails, no message is ever lost |
| DeliveryProtocol.WorkerWrites | src/notification/notification-worker.service.ts:171-233 | Column by column what the worker's three updates put into the row: PROCESSING, then SENT with the time of sending, or FAILED with time, error and one more retry, and nothing else changes |
| DeliveryProtocol.OtherWrites | src/integrations/webhooks.controller.ts:61-83 | Column by column what webhooks, an admin retry of a FAILED row, and clean-up of a finished row do |
| DeliveryProtocol.TakenIff | src/notification/notification-worker.service.ts:146-169 | A message is taken for an attempt if and only if all its required parts are there and the row, if there is one, is neither SENT nor has a time of sending |
| DeliveryProtocol.SkippedIff | src/notification/notification-worker.service.ts:128-169 | The same of a whole call, including empty and unparsable payloads |
| DeliveryProtocol.CallErrorIsFirst | src/notification/notification-worker.service.ts:155-216 | A call succeeds if and only if the row exists and nothing fails; otherwise its error is that of the first operation to fail |
| DeliveryProtocol.NotificationWorker.constructor | src/notification/notification-worker.service.ts:121-125 | A worker starts idle on the row and messages it is given, with empty topics and counters |
| DeliveryProtocol.NotificationWorker.UpdateToProcessing | src/notification/notification-worker.service.ts:171-178 | The update is one protocol step that sets the status PROCESSING and no other column; a missing row or a refused write surfaces as an error, and a write may be applied though its reply is lost |
| DeliveryProtocol.NotificationWorker.ProcessNotification | src/notification/notification-worker.service.ts:180-181 | The channel send is one protocol step that succeeds or reports its error |
| DeliveryProtocol.NotificationWorker.UpdateToSent | src/notification/notification-worker.service.ts:183-191 | The update is one protocol step that sets the status SENT and the time of sending and no other column; only an acknowledged one counts as recorded |
| DeliveryProtocol.NotificationWorker.SendAndRecord | src/notification/notification-worker.service.ts:180-191 | Send and record together are a run of the protocol and report the first error; on success the row has status SENT, the time given and its other columns as before |
| DeliveryProtocol.NotificationWorker.Attempt | src/notification/notification-worker.service.ts:171-195 | The try block past the check is a run of the protocol; its error is that of the first of mark, send and record to fail; on success, and only then, the processed count grows and the row has status SENT, the time given and its other columns as before |
| DeliveryProtocol.NotificationWorker.FailCheck | src/notification/notification-worker.service.ts:155-159 | A lookup that throws goes to the catch block without touching row or topics |
| DeliveryProtocol.NotificationWorker.RouteError | src/notification/notification-worker.service.ts:218-219 | The failure is routed once, with the message as received and the error that ended the attempt |
| DeliveryProtocol.NotificationWorker.UpdateToFailed | src/notification/notification-worker.service.ts:221-233 | The row, if it exists and can be written, becomes FAILED with error, time and one more retry; sentAt is untouched |
| DeliveryProtocol.NotificationWorker.HandleError | src/notification/notification-worker.service.ts:201-239 | The catch block counts one error, routes once, then marks FAILED, in that order |
| DeliveryProtocol.NotificationWorker.AttemptOrRoute | src/notification/notification-worker.service.ts:155-239 | A valid message that is not skipped either leaves the row with status SENT, the time given and its other columns as before, or is routed once with the row FAILED, its error, time and one more retry; nothing in between |
| DeliveryProtocol.NotificationWorker.HandleNotification | src/notification/notification-worker.service.ts:121-258 | One call refines the protocol: what it does is a run of handler steps; empty, malformed, invalid and already processed messages change nothing; all others are sent and recorded or routed exactly once |
| RetryRouting.RetryService.SendToRetryQueue | src/notification/retry.service.ts:42-86 | Appends to the topics exactly as the routing specification says, for every outcome of both sends |
| RetryRouting.RoutedExactlyOnce | src/notification/retry.service.ts:42-126 | Exactly one destination grows, by one, and nothing already there changes; which one is decided by retry count and sends; DLQ reason and keys agree |
| RetryRouting.QueuedWaitsAtMostEightSeconds | src/notification/retry.service.ts:23-37 | Whatever one routing queues has the next count in 1 to 4, header and message agreeing, and waits between 1 s and 8 s |
| RetryRouting.QueuedRunInOrder | src/notification/retry.service.ts:46-73 | The i-th record of a chain carries count c + 1 + i, the delay of count c + i, and the same message and key |
| RetryRouting.QueuedRunBackoff | src/notification/retry.service.ts:28-30 | The delays of n queued records starting at count c sum to 1000 (2^(c+n) - 2^c) ms |
| RetryRouting.ChainShape | src/notification/retry.service.ts:42-86 | For every outcome of every send: at most 5 attempts from count 0, queued counts consecutive, and a chain that is not cut short ends in the DLQ or lost, once |
| RetryRouting.FullChain | src/notification/retry.service.ts:17-86 | When Kafka accepts everything: 5 attempts, counts 1 to 4 queued, 15000 ms of backoff in all, one DLQ record with count 4, nothing lost |
| RetryRouting.LastOfFullChain | src/notification/retry.service.ts:51-55 | From any count below 5 such a chain makes 5 - count attempts and ends with one DLQ record of count 4 |
| CircuitBreakers.HistoryInvariant | src/notification/retry.service.ts:161-235 | For every history of overlapping calls: failureCount is the length of the trailing run of failures, CLOSED implies fewer than 5, successCount is positive only in HALF_OPEN and below 2, and the last failure time is the history's |
| CircuitBreakers.TripsExactlyAtThreshold | src/notification/retry.service.ts:214-230 | A closed breaker opens on the fifth failure in a row, not earlier and not later |
| CircuitBreakers.ModeChanges | src/notification/retry.service.ts:175-235 | Every change of mode in terms of the history: closed until the fifth failure in a row, open until a start 30 s after the last failure, half-open until a failure or the second success since |
| CircuitBreakers.SuccessesCounted | src/notification/retry.service.ts:199-224 | In every history successCount is the number of successes since the breaker became half-open |
| CircuitBreakers.OpenedIff | src/notification/retry.service.ts:199-230 | A breaker has left CLOSED at some time if and only if at some time five failures in a row ended the history |
| CircuitBreakers.OpenAdmitsOnlyAfterTimeout | src/notification/retry.service.ts:175-187 | An open breaker admits a call if and only if the history's last failure is at least 30 s old and not at time 0 |
| CircuitBreakers.StaysOpen | src/notification/retry.service.ts:175-235 | Whatever completes meanwhile, an open breaker stays open and refuses every start within 30 s of the last failure so far |
| CircuitBreakers.OpenStep | src/notification/retry.service.ts:199-235 | No single completion, and no start within 30 s, leaves OPEN |
| CircuitBreakers.RecoveryTakesTwoSuccesses | src/notification/retry.service.ts:175-212 | From every reachable state, 30 s after the last failure two successive successes close the breaker if and only if it was not open with failure time 0; one success never closes an open one |
| CircuitBreakers.InvocationsWithinBudget | src/notification/retry.service.ts:175-235 | From any consistent state, failing non-overlapping attempts reach the service at most as often as the state's remaining budget |
| CircuitBreakers.InvocationBound | src/notification/retry.service.ts:175-235 | After any history, a window of T ms in which every attempt fails reaches the service at most 5 + floor(T / 30000) times |
| CircuitBreakers.InvocationBoundIsReached | src/notification/retry.service.ts:166-235 | The bound is tight for every window of n times 30 s |
| CircuitBreakers.ProbesAllReachService | src/notification/retry.service.ts:175-187 | Probes 30 s apart on an open breaker all reach the service |
| CircuitBreakers.CircuitBreaker.constructor | src/notification/retry.service.ts:161-173 | A new breaker is the state of the empty history |
| CircuitBreakers.CircuitBreaker.StartCall | src/notification/retry.service.ts:175-187 | The start of a call is one event of the history; a refused one changes nothing |
| CircuitBreakers.CircuitBreaker.OnSuccess | src/notification/retry.service.ts:199-212 | A successful completion is one event of the history and resets the failure count in every mode |
| CircuitBreakers.CircuitBreaker.OnFailure | src/notification/retry.service.ts:214-230 | A failed completion is one event of the history, counted and timed in every mode |
| CircuitBreakers.CircuitBreaker.Execute | src/notification/retry.service.ts:175-197 | A call is a start and, exactly if admitted, one completion |
| CircuitBreakers.BreakerRegistry.GetCircuitBreaker | src/notification/retry.service.ts:131-139 | Returns the service's one breaker, creating a fresh one with an empty history only when there is none |
| CircuitBreakers.BreakerRegistry.ExecuteWithCircuitBreaker | src/notification/retry.service.ts:144-150 | Extends the history of this service's breaker and of no other |
| NotificationCreate.InvariantHolds | src/notification/notification.service.ts:161-271 | What every run keeps: rows are as created, keys of the last 24 h are in Redis, same-key rows are spaced and only the latest can hold the key, and the two topics hold exactly the rows whose create got a send through |
| NotificationCreate.EarlierSameKey | src/notification/notification.service.ts:183-237 | When a create gets past the check and the unique index, an earlier same-key row has an expired key and, unless anonymised, has been removed |
| NotificationCreate.SameKeyCreationsSpaced | src/notification/notification.service.ts:45-70 | Two rows with the same key are created at least 24 h apart if the first key was stored, and more than 90 days apart unless the first was anonymised |
| NotificationCreate.CreatesIff | src/notification/notification.service.ts:183-237 | In every reachable state a create inserts a row if and only if Redis and the database let it and every earlier row with the key has its key expired or not stored, and is removed or anonymised |
| NotificationCreate.LatestDecides | src/notification/notification.service.ts:183-237 | The latest row with the key alone decides that; those before it have been out of the way since it was created |
| NotificationCreate.SecondWithinDayIff | src/data-pipeline/anonymization.service.ts:45-57 | Within 24 h of a row a second one with its key can follow if and only if the key was not stored and the user has been anonymised since |
| NotificationCreate.EachRowPublishedOnce | src/notification/notification.service.ts:116-156 | In every run a row is in the notifications topic once if its create came back from storing the key and that send went through, in the retry topic once if only the fallback did, and otherwise in neither |
| NotificationCreate.RepeatReturnsFirst | src/notification/notification.service.ts:178-207 | Within the 24 h of a stored key every repeat returns the first row or fails with Redis or the database, and changes nothing; in which topic that row is, if in any, is decided by its own create alone, with the exact condition for each topic |
| NotificationCreate.RepeatOfUnpublished | src/notification/notification.service.ts:126-155 | Both ways to miss the topics occur, a create cut short and two failed sends, and repeats are then answered with a row in no topic |
| NotificationCreate.CreateWrites | src/notification/notification.service.ts:209-264 | What an inserting create leaves: the row as requested, the key for 24 h unless Redis refuses it, one message in the notifications topic or else in the retry topic, and the id as answer unless it stopped at Redis |
| NotificationCreate.RemovedIff | src/jobs/cleanup.service.ts:37-49 | Rows are removed only, and then, when more than 90 days old |
| NotificationCreate.DuplicateAlwaysFound | src/notification/notification.service.ts:200-204 | "Duplicate request detected but notification not found" is unreachable, because rows are only removed after 90 days |
| NotificationCreate.StoredTwinExpired | src/notification/notification.service.ts:64-70 | A stored key shared with an unstored, unanonymised row of the last 90 days has expired |
| NotificationCreate.UnstoredKeyBlocksRepeats | src/notification/notification.service.ts:217-246 | A row whose key was not stored makes every repeat fail without effect until it is 90 days old or anonymised |
| NotificationCreate.CheckFindsRecentRow | src/notification/notification.service.ts:45-70 | In every run the check finds a row if and only if one was created with the key in the last 24 h and its key was stored, and then it finds that one, of which there is only one |
| NotificationCreate.NotificationService.Create | src/notification/notification.service.ts:161-271 | Refines the create step of the runs above, state and answer, for every combination of failing awaits |
| RateLimiter.AdmittedWithinEarnings | src/ai/guards/ai-rate-limiter.guard.ts:50-115 | Admissions are at most the tokens held plus what is earned from the last refill to the end, although rejections do not save and admissions discard fractions |
| RateLimiter.WindowBound | src/ai/guards/ai-rate-limiter.guard.ts:50-115 | In every run, every window of D ms admits at most maxTokens + floor(D refillRate / (refillInterval 1000)) requests by tokens; requests let through because Redis failed are not counted |
| RateLimiter.GuardBounds | src/common/guards/redis-rate-limiter.guard.ts:38-105 | For the two guards: 10 + floor(D / 6000) and 100 + floor(D / 600) |
| RateLimiter.DecidedByTokens | src/ai/guards/ai-rate-limiter.guard.ts:50-141 | A request that Redis serves is admitted if and only if min(maxTokens, tokens + floor(elapsed refillRate / (refillInterval 1000))), or a full bucket if there is no unexpired entry, is at least 1; it reports and stores that number less 1 for two intervals; rejections and Redis failures change nothing |
| RateLimiter.BurstDecisions | src/ai/guards/ai-rate-limiter.guard.ts:50-108 | Of n requests at one time the first are admitted, one per token found, with remainders counting down to 0, and the others rejected |
| RateLimiter.BurstAdmits | src/ai/guards/ai-rate-limiter.guard.ts:50-108 | Exactly min(n, tokens) of them are admitted |
| RateLimiter.GuardBursts | src/common/guards/redis-rate-limiter.guard.ts:38-98 | A new client gets exactly 10, or 100, at once, with remainders 9 to 0, or 99 to 0 |
| RateLimiter.PacedAreAdmitted | src/ai/guards/ai-rate-limiter.guard.ts:69-115 | A client that keeps to the refill rate is never rejected, for any number of requests |
| RateLimiter.SuggestedWait | src/ai/guards/ai-rate-limiter.guard.ts:80-85 | retryAfter is the refill interval per token in seconds, rounded up: 6 s and 1 s |
| RateLimiter.WaitIsShortest | src/ai/guards/ai-rate-limiter.guard.ts:80-85 | No smaller number of seconds earns a token |
| RateLimiter.TtlUnobservable | src/ai/guards/ai-rate-limiter.guard.ts:110-115 | With the TTL of twice the interval every run decides exactly as with a bucket that never expires |
| RateLimiter.TtlUnobservableIff | src/common/guards/redis-rate-limiter.guard.ts:55-105 | The TTL is unobservable if and only if maxTokens is at most twice refillRate, which both guards meet |
| RateLimiter.RunKeepsSound | src/ai/guards/ai-rate-limiter.guard.ts:69-115 | In every run stored tokens stay integers in [0, maxTokens], with the expiry tied to the last refill |
| RateLimiter.DecideKeepsSound | src/ai/guards/ai-rate-limiter.guard.ts:69-122 | One request keeps that, and an admission reports a remainder in [0, maxTokens) |
| RateLimiter.NoAdmissionNoChange | src/ai/guards/ai-rate-limiter.guard.ts:79-105 | A run without an admission leaves the stored bucket as it was |
| RateLimiter.RetryAfterSuffices | src/ai/guards/ai-rate-limiter.guard.ts:79-105 | A rejected client that waits retryAfter seconds is admitted if nobody else was admitted in between, however many were rejected |
| RateLimiter.WaitEarnsOne | src/ai/guards/ai-rate-limiter.guard.ts:82-85 | The rounded-up wait is at least 1 s and long enough to earn a whole token |
| RateLimiter.EarnedAdds | src/ai/guards/ai-rate-limiter.guard.ts:70-73 | Splitting an interval never earns more: sums of floors stay below the floor of the sum |
| RateLimiter.RateLimiterGuard.CanActivate | src/ai/guards/ai-rate-limiter.guard.ts:33-141 | Decides by and writes only the entry of its own key, by the decision that DecidedByTokens is about; anonymous requests are refused or passed; Redis failures pass |
| TextChunker.ChunkBySentences | src/vector-db/services/text-processing/text-chunker.service.ts:282-349 | The chunks are windows of the sentences that cover all of them in order; each holds only what fitted and was closed because the next sentence did not; each chunk is the slice of the joined sentences that its offsets say; dropping overlaps rebuilds the text |
| TextChunker.MakeRoom | src/vector-db/services/text-processing/text-chunker.service.ts:295-322 | Before a sentence is added the open window either takes it or is closed because it does not fit |
| TextChunker.TakeSentence | src/vector-db/services/text-processing/text-chunker.service.ts:295-326 | One round keeps the loop's meaning: closed windows, and a running token count and start offset true to the open one |
| TextChunker.CloseChunk | src/vector-db/services/text-processing/text-chunker.service.ts:299-322 | Closing happens at a full window, and the next one begins with the kept overlap |
| TextChunker.KeepOverlap | src/vector-db/services/text-processing/text-chunker.service.ts:315-321 | What is kept is the tail of the window, with its own token count and its true offset |
| TextChunker.AppendChunk | src/vector-db/services/text-processing/text-chunker.service.ts:303-313 | The next chunk has the next index and the window's content and offset |
| TextChunker.Finish | src/vector-db/services/text-processing/text-chunker.service.ts:328-348 | The last chunk reaches the last sentence, and totals are set |
| TextChunker.SetTotals | src/vector-db/services/text-processing/text-chunker.service.ts:342-346 | Every chunk learns the number of chunks and is otherwise unchanged |
| TextChunker.SharedSentences | src/vector-db/services/text-processing/text-chunker.service.ts:315-319 | For percentages in (0, 100], consecutive windows share exactly ceil(n pct / 100) sentences and ends increase strictly |
| TextChunker.KeepsPromisedOverlapIff | src/vector-db/services/text-processing/text-chunker.service.ts:315-319 | slice(-ceil(n pct / 100)) keeps that many sentences if and only if 0 < pct <= 100 |
| TextChunker.PromisedOverlap | src/vector-db/services/text-processing/text-chunker.service.ts:315-319 | Within that range the overlap is at least one sentence and at most the chunk |
| TextChunker.KeepsAllOtherwise | src/vector-db/services/text-processing/text-chunker.service.ts:315-319 | At 0 percent and above 100 the whole previous chunk is kept |
| TextChunker.WindowsAreFull | src/vector-db/services/text-processing/text-chunker.service.ts:298-325 | In tokens: the kept sentences joined and every further one are within the limit unless there is only one further; with the next window's first new sentence they would exceed it |
| TextChunker.EstimateIsCeiling | src/vector-db/services/text-processing/text-chunker.service.ts:547-556 | A text is estimated at ceil(length / 4) tokens |
| TextChunker.WindowsRebuild | src/vector-db/services/text-processing/text-chunker.service.ts:303-321 | Chunks of any covering windows are slices of the joined sentences and rebuild them |
| TextChunker.RebuildGivesText | src/vector-db/services/text-processing/text-chunker.service.ts:436-441 | Chunks that are slices, each continuing the one before, give back the text up to the last end |
| TextChunker.WindowIsSlice | src/vector-db/services/text-processing/text-chunker.service.ts:303-321 | Joined sentences of a window are the slice of all joined sentences at the window's offset |
| TextChunker.ChunkByFixedSize | src/vector-db/services/text-processing/text-chunker.service.ts:354-397 | Where the loop stops: one chunk per round, the end is reached, consecutive chunks overlap by exactly overlapSize, the count is ceil((L - overlap) / (size - overlap)) beyond one chunk, and dropping overlaps rebuilds the content |
| TextChunker.FixedSizeTerminatesIff | src/vector-db/services/text-processing/text-chunker.service.ts:364-388 | The loop, as its tests and its position step by step, stops after some number of rounds if and only if chunks are larger than their overlap or the text fits in one |
| TextChunker.RoundsReached | src/vector-db/services/text-processing/text-chunker.service.ts:367-387 | The exit condition of the loop means that exactly that many rounds are run |
| TextChunker.PositionIsMultiple | src/vector-db/services/text-processing/text-chunker.service.ts:382 | After n rounds the position is n steps of size minus overlap |
| TextChunker.FixedCountReached | src/vector-db/services/text-processing/text-chunker.service.ts:382-387 | The exit condition pins the number of rounds down to that count |
| TextChunker.CeilUnique | src/vector-db/services/text-processing/text-chunker.service.ts:382-387 | The count is the only n with (n - 1) step < a <= n step |
| CsvExport.RoundTripIff | src/data-pipeline/export.service.ts:89-115 | Parsing the print gives back every value if and only if no unescaped column contains a comma, a quote or a line feed |
| CsvExport.TableParses | src/data-pipeline/export.service.ts:89-115 | The clean direction for every table, after any records already parsed |
| CsvExport.RowParses | src/data-pipeline/export.service.ts:93-112 | A printed row parses to its values, whatever record follows |
| CsvExport.CellParses | src/data-pipeline/export.service.ts:292-301 | A printed cell parses to its value, escaped or not, whatever separator follows |
| CsvExport.ParsedIsNotShorter | src/data-pipeline/export.service.ts:292-301 | No text shorter than the fully escaped print of some records parses to them, so a dirty unescaped column cannot round-trip by accident |
| CsvExport.TableLength | src/data-pipeline/export.service.ts:89-115 | A print is shorter than the fully escaped one by exactly what its dirty unescaped columns save |
| CsvExport.BuildCsv | src/data-pipeline/export.service.ts:89-115 | The loop that pushes lines and joins them prints the header and all rows |
| CsvExport.ExportNotificationsToCSV | src/data-pipeline/export.service.ts:69-119 | The notification export reads back if and only if its 13 unescaped textual and date columns are clean, and then as the literal header line followed by each record's own fields in that order |
| CsvExport.ExportEventsToCSV | src/data-pipeline/export.service.ts:168-202 | The event export reads back if and only if its 7 unescaped columns are clean, and then as the literal header line followed by each record's own fields in that order |
| CsvExport.ExportAuditLogsToCSV | src/data-pipeline/export.service.ts:248-286 | The audit export reads back if and only if its 8 unescaped columns are clean, and then as the literal header line followed by each record's own fields in that order |
| CsvExport.ExportReadable | src/data-pipeline/export.service.ts:90-115 | With clean headers, readability depends on the rows alone |
| CsvExport.DecimalClean | src/data-pipeline/export.service.ts:106 | A printed retry count never needs escaping |
| CsvExport.DecimalReadsBack | src/data-pipeline/export.service.ts:106 | A printed retry count consists of digits, without leading zeros, that stand for the number |
| SearchResults.SortIsStable | src/vector-db/services/context-assembly.service.ts:233-234 | Sorting by score is descending, a permutation, and keeps the order of equal scores |
| ContextAssembly.SimilarityBounds | src/vector-db/services/context-assembly.service.ts:191-216 | The Jaccard similarity is symmetric, in [0, 1], and 1 on equal texts with at least one counted word |
| ContextAssembly.SimilarityIsShare | src/vector-db/services/context-assembly.service.ts:209-215 | The similarity is the share of common words among all words, and 0 without any |
| ContextAssembly.WordsOfOne | src/vector-db/services/context-assembly.service.ts:196-207 | A text without white space is one word in lower case, which counts if longer than two letters |
| ContextAssembly.WordsSplit | src/vector-db/services/context-assembly.service.ts:196-207 | White space separates words: with WordsOfOne this determines the words of every text |
| ContextAssembly.FilterKeeps | src/vector-db/services/context-assembly.service.ts:137-142 | Every occurrence of a relevant result is kept, and nothing else |
| ContextAssembly.FindSimilar | src/vector-db/services/context-assembly.service.ts:161-176 | The inner loop answers yes if and only if some kept result is similar enough |
| ContextAssembly.ConsiderResult | src/vector-db/services/context-assembly.service.ts:155-182 | One result is kept, or dropped because an id or a similar content was kept before |
| ContextAssembly.DeduplicateResults | src/vector-db/services/context-assembly.service.ts:148-185 | The result is a subsequence without duplicates by id or similarity, and every dropped result duplicates one kept before it |
| ContextAssembly.DeduplicationIsUnique | src/vector-db/services/context-assembly.service.ts:148-185 | These properties determine the result: no other selection of the input has them |
| ContextAssembly.ComputeMaxSimilarity | src/vector-db/services/context-assembly.service.ts:248-256 | The loop computes the maximum similarity to the ranked results that MaxSimilarityIsMaximum is about |
| ContextAssembly.MaxSimilarityIsMaximum | src/vector-db/services/context-assembly.service.ts:248-256 | That value bounds the similarity to every ranked result, is the similarity to one of them, and is 0 without any |
| ContextAssembly.MmrIsWorstTradeoff | src/vector-db/services/context-assembly.service.ts:245-260 | For a non-negative weight w the MMR of a candidate is at most (1 - w) score - w similarity for every ranked result, and equal to it for one of them |
| ContextAssembly.SelectNext | src/vector-db/services/context-assembly.service.ts:239-266 | The chosen candidate has the greatest (1 - w) score - w (maximum similarity), ties going to the higher score; with weight 0 it is the first |
| ContextAssembly.RankWithDiversity | src/vector-db/services/context-assembly.service.ts:222-272 | A permutation whose first element has the highest score and whose every next element maximises MMR against the prefix before it; with weight 0 exactly the stable sort |
| ContextAssembly.RankedByFormula | src/vector-db/services/context-assembly.service.ts:222-272 | Of any two results in the ranking the earlier had the higher (1 - w) score - w (highest content similarity to what was ranked before), or the same and no lower score; of two with equal scores the more similar one never comes first |
| ContextAssembly.FitToContextWindow | src/vector-db/services/context-assembly.service.ts:278-311 | The longest prefix of the ranking whose cost ceil(len / 4) + 10 each is within the budget, and its exact cost |
| ContextAssembly.LongerCostsMore | src/vector-db/services/context-assembly.service.ts:285-300 | No longer prefix is cheaper, so stopping at the first misfit is optimal among prefixes |
| ContextAssembly.CostIsCeiling | src/vector-db/services/context-assembly.service.ts:285-311 | A result costs ceil(length / 4) + 10 tokens |
| ContextAssembly.TotalCostConcat | src/vector-db/services/context-assembly.service.ts:299 | The total is the sum of the parts |
| ContextAssembly.NoDuplicatesPermuted | src/vector-db/services/context-assembly.service.ts:64-78 | Ranking cannot undo deduplication |
| ContextAssembly.ContextHolds | src/vector-db/services/context-assembly.service.ts:54-84 | From the guarantees of the four steps: the context is free of duplicates, relevant and from the input |
| ContextAssembly.ContextAssemblyService.UpdateStatistics | src/vector-db/services/context-assembly.service.ts:99-104 | The incremental average is the true average of all context sizes |
| ContextAssembly.ContextAssemblyService.AssembleContext | src/vector-db/services/context-assembly.service.ts:45-132 | End to end: unique ids, scores at least minScore, pairwise similarity below the threshold, the longest fitting prefix of a greedy ranking, every dropped result explained, metadata and statistics true |
| RetrievalMerge.NormalizedScores | src/vector-db/services/retrieval.service.ts:528-546 | Normalised scores are in [0, 1] and keep the order, or are all 1 when all were equal; nothing else changes |
| RetrievalMerge.NormalizedLinearly | src/vector-db/services/retrieval.service.ts:533-545 | Between the least and the greatest score the scale is linear from 0 to 1, and all scores are 1 when these are equal |
| RetrievalMerge.RescaledOrder | src/vector-db/services/retrieval.service.ts:542-545 | The rescaling is order-preserving in both directions |
| RetrievalMerge.AddResult | src/vector-db/services/retrieval.service.ts:393-416 | A new id is inserted as it is, a known one combined or ignored, and every entry stays the combination of its id's occurrences so far |
| RetrievalMerge.AddResults | src/vector-db/services/retrieval.service.ts:392-417 | The same for all results of a query |
| RetrievalMerge.MultiQuerySearch | src/vector-db/services/retrieval.service.ts:385-423 | Unique ids, sorted by descending score, one result per id that occurs, with the combined score and first content of its occurrences |
| RetrievalMerge.FirstOccurrence | src/vector-db/services/retrieval.service.ts:393-416 | The first result with an id gives the merged one its content, and its score where duplicates are ignored |
| RetrievalMerge.CombinedMax | src/vector-db/services/retrieval.service.ts:401-403 | 'max' gives the true maximum over all occurrences |
| RetrievalMerge.CombinedSum | src/vector-db/services/retrieval.service.ts:407-409 | 'sum' gives the total over all occurrences, capped at 1 |
| QueryOrder.QueryOrderIrrelevant | src/vector-db/services/retrieval.service.ts:389-418 | For 'max' and 'sum', which ids appear and with which score does not depend on the order of the queries |
| QueryOrder.AllScoresPermuted | src/vector-db/services/retrieval.service.ts:391-392 | Reordering queries only reorders the normalised scores of each id |
| QueryOrder.AllScoresByQuery | src/vector-db/services/retrieval.service.ts:389-392 | The scores of an id over all queries are those of the queries one after the other |
| QueryOrder.TotalPermuted | src/vector-db/services/retrieval.service.ts:407-409 | The total over occurrences is independent of their order |
| QueryOrder.AverageOrderFreeIff | src/vector-db/services/retrieval.service.ts:404-406 | Pairwise averaging gives the same for every permutation of the scores if and only if there are at most two or all are equal |
| QueryOrder.AverageQueryOrderIff | src/vector-db/services/retrieval.service.ts:389-418 | When queries return an id at most once, its 'avg' score is the same for every order of the queries if and only if it occurs at most twice or always with the same normalised score |
| QueryOrder.AverageKept | src/vector-db/services/retrieval.service.ts:389-418 | Where it occurs at most twice or always alike, no reordering of any queries changes it |
| QueryOrder.ExchangeChangesAverage | src/vector-db/services/retrieval.service.ts:404-406 | Exchanging the last of at least three scores with another changes the average if and only if the two differ |
| QueryOrder.AverageDependsOnOrder | src/vector-db/services/retrieval.service.ts:404-406 | Three queries, through normalisation, for which 'avg' gives 0.5 or 0.25 depending on their order |
| Archival.ArchivalConserves | src/data-pipeline/archival.service.ts:45-117 | However archivers interleave and fail, every row is in exactly one table with its contents, both counters sum to the rows moved, and a finished archiver left nothing eligible |
| Archival.RunConserves | src/data-pipeline/archival.service.ts:45-117 | The invariant behind it, including that rows held between find and commit are rows of one of the tables |
| Archival.StepTotals | src/data-pipeline/archival.service.ts:101-108 | Counters grow only by commits, by exactly what the archive grows |
| Archival.CommitMoves | src/data-pipeline/archival.service.ts:62-105 | A commit, even of a batch another archiver already moved, keeps the tables disjoint and their union |
| Archival.CommitCounts | src/data-pipeline/archival.service.ts:90-104 | Created and deleted counts of a commit agree |
| Archival.ArchivalService.TakeRows | src/data-pipeline/archival.service.ts:48-55 | Any rows of the eligible ones, as many as the limit allows |
| Archival.ArchivalService.ArchiveBatch | src/data-pipeline/archival.service.ts:62-105 | The rows leave the hot table, are in the archive, and both counts are their number |
| Archival.ArchivalService.CommitBatch | src/data-pipeline/archival.service.ts:62-112 | Moving the rows found and counting them is what the interleaved system does in one commit |
| Archival.ArchivalService.ArchiveRound | src/data-pipeline/archival.service.ts:45-117 | A round is a find and a commit of the interleaved system, or their failures, and a fault-free one makes progress |
| Archival.ArchivalService.ArchiveOld | src/data-pipeline/archival.service.ts:32-124 | With finitely many failures a lone archiver terminates, has moved exactly the eligible rows, reports their number, and is a run of the interleaved system |
| Archival.ArchivalService.ArchiveOldNotifications | src/data-pipeline/archival.service.ts:32-124 | Exactly the SENT, FAILED and DELIVERED notifications of more than 90 days leave the hot table, and no row changes or disappears |
| Archival.ArchivalService.ArchiveOldEvents | src/data-pipeline/archival.service.ts:129-206 | Exactly the completed and failed events of more than 365 days leave the hot table, and no row changes or disappears |
| ConversationMemory.KeptTurns | src/ai/services/conversation-memory.service.ts:88-121 | After every sequence of turns: a suffix of all added, ending with the newest, at most 20, and at most 8000 tokens unless one turn remains |
| ConversationMemory.DroppedFewest | src/ai/services/conversation-memory.service.ts:287-313 | Pruning drops the fewest oldest turns that meet its targets, and never all |
| ConversationMemory.PrunedFewest | src/ai/services/conversation-memory.service.ts:287-313 | The longest suffix with at most 20 turns, and at most 4000 tokens unless one turn is left |
| ConversationMemory.SumAppend | src/ai/services/conversation-memory.service.ts:105 | A turn adds the tokens it used, and nothing if it does not say |
| ConversationMemory.FewestIsUnique | src/ai/services/conversation-memory.service.ts:287-313 | The two loops cannot stop anywhere else |
| ConversationMemory.TargetsMonotone | src/ai/services/conversation-memory.service.ts:298-308 | Dropping more turns keeps the targets met |
| ConversationMemory.PruneOnlyWhenNeeded | src/ai/services/conversation-memory.service.ts:276-299 | Turns are dropped if and only if a limit is exceeded and more than one turn exists, and then down to 4000 tokens or one turn |
| ConversationMemory.Conversation.Prune | src/ai/services/conversation-memory.service.ts:287-313 | The two loops leave the pruned suffix and its exact token total |
| ConversationMemory.Conversation.Add | src/ai/services/conversation-memory.service.ts:98-112 | The turns after an addition are those of the specification, the total stays exact, and metadata.totalTurns is the number before pruning |
| ConversationMemory.ConversationMemoryService.CreateConversation | src/ai/services/conversation-memory.service.ts:65-83 | A fresh, empty conversation is stored under its id; no other changes |
| ConversationMemory.ConversationMemoryService.AddTurn | src/ai/services/conversation-memory.service.ts:88-121 | An unknown id is refused; otherwise that conversation alone changes, by exactly this turn |
| EmbeddingBatch.BatchedRefinesPerItem | src/vector-db/services/embedding.service.ts:120-238 | For every list of texts, every way to split it into batches and every coherent cache, batches give index i the embedding of text i and leave the same cache as embedding one by one, when colliding texts share their embedding |
| EmbeddingBatch.SplitIrrelevant | src/vector-db/services/embedding.service.ts:130-140 | Any two splits of the same texts give the same embeddings and the same cache |
| EmbeddingBatch.CutCovers | src/vector-db/services/embedding.service.ts:131-132 | Cutting texts into batches of any size loses nothing and keeps the order |
| EmbeddingBatch.CutSizes | src/vector-db/services/embedding.service.ts:131-132 | Every batch is full, except that the last may be smaller |
| EmbeddingBatch.BatchedRight | src/vector-db/services/embedding.service.ts:120-238 | Batches, however split: every embedding right, the cache coherent and holding every text |
| EmbeddingBatch.PerItemRight | src/vector-db/services/embedding.service.ts:65-114 | One by one: every embedding right, and the cache holds every text |
| EmbeddingBatch.StoreUncached | src/vector-db/services/embedding.service.ts:190-235 | Storing only the misses leaves the same cache as storing every text |
| EmbeddingBatch.PerItemHits | src/vector-db/services/embedding.service.ts:190-203 | Whatever a batch counts as a hit, one by one does too; duplicates within a batch are the difference |
| EmbeddingBatch.RightIffHarmless | src/vector-db/services/embedding.service.ts:319-322 | Every cached call on a set of texts, however split, is right and keeps the cache coherent if and only if no two of them collide with different embeddings |
| EmbeddingBatch.HashCollides | src/vector-db/services/embedding.service.ts:375-383 | Such collisions exist: "Aa" and "BB" hash to 2112, and the second is answered with the first one's vector |
| EmbeddingBatch.HashIsBase31 | src/vector-db/services/embedding.service.ts:375-383 | The key is the absolute value of the signed 32-bit integer congruent to the text read in base 31 |
| EmbeddingBatch.ResultOfBatch | src/vector-db/services/embedding.service.ts:190-217 | Whatever collides, a result counts as cached if and only if the cache is used and held its key before its batch, and is then what the cache held; otherwise it is the text's own embedding |
| EmbeddingBatch.BatchedNext | src/vector-db/services/embedding.service.ts:131-140 | One more batch of 100 extends results and cache as the specification of all batches says |
| EmbeddingBatch.EmbeddingService.LookUpAll | src/vector-db/services/embedding.service.ts:190-207 | Hits fill their slots, and the index list names exactly the slots left empty, in order |
| EmbeddingBatch.EmbeddingService.FillAll | src/vector-db/services/embedding.service.ts:219-235 | Each empty slot is filled once with its own text's embedding, no other slot changes, and the misses are stored |
| EmbeddingBatch.EmbeddingService.Prepare | src/vector-db/services/embedding.service.ts:185-211 | The texts sent to the model are the misses, or all without the cache; filled slots already hold their answer |
| EmbeddingBatch.EmbeddingService.FillPlaces | src/vector-db/services/embedding.service.ts:185-235 | All places get the results the batch is specified to have, or nothing changes but the places of the hits |
| EmbeddingBatch.EmbeddingService.ProcessBatch | src/vector-db/services/embedding.service.ts:175-238 | A batch gives every slot its specified result, or fails without effect exactly when the model is needed and its call fails |
| EmbeddingBatch.EmbeddingService.GenerateEmbeddings | src/vector-db/services/embedding.service.ts:120-170 | Results and cache are those of all batches, hits + misses is the number of texts and hits those cached; a failure leaves the cache of the batches before the failed one |
| EmbeddingBatch.CountHits | src/vector-db/services/embedding.service.ts:142-149 | Counts the results that came from the cache |
| EmbeddingBatch.CountIsNumber | src/vector-db/services/embedding.service.ts:142-149 | The hits are the number of places whose result was cached |

## Left out

- Delivery: the messages of one user are handled one at a time, as keying by user makes Kafka do; concurrent handling of the same notification by two workers, Kafka offsets, and the health and shutdown logic of the worker are not modelled.
- SendAfterSentAt: the webhooks find a row by `metadata.messageId`, which nothing under `src/` writes; the webhook steps assume that some writer stores it.
- SendsBounded: a channel send that reached the provider although the call failed is not counted as a successful send. Nothing in the repository consumes the retry topic; handing its messages to the worker is a step of the environment.
- Delivery: clean-up and archival appear only as the removal of a completed row; their age condition is not needed there.
- Retry counts are natural numbers or absent; logging, headers other than those modelled, and the failure timestamp of DLQ records are left out.
- The breaker's rethrown errors and its metrics are left out. The clock given to it is arbitrary.
- SameKeyCreationsSpaced: a create is one step, so two concurrent creates with one key are not interleaved; a Kafka send that reaches the broker although it reports failure, and Redis losing keys before their TTL, are not modelled. Row contents other than key, time and scheduling are left out. The 90 days are 90 times 24 h.
- WindowBound: requests that pass because Redis failed are not counted. Requests on one key are served one after the other; Redis get and set are not atomic in the source, and under races the bound is false. A write that is applied although Redis reports an error, response headers other than the remaining tokens, and rounding of floating-point numbers are left out.
- Chunking: paragraph chunking, strategy choice, sentence splitting, variable extraction and other chunk metadata (including `completeness`, which is always computed with a total of 0) are left out; overlap percentages are non-negative and present.
- CSV: dates, JSON values and enumerations are the strings they are printed as; database queries are left out.
- Context assembly: prompt text, rendering of percentages, white space and case conversion beyond ASCII in word tokens.
- Retrieval: the searches themselves, their cache, hybrid search and reranking; a strategy outside the three named ones.
- ArchivalConserves: leaves out the archival lock, which does not exclude anybody, other writers of the tables (including the daily clean-up), and a transaction that commits although its archiver sees an error.
- Conversations: the Redis-backed store with its TTL, expiry, listing and context rendering; token counts are non-negative.
- AverageQueryOrderIff: queries return an id at most once, as a search of the vector store does; without that the condition is still sufficient (`AverageKept`).
- GenerateEmbeddings: leaves out retries and backoff of the model, mock embeddings, cost counters, the cache's TTL and failing cache calls; texts are sequences of UTF-16 code units; the model answers a batch in order.
- String comparison, identifiers and hashes are exact; floating-point rounding is not modelled anywhere.
