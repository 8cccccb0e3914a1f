# RoboControl: a verified model

RoboControl stands between customer systems and an RCS-2000 robot controller. A request to create
a task is forwarded to RCS, recorded in one SQL table and remembered in Redis under the caller's
idempotency key; RCS later reports progress through webhooks, which are deduplicated in Redis,
queued, and folded into the table by workers. Every handler can be interleaved with every other and
can die between any two awaits, RCS is not idempotent, and the queue delivers at least once and in
any order. This project models that behaviour in Dafny and proves what it keeps.

## How the model is laid out

| file | models |
|---|---|
| `task_table.dfy` | the `task_history` table, its two unique columns, and the repository class over it |
| `redis_store.dfy` | Redis with expiry and `SET NX`, and the key builders |
| `json.dfy`, `text.dfy` | JSON values, the canonical printer, and the Python string operations used |
| `rcs_client.dfy` | classification of an RCS response and the retry loop |
| `idempotency.dfy` | fingerprints and cached envelopes of both submitting endpoints |
| `submission.dfy` | `create_task` and `submit_raw` as one small-step system: any number of clients, crashes, evictions, clock ticks and feedback workers |
| `submission_safety.dfy`, `submission_accounting.dfy` | its invariant, agreement, isolation, conservation, replay window |
| `submission_solo.dfy` | one client running alone: a run of the system, and every branch of both endpoints written out |
| `submission_raw.dfy` | raw submissions that may not persist: when successes of a key can be trusted, and the runs in which they cannot |
| `submission_services.dfy` | the two endpoints as methods that change the table and Redis, proved to be runs of the small-step system |
| `feedback.dfy`, `feedback_worker.dfy` | the status machine over delivery sequences, and the worker class |
| `worker_windows.dfy` | the worker split at its await, and when the split does not show |
| `webhook.dfy`, `feedback_pipeline.dfy` | the webhook endpoint, its claims, and what an acknowledgement is worth |
| `row_lifecycle.dfy` | what every reachable table satisfies, and the dashboard counters |
| `alerts.dfy`, `timestamps.dfy` | the limited merge of recent alerts and the order of `isoformat()` texts |
| `system_config.dfy` | the cache-aside configuration and the URLs built from it |
| `config_windows.dfy` | configuration reads and writes split at their awaits, with crashes, evictions and overlaps |
| `pagination.dfy`, `seeding.dfy`, `masking.dfy` | page arithmetic, start-up seeding, log redaction |

State the program updates in place is held by classes (`TaskHistoryRepository`, `RedisStore`,
`SubmissionServer`, `FeedbackWorker`, `WebhookService`, `SystemConfigRepository`, `RobotTypeTable`,
`LogEvent`); each method is proved against a function of the old state, and the theorems are about
those functions over all runs.

## What turned out false, and exactly when

- Raw submissions of one key can be told different task codes (`TwoCodesForOneKey`), and one that asks
  to persist can be answered from the cache by one that did not, with no row committed, because the
  fingerprint leaves `persistTask` out (`ReplayCommitsNothing`). In all runs everybody who is told a
  code under a key, by either endpoint, is told the same code for the same request, and the code has
  that request's row, exactly when every raw call under the key with a valid path asks to persist
  (`KeySoundIffAllPersist`).
- A raw call can overwrite the envelope of a `create_task` whose key spells out the raw prefix
  (`OverwrittenEnvelope`). A saved envelope is replayed until it expires exactly when nothing has
  evicted its slot and no raw call has saved under it (`ReplayWindow`); no raw call can when the key
  does not begin with the prefix (`PlainKeyLosesByEviction`, `SharedSlots`).
- Two workers whose read and commit windows on one task overlap can reopen a finished task
  (`OverlapReopensATask`). The table is at every moment that of an atomic run exactly when every
  commit finds its row gone or is harmless to it (`SerialisableIff`), and a final row never changes
  exactly when every commit that finds its row final is harmless (`FinalRowsStayIff`). Harmless is
  read off the row, the worker's read and the delivery: on a final row the commit must assign what
  is already there, on a live row a `start` must still be right about the start time (`StaleCommit`).
  Windows that do not overlap are harmless.
- The queue's order shows in the final status exactly when a task has both an `end` and an unknown
  method under way (`OrderMattersIffContested`).
- A handler that dies between its claim and its enqueue loses the event, and copies are then
  acknowledged as duplicates for exactly an hour (`StoppedClaimSwallowsCopies`). A call of a key has
  reached the queue exactly when the key was claimed more often than handlers stand or stopped
  before their enqueue (`QueuedIffClaimed`); then it takes effect (`AcknowledgedTakesEffect`). Working
  off a queue is bound to show a call exactly when the queue holds a message that covers it
  (`GuaranteedIffCovered`). A fresh acknowledgement vouches for a queued message, but a handler can
  also die after its enqueue and leave a message nobody acknowledged (`QueuedWithoutAnswer`).
- Two feedback calls share a dedupe key although they differ exactly when one code continues the
  other across a `:` (`DedupeKeyCollision`, `CollidingCallsExist`); the second is then acknowledged
  and never queued (`CollidingCallIsLost`).
- The configuration cache can be left wrong by a read overtaken by a write (`OvertakenRead`), by two
  writes that cache in the other order than they commit (`CrossedWrites`), and by a write that stops
  after its commit (`StoppedWrite`). Over all interleavings cache and table agree, on every key no
  write is in the middle of, exactly when every event is harmless (`FaithfulIffHarmless`): whoever
  caches a text finds it in the table, and whoever stops after a commit leaves nothing stale behind;
  both can be told from the history of commits, cached texts and evictions (`HarmlessByHistory`).
- The log redaction announces that it masks secret fields anywhere in the event
  (app/core/logging.py:34); the code does not look inside lists (`ListedSecretSurvives`), and an event
  is clean afterwards exactly when the lists it leads to were (`MaskedEverywhereIff`).
- A 5xx answer to a call that is not retried, and a JSON body that is no object, leave the client as
  untyped exceptions (`Request`).

## Model

| member | source | states |
|---|---|---|
| SubmissionSafety.Agreement | app/services/task_service.py:45-94 | in every interleaving, with crashes at any await, any cache loss and RCS called again for a served key, any two successes for one key whose answers say they were persisted, of either endpoint, carry the same robotTaskCode and answer equal requests of one endpoint; every `create_task` success is such a one |
| SubmissionSafety.Isolation | app/services/rcs_submit_service.py:230-272 | over all runs of both endpoints the unique columns hold, and whatever is replayed is what a client of the same endpoint with the same key and fingerprint was answered first |
| SubmissionSafety.SuccessesAreRecorded | app/services/rcs_submit_service.py:191-228 | every persisted success of either endpoint, fresh or from the cache, names a committed row with that client's key and, column by column, the source and target its own request or body spells out; every `create_task` success is one |
| SubmissionSafety.UnknownTypesAreRefused | app/services/task_service.py:52-58 | over all runs a `create_task` with an unknown robot type never calls RCS, and never inserts, saves or answers |
| SubmissionSafety.ForeignEnvelopeIsRefused | app/services/task_service.py:144-149 | an endpoint that finds an entry either refuses the call or replays the answer its own endpoint gave for that key; the other endpoint's envelope is never served |
| SubmissionSafety.ReadsOwnEnvelopes | app/services/task_service.py:133-172 | reading a saved envelope is a hit exactly for the same endpoint and fingerprint, and gives back the saved answer; otherwise a reuse error |
| SubmissionSafety.StepKeepsInv | app/services/task_service.py:39-102 | the invariant that ties cache entries, answers and replays to the one committed row of their key survives every single event |
| SubmissionSafety.InsertedKeyIsNew | app/models/task_history.py:25-36 | the unique columns admit a keyed row only if no client holds a committed row for that key |
| SubmissionRaw.KeySoundIffAllPersist | app/services/rcs_submit_service.py:191-218 | in all runs whoever is told a code under a key, by either endpoint, fresh or replayed, is told the same code for the same request, and the code has the row of that request, if and only if every raw call under the key with a valid path asks to persist |
| SubmissionRaw.TwoCodesForOneKey | app/services/rcs_submit_service.py:191-218 | a run in which two raw calls of one key that do not persist are told different codes, whatever they ask |
| SubmissionRaw.ReplayCommitsNothing | app/services/rcs_submit_service.py:95-107 | a run in which a raw call that asks to persist is replayed an answer with a code and no row is committed |
| SubmissionRaw.OverwrittenEnvelope | app/services/rcs_submit_service.py:251-272 | a run in which a raw call overwrites a `create_task` envelope, and the same request is refused before expiry |
| SubmissionRaw.RunKeepsRawInOrder | app/services/rcs_submit_service.py:142-214 | in every reachable state a raw call past its path check has a valid path, and one that asks to persist has persisted every code it answers with afresh |
| SubmissionAccounting.Conservation | app/services/task_service.py:63-84 | in every reachable state, `create_task` submissions to RCS equal its committed rows plus attempts stopped at or after submission plus attempts in flight; the table grew by exactly the committed clients; each new row was committed by a client for its own request under the code RCS gave in reply to that client's own call, each committed client has such a row, no client has two, and no reply serves two rows |
| SubmissionAccounting.CacheAnswersAvoidRcs | app/services/task_service.py:45-50 | in any run no request makes two calls through the RCS client, and one that was answered from the cache or refused for a reused key makes none |
| SubmissionAccounting.ReplayWindow | app/services/task_service.py:133-156 | for every key, after `create_task` has saved its envelope, an equal request looking the key up before expiry is given the saved code and status marked cached if and only if nothing has evicted the slot and no raw call has saved under it; while that is so a different request gets a reuse error |
| SubmissionAccounting.StepKeepsSavedIff | app/services/task_service.py:158-172 | exactly an eviction of its slot or the save of a raw call that shares the slot takes a saved envelope away, for every key, and what is lost stays lost |
| SubmissionAccounting.RunKeepsSavedIff | app/services/task_service.py:158-172 | over any run a saved envelope stands exactly when no event has taken it away |
| SubmissionAccounting.PlainKeyLosesByEviction | app/services/rcs_submit_service.py:271-272 | under a create key that does not begin with `rcs_raw:` only an eviction takes the envelope away |
| SubmissionAccounting.SharedSlots | app/utils/redis_helper.py:54-55 | a create call and a raw call share a slot exactly when the create key is `rcs_raw:` followed by the raw key |
| SubmissionServices.SubmissionServer.CreateTask | app/services/task_service.py:39-102 | every branch written out: what a cached entry leads to, the refusal of an unknown type, each RCS outcome with its error, the pending row, the cached envelope for 86400 s and the answer; and outcome and state are those of its client running alone in the small-step system |
| SubmissionServices.SubmissionServer.SubmitRaw | app/services/rcs_submit_service.py:136-228 | the same for the raw endpoint: the path test, the cached result, each RCS outcome, persisted and unpersisted answers, and the row with what the body spells out |
| SubmissionServices.SubmissionServer.Complete | app/services/rcs_submit_service.py:191-228 | insert, save and answer after RCS has replied are the last two steps of a solo run |
| SubmissionServices.SubmissionServer.Persist | app/services/rcs_submit_service.py:193-207 | a pending row with that code, key, source and target is added exactly when the database is up and neither code nor key is taken; otherwise the table is unchanged |
| SubmissionServices.SubmissionServer.Meta | app/services/rcs_submit_service.py:67-92 | the source is the text under `sourceCode`; the target is the codes of the route's object steps in order with arrows between, or the route object's own target, or else the body's |
| SubmissionServices.SubmissionServer.LookupIdempotency | app/services/rcs_submit_service.py:230-249 | without a usable key a miss; otherwise the reading of the live entry under the endpoint's literal prefix and the key |
| SubmissionServices.SubmissionServer.SaveAndAnswer | app/services/rcs_submit_service.py:251-268 | the endpoint's envelope is stored under its literal prefix and the key for 86400 s, and nothing else changes |
| SubmissionSolo.SoloIsARun | app/services/task_service.py:39-102 | an undisturbed call is one of the interleavings of the whole system, so the theorems over runs apply to it |
| SubmissionSolo.CreateTaskEnds | app/services/task_service.py:39-102 | in the small-step system an undisturbed `create_task` ends in exactly the branch its inputs call for, with that branch's rows, cache, calls and answer |
| SubmissionSolo.SubmitRawEnds | app/services/rcs_submit_service.py:136-228 | the same for an undisturbed `submit_raw` |
| Idempotency.CreateFingerprintsAgree | app/services/task_service.py:175-178 | create fingerprints are equal exactly when all four request fields are |
| Idempotency.RawFingerprintsAgree | app/services/rcs_submit_service.py:95-107 | raw fingerprints are equal exactly when verb, path, body (absent and empty identified) and sendSigned are |
| Idempotency.CreateFingerprintSpelt | app/services/task_service.py:175-178 | the fingerprint's text: four named members in sorted order, without spaces |
| Idempotency.RawFingerprintSpelt | app/services/rcs_submit_service.py:95-107 | the fingerprint's text: body (empty when absent), verb, path and sendSigned, and no `persistTask` |
| Idempotency.CreateEnvelopeRoundTrip | app/services/task_service.py:133-172 | a saved create envelope reads back as the saved result marked cached for its own fingerprint, and as a reuse error for any other |
| Idempotency.RawEnvelopeRoundTrip | app/services/rcs_submit_service.py:230-268 | a saved raw envelope reads back unchanged for its own fingerprint, and as a reuse error for any other |
| Idempotency.ForeignEnvelopesMismatch | app/services/rcs_submit_service.py:241-247 | neither endpoint accepts the other's envelope, whatever the fingerprints |
| Idempotency.ExtractTaskCode | app/services/task_service.py:121-131 | a truthy code inside `data` wins, else the one beside it is taken; a code is never empty, is missing exactly when neither is truthy, and a truthy `data` that is no object breaks the extraction |
| Json.DumpsInjective | app/services/task_service.py:175-178 | compact sorted-key printing gives two values the same text exactly when they are equal as unordered objects |
| Json.ValuePrefix | app/services/task_service.py:175-178 | inside any larger text the printed form determines the value at its front and the text that follows |
| Json.EscapePrefix | app/services/rcs_submit_service.py:98-107 | ASCII escapes are a prefix code; a surrogate pair is not mistaken for single escapes |
| Json.SortedKeysAscend | app/services/rcs_submit_service.py:105 | member names are printed in strictly ascending code-point order |
| Json.DumpsSpelt | app/services/task_service.py:175-178 | the printed form of every kind of value, elements and sorted members joined by commas |
| Json.EscapeSpelt | app/services/rcs_submit_service.py:98-107 | the seven short escapes, printable ASCII as itself, and four-digit hexadecimal UTF-16 for the rest |
| Json.FalsyValues | app/services/task_service.py:123-125 | exactly null, false, 0 and the empty string, list and object are falsy |
| Redis.EndpointKeysCoincide | app/utils/redis_helper.py:54-55 | the endpoints' Redis keys coincide exactly when the create key is `rcs_raw:` followed by the raw key |
| Redis.DedupeKeyCollision | app/utils/redis_helper.py:58-61 | two feedback calls share a dedupe key exactly when they are equal or one code swallows a `:` and a piece of the other's method |
| Redis.DedupeKeyIdentifies | app/utils/redis_helper.py:58-61 | for methods without `:` the key identifies code and method |
| Redis.RedisStore.SetNx | app/services/webhook_service.py:50-52 | the claim succeeds exactly when no entry stands that has not yet expired, then stands until now plus its lifetime; a failed claim changes nothing |
| Redis.RedisStore.Get | app/services/task_service.py:136 | an entry answers strictly before its expiry, and without one for ever |
| TaskTable.TaskHistoryRepository.Create | app/repositories/task_history_repository.py:29-49 | succeeds exactly when neither the code nor a present key is taken; appends the blank row, or changes nothing |
| TaskTable.TaskHistoryRepository.UpdateStatus | app/repositories/task_history_repository.py:51-77 | column by column: the rows with that code get the status and the given columns, absent ones and identity columns stay, other rows stay, and the row count is reported |
| TaskTable.TaskHistoryRepository.GetByRobotTaskCode | app/repositories/task_history_repository.py:21-23 | finds the one row with the code if there is one |
| RcsClient.Request | app/clients/rcs2000_client.py:187-228 | a retryable call stops at the first attempt that is no network error and no 5xx, or at the third, after waits of one and two seconds; any other call makes one attempt; and with codes written out, the outcome it stopped at gives data, one of the typed errors, or an untyped escape for a 5xx that is not retried and for a body that is no object |
| Feedback.ProcessAllIsPointwise | app/workers/tasks.py:87-123 | under the unique column any delivery sequence acts on each row separately |
| Feedback.StatusIsMonotone | app/workers/tasks.py:103-121 | a status only moves to a strictly higher rank, a final row is left entirely alone, nothing becomes cancelled |
| Feedback.TerminalAbsorbs | app/workers/tasks.py:103-108 | no delivery sequence changes a final row |
| Feedback.DuplicatesAreTransparent | app/workers/tasks.py:45-123 | adding or dropping any number of later copies of a call anywhere in a sequence leaves status, start and end time unchanged |
| Feedback.DuplicatesAreTransparentInTable | app/workers/tasks.py:1-6 | the same for every row of a table: the worker is idempotent under at-least-once delivery |
| Feedback.FirstDeliveriesSuffice | app/services/webhook_service.py:48-61 | processing everything gives the status and times of processing only the first copy of each call |
| Feedback.ClosedFormUndecided | app/workers/tasks.py:53-62 | without a final method a live row is running once anything reached it, and has no new end time |
| Feedback.ClosedFormDecided | app/workers/tasks.py:103-119 | the first final method fixes status and end time, whatever follows |
| Feedback.ClosedFormStart | app/workers/tasks.py:116-117 | the start time is that of the first `start` before the decision, and is never overwritten |
| Feedback.ClosedFormRobot | app/workers/tasks.py:110-115 | the robot is that of the last delivery before or at the decision that named one, or unchanged |
| Feedback.ClosedFormError | app/workers/tasks.py:110-115 | the error text is that of the last delivery before or at the decision that carried one, or unchanged |
| Feedback.CompletedIff | app/workers/tasks.py:53-62 | a live task is completed exactly when the first delivery for it outside `start` and `outbin` is `end`, failed exactly when it is another method, with that delivery's time as end time |
| Feedback.ProgressNeverFinishes | app/core/constants.py:7-11 | deliveries of `start` and `outbin` alone never finish a task: it is running once one arrived and its end time is untouched |
| Feedback.UncontestedStatus | app/workers/tasks.py:53-62 | when not both an `end` and an unknown method are present, the final status depends only on which deliveries arrive |
| Feedback.OrderMattersIffContested | app/core/constants.py:7-11 | some reordering changes the final status exactly when an `end` and an unknown method are both present |
| Feedback.KnownMethodsCommute | app/core/constants.py:7-11 | with only start, outbin and end, every permutation gives the same status |
| FeedbackWorkers.FeedbackWorker.UpdateTaskHistory | app/workers/tasks.py:87-123 | column by column and method by method: a pending or running row with the code becomes running on `start` and `outbin`, completed on `end`, failed otherwise, with start and end time, robot and error as each case sets them; every other row stays; the result says whether there was such a row |
| FeedbackWorkers.FeedbackWorker.ProcessTaskFeedback | app/workers/tasks.py:45-154 | a message whose stripped code or method is empty changes nothing; any other is folded into the table as above, and the named robot's state document, with its literal key, members and status text, is stored for 300 s whether or not the row moved |
| WorkerWindows.Serialisable | app/workers/tasks.py:96-123 | with read and commit split, any number of workers and rows inserted meanwhile, if windows on one task never overlap every interleaving ends in the table of the atomic run in order of effect |
| WorkerWindows.UndisturbedWorker | app/workers/tasks.py:96-123 | a worker that reads and commits with nobody in between processes its delivery whole |
| WorkerWindows.DeliveriesOnly | app/workers/tasks.py:96-123 | without inserts that atomic run is the processing of a delivery sequence, to which the results on such sequences apply |
| WorkerWindows.ReadsAreAccounted | app/workers/tasks.py:96-123 | every delivery read took effect once, is held open, or was dropped with its worker |
| WorkerWindows.FinalRowsSurvive | app/workers/tasks.py:103-108 | with windows apart a final row is the same at every later moment |
| WorkerWindows.OverlapReopensATask | app/repositories/task_history_repository.py:71-75 | with overlapping windows a completed task can go back to running, end time and all |
| WorkerWindows.StaleCommit | app/repositories/task_history_repository.py:61-75 | a commit from a stale read leaves the whole row an atomic delivery would leave exactly when it is harmless, and the status it would leave exactly when the row is live or has that status |
| WorkerWindows.SerialisableIff | app/workers/tasks.py:96-123 | for all half-steps of any number of workers, overlapping or not, with rows inserted meanwhile, the table is at every moment that of an atomic run in order of effect if and only if every commit finds its row gone or is harmless to it |
| WorkerWindows.FinalRowsStayIff | app/workers/tasks.py:103-123 | for all half-steps, overlapping or not, final rows never change if and only if every commit that finds its row final is harmless to it |
| WorkerWindows.CommitIsAtomicIff | app/repositories/task_history_repository.py:71-77 | on any table one commit has the effect of a whole atomic delivery exactly when its row is gone or it is harmless |
| RowLifecycle.RowsStaySound | app/workers/tasks.py:98-123 | in every reachable table a pending row is blank, an end time is set exactly in final states, start does not follow end, nothing is cancelled |
| RowLifecycle.RowsPersist | app/repositories/task_history_repository.py:51-77 | between any two moments of a run, for rows inserted on the way too, rows are never removed, keep code, key and route, never fall in rank, and stay put once final |
| RowLifecycle.AtMostTwoChanges | app/workers/tasks.py:103-123 | no row changes its status more than twice in any run |
| RowLifecycle.StatusesPartition | app/services/stats_service.py:52-72 | the five status counters add up to the number of rows |
| RowLifecycle.CountersAddUp | app/services/stats_service.py:52-55 | on every reachable table the rows that are pending, running, completed and failed add up to the total |
| Webhook.ClaimsAreSpaced | app/services/webhook_service.py:48-52 | over all interleavings successful claims of one key are at least 3600 s apart |
| Webhook.ClaimRate | app/core/constants.py:25-27 | any span of T seconds holds at most T/3600 + 1 successful claims of one key |
| Webhook.ClaimsAreAccounted | app/services/webhook_service.py:48-75 | per key, claims equal enqueued messages plus handlers in flight or stopped between claim and enqueue; enqueued messages equal handlers that acknowledged afresh, are about to, or stopped just before |
| Webhook.StoppedClaimSwallowsCopies | app/services/webhook_service.py:50-61 | after a handler died on its claim, a copy is acknowledged as duplicate and not queued if and only if less than 3600 s have passed; from then on a copy is queued |
| Webhook.WebhookService.HandleTaskFeedback | app/services/webhook_service.py:30-75 | a call is queued exactly when its signature holds and its key is unclaimed; the log row, the queue and the claim, under its literal key for 3600 s, end as each of the three answers requires; and in any state of the small-step system the method is one handler running alone to its end |
| Webhook.WebhookService.LogEvent | app/services/webhook_service.py:77-96 | one log row is appended, or nothing when the insert fails |
| FeedbackPipeline.QueuedIffClaimed | app/services/webhook_service.py:48-75 | in every reachable state a message of a key is in the queue if and only if the key has more claims than handlers standing or stopped between claim and enqueue, if and only if some handler of the key has enqueued |
| FeedbackPipeline.FreshAckIsQueued | app/services/webhook_service.py:63-75 | an acknowledgement that is not a duplicate has a queued message of its key |
| FeedbackPipeline.QueuedWithoutAnswer | app/services/webhook_service.py:66-75 | a handler that stops between enqueue and answer leaves a queued message and no acknowledgement |
| FeedbackPipeline.AcknowledgedIsQueued | app/services/webhook_service.py:48-75 | an acknowledged call, duplicate or not, has a message of its key in the queue when no handler of the key is or stopped between claim and enqueue |
| FeedbackPipeline.CollidingCallIsLost | app/utils/redis_helper.py:58-61 | of two different calls with one dedupe key the second is acknowledged as duplicate and not queued, and working off the queue is not bound to show it when their codes differ |
| FeedbackPipeline.CollidingCallsExist | app/utils/redis_helper.py:58-61 | any code and any method behind a `:` have such a counterpart |
| FeedbackPipeline.AcknowledgedTakesEffect | app/workers/tasks.py:1-6 | end to end, once a key has reached the queue and every queued message was processed at least once in any order, a call has done to the row all it can do, and processing it again changes neither status nor times, provided the calls that came in under its key are one call |
| FeedbackPipeline.PlainActionsAreOneCall | app/utils/redis_helper.py:58-61 | methods without `:` leave only one call to a key |
| FeedbackPipeline.GuaranteedIffCovered | app/workers/tasks.py:53-62 | working off a queue, in any order with any repeats, is bound to show a call on its row if and only if the queue holds a message of the task with a method that covers it |
| FeedbackPipeline.RunIsTraced | app/services/webhook_service.py:48-75 | in every reachable state a claim stands behind each marked key and each duplicate answer, and queued messages are calls that came in |
| Timestamps.IsoOrder | app/api/v1/routers/alerts.py:65-69 | comparing `isoformat()` texts is comparing instants, with or without a fractional part |
| Timestamps.IsoSpelt | app/api/v1/routers/alerts.py:65 | the text of an instant, digit by digit, the fraction left out when zero |
| Alerts.SortIsPermutation | app/api/v1/routers/alerts.py:68-69 | the sort returns the same alerts in descending order of timestamp |
| Alerts.SortIsStable | app/api/v1/routers/alerts.py:68-69 | alerts with one timestamp keep their order |
| Alerts.SortIsMerge | app/api/v1/routers/alerts.py:68-69 | sorting two query results together is merging them, the first list going first on ties |
| Alerts.MergePrefix | app/api/v1/routers/alerts.py:32-57 | the first n of a merge need only the first n of each side |
| Alerts.LimitedMergeRefinesFullSort | app/api/v1/routers/alerts.py:32-74 | limiting each query first gives the alerts of sorting the full union and truncating, for all sizes, ties and limits |
| Alerts.RecentAlerts | app/api/v1/routers/alerts.py:25-75 | the limited queries, the two loops, the sort and the slice return, alert for alert, the newest of both whole tables in descending order; each alert reports a row with its literal kind, severity, message, details and timestamp |
| SystemConfig.GetReturnsLastSet | app/repositories/system_config_repository.py:21-51 | over any sequence of whole calls and evictions from a consistent start, `get` returns the value last set and no cached value differs from the table |
| ConfigWindows.FaithfulIffHarmless | app/repositories/system_config_repository.py:21-51 | with reads and writes split at their awaits, any number of workers, crashes anywhere and any evictions, the cache agrees at every moment with the table on every key no write is in the middle of, if and only if every event is harmless |
| ConfigWindows.StepIsFaithfulIff | app/repositories/system_config_repository.py:33-51 | one event keeps the agreement exactly when a text being cached is in the table, or a stopping write leaves nothing stale, or another write of the key has still to cache |
| ConfigWindows.HarmlessByHistory | app/repositories/system_config_repository.py:33-51 | whether caching or stopping is harmless, told by the history: the text committed last, the text cached last since the last eviction, and whether another write has still to cache |
| ConfigWindows.ApartIsFaithful | app/repositories/system_config_repository.py:21-51 | where calls on one key do not overlap and no write stops after its commit, the agreement holds throughout, and at rest no cached value differs from the table |
| ConfigWindows.OvertakenRead | app/repositories/system_config_repository.py:28-34 | a read overtaken by a whole write leaves the key right exactly when both texts are equal |
| ConfigWindows.CrossedWrites | app/repositories/system_config_repository.py:50-51 | two writes that cache in the other order than they commit leave the key right exactly when their texts are equal |
| ConfigWindows.StoppedWrite | app/repositories/system_config_repository.py:50-51 | a write that stops after its commit leaves the key right exactly when nothing, or the same text, was cached |
| ConfigWindows.UndisturbedCalls | app/repositories/system_config_repository.py:21-51 | a split call that runs undisturbed does what the whole call does |
| SystemConfig.PreviewMatchesClient | app/services/rcs_submit_service.py:123-134 | right after the settings were read with a numeric port, the preview shows the URL a default-built client resolves: `http://`, address, `:`, port and path, or the trimmed default and the path |
| SystemConfig.SettingsRoundTrip | app/api/v1/routers/system.py:87-103 | settings written and read back give the same address, port number and URL |
| SystemConfig.SystemConfigRepository.Read | app/repositories/system_config_repository.py:21-36 | returns the text cached under `sysconfig:` and the key, else the table's, which is then cached; the table is untouched |
| SystemConfig.SystemConfigRepository.Write | app/repositories/system_config_repository.py:38-51 | table and cache both hold the value afterwards; a failed commit changes nothing, a failure after the commit changes the table alone |
| SystemConfig.SystemConfigRepository.GetConnectionSettings | app/repositories/system_config_repository.py:53-67 | the address and port read in order, the URL made of them or the default one, and a failure exactly where a present port text is no number |
| Text.ParseIntRoundTrip | app/repositories/system_config_repository.py:65 | reading back the text of any integer gives the integer |
| Text.ParseIntAccepts | app/repositories/system_config_repository.py:65 | digits with an optional sign and white space around them are accepted as the number they denote |
| Text.DecimalSpelt | app/repositories/system_config_repository.py:65 | a number is written by its decimal digits, the last one last |
| Text.StripRemoves | app/workers/tasks.py:46-47 | stripping takes the 29 white-space characters off both ends and stops at any other |
| Pagination.PagesPartition | app/api/v1/routers/tasks.py:168-193 | pages 1 to totalPages concatenated are the listing; a page is empty exactly when it lies beyond them |
| Pagination.EachIndexOnOnePage | app/api/v1/routers/tasks.py:168-171 | each index is shown on exactly one page, and that one is reported |
| Pagination.PageShowsElement | app/api/v1/routers/webhook_logs.py:30-31 | the page of an index shows that very element in its place |
| Pagination.TotalPagesCover | app/api/v1/routers/webhook_logs.py:56 | totalPages is the least number of pages that holds the listing |
| Pagination.FilterKeepsStatus | app/api/v1/routers/tasks.py:157-163 | the filtered listing is the rows at the places of all wanted rows, in listing order and without gaps |
| Pagination.Places | app/api/v1/routers/tasks.py:157-163 | those places ascend and are exactly the places of the rows with the wanted status, all of them without a filter |
| Pagination.FilterKeepsMultiplicity | app/api/v1/routers/tasks.py:157-163 | a wanted row is listed as often as it occurs, an unwanted one never |
| Pagination.PageLength | app/api/v1/routers/tasks.py:168-171 | pages before the last are full, the last holds the remainder, later ones nothing |
| Pagination.ListTaskHistory | app/api/v1/routers/tasks.py:146-195 | item j of a page is wanted row number (page - 1) * pageSize + j of the listing; a literal status text shows exactly the rows of that status, any other text or none a page of the rows themselves; pages are full up to the last, empty exactly beyond totalPages, which is the least number that holds the total |
| Seeding.SeedingIsSafe | app/db/init_seed.py:23-40 | for any number of interleaved processes earlier rows stay untouched, names stay unique, and a process that returned has left all default names behind |
| Seeding.OnlyDefaultsAreAdded | app/db/init_seed.py:16-36 | every row any run adds is one of the defaults, type and description included |
| Seeding.DefaultsPresentForEver | app/db/init_seed.py:16-38 | once any process has returned, each default name is present exactly once from then on, with the default's own row if the name was absent at the start |
| Seeding.RobotTypeTable.SeedRobotTypes | app/db/init_seed.py:23-40 | the loop appends exactly the default rows whose names were absent, to an empty table the three literal ones, or, when the commit fails, nothing; and it is one process of the interleaved system running alone |
| Masking.MaskIdempotent | app/core/logging.py:44-54 | masking twice is masking once |
| Masking.NoSecretReachable | app/core/logging.py:44-54 | no sensitive key reachable through dictionaries keeps its value |
| Masking.HarmlessPathsKept | app/core/logging.py:44-54 | along harmless keys an event leads to the same values, masked |
| Masking.MaskedEverywhereIff | app/core/logging.py:33-54 | masking leaves no secret anywhere exactly when the lists an event leads to held none |
| Masking.ListedSecretSurvives | app/core/logging.py:34-41 | a concrete event whose secret sits in a list is logged unmasked |
| Masking.MaskDict | app/core/logging.py:44-54 | the fresh dictionary keeps the key set; at any depth a key that spells a listed name, or `secret`, `token` or `password` inside it, in any mixture of cases, has the value `***`, and every other value is kept or redacted inside |
| Masking.LogEvent.MaskSensitive | app/core/logging.py:33-41 | the in-place loop over the event does the same, and agrees with the recursive masking |
| Masking.SensitiveIff | app/core/logging.py:36-37 | the check on the lowered key accepts exactly the keys that spell such a word, letter by letter |
| Masking.ListedNamesAreSensitive | app/core/constants.py:39-41 | each of the six listed names is itself masked |
| Masking.MaskRedacts | app/core/logging.py:44-54 | recursive masking redacts at every depth |

## Left out

- SubmissionAccounting.Conservation: counts calls of the RCS client; the up to three attempts of a signed GET from `submit_raw` are inside one call.
- WorkerWindows.Serialisable: assumes that windows on one task do not overlap, because the code does not ensure it; the exact condition and a counterexample are proved beside it.
- FeedbackPipeline.AcknowledgedTakesEffect: assumes that the calls which came in under the key are one call, since colliding ones are lost, and a row that existed before processing; feedback for a task not yet inserted is dropped by the code.
- WorkerWindows.SerialisableIff: compares with the atomic run in order of effect; that some other order gives the same table is not considered.
- Webhook.ClaimsAreSpaced: Redis loses claims only by expiry; an evicted claim may be made again earlier.
- Feedback.DuplicatesAreTransparent: does not cover `robot_code` and `error_msg`, which a copy may overwrite; their closed forms are stated separately.
- Alerts.RecentAlerts: which of several rows with one timestamp a query lists first is the database's choice; the refinement is stated for any fixed choice. The meaning of `updated_at` is not modelled.
- SubmissionServices.SubmissionServer.SubmitRaw: starts from a normalised path; `normalize_rcs_path` (app/utils/rcs_path.py) and its URL parsing are not part of this model. The verb is one of the two the schema admits, both upper case already.
- Idempotency.RawFingerprintsAgree: speaks of bodies whose numbers are integers; floating-point numbers and their printing are not modelled.
- RowLifecycle.CountersAddUp: counts the whole table; the dashboard shows completed and failed tasks of today only, and the scan that counts active robots is outside the table.
- ConfigWindows.FaithfulIffHarmless: selecting the row and committing it are one step of `set`; two first writes of a key that collide on the primary key are a failed commit.
- Insert and commit are one step of the system: the unique columns arbitrate at that point, and a database failure is the flag of that step.
- The cache holds decoded JSON values, not text, so unreadable JSON text in Redis does not occur; well-formed envelopes of the wrong shape do.
- JSON numbers are integers, and a container used as a task or error code is written as canonical JSON where Python would write its own notation; strings hold no lone surrogates.
- `int()` of underscores and of digits outside ASCII; the column collation, taken as exact equality.
- Instants are natural numbers in rows and robot states, and Redis and the workers share one clock.
- The transport is a stream of outcomes; waits between attempts are computed, not slept.
- Listing of webhook logs: the same offset arithmetic as the task history, over other rows.
- Signature computation, nonces and hashes: a signature check is a boolean input.
- FastAPI wiring, schema validation, the dashboard, Alembic migrations, and the internals of SQLAlchemy, Redis, httpx, tenacity and Celery: replaced by the abstract operations above.
