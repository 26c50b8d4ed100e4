# Verification models of the pipeline's concurrent protocols and bounded algorithms

This project models ten small but delicate parts of the system, one Dafny module per Python source
file, and proves what each of them promises over every input, every run and every interleaving.
`dafny verify dfyconfig.toml` checks everything.

How the modules are built:

- An object that changes its fields is a class; each method's new state is tied to a pure transition
  function (`Step`, `Apply`, `Script`, `Put`, `NextId`, ...). The theorems are about runs of those
  transitions: sequences of events of any length, in any order.
- Every main result connects the code's own state (counters, a pruned set, an index, a pointer) with an
  independent reference: dependency chains, the full admission log, the event log, the list of
  completed exchanges, or each question judged alone.
- For every operation some theorem says in plain terms what it does, apart from the transition function it is
  defined by: what becomes of each future, which mode follows from the log, who holds the key according to
  the replies, which requests share an answer, which row a question is scored by.
- What the source asks of the outside world is a parameter: clocks, the tokenizer, the row scorer, the
  merge function, prompt rendering, the `has_history` answer, replies of Redis.

What is modelled:

| module | part of the system |
|---|---|
| `ParallelExecutor` | layered topological scheduling of sub-plans |
| `MemoryCompressor` | long-term memory compaction by concurrent workers over one summary row |
| `Judger` | flattening many judging requests into chunks of prompt rows and slicing the results back |
| `MicroBatcher` | the queue and batch scheduler in front of the judger |
| `CircuitBreaker` | the three-state breaker under concurrent, possibly stale, calls |
| `RedisLease` | the conversation lock: its scripts, its renewer and its failure window |
| `RateLimiter` | the sliding-window script |
| `PromptBudget` | truncation by binary search, and the shrinking budget loop |
| `SnowflakeId` | the id generator |
| `ResponseCache` | the answer cache and its document index |
| `Common` | an option type, a maximum, flattened sequences and set sizes |

Assumptions, where the source relies on its surroundings:

- Sub-plan ids are distinct; the scheduler does not check it.
- Exchanges settle in id order, so the modelled table holds the settled ones only; the summary row is
  never deleted; its re-read may return any committed state since the first read, the exchange query any
  table since then. A summary is represented by the batches merged into it, so the result holds for every
  merge function.
- A row's logits depend on that row's prompt alone; a chunk holds at least one row.
- Redis scripts are atomic, and a key exists while the clock is below its deadline. A lease manager
  acquires once.
- The rate limiter's callers pass a non-decreasing clock, and the clock by which Redis expires keys gains
  at most one second on it between two requests (the extra second in the script's expiry).
- The cache's questions and tenant names are already normalized, hashing a key is injective, and a store or
  an invalidation is one step.

Where the code and what is said about it differ, the model follows the code:

- `covered_exchange_count` is not always the number of exchanges folded in: an update adds the count
  since the pointer the run started from, also when another run has moved the pointer meanwhile.
  `MemoryCompressor.UpdateCountExactIff` gives the exact condition, `MemoryCompressor.CountCanDrift` a run
  that ends with 3 for 2 exchanges; `MemoryCompressor.CountNeverLow` shows that it errs upwards only, from any row whose count does not fall short already.
  The summary itself is exact in every run.
- `fit_state_to_budget` says the result never exceeds the limit. It stops at its minimum budget, and
  returns that cut even if its prompt is still too long. For a positive limit and a prompt that costs up to K
  tokens more than its state, the promise holds if and only if K plus the minimum budget (or 0, if that is
  negative) is within the limit: `PromptBudget.LimitPromiseIff`, with the overrun of
  `PromptBudget.TightFloorOverruns` otherwise. With a negative minimum the loop need not end;
  `PromptBudget.EndsIff` says when it does, `PromptBudget.EndsPromiseIff` that only a minimum of at least 0
  makes it end always.
- `truncate_text_by_tokens` keeps every positive budget exactly for the markers that are not empty
  (`PromptBudget.BudgetPromiseIff`).
- A call that leaves the breaker without recording an outcome (a cancelled `call()`, which catches only
  `Exception`) can lock the breaker out for good, in every configuration
  (`CircuitBreaker.CancelledProbesLockOut`); `CircuitBreaker.LockedOutIff` says exactly when. If every
  outcome is recorded it cannot.
- After a store, every later invalidation up to the next store finds all the answers it should if and only if
  no live answer in the same index set outlives the new one and, for a store whose document ids are the one
  empty string, its key is already listed with the global answers for long enough
  (`ResponseCache.StoreKeepsCompleteIff`). Such a store shares its key with the one without documents but is
  listed nowhere. A shorter time to live set between two stores can break the first part
  (`ResponseCache.ShorterTtlLosesEntries`), a lone empty id the second
  (`ResponseCache.BlankDocumentLosesEntries`); deadlines that never go back, hence one setting for all stores,
  without lone empty ids break neither (`ResponseCache.SteadyIsOrderly`).
- The lease monitor takes the clock value 0.0 for "no window", so failures at that instant open none and are
  not counted: from a fresh monitor, failed checks within 60 seconds report a lost lease if and only if at
  least eleven of them come later than 0.0 (`RedisLease.FreshOutageIff`).

## Model

| member | source | states |
|---|---|---|
| ParallelExecutor.TopologicalLayers | app/executors/parallel_executor.py:28-52 | layers are returned if and only if every dependency exists and there is no cycle; they hold every plan once, none is empty, layer k is exactly the plans whose longest dependency chain has k steps; otherwise the error reports how many plans have neither a missing dependency nor a cycle behind them |
| ParallelExecutor.FixpointIsUnblocked | app/executors/parallel_executor.py:39-51 | when no further plan becomes ready, the plans never placed are exactly those with a missing dependency or a cycle behind them |
| ParallelExecutor.UnblockedIffClosedAcyclic | app/executors/parallel_executor.py:49-51 | every plan can be placed if and only if all dependencies exist and the relation is acyclic |
| ParallelExecutor.RoundIsLongestChain | app/executors/parallel_executor.py:39-47 | a plan becomes ready in round k if and only if its longest dependency chain has k steps |
| ParallelExecutor.BlockedNeverDone | app/executors/parallel_executor.py:39-47 | a plan behind a missing dependency or a cycle is never ready, in any round |
| ParallelExecutor.RepetitionIsIrrelevant | app/executors/parallel_executor.py:30-34 | listing a dependency several times changes no round: only the set of dependencies matters |
| ParallelExecutor.DependenciesRunEarlier | app/executors/parallel_executor.py:36-47 | in a returned schedule each dependency lies in a strictly earlier layer |
| ParallelExecutor.NoSoonerStaging | app/executors/parallel_executor.py:36-47 | no staging that respects the dependencies runs a plan sooner than its layer |
| ParallelExecutor.BuildDependents | app/executors/parallel_executor.py:31-34 | the dependents table is the inverse of the dependency lists, entry for entry with multiplicity |
| ParallelExecutor.InDegrees | app/executors/parallel_executor.py:30 | each counter starts at the number of unfinished dependency entries |
| ParallelExecutor.InitialQueue | app/executors/parallel_executor.py:37 | the first queue holds each plan with a zero counter once |
| ParallelExecutor.Settle | app/executors/parallel_executor.py:43-46 | finishing one plan lowers each dependent by its number of entries, and queues exactly the plans whose counter reaches zero, once each |
| ParallelExecutor.ExpandLayer | app/executors/parallel_executor.py:41-47 | after a layer the counters are the entries outside the finished plans, and the next queue is exactly the newly ready plans |
| ParallelExecutor.StillWaiting | app/executors/parallel_executor.py:43-46 | a plan about to be decremented has a positive counter and was never queued before, so no counter passes zero |
| MemoryCompressor.SummaryIsExact | app/chat/memory_compressor.py:40-219 | over any interleaving of any number of workers, every committed summary folds in exactly the completed exchanges with a question up to its pointer, each once and in id order |
| MemoryCompressor.WorkIsOldestOverflow | app/chat/memory_compressor.py:46-87 | a run has work exactly when more exchanges are completed, non-blank, above the pointer and not above the known id than the window holds; it folds in all but the newest window_size of them, ascending, in steps of the batch size (4 if that is 0) |
| MemoryCompressor.PointerAndVersionClimb | app/chat/memory_compressor.py:102-219 | between any two committed states the pointer does not fall and the version rises by the number of commits between them |
| MemoryCompressor.OneCommitPerVersion | app/chat/memory_compressor.py:127-219 | of all runs that expected the same version at most one commits, the insert and its conflict retry included |
| MemoryCompressor.CommitsKeepTheWindow | app/chat/memory_compressor.py:62-87 | after every commit at least window_size stable exchanges lie above the pointer |
| MemoryCompressor.BatchesAreTheOverflow | app/chat/memory_compressor.py:227-246 | the batches concatenate to exactly the oldest n - window_size exchanges in order, all but the last full, none empty; there are none exactly when nothing overflows |
| MemoryCompressor.StepKeepsInv | app/chat/memory_compressor.py:40-219 | every database step of every worker keeps rows, history and pending work sound, and only appends to the row's history |
| MemoryCompressor.PreparedWorkOk | app/chat/memory_compressor.py:40-87 | work built from any row and any later table continues that row's summary exactly up to its new pointer, leaves the window above it, and counts what it adds |
| MemoryCompressor.Splice | app/chat/memory_compressor.py:46-60 | the exchanges selected above a pointer continue the ones up to it: nothing skipped, repeated or reordered |
| MemoryCompressor.CasStep | app/chat/memory_compressor.py:194-219 | a row with the expected version is the row that was re-read, so an older payload may overwrite a newer one without losing an exchange |
| MemoryCompressor.InsertStep | app/chat/memory_compressor.py:134-155 | an insert commits a sound first row or is turned into a conflict |
| MemoryCompressor.RereadStep | app/chat/memory_compressor.py:89-129 | whichever committed state the re-read or the retry read returns, the decision taken on it is sound |
| MemoryCompressor.HistoryOnlyGrows | app/chat/memory_compressor.py:134-219 | no continuation of a run rewrites a committed state |
| MemoryCompressor.UpdateCommitsIff | app/chat/memory_compressor.py:194-219 | a version update commits if and only if nothing was committed since the state it was decided on |
| MemoryCompressor.RereadDecides | app/chat/memory_compressor.py:89-129 | whichever committed state the re-read returns, a run skips exactly if that row's pointer is higher, or the same with its text present; it inserts if there is no row and else updates that version |
| MemoryCompressor.RetryDecides | app/chat/memory_compressor.py:156-166 | after a lost insert a run tries again exactly if the row it finds has a lower pointer |
| MemoryCompressor.UndisturbedRunWrites | app/chat/memory_compressor.py:124-219 | undisturbed from its re-read on, a run that does not skip writes its pointer and summary with the next version and the counts added up |
| MemoryCompressor.LostInsertIsRetried | app/chat/memory_compressor.py:148-189 | undisturbed after a lost insert, a run that goes beyond the row brings its work home with the larger count |
| MemoryCompressor.LoneRunCommitsIff | app/chat/memory_compressor.py:40-219 | a run that nobody disturbs commits exactly one row, if more exchanges are eligible than the window holds, and moves the pointer so that exactly window_size of them stay above it; otherwise it writes nothing |
| MemoryCompressor.UpdateCountExactIff | app/chat/memory_compressor.py:204-207 | the stored exchange count stays exact through a version update if and only if no stable exchange lies between the pointer the run started from and the one it overwrites |
| MemoryCompressor.CreateCountExact | app/chat/memory_compressor.py:134-145 | the insert, and the update after an insert conflict, keep the stored exchange count exact |
| MemoryCompressor.CountCanDrift | app/chat/memory_compressor.py:204-207 | a concrete run of two workers ends with a count of 3 for 2 folded exchanges |
| MemoryCompressor.CountNeverLow | app/chat/memory_compressor.py:134-219 | over every run from a row whose count is not too low, the stored exchange count never falls below the number of exchanges folded in |
| MemoryCompressor.LateSettle | app/chat/memory_compressor.py:49-60 | an exchange that settles late leaves a summary exact if and only if its id is above the summary's pointer |
| MemoryCompressor.MergeBatches | app/chat/memory_compressor.py:79-87 | the merge loop folds the batches in order, ends at the last exchange's id and counts all of them |
| MemoryCompressor.BuildWork | app/chat/memory_compressor.py:40-87 | from the two reads to the row to be written, or nothing when no exchange left the window |
| MemoryCompressor.MemoryTable.Insert | alembic/versions/0002_unique_memory_summary.py:40-50 | the unique index lets an insert through only when no row exists, and otherwise leaves the row alone |
| MemoryCompressor.MemoryTable.CompareAndSet | app/chat/memory_compressor.py:194-211 | the row changes only if its version is the expected one, which it raises by one |
| Judger.JudgeEntriesMulti | jev_service/judger.py:422-446 | for every batch and chunk size request i gets the answers to its own questions, each as judged alone |
| Judger.JudgeIsRight | jev_service/judger.py:408-514 | every question gets what is read off its own row: own prompt, kind and keys, a choice's keys being its first 26 option names in order, a score's its first 26 distinct levels in order of first occurrence, a noul's none; an empty choice or score a fixed answer; a falsy or unsupported item none; and nothing else is answered |
| Judger.RowIsRight | jev_service/judger.py:472-510 | which questions are scored, and by what row |
| Judger.JudgeBatch | jev_service/judger.py:408-420 | one request's questions scored together get those answers |
| Judger.QuestionAlone | jev_service/judger.py:408-420 | an answer does not depend on which other questions share the request |
| Judger.MergedIsVerdicts | jev_service/judger.py:416-420 | rejected questions' fixed answers and scored rows together answer every question that has an answer, and no other |
| Judger.SliceOfFlat | jev_service/judger.py:436-445 | the moving cursor delimits request i's rows in the flat list |
| Judger.SliceScored | jev_service/judger.py:440-442 | the results at those positions are the scores of those rows |
| Judger.ScoreFlat | jev_service/judger.py:516-553 | chunked scoring yields one result per row, in order, each the row's own |
| Judger.BuildEntries | jev_service/judger.py:448-514 | the rows are those of the scoreable questions, in order, and the immediate answers those of the empty choices and scores, no others |
| Judger.MergeAnswers | jev_service/judger.py:438-443 | zipping rows with their results completes the immediate answers to the request's full answer |
| MicroBatcher.Reachable | jev_service/batching.py:52-89 | over every interleaving of submits, timeouts, cancellations and failures: submitted jobs are the finished batches, the held batch and the queue in FIFO order, batches hold 1 to max_batch jobs, and unfinished jobs have no result |
| MicroBatcher.ServerJudgesEachRequest | jev_service/batching.py:52-89 | end to end with the production callback: a waiter of a finished batch that was not cancelled is resolved with the answers to its own request if its batch returned, and fails with the very error its batch raised otherwise; every other waiter is pending or cancelled |
| MicroBatcher.WaiterIsJudged | jev_service/batching.py:75-89 | the same for one waiter and the moment its batch comes back, however the run goes on |
| MicroBatcher.WaiterGetsOutcome | jev_service/batching.py:77-89 | for any callback, in every run: the k-th waiter of a batch ends with the k-th value, with the k-th exception object as its error, with the exception of the whole batch, or still pending if the list is too short, unless it is cancelled |
| MicroBatcher.FinishDelivers | jev_service/batching.py:77-89 | the same at the step at which the callback comes back |
| MicroBatcher.CancelledIff | jev_service/batching.py:81-85 | a future is cancelled if and only if its waiter went away while it was pending |
| MicroBatcher.BatchingIsTransparent | jev_service/batching.py:75-89 | for any callback whose plain values are each job's own, among exception objects and in lists of any length: every future resolved with a value holds its own submitter's |
| MicroBatcher.FinishedAreServed | jev_service/batching.py:75-89 | if every callback that returns gives an item per job, no waiter of a finished batch, failed or successful, stays pending |
| MicroBatcher.RunJudger | jev_service/judger.py:422-446 | the production callback gives, position by position, each request's own answers |
| MicroBatcher.HandOutEffect | jev_service/batching.py:84-89 | handing out touches exactly the futures of that batch, each with the item at its own position |
| MicroBatcher.ShortResults | jev_service/batching.py:84 | a callback with too few results leaves a waiter pending if and only if a job past the last result was still waited for |
| MicroBatcher.StepKeepsInv | jev_service/batching.py:52-89 | every step keeps FIFO order, batch sizes and the absence of early results |
| MicroBatcher.FinishAnswers | jev_service/batching.py:77-89 | finishing a batch, whether failed, short or mixed with exceptions, gives no waiter another one's value |
| MicroBatcher.FinishServes | jev_service/batching.py:77-89 | a failed batch, or one with an item per job, leaves none of its waiters pending |
| MicroBatcher.SetResults | jev_service/batching.py:84-89 | the loop delivers to futures not yet done, in order, and skips the rest |
| MicroBatcher.MicroBatcher.constructor | jev_service/batching.py:27-39 | a new scheduler is idle and its batch limit at least one |
| MicroBatcher.MicroBatcher.Submit | jev_service/batching.py:52-57 | the job joins the end of the queue with a fresh pending future, and nothing else changes |
| MicroBatcher.MicroBatcher.TakeFirst | jev_service/batching.py:61-62 | a batch starts with the oldest queued job |
| MicroBatcher.MicroBatcher.TakeNext | jev_service/batching.py:64-72 | a further job is taken only below max_batch, oldest first |
| MicroBatcher.MicroBatcher.BeginDispatch | jev_service/batching.py:75-78 | the batch's size is recorded and its jobs go to the callback in order |
| MicroBatcher.MicroBatcher.FinishDispatch | jev_service/batching.py:79-89 | results, or the broadcast failure, reach the batch's futures and the worker is free again |
| MicroBatcher.MicroBatcher.Cancel | jev_service/batching.py:81-85 | a cancelled future is done, and nothing else changes |
| CircuitBreaker.NeverLocksOut | app/infra/circuit_breaker.py:98-107 | when every admitted call records and none is in flight, a call is admitted now, or from OPEN once recovery_timeout has passed since the latest failure |
| CircuitBreaker.LockedOutIff | app/infra/circuit_breaker.py:200-205 | with none in flight the breaker is locked out exactly when its half-open episode has admitted its full quota, which takes a dropped call for each missing success |
| CircuitBreaker.LockoutIsForever | app/infra/circuit_breaker.py:190-205 | a locked-out breaker with none in flight never changes again |
| CircuitBreaker.CancelledProbesLockOut | app/infra/circuit_breaker.py:134-159 | in every configuration some run of failures and cancelled probes ends locked out with none in flight |
| CircuitBreaker.ClosedCountsFailures | app/infra/circuit_breaker.py:75-94 | in CLOSED the counter is the number of failures since the last success and stays below the threshold |
| CircuitBreaker.ModeFollowsLog | app/infra/circuit_breaker.py:75-94 | in every run CLOSED opens exactly at the failure that completes a streak, OPEN gives way only to a call admitted once recovery_timeout has passed since the latest failure, HALF_OPEN opens at any failure and closes exactly at the success that completes the episode; nothing else changes the mode |
| CircuitBreaker.AdmissionFollowsLog | app/infra/circuit_breaker.py:190-209 | a call is admitted always in CLOSED, in OPEN once recovery_timeout has passed since the latest failure, in HALF_OPEN while the episode has admitted fewer than success_threshold |
| CircuitBreaker.NothingAdmittedTooEarly | app/infra/circuit_breaker.py:75-94 | from its opening a breaker stays open and admits nothing until recovery_timeout has passed since the latest failure, whatever stale calls record meanwhile |
| CircuitBreaker.OpenWaitsForRecovery | app/infra/circuit_breaker.py:194-209 | from OPEN a call is admitted exactly when recovery_timeout has passed since the latest recorded failure, stale ones included |
| CircuitBreaker.EpisodeIsBounded | app/infra/circuit_breaker.py:196-205 | a half-open episode admits at most success_threshold calls |
| CircuitBreaker.ClosesOnlyAfterSuccesses | app/infra/circuit_breaker.py:78-81 | the step that closes is the threshold-th success of its episode, with no failure in it |
| CircuitBreaker.StepKeepsInv | app/infra/circuit_breaker.py:75-225 | every admission, outcome and dropped call keeps the counters equal to what the log says, with admissions bounded by successes, calls in flight and dropped calls |
| CircuitBreaker.CircuitBreaker.constructor | app/infra/circuit_breaker.py:49-57 | a new breaker is closed with zero counters |
| CircuitBreaker.CircuitBreaker.RecordSuccess | app/infra/circuit_breaker.py:75-83 | OPEN ignores a success, CLOSED clears its failures, HALF_OPEN counts it and closes at the threshold |
| CircuitBreaker.CircuitBreaker.RecordFailure | app/infra/circuit_breaker.py:85-94 | the transition on failure; its time is recorded in every state, and one failure in HALF_OPEN opens again at once |
| CircuitBreaker.CircuitBreaker.ShouldAllow | app/infra/circuit_breaker.py:190-205 | whether a call is admitted, and the probe accounting that goes with it |
| RedisLease.OneInterval | app/infra/redis_lease.py:44-66 | an owner that acquires once holds the key over at most one contiguous stretch of time |
| RedisLease.IntervalsAreDisjoint | app/infra/redis_lease.py:44-66 | once another owner has held the key, the earlier one does not hold it again |
| RedisLease.HoldsIff | app/infra/redis_lease.py:44-66 | an owner holds the key at a moment if and only if an acquire or renewal of its own was answered 1 less than its time to live ago and it has not released since |
| RedisLease.RepliesIff | app/infra/redis_lease.py:44-66 | an acquire is answered 1 if and only if nobody holds the key, a renewal or a release if and only if the caller does |
| RedisLease.HeldByGrant | app/infra/redis_lease.py:44-66 | whoever holds the key does so by such a grant, which sets its deadline |
| RedisLease.HoldsUntilTtl | app/infra/redis_lease.py:44-66 | after an acquire or a renewal answered 1 the owner holds the key until its time to live has passed, unless it releases |
| RedisLease.ExcludesOthers | app/infra/redis_lease.py:44-66 | in that time, after an acquire as after a renewal, nobody else is granted the lock |
| RedisLease.ZeroIsFinal | app/infra/redis_lease.py:229-263 | after a release, or a renewal answered 0, that owner never holds the key again: giving up on a mismatch is sound and stable |
| RedisLease.LostForever | app/infra/redis_lease.py:52-66 | an owner that does not hold the key and does not acquire again never holds it later |
| RedisLease.HolderAcquired | app/infra/redis_lease.py:44-66 | whoever holds the key was granted an acquire before |
| RedisLease.LostVerdictIsSound | app/infra/redis_lease.py:203-226 | a lost verdict from an unreachable Redis rests on ten failed checks in a row within 60 seconds |
| RedisLease.OutageIsNoticed | app/infra/redis_lease.py:203-226 | nineteen failed checks in a row within 60 seconds and later than clock value 0.0 contain a lost verdict, from any earlier state of the counter and after any failures at 0.0, also when the window restarts midway |
| RedisLease.EighteenMayGoUnnoticed | app/infra/redis_lease.py:203-226 | eighteen need not contain one, so nineteen is the exact bound |
| RedisLease.FreshOutageIff | app/infra/redis_lease.py:203-226 | from a fresh counter, failed checks within 60 seconds contain a lost verdict if and only if at least eleven of them come later than clock value 0.0 |
| RedisLease.FreshOutageCount | app/infra/redis_lease.py:205-211 | the counter's exact value after each such check: those at 0.0 and the first one later are not counted |
| RedisLease.CounterIsCounted | app/infra/redis_lease.py:195-211 | the counter counts failed checks at the end of the run that all lie in the current window |
| RedisLease.RedisKey.EvalAcquire | app/infra/redis_lease.py:44-50 | sets the key and replies 1 exactly when it does not exist |
| RedisLease.RedisKey.EvalRelease | app/infra/redis_lease.py:52-58 | deletes the key and replies 1 exactly when the caller owns it |
| RedisLease.RedisKey.EvalRenew | app/infra/redis_lease.py:60-66 | extends the key and replies 1 exactly when the caller owns it |
| RedisLease.RedisLeaseManager.Acquire | app/infra/redis_lease.py:165-180 | grants on the script's reply; a time to live that is not positive sends nothing |
| RedisLease.RedisLeaseManager.IsOwned | app/infra/redis_lease.py:185-227 | a manager that gave up says lost; a reachable Redis decides by its owner and clears the counter; an unreachable one counts, and says lost from ten on |
| RedisLease.RedisLeaseManager.RenewLoop | app/infra/redis_lease.py:248-282 | the renewer gives up exactly when, before any cancellation, it sees a mismatch or five errors in a row |
| RateLimiter.WindowHoldsAtMostLimit | app/infra/rate_limiter.py:27-45 | every half-open window of the given length holds at most limit admissions, over every run, key expiry included |
| RateLimiter.DecidesByFullLog | app/infra/rate_limiter.py:33-44 | a request is let through exactly when the full admission log has fewer than limit entries in its window, and is told how many more are left |
| RateLimiter.SetIsWindowOfLog | app/infra/rate_limiter.py:34-43 | after every request the pruned set agrees with the full log on the window, at each of its instants |
| RateLimiter.SetHoldsNothingOlder | app/infra/rate_limiter.py:33-34 | and holds nothing older than the window |
| RateLimiter.ScriptKeeps | app/infra/rate_limiter.py:33-44 | one call keeps that agreement, and its remaining count is the limit less the admissions in the window less one, or 0 on refusal |
| RateLimiter.RunStep | app/infra/rate_limiter.py:27-45 | the agreement, and the traced expiry, survive every request of a run |
| RateLimiter.CloseAdmissionsAreFew | app/infra/rate_limiter.py:35-38 | admissions less than a window apart, with all those between them, are at most limit |
| RateLimiter.SlidingWindow.Eval | app/infra/rate_limiter.py:27-45 | the script's new state and its two replies, key expiry made explicit |
| PromptBudget.TruncateTextByTokens | jev_service/prompt_budget.py:21-66 | the truncation the lemmas below are about, with both search loops |
| PromptBudget.BudgetKeptIff | jev_service/prompt_budget.py:34-66 | for any tokenizer with no tokens for the empty text a positive budget is kept, except when the last line's fallback is taken and does not fit; and that takes an empty marker |
| PromptBudget.BudgetPromiseIff | jev_service/prompt_budget.py:34-66 | the budget is kept for every tokenizer, split, text and budget if and only if the marker is not empty |
| PromptBudget.EmptyMarkerOverruns | jev_service/prompt_budget.py:66 | a concrete overrun with an empty marker |
| PromptBudget.LongestCandidate | jev_service/prompt_budget.py:41-66 | if fitting is monotone in the length kept, the result is the longest start of the text that fits, or, if the marker leaves more than eight tokens, the longest start and end of the text around it, or the fallback when that is empty |
| PromptBudget.MiddleDecides | jev_service/prompt_budget.py:44-65 | without monotonicity too the search ends at or above the middle if that fits, and below it if not |
| PromptBudget.SearchFindsLargest | jev_service/prompt_budget.py:44-53 | under monotone fitting the binary search returns the largest fitting length, or that none fits |
| PromptBudget.SearchSound | jev_service/prompt_budget.py:55-65 | whatever the fitting, the length found was seen to fit |
| PromptBudget.SearchReachesZero | jev_service/prompt_budget.py:55-65 | if keeping nothing fits, the search finds some length, also without monotonicity |
| PromptBudget.TruncateHead | jev_service/prompt_budget.py:43-53 | the head-only loop returns the candidate of the search |
| PromptBudget.TruncateEnds | jev_service/prompt_budget.py:55-65 | the both-ends loop returns the candidate of the search, with head and tail never overlapping |
| PromptBudget.FitStateToBudget | jev_service/prompt_budget.py:69-95 | on every input on which the loop ends, for any floor and shrinking step: the empty state for a limit that is not positive, the state itself if its prompt fits, else the cut at the first budget that fits or is the floor |
| PromptBudget.FirstCutWins | jev_service/prompt_budget.py:89-94 | if the cut to what the limit leaves beside the prompt's own cost (at least the floor) fits, it is the result |
| PromptBudget.AllRoomIsUsed | jev_service/prompt_budget.py:89-94 | if a prompt costs exactly K tokens more than its state, the state is cut to a budget of exactly the limit less K |
| PromptBudget.LimitPromiseIff | jev_service/prompt_budget.py:69-95 | for a positive limit, a marker and prompts costing up to K tokens more than their state: every fit returns within the limit if and only if K plus the floor (at least 0) is within it |
| PromptBudget.TightFloorOverruns | jev_service/prompt_budget.py:89-95 | otherwise a tokenizer, prompt and state, one character longer than the floor, do not come within the limit |
| PromptBudget.EndsIff | jev_service/prompt_budget.py:83-95 | for a ratio below one truncated toward zero, the call returns exactly when nothing needs cutting, the floor is not negative or is the first budget, or some cut on the way fits |
| PromptBudget.EndsPromiseIff | jev_service/prompt_budget.py:89-95 | it returns for every tokenizer, prompt and state if and only if the floor is not negative |
| PromptBudget.FitMeetsLimitIff | jev_service/prompt_budget.py:83-95 | what is returned is within the limit exactly when the state, or the cut at some budget down to the floor, is; otherwise it is the cut at the floor |
| PromptBudget.AdditivePromptFits | jev_service/prompt_budget.py:89-95 | if a prompt costs at most K tokens more than its state and K plus the floor (at least 0) is within the limit, the call returns within the limit |
| PromptBudget.TriedFalls | jev_service/prompt_budget.py:90-95 | the budget falls by at least one per round until it reaches the floor, or zero if that is higher |
| SnowflakeId.IdsIncrease | app/infra/id_generator.py:43-60 | one generator's ids strictly increase over every run of clock readings, rollbacks and waits included |
| SnowflakeId.RunsNeverCollide | app/infra/id_generator.py:55-60 | generators on different nodes never hand out the same id in any of their runs |
| SnowflakeId.NodesNeverCollide | app/infra/id_generator.py:55-60 | different nodes pack different ids, whatever their clocks and sequences |
| SnowflakeId.FieldsRecovered | app/infra/id_generator.py:19-28 | timestamp offset, datacenter, worker and sequence are recovered from the id by division and remainder |
| SnowflakeId.FitsSixtyThreeBits | app/infra/id_generator.py:19-28 | an id is a non-negative 63-bit number exactly while its timestamp offset fits 41 bits |
| SnowflakeId.OrIsSum | app/infra/id_generator.py:55-60 | or-ing a field into a number shifted past it adds it, also for negative offsets |
| SnowflakeId.PackIsSum | app/infra/id_generator.py:55-60 | the fields do not overlap: packing is a weighted sum |
| SnowflakeId.NextIdAdvances | app/infra/id_generator.py:43-60 | an id is above the packing of the clock before the call; a call raises exactly when the clock moved back; a call without an id changes nothing |
| SnowflakeId.NextIdReads | app/infra/id_generator.py:43-69 | a later reading gives sequence 0 at that reading, the same reading the next sequence, the 4097th call of a millisecond sequence 0 at the first later reading, an earlier reading an error; the id packs exactly that |
| SnowflakeId.IdsArePacked | app/infra/id_generator.py:54-60 | every id of a run carries that generator's node and a sequence in range |
| SnowflakeId.SnowflakeIDGenerator.NextIdOn | app/infra/id_generator.py:43-60 | one call on the clock readings it takes: its id, or its error exactly when the clock moved back, and the new state |
| SnowflakeId.SnowflakeIDGenerator.WaitNextMs | app/infra/id_generator.py:65-69 | the wait loop returns the first reading past the last timestamp |
| SnowflakeId.SnowflakeIDGenerator.Create | app/infra/id_generator.py:30-36 | a generator is made exactly for worker and datacenter ids in range |
| SnowflakeId.SnowflakeIDGenerator.constructor | app/infra/id_generator.py:37-40 | it starts before any timestamp with sequence 0 |
| ResponseCache.ContentIsReference | app/chat/response_cache.py:115-190 | over every run whose stores meet that condition, each with its own time to live, the cache holds under a key exactly what the event log says: the latest store, unless it expired or a later invalidation hit it |
| ResponseCache.LookupIsReference | app/chat/response_cache.py:87-109 | a lookup hits exactly when its mode is auto or retrieval, there is no history, and the log has such an answer with events for a request of the same tenant, question, mode and documents |
| ResponseCache.HitsAreOwn | app/chat/response_cache.py:44-65 | what the log says is cached was stored, unexpired, for a request of the same tenant (none read as default), question, mode and documents (in any order; a lone empty id read as none), in a cached mode without history |
| ResponseCache.KeysMatchIff | app/chat/response_cache.py:44-59 | two requests have the same key if and only if they agree in those |
| ResponseCache.InvalidationIsComplete | app/chat/response_cache.py:162-181 | after such a run and an invalidation of d no lookup finds an answer that uses d or the whole library |
| ResponseCache.InvalidationIsPrecise | app/chat/response_cache.py:162-181 | and every lookup for other documents finds what it found before |
| ResponseCache.DropIsExact | app/chat/response_cache.py:162-177 | an invalidation deletes, of the live entries, exactly the ones that use d or are global |
| ResponseCache.StoreKeepsCompleteIff | app/chat/response_cache.py:130-181 | after a store every later invalidation up to the next store finds every live entry that uses its document or is global, if and only if no live entry listed with the new one outlives it and a lone empty document id finds its key listed long enough |
| ResponseCache.AlignedIffComplete | app/chat/response_cache.py:162-177 | every later invalidation finds all it should if and only if each live entry is listed where it belongs with no listing expiring first |
| ResponseCache.AlignedIffFindsAll | app/chat/response_cache.py:166-174 | the same for each single index set, whatever the documents are called |
| ResponseCache.StoreKeepsAlignedIff | app/chat/response_cache.py:130-146 | storing keeps every live entry listed under its documents, with no listing expiring first, exactly under the condition above |
| ResponseCache.BlankDocumentLosesEntries | app/chat/response_cache.py:57-146 | a store for a lone empty document id renews a global answer without its listing, so a later invalidation misses it |
| ResponseCache.SteadyIsOrderly | app/chat/response_cache.py:132-146 | stores whose deadlines never go back and that have no lone empty document id meet that condition at every step of every run |
| ResponseCache.OneTtlIsSteady | app/chat/response_cache.py:132 | with one time to live the deadlines never go back |
| ResponseCache.ShorterTtlLosesEntries | app/chat/response_cache.py:140-142 | a later store with a shorter time to live can hide an older entry from invalidation |
| ResponseCache.PutIndex | app/chat/response_cache.py:136-146 | a store touches exactly the index sets of its non-empty document ids, or the global one when it has no ids |
| ResponseCache.RunInv | app/chat/response_cache.py:115-190 | over any such run of stores, expiries and invalidations every live entry is listed where it belongs and nothing is listed elsewhere |
| ResponseCache.ResponseCache.Lookup | app/chat/response_cache.py:96-109 | the hit or miss on the current content |
| ResponseCache.ResponseCache.Store | app/chat/response_cache.py:126-146 | the entry and its listings after a store; nothing for uncacheable answers |
| ResponseCache.ResponseCache.InvalidateCache | app/chat/response_cache.py:160-191 | the content after an invalidation, and how many keys it deletes: the listed ones for a document, every unexpired entry and index set for a full clear |

## Left out

- HTTP routes, middleware, authentication, event streaming, the front end, ingestion and table definitions: no deep property.
- LLM, embedding, search, graph, object-store and database clients, document parsing and tensor scoring: foreign code, abstract where a model needs it.
- Prompt rendering, question and tenant normalization, text clipping, grounding checks by regular expression: parameters or already applied.
- `rebuild_summary`: deletes the summary row; runs that race with it are not modelled.
- The rule-based fallback merge and the long-term summary text: a summary is the list of batches merged into it, and whether its text is blank is a free input.
- An unreadable stored summary, kept as raw text by the compressor: covered only as one more way of merging.
- ParallelExecutor.TopologicalLayers: requires distinct sub-plan ids, and does not state the order of the plans inside a layer, which run in parallel.
- Execution of the layers and the token totals merged from workers: workers copy their parent's counters, so no conservation law holds.
- Latency fields and the order of the answers in a judged request's dictionary.
- `MicroBatcher.close()` in the middle of collecting: a live worker is modelled.
- The breaker's metrics, its fallback function and its `start_time`; its lock makes each method one step.
- RedisLease.RedisLeaseManager.RenewLoop: giving up after five errors is not claimed to mean that the lock is really gone, since those errors say nothing about the key.
- The breaker around the lease's Redis calls, the timing of renewals, the listing of active conversations.
- The limiter's branch without a Redis client and how a client is identified: outside the window algorithm.
- Floating-point products: the head part of a cut is any number up to its length, a shrunk budget any number that truncation toward zero of a smaller product can give.
- PromptBudget.FitStateToBudget: requires that the source's loop ends, since a call that never returns has no result; when it ends is the subject of `PromptBudget.EndsIff`.
- SnowflakeId.SnowflakeIDGenerator.NextIdOn: the sequence mask is a remainder by 4096, and a call that is still waiting for the clock holds the lock and has no observable state.
- Races between the separate Redis commands inside one store or one invalidation: the index property does not hold there.
- ResponseCache.InvalidationIsComplete: is stated for runs whose stores all meet the condition of `ResponseCache.StoreKeepsCompleteIff`, because a store that does not meet it breaks it.
- ResponseCache.AlignedIffComplete: leaves out documents named `__all__`, the name of the global index set; `ResponseCache.AlignedIffFindsAll` does not.
- Cache keys that clash because document ids contain commas or bars, and hash collisions.
- `has_history` as a query: a free input, so nothing is claimed about which turns find a cached answer.
- The conversation state machine: outside strict mode it performs invalid transitions after a warning, so little can be stated.
