# Request scheduler and account store of a search-service relay

This project models, in Dafny, the core of a relay that serves questions to a
web search-and-answer service through a pool of logged-in browser accounts.

- **Account store** (`Cookies.CookieManager`). It holds accounts keyed by name,
  in insertion order. Each account carries the cookies exported from a browser.
  Exported cookies are converted to a name→value map that keeps only the
  service's two domains. An account is refused without its session cookie.
- **Scheduler** (`Queue.QueueManager`). It keeps four priority queues (LOW,
  NORMAL, HIGH, URGENT) and a result record per request id. Each account has a
  concurrency limit (a slot counter standing for the semaphore) and a last-use
  time. The scheduler also keeps an active-request set, counters, and
  "human-like" pacing settings.
  - The dispatch loop serves the highest class that is non-empty when it
    looks, and NORMAL when all are empty. It sleeps a randomised delay, and
    now and then takes a burst.
  - Each request waits up to 60 one-second tries for the least recently used
    eligible account. It then runs the search, and records the outcome as
    completed or failed.
- **Pure pieces.** Parsing a priority name; minting request ids
  `req_<seconds>_<counter>`; the pacing delay (`HumanDelay`); the account
  selector (`AccountSelection`); and the one-hour retention sweep applied when
  stored results are loaded (`ResultStore`).
- **HTTP helpers** (`ApiUtils`). They pull the answer text out of a search
  response and shape success and error bodies.
- **Queue endpoints** (`QueueEndpoints`). They poll a result (optionally
  deleting a finished one), delete a result, and cancel the active requests.

Time is an integer number of seconds and is passed in as a parameter, as are
the random draws. The search client is a function value. Each modelled
operation is one atomic step, although the code yields inside several of
them: the results-file write in `submit_request` and at the start of
`_process_request`, the search client's calls and the account-store write
while a request is served, the one-second sleeps of the wait for an account,
the one-second wait of an idle dispatch loop, and the short sleeps and the
final wait of a burst. "## Left out" says, operation by operation, what that
leaves out.

`Scenarios` holds small end-to-end runs that are checked statically: URGENT is served before LOW, the burst branch as written, one
request served to a completed record, an account deleted while it serves a
request, and deleting a result twice.

Two behaviours of the burst branch look unintended and are kept as the code
has them:

- The burst takes its extra requests from the same queue as the request
  that triggered it.
- The request that triggered a burst is popped and never dispatched.

## Model

| member | source | states |
|---|---|---|
| Priorities.PriorityFromString | lib/queue_manager.py:478-486 | a case-insensitive name gives LOW, HIGH or URGENT exactly when its lower-case form is that name; every other string gives NORMAL |
| Priorities.PriorityNameRoundTrip | lib/queue_manager.py:31-35 | every class's upper-case enum name parses back to that class |
| Priorities.PriorityIgnoresCase | api/queue_endpoints.py:52-60 | parsing a string and parsing its lower-cased form give the same class |
| Priorities.LowerIdempotent | lib/queue_manager.py:486 | lower-casing twice is lower-casing once |
| Priorities.LowerMeaning | lib/queue_manager.py:486 | lower-casing keeps the length and maps each character on its own, A-Z to a-z and every other character to itself |
| Priorities.EveryPriorityListed | lib/queue_manager.py:31-35 | the list of classes the status report enumerates contains every class |
| RequestIds.RequestIdCounter | lib/queue_manager.py:385-386 | the counter can be read back from the digits after the last underscore of an id |
| RequestIds.RequestIdsDistinct | lib/queue_manager.py:385-386 | ids minted from different counter values differ, whatever their seconds parts |
| RequestIds.DecimalRoundTrip | lib/queue_manager.py:385 | parsing the decimal rendering of a natural number gives that number back |
| ResultStore.OutcomeRecord | lib/queue_manager.py:129-137 | the stored record is completed exactly when there is no error and failed exactly when there is one; it carries the result, the error and the time |
| ResultStore.QueuedRecord | lib/queue_manager.py:395-403 | a submitted request's record is queued, has no result and no error, and carries its priority, account and time |
| ResultStore.SweepKeepsExactlyFresh | lib/queue_manager.py:99-115 | loading keeps exactly the records newer than one hour ago; a record without a timestamp is dropped |
| ResultStore.SweepIdempotent | lib/queue_manager.py:106-111 | sweeping twice at the same time removes nothing more |
| ResultStore.SweepLaterSubsumes | lib/queue_manager.py:106-111 | a sweep at a later time after one at an earlier time is the later sweep alone |
| ResultStore.SweepScenario | lib/queue_manager.py:106-111 | a record two hours old is dropped and one ten minutes old is kept |
| HumanDelay.Delay | lib/queue_manager.py:171-195 | the delay is undefined (the division raises) exactly on a weekend with a zero weekend factor |
| HumanDelay.DelayIsBaseTimesMultiplier | lib/queue_manager.py:178-195 | with a non-zero weekend factor the delay is the uniform base draw times the product of the active multipliers |
| HumanDelay.DelayEnvelope | lib/queue_manager.py:171-195 | when 0 < min_delay <= max_delay and the weekend factor is in (0, 1], the delay is between min_delay and max_delay times the multiplier, never below min_delay; the multiplier is between 1 and 10 / weekend_factor |
| HumanDelay.DelayBetweenScaledBounds | lib/queue_manager.py:171-195 | for any positive weekend factor and bounds in either order, the multiplier is positive and the delay lies between min_delay and max_delay, each times the multiplier |
| HumanDelay.InvertedBoundsUndercutMinimum | lib/queue_manager.py:50-51 | with min_delay 60 and max_delay 10, which nothing rejects, a weekday delay at noon can be 10, below min_delay |
| HumanDelay.MultiplierBounds | lib/queue_manager.py:184-193 | the multiplier is at least 1 and at most 2 × 5 / weekend_factor |
| HumanDelay.OffPeakDoubles | lib/queue_manager.py:187-188 | an hour outside the peak window gives exactly twice the delay of an hour inside it |
| HumanDelay.WeekendDivides | lib/queue_manager.py:184-185 | a weekend delay times weekend_factor is the weekday delay |
| HumanDelay.IdleMultiplies | lib/queue_manager.py:191-193 | an idle coin below idle_probability multiplies the delay by the idle factor |
| AccountSelection.WithSlotsMeaning | lib/queue_manager.py:210-213 | after the walk every known account has a slot counter; existing counters are unchanged and new ones start at zero |
| AccountSelection.AvailableMeaning | lib/queue_manager.py:210-221 | an account is a candidate exactly when it is in the store and is eligible: a free slot, and never used or used more than min_delay seconds ago |
| AccountSelection.LeastRecentIndexIsFirstMinimum | lib/queue_manager.py:223-225 | the chosen candidate is the first one with the least last-use time (never used counts as least), as `min` with a key picks |
| AccountSelection.ChooseSound | lib/queue_manager.py:205-227 | a chosen account is a stored, eligible account, and no eligible account was used strictly earlier |
| AccountSelection.ChooseNoneIff | lib/queue_manager.py:224-227 | no account is returned exactly when no stored account is eligible |
| AccountSelection.ChosenIsEligible | lib/queue_manager.py:217-221 | a chosen account is in the store and has a free slot |
| AccountSelection.ChooseIgnoresLazySlots | lib/queue_manager.py:212-213 | creating the missing slot counters does not change which account is chosen |
| AccountSelection.AskAgain | lib/queue_manager.py:250-256 | asking again after an earlier try's slot creation chooses as the first try did |
| AccountSelection.FullAccountPassedOver | lib/queue_manager.py:217-221 | an account with every slot in use is passed over for an idle one |
| Queue.NextPriority | lib/queue_manager.py:197-203 | the class served is non-empty and no higher-valued class has anything queued; NORMAL when all are empty |
| Queue.NothingPickedMeans | lib/queue_manager.py:250-256 | running out of tries means that none of the one-second tries found an account |
| Queue.PickedEndsWait | lib/queue_manager.py:250-256 | a successful try inside the window means the wait did not run out |
| Queue.MarkProcessing | lib/queue_manager.py:242-244 | only a stored id's record becomes processing; no other record changes |
| Queue.MarkProcessingKeepsTerminal | lib/queue_manager.py:242-244 | for a request whose record is pending or absent, no completed or failed record becomes pending |
| Queue.MarkProcessingReopens | lib/queue_manager.py:242-244 | the update does not check the status, so on a completed record it shows that record as processing again |
| Queue.StoreKeepsTerminal | lib/queue_manager.py:129-137 | storing an outcome record leaves every completed or failed record completed or failed |
| Queue.Served | lib/queue_manager.py:272-304 | the outcome has no error exactly when the search, run with the given cookies, returned; then the stored result is what it returned, and otherwise the result is null and the error is the message it raised |
| Queue.Counted | lib/queue_manager.py:298-309 | a finished request bumps exactly one of the completed and failed counters: completed exactly when there is no error |
| Queue.QueueManager.constructor | lib/queue_manager.py:60-115 | empty queues, slots, last-use map and counters; default settings unless given; the loaded results are the retention sweep of the stored file |
| Queue.QueueManager.StoreResult | lib/queue_manager.py:129-137 | only `id`'s record changes, to completed without an error and failed with one |
| Queue.QueueManager.GetResult | lib/queue_manager.py:139-141 | the stored record, or none exactly when the id is not stored |
| Queue.QueueManager.DeleteResult | lib/queue_manager.py:143-149 | true exactly when the id was present; afterwards it is absent and nothing else changed |
| Queue.QueueManager.Start | lib/queue_manager.py:151-158 | the manager is running afterwards, also when it already was |
| Queue.QueueManager.Stop | lib/queue_manager.py:160-169 | the manager is not running afterwards |
| Queue.QueueManager.UpdateBehaviorSettings | lib/queue_manager.py:462-465 | the pacing settings are replaced |
| Queue.QueueManager.SubmitRequest | lib/queue_manager.py:378-419 | the new id comes from the clock and the counter; the counter goes up by one; there is a queued record; the request goes at the back of exactly its class's queue; the total and the hour bucket go up by one |
| Queue.QueueManager.GetAvailableAccount | lib/queue_manager.py:205-227 | the loop creates the missing slot counters and returns the selector's choice on the state before the call |
| Queue.QueueManager.WaitForAccount | lib/queue_manager.py:248-256 | at most 60 tries; every try before the last one found nothing; an account is returned on the first try that finds one; without one all 60 tries were used |
| Queue.QueueManager.TakeSlot | lib/queue_manager.py:262-268 | one slot of the account is taken, staying within the limit, and its last use is stamped |
| Queue.QueueManager.FailRequest | lib/queue_manager.py:300-314 | a failed record, one more failure counted, the id dropped from the active set |
| Queue.QueueManager.Seize | lib/queue_manager.py:262-271 | one slot of a listed account is taken and its last use stamped, and the returned cookies are the ones the store holds for it |
| Queue.QueueManager.AcquireAccount | lib/queue_manager.py:238-271 | the record is marked processing; no account exactly when all 60 tries found nothing; otherwise the account chosen at the successful try, one of its slots taken, its last use stamped and its stored cookies returned |
| Queue.QueueManager.CompleteRequest | lib/queue_manager.py:272-314 | the record and counters follow the outcome of the search run with the cookies read in the first phase, so deleting or updating the account meanwhile does not change it; the slot is released; the id leaves the active set; a successful search stamps the account's last use in the store when it is still there |
| Queue.QueueManager.ProcessRequest | lib/queue_manager.py:238-314 | the whole request. It fails with "No available accounts after waiting" exactly when no try found an account, and then neither last-use map changes. Otherwise the serving account is the selector's choice at the successful try and its last use is stamped then; the record follows the served outcome, and a successful search stamps the account in the store; one counter bumped; slots back to their level before the request; the id no longer active; the request's record ends completed or failed, and no finished record is shown as pending again |
| Queue.QueueManager.PopHead | lib/queue_manager.py:326 | the head of the class's queue is removed and returned |
| Queue.QueueManager.TakeBurst | lib/queue_manager.py:340-350 | up to `count` more requests are popped in order from the same queue, stopping when it runs empty, and each is marked active |
| Queue.QueueManager.DispatchStep | lib/queue_manager.py:316-369 | idle exactly when every queue is empty; otherwise the head of the best class is popped, then: lost on a delay or `randint` exception; one request dispatched; or a burst of `min(count, rest)` from the same queue with the trigger dropped and the delay doubled |
| Queue.QueueManager.GetQueueStatus | lib/queue_manager.py:451-460 | running flag, per-class queue sizes, number of active requests, free slots out of the limit per account, and the counters |
| Queue.QueueManager.ClearActiveRequests | api/queue_endpoints.py:303 | the active set is empty |
| Cookies.ConvertedErrIff | perplexity-web-wrapper/lib/cookie_manager.py:38-44 | conversion raises exactly when some cookie of the service's domains lacks its name or value |
| Cookies.ConvertedLastWins | perplexity-web-wrapper/lib/cookie_manager.py:38-44 | a successful conversion holds exactly the names of the kept cookies, each mapped to the value of the last kept cookie with that name |
| Cookies.ConvertedErrPersists | perplexity-web-wrapper/lib/cookie_manager.py:40-43 | once a prefix raises, the whole conversion raises the same error |
| Cookies.Without | perplexity-web-wrapper/lib/cookie_manager.py:117-123 | removing a key from the name order keeps every other name, and no name appears twice |
| Cookies.WithoutKeepsOrder | perplexity-web-wrapper/lib/cookie_manager.py:117-123 | deleting a name keeps the order of the others: one remaining name comes before another after the deletion exactly when it did before |
| Cookies.WithoutAbsent | perplexity-web-wrapper/lib/cookie_manager.py:117-123 | removing an absent name leaves the order as it is |
| Cookies.CookieManager.constructor | perplexity-web-wrapper/lib/cookie_manager.py:11-15 | an empty store |
| Cookies.CookieManager.ConvertChromeCookies | perplexity-web-wrapper/lib/cookie_manager.py:38-44 | the loop gives the conversion fold's result; it raises exactly when a kept cookie is broken |
| Cookies.CookieManager.AddAccount | perplexity-web-wrapper/lib/cookie_manager.py:46-72 | an existing name, a conversion error or a missing session cookie each raise and change nothing; otherwise an active account under the display name (or the account name), appended to the order |
| Cookies.CookieManager.UpdateAccount | perplexity-web-wrapper/lib/cookie_manager.py:74-95 | an unknown name, a conversion error or a missing session cookie each raise; otherwise new cookies, active, validated now, with name and creation time kept |
| Cookies.CookieManager.GetAccountCookies | perplexity-web-wrapper/lib/cookie_manager.py:97-102 | raises "not found" exactly for an unknown name; otherwise returns the stored cookies |
| Cookies.CookieManager.GetAllAccounts | perplexity-web-wrapper/lib/cookie_manager.py:104-115 | exactly one summary per stored account, everything except the cookies |
| Cookies.CookieManager.DeleteAccount | perplexity-web-wrapper/lib/cookie_manager.py:117-123 | true exactly when the name was present; only that entry goes |
| Cookies.CookieManager.MarkAccountUsed | perplexity-web-wrapper/lib/cookie_manager.py:125-129 | a known account's last use is stamped; an unknown name changes nothing |
| Cookies.CookieManager.MarkAccountValidated | perplexity-web-wrapper/lib/cookie_manager.py:131-136 | a known account becomes valid or invalid with a validation time; an unknown name changes nothing |
| ApiUtils.BlockVerdict | api/utils.py:26-62 | a block is skipped, answers, stops with no answer, or raises, each under exactly the conditions the loop body tests |
| ApiUtils.ScanStopsAtFirst | api/utils.py:25-64 | the loop's outcome is the verdict of the first block that is not skipped, or no answer when all are skipped |
| ApiUtils.ScanIgnoresLaterBlocks | api/utils.py:25-62 | blocks after the deciding one do not affect the result |
| ApiUtils.ExtractAnswer | api/utils.py:17-64 | the backend id is always echoed; a non-list `blocks` gives no answer; otherwise progress and answer come from the deciding block, and an exception exactly when that block raises |
| ApiUtils.DoneBlockAnswers | api/utils.py:49-56 | a response whose one block is a finished answer block yields that answer with progress DONE |
| ApiUtils.FirstNonString | api/utils.py:42 | the reported index is the first chunk that is not a string |
| ApiUtils.ResponseBody | api/utils.py:81-84 | a dict is kept with its keys, anything else goes under "data"; account_used is added exactly when it is truthy |
| ApiUtils.CreateApiResponse | api/utils.py:76-86 | the response carries the body and status code, and a dict argument is annotated in place so the caller sees account_used |
| ApiUtils.HandleApiError | api/utils.py:88-93 | status 500 with exactly the error text and account_used, which is null exactly when no account is given |
| QueueEndpoints.PollResponse | api/queue_endpoints.py:206-234 | not found gives the fixed message; otherwise status and timestamp, plus the result exactly when completed, the error exactly when failed, a message exactly when pending, and "deleted" exactly when deletion was asked for a finished request |
| QueueEndpoints.GetRequestResult | api/queue_endpoints.py:190-234 | the shaped response; the record is deleted exactly when asked and the request has finished |
| QueueEndpoints.DeleteResponse | api/queue_endpoints.py:245-249 | "success" exactly when something was deleted, otherwise "not_found" |
| QueueEndpoints.DeleteRequestResult | api/queue_endpoints.py:237-249 | the record is gone afterwards, and the response says whether it was there |
| QueueEndpoints.CancelActiveRequests | api/queue_endpoints.py:295-308 | the active set ends empty, with the fixed success message |

## Left out

- Concurrency: `asyncio` tasks, `gather`, the dispatch loop's task, `wait_for` timeouts, sleeps and the cancellation of tasks on stop or cancel are not modelled. Each modelled operation is one atomic step, although the code yields inside several of them; the lines below that start with `Queue.QueueManager.SubmitRequest`, `AcquireAccount`, `CompleteRequest`, `WaitForAccount`, `TakeBurst` and `DispatchStep` say what each one leaves out. A request's processing runs either in two phases (`AcquireAccount`, `CompleteRequest`) or in one (`ProcessRequest`).
- Randomness and the clock are parameters, floating point is `real`, and ISO timestamps are integer seconds, so comparing timestamp strings is comparing numbers.
- Persistence is not modelled: writing the results file, loading and saving the accounts file, and the storage path. Loading results is modelled as an optional already-parsed map given to the constructor.
- `submit_request_with_result` is not modelled. Its loop waits for `request_id in self.stats`, which never holds, so it never reaches its `return None`: it polls forever, or raises `asyncio.TimeoutError` once a given timeout has passed.
- The `threading.Lock()` built fresh around the hourly counter is not modelled, because it excludes nothing. The hour bucket is modelled as `seconds / 3600` in place of the formatted hour string.
- A request's callback and future are not modelled, because `submit_request` never sets them.
- The `active_requests` dictionary of tasks is modelled as the set of its keys. The done-callback that removes a finished task is the removal at the end of `CompleteRequest`.
- The search client (`lib/perplexity.py`) is modelled as a function value that returns a result or the message of an exception. lib/perplexity.py is not part of this model.
- The other endpoints of api/queue_endpoints.py are not modelled: submit, status, reading and updating the behaviour settings (lines 74-127), listing, health, stop and start. They only call the modelled operations and reshape their results. Two of them would raise: the request-status handler at line 180 applies `in` to the active-request count, and the health handler at line 319 calls `len` on it.
- Logging and diagnostic printing are not modelled, including the `file_name` argument of `extract_answer` and `save_resp`.
- HumanDelay.DelayEnvelope: needs min_delay <= max_delay, which neither the settings dataclass (lib/queue_manager.py:50-51) nor the settings endpoint (api/queue_endpoints.py:20-21) enforces. With inverted bounds the delay still lies between the scaled bounds (`HumanDelay.DelayBetweenScaledBounds`), but it can fall below min_delay (`HumanDelay.InvertedBoundsUndercutMinimum`), so "never below min_delay" holds only for ordered bounds.
- Priorities.LowerMeaning: states ASCII lower-casing only (A-Z to a-z). Python's `str.lower` also folds letters of other alphabets, which the model leaves unchanged, and can even change the length (capital dotted I becomes two characters).
- ApiUtils.CreateApiResponse: requires that a plain value is not a dict, because a dict is passed by reference (`DictContent`) so that the in-place annotation can be expressed.
- Queue.QueueManager.WaitForAccount: the 60 tries and their one-second sleeps run as one step, so every try reads the slot and last-use state from the start of the wait. A slot that another request frees during that minute is never seen, so a request that finds only busy accounts at the start always fails with "No available accounts after waiting". What the tries do see is proved: each one is the selector's choice at its own second, over that start-of-wait state.
- Queue.QueueManager.AcquireAccount: calls WaitForAccount, so its "no account" outcome is decided on the slot and last-use state frozen at the start of the wait, not on the state at each try.
- Queue.QueueManager.AcquireAccount: the write of the results file after the status update (lib/queue_manager.py:244) is a yield in the code and none in the model.
- Queue.QueueManager.AcquireAccount: takes any request, not only one just popped, so on a completed or failed record it shows that record as processing again (`Queue.MarkProcessingReopens`). The code passes only popped requests, whose records are queued or already deleted. The model does not carry the link between popping and processing as an invariant; what it proves is that a pending or absent record reopens nothing (`Queue.MarkProcessingKeepsTerminal`), and that a whole `ProcessRequest` reopens nothing whatever the record was.
- Queue.QueueManager.SubmitRequest: the id, the queued record, the enqueue and the counters are one step. The code yields in `await self._save_results()` (lib/queue_manager.py:404) between writing the record and the `put` at :407, so two concurrent submissions to one class can be enqueued in the reverse order of their counters; in the model queue order is always counter order.
- Queue.QueueManager.CompleteRequest: the search and its outcome are one step. The code yields at the client's `init` and `search`, at `mark_account_used` and in `store_result` (lib/queue_manager.py:273-288), so another operation can change the store or the records between them.
- Queue.QueueManager.CompleteRequest: `save_accounts` catches nothing (perplexity-web-wrapper/lib/cookie_manager.py:29-35), so a write error in `mark_account_used` (lib/queue_manager.py:281) turns a successful search into a failed record. Writing files is not modelled, so in the model a returned search always completes.
- Queue.QueueManager.ProcessRequest: calls AcquireAccount, so a request that finds only busy accounts at the start of its wait always ends failed with "No available accounts after waiting", even if a slot is freed during the minute.
- The `average_wait_time` counter is kept as `Stats.averageWaitTime`. It is 0.0 at start and no operation changes it, as in the code.
- Queue.QueueManager.TakeBurst: the burst's pops run as one step. The code yields between them at the 0.5-second sleep (lib/queue_manager.py:353), and re-checks `queue.empty()` each time, so a request submitted during a gap can join the burst; the model takes only the requests queued when the burst starts.
- Queue.QueueManager.DispatchStep: when every queue is empty, the code waits up to one second on the NORMAL queue only (lib/queue_manager.py:203, :326). If an URGENT request and then a NORMAL one arrive within that second, the NORMAL one is popped first and the URGENT one waits a whole pacing delay. The model's idle step returns at once, so every later step serves the URGENT request first; this priority inversion is not modelled.
- Queue.QueueManager.DispatchStep: the whole burst, including the `await asyncio.gather(...)` that waits for the burst's requests to finish (:357), is one step, and that wait is not modelled: in the code nothing else is dispatched until they finish. The burst branch is kept as written. The request that triggered the burst is dropped, and the burst reads the same queue. `randint(1, burst_size)` and a zero weekend factor both raise after the pop, so the popped request is lost (`Crashed`).
- Queue.QueueManager.GetQueueStatus: the free-slot count is reported as a number, not as the `"<free>/<limit>"` string.
- Queue.QueueManager.Stop: does not model cancelling and awaiting the dispatch task.
- Cookies.CookieManager.constructor: starts from an empty store, because loading the accounts file is not modelled.
- Queue.QueueManager.constructor: does not model the results path or the cookie store it reads.
