/**
 * `QueueManager`: the request scheduler's bookkeeping. Every await is one
 * atomic step; the clock is an integer number of seconds passed in as `now`;
 * the random draws are parameters; the search executor is a function value.
 * Persisting `results` after each change is not modelled.
 */
module Queue {
  import opened Wrappers
  import opened Json
  import opened Priorities
  import opened ResultStore
  import opened HumanDelay
  import opened AccountSelection
  import opened RequestIds
  import Cookies

  /** `QueueRequest`. Its callback and future are always `None`: `submit_request` never sets them. */
  datatype Request = Request(id: string, accountName: string, params: Json, priority: Priority, createdAt: int)

  /**
   * `stats`; `requestsPerHour` is keyed by the hour bucket of the submission
   * time. `averageWaitTime` starts at 0.0 and no operation updates it.
   */
  datatype Stats = Stats(
    totalRequests: nat,
    completedRequests: nat,
    failedRequests: nat,
    averageWaitTime: real,
    requestsPerHour: map<int, nat>)

  /** What the search executor reports: a result, or the message of the exception it raised. */
  datatype SearchOutcome = Found(result: Json) | Raised(message: string)

  /** One iteration of `_process_queue`. */
  datatype StepOutcome =
      /** Every queue was empty: `wait_for(queue.get(), 1.0)` timed out. */
    | Idle
      /** One task spawned for the popped request; then sleep `delay`. */
    | Single(priority: Priority, request: Request, delay: real)
      /**
       * Burst mode: `batch` holds the requests popped inside the burst loop and
       * dispatched; `trigger`, popped before the burst, is never dispatched.
       */
    | Burst(priority: Priority, trigger: Request, batch: seq<Request>, delay: real)
      /** An exception after the pop (delay or `randint`): logged, the request is lost. */
    | Crashed(priority: Priority, lost: Request)

  /** `get_queue_status()['account_semaphores']`: free slots over the limit. */
  datatype SlotReport = SlotReport(free: int, limit: nat)

  datatype QueueStatus = QueueStatus(
    isRunning: bool,
    queueSizes: map<Priority, nat>,
    activeRequests: nat,
    accountSlots: map<string, SlotReport>,
    statistics: Stats)

  /** `max_wait_time`: how many one-second retries `_process_request` makes for an account. */
  const MaxAccountWait: nat := 60
  const NoAccountMessage := "No available accounts after waiting"

  predicate AllQueues(queues: map<Priority, seq<Request>>) {
    forall p: Priority :: p in queues
  }

  /**
   * `_get_next_priority_queue`: the highest-valued class whose queue is
   * non-empty; NORMAL when all four are empty.
   */
  function NextPriority(queues: map<Priority, seq<Request>>): (p: Priority)
    requires AllQueues(queues)
    ensures (exists q: Priority :: queues[q] != []) ==>
      queues[p] != [] && forall q: Priority :: q.Value() > p.Value() ==> queues[q] == []
    ensures (forall q: Priority :: queues[q] == []) ==> p == Normal
  {
    if queues[Urgent] != [] then Urgent
    else if queues[High] != [] then High
    else if queues[Normal] != [] then Normal
    else if queues[Low] != [] then Low
    else NoneQueued(queues); Normal
  }

  /** The four queues are all empty as soon as each one is. */
  lemma NoneQueued(queues: map<Priority, seq<Request>>)
    requires AllQueues(queues)
    requires queues[Low] == [] && queues[Normal] == [] && queues[High] == [] && queues[Urgent] == []
    ensures forall q: Priority :: queues[q] == []
  {
    forall q: Priority
      ensures queues[q] == []
    {
      match q
      case Low =>
      case Normal =>
      case High =>
      case Urgent =>
    }
  }

  /** `if account_name:` — an account named "" is falsy and counts as none found. */
  predicate Picked(o: Option<string>) {
    o.Some? && o.value != ""
  }

  /** None of the `n` once-a-second tries starting at `from` found an account. */
  predicate NothingPicked(v: SlotView, names: seq<string>, from: int, n: nat)
    decreases n
  {
    n == 0 || (NothingPicked(v, names, from, n - 1) && !Picked(Choose(v, names, from + n - 1)))
  }

  /** The tries are the seconds `from .. from + n - 1`, each asked on its own. */
  lemma {:induction false} NothingPickedMeans(v: SlotView, names: seq<string>, from: int, n: nat)
    ensures NothingPicked(v, names, from, n) <==> forall t :: from <= t < from + n ==> !Picked(Choose(v, names, t))
    decreases n
  {
    if n > 0 {
      NothingPickedMeans(v, names, from, n - 1);
    }
  }

  /** One successful try inside the window means the wait did not run out. */
  lemma PickedEndsWait(v: SlotView, names: seq<string>, from: int, n: nat, k: nat)
    requires k < n && Picked(Choose(v, names, from + k))
    ensures !NothingPicked(v, names, from, n)
  {
    NothingPickedMeans(v, names, from, n);
  }

  /** The status update at the top of `_process_request`, made only when the id is present. */
  function MarkProcessing(rs: map<string, Record>, id: string): (rs': map<string, Record>)
    ensures rs'.Keys == rs.Keys
    ensures id in rs ==> rs'[id] == rs[id].(status := Processing)
    ensures forall k :: k in rs && k != id ==> rs'[k] == rs[k]
  {
    if id in rs then rs[id := rs[id].(status := Processing)] else rs
  }

  /** Marking a pending or absent record processing never reopens a finished one. */
  lemma MarkProcessingKeepsTerminal(rs: map<string, Record>, id: string)
    requires id in rs ==> !rs[id].status.IsTerminal()
    ensures KeepsTerminal(rs, MarkProcessing(rs, id))
  {
    forall k | k in rs && k in MarkProcessing(rs, id) && rs[k].status.IsTerminal()
      ensures MarkProcessing(rs, id)[k].status.IsTerminal()
    {
      assert k != id;
    }
  }

  /**
   * The update itself does not look at the status: applied to a completed
   * record it shows that record as processing again.
   */
  lemma MarkProcessingReopens(rs: map<string, Record>, id: string)
    requires id in rs && rs[id].status == Completed
    ensures MarkProcessing(rs, id)[id].status == Processing
    ensures !KeepsTerminal(rs, MarkProcessing(rs, id))
  {
  }

  /** Storing an outcome record, over any record or none, keeps every finished record finished. */
  lemma StoreKeepsTerminal(rs: map<string, Record>, id: string, r: Record)
    requires r.status.IsTerminal()
    ensures KeepsTerminal(rs, rs[id := r])
  {
  }

  /** Releasing a slot undoes taking it. */
  lemma ReleaseUndoesTake(m: map<string, nat>, a: string)
    requires a in m
    ensures m[a := m[a] + 1][a := m[a] + 1 - 1] == m
  {
  }

  /** Storing over a record marked processing is storing over the original. */
  lemma MarkThenStore(rs: map<string, Record>, id: string, r: Record)
    ensures MarkProcessing(rs, id)[id := r] == rs[id := r]
  {
  }

  /**
   * The result and error `_process_request` stores once it holds a slot and
   * has read the account's cookies: the search's result, or the message of
   * the exception the search raised.
   */
  function Served(cookies: map<string, string>, params: Json,
                  search: (Json, map<string, string>) -> SearchOutcome): (o: (Json, Option<string>))
    ensures o.1.None? <==> search(params, cookies).Found?
    ensures o.1.None? ==> o.0 == search(params, cookies).result
    ensures o.1.Some? ==> o.0 == JNull && o.1.value == search(params, cookies).message
  {
    match search(params, cookies)
    case Found(result) => (result, None)
    case Raised(message) => (JNull, Some(message))
  }

  /** The counters after one finished request: completed without an error, failed with one. */
  function Counted(s: Stats, error: Option<string>): (s': Stats)
    ensures s'.totalRequests == s.totalRequests && s'.requestsPerHour == s.requestsPerHour
    ensures s'.completedRequests + s'.failedRequests == s.completedRequests + s.failedRequests + 1
    ensures error.None? <==> s'.completedRequests == s.completedRequests + 1
  {
    if error.None? then s.(completedRequests := s.completedRequests + 1)
    else s.(failedRequests := s.failedRequests + 1)
  }

  function HourBucket(now: int): int {
    now / 3600
  }

  function Bump(counts: map<int, nat>, key: int): (r: map<int, nat>)
    ensures key in r && r[key] == (if key in counts then counts[key] else 0) + 1
    ensures forall k :: k != key ==> (k in r <==> k in counts) && (k in counts ==> r[k] == counts[k])
  {
    counts[key := (if key in counts then counts[key] else 0) + 1]
  }

  function IdsOf(rs: seq<Request>): set<string> {
    set r | r in rs :: r.id
  }

  function Min(a: int, b: int): int {
    if a < b then a else b
  }

  class QueueManager {
    const directory: Cookies.CookieManager
    const maxConcurrent: nat
    var settings: Settings
    var results: map<string, Record>
    var queues: map<Priority, seq<Request>>
    var accountInUse: map<string, nat>
    var accountLastUsed: map<string, int>
    var activeRequests: set<string>
    var requestCounter: nat
    var stats: Stats
    var isRunning: bool

    /** All four classes have a queue, and every queued request sits in its own class's queue. */
    ghost predicate QueuesValid()
      reads this`queues
    {
      && AllQueues(queues)
      && (forall p, i :: p in queues && 0 <= i < |queues[p]| ==> queues[p][i].priority == p)
    }

    /** No account has more slots in use than the limit. */
    ghost predicate SlotsValid()
      reads this`accountInUse
    {
      forall a :: a in accountInUse ==> accountInUse[a] <= maxConcurrent
    }

    ghost predicate Valid()
      reads this`queues, this`accountInUse
    {
      QueuesValid() && SlotsValid()
    }

    /** What the account selector reads. */
    function View(): SlotView
      reads this`accountInUse, this`accountLastUsed, this`settings
    {
      SlotView(accountInUse, accountLastUsed, maxConcurrent, settings.minDelay)
    }

    /**
     * `__init__` followed by `_load_results`: `stored` is the parsed results
     * file, `None` when it is missing or unreadable.
     */
    constructor (directory: Cookies.CookieManager, behavior: Option<Settings>, maxConcurrent: nat,
                 stored: Option<map<string, Record>>, now: int)
      ensures Valid()
      ensures this.directory == directory && this.maxConcurrent == maxConcurrent
      ensures settings == (if behavior.Some? then behavior.value else Defaults)
      ensures results == (if stored.Some? then Sweep(stored.value, now) else map[])
      ensures forall p: Priority :: queues[p] == []
      ensures accountInUse == map[] && accountLastUsed == map[] && activeRequests == {}
      ensures requestCounter == 0 && stats == Stats(0, 0, 0, 0.0, map[]) && !isRunning
    {
      this.directory := directory;
      this.maxConcurrent := maxConcurrent;
      settings := if behavior.Some? then behavior.value else Defaults;
      var empty: map<Priority, seq<Request>> := map[Low := [], Normal := [], High := [], Urgent := []];
      forall p: Priority
        ensures p in empty && empty[p] == []
      {
        match p
        case Low =>
        case Normal =>
        case High =>
        case Urgent =>
      }
      queues := empty;
      accountInUse := map[];
      accountLastUsed := map[];
      activeRequests := {};
      requestCounter := 0;
      stats := Stats(0, 0, 0, 0.0, map[]);
      isRunning := false;
      results := if stored.Some? then Sweep(stored.value, now) else map[];
    }

    /** `store_result`: completed exactly when there is no error; only `id` changes. */
    method StoreResult(id: string, result: Json, error: Option<string>, now: int)
      modifies this`results
      ensures results == old(results)[id := OutcomeRecord(result, error, now)]
      ensures results[id].status == (if error.None? then Completed else Failed)
      ensures forall k :: k != id ==> (k in results <==> k in old(results)) && (k in results ==> results[k] == old(results)[k])
    {
      results := results[id := OutcomeRecord(result, error, now)];
    }

    /** `get_result`: the record, or `None` for an id that is not stored. */
    function GetResult(id: string): (r: Option<Record>)
      reads this
      ensures r.None? <==> id !in results
      ensures r.Some? ==> r.value == results[id]
    {
      if id in results then Some(results[id]) else None
    }

    /** `delete_result`: true exactly when the id was present; afterwards it is absent. */
    method DeleteResult(id: string) returns (deleted: bool)
      modifies this`results
      ensures deleted == (id in old(results))
      ensures results == old(results) - {id}
      ensures id !in results
    {
      deleted := id in results;
      if deleted {
        results := results - {id};
      }
    }

    /** `start` / `stop` as far as the running flag goes. */
    method Start()
      modifies this`isRunning
      ensures isRunning
    {
      isRunning := true;
    }

    method Stop()
      modifies this`isRunning
      ensures !isRunning
    {
      isRunning := false;
    }

    method UpdateBehaviorSettings(s: Settings)
      modifies this`settings
      ensures settings == s
    {
      settings := s;
    }

    /**
     * `submit_request`: a fresh id from the clock and the counter, a queued
     * record, the request at the back of exactly its class's queue.
     */
    method SubmitRequest(accountName: string, params: Json, priority: Priority, now: int) returns (id: string)
      requires Valid()
      modifies this
      ensures Valid()
      ensures id == RequestId(now, old(requestCounter))
      ensures requestCounter == old(requestCounter) + 1
      ensures results == old(results)[id := QueuedRecord(priority, accountName, now)]
      ensures queues == old(queues)[priority := old(queues)[priority] + [Request(id, accountName, params, priority, now)]]
      ensures stats == old(stats).(totalRequests := old(stats).totalRequests + 1,
                                   requestsPerHour := Bump(old(stats).requestsPerHour, HourBucket(now)))
      ensures accountInUse == old(accountInUse) && accountLastUsed == old(accountLastUsed)
      ensures activeRequests == old(activeRequests)
      ensures settings == old(settings) && isRunning == old(isRunning)
    {
      id := RequestId(now, requestCounter);
      requestCounter := requestCounter + 1;
      var request := Request(id, accountName, params, priority, now);
      results := results[id := QueuedRecord(priority, accountName, now)];
      queues := queues[priority := queues[priority] + [request]];
      stats := stats.(totalRequests := stats.totalRequests + 1,
                      requestsPerHour := Bump(stats.requestsPerHour, HourBucket(now)));
    }

    /**
     * `_get_available_account`: walks the directory's accounts in order,
     * creating a slot for each one that has none, collects the eligible ones
     * and returns the least recently used of them.
     */
    method GetAvailableAccount(now: int) returns (chosen: Option<string>)
      requires Valid()
      modifies this`accountInUse
      ensures Valid()
      ensures accountInUse == WithSlots(old(accountInUse), directory.order)
      ensures chosen == Choose(old(View()), directory.order, now)
    {
      var names := directory.order;
      ghost var view := View();
      var available: seq<string> := [];
      var i := 0;
      while i < |names|
        modifies this`accountInUse
        invariant 0 <= i <= |names|
        invariant accountInUse == WithSlots(view.inUse, names[..i])
        invariant available == Available(view, names[..i], now)
        invariant Valid()
      {
        var name := names[i];
        SlotOf(view.inUse, names[..i], name);
        WithSlotsStep(view.inUse, names, i);
        AvailableStep(view, names, i, now);
        if name !in accountInUse {
          accountInUse := accountInUse[name := 0];
        }
        var lastUse := if name in accountLastUsed then Some(accountLastUsed[name]) else None;
        var eligible := accountInUse[name] < maxConcurrent && (lastUse.None? || (now - lastUse.value) as real > settings.minDelay);
        assert eligible == Eligible(view, name, now);
        if eligible {
          available := available + [name];
        }
        i := i + 1;
      }
      assert names[..i] == names;
      if available == [] {
        chosen := None;
      } else {
        chosen := Some(available[LeastRecentIndex(available, accountLastUsed)]);
      }
      assert chosen == Choose(view, names, now);
      ChooseIgnoresLazySlots(view, names, names, now);
      assert View() == view.(inUse := WithSlots(view.inUse, names));
    }

    /**
     * The retry loop of `_process_request`: ask the selector once a second,
     * at most 60 times, stopping at the first try that returns an account.
     * `tries` is the number of one-second sleeps taken.
     */
    method WaitForAccount(now: int) returns (chosen: Option<string>, tries: nat)
      requires Valid()
      modifies this`accountInUse
      ensures Valid()
      ensures tries <= MaxAccountWait
      ensures NothingPicked(old(View()), directory.order, now, tries)
      ensures Picked(chosen) ==> tries < MaxAccountWait && chosen == Choose(old(View()), directory.order, now + tries)
      ensures !Picked(chosen) ==> tries == MaxAccountWait
      ensures accountInUse == WithSlots(old(accountInUse), directory.order)
    {
      ghost var view := View();
      chosen := None;
      tries := 0;
      while tries < MaxAccountWait
        modifies this`accountInUse
        invariant tries <= MaxAccountWait
        invariant Valid()
        invariant accountInUse == view.inUse || accountInUse == WithSlots(view.inUse, directory.order)
        invariant tries > 0 ==> accountInUse == WithSlots(view.inUse, directory.order)
        invariant !Picked(chosen)
        invariant NothingPicked(view, directory.order, now, tries)
      {
        AskAgain(view, directory.order, accountInUse, now + tries);
        assert View() == view.(inUse := accountInUse);
        chosen := GetAvailableAccount(now + tries);
        if Picked(chosen) {
          return;
        }
        tries := tries + 1;  // `await asyncio.sleep(1)`
      }
    }

    /** Record a failure for `id` at `at`, count it, and drop the id from the active set. */
    method FailRequest(id: string, message: string, at: int)
      modifies this`results, this`stats, this`activeRequests
      ensures results == old(results)[id := OutcomeRecord(JNull, Some(message), at)]
      ensures stats == old(stats).(failedRequests := old(stats).failedRequests + 1)
      ensures activeRequests == old(activeRequests) - {id}
    {
      StoreResult(id, JNull, Some(message), at);
      stats := stats.(failedRequests := stats.failedRequests + 1);
      activeRequests := activeRequests - {id};
    }

    /** `async with semaphore` on a free slot, and the last-use stamp. */
    method TakeSlot(name: string, at: int)
      requires Valid() && name in accountInUse && accountInUse[name] < maxConcurrent
      modifies this`accountInUse, this`accountLastUsed
      ensures Valid()
      ensures accountInUse == old(accountInUse)[name := old(accountInUse)[name] + 1]
      ensures accountLastUsed == old(accountLastUsed)[name := at]
    {
      accountInUse := accountInUse[name := accountInUse[name] + 1];
      accountLastUsed := accountLastUsed[name := at];
    }

    /**
     * Take a slot of `name`, stamp its last use and read its cookies with
     * `get_account_cookies`, which cannot raise for an account the store lists.
     */
    method Seize(name: string, at: int) returns (cookies: map<string, string>)
      requires Valid() && directory.Listed() && name in directory.order
      requires name in accountInUse && accountInUse[name] < maxConcurrent
      modifies this`accountInUse, this`accountLastUsed
      ensures Valid()
      ensures name in directory.accounts && cookies == directory.accounts[name].cookies
      ensures accountInUse == old(accountInUse)[name := old(accountInUse)[name] + 1]
      ensures accountLastUsed == old(accountLastUsed)[name := at]
    {
      TakeSlot(name, at);
      var read := directory.GetAccountCookies(name);
      cookies := read.value;
    }

    /**
     * The first half of `_process_request`, up to its first yield after the
     * wait: mark the record processing if it is present, then wait for an
     * account; with one, take one of its slots, stamp its last use and read
     * its cookies. The account came from the store's own listing, so the
     * read cannot fail.
     */
    method AcquireAccount(request: Request, now: int)
      returns (account: Option<string>, tries: nat, cookies: map<string, string>)
      requires Valid() && directory.Listed()
      modifies this`results, this`accountInUse, this`accountLastUsed
      ensures Valid()
      ensures account.Some? ==>
        account.value in directory.accounts && cookies == directory.accounts[account.value].cookies
      ensures tries <= MaxAccountWait
      ensures account.None? <==> NothingPicked(old(View()), directory.order, now, MaxAccountWait)
      ensures account.None? ==> tries == MaxAccountWait
      ensures account.Some? ==> Picked(account) && tries < MaxAccountWait && account.value in directory.order
      ensures account.Some? ==> account == Choose(old(View()), directory.order, now + tries)
      ensures results == MarkProcessing(old(results), request.id)
      ensures account.Some? ==>
        var slots := WithSlots(old(accountInUse), directory.order);
        && account.value in slots && slots[account.value] < maxConcurrent
        && accountInUse == slots[account.value := slots[account.value] + 1]
        && accountLastUsed == old(accountLastUsed)[account.value := now + tries]
      ensures account.None? ==>
        && accountInUse == WithSlots(old(accountInUse), directory.order)
        && accountLastUsed == old(accountLastUsed)
    {
      ghost var view := View();
      results := MarkProcessing(results, request.id);
      assert View() == view;
      var chosen;
      chosen, tries := WaitForAccount(now);
      var at := now + tries;
      if !Picked(chosen) {
        account, cookies := None, map[];
      } else {
        PickedEndsWait(view, directory.order, now, MaxAccountWait, tries);
        ChosenIsEligible(view, directory.order, at);
        SlotOf(view.inUse, directory.order, chosen.value);
        cookies := Seize(chosen.value, at);
        account := chosen;
      }
    }

    /**
     * The second half of `_process_request`: run the search with the cookies
     * read in the first half, record the outcome and count it, release the
     * slot, and drop the id from the active set. A successful search also
     * stamps the account's last use in the store, if it is still there.
     */
    method CompleteRequest(request: Request, account: string, cookies: map<string, string>, doneAt: int,
                           search: (Json, map<string, string>) -> SearchOutcome)
      requires Valid() && directory.Valid()
      requires account in accountInUse && accountInUse[account] > 0
      modifies this`results, this`stats, this`activeRequests, this`accountInUse, directory`accounts
      ensures Valid() && directory.Valid()
      ensures var o := Served(cookies, request.params, search);
        && results == old(results)[request.id := OutcomeRecord(o.0, o.1, doneAt)]
        && stats == Counted(old(stats), o.1)
        && directory.accounts == (if o.1.None? && account in old(directory.accounts)
                                  then old(directory.accounts)[account := old(directory.accounts)[account].(lastUsed := Some(doneAt))]
                                  else old(directory.accounts))
      ensures accountInUse == old(accountInUse)[account := old(accountInUse)[account] - 1]
      ensures activeRequests == old(activeRequests) - {request.id}
    {
      var outcome := search(request.params, cookies);
      match outcome {
        case Found(result) =>
          directory.MarkAccountUsed(account, doneAt);
          StoreResult(request.id, result, None, doneAt);
          stats := stats.(completedRequests := stats.completedRequests + 1);
        case Raised(message) =>
          StoreResult(request.id, JNull, Some(message), doneAt);
          stats := stats.(failedRequests := stats.failedRequests + 1);
      }
      accountInUse := accountInUse[account := accountInUse[account] - 1];
      activeRequests := activeRequests - {request.id};
    }

    /**
     * `_process_request` run to completion: the record ends completed or
     * failed (completed exactly when an account was found and the search
     * returned), the matching counter goes up by one, the slot is released
     * and the id leaves the active set. No other record changes.
     */
    method ProcessRequest(request: Request, now: int, doneAt: int,
                          search: (Json, map<string, string>) -> SearchOutcome)
      returns (servedBy: Option<string>, tries: nat)
      requires Valid() && directory.Valid()
      modifies this`results, this`stats, this`activeRequests, this`accountInUse, this`accountLastUsed, directory`accounts
      ensures Valid() && directory.Valid()
      ensures servedBy.None? <==> NothingPicked(old(View()), old(directory.order), now, MaxAccountWait)
      ensures servedBy.Some? ==> Picked(servedBy) && servedBy.value in old(directory.accounts)
      ensures servedBy.Some? ==>
        tries < MaxAccountWait && servedBy == Choose(old(View()), old(directory.order), now + tries)
      ensures servedBy.None? ==>
        && tries == MaxAccountWait
        && results == old(results)[request.id := OutcomeRecord(JNull, Some(NoAccountMessage), now + MaxAccountWait)]
        && stats == Counted(old(stats), Some(NoAccountMessage))
        && accountLastUsed == old(accountLastUsed)
        && directory.accounts == old(directory.accounts)
      ensures servedBy.Some? ==>
        var o := Served(old(directory.accounts)[servedBy.value].cookies, request.params, search);
        && results == old(results)[request.id := OutcomeRecord(o.0, o.1, doneAt)]
        && stats == Counted(old(stats), o.1)
        && accountLastUsed == old(accountLastUsed)[servedBy.value := now + tries]
        && directory.accounts == (if o.1.None? then old(directory.accounts)[servedBy.value := old(directory.accounts)[servedBy.value].(lastUsed := Some(doneAt))]
                                  else old(directory.accounts))
      ensures accountInUse == WithSlots(old(accountInUse), old(directory.order))
      ensures activeRequests == old(activeRequests) - {request.id}
      ensures results[request.id].status.IsTerminal() && KeepsTerminal(old(results), results)
    {
      ghost var view := View();
      ghost var rs := results;
      ghost var inUse := accountInUse;
      var cookies;
      servedBy, tries, cookies := AcquireAccount(request, now);
      if servedBy.None? {
        FailRequest(request.id, NoAccountMessage, now + tries);
        MarkThenStore(rs, request.id, OutcomeRecord(JNull, Some(NoAccountMessage), now + tries));
      } else {
        var name := servedBy.value;
        assert name in directory.accounts;
        ghost var slots := WithSlots(inUse, directory.order);
        ghost var taken := accountInUse;
        assert taken == slots[name := slots[name] + 1];
        ghost var o := Served(cookies, request.params, search);
        CompleteRequest(request, name, cookies, doneAt, search);
        MarkThenStore(rs, request.id, OutcomeRecord(o.0, o.1, doneAt));
        assert accountInUse == taken[name := taken[name] - 1];
        ReleaseUndoesTake(slots, name);
      }
      StoreKeepsTerminal(rs, request.id, results[request.id]);
    }

    /** Clearing the active set, as the administrative cancel does; records stay as they are. */
    method ClearActiveRequests()
      modifies this`activeRequests
      ensures activeRequests == {}
    {
      activeRequests := {};
    }

    /** `queue.get()` on class `p`: remove and return the head of its queue. */
    method PopHead(p: Priority) returns (request: Request)
      requires Valid() && queues[p] != []
      modifies this`queues
      ensures Valid()
      ensures request == old(queues)[p][0] && request.priority == p
      ensures queues == old(queues)[p := old(queues)[p][1..]]
    {
      request := queues[p][0];
      queues := queues[p := queues[p][1..]];
    }

    /**
     * The burst loop: pop up to `count` more requests from class `p`'s queue,
     * stopping early when it runs empty, and mark each one active.
     */
    method TakeBurst(p: Priority, count: int) returns (batch: seq<Request>)
      requires Valid()
      modifies this`queues, this`activeRequests
      ensures Valid()
      ensures |batch| == (if count < 0 then 0 else Min(count, |old(queues)[p]|))
      ensures batch == old(queues)[p][..|batch|]
      ensures queues == old(queues)[p := old(queues)[p][|batch|..]]
      ensures activeRequests == old(activeRequests) + IdsOf(batch)
    {
      ghost var rest := queues[p];
      batch := [];
      var i := 0;
      while i < count && queues[p] != []
        modifies this`queues, this`activeRequests
        invariant 0 <= i <= |rest| && i == |batch|
        invariant count >= 0 ==> i <= count
        invariant count < 0 ==> i == 0
        invariant batch == rest[..i]
        invariant queues == old(queues)[p := rest[i..]]
        invariant activeRequests == old(activeRequests) + IdsOf(batch)
        invariant Valid()
      {
        var next := queues[p][0];
        queues := queues[p := queues[p][1..]];
        activeRequests := activeRequests + {next.id};
        assert rest[..i + 1] == rest[..i] + [next];
        batch := batch + [next];
        i := i + 1;
      }
      assert queues[p] == rest[i..] && |rest[i..]| == |rest| - i;
    }

    /**
     * One iteration of `_process_queue`: pick the class, pop its head, compute
     * the pacing delay, then dispatch one request or a burst.
     *
     * Kept as written: in burst mode the request popped first (`trigger`) is
     * never dispatched, and the burst takes further requests from the same
     * queue only.
     */
    method DispatchStep(hour: int, weekday: int, draws: Draws, burstCoin: real, burstCount: int)
      returns (outcome: StepOutcome)
      requires Valid() && isRunning
      requires DrawsFit(settings, draws) && 0.0 <= burstCoin < 1.0
      requires settings.burstSize >= 1 ==> 1 <= burstCount <= settings.burstSize
      modifies this
      ensures Valid()
      ensures settings == old(settings) && isRunning == old(isRunning)
      ensures results == old(results) && stats == old(stats) && requestCounter == old(requestCounter)
      ensures accountInUse == old(accountInUse) && accountLastUsed == old(accountLastUsed)
      ensures outcome.Idle? <==> forall q: Priority :: old(queues)[q] == []
      ensures outcome.Idle? ==> queues == old(queues) && activeRequests == old(activeRequests)
      ensures !outcome.Idle? ==>
        && outcome.priority == NextPriority(old(queues))
        && old(queues)[outcome.priority] != []
        && forall q: Priority :: q != outcome.priority ==> queues[q] == old(queues)[q]
      ensures outcome.Crashed? <==>
        !outcome.Idle? && (Delay(settings, hour, weekday, draws).None?
                           || (burstCoin < settings.burstProbability && settings.burstSize < 1))
      ensures outcome.Burst? <==>
        !outcome.Idle? && Delay(settings, hour, weekday, draws).Some?
        && burstCoin < settings.burstProbability && settings.burstSize >= 1
      ensures outcome.Crashed? ==>
        && outcome.lost == old(queues)[outcome.priority][0]
        && queues[outcome.priority] == old(queues)[outcome.priority][1..]
        && activeRequests == old(activeRequests)
      ensures outcome.Single? ==>
        && outcome.request == old(queues)[outcome.priority][0]
        && queues[outcome.priority] == old(queues)[outcome.priority][1..]
        && activeRequests == old(activeRequests) + {outcome.request.id}
        && outcome.delay == Delay(settings, hour, weekday, draws).value
      ensures outcome.Burst? ==>
        var q := old(queues)[outcome.priority];
        var n := |outcome.batch|;
        && outcome.trigger == q[0]
        && n == Min(burstCount, |q| - 1)
        && outcome.batch == q[1..1 + n]
        && queues[outcome.priority] == q[1 + n..]
        && activeRequests == old(activeRequests) + IdsOf(outcome.batch)
        && outcome.delay == 2.0 * Delay(settings, hour, weekday, draws).value
    {
      var p := NextPriority(queues);
      if queues[p] == [] {
        return Idle;
      }
      ghost var q := queues[p];
      var request := PopHead(p);
      var delay := Delay(settings, hour, weekday, draws);
      if delay.None? {
        return Crashed(p, request);  // ZeroDivisionError: a weekend with a zero weekend factor
      }
      if burstCoin < settings.burstProbability {
        if settings.burstSize < 1 {
          return Crashed(p, request);  // `random.randint(1, burst_size)` raises ValueError
        }
        var batch := TakeBurst(p, burstCount);
        assert q[1..][..|batch|] == q[1..1 + |batch|];
        assert q[1..][|batch|..] == q[1 + |batch|..];
        outcome := Burst(p, request, batch, 2.0 * delay.value);
      } else {
        activeRequests := activeRequests + {request.id};
        outcome := Single(p, request, delay.value);
      }
    }

    /** `get_queue_status` */
    function GetQueueStatus(): (st: QueueStatus)
      requires Valid()
      reads this
      ensures st.isRunning == isRunning && st.statistics == stats
      ensures forall p: Priority :: p in st.queueSizes && st.queueSizes[p] == |queues[p]|
      ensures st.activeRequests == |activeRequests|
      ensures st.accountSlots.Keys == accountInUse.Keys
      ensures forall a :: a in st.accountSlots ==>
        && st.accountSlots[a].limit == maxConcurrent
        && 0 <= st.accountSlots[a].free <= maxConcurrent
        && st.accountSlots[a].free == maxConcurrent - accountInUse[a]
    {
      EveryPriorityListed();
      QueueStatus(
        isRunning,
        map p | p in AllPriorities :: |queues[p]|,
        |activeRequests|,
        map a | a in accountInUse :: SlotReport(maxConcurrent - accountInUse[a], maxConcurrent),
        stats)
    }
  }
}
