/**
 * Small end-to-end runs of the scheduler, checked statically: the order in
 * which classes are served, the burst branch as written, one request
 * served to a completed record, an account deleted while it serves a
 * request, and deleting a result twice.
 */
module Scenarios {
  import opened Wrappers
  import opened Json
  import opened Priorities
  import opened ResultStore
  import opened HumanDelay
  import Cookies
  import AccountSelection
  import Queue

  /** Draws inside the default settings' ranges, with no idle period. */
  const Calm := Draws(10.0, 0.5, 2.0)

  /** With an URGENT and a LOW request waiting, single dispatches serve URGENT, then LOW. */
  method UrgentServedBeforeLow(qm: Queue.QueueManager, low: Queue.Request, urgent: Queue.Request)
    requires qm.Valid() && qm.isRunning && qm.settings == Defaults
    requires qm.queues[Low] == [low] && qm.queues[Urgent] == [urgent]
    requires qm.queues[Normal] == [] && qm.queues[High] == []
    modifies qm
  {
    assert DrawsFit(qm.settings, Calm);
    var first := qm.DispatchStep(12, 1, Calm, 0.5, 1);
    assert first.Single? && first.request == urgent;
    assert qm.queues[Urgent] == [] && qm.queues[Low] == [low];
    var second := qm.DispatchStep(12, 1, Calm, 0.5, 1);
    assert second.Single? && second.request == low;
  }

  /**
   * Two NORMAL requests and a burst of one: the second is dispatched, the
   * first is popped and never dispatched, so its record stays queued while
   * it is in no queue and not active.
   */
  method BurstLeavesTriggerQueued(qm: Queue.QueueManager, first: Queue.Request, second: Queue.Request)
    requires qm.Valid() && qm.isRunning && qm.settings == Defaults
    requires qm.queues[Normal] == [first, second] && first.id != second.id
    requires qm.queues[Low] == [] && qm.queues[High] == [] && qm.queues[Urgent] == []
    requires first.id in qm.results && qm.results[first.id].status == Queued
    requires qm.activeRequests == {}
    modifies qm
  {
    assert DrawsFit(qm.settings, Calm);
    var step := qm.DispatchStep(12, 1, Calm, 0.0, 1);
    assert step.Burst? && step.trigger == first && step.batch == [second];
    assert qm.queues[Normal] == [];
    assert second.id in qm.activeRequests && first.id !in qm.activeRequests;
    assert qm.results[first.id].status == Queued;
  }

  function Answer(params: Json, cookies: map<string, string>): Queue.SearchOutcome {
    Queue.Found(JStr("42"))
  }

  /**
   * One idle account that was never used, at most one request per account:
   * the first try finds it, so the request is served and its record ends
   * completed with the search's result.
   */
  method OneRequestCompletes(qm: Queue.QueueManager, request: Queue.Request)
    requires qm.Valid() && qm.directory.Valid()
    requires qm.directory.order == ["main"] && qm.maxConcurrent == 1
    requires qm.accountInUse == map[] && qm.accountLastUsed == map[]
    modifies qm, qm.directory
  {
    ghost var before := qm.stats;
    assert ["main"][..0] == [];
    assert AccountSelection.Eligible(qm.View(), "main", 110);
    assert AccountSelection.Available(qm.View(), [], 110) == [];
    assert AccountSelection.Available(qm.View(), ["main"], 110) == ["main"];
    assert AccountSelection.Choose(qm.View(), ["main"], 110) == Some("main");
    Queue.PickedEndsWait(qm.View(), qm.directory.order, 110, Queue.MaxAccountWait, 0);
    var servedBy, tries := qm.ProcessRequest(request, 110, 120, Answer);
    assert servedBy.Some?;
    assert qm.results[request.id] == OutcomeRecord(JStr("42"), None, 120);
    assert qm.results[request.id].status == Completed;
    assert qm.stats.completedRequests == before.completedRequests + 1;
  }

  /**
   * The account is deleted from the store while its request holds a slot:
   * the cookies were read when the slot was taken, so the search still runs
   * with them and the record ends completed.
   */
  method DeletedWhileServing(qm: Queue.QueueManager, request: Queue.Request)
    requires qm.Valid() && qm.directory.Valid()
    requires qm.directory.order == ["main"] && qm.maxConcurrent == 1
    requires qm.accountInUse == map[] && qm.accountLastUsed == map[]
    modifies qm, qm.directory
  {
    assert ["main"][..0] == [];
    assert AccountSelection.Eligible(qm.View(), "main", 110);
    assert AccountSelection.Available(qm.View(), [], 110) == [];
    assert AccountSelection.Available(qm.View(), ["main"], 110) == ["main"];
    assert AccountSelection.Choose(qm.View(), ["main"], 110) == Some("main");
    Queue.PickedEndsWait(qm.View(), qm.directory.order, 110, Queue.MaxAccountWait, 0);
    var account, tries, cookies := qm.AcquireAccount(request, 110);
    assert account == Some("main");
    var deleted := qm.directory.DeleteAccount("main");
    assert deleted && "main" !in qm.directory.accounts;
    qm.CompleteRequest(request, "main", cookies, 120, Answer);
    assert qm.results[request.id] == OutcomeRecord(JStr("42"), None, 120);
  }

  /** Deleting a stored result succeeds once; the second delete reports nothing deleted. */
  method DeleteTwice() {
    var store := new Cookies.CookieManager();
    var qm := new Queue.QueueManager(store, None, 1, None, 0);
    var id := qm.SubmitRequest("a", JNull, Normal, 0);
    var found := qm.GetResult(id);
    assert found.Some? && found.value.status == Queued;
    var once := qm.DeleteResult(id);
    var twice := qm.DeleteResult(id);
    assert once && !twice;
    assert qm.GetResult(id).None?;
  }
}
