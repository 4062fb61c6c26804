/**
 * The result-polling and administrative endpoints of the queue API, as far
 * as they shape responses and touch the scheduler's state.
 */
module QueueEndpoints {
  import opened Wrappers
  import opened Json
  import opened ResultStore
  import Queue

  const NotFoundMessage := "Request not found - may have expired or never existed"

  /**
   * The body `get_request_result` returns for `id`, given the record found
   * for it (if any) and whether `delete_after` was asked for.
   */
  function PollResponse(id: string, found: Option<Record>, deleteAfter: bool): (resp: map<string, Json>)
    ensures "status" in resp && "request_id" in resp && resp["request_id"] == JStr(id)
    ensures found.None? ==> resp == map["status" := JStr("not_found"), "request_id" := JStr(id), "message" := JStr(NotFoundMessage)]
    ensures found.Some? ==> resp["status"] == JStr(found.value.status.Name())
    ensures found.Some? ==> "timestamp" in resp && resp["timestamp"] == OptNum(found.value.timestamp)
    ensures "result" in resp <==> found.Some? && found.value.status == Completed
    ensures "result" in resp ==> resp["result"] == found.value.result
    ensures "error" in resp <==> found.Some? && found.value.status == Failed
    ensures "error" in resp ==> resp["error"] == OptStr(found.value.error)
    ensures "message" in resp <==> found.None? || !found.value.status.IsTerminal()
    ensures found.Some? && "message" in resp ==> resp["message"] == JStr("Request is " + found.value.status.Name())
    ensures "deleted" in resp <==> found.Some? && deleteAfter && found.value.status.IsTerminal()
    ensures "deleted" in resp ==> resp["deleted"] == JBool(true)
  {
    match found
    case None =>
      map["status" := JStr("not_found"), "request_id" := JStr(id), "message" := JStr(NotFoundMessage)]
    case Some(r) =>
      var base := map["status" := JStr(r.status.Name()), "request_id" := JStr(id), "timestamp" := OptNum(r.timestamp)];
      var shaped :=
        match r.status
        case Completed => base["result" := r.result]
        case Failed => base["error" := OptStr(r.error)]
        case _ => base["message" := JStr("Request is " + r.status.Name())];
      if deleteAfter && r.status.IsTerminal() then shaped["deleted" := JBool(true)] else shaped
  }

  /**
   * `get_request_result`: shape the record, and with `delete_after` delete it
   * only when its request has finished; pending records always survive.
   */
  method GetRequestResult(qm: Queue.QueueManager, id: string, deleteAfter: bool) returns (resp: map<string, Json>)
    modifies qm`results
    ensures resp == PollResponse(id, old(qm.GetResult(id)), deleteAfter)
    ensures id in old(qm.results) && deleteAfter && old(qm.results[id]).status.IsTerminal() ==>
      qm.results == old(qm.results) - {id}
    ensures !(id in old(qm.results) && deleteAfter && old(qm.results[id]).status.IsTerminal()) ==>
      qm.results == old(qm.results)
  {
    var found := qm.GetResult(id);
    resp := PollResponse(id, found, deleteAfter);
    if found.Some? && deleteAfter && found.value.status.IsTerminal() {
      var _ := qm.DeleteResult(id);
    }
  }

  /** The body of `delete_request_result`: success exactly when something was deleted. */
  function DeleteResponse(id: string, deleted: bool): (resp: map<string, Json>)
    ensures resp.Keys == {"status", "request_id", "deleted"}
    ensures resp["status"] == JStr("success") <==> deleted
    ensures resp["status"] == JStr("not_found") <==> !deleted
    ensures resp["deleted"] == JBool(deleted) && resp["request_id"] == JStr(id)
  {
    map["status" := JStr(if deleted then "success" else "not_found"),
        "request_id" := JStr(id),
        "deleted" := JBool(deleted)]
  }

  method DeleteRequestResult(qm: Queue.QueueManager, id: string) returns (resp: map<string, Json>)
    modifies qm`results
    ensures resp == DeleteResponse(id, id in old(qm.results))
    ensures qm.results == old(qm.results) - {id}
  {
    var deleted := qm.DeleteResult(id);
    resp := DeleteResponse(id, deleted);
  }

  /**
   * `cancel_active_requests`: the active set ends empty; stored records,
   * queues and counters are untouched.
   */
  method CancelActiveRequests(qm: Queue.QueueManager) returns (resp: map<string, Json>)
    modifies qm`activeRequests
    ensures qm.activeRequests == {}
    ensures resp == map["status" := JStr("success"), "message" := JStr("All active requests cancelled")]
  {
    qm.ClearActiveRequests();
    resp := map["status" := JStr("success"), "message" := JStr("All active requests cancelled")];
  }
}
