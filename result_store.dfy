/**
 * The result records the queue manager keeps per request id, and the
 * time-to-live sweep applied when stored results are loaded.
 */
module ResultStore {
  import opened Wrappers
  import opened Json
  import opened Priorities

  /** The lifecycle states a record's `status` takes. */
  datatype Status = Queued | Processing | Completed | Failed {
    function Name(): string {
      match this
      case Queued => "queued"
      case Processing => "processing"
      case Completed => "completed"
      case Failed => "failed"
    }

    predicate IsTerminal() {
      Completed? || Failed?
    }
  }

  /**
   * One entry of `results`. `result` is `JNull` for Python's `None`;
   * `timestamp` is absent only in records read back from storage that lack
   * the key. `priority` and `accountName` are the two extra keys a queued
   * record carries and a stored outcome drops.
   */
  datatype Record = Record(
    status: Status,
    result: Json,
    error: Option<string>,
    timestamp: Option<int>,
    priority: Option<Priority>,
    accountName: Option<string>)

  /**
   * A record that has finished is never shown as pending again: every id
   * that `before` holds as completed or failed is, in `after`, either gone
   * or still completed or failed.
   */
  predicate KeepsTerminal(before: map<string, Record>, after: map<string, Record>) {
    forall id :: id in before && id in after && before[id].status.IsTerminal() ==> after[id].status.IsTerminal()
  }

  /** Results older than one hour are dropped on load. */
  const TtlSeconds := 3600

  /** The record `store_result` writes: completed exactly when no error is given. */
  function OutcomeRecord(result: Json, error: Option<string>, now: int): (r: Record)
    ensures r.status == Completed <==> error.None?
    ensures r.status == Failed <==> error.Some?
    ensures r.status.IsTerminal()
    ensures r.result == result && r.error == error && r.timestamp == Some(now)
    ensures r.priority.None? && r.accountName.None?
  {
    Record(if error.None? then Completed else Failed, result, error, Some(now), None, None)
  }

  /** The record `submit_request` writes before enqueueing. */
  function QueuedRecord(priority: Priority, accountName: string, now: int): (r: Record)
    ensures r.status == Queued && !r.status.IsTerminal()
    ensures r.result == JNull && r.error.None? && r.timestamp == Some(now)
    ensures r.priority == Some(priority) && r.accountName == Some(accountName)
  {
    Record(Queued, JNull, None, Some(now), Some(priority), Some(accountName))
  }

  /**
   * `v.get('timestamp', '') > cutoff` with `cutoff = now - 1 hour`: strictly
   * newer than the cutoff; a record without a timestamp compares as the
   * empty string and never passes.
   */
  predicate Fresh(r: Record, now: int) {
    r.timestamp.Some? && r.timestamp.value > now - TtlSeconds
  }

  /** The load-time sweep of `_load_results`. */
  function Sweep(rs: map<string, Record>, now: int): (kept: map<string, Record>)
    ensures kept.Keys <= rs.Keys
    ensures forall k :: k in kept ==> kept[k] == rs[k]
  {
    map k | k in rs && Fresh(rs[k], now) :: rs[k]
  }

  /** Exactly the fresh records survive, unchanged; records without a timestamp never do. */
  lemma SweepKeepsExactlyFresh(rs: map<string, Record>, now: int, k: string)
    ensures k in Sweep(rs, now) <==> k in rs && rs[k].timestamp.Some? && rs[k].timestamp.value > now - 3600
    ensures k in rs && rs[k].timestamp.None? ==> k !in Sweep(rs, now)
  {
  }

  /** Sweeping again at the same time removes nothing more. */
  lemma SweepIdempotent(rs: map<string, Record>, now: int)
    ensures Sweep(Sweep(rs, now), now) == Sweep(rs, now)
  {
  }

  /** A later sweep subsumes an earlier one. */
  lemma SweepLaterSubsumes(rs: map<string, Record>, t1: int, t2: int)
    requires t1 <= t2
    ensures Sweep(Sweep(rs, t1), t2) == Sweep(rs, t2)
  {
  }

  /** A record two hours old is dropped and one ten minutes old is kept. */
  lemma SweepScenario(old2h: Record, recent: Record, now: int)
    requires old2h.timestamp == Some(now - 7200)
    requires recent.timestamp == Some(now - 600)
    ensures Sweep(map["a" := old2h, "b" := recent], now) == map["b" := recent]
  {
    var rs := map["a" := old2h, "b" := recent];
    assert !Fresh(rs["a"], now) && Fresh(rs["b"], now);
    assert Sweep(rs, now).Keys == {"b"};
  }
}
