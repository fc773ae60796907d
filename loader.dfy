/**
 * The bounded-retry load of the active schedules (LoadAgendamentosWithRetryAsync).
 *
 * The store is an external collaborator: `store(attempt)` is what the query
 * does on the given attempt (1-based), either the whole table or the
 * exception it throws. The 5 s waits are reported as a total, not performed.
 */
module Loader {
  import opened Wrappers
  import opened Errors
  import opened Schedules

  const MaxRetryAttempts: nat := 3
  const RetryDelayMs: nat := 5000

  datatype StoreRead = Loaded(table: seq<Row>) | Threw(error: Exception)

  /** The failures the loop retries after. */
  predicate Retriable(read: StoreRead)
  {
    read.Threw? && IsTransientError(read.error)
  }

  /** Where(x => x.IsActive): the active rows, in table order. */
  function ActiveRows(rows: seq<Row>): (r: seq<Row>)
    ensures forall x :: x in r <==> x in rows && x.isActive
    ensures DistinctRowIds(rows) ==> DistinctRowIds(r)
  {
    if rows == [] then []
    else
      var rest := ActiveRows(rows[1..]);
      if rows[0].isActive then
        assert forall x :: x in rest ==> x in rows[1..];
        [rows[0]] + rest
      else rest
  }

  /** The attempt (1-based) at which the retry loop stops, starting from `attempt`. */
  function StopAttempt(store: nat -> StoreRead, attempt: nat): (k: nat)
    requires 1 <= attempt <= MaxRetryAttempts
    decreases MaxRetryAttempts - attempt
    ensures attempt <= k <= MaxRetryAttempts
    ensures forall a :: attempt <= a < k ==> Retriable(store(a))
    ensures k < MaxRetryAttempts ==> !Retriable(store(k))
  {
    if attempt == MaxRetryAttempts || !Retriable(store(attempt)) then attempt
    else StopAttempt(store, attempt + 1)
  }

  /**
   * The list the loader returns, or None for the source's null: None iff
   * every attempt made threw, and a list holds active rows only.
   */
  function LoadResult(store: nat -> StoreRead): (r: Option<seq<Row>>)
    ensures r.None? <==> forall a :: 1 <= a <= StopAttempt(store, 1) ==> store(a).Threw?
    ensures r.None? && StopAttempt(store, 1) < MaxRetryAttempts ==> !IsTransientError(store(StopAttempt(store, 1)).error)
    ensures r.Some? ==> forall x :: x in r.value ==> x.isActive
    ensures r.Some? ==>
      && store(StopAttempt(store, 1)).Loaded?
      && forall x :: x in r.value <==> x in store(StopAttempt(store, 1)).table && x.isActive
  {
    var k := StopAttempt(store, 1);
    if store(k).Loaded? then Some(ActiveRows(store(k).table)) else None
  }

  method LoadAgendamentosWithRetry(store: nat -> StoreRead) returns (loaded: Option<seq<Row>>, attempts: nat, sleptMs: nat)
    ensures attempts == StopAttempt(store, 1)
    ensures 1 <= attempts <= MaxRetryAttempts
    ensures loaded == LoadResult(store)
    ensures sleptMs == RetryDelayMs * (attempts - 1)
  {
    loaded, attempts, sleptMs := None, 0, 0;
    var attempt := 1;
    while attempt <= MaxRetryAttempts
      invariant 1 <= attempt <= MaxRetryAttempts + 1
      invariant attempts == attempt - 1
      invariant forall a :: 1 <= a < attempt ==> Retriable(store(a))
      invariant sleptMs == RetryDelayMs * (if attempt <= MaxRetryAttempts then attempt - 1 else MaxRetryAttempts - 1)
      invariant loaded == None
    {
      attempts := attempt;
      match store(attempt)
      case Loaded(table) =>
        loaded := Some(ActiveRows(table));
        return;
      case Threw(ex) =>
        if IsTransientError(ex) {
          if attempt < MaxRetryAttempts {
            sleptMs := sleptMs + RetryDelayMs;
          }
        } else {
          return;
        }
      attempt := attempt + 1;
    }
  }
}
