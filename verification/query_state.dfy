/**
 * The lifecycle of a flowmachine query as its state machine records it:
 * a query is known, is queued, runs, and ends completed, cancelled or
 * errored; a finished query can be reset, which returns it to known.
 * Each transition is taken by at most one caller, which is how concurrent
 * callers agree on who runs or resets a query.
 */
module QueryStates {
  import opened Wrappers

  /**
   * The states of a query. `Completed` is the state the tests call
   * `EXECUTED`: the query ran and its result is stored.
   */
  datatype QueryState = Known | Queued | Executing | Completed | Cancelled | Errored | Resetting

  datatype QueryEvent = Queue | Execute | Finish | Cancel | Error | Reset | FinishReset

  /** A finished query that a reset may return to `Known`. */
  predicate Resettable(s: QueryState) {
    s == Completed || s == Cancelled || s == Errored
  }

  /** The state an event leads to, or `None` when the event does not apply. */
  function Transition(s: QueryState, e: QueryEvent): (r: Option<QueryState>)
    ensures r.Some? ==> r.value != s
    ensures e == Reset ==> (r.Some? <==> Resettable(s))
    ensures e == Cancel ==> (r.Some? <==> s == Queued || s == Executing)
  {
    match (s, e)
    case (Known, Queue) => Some(Queued)
    case (Queued, Execute) => Some(Executing)
    case (Executing, Finish) => Some(Completed)
    case (Queued, Cancel) => Some(Cancelled)
    case (Executing, Cancel) => Some(Cancelled)
    case (Queued, Error) => Some(Errored)
    case (Executing, Error) => Some(Errored)
    case (Completed, Reset) => Some(Resetting)
    case (Cancelled, Reset) => Some(Resetting)
    case (Errored, Reset) => Some(Resetting)
    case (Resetting, FinishReset) => Some(Known)
    case _ => None
  }

  /**
   * Fires an event: the state afterwards and whether this call made the
   * transition (the caller then "owns" it, e.g. must run or reset the query).
   */
  function TriggerEvent(s: QueryState, e: QueryEvent): (r: (QueryState, bool))
    ensures r.1 <==> Transition(s, e).Some?
    ensures r.1 ==> r.0 == Transition(s, e).value
    ensures !r.1 ==> r.0 == s
  {
    match Transition(s, e)
    case Some(t) => (t, true)
    case None => (s, false)
  }

  /**
   * Of two callers firing the same event one after the other, only the
   * first makes the transition: an event never applies twice in a row.
   */
  lemma OwnershipIsExclusive(s: QueryState, e: QueryEvent)
    ensures TriggerEvent(s, e).1 ==> !TriggerEvent(TriggerEvent(s, e).0, e).1
  {
  }

  /** The answer to "has the query finished operating?": wait, or a final yes/no. */
  datatype FinishedAnswer = WaitsForIt | Answer(finished: bool)

  /**
   * Queued, executing and resetting queries make the caller wait; a known,
   * cancelled or errored query has not finished, a completed one has.
   */
  function HasFinishedOperating(s: QueryState): (r: FinishedAnswer)
    ensures r == WaitsForIt <==> s in {Queued, Executing, Resetting}
    ensures r == Answer(true) <==> s == Completed
  {
    if s == Queued || s == Executing || s == Resetting then WaitsForIt
    else Answer(s == Completed)
  }

  /**
   * Cancelling: queued and executing queries end cancelled, an already
   * cancelled one stays so, and every other state is left as it was.
   */
  function CancelQuery(s: QueryState): (r: QueryState)
    ensures r == Cancelled <==> s in {Queued, Executing, Cancelled}
    ensures s !in {Queued, Executing} ==> r == s
  {
    TriggerEvent(s, Cancel).0
  }

  /** The state after a sequence of events, each taken or ignored in turn. */
  function RunEvents(s: QueryState, events: seq<QueryEvent>): QueryState
    decreases |events|
  {
    if |events| == 0 then s else RunEvents(TriggerEvent(s, events[0]).0, events[1..])
  }

  /**
   * The full lifecycle: a known query is queued, run and finished; a reset
   * and its completion bring it back to known.
   */
  lemma Lifecycle()
    ensures RunEvents(Known, [Queue, Execute, Finish]) == Completed
    ensures RunEvents(Completed, [Reset, FinishReset]) == Known
  {
    assert [Queue, Execute, Finish][1..] == [Execute, Finish];
    assert [Execute, Finish][1..] == [Finish];
    assert [Reset, FinishReset][1..] == [FinishReset];
  }

  /** Why a store that watched a query run elsewhere gave up. */
  datatype QueryFailure = QueryCancelled | QueryErrored

  /** What a caller waiting on a query that runs elsewhere sees after an event. */
  datatype WatchResult = StillRunning | Stored | Failed(failure: QueryFailure)

  /**
   * A caller that finds the query already executing waits for its outcome:
   * a finish stores it, a cancel or an error surfaces as the matching
   * failure, and any other event leaves it running.
   */
  function WatchExecuting(e: QueryEvent): (r: WatchResult)
    ensures r == Stored <==> e == Finish
    ensures r == Failed(QueryCancelled) <==> e == Cancel
    ensures r == Failed(QueryErrored) <==> e == Error
  {
    match TriggerEvent(Executing, e).0
    case Completed => Stored
    case Cancelled => Failed(QueryCancelled)
    case Errored => Failed(QueryErrored)
    case _ => StillRunning
  }
}
