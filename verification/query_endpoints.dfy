/**
 * FlowAPI's query endpoints: `run`, `poll/<query_id>` and
 * `get/<query_id>` forward the request to flowmachine and turn its reply
 * into an HTTP response. The models take the reply as a value; the message
 * exchange itself, claim checking and result streaming are outside them.
 */
module QueryEndpoints {
  import opened Wrappers
  import opened SeqUtil
  import opened QueryStates

  /** A route `url_for` renders; the rendering of the URL itself belongs to the web framework. */
  datatype Route = PollRoute(queryId: string) | GetResultRoute(queryId: string)

  /** A JSON body: `{}`, `{"status": …, "msg": …}`, or the streamed result of an SQL query. */
  datatype Body = EmptyObject | StatusMessage(status: string, msg: string) | StreamedResult(sql: string, queryId: string)

  datatype Header = Location(route: Route) | TransferEncoding(value: string) | ContentDisposition(value: string) | ContentType(value: string)

  datatype Response = Response(code: int, body: Body, headers: seq<Header>)

  /** A Python exception raised while handling the request, which the framework turns into a server error. */
  datatype Failure = AssertionFailed | MissingKey(key: string)

  const Accepted := 202
  const SeeOther := 303

  // ---------------------------------------------------------------------
  // run
  // ---------------------------------------------------------------------

  /** Flowmachine's reply to `run_query`: a status, a message, and the query id when accepted. */
  datatype RunReply = RunReply(status: string, msg: string, queryId: Option<string>)

  /**
   * `run_query`: an error reply is refused with 403 and its message; an
   * accepted one gives 202 with a `Location` to poll the query (a reply
   * without a query id fails the handler's assertion); any other status is
   * refused with 403.
   */
  function RunQuery(reply: RunReply): (r: Result<Response, Failure>)
    ensures r.Err? <==> reply.status == "accepted" && reply.queryId.None?
    ensures r.Ok? && r.value.code == Accepted <==> reply.status == "accepted" && reply.queryId.Some?
    ensures r.Ok? && r.value.code != Accepted ==> r.value.code == 403 && r.value.headers == []
    ensures r.Ok? && reply.status == "error" ==> r.value.body == StatusMessage("Error", reply.msg)
    ensures r.Ok? && r.value.code == Accepted ==> r.value.headers == [Location(PollRoute(reply.queryId.value))]
  {
    if reply.status == "error" then Ok(Response(403, StatusMessage("Error", reply.msg), []))
    else if reply.status == "accepted" then
      match reply.queryId
      case None => Err(AssertionFailed)
      case Some(id) => Ok(Response(Accepted, EmptyObject, [Location(PollRoute(id))]))
    else Ok(Response(403, EmptyObject, []))
  }

  // ---------------------------------------------------------------------
  // poll
  // ---------------------------------------------------------------------

  /** Flowmachine's reply to `poll_query`: a status with, when done, the query's state and a message. */
  datatype PollReply = PollReply(status: string, queryState: string, msg: string)

  /**
   * `poll_query`: a completed query redirects (303) to its result; an
   * executing or queued one is accepted (202), an errored or cancelled one
   * is a server error (500), any other state is not found (404). The error
   * reply looks up the empty key, which flowmachine's replies do not carry,
   * and a status other than `done` fails the handler's assertion.
   */
  function PollQuery(queryId: string, reply: PollReply): (r: Result<Response, Failure>)
    ensures reply.status == "error" ==> r == Err(MissingKey(""))
    ensures reply.status != "error" && reply.status != "done" ==> r == Err(AssertionFailed)
    ensures reply.status == "done" ==> r.Ok?
    ensures r.Ok? ==> (r.value.code == SeeOther <==> reply.queryState == "completed")
    ensures r.Ok? && r.value.code == SeeOther ==> r.value.headers == [Location(GetResultRoute(queryId))]
    ensures r.Ok? && r.value.code != SeeOther ==> r.value.body == StatusMessage(reply.queryState, reply.msg) && r.value.headers == []
  {
    if reply.status == "error" then Err(MissingKey(""))
    else if reply.status != "done" then Err(AssertionFailed)
    else if reply.queryState == "completed" then Ok(Response(SeeOther, EmptyObject, [Location(GetResultRoute(queryId))]))
    else Ok(Response(PollCode(reply.queryState), StatusMessage(reply.queryState, reply.msg), []))
  }

  /**
   * The evidently intended error branch: the reply's own message is passed
   * on under status `error`, with the framework's default code, 200.
   */
  function PollQueryCorrected(queryId: string, reply: PollReply): (r: Result<Response, Failure>)
    ensures reply.status == "error" ==> r == Ok(Response(200, StatusMessage("error", reply.msg), []))
    ensures reply.status != "error" && reply.status != "done" ==> r == Err(AssertionFailed)
    ensures reply.status == "done" ==> r.Ok?
    ensures r.Ok? && reply.status == "done" ==> (r.value.code == SeeOther <==> reply.queryState == "completed")
    ensures r.Ok? && r.value.code == SeeOther ==> r.value.headers == [Location(GetResultRoute(queryId))]
    ensures r.Ok? && r.value.code != SeeOther ==> r.value.headers == []
  {
    if reply.status == "error" then Ok(Response(200, StatusMessage("error", reply.msg), []))
    else PollQuery(queryId, reply)
  }

  /**
   * Every error reply makes the handler as written fail looking up the
   * empty key, so the client never sees flowmachine's message; the
   * corrected handler passes that message on, and answers every other
   * reply exactly as the handler as written does.
   */
  lemma PollErrorReplyLosesMessage(queryId: string, reply: PollReply)
    ensures reply.status == "error" ==> PollQuery(queryId, reply) == Err(MissingKey(""))
    ensures reply.status == "error" ==> PollQueryCorrected(queryId, reply).Ok?
    ensures reply.status == "error" ==> PollQueryCorrected(queryId, reply).value.body == StatusMessage("error", reply.msg)
    ensures reply.status != "error" ==> PollQueryCorrected(queryId, reply) == PollQuery(queryId, reply)
  {
  }

  /** The code `poll_query` gives a state other than `completed`. */
  function PollCode(state: string): (code: int)
    ensures code in {Accepted, 500, 404}
    ensures code == Accepted <==> state in {"executing", "queued"}
    ensures code == 500 <==> state in {"errored", "cancelled"}
  {
    if state in {"executing", "queued"} then Accepted
    else if state in {"errored", "cancelled"} then 500
    else 404
  }

  // ---------------------------------------------------------------------
  // get
  // ---------------------------------------------------------------------

  /** Flowmachine's reply to `get_sql_for_query_result`: an error with the query's state, or the SQL of the result. */
  datatype GetReply = GetError(queryState: string, error: string) | GetSuccess(sql: string)

  /**
   * `get_query_result`: a successful reply streams the result (200) as a
   * chunked JSON attachment named after the query; an error reply gives 202
   * for a query still executing or queued, 403 for an errored one, 404 for an
   * unknown (`awol` or `known`) one and 500 for any other state.
   */
  function GetQueryResult(queryId: string, reply: GetReply): (r: Response)
    ensures r.code == 200 <==> reply.GetSuccess?
    ensures reply.GetSuccess? ==> r.body == StreamedResult(reply.sql, queryId)
    ensures reply.GetSuccess? ==> ContentDisposition("attachment;filename=" + queryId + ".json") in r.headers
    ensures reply.GetSuccess? ==> TransferEncoding("chunked") in r.headers && ContentType("application/json") in r.headers
    ensures reply.GetError? ==> r.headers == [] && r.code == GetErrorCode(reply.queryState)
    ensures reply.GetError? && r.code in {403, 404} ==> r.body == StatusMessage("Error", reply.error)
    ensures reply.GetError? && r.code == 500 ==> r.body == StatusMessage("Error", "Unexpected query state: " + reply.queryState)
  {
    match reply
    case GetError(state, error) =>
      var code := GetErrorCode(state);
      if code == Accepted then Response(Accepted, EmptyObject, [])
      else if code == 500 then Response(500, StatusMessage("Error", "Unexpected query state: " + state), [])
      else Response(code, StatusMessage("Error", error), [])
    case GetSuccess(sql) =>
      Response(200, StreamedResult(sql, queryId),
               [TransferEncoding("chunked"), ContentDisposition("attachment;filename=" + queryId + ".json"), ContentType("application/json")])
  }

  /** The code `get_query_result` gives an error reply, by the query's state. */
  function GetErrorCode(state: string): (code: int)
    ensures code in {Accepted, 403, 404, 500}
    ensures code == Accepted <==> state in {"executing", "queued"}
    ensures code == 403 <==> state == "errored"
    ensures code == 404 <==> state in {"awol", "known"}
  {
    if state in {"executing", "queued"} then Accepted
    else if state == "errored" then 403
    else if state in {"awol", "known"} then 404
    else 500
  }

  /** The rows of the status-code test table for results. */
  lemma GetStatusCodeTable(id: string)
    ensures GetQueryResult(id, GetSuccess("SELECT 1;")).code == 200
    ensures GetQueryResult(id, GetError("executing", "")).code == 202
    ensures GetQueryResult(id, GetError("queued", "")).code == 202
    ensures GetQueryResult(id, GetError("awol", "")).code == 404
    ensures GetQueryResult(id, GetError("errored", "")).code == 403
    ensures GetQueryResult(id, GetError("known", "")).code == 404
    ensures GetQueryResult(id, GetError("NOT_A_STATUS", "")).code == 500
  {
  }

  // ---------------------------------------------------------------------
  // The endpoints against the query state machine
  // ---------------------------------------------------------------------

  /** The name flowmachine reports for a query state. */
  function StateName(s: QueryState): (r: string) {
    match s
    case Known => "known"
    case Queued => "queued"
    case Executing => "executing"
    case Completed => "completed"
    case Cancelled => "cancelled"
    case Errored => "errored"
    case Resetting => "resetting"
  }

  /** Distinct states have distinct names. */
  lemma StateNameInjective(s: QueryState, t: QueryState)
    ensures StateName(s) == StateName(t) ==> s == t
  {
  }

  /**
   * Polling redirects to the result exactly when the query has finished
   * operating successfully, and asks the client to come back later only
   * while the query is still queued or executing (a resetting query, which
   * also makes callers wait, is reported as not found).
   */
  lemma PollAgreesWithStateMachine(id: string, s: QueryState, msg: string)
    ensures var r := PollQueryCorrected(id, PollReply("done", StateName(s), msg));
            && r.Ok?
            && (r.value.code == SeeOther <==> HasFinishedOperating(s) == Answer(true))
            && (r.value.code == Accepted <==> HasFinishedOperating(s) == WaitsForIt && s != Resetting)
            && (r.value.code == 500 <==> HasFinishedOperating(s) == Answer(false) && s != Known)
  {
  }

  /**
   * Polling and fetching agree on a query that is still running (both 202)
   * and on one flowmachine knows nothing stored for (both 404); an errored
   * query is a server error when polled but forbidden when fetched.
   */
  lemma PollAndGetAgree(id: string, s: QueryState, msg: string)
    ensures var poll := PollQueryCorrected(id, PollReply("done", StateName(s), msg)).value;
            var get := GetQueryResult(id, GetError(StateName(s), msg));
            && (s in {Queued, Executing} ==> poll.code == Accepted && get.code == Accepted)
            && (s == Known ==> poll.code == 404 && get.code == 404)
            && (s == Errored ==> poll.code == 500 && get.code == 403)
  {
  }

  /** The attachment's file name gives back the query id. */
  lemma AttachmentNamesQuery(id: string, sql: string)
    ensures var r := GetQueryResult(id, GetSuccess(sql));
            exists h :: h in r.headers && h.ContentDisposition? &&
              StartsWith(h.value, "attachment;filename=") && EndsWith(h.value, ".json") &&
              h.value[|"attachment;filename="|..|h.value| - |".json"|] == id
  {
    var h := ContentDisposition("attachment;filename=" + id + ".json");
    assert h in GetQueryResult(id, GetSuccess(sql)).headers;
    assert h.value[|"attachment;filename="|..|h.value| - |".json"|] == id;
  }
}
