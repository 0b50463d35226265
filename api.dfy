/**
 * The HTTP client's result handling: a successful response is handed on
 * with its data, any other is classified into a problem kind.
 */
module Api {
  import opened Wrappers
  import opened Objects

  /** The problem kinds a failed call is sorted into. */
  datatype ProblemKind =
    | CannotConnect | Timeout | Server | Unauthorized | Forbidden | NotFound
    | Rejected | Cancelled | Unknown

  /**
   * `ApiProblems`: the kind, the `temporary` flag (absent reads as false)
   * and the original error when the response carried one.
   */
  datatype ApiProblem = ApiProblem(kind: ProblemKind, temporary: bool, error: Option<string>)

  /**
   * The parts of an HTTP client response the wrapping reads: `ok`, the
   * client's problem code, the status, the original error (absent when
   * falsy) and the body.
   */
  datatype ApiResponse<D> = ApiResponse(
    ok: bool,
    problem: Option<string>,
    status: Option<int>,
    originalError: Option<string>,
    data: D)

  /** What `post`, `download` and `graphql` return. */
  datatype Reply<D> = Ok(data: D) | Problem(problem: ApiProblem)

  /** The problem kind for a response's problem code and, for client errors, its status. */
  function KindOf(code: Option<string>, status: Option<int>): (k: ProblemKind)
    ensures code == Some("CONNECTION_ERROR") || code == Some("NETWORK_ERROR") ==> k == CannotConnect
    ensures code == Some("TIMEOUT_ERROR") ==> k == Timeout
    ensures code == Some("SERVER_ERROR") ==> k == Server
    ensures code == Some("CLIENT_ERROR") ==>
      k == (if status == Some(401) then Unauthorized
            else if status == Some(403) then Forbidden
            else if status == Some(404) then NotFound
            else Rejected)
    ensures code == Some("CANCEL_ERROR") ==> k == Cancelled
    ensures k == Unknown <==>
      code !in {Some("CONNECTION_ERROR"), Some("NETWORK_ERROR"), Some("TIMEOUT_ERROR"),
                Some("SERVER_ERROR"), Some("CLIENT_ERROR"), Some("CANCEL_ERROR")}
  {
    match code
    case None => Unknown
    case Some(c) =>
      if c == "CONNECTION_ERROR" || c == "NETWORK_ERROR" then CannotConnect
      else if c == "TIMEOUT_ERROR" then Timeout
      else if c == "SERVER_ERROR" then Server
      else if c == "CLIENT_ERROR" then
        (if status == Some(401) then Unauthorized
         else if status == Some(403) then Forbidden
         else if status == Some(404) then NotFound
         else Rejected)
      else if c == "CANCEL_ERROR" then Cancelled
      else Unknown
  }

  /**
   * `getApiProblem`: the problem starts as `unknown` and the switch on the
   * problem code replaces it; the original error, when there is one, is
   * then written into whatever problem was chosen.
   */
  method GetApiProblem<D>(response: ApiResponse<D>) returns (problem: ApiProblem)
    ensures problem.kind == KindOf(response.problem, response.status)
    ensures problem.temporary <==> problem.kind == CannotConnect || problem.kind == Timeout
    ensures problem.error == response.originalError
  {
    problem := ApiProblem(Unknown, false, None);
    match response.problem {
      case Some(c) =>
        if c == "CONNECTION_ERROR" {
          problem := ApiProblem(CannotConnect, true, None);
        } else if c == "NETWORK_ERROR" {
          problem := ApiProblem(CannotConnect, true, None);
        } else if c == "TIMEOUT_ERROR" {
          problem := ApiProblem(Timeout, true, None);
        } else if c == "SERVER_ERROR" {
          problem := ApiProblem(Server, false, response.originalError);
        } else if c == "CLIENT_ERROR" {
          if response.status == Some(401) {
            problem := ApiProblem(Unauthorized, false, None);
          } else if response.status == Some(403) {
            problem := ApiProblem(Forbidden, false, None);
          } else if response.status == Some(404) {
            problem := ApiProblem(NotFound, false, None);
          } else {
            problem := ApiProblem(Rejected, false, None);
          }
        } else if c == "CANCEL_ERROR" {
          problem := ApiProblem(Cancelled, false, None);
        }
      case None =>
    }
    if response.originalError.Some? {
      problem := problem.(error := response.originalError);
    }
  }

  /** The problem `getApiProblem` builds, as a value. */
  function ProblemOf<D>(response: ApiResponse<D>): ApiProblem {
    var k := KindOf(response.problem, response.status);
    ApiProblem(k, k == CannotConnect || k == Timeout, response.originalError)
  }

  /**
   * `post`, `download`, `upload` and `callSignServer` after the call: an
   * ok response is handed on with its body and never classified; any
   * other response is classified.
   */
  method Wrap<D>(response: ApiResponse<D>) returns (r: Reply<D>)
    ensures r.Ok? <==> response.ok
    ensures r.Ok? ==> r.data == response.data
    ensures r.Problem? ==> r.problem == ProblemOf(response)
  {
    if response.ok {
      return Ok(response.data);
    }
    var p := GetApiProblem(response);
    r := Problem(p);
  }

  /** A GraphQL response body: its `data` object, when present. */
  datatype GraphqlBody<V> = GraphqlBody(data: Option<Obj<V>>)

  /** `response.data?.data?.[def]`: the field named by the query's definition, if every step exists. */
  function GraphqlField<V>(body: Option<GraphqlBody<V>>, def: string): (r: Option<V>)
    ensures r.Some? <==> body.Some? && body.value.data.Some? && HasKey(body.value.data.value, def)
  {
    if body.None? || body.value.data.None? then None else Get(body.value.data.value, def)
  }

  /** `graphql` after the call: an ok response carries the definition's field, any other is classified. */
  method Graphql<V>(response: ApiResponse<Option<GraphqlBody<V>>>, def: string) returns (r: Reply<Option<V>>)
    ensures r.Ok? <==> response.ok
    ensures r.Ok? ==> r.data == GraphqlField(response.data, def)
    ensures r.Problem? ==> r.problem == ProblemOf(response)
  {
    if response.ok {
      return Ok(GraphqlField(response.data, def));
    }
    var p := GetApiProblem(response);
    r := Problem(p);
  }
}
