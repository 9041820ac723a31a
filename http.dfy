/**
 * The HTTP client's answers, taken as inputs: the server never sees more of a network
 * call than one of these outcomes.
 */
module Http {
  import opened Wrappers
  import opened Text
  import opened Js

  /** An axios response: status line, lower-cased headers, `Set-Cookie` lines, parsed body. */
  datatype Response = Response(
    status: nat,
    statusText: string,
    headers: map<string, string>,
    setCookie: seq<string>,
    data: Value)

  /** What a call produced: an answer, no answer, or a request that never went out. */
  datatype Outcome =
    | Answered(response: Response)
    | Unanswered(message: string)
    | NotSent(message: string)

  /** axios's default `validateStatus`. */
  predicate DefaultStatus(status: nat) {
    200 <= status < 300
  }

  /** The GraphQL query's own status test: every status from 200 up to, not including, 500. */
  predicate QueryStatus(status: nat) {
    200 <= status < 500
  }

  /** The message axios gives an answer whose status `validateStatus` rejects. */
  function StatusMessage(status: nat): string {
    "Request failed with status code " + NatToString(status)
  }

  /** Awaiting an axios call: it resolves to the response, or rejects as axios does. */
  function Settle(o: Outcome, accepts: nat -> bool): (r: Result<Response, Exception>)
    ensures r.Success? <==> o.Answered? && accepts(o.response.status)
    ensures r.Success? ==> r.value == o.response
    ensures o.Answered? && !accepts(o.response.status) ==>
      r.error.HttpError? && r.error.status == o.response.status && r.error.data == o.response.data
    ensures o.Unanswered? ==> r == Failure(NoResponse(o.message))
    ensures o.NotSent? ==> r.error.Thrown?
  {
    match o
    case Answered(resp) =>
      if accepts(resp.status) then Success(resp)
      else Failure(HttpError(StatusMessage(resp.status), resp.status, resp.statusText, resp.data))
    case Unanswered(m) => Failure(NoResponse(m))
    case NotSent(m) => Failure(Thrown("AxiosError", m))
  }

  /** A response header as a string; an absent header reads as the falsy empty string. */
  function HeaderValue(headers: map<string, string>, name: string): string {
    if name in headers then headers[name] else ""
  }
}
