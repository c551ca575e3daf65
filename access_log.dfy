/**
 * The HTML access-log filter: it always passes the request down the chain,
 * and afterwards, for `.html` requests only, records one access line whose
 * client address is the `X-Forwarded-For` header unless that is absent or
 * blank, in which case it is the connection's remote address.
 */
module AccessLog {
  import opened Options
  import Text

  datatype Request = Request(
    httpMethod: string,
    uri: string,
    forwardedFor: Option<string>,
    remoteAddr: string)

  /** What the filter does, in order: the chain call, then the access line if any. */
  datatype Event =
    | ChainInvoked
    | HtmlAccess(ip: string, httpMethod: string, uri: string, status: int)

  /** How the rest of the chain ended: it returned with a response status, or it threw. */
  datatype ChainOutcome = Returned(status: int) | Threw

  const HtmlSuffix: string := ".html"

  function ClientIp(req: Request): string
  {
    match req.forwardedFor
    case Some(header) => if Text.IsBlank(header) then req.remoteAddr else header
    case None => req.remoteAddr
  }

  /** The header wins exactly when it is present and not blank; otherwise the remote address is used. */
  lemma ClientIpChoice(req: Request)
    ensures req.forwardedFor.Some? && !Text.IsBlank(req.forwardedFor.value) ==> ClientIp(req) == req.forwardedFor.value
    ensures req.forwardedFor.None? || Text.IsBlank(req.forwardedFor.value) ==> ClientIp(req) == req.remoteAddr
    ensures Text.IsBlank(ClientIp(req)) ==> ClientIp(req) == req.remoteAddr
  {
  }

  /**
   * `doFilterInternal`, as the sequence of its effects, given how the chain
   * ended. When the chain throws, its exception leaves the filter unchanged
   * before anything is logged, so the chain call is the only effect.
   */
  function FilterTrace(req: Request, chain: ChainOutcome): (trace: seq<Event>)
    ensures 1 <= |trace| <= 2 && trace[0] == ChainInvoked
    ensures forall i :: 0 < i < |trace| ==> trace[i].HtmlAccess?
    ensures |trace| == 2 <==> chain.Returned? && Text.EndsWith(req.uri, HtmlSuffix)
    ensures chain.Threw? ==> trace == [ChainInvoked]
    ensures |trace| == 2 ==> trace[1] == HtmlAccess(ClientIp(req), req.httpMethod, req.uri, chain.status)
  {
    match chain
    case Threw => [ChainInvoked]
    case Returned(status) =>
      [ChainInvoked] + (if Text.EndsWith(req.uri, HtmlSuffix) then [HtmlAccess(ClientIp(req), req.httpMethod, req.uri, status)] else [])
  }

  /** Which address a logged `.html` request is attributed to: the header's when usable. */
  lemma LoggedIpFollowsHeader(req: Request, status: int)
    requires Text.EndsWith(req.uri, HtmlSuffix)
    ensures req.forwardedFor.Some? && !Text.IsBlank(req.forwardedFor.value) ==> FilterTrace(req, Returned(status))[1].ip == req.forwardedFor.value
    ensures req.forwardedFor.None? || Text.IsBlank(req.forwardedFor.value) ==> FilterTrace(req, Returned(status))[1].ip == req.remoteAddr
  {
    ClientIpChoice(req);
  }
}
