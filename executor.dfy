/** The action executor (`execute_action`) and the recovery verifier
    (`verify_recovery`). The monitored service's answers are parameters: an
    HTTP response status or a transport error. */
module Executor {
  import opened Common
  import opened Workflows

  const RestartAction := "action_restart_service"
  const HttpRestart := "http_restart"
  const UnknownActionDetail := "unknown action"
  const RecoverDetail := "called /recover"
  const SimulatedDetail := "simulated restart (no docker)"

  /** What one bounded-timeout HTTP GET to the monitored service yields. */
  datatype HttpOutcome = Response(status: int) | TransportError(message: string)

  /** `{ok, detail[, status_code]}`. */
  datatype ActionResult = ActionResult(ok: bool, detail: string, statusCode: Option<int>)

  /** `{ok, status_code}` on a response, `{ok: False, error}` otherwise. */
  datatype VerifyResult = VerifyResult(ok: bool, statusCode: Option<int>, error: Option<string>)

  /** `params.get("method", "http_restart")`. */
  function MethodOf(p: Params): (m: Value)
    ensures "method" in p ==> m == p["method"]
    ensures "method" !in p ==> m == Str(HttpRestart)
  {
    if "method" in p then p["method"] else Str(HttpRestart)
  }

  /** The restart is performed by calling the service's /recover endpoint. */
  predicate CallsRecover(action: string, p: Params)
  {
    action == RestartAction && MethodOf(p) == Str(HttpRestart)
  }

  /** `recover` is the outcome of GET /recover, consulted only when the
      restart goes over HTTP. Any response at all counts as success. */
  function Execute(action: string, p: Params, recover: HttpOutcome): (r: ActionResult)
    ensures r.ok <==> action == RestartAction && (!CallsRecover(action, p) || recover.Response?)
    ensures action != RestartAction ==> r.detail == UnknownActionDetail
    ensures r.statusCode.Some? <==> CallsRecover(action, p) && recover.Response?
    ensures r.statusCode.Some? ==> r.statusCode.value == recover.status
    ensures CallsRecover(action, p) && recover.TransportError? ==> r.detail == recover.message
    ensures CallsRecover(action, p) && recover.Response? ==> r.detail == RecoverDetail
    ensures action == RestartAction && !CallsRecover(action, p) ==> r.detail == SimulatedDetail
  {
    if action == RestartAction then
      if MethodOf(p) == Str(HttpRestart) then
        match recover
        case Response(status) => ActionResult(true, RecoverDetail, Some(status))
        case TransportError(msg) => ActionResult(false, msg, None)
      else
        ActionResult(true, SimulatedDetail, None)
    else
      ActionResult(false, UnknownActionDetail, None)
  }

  /** Without an HTTP restart the service is never contacted: the result does
      not depend on what /recover would have answered. */
  lemma ExecuteWithoutCallIgnoresService(action: string, p: Params, r1: HttpOutcome, r2: HttpOutcome)
    requires !CallsRecover(action, p)
    ensures Execute(action, p, r1) == Execute(action, p, r2)
  {
  }

  /** `params.get("check_endpoint", "/")`. */
  function CheckEndpoint(p: Params): (c: Value)
    ensures "check_endpoint" in p ==> c == p["check_endpoint"]
    ensures "check_endpoint" !in p ==> c == Str("/")
  {
    if "check_endpoint" in p then p["check_endpoint"] else Str("/")
  }

  /** `probe` answers a GET of the given check path on the monitored service.
      Recovery is confirmed only by status 200. */
  function Verify(p: Params, probe: Value -> HttpOutcome): (r: VerifyResult)
    ensures r.ok <==> probe(CheckEndpoint(p)) == Response(200)
    ensures r.statusCode.Some? <==> probe(CheckEndpoint(p)).Response?
    ensures r.statusCode.Some? ==> r.statusCode.value == probe(CheckEndpoint(p)).status
    ensures r.error.Some? <==> probe(CheckEndpoint(p)).TransportError?
    ensures r.error.Some? ==> r.error.value == probe(CheckEndpoint(p)).message
  {
    match probe(CheckEndpoint(p))
    case Response(status) => VerifyResult(status == 200, Some(status), None)
    case TransportError(msg) => VerifyResult(false, None, Some(msg))
  }

  /** Without a "check_endpoint" parameter the service root is probed. */
  lemma VerifyDefaultsToRoot(p: Params, probe: Value -> HttpOutcome)
    requires "check_endpoint" !in p
    ensures Verify(p, probe).ok <==> probe(Str("/")) == Response(200)
  {
  }
}
