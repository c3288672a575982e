/** The conversation the lifecycle service holds with Incus for one agent request. */
module LifecycleProtocol {
  import opened Strings
  import opened PathEscaping
  import opened Incus
  import opened Lifecycle
  import opened RootDiskSelection
  import opened Operations
  import opened Programs

  datatype LifecycleResponse = LifecycleResponse(
    action: Action, instance: Text, status: Text, operationId: Text, operationKind: Text)

  datatype Result = Result(status: int, body: Option<LifecycleResponse>, err: Option<Error>)

  function Failed(error: Error): Result {
    Result(0, None, Some(error))
  }

  // ---------------------------------------------------------------- errors

  const CANCELLED := Error(UNAVAILABLE, "REQUEST_CANCELLED", "request cancelled")
  const UNKNOWN_PATH := Error(NOT_FOUND, "UNKNOWN_LIFECYCLE_PATH", "unknown lifecycle path")
  const BACKEND_UNAVAILABLE := Error(UNAVAILABLE, "INCUS_UNAVAILABLE", "incus lifecycle backend unavailable")
  const REFERENCE_MALFORMED :=
      Error(BAD_GATEWAY, "INCUS_OPERATION_MALFORMED", "incus lifecycle operation reference is malformed")
  const OPERATION_MALFORMED :=
      Error(BAD_GATEWAY, "INCUS_OPERATION_MALFORMED", "incus lifecycle operation response is malformed")
  const OPERATION_MISSING :=
      Error(BAD_GATEWAY, "INCUS_OPERATION_MISSING", "incus lifecycle operation disappeared before completion")
  const OPERATION_FAILED := Error(BAD_GATEWAY, "INCUS_OPERATION_FAILED", "incus lifecycle operation failed")
  const INSTANCE_MISSING :=
      Error(BAD_GATEWAY, "INCUS_INSTANCE_MISSING", "incus lifecycle create completed but instance is missing")

  function WrongMethod(action: Action): Error {
    Error(BAD_REQUEST, "METHOD_NOT_ALLOWED",
      match action
      case Create => "unsupported method for lifecycle create"
      case Delete => "unsupported method for lifecycle delete"
      case _ => "unsupported method for lifecycle action")
  }

  function IncusError(status: int): Error {
    if status == BAD_REQUEST then Error(status, "INCUS_BAD_REQUEST", "incus rejected lifecycle request")
    else if status == NOT_FOUND then Error(status, "INSTANCE_NOT_FOUND", "instance not found")
    else if status == CONFLICT then Error(status, "INSTANCE_STATE_CONFLICT", "instance state conflict")
    else if status == UNAVAILABLE then Error(status, "INCUS_UNAVAILABLE", "incus unavailable")
    else Error(status, "INCUS_LIFECYCLE_FAILED", "incus lifecycle operation failed")
  }

  // ---------------------------------------------------------------- what is read from answers

  /** The operation reference of a mutating call's answer.  A failed decode is ignored here. */
  function OperationOf(resp: Response): Text {
    if resp.body.bytes == [] then "" else resp.body.operation
  }

  /** The first reading of a mutating call's answer: the operation id to wait for ("" when the
      operation was synchronous), or an error. */
  function ReadMutation(answer: Answer): Outcome<Text> {
    if answer.None? then Failure(BACKEND_UNAVAILABLE)
    else
      var resp := answer.value;
      if !Is2xx(resp.status) then Failure(IncusError(resp.status))
      else if OperationOf(resp) == "" then
        if resp.status == ACCEPTED then Failure(REFERENCE_MALFORMED) else Success("")
      else if NormalizeOperationID(OperationOf(resp)) == "" then Failure(REFERENCE_MALFORMED)
      else Success(NormalizeOperationID(OperationOf(resp)))
  }

  function ReadWait(answer: Answer): Option<Error> {
    if answer.None? then Some(BACKEND_UNAVAILABLE)
    else
      var resp := answer.value;
      if resp.status == NOT_FOUND then Some(OPERATION_MISSING)
      else if !Is2xx(resp.status) then Some(IncusError(resp.status))
      else if resp.body.bytes == [] || !resp.body.envelopeOk then Some(OPERATION_MALFORMED)
      else if Is2xx(resp.body.statusCode) then None
      else if resp.body.statusCode == 0 then Some(OPERATION_MALFORMED)
      else Some(OPERATION_FAILED)
  }

  function ReadVerify(answer: Answer): Option<Error> {
    if answer.None? then Some(BACKEND_UNAVAILABLE)
    else if answer.value.status == NOT_FOUND then Some(INSTANCE_MISSING)
    else if !Is2xx(answer.value.status) then Some(IncusError(answer.value.status))
    else None
  }

  /** The success reply; an empty id means the operation was synchronous. */
  function Done(action: Action, instance: Text, id: Text): Result {
    var status: Text := if id == "" then "sync-ok" else "operation-completed";
    var kind: Text := if id == "" then "sync" else "async";
    Result(OK, Some(LifecycleResponse(action, instance, status, id, kind)), None)
  }

  // ---------------------------------------------------------------- requests to Incus

  const PROFILE_REQUEST := Request("", "GET", "/1.0/profiles/default", NoPayload)

  function WaitRequest(id: Text): Request {
    Request("", "GET", WaitPath(id), NoPayload)
  }

  function VerifyRequest(instance: Text): Request {
    Request("", "GET", "/1.0/instances/" + PathEscape(instance), NoPayload)
  }

  // ---------------------------------------------------------------- the conversation

  ghost function HandleProgram(verb: Text, path: Text, body: RequestBody): Program<Result> {
    Poll(cancelled =>
      if cancelled then Return(Failed(CANCELLED)) else RouteProgram(verb, ParseLifecyclePath(path), body))
  }

  ghost function RouteProgram(verb: Text, route: Option<Route>, body: RequestBody): Program<Result> {
    if route.None? then Return(Failed(UNKNOWN_PATH))
    else if verb != "POST" then Return(Failed(WrongMethod(route.value.action)))
    else match route.value.action
      case Create =>
        (match DecodeCreate(body)
         case Failure(e) => Return(Failed(e))
         case Success(req) => CreateProgram(req))
      case Delete =>
        (match DecodeDelete(body)
         case Failure(e) => Return(Failed(e))
         case Success(_) => CommandProgram(Delete, route.value.name, OtherPayload))
      case action =>
        (match DecodeStrict(body.size, body.force, false)
         case Failure(e) => Return(Failed(e))
         case Success(force) => CommandProgram(action, route.value.name, StatePayload(force)))
  }

  ghost function CreateProgram(req: CreateRequest): Program<Result> {
    Poll(cancelled =>
      if cancelled then Return(Failed(CANCELLED))
      else Call(ProfileCall, PROFILE_REQUEST, answer =>
        match ProfileStage(answer)
        case Failure(e) => Return(Failed(e))
        case Success(disk) => CommandProgram(Create, req.name, CreatePayload(req, disk))))
  }

  ghost function CommandProgram(action: Action, name: Text, payload: ActionPayload): Program<Result> {
    if ValidateInstanceName(name).Some? then Return(Failed(ValidateInstanceName(name).value))
    else match BuildIncusRequest(action, name, payload)
      case Failure(e) => Return(Failed(e))
      case Success(req) =>
        Call(MutateCall, req, answer =>
          match ReadMutation(answer)
          case Failure(e) => Return(Failed(e))
          case Success(id) => SettleProgram(action, name, id))
  }

  /** After the mutating call: wait for the operation, if there is one, then verify a create. */
  ghost function SettleProgram(action: Action, name: Text, id: Text): Program<Result> {
    if id == "" then VerifyProgram(action, name, id)
    else Poll(cancelled =>
      if cancelled then Return(Failed(CANCELLED))
      else Call(WaitCall, WaitRequest(id), answer =>
        var error := ReadWait(answer);
        if error.Some? then Return(Failed(error.value)) else VerifyProgram(action, name, id)))
  }

  ghost function VerifyProgram(action: Action, name: Text, id: Text): Program<Result> {
    if action != Create then Return(Done(action, name, id))
    else Poll(cancelled =>
      if cancelled then Return(Failed(CANCELLED))
      else if ValidateInstanceName(name).Some? then Return(Failed(ValidateInstanceName(name).value))
      else Call(VerifyCall, VerifyRequest(name), answer =>
        var error := ReadVerify(answer);
        Return(if error.Some? then Failed(error.value) else Done(action, name, id))))
  }
}
