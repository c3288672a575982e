/** What the server does with one message: validation, dispatch, the goroutine it starts, and the
    reply that goroutine ends with. */
module Handlers {
  import opened Strings
  import opened Incus
  import Lifecycle
  import opened Programs
  import opened LifecycleProtocol
  import opened StateReport
  import opened ReadPaths

  // ---------------------------------------------------------------- messages and replies

  /** How the host side of a network request ends. */
  datatype NetworkOutcome = NetworkDone | NetworkFailed(status: int, message: string)

  datatype AgentRequest = AgentRequest(
    id: Text, verb: Text, path: Text, bytes: Text, body: Lifecycle.RequestBody, network: NetworkOutcome)

  /** A message read from a connection: not JSON, or a decoded request. */
  datatype Message = Malformed | Decoded(req: AgentRequest)

  datatype ReplyBody = NoBody | FromIncus(body: Body) | LifecycleBody(response: LifecycleResponse)
    | CapabilitiesBody | StateBody(report: ReportResult) | NetworkBody

  datatype Reply = Reply(id: Text, status: int, body: ReplyBody, error: string)

  datatype Config = Config(
    parse: UriParser, lifecycle: bool, reporter: Option<ReportConfig>, networkState: bool, networkApplier: bool)

  function MessageID(m: Message): Text {
    if m.Malformed? then "" else m.req.id
  }

  /** The message passes validation and gets a goroutine of its own. */
  predicate IsValid(cfg: Config, m: Message) {
    m.Decoded? && ValidateProxyRequest(cfg.parse, m.req.id, m.req.verb, m.req.path).None?
  }

  /** The reply to a message that is not valid. */
  function ProtocolError(cfg: Config, m: Message): Reply {
    if m.Malformed? then Reply("", BAD_REQUEST, NoBody, "invalid request")
    else
      var error := ValidateProxyRequest(cfg.parse, m.req.id, m.req.verb, m.req.path);
      Reply(m.req.id, BAD_REQUEST, NoBody, if error.Some? then error.value else "")
  }

  // ---------------------------------------------------------------- one goroutine

  /** What a goroutine still has to do. */
  datatype Task =
    | Lifecycling(lifecycle: Program<Result>)
    | Reporting(report: Program<ReportResult>)
    | Forwarding(forward: Program<Answer>)
    | Replying(reply: Reply)

  function ForwardedRequest(req: AgentRequest): Request {
    Request(req.id, req.verb, req.path, Forwarded(req.bytes))
  }

  ghost function ForwardProgram(req: AgentRequest): Program<Answer> {
    Call(ForwardCall, ForwardedRequest(req), answer => Return(answer))
  }

  function Refusal(req: AgentRequest, status: int, message: string): Task {
    Replying(Reply(req.id, status, NoBody, message))
  }

  const LIFECYCLE_PREFIX: Text := "/agent/v1/lifecycle/"
  const STATE_PATH: Text := "/agent/v1/state"

  predicate IsLifecyclePath(path: Text) {
    path == Lifecycle.PATH_CAPABILITIES || LIFECYCLE_PREFIX <= path
  }

  /** handleRequest, handleAgentRequest and the handlers they dispatch to, up to their first event. */
  ghost function StartTask(cfg: Config, req: AgentRequest): Task {
    if !IsAgentRequest(req.path) then Forwarding(ForwardProgram(req))
    else if IsLifecyclePath(req.path) then StartLifecycle(cfg, req)
    else if req.path == STATE_PATH then StartReport(cfg, req)
    else if req.path == "/agent/v1/network/state" then
      StartNetwork(cfg.networkState, "GET", req, "unsupported method for network state",
                   "network state reporter not configured")
    else if req.path == "/agent/v1/network/apply" then
      StartNetwork(cfg.networkApplier, "POST", req, "unsupported method for network apply",
                   "network applier not configured")
    else Refusal(req, NOT_FOUND, "unknown agent path")
  }

  ghost function StartLifecycle(cfg: Config, req: AgentRequest): Task {
    if !cfg.lifecycle then Refusal(req, UNAVAILABLE, "lifecycle service not configured")
    else if req.path == Lifecycle.PATH_CAPABILITIES then
      if req.verb != "GET" then Refusal(req, BAD_REQUEST, "unsupported method for lifecycle capabilities")
      else Replying(Reply(req.id, OK, CapabilitiesBody, ""))
    else Lifecycling(HandleProgram(req.verb, req.path, req.body))
  }

  ghost function StartReport(cfg: Config, req: AgentRequest): Task {
    if req.verb != "GET" then Refusal(req, BAD_REQUEST, "unsupported method for agent state")
    else if cfg.reporter.None? then Refusal(req, INTERNAL_ERROR, "agent state reporter not configured")
    else Reporting(ReportProgram(cfg.reporter.value))
  }

  function StartNetwork(wired: bool, verb: Text, req: AgentRequest, wrongMethod: string, missing: string): Task {
    if req.verb != verb then Refusal(req, BAD_REQUEST, wrongMethod)
    else if !wired then Refusal(req, UNAVAILABLE, missing)
    else match req.network
      case NetworkDone => Replying(Reply(req.id, OK, NetworkBody, ""))
      case NetworkFailed(status, message) => Refusal(req, status, message)
  }

  /** What is left of a task after the events of a log. */
  ghost function TaskAfter(task: Task, log: seq<Event>): Option<Task> {
    match task
    case Lifecycling(p) => (match After(p, log) case None => None case Some(q) => Some(Lifecycling(q)))
    case Reporting(p) => (match After(p, log) case None => None case Some(q) => Some(Reporting(q)))
    case Forwarding(p) => (match After(p, log) case None => None case Some(q) => Some(Forwarding(q)))
    case Replying(_) => if log == [] then Some(task) else None
  }

  lemma TaskAfterConcat(task: Task, log1: seq<Event>, log2: seq<Event>)
    ensures TaskAfter(task, log1 + log2) ==
            if TaskAfter(task, log1).None? then None else TaskAfter(TaskAfter(task, log1).value, log2)
  {
    match task
    case Lifecycling(p) => AfterConcat(p, log1, log2);
    case Reporting(p) => AfterConcat(p, log1, log2);
    case Forwarding(p) => AfterConcat(p, log1, log2);
    case Replying(_) => if log1 == [] { assert log1 + log2 == log2; }
  }

  ghost predicate Polls(task: Task) {
    || (task.Lifecycling? && task.lifecycle.Poll?)
    || (task.Reporting? && task.report.Poll?)
    || (task.Forwarding? && task.forward.Poll?)
  }

  ghost predicate CallsNow(task: Task, kind: CallKind, req: Request) {
    || (task.Lifecycling? && task.lifecycle.Call? && task.lifecycle.kind == kind && task.lifecycle.req == req)
    || (task.Reporting? && task.report.Call? && task.report.kind == kind && task.report.req == req)
    || (task.Forwarding? && task.forward.Call? && task.forward.kind == kind && task.forward.req == req)
  }

  ghost predicate Returned(task: Task) {
    || task.Replying?
    || (task.Lifecycling? && task.lifecycle.Return?)
    || (task.Reporting? && task.report.Return?)
    || (task.Forwarding? && task.forward.Return?)
  }

  /** handleLifecycle's conversion of a result; a status 0 without an error would become 503. */
  function LifecycleReply(id: Text, r: Result): Reply {
    if r.err.Some? then Reply(id, r.err.value.status, NoBody, r.err.value.message)
    else
      var status := if r.status == 0 then UNAVAILABLE else r.status;
      Reply(id, status, if r.body.Some? then LifecycleBody(r.body.value) else NoBody, "")
  }

  /** An answer of Incus as the response it is passed through as. */
  function PassedThrough(answer: Answer): Option<Reply> {
    match answer
    case None => None
    case Some(resp) => Some(Reply(resp.id, resp.status, FromIncus(resp.body), resp.error))
  }

  /** The response handed to writeResponse; None is nil. */
  ghost function ResponseOf(id: Text, task: Task): Option<Reply>
    requires Returned(task)
  {
    match task
    case Replying(reply) => Some(reply)
    case Lifecycling(p) => Some(LifecycleReply(id, p.result))
    case Reporting(p) =>
      if p.result.HostnameFailed? then Some(Reply(id, INTERNAL_ERROR, NoBody, "build agent state report"))
      else Some(Reply(id, OK, StateBody(p.result), ""))
    case Forwarding(p) => PassedThrough(p.result)
  }

  /** writeResponse: a nil response and a response that cannot be marshalled become errors. */
  function Written(id: Text, resp: Option<Reply>, marshals: bool): Reply {
    if resp.None? then Reply(id, INTERNAL_ERROR, NoBody, "empty response")
    else if !marshals then Reply(id, INTERNAL_ERROR, NoBody, "marshal response")
    else resp.value
  }

  lemma OneEvent(task: Task, e: Event)
    requires (e.Polled? && Polls(task)) || (e.Called? && CallsNow(task, e.kind, e.req))
    ensures TaskAfter(task, [e]).Some?
  {
    assert [e][1..] == [];
    match task
    case Lifecycling(p) =>
      assert After(if p.Poll? then p.onPoll(e.cancelled) else p.onAnswer(e.answer), []).Some?;
    case Reporting(p) =>
      assert After(if p.Poll? then p.onPoll(e.cancelled) else p.onAnswer(e.answer), []).Some?;
    case Forwarding(p) =>
      assert After(if p.Poll? then p.onPoll(e.cancelled) else p.onAnswer(e.answer), []).Some?;
    case Replying(_) =>
  }
}
