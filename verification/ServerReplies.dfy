/** Every reply the server writes, field by field: to invalid messages, to requests passed through,
    and to each of the agent's own paths. */
module ServerReplies {
  import opened Strings
  import opened Incus
  import opened Programs
  import opened LifecycleProtocol
  import LifecycleMeaning
  import opened StateReport
  import opened ReadPaths
  import opened Handlers
  import opened Requests
  import opened RequestsTheorems
  import opened ServerTheorems
  import Lifecycle

  // ---------------------------------------------------------------- writing

  predicate IsError(reply: Reply, id: Text, status: int, message: string) {
    reply.id == id && reply.status == status && reply.body.NoBody? && reply.error == message
  }

  /** What is written of a response: an error when it is nil or does not marshal, else its fields. */
  lemma WrittenMeaning(id: Text, resp: Option<Reply>, marshals: bool)
    ensures resp.None? ==> IsError(Written(id, resp, marshals), id, 500, "empty response")
    ensures resp.Some? && !marshals ==> IsError(Written(id, resp, marshals), id, 500, "marshal response")
    ensures resp.Some? && marshals ==>
              && Written(id, resp, marshals).id == resp.value.id
              && Written(id, resp, marshals).status == resp.value.status
              && Written(id, resp, marshals).body == resp.value.body
              && Written(id, resp, marshals).error == resp.value.error
  {
  }

  /** The reply made of an answer of Incus: its id, status, body and error text, unless there was no
      answer or it does not marshal. */
  predicate IsPassedOn(reply: Reply, id: Text, answer: Answer, marshals: bool) {
    if answer.None? then IsError(reply, id, 500, "empty response")
    else if !marshals then IsError(reply, id, 500, "marshal response")
    else
      && reply.id == answer.value.id && reply.status == answer.value.status
      && reply.body == FromIncus(answer.value.body) && reply.error == answer.value.error
  }

  lemma PassedOn(id: Text, answer: Answer, marshals: bool)
    ensures IsPassedOn(Written(id, PassedThrough(answer), marshals), id, answer, marshals)
  {
    WrittenMeaning(id, PassedThrough(answer), marshals);
  }

  // ---------------------------------------------------------------- replies in reachable states

  /** The attempt's message and the log of what was done for it explain its reply. */
  lemma ReplyOf(cfg: Config, s: State, i: nat)
    requires Reachable(MachineOf(cfg), s) && i < |s.attempts|
    ensures RightReply(MachineOf(cfg), s, s.attempts[i])
  {
    var steps :| Reaches(MachineOf(cfg), INITIAL, steps, s);
    ReachedIsSound(MachineOf(cfg), steps, s);
  }

  /** In every reachable state, an invalid message is answered 400 with the first check it fails. */
  lemma InvalidReply(cfg: Config, s: State, i: nat)
    requires Reachable(MachineOf(cfg), s) && i < |s.attempts| && s.attempts[i].n < |s.received|
    requires !IsValid(cfg, s.received[s.attempts[i].n].message)
    ensures match s.received[s.attempts[i].n].message
            case Malformed => IsError(s.attempts[i].reply, [], 400, "invalid request")
            case Decoded(req) =>
              && ValidateProxyRequest(cfg.parse, req.id, req.verb, req.path).Some?
              && IsError(s.attempts[i].reply, req.id, 400,
                         ValidateProxyRequest(cfg.parse, req.id, req.verb, req.path).value)
  {
    ReplyOf(cfg, s, i);
  }

  /** In every reachable state, the reply to a request passed through is made of the answer to its
      one call, which was for its own message. */
  lemma ForwardedReply(cfg: Config, s: State, i: nat)
    requires Reachable(MachineOf(cfg), s) && i < |s.attempts| && s.attempts[i].n < |s.received|
    requires IsValid(cfg, s.received[s.attempts[i].n].message)
    requires !IsAgentRequest(s.received[s.attempts[i].n].message.req.path)
    ensures var req := s.received[s.attempts[i].n].message.req;
            var log := LocalLog(s.trace, s.attempts[i].n);
            && |log| == 1 && log[0].Called?
            && log[0].req == Request(req.id, req.verb, req.path, Forwarded(req.bytes))
            && exists marshals :: IsPassedOn(s.attempts[i].reply, req.id, log[0].answer, marshals)
  {
    ReplyOf(cfg, s, i);
    var a := s.attempts[i];
    var req := s.received[a.n].message.req;
    var log := LocalLog(s.trace, a.n);
    StartTaskReplies(cfg, req, log);
    var marshals :| a.reply == Written(req.id, PassedThrough(log[0].answer), marshals);
    PassedOn(req.id, log[0].answer, marshals);
  }

  /** The reply made of a lifecycle result: the error's status and message, or the result's status
      and body, where a missing status would become 503. */
  lemma LifecycleReplyFields(id: Text, r: Result)
    ensures r.err.Some? ==> IsError(LifecycleReply(id, r), id, r.err.value.status, r.err.value.message)
    ensures r.err.None? ==>
              && LifecycleReply(id, r).id == id && LifecycleReply(id, r).error == ""
              && LifecycleReply(id, r).status == (if r.status == 0 then 503 else r.status)
              && LifecycleReply(id, r).body == (if r.body.Some? then LifecycleBody(r.body.value) else NoBody)
  {
  }

  /** The error a lifecycle request ends with, if it does. */
  ghost function ErrorOf(req: AgentRequest, log: seq<Event>): Option<Lifecycle.Error>
    requires log != [] && log[0].Polled?
  {
    if log[0].cancelled then Some(Lifecycle.Error(503, "REQUEST_CANCELLED", "request cancelled"))
    else if LifecycleMeaning.RefusalOf(req.verb, Lifecycle.ParseLifecyclePath(req.path), req.body).Some? then
      LifecycleMeaning.RefusalOf(req.verb, Lifecycle.ParseLifecyclePath(req.path), req.body)
    else LifecycleMeaning.FailureAt(log[|log| - 1])
  }

  /** In every reachable state, a lifecycle request that failed is answered with the status and the
      message of its error, and with nothing else. */
  lemma LifecycleErrorReply(cfg: Config, s: State, i: nat)
    requires Reachable(MachineOf(cfg), s) && i < |s.attempts| && s.attempts[i].n < |s.received|
    requires IsValid(cfg, s.received[s.attempts[i].n].message)
    requires StartTask(cfg, s.received[s.attempts[i].n].message.req).Lifecycling?
    ensures var req := s.received[s.attempts[i].n].message.req;
            var log := LocalLog(s.trace, s.attempts[i].n);
            && log != [] && log[0].Polled?
            && (ErrorOf(req, log).Some? ==>
                || IsMarshalFailure(s.attempts[i].reply, req.id)
                || IsError(s.attempts[i].reply, req.id, ErrorOf(req, log).value.status,
                           ErrorOf(req, log).value.message))
  {
    ReplyOf(cfg, s, i);
    var a := s.attempts[i];
    var req := s.received[a.n].message.req;
    var log := LocalLog(s.trace, a.n);
    StartedPrograms(cfg, req);
    var r := After(HandleProgram(req.verb, req.path, req.body), log).value.result;
    LifecycleMeaning.OutcomeMeaning(req.verb, req.path, req.body, log, r);
    WrittenMeaning(req.id, Some(LifecycleReply(req.id, r)), true);
    WrittenMeaning(req.id, Some(LifecycleReply(req.id, r)), false);
  }

  predicate IsReportReply(reply: Reply, id: Text, report: ReportResult) {
    if report.HostnameFailed? then IsError(reply, id, 500, "build agent state report")
    else reply.id == id && reply.status == 200 && reply.body == StateBody(report) && reply.error == ""
  }

  /** In every reachable state, a state request is answered with the report of its own run. */
  lemma ReportReply(cfg: Config, s: State, i: nat)
    requires Reachable(MachineOf(cfg), s) && i < |s.attempts| && s.attempts[i].n < |s.received|
    requires IsValid(cfg, s.received[s.attempts[i].n].message)
    requires StartTask(cfg, s.received[s.attempts[i].n].message.req).Reporting?
    ensures var req := s.received[s.attempts[i].n].message.req;
            cfg.reporter.Some? && exists report ::
              && Runs(ReportProgram(cfg.reporter.value), LocalLog(s.trace, s.attempts[i].n), report)
              && (IsMarshalFailure(s.attempts[i].reply, req.id) || IsReportReply(s.attempts[i].reply, req.id, report))
  {
    ReplyOf(cfg, s, i);
    var a := s.attempts[i];
    var req := s.received[a.n].message.req;
    StartedPrograms(cfg, req);
    var report := After(ReportProgram(cfg.reporter.value), LocalLog(s.trace, a.n)).value.result;
    assert Runs(ReportProgram(cfg.reporter.value), LocalLog(s.trace, a.n), report);
  }

  // ---------------------------------------------------------------- replies without a program

  /** The network paths: a wrong method, a service that is not there, or the service's outcome. */
  predicate IsNetworkReply(reply: Reply, req: AgentRequest, wired: bool, verb: Text, method': string, missing: string) {
    if req.verb != verb then IsError(reply, req.id, 400, method')
    else if !wired then IsError(reply, req.id, 503, missing)
    else match req.network
      case NetworkDone => reply.id == req.id && reply.status == 200 && reply.body == NetworkBody && reply.error == ""
      case NetworkFailed(status, message) => IsError(reply, req.id, status, message)
  }

  /** The reply to a request for one of the agent's own paths that runs no program. */
  predicate IsDirectReply(cfg: Config, req: AgentRequest, reply: Reply) {
    if "/agent/v1/lifecycle/" <= req.path then
      if !cfg.lifecycle then IsError(reply, req.id, 503, "lifecycle service not configured")
      else
        && req.path == "/agent/v1/lifecycle/capabilities"
        && if req.verb != "GET" then IsError(reply, req.id, 400, "unsupported method for lifecycle capabilities")
           else reply.id == req.id && reply.status == 200 && reply.body == CapabilitiesBody && reply.error == ""
    else if req.path == "/agent/v1/state" then
      if req.verb != "GET" then IsError(reply, req.id, 400, "unsupported method for agent state")
      else cfg.reporter.None? && IsError(reply, req.id, 500, "agent state reporter not configured")
    else if req.path == "/agent/v1/network/state" then
      IsNetworkReply(reply, req, cfg.networkState, "GET",
                     "unsupported method for network state", "network state reporter not configured")
    else if req.path == "/agent/v1/network/apply" then
      IsNetworkReply(reply, req, cfg.networkApplier, "POST",
                     "unsupported method for network apply", "network applier not configured")
    else IsError(reply, req.id, 404, "unknown agent path")
  }

  lemma LifecyclePathMeaning(path: Text)
    ensures IsLifecyclePath(path) <==> "/agent/v1/lifecycle/" <= path
  {
    assert "/agent/v1/lifecycle/" <= "/agent/v1/lifecycle/capabilities";
  }

  lemma AgentPathMeaning(path: Text)
    ensures IsAgentRequest(path) <==> "/agent/v1/" <= path
  {
    AgentRequestMeaning(path);
  }

  lemma LifecycleDispatch(cfg: Config, req: AgentRequest)
    requires "/agent/v1/lifecycle/" <= req.path
    ensures var task := StartLifecycle(cfg, req);
            if cfg.lifecycle && req.path != "/agent/v1/lifecycle/capabilities" then
              task == Lifecycling(HandleProgram(req.verb, req.path, req.body))
            else task.Replying? && IsDirectReply(cfg, req, task.reply)
  {
  }

  lemma ReportDispatch(cfg: Config, req: AgentRequest)
    requires req.path == "/agent/v1/state"
    ensures var task := StartReport(cfg, req);
            if req.verb == "GET" && cfg.reporter.Some? then task == Reporting(ReportProgram(cfg.reporter.value))
            else task.Replying? && IsDirectReply(cfg, req, task.reply)
  {
    assert req.path[10] == 's' && "/agent/v1/lifecycle/"[10] == 'l';
  }

  lemma NetworkDispatch(cfg: Config, req: AgentRequest)
    requires req.path == "/agent/v1/network/state" || req.path == "/agent/v1/network/apply"
    ensures var task := StartTask(cfg, req);
            task.Replying? && IsDirectReply(cfg, req, task.reply)
  {
    assert req.path[10] == 'n' && "/agent/v1/lifecycle/"[10] == 'l' && "/agent/v1/state"[10] == 's';
    LifecyclePathMeaning(req.path);
    AgentPathMeaning(req.path);
  }

  /** Which path a request takes: through to Incus, to the lifecycle service, to the reporter, or
      straight to a reply that is fixed by the request and the configuration. */
  lemma DispatchMeaning(cfg: Config, req: AgentRequest)
    ensures match StartTask(cfg, req)
            case Forwarding(_) => !("/agent/v1/" <= req.path)
            case Lifecycling(p) =>
              && "/agent/v1/lifecycle/" <= req.path && req.path != "/agent/v1/lifecycle/capabilities"
              && cfg.lifecycle && p == HandleProgram(req.verb, req.path, req.body)
            case Reporting(p) =>
              && req.path == "/agent/v1/state" && req.verb == "GET"
              && cfg.reporter.Some? && p == ReportProgram(cfg.reporter.value)
            case Replying(reply) => "/agent/v1/" <= req.path && IsDirectReply(cfg, req, reply)
  {
    AgentPathMeaning(req.path);
    LifecyclePathMeaning(req.path);
    if "/agent/v1/" <= req.path {
      if "/agent/v1/lifecycle/" <= req.path {
        LifecycleDispatch(cfg, req);
      } else if req.path == "/agent/v1/state" {
        ReportDispatch(cfg, req);
      } else if req.path == "/agent/v1/network/state" || req.path == "/agent/v1/network/apply" {
        NetworkDispatch(cfg, req);
      }
    }
  }

  /** In every reachable state, a request that runs no program is answered as its path says. */
  lemma DirectReply(cfg: Config, s: State, i: nat)
    requires Reachable(MachineOf(cfg), s) && i < |s.attempts| && s.attempts[i].n < |s.received|
    requires IsValid(cfg, s.received[s.attempts[i].n].message)
    requires StartTask(cfg, s.received[s.attempts[i].n].message.req).Replying?
    ensures var req := s.received[s.attempts[i].n].message.req;
            && "/agent/v1/" <= req.path
            && (IsMarshalFailure(s.attempts[i].reply, req.id) || IsDirectReply(cfg, req, s.attempts[i].reply))
  {
    ReplyOf(cfg, s, i);
    DispatchMeaning(cfg, s.received[s.attempts[i].n].message.req);
  }
}
