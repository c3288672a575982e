/** What holds of the agent's server in every interleaved run: identifiers, and what reaches Incus. */
module ServerTheorems {
  import opened Strings
  import opened PathEscaping
  import opened Incus
  import Lifecycle
  import opened Operations
  import opened Programs
  import opened LifecycleProtocol
  import opened LifecycleTheorems
  import LifecycleSecrecy
  import opened StateReport
  import opened ReadPaths
  import opened Handlers
  import opened Requests
  import opened RequestsTheorems

  /** The machine of a server with this configuration. */
  ghost function MachineOf(cfg: Config): Machine {
    Machine(
      m => IsValid(cfg, m),
      (m: Message) => if m.Decoded? then StartTask(cfg, m.req) else Replying(ProtocolError(cfg, m)),
      m => ProtocolError(cfg, m))
  }

  // ---------------------------------------------------------------- identifiers

  lemma LifecycleStarts(cfg: Config, req: AgentRequest)
    ensures var task := StartLifecycle(cfg, req);
            if cfg.lifecycle && req.path != Lifecycle.PATH_CAPABILITIES then
              task == Lifecycling(HandleProgram(req.verb, req.path, req.body))
            else task.Replying? && task.reply.id == req.id
  {
  }

  lemma ReportStarts(cfg: Config, req: AgentRequest)
    ensures var task := StartReport(cfg, req);
            if req.verb == "GET" && cfg.reporter.Some? then task == Reporting(ReportProgram(cfg.reporter.value))
            else task.Replying? && task.reply.id == req.id
  {
  }

  lemma NetworkReplies(wired: bool, verb: Text, req: AgentRequest, wrongMethod: string, missing: string)
    ensures var task := StartNetwork(wired, verb, req, wrongMethod, missing);
            task.Replying? && task.reply.id == req.id
  {
  }

  /** The goroutine that runs a program, by the path of its request; every other one only replies. */
  lemma StartedPrograms(cfg: Config, req: AgentRequest)
    ensures match StartTask(cfg, req)
            case Forwarding(p) => !IsAgentRequest(req.path) && p == ForwardProgram(req)
            case Lifecycling(p) =>
              && IsAgentRequest(req.path) && IsLifecyclePath(req.path)
              && p == HandleProgram(req.verb, req.path, req.body)
            case Reporting(p) =>
              && IsAgentRequest(req.path) && req.path == STATE_PATH && !IsLifecyclePath(req.path)
              && cfg.reporter.Some? && p == ReportProgram(cfg.reporter.value)
            case Replying(reply) => IsAgentRequest(req.path) && reply.id == req.id
    ensures StartTask(cfg, req).Forwarding? <==> !IsAgentRequest(req.path)
  {
    LifecycleStarts(cfg, req);
    ReportStarts(cfg, req);
    NetworkReplies(cfg.networkState, "GET", req, "unsupported method for network state",
                   "network state reporter not configured");
    NetworkReplies(cfg.networkApplier, "POST", req, "unsupported method for network apply",
                   "network applier not configured");
  }

  lemma ForwardRuns(req: AgentRequest, log: seq<Event>)
    requires After(ForwardProgram(req), log).Some? && After(ForwardProgram(req), log).value.Return?
    ensures |log| == 1 && log[0].Called? && log[0].kind == ForwardCall && log[0].req == ForwardedRequest(req)
    ensures After(ForwardProgram(req), log).value.result == log[0].answer
  {
    var p := Programs.Step(ForwardProgram(req), log);
    assert log[1..] == [];
  }

  /** The one step of a request passed through. */
  lemma ForwardedOnce(req: AgentRequest, answer: Answer)
    ensures CallsNow(Forwarding(ForwardProgram(req)), ForwardCall, ForwardedRequest(req))
    ensures TaskAfter(Forwarding(ForwardProgram(req)), [Called(ForwardCall, ForwardedRequest(req), answer)])
         == Some(Forwarding(Return(answer)))
  {
    var e := Called(ForwardCall, ForwardedRequest(req), answer);
    assert [e][1..] == [];
    assert After(Return(answer), [e][1..]) == Some(Return(answer));
  }

  lemma StartTaskReplies(cfg: Config, req: AgentRequest, log: seq<Event>)
    requires TaskAfter(StartTask(cfg, req), log).Some? && Returned(TaskAfter(StartTask(cfg, req), log).value)
    ensures var resp := ResponseOf(req.id, TaskAfter(StartTask(cfg, req), log).value);
            if IsAgentRequest(req.path) then resp.Some? && resp.value.id == req.id
            else
              && |log| == 1 && log[0].Called? && log[0].kind == ForwardCall && log[0].req == ForwardedRequest(req)
              && resp == PassedThrough(log[0].answer)
  {
    StartedPrograms(cfg, req);
    if StartTask(cfg, req).Forwarding? {
      ForwardRuns(req, log);
    }
  }

  /** A backend that, like Client.Execute, copies the request's identifier into its answer. */
  predicate KeepsIDs(log: seq<Event>) {
    forall i | 0 <= i < |log| :: log[i].Called? && log[i].answer.Some? ==> log[i].answer.value.id == log[i].req.id
  }

  /** Every reply carries the identifier of its own message, on every branch; only an answer passed
      through from a backend that does not keep identifiers can carry another, namely its own. */
  lemma RepliesCarryTheirID(cfg: Config, s: State, i: nat)
    requires Reachable(MachineOf(cfg), s) && i < |s.attempts|
    ensures var a := s.attempts[i];
            && a.n < |s.received|
            && (|| a.reply.id == MessageID(s.received[a.n].message)
                || exists e :: && e in LocalLog(s.trace, a.n) && e.Called? && e.kind == ForwardCall
                               && e.req.id == MessageID(s.received[a.n].message)
                               && e.answer.Some? && e.answer.value.id == a.reply.id)
            && (KeepsIDs(LocalLog(s.trace, a.n)) ==> a.reply.id == MessageID(s.received[a.n].message))
  {
    var steps :| Reaches(MachineOf(cfg), INITIAL, steps, s);
    ReachedIsSound(MachineOf(cfg), steps, s);
    var a := s.attempts[i];
    assert RightReply(MachineOf(cfg), s, a);
    var m := s.received[a.n].message;
    if IsValid(cfg, m) {
      var log := LocalLog(s.trace, a.n);
      StartTaskReplies(cfg, m.req, log);
      if !IsAgentRequest(m.req.path) {
        var p := Programs.Step(ForwardProgram(m.req), log);
        assert log[0] in log;
      }
    }
  }

  // ---------------------------------------------------------------- what reaches Incus

  /** A call an accepted lifecycle command may make, given what its goroutine did: the one mutation
      its message comes to, and the agent's own reads.  The wait is for the operation the answer to
      the mutation named; its id holds no slash. */
  ghost predicate IsCallOf(action: Lifecycle.Action, name: Text, body: Lifecycle.RequestBody, log: seq<Event>,
                           kind: CallKind, req: Request) {
    match kind
    case ProfileCall => action == Lifecycle.Create && req == Request([], "GET", "/1.0/profiles/default", NoPayload)
    case MutateCall => IsMutationOf(action, name, req) && IsOwnMutation(action, name, body, log, req)
    case WaitCall =>
      && |Answers(log, MutateCall)| == 1
      && (var id := WaitIdOf(Answers(log, MutateCall)[0]);
          && req == Request([], "GET", "/1.0/operations/" + PathEscape(id) + "/wait", NoPayload)
          && id != [] && '/' !in id)
    case VerifyCall => action == Lifecycle.Create && req == Request([], "GET", "/1.0/instances/" + name, NoPayload)
    case _ => false
  }

  /** What one call to Incus may be, given the message it serves and what was done for it; requests
      for other agent paths make no call at all. */
  ghost predicate IsAllowedCall(cfg: Config, m: Message, log: seq<Event>, kind: CallKind, req: Request) {
    && IsValid(cfg, m)
    && (if !IsAgentRequest(m.req.path) then
          && kind == ForwardCall && req == ForwardedRequest(m.req)
          && req.verb == "GET" && cfg.parse(req.path).Some? && IsReadable(cfg.parse(req.path).value)
        else if IsLifecyclePath(m.req.path) then
          exists action, name ::
            && Accepts(m.req.verb, m.req.path, m.req.body, action, name)
            && IsCallOf(action, name, m.req.body, log, kind, req)
        else m.req.path == STATE_PATH && IsReportRead(kind, req))
  }

  lemma {:induction false} CallIsRecorded(log: seq<Event>, i: nat)
    requires i < |log| && log[i].Called?
    ensures log[i].kind in Kinds(log) && log[i].req in RequestsOf(log, log[i].kind)
  {
    Unfold(log);
    if i > 0 {
      CallIsRecorded(log[1..], i - 1);
      assert log[1..][i - 1] == log[i];
    }
  }

  /** A call of a kind that is made at most once is that one call. */
  lemma OnlyCall(log: seq<Event>, i: nat, expected: Option<Request>)
    requires i < |log| && log[i].Called? && AtMost(log, log[i].kind, expected)
    ensures expected == Some(log[i].req) && !NoneOf(log, log[i].kind)
  {
    CallIsRecorded(log, i);
  }

  lemma FollowingWait(action: Lifecycle.Action, name: Text, body: Lifecycle.RequestBody, log: seq<Event>, i: nat)
    requires Follows(action, name, log)
    requires i < |log| && log[i].Called? && log[i].kind == WaitCall
    ensures IsCallOf(action, name, body, log, log[i].kind, log[i].req)
  {
    CallIsRecorded(log, i);
    var answer := Answers(log, MutateCall)[0];
    OnlyCall(log, i, WaitRequestFor(WaitIdOf(answer)));
    NormalizedIsClean(answer.value.body.operation);
    assert log[i].req == WaitRequest(WaitIdOf(answer));
    AgentReads(name, WaitIdOf(answer));
  }

  lemma FollowingMutation(action: Lifecycle.Action, name: Text, body: Lifecycle.RequestBody, log: seq<Event>, i: nat)
    requires Follows(action, name, log) && SendsItsOwn(action, name, body, log)
    requires i < |log| && log[i].Called? && log[i].kind == MutateCall
    ensures IsCallOf(action, name, body, log, log[i].kind, log[i].req)
  {
    CallIsRecorded(log, i);
    TheOne(RequestsOf(log, MutateCall), log[i].req);
  }

  lemma TheOne(requests: seq<Request>, req: Request)
    requires req in requests
    ensures |requests| == 1 ==> requests[0] == req
  {
  }

  lemma FollowingCall(action: Lifecycle.Action, name: Text, body: Lifecycle.RequestBody, log: seq<Event>, i: nat)
    requires Follows(action, name, log) && SendsItsOwn(action, name, body, log)
    requires Lifecycle.MatchesNamePattern(name)
    requires i < |log| && log[i].Called?
    ensures IsCallOf(action, name, body, log, log[i].kind, log[i].req)
  {
    CallIsRecorded(log, i);
    KindsMadeMembers(log, log[i].kind);
    if log[i].kind == ProfileCall {
      OnlyCall(log, i, ProfileRequestFor(action));
      AgentReads(name, []);
    } else if log[i].kind == MutateCall {
      FollowingMutation(action, name, body, log, i);
    } else if log[i].kind == WaitCall {
      FollowingWait(action, name, body, log, i);
    } else {
      OnlyCall(log, i, VerifyRequestFor(action, name));
      AgentReads(name, []);
    }
  }

  /** The reads the service makes for itself. */
  lemma AgentReads(name: Text, id: Text)
    ensures PROFILE_REQUEST == Request([], "GET", "/1.0/profiles/default", NoPayload)
    ensures WaitRequest(id) == Request([], "GET", "/1.0/operations/" + PathEscape(id) + "/wait", NoPayload)
    ensures Lifecycle.MatchesNamePattern(name) ==>
              VerifyRequest(name) == Request([], "GET", "/1.0/instances/" + name, NoPayload)
  {
    if Lifecycle.MatchesNamePattern(name) {
      Lifecycle.ValidationMeaning(name, []);
      Lifecycle.ValidNameEscapesToItself(name);
    }
  }

  /** The command a conversation with calls belongs to. */
  lemma CommandOf(verb: Text, path: Text, body: Lifecycle.RequestBody, log: seq<Event>)
    returns (action: Lifecycle.Action, name: Text)
    requires After(HandleProgram(verb, path, body), log).Some? && Kinds(log) != []
    ensures Accepts(verb, path, body, action, name) && Follows(action, name, log)
              && SendsItsOwn(action, name, body, log)
  {
    EveryConversation(verb, path, body, log);
    action, name :| && Accepts(verb, path, body, action, name) && Follows(action, name, log)
                    && SendsItsOwn(action, name, body, log);
  }

  lemma LifecycleCallAllowed(verb: Text, path: Text, body: Lifecycle.RequestBody, log: seq<Event>, i: nat)
    returns (action: Lifecycle.Action, name: Text)
    requires After(HandleProgram(verb, path, body), log).Some? && i < |log| && log[i].Called?
    ensures Accepts(verb, path, body, action, name)
    ensures IsCallOf(action, name, body, log, log[i].kind, log[i].req)
  {
    CallIsRecorded(log, i);
    action, name := CommandOf(verb, path, body, log);
    FollowingCall(action, name, body, log, i);
  }

  lemma ForwardCallIs(req: AgentRequest, log: seq<Event>, i: nat)
    requires After(ForwardProgram(req), log).Some? && i < |log| && log[i].Called?
    ensures log[i].kind == ForwardCall && log[i].req == ForwardedRequest(req)
  {
    var q := Programs.Step(ForwardProgram(req), log);
    assert log[1..] == [];
  }

  lemma TaskCallAllowed(cfg: Config, m: Message, log: seq<Event>, i: nat)
    requires IsValid(cfg, m) && TaskAfter(StartTask(cfg, m.req), log).Some?
    requires i < |log| && log[i].Called?
    ensures IsAllowedCall(cfg, m, log, log[i].kind, log[i].req)
  {
    var req := m.req;
    StartedPrograms(cfg, req);
    var task := StartTask(cfg, req);
    match task
    case Lifecycling(_) => var action, name := LifecycleCallAllowed(req.verb, req.path, req.body, log, i);
    case Reporting(_) => ReportReadsOnly(cfg.reporter.value, log);
    case Forwarding(_) =>
      ValidatedIsAgentOrRead(cfg.parse, req.id, req.verb, req.path);
      AllowedMeaning(cfg.parse(req.path).value);
      ForwardCallIs(req, log, i);
    case Replying(_) =>
  }

  lemma AllowedVerb(cfg: Config, m: Message, log: seq<Event>, kind: CallKind, req: Request)
    requires IsAllowedCall(cfg, m, log, kind, req)
    ensures req.verb == "GET" || kind == MutateCall
  {
  }

  lemma TracedCallAllowed(cfg: Config, s: State, i: nat)
    requires Sound(MachineOf(cfg), s) && i < |s.trace| && s.trace[i].1.Called?
    ensures var n, e := s.trace[i].0, s.trace[i].1;
            n < |s.received| && IsAllowedCall(cfg, s.received[n].message, LocalLog(s.trace, n), e.kind, e.req)
  {
    var n, e := s.trace[i].0, s.trace[i].1;
    LocalLogHolds(s.trace, i);
    assert Traced(MachineOf(cfg), s, n);
    var log := LocalLog(s.trace, n);
    var k :| 0 <= k < |log| && log[k] == e;
    TaskCallAllowed(cfg, s.received[n].message, log, k);
  }

  /** In every interleaved run of any number of clients and requests, against any backend, every
      call that reaches Incus is a GET of an allowed path passed through, one of the fixed reads of
      a state report, or a call of an accepted lifecycle command; and only that command's one
      mutation, every field of it taken from its message and the profile, is no GET. */
  lemma EveryCallIsAllowed(cfg: Config, s: State, i: nat)
    requires Reachable(MachineOf(cfg), s) && i < |s.trace| && s.trace[i].1.Called?
    ensures var n, e := s.trace[i].0, s.trace[i].1;
            && n < |s.received|
            && IsAllowedCall(cfg, s.received[n].message, LocalLog(s.trace, n), e.kind, e.req)
            && (e.req.verb == "GET" || e.kind == MutateCall)
  {
    var steps :| Reaches(MachineOf(cfg), INITIAL, steps, s);
    ReachedIsSound(MachineOf(cfg), steps, s);
    TracedCallAllowed(cfg, s, i);
    var n, e := s.trace[i].0, s.trace[i].1;
    AllowedVerb(cfg, s.received[n].message, LocalLog(s.trace, n), e.kind, e.req);
  }

  lemma LifecycleTask(cfg: Config, s: State, n: nat)
    requires Reachable(MachineOf(cfg), s) && n < |s.received| && IsValid(cfg, s.received[n].message)
    requires StartTask(cfg, s.received[n].message.req).Lifecycling?
    ensures var req := s.received[n].message.req;
            var left := After(HandleProgram(req.verb, req.path, req.body), LocalLog(s.trace, n));
            && (n in s.tasks || LocalLog(s.trace, n) != [] ==> left.Some?)
            && (n in s.tasks ==> s.tasks[n] == Lifecycling(left.value))
  {
    var steps :| Reaches(MachineOf(cfg), INITIAL, steps, s);
    ReachedIsSound(MachineOf(cfg), steps, s);
    assert Traced(MachineOf(cfg), s, n);
    StartedPrograms(cfg, s.received[n].message.req);
  }

  /** What is made of one request's log. */
  lemma ConversationBounds(verb: Text, path: Text, body: Lifecycle.RequestBody, log: seq<Event>)
    requires After(HandleProgram(verb, path, body), log).Some?
    ensures |RequestsOf(log, MutateCall)| <= 1 && |Kinds(log)| <= 4
    ensures Kinds(log) == [] || exists action, name ::
              && Accepts(verb, path, body, action, name) && Follows(action, name, log)
              && SendsItsOwn(action, name, body, log)
              && (Kinds(log) <= CallOrder(action, true) || Kinds(log) <= CallOrder(action, false))
  {
    EveryConversation(verb, path, body, log);
    if Kinds(log) == [] {
      NoKindsNoRequests(log);
    } else {
      var action, name := CommandOf(verb, path, body, log);
      FollowsCallOrder(action, name, log);
    }
  }

  /** The global trace, projected to one lifecycle request, is a conversation of that request, whole
      or cut short: nothing, or an accepted command following its protocol.  At most one mutating
      call is ever made for it, and that is the request its own message comes to. */
  lemma LifecycleProjection(cfg: Config, s: State, n: nat)
    requires Reachable(MachineOf(cfg), s) && n < |s.received| && IsValid(cfg, s.received[n].message)
    requires StartTask(cfg, s.received[n].message.req).Lifecycling?
    ensures var req := s.received[n].message.req;
            var log := LocalLog(s.trace, n);
            && |RequestsOf(log, MutateCall)| <= 1 && |Kinds(log)| <= 4
            && (Kinds(log) == [] || exists action, name ::
                  && Accepts(req.verb, req.path, req.body, action, name) && Follows(action, name, log)
                  && SendsItsOwn(action, name, req.body, log)
                  && (Kinds(log) <= CallOrder(action, true) || Kinds(log) <= CallOrder(action, false)))
  {
    var req := s.received[n].message.req;
    var log := LocalLog(s.trace, n);
    LifecycleTask(cfg, s, n);
    if log == [] {
      NoKindsNoRequests(log);
    } else {
      ConversationBounds(req.verb, req.path, req.body, log);
    }
  }

  lemma {:induction false} NoKindsNoRequests(log: seq<Event>)
    requires Kinds(log) == []
    ensures forall kind :: RequestsOf(log, kind) == []
  {
    Unfold(log);
    if log != [] { NoKindsNoRequests(log[1..]); }
  }

  /** The status the server would substitute for a missing one is never needed. */
  lemma StatusIsNeverReplaced(cfg: Config, s: State, n: nat)
    requires Reachable(MachineOf(cfg), s) && n < |s.received| && IsValid(cfg, s.received[n].message)
    requires StartTask(cfg, s.received[n].message.req).Lifecycling?
    requires n in s.tasks && Returned(s.tasks[n])
    ensures s.tasks[n].Lifecycling?
    ensures var r := s.tasks[n].lifecycle.result;
            (r.err.None? ==> r.status == 200) && (r.err.Some? ==> !Is2xx(r.err.value.status))
  {
    var req := s.received[n].message.req;
    LifecycleTask(cfg, s, n);
    LifecycleSecrecy.ResultStatus(req.verb, req.path, req.body, LocalLog(s.trace, n), s.tasks[n].lifecycle.result);
  }

  /** What a reply to a lifecycle request says, in every reachable state: 200 only if the whole
      conversation made for it observed completion; and if it did, the reply describes it, unless
      the reply itself could not be marshalled. */
  lemma LifecycleReplyMeaning(cfg: Config, s: State, i: nat)
    requires Reachable(MachineOf(cfg), s) && i < |s.attempts| && s.attempts[i].n < |s.received|
    requires IsValid(cfg, s.received[s.attempts[i].n].message)
    requires StartTask(cfg, s.received[s.attempts[i].n].message.req).Lifecycling?
    ensures var req := s.received[s.attempts[i].n].message.req;
            var log := LocalLog(s.trace, s.attempts[i].n);
            && (s.attempts[i].reply.status == 200 ==>
                exists action :: AsksFor(req.path, action) && Completed(action, log))
            && (forall action | AsksFor(req.path, action) && Completed(action, log) ::
                  || IsMarshalFailure(s.attempts[i].reply, req.id)
                  || IsCompletionReply(s.attempts[i].reply, req, action, log))
  {
    var steps :| Reaches(MachineOf(cfg), INITIAL, steps, s);
    ReachedIsSound(MachineOf(cfg), steps, s);
    var a := s.attempts[i];
    var req := s.received[a.n].message.req;
    var log := LocalLog(s.trace, a.n);
    assert RightReply(MachineOf(cfg), s, a);
    StartedPrograms(cfg, req);
    var r := After(HandleProgram(req.verb, req.path, req.body), log).value.result;
    LifecycleReplyOf(req, log, r);
  }

  predicate IsMarshalFailure(reply: Reply, id: Text) {
    reply.id == id && reply.status == 500 && reply.body.NoBody? && reply.error == "marshal response"
  }

  /** The reply to a completed command, field by field. */
  ghost predicate IsCompletionReply(reply: Reply, req: AgentRequest, action: Lifecycle.Action, log: seq<Event>) {
    && reply.id == req.id && reply.status == 200 && reply.error == "" && reply.body.LifecycleBody?
    && |Answers(log, MutateCall)| == 1
    && DescribesConversation(reply.body.response, action, InstanceNamed(req.path, req.body),
                             Answers(log, MutateCall)[0])
  }

  lemma LifecycleReplyOf(req: AgentRequest, log: seq<Event>, r: Result)
    requires Runs(HandleProgram(req.verb, req.path, req.body), log, r)
    ensures LifecycleReply(req.id, r).status == 200 ==>
              exists action :: AsksFor(req.path, action) && Completed(action, log)
    ensures forall action | AsksFor(req.path, action) && Completed(action, log) ::
              IsCompletionReply(LifecycleReply(req.id, r), req, action, log)
  {
    LifecycleSecrecy.ResultStatus(req.verb, req.path, req.body, log, r);
    HandleSucceedsIff(req.verb, req.path, req.body, log, r);
  }
}
