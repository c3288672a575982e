/** What holds of every conversation of the lifecycle service, whatever Incus answers and whenever
    the context is cancelled. */
module LifecycleTheorems {
  import opened Strings
  import opened Decimal
  import opened Incus
  import opened Lifecycle
  import opened RootDiskSelection
  import opened Operations
  import opened Programs
  import opened LifecycleProtocol

  // ---------------------------------------------------------------- statements

  /** An accepted agent request: validated, and (for delete) confirmed. */
  ghost predicate Accepts(verb: Text, path: Text, body: RequestBody, action: Action, name: Text) {
    && verb == "POST"
    && ParseLifecyclePath(path).Some?
    && ParseLifecyclePath(path).value.action == action
    && MatchesNamePattern(name)
    && (match action
        case Create => DecodeCreate(body).Success? && DecodeCreate(body).value.name == name
        case Delete =>
          && ParseLifecyclePath(path).value.name == name
          && 0 < body.size <= MAX_BODY_BYTES && body.confirm == Decoded(true)
        case _ =>
          && ParseLifecyclePath(path).value.name == name
          && (body.size == 0 || (body.size <= MAX_BODY_BYTES && body.force.Decoded?)))
  }

  /** The one mutating request an accepted command may send. */
  ghost predicate IsMutationOf(action: Action, name: Text, req: Request) {
    match action
    case Create => req.verb == "POST" && req.path == "/1.0/instances" && req.body.InstanceCreate?
        && req.body.name == name
    case Delete => req.verb == "DELETE" && req.path == "/1.0/instances/" + name && req.body == NoPayload
    case _ =>
      && req.verb == "PUT" && req.path == "/1.0/instances/" + name + "/state"
      && req.body.StateChange? && req.body.action == ActionText(action)
  }

  /** The kinds of call, in order, of a complete conversation. */
  function CallOrder(action: Action, waits: bool): seq<CallKind> {
    (if action == Create then [ProfileCall] else []) + [MutateCall]
    + (if waits then [WaitCall] else []) + (if action == Create then [VerifyCall] else [])
  }

  /** The answer refers to an operation: its body decodes to one. */
  predicate HasReference(answer: Answer) {
    answer.Some? && answer.value.body.bytes != [] && answer.value.body.operation != []
  }

  /** The operation a mutating call's answer refers to, "" when there is none to wait for. */
  function WaitIdOf(answer: Answer): Text {
    if HasReference(answer) then NormalizeOperationID(answer.value.body.operation) else []
  }

  /** Answered 2xx; a reference, required on 202, names an operation. */
  predicate MutationAccepted(answer: Answer) {
    && answer.Some? && Is2xx(answer.value.status)
    && (answer.value.status == 202 ==> HasReference(answer))
    && (HasReference(answer) ==> WaitIdOf(answer) != [])
  }

  /** The reply body of a command whose mutation was answered like this, field by field. */
  ghost predicate DescribesConversation(b: LifecycleResponse, action: Action, instance: Text, answer: Answer) {
    && b.action == action
    && b.instance == instance
    && b.operationId == WaitIdOf(answer)
    && b.operationKind == (if HasReference(answer) then "async" else "sync")
    && b.status == (if HasReference(answer) then "operation-completed" else "sync-ok")
  }

  ghost predicate IsSuccessReply(r: Result, action: Action, instance: Text, answer: Answer) {
    r.err.None? && r.status == 200 && r.body.Some? && DescribesConversation(r.body.value, action, instance, answer)
  }

  lemma DoneMeaning(action: Action, instance: Text, answer: Answer)
    requires MutationAccepted(answer)
    ensures IsSuccessReply(Done(action, instance, WaitIdOf(answer)), action, instance, answer)
  {
  }

  predicate WaitCompleted(answer: Answer) {
    && answer.Some? && Is2xx(answer.value.status)
    && answer.value.body.bytes != [] && answer.value.body.envelopeOk && Is2xx(answer.value.body.statusCode)
  }

  /** Exactly one wait, on exactly this operation, answered that it completed. */
  ghost predicate WaitedFor(id: Text, log: seq<Event>) {
    id != "" ==>
      && |Answers(log, WaitCall)| == 1
      && WaitCompleted(Answers(log, WaitCall)[0])
      && RequestsOf(log, WaitCall) == [WaitRequest(id)]
  }

  /** The operation the mutating call referred to, if any, was seen to complete. */
  ghost predicate Waited(log: seq<Event>) {
    && |Answers(log, MutateCall)| == 1
    && WaitedFor(WaitIdOf(Answers(log, MutateCall)[0]), log)
  }

  /** For create, the instance was then read back. */
  ghost predicate Verified(action: Action, log: seq<Event>) {
    action == Create ==>
      && |Answers(log, VerifyCall)| == 1
      && Answers(log, VerifyCall)[0].Some?
      && Is2xx(Answers(log, VerifyCall)[0].value.status)
  }

  /** The whole conversation observed completion, and no cancellation check fired. */
  ghost predicate Completed(action: Action, log: seq<Event>) {
    && Uncancelled(log)
    && |Answers(log, MutateCall)| == 1
    && MutationAccepted(Answers(log, MutateCall)[0])
    && Waited(log)
    && Verified(action, log)
  }

  // ---------------------------------------------------------------- the last stages

  lemma ReadingMeanings(answer: Answer)
    ensures ReadMutation(answer).Success? <==> MutationAccepted(answer)
    ensures ReadMutation(answer).Success? ==> ReadMutation(answer).value == WaitIdOf(answer)
    ensures ReadWait(answer).None? <==> WaitCompleted(answer)
    ensures ReadVerify(answer).None? <==> answer.Some? && Is2xx(answer.value.status)
  {
    if answer.Some? && OperationOf(answer.value) == "" {
      assert TrimSpace("") == "";
    }
  }

  lemma VerifyResult(action: Action, name: Text, id: Text, log: seq<Event>, r: Result)
    requires Runs(VerifyProgram(action, name, id), log, r)
    requires ValidateInstanceName(name).None?
    ensures r.err.None? ==> r == Done(action, name, id)
    ensures r.err.None? <==> Uncancelled(log) && Verified(action, log)
  {
    Unfold(log);
    if log != [] {
      var afterPoll := Step(VerifyProgram(action, name, id), log);
      var rest := log[1..];
      Unfold(rest);
      if log[0].cancelled {
        assert afterPoll == Return(Failed(CANCELLED));
      } else {
        assert afterPoll.Call?;
        var end := Step(afterPoll, rest);
        var error := ReadVerify(rest[0].answer);
        assert end == Return(if error.Some? then Failed(error.value) else Done(action, name, id));
        assert rest[1..] == [];
        Unfold(rest[1..]);
        ReadingMeanings(rest[0].answer);
      }
    }
  }

  ghost predicate NoneOf(log: seq<Event>, kind: CallKind) {
    Answers(log, kind) == [] && RequestsOf(log, kind) == []
  }

  /** At most the one request `req`, when there is one, is made by calls of this kind. */
  ghost predicate AtMost(log: seq<Event>, kind: CallKind, req: Option<Request>) {
    NoneOf(log, kind) || (req.Some? && RequestsOf(log, kind) == [req.value] && |Answers(log, kind)| == 1)
  }

  /** The calls after the mutation, whole or cut short: wait, then verify once it has completed. */
  ghost predicate Settles(log: seq<Event>, wait: Option<Request>, verify: Option<Request>) {
    && NoneOf(log, MutateCall) && NoneOf(log, ProfileCall)
    && AtMost(log, WaitCall, wait) && AtMost(log, VerifyCall, verify)
    && Kinds(log) == (if NoneOf(log, WaitCall) then [] else [WaitCall])
        + (if NoneOf(log, VerifyCall) then [] else [VerifyCall])
    && (wait.Some? && !NoneOf(log, VerifyCall) ==>
        |Answers(log, WaitCall)| == 1 && WaitCompleted(Answers(log, WaitCall)[0]))
  }

  lemma NothingBetween(a: seq<CallKind>, b: seq<CallKind>)
    ensures a + ([] + b) == a + b && a + [] == a
  {
  }

  /** A poll and a wait, then the rest of the calls. */
  lemma WaitThenRest(log: seq<Event>)
    requires |log| >= 2 && log[0].Polled? && log[1].Called? && log[1].kind == WaitCall
    ensures Kinds(log) == [WaitCall] + Kinds(log[1..][1..])
    ensures Answers(log, WaitCall) == [log[1].answer] + Answers(log[1..][1..], WaitCall)
    ensures RequestsOf(log, WaitCall) == [log[1].req] + RequestsOf(log[1..][1..], WaitCall)
    ensures forall kind | kind != WaitCall ::
              Answers(log, kind) == Answers(log[1..][1..], kind)
                  && RequestsOf(log, kind) == RequestsOf(log[1..][1..], kind)
    ensures Uncancelled(log) <==> !log[0].cancelled && Uncancelled(log[1..][1..])
  {
    Unfold(log);
    Unfold(log[1..]);
  }

  lemma SettlesAfterWait(log: seq<Event>, wait: Request, verify: Option<Request>)
    requires |log| >= 2 && log[0].Polled? && log[1].Called? && log[1].kind == WaitCall && log[1].req == wait
    requires if WaitCompleted(log[1].answer) then Settles(log[1..][1..], None, verify) else log[1..][1..] == []
    ensures Settles(log, Some(wait), verify)
  {
    WaitThenRest(log);
    Unfold([]);
    NothingBetween([WaitCall], if NoneOf(log, VerifyCall) then [] else [VerifyCall]);
  }

  lemma SettlesUncalled(log: seq<Event>, wait: Option<Request>, verify: Option<Request>)
    requires log == [] || (log[0].Polled? && log[1..] == [])
    ensures Settles(log, wait, verify)
  {
    Unfold(log);
    Unfold([]);
  }

  function WaitRequestFor(id: Text): Option<Request> {
    if id == "" then None else Some(WaitRequest(id))
  }

  function VerifyRequestFor(action: Action, name: Text): Option<Request> {
    if action == Create then Some(VerifyRequest(name)) else None
  }

  lemma VerifySettles(action: Action, name: Text, id: Text, log: seq<Event>)
    requires After(VerifyProgram(action, name, id), log).Some?
    requires ValidateInstanceName(name).None?
    ensures Settles(log, None, VerifyRequestFor(action, name))
  {
    if log == [] {
      SettlesUncalled(log, None, VerifyRequestFor(action, name));
    } else {
      var afterPoll := Step(VerifyProgram(action, name, id), log);
      var rest := log[1..];
      if rest == [] {
        SettlesUncalled(log, None, VerifyRequestFor(action, name));
      } else {
        var end := Step(afterPoll, rest);
        assert rest[1..] == [];
        SettlesByVerify(log, VerifyRequest(name));
      }
    }
  }

  lemma SettlesByVerify(log: seq<Event>, verify: Request)
    requires |log| == 2 && log[0].Polled?
    requires log[1].Called? && log[1].kind == VerifyCall && log[1].req == verify
    ensures Settles(log, None, Some(verify))
  {
    Unfold(log);
    Unfold(log[1..]);
    assert log[1..][1..] == [];
    Unfold([]);
  }

  lemma SettleStage(action: Action, name: Text, id: Text, log: seq<Event>)
    requires After(SettleProgram(action, name, id), log).Some?
    requires ValidateInstanceName(name).None?
    ensures Settles(log, WaitRequestFor(id), VerifyRequestFor(action, name))
  {
    if id == "" {
      VerifySettles(action, name, id, log);
    } else if log == [] {
      SettlesUncalled(log, WaitRequestFor(id), VerifyRequestFor(action, name));
    } else {
      var afterPoll := Step(SettleProgram(action, name, id), log);
      var rest := log[1..];
      if rest == [] {
        SettlesUncalled(log, WaitRequestFor(id), VerifyRequestFor(action, name));
      } else {
        var afterWait := Step(afterPoll, rest);
        ReadingMeanings(rest[0].answer);
        if ReadWait(rest[0].answer).Some? {
          assert afterWait.Return?;
        } else {
          assert afterWait == VerifyProgram(action, name, id);
          VerifySettles(action, name, id, rest[1..]);
        }
        SettlesAfterWait(log, WaitRequest(id), VerifyRequestFor(action, name));
      }
    }
  }

  /** A completed wait before the last stage. */
  lemma AfterCompletedWait(action: Action, id: Text, log: seq<Event>)
    requires id != "" && |log| >= 2 && log[0].Polled? && !log[0].cancelled
    requires log[1].Called? && log[1].kind == WaitCall && log[1].req == WaitRequest(id)
    requires NoneOf(log[1..][1..], WaitCall)
    ensures WaitedFor(id, log) <==> WaitCompleted(log[1].answer)
    ensures Uncancelled(log) <==> Uncancelled(log[1..][1..])
    ensures Verified(action, log) <==> Verified(action, log[1..][1..])
  {
    WaitThenRest(log);
  }

  lemma SettleResult(action: Action, name: Text, id: Text, log: seq<Event>, r: Result)
    requires Runs(SettleProgram(action, name, id), log, r)
    requires ValidateInstanceName(name).None?
    ensures r.err.None? ==> r == Done(action, name, id)
    ensures r.err.None? <==> Uncancelled(log) && WaitedFor(id, log) && Verified(action, log)
  {
    if id == "" {
      VerifyResult(action, name, id, log, r);
    } else {
      var afterPoll := Step(SettleProgram(action, name, id), log);
      var rest := log[1..];
      if log[0].cancelled {
        assert afterPoll == Return(Failed(CANCELLED));
      } else {
        assert afterPoll.Call?;
        var afterWait := Step(afterPoll, rest);
        var tail := rest[1..];
        var error := ReadWait(rest[0].answer);
        ReadingMeanings(rest[0].answer);
        if error.Some? {
          assert afterWait == Return(Failed(error.value));
          Unfold(tail);
        } else {
          assert afterWait == VerifyProgram(action, name, id);
          VerifySettles(action, name, id, tail);
          VerifyResult(action, name, id, tail, r);
        }
        AfterCompletedWait(action, id, log);
      }
    }
  }

  // ---------------------------------------------------------------- the mutating stage

  /** The calls from the mutation on, whole or cut short. */
  ghost predicate Mutates(log: seq<Event>, req: Request, verify: Option<Request>) {
    && NoneOf(log, ProfileCall)
    && AtMost(log, MutateCall, Some(req))
    && (NoneOf(log, MutateCall) ==> Kinds(log) == [])
    && (!NoneOf(log, MutateCall) ==>
          && |Answers(log, MutateCall)| == 1
          && Kinds(log) == [MutateCall] + (if NoneOf(log, WaitCall) then [] else [WaitCall])
                                        + (if NoneOf(log, VerifyCall) then [] else [VerifyCall])
          && AtMost(log, WaitCall, WaitRequestFor(WaitIdOf(Answers(log, MutateCall)[0])))
          && AtMost(log, VerifyCall, verify)
          && (!NoneOf(log, VerifyCall) ==> MutationAccepted(Answers(log, MutateCall)[0]) && Waited(log)))
  }

  lemma RegroupTail(a: seq<CallKind>, b: seq<CallKind>, c: seq<CallKind>)
    ensures a + (b + c) == a + b + c
  {
  }

  lemma KindsAfterMutation(log: seq<Event>, wait: Option<Request>, verify: Option<Request>)
    requires log != [] && log[0].Called? && log[0].kind == MutateCall && Settles(log[1..], wait, verify)
    ensures Kinds(log) == [MutateCall] + (if NoneOf(log, WaitCall) then [] else [WaitCall])
                                       + (if NoneOf(log, VerifyCall) then [] else [VerifyCall])
  {
    Unfold(log);
    RegroupTail([MutateCall], if NoneOf(log, WaitCall) then [] else [WaitCall],
                if NoneOf(log, VerifyCall) then [] else [VerifyCall]);
  }

  lemma MutatesAndStops(log: seq<Event>, req: Request, verify: Option<Request>)
    requires log != [] && log[0].Called? && log[0].kind == MutateCall && log[0].req == req && log[1..] == []
    ensures Mutates(log, req, verify)
  {
    Unfold(log);
    Unfold([]);
  }

  /** A mutation, then the rest of the calls. */
  lemma MutationThenRest(log: seq<Event>)
    requires log != [] && log[0].Called? && log[0].kind == MutateCall && NoneOf(log[1..], MutateCall)
    ensures Answers(log, MutateCall) == [log[0].answer] && RequestsOf(log, MutateCall) == [log[0].req]
    ensures Answers(log, ProfileCall) == Answers(log[1..], ProfileCall)
    ensures RequestsOf(log, ProfileCall) == RequestsOf(log[1..], ProfileCall)
    ensures Answers(log, WaitCall) == Answers(log[1..], WaitCall)
    ensures RequestsOf(log, WaitCall) == RequestsOf(log[1..], WaitCall)
    ensures Answers(log, VerifyCall) == Answers(log[1..], VerifyCall)
    ensures RequestsOf(log, VerifyCall) == RequestsOf(log[1..], VerifyCall)
  {
    Unfold(log);
  }

  lemma MutatesThenSettles(log: seq<Event>, req: Request, verify: Option<Request>)
    requires log != [] && log[0].Called? && log[0].kind == MutateCall && log[0].req == req
    requires MutationAccepted(log[0].answer)
    requires Settles(log[1..], WaitRequestFor(WaitIdOf(log[0].answer)), verify)
    ensures Mutates(log, req, verify)
  {
    KindsAfterMutation(log, WaitRequestFor(WaitIdOf(log[0].answer)), verify);
    MutationThenRest(log);
  }

  lemma CommandStage(action: Action, name: Text, payload: ActionPayload, req: Request, log: seq<Event>)
    requires ValidateInstanceName(name).None?
    requires BuildIncusRequest(action, name, payload) == Success(req)
    requires After(CommandProgram(action, name, payload), log).Some?
    ensures Mutates(log, req, VerifyRequestFor(action, name))
  {
    if log == [] {
      Unfold(log);
    } else {
      var next := Step(CommandProgram(action, name, payload), log);
      ReadingMeanings(log[0].answer);
      match ReadMutation(log[0].answer)
      case Failure(e) =>
        assert next == Return(Failed(e));
        MutatesAndStops(log, req, VerifyRequestFor(action, name));
      case Success(id) =>
        assert next == SettleProgram(action, name, id);
        SettleStage(action, name, id, log[1..]);
        MutatesThenSettles(log, req, VerifyRequestFor(action, name));
    }
  }

  lemma CompletedFromMutation(action: Action, log: seq<Event>)
    requires log != [] && log[0].Called? && log[0].kind == MutateCall && NoneOf(log[1..], MutateCall)
    ensures Completed(action, log) <==>
            && MutationAccepted(log[0].answer)
            && Uncancelled(log[1..]) && WaitedFor(WaitIdOf(log[0].answer), log[1..]) && Verified(action, log[1..])
    ensures |Answers(log, MutateCall)| == 1 && Answers(log, MutateCall)[0] == log[0].answer
  {
    Unfold(log);
  }

  lemma CommandResult(action: Action, name: Text, payload: ActionPayload, req: Request, log: seq<Event>, r: Result)
    requires ValidateInstanceName(name).None?
    requires BuildIncusRequest(action, name, payload) == Success(req)
    requires Runs(CommandProgram(action, name, payload), log, r)
    ensures r.err.None? <==> Completed(action, log)
    ensures r.err.None? ==>
              |Answers(log, MutateCall)| == 1 && r == Done(action, name, WaitIdOf(Answers(log, MutateCall)[0]))
  {
    var next := Step(CommandProgram(action, name, payload), log);
    var rest := log[1..];
    ReadingMeanings(log[0].answer);
    match ReadMutation(log[0].answer)
    case Failure(e) =>
      assert next == Return(Failed(e));
      Unfold(rest);
      CompletedFromMutation(action, log);
    case Success(id) =>
      assert next == SettleProgram(action, name, id);
      SettleStage(action, name, id, rest);
      SettleResult(action, name, id, rest, r);
      CompletedFromMutation(action, log);
  }

  lemma BuiltRequest(action: Action, name: Text, payload: ActionPayload)
    requires ValidateInstanceName(name).None?
    requires BuildIncusRequest(action, name, payload).Success?
    requires action == Create ==> payload.CreatePayload? && payload.request.name == name
    ensures IsMutationOf(action, name, BuildIncusRequest(action, name, payload).value)
  {
    ValidNameEscapesToItself(name);
  }

  // ---------------------------------------------------------------- whole conversations

  /** The kinds of call that were made, in protocol order. */
  ghost function KindsMade(log: seq<Event>): seq<CallKind> {
    (if NoneOf(log, ProfileCall) then [] else [ProfileCall]) + (if NoneOf(log, MutateCall) then [] else [MutateCall])
    + (if NoneOf(log, WaitCall) then [] else [WaitCall]) + (if NoneOf(log, VerifyCall) then [] else [VerifyCall])
  }

  function ProfileRequestFor(action: Action): Option<Request> {
    if action == Create then Some(PROFILE_REQUEST) else None
  }

  /** The calls of a conversation, whole or cut short, follow the protocol of this command: each
      kind at most once and in order, each carrying what the answers before it call for. */
  ghost predicate Follows(action: Action, name: Text, log: seq<Event>) {
    && Kinds(log) == KindsMade(log)
    && AtMost(log, ProfileCall, ProfileRequestFor(action))
    && AtMost(log, VerifyCall, VerifyRequestFor(action, name))
    && (NoneOf(log, MutateCall) ==> NoneOf(log, WaitCall) && NoneOf(log, VerifyCall))
    && (!NoneOf(log, MutateCall) ==>
          && |RequestsOf(log, MutateCall)| == |Answers(log, MutateCall)| == 1
          && IsMutationOf(action, name, RequestsOf(log, MutateCall)[0])
          && (action == Create ==> !NoneOf(log, ProfileCall))
          && AtMost(log, WaitCall, WaitRequestFor(WaitIdOf(Answers(log, MutateCall)[0])))
          && (!NoneOf(log, VerifyCall) ==> MutationAccepted(Answers(log, MutateCall)[0]) && Waited(log)))
  }

  lemma KindsMadeMembers(log: seq<Event>, kind: CallKind)
    requires kind in KindsMade(log)
    ensures kind == ProfileCall || kind == MutateCall || kind == WaitCall || kind == VerifyCall
  {
  }

  /** A create body is sent only after the profile named one usable root disk; it carries that
      disk, resized, and the validated request. */
  ghost predicate CreateUsesProfile(req: CreateRequest, log: seq<Event>) {
    !NoneOf(log, MutateCall) ==>
      |RequestsOf(log, MutateCall)| == 1 && IsCreateFrom(req, log, RequestsOf(log, MutateCall)[0])
  }

  /** The request built from `req` and the one usable disk of the profile answered in this log. */
  ghost predicate IsCreateFrom(req: CreateRequest, log: seq<Event>, sent: Request) {
    && |Answers(log, ProfileCall)| == 1
    && ProfileStage(Answers(log, ProfileCall)[0]).Success?
    && BuildCreate(CreatePayload(req, ProfileStage(Answers(log, ProfileCall)[0]).value)) == Success(sent)
  }

  /** The payload of a command other than create: what its message body says. */
  function PayloadOf(action: Action, body: RequestBody): ActionPayload {
    if action == Delete then OtherPayload else StatePayload(body.size > 0 && body.force == Decoded(true))
  }

  const CPU_KEY: Text := "limits.cpu"
  const MEMORY_KEY: Text := "limits.memory"
  const SECURE_BOOT_KEY: Text := "security.secureboot"

  /** The Incus request of a create, field by field; `disk` and `device` come from the profile. */
  ghost predicate IsCreateSent(q: CreateRequest, disk: Text, device: Device, sent: Request) {
    && sent.id == [] && sent.verb == "POST" && sent.path == "/1.0/instances" && sent.body.InstanceCreate?
    && sent.body.name == q.name && sent.body.alias == q.image
    && sent.body.kind == "virtual-machine" && sent.body.sourceKind == "image"
    && sent.body.config == map[
         CPU_KEY := FormatInt(q.cpuCount),
         MEMORY_KEY := FormatInt(q.memoryBytes),
         SECURE_BOOT_KEY := if q.secureBoot then "true" else "false"]
    && sent.body.devices == map[disk := device["size" := FormatInt(q.rootDiskBytes)]]
  }

  /** The profile answer offers this disk: it was answered 2xx, decoded, and has no other. */
  ghost predicate Offers(answer: Answer, disk: Text) {
    && answer.Some? && 200 <= answer.value.status < 300
    && answer.value.body.bytes != [] && answer.value.body.profileOk && answer.value.body.devices.Some?
    && IsOnlyRootDisk(answer.value.body.devices.value, disk)
  }

  /** The word for an action in Incus's own request. */
  function StateWord(action: Action): Text
    requires action != Create && action != Delete
  {
    match action
    case Start => "start"
    case Stop => "stop"
    case Restart => "restart"
  }

  /** The one Incus request a command comes to, every field of it fixed by its own message and, for
      create, by the profile. */
  ghost predicate IsOwnMutation(action: Action, name: Text, body: RequestBody, log: seq<Event>, sent: Request) {
    match action
    case Create =>
      && body.create.Decoded? && body.create.value.name == name
      && |Answers(log, ProfileCall)| == 1
      && exists disk ::
           && Offers(Answers(log, ProfileCall)[0], disk)
           && IsCreateSent(body.create.value, disk, Answers(log, ProfileCall)[0].value.body.devices.value[disk], sent)
    case Delete => sent == Request([], "DELETE", "/1.0/instances/" + name, NoPayload)
    case _ =>
      sent == Request([], "PUT", "/1.0/instances/" + name + "/state",
                      StateChange(StateWord(action), body.size > 0 && body.force == Decoded(true)))
  }

  ghost predicate SendsItsOwn(action: Action, name: Text, body: RequestBody, log: seq<Event>) {
    !NoneOf(log, MutateCall) ==>
      |RequestsOf(log, MutateCall)| == 1 && IsOwnMutation(action, name, body, log, RequestsOf(log, MutateCall)[0])
  }

  lemma BuiltCreate(q: CreateRequest, disk: RootDisk)
    requires ValidateCreate(q).None?
    ensures BuildCreate(CreatePayload(q, disk)).Success?
    ensures IsCreateSent(q, disk.name, disk.device, BuildCreate(CreatePayload(q, disk)).value)
  {
  }

  lemma BuiltCommand(action: Action, name: Text, body: RequestBody, log: seq<Event>)
    requires action != Create && ValidateInstanceName(name).None?
    ensures BuildIncusRequest(action, name, PayloadOf(action, body)).Success?
    ensures IsOwnMutation(action, name, body, log, BuildIncusRequest(action, name, PayloadOf(action, body)).value)
  {
    ValidNameEscapesToItself(name);
  }

  /** The profile stage passes exactly when the profile offers a disk, and then with that one. */
  lemma ProfileStageMeaning(answer: Answer, disk: RootDisk)
    ensures ProfileStage(answer) == Success(disk) <==>
              Offers(answer, disk.name) && disk.device == answer.value.body.devices.value[disk.name]
  {
    if answer.Some? && answer.value.body.devices.Some? {
      ChosenMeaning(answer.value.body.devices.value, disk);
    }
  }

  lemma DecodedCreate(body: RequestBody)
    ensures DecodeCreate(body).Success? ==> body.create == Decoded(DecodeCreate(body).value)
    ensures DecodeCreate(body).Success? ==> ValidateCreate(DecodeCreate(body).value).None?
  {
  }

  lemma CreateSendsItsOwn(body: RequestBody, log: seq<Event>)
    requires DecodeCreate(body).Success? && CreateUsesProfile(DecodeCreate(body).value, log)
    ensures SendsItsOwn(Create, DecodeCreate(body).value.name, body, log)
  {
    DecodedCreate(body);
    if !NoneOf(log, MutateCall) {
      var disk := ProfileStage(Answers(log, ProfileCall)[0]).value;
      ProfileStageMeaning(Answers(log, ProfileCall)[0], disk);
      BuiltCreate(DecodeCreate(body).value, disk);
    }
  }

  lemma CommandSendsItsOwn(action: Action, name: Text, body: RequestBody, req: Request, log: seq<Event>)
    requires action != Create && ValidateInstanceName(name).None?
    requires BuildIncusRequest(action, name, PayloadOf(action, body)) == Success(req)
    requires AtMost(log, MutateCall, Some(req))
    ensures SendsItsOwn(action, name, body, log)
  {
    BuiltCommand(action, name, body, log);
  }

  lemma PolledSendsItsOwn(action: Action, name: Text, body: RequestBody, log: seq<Event>)
    requires log != [] && log[0].Polled? && SendsItsOwn(action, name, body, log[1..])
    ensures SendsItsOwn(action, name, body, log)
  {
    Unfold(log);
  }

  /** The calls of a conversation that follows the protocol are a prefix of
      profile? mutate wait? verify?, with profile and verify for create only. */
  lemma FollowsCallOrder(action: Action, name: Text, log: seq<Event>)
    requires Follows(action, name, log)
    ensures Kinds(log) <= CallOrder(action, true) || Kinds(log) <= CallOrder(action, false)
  {
  }

  lemma PolledFollows(action: Action, name: Text, log: seq<Event>)
    requires log != [] && log[0].Polled? && Follows(action, name, log[1..])
    ensures Follows(action, name, log)
    ensures forall req :: CreateUsesProfile(req, log) <==> CreateUsesProfile(req, log[1..])
  {
    Unfold(log);
  }

  lemma EmptyFollows(action: Action, name: Text)
    ensures Follows(action, name, [])
    ensures forall req :: CreateUsesProfile(req, [])
  {
    Unfold([]);
  }

  lemma EmptyBefore(a: seq<CallKind>, b: seq<CallKind>, c: seq<CallKind>)
    ensures [] + a + b + c == a + b + c
  {
    assert [] + a == a;
  }

  lemma KindsFromMutation(log: seq<Event>, req: Request, verify: Option<Request>)
    requires Mutates(log, req, verify) && !NoneOf(log, MutateCall)
    ensures Kinds(log) == KindsMade(log)
  {
    EmptyBefore([MutateCall], if NoneOf(log, WaitCall) then [] else [WaitCall],
                if NoneOf(log, VerifyCall) then [] else [VerifyCall]);
  }

  lemma MutatesFollows(action: Action, name: Text, req: Request, log: seq<Event>)
    requires action != Create && IsMutationOf(action, name, req)
    requires Mutates(log, req, VerifyRequestFor(action, name))
    requires NoneOf(log, MutateCall) ==> log == []
    ensures Follows(action, name, log)
  {
    if log == [] {
      EmptyFollows(action, name);
    } else {
      KindsFromMutation(log, req, VerifyRequestFor(action, name));
    }
  }

  lemma Regroup(a: seq<CallKind>, b: seq<CallKind>, c: seq<CallKind>, d: seq<CallKind>)
    ensures a + (b + c + d) == a + b + c + d
  {
  }

  lemma KindsAfterProfile(log: seq<Event>, req: Request, verify: Option<Request>)
    requires log != [] && log[0].Called? && log[0].kind == ProfileCall
    requires Mutates(log[1..], req, verify)
    requires NoneOf(log[1..], MutateCall) ==> log[1..] == []
    ensures Kinds(log) == KindsMade(log)
  {
    Unfold(log);
    Unfold([]);
    var w := if NoneOf(log, WaitCall) then [] else [WaitCall];
    var v := if NoneOf(log, VerifyCall) then [] else [VerifyCall];
    Regroup([ProfileCall], [MutateCall], w, v);
  }

  lemma ProfileFollows(name: Text, req: Request, log: seq<Event>)
    requires log != [] && log[0].Called? && log[0].kind == ProfileCall && log[0].req == PROFILE_REQUEST
    requires IsMutationOf(Create, name, req)
    requires Mutates(log[1..], req, VerifyRequestFor(Create, name))
    requires NoneOf(log[1..], MutateCall) ==> log[1..] == []
    ensures Follows(Create, name, log)
  {
    KindsAfterProfile(log, req, VerifyRequestFor(Create, name));
    Unfold(log);
    Unfold([]);
  }

  lemma ProfileIsUsed(q: CreateRequest, req: Request, log: seq<Event>, verify: Option<Request>)
    requires log != [] && log[0].Called? && log[0].kind == ProfileCall
    requires ProfileStage(log[0].answer).Success?
    requires BuildCreate(CreatePayload(q, ProfileStage(log[0].answer).value)) == Success(req)
    requires Mutates(log[1..], req, verify)
    ensures CreateUsesProfile(q, log)
  {
    Unfold(log);
  }

  lemma ProfileAloneFollows(name: Text, log: seq<Event>)
    requires log != [] && log[0].Called? && log[0].kind == ProfileCall && log[0].req == PROFILE_REQUEST
               && log[1..] == []
    ensures Follows(Create, name, log) && NoneOf(log, MutateCall)
  {
    Unfold(log);
    Unfold([]);
  }

  lemma CommandFollows(action: Action, name: Text, payload: ActionPayload, req: Request, log: seq<Event>)
    requires ValidateInstanceName(name).None?
    requires BuildIncusRequest(action, name, payload) == Success(req)
    requires After(CommandProgram(action, name, payload), log).Some?
    ensures Mutates(log, req, VerifyRequestFor(action, name))
    ensures NoneOf(log, MutateCall) ==> log == []
  {
    CommandStage(action, name, payload, req, log);
    if log != [] {
      var next := Step(CommandProgram(action, name, payload), log);
      Unfold(log);
    }
  }

  lemma CreateStage(q: CreateRequest, log: seq<Event>)
    requires ValidateCreate(q).None?
    requires After(CreateProgram(q), log).Some?
    ensures Follows(Create, q.name, log) && CreateUsesProfile(q, log)
  {
    EmptyFollows(Create, q.name);
    if log != [] {
      var afterPoll := Step(CreateProgram(q), log);
      var rest := log[1..];
      if rest != [] {
        var next := Step(afterPoll, rest);
        match ProfileStage(rest[0].answer) {
          case Failure(e) =>
            assert next == Return(Failed(e));
            ProfileAloneFollows(q.name, rest);
          case Success(disk) =>
            var payload := CreatePayload(q, disk);
            assert next == CommandProgram(Create, q.name, payload);
            BuildNeverFails(Create, q.name, payload);
            BuiltRequest(Create, q.name, payload);
            var req := BuildIncusRequest(Create, q.name, payload).value;
            CommandFollows(Create, q.name, payload, req, rest[1..]);
            ProfileFollows(q.name, req, rest);
            ProfileIsUsed(q, req, rest, VerifyRequestFor(Create, q.name));
        }
      }
      PolledFollows(Create, q.name, log);
    }
  }

  /** An event before the mutation changes completion only by cancelling. */
  lemma CompletedAfterFirst(action: Action, log: seq<Event>)
    requires log != [] && (log[0].Called? ==> log[0].kind == ProfileCall)
    ensures Answers(log, MutateCall) == Answers(log[1..], MutateCall)
    ensures Completed(action, log) <==> Completed(action, log[1..]) && (log[0].Polled? ==> !log[0].cancelled)
  {
    Unfold(log);
  }

  lemma ProfileResult(q: CreateRequest, p: Program<Result>, log: seq<Event>, r: Result)
    requires ValidateCreate(q).None?
    requires p == CreateProgram(q).onPoll(false) && Runs(p, log, r)
    ensures r.err.None? <==> Completed(Create, log)
    ensures r.err.None? ==>
              |Answers(log, MutateCall)| == 1 && r == Done(Create, q.name, WaitIdOf(Answers(log, MutateCall)[0]))
  {
    assert p.Call?;
    var next := Step(p, log);
    CompletedAfterFirst(Create, log);
    match ProfileStage(log[0].answer)
    case Failure(e) =>
      assert next == Return(Failed(e));
      Unfold(log[1..]);
    case Success(disk) =>
      var payload := CreatePayload(q, disk);
      assert next == CommandProgram(Create, q.name, payload);
      BuildNeverFails(Create, q.name, payload);
      CommandResult(Create, q.name, payload, BuildIncusRequest(Create, q.name, payload).value, log[1..], r);
  }

  lemma CreateResult(q: CreateRequest, log: seq<Event>, r: Result)
    requires ValidateCreate(q).None?
    requires Runs(CreateProgram(q), log, r)
    ensures r.err.None? <==> Completed(Create, log)
    ensures r.err.None? ==>
              |Answers(log, MutateCall)| == 1 && r == Done(Create, q.name, WaitIdOf(Answers(log, MutateCall)[0]))
  {
    var afterPoll := Step(CreateProgram(q), log);
    CompletedAfterFirst(Create, log);
    if log[0].cancelled {
      assert afterPoll == Return(Failed(CANCELLED));
    } else {
      ProfileResult(q, afterPoll, log[1..], r);
    }
  }

  // ---------------------------------------------------------------- main theorems

  /** The action a path asks for. */
  ghost predicate AsksFor(path: Text, action: Action) {
    ParseLifecyclePath(path).Some? && ParseLifecyclePath(path).value.action == action
  }

  /** The instance a request is about: named by the body of create, else by the path. */
  function InstanceNamed(path: Text, body: RequestBody): Text {
    match ParseLifecyclePath(path)
    case None => ""
    case Some(route) =>
      if route.action != Create then route.name
      else if DecodeCreate(body).Success? then DecodeCreate(body).value.name else ""
  }

  lemma DecodedCreateIsValid(body: RequestBody)
    ensures DecodeCreate(body).Success? ==>
              ValidateCreate(DecodeCreate(body).value).None? && MatchesNamePattern(DecodeCreate(body).value.name)
  {
    if DecodeCreate(body).Success? {
      ValidationMeaning(DecodeCreate(body).value.name, "");
    }
  }

  /** The command program a start, stop, restart or delete request comes to, unless it is refused. */
  lemma RouteCommand(verb: Text, path: Text, body: RequestBody) returns (refused: bool, payload: ActionPayload)
    requires ParseLifecyclePath(path).Some? && ParseLifecyclePath(path).value.action != Create
    ensures var action, name := ParseLifecyclePath(path).value.action, ParseLifecyclePath(path).value.name;
            var p := RouteProgram(verb, ParseLifecyclePath(path), body);
            if refused then p.Return? && p.result.err.Some?
            else
              && payload == PayloadOf(action, body)
              && p == CommandProgram(action, name, payload)
              && ValidateInstanceName(name).None?
              && BuildIncusRequest(action, name, payload).Success?
              && IsMutationOf(action, name, BuildIncusRequest(action, name, payload).value)
              && Accepts(verb, path, body, action, name)
  {
    var action, name := ParseLifecyclePath(path).value.action, ParseLifecyclePath(path).value.name;
    payload := OtherPayload;
    refused := verb != "POST" || ValidateInstanceName(name).Some?;
    if action == Delete {
      refused := refused || DecodeDelete(body).Failure?;
    } else {
      var force := DecodeStrict(body.size, body.force, false);
      refused := refused || force.Failure?;
      if force.Success? { payload := StatePayload(force.value); }
    }
    if !refused {
      ValidationMeaning(name, "");
      BuildNeverFails(action, name, payload);
      BuiltRequest(action, name, payload);
    }
  }

  lemma RouteStage(verb: Text, path: Text, body: RequestBody, log: seq<Event>)
    requires After(RouteProgram(verb, ParseLifecyclePath(path), body), log).Some?
    ensures log == [] || exists action, name ::
              && Accepts(verb, path, body, action, name) && Follows(action, name, log)
              && SendsItsOwn(action, name, body, log)
  {
    if log != [] && ParseLifecyclePath(path).Some? {
      var action := ParseLifecyclePath(path).value.action;
      var name := InstanceNamed(path, body);
      if action == Create {
        DecodedCreateIsValid(body);
        assert verb == "POST" && DecodeCreate(body).Success?;
        CreateStage(DecodeCreate(body).value, log);
        CreateSendsItsOwn(body, log);
        assert Accepts(verb, path, body, action, name);
      } else {
        var refused, payload := RouteCommand(verb, path, body);
        if !refused {
          var req := BuildIncusRequest(action, name, payload).value;
          CommandFollows(action, name, payload, req, log);
          MutatesFollows(action, name, req, log);
          CommandSendsItsOwn(action, name, body, req, log);
        }
      }
    }
  }

  /** Every conversation, whole or cut short, with any backend: either nothing was called, or the
      request was an accepted command, the calls follow its protocol, and the one mutation sent is
      the request the message itself comes to. */
  lemma EveryConversation(verb: Text, path: Text, body: RequestBody, log: seq<Event>)
    requires After(HandleProgram(verb, path, body), log).Some?
    ensures Kinds(log) == [] || exists action, name ::
              && Accepts(verb, path, body, action, name) && Follows(action, name, log)
              && SendsItsOwn(action, name, body, log)
  {
    Unfold(log);
    if log != [] {
      var next := Step(HandleProgram(verb, path, body), log);
      var rest := log[1..];
      Unfold(rest);
      if rest != [] {
        assert next == RouteProgram(verb, ParseLifecyclePath(path), body);
        RouteStage(verb, path, body, rest);
        var action, name :|
          && Accepts(verb, path, body, action, name) && Follows(action, name, rest)
          && SendsItsOwn(action, name, body, rest);
        PolledFollows(action, name, log);
        PolledSendsItsOwn(action, name, body, log);
      }
    }
  }

  lemma RouteResult(verb: Text, path: Text, body: RequestBody, log: seq<Event>, r: Result)
    requires Runs(RouteProgram(verb, ParseLifecyclePath(path), body), log, r)
    ensures r.err.None? <==> exists action :: AsksFor(path, action) && Completed(action, log)
    ensures r.err.None? ==>
              && |Answers(log, MutateCall)| == 1
              && AsksFor(path, ParseLifecyclePath(path).value.action)
              && Accepts(verb, path, body, ParseLifecyclePath(path).value.action, InstanceNamed(path, body))
              && r == Done(ParseLifecyclePath(path).value.action, InstanceNamed(path, body),
                           WaitIdOf(Answers(log, MutateCall)[0]))
  {
    var p := RouteProgram(verb, ParseLifecyclePath(path), body);
    if p.Return? {
      assert log == [];
      Unfold(log);
    } else {
      var action := ParseLifecyclePath(path).value.action;
      if action == Create {
        DecodedCreateIsValid(body);
        CreateResult(DecodeCreate(body).value, log, r);
        assert AsksFor(path, Create);
      } else {
        var refused, payload := RouteCommand(verb, path, body);
        var name := InstanceNamed(path, body);
        CommandResult(action, name, payload, BuildIncusRequest(action, name, payload).value, log, r);
        assert AsksFor(path, action);
      }
    }
  }

  /** Handle succeeds exactly when the whole conversation observed completion, and its reply then
      describes that conversation: the action and instance asked for, and the operation waited on. */
  lemma HandleSucceedsIff(verb: Text, path: Text, body: RequestBody, log: seq<Event>, r: Result)
    requires Runs(HandleProgram(verb, path, body), log, r)
    ensures r.err.None? <==> exists action :: AsksFor(path, action) && Completed(action, log)
    ensures r.err.None? ==>
              && |Answers(log, MutateCall)| == 1
              && ParseLifecyclePath(path).Some?
              && Accepts(verb, path, body, ParseLifecyclePath(path).value.action, InstanceNamed(path, body))
              && IsSuccessReply(r, ParseLifecyclePath(path).value.action, InstanceNamed(path, body),
                                Answers(log, MutateCall)[0])
  {
    Unfold(log);
    var next := Step(HandleProgram(verb, path, body), log);
    if log[0].cancelled {
      assert next == Return(Failed(CANCELLED));
      assert forall action :: !Completed(action, log);
    } else {
      assert next == RouteProgram(verb, ParseLifecyclePath(path), body);
      RouteResult(verb, path, body, log[1..], r);
      if r.err.None? {
        var action :| AsksFor(path, action) && Completed(action, log[1..]);
        DoneMeaning(ParseLifecyclePath(path).value.action, InstanceNamed(path, body), Answers(log, MutateCall)[0]);
      }
      forall action ensures Completed(action, log) <==> Completed(action, log[1..]) {
      }
    }
  }
}
