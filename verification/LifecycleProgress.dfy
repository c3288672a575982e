/** Nothing the protocol accepts is refused by the agent itself: with a willing backend, every
    accepted request succeeds. */
module LifecycleProgress {
  import opened Strings
  import opened Incus
  import opened Lifecycle
  import opened RootDiskSelection
  import opened Programs
  import opened LifecycleProtocol
  import opened LifecycleTheorems

  /** Some backend, and some run against it, make this program succeed. */
  ghost predicate CanSucceed(p: Program<Result>) {
    exists log: seq<Event>, r: Result :: Runs(p, log, r) && r.err.None?
  }

  lemma StepsToSuccess(p: Program<Result>, e: Event, q: Program<Result>)
    requires CanSucceed(q)
    requires if p.Poll? then e.Polled? && q == p.onPoll(e.cancelled)
             else p.Call? && e.Called? && e.kind == p.kind && e.req == p.req && q == p.onAnswer(e.answer)
    ensures CanSucceed(p)
  {
    var log: seq<Event>, r: Result :| Runs(q, log, r) && r.err.None?;
    assert ([e] + log)[1..] == log;
    assert After(p, [e] + log) == After(q, log);
    assert Runs(p, [e] + log, r);
  }

  lemma ReturnSucceeds(r: Result)
    requires r.err.None?
    ensures CanSucceed(Return(r))
  {
    assert Runs(Return(r), [], r);
  }

  const EMPTY_BODY := Body([], [], 0, true, None, false, None, None)

  /** A plain 200, with nothing to wait for. */
  const OK_ANSWER: Answer := Some(Response([], OK, EMPTY_BODY, ""))

  lemma VerifyCanSucceed(action: Action, name: Text, id: Text)
    requires ValidateInstanceName(name).None?
    ensures CanSucceed(VerifyProgram(action, name, id))
  {
    var p := VerifyProgram(action, name, id);
    ReturnSucceeds(Done(action, name, id));
    if action == Create {
      var q := p.onPoll(false);
      assert ReadVerify(OK_ANSWER).None?;
      assert q.onAnswer(OK_ANSWER) == Return(Done(action, name, id));
      StepsToSuccess(q, Called(VerifyCall, VerifyRequest(name), OK_ANSWER), Return(Done(action, name, id)));
      StepsToSuccess(p, Polled(false), q);
    }
  }

  lemma CommandCanSucceed(action: Action, name: Text, payload: ActionPayload)
    requires ValidateInstanceName(name).None? && BuildIncusRequest(action, name, payload).Success?
    ensures CanSucceed(CommandProgram(action, name, payload))
  {
    var p := CommandProgram(action, name, payload);
    VerifyCanSucceed(action, name, []);
    assert ReadMutation(OK_ANSWER) == Success([]);
    assert p.onAnswer(OK_ANSWER) == SettleProgram(action, name, []);
    StepsToSuccess(p, Called(MutateCall, p.req, OK_ANSWER), VerifyProgram(action, name, []));
  }

  const ROOT: Text := "root"
  const ROOT_DEVICE: Device := map["type" := "disk", "path" := "/", "pool" := "default"]
  const PROFILE_ANSWER: Answer :=
      Some(Response([], OK, Body([' '], [], 0, true, Some(map[ROOT := ROOT_DEVICE]), true, None, None), ""))

  lemma ProfileCanBeUsable()
    ensures ProfileStage(PROFILE_ANSWER) == Success(RootDisk(ROOT, ROOT_DEVICE))
  {
    var devices: Devices := map[ROOT := ROOT_DEVICE];
    assert IsRootDisk(ROOT_DEVICE);
    assert Candidates(devices) == {ROOT};
    SelectMeaning(devices, RootDisk(ROOT, ROOT_DEVICE));
  }

  lemma CreateCanSucceed(req: CreateRequest)
    requires ValidateCreate(req).None?
    ensures CanSucceed(CreateProgram(req))
  {
    var p := CreateProgram(req);
    var q := p.onPoll(false);
    var payload := CreatePayload(req, RootDisk(ROOT, ROOT_DEVICE));
    ProfileCanBeUsable();
    BuildNeverFails(Create, req.name, payload);
    CommandCanSucceed(Create, req.name, payload);
    assert q.onAnswer(PROFILE_ANSWER) == CommandProgram(Create, req.name, payload);
    StepsToSuccess(q, Called(ProfileCall, PROFILE_REQUEST, PROFILE_ANSWER), CommandProgram(Create, req.name, payload));
    StepsToSuccess(p, Polled(false), q);
  }

  lemma AcceptedIsRouted(verb: Text, path: Text, body: RequestBody, action: Action, name: Text)
    requires Accepts(verb, path, body, action, name) && action != Create
    ensures RouteProgram(verb, ParseLifecyclePath(path), body) == CommandProgram(action, name, PayloadOf(action, body))
    ensures BuildIncusRequest(action, name, PayloadOf(action, body)).Success?
    ensures ValidateInstanceName(name).None?
  {
    ValidationMeaning(name, []);
    BuildNeverFails(action, name, PayloadOf(action, body));
  }

  lemma RouteCanSucceed(verb: Text, path: Text, body: RequestBody, action: Action, name: Text)
    requires Accepts(verb, path, body, action, name)
    ensures CanSucceed(RouteProgram(verb, ParseLifecyclePath(path), body))
  {
    if action == Create {
      DecodedCreateIsValid(body);
      CreateCanSucceed(DecodeCreate(body).value);
    } else {
      AcceptedIsRouted(verb, path, body, action, name);
      CommandCanSucceed(action, name, PayloadOf(action, body));
    }
  }

  /** A request can succeed, against some backend, exactly when it is an accepted command. */
  lemma AcceptedIffCanSucceed(verb: Text, path: Text, body: RequestBody)
    ensures CanSucceed(HandleProgram(verb, path, body)) <==>
              exists action, name :: Accepts(verb, path, body, action, name)
  {
    var p := HandleProgram(verb, path, body);
    if CanSucceed(p) {
      var log: seq<Event>, r: Result :| Runs(p, log, r) && r.err.None?;
      HandleSucceedsIff(verb, path, body, log, r);
    }
    forall action, name | Accepts(verb, path, body, action, name) ensures CanSucceed(p) {
      RouteCanSucceed(verb, path, body, action, name);
      StepsToSuccess(p, Polled(false), RouteProgram(verb, ParseLifecyclePath(path), body));
    }
  }

  // ---------------------------------------------------------------- refusals

  /** The errors with which the agent refuses a request by itself. */
  predicate IsRefusal(e: Error) {
    || e.code == "UNKNOWN_LIFECYCLE_PATH" || e.code == "METHOD_NOT_ALLOWED"
    || e.code == "MISSING_BODY" || e.code == "BODY_TOO_LARGE" || e.code == "INVALID_BODY"
    || e.code == "DELETE_NOT_CONFIRMED"
    || e.code == "INVALID_INSTANCE_NAME" || e.code == "INVALID_IMAGE" || e.code == "INVALID_LIMITS"
    || e.code == "INTERNAL"
  }

  predicate Refuses(r: Result) {
    r.err.Some? && IsRefusal(r.err.value)
  }

  lemma CancellationIsNoRefusal()
    ensures !IsRefusal(CANCELLED)
  {
  }

  lemma IncusErrorIsNoRefusal(status: int)
    ensures !IsRefusal(IncusError(status))
  {
  }

  lemma ReadingIsNoRefusal(answer: Answer)
    ensures ReadMutation(answer).Failure? ==> !IsRefusal(ReadMutation(answer).error)
    ensures ReadWait(answer).Some? ==> !IsRefusal(ReadWait(answer).value)
    ensures ReadVerify(answer).Some? ==> !IsRefusal(ReadVerify(answer).value)
  {
    if answer.Some? { IncusErrorIsNoRefusal(answer.value.status); }
    assert !IsRefusal(BACKEND_UNAVAILABLE) && !IsRefusal(REFERENCE_MALFORMED) && !IsRefusal(OPERATION_MALFORMED);
    assert !IsRefusal(OPERATION_MISSING) && !IsRefusal(OPERATION_FAILED) && !IsRefusal(INSTANCE_MISSING);
  }

  lemma ProfileIsNoRefusal(answer: Answer)
    ensures ProfileStage(answer).Failure? ==> !IsRefusal(ProfileStage(answer).error)
  {
    assert !IsRefusal(DISK_UNAVAILABLE) && !IsRefusal(DISK_AMBIGUOUS) && !IsRefusal(PROFILE_MALFORMED);
  }

  lemma VerifyNeverRefuses(action: Action, name: Text, id: Text, log: seq<Event>, r: Result)
    requires ValidateInstanceName(name).None? && Runs(VerifyProgram(action, name, id), log, r)
    ensures !Refuses(r)
  {
    if log != [] {
      var q := Step(VerifyProgram(action, name, id), log);
      var rest := log[1..];
      if log[0].cancelled {
        assert q == Return(Failed(CANCELLED));
        CancellationIsNoRefusal();
      } else {
        var end := Step(q, rest);
        var error := ReadVerify(rest[0].answer);
        ReadingIsNoRefusal(rest[0].answer);
        assert end == Return(if error.Some? then Failed(error.value) else Done(action, name, id));
      }
    }
  }

  lemma SettleNeverRefuses(action: Action, name: Text, id: Text, log: seq<Event>, r: Result)
    requires ValidateInstanceName(name).None? && Runs(SettleProgram(action, name, id), log, r)
    ensures !Refuses(r)
  {
    if id == "" {
      VerifyNeverRefuses(action, name, id, log, r);
    } else {
      var q := Step(SettleProgram(action, name, id), log);
      var rest := log[1..];
      if log[0].cancelled {
        assert q == Return(Failed(CANCELLED));
        CancellationIsNoRefusal();
      } else {
        var next := Step(q, rest);
        ReadingIsNoRefusal(rest[0].answer);
        match ReadWait(rest[0].answer)
        case Some(e) => assert next == Return(Failed(e));
        case None =>
          assert next == VerifyProgram(action, name, id);
          VerifyNeverRefuses(action, name, id, rest[1..], r);
      }
    }
  }

  lemma CommandNeverRefuses(action: Action, name: Text, payload: ActionPayload, log: seq<Event>, r: Result)
    requires ValidateInstanceName(name).None? && BuildIncusRequest(action, name, payload).Success?
    requires Runs(CommandProgram(action, name, payload), log, r)
    ensures !Refuses(r)
  {
    var q := Step(CommandProgram(action, name, payload), log);
    ReadingIsNoRefusal(log[0].answer);
    match ReadMutation(log[0].answer)
    case Failure(e) => assert q == Return(Failed(e));
    case Success(id) =>
      assert q == SettleProgram(action, name, id);
      SettleNeverRefuses(action, name, id, log[1..], r);
  }

  lemma CreateNeverRefuses(req: CreateRequest, log: seq<Event>, r: Result)
    requires ValidateCreate(req).None? && Runs(CreateProgram(req), log, r)
    ensures !Refuses(r)
  {
    var q := Step(CreateProgram(req), log);
    var rest := log[1..];
    if log[0].cancelled {
      assert q == Return(Failed(CANCELLED));
      CancellationIsNoRefusal();
    } else {
      var next := Step(q, rest);
      ProfileIsNoRefusal(rest[0].answer);
      match ProfileStage(rest[0].answer)
      case Failure(e) => assert next == Return(Failed(e));
      case Success(disk) =>
        var payload := CreatePayload(req, disk);
        assert next == CommandProgram(Create, req.name, payload);
        BuildNeverFails(Create, req.name, payload);
        CommandNeverRefuses(Create, req.name, payload, rest[1..], r);
    }
  }

  lemma StrictRefuses<T>(size: nat, view: Decoded<T>, absent: T)
    ensures DecodeStrict(size, view, absent).Failure? ==> IsRefusal(DecodeStrict(size, view, absent).error)
  {
  }

  lemma InvalidNameRefuses(name: Text)
    ensures ValidateInstanceName(name).Some? ==> IsRefusal(ValidateInstanceName(name).value)
  {
  }

  lemma InvalidImageRefuses(image: Text)
    ensures ValidateImage(image).Some? ==> IsRefusal(ValidateImage(image).value)
  {
  }

  lemma InvalidCreateRefuses(req: CreateRequest)
    ensures ValidateCreate(req).Some? ==> IsRefusal(ValidateCreate(req).value)
  {
    InvalidNameRefuses(req.name);
    InvalidImageRefuses(req.image);
  }

  lemma CreateDecodingRefuses(body: RequestBody)
    ensures DecodeCreate(body).Failure? ==> IsRefusal(DecodeCreate(body).error)
  {
    StrictRefuses(body.size, body.create, CreateRequest("", "", 0, 0, 0, false));
    if body.size != 0 && DecodeStrict(body.size, body.create, CreateRequest("", "", 0, 0, 0, false)).Success? {
      InvalidCreateRefuses(DecodeStrict(body.size, body.create, CreateRequest("", "", 0, 0, 0, false)).value);
    }
  }

  lemma DeleteDecodingRefuses(body: RequestBody)
    ensures DecodeDelete(body).Failure? ==> IsRefusal(DecodeDelete(body).error)
  {
    StrictRefuses(body.size, body.confirm, false);
  }

  lemma WrongMethodRefuses(action: Action)
    ensures IsRefusal(WrongMethod(action))
  {
  }

  lemma InvalidCommandIsRefused(action: Action, name: Text, payload: ActionPayload)
    requires !MatchesNamePattern(name)
    ensures CommandProgram(action, name, payload).Return? && Refuses(CommandProgram(action, name, payload).result)
  {
    ValidationMeaning(name, []);
    InvalidNameRefuses(name);
  }

  lemma UnacceptedCreate(path: Text, body: RequestBody)
    requires ParseLifecyclePath(path).Some? && ParseLifecyclePath(path).value.action == Create
    requires !Accepts("POST", path, body, Create, InstanceNamed(path, body))
    ensures DecodeCreate(body).Failure?
  {
    DecodedCreateIsValid(body);
  }

  lemma UnacceptedCommand(path: Text, body: RequestBody, action: Action, name: Text)
    requires ParseLifecyclePath(path) == Some(Route(action, name)) && action != Create
    requires !Accepts("POST", path, body, action, name)
    ensures || !MatchesNamePattern(name)
            || (if action == Delete then DecodeDelete(body).Failure?
                else DecodeStrict(body.size, body.force, false).Failure?)
  {
  }

  lemma UnacceptedCommandIsRefused(path: Text, body: RequestBody, action: Action, name: Text)
    requires ParseLifecyclePath(path) == Some(Route(action, name)) && action != Create
    requires !Accepts("POST", path, body, action, name)
    ensures RouteProgram("POST", Some(Route(action, name)), body).Return?
    ensures Refuses(RouteProgram("POST", Some(Route(action, name)), body).result)
  {
    UnacceptedCommand(path, body, action, name);
    DeleteDecodingRefuses(body);
    StrictRefuses(body.size, body.force, false);
    if !MatchesNamePattern(name) {
      if action == Delete {
        InvalidCommandIsRefused(action, name, OtherPayload);
      } else if DecodeStrict(body.size, body.force, false).Success? {
        InvalidCommandIsRefused(action, name, StatePayload(DecodeStrict(body.size, body.force, false).value));
      }
    }
  }

  /** A request that is not accepted is refused before any event. */
  lemma NotAcceptedIsRefused(verb: Text, path: Text, body: RequestBody)
    requires forall action, name :: !Accepts(verb, path, body, action, name)
    ensures RouteProgram(verb, ParseLifecyclePath(path), body).Return?
    ensures Refuses(RouteProgram(verb, ParseLifecyclePath(path), body).result)
  {
    if ParseLifecyclePath(path).None? {
      assert IsRefusal(UNKNOWN_PATH);
    } else {
      var route := ParseLifecyclePath(path).value;
      assert !Accepts(verb, path, body, route.action, InstanceNamed(path, body));
      if verb != "POST" {
        WrongMethodRefuses(route.action);
      } else if route.action == Create {
        UnacceptedCreate(path, body);
        CreateDecodingRefuses(body);
      } else {
        UnacceptedCommandIsRefused(path, body, route.action, route.name);
      }
    }
  }

  lemma RouteRefusesIff(verb: Text, path: Text, body: RequestBody, log: seq<Event>, r: Result)
    requires Runs(RouteProgram(verb, ParseLifecyclePath(path), body), log, r)
    ensures Refuses(r) <==> forall action, name :: !Accepts(verb, path, body, action, name)
  {
    if action, name :| Accepts(verb, path, body, action, name) {
      if action == Create {
        DecodedCreateIsValid(body);
        CreateNeverRefuses(DecodeCreate(body).value, log, r);
      } else {
        AcceptedIsRouted(verb, path, body, action, name);
        CommandNeverRefuses(action, name, PayloadOf(action, body), log, r);
      }
    } else {
      NotAcceptedIsRefused(verb, path, body);
    }
  }

  /** The agent refuses a request by itself exactly when it is not an accepted command (and was not
      cancelled before it was looked at): whatever Incus answers, no later validation on any run
      turns down what the first one let through. */
  lemma RefusedIffNotAccepted(verb: Text, path: Text, body: RequestBody, log: seq<Event>, r: Result)
    requires Runs(HandleProgram(verb, path, body), log, r)
    ensures Refuses(r) <==>
              Uncancelled(log[..1]) && forall action, name :: !Accepts(verb, path, body, action, name)
  {
    var q := Step(HandleProgram(verb, path, body), log);
    assert log[..1][0] == log[0];
    Unfold(log[..1]);
    Unfold([]);
    if log[0].cancelled {
      assert q == Return(Failed(CANCELLED));
      CancellationIsNoRefusal();
    } else {
      assert q == RouteProgram(verb, ParseLifecyclePath(path), body);
      RouteRefusesIff(verb, path, body, log[1..], r);
    }
  }
}
