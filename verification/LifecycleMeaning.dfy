/** The outcome of a lifecycle request in the protocol's own words: which requests are accepted, and
    the exact error of every request that is refused or fails. */
module LifecycleMeaning {
  import opened Strings
  import opened Incus
  import opened Lifecycle
  import opened RootDiskSelection
  import opened Programs
  import opened LifecycleProtocol
  import opened LifecycleTheorems
  import LifecycleSecrecy

  // ---------------------------------------------------------------- accepted requests

  /** The path of a command, letter by letter. */
  ghost predicate IsCommandPath(path: Text, action: Action, name: Text) {
    match action
    case Create => path == "/agent/v1/lifecycle/instances/create"
    case Start => exists segment: Text ::
        path == "/agent/v1/lifecycle/instances/" + segment + "/start" && SegmentNames(segment, name)
    case Stop => exists segment: Text ::
        path == "/agent/v1/lifecycle/instances/" + segment + "/stop" && SegmentNames(segment, name)
    case Restart => exists segment: Text ::
        path == "/agent/v1/lifecycle/instances/" + segment + "/restart" && SegmentNames(segment, name)
    case Delete => exists segment: Text ::
        path == "/agent/v1/lifecycle/instances/" + segment + "/delete" && SegmentNames(segment, name)
  }

  /** Names of one to 63 lower-case letters, digits and hyphens, not starting with a hyphen. */
  predicate IsName(name: Text) {
    && 1 <= |name| <= 63 && name[0] != '-'
    && forall i | 0 <= i < |name| :: 'a' <= name[i] <= 'z' || '0' <= name[i] <= '9' || name[i] == '-'
  }

  predicate IsCreatable(q: CreateRequest) {
    && IsName(q.name) && MatchesImagePattern(q.image) && !HasDotDot(q.image)
    && 1 <= q.cpuCount <= 1024
    && 1 <= q.memoryBytes <= 17592186044416 && 1 <= q.rootDiskBytes <= 17592186044416
  }

  /** A POST to a command's path, naming a valid instance, whose body says what the command needs:
      a valid create, "confirm" for delete, and at most a well-formed "force" otherwise. */
  ghost predicate IsAccepted(verb: Text, path: Text, body: RequestBody, action: Action, name: Text) {
    && verb == "POST" && IsCommandPath(path, action, name) && IsName(name)
    && (match action
        case Create =>
          && 0 < body.size <= 1048576 && body.create.Decoded?
          && IsCreatable(body.create.value) && body.create.value.name == name
        case Delete => 0 < body.size <= 1048576 && body.confirm == Decoded(true)
        case _ => body.size == 0 || (body.size <= 1048576 && body.force.Decoded?))
  }

  lemma InstancePathText(segment: Text)
    ensures InstancePath(segment, Start) == "/agent/v1/lifecycle/instances/" + segment + "/start"
    ensures InstancePath(segment, Stop) == "/agent/v1/lifecycle/instances/" + segment + "/stop"
    ensures InstancePath(segment, Restart) == "/agent/v1/lifecycle/instances/" + segment + "/restart"
    ensures InstancePath(segment, Delete) == "/agent/v1/lifecycle/instances/" + segment + "/delete"
  {
    ActionPathText(segment, Start, "/start");
    ActionPathText(segment, Stop, "/stop");
    ActionPathText(segment, Restart, "/restart");
    ActionPathText(segment, Delete, "/delete");
  }

  lemma ActionPathText(segment: Text, action: Action, suffix: Text)
    requires ['/'] + ActionText(action) == suffix
    ensures InstancePath(segment, action) == PATH_INSTANCES + segment + suffix
  {
    assert PATH_INSTANCES + (segment + ['/'] + ActionText(action))
        == PATH_INSTANCES + segment + (['/'] + ActionText(action));
  }

  lemma CommandPathMeaning(path: Text, action: Action, name: Text)
    requires action != Create
    ensures ParseLifecyclePath(path) == Some(Route(action, name)) <==> IsCommandPath(path, action, name)
  {
    ParseMeaning(path, Route(action, name));
    forall segment: Text ensures InstancePath(segment, action) ==
        "/agent/v1/lifecycle/instances/" + segment +
        (match action case Start => "/start" case Stop => "/stop" case Restart => "/restart" case _ => "/delete") {
      InstancePathText(segment);
    }
  }

  lemma CreateDecodes(body: RequestBody)
    ensures DecodeCreate(body).Success? <==>
              0 < body.size <= 1048576 && body.create.Decoded? && IsCreatable(body.create.value)
    ensures DecodeCreate(body).Success? ==> DecodeCreate(body).value == body.create.value
  {
    if body.create.Decoded? {
      CreateMeaning(body.create.value);
      PatternMeaning(body.create.value.name, body.create.value.image);
    }
  }

  /** Exactly the requests that the protocol accepts. */
  lemma AcceptsMeaning(verb: Text, path: Text, body: RequestBody, action: Action, name: Text)
    ensures Accepts(verb, path, body, action, name) <==> IsAccepted(verb, path, body, action, name)
  {
    PatternMeaning(name, []);
    if action == Create {
      CreateDecodes(body);
      ParseCreate(path);
    } else {
      CommandPathMeaning(path, action, name);
    }
  }

  // ---------------------------------------------------------------- refusals

  function NameRefusal(name: Text): Option<Error> {
    if name == [] then Some(Error(400, "INVALID_INSTANCE_NAME", "instance name is required"))
    else if |name| > 63 then Some(Error(400, "INVALID_INSTANCE_NAME", "instance name too long"))
    else if HasDotDot(name) then
      Some(Error(400, "INVALID_INSTANCE_NAME", "instance name must not contain path traversal"))
    else if !IsName(name) then Some(Error(400, "INVALID_INSTANCE_NAME", "instance name is not allowed"))
    else None
  }

  function ImageRefusal(image: Text): Option<Error> {
    if image == [] then Some(Error(400, "INVALID_IMAGE", "image is required"))
    else if |image| > 128 then Some(Error(400, "INVALID_IMAGE", "image too long"))
    else if HasDotDot(image) then Some(Error(400, "INVALID_IMAGE", "image must not contain path traversal"))
    else if !MatchesImagePattern(image) then Some(Error(400, "INVALID_IMAGE", "image is not allowed"))
    else None
  }

  function CreateRefusal(q: CreateRequest): Option<Error> {
    if NameRefusal(q.name).Some? then NameRefusal(q.name)
    else if ImageRefusal(q.image).Some? then ImageRefusal(q.image)
    else if q.cpuCount < 1 || 1024 < q.cpuCount then Some(Error(400, "INVALID_LIMITS", "cpuCount out of range"))
    else if q.memoryBytes < 1 || 17592186044416 < q.memoryBytes then
      Some(Error(400, "INVALID_LIMITS", "memoryBytes out of range"))
    else if q.rootDiskBytes < 1 || 17592186044416 < q.rootDiskBytes then
      Some(Error(400, "INVALID_LIMITS", "rootDiskBytes out of range"))
    else None
  }

  /** Why a body that is not empty cannot be read. */
  function BodyRefusal<T>(size: nat, view: Decoded<T>): Option<Error> {
    if size > 1048576 then Some(Error(400, "BODY_TOO_LARGE", "request body too large"))
    else match view
      case Decoded(_) => None
      case UnknownField => Some(Error(400, "INVALID_BODY", "request body contains an unknown field"))
      case NotJson => Some(Error(400, "INVALID_BODY", "request body is not valid JSON"))
      case TrailingData => Some(Error(400, "INVALID_BODY", "request body must be a single object"))
  }

  function DeleteRefusal(body: RequestBody): Option<Error> {
    if body.size > 0 && BodyRefusal(body.size, body.confirm).Some? then BodyRefusal(body.size, body.confirm)
    else if body.size == 0 || body.confirm != Decoded(true) then
      Some(Error(400, "DELETE_NOT_CONFIRMED", "delete requires explicit confirmation"))
    else None
  }

  function MethodRefusal(action: Action): Error {
    match action
    case Create => Error(400, "METHOD_NOT_ALLOWED", "unsupported method for lifecycle create")
    case Delete => Error(400, "METHOD_NOT_ALLOWED", "unsupported method for lifecycle delete")
    case _ => Error(400, "METHOD_NOT_ALLOWED", "unsupported method for lifecycle action")
  }

  /** The agent's own refusal of a request, by the first check it fails. */
  function RefusalOf(verb: Text, route: Option<Route>, body: RequestBody): Option<Error> {
    if route.None? then Some(Error(404, "UNKNOWN_LIFECYCLE_PATH", "unknown lifecycle path"))
    else if verb != "POST" then Some(MethodRefusal(route.value.action))
    else match route.value.action
      case Create =>
        if body.size == 0 then Some(Error(400, "MISSING_BODY", "missing request body"))
        else if BodyRefusal(body.size, body.create).Some? then BodyRefusal(body.size, body.create)
        else CreateRefusal(body.create.value)
      case Delete =>
        if DeleteRefusal(body).Some? then DeleteRefusal(body) else NameRefusal(route.value.name)
      case _ =>
        if body.size > 0 && BodyRefusal(body.size, body.force).Some? then BodyRefusal(body.size, body.force)
        else NameRefusal(route.value.name)
  }

  lemma NamesRefused(name: Text, image: Text)
    ensures ValidateInstanceName(name) == NameRefusal(name)
    ensures ValidateImage(image) == ImageRefusal(image)
  {
    PatternMeaning(name, image);
  }

  lemma CreatesRefused(q: CreateRequest)
    ensures ValidateCreate(q) == CreateRefusal(q)
  {
    NamesRefused(q.name, q.image);
  }

  lemma BodiesRefused<T>(size: nat, view: Decoded<T>, absent: T)
    requires size > 0
    ensures DecodeStrict(size, view, absent) ==
            if BodyRefusal(size, view).Some? then Failure(BodyRefusal(size, view).value) else Success(view.value)
  {
  }

  lemma CreateBodiesRefused(body: RequestBody)
    requires body.size > 0
    ensures DecodeCreate(body) ==
            if BodyRefusal(body.size, body.create).Some? then Failure(BodyRefusal(body.size, body.create).value)
            else if CreateRefusal(body.create.value).Some? then Failure(CreateRefusal(body.create.value).value)
            else Success(body.create.value)
  {
    BodiesRefused(body.size, body.create, CreateRequest("", "", 0, 0, 0, false));
    if body.create.Decoded? { CreatesRefused(body.create.value); }
  }

  lemma DeleteBodiesRefused(body: RequestBody)
    ensures DecodeDelete(body) == if DeleteRefusal(body).Some? then Failure(DeleteRefusal(body).value) else Success(())
  {
    if body.size > 0 { BodiesRefused(body.size, body.confirm, false); }
  }

  lemma MethodsRefused(action: Action)
    ensures WrongMethod(action) == MethodRefusal(action)
  {
  }

  lemma CommandRefused(action: Action, name: Text, payload: ActionPayload)
    requires action != Create
    ensures NameRefusal(name).Some? ==> CommandProgram(action, name, payload) == Return(Failed(NameRefusal(name).value))
    ensures NameRefusal(name).None? ==> CommandProgram(action, name, payload).Call?
  {
    NamesRefused(name, []);
    if NameRefusal(name).None? { BuildNeverFails(action, name, payload); }
  }

  lemma CreateRefused(route: Route, body: RequestBody)
    requires route.action == Create
    ensures var p := RouteProgram("POST", Some(route), body);
            var refusal := RefusalOf("POST", Some(route), body);
            if refusal.Some? then p == Return(Failed(refusal.value)) else p.Poll?
  {
    if body.size > 0 { CreateBodiesRefused(body); }
  }

  lemma DeleteRefused(route: Route, body: RequestBody)
    requires route.action == Delete
    ensures var p := RouteProgram("POST", Some(route), body);
            var refusal := RefusalOf("POST", Some(route), body);
            if refusal.Some? then p == Return(Failed(refusal.value)) else p.Call?
  {
    DeleteBodiesRefused(body);
    CommandRefused(Delete, route.name, OtherPayload);
  }

  lemma StateRefused(route: Route, body: RequestBody)
    requires route.action != Create && route.action != Delete
    ensures var p := RouteProgram("POST", Some(route), body);
            var refusal := RefusalOf("POST", Some(route), body);
            if refusal.Some? then p == Return(Failed(refusal.value)) else p.Call?
  {
    if body.size > 0 { BodiesRefused(body.size, body.force, false); }
    var force := DecodeStrict(body.size, body.force, false);
    if force.Success? { CommandRefused(route.action, route.name, StatePayload(force.value)); }
  }

  lemma RouteRefused(verb: Text, route: Option<Route>, body: RequestBody)
    ensures var p := RouteProgram(verb, route, body);
            var refusal := RefusalOf(verb, route, body);
            if refusal.Some? then p == Return(Failed(refusal.value)) else !p.Return?
  {
    if route.Some? {
      MethodsRefused(route.value.action);
      if verb == "POST" {
        match route.value.action
        case Create => CreateRefused(route.value, body);
        case Delete => DeleteRefused(route.value, body);
        case _ => StateRefused(route.value, body);
      }
    }
  }

  // ---------------------------------------------------------------- failures

  /** What a failing status of Incus is reported as. */
  function IncusFailure(status: int): Error {
    if status == 400 then Error(400, "INCUS_BAD_REQUEST", "incus rejected lifecycle request")
    else if status == 404 then Error(404, "INSTANCE_NOT_FOUND", "instance not found")
    else if status == 409 then Error(409, "INSTANCE_STATE_CONFLICT", "instance state conflict")
    else if status == 503 then Error(503, "INCUS_UNAVAILABLE", "incus unavailable")
    else Error(status, "INCUS_LIFECYCLE_FAILED", "incus lifecycle operation failed")
  }

  predicate Failing(status: int) {
    status < 200 || 300 <= status
  }

  ghost function ProfileFailure(answer: Answer): Option<Error> {
    if answer.None? then Some(Error(503, "INCUS_PROFILE_UNAVAILABLE", "incus default profile unavailable"))
    else if Failing(answer.value.status) then
      Some(Error(502, "INCUS_PROFILE_UNAVAILABLE", "incus default profile unavailable"))
    else if answer.value.body.bytes == [] || !answer.value.body.profileOk || answer.value.body.devices.None? then
      Some(Error(502, "INCUS_PROFILE_UNAVAILABLE", "incus default profile response is malformed"))
    else if exists disk :: IsOnlyRootDisk(answer.value.body.devices.value, disk) then None
    else if HasTwoRoots(answer.value.body.devices.value) then
      Some(Error(502, "INCUS_PROFILE_ROOT_DISK_AMBIGUOUS", "incus default profile root disk is ambiguous"))
    else Some(Error(502, "INCUS_PROFILE_ROOT_DISK_UNAVAILABLE", "incus default profile root disk unavailable"))
  }

  ghost predicate HasTwoRoots(devices: Devices) {
    exists a, b :: && a in devices && LooksLikeRoot(devices[a])
                   && b in devices && LooksLikeRoot(devices[b]) && a != b
  }

  function MutationFailure(answer: Answer): Option<Error> {
    var malformed := Error(502, "INCUS_OPERATION_MALFORMED", "incus lifecycle operation reference is malformed");
    if answer.None? then Some(Error(503, "INCUS_UNAVAILABLE", "incus lifecycle backend unavailable"))
    else if Failing(answer.value.status) then Some(IncusFailure(answer.value.status))
    else if !HasReference(answer) then if answer.value.status == 202 then Some(malformed) else None
    else if WaitIdOf(answer) == [] then Some(malformed)
    else None
  }

  function WaitFailure(answer: Answer): Option<Error> {
    if answer.None? then Some(Error(503, "INCUS_UNAVAILABLE", "incus lifecycle backend unavailable"))
    else if answer.value.status == 404 then
      Some(Error(502, "INCUS_OPERATION_MISSING", "incus lifecycle operation disappeared before completion"))
    else if Failing(answer.value.status) then Some(IncusFailure(answer.value.status))
    else if answer.value.body.bytes == [] || !answer.value.body.envelopeOk || answer.value.body.statusCode == 0 then
      Some(Error(502, "INCUS_OPERATION_MALFORMED", "incus lifecycle operation response is malformed"))
    else if Failing(answer.value.body.statusCode) then
      Some(Error(502, "INCUS_OPERATION_FAILED", "incus lifecycle operation failed"))
    else None
  }

  function VerifyFailure(answer: Answer): Option<Error> {
    if answer.None? then Some(Error(503, "INCUS_UNAVAILABLE", "incus lifecycle backend unavailable"))
    else if answer.value.status == 404 then
      Some(Error(502, "INCUS_INSTANCE_MISSING", "incus lifecycle create completed but instance is missing"))
    else if Failing(answer.value.status) then Some(IncusFailure(answer.value.status))
    else None
  }

  /** How one event ends a conversation in an error, if it does. */
  ghost function FailureAt(e: Event): Option<Error> {
    match e
    case Polled(cancelled) => if cancelled then Some(Error(503, "REQUEST_CANCELLED", "request cancelled")) else None
    case Called(kind, _, answer) =>
      match kind
      case ProfileCall => ProfileFailure(answer)
      case MutateCall => MutationFailure(answer)
      case WaitCall => WaitFailure(answer)
      case _ => VerifyFailure(answer)
  }

  lemma IncusFails(status: int)
    ensures IncusError(status) == IncusFailure(status)
  {
  }

  lemma MutationFails(answer: Answer)
    ensures ReadMutation(answer) ==
            if MutationFailure(answer).Some? then Failure(MutationFailure(answer).value) else Success(WaitIdOf(answer))
  {
    if answer.Some? { IncusFails(answer.value.status); }
  }

  lemma WaitFails(answer: Answer)
    ensures ReadWait(answer) == WaitFailure(answer)
  {
    if answer.Some? { IncusFails(answer.value.status); }
  }

  lemma VerifyFails(answer: Answer)
    ensures ReadVerify(answer) == VerifyFailure(answer)
  {
    if answer.Some? { IncusFails(answer.value.status); }
  }

  lemma SelectionFails(devices: Devices)
    ensures SelectRootDisk(devices).Success? <==> exists disk :: IsOnlyRootDisk(devices, disk)
    ensures SelectRootDisk(devices).Failure? ==>
              SelectRootDisk(devices).error ==
              if HasTwoRoots(devices) then
                Error(502, "INCUS_PROFILE_ROOT_DISK_AMBIGUOUS", "incus default profile root disk is ambiguous")
              else
                Error(502, "INCUS_PROFILE_ROOT_DISK_UNAVAILABLE", "incus default profile root disk unavailable")
  {
    CandidatesMeaning(devices);
    if SelectRootDisk(devices).Success? {
      ChosenMeaning(devices, SelectRootDisk(devices).value);
    } else {
      NotChosenMeaning(devices);
    }
    forall disk | IsOnlyRootDisk(devices, disk) ensures SelectRootDisk(devices).Success? {
      ChosenMeaning(devices, RootDisk(disk, devices[disk]));
    }
  }

  lemma ProfileFails(answer: Answer)
    ensures ProfileStage(answer).Success? <==> ProfileFailure(answer).None?
    ensures ProfileStage(answer).Failure? ==> ProfileFailure(answer) == Some(ProfileStage(answer).error)
  {
    if answer.Some? && answer.value.body.devices.Some? { SelectionFails(answer.value.body.devices.value); }
  }

  lemma CancelledFails()
    ensures CANCELLED == Error(503, "REQUEST_CANCELLED", "request cancelled")
  {
  }

  /** The last event decides. */
  ghost predicate EndsAs(log: seq<Event>, r: Result) {
    log != [] && r.err == FailureAt(log[|log| - 1])
  }

  lemma LaterEndsAs(log: seq<Event>, r: Result)
    requires log != [] && EndsAs(log[1..], r)
    ensures EndsAs(log, r)
  {
    assert log[1..][|log[1..]| - 1] == log[|log| - 1];
  }

  lemma VerifyEndsAs(name: Text, id: Text, log: seq<Event>, r: Result)
    requires ValidateInstanceName(name).None? && Runs(VerifyProgram(Create, name, id), log, r)
    ensures EndsAs(log, r)
  {
    var q := Step(VerifyProgram(Create, name, id), log);
    CancelledFails();
    if log[0].cancelled {
      assert q == Return(Failed(CANCELLED));
      assert log[1..] == [];
    } else {
      var rest := log[1..];
      var end := Step(q, rest);
      VerifyFails(rest[0].answer);
      var error := ReadVerify(rest[0].answer);
      assert end == Return(if error.Some? then Failed(error.value) else Done(Create, name, id));
      assert rest[1..] == [];
      LaterEndsAs(log, r);
    }
  }

  /** After an event that did not fail: the reply, or the events of verifying. */
  lemma VerifyOrDone(action: Action, name: Text, id: Text, e: Event, rest: seq<Event>, r: Result)
    requires ValidateInstanceName(name).None? && Runs(VerifyProgram(action, name, id), rest, r)
    requires FailureAt(e).None?
    ensures EndsAs([e] + rest, r)
  {
    var log := [e] + rest;
    assert log[1..] == rest;
    if action == Create {
      VerifyEndsAs(name, id, rest, r);
      LaterEndsAs(log, r);
    } else {
      assert rest == [] && r == Done(action, name, id);
    }
  }

  lemma WaitEndsAs(action: Action, name: Text, id: Text, log: seq<Event>, r: Result)
    requires ValidateInstanceName(name).None? && id != [] && Runs(SettleProgram(action, name, id), log, r)
    ensures EndsAs(log, r)
  {
    var q := Step(SettleProgram(action, name, id), log);
    CancelledFails();
    if log[0].cancelled {
      assert q == Return(Failed(CANCELLED));
      assert log[1..] == [];
    } else {
      var rest := log[1..];
      var next := Step(q, rest);
      WaitFails(rest[0].answer);
      var error := ReadWait(rest[0].answer);
      if error.Some? {
        assert next == Return(Failed(error.value));
        assert rest[1..] == [];
      } else {
        assert next == VerifyProgram(action, name, id);
        VerifyOrDone(action, name, id, rest[0], rest[1..], r);
        assert [rest[0]] + rest[1..] == rest;
      }
      LaterEndsAs(log, r);
    }
  }

  lemma CommandEndsAs(action: Action, name: Text, payload: ActionPayload, log: seq<Event>, r: Result)
    requires ValidateInstanceName(name).None? && BuildIncusRequest(action, name, payload).Success?
    requires Runs(CommandProgram(action, name, payload), log, r)
    ensures EndsAs(log, r)
  {
    var q := Step(CommandProgram(action, name, payload), log);
    var rest := log[1..];
    assert [log[0]] + rest == log;
    MutationFails(log[0].answer);
    match ReadMutation(log[0].answer)
    case Failure(e) =>
      assert q == Return(Failed(e));
      assert rest == [];
    case Success(id) =>
      assert q == SettleProgram(action, name, id);
      if id == [] {
        VerifyOrDone(action, name, id, log[0], rest, r);
      } else {
        WaitEndsAs(action, name, id, rest, r);
        LaterEndsAs(log, r);
      }
  }

  lemma CreateEndsAs(q: CreateRequest, log: seq<Event>, r: Result)
    requires ValidateCreate(q).None? && Runs(CreateProgram(q), log, r)
    ensures EndsAs(log, r)
  {
    var p := Step(CreateProgram(q), log);
    CancelledFails();
    if log[0].cancelled {
      assert p == Return(Failed(CANCELLED));
      assert log[1..] == [];
    } else {
      var rest := log[1..];
      var next := Step(p, rest);
      ProfileFails(rest[0].answer);
      match ProfileStage(rest[0].answer) {
        case Failure(e) =>
          assert next == Return(Failed(e));
          assert rest[1..] == [];
        case Success(disk) =>
          var payload := CreatePayload(q, disk);
          assert next == CommandProgram(Create, q.name, payload);
          BuildNeverFails(Create, q.name, payload);
          CommandEndsAs(Create, q.name, payload, rest[1..], r);
          LaterEndsAs(rest, r);
      }
      LaterEndsAs(log, r);
    }
  }

  lemma RouteEndsAs(verb: Text, path: Text, body: RequestBody, log: seq<Event>, r: Result)
    requires Runs(RouteProgram(verb, ParseLifecyclePath(path), body), log, r)
    requires !RouteProgram(verb, ParseLifecyclePath(path), body).Return?
    ensures EndsAs(log, r)
  {
    var action := ParseLifecyclePath(path).value.action;
    if action == Create {
      DecodedCreate(body);
      CreateEndsAs(DecodeCreate(body).value, log, r);
    } else {
      var refused, payload := RouteCommand(verb, path, body);
      CommandEndsAs(action, ParseLifecyclePath(path).value.name, payload, log, r);
    }
  }

  /** The exact error of every run: cancelled before it was looked at, refused by the first check the
      request fails, or decided by the last event of its conversation; no error means success. */
  lemma OutcomeMeaning(verb: Text, path: Text, body: RequestBody, log: seq<Event>, r: Result)
    requires Runs(HandleProgram(verb, path, body), log, r)
    ensures log != [] && log[0].Polled?
    ensures r.err ==
            if log[0].cancelled then Some(Error(503, "REQUEST_CANCELLED", "request cancelled"))
            else if RefusalOf(verb, ParseLifecyclePath(path), body).Some? then
              RefusalOf(verb, ParseLifecyclePath(path), body)
            else FailureAt(log[|log| - 1])
    ensures r.err.Some? ==> r.status == 0 && r.body.None?
  {
    var q := Step(HandleProgram(verb, path, body), log);
    CancelledFails();
    LifecycleSecrecy.ResultStatus(verb, path, body, log, r);
    if log[0].cancelled {
      assert q == Return(Failed(CANCELLED));
    } else {
      assert q == RouteProgram(verb, ParseLifecyclePath(path), body);
      RouteRefused(verb, ParseLifecyclePath(path), body);
      if !q.Return? {
        RouteEndsAs(verb, path, body, log[1..], r);
        LaterEndsAs(log, r);
      }
    }
  }
}
