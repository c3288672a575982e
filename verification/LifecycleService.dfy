/** The lifecycle service as the agent runs it: ordered calls on a stateful backend.  Every method
    is proved to perform a run of the corresponding program, so the theorems about programs hold
    of it. */
module LifecycleService {
  import opened Strings
  import opened Incus
  import opened Lifecycle
  import opened RootDiskSelection
  import opened Programs
  import opened LifecycleProtocol
  import opened Environments

  class Service {
    const incus: Environment

    constructor (incus: Environment)
      ensures this.incus == incus
    {
      this.incus := incus;
    }

    method Handle(verb: Text, path: Text, body: RequestBody) returns (result: Result)
      modifies incus
      ensures Performed(HandleProgram(verb, path, body), old(incus.log), incus.log, result)
    {
      ghost var before := incus.log;
      var cancelled := incus.Cancelled();
      ghost var started := incus.log;
      if cancelled {
        result := Failed(CANCELLED);
        PerformedReturn(started, result);
      } else {
        result := Dispatch(verb, path, body);
      }
      PerformedStep(HandleProgram(verb, path, body),
        if cancelled then Return(Failed(CANCELLED)) else RouteProgram(verb, ParseLifecyclePath(path), body),
        Polled(cancelled), before, incus.log, result);
    }

    method Dispatch(verb: Text, path: Text, body: RequestBody) returns (result: Result)
      modifies incus
      ensures Performed(RouteProgram(verb, ParseLifecyclePath(path), body), old(incus.log), incus.log, result)
    {
      var route := ParseLifecyclePath(path);
      if route.None? {
        return Failed(UNKNOWN_PATH);
      }
      match route.value.action
      case Create => result := HandleCreate(verb, route.value, body);
      case Delete => result := HandleDelete(verb, route.value, body);
      case _ => result := HandleState(verb, route.value, body);
    }

    method HandleCreate(verb: Text, route: Route, body: RequestBody) returns (result: Result)
      requires route.action == Create
      modifies incus
      ensures Performed(RouteProgram(verb, Some(route), body), old(incus.log), incus.log, result)
    {
      if verb != "POST" {
        return Failed(WrongMethod(Create));
      }
      var decoded := DecodeCreate(body);
      if decoded.Failure? {
        return Failed(decoded.error);
      }
      var req := decoded.value;
      ghost var before := incus.log;
      var cancelled := incus.Cancelled();
      ghost var polled := incus.log;
      ghost var afterPoll := CreateProgram(req).onPoll(cancelled);
      if cancelled {
        result := Failed(CANCELLED);
        PerformedReturn(polled, result);
        PerformedStep(CreateProgram(req), afterPoll, Polled(cancelled), before, incus.log, result);
        return;
      }
      var answer := incus.Execute(ProfileCall, PROFILE_REQUEST);
      ghost var asked := incus.log;
      var stage := ReadProfile(answer);
      if stage.Failure? {
        result := Failed(stage.error);
        PerformedReturn(asked, result);
      } else {
        result := Command(Create, req.name, CreatePayload(req, stage.value));
      }
      PerformedStep(afterPoll, afterPoll.onAnswer(answer), Called(ProfileCall, PROFILE_REQUEST, answer), polled,
                    incus.log, result);
      PerformedStep(CreateProgram(req), afterPoll, Polled(cancelled), before, incus.log, result);
    }

    /** defaultProfileRootDisk, once the profile has been answered */
    method ReadProfile(answer: Answer) returns (stage: Outcome<RootDisk>)
      ensures stage == ProfileStage(answer)
    {
      if answer.None? {
        return Failure(Error(UNAVAILABLE, "INCUS_PROFILE_UNAVAILABLE", "incus default profile unavailable"));
      }
      var resp := answer.value;
      if !Is2xx(resp.status) {
        return Failure(Error(BAD_GATEWAY, "INCUS_PROFILE_UNAVAILABLE", "incus default profile unavailable"));
      }
      if resp.body.bytes == [] || !resp.body.profileOk || resp.body.devices.None? {
        return Failure(PROFILE_MALFORMED);
      }
      stage := SelectProfileRootDisk(resp.body.devices.value);
    }

    method HandleState(verb: Text, route: Route, body: RequestBody) returns (result: Result)
      requires route.action != Create && route.action != Delete
      modifies incus
      ensures Performed(RouteProgram(verb, Some(route), body), old(incus.log), incus.log, result)
    {
      if verb != "POST" {
        return Failed(WrongMethod(route.action));
      }
      var force := DecodeStrict(body.size, body.force, false);
      if force.Failure? {
        return Failed(force.error);
      }
      result := Command(route.action, route.name, StatePayload(force.value));
    }

    method HandleDelete(verb: Text, route: Route, body: RequestBody) returns (result: Result)
      requires route.action == Delete
      modifies incus
      ensures Performed(RouteProgram(verb, Some(route), body), old(incus.log), incus.log, result)
    {
      if verb != "POST" {
        return Failed(WrongMethod(Delete));
      }
      var confirmed := DecodeDelete(body);
      if confirmed.Failure? {
        return Failed(confirmed.error);
      }
      result := Command(Delete, route.name, OtherPayload);
    }

    /** Validate, build, execute, normalize. */
    method Command(action: Action, name: Text, payload: ActionPayload) returns (result: Result)
      modifies incus
      ensures Performed(CommandProgram(action, name, payload), old(incus.log), incus.log, result)
    {
      var invalid := ValidateInstanceName(name);
      if invalid.Some? {
        return Failed(invalid.value);
      }
      var built := BuildIncusRequest(action, name, payload);
      if built.Failure? {
        return Failed(built.error);
      }
      ghost var before := incus.log;
      var answer := incus.Execute(MutateCall, built.value);
      ghost var called := incus.log;
      ghost var p := CommandProgram(action, name, payload);
      var reading := ReadMutation(answer);
      if reading.Failure? {
        result := Failed(reading.error);
        PerformedReturn(called, result);
      } else {
        result := Settle(action, name, reading.value);
      }
      PerformedStep(p, p.onAnswer(answer), Called(MutateCall, built.value, answer), before, incus.log, result);
    }

    /** normalizeResponse after the operation reference has been read */
    method Settle(action: Action, name: Text, id: Text) returns (result: Result)
      modifies incus
      ensures Performed(SettleProgram(action, name, id), old(incus.log), incus.log, result)
    {
      if id == "" {
        result := Verify(action, name, id);
        return;
      }
      ghost var p := SettleProgram(action, name, id);
      ghost var before := incus.log;
      var cancelled := incus.Cancelled();
      ghost var polled := incus.log;
      ghost var afterPoll := p.onPoll(cancelled);
      if cancelled {
        result := Failed(CANCELLED);
        PerformedReturn(polled, result);
      } else {
        var answer := incus.Execute(WaitCall, WaitRequest(id));
        ghost var waited := incus.log;
        var error := ReadWait(answer);
        if error.Some? {
          result := Failed(error.value);
          PerformedReturn(waited, result);
        } else {
          result := Verify(action, name, id);
        }
        PerformedStep(afterPoll, afterPoll.onAnswer(answer), Called(WaitCall, WaitRequest(id), answer), polled,
                      incus.log, result);
      }
      PerformedStep(p, afterPoll, Polled(cancelled), before, incus.log, result);
    }

    /** verifyCreatedInstance, then the success reply */
    method Verify(action: Action, name: Text, id: Text) returns (result: Result)
      modifies incus
      ensures Performed(VerifyProgram(action, name, id), old(incus.log), incus.log, result)
    {
      if action != Create {
        return Done(action, name, id);
      }
      ghost var p := VerifyProgram(action, name, id);
      ghost var before := incus.log;
      var cancelled := incus.Cancelled();
      ghost var polled := incus.log;
      ghost var afterPoll := p.onPoll(cancelled);
      var invalid := ValidateInstanceName(name);
      if cancelled {
        result := Failed(CANCELLED);
        PerformedReturn(polled, result);
      } else if invalid.Some? {
        result := Failed(invalid.value);
        PerformedReturn(polled, result);
      } else {
        var answer := incus.Execute(VerifyCall, VerifyRequest(name));
        var error := ReadVerify(answer);
        result := if error.Some? then Failed(error.value) else Done(action, name, id);
        PerformedReturn(incus.log, result);
        PerformedStep(afterPoll, afterPoll.onAnswer(answer), Called(VerifyCall, VerifyRequest(name), answer), polled,
                      incus.log, result);
      }
      PerformedStep(p, afterPoll, Polled(cancelled), before, incus.log, result);
    }
  }
}
