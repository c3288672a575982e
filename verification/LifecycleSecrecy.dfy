/** What a lifecycle reply can depend on, and what its status can be. */
module LifecycleSecrecy {
  import opened Strings
  import opened Incus
  import opened Lifecycle
  import opened RootDiskSelection
  import opened Programs
  import opened LifecycleProtocol
  import opened LifecycleTheorems

  // ---------------------------------------------------------------- two runs

  /** The parts of a profile answer that are read: its devices, when decoding succeeded. */
  function ProfileView(resp: Response): Option<Devices> {
    if resp.body.bytes == [] || !resp.body.profileOk then None else resp.body.devices
  }

  /** The parts of a wait answer that are read: its status code, when decoding succeeded. */
  function WaitView(resp: Response): Option<int> {
    if resp.body.bytes == [] || !resp.body.envelopeOk then None else Some(resp.body.statusCode)
  }

  /** Two answers to one call that differ only in what is never read. */
  predicate SameView(kind: CallKind, a: Answer, b: Answer) {
    && (a.Some? <==> b.Some?)
    && (a.Some? ==>
          && a.value.status == b.value.status
          && (kind == ProfileCall ==> ProfileView(a.value) == ProfileView(b.value))
          && (kind == MutateCall ==> OperationOf(a.value) == OperationOf(b.value))
          && (kind == WaitCall ==> WaitView(a.value) == WaitView(b.value)))
  }

  /** Two events a handler cannot tell apart. */
  predicate Agree(e1: Event, e2: Event) {
    && (e1.Polled? && e2.Polled? ==> e1.cancelled == e2.cancelled)
    && (e1.Called? && e2.Called? && e1.kind == e2.kind ==> SameView(e1.kind, e1.answer, e2.answer))
  }

  predicate SameStep(e1: Event, e2: Event) {
    && (e1.Polled? <==> e2.Polled?)
    && (e1.Called? ==> e1.kind == e2.kind && e1.req == e2.req)
  }

  lemma SameReadings(a: Answer, b: Answer)
    ensures SameView(ProfileCall, a, b) ==> ProfileStage(a) == ProfileStage(b)
    ensures SameView(MutateCall, a, b) ==> ReadMutation(a) == ReadMutation(b)
    ensures SameView(WaitCall, a, b) ==> ReadWait(a) == ReadWait(b)
    ensures SameView(VerifyCall, a, b) ==> ReadVerify(a) == ReadVerify(b)
  {
  }

  /** The program goes on in the same way after answers it cannot tell apart. */
  ghost predicate Discreet(p: Program<Result>) {
    p.Call? ==> forall a, b | SameView(p.kind, a, b) :: p.onAnswer(a) == p.onAnswer(b)
  }

  ghost predicate AlwaysDiscreet(p: Program<Result>) {
    forall log: seq<Event> | After(p, log).Some? :: Discreet(After(p, log).value)
  }

  lemma DiscreetAfterStep(p: Program<Result>, e: Event, q: Program<Result>)
    requires AlwaysDiscreet(p)
    requires if p.Poll? then e.Polled? && q == p.onPoll(e.cancelled)
             else p.Call? && e.Called? && e.kind == p.kind && e.req == p.req && q == p.onAnswer(e.answer)
    ensures AlwaysDiscreet(q)
  {
    forall log: seq<Event> | After(q, log).Some? ensures Discreet(After(q, log).value) {
      assert ([e] + log)[1..] == log;
      assert After(p, [e] + log) == After(q, log);
    }
  }

  lemma {:induction false} DiscreetRunsAgree(p: Program<Result>, log1: seq<Event>, log2: seq<Event>, r1: Result,
                                             r2: Result)
    requires AlwaysDiscreet(p) && Runs(p, log1, r1) && Runs(p, log2, r2)
    requires forall i | 0 <= i < |log1| && i < |log2| :: Agree(log1[i], log2[i])
    ensures r1 == r2 && |log1| == |log2|
    ensures forall i | 0 <= i < |log1| :: SameStep(log1[i], log2[i])
    decreases |log1|
  {
    if log1 != [] && log2 != [] {
      var q1 := Step(p, log1);
      var q2 := Step(p, log2);
      assert After(p, []) == Some(p);
      assert Agree(log1[0], log2[0]);
      assert q1 == q2;
      DiscreetAfterStep(p, log1[0], q1);
      forall i | 0 <= i < |log1[1..]| && i < |log2[1..]| ensures Agree(log1[1..][i], log2[1..][i]) {
        assert Agree(log1[i + 1], log2[i + 1]);
      }
      DiscreetRunsAgree(q1, log1[1..], log2[1..], r1, r2);
      forall i | 0 <= i < |log1| ensures SameStep(log1[i], log2[i]) {
        if i > 0 { assert SameStep(log1[1..][i - 1], log2[1..][i - 1]); }
      }
    }
  }

  lemma VerifyDiscreet(action: Action, name: Text, id: Text)
    ensures AlwaysDiscreet(VerifyProgram(action, name, id))
  {
    var p := VerifyProgram(action, name, id);
    forall log: seq<Event> | After(p, log).Some? ensures Discreet(After(p, log).value) {
      if log != [] {
        var q := Step(p, log);
        if log[1..] == [] {
          forall a, b ensures SameView(VerifyCall, a, b) ==> ReadVerify(a) == ReadVerify(b) { SameReadings(a, b); }
        } else {
          var end := Step(q, log[1..]);
        }
      }
    }
  }

  lemma SettleDiscreet(action: Action, name: Text, id: Text)
    ensures AlwaysDiscreet(SettleProgram(action, name, id))
  {
    var p := SettleProgram(action, name, id);
    VerifyDiscreet(action, name, id);
    forall log: seq<Event> | After(p, log).Some? ensures Discreet(After(p, log).value) {
      if id != "" && log != [] {
        var q := Step(p, log);
        var rest := log[1..];
        if rest == [] {
          forall a, b ensures SameView(WaitCall, a, b) ==> ReadWait(a) == ReadWait(b) { SameReadings(a, b); }
        } else {
          var afterWait := Step(q, rest);
          assert afterWait.Return? || afterWait == VerifyProgram(action, name, id);
        }
      }
    }
  }

  lemma CommandDiscreet(action: Action, name: Text, payload: ActionPayload)
    ensures AlwaysDiscreet(CommandProgram(action, name, payload))
  {
    var p := CommandProgram(action, name, payload);
    forall log: seq<Event> | After(p, log).Some? ensures Discreet(After(p, log).value) {
      if log == [] {
        forall a, b ensures SameView(MutateCall, a, b) ==> ReadMutation(a) == ReadMutation(b) { SameReadings(a, b); }
      } else {
        var q := Step(p, log);
        match ReadMutation(log[0].answer)
        case Failure(e) => assert q == Return(Failed(e));
        case Success(id) =>
          assert q == SettleProgram(action, name, id);
          SettleDiscreet(action, name, id);
      }
    }
  }

  lemma CreateDiscreet(req: CreateRequest)
    ensures AlwaysDiscreet(CreateProgram(req))
  {
    var p := CreateProgram(req);
    forall log: seq<Event> | After(p, log).Some? ensures Discreet(After(p, log).value) {
      if log != [] {
        var q := Step(p, log);
        var rest := log[1..];
        if rest == [] {
          forall a, b ensures SameView(ProfileCall, a, b) ==> ProfileStage(a) == ProfileStage(b) { SameReadings(a, b); }
        } else {
          var next := Step(q, rest);
          match ProfileStage(rest[0].answer)
          case Failure(e) => assert next == Return(Failed(e));
          case Success(disk) =>
            assert next == CommandProgram(Create, req.name, CreatePayload(req, disk));
            CommandDiscreet(Create, req.name, CreatePayload(req, disk));
        }
      }
    }
  }

  lemma HandleDiscreet(verb: Text, path: Text, body: RequestBody)
    ensures AlwaysDiscreet(HandleProgram(verb, path, body))
  {
    var p := HandleProgram(verb, path, body);
    forall log: seq<Event> | After(p, log).Some? ensures Discreet(After(p, log).value) {
      if log != [] {
        var q := Step(p, log);
        if q.Call? || q.Poll? {
          assert q == RouteProgram(verb, ParseLifecyclePath(path), body);
          var action := ParseLifecyclePath(path).value.action;
          if action == Create {
            CreateDiscreet(DecodeCreate(body).value);
          } else {
            var refused, payload := RouteCommand(verb, path, body);
            CommandDiscreet(action, ParseLifecyclePath(path).value.name, payload);
          }
        }
      }
    }
  }

  /** Two backends that agree, call by call, on the few fields that are read make Handle issue the
      same calls and return the same result, whatever else their answers hold. */
  lemma HandleIsNoninterfering(verb: Text, path: Text, body: RequestBody,
                               log1: seq<Event>, log2: seq<Event>, r1: Result, r2: Result)
    requires Runs(HandleProgram(verb, path, body), log1, r1)
    requires Runs(HandleProgram(verb, path, body), log2, r2)
    requires forall i | 0 <= i < |log1| && i < |log2| :: Agree(log1[i], log2[i])
    ensures r1 == r2 && |log1| == |log2|
    ensures forall i | 0 <= i < |log1| :: SameStep(log1[i], log2[i])
  {
    HandleDiscreet(verb, path, body);
    DiscreetRunsAgree(HandleProgram(verb, path, body), log1, log2, r1, r2);
  }

  // ---------------------------------------------------------------- statuses

  /** Either a success with status 200 and a body, or an error that is not a success status. */
  predicate WellFormed(r: Result) {
    if r.err.None? then r.status == 200 && r.body.Some?
    else r.status == 0 && r.body.None? && !Is2xx(r.err.value.status)
  }

  ghost predicate ReturnsWellFormed(p: Program<Result>) {
    forall log: seq<Event> | After(p, log).Some? && After(p, log).value.Return? ::
        WellFormed(After(p, log).value.result)
  }

  /** A status an error of the agent's own can have, never that of a success nor 404. */
  predicate IsOwnErrorStatus(status: int) {
    !Is2xx(status) && status != NOT_FOUND
  }

  lemma LateStatuses(answer: Answer)
    ensures ReadVerify(answer).Some? ==> IsOwnErrorStatus(ReadVerify(answer).value.status)
    ensures ReadWait(answer).Some? ==> IsOwnErrorStatus(ReadWait(answer).value.status)
  {
  }

  lemma MutationStatuses(answer: Answer)
    ensures ReadMutation(answer).Failure? ==>
              && !Is2xx(ReadMutation(answer).error.status)
              && (ReadMutation(answer).error.status == NOT_FOUND <==> answer.Some? && answer.value.status == NOT_FOUND)
  {
  }

  lemma ProfileStatuses(answer: Answer)
    ensures ProfileStage(answer).Failure? ==> IsOwnErrorStatus(ProfileStage(answer).error.status)
  {
  }

  lemma NameStatuses(name: Text)
    ensures ValidateInstanceName(name).Some? ==> IsOwnErrorStatus(ValidateInstanceName(name).value.status)
  {
  }

  lemma DoneWellFormed(action: Action, name: Text, id: Text)
    ensures WellFormed(Done(action, name, id))
  {
  }

  lemma VerifyWellFormed(action: Action, name: Text, id: Text)
    requires ValidateInstanceName(name).None?
    ensures ReturnsWellFormed(VerifyProgram(action, name, id))
  {
    var p := VerifyProgram(action, name, id);
    DoneWellFormed(action, name, id);
    forall log: seq<Event> | After(p, log).Some? && After(p, log).value.Return?
      ensures WellFormed(After(p, log).value.result)
    {
      if log != [] {
        var q := Step(p, log);
        var rest := log[1..];
        if log[0].cancelled {
          assert q == Return(Failed(CANCELLED));
        } else {
          assert q.Call?;
          var end := Step(q, rest);
          var error := ReadVerify(rest[0].answer);
          LateStatuses(rest[0].answer);
          assert end == Return(if error.Some? then Failed(error.value) else Done(action, name, id));
        }
      }
    }
  }

  lemma SettledWellFormed(action: Action, name: Text, id: Text)
    requires ValidateInstanceName(name).None?
    ensures ReturnsWellFormed(SettleProgram(action, name, id))
  {
    VerifyWellFormed(action, name, id);
    var s := SettleProgram(action, name, id);
    forall log: seq<Event> | After(s, log).Some? && After(s, log).value.Return?
      ensures WellFormed(After(s, log).value.result)
    {
      if id != "" {
        var q := Step(s, log);
        var rest := log[1..];
        if log[0].cancelled {
          assert q == Return(Failed(CANCELLED));
        } else {
          assert q.Call?;
          LateStatuses(rest[0].answer);
          var next := Step(q, rest);
          var error := ReadWait(rest[0].answer);
          assert if error.Some? then next == Return(Failed(error.value)) else next == VerifyProgram(action, name, id);
        }
      }
    }
  }

  lemma CommandWellFormed(action: Action, name: Text, payload: ActionPayload)
    requires ValidateInstanceName(name).None? && BuildIncusRequest(action, name, payload).Success?
    ensures ReturnsWellFormed(CommandProgram(action, name, payload))
  {
    var p := CommandProgram(action, name, payload);
    forall log: seq<Event> | After(p, log).Some? && After(p, log).value.Return?
      ensures WellFormed(After(p, log).value.result)
    {
      var q := Step(p, log);
      MutationStatuses(log[0].answer);
      match ReadMutation(log[0].answer)
      case Failure(e) => assert q == Return(Failed(e));
      case Success(id) =>
        assert q == SettleProgram(action, name, id);
        SettledWellFormed(action, name, id);
    }
  }

  lemma CreateWellFormed(req: CreateRequest)
    requires ValidateCreate(req).None?
    ensures ReturnsWellFormed(CreateProgram(req))
  {
    var p := CreateProgram(req);
    forall log: seq<Event> | After(p, log).Some? && After(p, log).value.Return?
      ensures WellFormed(After(p, log).value.result)
    {
      var q := Step(p, log);
      var rest := log[1..];
      if log[0].cancelled {
        assert q == Return(Failed(CANCELLED));
      } else {
        assert q.Call?;
        var next := Step(q, rest);
        ProfileStatuses(rest[0].answer);
        match ProfileStage(rest[0].answer)
        case Failure(e) => assert next == Return(Failed(e));
        case Success(disk) =>
          assert next == CommandProgram(Create, req.name, CreatePayload(req, disk));
          BuildNeverFails(Create, req.name, CreatePayload(req, disk));
          CommandWellFormed(Create, req.name, CreatePayload(req, disk));
      }
    }
  }

  lemma DecodingStatuses(body: RequestBody)
    ensures DecodeCreate(body).Failure? ==> DecodeCreate(body).error.status == BAD_REQUEST
    ensures DecodeDelete(body).Failure? ==> DecodeDelete(body).error.status == BAD_REQUEST
    ensures DecodeStrict(body.size, body.force, false).Failure? ==>
              DecodeStrict(body.size, body.force, false).error.status == BAD_REQUEST
  {
  }

  lemma RefusedCommand(action: Action, name: Text, payload: ActionPayload)
    requires action != Create && CommandProgram(action, name, payload).Return?
    ensures WellFormed(CommandProgram(action, name, payload).result)
  {
    NameStatuses(name);
    if ValidateInstanceName(name).None? { BuildNeverFails(action, name, payload); }
  }

  lemma RefusalStatuses(verb: Text, path: Text, body: RequestBody)
    requires RouteProgram(verb, ParseLifecyclePath(path), body).Return?
    ensures WellFormed(RouteProgram(verb, ParseLifecyclePath(path), body).result)
  {
    if ParseLifecyclePath(path).Some? && verb == "POST" {
      DecodingStatuses(body);
      var route := ParseLifecyclePath(path).value;
      match route.action
      case Create =>
      case Delete => if DecodeDelete(body).Success? { RefusedCommand(Delete, route.name, OtherPayload); }
      case action =>
        var force := DecodeStrict(body.size, body.force, false);
        if force.Success? { RefusedCommand(action, route.name, StatePayload(force.value)); }
    }
  }

  /** A failed request never reports a success status, a successful one reports 200, and no result
      has the status 0 and no error that the server would have to replace. */
  lemma ResultStatus(verb: Text, path: Text, body: RequestBody, log: seq<Event>, r: Result)
    requires Runs(HandleProgram(verb, path, body), log, r)
    ensures WellFormed(r)
  {
    var q := Step(HandleProgram(verb, path, body), log);
    if log[0].cancelled {
      assert q == Return(Failed(CANCELLED));
    } else {
      assert q == RouteProgram(verb, ParseLifecyclePath(path), body);
      if q.Return? {
        RefusalStatuses(verb, path, body);
        assert log[1..] == [];
      } else {
        var action := ParseLifecyclePath(path).value.action;
        if action == Create {
          CreateWellFormed(DecodeCreate(body).value);
        } else {
          var refused, payload := RouteCommand(verb, path, body);
          CommandWellFormed(action, ParseLifecyclePath(path).value.name, payload);
        }
      }
    }
  }

  // ---------------------------------------------------------------- 404

  predicate IsNotFound(r: Result) {
    r.err.Some? && r.err.value.status == NOT_FOUND
  }

  /** No result of this program reports that something was not found. */
  ghost predicate NeverNotFound(p: Program<Result>) {
    forall log: seq<Event> | After(p, log).Some? && After(p, log).value.Return? ::
      !IsNotFound(After(p, log).value.result)
  }

  lemma VerifyNeverNotFound(action: Action, name: Text, id: Text)
    requires ValidateInstanceName(name).None?
    ensures NeverNotFound(VerifyProgram(action, name, id))
  {
    var p := VerifyProgram(action, name, id);
    DoneWellFormed(action, name, id);
    forall log: seq<Event> | After(p, log).Some? && After(p, log).value.Return?
      ensures !IsNotFound(After(p, log).value.result)
    {
      if log != [] {
        var q := Step(p, log);
        var rest := log[1..];
        if log[0].cancelled {
          assert q == Return(Failed(CANCELLED));
        } else {
          assert q.Call?;
          var end := Step(q, rest);
          var error := ReadVerify(rest[0].answer);
          LateStatuses(rest[0].answer);
          assert end == Return(if error.Some? then Failed(error.value) else Done(action, name, id));
        }
      }
    }
  }

  lemma SettleNeverNotFound(action: Action, name: Text, id: Text)
    requires ValidateInstanceName(name).None?
    ensures NeverNotFound(SettleProgram(action, name, id))
  {
    VerifyNeverNotFound(action, name, id);
    var p := SettleProgram(action, name, id);
    forall log: seq<Event> | After(p, log).Some? && After(p, log).value.Return?
      ensures !IsNotFound(After(p, log).value.result)
    {
      if id != "" {
        var q := Step(p, log);
        var rest := log[1..];
        if log[0].cancelled {
          assert q == Return(Failed(CANCELLED));
        } else {
          assert q.Call?;
          var next := Step(q, rest);
          LateStatuses(rest[0].answer);
          var error := ReadWait(rest[0].answer);
          assert if error.Some? then next == Return(Failed(error.value)) else next == VerifyProgram(action, name, id);
        }
      }
    }
  }

  /** The mutating call was answered 404. */
  ghost predicate MutationNotFound(log: seq<Event>) {
    var answers := Answers(log, MutateCall);
    |answers| == 1 && answers[0].Some? && answers[0].value.status == NOT_FOUND
  }

  lemma CommandNotFound(action: Action, name: Text, payload: ActionPayload, req: Request, log: seq<Event>, r: Result)
    requires ValidateInstanceName(name).None? && BuildIncusRequest(action, name, payload) == Success(req)
    requires Runs(CommandProgram(action, name, payload), log, r)
    ensures IsNotFound(r) <==> MutationNotFound(log)
  {
    var q := Step(CommandProgram(action, name, payload), log);
    MutationStatuses(log[0].answer);
    match ReadMutation(log[0].answer)
    case Failure(e) =>
      assert q == Return(Failed(e));
      Unfold(log[1..]);
      CompletedFromMutation(action, log);
    case Success(id) =>
      assert q == SettleProgram(action, name, id);
      SettleStage(action, name, id, log[1..]);
      CompletedFromMutation(action, log);
      ReadingMeanings(log[0].answer);
      SettleNeverNotFound(action, name, id);
  }

  /** What a create does once its profile was read. */
  lemma ProfileNotFound(req: CreateRequest, p: Program<Result>, log: seq<Event>, r: Result)
    requires ValidateCreate(req).None?
    requires p == CreateProgram(req).onPoll(false) && Runs(p, log, r)
    ensures IsNotFound(r) <==> MutationNotFound(log)
  {
    assert p.Call?;
    var next := Step(p, log);
    CompletedAfterFirst(Create, log);
    ProfileStatuses(log[0].answer);
    match ProfileStage(log[0].answer)
    case Failure(e) =>
      assert next == Return(Failed(e));
      Unfold(log[1..]);
    case Success(disk) =>
      var payload := CreatePayload(req, disk);
      assert next == CommandProgram(Create, req.name, payload);
      BuildNeverFails(Create, req.name, payload);
      CommandNotFound(Create, req.name, payload, BuildIncusRequest(Create, req.name, payload).value, log[1..], r);
  }

  lemma CreateNotFound(req: CreateRequest, log: seq<Event>, r: Result)
    requires ValidateCreate(req).None? && Runs(CreateProgram(req), log, r)
    ensures IsNotFound(r) <==> MutationNotFound(log)
  {
    var afterPoll := Step(CreateProgram(req), log);
    CompletedAfterFirst(Create, log);
    if log[0].cancelled {
      assert afterPoll == Return(Failed(CANCELLED));
      Unfold(log[1..]);
    } else {
      ProfileNotFound(req, afterPoll, log[1..], r);
    }
  }

  lemma RefusedCommandStatus(action: Action, name: Text, payload: ActionPayload)
    requires action != Create && CommandProgram(action, name, payload).Return?
    ensures !IsNotFound(CommandProgram(action, name, payload).result)
  {
    NameStatuses(name);
    if ValidateInstanceName(name).None? { BuildNeverFails(action, name, payload); }
  }

  lemma RefusalNotFound(verb: Text, path: Text, body: RequestBody)
    requires RouteProgram(verb, ParseLifecyclePath(path), body).Return?
    ensures IsNotFound(RouteProgram(verb, ParseLifecyclePath(path), body).result) <==> ParseLifecyclePath(path).None?
  {
    if ParseLifecyclePath(path).Some? && verb == "POST" {
      var route := ParseLifecyclePath(path).value;
      DecodingStatuses(body);
      match route.action
      case Create =>
      case Delete => if DecodeDelete(body).Success? { RefusedCommandStatus(Delete, route.name, OtherPayload); }
      case action =>
        var force := DecodeStrict(body.size, body.force, false);
        if force.Success? { RefusedCommandStatus(action, route.name, StatePayload(force.value)); }
    }
  }

  lemma RouteNotFound(verb: Text, path: Text, body: RequestBody, log: seq<Event>, r: Result)
    requires Runs(RouteProgram(verb, ParseLifecyclePath(path), body), log, r)
    ensures IsNotFound(r) <==> ParseLifecyclePath(path).None? || MutationNotFound(log)
  {
    var p := RouteProgram(verb, ParseLifecyclePath(path), body);
    if p.Return? {
      RefusalNotFound(verb, path, body);
      Unfold(log);
    } else if ParseLifecyclePath(path).value.action == Create {
      CreateNotFound(DecodeCreate(body).value, log, r);
    } else {
      var refused, payload := RouteCommand(verb, path, body);
      var action, name := ParseLifecyclePath(path).value.action, ParseLifecyclePath(path).value.name;
      CommandNotFound(action, name, payload, BuildIncusRequest(action, name, payload).value, log, r);
    }
  }

  /** Handle reports 404 exactly when the path names no command or Incus answered 404 to the
      mutating call: a missing profile, operation or created instance is reported as another error. */
  lemma NotFoundMeaning(verb: Text, path: Text, body: RequestBody, log: seq<Event>, r: Result)
    requires Runs(HandleProgram(verb, path, body), log, r)
    ensures IsNotFound(r) <==>
              Uncancelled(log[..1]) && (ParseLifecyclePath(path).None? || MutationNotFound(log))
  {
    var q := Step(HandleProgram(verb, path, body), log);
    Unfold(log);
    assert log[..1][0] == log[0];
    Unfold(log[..1]);
    Unfold([]);
    if log[0].cancelled {
      assert q == Return(Failed(CANCELLED));
    } else {
      assert q == RouteProgram(verb, ParseLifecyclePath(path), body);
      RouteNotFound(verb, path, body, log[1..], r);
    }
  }
}
