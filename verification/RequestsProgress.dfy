/** No request gets stuck: whatever Incus answers, its goroutine makes few steps, can always make the
    next one, and ends with its reply. */
module RequestsProgress {
  import opened Strings
  import opened Incus
  import Lifecycle
  import opened RootDiskSelection
  import opened Programs
  import opened LifecycleProtocol
  import opened LifecycleTheorems
  import opened StateReport
  import opened Handlers
  import opened Requests
  import opened RequestsTheorems
  import opened ServerTheorems

  // ---------------------------------------------------------------- programs end

  /** Every run of the program ends after at most `k` events. */
  ghost predicate EndsWithin<R>(p: Program<R>, k: nat)
    decreases k
  {
    || p.Return?
    || (&& k > 0
        && (p.Poll? ==> forall cancelled :: EndsWithin(p.onPoll(cancelled), k - 1))
        && (p.Call? ==> forall answer :: EndsWithin(p.onAnswer(answer), k - 1)))
  }

  lemma {:induction false} EndsLater<R>(p: Program<R>, j: nat, k: nat)
    requires EndsWithin(p, j) && j <= k
    ensures EndsWithin(p, k)
    decreases j
  {
    if p.Poll? {
      forall cancelled ensures EndsWithin(p.onPoll(cancelled), k - 1) {
        EndsLater(p.onPoll(cancelled), j - 1, k - 1);
      }
    } else if p.Call? {
      forall answer ensures EndsWithin(p.onAnswer(answer), k - 1) {
        EndsLater(p.onAnswer(answer), j - 1, k - 1);
      }
    }
  }

  lemma {:induction false} EventsAreBounded<R>(p: Program<R>, k: nat, log: seq<Event>)
    requires EndsWithin(p, k) && After(p, log).Some?
    ensures |log| <= k && EndsWithin(After(p, log).value, k - |log|)
    decreases |log|
  {
    if log != [] {
      var q := Programs.Step(p, log);
      EventsAreBounded(q, k - 1, log[1..]);
    }
  }

  lemma VerifyEnds(action: Lifecycle.Action, name: Text, id: Text)
    ensures EndsWithin(VerifyProgram(action, name, id), 2)
  {
    var p := VerifyProgram(action, name, id);
    if p.Poll? {
      forall cancelled ensures EndsWithin(p.onPoll(cancelled), 1) {
        var q := p.onPoll(cancelled);
        if q.Call? {
          forall answer ensures EndsWithin(q.onAnswer(answer), 0) {
          }
        }
      }
    }
  }

  lemma SettleEnds(action: Lifecycle.Action, name: Text, id: Text)
    ensures EndsWithin(SettleProgram(action, name, id), 4)
  {
    var p := SettleProgram(action, name, id);
    VerifyEnds(action, name, id);
    EndsLater(VerifyProgram(action, name, id), 2, 4);
    if id != "" {
      forall cancelled ensures EndsWithin(p.onPoll(cancelled), 3) {
        var q := p.onPoll(cancelled);
        if q.Call? {
          forall answer ensures EndsWithin(q.onAnswer(answer), 2) {
          }
        }
      }
    }
  }

  lemma CommandEnds(action: Lifecycle.Action, name: Text, payload: Lifecycle.ActionPayload)
    ensures EndsWithin(CommandProgram(action, name, payload), 5)
  {
    var p := CommandProgram(action, name, payload);
    if p.Call? {
      forall answer ensures EndsWithin(p.onAnswer(answer), 4) {
        match ReadMutation(answer)
        case Failure(e) => assert p.onAnswer(answer) == Return(Failed(e));
        case Success(id) =>
          assert p.onAnswer(answer) == SettleProgram(action, name, id);
          SettleEnds(action, name, id);
      }
    }
  }

  lemma CreateEnds(req: Lifecycle.CreateRequest)
    ensures EndsWithin(CreateProgram(req), 7)
  {
    var p := CreateProgram(req);
    forall cancelled ensures EndsWithin(p.onPoll(cancelled), 6) {
      var q := p.onPoll(cancelled);
      if q.Call? {
        forall answer ensures EndsWithin(q.onAnswer(answer), 5) {
          match ProfileStage(answer)
          case Failure(e) => assert q.onAnswer(answer) == Return(Failed(e));
          case Success(disk) =>
            assert q.onAnswer(answer) == CommandProgram(Lifecycle.Create, req.name, Lifecycle.CreatePayload(req, disk));
            CommandEnds(Lifecycle.Create, req.name, Lifecycle.CreatePayload(req, disk));
        }
      }
    }
  }

  lemma RouteEnds(verb: Text, path: Text, body: Lifecycle.RequestBody)
    ensures EndsWithin(RouteProgram(verb, Lifecycle.ParseLifecyclePath(path), body), 7)
  {
    var p := RouteProgram(verb, Lifecycle.ParseLifecyclePath(path), body);
    if !p.Return? {
      var action, name := Lifecycle.ParseLifecyclePath(path).value.action,
          Lifecycle.ParseLifecyclePath(path).value.name;
      if action == Lifecycle.Create {
        CreateEnds(Lifecycle.DecodeCreate(body).value);
      } else {
        var refused, payload := RouteCommand(verb, path, body);
        CommandEnds(action, name, payload);
        EndsLater(CommandProgram(action, name, payload), 5, 7);
      }
    }
  }

  lemma HandleEnds(verb: Text, path: Text, body: Lifecycle.RequestBody)
    ensures EndsWithin(HandleProgram(verb, path, body), 8)
  {
    var p := HandleProgram(verb, path, body);
    forall cancelled ensures EndsWithin(p.onPoll(cancelled), 7) {
      if cancelled {
        assert p.onPoll(cancelled) == Return(Failed(CANCELLED));
      } else {
        assert p.onPoll(cancelled) == RouteProgram(verb, Lifecycle.ParseLifecyclePath(path), body);
        RouteEnds(verb, path, body);
      }
    }
  }

  lemma CountsEnd(wg: bool, vm: bool, status: int)
    ensures EndsWithin(InstancesStage(wg, vm, status), 3)
  {
    forall answer ensures EndsWithin(InstancesStage(wg, vm, status).onAnswer(answer), 2) {
      var images := ImagesStage(wg, vm, status, CountList(answer));
      assert InstancesStage(wg, vm, status).onAnswer(answer) == images;
      forall answer' ensures EndsWithin(images.onAnswer(answer'), 1) {
        var operations := OperationsStage(wg, vm, status, CountList(answer), CountList(answer'));
        assert images.onAnswer(answer') == operations;
        forall answer'' ensures EndsWithin(operations.onAnswer(answer''), 0) {
        }
      }
    }
  }

  lemma RootEnds(cfg: ReportConfig, wg: bool, vm: bool)
    ensures EndsWithin(RootStage(cfg, wg, vm), 4)
  {
    var p := RootStage(cfg, wg, vm);
    if p.Call? {
      forall answer ensures EndsWithin(p.onAnswer(answer), 3) {
        if answer.Some? && Is2xx(answer.value.status) {
          assert p.onAnswer(answer) == InstancesStage(wg, vm, answer.value.status);
          CountsEnd(wg, vm, answer.value.status);
        }
      }
    }
  }

  lemma VmEnds(cfg: ReportConfig, wg: bool)
    ensures EndsWithin(VmStage(cfg, wg), 6)
  {
    var p := VmStage(cfg, wg);
    RootEnds(cfg, wg, false);
    EndsLater(RootStage(cfg, wg, false), 4, 5);
    EndsLater(RootStage(cfg, wg, false), 4, 6);
    if cfg.vmLifecycleWired {
      forall cancelled ensures EndsWithin(p.onPoll(cancelled), 5) {
        var q := p.onPoll(cancelled);
        if cancelled || !cfg.kvm.KvmPresent? {
          assert q == RootStage(cfg, wg, false);
        } else {
          forall answer ensures EndsWithin(q.onAnswer(answer), 4) {
            assert q.onAnswer(answer) == RootStage(cfg, wg, ReadyProfile(answer));
            RootEnds(cfg, wg, ReadyProfile(answer));
          }
        }
      }
    }
  }

  lemma ReportEnds(cfg: ReportConfig)
    ensures EndsWithin(ReportProgram(cfg), 7)
  {
    var p := ReportProgram(cfg);
    VmEnds(cfg, false);
    EndsLater(VmStage(cfg, false), 6, 7);
    if p.Poll? && cfg.wireGuardWired {
      forall cancelled ensures EndsWithin(p.onPoll(cancelled), 6) {
        assert p.onPoll(cancelled) == VmStage(cfg, !cancelled && cfg.wgBinary);
        VmEnds(cfg, !cancelled && cfg.wgBinary);
      }
    }
  }

  // ---------------------------------------------------------------- goroutines end

  const MAX_EVENTS := 8

  ghost predicate TaskEndsWithin(task: Task, k: nat) {
    match task
    case Lifecycling(p) => EndsWithin(p, k)
    case Reporting(p) => EndsWithin(p, k)
    case Forwarding(p) => EndsWithin(p, k)
    case Replying(_) => true
  }

  lemma ForwardEnds(req: AgentRequest)
    ensures EndsWithin(ForwardProgram(req), 1)
  {
    forall answer ensures EndsWithin(ForwardProgram(req).onAnswer(answer), 0) {
    }
  }

  lemma StartedEnds(cfg: Config, req: AgentRequest)
    ensures TaskEndsWithin(StartTask(cfg, req), MAX_EVENTS)
  {
    StartedPrograms(cfg, req);
    match StartTask(cfg, req)
    case Lifecycling(p) => HandleEnds(req.verb, req.path, req.body);
    case Reporting(p) =>
      ReportEnds(cfg.reporter.value);
      EndsLater(ReportProgram(cfg.reporter.value), 7, MAX_EVENTS);
    case Forwarding(p) =>
      ForwardEnds(req);
      EndsLater(ForwardProgram(req), 1, MAX_EVENTS);
    case Replying(_) =>
  }

  lemma TaskEventsAreBounded(task: Task, k: nat, log: seq<Event>)
    requires TaskEndsWithin(task, k) && TaskAfter(task, log).Some?
    ensures |log| <= k && TaskEndsWithin(TaskAfter(task, log).value, k - |log|)
  {
    match task
    case Lifecycling(p) => EventsAreBounded(p, k, log);
    case Reporting(p) => EventsAreBounded(p, k, log);
    case Forwarding(p) => EventsAreBounded(p, k, log);
    case Replying(_) =>
  }

  lemma EveryRequestIsTraced(h: Machine, s: State, n: nat)
    requires Reachable(h, s)
    ensures Traced(h, s, n)
  {
    var steps :| Reaches(h, INITIAL, steps, s);
    ReachedIsSound(h, steps, s);
  }

  lemma TracedIsShort(cfg: Config, s: State, n: nat)
    requires Traced(MachineOf(cfg), s, n)
    ensures |LocalLog(s.trace, n)| <= MAX_EVENTS
    ensures n in s.tasks ==> n < |s.received| && TaskEndsWithin(s.tasks[n], MAX_EVENTS - |LocalLog(s.trace, n)|)
  {
    if n in s.tasks || LocalLog(s.trace, n) != [] {
      var req := s.received[n].message.req;
      StartedEnds(cfg, req);
      TaskEventsAreBounded(StartTask(cfg, req), MAX_EVENTS, LocalLog(s.trace, n));
    }
  }

  /** In every interleaving, whatever Incus answers, no request makes more than eight polls and calls
      in all; what is left of one in flight ends within the rest. */
  lemma RequestsAreShort(cfg: Config, s: State, n: nat)
    requires Reachable(MachineOf(cfg), s)
    ensures |LocalLog(s.trace, n)| <= MAX_EVENTS
    ensures n in s.tasks ==> n < |s.received| && TaskEndsWithin(s.tasks[n], MAX_EVENTS - |LocalLog(s.trace, n)|)
  {
    EveryRequestIsTraced(MachineOf(cfg), s, n);
    TracedIsShort(cfg, s, n);
  }

  /** The goroutine is at this call, and goes on from it whatever is answered. */
  ghost predicate CanCall(s: State, n: nat, kind: CallKind, req: Request) {
    forall answer :: Enabled(s, DoCall(n, kind, req, answer))
  }

  /** A request in flight is never stuck: its goroutine can poll, or make its call whatever is
      answered, or write its reply. */
  lemma NeverStuck(s: State, n: nat)
    requires n in s.tasks && n < |s.received|
    ensures || Enabled(s, DoPoll(n))
            || (exists kind, req :: CanCall(s, n, kind, req))
            || (forall marshals :: Enabled(s, Finish(n, marshals)))
  {
    match s.tasks[n]
    case Lifecycling(p) => assert p.Call? ==> CanCall(s, n, p.kind, p.req);
    case Reporting(p) => assert p.Call? ==> CanCall(s, n, p.kind, p.req);
    case Forwarding(p) => assert p.Call? ==> CanCall(s, n, p.kind, p.req);
    case Replying(_) =>
  }

  /** A request may be cancelled exactly while it is in flight. */
  lemma CancellableInFlight(s: State, n: nat)
    ensures Enabled(s, Cancel(n)) <==> n in s.tasks
  {
  }

  // ---------------------------------------------------------------- every message can be answered

  ghost predicate CanBeAnswered(h: Machine, s: State, n: nat) {
    exists steps: seq<Requests.Step>, t :: Reaches(h, s, steps, t) && HasReply(t, n)
  }

  lemma {:induction false} StepBefore(h: Machine, s: State, step: Requests.Step, steps: seq<Requests.Step>, t: State)
    requires Enabled(s, step) && Reaches(h, Next(h, s, step), steps, t)
    ensures Reaches(h, s, [step] + steps, t)
    decreases |steps|
  {
    var all := [step] + steps;
    if steps == [] {
      assert all[..|all| - 1] == [] && all[|all| - 1] == step;
      assert Reaches(h, s, all[..|all| - 1], s) && Enabled(s, all[|all| - 1]) && t == Next(h, s, all[|all| - 1]);
    } else {
      var last := steps[|steps| - 1];
      var mid :| && Reaches(h, Next(h, s, step), steps[..|steps| - 1], mid) && Enabled(mid, last)
                 && t == Next(h, mid, last);
      StepBefore(h, s, step, steps[..|steps| - 1], mid);
      assert all[..|all| - 1] == [step] + steps[..|steps| - 1] && all[|all| - 1] == last;
    }
  }

  lemma StepTowardsAnswer(h: Machine, s: State, step: Requests.Step, n: nat)
    requires Enabled(s, step) && CanBeAnswered(h, Next(h, s, step), n)
    ensures CanBeAnswered(h, s, n)
  {
    var steps: seq<Requests.Step>, t :| Reaches(h, Next(h, s, step), steps, t) && HasReply(t, n);
    StepBefore(h, s, step, steps, t);
  }

  lemma AnsweredAlready(h: Machine, s: State, n: nat)
    requires HasReply(s, n)
    ensures CanBeAnswered(h, s, n)
  {
    assert Reaches(h, s, [], s);
  }

  /** Writing the reply answers the message. */
  lemma AnsweredBy(h: Machine, s: State, step: Requests.Step, n: nat)
    requires Enabled(s, step)
    requires step == Finish(n, true) || (step.Reject? && s.readers[step.client].n == n)
    ensures CanBeAnswered(h, s, n)
  {
    var t := Next(h, s, step);
    assert t.attempts[|s.attempts|].n == n;
    AnsweredAlready(h, t, n);
    StepTowardsAnswer(h, s, step, n);
  }

  lemma TaskAfterOne(task: Task, k: nat, e: Event)
    requires TaskEndsWithin(task, k) && TaskAfter(task, [e]).Some?
    ensures k > 0 && TaskEndsWithin(TaskAfter(task, [e]).value, k - 1)
  {
    TaskEventsAreBounded(task, k, [e]);
  }

  lemma {:induction false} FlightEnds(h: Machine, s: State, n: nat, k: nat)
    requires n in s.tasks && n < |s.received| && TaskEndsWithin(s.tasks[n], k)
    ensures CanBeAnswered(h, s, n)
    decreases k
  {
    NeverStuck(s, n);
    if Enabled(s, DoPoll(n)) {
      var e := Polled(n in s.cancelled);
      OneEvent(s.tasks[n], e);
      TaskAfterOne(s.tasks[n], k, e);
      FlightEnds(h, Next(h, s, DoPoll(n)), n, k - 1);
      StepTowardsAnswer(h, s, DoPoll(n), n);
    } else if kind, req :| CanCall(s, n, kind, req) {
      assert Enabled(s, DoCall(n, kind, req, None));
      var e := Called(kind, req, None);
      OneEvent(s.tasks[n], e);
      TaskAfterOne(s.tasks[n], k, e);
      FlightEnds(h, Next(h, s, DoCall(n, kind, req, None)), n, k - 1);
      StepTowardsAnswer(h, s, DoCall(n, kind, req, None), n);
    } else {
      assert Enabled(s, Finish(n, true));
      AnsweredBy(h, s, Finish(n, true), n);
    }
  }

  /** From every reachable state, every message read can still be answered, if it has not been. */
  lemma EveryMessageCanBeAnswered(cfg: Config, s: State, n: nat)
    requires Reachable(MachineOf(cfg), s) && n < |s.received|
    ensures CanBeAnswered(MachineOf(cfg), s, n)
  {
    var h := MachineOf(cfg);
    RepliesAreConserved(h, s);
    if n in s.tasks {
      RequestsAreShort(cfg, s, n);
      FlightEnds(h, s, n, MAX_EVENTS - |LocalLog(s.trace, n)|);
    } else if BeingRejected(s, n) {
      AnsweredBy(h, s, Reject(s.received[n].client), n);
    } else {
      AnsweredAlready(h, s, n);
    }
  }
}
