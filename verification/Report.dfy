/** The state report and the readiness detector: programs that only read from Incus. */
module StateReport {
  import opened Strings
  import opened Incus
  import opened RootDiskSelection
  import opened LifecycleProtocol
  import opened Programs

  // ---------------------------------------------------------------- readiness

  datatype Kvm = KvmError | KvmMissing | KvmPresent

  /** Readiness judges the profile answer. */
  ghost predicate ReadyProfile(answer: Answer) {
    && answer.Some? && Is2xx(answer.value.status)
    && (var root := RootDiskFromProfile(answer.value);
        root.Success? && Field(root.value.device, "pool") != "")
  }

  /** Given the same profile answer, readiness reports available exactly when create would get past
      its profile stage. */
  lemma ReadinessAgreesWithCreate(answer: Answer)
    ensures ReadyProfile(answer) <==> ProfileStage(answer).Success?
  {
    if ProfileStage(answer).Success? {
      SelectMeaning(answer.value.body.devices.value, ProfileStage(answer).value);
    }
  }

  // ---------------------------------------------------------------- counting operations

  /** The sum of the list lengths under `keys`. */
  ghost function SumOver(lists: map<Text, nat>, keys: set<Text>): nat
    requires keys <= lists.Keys
  {
    if keys == {} then 0
    else
      var k :| k in keys;
      lists[k] + SumOver(lists, keys - {k})
  }

  /** The sum does not depend on which key is taken first. */
  lemma {:induction false} SumTakingAny(lists: map<Text, nat>, keys: set<Text>, k: Text)
    requires keys <= lists.Keys && k in keys
    ensures SumOver(lists, keys) == lists[k] + SumOver(lists, keys - {k})
    decreases keys
  {
    var first :| first in keys && SumOver(lists, keys) == lists[first] + SumOver(lists, keys - {first});
    if first != k {
      SumTakingAny(lists, keys - {first}, k);
      SumTakingAny(lists, keys - {k}, first);
      assert keys - {first} - {k} == keys - {k} - {first};
    }
  }

  /** countOperations: the total over a map walked in an arbitrary order. */
  method CountOperations(lists: map<Text, nat>) returns (total: nat)
    ensures total == SumOver(lists, lists.Keys)
  {
    total := 0;
    var rest := lists.Keys;
    while rest != {}
      invariant rest <= lists.Keys
      invariant total + SumOver(lists, rest) == SumOver(lists, lists.Keys)
      decreases rest
    {
      var k :| k in rest;
      SumTakingAny(lists, rest, k);
      total, rest := total + lists[k], rest - {k};
    }
  }

  // ---------------------------------------------------------------- the report

  /** What the report depends on besides Incus. */
  datatype ReportConfig = ReportConfig(
    hostnameOk: bool, wireGuardWired: bool, wgBinary: bool, vmLifecycleWired: bool, kvm: Kvm, incusWired: bool)

  datatype ReportResult =
    | HostnameFailed
    | Report(wireGuard: bool, vmLifecycle: bool, available: bool, statusCode: int,
             instancesTotal: nat, imagesTotal: nat, operationsTotal: nat)

  const ROOT_REQUEST := Request("agent-state-incus-root", "GET", "/1.0", NoPayload)
  const OPERATIONS_REQUEST := Request("agent-state-operations", "GET", "/1.0/operations", NoPayload)

  function ListRequest(path: Text): Request {
    Request("agent-state-count", "GET", path, NoPayload)
  }

  function CountList(answer: Answer): nat {
    if answer.None? || !Is2xx(answer.value.status) || answer.value.body.listLength.None? then 0
    else answer.value.body.listLength.value
  }

  ghost function OperationsTotal(answer: Answer): nat {
    if answer.None? || !Is2xx(answer.value.status) || answer.value.body.operations.None? then 0
    else SumOver(answer.value.body.operations.value, answer.value.body.operations.value.Keys)
  }

  ghost function ReportProgram(cfg: ReportConfig): Program<ReportResult> {
    if !cfg.hostnameOk then Return(HostnameFailed)
    else if !cfg.wireGuardWired then VmStage(cfg, false)
    else Poll(cancelled => VmStage(cfg, !cancelled && cfg.wgBinary))
  }

  ghost function VmStage(cfg: ReportConfig, wg: bool): Program<ReportResult> {
    if !cfg.vmLifecycleWired then RootStage(cfg, wg, false)
    else Poll(cancelled =>
      if cancelled || !cfg.kvm.KvmPresent? then RootStage(cfg, wg, false)
      else Call(ProfileCall, PROFILE_REQUEST, answer => RootStage(cfg, wg, ReadyProfile(answer))))
  }

  ghost function RootStage(cfg: ReportConfig, wg: bool, vm: bool): Program<ReportResult> {
    if !cfg.incusWired then Return(Report(wg, vm, false, 0, 0, 0, 0))
    else Call(RootCall, ROOT_REQUEST, (answer: Answer) =>
      if answer.None? then Return(Report(wg, vm, false, UNAVAILABLE, 0, 0, 0))
      else if !Is2xx(answer.value.status) then Return(Report(wg, vm, false, answer.value.status, 0, 0, 0))
      else InstancesStage(wg, vm, answer.value.status))
  }

  ghost function InstancesStage(wg: bool, vm: bool, status: int): Program<ReportResult> {
    Call(ListCall, ListRequest("/1.0/instances"), answer => ImagesStage(wg, vm, status, CountList(answer)))
  }

  ghost function ImagesStage(wg: bool, vm: bool, status: int, instances: nat): Program<ReportResult> {
    Call(ListCall, ListRequest("/1.0/images"), answer => OperationsStage(wg, vm, status, instances, CountList(answer)))
  }

  ghost function OperationsStage(wg: bool, vm: bool, status: int, instances: nat, images: nat): Program<ReportResult> {
    Call(OperationsCall, OPERATIONS_REQUEST, answer =>
      Return(Report(wg, vm, true, status, instances, images, OperationsTotal(answer))))
  }

  // ---------------------------------------------------------------- what the report calls

  /** The reads the report makes. */
  predicate IsReportRead(kind: CallKind, req: Request) {
    match kind
    case ProfileCall => req == Request([], "GET", "/1.0/profiles/default", NoPayload)
    case RootCall => req == Request("agent-state-incus-root", "GET", "/1.0", NoPayload)
    case ListCall =>
      || req == Request("agent-state-count", "GET", "/1.0/instances", NoPayload)
      || req == Request("agent-state-count", "GET", "/1.0/images", NoPayload)
    case OperationsCall => req == Request("agent-state-operations", "GET", "/1.0/operations", NoPayload)
    case _ => false
  }

  ghost predicate ReadsOnly(log: seq<Event>) {
    forall i | 0 <= i < |log| && log[i].Called? :: IsReportRead(log[i].kind, log[i].req)
  }

  lemma ReadsOnlyStep(log: seq<Event>)
    requires log != [] && (log[0].Called? ==> IsReportRead(log[0].kind, log[0].req)) && ReadsOnly(log[1..])
    ensures ReadsOnly(log)
  {
    forall i | 0 <= i < |log| && log[i].Called? ensures IsReportRead(log[i].kind, log[i].req) {
      if i > 0 { assert log[i] == log[1..][i - 1]; }
    }
  }

  lemma ListsReadOnly(wg: bool, vm: bool, status: int, log: seq<Event>)
    requires After(InstancesStage(wg, vm, status), log).Some?
    ensures ReadsOnly(log)
  {
    if log != [] {
      var p1 := Step(InstancesStage(wg, vm, status), log);
      var log1 := log[1..];
      if log1 != [] {
        var p2 := Step(p1, log1);
        var log2 := log1[1..];
        if log2 != [] {
          var p3 := Step(p2, log2);
          assert log2[1..] == [];
          ReadsOnlyStep(log2);
        }
        ReadsOnlyStep(log1);
      }
      ReadsOnlyStep(log);
    }
  }

  lemma RootReadsOnly(cfg: ReportConfig, wg: bool, vm: bool, log: seq<Event>)
    requires After(RootStage(cfg, wg, vm), log).Some?
    ensures ReadsOnly(log)
  {
    if log != [] {
      var q := Step(RootStage(cfg, wg, vm), log);
      if log[0].answer.Some? && Is2xx(log[0].answer.value.status) {
        assert q == InstancesStage(wg, vm, log[0].answer.value.status);
        ListsReadOnly(wg, vm, log[0].answer.value.status, log[1..]);
      } else {
        assert q.Return?;
      }
      ReadsOnlyStep(log);
    }
  }

  lemma VmReadsOnly(cfg: ReportConfig, wg: bool, log: seq<Event>)
    requires After(VmStage(cfg, wg), log).Some?
    ensures ReadsOnly(log)
  {
    if !cfg.vmLifecycleWired {
      RootReadsOnly(cfg, wg, false, log);
    } else if log != [] {
      var q := Step(VmStage(cfg, wg), log);
      var rest := log[1..];
      if log[0].cancelled || !cfg.kvm.KvmPresent? {
        RootReadsOnly(cfg, wg, false, rest);
      } else if rest != [] {
        var next := Step(q, rest);
        assert next == RootStage(cfg, wg, ReadyProfile(rest[0].answer));
        RootReadsOnly(cfg, wg, ReadyProfile(rest[0].answer), rest[1..]);
        ReadsOnlyStep(rest);
      }
      ReadsOnlyStep(log);
    }
  }

  /** Whatever Incus answers, building a report only ever reads five fixed paths. */
  lemma ReportReadsOnly(cfg: ReportConfig, log: seq<Event>)
    requires After(ReportProgram(cfg), log).Some?
    ensures ReadsOnly(log)
  {
    if cfg.hostnameOk {
      if !cfg.wireGuardWired {
        VmReadsOnly(cfg, false, log);
      } else if log != [] {
        var q := Step(ReportProgram(cfg), log);
        VmReadsOnly(cfg, !log[0].cancelled && cfg.wgBinary, log[1..]);
        ReadsOnlyStep(log);
      }
    }
  }

  // ---------------------------------------------------------------- what the report says

  /** The length of the list answered; 0 when the answer is missing, failing or not a list. */
  predicate IsListTotal(answer: Answer, total: nat) {
    if answer.Some? && 200 <= answer.value.status < 300 && answer.value.body.listLength.Some? then
      total == answer.value.body.listLength.value
    else total == 0
  }

  /** The lengths of the lists answered, added up; 0 when there are none to read. */
  ghost predicate IsOperationsTotal(answer: Answer, total: nat) {
    if answer.Some? && 200 <= answer.value.status < 300 && answer.value.body.operations.Some? then
      total == SumOver(answer.value.body.operations.value, answer.value.body.operations.value.Keys)
    else total == 0
  }

  lemma TotalsMeaning(answer: Answer)
    ensures IsListTotal(answer, CountList(answer)) && IsOperationsTotal(answer, OperationsTotal(answer))
  {
  }

  /** The report counts exactly what the answers of this run list. */
  ghost predicate Describes(log: seq<Event>, r: ReportResult) {
    && r.Report?
    && |Answers(log, RootCall)| <= 1
    && (Answers(log, RootCall) == [] ==> !r.available && r.statusCode == 0)
    && (Answers(log, RootCall) != [] ==>
          var root := Answers(log, RootCall)[0];
          && r.available == (root.Some? && 200 <= root.value.status < 300)
          && r.statusCode == (if root.None? then 503 else root.value.status))
    && (if r.available then
          && |RequestsOf(log, ListCall)| == |Answers(log, ListCall)| == 2 && |Answers(log, OperationsCall)| == 1
          && RequestsOf(log, ListCall)[0].path == "/1.0/instances" && RequestsOf(log, ListCall)[1].path == "/1.0/images"
          && IsListTotal(Answers(log, ListCall)[0], r.instancesTotal)
          && IsListTotal(Answers(log, ListCall)[1], r.imagesTotal)
          && IsOperationsTotal(Answers(log, OperationsCall)[0], r.operationsTotal)
        else
          r.instancesTotal == r.imagesTotal == r.operationsTotal == 0)
  }

  lemma ListsDescribed(wg: bool, vm: bool, status: int, log: seq<Event>, r: ReportResult)
    requires Runs(InstancesStage(wg, vm, status), log, r)
    ensures Answers(log, RootCall) == [] && Answers(log, ProfileCall) == []
    ensures RequestsOf(log, ListCall) == [ListRequest("/1.0/instances"), ListRequest("/1.0/images")]
    ensures |Answers(log, ListCall)| == 2 && |Answers(log, OperationsCall)| == 1
    ensures r == Report(wg, vm, true, status, CountList(Answers(log, ListCall)[0]),
                        CountList(Answers(log, ListCall)[1]), OperationsTotal(Answers(log, OperationsCall)[0]))
  {
    var p1 := Step(InstancesStage(wg, vm, status), log);
    var log1 := log[1..];
    var p2 := Step(p1, log1);
    var log2 := log1[1..];
    var p3 := Step(p2, log2);
    assert log2[1..] == [];
    Unfold(log);
    Unfold(log1);
    Unfold(log2);
    Unfold(log2[1..]);
  }

  lemma AfterRoot(log: seq<Event>)
    requires log != [] && log[0].Called? && log[0].kind == RootCall
    ensures Answers(log, RootCall) == [log[0].answer] + Answers(log[1..], RootCall)
    ensures Answers(log, ProfileCall) == Answers(log[1..], ProfileCall)
    ensures Answers(log, ListCall) == Answers(log[1..], ListCall)
    ensures RequestsOf(log, ListCall) == RequestsOf(log[1..], ListCall)
    ensures Answers(log, OperationsCall) == Answers(log[1..], OperationsCall)
  {
    Unfold(log);
  }

  lemma CountsDescribed(wg: bool, vm: bool, status: int, log: seq<Event>, r: ReportResult)
    requires log != [] && log[0].Called? && log[0].kind == RootCall
    requires log[0].answer.Some? && log[0].answer.value.status == status && 200 <= status < 300
    requires Runs(InstancesStage(wg, vm, status), log[1..], r)
    ensures Describes(log, r) && r.vmLifecycle == vm && r.wireGuard == wg
    ensures Answers(log, ProfileCall) == [] && Answers(log, RootCall) != []
  {
    AfterRoot(log);
    ListsDescribed(wg, vm, status, log[1..], r);
    TotalsMeaning(Answers(log[1..], ListCall)[0]);
    TotalsMeaning(Answers(log[1..], ListCall)[1]);
    TotalsMeaning(Answers(log[1..], OperationsCall)[0]);
  }

  lemma RootDescribed(cfg: ReportConfig, wg: bool, vm: bool, log: seq<Event>, r: ReportResult)
    requires Runs(RootStage(cfg, wg, vm), log, r)
    ensures Describes(log, r) && r.vmLifecycle == vm && r.wireGuard == wg && Answers(log, ProfileCall) == []
    ensures Answers(log, RootCall) == [] <==> !cfg.incusWired
  {
    Unfold(log);
    if cfg.incusWired {
      var q := Step(RootStage(cfg, wg, vm), log);
      var root := log[0].answer;
      if root.Some? && Is2xx(root.value.status) {
        assert q == InstancesStage(wg, vm, root.value.status);
        CountsDescribed(wg, vm, root.value.status, log, r);
      } else {
        assert q.Return?;
        Unfold(log[1..]);
      }
    }
  }

  /** A poll or a profile read before the root changes nothing that is counted. */
  lemma DescribesAfterFirst(log: seq<Event>, r: ReportResult)
    requires log != [] && (log[0].Called? ==> log[0].kind == ProfileCall)
    ensures Answers(log, RootCall) == Answers(log[1..], RootCall)
    ensures Describes(log[1..], r) ==> Describes(log, r)
    ensures Answers(log, ProfileCall) ==
            (if log[0].Called? then [log[0].answer] else []) + Answers(log[1..], ProfileCall)
  {
    Unfold(log);
  }

  /** The profile is read exactly when the detector is wired, its context is live and KVM present. */
  ghost predicate ProfileIsRead(cfg: ReportConfig, log: seq<Event>) {
    cfg.vmLifecycleWired && cfg.kvm.KvmPresent? && log != [] && log[0] == Polled(false)
  }

  lemma VmDescribed(cfg: ReportConfig, wg: bool, log: seq<Event>, r: ReportResult)
    requires Runs(VmStage(cfg, wg), log, r)
    ensures Describes(log, r) && r.wireGuard == wg
    ensures |Answers(log, ProfileCall)| == if ProfileIsRead(cfg, log) then 1 else 0
    ensures r.vmLifecycle <==> ProfileIsRead(cfg, log) && ProfileStage(Answers(log, ProfileCall)[0]).Success?
    ensures Answers(log, RootCall) == [] <==> !cfg.incusWired
  {
    if !cfg.vmLifecycleWired {
      RootDescribed(cfg, wg, false, log, r);
    } else {
      var q := Step(VmStage(cfg, wg), log);
      var rest := log[1..];
      DescribesAfterFirst(log, r);
      if log[0].cancelled || !cfg.kvm.KvmPresent? {
        RootDescribed(cfg, wg, false, rest, r);
      } else {
        DescribesAfterFirst(rest, r);
        var next := Step(q, rest);
        assert next == RootStage(cfg, wg, ReadyProfile(rest[0].answer));
        ReadinessAgreesWithCreate(rest[0].answer);
        RootDescribed(cfg, wg, ReadyProfile(rest[0].answer), rest[1..], r);
      }
    }
  }

  /** A report is what the answers of its run say: each total is the length of the list it names,
      WireGuard is claimed exactly when its binary was looked for and found, and the lifecycle
      capability exactly when the profile was read in this run and would let a create through. */
  lemma ReportDescribesAnswers(cfg: ReportConfig, log: seq<Event>, r: ReportResult)
    requires Runs(ReportProgram(cfg), log, r)
    ensures r.HostnameFailed? <==> !cfg.hostnameOk
    ensures cfg.hostnameOk ==>
              var later := if cfg.wireGuardWired then log[1..] else log;
              && Describes(log, r)
              && (r.wireGuard <==> cfg.wireGuardWired && cfg.wgBinary && log[0] == Polled(false))
              && |Answers(log, ProfileCall)| == (if ProfileIsRead(cfg, later) then 1 else 0)
              && (r.vmLifecycle <==>
                  ProfileIsRead(cfg, later) && ProfileStage(Answers(log, ProfileCall)[0]).Success?)
              && (Answers(log, RootCall) == [] <==> !cfg.incusWired)
  {
    if cfg.hostnameOk {
      if !cfg.wireGuardWired {
        VmDescribed(cfg, false, log, r);
      } else {
        Unfold(log);
        var q := Step(ReportProgram(cfg), log);
        VmDescribed(cfg, !log[0].cancelled && cfg.wgBinary, log[1..], r);
      }
    }
  }
}
