/** The state reporter as the agent runs it: calls on a stateful backend, one after the other, each
    method proved to perform a run of the report program. */
module StateReporter {
  import opened Incus
  import opened RootDiskSelection
  import opened LifecycleProtocol
  import opened Programs
  import opened StateReport
  import opened Environments

  class Reporter {
    const cfg: ReportConfig
    const incus: Environment

    constructor (cfg: ReportConfig, incus: Environment)
      ensures this.cfg == cfg && this.incus == incus
    {
      this.cfg, this.incus := cfg, incus;
    }

    method Report() returns (report: ReportResult)
      modifies incus
      ensures Performed(ReportProgram(cfg), old(incus.log), incus.log, report)
    {
      if !cfg.hostnameOk {
        return HostnameFailed;
      }
      if !cfg.wireGuardWired {
        report := ReportVm(false);
        return;
      }
      ghost var before := incus.log;
      var cancelled := incus.Cancelled();
      var available := !cancelled && cfg.wgBinary;
      report := ReportVm(available);
      PerformedStep(ReportProgram(cfg), VmStage(cfg, available), Polled(cancelled), before, incus.log, report);
    }

    /** VMLifecycleAvailable, then the rest of the report. */
    method ReportVm(wireGuard: bool) returns (report: ReportResult)
      modifies incus
      ensures Performed(VmStage(cfg, wireGuard), old(incus.log), incus.log, report)
    {
      if !cfg.vmLifecycleWired {
        report := ReportRoot(wireGuard, false);
        return;
      }
      ghost var p := VmStage(cfg, wireGuard);
      ghost var before := incus.log;
      var cancelled := incus.Cancelled();
      ghost var polled := incus.log;
      ghost var afterPoll := p.onPoll(cancelled);
      if cancelled || !cfg.kvm.KvmPresent? {
        report := ReportRoot(wireGuard, false);
      } else {
        var answer := incus.Execute(ProfileCall, PROFILE_REQUEST);
        var ready := JudgeProfile(answer);
        report := ReportRoot(wireGuard, ready);
        PerformedStep(afterPoll, RootStage(cfg, wireGuard, ready), Called(ProfileCall, PROFILE_REQUEST, answer),
                      polled, incus.log, report);
      }
      PerformedStep(p, afterPoll, Polled(cancelled), before, incus.log, report);
    }

    /** The end of VMLifecycleAvailable: what the profile's answer says. */
    method JudgeProfile(answer: Answer) returns (ready: bool)
      ensures ready == ReadyProfile(answer)
      ensures ready <==> ProfileStage(answer).Success?
    {
      ReadinessAgreesWithCreate(answer);
      if answer.None? || !Is2xx(answer.value.status) {
        return false;
      }
      var body := answer.value.body;
      if body.bytes == [] || !body.profileOk || body.devices.None? {
        return false;
      }
      var root := SelectProfileRootDisk(body.devices.value);
      return root.Success? && Field(root.value.device, "pool") != "";
    }

    method ReportRoot(wireGuard: bool, vmLifecycle: bool) returns (report: ReportResult)
      modifies incus
      ensures Performed(RootStage(cfg, wireGuard, vmLifecycle), old(incus.log), incus.log, report)
    {
      report := StateReport.Report(wireGuard, vmLifecycle, false, 0, 0, 0, 0);
      if !cfg.incusWired {
        return;
      }
      ghost var before := incus.log;
      var answer := incus.Execute(RootCall, ROOT_REQUEST);
      ghost var called := incus.log;
      ghost var p := RootStage(cfg, wireGuard, vmLifecycle);
      if answer.None? {
        report := report.(statusCode := UNAVAILABLE);
        PerformedReturn(called, report);
      } else if !Is2xx(answer.value.status) {
        report := report.(statusCode := answer.value.status);
        PerformedReturn(called, report);
      } else {
        report := ReportCounts(report.(available := true, statusCode := answer.value.status));
      }
      PerformedStep(p, p.onAnswer(answer), Called(RootCall, ROOT_REQUEST, answer), before, incus.log, report);
    }

    /** The three totals, filled in one by one. */
    method ReportCounts(start: ReportResult) returns (report: ReportResult)
      requires start.Report? && start.available
      modifies incus
      ensures Performed(InstancesStage(start.wireGuard, start.vmLifecycle, start.statusCode), old(incus.log),
                        incus.log, report)
    {
      ghost var wg, vm, status := start.wireGuard, start.vmLifecycle, start.statusCode;
      report := start;
      ghost var before := incus.log;
      var instances := incus.Execute(ListCall, ListRequest("/1.0/instances"));
      report := report.(instancesTotal := CountList(instances));
      var images := incus.Execute(ListCall, ListRequest("/1.0/images"));
      report := report.(imagesTotal := CountList(images));
      var operations := incus.Execute(OperationsCall, OPERATIONS_REQUEST);
      var total := 0;
      if operations.Some? && Is2xx(operations.value.status) && operations.value.body.operations.Some? {
        total := CountOperations(operations.value.body.operations.value);
      }
      report := report.(operationsTotal := total);
      CountsPerformed(wg, vm, status, instances, images, operations, before, report);
    }
  }

  /** The three reads, in order, are a run of the last stage. */
  lemma CountsPerformed(wg: bool, vm: bool, status: int, instances: Answer, images: Answer, operations: Answer,
                        before: seq<Event>, report: ReportResult)
    requires report == StateReport.Report(wg, vm, true, status, CountList(instances), CountList(images),
                                          OperationsTotal(operations))
    ensures Performed(InstancesStage(wg, vm, status), before,
              before + [Called(ListCall, ListRequest("/1.0/instances"), instances)]
                     + [Called(ListCall, ListRequest("/1.0/images"), images)]
                     + [Called(OperationsCall, OPERATIONS_REQUEST, operations)], report)
  {
    var e1, e2 := Called(ListCall, ListRequest("/1.0/instances"), instances),
        Called(ListCall, ListRequest("/1.0/images"), images);
    var e3 := Called(OperationsCall, OPERATIONS_REQUEST, operations);
    var log := before + [e1] + [e2] + [e3];
    PerformedReturn(log, report);
    PerformedStep(OperationsStage(wg, vm, status, CountList(instances), CountList(images)), Return(report), e3,
                  before + [e1] + [e2], log, report);
    PerformedStep(ImagesStage(wg, vm, status, CountList(instances)),
      OperationsStage(wg, vm, status, CountList(instances), CountList(images)), e2, before + [e1], log, report);
    PerformedStep(InstancesStage(wg, vm, status), ImagesStage(wg, vm, status, CountList(instances)), e1, before, log,
                  report);
  }
}
