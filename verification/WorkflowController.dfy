/** The reconciler of file restores: the status patched in place, step by step. */
module WorkflowController {
  import opened Collections
  import opened RestoreModel
  import VeleroRestores
  import Monitoring
  import RestoreProgress
  import opened WorkflowModel

  /** Real PVCs by availability. */
  method CountAvailability(stored: seq<PVCRestore>) returns (fully: nat, partially: nat, unavailable: nat)
    ensures fully > 0 || partially > 0 <==> SomethingAvailable(stored)
    ensures partially == 0 && unavailable == 0 <==> EverythingAvailable(stored)
  {
    fully, partially, unavailable := 0, 0, 0;
    for k := 0 to |stored|
      invariant fully > 0 || partially > 0 <==> SomethingAvailable(stored[..k])
      invariant partially == 0 && unavailable == 0 <==> EverythingAvailable(stored[..k])
    {
      AvailabilityStep(stored, k);
      var e := stored[k];
      if e.pvc.name == RESERVED_NAME { continue; }
      var hasAvailable, allAvailable := RestoresOf(e);
      if allAvailable && hasAvailable {
        fully := fully + 1;
      } else if hasAvailable {
        partially := partially + 1;
      } else {
        unavailable := unavailable + 1;
      }
    }
    assert stored[..|stored|] == stored;
  }

  method RestoresOf(e: PVCRestore) returns (hasAvailable: bool, allAvailable: bool)
    ensures hasAvailable <==> HasAvailable(e)
    ensures allAvailable && hasAvailable <==> FullyAvailable(e)
  {
    hasAvailable, allAvailable := false, true;
    for j := 0 to |e.restores|
      invariant hasAvailable <==> exists q :: 0 <= q < j && IsAvailable(e.restores[q])
      invariant allAvailable <==> forall q :: 0 <= q < j ==> IsAvailable(e.restores[q])
    {
      if e.restores[j].state == Available { hasAvailable := true; } else { allAvailable := false; }
    }
    if e.restores != [] { assert allAvailable ==> IsAvailable(e.restores[0]); }
  }

  lemma AvailabilityStep(stored: seq<PVCRestore>, k: nat)
    requires k < |stored|
    ensures SomethingAvailable(stored[..k + 1]) <==>
      SomethingAvailable(stored[..k]) || (!IsSynthetic(stored[k]) && HasAvailable(stored[k]))
    ensures EverythingAvailable(stored[..k + 1]) <==>
      EverythingAvailable(stored[..k]) && (IsSynthetic(stored[k]) || FullyAvailable(stored[k]))
  {
    var shorter, longer := stored[..k], stored[..k + 1];
    assert longer[k] == stored[k];
    if SomethingAvailable(shorter) {
      var n :| 0 <= n < |shorter| && !IsSynthetic(shorter[n]) && HasAvailable(shorter[n]);
      assert longer[n] == shorter[n];
    }
    if SomethingAvailable(longer) {
      var n :| 0 <= n < |longer| && !IsSynthetic(longer[n]) && HasAvailable(longer[n]);
      assert n < k ==> shorter[n] == longer[n];
    }
    if EverythingAvailable(longer) {
      forall n | 0 <= n < k && !IsSynthetic(shorter[n]) ensures FullyAvailable(shorter[n]) {
        assert shorter[n] == longer[n];
      }
    }
    if EverythingAvailable(shorter) && (IsSynthetic(stored[k]) || FullyAvailable(stored[k])) {
      forall n | 0 <= n <= k && !IsSynthetic(longer[n]) ensures FullyAvailable(longer[n]) {
        assert n < k ==> longer[n] == shorter[n];
      }
    }
  }

  method CheckRestoresAlreadyCreated(stored: seq<PVCRestore>) returns (created: bool)
    ensures created <==> AllRestoresNamed(stored)
  {
    for k := 0 to |stored|
      invariant forall n :: 0 <= n < k && !IsSynthetic(stored[n]) ==> InfosNamed(stored[n])
    {
      var e := stored[k];
      if e.pvc.name == RESERVED_NAME { continue; }
      for j := 0 to |e.restores|
        invariant forall q :: 0 <= q < j && IsAvailable(e.restores[q]) ==> e.restores[q].restoreName != ""
      {
        if e.restores[j].state == Available && e.restores[j].restoreName == "" {
          assert !InfosNamed(stored[k]);
          return false;
        }
      }
    }
    return true;
  }

  class FileRestoreReconciler {
    const spec: Spec
    const api: Monitoring.RestoreApi    // the Restores of this file restore
    var status: Status                  // as the API server has it

    constructor (spec: Spec, api: Monitoring.RestoreApi)
      ensures this.spec == spec && this.api == api && status == NOTHING
    {
      this.spec := spec;
      this.api := api;
      status := NOTHING;
    }

    ghost function View(): Cluster
      reads this, api
    {
      Cluster(status, api.restores, {})
    }

    /** One status write; nothing changes unless it lands. */
    method Patch(next: Status, lands: bool) returns (ok: bool)
      modifies this
      ensures ok == lands && status == if lands then next else old(status)
    {
      if lands { status := next; }
      return lands;
    }

    /** The write that ends a step. */
    method PatchNext(next: Status, i: Inputs, wanted: Answer) returns (answer: Answer)
      modifies this
      ensures status == Advance(old(status), i, next) && answer == AfterWrite(i, AdvanceWrite, wanted)
    {
      var ok := Patch(next, i.lands(AdvanceWrite));
      return if ok then wanted else Retry;
    }

    /** Always an error, so that the reconcile ends here. */
    method FailValidation(i: Inputs) returns (answer: Answer)
      modifies this
      ensures status == Fail(old(status), i) && answer == Retry
    {
      var _ := Patch(Set(status, Failed, false, ValidationFailed, false, true, false), i.lands(FailWrite));
      return Retry;
    }

    /** The rules that decide whether the discovered PVCs can be restored. */
    method JudgeAvailability(i: Inputs) returns (answer: Answer)
      modifies this
      ensures status == Judge(old(status), i) && answer == JudgeAnswer(old(status).pvcRestores, i)
    {
      var fully, partially, unavailable := CountAvailability(status.pvcRestores);
      if fully == 0 && partially == 0 {
        answer := FailValidation(i);
      } else if partially > 0 || unavailable > 0 {
        var next := Set(status, PartiallyFailed, false, PartialValidationFailed, true, true, false);
        var _ := Patch(next, i.lands(FailWrite));
        answer := Retry;
      } else {
        answer := PatchNext(Working(status, ValidationCompleted), i, Requeue);
      }
    }

    method ValidateAndDiscoverPVCs(i: Inputs) returns (answer: Answer)
      modifies this
      ensures status == Validate(old(status), i) && answer == ValidateAnswer(old(status), i)
    {
      if status.phase.New? {
        var ok := Patch(Working(status, Validating), i.lands(StartWrite));
        if !ok { return Retry; }
      }
      if i.discovery.DiscoveryError? {
        answer := FailValidation(i);
        return;
      }
      if i.discovery.DiscoveryRunning? {
        var ok := Patch(Working(status, WaitingForDiscovery), i.lands(WaitWrite));
        return if ok then Requeue else Retry;
      }
      if !i.backupsSelected {
        answer := FailValidation(i);
        return;
      }
      answer := DiscoverFrom(i);
    }

    method DiscoverFrom(i: Inputs) returns (answer: Answer)
      modifies this
      ensures status == DiscoverPVCs(old(status), i)
      ensures answer ==
        if !i.lands(DiscoveringWrite) || (old(status).pvcRestores != i.discovered && !i.lands(StoreWrite)) then Retry
        else JudgeAnswer(i.discovered, i)
    {
      var next := status.(phase := InProgress, progressing := Some(Progress(true, DiscoveringPVCs)));
      var ok := Patch(next, i.lands(DiscoveringWrite));
      if !ok { return Retry; }
      if status.pvcRestores != i.discovered {
        var stored := Patch(status.(pvcRestores := i.discovered), i.lands(StoreWrite));
        if !stored {
          answer := FailValidation(i);
          return;
        }
      }
      answer := JudgeAvailability(i);
    }

    method EnsureNamespace(i: Inputs) returns (answer: Answer)
      modifies this
      ensures status == PrepareNamespace(spec, old(status), i)
      ensures answer == ExecuteAnswer(spec, old(status), i, Seen(None, None), ValidationCompleted)
    {
      var ok := i.namespaceOk;
      if ok { ok := Patch(status.(createdNamespace := spec.home), i.lands(RecordWrite)); }
      if ok { ok := i.accessOk; }
      if ok {
        answer := PatchNext(Working(status, NamespaceReady), i, Requeue);
      } else {
        answer := FailValidation(i);
      }
    }

    /** The creation calls, if the step gets that far. */
    method CallForRestores(i: Inputs) returns (names: Option<map<string, string>>)
      requires AtWork(status) && status.progressing.value.reason.NamespaceReady?
      requires !i.deleting && !AllRestoresNamed(status.pvcRestores)
      requires Creates(View(), i) ==>
        Monitoring.Callable(VeleroRestores.GroupsOf(status.pvcRestores), i.order, i.outcomes)
      modifies api
      ensures status == old(status)
      ensures Monitoring.Creation(names, api.restores) == CreationOf(spec, old(View()), i)
    {
      if status.createdNamespace == "" || !i.discoveryFound { return None; }
      var groups := VeleroRestores.GroupByBackup(status.pvcRestores);
      VeleroRestores.GroupsAreUnique(status.pvcRestores, groups);
      if |groups| == 0 { return None; }
      names := api.CreateVeleroRestores(spec.uid, groups, i.order, i.outcomes);
    }

    method CreateVeleroRestores(i: Inputs) returns (answer: Answer)
      requires AtWork(status) && status.progressing.value.reason.NamespaceReady? && !i.deleting
      requires Creates(View(), i) ==>
        Monitoring.Callable(VeleroRestores.GroupsOf(status.pvcRestores), i.order, i.outcomes)
      modifies this, api
      ensures status == CreateRestores(spec, old(status), i, SeenBy(spec, old(View()), i))
      ensures api.restores == CreationOf(spec, old(View()), i).restores
      ensures answer == ExecuteAnswer(spec, old(status), i, SeenBy(spec, old(View()), i), NamespaceReady)
    {
      var created := CheckRestoresAlreadyCreated(status.pvcRestores);
      if !created {
        var names := CallForRestores(i);
        var ok := names.Some?;
        if ok {
          var named := Monitoring.RecordNames(status.pvcRestores, names.value, spec.oadpNamespace);
          ok := Patch(status.(pvcRestores := named), i.lands(NamesWrite));
        }
        if !ok {
          answer := FailValidation(i);
          return;
        }
      }
      answer := PatchNext(Working(status, WaitingForRestores), i, Requeue);
    }

    method MonitorVeleroRestores(i: Inputs) returns (answer: Answer)
      requires forall k :: 0 <= k < |api.restores| ==> api.restores[k].name != ""
      modifies this
      ensures var seen := Seen(None, if i.listFails then None else Some(api.restores));
        status == MonitorRestores(spec, old(status), i, seen) && answer == MonitorAnswer(spec, old(status), i, seen)
    {
      var owned := api.restores;
      if i.listFails || |owned| == 0 { return Retry; }
      var completed, failed, inProgress, updated, followed :=
        RestoreProgress.MonitorVeleroRestores(status.pvcRestores, owned, spec.oadpNamespace);
      RestoreProgress.ChangesAreUpdates(status.pvcRestores, owned, spec.oadpNamespace);
      if updated {
        var ok := Patch(status.(pvcRestores := followed), i.lands(FollowWrite));
        if !ok { return Retry; }
      }
      assert status == old(status).(pvcRestores := followed);
      if inProgress > 0 { return Requeue; }
      answer := ConcludeMonitoring(i, completed, failed);
    }

    /** All Restores have come to an end: check the restored PVCs and decide how to go on. */
    method ConcludeMonitoring(i: Inputs, completed: nat, failed: nat) returns (answer: Answer)
      modifies this
      ensures status ==
        if completed > 0 && PvcAnswer(old(status), i).PvcLost? then Fail(old(status), i)
        else if completed > 0 && PvcAnswer(old(status), i).PvcsMissing? then old(status)
        else Advance(old(status), i, Conclude(old(status), completed, failed))
      ensures answer ==
        if completed > 0 && PvcAnswer(old(status), i).PvcLost? then Retry
        else if completed > 0 && PvcAnswer(old(status), i).PvcsMissing? then Requeue
        else AfterWrite(i, AdvanceWrite, if failed == 0 && completed > 0 then Requeue else Done)
    {
      if completed > 0 {
        var mounts := RestoreProgress.ExtractPVCMounts(status.pvcRestores);
        if status.createdNamespace == "" || |mounts| == 0 || i.pvcs.PvcLost? {
          answer := FailValidation(i);
          return;
        }
        if i.pvcs.PvcsMissing? { return Requeue; }
      }
      if failed == 0 && completed > 0 {
        answer := PatchNext(Working(status, RestoresCompleted), i, Requeue);
      } else if completed > 0 {
        var next := Set(status, PartiallyFailed, false, RestoresCompletedWithFailures, true, true, true);
        answer := PatchNext(next, i, Done);
      } else {
        answer := PatchNext(Set(status, Failed, false, RestoresFailed, false, true, false), i, Done);
      }
    }

    method ServeFiles(i: Inputs, reason: Reason) returns (answer: Answer)
      requires reason.RestoresCompleted? || reason.CredentialsReady? || reason.WaitingForRoute?
      modifies this
      ensures status == Execute(spec, old(status), i, Seen(None, None), reason)
      ensures answer == ExecuteAnswer(spec, old(status), i, Seen(None, None), reason)
    {
      match reason {
        case RestoresCompleted =>
          if status.createdNamespace == "" || !i.credentialsOk {
            answer := FailValidation(i);
            return;
          }
          answer := PatchNext(Working(status, CredentialsReady), i, Requeue);
        case CredentialsReady =>
          var mounts := RestoreProgress.ExtractPVCMounts(status.pvcRestores);
          if status.createdNamespace == "" || |mounts| == 0 || !i.fileServerOk {
            answer := FailValidation(i);
            return;
          }
          var next := status.(publicAccess := PublicAccess(spec, status, i.routeHost));
          if spec.external && next.publicAccess == "" {
            answer := PatchNext(Set(next, InProgress, true, WaitingForRoute, true, false, false), i, Requeue);
          } else {
            answer := PatchNext(Finished(next), i, Done);
          }
        case WaitingForRoute =>
          if status.createdNamespace == "" || !i.serviceFound { return Retry; }
          var next := status.(publicAccess := PublicAccess(spec, status, i.routeHost));
          if next.publicAccess == "" { return Requeue; }
          answer := PatchNext(Finished(next), i, Done);
      }
    }

    method Reconcile(i: Inputs) returns (answer: Answer)
      requires forall k :: 0 <= k < |api.restores| ==> api.restores[k].name != ""
      requires Creates(View(), i) ==>
        Monitoring.Callable(VeleroRestores.GroupsOf(status.pvcRestores), i.order, i.outcomes)
      modifies this, api
      ensures View() == WorkflowModel.Reconcile(spec, old(View()), i)
      ensures !i.deleting ==> answer == AnswerTo(spec, old(status), i, SeenBy(spec, old(View()), i))
    {
      if i.deleting || status.phase.Completed? || status.phase.PartiallyFailed? || status.phase.Failed? { return Done; }
      if status.phase.Unset? {
        if i.finalizersPresent {
          answer := PatchNext(Set(status, New, false, Initialized, false, false, false), i, Requeue);
        } else {
          answer := if i.lands(FinalizerWrite) then Requeue else Retry;
        }
        return;
      }
      if status.progressing.None? || !InWorkflow(status.progressing.value.reason) {
        answer := ValidateAndDiscoverPVCs(i);
        return;
      }
      match status.progressing.value.reason {
        case DiscoveringPVCs => answer := Done;  // the reconcile that wrote this reason is expected to go on
        case ValidationCompleted => answer := EnsureNamespace(i);
        case NamespaceReady => answer := CreateVeleroRestores(i);
        case WaitingForRestores => answer := MonitorVeleroRestores(i);
        case RestoresCompleted => answer := ServeFiles(i, RestoresCompleted);
        case CredentialsReady => answer := ServeFiles(i, CredentialsReady);
        case WaitingForRoute => answer := ServeFiles(i, WaitingForRoute);
      }
    }
  }
}
