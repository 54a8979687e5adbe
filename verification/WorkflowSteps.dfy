/**
 * What each step of the workflow achieves when nothing disturbs it: where it goes, in terms of what it finds.
 */
module WorkflowSteps {
  import opened Collections
  import opened RestoreModel
  import opened VeleroRestores
  import opened Monitoring
  import opened RestoreProgress
  import opened Pipeline
  import opened WorkflowModel
  import opened Workflow
  import opened WorkflowRuns

  /** Every write lands and the object is not being deleted. */
  ghost predicate Undisturbed(i: Inputs) { !i.deleting && forall site :: i.lands(site) }

  // ----- Validation

  predicate SomeUsable(stored: seq<PVCRestore>) {
    exists k, j :: 0 <= k < |stored| && stored[k].pvc.name != "backup-level-failure" && 0 <= j < |stored[k].restores|
                   && stored[k].restores[j].state == Available
  }

  predicate AllUsable(stored: seq<PVCRestore>) {
    forall k :: 0 <= k < |stored| && stored[k].pvc.name != "backup-level-failure" ==>
      |stored[k].restores| > 0 && forall j :: 0 <= j < |stored[k].restores| ==> stored[k].restores[j].state == Available
  }

  lemma UsableIsAvailable(stored: seq<PVCRestore>)
    ensures SomethingAvailable(stored) <==> SomeUsable(stored)
    ensures EverythingAvailable(stored) <==> AllUsable(stored)
  {
    if SomethingAvailable(stored) {
      var k :| 0 <= k < |stored| && !IsSynthetic(stored[k]) && HasAvailable(stored[k]);
      var j :| 0 <= j < |stored[k].restores| && IsAvailable(stored[k].restores[j]);
    }
    if SomeUsable(stored) {
      var k, j :| 0 <= k < |stored| && stored[k].pvc.name != "backup-level-failure" && 0 <= j < |stored[k].restores|
                  && stored[k].restores[j].state == Available;
      assert IsAvailable(stored[k].restores[j]) && HasAvailable(stored[k]);
    }
    if EverythingAvailable(stored) {
      forall k | 0 <= k < |stored| && stored[k].pvc.name != "backup-level-failure"
        ensures |stored[k].restores| > 0 && forall j :: 0 <= j < |stored[k].restores| ==>
          stored[k].restores[j].state == Available
      {
        assert FullyAvailable(stored[k]);
        assert forall j :: 0 <= j < |stored[k].restores| ==> IsAvailable(stored[k].restores[j]);
      }
    }
  }

  /** A restore that has not been validated yet. */
  predicate Unvalidated(s: Status) {
    (s.phase.New? || s.phase.InProgress?) && s.progressing.Some? && !InWorkflow(s.progressing.value.reason)
  }

  lemma JudgeGoes(s: Status, i: Inputs)
    requires Undisturbed(i)
    ensures var t := Judge(s, i);
      && t.pvcRestores == s.pvcRestores
      && (At(t, ValidationCompleted) <==> SomeUsable(s.pvcRestores) && AllUsable(s.pvcRestores))
      && (t.phase.PartiallyFailed? <==> SomeUsable(s.pvcRestores) && !AllUsable(s.pvcRestores))
      && (t.phase.Failed? <==> !SomeUsable(s.pvcRestores))
  {
    UsableIsAvailable(s.pvcRestores);
  }

  /** Validation waits for the discovery, and then goes by the availability of the discovered PVCs. */
  lemma ValidationGoes(spec: Spec, c: Cluster, i: Inputs)
    requires Unvalidated(c.status) && Undisturbed(i)
    ensures var t := Reconcile(spec, c, i).status;
      var found := i.discovery.DiscoveryDone? && i.backupsSelected;
      && (At(t, ValidationCompleted) <==> found && SomeUsable(i.discovered) && AllUsable(i.discovered))
      && (t.phase.PartiallyFailed? <==> found && SomeUsable(i.discovered) && !AllUsable(i.discovered))
      && (At(t, WaitingForDiscovery) <==> i.discovery.DiscoveryRunning?)
      && (t.phase.Failed? <==> !i.discovery.DiscoveryRunning? && !(found && SomeUsable(i.discovered)))
      && (found ==> t.pvcRestores == i.discovered)
  {
    var s := c.status;
    var t := if s.phase.New? then Working(s, Validating) else s;
    var u := t.(phase := InProgress, progressing := Some(Progress(true, DiscoveringPVCs)), pvcRestores := i.discovered);
    JudgeGoes(u, i);
    assert i.discovery.DiscoveryDone? && i.backupsSelected ==> Validate(s, i) == Judge(u, i);
  }

  // ----- Namespace and Restores

  lemma NamespaceGoes(spec: Spec, c: Cluster, i: Inputs)
    requires At(c.status, ValidationCompleted) && Undisturbed(i)
    ensures var t := Reconcile(spec, c, i).status;
      && (At(t, NamespaceReady) <==> i.namespaceOk && i.accessOk)
      && (t.phase.Failed? <==> !(i.namespaceOk && i.accessOk))
      && (i.namespaceOk ==> t.createdNamespace == spec.home)
  {
  }

  /** The server accepts the call, or refuses it while this restore has a Restore of the backup. */
  predicate CallWorks(spec: Spec, c: Cluster, backup: string, outcome: CreateOutcome) {
    outcome.Created?
    || (outcome.AlreadyExists?
        && exists k :: 0 <= k < |c.restores| && c.restores[k].owner == spec.uid && c.restores[k].backup == backup)
  }

  predicate CallsWork(spec: Spec, c: Cluster, i: Inputs) {
    |i.outcomes| == |i.order| && forall j :: 0 <= j < |i.order| ==> CallWorks(spec, c, i.order[j], i.outcomes[j])
  }

  lemma SomethingIsGrouped(stored: seq<PVCRestore>)
    requires SomethingAvailable(stored)
    ensures GroupsOf(stored) != map[]
  {
    var k :| 0 <= k < |stored| && !IsSynthetic(stored[k]) && HasAvailable(stored[k]);
    var j :| 0 <= j < |stored[k].restores| && IsAvailable(stored[k].restores[j]);
    AvailableIsGrouped(stored, k, j);
    GroupsAreUnique(stored, GroupsOf(stored));
    assert stored[k].restores[j].backup in GroupsOf(stored);
  }

  /** The calls are made exactly when the discovery object can be read, and yield names exactly when all work. */
  lemma CreationGives(spec: Spec, c: Cluster, i: Inputs)
    requires Consistent(spec, c.status) && At(c.status, NamespaceReady) && Undisturbed(i) && ValidInputs(c, i)
    requires !AllRestoresNamed(c.status.pvcRestores)
    ensures CreationOf(spec, c, i).names.Some? <==> i.discoveryFound && CallsWork(spec, c, i)
  {
    SomethingIsGrouped(c.status.pvcRestores);
    if i.discoveryFound {
      assert Creates(c, i);
      CreateSucceedsExactly(c.restores, spec.uid, GroupsOf(c.status.pvcRestores), i.order, i.outcomes);
      assert forall j :: 0 <= j < |i.order| ==>
        (CallSucceeds(c.restores, spec.uid, i.order[j], i.outcomes[j]) <==>
            CallWorks(spec, c, i.order[j], i.outcomes[j]));
    }
  }

  /** A record names a Restore of its own backup, made for this restore. */
  predicate NamesOwn(spec: Spec, restores: seq<VeleroRestore>, x: RestoreInfo) {
    && x.restoreNamespace == spec.oadpNamespace && x.phase == RPNew
    && exists k :: 0 <= k < |restores| && restores[k].name == x.restoreName && restores[k].owner == spec.uid
                   && restores[k].backup == x.backup
  }

  lemma NamedRecords(spec: Spec, stored: seq<PVCRestore>, restores: seq<VeleroRestore>, names: map<string, string>,
                     k: nat, j: nat)
    requires AllNamed(restores, spec.uid, names) && Covers(stored, Some(names))
    requires k < |stored| && !IsSynthetic(stored[k]) && j < |stored[k].restores| && IsAvailable(stored[k].restores[j])
    ensures NamesOwn(spec, restores, Named(stored, names, spec.oadpNamespace)[k].restores[j])
  {
    var x := stored[k].restores[j];
    AvailableIsGrouped(stored, k, j);
    assert NamesRestore(restores, spec.uid, x.backup, names[x.backup]);
  }

  /** Creation moves on if the records are named already or all calls work, and then they are named; else it fails. */
  lemma CreationGoes(spec: Spec, c: Cluster, i: Inputs)
    requires Consistent(spec, c.status) && RestoresSound(spec, c)
    requires At(c.status, NamespaceReady) && Undisturbed(i) && ValidInputs(c, i)
    ensures var d := Reconcile(spec, c, i);
      var named := AllRestoresNamed(c.status.pvcRestores);
      && (At(d.status, WaitingForRestores) <==> named || (i.discoveryFound && CallsWork(spec, c, i)))
      && (d.status.phase.Failed? <==> !At(d.status, WaitingForRestores))
      && (!named && At(d.status, WaitingForRestores) ==>
            Every(d.status.pvcRestores, (x: RestoreInfo) => NamesOwn(spec, d.restores, x)))
  {
    var stored, created := c.status.pvcRestores, CreationOf(spec, c, i);
    CreationFacts(spec, c, i);
    if !AllRestoresNamed(stored) {
      CreationGives(spec, c, i);
      if created.names.Some? {
        var after := Named(stored, created.names.value, spec.oadpNamespace);
        forall k, j | 0 <= k < |after| && !IsSynthetic(after[k]) && 0 <= j < |after[k].restores|
          ensures IsAvailable(after[k].restores[j]) ==> NamesOwn(spec, created.restores, after[k].restores[j])
        {
          if IsAvailable(stored[k].restores[j]) {
            NamedRecords(spec, stored, created.restores, created.names.value, k, j);
          }
        }
      }
    }
  }

  // ----- Monitoring, by the phases of the Restores

  predicate Succeeded(v: VeleroRestore) {
    match v.phase
    case RPCompleted | RPFinalizing | RPFinalizingPartiallyFailed => true
    case _ => false
  }

  predicate Broke(v: VeleroRestore) {
    match v.phase
    case RPFailed | RPPartiallyFailed | RPFailedValidation => true
    case _ => false
  }

  predicate AllEnded(restores: seq<VeleroRestore>) {
    forall k :: 0 <= k < |restores| ==> Succeeded(restores[k]) || Broke(restores[k])
  }

  predicate SomeSucceeded(restores: seq<VeleroRestore>) { exists k :: 0 <= k < |restores| && Succeeded(restores[k]) }

  predicate SomeBroke(restores: seq<VeleroRestore>) { exists k :: 0 <= k < |restores| && Broke(restores[k]) }

  lemma {:induction false} CountsByPhase(restores: seq<VeleroRestore>)
    ensures CompletedCount(restores) > 0 <==> SomeSucceeded(restores)
    ensures FailedCount(restores) > 0 <==> SomeBroke(restores)
    ensures CompletedCount(restores) + FailedCount(restores) <= |restores|
    ensures CompletedCount(restores) + FailedCount(restores) == |restores| <==> AllEnded(restores)
  {
    if restores != [] {
      var n := |restores| - 1;
      CountsByPhase(restores[..n]);
      assert restores[..n + 1] == restores;
      RestoreProgress.CountStep(restores, n);
      assert forall k :: 0 <= k < n ==> restores[..n][k] == restores[k];
      assert SomeSucceeded(restores) <==> SomeSucceeded(restores[..n]) || Succeeded(restores[n]);
      assert SomeBroke(restores) <==> SomeBroke(restores[..n]) || Broke(restores[n]);
      assert AllEnded(restores) <==> AllEnded(restores[..n]) && (Succeeded(restores[n]) || Broke(restores[n]));
    }
  }

  /** The restored PVCs are found, and there is one to find. */
  predicate PvcsPass(spec: Spec, c: Cluster, i: Inputs) {
    i.pvcs.PvcsReady? && Mounts(FollowStored(c.status.pvcRestores, c.restores, spec.oadpNamespace)) != []
  }

  lemma MonitorStep(spec: Spec, s: Status, i: Inputs, seen: Seen)
    requires At(s, WaitingForRestores) && s.createdNamespace != "" && Undisturbed(i)
    requires seen.owned.Some? && seen.owned.value != []
    requires SomeSucceeded(seen.owned.value) ==>
      i.pvcs.PvcsReady? && Mounts(FollowStored(s.pvcRestores, seen.owned.value, spec.oadpNamespace)) != []
    ensures var t, owned := MonitorRestores(spec, s, i, seen), seen.owned.value;
      && (At(t, RestoresCompleted) <==> AllEnded(owned) && SomeSucceeded(owned) && !SomeBroke(owned))
      && (t.phase.PartiallyFailed? <==> AllEnded(owned) && SomeSucceeded(owned) && SomeBroke(owned))
      && (t.phase.Failed? <==> AllEnded(owned) && !SomeSucceeded(owned))
      && (At(t, WaitingForRestores) <==> !AllEnded(owned))
  {
    CountsByPhase(seen.owned.value);
  }

  /**
   * Monitoring waits until every Restore has ended, and then goes by which of them succeeded: all of them, some, or
   * none.
   */
  lemma MonitoringGoes(spec: Spec, c: Cluster, i: Inputs)
    requires Consistent(spec, c.status) && At(c.status, WaitingForRestores) && Undisturbed(i)
    requires !i.listFails && c.restores != [] && (SomeSucceeded(c.restores) ==> PvcsPass(spec, c, i))
    ensures var t := Reconcile(spec, c, i).status; var ended := AllEnded(c.restores);
      && (At(t, RestoresCompleted) <==> ended && SomeSucceeded(c.restores) && !SomeBroke(c.restores))
      && (t.phase.PartiallyFailed? <==> ended && SomeSucceeded(c.restores) && SomeBroke(c.restores))
      && (t.phase.Failed? <==> ended && !SomeSucceeded(c.restores))
      && (At(t, WaitingForRestores) <==> !ended)
  {
    MonitorStep(spec, c.status, i, SeenBy(spec, c, i));
  }

  lemma PvcCheckStep(spec: Spec, s: Status, i: Inputs, seen: Seen)
    requires At(s, WaitingForRestores) && s.createdNamespace != "" && Undisturbed(i)
    requires seen.owned.Some? && AllEnded(seen.owned.value) && SomeSucceeded(seen.owned.value)
    ensures var t := MonitorRestores(spec, s, i, seen);
      var nothing := Mounts(FollowStored(s.pvcRestores, seen.owned.value, spec.oadpNamespace)) == [];
      && (i.pvcs.PvcLost? || nothing ==> t.phase.Failed?)
      && (i.pvcs.PvcsMissing? && !nothing ==> At(t, WaitingForRestores))
  {
    CountsByPhase(seen.owned.value);
  }

  /**
   * With a Restore that succeeded and all ended, a PVC check that fails or finds nothing ends it; a missing PVC
   * waits.
   */
  lemma PvcCheckGoes(spec: Spec, c: Cluster, i: Inputs)
    requires Consistent(spec, c.status) && At(c.status, WaitingForRestores) && Undisturbed(i)
    requires !i.listFails && AllEnded(c.restores) && SomeSucceeded(c.restores)
    ensures var t := Reconcile(spec, c, i).status;
      var nothing := Mounts(FollowStored(c.status.pvcRestores, c.restores, spec.oadpNamespace)) == [];
      && (i.pvcs.PvcLost? || nothing ==> t.phase.Failed?)
      && (i.pvcs.PvcsMissing? && !nothing ==> At(t, WaitingForRestores))
  {
    PvcCheckStep(spec, c.status, i, SeenBy(spec, c, i));
  }

  /** Without a listing, or with an empty one, nothing changes. */
  lemma NothingListed(spec: Spec, c: Cluster, i: Inputs)
    requires At(c.status, WaitingForRestores) && (i.listFails || c.restores == [])
    ensures Reconcile(spec, c, i).status == c.status
  {
  }

  // ----- Serving

  lemma CredentialsGo(spec: Spec, c: Cluster, i: Inputs)
    requires Consistent(spec, c.status) && At(c.status, RestoresCompleted) && Undisturbed(i)
    ensures var t := Reconcile(spec, c, i).status;
      (At(t, CredentialsReady) <==> i.credentialsOk) && (t.phase.Failed? <==> !i.credentialsOk)
  {
  }

  lemma ServerStep(spec: Spec, s: Status, i: Inputs)
    requires At(s, CredentialsReady) && s.createdNamespace != "" && Undisturbed(i)
    ensures var t, works := StartFileServer(spec, s, i), i.fileServerOk && Mounts(s.pvcRestores) != [];
      && (t.phase.Completed? <==> works && (spec.external ==> i.routeHost != ""))
      && (At(t, WaitingForRoute) <==> works && spec.external && i.routeHost == "")
      && (t.phase.Failed? <==> !works)
      && (t.phase.Completed? ==> t.publicAccess == if spec.external then "https://" + i.routeHost else "")
  {
  }

  /** The file server completes the restore, unless a route is asked for and has no host yet. */
  lemma ServerGoes(spec: Spec, c: Cluster, i: Inputs)
    requires Consistent(spec, c.status) && At(c.status, CredentialsReady) && Undisturbed(i)
    ensures var t, works := Reconcile(spec, c, i).status, i.fileServerOk && Mounts(c.status.pvcRestores) != [];
      && (t.phase.Completed? <==> works && (spec.external ==> i.routeHost != ""))
      && (At(t, WaitingForRoute) <==> works && spec.external && i.routeHost == "")
      && (t.phase.Failed? <==> !works)
      && (t.phase.Completed? ==> t.publicAccess == if spec.external then "https://" + i.routeHost else "")
  {
    ServerStep(spec, c.status, i);
  }

  lemma RouteGoes(spec: Spec, c: Cluster, i: Inputs)
    requires Consistent(spec, c.status) && At(c.status, WaitingForRoute) && Undisturbed(i)
    ensures var t := Reconcile(spec, c, i).status;
      && (t.phase.Completed? <==> i.serviceFound && i.routeHost != "")
      && (t.phase.Completed? ==> t.publicAccess == "https://" + i.routeHost)
      && (!t.phase.Completed? ==> t == c.status)
  {
  }

  // ----- Answers

  /** What a reconcile could not find out. */
  predicate Blind(c: Cluster, i: Inputs) {
    (At(c.status, WaitingForRestores) && (i.listFails || c.restores == []))
    || (At(c.status, WaitingForRoute) && !i.serviceFound)
  }

  lemma ValidationAnswers(spec: Spec, s: Status, i: Inputs)
    requires Consistent(spec, s) && Unvalidated(s) && Undisturbed(i)
    ensures ValidateAnswer(s, i).Requeue? <==> !Terminal(Validate(s, i).phase)
  {
  }

  lemma WorkflowAnswers(spec: Spec, c: Cluster, i: Inputs, r: Reason)
    requires Consistent(spec, c.status) && At(c.status, r) && InWorkflow(r) && Undisturbed(i)
    ensures var seen := SeenBy(spec, c, i);
      ExecuteAnswer(spec, c.status, i, seen, r).Requeue? <==>
      !Terminal(Execute(spec, c.status, i, seen, r).phase) && !r.DiscoveringPVCs? && !Blind(c, i)
  {
  }

  /** An undisturbed reconcile asks to be called again exactly while work is left that it can see. */
  lemma UndisturbedAnswers(spec: Spec, c: Cluster, i: Inputs)
    requires Consistent(spec, c.status) && Undisturbed(i) && i.finalizersPresent
    ensures AnswerTo(spec, c.status, i, SeenBy(spec, c, i)).Requeue? <==>
      !Terminal(Reconcile(spec, c, i).status.phase) && !At(c.status, DiscoveringPVCs) && !Blind(c, i)
  {
    var s := c.status;
    if Unvalidated(s) {
      ValidationAnswers(spec, s, i);
    } else if AtWork(s) {
      WorkflowAnswers(spec, c, i, s.progressing.value.reason);
    }
  }
}
