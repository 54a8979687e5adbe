/** What every run of the file-restore workflow keeps, and that it only moves forward. */
module Workflow {
  import opened Collections
  import opened RestoreModel
  import opened Regroup
  import opened VeleroRestores
  import opened Monitoring
  import opened RestoreProgress
  import opened Pipeline
  import opened WorkflowModel

  // ----- The invariant

  function Rank(r: Reason): nat {
    match r
    case Initialized => 0
    case Validating => 1
    case WaitingForDiscovery => 2
    case DiscoveringPVCs => 3
    case ValidationCompleted => 4
    case NamespaceReady => 5
    case WaitingForRestores => 6
    case RestoresCompleted => 7
    case CredentialsReady => 8
    case WaitingForRoute => 9
    case _ => 10
  }

  predicate EndsWorkflow(r: Reason) { Rank(r) == 10 }

  /** The restores reached the given point: failures of validation and earlier steps do not count. */
  predicate Reached(r: Reason, point: Reason) {
    Rank(r) >= Rank(point) && !r.ValidationFailed? && !r.PartialValidationFailed?
  }

  /** The four conditions say what the phase says. */
  predicate ConditionsMatch(s: Status) {
    && s.progressing.Some? && s.available.Some? && s.degraded.Some? && s.ready.Some?
    && (s.progressing.value.active <==> s.phase.InProgress?)
    && (s.degraded.value <==> s.phase.PartiallyFailed? || s.phase.Failed?)
    && (s.ready.value ==> s.available.value)
    && var r := s.progressing.value.reason;
    && (s.ready.value <==> r.FileServerCreated? || r.RestoresCompletedWithFailures?)
    && (s.available.value <==>
          r.WaitingForRoute? || r.FileServerCreated? || r.PartialValidationFailed? || r.RestoresCompletedWithFailures?)
    && (s.phase.PartiallyFailed? <==> r.PartialValidationFailed? || r.RestoresCompletedWithFailures?)
    && (s.phase.New? <==> r.Initialized?)
    && (Terminal(s.phase) <==> EndsWorkflow(r))
    && (s.phase.Completed? <==> r.FileServerCreated?)
    && !s.phase.Unset?
  }

  /** What a reason asks of the data. */
  ghost predicate Prepared(s: Status, r: Reason) {
    && (Reached(r, NamespaceReady) ==> s.createdNamespace != "")
    && (Reached(r, WaitingForRestores) ==> AllRestoresNamed(s.pvcRestores))
    && (Rank(r) <= Rank(NamespaceReady) ==> Unnamed(s.pvcRestores) || AllRestoresNamed(s.pvcRestores))
    && (Reached(r, ValidationCompleted) ==> SomethingAvailable(s.pvcRestores) && EverythingAvailable(s.pvcRestores))
  }

  ghost predicate Consistent(spec: Spec, s: Status) {
    if s.phase.Unset? then s == NOTHING
    else
      && ConditionsMatch(s)
      && var r := s.progressing.value.reason;
      && (s.createdNamespace == "" || s.createdNamespace == spec.home)
      && Prepared(s, r)
      && (s.phase.Completed? && spec.external ==> s.publicAccess != "")
      && (r.WaitingForRoute? ==> spec.external)
      && (r.PartialValidationFailed? ==> SomethingAvailable(s.pvcRestores) && !EverythingAvailable(s.pvcRestores))
  }

  // ----- Moving forward

  /** The same PVCs and backups, and no Restore name given is changed. */
  ghost predicate KeepsRecords(a: seq<PVCRestore>, b: seq<PVCRestore>) {
    && SameShapes(a, b)
    && (forall k, j :: 0 <= k < |a| && 0 <= j < |a[k].restores| && a[k].restores[j].restoreName != "" ==>
          b[k].restores[j].restoreName == a[k].restores[j].restoreName)
  }

  /** The way from one persisted status to a later one. */
  ghost predicate Advances(s: Status, t: Status) {
    && (Terminal(s.phase) ==> t == s)
    && (!s.phase.Unset? ==> !t.phase.Unset?)
    && (s.createdNamespace != "" ==> t.createdNamespace == s.createdNamespace)
    && (s.progressing.Some? ==>
          && t.progressing.Some?
          && Rank(s.progressing.value.reason) <= Rank(t.progressing.value.reason)
          && (Rank(s.progressing.value.reason) >= Rank(ValidationCompleted) ==>
                KeepsRecords(s.pvcRestores, t.pvcRestores)))
  }

  lemma KeepsRecordsReflexive(a: seq<PVCRestore>)
    ensures KeepsRecords(a, a)
  {
  }

  lemma KeepsRecordsTransitive(a: seq<PVCRestore>, b: seq<PVCRestore>, c: seq<PVCRestore>)
    requires KeepsRecords(a, b) && KeepsRecords(b, c)
    ensures KeepsRecords(a, c)
  {
    forall k | 0 <= k < |a| ensures SameShape(a[k], c[k]) {
      assert SameShape(a[k], b[k]) && SameShape(b[k], c[k]);
    }
    forall k, j | 0 <= k < |a| && 0 <= j < |a[k].restores| && a[k].restores[j].restoreName != ""
      ensures c[k].restores[j].restoreName == a[k].restores[j].restoreName
    {
      assert SameShape(a[k], b[k]) && b[k].restores[j].restoreName == a[k].restores[j].restoreName;
    }
  }

  lemma AdvancesTransitive(s: Status, t: Status, u: Status)
    requires Advances(s, t) && Advances(t, u)
    ensures Advances(s, u)
  {
    if s.progressing.Some? && Rank(s.progressing.value.reason) >= Rank(ValidationCompleted) {
      KeepsRecordsTransitive(s.pvcRestores, t.pvcRestores, u.pvcRestores);
    }
  }

  // ----- One reconcile

  predicate At(s: Status, r: Reason) { s.phase.InProgress? && s.progressing == Some(Progress(true, r)) }

  predicate Active(s: Status) { s.phase.InProgress? && s.progressing.Some? }

  lemma FailKeeps(spec: Spec, s: Status, i: Inputs)
    requires Consistent(spec, s) && Active(s)
    ensures Consistent(spec, Fail(s, i)) && Advances(s, Fail(s, i))
  {
    KeepsRecordsReflexive(s.pvcRestores);
  }

  lemma FailPartiallyKeeps(spec: Spec, s: Status, i: Inputs)
    requires Consistent(spec, s) && Active(s)
    requires SomethingAvailable(s.pvcRestores) && !EverythingAvailable(s.pvcRestores)
    ensures Consistent(spec, FailPartially(s, i)) && Advances(s, FailPartially(s, i))
  {
    KeepsRecordsReflexive(s.pvcRestores);
  }

  lemma WorkingKeeps(spec: Spec, s: Status, r: Reason)
    requires Consistent(spec, s) && Active(s)
    requires Rank(s.progressing.value.reason) <= Rank(r) < Rank(WaitingForRoute) && !r.Initialized?
    requires Prepared(s, r)
    ensures Consistent(spec, Working(s, r)) && Advances(s, Working(s, r))
  {
    KeepsRecordsReflexive(s.pvcRestores);
  }

  lemma StayingKeeps(s: Status)
    ensures Advances(s, s)
  {
    KeepsRecordsReflexive(s.pvcRestores);
  }

  lemma JudgeKeeps(spec: Spec, s: Status, i: Inputs)
    requires Consistent(spec, s) && At(s, DiscoveringPVCs)
    ensures Consistent(spec, Judge(s, i)) && Advances(s, Judge(s, i))
  {
    StayingKeeps(s);
    if !SomethingAvailable(s.pvcRestores) {
      FailKeeps(spec, s, i);
    } else if !EverythingAvailable(s.pvcRestores) {
      FailPartiallyKeeps(spec, s, i);
    } else {
      WorkingKeeps(spec, s, ValidationCompleted);
    }
  }

  lemma StoreKeeps(spec: Spec, s: Status, discovered: seq<PVCRestore>)
    requires Consistent(spec, s) && At(s, DiscoveringPVCs) && Unnamed(discovered)
    ensures Consistent(spec, s.(pvcRestores := discovered)) && Advances(s, s.(pvcRestores := discovered))
  {
  }

  lemma DiscoverKeeps(spec: Spec, s: Status, i: Inputs)
    requires Consistent(spec, s) && Active(s) && Rank(s.progressing.value.reason) <= 2 && Unnamed(i.discovered)
    ensures Consistent(spec, DiscoverPVCs(s, i)) && Advances(s, DiscoverPVCs(s, i))
  {
    StayingKeeps(s);
    if i.lands(DiscoveringWrite) {
      var t := s.(phase := InProgress, progressing := Some(Progress(true, DiscoveringPVCs)));
      assert Consistent(spec, t) && Advances(s, t);
      if t.pvcRestores == i.discovered {
        JudgeKeeps(spec, t, i);
      } else if !i.lands(StoreWrite) {
        FailKeeps(spec, t, i);
      } else {
        var u := t.(pvcRestores := i.discovered);
        StoreKeeps(spec, t, i.discovered);
        JudgeKeeps(spec, u, i);
        AdvancesTransitive(t, u, DiscoverPVCs(s, i));
      }
      AdvancesTransitive(s, t, DiscoverPVCs(s, i));
    }
  }

  lemma ResumeKeeps(spec: Spec, s: Status, i: Inputs)
    requires Consistent(spec, s) && Unnamed(i.discovered) && Active(s) && !InWorkflow(s.progressing.value.reason)
    ensures Consistent(spec, Validate(s, i)) && Advances(s, Validate(s, i))
  {
    StayingKeeps(s);
    match i.discovery
    case DiscoveryError => FailKeeps(spec, s, i);
    case DiscoveryRunning => WorkingKeeps(spec, s, WaitingForDiscovery);
    case DiscoveryDone =>
      if i.backupsSelected { DiscoverKeeps(spec, s, i); } else { FailKeeps(spec, s, i); }
  }

  lemma ValidateKeeps(spec: Spec, s: Status, i: Inputs)
    requires Consistent(spec, s) && Unnamed(i.discovered)
    requires s.progressing.Some? && !InWorkflow(s.progressing.value.reason) && (s.phase.New? || s.phase.InProgress?)
    ensures Consistent(spec, Validate(s, i)) && Advances(s, Validate(s, i))
  {
    if s.phase.InProgress? {
      ResumeKeeps(spec, s, i);
    } else if i.lands(StartWrite) {
      var t := Working(s, Validating);
      ResumeKeeps(spec, t, i);
      assert Validate(s, i) == Validate(t, i);
      AdvancesTransitive(s, t, Validate(s, i));
    }
  }

  lemma {:induction false} NamedKeepsRecords(stored: seq<PVCRestore>, names: map<string, string>, namespace: string)
    requires Unnamed(stored)
    requires forall b :: SelectedUIDs(stored, b) != [] ==> b in names && names[b] != ""
    ensures KeepsRecords(stored, Named(stored, names, namespace))
    ensures AllRestoresNamed(Named(stored, names, namespace))
  {
    var after := Named(stored, names, namespace);
    forall k | 0 <= k < |after| && !IsSynthetic(after[k]) ensures InfosNamed(after[k]) {
      forall j | 0 <= j < |after[k].restores| && IsAvailable(after[k].restores[j])
        ensures after[k].restores[j].restoreName != ""
      {
        AvailableIsGrouped(stored, k, j);
      }
    }
  }

  lemma FollowKeepsRecords(stored: seq<PVCRestore>, owned: seq<VeleroRestore>, namespace: string)
    requires AllRestoresNamed(stored)
    ensures KeepsRecords(stored, FollowStored(stored, owned, namespace))
    ensures AllRestoresNamed(FollowStored(stored, owned, namespace))
  {
    var after := FollowStored(stored, owned, namespace);
    forall k, j | 0 <= k < |stored| && !IsSynthetic(stored[k]) && 0 <= j < |stored[k].restores|
      ensures var x, y := stored[k].restores[j], after[k].restores[j];
        && y.backup == x.backup && y.state == x.state && y.timestamp == x.timestamp
        && (x.restoreName != "" ==> y.restoreName == x.restoreName)
    {
      FollowNamed(stored[k].restores[j], owned, namespace);
    }
    forall k | 0 <= k < |after| && !IsSynthetic(after[k]) ensures InfosNamed(after[k]) {
      assert InfosNamed(stored[k]);
    }
  }

  /** Availability depends on the shape alone. */
  lemma SameAvailability(a: seq<PVCRestore>, b: seq<PVCRestore>)
    requires SameShapes(a, b)
    ensures SomethingAvailable(a) ==> SomethingAvailable(b)
    ensures EverythingAvailable(a) ==> EverythingAvailable(b)
  {
    if SomethingAvailable(a) {
      var k :| 0 <= k < |a| && !IsSynthetic(a[k]) && HasAvailable(a[k]);
      assert SameShape(a[k], b[k]);
      var j :| 0 <= j < |a[k].restores| && IsAvailable(a[k].restores[j]);
      assert IsAvailable(b[k].restores[j]);
    }
    if EverythingAvailable(a) {
      forall k | 0 <= k < |b| && !IsSynthetic(b[k]) ensures FullyAvailable(b[k]) {
        assert SameShape(a[k], b[k]) && FullyAvailable(a[k]);
      }
    }
  }

  /** The list may change to one of the same shape with no name lost. */
  lemma RecordsMayChange(spec: Spec, s: Status, stored: seq<PVCRestore>)
    requires Consistent(spec, s) && Active(s) && KeepsRecords(s.pvcRestores, stored)
    requires AllRestoresNamed(stored)
    ensures Consistent(spec, s.(pvcRestores := stored)) && Advances(s, s.(pvcRestores := stored))
  {
    SameAvailability(s.pvcRestores, stored);
  }

  /** The names cover every group. */
  ghost predicate Covers(stored: seq<PVCRestore>, created: Option<map<string, string>>) {
    created.Some? ==> forall b :: SelectedUIDs(stored, b) != [] ==> b in created.value && created.value[b] != ""
  }

  lemma CreateRestoresKeeps(spec: Spec, s: Status, i: Inputs, seen: Seen)
    requires Consistent(spec, s) && Covers(s.pvcRestores, seen.created) && At(s, NamespaceReady)
    ensures Consistent(spec, CreateRestores(spec, s, i, seen)) && Advances(s, CreateRestores(spec, s, i, seen))
  {
    StayingKeeps(s);
    FailKeeps(spec, s, i);
    if AllRestoresNamed(s.pvcRestores) {
      WorkingKeeps(spec, s, WaitingForRestores);
    } else if seen.created.Some? {
      var named := Named(s.pvcRestores, seen.created.value, spec.oadpNamespace);
      NamedKeepsRecords(s.pvcRestores, seen.created.value, spec.oadpNamespace);
      var t := s.(pvcRestores := named);
      RecordsMayChange(spec, s, named);
      WorkingKeeps(spec, t, WaitingForRestores);
      AdvancesTransitive(s, t, Working(t, WaitingForRestores));
    }
  }

  lemma ConcludeKeeps(spec: Spec, s: Status, completed: nat, failed: nat)
    requires Consistent(spec, s) && At(s, WaitingForRestores)
    ensures Consistent(spec, Conclude(s, completed, failed)) && Advances(s, Conclude(s, completed, failed))
  {
    KeepsRecordsReflexive(s.pvcRestores);
  }

  lemma MonitorKeeps(spec: Spec, s: Status, i: Inputs, seen: Seen)
    requires Consistent(spec, s) && At(s, WaitingForRestores)
    ensures Consistent(spec, MonitorRestores(spec, s, i, seen)) && Advances(s, MonitorRestores(spec, s, i, seen))
  {
    StayingKeeps(s);
    if seen.owned.Some? {
      var owned := seen.owned.value;
      var followed := FollowStored(s.pvcRestores, owned, spec.oadpNamespace);
      FollowKeepsRecords(s.pvcRestores, owned, spec.oadpNamespace);
      var t := s.(pvcRestores := followed);
      RecordsMayChange(spec, s, followed);
      StayingKeeps(t);
      FailKeeps(spec, t, i);
      ConcludeKeeps(spec, t, CompletedCount(owned), FailedCount(owned));
      var u := MonitorRestores(spec, s, i, seen);
      if u != s { AdvancesTransitive(s, t, u); }
    }
  }

  lemma RecordingKeeps(spec: Spec, s: Status)
    requires Consistent(spec, s) && spec.home != "" && At(s, ValidationCompleted)
    ensures var t := s.(createdNamespace := spec.home); Consistent(spec, t) && Advances(s, t)
  {
    KeepsRecordsReflexive(s.pvcRestores);
  }

  lemma PrepareNamespaceKeeps(spec: Spec, s: Status, i: Inputs)
    requires Consistent(spec, s) && spec.home != "" && At(s, ValidationCompleted)
    ensures Consistent(spec, PrepareNamespace(spec, s, i)) && Advances(s, PrepareNamespace(spec, s, i))
  {
    FailKeeps(spec, s, i);
    if i.namespaceOk && i.lands(RecordWrite) {
      var t := s.(createdNamespace := spec.home);
      RecordingKeeps(spec, s);
      StayingKeeps(t);
      FailKeeps(spec, t, i);
      WorkingKeeps(spec, t, NamespaceReady);
      AdvancesTransitive(s, t, PrepareNamespace(spec, s, i));
    }
  }

  lemma FinishedKeeps(spec: Spec, s: Status, url: string)
    requires Consistent(spec, s) && (At(s, CredentialsReady) || At(s, WaitingForRoute)) && (spec.external ==> url != "")
    ensures var t := Finished(s.(publicAccess := url)); Consistent(spec, t) && Advances(s, t)
  {
    KeepsRecordsReflexive(s.pvcRestores);
  }

  lemma WaitingKeeps(spec: Spec, s: Status)
    requires Consistent(spec, s) && At(s, CredentialsReady) && spec.external
    ensures var t := Set(s.(publicAccess := ""), InProgress, true, WaitingForRoute, true, false, false);
      Consistent(spec, t) && Advances(s, t)
  {
    KeepsRecordsReflexive(s.pvcRestores);
  }

  lemma StartingKeeps(spec: Spec, s: Status, i: Inputs)
    requires Consistent(spec, s) && At(s, CredentialsReady)
    ensures var t := StartFileServer(spec, s, i); Consistent(spec, t) && Advances(s, t)
  {
    StayingKeeps(s);
    FailKeeps(spec, s, i);
    var url := PublicAccess(spec, s, i.routeHost);
    if url != "" || !spec.external { FinishedKeeps(spec, s, url); } else { WaitingKeeps(spec, s); }
  }

  lemma AwaitingKeeps(spec: Spec, s: Status, i: Inputs)
    requires Consistent(spec, s) && At(s, WaitingForRoute)
    ensures var t := AwaitRoute(spec, s, i); Consistent(spec, t) && Advances(s, t)
  {
    StayingKeeps(s);
    var url := PublicAccess(spec, s, i.routeHost);
    if url != "" { FinishedKeeps(spec, s, url); }
  }

  lemma CredentialsKeep(spec: Spec, s: Status, i: Inputs)
    requires Consistent(spec, s) && At(s, RestoresCompleted)
    ensures var t := PrepareCredentials(s, i); Consistent(spec, t) && Advances(s, t)
  {
    StayingKeeps(s);
    FailKeeps(spec, s, i);
    WorkingKeeps(spec, s, CredentialsReady);
  }

  lemma StatusKeeps(spec: Spec, s: Status, i: Inputs, seen: Seen)
    requires Consistent(spec, s) && spec.home != "" && Unnamed(i.discovered) && Covers(s.pvcRestores, seen.created)
    ensures var t := ReconcileStatus(spec, s, i, seen); Consistent(spec, t) && Advances(s, t)
  {
    KeepsRecordsReflexive(s.pvcRestores);
    if s.phase.New? || s.phase.InProgress? {
      var r := s.progressing.value.reason;
      if !InWorkflow(r) {
        ValidateKeeps(spec, s, i);
      } else if r.ValidationCompleted? {
        PrepareNamespaceKeeps(spec, s, i);
      } else if r.NamespaceReady? {
        CreateRestoresKeeps(spec, s, i, seen);
      } else if r.WaitingForRestores? {
        MonitorKeeps(spec, s, i, seen);
      } else if r.RestoresCompleted? {
        CredentialsKeep(spec, s, i);
      } else if r.CredentialsReady? {
        StartingKeeps(spec, s, i);
      } else if r.WaitingForRoute? {
        AwaitingKeeps(spec, s, i);
      }
    }
  }

  // ----- The discovered list carries no names yet

  lemma {:induction false} AddPVCsUnnamed(m: map<string, PVCRestore>, info: RestoreInfo, pvcs: seq<PVC>)
    requires info.restoreName == "" && (forall uid :: uid in m ==> Unnamed([m[uid]]))
    ensures forall uid :: uid in AddPVCs(m, info, pvcs) ==> Unnamed([AddPVCs(m, info, pvcs)[uid]])
  {
    if pvcs != [] {
      var n := |pvcs| - 1;
      AddPVCsUnnamed(m, info, pvcs[..n]);
      var before := AddPVCs(m, info, pvcs[..n]);
      forall uid | uid in AddPVC(before, info, pvcs[n]) ensures Unnamed([AddPVC(before, info, pvcs[n])[uid]]) {
        if uid in before { assert Unnamed([before[uid]]); assert [before[uid]][0] == before[uid]; }
      }
    }
  }

  lemma {:induction false} GroupUnnamed(results: seq<DiscoveryResult>)
    ensures forall uid :: uid in Group(results) ==> Unnamed([Group(results)[uid]])
  {
    if results != [] {
      var n := |results| - 1;
      GroupUnnamed(results[..n]);
      var r := results[n];
      if StateOf(r).Some? && !IsBackupFailure(r) {
        AddPVCsUnnamed(Group(results[..n]), InfoOf(r, StateOf(r).value), r.pvcs);
      }
    }
  }

  lemma DiscoveredAreUnnamed(results: seq<DiscoveryResult>, order: seq<string>, stored: seq<PVCRestore>)
    requires StoredFrom(results, order, stored)
    ensures Unnamed(stored)
  {
    GroupUnnamed(results);
    forall k, j | 0 <= k < |stored| && 0 <= j < |stored[k].restores| ensures stored[k].restores[j].restoreName == "" {
      var group := Group(results)[order[k]];
      assert Unnamed([group]) && [group][0] == group;
      assert stored[k].restores[j] in multiset(group.restores);
      var m :| 0 <= m < |group.restores| && group.restores[m] == stored[k].restores[j];
    }
  }

  // ----- Answers

  /** The workflow has come to its end, other than by a failed check or call. */
  predicate Concluded(s: Status) {
    Terminal(s.phase) && s.progressing.Some? && !s.progressing.value.reason.ValidationFailed?
    && !s.progressing.value.reason.PartialValidationFailed?
  }

  lemma ValidateAnswers(spec: Spec, s: Status, i: Inputs)
    requires Consistent(spec, s) && (s.phase.New? || s.phase.InProgress?) && !InWorkflow(s.progressing.value.reason)
    ensures !ValidateAnswer(s, i).Done? && !Concluded(Validate(s, i))
    ensures ValidateAnswer(s, i).Requeue? ==>
      At(Validate(s, i), ValidationCompleted) || At(Validate(s, i), WaitingForDiscovery)
  {
  }

  lemma MonitorAnswers(spec: Spec, s: Status, i: Inputs, seen: Seen)
    requires At(s, WaitingForRestores)
    ensures MonitorAnswer(spec, s, i, seen).Done? <==> Concluded(MonitorRestores(spec, s, i, seen))
    ensures MonitorAnswer(spec, s, i, seen).Requeue? ==> MonitorRestores(spec, s, i, seen).phase.InProgress?
  {
  }

  lemma WorkAnswers(spec: Spec, s: Status, i: Inputs, seen: Seen, r: Reason)
    requires At(s, r) && InWorkflow(r) && !r.WaitingForRestores? && !r.DiscoveringPVCs?
    ensures ExecuteAnswer(spec, s, i, seen, r).Done? <==> Concluded(Execute(spec, s, i, seen, r))
    ensures ExecuteAnswer(spec, s, i, seen, r).Requeue? ==> Execute(spec, s, i, seen, r).phase.InProgress?
  {
  }

  /**
   * A reconcile is done without asking for another one exactly when the status was terminal, the workflow has just
   * concluded, or the reason is DiscoveringPVCs; and it asks for another one at once only while work is left.
   */
  lemma DoneExactlyAtTheEnd(spec: Spec, s: Status, i: Inputs, seen: Seen)
    requires Consistent(spec, s) && !i.deleting
    ensures var t, answer := ReconcileStatus(spec, s, i, seen), AnswerTo(spec, s, i, seen);
      && (answer.Done? <==> Terminal(s.phase) || At(s, DiscoveringPVCs) || Concluded(t))
      && (answer.Requeue? ==> !Terminal(t.phase))
  {
    if s.phase.New? || s.phase.InProgress? {
      var r := s.progressing.value.reason;
      if !InWorkflow(r) {
        ValidateAnswers(spec, s, i);
      } else if r.WaitingForRestores? {
        MonitorAnswers(spec, s, i, seen);
      } else if !r.DiscoveringPVCs? {
        WorkAnswers(spec, s, i, seen, r);
      }
    }
  }
}
