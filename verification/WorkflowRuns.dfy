/**
 * Whole runs of the file-restore workflow with its Restores: the status stays consistent and only moves forward,
 * and once the Restores are done everything available is mounted, up to Restores that somebody else removed.
 */
module WorkflowRuns {
  import opened Collections
  import opened RestoreModel
  import opened Regroup
  import opened VeleroRestores
  import opened Monitoring
  import opened RestoreProgress
  import opened Pipeline
  import opened WorkflowModel
  import opened Workflow

  // ----- Records and Restores

  /** Every available record of a real PVC satisfies the predicate. */
  ghost predicate Every(stored: seq<PVCRestore>, p: RestoreInfo -> bool) {
    forall k, j :: 0 <= k < |stored| && !IsSynthetic(stored[k]) && 0 <= j < |stored[k].restores| ==>
      IsAvailable(stored[k].restores[j]) ==> p(stored[k].restores[j])
  }

  /** One of the Restores is the one the record names. */
  predicate Listed(x: RestoreInfo, restores: seq<VeleroRestore>) {
    exists k :: 0 <= k < |restores| && restores[k].name == x.restoreName && restores[k].backup == x.backup
  }

  /** A record that has a name names a Restore that is there or was removed. */
  function Known(restores: seq<VeleroRestore>, removed: set<string>): RestoreInfo -> bool {
    (x: RestoreInfo) => x.restoreName == "" || Listed(x, restores) || x.restoreName in removed
  }

  function MountedUnless(removed: set<string>): RestoreInfo -> bool {
    (x: RestoreInfo) => IsMountable(x) || x.restoreName in removed
  }

  /** The Restores are done and succeeded. */
  predicate Serving(s: Status) {
    s.progressing.Some? && var r := s.progressing.value.reason;
    r.RestoresCompleted? || r.CredentialsReady? || r.WaitingForRoute? || r.FileServerCreated?
  }

  predicate Restoring(s: Status) { s.progressing.Some? && Rank(s.progressing.value.reason) <= Rank(WaitingForRestores) }

  ghost predicate RestoresSound(spec: Spec, c: Cluster) {
    NamesApart(c.restores) && forall k :: 0 <= k < |c.restores| ==> c.restores[k].owner == spec.uid
  }

  ghost predicate RecordsSound(c: Cluster) {
    && (Restoring(c.status) ==> Every(c.status.pvcRestores, Known(c.restores, c.removed)))
    && (Serving(c.status) ==> Every(c.status.pvcRestores, MountedUnless(c.removed)))
  }

  ghost predicate Whole(spec: Spec, c: Cluster) {
    spec.home != "" && Consistent(spec, c.status) && RestoresSound(spec, c) && RecordsSound(c)
  }

  // ----- What creation leaves

  lemma CreationFacts(spec: Spec, c: Cluster, i: Inputs)
    requires RestoresSound(spec, c) && ValidInputs(c, i)
    ensures var d := CreationOf(spec, c, i);
      && RestoresSound(spec, c.(restores := d.restores)) && c.restores <= d.restores
      && Covers(c.status.pvcRestores, d.names)
      && (d.names.Some? ==> AllNamed(d.restores, spec.uid, d.names.value))
  {
    if Creates(c, i) {
      var stored := c.status.pvcRestores;
      var groups := GroupsOf(stored);
      assert Callable(groups, i.order, i.outcomes);
      CreateGrows(c.restores, spec.uid, groups, i.order, i.outcomes);
      CreateNames(c.restores, spec.uid, groups, i.order, i.outcomes);
      CreateKeepsNamesApart(c.restores, spec.uid, groups, i.order, i.outcomes);
      GroupsAreUnique(stored, groups);
      var d := CreationOf(spec, c, i);
      if d.names.Some? { NamesAreGiven(d.restores, spec.uid, d.names.value); }
    }
  }

  lemma NamesAreGiven(restores: seq<VeleroRestore>, owner: string, names: map<string, string>)
    requires NamesApart(restores) && AllNamed(restores, owner, names)
    ensures forall b :: b in names ==> names[b] != ""
  {
    forall b | b in names ensures names[b] != "" {
      assert NamesRestore(restores, owner, b, names[b]);
    }
  }

  // ----- Records through one reconcile

  lemma KnownGrows(stored: seq<PVCRestore>, before: seq<VeleroRestore>, after: seq<VeleroRestore>, removed: set<string>)
    requires before <= after && Every(stored, Known(before, removed))
    ensures Every(stored, Known(after, removed))
  {
    forall k, j | 0 <= k < |stored| && !IsSynthetic(stored[k]) && 0 <= j < |stored[k].restores|
      ensures IsAvailable(stored[k].restores[j]) ==> Known(after, removed)(stored[k].restores[j])
    {
      ListedGrows(stored[k].restores[j], before, after);
    }
  }

  lemma ListedGrows(x: RestoreInfo, before: seq<VeleroRestore>, after: seq<VeleroRestore>)
    requires before <= after
    ensures Listed(x, before) ==> Listed(x, after)
  {
    if Listed(x, before) {
      var k :| 0 <= k < |before| && before[k].name == x.restoreName && before[k].backup == x.backup;
      assert after[k] == before[k];
    }
  }

  /** Records named after a creation name its Restores. */
  lemma NamedAreKnown(stored: seq<PVCRestore>, restores: seq<VeleroRestore>, owner: string, names: map<string, string>,
                      namespace: string, removed: set<string>)
    requires AllNamed(restores, owner, names) && Covers(stored, Some(names))
    ensures Every(Named(stored, names, namespace), Known(restores, removed))
  {
    var after := Named(stored, names, namespace);
    forall k, j | 0 <= k < |after| && !IsSynthetic(after[k]) && 0 <= j < |after[k].restores|
      ensures IsAvailable(after[k].restores[j]) ==> Known(restores, removed)(after[k].restores[j])
    {
      var x := stored[k].restores[j];
      if IsAvailable(x) {
        AvailableIsGrouped(stored, k, j);
        assert NamesRestore(restores, owner, x.backup, names[x.backup]);
        assert Listed(after[k].restores[j], restores);
      }
    }
  }

  lemma FollowedAreKnown(stored: seq<PVCRestore>, restores: seq<VeleroRestore>, namespace: string, removed: set<string>)
    requires Every(stored, Known(restores, removed)) && AllRestoresNamed(stored)
    ensures Every(FollowStored(stored, restores, namespace), Known(restores, removed))
  {
    var after := FollowStored(stored, restores, namespace);
    forall k, j | 0 <= k < |after| && !IsSynthetic(after[k]) && 0 <= j < |after[k].restores|
      ensures IsAvailable(after[k].restores[j]) ==> Known(restores, removed)(after[k].restores[j])
    {
      var x := stored[k].restores[j];
      FollowNamed(x, restores, namespace);
      assert InfosNamed(stored[k]);
    }
  }

  /** When all Restores have completed, what a pass leaves unmounted is not listed and was not mounted before. */
  lemma FollowedMounts(x: RestoreInfo, restores: seq<VeleroRestore>, namespace: string)
    requires NamesApart(restores) && x.restoreName != "" && IsAvailable(x)
    requires forall k :: 0 <= k < |restores| ==> CountsAsCompleted(restores[k].phase)
    ensures IsMountable(FollowAll(x, restores, namespace)) <==> Listed(x, restores) || IsMountable(x)
  {
    FollowNamed(x, restores, namespace);
    if Listed(x, restores) {
      var k :| 0 <= k < |restores| && restores[k].name == x.restoreName && restores[k].backup == x.backup;
      FollowsItsRestore(x, restores, namespace, k);
    } else {
      UnlistedStays(x, restores, namespace);
    }
  }

  lemma {:induction false} UnlistedStays(x: RestoreInfo, restores: seq<VeleroRestore>, namespace: string)
    requires x.restoreName != "" && !Listed(x, restores)
    ensures FollowAll(x, restores, namespace) == x
  {
    if restores != [] {
      var n := |restores| - 1;
      ListedGrows(x, restores[..n], restores);
      UnlistedStays(x, restores[..n], namespace);
      assert restores[n].name != x.restoreName || restores[n].backup != x.backup;
    }
  }

  lemma CompletedPassMounts(stored: seq<PVCRestore>, restores: seq<VeleroRestore>, namespace: string,
                            removed: set<string>)
    requires NamesApart(restores) && AllRestoresNamed(stored) && Every(stored, Known(restores, removed))
    requires forall k :: 0 <= k < |restores| ==> CountsAsCompleted(restores[k].phase)
    ensures Every(FollowStored(stored, restores, namespace), MountedUnless(removed))
  {
    var after := FollowStored(stored, restores, namespace);
    forall k, j | 0 <= k < |after| && !IsSynthetic(after[k]) && 0 <= j < |after[k].restores|
      ensures IsAvailable(after[k].restores[j]) ==> MountedUnless(removed)(after[k].restores[j])
    {
      var x := stored[k].restores[j];
      FollowNamed(x, restores, namespace);
      if IsAvailable(x) {
        assert InfosNamed(stored[k]);
        FollowedMounts(x, restores, namespace);
      }
    }
  }

  // ----- Records through each step

  lemma UnnamedAreKnown(stored: seq<PVCRestore>, restores: seq<VeleroRestore>, removed: set<string>)
    requires Unnamed(stored)
    ensures Every(stored, Known(restores, removed))
  {
  }

  lemma ValidateRecords(s: Status, i: Inputs)
    requires ConditionsMatch(s) && !InWorkflow(s.progressing.value.reason) && !Terminal(s.phase)
    ensures var t := Validate(s, i); !Serving(t) && (t.pvcRestores == s.pvcRestores || t.pvcRestores == i.discovered)
  {
  }

  lemma NamespaceRecords(spec: Spec, s: Status, i: Inputs)
    requires At(s, ValidationCompleted)
    ensures var t := PrepareNamespace(spec, s, i); !Serving(t) && t.pvcRestores == s.pvcRestores
  {
  }

  lemma CreatedRecords(spec: Spec, s: Status, i: Inputs, seen: Seen)
    requires At(s, NamespaceReady)
    ensures var t := CreateRestores(spec, s, i, seen);
      && !Serving(t)
      && (t.pvcRestores == s.pvcRestores
          || (seen.created.Some? && t.pvcRestores == Named(s.pvcRestores, seen.created.value, spec.oadpNamespace)))
  {
  }

  lemma CreationRecords(spec: Spec, c: Cluster, i: Inputs)
    requires RestoresSound(spec, c) && RecordsSound(c) && ValidInputs(c, i) && At(c.status, NamespaceReady)
    ensures var t := CreateRestores(spec, c.status, i, SeenBy(spec, c, i));
      !Serving(t) && Every(t.pvcRestores, Known(CreationOf(spec, c, i).restores, c.removed))
  {
    var stored, d := c.status.pvcRestores, CreationOf(spec, c, i);
    CreatedRecords(spec, c.status, i, SeenBy(spec, c, i));
    CreationFacts(spec, c, i);
    KnownGrows(stored, c.restores, d.restores, c.removed);
    if d.names.Some? { NamedAreKnown(stored, d.restores, spec.uid, d.names.value, spec.oadpNamespace, c.removed); }
  }

  /** Moving on to RestoresCompleted takes a listing in which every Restore has completed. */
  lemma MovingOnMeans(spec: Spec, s: Status, i: Inputs, seen: Seen)
    requires At(s, WaitingForRestores) && Serving(MonitorRestores(spec, s, i, seen))
    ensures seen.owned.Some? && (forall k :: 0 <= k < |seen.owned.value| ==>
      CountsAsCompleted(seen.owned.value[k].phase))
    ensures MonitorRestores(spec, s, i, seen).pvcRestores ==
            FollowStored(s.pvcRestores, seen.owned.value, spec.oadpNamespace)
  {
    AllCompletedFromCounts(seen.owned.value);
  }

  lemma MonitoringRecords(spec: Spec, c: Cluster, i: Inputs)
    requires Whole(spec, c) && At(c.status, WaitingForRestores)
    ensures var t := MonitorRestores(spec, c.status, i, SeenBy(spec, c, i)); RecordsSound(c.(status := t))
  {
    var s, seen := c.status, SeenBy(spec, c, i);
    FollowedAreKnown(s.pvcRestores, c.restores, spec.oadpNamespace, c.removed);
    if Serving(MonitorRestores(spec, s, i, seen)) {
      MovingOnMeans(spec, s, i, seen);
      CompletedPassMounts(s.pvcRestores, c.restores, spec.oadpNamespace, c.removed);
    }
  }

  lemma ServingRecords(spec: Spec, s: Status, i: Inputs, seen: Seen)
    requires At(s, RestoresCompleted) || At(s, CredentialsReady) || At(s, WaitingForRoute)
    ensures var t := Execute(spec, s, i, seen, s.progressing.value.reason);
      !Restoring(t) && t.pvcRestores == s.pvcRestores
  {
  }

  lemma ValidationKeepsRecords(spec: Spec, c: Cluster, i: Inputs)
    requires Whole(spec, c) && ValidInputs(c, i)
    requires !Terminal(c.status.phase) && !c.status.phase.Unset? && !AtWork(c.status)
    ensures RecordsSound(c.(status := Validate(c.status, i)))
  {
    ValidateRecords(c.status, i);
    UnnamedAreKnown(i.discovered, c.restores, c.removed);
  }

  /** Outside the creation step no Restore is created. */
  lemma OnlyCreationCreates(spec: Spec, c: Cluster, i: Inputs)
    requires !At(c.status, NamespaceReady) && Consistent(spec, c.status)
    ensures CreationOf(spec, c, i).restores == c.restores
  {
  }

  lemma ReconcileKeepsRecords(spec: Spec, c: Cluster, i: Inputs)
    requires Whole(spec, c) && ValidInputs(c, i)
    ensures RecordsSound(Reconcile(spec, c, i))
  {
    var s := c.status;
    if !At(s, NamespaceReady) { OnlyCreationCreates(spec, c, i); }
    if i.deleting || Terminal(s.phase) || s.phase.Unset? {
      assert s.phase.Unset? ==> s.pvcRestores == [];
    } else if !AtWork(s) {
      ValidationKeepsRecords(spec, c, i);
    } else if At(s, ValidationCompleted) {
      NamespaceRecords(spec, s, i);
    } else if At(s, NamespaceReady) {
      CreationRecords(spec, c, i);
    } else if At(s, WaitingForRestores) {
      MonitoringRecords(spec, c, i);
    } else if !At(s, DiscoveringPVCs) {
      ServingRecords(spec, s, i, SeenBy(spec, c, i));
    }
  }

  // ----- Whole runs

  lemma ReconcileKeeps(spec: Spec, c: Cluster, i: Inputs)
    requires Whole(spec, c) && ValidInputs(c, i)
    ensures Whole(spec, Reconcile(spec, c, i)) && Advances(c.status, Reconcile(spec, c, i).status)
  {
    CreationFacts(spec, c, i);
    StatusKeeps(spec, c.status, i, SeenBy(spec, c, i));
    ReconcileKeepsRecords(spec, c, i);
  }

  lemma KnownAfter(stored: seq<PVCRestore>, before: seq<VeleroRestore>, after: seq<VeleroRestore>,
                   removed: set<string>, removed': set<string>)
    requires Every(stored, Known(before, removed)) && removed <= removed'
    requires forall v :: v in before ==> v.name in removed' || exists k :: 0 <= k < |after| && SameRestore(v, after[k])
    ensures Every(stored, Known(after, removed'))
  {
    forall k, j | 0 <= k < |stored| && !IsSynthetic(stored[k]) && 0 <= j < |stored[k].restores|
      ensures IsAvailable(stored[k].restores[j]) ==> Known(after, removed')(stored[k].restores[j])
    {
      var x := stored[k].restores[j];
      if IsAvailable(x) && x.restoreName != "" && x.restoreName !in removed {
        assert Known(before, removed)(x);
        var n :| 0 <= n < |before| && before[n].name == x.restoreName && before[n].backup == x.backup;
        assert before[n] in before;
      }
    }
  }

  predicate SameRestore(v: VeleroRestore,
                        w: VeleroRestore) { v.name == w.name && v.owner == w.owner && v.backup == w.backup }

  lemma VeleroKeeps(spec: Spec, c: Cluster, k: nat, phase: RestorePhase)
    requires Whole(spec, c) && k < |c.restores|
    ensures Whole(spec, Happen(spec, c, VeleroMoves(k, phase)))
  {
    var after := c.restores[k := c.restores[k].(phase := phase)];
    assert Map(after, RestoreNameOf) == Map(c.restores, RestoreNameOf);
    forall v | v in c.restores ensures exists n :: 0 <= n < |after| && SameRestore(v, after[n]) {
      var n :| 0 <= n < |c.restores| && c.restores[n] == v;
      assert SameRestore(v, after[n]);
    }
    if Restoring(c.status) { KnownAfter(c.status.pvcRestores, c.restores, after, c.removed, c.removed); }
  }

  lemma RemovalKeepsNames(restores: seq<VeleroRestore>, k: nat)
    requires NamesApart(restores) && k < |restores|
    ensures NamesApart(restores[..k] + restores[k + 1..])
  {
    var names, after := Map(restores, RestoreNameOf), restores[..k] + restores[k + 1..];
    forall i, j | 0 <= i < j < |after| ensures Map(after, RestoreNameOf)[i] != Map(after, RestoreNameOf)[j] {
      var i', j' := if i < k then i else i + 1, if j < k then j else j + 1;
      assert names[i'] != names[j'];
    }
  }

  lemma RemovalKeeps(spec: Spec, c: Cluster, k: nat)
    requires Whole(spec, c) && k < |c.restores|
    ensures Whole(spec, Happen(spec, c, RestoreRemoved(k)))
  {
    var after, gone := c.restores[..k] + c.restores[k + 1..], c.restores[k].name;
    RemovalKeepsNames(c.restores, k);
    forall v | v in c.restores
      ensures v.name in c.removed + {gone} || exists n :: 0 <= n < |after| && SameRestore(v, after[n])
    {
      var n :| 0 <= n < |c.restores| && c.restores[n] == v;
      if n != k { assert SameRestore(v, after[if n < k then n else n - 1]); }
    }
    if Restoring(c.status) { KnownAfter(c.status.pvcRestores, c.restores, after, c.removed, c.removed + {gone}); }
    if Serving(c.status) { StillMounted(c.status.pvcRestores, c.removed, c.removed + {gone}); }
  }

  lemma StillMounted(stored: seq<PVCRestore>, removed: set<string>, removed': set<string>)
    requires Every(stored, MountedUnless(removed)) && removed <= removed'
    ensures Every(stored, MountedUnless(removed'))
  {
    forall k, j | 0 <= k < |stored| && !IsSynthetic(stored[k]) && 0 <= j < |stored[k].restores|
      ensures IsAvailable(stored[k].restores[j]) ==> MountedUnless(removed')(stored[k].restores[j])
    {
      assert IsAvailable(stored[k].restores[j]) ==> MountedUnless(removed)(stored[k].restores[j]);
    }
  }

  lemma EventKeeps(spec: Spec, c: Cluster, e: Event)
    requires Whole(spec, c) && (e.Reconciled? ==> ValidInputs(c, e.i))
    ensures Whole(spec, Happen(spec, c, e)) && Advances(c.status, Happen(spec, c, e).status)
  {
    StayingKeeps(c.status);
    match e
    case Reconciled(i) => ReconcileKeeps(spec, c, i);
    case VeleroMoves(k, phase) => if k < |c.restores| { VeleroKeeps(spec, c, k, phase); }
    case RestoreRemoved(k) => if k < |c.restores| { RemovalKeeps(spec, c, k); }
  }

  lemma ValidPrefix(spec: Spec, events: seq<Event>, n: nat)
    requires ValidRun(spec, events) && n <= |events|
    ensures ValidRun(spec, events[..n])
  {
    forall m | 0 <= m < n && events[..n][m].Reconciled?
      ensures ValidInputs(Run(spec, events[..n][..m]), events[..n][m].i)
    {
      assert events[..n][..m] == events[..m];
    }
  }

  lemma {:induction false} EveryRunIsWhole(spec: Spec, events: seq<Event>)
    requires ValidRun(spec, events)
    ensures Whole(spec, Run(spec, events))
  {
    if events != [] {
      var n := |events| - 1;
      ValidPrefix(spec, events, n);
      EveryRunIsWhole(spec, events[..n]);
      EventKeeps(spec, Run(spec, events[..n]), events[n]);
    }
  }

  /** The conditions, the namespace, the records and the public URL agree with the phase and reason in every run. */
  lemma EveryRunIsConsistent(spec: Spec, events: seq<Event>)
    requires ValidRun(spec, events)
    ensures Consistent(spec, Run(spec, events).status)
  {
    EveryRunIsWhole(spec, events);
  }

  /** From any point of a run to any later point the workflow has only moved forward. */
  lemma {:induction false} RunsOnlyMoveForward(spec: Spec, events: seq<Event>, n: nat)
    requires ValidRun(spec, events) && n <= |events|
    ensures Advances(Run(spec, events[..n]).status, Run(spec, events).status)
  {
    if n == |events| {
      assert events[..n] == events;
      StayingKeeps(Run(spec, events).status);
    } else {
      var m := |events| - 1;
      ValidPrefix(spec, events, m);
      assert events[..m][..n] == events[..n];
      RunsOnlyMoveForward(spec, events[..m], n);
      EveryRunIsWhole(spec, events[..m]);
      EventKeeps(spec, Run(spec, events[..m]), events[m]);
      AdvancesTransitive(Run(spec, events[..n]).status, Run(spec, events[..m]).status, Run(spec, events).status);
    }
  }
}
