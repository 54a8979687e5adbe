/** What the runs of the workflow mount: everything available, exactly when no named Restore went missing. */
module WorkflowMounts {
  import opened Collections
  import opened RestoreModel
  import opened Regroup
  import opened VeleroRestores
  import opened Monitoring
  import opened RestoreProgress
  import opened Pipeline
  import opened WorkflowModel
  import opened Workflow
  import opened WorkflowRuns
  import opened RestoreRecords

  // ----- Mounts and available pairs

  ghost predicate EveryIn(restores: seq<RestoreInfo>, p: RestoreInfo -> bool) {
    forall j :: 0 <= j < |restores| && IsAvailable(restores[j]) ==> p(restores[j])
  }

  lemma {:induction false} FewerAreMountable(restores: seq<RestoreInfo>)
    ensures |Filter(restores, IsMountable)| <= |Filter(restores, IsAvailable)|
    ensures |Filter(restores, IsMountable)| == |Filter(restores, IsAvailable)| <==> EveryIn(restores, IsMountable)
  {
    if restores != [] {
      var n := |restores| - 1;
      FewerAreMountable(restores[..n]);
      assert EveryIn(restores, IsMountable) <==>
        EveryIn(restores[..n], IsMountable) && (IsAvailable(restores[n]) ==> IsMountable(restores[n]));
    }
  }

  lemma EntryMountsExactly(e: PVCRestore)
    ensures |MountsOf(e)| <= |AvailableOf(e)|
    ensures MountsOf(e) == AvailableOf(e) <==> |MountsOf(e)| == |AvailableOf(e)|
    ensures MountsOf(e) == AvailableOf(e) <==> IsSynthetic(e) || EveryIn(e.restores, IsMountable)
  {
    FewerAreMountable(e.restores);
    if EveryIn(e.restores, IsMountable) { FilterCong(e.restores, IsMountable, IsAvailable); }
  }

  lemma EveryStep(stored: seq<PVCRestore>, p: RestoreInfo -> bool)
    requires stored != []
    ensures var n := |stored| - 1;
      Every(stored, p) <==> Every(stored[..n], p) && (IsSynthetic(stored[n]) || EveryIn(stored[n].restores, p))
  {
    var n := |stored| - 1;
    if Every(stored[..n], p) && (IsSynthetic(stored[n]) || EveryIn(stored[n].restores, p)) {
      forall k, j | 0 <= k < |stored| && !IsSynthetic(stored[k]) && 0 <= j < |stored[k].restores|
        ensures IsAvailable(stored[k].restores[j]) ==> p(stored[k].restores[j])
      {
        assert k < n ==> stored[..n][k] == stored[k];
      }
    }
  }

  lemma {:induction false} FewerAreMounted(stored: seq<PVCRestore>)
    ensures |Mounts(stored)| <= |AvailablePairs(stored)|
    ensures Mounts(stored) == AvailablePairs(stored) <==> |Mounts(stored)| == |AvailablePairs(stored)|
    ensures Mounts(stored) == AvailablePairs(stored) <==> Every(stored, IsMountable)
  {
    if stored != [] {
      var n := |stored| - 1;
      FewerAreMounted(stored[..n]);
      EntryMountsExactly(stored[n]);
      EveryStep(stored, IsMountable);
    }
  }

  // ----- Over whole runs

  /**
   * In every run, once the Restores are done and succeeded, every available (PVC, backup) pair is mounted except
   * those whose Restore somebody else removed; so if nobody did, there is exactly one mount per pair.
   */
  lemma EveryRunMountsWhatIsLeft(spec: Spec, events: seq<Event>)
    requires ValidRun(spec, events) && Serving(Run(spec, events).status)
    ensures var c := Run(spec, events);
      && Every(c.status.pvcRestores, MountedUnless(c.removed))
      && (c.removed == {} ==> Mounts(c.status.pvcRestores) == AvailablePairs(c.status.pvcRestores))
  {
    EveryRunIsWhole(spec, events);
    FewerAreMounted(Run(spec, events).status.pvcRestores);
  }

  lemma {:induction false} SameAvailablePairs(a: seq<PVCRestore>, b: seq<PVCRestore>, uid: string, backup: string)
    requires SameShapes(a, b)
    ensures Pairs(AvailablePairs(a))[(uid, backup)] == Pairs(AvailablePairs(b))[(uid, backup)]
  {
    AvailablePairsAreSelected(a, uid, backup);
    AvailablePairsAreSelected(b, uid, backup);
    SameSelection(a, b, backup);
  }

  /**
   * From discovery to mounts in one run: if validation stored what the discovery results give and nobody removed a
   * Restore, a (PVC, backup) pair is in the end mounted exactly as often as the discovery found it.
   */
  lemma RunMountsTheDiscoveries(spec: Spec, events: seq<Event>, n: nat, results: seq<DiscoveryResult>,
                                order: seq<string>,
                                uid: string, backup: string)
    requires ValidRun(spec, events) && n <= |events|
    requires At(Run(spec, events[..n]).status, ValidationCompleted)
    requires StoredFrom(results, order, Run(spec, events[..n]).status.pvcRestores)
    requires Serving(Run(spec, events).status) && Run(spec, events).removed == {}
    ensures Pairs(Mounts(Run(spec, events).status.pvcRestores))[(uid, backup)] ==
      if Hidden(results, uid) then 0 else CountUID(Discovered(results, backup), uid)
  {
    var stored, final := Run(spec, events[..n]).status.pvcRestores, Run(spec, events).status.pvcRestores;
    RunsOnlyMoveForward(spec, events, n);
    EveryRunMountsWhatIsLeft(spec, events);
    SameAvailablePairs(stored, final, uid, backup);
    AvailablePairsAreSelected(stored, uid, backup);
    RegroupingIsInverse(results, order, stored, backup, uid);
  }

  /** A real PVC among the stored ones is one that the results list, under the name of its first listing. */
  lemma RealEntry(results: seq<DiscoveryResult>, order: seq<string>, stored: seq<PVCRestore>, k: nat)
    requires StoredFrom(results, order, stored) && k < |stored| && !IsSynthetic(stored[k])
    ensures RealUID(results, stored[k].pvc.uid) && FirstListing(results, stored[k].pvc.uid) == Some(stored[k].pvc)
  {
    var uid := stored[k].pvc.uid;
    StoredOnceFrom(results, order, stored);
    HiddenExactly(results, uid);
    NamedAfterFirstListing(results, uid);
  }

  /** The mount is of a PVC that a complete backup lists, with that backup's name and time. */
  predicate MountOfResult(m: Mount, results: seq<DiscoveryResult>) {
    && FirstListing(results, m.pvcUID).Some? && m.pvcName == FirstListing(results, m.pvcUID).value.name
    && exists a :: 0 <= a < |results| && results[a].status.Completed? && Lists(results[a], m.pvcUID)
                   && m.backup == results[a].backup && m.timestamp == results[a].createdAt
  }

  /** Every mount of a run names a PVC, a backup and a time as the discovery results have them. */
  lemma RunMountsRepeatTheResults(spec: Spec, events: seq<Event>, n: nat, results: seq<DiscoveryResult>,
                                  order: seq<string>,
                                  m: Mount)
    requires ValidRun(spec, events) && n <= |events|
    requires At(Run(spec, events[..n]).status, ValidationCompleted)
    requires StoredFrom(results, order, Run(spec, events[..n]).status.pvcRestores)
    requires m in Mounts(Run(spec, events).status.pvcRestores)
    ensures MountOfResult(m, results)
  {
    var stored, final := Run(spec, events[..n]).status.pvcRestores, Run(spec, events).status.pvcRestores;
    RunsOnlyMoveForward(spec, events, n);
    MountsComeFromRecords(final, m);
    var k, j :| 0 <= k < |final| && !IsSynthetic(final[k]) && 0 <= j < |final[k].restores|
                && final[k].restores[j].state == Available && MountRepeats(m, final[k], final[k].restores[j]);
    assert SameShape(stored[k], final[k]);
    RecordGivesMount(results, order, stored, k, j, m);
  }

  lemma RecordGivesMount(results: seq<DiscoveryResult>, order: seq<string>, stored: seq<PVCRestore>, k: nat, j: nat,
                         m: Mount)
    requires StoredFrom(results, order, stored) && k < |stored| && !IsSynthetic(stored[k]) && j < |stored[k].restores|
    requires stored[k].restores[j].state == Available
    requires m.pvcName == stored[k].pvc.name && m.pvcUID == stored[k].pvc.uid
    requires m.backup == stored[k].restores[j].backup && m.timestamp == stored[k].restores[j].timestamp
    ensures MountOfResult(m, results)
  {
    RealEntry(results, order, stored, k);
    RecordsComeFromResults(results, order, stored, k, j);
    var a :| 0 <= a < |results| && (results[a].status.Completed? || results[a].status.Failed?)
             && Lists(results[a], m.pvcUID) && RecordOf(stored[k].restores[j], results[a]);
    assert results[a].status.Completed?;
  }

  // ----- The exact condition of one step

  /**
   * A step to RestoresCompleted mounts every available pair if and only if every available record names a Restore
   * that is still listed, or was mountable already: a Restore somebody else removed in time goes unnoticed.
   */
  lemma MovingOnMountsExactly(spec: Spec, c: Cluster, i: Inputs)
    requires Whole(spec, c) && At(c.status, WaitingForRestores)
    ensures var after := Reconcile(spec, c, i).status;
      At(after, RestoresCompleted) ==>
        (Mounts(after.pvcRestores) == AvailablePairs(after.pvcRestores) <==>
           Every(c.status.pvcRestores, (x: RestoreInfo) => Listed(x, c.restores) || IsMountable(x)))
  {
    var s, seen := c.status, SeenBy(spec, c, i);
    if At(Reconcile(spec, c, i).status, RestoresCompleted) {
      MovingOnMeans(spec, s, i, seen);
      FewerAreMounted(FollowStored(s.pvcRestores, c.restores, spec.oadpNamespace));
      FollowedEvery(s.pvcRestores, c.restores, spec.oadpNamespace);
    }
  }

  lemma FollowedEvery(stored: seq<PVCRestore>, restores: seq<VeleroRestore>, namespace: string)
    requires NamesApart(restores) && AllRestoresNamed(stored)
    requires forall k :: 0 <= k < |restores| ==> CountsAsCompleted(restores[k].phase)
    ensures Every(FollowStored(stored, restores, namespace), IsMountable) <==>
      Every(stored, (x: RestoreInfo) => Listed(x, restores) || IsMountable(x))
  {
    var after := FollowStored(stored, restores, namespace);
    forall k, j | 0 <= k < |stored| && !IsSynthetic(stored[k]) && 0 <= j < |stored[k].restores|
      ensures IsAvailable(after[k].restores[j]) <==> IsAvailable(stored[k].restores[j])
      ensures IsAvailable(stored[k].restores[j]) ==>
        (IsMountable(after[k].restores[j]) <==>
            Listed(stored[k].restores[j], restores) || IsMountable(stored[k].restores[j]))
    {
      var x := stored[k].restores[j];
      FollowNamed(x, restores, namespace);
      if IsAvailable(x) {
        assert InfosNamed(stored[k]);
        FollowedMounts(x, restores, namespace);
      }
    }
  }
}
