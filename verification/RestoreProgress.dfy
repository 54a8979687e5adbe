/**
 * Watching the Velero Restores and mounting what they restored: a monitoring pass makes every
 * recorded restore follow the Restore it names, and when all Restores have completed every
 * available (PVC, backup) pair is mounted exactly once.
 */
module RestoreProgress {
  import opened Collections
  import opened RestoreModel
  import opened VeleroRestores
  import opened Monitoring

  // ----- One monitoring pass

  predicate CountsAsCompleted(p: RestorePhase) {
    p == RPCompleted || p == RPFinalizing || p == RPFinalizingPartiallyFailed
  }

  predicate CountsAsFailed(p: RestorePhase) {
    p == RPFailed || p == RPPartiallyFailed || p == RPFailedValidation
  }

  /** The phase recorded for a Restore: the finalizing phases count as completed. */
  function Normalize(p: RestorePhase): RestorePhase {
    if p == RPFinalizing || p == RPFinalizingPartiallyFailed then RPCompleted else p
  }

  predicate Matches(x: RestoreInfo, v: VeleroRestore) {
    x.backup == v.backup && IsAvailable(x) && (x.restoreName == "" || x.restoreName == v.name)
  }

  function Follow(x: RestoreInfo, v: VeleroRestore, namespace: string): RestoreInfo {
    if !Matches(x, v) then x
    else x.(restoreName := v.name,
            restoreNamespace := if x.restoreName == "" then namespace else x.restoreNamespace,
            phase := Normalize(v.phase))
  }

  function FollowAll(x: RestoreInfo, owned: seq<VeleroRestore>, namespace: string): RestoreInfo {
    if owned == [] then x
    else Follow(FollowAll(x, owned[..|owned| - 1], namespace), owned[|owned| - 1], namespace)
  }

  function FollowEntry(e: PVCRestore, owned: seq<VeleroRestore>, namespace: string): PVCRestore {
    if IsSynthetic(e) then e else e.(restores := Map(e.restores, x => FollowAll(x, owned, namespace)))
  }

  function FollowStored(stored: seq<PVCRestore>, owned: seq<VeleroRestore>, namespace: string): seq<PVCRestore> {
    Map(stored, e => FollowEntry(e, owned, namespace))
  }

  lemma FollowStep(e: PVCRestore, owned: seq<VeleroRestore>, k: nat, namespace: string, j: nat)
    requires k < |owned| && !IsSynthetic(e) && j < |e.restores|
    ensures FollowEntry(e, owned[..k + 1], namespace).restores[j] ==
            Follow(FollowEntry(e, owned[..k], namespace).restores[j], owned[k], namespace)
  {
    assert owned[..k + 1][..k] == owned[..k];
  }

  method UpdateEntry(e: PVCRestore, v: VeleroRestore, namespace: string) returns (after: PVCRestore, changed: bool)
    requires !IsSynthetic(e) && v.name != ""
    ensures after == e.(restores := Map(e.restores, x => Follow(x, v, namespace)))
    ensures changed <==> after != e
  {
    after, changed := e, false;
    for j := 0 to |e.restores|
      invariant after.pvc == e.pvc && |after.restores| == |e.restores|
      invariant forall k :: 0 <= k < |e.restores| ==>
                  after.restores[k] == if k < j then Follow(e.restores[k], v, namespace) else e.restores[k]
      invariant changed <==> exists k :: 0 <= k < j && Follow(e.restores[k], v, namespace) != e.restores[k]
    {
      var x := after.restores[j];
      var updated := x;
      if x.backup == v.backup && x.state == Available && (x.restoreName == "" || x.restoreName == v.name) {
        if x.restoreName == "" {
          updated := updated.(restoreName := v.name, restoreNamespace := namespace);
          changed := true;
        }
        var normalized := v.phase;
        if v.phase == RPFinalizing || v.phase == RPFinalizingPartiallyFailed {
          normalized := RPCompleted;
        }
        if x.phase != normalized {
          updated := updated.(phase := normalized);
          changed := true;
        }
      }
      after := after.(restores := after.restores[j := updated]);
    }
    assert after.restores == Map(e.restores, x => Follow(x, v, namespace));
  }

  method UpdateStored(stored: seq<PVCRestore>, v: VeleroRestore, namespace: string) returns (after: seq<PVCRestore>,
                      changed: bool)
    requires v.name != ""
    ensures |after| == |stored|
    ensures forall k :: 0 <= k < |stored| ==>
              after[k] == if IsSynthetic(stored[k]) then stored[k]
                          else stored[k].(restores := Map(stored[k].restores, x => Follow(x, v, namespace)))
    ensures changed <==> after != stored
  {
    after, changed := stored, false;
    for k := 0 to |stored|
      invariant |after| == |stored|
      invariant forall j :: k <= j < |stored| ==> after[j] == stored[j]
      invariant forall j :: 0 <= j < k ==>
                  after[j] == if IsSynthetic(stored[j]) then stored[j]
                              else stored[j].(restores := Map(stored[j].restores, x => Follow(x, v, namespace)))
      invariant changed <==> exists j :: 0 <= j < k && after[j] != stored[j]
    {
      if stored[k].pvc.name == RESERVED_NAME {
        continue;
      }
      var e, c := UpdateEntry(stored[k], v, namespace);
      ghost var before := after;
      after := after[k := e];
      assert forall j :: 0 <= j < k ==> after[j] == before[j];
      if c {
        changed := true;
        assert after[k] != stored[k];
      }
    }
  }

  lemma FollowStoredStep(stored: seq<PVCRestore>, owned: seq<VeleroRestore>, n: nat, namespace: string,
                         after: seq<PVCRestore>)
    requires n < |owned| && |after| == |stored|
    requires forall k :: 0 <= k < |stored| ==>
               var e := FollowEntry(stored[k], owned[..n], namespace);
               after[k] == if IsSynthetic(e) then e
                           else e.(restores := Map(e.restores, x => Follow(x, owned[n], namespace)))
    ensures after == FollowStored(stored, owned[..n + 1], namespace)
  {
    forall k | 0 <= k < |stored| ensures after[k] == FollowEntry(stored[k], owned[..n + 1], namespace) {
      var e := stored[k];
      if !IsSynthetic(e) {
        forall j | 0 <= j < |e.restores|
          ensures after[k].restores[j] == FollowEntry(e, owned[..n + 1], namespace).restores[j]
        {
          FollowStep(e, owned, n, namespace, j);
        }
        assert after[k].restores == FollowEntry(e, owned[..n + 1], namespace).restores;
      }
    }
  }

  lemma FollowNone(stored: seq<PVCRestore>, namespace: string)
    ensures FollowStored(stored, [], namespace) == stored
  {
    forall k | 0 <= k < |stored| ensures FollowEntry(stored[k], [], namespace) == stored[k] {
      assert Map(stored[k].restores, x => FollowAll(x, [], namespace)) == stored[k].restores;
    }
  }

  function CompletedCount(owned: seq<VeleroRestore>): nat { |Filter(owned,
                          (v: VeleroRestore) => CountsAsCompleted(v.phase))| }
  function FailedCount(owned: seq<VeleroRestore>): nat { |Filter(owned,
                       (v: VeleroRestore) => CountsAsFailed(v.phase))| }

  lemma CountStep(owned: seq<VeleroRestore>, n: nat)
    requires n < |owned|
    ensures CompletedCount(owned[..n + 1]) ==
            CompletedCount(owned[..n]) + (if CountsAsCompleted(owned[n].phase) then 1 else 0)
    ensures FailedCount(owned[..n + 1]) == FailedCount(owned[..n]) + (if CountsAsFailed(owned[n].phase) then 1 else 0)
  {
    assert owned[..n + 1][..n] == owned[..n];
  }

  /** Following some Restore changed a record. */
  ghost predicate Updates(stored: seq<PVCRestore>, owned: seq<VeleroRestore>, namespace: string) {
    owned != []
    && (Updates(stored, owned[..|owned| - 1], namespace)
        || FollowStored(stored, owned[..|owned| - 1], namespace) != FollowStored(stored, owned, namespace))
  }

  lemma {:induction false} ChangesAreUpdates(stored: seq<PVCRestore>, owned: seq<VeleroRestore>, namespace: string)
    ensures FollowStored(stored, owned, namespace) != stored ==> Updates(stored, owned, namespace)
  {
    if owned == [] {
      FollowNone(stored, namespace);
    } else {
      ChangesAreUpdates(stored, owned[..|owned| - 1], namespace);
    }
  }

  /** The monitoring loop over the owned Restores; an empty list is an error the caller reports. */
  method MonitorVeleroRestores(stored: seq<PVCRestore>, owned: seq<VeleroRestore>, namespace: string)
    returns (completed: nat, failed: nat, inProgress: nat, statusUpdated: bool, after: seq<PVCRestore>)
    requires forall k :: 0 <= k < |owned| ==> owned[k].name != ""
    ensures after == FollowStored(stored, owned, namespace)
    ensures completed == CompletedCount(owned) && failed == FailedCount(owned)
    ensures completed + failed + inProgress == |owned|
    ensures statusUpdated <==> Updates(stored, owned, namespace)
  {
    completed, failed, inProgress, statusUpdated, after := 0, 0, 0, false, stored;
    FollowNone(stored, namespace);
    for n := 0 to |owned|
      invariant after == FollowStored(stored, owned[..n], namespace)
      invariant completed == CompletedCount(owned[..n]) && failed == FailedCount(owned[..n])
      invariant completed + failed + inProgress == n
      invariant statusUpdated <==> Updates(stored, owned[..n], namespace)
    {
      CountStep(owned, n);
      assert owned[..n + 1][..n] == owned[..n];
      var v := owned[n];
      match v.phase {
        case RPCompleted | RPFinalizing | RPFinalizingPartiallyFailed => completed := completed + 1;
        case RPFailed | RPPartiallyFailed | RPFailedValidation => failed := failed + 1;
        case _ => inProgress := inProgress + 1;
      }
      var next, changed := UpdateStored(after, v, namespace);
      FollowStoredStep(stored, owned, n, namespace, next);
      after := next;
      if changed {
        statusUpdated := true;
      }
    }
    assert owned[..|owned|] == owned;
  }

  // ----- What a pass achieves

  lemma {:induction false} FollowNamed(x: RestoreInfo, owned: seq<VeleroRestore>, namespace: string)
    ensures var y := FollowAll(x, owned, namespace);
            && y.backup == x.backup && y.state == x.state && y.timestamp == x.timestamp
            && (x.restoreName != "" ==> y.restoreName == x.restoreName && y.restoreNamespace == x.restoreNamespace)
  {
    if owned != [] {
      FollowNamed(x, owned[..|owned| - 1], namespace);
    }
  }

  /** After a pass a recorded restore carries the normalized phase of the Restore it names. */
  lemma {:induction false} FollowsItsRestore(x: RestoreInfo, owned: seq<VeleroRestore>, namespace: string, k: nat)
    requires Distinct(Map(owned, RestoreNameOf)) && k < |owned|
    requires IsAvailable(x) && x.restoreName == owned[k].name != "" && x.backup == owned[k].backup
    ensures FollowAll(x, owned, namespace).phase == Normalize(owned[k].phase)
    ensures FollowAll(x, owned, namespace).phase ==
            if owned[k].phase.RPFinalizing? || owned[k].phase.RPFinalizingPartiallyFailed? then RPCompleted
            else owned[k].phase
  {
    var n := |owned| - 1;
    var names := Map(owned, RestoreNameOf);
    assert Map(owned[..n], RestoreNameOf) == names[..n];
    FollowNamed(x, owned[..n], namespace);
    if k < n {
      assert names[k] != names[n];
      FollowsItsRestore(x, owned[..n], namespace, k);
    }
  }

  // ----- Mounts

  datatype Mount = Mount(pvcName: string, pvcUID: string, backup: string, timestamp: Option<nat>, restoreName: string)

  predicate IsMountable(x: RestoreInfo) {
    (x.phase == RPCompleted || x.phase == RPFinalizing) && IsAvailable(x)
  }

  function MountOf(e: PVCRestore, x: RestoreInfo): Mount {
    Mount(e.pvc.name, e.pvc.uid, x.backup, x.timestamp, x.restoreName)
  }

  function MountsOf(e: PVCRestore): seq<Mount> {
    if IsSynthetic(e) then [] else Map(Filter(e.restores, IsMountable), x => MountOf(e, x))
  }

  function Mounts(stored: seq<PVCRestore>): seq<Mount> {
    if stored == [] then [] else Mounts(stored[..|stored| - 1]) + MountsOf(stored[|stored| - 1])
  }

  method EntryMounts(e: PVCRestore) returns (mounts: seq<Mount>)
    ensures mounts == Map(Filter(e.restores, IsMountable), x => MountOf(e, x))
  {
    mounts := [];
    for j := 0 to |e.restores|
      invariant mounts == Map(Filter(e.restores[..j], IsMountable), x => MountOf(e, x))
    {
      assert e.restores[..j + 1][..j] == e.restores[..j];
      var x := e.restores[j];
      if (x.phase == RPCompleted || x.phase == RPFinalizing) && x.state == Available {
        mounts := mounts + [Mount(e.pvc.name, e.pvc.uid, x.backup, x.timestamp, x.restoreName)];
      }
    }
    assert e.restores[..|e.restores|] == e.restores;
  }

  method ExtractPVCMounts(stored: seq<PVCRestore>) returns (mounts: seq<Mount>)
    ensures mounts == Mounts(stored)
  {
    mounts := [];
    for k := 0 to |stored|
      invariant mounts == Mounts(stored[..k])
    {
      assert stored[..k + 1][..k] == stored[..k];
      if stored[k].pvc.name == RESERVED_NAME {
        continue;
      }
      var more := EntryMounts(stored[k]);
      mounts := mounts + more;
    }
    assert stored[..|stored|] == stored;
  }

  /** The available (PVC, backup) pairs: what should be mounted. */
  function AvailableOf(e: PVCRestore): seq<Mount> {
    if IsSynthetic(e) then [] else Map(Filter(e.restores, IsAvailable), x => MountOf(e, x))
  }

  function AvailablePairs(stored: seq<PVCRestore>): seq<Mount> {
    if stored == [] then [] else AvailablePairs(stored[..|stored| - 1]) + AvailableOf(stored[|stored| - 1])
  }

  /** Every available restore is recorded under the name of one of the owned Restores for its backup. */
  ghost predicate Tracked(x: RestoreInfo, owned: seq<VeleroRestore>) {
    IsAvailable(x) ==>
        exists k :: 0 <= k < |owned| && owned[k].name == x.restoreName != "" && owned[k].backup == x.backup
  }

  ghost predicate AllTracked(stored: seq<PVCRestore>, owned: seq<VeleroRestore>) {
    forall k, j :: 0 <= k < |stored| && !IsSynthetic(stored[k]) && 0 <= j < |stored[k].restores| ==>
      Tracked(stored[k].restores[j], owned)
  }

  lemma CompletedInfo(x: RestoreInfo, owned: seq<VeleroRestore>, namespace: string)
    requires Distinct(Map(owned, RestoreNameOf)) && Tracked(x, owned)
    requires forall k :: 0 <= k < |owned| ==> CountsAsCompleted(owned[k].phase)
    ensures IsMountable(FollowAll(x, owned, namespace)) <==> IsAvailable(x)
    ensures IsAvailable(x) ==> FollowAll(x, owned, namespace).restoreName == x.restoreName
  {
    FollowNamed(x, owned, namespace);
    if IsAvailable(x) {
      var k :| 0 <= k < |owned| && owned[k].name == x.restoreName != "" && owned[k].backup == x.backup;
      FollowsItsRestore(x, owned, namespace, k);
    }
  }

  lemma MapFilterStep(e: PVCRestore, restores: seq<RestoreInfo>, p: RestoreInfo -> bool)
    requires restores != []
    ensures var n := |restores| - 1;
      Map(Filter(restores, p), x => MountOf(e, x)) ==
      Map(Filter(restores[..n], p), x => MountOf(e, x)) + (if p(restores[n]) then [MountOf(e, restores[n])] else [])
  {
  }

  lemma {:induction false} EntryMounted(e: PVCRestore, restores: seq<RestoreInfo>, owned: seq<VeleroRestore>,
                                        namespace: string)
    requires Distinct(Map(owned, RestoreNameOf))
    requires forall j :: 0 <= j < |restores| ==> Tracked(restores[j], owned)
    requires forall k :: 0 <= k < |owned| ==> CountsAsCompleted(owned[k].phase)
    ensures Map(Filter(Map(restores, x => FollowAll(x, owned, namespace)), IsMountable), x => MountOf(e, x)) ==
            Map(Filter(restores, IsAvailable), x => MountOf(e, x))
  {
    if restores != [] {
      var n := |restores| - 1;
      var followed := Map(restores, x => FollowAll(x, owned, namespace));
      EntryMounted(e, restores[..n], owned, namespace);
      assert followed[..n] == Map(restores[..n], x => FollowAll(x, owned, namespace));
      MapFilterStep(e, followed, IsMountable);
      MapFilterStep(e, restores, IsAvailable);
      CompletedInfo(restores[n], owned, namespace);
      FollowNamed(restores[n], owned, namespace);
    }
  }

  /** Once every owned Restore has completed, each available (PVC, backup) pair is mounted exactly once. */
  lemma {:induction false} AllPairsMounted(stored: seq<PVCRestore>, owned: seq<VeleroRestore>, namespace: string)
    requires Distinct(Map(owned, RestoreNameOf)) && AllTracked(stored, owned)
    requires forall k :: 0 <= k < |owned| ==> CountsAsCompleted(owned[k].phase)
    ensures Mounts(FollowStored(stored, owned, namespace)) == AvailablePairs(stored)
  {
    if stored != [] {
      var n := |stored| - 1;
      AllPairsMounted(stored[..n], owned, namespace);
      var after := FollowStored(stored, owned, namespace);
      assert after[..n] == FollowStored(stored[..n], owned, namespace);
      if !IsSynthetic(stored[n]) {
        EntryMounted(stored[n], stored[n].restores, owned, namespace);
        MountSameEntry(stored[n], after[n]);
      }
    }
  }

  lemma MountSameEntry(e: PVCRestore, f: PVCRestore)
    requires e.pvc == f.pvc && !IsSynthetic(e)
    ensures MountsOf(f) == Map(Filter(f.restores, IsMountable), x => MountOf(e, x))
  {
  }

  /** The counts that let the workflow move on say that every owned Restore has completed. */
  lemma {:induction false} AllCompletedFromCounts(owned: seq<VeleroRestore>)
    ensures CompletedCount(owned) == |owned| <==> forall k :: 0 <= k < |owned| ==> CountsAsCompleted(owned[k].phase)
    ensures CompletedCount(owned) <= |owned|
  {
    if owned != [] {
      AllCompletedFromCounts(owned[..|owned| - 1]);
    }
  }
}
