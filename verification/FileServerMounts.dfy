/** From the mounts in the status to the pod: looking up the restored PVCs and serving them. */
module FileServerMounts {
  import opened Collections
  import opened RestoreModel
  import opened Regroup
  import opened VeleroRestores
  import opened Monitoring
  import RestoreProgress
  import opened Pipeline
  import opened FileServerPod
  import opened FileServerPodSoundness

  type Mount = RestoreProgress.Mount

  /** A PVC of the restore namespace; originalName is "" without the label. */
  datatype ClusterPvc =
    ClusterPvc(name: string, restoreLabel: Option<string>, originalName: string, uid: string, block: bool)

  predicate Matches(pvc: ClusterPvc, restoreName: string, originalName: string) {
    pvc.restoreLabel == Some(restoreName) && pvc.originalName == originalName
  }

  /** The first PVC in list order that the Restore made from the original. */
  method FindRestoredPVCName(cluster: seq<ClusterPvc>, restoreName: string,
                             originalName: string) returns (found: Option<nat>)
    ensures found.None? <==> forall k :: 0 <= k < |cluster| ==> !Matches(cluster[k], restoreName, originalName)
    ensures found.Some? ==> found.value < |cluster| && Matches(cluster[found.value], restoreName, originalName)
    ensures found.Some? ==> forall k :: 0 <= k < found.value ==> !Matches(cluster[k], restoreName, originalName)
  {
    for k := 0 to |cluster|
      invariant forall j :: 0 <= j < k ==> !Matches(cluster[j], restoreName, originalName)
    {
      if cluster[k].restoreLabel == Some(restoreName) && cluster[k].originalName == originalName {
        return Some(k);
      }
    }
    return None;
  }

  /** The mount with the name, UID and mode of the PVC the Restore made; date formats a timestamp for paths. */
  function Resolve(m: Mount, pvc: ClusterPvc, date: Option<nat> -> string): PvcMount {
    PvcMount(m.pvcName, m.backup, date(m.timestamp), pvc.uid, pvc.name, pvc.block)
  }

  ghost predicate ResolvedFrom(cluster: seq<ClusterPvc>, m: Mount, p: PvcMount, date: Option<nat> -> string) {
    exists k :: 0 <= k < |cluster| && Matches(cluster[k], m.restoreName, m.pvcName) && p == Resolve(m, cluster[k], date)
  }

  ghost predicate AllResolved(cluster: seq<ClusterPvc>, mounts: seq<Mount>, pvcs: seq<PvcMount>,
                              date: Option<nat> -> string) {
    |pvcs| == |mounts| && forall i :: 0 <= i < |mounts| ==> ResolvedFrom(cluster, mounts[i], pvcs[i], date)
  }

  predicate Restored(cluster: seq<ClusterPvc>, m: Mount) {
    exists k :: 0 <= k < |cluster| && Matches(cluster[k], m.restoreName, m.pvcName)
  }

  method ResolveMounts(cluster: seq<ClusterPvc>, mounts: seq<Mount>,
                       date: Option<nat> -> string) returns (r: Option<seq<PvcMount>>)
    ensures r.Some? <==> forall i :: 0 <= i < |mounts| ==> Restored(cluster, mounts[i])
    ensures r.Some? ==> AllResolved(cluster, mounts, r.value, date)
  {
    var pvcs: seq<PvcMount> := [];
    for i := 0 to |mounts|
      invariant AllResolved(cluster, mounts[..i], pvcs, date)
      invariant forall j :: 0 <= j < i ==> Restored(cluster, mounts[j])
    {
      var m := mounts[i];
      var found := FindRestoredPVCName(cluster, m.restoreName, m.pvcName);
      if found.None? { return None; }
      var pvc := cluster[found.value];
      pvcs := pvcs + [PvcMount(m.pvcName, m.backup, date(m.timestamp), pvc.uid, pvc.name, pvc.block)];
      assert ResolvedFrom(cluster, m, pvcs[i], date);
    }
    assert mounts[..|mounts|] == mounts;
    return Some(pvcs);
  }

  // ----- Lookup is injective

  function PvcUid(pvc: ClusterPvc): string { pvc.uid }

  /** No two mounts agree on backup and PVC name. */
  ghost predicate Apart(mounts: seq<Mount>) {
    forall i, j :: 0 <= i < j < |mounts| ==>
        mounts[i].backup != mounts[j].backup || mounts[i].pvcName != mounts[j].pvcName
  }

  /** A Restore is of one backup. */
  ghost predicate RestoreDecidesBackup(mounts: seq<Mount>) {
    forall i, j :: 0 <= i < j < |mounts| && mounts[i].restoreName == mounts[j].restoreName ==>
        mounts[i].backup == mounts[j].backup
  }

  lemma LookupIsInjective(cluster: seq<ClusterPvc>, mounts: seq<Mount>, pvcs: seq<PvcMount>,
                          date: Option<nat> -> string)
    requires AllResolved(cluster, mounts, pvcs, date) && Distinct(Map(cluster, PvcUid))
    requires Apart(mounts) && RestoreDecidesBackup(mounts)
    ensures Distinct(Map(pvcs, Uid))
  {
    forall i, j | 0 <= i < j < |pvcs| ensures Map(pvcs, Uid)[i] != Map(pvcs, Uid)[j] {
      assert ResolvedFrom(cluster, mounts[i], pvcs[i], date) && ResolvedFrom(cluster, mounts[j], pvcs[j], date);
      var a :| 0 <= a < |cluster| && Matches(cluster[a], mounts[i].restoreName, mounts[i].pvcName)
               && pvcs[i] == Resolve(mounts[i], cluster[a], date);
      var b :| 0 <= b < |cluster| && Matches(cluster[b], mounts[j].restoreName, mounts[j].pvcName)
               && pvcs[j] == Resolve(mounts[j], cluster[b], date);
      assert a != b;
      assert Map(cluster, PvcUid)[a] != Map(cluster, PvcUid)[b];
    }
  }

  lemma KeysStayApart(cluster: seq<ClusterPvc>, mounts: seq<Mount>, pvcs: seq<PvcMount>, date: Option<nat> -> string)
    requires AllResolved(cluster, mounts, pvcs, date) && Apart(mounts)
    ensures KeysDistinct(pvcs)
  {
    forall i | 0 <= i < |pvcs| ensures pvcs[i].backup == mounts[i].backup && pvcs[i].pvcName == mounts[i].pvcName {
      assert ResolvedFrom(cluster, mounts[i], pvcs[i], date);
    }
    forall i, j | 0 <= i < j < |pvcs| ensures Map(pvcs, Key)[i] != Map(pvcs, Key)[j] {}
    FilterDistinctBy(pvcs, IsFilesystem, Key);
  }

  ghost predicate CleanNames(mounts: seq<Mount>, date: Option<nat> -> string) {
    forall i :: 0 <= i < |mounts| ==>
        SlashFree(mounts[i].backup) && SlashFree(mounts[i].pvcName) && SlashFree(date(mounts[i].timestamp))
  }

  // ----- Each mount is served from its own restored PVC

  function PvcName(pvc: ClusterPvc): string { pvc.name }

  /** UIDs are unique, and so are the names in a namespace. */
  ghost predicate ClusterSound(cluster: seq<ClusterPvc>) {
    && Distinct(Map(cluster, PvcUid)) && Distinct(Map(cluster, PvcName))
    && (forall k :: 0 <= k < |cluster| ==> cluster[k].name != "")
  }

  /**
   * One volume of the pod claims the PVC, and the main container uses it once: a block PVC as a device named after
   * its UID, any other mounted below the date and name of the backup.
   */
  ghost predicate Serves(pod: Pod, m: Mount, pvc: ClusterPvc, date: Option<nat> -> string) {
    var claims := Filter(pod.volumes, (v: Volume) => v.source == Claim(pvc.name));
    && |claims| == 1 && Uses(pod.main)[claims[0].name] == 1
    && if pvc.block then VolumeDevice(claims[0].name, "/dev/pvc-" + pvc.uid) in pod.main.devices
       else VolumeMount(claims[0].name, "/restores/" + date(m.timestamp) + "/" + m.backup + "/" + m.pvcName)
            in pod.main.mounts
  }

  ghost predicate MountServed(pod: Pod, m: Mount, cluster: seq<ClusterPvc>, date: Option<nat> -> string) {
    exists k :: 0 <= k < |cluster| && cluster[k].restoreLabel == Some(m.restoreName)
                && cluster[k].originalName == m.pvcName && Serves(pod, m, cluster[k], date)
  }

  lemma FixedVolumesClaimNothing(c: Config, j: nat)
    requires |c.pvcs| <= j < |AllVolumes(c)|
    ensures !AllVolumes(c)[j].source.Claim?
  {
    var fixed := CoreVolumes(c.internalMounts) + SshVolumesIn(c) + FileBrowserVolumesIn(c);
    Reassociate(Map(c.pvcs, VolumeOf), CoreVolumes(c.internalMounts), SshVolumesIn(c), FileBrowserVolumesIn(c));
    assert AllVolumes(c)[j] == fixed[j - |c.pvcs|];
  }

  lemma ClaimsAreDistinct(cluster: seq<ClusterPvc>, mounts: seq<Mount>, pvcs: seq<PvcMount>,
                          date: Option<nat> -> string,
                          i: nat, j: nat)
    requires AllResolved(cluster, mounts, pvcs, date) && ClusterSound(cluster) && i < |pvcs| && j < |pvcs|
    requires pvcs[i].uid != pvcs[j].uid
    ensures pvcs[i].restoredName != pvcs[j].restoredName
  {
    assert ResolvedFrom(cluster, mounts[i], pvcs[i], date) && ResolvedFrom(cluster, mounts[j], pvcs[j], date);
    var a :| 0 <= a < |cluster| && pvcs[i] == Resolve(mounts[i], cluster[a], date);
    var b :| 0 <= b < |cluster| && pvcs[j] == Resolve(mounts[j], cluster[b], date);
    assert a < b ==> Map(cluster, PvcName)[a] != Map(cluster, PvcName)[b];
    assert b < a ==> Map(cluster, PvcName)[b] != Map(cluster, PvcName)[a];
  }

  lemma OneVolumeClaims(cluster: seq<ClusterPvc>, mounts: seq<Mount>, date: Option<nat> -> string, c: Config, i: nat)
    requires AllResolved(cluster, mounts, c.pvcs, date) && ClusterSound(cluster) && i < |c.pvcs|
    requires Distinct(Map(c.pvcs, Uid))
    ensures Filter(AllVolumes(c), (v: Volume) => v.source == Claim(c.pvcs[i].restoredName)) == [VolumeOf(c.pvcs[i])]
  {
    var p := (v: Volume) => v.source == Claim(c.pvcs[i].restoredName);
    forall j | 0 <= j < |AllVolumes(c)| ensures p(AllVolumes(c)[j]) <==> j == i {
      if j < |c.pvcs| {
        assert ResolvedFrom(cluster, mounts[j], c.pvcs[j], date);
        assert c.pvcs[j].restoredName != "" && AllVolumes(c)[j] == VolumeOf(c.pvcs[j]);
        if j != i {
          assert i < j ==> Map(c.pvcs, Uid)[i] != Map(c.pvcs, Uid)[j];
          assert j < i ==> Map(c.pvcs, Uid)[j] != Map(c.pvcs, Uid)[i];
          ClaimsAreDistinct(cluster, mounts, c.pvcs, date, i, j);
        }
      } else {
        FixedVolumesClaimNothing(c, j);
      }
    }
    FilterOne(AllVolumes(c), p, i);
  }

  lemma EachMountServed(cluster: seq<ClusterPvc>, mounts: seq<Mount>, date: Option<nat> -> string, c: Config, i: nat)
    requires AllResolved(cluster, mounts, c.pvcs, date) && ClusterSound(cluster) && i < |mounts|
    requires Distinct(Map(c.pvcs, Uid))
    ensures MountServed(PodFor(c), mounts[i], cluster, date)
  {
    var p, m := c.pvcs[i], mounts[i];
    assert ResolvedFrom(cluster, m, p, date);
    var k :| 0 <= k < |cluster| && Matches(cluster[k], m.restoreName, m.pvcName) && p == Resolve(m, cluster[k], date);
    OneVolumeClaims(cluster, mounts, date, c, i);
    assert p in c.pvcs;
    EachServedOnce(c, p);
    assert Serves(PodFor(c), m, cluster[k], date);
  }

  /** The pod built for looked-up mounts is well formed and serves each mount from its own restored PVC, once. */
  lemma ResolvedMountsGiveAWellFormedPod(cluster: seq<ClusterPvc>, mounts: seq<Mount>, date: Option<nat> -> string,
                                         c: Config)
    requires AllResolved(cluster, mounts, c.pvcs, date) && ClusterSound(cluster)
    requires Apart(mounts) && RestoreDecidesBackup(mounts) && CleanNames(mounts, date)
    ensures WellFormed(PodFor(c))
    ensures forall i :: 0 <= i < |mounts| ==> MountServed(PodFor(c), mounts[i], cluster, date)
  {
    LookupIsInjective(cluster, mounts, c.pvcs, date);
    KeysStayApart(cluster, mounts, c.pvcs, date);
    forall p | p in c.pvcs ensures CleanParts(p) {
      var i :| 0 <= i < |c.pvcs| && c.pvcs[i] == p;
      assert ResolvedFrom(cluster, mounts[i], p, date);
    }
    PodWellFormedExactly(c);
    forall i | 0 <= i < |mounts| ensures MountServed(PodFor(c), mounts[i], cluster, date) {
      EachMountServed(cluster, mounts, date, c, i);
    }
  }

  // ----- Mounts that the pipeline produces

  /** Every available pair names a Restore of its backup. */
  ghost predicate NamesItsRestore(m: Mount, owned: seq<VeleroRestore>) {
    exists k :: 0 <= k < |owned| && owned[k].name == m.restoreName && owned[k].backup == m.backup
  }

  lemma {:induction false} TrackedMounts(stored: seq<PVCRestore>, owned: seq<VeleroRestore>)
    requires RestoreProgress.AllTracked(stored, owned)
    ensures forall m :: m in RestoreProgress.AvailablePairs(stored) ==> NamesItsRestore(m, owned)
  {
    if stored != [] {
      var n := |stored| - 1;
      TrackedMounts(stored[..n], owned);
      var e := stored[n];
      if !IsSynthetic(e) {
        FilterMembers(e.restores, IsAvailable);
        forall m | m in RestoreProgress.AvailableOf(e) ensures NamesItsRestore(m, owned) {
          var i :| 0 <= i < |RestoreProgress.AvailableOf(e)| && RestoreProgress.AvailableOf(e)[i] == m;
          var x := Filter(e.restores, IsAvailable)[i];
          assert x in e.restores;
          var j :| 0 <= j < |e.restores| && e.restores[j] == x;
          assert RestoreProgress.Tracked(stored[n].restores[j], owned);
        }
      }
    }
  }

  lemma TrackedRestoreDecidesBackup(mounts: seq<Mount>, owned: seq<VeleroRestore>)
    requires Distinct(Map(owned, RestoreNameOf))
    requires forall m :: m in mounts ==> NamesItsRestore(m, owned)
    ensures RestoreDecidesBackup(mounts)
  {
    var names := Map(owned, RestoreNameOf);
    forall i, j | 0 <= i < j < |mounts| && mounts[i].restoreName == mounts[j].restoreName
      ensures mounts[i].backup == mounts[j].backup
    {
      assert mounts[i] in mounts && mounts[j] in mounts;
      var a :| 0 <= a < |owned| && owned[a].name == mounts[i].restoreName && owned[a].backup == mounts[i].backup;
      var b :| 0 <= b < |owned| && owned[b].name == mounts[j].restoreName && owned[b].backup == mounts[j].backup;
      assert names[a] == names[b];
    }
  }

  /** Within a backup, a PVC name belongs to one UID. */
  ghost predicate NameDecidesUID(mounts: seq<Mount>) {
    forall i, j :: 0 <= i < j < |mounts| ==>
      mounts[i].backup == mounts[j].backup && mounts[i].pvcName == mounts[j].pvcName ==>
        mounts[i].pvcUID == mounts[j].pvcUID
  }

  /** Distinct (UID, backup) pairs are apart when, within one backup, a PVC name belongs to one UID. */
  lemma PairsApart(mounts: seq<Mount>)
    requires forall uid, backup :: Pairs(mounts)[(uid, backup)] <= 1
    requires NameDecidesUID(mounts)
    ensures Apart(mounts)
  {
    var pairs := Map(mounts, Pair);
    forall i, j | 0 <= i < j < |mounts|
      ensures mounts[i].backup != mounts[j].backup || mounts[i].pvcName != mounts[j].pvcName
    {
      RepeatedCount(pairs, i, j);
      assert Pairs(mounts)[(mounts[i].pvcUID, mounts[i].backup)] <= 1;
    }
  }

  /**
   * From discovery to the pod: if every backup lists a UID at most once, and a PVC name belongs to one UID within
   * a backup, then the completed Restores lead to a well-formed pod that serves every restored PVC once.
   */
  lemma DiscoveredPvcsAreServed(results: seq<DiscoveryResult>, order: seq<string>, stored: seq<PVCRestore>,
                                groups: map<string, seq<string>>, names: map<string, string>, owner: string,
                                owned: seq<VeleroRestore>, namespace: string, mounts: seq<Mount>,
                                cluster: seq<ClusterPvc>, date: Option<nat> -> string, c: Config)
    requires StoredFrom(results, order, stored) && GroupedByBackup(stored, groups)
    requires (forall b :: b in groups <==> b in names) && AllNamed(owned, owner, names)
    requires Distinct(Map(owned, RestoreNameOf)) && (forall v :: v in owned ==> v.name != "")
    requires forall k :: 0 <= k < |owned| ==> RestoreProgress.CountsAsCompleted(owned[k].phase)
    requires forall uid, backup :: CountUID(Discovered(results, backup), uid) <= 1
    requires mounts ==
             RestoreProgress.Mounts(RestoreProgress.FollowStored(Named(stored, names, namespace), owned, namespace))
    requires NameDecidesUID(mounts)
    requires AllResolved(cluster, mounts, c.pvcs, date) && ClusterSound(cluster) && CleanNames(mounts, date)
    ensures WellFormed(PodFor(c))
    ensures forall i :: 0 <= i < |mounts| ==> MountServed(PodFor(c), mounts[i], cluster, date)
  {
    var named := Named(stored, names, namespace);
    NamedAreTracked(stored, groups, names, owner, owned, namespace);
    RestoreProgress.AllPairsMounted(named, owned, namespace);
    TrackedMounts(named, owned);
    TrackedRestoreDecidesBackup(mounts, owned);
    forall uid, backup ensures Pairs(mounts)[(uid, backup)] <= 1 {
      MountsAreTheDiscoveries(results, order, stored, groups, names, owner, owned, namespace, uid, backup);
    }
    PairsApart(mounts);
    ResolvedMountsGiveAWellFormedPod(cluster, mounts, date, c);
  }
}
