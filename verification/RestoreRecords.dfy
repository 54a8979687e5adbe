/** The records of a PVC in terms of the discovery results they come from. */
module RestoreRecords {
  import opened Collections
  import opened RestoreModel
  import opened Regroup
  import opened VeleroRestores
  import opened RestoreProgress
  import opened Pipeline

  predicate Says(r: DiscoveryResult, part: string) { Contains(r.message, part) }

  /** A new record repeats the result: backup, time, and for a failed one the kind of failure its message tells. */
  predicate RecordOf(x: RestoreInfo, r: DiscoveryResult) {
    var deleted := Says(r, "BackupNotFound") || Says(r, "backup CRD object deleted");
    var missing := Says(r, "BackupFilesMissing") || Says(r, "Backup files missing");
    var unsupported := Says(r, "UnsupportedBackupFormat");
    && x.backup == r.backup && x.backupNamespace == r.namespace && x.timestamp == r.createdAt
    && x.restoreName == "" && x.phase == NoPhase
    && (r.status.Completed? ==> x.state == Available && x.failure == "")
    && (r.status.Failed? ==>
          && x.failure == r.message
          && (x.state == BackupDeleted <==> deleted)
          && (x.state == BackupMissing <==> !deleted && missing)
          && (x.state == UnsupportedPlugin <==> !deleted && !missing && unsupported)
          && (x.state == ExtractionFailed <==> !deleted && !missing && !unsupported))
  }

  predicate Lists(r: DiscoveryResult, uid: string) { exists k :: 0 <= k < |r.pvcs| && r.pvcs[k].uid == uid }

  predicate ComesFrom(x: RestoreInfo, results: seq<DiscoveryResult>, uid: string) {
    exists n :: 0 <= n < |results| && (results[n].status.Completed? || results[n].status.Failed?)
                && Lists(results[n], uid) && RecordOf(x, results[n])
  }

  lemma ContributionComesFrom(r: DiscoveryResult, uid: string, x: RestoreInfo)
    requires x in Contribution(r, uid)
    ensures (r.status.Completed? || r.status.Failed?) && Lists(r, uid) && RecordOf(x, r)
  {
    UIDMember(r.pvcs, uid);
  }

  lemma {:induction false} ContributionsComeFrom(results: seq<DiscoveryResult>, uid: string, x: RestoreInfo)
    requires x in Contributions(results, uid)
    ensures ComesFrom(x, results, uid)
  {
    var n := |results| - 1;
    if x in Contributions(results[..n], uid) {
      ContributionsComeFrom(results[..n], uid, x);
      var m :| 0 <= m < n && (results[..n][m].status.Completed? || results[..n][m].status.Failed?)
               && Lists(results[..n][m], uid) && RecordOf(x, results[..n][m]);
      assert results[m] == results[..n][m];
    } else {
      ContributionComesFrom(results[n], uid, x);
    }
  }

  /** Every stored record of a real UID repeats a result that lists the UID. */
  lemma RecordsComeFromResults(results: seq<DiscoveryResult>, order: seq<string>, stored: seq<PVCRestore>, k: nat,
                               j: nat)
    requires StoredFrom(results, order, stored) && k < |stored| && j < |stored[k].restores|
    requires RealUID(results, stored[k].pvc.uid)
    ensures ComesFrom(stored[k].restores[j], results, stored[k].pvc.uid)
  {
    var x, uid := stored[k].restores[j], stored[k].pvc.uid;
    StoredOnceFrom(results, order, stored);
    GroupHolds(results, uid);
    assert x in multiset(stored[k].restores);
    assert x in Contributions(results, uid);
    ContributionsComeFrom(results, uid, x);
  }

  /** An undated result counts as the oldest. */
  function Age(createdAt: Option<nat>): nat { match createdAt case None => 0 case Some(t) => t }

  lemma ResultOf(results: seq<DiscoveryResult>, uid: string, x: RestoreInfo, a: nat)
    requires Distinct(Map(results, (r: DiscoveryResult) => r.backup)) && ComesFrom(x, results, uid)
    requires a < |results| && results[a].backup == x.backup
    ensures x.timestamp == results[a].createdAt
  {
    var names := Map(results, (r: DiscoveryResult) => r.backup);
    var n :| 0 <= n < |results| && Lists(results[n], uid) && RecordOf(x, results[n]);
    assert n < a ==> names[n] != names[a];
    assert a < n ==> names[a] != names[n];
  }

  /** With unique backup names the backups of a PVC are stored by the age of their results, newest first. */
  lemma BackupsAreNewestFirst(results: seq<DiscoveryResult>, order: seq<string>, stored: seq<PVCRestore>,
                              k: nat, i: nat, j: nat, a: nat, b: nat)
    requires StoredFrom(results, order, stored) && Distinct(Map(results, (r: DiscoveryResult) => r.backup))
    requires k < |stored| && i < j < |stored[k].restores| && RealUID(results, stored[k].pvc.uid)
    requires a < |results| && results[a].backup == stored[k].restores[i].backup
    requires b < |results| && results[b].backup == stored[k].restores[j].backup
    ensures Age(results[a].createdAt) >= Age(results[b].createdAt)
  {
    var x, y, uid := stored[k].restores[i], stored[k].restores[j], stored[k].pvc.uid;
    RecordsComeFromResults(results, order, stored, k, i);
    RecordsComeFromResults(results, order, stored, k, j);
    ResultOf(results, uid, x, a);
    ResultOf(results, uid, y, b);
    assert Time(x) >= Time(y);
  }

  // ----- Backup-level failures

  /** The last failed backup without PVC data under a key is stored as an entry of its own. */
  lemma {:induction false} LastFailureIsRecorded(results: seq<DiscoveryResult>, n: nat)
    requires n < |results| && results[n].status.Failed? && results[n].pvcs == []
    requires forall m :: n < m < |results| ==>
      SyntheticUID(results[m]) != SyntheticUID(results[n]) && !Lists(results[m], SyntheticUID(results[n]))
    ensures var r, key := results[n], "backup-failure-" + results[n].namespace + "-" + results[n].backup;
      && key in Group(results)
      && Group(results)[key].pvc == PVC("backup-level-failure", r.namespace, key, "N/A")
      && |Group(results)[key].restores| == 1 && RecordOf(Group(results)[key].restores[0], r)
  {
    var last := |results| - 1;
    var key := SyntheticUID(results[n]);
    if n < last {
      LastFailureIsRecorded(results[..last], n);
      var r := results[last];
      GroupKeysAreUIDs(results[..last], key);
      if StateOf(r).Some? && !IsBackupFailure(r) {
        AddPVCsAt(Group(results[..last]), InfoOf(r, StateOf(r).value), r.pvcs, key);
        UIDMember(r.pvcs, key);
        assert CountUID(r.pvcs, key) == 0;
      }
    }
  }

  // ----- Mounts

  /** A mount repeats its PVC and record. */
  predicate MountRepeats(m: Mount, e: PVCRestore, x: RestoreInfo) {
    && m.pvcName == e.pvc.name && m.pvcUID == e.pvc.uid
    && m.backup == x.backup && m.timestamp == x.timestamp && m.restoreName == x.restoreName
  }

  lemma {:induction false} MountsComeFromRecords(stored: seq<PVCRestore>, m: Mount)
    requires m in Mounts(stored)
    ensures exists k, j :: 0 <= k < |stored| && !IsSynthetic(stored[k]) && 0 <= j < |stored[k].restores|
                           && stored[k].restores[j].state == Available
                           && MountRepeats(m, stored[k], stored[k].restores[j])
  {
    var n := |stored| - 1;
    if m in Mounts(stored[..n]) {
      MountsComeFromRecords(stored[..n], m);
      var k, j :| 0 <= k < n && !IsSynthetic(stored[..n][k]) && 0 <= j < |stored[..n][k].restores|
                  && stored[..n][k].restores[j].state == Available
                  && MountRepeats(m, stored[..n][k], stored[..n][k].restores[j]);
      assert stored[k] == stored[..n][k];
    } else {
      var e := stored[n];
      var kept := Filter(e.restores, IsMountable);
      FilterMembers(e.restores, IsMountable);
      var a :| 0 <= a < |MountsOf(e)| && MountsOf(e)[a] == m;
      assert kept[a] in kept && kept[a] in e.restores;
      var j :| 0 <= j < |e.restores| && e.restores[j] == kept[a];
      assert MountRepeats(m, stored[n], stored[n].restores[j]);
    }
  }
}
