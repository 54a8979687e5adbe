/**
 * The per-PVC lists regrouped per backup, one Velero Restore each, and the proof that this undoes
 * the first regrouping: each available backup selects exactly the PVC UIDs discovered in it.
 */
module VeleroRestores {
  import opened Collections
  import D = DiscoveryModel
  import opened RestoreModel
  import opened Regroup

  // ----- Regrouping per backup

  predicate IsFor(x: RestoreInfo, backup: string) { IsAvailable(x) && x.backup == backup }

  /** The selector values one stored PVC adds for a backup. */
  function UIDsFrom(entry: PVCRestore, restores: seq<RestoreInfo>, backup: string): seq<string> {
    if IsSynthetic(entry) || restores == [] then []
    else
      var before := UIDsFrom(entry, restores[..|restores| - 1], backup);
      if IsFor(restores[|restores| - 1], backup) then before + [entry.pvc.uid] else before
  }

  /** The label selector values of the Restore created for a backup. */
  function SelectedUIDs(stored: seq<PVCRestore>, backup: string): seq<string> {
    if stored == [] then []
    else
      var last := stored[|stored| - 1];
      SelectedUIDs(stored[..|stored| - 1], backup) + UIDsFrom(last, last.restores, backup)
  }

  ghost predicate GroupedByBackup(stored: seq<PVCRestore>, groups: map<string, seq<string>>) {
    && (forall b :: b in groups <==> SelectedUIDs(stored, b) != [])
    && (forall b :: b in groups ==> groups[b] == SelectedUIDs(stored, b))
  }

  /** The groups after some restores of one more PVC. */
  ghost predicate GroupedSoFar(stored: seq<PVCRestore>, entry: PVCRestore, restores: seq<RestoreInfo>,
                               groups: map<string, seq<string>>) {
    && (forall b :: b in groups <==> SelectedUIDs(stored, b) + UIDsFrom(entry, restores, b) != [])
    && (forall b :: b in groups ==> groups[b] == SelectedUIDs(stored, b) + UIDsFrom(entry, restores, b))
  }

  lemma GroupStep(stored: seq<PVCRestore>, entry: PVCRestore, k: nat, groups: map<string, seq<string>>)
    requires k < |entry.restores| && !IsSynthetic(entry)
    requires GroupedSoFar(stored, entry, entry.restores[..k], groups)
    ensures var x := entry.restores[k];
            var old' := if x.backup in groups then groups[x.backup] else [];
            GroupedSoFar(stored, entry, entry.restores[..k + 1],
                         if IsAvailable(x) then groups[x.backup := old' + [entry.pvc.uid]] else groups)
  {
    assert entry.restores[..k + 1][..k] == entry.restores[..k];
  }

  method GroupPVC(ghost stored: seq<PVCRestore>, entry: PVCRestore, before: map<string, seq<string>>)
    returns (groups: map<string, seq<string>>)
    requires !IsSynthetic(entry) && GroupedByBackup(stored, before)
    ensures GroupedSoFar(stored, entry, entry.restores, groups)
  {
    groups := before;
    for k := 0 to |entry.restores|
      invariant GroupedSoFar(stored, entry, entry.restores[..k], groups)
    {
      GroupStep(stored, entry, k, groups);
      var x := entry.restores[k];
      if x.state != Available {
        continue;
      }
      if x.backup !in groups {
        groups := groups[x.backup := []];
      }
      groups := groups[x.backup := groups[x.backup] + [entry.pvc.uid]];
    }
    assert entry.restores[..|entry.restores|] == entry.restores;
  }

  method GroupByBackup(stored: seq<PVCRestore>) returns (groups: map<string, seq<string>>)
    ensures GroupedByBackup(stored, groups)
  {
    groups := map[];
    for k := 0 to |stored|
      invariant GroupedByBackup(stored[..k], groups)
    {
      assert stored[..k + 1][..k] == stored[..k];
      if stored[k].pvc.name == RESERVED_NAME {
        continue;
      }
      groups := GroupPVC(stored[..k], stored[k], groups);
    }
    assert stored[..|stored|] == stored;
  }

  // ----- What each PVC's list holds

  /** The backups the records mention. */
  function Backups(stored: seq<PVCRestore>): set<string> {
    set k, j | 0 <= k < |stored| && 0 <= j < |stored[k].restores| :: stored[k].restores[j].backup
  }

  /** The groups themselves. */
  function GroupsOf(stored: seq<PVCRestore>): map<string, seq<string>> {
    map b | b in Backups(stored) && SelectedUIDs(stored, b) != [] :: SelectedUIDs(stored, b)
  }

  lemma {:induction false} SelectedMentions(entry: PVCRestore, restores: seq<RestoreInfo>, b: string)
    requires UIDsFrom(entry, restores, b) != []
    ensures exists j :: 0 <= j < |restores| && restores[j].backup == b
  {
    var n := |restores| - 1;
    if UIDsFrom(entry, restores[..n], b) != [] {
      SelectedMentions(entry, restores[..n], b);
      var j :| 0 <= j < |restores[..n]| && restores[..n][j].backup == b;
      assert restores[j].backup == b;
    } else {
      assert restores[n].backup == b;
    }
  }

  lemma {:induction false} GroupedIsMentioned(stored: seq<PVCRestore>, b: string)
    requires SelectedUIDs(stored, b) != []
    ensures b in Backups(stored)
  {
    var n := |stored| - 1;
    if SelectedUIDs(stored[..n], b) != [] {
      GroupedIsMentioned(stored[..n], b);
      var k, j :| 0 <= k < |stored[..n]| && 0 <= j < |stored[..n][k].restores|
                  && stored[..n][k].restores[j].backup == b;
      assert stored[k].restores[j].backup == b;
    } else {
      SelectedMentions(stored[n], stored[n].restores, b);
      var j :| 0 <= j < |stored[n].restores| && stored[n].restores[j].backup == b;
    }
  }

  /** The loops find these groups. */
  lemma GroupsAreUnique(stored: seq<PVCRestore>, groups: map<string, seq<string>>)
    ensures GroupedByBackup(stored, groups) <==> groups == GroupsOf(stored)
  {
    forall b | SelectedUIDs(stored, b) != [] ensures b in Backups(stored) {
      GroupedIsMentioned(stored, b);
    }
    assert GroupedByBackup(stored, GroupsOf(stored));
    if GroupedByBackup(stored, groups) { assert groups == GroupsOf(stored); }
  }

  function CountUID(pvcs: seq<PVC>, uid: string): nat {
    |Filter(pvcs, (p: PVC) => p.uid == uid)|
  }

  /** The records one discovery result adds to a PVC: one for each time it lists the UID. */
  function Contribution(r: DiscoveryResult, uid: string): seq<RestoreInfo> {
    if StateOf(r).None? || IsBackupFailure(r) then []
    else seq(CountUID(r.pvcs, uid), _ => InfoOf(r, StateOf(r).value))
  }

  function Contributions(results: seq<DiscoveryResult>, uid: string): seq<RestoreInfo> {
    if results == [] then []
    else Contributions(results[..|results| - 1], uid) + Contribution(results[|results| - 1], uid)
  }

  /** The UID is not the made-up key of a backup-level failure. */
  ghost predicate RealUID(results: seq<DiscoveryResult>, uid: string) {
    forall k :: 0 <= k < |results| && IsBackupFailure(results[k]) ==> SyntheticUID(results[k]) != uid
  }

  /** The first PVC of a list with the UID. */
  function FirstIn(pvcs: seq<PVC>, uid: string): Option<PVC> {
    if pvcs == [] then None
    else
      var earlier, last := FirstIn(pvcs[..|pvcs| - 1], uid), pvcs[|pvcs| - 1];
      if earlier.Some? then earlier else if last.uid == uid then Some(last) else None
  }

  /** The first PVC with the UID over the results that are not left aside. */
  function FirstListing(results: seq<DiscoveryResult>, uid: string): Option<PVC> {
    if results == [] then None
    else
      var earlier, last := FirstListing(results[..|results| - 1], uid), results[|results| - 1];
      if earlier.Some? then earlier else if StateOf(last).Some? then FirstIn(last.pvcs, uid) else None
  }

  /**
   * A PVC that is taken for a backup-level failure and never restored: a failed backup has a made-up key equal to
   * its UID, or the PVC bears the reserved name where it is listed first.
   */
  ghost predicate Hidden(results: seq<DiscoveryResult>, uid: string) {
    || !RealUID(results, uid)
    || (FirstListing(results, uid).Some? && FirstListing(results, uid).value.name == RESERVED_NAME)
  }

  lemma CountStep(pvcs: seq<PVC>, uid: string)
    requires pvcs != []
    ensures CountUID(pvcs, uid) ==
            CountUID(pvcs[..|pvcs| - 1], uid) + (if pvcs[|pvcs| - 1].uid == uid then 1 else 0)
  {
  }

  lemma {:induction false} AddPVCsAt(m: map<string, PVCRestore>, info: RestoreInfo, pvcs: seq<PVC>, uid: string)
    requires uid in m ==> m[uid].pvc.uid == uid
    ensures var m' := AddPVCs(m, info, pvcs);
            var n := CountUID(pvcs, uid);
            && (uid in m' <==> uid in m || n > 0)
            && (uid in m' ==> m'[uid].restores == (if uid in m then m[uid].restores else []) + seq(n, _ => info))
            && (uid in m' ==> m'[uid].pvc.uid == uid)
            && (uid in m ==> m'[uid].pvc == m[uid].pvc)
            && (uid in m' && uid !in m ==> FirstIn(pvcs, uid) == Some(m'[uid].pvc))
    ensures FirstIn(pvcs, uid).Some? <==> CountUID(pvcs, uid) > 0
  {
    if pvcs != [] {
      var n := |pvcs| - 1;
      AddPVCsAt(m, info, pvcs[..n], uid);
      CountStep(pvcs, uid);
    }
  }

  /** Each PVC's list holds exactly the records of the backups that contain it. */
  lemma {:induction false} GroupHolds(results: seq<DiscoveryResult>, uid: string)
    requires RealUID(results, uid)
    ensures uid in Group(results) <==> Contributions(results, uid) != []
    ensures uid in Group(results) ==>
              Group(results)[uid].restores == Contributions(results, uid) && Group(results)[uid].pvc.uid == uid
  {
    if results != [] {
      var n := |results| - 1;
      GroupHolds(results[..n], uid);
      var r := results[n];
      if StateOf(r).Some? && !IsBackupFailure(r) {
        AddPVCsAt(Group(results[..n]), InfoOf(r, StateOf(r).value), r.pvcs, uid);
      }
    }
  }

  lemma {:induction false} GroupKeysAreUIDs(results: seq<DiscoveryResult>, uid: string)
    requires uid in Group(results)
    ensures Group(results)[uid].pvc.uid == uid
  {
    if results != [] {
      var n := |results| - 1;
      var r := results[n];
      if uid in Group(results[..n]) {
        GroupKeysAreUIDs(results[..n], uid);
      }
      if StateOf(r).Some? && !IsBackupFailure(r) {
        AddPVCsAt(Group(results[..n]), InfoOf(r, StateOf(r).value), r.pvcs, uid);
      }
    }
  }

  // ----- The two regroupings are inverse

  lemma {:induction false} UIDsFromCount(entry: PVCRestore, restores: seq<RestoreInfo>, backup: string, uid: string)
    ensures multiset(UIDsFrom(entry, restores, backup))[uid] ==
            if IsSynthetic(entry) || entry.pvc.uid != uid then 0
            else |Filter(restores, (x: RestoreInfo) => IsFor(x, backup))|
  {
    if restores != [] {
      UIDsFromCount(entry, restores[..|restores| - 1], backup, uid);
    }
  }

  ghost predicate StoredOnce(stored: seq<PVCRestore>) {
    forall j, k :: 0 <= j < k < |stored| ==> stored[j].pvc.uid != stored[k].pvc.uid
  }

  /** How often a UID is selected for a backup: as often as its own entry has that backup available. */
  lemma {:induction false} SelectedCount(stored: seq<PVCRestore>, backup: string, uid: string, k: nat)
    requires StoredOnce(stored) && k <= |stored|
    requires k < |stored| ==> stored[k].pvc.uid == uid
    requires k == |stored| ==> forall j :: 0 <= j < |stored| ==> stored[j].pvc.uid != uid
    ensures multiset(SelectedUIDs(stored, backup))[uid] ==
            if k == |stored| || IsSynthetic(stored[k]) then 0
            else |Filter(stored[k].restores, (x: RestoreInfo) => IsFor(x, backup))|
  {
    if stored != [] {
      var n := |stored| - 1;
      UIDsFromCount(stored[n], stored[n].restores, backup, uid);
      if k == n {
        SelectedCount(stored[..n], backup, uid, n);
      } else {
        SelectedCount(stored[..n], backup, uid, if k < n then k else n);
      }
    }
  }

  lemma ContributionFor(r: DiscoveryResult, uid: string, backup: string)
    ensures |Filter(Contribution(r, uid), (x: RestoreInfo) => IsFor(x, backup))| ==
            if r.status.Completed? && r.backup == backup then CountUID(r.pvcs, uid) else 0
  {
    if r.status.Completed? && r.backup == backup {
      FilterAll(Contribution(r, uid), (x: RestoreInfo) => IsFor(x, backup));
    } else {
      FilterNone(Contribution(r, uid), (x: RestoreInfo) => IsFor(x, backup));
    }
  }

  /** The PVCs a successful discovery found in the named backup. */
  function Discovered(results: seq<DiscoveryResult>, backup: string): seq<PVC> {
    if results == [] then []
    else
      var last := results[|results| - 1];
      Discovered(results[..|results| - 1], backup) +
      (if last.status.Completed? && last.backup == backup then last.pvcs else [])
  }

  lemma {:induction false} ContributionsFor(results: seq<DiscoveryResult>, uid: string, backup: string)
    ensures |Filter(Contributions(results, uid), (x: RestoreInfo) => IsFor(x, backup))| ==
            CountUID(Discovered(results, backup), uid)
  {
    if results != [] {
      var n := |results| - 1;
      var r := results[n];
      ContributionsFor(results[..n], uid, backup);
      ContributionFor(r, uid, backup);
      FilterAppend(Contributions(results[..n], uid), Contribution(r, uid), (x: RestoreInfo) => IsFor(x, backup));
      FilterAppend(Discovered(results[..n], backup),
                   if r.status.Completed? && r.backup == backup then r.pvcs else [],
                   (p: PVC) => p.uid == uid);
    }
  }

  lemma StoredOnceFrom(results: seq<DiscoveryResult>, order: seq<string>, stored: seq<PVCRestore>)
    requires StoredFrom(results, order, stored)
    ensures StoredOnce(stored)
    ensures forall k :: 0 <= k < |stored| ==> stored[k].pvc.uid == order[k]
  {
    forall k | 0 <= k < |stored| ensures stored[k].pvc.uid == order[k] {
      GroupKeysAreUIDs(results, order[k]);
    }
  }

  /** The entry of the UID counts as a backup-level failure. */
  ghost predicate KeptAside(results: seq<DiscoveryResult>, uid: string) {
    uid in Group(results) && Group(results)[uid].pvc.name == RESERVED_NAME
  }

  /** Once a backup-level failure has taken a key, no PVC of that UID is restored either. */
  lemma {:induction false} FailureKeysAreKeptAside(results: seq<DiscoveryResult>, uid: string)
    requires !RealUID(results, uid)
    ensures KeptAside(results, uid)
  {
    var n := |results| - 1;
    var r := results[n];
    if !(IsBackupFailure(r) && SyntheticUID(r) == uid) {
      FailureKeysAreKeptAside(results[..n], uid);
      GroupKeysAreUIDs(results[..n], uid);
      if StateOf(r).Some? && !IsBackupFailure(r) {
        AddPVCsAt(Group(results[..n]), InfoOf(r, StateOf(r).value), r.pvcs, uid);
      }
    }
  }

  /** The entry of a real UID is named after its first listing. */
  lemma {:induction false} NamedAfterFirstListing(results: seq<DiscoveryResult>, uid: string)
    requires RealUID(results, uid)
    ensures uid in Group(results) <==> FirstListing(results, uid).Some?
    ensures uid in Group(results) ==> Group(results)[uid].pvc == FirstListing(results, uid).value
  {
    if results != [] {
      var n := |results| - 1;
      var r := results[n];
      NamedAfterFirstListing(results[..n], uid);
      if uid in Group(results[..n]) { GroupKeysAreUIDs(results[..n], uid); }
      if StateOf(r).Some? && !IsBackupFailure(r) {
        AddPVCsAt(Group(results[..n]), InfoOf(r, StateOf(r).value), r.pvcs, uid);
      }
    }
  }

  lemma HiddenExactly(results: seq<DiscoveryResult>, uid: string)
    ensures KeptAside(results, uid) <==> Hidden(results, uid)
  {
    if RealUID(results, uid) { NamedAfterFirstListing(results, uid); } else { FailureKeysAreKeptAside(results, uid); }
  }

  /** The entry of a UID, if it has one, among the stored PVCs. */
  lemma SelectedAt(results: seq<DiscoveryResult>, order: seq<string>, stored: seq<PVCRestore>, backup: string,
                   uid: string)
    requires StoredFrom(results, order, stored)
    ensures multiset(SelectedUIDs(stored, backup))[uid] ==
            if uid !in Group(results) || Hidden(results, uid) then 0
            else |Filter(Group(results)[uid].restores, (x: RestoreInfo) => IsFor(x, backup))|
  {
    HiddenExactly(results, uid);
    StoredOnceFrom(results, order, stored);
    if uid in Group(results) {
      var k :| 0 <= k < |order| && order[k] == uid;
      SelectedCount(stored, backup, uid, k);
      FilterPermutation(stored[k].restores, Group(results)[uid].restores, (x: RestoreInfo) => IsFor(x, backup));
    } else {
      SelectedCount(stored, backup, uid, |stored|);
    }
  }

  /**
   * Regrouping per PVC and then per backup gives back, for every backup, exactly the UIDs its
   * discovery found, as often as it found them, and nothing else; only a PVC that bears the
   * reserved name, or whose UID a backup-level failure has taken, is left out.
   */
  lemma RegroupingIsInverse(results: seq<DiscoveryResult>, order: seq<string>, stored: seq<PVCRestore>,
                            backup: string, uid: string)
    requires StoredFrom(results, order, stored)
    ensures multiset(SelectedUIDs(stored, backup))[uid] ==
            if Hidden(results, uid) then 0 else CountUID(Discovered(results, backup), uid)
  {
    SelectedAt(results, order, stored, backup, uid);
    if RealUID(results, uid) {
      GroupHolds(results, uid);
      ContributionsFor(results, uid, backup);
    }
  }

  /** A PVC with the reserved name, found in a complete backup, is selected by no Restore. */
  lemma ReservedNameIsNeverRestored(order: seq<string>, stored: seq<PVCRestore>)
    requires StoredFrom(RESERVED_RESULTS, order, stored)
    ensures CountUID(Discovered(RESERVED_RESULTS, "backup"), "uid") == 1
    ensures "uid" !in SelectedUIDs(stored, "backup")
  {
    var r := RESERVED_RESULTS[0];
    assert r.pvcs[..0] == [] && RESERVED_RESULTS[..0] == [];
    assert FirstIn(r.pvcs, "uid") == Some(r.pvcs[0]);
    assert FirstListing(RESERVED_RESULTS, "uid") == Some(r.pvcs[0]);
    assert Discovered(RESERVED_RESULTS, "backup") == r.pvcs;
    CountStep(r.pvcs, "uid");
    RegroupingIsInverse(RESERVED_RESULTS, order, stored, "backup", "uid");
  }

  const RESERVED_RESULTS := [
    DiscoveryResult("backup", "oadp", Some(1), D.Completed, "", [PVC(RESERVED_NAME, "vms", "uid", "1Gi")])]

  lemma {:induction false} UIDCount(pvcs: seq<PVC>, uid: string)
    ensures multiset(Map(pvcs, (p: PVC) => p.uid))[uid] == CountUID(pvcs, uid)
  {
    if pvcs != [] {
      var n := |pvcs| - 1;
      UIDCount(pvcs[..n], uid);
      assert Map(pvcs, (p: PVC) => p.uid) == Map(pvcs[..n], (p: PVC) => p.uid) + [pvcs[n].uid];
    }
  }

  lemma {:induction false} DiscoveredIn(results: seq<DiscoveryResult>, k: nat)
    requires Distinct(Map(results, (r: DiscoveryResult) => r.backup)) && k < |results|
    ensures Discovered(results, results[k].backup) == if results[k].status.Completed? then results[k].pvcs else []
  {
    var n := |results| - 1;
    var names := Map(results, (r: DiscoveryResult) => r.backup);
    assert Map(results[..n], (r: DiscoveryResult) => r.backup) == names[..n];
    if k < n {
      assert names[k] != names[n];
      DiscoveredIn(results[..n], k);
    } else {
      forall j | 0 <= j < n ensures results[j].backup != results[n].backup {
        assert names[j] != names[n];
      }
      NothingDiscovered(results[..n], results[n].backup);
    }
  }

  lemma {:induction false} NothingDiscovered(results: seq<DiscoveryResult>, backup: string)
    requires forall k :: 0 <= k < |results| ==> results[k].backup != backup
    ensures Discovered(results, backup) == []
  {
    if results != [] {
      NothingDiscovered(results[..|results| - 1], backup);
    }
  }

  lemma VisibleCount(results: seq<DiscoveryResult>, order: seq<string>, stored: seq<PVCRestore>, backup: string,
                     uid: string)
    requires StoredFrom(results, order, stored)
    requires CountUID(Discovered(results, backup), uid) > 0 ==> !Hidden(results, uid)
    ensures multiset(SelectedUIDs(stored, backup))[uid] == CountUID(Discovered(results, backup), uid)
  {
    RegroupingIsInverse(results, order, stored, backup, uid);
  }

  /** No PVC of the list is hidden. */
  ghost predicate AllVisible(results: seq<DiscoveryResult>, pvcs: seq<PVC>) {
    forall j :: 0 <= j < |pvcs| ==> !Hidden(results, pvcs[j].uid)
  }

  lemma SelectedAsListed(results: seq<DiscoveryResult>, order: seq<string>, stored: seq<PVCRestore>, k: nat,
                         uid: string)
    requires StoredFrom(results, order, stored) && Distinct(Map(results, (r: DiscoveryResult) => r.backup))
    requires k < |results| && results[k].status.Completed? && AllVisible(results, results[k].pvcs)
    ensures multiset(SelectedUIDs(stored, results[k].backup))[uid] ==
            multiset(Map(results[k].pvcs, (p: PVC) => p.uid))[uid]
  {
    DiscoveredIn(results, k);
    UIDCount(results[k].pvcs, uid);
    UIDMember(results[k].pvcs, uid);
    VisibleCount(results, order, stored, results[k].backup, uid);
  }

  /** With unique backup names and visible PVCs, a Restore selects the UIDs of its backup, each once. */
  lemma SelectsEachOnce(results: seq<DiscoveryResult>, order: seq<string>, stored: seq<PVCRestore>, k: nat)
    requires StoredFrom(results, order, stored)
    requires Distinct(Map(results, (r: DiscoveryResult) => r.backup))
    requires k < |results| && results[k].status.Completed? && AllVisible(results, results[k].pvcs)
    requires Distinct(Map(results[k].pvcs, (p: PVC) => p.uid))
    ensures multiset(SelectedUIDs(stored, results[k].backup)) == multiset(Map(results[k].pvcs, (p: PVC) => p.uid))
    ensures Distinct(SelectedUIDs(stored, results[k].backup))
  {
    var uids, selected := Map(results[k].pvcs, (p: PVC) => p.uid), SelectedUIDs(stored, results[k].backup);
    forall uid ensures multiset(selected)[uid] == multiset(uids)[uid] {
      SelectedAsListed(results, order, stored, k, uid);
    }
    DistinctPermutation(uids, selected);
  }

  lemma UIDMember(pvcs: seq<PVC>, uid: string)
    ensures CountUID(pvcs, uid) > 0 ==> exists j :: 0 <= j < |pvcs| && pvcs[j].uid == uid
  {
    var kept := Filter(pvcs, (p: PVC) => p.uid == uid);
    FilterMembers(pvcs, (p: PVC) => p.uid == uid);
    if kept != [] {
      assert kept[0] in kept;
      assert kept[0] in pvcs;
    }
  }

  /** Each stored PVC lists the backups that contain it, newest first and undated ones last. */
  lemma StoredPerPVC(results: seq<DiscoveryResult>, order: seq<string>, stored: seq<PVCRestore>, uid: string)
    requires StoredFrom(results, order, stored) && RealUID(results, uid)
    ensures Contributions(results, uid) != [] <==> exists k :: 0 <= k < |stored| && stored[k].pvc.uid == uid
    ensures forall k :: 0 <= k < |stored| && stored[k].pvc.uid == uid ==>
              && multiset(stored[k].restores) == multiset(Contributions(results, uid))
              && (forall i, j :: 0 <= i < j < |stored[k].restores| ==>
                    Time(stored[k].restores[i]) >= Time(stored[k].restores[j]))
  {
    StoredOnceFrom(results, order, stored);
    GroupHolds(results, uid);
    if uid in Group(results) {
      var k :| 0 <= k < |order| && order[k] == uid;
      assert stored[k].pvc.uid == uid;
    }
  }
}
