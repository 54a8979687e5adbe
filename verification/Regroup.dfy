/**
 * Backup-centric discovery results regrouped per PVC: a map keyed by PVC UID, and per PVC the list
 * of its backups sorted in place, newest first.
 */
module Regroup {
  import opened Collections
  import opened RestoreModel

  // ----- Grouping

  function SyntheticUID(r: DiscoveryResult): string {
    "backup-failure-" + r.namespace + "-" + r.backup
  }

  function SyntheticEntry(r: DiscoveryResult, state: State): PVCRestore {
    PVCRestore(PVC(RESERVED_NAME, r.namespace, SyntheticUID(r), "N/A"),
               [RestoreInfo(r.backup, r.namespace, r.createdAt, state, r.message, "", "", NoPhase)])
  }

  /** A failed backup without PVC data becomes an entry of its own. */
  predicate IsBackupFailure(r: DiscoveryResult) {
    StateOf(r).Some? && StateOf(r).value != Available && r.pvcs == []
  }

  function AddPVC(m: map<string, PVCRestore>, info: RestoreInfo, pvc: PVC): map<string, PVCRestore> {
    var entry := if pvc.uid in m then m[pvc.uid] else PVCRestore(pvc, []);
    m[pvc.uid := entry.(restores := entry.restores + [info])]
  }

  function AddPVCs(m: map<string, PVCRestore>, info: RestoreInfo, pvcs: seq<PVC>): map<string, PVCRestore> {
    if pvcs == [] then m else AddPVC(AddPVCs(m, info, pvcs[..|pvcs| - 1]), info, pvcs[|pvcs| - 1])
  }

  function AddResult(m: map<string, PVCRestore>, r: DiscoveryResult): map<string, PVCRestore> {
    if StateOf(r).None? then m
    else if IsBackupFailure(r) then m[SyntheticUID(r) := SyntheticEntry(r, StateOf(r).value)]
    else AddPVCs(m, InfoOf(r, StateOf(r).value), r.pvcs)
  }

  function Group(results: seq<DiscoveryResult>): map<string, PVCRestore> {
    if results == [] then map[] else AddResult(Group(results[..|results| - 1]), results[|results| - 1])
  }

  method AddPVCLoop(before: map<string, PVCRestore>, r: DiscoveryResult,
                    state: State) returns (m: map<string, PVCRestore>)
    ensures m == AddPVCs(before, InfoOf(r, state), r.pvcs)
  {
    m := before;
    for k := 0 to |r.pvcs|
      invariant m == AddPVCs(before, InfoOf(r, state), r.pvcs[..k])
    {
      assert r.pvcs[..k + 1][..k] == r.pvcs[..k];
      var pvc := r.pvcs[k];
      ghost var start := m;
      if pvc.uid !in m {
        m := m[pvc.uid := PVCRestore(pvc, [])];
      }
      var info := RestoreInfo(r.backup, r.namespace, r.createdAt, state, "", "", "", NoPhase);
      if state != Available {
        info := info.(failure := r.message);
      }
      m := m[pvc.uid := m[pvc.uid].(restores := m[pvc.uid].restores + [info])];
      assert m == AddPVC(start, InfoOf(r, state), pvc);
    }
    assert r.pvcs[..|r.pvcs|] == r.pvcs;
  }

  method GroupResults(results: seq<DiscoveryResult>) returns (m: map<string, PVCRestore>)
    ensures m == Group(results)
  {
    m := map[];
    for k := 0 to |results|
      invariant m == Group(results[..k])
    {
      assert results[..k + 1][..k] == results[..k];
      var r := results[k];
      var state := StateOf(r);
      if state.None? {
        continue;
      }
      if state.value != Available && |r.pvcs| == 0 {
        m := m[SyntheticUID(r) := SyntheticEntry(r, state.value)];
        continue;
      }
      m := AddPVCLoop(m, r, state.value);
    }
    assert results[..|results|] == results;
  }

  // ----- Sorting one PVC's backups, newest first

  /** A missing timestamp compares as the zero time, the earliest there is. */
  function Time(x: RestoreInfo): nat { if x.timestamp.None? then 0 else x.timestamp.value }

  ghost predicate NewestFirst(s: seq<RestoreInfo>) {
    forall i, j :: 0 <= i < j < |s| ==> Time(s[i]) >= Time(s[j])
  }

  method Exchange(a: array<RestoreInfo>, i: nat, j: nat)
    requires i < j < a.Length
    modifies a
    ensures a[..] == old(a[..])[i := old(a[j])][j := old(a[i])]
    ensures multiset(a[..]) == multiset(old(a[..]))
  {
    a[i], a[j] := a[j], a[i];
  }

  /** The prefix of length i is in place: sorted, and nothing after it is newer. */
  ghost predicate Placed(s: seq<RestoreInfo>, i: nat) {
    forall p, q :: 0 <= p < q < |s| && p < i ==> Time(s[p]) >= Time(s[q])
  }

  ghost predicate Newest(s: seq<RestoreInfo>, i: nat, j: nat)
    requires i < |s| && j <= |s|
  {
    forall q :: i < q < j ==> Time(s[i]) >= Time(s[q])
  }

  lemma ExchangeKeepsPlaced(s: seq<RestoreInfo>, i: nat, j: nat)
    requires i < j < |s| && Placed(s, i) && Newest(s, i, j) && Time(s[j]) > Time(s[i])
    ensures Placed(s[i := s[j]][j := s[i]], i)
    ensures Newest(s[i := s[j]][j := s[i]], i, j + 1)
  {
  }

  method SelectNewest(a: array<RestoreInfo>, i: nat)
    requires i < a.Length && Placed(a[..], i)
    modifies a
    ensures Placed(a[..], i + 1)
    ensures multiset(a[..]) == multiset(old(a[..]))
  {
    var j := i + 1;
    while j < a.Length
      invariant i < j <= a.Length
      invariant Placed(a[..], i) && Newest(a[..], i, j)
      invariant multiset(a[..]) == multiset(old(a[..]))
    {
      if Time(a[j]) > Time(a[i]) {
        ExchangeKeepsPlaced(a[..], i, j);
        Exchange(a, i, j);
      }
      j := j + 1;
    }
  }

  method SortRestoresByTimestamp(a: array<RestoreInfo>)
    modifies a
    ensures NewestFirst(a[..])
    ensures multiset(a[..]) == multiset(old(a[..]))
  {
    var i := 0;
    while i < a.Length
      invariant 0 <= i <= a.Length
      invariant Placed(a[..], i)
      invariant multiset(a[..]) == multiset(old(a[..]))
    {
      SelectNewest(a, i);
      i := i + 1;
    }
  }

  method Sorted(restores: seq<RestoreInfo>) returns (sorted: seq<RestoreInfo>)
    ensures NewestFirst(sorted)
    ensures multiset(sorted) == multiset(restores)
  {
    var a := new RestoreInfo[|restores|](k requires 0 <= k < |restores| => restores[k]);
    assert a[..] == restores;
    SortRestoresByTimestamp(a);
    sorted := a[..];
  }

  // ----- The stored list

  /** The list stored in the status: every group once, in map order, its backups newest first. */
  ghost predicate StoredFrom(results: seq<DiscoveryResult>, order: seq<string>, stored: seq<PVCRestore>) {
    && Distinct(order) && (forall uid :: uid in order <==> uid in Group(results))
    && |stored| == |order|
    && (forall k :: 0 <= k < |stored| ==>
          && order[k] in Group(results)
          && stored[k].pvc == Group(results)[order[k]].pvc
          && NewestFirst(stored[k].restores)
          && multiset(stored[k].restores) == multiset(Group(results)[order[k]].restores))
  }

  method ProcessDiscoveryResults(results: seq<DiscoveryResult>, order: seq<string>) returns (stored: seq<PVCRestore>)
    requires Distinct(order) && (forall uid :: uid in order <==> uid in Group(results))
    ensures StoredFrom(results, order, stored)
  {
    var m := GroupResults(results);
    stored := [];
    for k := 0 to |order|
      invariant |stored| == k
      invariant forall j :: 0 <= j < k ==>
        && order[j] in m
        && stored[j].pvc == m[order[j]].pvc
        && NewestFirst(stored[j].restores)
        && multiset(stored[j].restores) == multiset(m[order[j]].restores)
    {
      assert order[k] in order;
      var sorted := Sorted(m[order[k]].restores);
      stored := stored + [m[order[k]].(restores := sorted)];
    }
  }
}
