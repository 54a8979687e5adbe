/**
 * The restore pipeline end to end: discovery results grouped per PVC, regrouped per backup, named
 * after the created Restores, followed to completion and mounted.
 */
module Pipeline {
  import opened Collections
  import opened RestoreModel
  import opened Regroup
  import opened VeleroRestores
  import opened Monitoring
  import opened RestoreProgress

  function Pair(m: Mount): (string, string) { (m.pvcUID, m.backup) }

  function Pairs(mounts: seq<Mount>): multiset<(string, string)> { multiset(Map(mounts, Pair)) }

  lemma PairsAppend(a: seq<Mount>, b: seq<Mount>)
    ensures Pairs(a + b) == Pairs(a) + Pairs(b)
  {
    MapAppend(a, b, Pair);
  }

  // ----- Naming and following do not change what is available

  ghost predicate SameShape(a: PVCRestore, b: PVCRestore) {
    && a.pvc == b.pvc && |a.restores| == |b.restores|
    && (forall j :: 0 <= j < |a.restores| ==>
          && a.restores[j].backup == b.restores[j].backup && a.restores[j].state == b.restores[j].state
          && a.restores[j].timestamp == b.restores[j].timestamp)
  }

  ghost predicate SameShapes(a: seq<PVCRestore>, b: seq<PVCRestore>) {
    |a| == |b| && forall k :: 0 <= k < |a| ==> SameShape(a[k], b[k])
  }

  function AvailableMounts(e: PVCRestore, restores: seq<RestoreInfo>): seq<Mount> {
    Map(Filter(restores, IsAvailable), x => MountOf(e, x))
  }

  /** Multiplicity of a pair among the available restores of one PVC. */
  lemma {:induction false} EntryPairs(e: PVCRestore, restores: seq<RestoreInfo>, uid: string, backup: string)
    requires !IsSynthetic(e)
    ensures Pairs(AvailableMounts(e, restores))[(uid, backup)] == multiset(UIDsFrom(e, restores, backup))[uid]
  {
    if restores != [] {
      var n := |restores| - 1;
      EntryPairs(e, restores[..n], uid, backup);
      if IsAvailable(restores[n]) {
        assert AvailableMounts(e, restores) == AvailableMounts(e, restores[..n]) + [MountOf(e, restores[n])];
        PairsAppend(AvailableMounts(e, restores[..n]), [MountOf(e, restores[n])]);
        assert Map([MountOf(e, restores[n])], Pair) == [(e.pvc.uid, restores[n].backup)];
      } else {
        assert AvailableMounts(e, restores) == AvailableMounts(e, restores[..n]);
      }
    }
  }

  /** The available pairs of a backup are the UIDs its Restore selects. */
  lemma {:induction false} AvailablePairsAreSelected(stored: seq<PVCRestore>, uid: string, backup: string)
    ensures Pairs(AvailablePairs(stored))[(uid, backup)] == multiset(SelectedUIDs(stored, backup))[uid]
  {
    if stored != [] {
      var n := |stored| - 1;
      AvailablePairsAreSelected(stored[..n], uid, backup);
      PairsAppend(AvailablePairs(stored[..n]), AvailableOf(stored[n]));
      if !IsSynthetic(stored[n]) {
        EntryPairs(stored[n], stored[n].restores, uid, backup);
        assert AvailableOf(stored[n]) == AvailableMounts(stored[n], stored[n].restores);
      }
    }
  }

  lemma {:induction false} SameUIDs(a: PVCRestore, b: PVCRestore, n: nat, backup: string)
    requires SameShape(a, b) && n <= |a.restores|
    ensures UIDsFrom(a, a.restores[..n], backup) == UIDsFrom(b, b.restores[..n], backup)
  {
    if n > 0 {
      SameUIDs(a, b, n - 1, backup);
      assert a.restores[..n][..n - 1] == a.restores[..n - 1];
      assert b.restores[..n][..n - 1] == b.restores[..n - 1];
    }
  }

  lemma {:induction false} SameSelection(a: seq<PVCRestore>, b: seq<PVCRestore>, backup: string)
    requires SameShapes(a, b)
    ensures SelectedUIDs(a, backup) == SelectedUIDs(b, backup)
  {
    if a != [] {
      var n := |a| - 1;
      SameSelection(a[..n], b[..n], backup);
      SameUIDs(a[n], b[n], |a[n].restores|, backup);
      assert a[n].restores[..|a[n].restores|] == a[n].restores;
      assert b[n].restores[..|b[n].restores|] == b[n].restores;
    }
  }

  // ----- From the created Restores to tracked records

  lemma {:induction false} AvailableIsGrouped(stored: seq<PVCRestore>, k: nat, j: nat)
    requires k < |stored| && !IsSynthetic(stored[k]) && j < |stored[k].restores| && IsAvailable(stored[k].restores[j])
    ensures SelectedUIDs(stored, stored[k].restores[j].backup) != []
  {
    var n := |stored| - 1;
    if k < n {
      AvailableIsGrouped(stored[..n], k, j);
    } else {
      SelectedFromEntry(stored[k], stored[k].restores, j);
    }
  }

  lemma {:induction false} SelectedFromEntry(e: PVCRestore, restores: seq<RestoreInfo>, j: nat)
    requires !IsSynthetic(e) && j < |restores| && IsAvailable(restores[j])
    ensures UIDsFrom(e, restores, restores[j].backup) != []
  {
    if j < |restores| - 1 {
      SelectedFromEntry(e, restores[..|restores| - 1], j);
    }
  }

  function Named(stored: seq<PVCRestore>, names: map<string, string>, namespace: string): seq<PVCRestore> {
    Map(stored, e => NameEntry(names, namespace, e))
  }

  lemma NamedShapes(stored: seq<PVCRestore>, names: map<string, string>, namespace: string)
    ensures SameShapes(stored, Named(stored, names, namespace))
  {
  }

  /** A successful creation names every available restore after a Restore of its backup. */
  lemma NamedAreTracked(stored: seq<PVCRestore>, groups: map<string, seq<string>>, names: map<string, string>,
                        owner: string, owned: seq<VeleroRestore>, namespace: string)
    requires GroupedByBackup(stored, groups)
    requires (forall b :: b in groups <==> b in names) && AllNamed(owned, owner, names)
    requires forall v :: v in owned ==> v.name != ""
    ensures AllTracked(Named(stored, names, namespace), owned)
  {
    var after := Named(stored, names, namespace);
    forall k, j | 0 <= k < |after| && !IsSynthetic(after[k]) && 0 <= j < |after[k].restores|
      ensures Tracked(after[k].restores[j], owned)
    {
      var x := stored[k].restores[j];
      if IsAvailable(x) {
        AvailableIsGrouped(stored, k, j);
        assert NamesRestore(owned, owner, x.backup, names[x.backup]);
        var i :| 0 <= i < |owned| && IsOwned(owned[i], owner, x.backup) && owned[i].name == names[x.backup];
        assert owned[i] in owned;
      }
    }
  }

  /**
   * End to end: once the created Restores have all completed, a (PVC, backup) pair is mounted
   * exactly as often as the discovery found that PVC in that backup, and never otherwise; only PVCs
   * hidden by a reserved name or key stay unmounted.
   */
  lemma MountsAreTheDiscoveries(results: seq<DiscoveryResult>, order: seq<string>, stored: seq<PVCRestore>,
                                groups: map<string, seq<string>>, names: map<string, string>, owner: string,
                                owned: seq<VeleroRestore>, namespace: string, uid: string, backup: string)
    requires StoredFrom(results, order, stored) && GroupedByBackup(stored, groups)
    requires (forall b :: b in groups <==> b in names) && AllNamed(owned, owner, names)
    requires Distinct(Map(owned, RestoreNameOf)) && (forall v :: v in owned ==> v.name != "")
    requires forall k :: 0 <= k < |owned| ==> CountsAsCompleted(owned[k].phase)
    ensures var mounts := Mounts(FollowStored(Named(stored, names, namespace), owned, namespace));
            Pairs(mounts)[(uid, backup)] ==
            if Hidden(results, uid) then 0 else CountUID(Discovered(results, backup), uid)
  {
    var named := Named(stored, names, namespace);
    NamedAreTracked(stored, groups, names, owner, owned, namespace);
    AllPairsMounted(named, owned, namespace);
    AvailablePairsAreSelected(named, uid, backup);
    NamedShapes(stored, names, namespace);
    SameSelection(stored, named, backup);
    RegroupingIsInverse(results, order, stored, backup, uid);
  }
}
