/** Concrete runs: one that is stuck while discovering PVCs, and one that leaves an available pair unmounted. */
module WorkflowWitnesses {
  import opened Collections
  import opened RestoreModel
  import opened VeleroRestores
  import opened Monitoring
  import opened RestoreProgress
  import opened Pipeline
  import opened WorkflowModel
  import opened Workflow
  import opened WorkflowRuns
  import opened WorkflowStuck
  import opened WorkflowMounts

  const SPEC := Spec("team", "uid-of-restore", false, "oadp")

  /** A disk that two backups contain. */
  function Found(backup: string): RestoreInfo { RestoreInfo(backup, "oadp", Some(1), Available, "", "", "", NoPhase) }

  const DISK := PVC("disk", "vms", "uid", "1Gi")

  const DISKS := [PVCRestore(DISK, [Found("b1"), Found("b2")])]

  /** A reconcile in which everything outside succeeds. */
  function Everything(lands: Site -> bool): Inputs {
    Inputs(false, true, DiscoveryDone, true, DISKS, true, true, true, ["b1", "b2"], [Created("r1"), Created("r2")],
           false, PvcsReady, true, true, true, "", lands)
  }

  function AllLand(): Event { Reconciled(Everything(_ => true)) }

  /** Cut short between announcing the discovery of PVCs and storing its results. */
  function CutShort(): Event { Reconciled(Everything((site: Site) => site.StartWrite? || site.DiscoveringWrite?)) }

  const ACCEPTED := Set(NOTHING, New, false, Initialized, false, false, false)

  lemma RunOne(spec: Spec, events: seq<Event>, e: Event)
    ensures Run(spec, events + [e]) == Happen(spec, Run(spec, events), e)
  {
    assert (events + [e])[..|events|] == events;
  }

  lemma ValidOne(spec: Spec, events: seq<Event>, e: Event)
    requires ValidRun(spec, events) && (e.Reconciled? ==> ValidInputs(Run(spec, events), e.i))
    ensures ValidRun(spec, events + [e])
  {
    forall n | 0 <= n < |events + [e]| && (events + [e])[n].Reconciled?
      ensures ValidInputs(Run(spec, (events + [e])[..n]), (events + [e])[n].i)
    {
      assert (events + [e])[..n] == events[..n];
      assert n == |events| ==> events[..n] == events;
    }
  }

  lemma AcceptedRun()
    ensures Run(SPEC, [AllLand()]) == Cluster(ACCEPTED, [], {}) && ValidRun(SPEC, [AllLand()])
  {
    assert [] + [AllLand()] == [AllLand()];
    RunOne(SPEC, [], AllLand());
    ValidOne(SPEC, [], AllLand());
  }

  // ----- Stuck

  /** A reachable status that no continuation of the run changes. */
  lemma InterruptedDiscoveryIsStuck(more: seq<Event>)
    ensures ValidRun(SPEC, [AllLand(), CutShort()])
    ensures At(Run(SPEC, [AllLand(), CutShort()]).status, DiscoveringPVCs)
    ensures Continue(SPEC, Run(SPEC, [AllLand(), CutShort()]), more).status == Run(SPEC, [AllLand(), CutShort()]).status
  {
    AcceptedRun();
    assert [AllLand()] + [CutShort()] == [AllLand(), CutShort()];
    RunOne(SPEC, [AllLand()], CutShort());
    ValidOne(SPEC, [AllLand()], CutShort());
    StrandedForEver(SPEC, Run(SPEC, [AllLand(), CutShort()]), more);
  }

  // ----- A removed Restore goes unnoticed

  const VALIDATED := Working(ACCEPTED.(pvcRestores := DISKS), ValidationCompleted)

  lemma ValidatedStep()
    ensures Happen(SPEC, Cluster(ACCEPTED, [], {}), AllLand()) == Cluster(VALIDATED, [], {})
  {
    assert IsAvailable(DISKS[0].restores[0]);
    assert HasAvailable(DISKS[0]) && FullyAvailable(DISKS[0]);
  }

  const READY := Working(VALIDATED.(createdNamespace := "team"), NamespaceReady)

  lemma ReadyStep()
    ensures Happen(SPEC, Cluster(VALIDATED, [], {}), AllLand()) == Cluster(READY, [], {})
  {
  }

  const GROUPS := map["b1" := ["uid"], "b2" := ["uid"]]

  lemma DiskSelects(b: string)
    ensures SelectedUIDs(DISKS, b) == if b == "b1" || b == "b2" then ["uid"] else []
  {
    var e := DISKS[0];
    assert DISKS[..0] == [] && e.restores[..1][..0] == [] && e.restores[..2] == e.restores;
    assert UIDsFrom(e, e.restores[..1], b) == if b == "b1" then ["uid"] else [];
    assert UIDsFrom(e, e.restores, b) == if b == "b1" || b == "b2" then ["uid"] else [];
  }

  lemma DiskGroups()
    ensures GroupsOf(DISKS) == GROUPS
  {
    forall b ensures SelectedUIDs(DISKS, b) == if b in GROUPS then GROUPS[b] else [] { DiskSelects(b); }
    GroupsGiven(DISKS, GROUPS);
  }

  lemma GroupsGiven(stored: seq<PVCRestore>, groups: map<string, seq<string>>)
    requires forall b :: SelectedUIDs(stored, b) == if b in groups then groups[b] else []
    requires forall b :: b in groups ==> groups[b] != []
    ensures GroupsOf(stored) == groups
  {
    GroupsAreUnique(stored, groups);
  }

  function Velero(name: string, backup: string, phase: RestorePhase): VeleroRestore {
    VeleroRestore(name, "uid-of-restore", backup, ["uid"], phase)
  }

  const NAMES := map["b1" := "r1", "b2" := "r2"]

  const CREATED := [Velero("r1", "b1", NoPhase), Velero("r2", "b2", NoPhase)]

  lemma BothCreated()
    ensures Create([], "uid-of-restore", GROUPS, ["b1", "b2"], [Created("r1"), Created("r2")]) ==
            Creation(Some(NAMES), CREATED)
  {
    var order, outcomes := ["b1", "b2"], [Created("r1"), Created("r2")];
    assert order[..1] == ["b1"] && outcomes[..1] == [Created("r1")];
    assert order[..1][..0] == [] && outcomes[..1][..0] == [];
    assert Create([], "uid-of-restore", GROUPS, order[..1], outcomes[..1]) ==
      Creation(Some(map["b1" := "r1"]), [Velero("r1", "b1", NoPhase)]);
    assert map["b1" := "r1"]["b2" := "r2"] == NAMES;
  }

  const WAITING := Working(READY.(pvcRestores := Named(DISKS, NAMES, "oadp")), WaitingForRestores)

  lemma DisksCallable()
    ensures Callable(GROUPS, ["b1", "b2"], [Created("r1"), Created("r2")])
    ensures Distinct(["b1", "b2"]) && (forall b :: b in ["b1", "b2"] <==> b in GROUPS)
    ensures NamesNew([], [Created("r1"), Created("r2")])
  {
  }

  lemma DisksUnnamed()
    ensures !AllRestoresNamed(DISKS) && Unnamed(DISKS)
  {
    assert DISKS[0].restores[0].restoreName == "" && !InfosNamed(DISKS[0]);
  }

  lemma DisksAreCreated()
    ensures var c, i := Cluster(READY, [], {}), Everything(_ => true);
      ValidInputs(c, i) && CreationOf(SPEC, c, i) == Creation(Some(NAMES), CREATED)
  {
    var c, i := Cluster(READY, [], {}), Everything(_ => true);
    DiskGroups();
    DisksCallable();
    DisksUnnamed();
    assert "b1" in GROUPS;
    BothCreated();
  }

  lemma WaitingStep()
    ensures Happen(SPEC, Cluster(READY, [], {}), AllLand()) == Cluster(WAITING, CREATED, {})
  {
    DisksAreCreated();
    DisksUnnamed();
  }

  const DONE := [Velero("r1", "b1", RPCompleted)]

  /** Somebody removes the second Restore, and the first completes. */
  lemma LostStep()
    ensures Happen(SPEC, Happen(SPEC, Cluster(WAITING, CREATED, {}), RestoreRemoved(1)), VeleroMoves(0, RPCompleted)) ==
      Cluster(WAITING, DONE, {"r2"})
  {
    assert CREATED[..1] + CREATED[2..] == [CREATED[0]];
    assert [CREATED[0]][0 := Velero("r1", "b1", RPCompleted)] == DONE;
  }

  lemma ServedStep()
    ensures At(Happen(SPEC, Cluster(WAITING, DONE, {"r2"}), AllLand()).status, RestoresCompleted)
  {
    assert DONE[..0] == [];
    assert CompletedCount(DONE) == 1 && FailedCount(DONE) == 0;
    var stored := WAITING.pvcRestores;
    var x := stored[0].restores[0];
    var followed := FollowStored(stored, DONE, "oadp");
    assert FollowAll(x, DONE, "oadp") == Follow(FollowAll(x, DONE[..0], "oadp"), DONE[0], "oadp");
    assert IsMountable(followed[0].restores[0]);
    MountableIsMounted(followed, 0, 0);
  }

  lemma {:induction false} MountableIsMounted(stored: seq<PVCRestore>, k: nat, j: nat)
    requires k < |stored| && !IsSynthetic(stored[k]) && j < |stored[k].restores| && IsMountable(stored[k].restores[j])
    ensures Mounts(stored) != []
  {
    var n := |stored| - 1;
    if k < n {
      MountableIsMounted(stored[..n], k, j);
    } else {
      FilterMembers(stored[k].restores, IsMountable);
      assert stored[k].restores[j] in Filter(stored[k].restores, IsMountable);
    }
  }

  lemma PreparedRun()
    ensures var events := [AllLand(), AllLand(), AllLand()];
      ValidRun(SPEC, events) && Run(SPEC, events) == Cluster(READY, [], {})
  {
    AcceptedRun();
    ValidatedStep();
    ReadyStep();
    RunOne(SPEC, [AllLand()], AllLand());
    ValidOne(SPEC, [AllLand()], AllLand());
    assert [AllLand()] + [AllLand()] == [AllLand(), AllLand()];
    RunOne(SPEC, [AllLand(), AllLand()], AllLand());
    ValidOne(SPEC, [AllLand(), AllLand()], AllLand());
    assert [AllLand(), AllLand()] + [AllLand()] == [AllLand(), AllLand(), AllLand()];
  }

  lemma CreatedRun(events: seq<Event>)
    requires ValidRun(SPEC, events) && Run(SPEC, events) == Cluster(READY, [], {})
    ensures ValidRun(SPEC, events + [AllLand()]) && Run(SPEC, events + [AllLand()]) == Cluster(WAITING, CREATED, {})
  {
    DisksAreCreated();
    ValidOne(SPEC, events, AllLand());
    WaitingStep();
    RunOne(SPEC, events, AllLand());
  }

  lemma LostRun(events: seq<Event>)
    requires ValidRun(SPEC, events) && Run(SPEC, events) == Cluster(WAITING, CREATED, {})
    ensures var lost := events + [RestoreRemoved(1)] + [VeleroMoves(0, RPCompleted)];
      ValidRun(SPEC, lost) && Run(SPEC, lost) == Cluster(WAITING, DONE, {"r2"})
  {
    LostStep();
    RunOne(SPEC, events, RestoreRemoved(1));
    ValidOne(SPEC, events, RestoreRemoved(1));
    RunOne(SPEC, events + [RestoreRemoved(1)], VeleroMoves(0, RPCompleted));
    ValidOne(SPEC, events + [RestoreRemoved(1)], VeleroMoves(0, RPCompleted));
  }

  lemma ServedRun(events: seq<Event>)
    requires ValidRun(SPEC, events) && Run(SPEC, events) == Cluster(WAITING, DONE, {"r2"})
    ensures var served := events + [AllLand()];
      && ValidRun(SPEC, served) && At(Run(SPEC, served).status, RestoresCompleted)
      && var stored := Run(SPEC, served).status.pvcRestores; Mounts(stored) != AvailablePairs(stored)
  {
    ServedStep();
    RunOne(SPEC, events, AllLand());
    ValidOne(SPEC, events, AllLand());
    EveryRunIsWhole(SPEC, events);
    MovingOnMountsExactly(SPEC, Cluster(WAITING, DONE, {"r2"}), Everything(_ => true));
    var x := WAITING.pvcRestores[0].restores[1];
    assert x.restoreName == "r2" && !Listed(x, DONE) && !IsMountable(x);
  }

  function Preparation(): seq<Event> { [AllLand(), AllLand(), AllLand()] }

  function LossyRun(): seq<Event> {
    Preparation() + [AllLand()] + [RestoreRemoved(1)] + [VeleroMoves(0, RPCompleted)] + [AllLand()]
  }

  /** A run in which a Restore is removed and the workflow moves on with an available pair unmounted. */
  lemma RemovedRestoreGoesUnnoticed()
    ensures ValidRun(SPEC, LossyRun())
    ensures var s := Run(SPEC, LossyRun()).status;
      At(s, RestoresCompleted) && Mounts(s.pvcRestores) != AvailablePairs(s.pvcRestores)
  {
    PreparedRun();
    CreatedRun(Preparation());
    LostRun(Preparation() + [AllLand()]);
    ServedRun(Preparation() + [AllLand()] + [RestoreRemoved(1)] + [VeleroMoves(0, RPCompleted)]);
  }
}
