/** What every interleaving of the shared-namespace machine keeps. */
module SharedNamespaceSafety {
  import opened Collections
  import opened SharedNamespace

  // ----- The invariant

  predicate AccountServes(w: World, ns: string) {
    ns in w.deleted || (AccountIn(w, ns).Some? && AccountIn(w, ns).value.managed)
  }

  predicate BindingServes(w: World, ns: string) {
    ns in w.deleted || !w.openshift
    || (BindingIn(w, ns).Some? && BindingIn(w, ns).value.managed && BindingIn(w, ns).value.correct)
  }

  predicate AccountMade(w: World, ns: string) { AccountIn(w, ns).Some? && AccountIn(w, ns).value.byController }

  predicate BindingMade(w: World, ns: string) { BindingIn(w, ns).Some? && BindingIn(w, ns).value.byController }

  predicate HasMade(w: World, ns: string) { AccountMade(w, ns) || BindingMade(w, ns) }

  /** The restore still has its main finalizer and has the namespace recorded. */
  predicate Holds(w: World, uid: Uid, ns: string) {
    uid in w.restores && w.restores[uid].mainFinalizer && w.restores[uid].recorded == ns
  }

  predicate Settled(x: Restore) { (x.stage.NamespaceReady? || x.stage.Beyond?) && !x.deleting }

  ghost predicate OtherHolds(w: World, uid: Uid, ns: string) {
    exists other :: other != uid && Holds(w, other, ns)
  }

  ghost predicate ObjectsWellFormed(w: World) {
    && "" !in w.namespaces
    && (forall ns :: AccountMade(w, ns) ==> AccountIn(w, ns).value.managed)
    && (forall ns :: BindingMade(w, ns) ==> BindingIn(w, ns).value.managed)
  }

  predicate RestoreWellFormed(x: Restore) {
    && Home(x) != ""
    && (x.recorded == "" || x.recorded == Home(x))
    && (x.stage.Created? ==> x.recorded == "")
    && (!x.stage.Created? && !x.deleting ==> x.mainFinalizer)
    && (Settled(x) ==> x.recorded != "")
  }

  ghost predicate RestoresWellFormed(w: World) {
    forall uid :: uid in w.restores ==> RestoreWellFormed(w.restores[uid])
  }

  /** Every settled restore finds its access objects. */
  ghost predicate Served(w: World) {
    forall uid :: uid in w.restores && Settled(w.restores[uid]) ==>
      AccountServes(w, w.restores[uid].recorded) && BindingServes(w, w.restores[uid].recorded)
  }

  /** Every access object the controller made is held by some restore. */
  ghost predicate Held(w: World) {
    forall ns :: HasMade(w, ns) ==> exists uid :: Holds(w, uid, ns)
  }

  predicate Creating(w: World, uid: Uid, ns: string) {
    && uid in w.restores && w.restores[uid].mainFinalizer && w.restores[uid].stage.Validated?
    && ns == Home(w.restores[uid])
  }

  predicate Cleaning(w: World, uid: Uid, ns: string) {
    uid in w.restores && w.restores[uid].deleting && w.restores[uid].mainFinalizer && w.restores[uid].recorded == ns
  }

  /** What the worker relies on when it makes a call. */
  ghost predicate CallSound(w: World, uid: Uid, c: Call) {
    && uid in w.restores
    && var x := w.restores[uid];
    match c
    case PatchFinalizers => x.stage.Created?
    case PatchPhaseNew => x.stage.Created? && x.mainFinalizer
    case RunValidation => x.stage.Validating? && x.mainFinalizer
    case CheckNamespace => Creating(w, uid, x.target)
    case CreateTemporary => Creating(w, uid, x.temporaryName)
    case RecordNamespace(ns) => Creating(w, uid, ns)
    case GetAccount(ns) => Creating(w, uid, ns) && x.recorded == ns
    case CreateAccount(ns) => Creating(w, uid, ns) && x.recorded == ns
    case RegetAccount(ns) => Creating(w, uid, ns) && x.recorded == ns
    case GetBinding(ns) => Creating(w, uid, ns) && x.recorded == ns && AccountServes(w, ns)
    case CreateBinding(ns) => Creating(w, uid, ns) && x.recorded == ns && AccountServes(w, ns)
    case RegetBinding(ns) => Creating(w, uid, ns) && x.recorded == ns && AccountServes(w, ns)
    case PatchReady(ns) => Creating(w, uid, ns) && x.recorded == ns && AccountServes(w, ns) && BindingServes(w, ns)
    case PatchFailed => x.stage.Validated? && x.mainFinalizer
    case PatchBeyond => x.stage.NamespaceReady? && x.mainFinalizer
    case RemoveVeleroFinalizer => x.deleting && x.veleroFinalizer
    case GetNamespace(ns) => ns != "" && Cleaning(w, uid, ns)
    case DeleteTemporary(ns) => ns != "" && Cleaning(w, uid, ns)
    case ListOthers(ns) => ns != "" && Cleaning(w, uid, ns)
    case ProbeBinding(ns) => ns != "" && Cleaning(w, uid, ns) && !InUseByOther(w, uid, ns)
    case DeleteBinding(ns) => ns != "" && Cleaning(w, uid, ns) && !InUseByOther(w, uid, ns)
    case ProbeAccount(ns) => ns != "" && Cleaning(w, uid, ns) && !InUseByOther(w, uid, ns) && !BindingMade(w, ns)
    case DeleteAccount(ns) => ns != "" && Cleaning(w, uid, ns) && !InUseByOther(w, uid, ns) && !BindingMade(w, ns)
    case DropFinalizer(ns) => Cleaning(w, uid, ns) && (HasMade(w, ns) ==> OtherHolds(w, uid, ns))
  }

  ghost predicate WorldSound(w: World) { ObjectsWellFormed(w) && RestoresWellFormed(w) && Served(w) && Held(w) }

  /** Only a restore that has no finalizer yet can disappear under the worker. */
  ghost predicate WorkerSound(w: World) {
    w.worker.Busy? ==>
      if w.worker.uid in w.restores then CallSound(w, w.worker.uid, w.worker.call) else w.worker.call.PatchFinalizers?
  }

  ghost predicate Sound(w: World) { WorldSound(w) && WorkerSound(w) }

  // ----- Writes that keep the world sound

  predicate SameObjects(w: World, v: World) {
    v.namespaces == w.namespaces && v.deleted == w.deleted && v.openshift == w.openshift
  }

  /** At most this restore differs. */
  ghost predicate OnlyRestore(w: World, v: World, uid: Uid) {
    forall other :: other != uid ==>
      (other in v.restores <==> other in w.restores) && (other in w.restores ==> v.restores[other] == w.restores[other])
  }

  /** The restore keeps its hold on a namespace, or another holder of the namespace exists. */
  ghost predicate KeepsHold(w: World, v: World, uid: Uid) {
    forall ns :: HasMade(w, ns) && Holds(w, uid, ns) ==> Holds(v, uid, ns) || OtherHolds(w, uid, ns)
  }

  lemma RestoreWriteKeeps(w: World, v: World, uid: Uid)
    requires WorldSound(w) && SameObjects(w, v) && OnlyRestore(w, v, uid) && KeepsHold(w, v, uid)
    requires uid in v.restores ==> RestoreWellFormed(v.restores[uid])
    requires uid in v.restores && Settled(v.restores[uid]) ==>
      AccountServes(w, v.restores[uid].recorded) && BindingServes(w, v.restores[uid].recorded)
    ensures WorldSound(v)
  {
    forall ns | HasMade(v, ns) ensures exists holder :: Holds(v, holder, ns) {
      assert HasMade(w, ns);
      var holder :| Holds(w, holder, ns);
      if holder != uid {
        assert Holds(v, holder, ns);
      } else if !Holds(v, uid, ns) {
        var other :| other != uid && Holds(w, other, ns);
        assert Holds(v, other, ns);
      }
    }
    forall ns ensures AccountMade(v, ns) == AccountMade(w, ns) && BindingMade(v, ns) == BindingMade(w, ns) {}
  }

  /** At most this namespace differs. */
  ghost predicate OnlyNamespace(w: World, v: World, ns: string) {
    && v.restores == w.restores && v.openshift == w.openshift
    && w.deleted <= v.deleted
    && forall other :: other != ns ==>
         (other in v.namespaces <==> other in w.namespaces)
         && (other in w.namespaces ==> v.namespaces[other] == w.namespaces[other])
  }

  /** No settled restore has the namespace recorded. */
  ghost predicate Unsettled(w: World, ns: string) {
    forall uid :: uid in w.restores && Settled(w.restores[uid]) ==> w.restores[uid].recorded != ns
  }

  lemma NamespaceWriteKeeps(w: World, v: World, ns: string)
    requires WorldSound(w) && OnlyNamespace(w, v, ns) && "" !in v.namespaces
    requires AccountMade(v, ns) ==> AccountIn(v, ns).value.managed
    requires BindingMade(v, ns) ==> BindingIn(v, ns).value.managed
    requires HasMade(v, ns) ==> HasMade(w, ns) || exists uid :: Holds(w, uid, ns)
    requires Unsettled(w, ns)
      || ((AccountServes(w, ns) ==> AccountServes(v, ns)) && (BindingServes(w, ns) ==> BindingServes(v, ns)))
    ensures WorldSound(v)
  {
    forall other
      ensures other != ns ==> AccountIn(v, other) == AccountIn(w, other) && BindingIn(v, other) == BindingIn(w, other)
    {}
    forall other | HasMade(v, other) ensures exists uid :: Holds(v, uid, other) {
      assert HasMade(w, other) || exists uid :: Holds(w, uid, other);
      var uid :| Holds(w, uid, other);
      assert Holds(v, uid, other);
    }
    forall other ensures AccountMade(v, other) ==> AccountIn(v, other).value.managed {
      assert other != ns ==> AccountMade(v, other) == AccountMade(w, other);
    }
    forall other ensures BindingMade(v, other) ==> BindingIn(v, other).value.managed {
      assert other != ns ==> BindingMade(v, other) == BindingMade(w, other);
    }
    forall other ensures other != ns ==>
        (AccountServes(w, other) ==>
            AccountServes(v, other)) && (BindingServes(w, other) ==> BindingServes(v, other)) {}
  }

  lemma WorkerDoesNotMatter(w: World, worker: Worker)
    requires WorldSound(w)
    ensures WorldSound(w.(worker := worker))
  {
    RestoreWriteKeeps(w, w.(worker := worker), 0);
  }

  // ----- Steps of the worker

  lemma BeginKeeps(w: World, uid: Uid)
    requires Sound(w)
    ensures Sound(Apply(w, Begin(uid)))
  {
    WorkerDoesNotMatter(w, Apply(w, Begin(uid)).worker);
  }

  predicate WritesNamespace(c: Call) {
    || c.CreateTemporary? || c.CreateAccount? || c.CreateBinding?
    || c.DeleteTemporary? || c.DeleteBinding? || c.DeleteAccount?
  }

  lemma NamespaceCreationKeepsWorld(w: World, uid: Uid)
    requires WorldSound(w) && CallSound(w, uid, CreateTemporary)
    ensures WorldSound(PerformSuccess(w, uid, CreateTemporary))
  {
    var ns := w.restores[uid].temporaryName;
    assert AccountMade(w, ns) ==> AccountIn(w, ns).value.managed;
    assert BindingMade(w, ns) ==> BindingIn(w, ns).value.managed;
    NamespaceWriteKeeps(w, PerformSuccess(w, uid, CreateTemporary), ns);
  }

  lemma CreationKeepsWorld(w: World, uid: Uid, c: Call)
    requires WorldSound(w) && CallSound(w, uid, c)
    requires c.CreateAccount? || c.CreateBinding?
    ensures WorldSound(PerformSuccess(w, uid, c))
  {
    assert Holds(w, uid, c.ns);
    assert AccountMade(w, c.ns) ==> AccountIn(w, c.ns).value.managed;
    assert BindingMade(w, c.ns) ==> BindingIn(w, c.ns).value.managed;
    NamespaceWriteKeeps(w, PerformSuccess(w, uid, c), c.ns);
  }

  lemma DeletionKeepsWorld(w: World, uid: Uid, c: Call)
    requires WorldSound(w) && CallSound(w, uid, c)
    requires c.DeleteTemporary? || c.DeleteBinding? || c.DeleteAccount?
    ensures WorldSound(PerformSuccess(w, uid, c))
  {
    assert AccountMade(w, c.ns) ==> AccountIn(w, c.ns).value.managed;
    assert BindingMade(w, c.ns) ==> BindingIn(w, c.ns).value.managed;
    NamespaceWriteKeeps(w, PerformSuccess(w, uid, c), c.ns);
  }

  predicate EndsCleanup(c: Call) { c.RemoveVeleroFinalizer? || c.DropFinalizer? }

  lemma FinalizerRemovalKeepsWorld(w: World, uid: Uid, c: Call)
    requires WorldSound(w) && CallSound(w, uid, c) && EndsCleanup(c)
    ensures WorldSound(PerformSuccess(w, uid, c))
  {
    RestoreWriteKeeps(w, PerformSuccess(w, uid, c), uid);
  }

  predicate PatchesStatus(c: Call) {
    || c.PatchFinalizers? || c.PatchPhaseNew? || c.RunValidation? || c.RecordNamespace?
    || c.PatchReady? || c.PatchFailed? || c.PatchBeyond?
  }

  lemma StatusPatchKeepsWorld(w: World, uid: Uid, c: Call)
    requires WorldSound(w) && CallSound(w, uid, c) && PatchesStatus(c)
    ensures WorldSound(PerformSuccess(w, uid, c))
  {
    RestoreWriteKeeps(w, PerformSuccess(w, uid, c), uid);
  }

  /** The other calls only read. */
  lemma ReadKeepsWorld(w: World, uid: Uid, c: Call)
    requires WorldSound(w) && CallSound(w, uid, c)
    requires !WritesNamespace(c) && !EndsCleanup(c) && !PatchesStatus(c)
    ensures WorldSound(PerformSuccess(w, uid, c))
  {
    WorkerDoesNotMatter(w, PerformSuccess(w, uid, c).worker);
  }

  lemma PerformKeepsWorld(w: World, uid: Uid, c: Call)
    requires WorldSound(w) && CallSound(w, uid, c)
    ensures WorldSound(PerformSuccess(w, uid, c))
  {
    if c.CreateTemporary? {
      NamespaceCreationKeepsWorld(w, uid);
    } else if c.CreateAccount? || c.CreateBinding? {
      CreationKeepsWorld(w, uid, c);
    } else if WritesNamespace(c) {
      DeletionKeepsWorld(w, uid, c);
    } else if EndsCleanup(c) {
      FinalizerRemovalKeepsWorld(w, uid, c);
    } else if PatchesStatus(c) {
      StatusPatchKeepsWorld(w, uid, c);
    } else {
      ReadKeepsWorld(w, uid, c);
    }
  }

  /** Another restore in use has its main finalizer, so it holds the namespace. */
  lemma UserIsHolder(w: World, uid: Uid, ns: string)
    requires RestoresWellFormed(w) && InUseByOther(w, uid, ns) && ns != ""
    ensures OtherHolds(w, uid, ns)
  {
    var other :| other in w.restores && other != uid && !w.restores[other].deleting && w.restores[other].recorded == ns;
    assert RestoreWellFormed(w.restores[other]);
    assert Holds(w, other, ns);
  }

  /** Who uses and who holds a namespace depends on the restores alone. */
  lemma SameUsers(w: World, v: World, uid: Uid, ns: string)
    requires v.restores == w.restores
    ensures InUseByOther(v, uid, ns) == InUseByOther(w, uid, ns)
    ensures OtherHolds(v, uid, ns) == OtherHolds(w, uid, ns)
  {
    assert forall other :: Holds(v, other, ns) == Holds(w, other, ns);
  }

  lemma DecisionLeadsToSoundCall(w: World, uid: Uid, c: Call)
    requires WorldSound(w) && CallSound(w, uid, c) && (c.GetNamespace? || c.DeleteTemporary?)
    ensures WorkerSound(PerformSuccess(w, uid, c))
  {
  }

  lemma ListingLeadsToSoundCall(w: World, uid: Uid, c: Call)
    requires WorldSound(w) && CallSound(w, uid, c) && c.ListOthers?
    ensures WorkerSound(PerformSuccess(w, uid, c))
  {
    SameUsers(w, PerformSuccess(w, uid, c), uid, c.ns);
    if InUseByOther(w, uid, c.ns) { UserIsHolder(w, uid, c.ns); }
  }

  lemma BindingRemovalLeadsToSoundCall(w: World, uid: Uid, c: Call)
    requires WorldSound(w) && CallSound(w, uid, c) && (c.ProbeBinding? || c.DeleteBinding?)
    ensures WorkerSound(PerformSuccess(w, uid, c))
  {
    SameUsers(w, PerformSuccess(w, uid, c), uid, c.ns);
    assert BindingMade(w, c.ns) ==> BindingIn(w, c.ns).value.managed;
  }

  lemma AccountRemovalLeadsToSoundCall(w: World, uid: Uid, c: Call)
    requires WorldSound(w) && CallSound(w, uid, c) && (c.ProbeAccount? || c.DeleteAccount?)
    ensures WorkerSound(PerformSuccess(w, uid, c))
  {
    assert AccountMade(w, c.ns) ==> AccountIn(w, c.ns).value.managed;
  }

  predicate TouchesBinding(c: Call) { c.GetBinding? || c.CreateBinding? || c.RegetBinding? }

  lemma AccountLeadsToSoundCall(w: World, uid: Uid, c: Call)
    requires WorldSound(w) && CallSound(w, uid, c) && FailsRestore(c) && !TouchesBinding(c)
    ensures WorkerSound(PerformSuccess(w, uid, c))
  {
  }

  lemma BindingLeadsToSoundCall(w: World, uid: Uid, c: Call)
    requires WorldSound(w) && CallSound(w, uid, c) && TouchesBinding(c)
    ensures WorkerSound(PerformSuccess(w, uid, c))
  {
  }

  /** The worker goes on to a call it may make. */
  lemma PerformLeadsToSoundCall(w: World, uid: Uid, c: Call)
    requires WorldSound(w) && CallSound(w, uid, c)
    ensures WorkerSound(PerformSuccess(w, uid, c))
  {
    if c.GetNamespace? || c.DeleteTemporary? {
      DecisionLeadsToSoundCall(w, uid, c);
    } else if c.ListOthers? {
      ListingLeadsToSoundCall(w, uid, c);
    } else if c.ProbeBinding? || c.DeleteBinding? {
      BindingRemovalLeadsToSoundCall(w, uid, c);
    } else if c.ProbeAccount? || c.DeleteAccount? {
      AccountRemovalLeadsToSoundCall(w, uid, c);
    } else if TouchesBinding(c) {
      BindingLeadsToSoundCall(w, uid, c);
    } else if FailsRestore(c) {
      AccountLeadsToSoundCall(w, uid, c);
    }
  }

  lemma FailureLeadsToSoundCall(w: World, uid: Uid, c: Call)
    requires CallSound(w, uid, c) && FailsRestore(c)
    ensures CallSound(PerformSuccess(w, uid, c), uid, PatchFailed)
    ensures CallSound(w, uid, PatchFailed)
  {
  }

  lemma ErrorKeeps(w: World, uid: Uid, c: Call, lost: bool)
    requires WorldSound(w) && CallSound(w, uid, c)
    ensures Sound((if lost then PerformSuccess(w, uid, c) else w).(worker := AfterError(uid, c)))
  {
    PerformKeepsWorld(w, uid, c);
    var v := if lost then PerformSuccess(w, uid, c) else w;
    WorkerDoesNotMatter(v, AfterError(uid, c));
    if FailsRestore(c) { FailureLeadsToSoundCall(w, uid, c); }
  }

  lemma RejectionKeeps(w: World, uid: Uid)
    requires WorldSound(w) && CallSound(w, uid, RunValidation)
    ensures Sound(Stop(SetStage(w, uid, FailedEarly)))
  {
    RestoreWriteKeeps(w, Stop(SetStage(w, uid, FailedEarly)), uid);
  }

  lemma WorkerStepKeeps(w: World, answer: Answer)
    requires Sound(w)
    ensures Sound(Apply(w, Perform(answer)))
  {
    if w.worker.Busy? && w.worker.uid !in w.restores {
      WorkerDoesNotMatter(w, Idle);
    } else if w.worker.Busy? {
      var uid, c := w.worker.uid, w.worker.call;
      if answer.Success? {
        PerformKeepsWorld(w, uid, c);
        PerformLeadsToSoundCall(w, uid, c);
      } else if answer.Rejected? && c.RunValidation? {
        RejectionKeeps(w, uid);
      } else {
        ErrorKeeps(w, uid, c, answer.Lost?);
      }
    }
  }

  // ----- Steps of everybody else

  /** No restore with a finalizer disappears; restores only start being deleted; new ones have recorded nothing. */
  ghost predicate RestoresPersist(w: World, v: World) {
    && (forall uid :: uid in w.restores && (w.restores[uid].mainFinalizer || w.restores[uid].veleroFinalizer) ==>
          uid in v.restores)
    && (forall uid :: uid in w.restores && uid in v.restores ==>
          w.restores[uid].(deleting := true) == v.restores[uid].(deleting := true)
          && (w.restores[uid].deleting ==> v.restores[uid].deleting))
    && (forall uid :: uid in v.restores && uid !in w.restores ==>
          v.restores[uid].recorded == "" && v.restores[uid].stage.Created?)
  }

  /** Access objects serve as they did, and the controller made no more of them. */
  ghost predicate ObjectsPersist(w: World, v: World) {
    && w.deleted <= v.deleted
    && (forall ns :: AccountServes(w, ns) ==> AccountServes(v, ns))
    && (forall ns :: BindingServes(w, ns) ==> BindingServes(v, ns))
    && (forall ns :: AccountMade(v, ns) ==> AccountMade(w, ns))
    && (forall ns :: BindingMade(v, ns) ==> BindingMade(w, ns))
  }

  lemma UsersPersist(w: World, v: World, uid: Uid, ns: string)
    requires RestoresPersist(w, v)
    ensures ns != "" && InUseByOther(v, uid, ns) ==> InUseByOther(w, uid, ns)
    ensures OtherHolds(w, uid, ns) ==> OtherHolds(v, uid, ns)
  {
    forall other | Holds(w, other, ns) ensures Holds(v, other, ns) {}
    if ns != "" && InUseByOther(v, uid, ns) {
      var other :| other in v.restores && other != uid
                   && !v.restores[other].deleting && v.restores[other].recorded == ns;
      assert other in w.restores;
    }
  }

  lemma CallStaysSound(w: World, v: World, uid: Uid, c: Call)
    requires uid in w.restores && CallSound(w, uid, c)
    requires uid in v.restores && RestoresPersist(w, v) && ObjectsPersist(w, v)
    ensures CallSound(v, uid, c)
  {
    var x, y := w.restores[uid], v.restores[uid];
    assert x.(deleting := true) == y.(deleting := true);
    assert y == x.(deleting := y.deleting);
    if c.ListOthers? || c.ProbeBinding? || c.DeleteBinding? || c.ProbeAccount? || c.DeleteAccount? || c.DropFinalizer? {
      UsersPersist(w, v, uid, c.ns);
      assert HasMade(v, c.ns) ==> HasMade(w, c.ns);
    }
  }

  lemma WorkerStaysSound(w: World, v: World)
    requires WorkerSound(w) && v.worker == w.worker && RestoresPersist(w, v) && ObjectsPersist(w, v)
    ensures WorkerSound(v)
  {
    if w.worker.Busy? {
      var uid, c := w.worker.uid, w.worker.call;
      if uid in w.restores && uid in v.restores { CallStaysSound(w, v, uid, c); }
    }
  }

  lemma UserStepKeepsWorld(w: World, s: Step)
    requires WorldSound(w) && (s.UserCreates? || s.UserDeletes?)
    ensures WorldSound(Apply(w, s))
  {
    RestoreWriteKeeps(w, Apply(w, s), s.uid);
  }

  lemma UserStepPersists(w: World, s: Step)
    requires s.UserCreates? || s.UserDeletes?
    ensures RestoresPersist(w, Apply(w, s))
  {
    var v := Apply(w, s);
    if s.UserDeletes? && s.uid in w.restores {
      var x := w.restores[s.uid];
      assert s.uid in v.restores ==> v.restores[s.uid] == x.(deleting := true);
      assert x.mainFinalizer || x.veleroFinalizer ==> s.uid in v.restores;
    }
    assert OnlyRestore(w, v, s.uid);
  }

  lemma UserStepKeeps(w: World, s: Step)
    requires Sound(w) && (s.UserCreates? || s.UserDeletes?)
    ensures Sound(Apply(w, s))
  {
    UserStepKeepsWorld(w, s);
    UserStepPersists(w, s);
    SameObjectsPersist(w, Apply(w, s));
    WorkerStaysSound(w, Apply(w, s));
  }

  lemma SameObjectsPersist(w: World, v: World)
    requires SameObjects(w, v)
    ensures ObjectsPersist(w, v)
  {
    forall ns ensures AccountIn(v, ns) == AccountIn(w, ns) && BindingIn(v, ns) == BindingIn(w, ns) {}
  }

  predicate ChangesCluster(s: Step) {
    !s.Begin? && !s.Perform? && !s.Crash? && !s.UserCreates? && !s.UserDeletes?
  }

  lemma NamespaceStepKeepsWorld(w: World, s: Step)
    requires WorldSound(w) && (s.NamespaceAppears? || s.NamespaceVanishes?)
    ensures WorldSound(Apply(w, s))
  {
    assert AccountMade(w, s.ns) ==> AccountIn(w, s.ns).value.managed;
    assert BindingMade(w, s.ns) ==> BindingIn(w, s.ns).value.managed;
    NamespaceWriteKeeps(w, Apply(w, s), s.ns);
  }

  lemma ObjectStepKeepsWorld(w: World, s: Step)
    requires WorldSound(w) && ChangesCluster(s) && !s.NamespaceAppears? && !s.NamespaceVanishes?
    ensures WorldSound(Apply(w, s))
  {
    assert AccountMade(w, s.ns) ==> AccountIn(w, s.ns).value.managed;
    assert BindingMade(w, s.ns) ==> BindingIn(w, s.ns).value.managed;
    NamespaceWriteKeeps(w, Apply(w, s), s.ns);
  }

  lemma ClusterStepKeepsWorld(w: World, s: Step)
    requires WorldSound(w) && ChangesCluster(s)
    ensures WorldSound(Apply(w, s))
  {
    if s.NamespaceAppears? || s.NamespaceVanishes? {
      NamespaceStepKeepsWorld(w, s);
    } else {
      ObjectStepKeepsWorld(w, s);
    }
  }

  /** A change in one namespace persists elsewhere. */
  lemma NamespaceChangePersists(w: World, v: World, ns: string)
    requires OnlyNamespace(w, v, ns)
    requires AccountServes(w, ns) ==> AccountServes(v, ns)
    requires BindingServes(w, ns) ==> BindingServes(v, ns)
    requires AccountMade(v, ns) ==> AccountMade(w, ns)
    requires BindingMade(v, ns) ==> BindingMade(w, ns)
    ensures ObjectsPersist(w, v) && RestoresPersist(w, v)
  {
    forall other
      ensures other != ns ==> AccountIn(v, other) == AccountIn(w, other) && BindingIn(v, other) == BindingIn(w, other)
    {}
  }

  lemma ClusterStepPersists(w: World, s: Step)
    requires ObjectsWellFormed(w) && ChangesCluster(s)
    ensures ObjectsPersist(w, Apply(w, s)) && RestoresPersist(w, Apply(w, s)) && Apply(w, s).worker == w.worker
  {
    NamespaceChangePersists(w, Apply(w, s), s.ns);
  }

  lemma ClusterStepKeeps(w: World, s: Step)
    requires Sound(w) && ChangesCluster(s)
    ensures Sound(Apply(w, s))
  {
    ClusterStepKeepsWorld(w, s);
    ClusterStepPersists(w, s);
    WorkerStaysSound(w, Apply(w, s));
  }

  // ----- Whole runs

  lemma StepKeeps(w: World, s: Step)
    requires Sound(w)
    ensures Sound(Apply(w, s))
  {
    match s
    case Begin(uid) => BeginKeeps(w, uid);
    case Perform(answer) => WorkerStepKeeps(w, answer);
    case Crash => WorkerDoesNotMatter(w, Idle);
    case UserCreates(_, _, _) => UserStepKeeps(w, s);
    case UserDeletes(_) => UserStepKeeps(w, s);
    case _ => ClusterStepKeeps(w, s);
  }

  lemma {:induction false} EveryRunIsSound(w: World, steps: seq<Step>)
    requires Initial(w)
    ensures Sound(Execute(w, steps))
  {
    if steps == [] {
      assert forall ns :: !AccountMade(w, ns) && !BindingMade(w, ns);
    } else {
      EveryRunIsSound(w, steps[..|steps| - 1]);
      StepKeeps(Execute(w, steps[..|steps| - 1]), steps[|steps| - 1]);
    }
  }

  /**
   * Whatever the restores, the users and the failures did, a restore that is not being deleted and has
   * reached NamespaceReady finds the managed ServiceAccount and, on OpenShift, the right RoleBinding in
   * its namespace, unless that namespace was deleted at some time.
   */
  lemma SettledRestoresKeepTheirAccess(w: World, steps: seq<Step>, uid: Uid)
    requires Initial(w)
    ensures var v := Execute(w, steps);
      uid in v.restores && Settled(v.restores[uid]) && v.restores[uid].recorded !in v.deleted ==>
        var ns := v.restores[uid].recorded;
        && ns == Home(v.restores[uid]) && ns in v.namespaces
        && v.namespaces[ns].account.Some? && v.namespaces[ns].account.value.managed
        && (v.openshift ==>
              v.namespaces[ns].binding.Some? && v.namespaces[ns].binding.value.managed
              && v.namespaces[ns].binding.value.correct)
  {
    EveryRunIsSound(w, steps);
  }

  /**
   * An access object the controller made exists only while some restore that still has its main finalizer
   * has the namespace recorded; so none is left once no such restore is.
   */
  lemma NoAccessObjectLeaks(w: World, steps: seq<Step>, ns: string)
    requires Initial(w)
    ensures var v := Execute(w, steps);
      ns in v.namespaces
      && (   (v.namespaces[ns].account.Some? && v.namespaces[ns].account.value.byController)
          || (v.namespaces[ns].binding.Some? && v.namespaces[ns].binding.value.byController)) ==>
      exists uid :: uid in v.restores && v.restores[uid].mainFinalizer && v.restores[uid].recorded == ns
  {
    EveryRunIsSound(w, steps);
    var v := Execute(w, steps);
    if HasMade(v, ns) {
      var uid :| Holds(v, uid, ns);
    }
  }
}
