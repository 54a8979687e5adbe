/**
 * How settled restores come to lack their access objects: only through the deletion of their namespace,
 * by somebody else, by the cleanup of a temporary namespace in use, or while the RoleBinding is created.
 */
module SharedNamespaceLosses {
  import opened Collections
  import opened SharedNamespace
  import opened SharedNamespaceSafety

  // ----- Access is lost with the namespace and not otherwise

  /** The access objects are there, in the namespace as it is now. */
  predicate HasAccess(w: World, ns: string) {
    && AccountIn(w, ns).Some? && AccountIn(w, ns).value.managed
    && (w.openshift ==> BindingIn(w, ns).Some? && BindingIn(w, ns).value.managed && BindingIn(w, ns).value.correct)
  }

  lemma DeletionKeepsAccess(w: World, uid: Uid, user: Uid, c: Call)
    requires CallSound(w, uid, c) && user in w.restores && Settled(w.restores[user])
    requires c.DeleteTemporary? || c.DeleteBinding? || c.DeleteAccount?
    requires HasAccess(w, w.restores[user].recorded)
    ensures var v, ns := PerformSuccess(w, uid, c), w.restores[user].recorded;
      if c == DeleteTemporary(ns) then ns !in v.namespaces else HasAccess(v, ns)
  {
    var ns := w.restores[user].recorded;
    assert c.ns == ns ==> InUseByOther(w, uid, ns);
  }

  lemma CallKeepsAccess(w: World, uid: Uid, user: Uid, c: Call)
    requires CallSound(w, uid, c) && user in w.restores && Settled(w.restores[user])
    requires HasAccess(w, w.restores[user].recorded)
    ensures var v, ns := PerformSuccess(w, uid, c), w.restores[user].recorded;
      if c == DeleteTemporary(ns) then ns !in v.namespaces else HasAccess(v, ns)
  {
    if c.DeleteTemporary? || c.DeleteBinding? || c.DeleteAccount? { DeletionKeepsAccess(w, uid, user, c); }
  }

  predicate TakesEffect(s: Step) { s.Perform? && (s.answer.Success? || s.answer.Lost?) }

  /** The step deletes the namespace: somebody else does, or the cleanup of a restore that has it recorded. */
  predicate Deletes(w: World, s: Step, ns: string) {
    s == NamespaceVanishes(ns) || (TakesEffect(s) && w.worker.Busy? && w.worker.call == DeleteTemporary(ns))
  }

  /** A settled restore that has its access objects loses them in a step exactly when the step deletes the namespace. */
  lemma AccessIsLostExactlyByDeletion(w: World, s: Step, user: Uid)
    requires Sound(w) && user in w.restores && Settled(w.restores[user]) && HasAccess(w, w.restores[user].recorded)
    ensures var ns := w.restores[user].recorded; HasAccess(Apply(w, s), ns) <==> !Deletes(w, s, ns)
  {
    var ns := w.restores[user].recorded;
    if s.Perform? && w.worker.Busy? && w.worker.uid in w.restores {
      CallKeepsAccess(w, w.worker.uid, user, w.worker.call);
    }
  }

  /**
   * The cleanup of one restore deletes a namespace that another one uses exactly when the namespace carries the
   * temporary label: in that case it does not look for other users.
   */
  lemma SharedNamespaceIsDeletedExactlyIfTemporary(w: World, first: Uid, second: Uid, ns: string)
    requires first != second && first in w.restores && second in w.restores && w.worker.Idle?
    requires ns != "" && ns in w.namespaces
    requires w.restores[first].recorded == ns && w.restores[first].deleting
    requires w.restores[first].mainFinalizer && !w.restores[first].veleroFinalizer
    requires w.restores[second].recorded == ns && Settled(w.restores[second])
    ensures var v := Execute(w, [Begin(first), Perform(Success), Perform(Success)]);
      && second in v.restores && Settled(v.restores[second]) && v.restores[second].recorded == ns
      && (ns !in v.namespaces <==> w.namespaces[ns].temporary)
  {
    CleanupBegins(w, first, ns);
    var begun := [Begin(first)] + [Perform(Success)];
    ExecuteAppend(w, begun, [Perform(Success)]);
    assert begun + [Perform(Success)] == [Begin(first), Perform(Success), Perform(Success)];
    ExecuteOne(Execute(w, begun), Perform(Success));
  }

  /** Cleanup looks at the label first. */
  lemma CleanupBegins(w: World, uid: Uid, ns: string)
    requires uid in w.restores && w.worker.Idle? && ns != "" && ns in w.namespaces
    requires w.restores[uid].recorded == ns && w.restores[uid].deleting
    requires w.restores[uid].mainFinalizer && !w.restores[uid].veleroFinalizer
    ensures Execute(w, [Begin(uid)] + [Perform(Success)]) ==
            Goto(w, uid, if w.namespaces[ns].temporary then DeleteTemporary(ns) else ListOthers(ns))
  {
    ExecuteAppend(w, [Begin(uid)], [Perform(Success)]);
    ExecuteOne(w, Begin(uid));
    ExecuteOne(Goto(w, uid, GetNamespace(ns)), Perform(Success));
  }

  // ----- Successful calls

  /** The worker's call leads from one world to the next when it succeeds. */
  ghost predicate Succeeds(w: World, v: World) { v == Apply(w, Perform(Success)) }

  /** The namespace is checked and recorded before anything is created in it. */
  lemma RecordingArrives(w0: World, w1: World, w2: World, uid: Uid, ns: string)
    requires uid in w0.restores && w0.restores[uid].target == ns != ""
    requires ns in w0.namespaces && w0.worker == Busy(uid, CheckNamespace)
    requires Succeeds(w0, w1) && Succeeds(w1, w2)
    ensures w2 == Goto(w0.(restores := w0.restores[uid := w0.restores[uid].(recorded := ns)]), uid, GetAccount(ns))
  {
    assert w1 == Goto(w0, uid, RecordNamespace(ns));
  }

  lemma AccountArrives(w0: World, w1: World, w2: World, w3: World, uid: Uid, ns: string)
    requires uid in w0.restores && ns in w0.namespaces
    requires w0.worker == Busy(uid, GetAccount(ns)) && AccountIn(w0, ns).None?
    requires Succeeds(w0, w1) && Succeeds(w1, w2) && Succeeds(w2, w3)
    ensures w3 == Goto(SetAccount(w0, ns, Some(OURS)), uid, GetBinding(ns))
  {
    assert w1 == Goto(w0, uid, CreateAccount(ns));
    assert w2 == Goto(SetAccount(w0, ns, Some(OURS)), uid, RegetAccount(ns));
  }

  // ----- A namespace that vanishes before the RoleBinding is created

  /**
   * On OpenShift the creation of the RoleBinding goes on without one exactly when the namespace is gone by then;
   * it was there when the ServiceAccount was made, so it has been deleted since.
   */
  lemma BindingIsSkippedExactlyWithoutNamespace(w: World, uid: Uid, ns: string)
    requires WorldSound(w) && CallSound(w, uid, CreateBinding(ns)) && w.openshift
    ensures var v := PerformSuccess(w, uid, CreateBinding(ns));
      v.worker == Busy(uid, PatchReady(ns)) && BindingIn(v, ns).None? <==> ns !in w.namespaces
    ensures ns !in w.namespaces ==> ns in w.deleted
  {
  }

  lemma {:induction false} ExecuteAppend(w: World, first: seq<Step>, second: seq<Step>)
    ensures Execute(w, first + second) == Execute(Execute(w, first), second)
  {
    if second == [] {
      assert first + second == first;
    } else {
      var n := |second| - 1;
      assert (first + second)[..|first + second| - 1] == first + second[..n];
      ExecuteAppend(w, first, second[..n]);
    }
  }

  lemma ExecuteOne(w: World, s: Step)
    ensures Execute(w, [s]) == Apply(w, s)
  {
    assert [s][..0] == [];
  }

  /** A cluster on OpenShift with one empty user namespace. */
  const START := World(map["team" := Namespace(false, None, None)], map[], true, {}, Idle)

  /** The restore, with its finalizers, at a stage. */
  function One(stage: Stage, recorded: string): Restore { Restore("team", "tmp", false, true, true, stage, recorded) }

  function With(x: Restore): World { START.(restores := map[0 := x]) }

  const ATTEMPT := [Begin(0), Perform(Success)]

  /** A reconcile of one call. */
  lemma AttemptRun(w: World, c: Call)
    requires w.worker.Idle? && 0 in w.restores && FirstCall(w.restores[0]) == Some(c)
    ensures Execute(w, ATTEMPT) == PerformSuccess(Goto(w, 0, c), 0, c)
  {
    ExecuteAppend(w, [Begin(0)], [Perform(Success)]);
    assert [Begin(0)] + [Perform(Success)] == ATTEMPT;
    ExecuteOne(w, Begin(0));
    ExecuteOne(Goto(w, 0, c), Perform(Success));
  }

  const CREATION := [UserCreates(0, "team", "tmp")]

  const VALIDATION := CREATION + ATTEMPT + ATTEMPT + ATTEMPT

  lemma AcceptedRun()
    ensures Execute(START, CREATION + ATTEMPT) == With(One(Created, ""))
  {
    var first := Restore("team", "tmp", false, false, false, Created, "");
    ExecuteOne(START, UserCreates(0, "team", "tmp"));
    assert Execute(START, CREATION) == With(first);
    AttemptRun(With(first), PatchFinalizers);
    ExecuteAppend(START, CREATION, ATTEMPT);
  }

  lemma ValidationRun()
    ensures Execute(START, VALIDATION) == With(One(Validated, ""))
  {
    AcceptedRun();
    AttemptRun(With(One(Created, "")), PatchPhaseNew);
    assert Execute(With(One(Created, "")), ATTEMPT) == With(One(Validating, ""));
    AttemptRun(With(One(Validating, "")), RunValidation);
    ExecuteAppend(START, CREATION + ATTEMPT, ATTEMPT);
    ExecuteAppend(START, CREATION + ATTEMPT + ATTEMPT, ATTEMPT);
  }

  const CALL := [Perform(Success)]

  lemma CallRun(w: World)
    ensures Succeeds(w, Execute(w, CALL))
  {
    ExecuteOne(w, Perform(Success));
  }

  /** Up to the creation of the RoleBinding. */
  const ACCESS := [Begin(0)] + CALL + CALL + CALL + CALL + CALL + CALL

  function Ready(recorded: string): World { SetAccount(With(One(Validated, recorded)), "team", Some(OURS)) }

  lemma AccessRun()
    ensures Execute(With(One(Validated, "")), ACCESS) == Goto(Ready("team"), 0, CreateBinding("team"))
  {
    var w := With(One(Validated, ""));
    var b := [Begin(0)];
    ExecuteOne(w, Begin(0));
    var w0 := Execute(w, b);
    assert w0 == Goto(w, 0, CheckNamespace);
    var w1 := Execute(w0, CALL);
    var w2 := Execute(w1, CALL);
    var w3 := Execute(w2, CALL);
    var w4 := Execute(w3, CALL);
    var w5 := Execute(w4, CALL);
    var w6 := Execute(w5, CALL);
    ExecuteThree(w, b, CALL);
    ExecuteThree(w, b + CALL + CALL + CALL, CALL);
    CallRun(w0);
    CallRun(w1);
    RecordingArrives(w0, w1, w2, 0, "team");
    CallRun(w2);
    CallRun(w3);
    CallRun(w4);
    AccountArrives(w2, w3, w4, w5, 0, "team");
    assert w5 == Goto(Ready("team"), 0, GetBinding("team"));
    CallRun(w5);
  }

  lemma ExecuteThree(w: World, b: seq<Step>, c: seq<Step>)
    ensures Execute(w, b + c + c + c) == Execute(Execute(Execute(Execute(w, b), c), c), c)
  {
    ExecuteAppend(w, b, c);
    ExecuteAppend(w, b + c, c);
    ExecuteAppend(w, b + c + c, c);
  }

  /** The namespace is deleted, and made again, around the creation of the RoleBinding. */
  const LOSS := [NamespaceVanishes("team")] + CALL + CALL + [NamespaceAppears("team", false)]

  function Gone(stage: Stage): World { With(One(stage, "team")).(namespaces := map[], deleted := {"team"}) }

  lemma VanishRun(w: World)
    requires w == Goto(Ready("team"), 0, CreateBinding("team"))
    ensures Execute(w, [NamespaceVanishes("team")] + CALL + CALL) == Gone(NamespaceReady)
  {
    var gone := [NamespaceVanishes("team")];
    ExecuteOne(w, NamespaceVanishes("team"));
    var w1 := Goto(Gone(Validated), 0, CreateBinding("team"));
    assert Execute(w, gone) == w1;
    CallRun(w1);
    var w2 := Goto(Gone(Validated), 0, PatchReady("team"));
    assert Execute(w1, CALL) == w2;
    CallRun(w2);
    ExecuteAppend(w, gone, CALL);
    ExecuteAppend(w, gone + CALL, CALL);
  }

  lemma LossRun(w: World)
    requires w == Goto(Ready("team"), 0, CreateBinding("team"))
    ensures Execute(w, LOSS) == With(One(NamespaceReady, "team")).(deleted := {"team"})
  {
    VanishRun(w);
    ExecuteAppend(w, [NamespaceVanishes("team")] + CALL + CALL, [NamespaceAppears("team", false)]);
    ExecuteOne(Gone(NamespaceReady), NamespaceAppears("team", false));
  }

  /**
   * A run on OpenShift that ends with a restore at NamespaceReady, not being deleted, whose namespace exists and has
   * neither RoleBinding nor ServiceAccount: the deletion went unnoticed while the RoleBinding was created.
   */
  lemma VanishedNamespaceGoesUnnoticed()
    ensures Initial(START) && START.openshift
    ensures var v := Execute(START, VALIDATION + ACCESS + LOSS);
      && 0 in v.restores && Settled(v.restores[0]) && v.restores[0].recorded == "team"
      && "team" in v.namespaces && BindingIn(v, "team").None? && AccountIn(v, "team").None?
  {
    ValidationRun();
    AccessRun();
    LossRun(Goto(Ready("team"), 0, CreateBinding("team")));
    ExecuteAppend(START, VALIDATION, ACCESS);
    ExecuteAppend(START, VALIDATION + ACCESS, LOSS);
  }
}
