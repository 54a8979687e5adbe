/**
 * What the worker achieves when nothing disturbs it: a reconcile begins and all its calls succeed. Creation settles
 * the restore exactly when the namespace can be used, whoever else uses it; cleanup removes the restore and, with
 * the last user, the access objects.
 */
module SharedNamespaceProgress {
  import opened Collections
  import opened SharedNamespace
  import opened SharedNamespaceSafety
  import opened SharedNamespaceLosses

  /** So many successful calls. */
  function Calls(n: nat): seq<Step> { seq(n, _ => Perform(Success)) }

  /** A reconcile whose calls all succeed; calls of an idle worker have no effect. */
  function Undisturbed(uid: Uid, n: nat): seq<Step> { [Begin(uid)] + Calls(n) }

  lemma CallFirst(w: World, n: nat)
    requires n > 0
    ensures Execute(w, Calls(n)) == Execute(Apply(w, Perform(Success)), Calls(n - 1))
  {
    assert Calls(n) == [Perform(Success)] + Calls(n - 1);
    ExecuteAppend(w, [Perform(Success)], Calls(n - 1));
    ExecuteOne(w, Perform(Success));
  }

  lemma {:induction false} IdleStays(w: World, n: nat)
    requires w.worker.Idle?
    ensures Execute(w, Calls(n)) == w
  {
    if n > 0 {
      CallFirst(w, n);
      IdleStays(w, n - 1);
    }
  }

  // ----- Creation

  /** The restore's stage after a creation that went well or not. */
  function Ended(ok: bool): Stage { if ok then NamespaceReady else FailedEarly }

  predicate AccountUsable(w: World, ns: string) { AccountIn(w, ns).None? || AccountIn(w, ns).value.managed }

  predicate BindingUsable(w: World, ns: string) {
    BindingIn(w, ns).None? || (BindingIn(w, ns).value.managed && BindingIn(w, ns).value.correct)
  }

  /** The calls end with the restore at a stage, nothing else of the restores changed, and access if all went well. */
  ghost predicate EndsAt(w: World, n: nat, uid: Uid, ns: string, ok: bool) {
    && uid in w.restores
    && var v := Execute(w, Calls(n));
    && v.worker.Idle? && v.restores == w.restores[uid := w.restores[uid].(stage := Ended(ok))]
    && (ok ==> HasAccess(v, ns))
  }

  lemma PatchEnds(w: World, n: nat, uid: Uid, ns: string, ok: bool)
    requires uid in w.restores && n >= 1 && w.worker == Busy(uid, if ok then PatchReady(ns) else PatchFailed)
    requires ok ==> HasAccess(w, ns)
    ensures EndsAt(w, n, uid, ns, ok)
  {
    CallFirst(w, n);
    IdleStays(Apply(w, Perform(Success)), n - 1);
  }

  /** A call that leads to a world whose calls end somewhere ends there. */
  lemma CallEnds(w: World, v: World, n: nat, uid: Uid, ns: string, ok: bool)
    requires n >= 1 && v == Apply(w, Perform(Success)) && w.restores == v.restores && EndsAt(v, n - 1, uid, ns, ok)
    ensures EndsAt(w, n, uid, ns, ok)
  {
    CallFirst(w, n);
  }

  lemma RegetBindingEnds(w: World, n: nat, uid: Uid, ns: string)
    requires uid in w.restores && n >= 2 && w.worker == Busy(uid, RegetBinding(ns))
    requires AccountIn(w, ns).Some? && AccountIn(w, ns).value.managed && BindingIn(w, ns).Some?
    ensures EndsAt(w, n, uid, ns, BindingUsable(w, ns))
  {
    var ok := BindingUsable(w, ns);
    var v := Goto(w, uid, if ok then PatchReady(ns) else PatchFailed);
    assert v == Apply(w, Perform(Success));
    PatchEnds(v, n - 1, uid, ns, ok);
    CallEnds(w, v, n, uid, ns, ok);
  }

  lemma CreateBindingEnds(w: World, n: nat, uid: Uid, ns: string)
    requires uid in w.restores && n >= 3 && w.worker == Busy(uid, CreateBinding(ns)) && ns in w.namespaces
    requires AccountIn(w, ns).Some? && AccountIn(w, ns).value.managed && BindingIn(w, ns).None?
    ensures EndsAt(w, n, uid, ns, true)
  {
    var v := Apply(w, Perform(Success));
    if w.openshift {
      assert v == Goto(SetBinding(w, ns, Some(OURS)), uid, RegetBinding(ns));
      RegetBindingEnds(v, n - 1, uid, ns);
    } else {
      assert v == Goto(w, uid, PatchReady(ns));
      PatchEnds(v, n - 1, uid, ns, true);
    }
    CallEnds(w, v, n, uid, ns, true);
  }

  lemma GetBindingEnds(w: World, n: nat, uid: Uid, ns: string)
    requires uid in w.restores && n >= 4 && w.worker == Busy(uid, GetBinding(ns)) && ns in w.namespaces
    requires AccountIn(w, ns).Some? && AccountIn(w, ns).value.managed
    ensures EndsAt(w, n, uid, ns, BindingUsable(w, ns))
  {
    var ok, v := BindingUsable(w, ns), Apply(w, Perform(Success));
    if BindingIn(w, ns).None? {
      assert v == Goto(w, uid, CreateBinding(ns));
      CreateBindingEnds(v, n - 1, uid, ns);
    } else {
      assert v == Goto(w, uid, if ok then PatchReady(ns) else PatchFailed);
      PatchEnds(v, n - 1, uid, ns, ok);
    }
    CallEnds(w, v, n, uid, ns, ok);
  }

  lemma CreateAccountEnds(w: World, n: nat, uid: Uid, ns: string)
    requires uid in w.restores && n >= 6 && w.worker == Busy(uid, CreateAccount(ns)) && ns in w.namespaces
    requires AccountIn(w, ns).None?
    ensures EndsAt(w, n, uid, ns, BindingUsable(w, ns))
  {
    var made := SetAccount(w, ns, Some(OURS));
    var v, u := Goto(made, uid, RegetAccount(ns)), Goto(made, uid, GetBinding(ns));
    var ok := BindingUsable(w, ns);
    assert v == Apply(w, Perform(Success)) && u == Apply(v, Perform(Success));
    GetBindingEnds(u, n - 2, uid, ns);
    CallEnds(v, u, n - 1, uid, ns, ok);
    CallEnds(w, v, n, uid, ns, ok);
  }

  lemma GetAccountEnds(w: World, n: nat, uid: Uid, ns: string)
    requires uid in w.restores && n >= 7 && w.worker == Busy(uid, GetAccount(ns)) && ns in w.namespaces
    ensures EndsAt(w, n, uid, ns, AccountUsable(w, ns) && BindingUsable(w, ns))
  {
    var ok, v := AccountUsable(w, ns) && BindingUsable(w, ns), Apply(w, Perform(Success));
    if AccountIn(w, ns).None? {
      assert v == Goto(w, uid, CreateAccount(ns));
      CreateAccountEnds(v, n - 1, uid, ns);
    } else if AccountIn(w, ns).value.managed {
      assert v == Goto(w, uid, GetBinding(ns));
      GetBindingEnds(v, n - 1, uid, ns);
    } else {
      assert v == Goto(w, uid, PatchFailed);
      PatchEnds(v, n - 1, uid, ns, false);
    }
    CallEnds(w, v, n, uid, ns, ok);
  }

  /** As EndsAt, for calls that may record the namespace too: the restore becomes x. */
  ghost predicate Becomes(w: World, n: nat, uid: Uid, x: Restore, ns: string, ok: bool) {
    var v := Execute(w, Calls(n)); v.worker.Idle? && v.restores == w.restores[uid := x] && (ok ==> HasAccess(v, ns))
  }

  lemma CallBecomes(w: World, v: World, n: nat, uid: Uid, x: Restore, ns: string, ok: bool)
    requires n >= 1 && v == Apply(w, Perform(Success)) && Becomes(v, n - 1, uid, x, ns, ok)
    requires v.restores[uid := x] == w.restores[uid := x]
    ensures Becomes(w, n, uid, x, ns, ok)
  {
    CallFirst(w, n);
  }

  lemma RecordEnds(w: World, n: nat, uid: Uid, ns: string)
    requires uid in w.restores && n >= 8 && w.worker == Busy(uid, RecordNamespace(ns)) && ns in w.namespaces
    ensures var ok := AccountUsable(w, ns) && BindingUsable(w, ns);
      Becomes(w, n, uid, w.restores[uid].(recorded := ns, stage := Ended(ok)), ns, ok)
  {
    var x, ok := w.restores[uid], AccountUsable(w, ns) && BindingUsable(w, ns);
    var v := Goto(w.(restores := w.restores[uid := x.(recorded := ns)]), uid, GetAccount(ns));
    RecordStep(w, uid, ns);
    GetAccountEnds(v, n - 1, uid, ns);
    assert ok == (AccountUsable(v, ns) && BindingUsable(v, ns));
    MapTwice(w.restores, uid, x.(recorded := ns), x.(recorded := ns, stage := Ended(ok)));
    CallBecomes(w, v, n, uid, x.(recorded := ns, stage := Ended(ok)), ns, ok);
  }

  lemma RecordStep(w: World, uid: Uid, ns: string)
    requires uid in w.restores && w.worker == Busy(uid, RecordNamespace(ns))
    ensures Apply(w, Perform(Success)) ==
            Goto(w.(restores := w.restores[uid := w.restores[uid].(recorded := ns)]), uid, GetAccount(ns))
  {
  }

  lemma MapTwice<K, V>(m: map<K, V>, k: K, a: V, b: V)
    ensures m[k := a][k := b] == m[k := b]
  {
  }

  /** The namespace is there, or is a temporary one to be made. */
  predicate Reachable(w: World, x: Restore) { x.target != "" ==> x.target in w.namespaces }

  lemma CheckStep(w: World, uid: Uid)
    requires uid in w.restores
    requires w.worker == Busy(uid, if w.restores[uid].target != "" then CheckNamespace else CreateTemporary)
    ensures var x, v := w.restores[uid], Apply(w, Perform(Success)); var ns := Home(x);
      && v.restores == w.restores && AccountIn(v, ns) == AccountIn(w, ns) && BindingIn(v, ns) == BindingIn(w, ns)
      && v.worker == Busy(uid, if Reachable(w, x) then RecordNamespace(ns) else PatchFailed)
      && (Reachable(w, x) ==> ns in v.namespaces)
  {
  }

  lemma CheckEnds(w: World, n: nat, uid: Uid)
    requires uid in w.restores && n >= 9
    requires w.worker == Busy(uid, if w.restores[uid].target != "" then CheckNamespace else CreateTemporary)
    ensures var x := w.restores[uid]; var ns := Home(x);
      var ok := Reachable(w, x) && AccountUsable(w, ns) && BindingUsable(w, ns);
      Becomes(w, n, uid, x.(stage := Ended(ok), recorded := if Reachable(w, x) then ns else x.recorded), ns, ok)
  {
    var x, v := w.restores[uid], Apply(w, Perform(Success));
    var ns := Home(x);
    var ok := Reachable(w, x) && AccountUsable(w, ns) && BindingUsable(w, ns);
    CheckStep(w, uid);
    if Reachable(w, x) {
      RecordEnds(v, n - 1, uid, ns);
      CallBecomes(w, v, n, uid, x.(recorded := ns, stage := Ended(ok)), ns, ok);
    } else {
      PatchEnds(v, n - 1, uid, ns, false);
      CallBecomes(w, v, n, uid, x.(stage := FailedEarly), ns, false);
    }
  }

  lemma BeginFirst(w: World, uid: Uid, n: nat)
    ensures Execute(w, Undisturbed(uid, n)) == Execute(Apply(w, Begin(uid)), Calls(n))
  {
    ExecuteAppend(w, [Begin(uid)], Calls(n));
    ExecuteOne(w, Begin(uid));
  }

  /**
   * Whatever other restores there are, an undisturbed creation settles the restore if and only if its namespace
   * exists or is a temporary one, and the ServiceAccount and RoleBinding under the shared names are missing or usable;
   * otherwise the restore fails. A settled restore has its access objects, and no other restore has changed.
   */
  lemma UndisturbedCreationSettlesExactly(w: World, uid: Uid, n: nat)
    requires w.worker.Idle? && uid in w.restores && n >= 9
    requires w.restores[uid].stage.Validated? && !w.restores[uid].deleting
    ensures var x, v := w.restores[uid], Execute(w, Undisturbed(uid, n)); var ns := Home(x);
      var usable := Reachable(w, x) && AccountUsable(w, ns) && BindingUsable(w, ns);
      && v.worker.Idle? && uid in v.restores
      && (Settled(v.restores[uid]) <==> usable) && (v.restores[uid].stage.FailedEarly? <==> !usable)
      && (usable ==> v.restores[uid].recorded == ns && HasAccess(v, ns))
      && v.restores == w.restores[uid := v.restores[uid]]
  {
    var v := Apply(w, Begin(uid));
    BeginFirst(w, uid, n);
    assert v == Goto(w, uid, if w.restores[uid].target != "" then CheckNamespace else CreateTemporary);
    CheckEnds(v, n, uid);
  }

  // ----- The reconciles before

  /**
   * The finalizers come first, then validation, each in one reconcile; a settled restore goes on, a failed one
   * stays.
   */
  lemma UndisturbedStages(w: World, uid: Uid, n: nat)
    requires w.worker.Idle? && uid in w.restores && !w.restores[uid].deleting && n >= 1
    requires !w.restores[uid].stage.Validated?
    ensures var x := w.restores[uid];
      Execute(w, Undisturbed(uid, n)) == w.(restores := w.restores[uid :=
        match x.stage
        case Created => if x.veleroFinalizer && x.mainFinalizer then x.(stage := Validating)
                        else x.(veleroFinalizer := true, mainFinalizer := true)
        case Validating => x.(stage := Validated)
        case NamespaceReady => x.(stage := Beyond)
        case _ => x])
  {
    var v := Apply(w, Begin(uid));
    BeginFirst(w, uid, n);
    if v.worker.Idle? {
      IdleStays(v, n);
      assert w.restores[uid := w.restores[uid]] == w.restores;
    } else {
      CallFirst(v, n);
      IdleStays(Apply(v, Perform(Success)), n - 1);
    }
  }

  // ----- Cleanup

  function Unless(managed: Option<Object>): Option<Object> {
    if managed.Some? && managed.value.managed then None else managed
  }

  /** The namespaces after the cleanup of a restore. */
  ghost function Swept(w: World, uid: Uid, ns: string): World {
    if ns !in w.namespaces then w
    else if w.namespaces[ns].temporary then w.(namespaces := w.namespaces - {ns}, deleted := w.deleted + {ns})
    else if InUseByOther(w, uid, ns) then w
    else
      var here := w.namespaces[ns];
      w.(namespaces := w.namespaces[ns := here.(account := Unless(here.account), binding := Unless(here.binding))])
  }

  /** The restore is gone and the worker idle. */
  ghost predicate CleansTo(w: World, n: nat, uid: Uid, v: World) {
    Execute(w, Calls(n)) == v.(restores := v.restores - {uid}, worker := Idle)
  }

  lemma DropEnds(w: World, n: nat, uid: Uid, ns: string)
    requires uid in w.restores && w.restores[uid].deleting && !w.restores[uid].veleroFinalizer
    requires n >= 1 && w.worker == Busy(uid, DropFinalizer(ns))
    ensures CleansTo(w, n, uid, w)
  {
    CallFirst(w, n);
    IdleStays(Apply(w, Perform(Success)), n - 1);
  }

  lemma CallCleans(w: World, v: World, n: nat, uid: Uid, end: World)
    requires n >= 1 && v == Apply(w, Perform(Success)) && CleansTo(v, n - 1, uid, end)
    ensures CleansTo(w, n, uid, end)
  {
    CallFirst(w, n);
  }

  lemma SetSame(w: World, ns: string)
    requires ns in w.namespaces
    ensures SetAccount(w, ns, w.namespaces[ns].account) == w && SetBinding(w, ns, w.namespaces[ns].binding) == w
  {
    assert w.namespaces[ns := w.namespaces[ns]] == w.namespaces;
  }

  /** The restore is being cleaned up and has its main finalizer only. */
  predicate Leaving(w: World, uid: Uid) {
    uid in w.restores && w.restores[uid].deleting && w.restores[uid].mainFinalizer && !w.restores[uid].veleroFinalizer
  }

  lemma AccountRemovalEnds(w: World, n: nat, uid: Uid, ns: string)
    requires Leaving(w, uid) && n >= 2 && w.worker == Busy(uid, DeleteAccount(ns)) && ns in w.namespaces
    ensures CleansTo(w, n, uid, SetAccount(w, ns, None))
  {
    var u := Goto(SetAccount(w, ns, None), uid, DropFinalizer(ns));
    DropEnds(u, n - 1, uid, ns);
    CallCleans(w, u, n, uid, SetAccount(w, ns, None));
  }

  lemma AccountCleanupEnds(w: World, n: nat, uid: Uid, ns: string)
    requires Leaving(w, uid) && n >= 3 && w.worker == Busy(uid, ProbeAccount(ns)) && ns in w.namespaces
    ensures CleansTo(w, n, uid, SetAccount(w, ns, Unless(w.namespaces[ns].account)))
  {
    var managed := AccountIn(w, ns).Some? && AccountIn(w, ns).value.managed;
    var v := Goto(w, uid, if managed then DeleteAccount(ns) else DropFinalizer(ns));
    if managed {
      AccountRemovalEnds(v, n - 1, uid, ns);
      CallCleans(w, v, n, uid, SetAccount(v, ns, None));
    } else {
      SetSame(w, ns);
      DropEnds(v, n - 1, uid, ns);
      CallCleans(w, v, n, uid, v);
    }
  }

  lemma BindingRemovalEnds(w: World, n: nat, uid: Uid, ns: string)
    requires Leaving(w, uid) && n >= 4 && w.worker == Busy(uid, DeleteBinding(ns)) && ns in w.namespaces
    ensures CleansTo(w, n, uid, SetAccount(SetBinding(w, ns, None), ns, Unless(w.namespaces[ns].account)))
  {
    var u := Goto(SetBinding(w, ns, None), uid, ProbeAccount(ns));
    AccountCleanupEnds(u, n - 1, uid, ns);
    CallCleans(w, u, n, uid, SetAccount(u, ns, Unless(u.namespaces[ns].account)));
  }

  lemma UnmanagedBindingStays(w: World, n: nat, uid: Uid, ns: string)
    requires Leaving(w, uid) && n >= 5 && w.worker == Busy(uid, ProbeBinding(ns)) && ns in w.namespaces
    requires !(BindingIn(w, ns).Some? && BindingIn(w, ns).value.managed)
    ensures CleansTo(w, n, uid, SetAccount(w, ns, Unless(w.namespaces[ns].account)))
  {
    var v := Goto(w, uid, ProbeAccount(ns));
    AccountCleanupEnds(v, n - 1, uid, ns);
    CallCleans(w, v, n, uid, SetAccount(v, ns, Unless(v.namespaces[ns].account)));
    CleansAlike(w, n, uid, SetAccount(v, ns, Unless(v.namespaces[ns].account)),
                SetAccount(w, ns, Unless(w.namespaces[ns].account)));
  }

  lemma ManagedBindingGoes(w: World, n: nat, uid: Uid, ns: string)
    requires Leaving(w, uid) && n >= 5 && w.worker == Busy(uid, ProbeBinding(ns)) && ns in w.namespaces
    requires BindingIn(w, ns).Some? && BindingIn(w, ns).value.managed
    ensures CleansTo(w, n, uid, SetAccount(SetBinding(w, ns, None), ns, Unless(w.namespaces[ns].account)))
  {
    var v := Goto(w, uid, DeleteBinding(ns));
    var end := SetAccount(SetBinding(v, ns, None), ns, Unless(v.namespaces[ns].account));
    assert v == Apply(w, Perform(Success));
    BindingRemovalEnds(v, n - 1, uid, ns);
    CallCleans(w, v, n, uid, end);
    CleansAlike(w, n, uid, end, SetAccount(SetBinding(w, ns, None), ns, Unless(w.namespaces[ns].account)));
  }

  lemma BindingCleanupEnds(w: World, n: nat, uid: Uid, ns: string)
    requires Leaving(w, uid) && n >= 5 && w.worker == Busy(uid, ProbeBinding(ns)) && ns in w.namespaces
    ensures var here := w.namespaces[ns];
      CleansTo(w, n, uid, SetAccount(SetBinding(w, ns, Unless(here.binding)), ns, Unless(here.account)))
  {
    if BindingIn(w, ns).Some? && BindingIn(w, ns).value.managed {
      ManagedBindingGoes(w, n, uid, ns);
    } else {
      SetSame(w, ns);
      UnmanagedBindingStays(w, n, uid, ns);
    }
  }

  lemma CleansAlike(w: World, n: nat, uid: Uid, a: World, b: World)
    requires CleansTo(w, n, uid, a) && a == b.(worker := a.worker)
    ensures CleansTo(w, n, uid, b)
  {
  }

  lemma LastUserCleans(w: World, n: nat, uid: Uid, ns: string)
    requires Leaving(w, uid) && n >= 5 && w.worker == Busy(uid, ProbeBinding(ns)) && ns in w.namespaces
    requires !w.namespaces[ns].temporary && !InUseByOther(w, uid, ns)
    ensures CleansTo(w, n, uid, Swept(w, uid, ns))
  {
    var here := w.namespaces[ns];
    BindingCleanupEnds(w, n, uid, ns);
    SweptBoth(w, w, uid, ns);
    CleansAlike(w, n, uid, SetAccount(SetBinding(w, ns, Unless(here.binding)), ns, Unless(here.account)),
                Swept(w, uid, ns));
  }

  lemma ListingEnds(w: World, n: nat, uid: Uid, ns: string)
    requires Leaving(w, uid) && n >= 6 && w.worker == Busy(uid, ListOthers(ns)) && ns in w.namespaces
    requires !w.namespaces[ns].temporary
    ensures CleansTo(w, n, uid, Swept(w, uid, ns))
  {
    var v := Goto(w, uid, if InUseByOther(w, uid, ns) then DropFinalizer(ns) else ProbeBinding(ns));
    SweptAlike(w, v, uid, ns);
    SameUsers(w, v, uid, ns);
    if InUseByOther(w, uid, ns) { DropEnds(v, n - 1, uid, ns); } else { LastUserCleans(v, n - 1, uid, ns); }
    CallCleans(w, v, n, uid, Swept(v, uid, ns));
    CleansAlike(w, n, uid, Swept(v, uid, ns), Swept(w, uid, ns));
  }

  lemma SweptBoth(v: World, w: World, uid: Uid, ns: string)
    requires v == w.(worker := v.worker) && ns in w.namespaces
    requires !w.namespaces[ns].temporary && !InUseByOther(w, uid, ns)
    ensures var here := v.namespaces[ns];
      SetAccount(SetBinding(v, ns, Unless(here.binding)), ns, Unless(here.account)) ==
      Swept(w, uid, ns).(worker := v.worker)
  {
  }

  lemma TemporaryCleans(w: World, n: nat, uid: Uid, ns: string)
    requires Leaving(w, uid) && n >= 2 && w.worker == Busy(uid, DeleteTemporary(ns)) && ns in w.namespaces
    ensures CleansTo(w, n, uid, Remove(w, ns))
  {
    var v := Goto(Remove(w, ns), uid, DropFinalizer(ns));
    DropEnds(v, n - 1, uid, ns);
    CallCleans(w, v, n, uid, Remove(w, ns));
  }

  lemma CleanupEnds(w: World, n: nat, uid: Uid, ns: string)
    requires Leaving(w, uid) && n >= 7 && w.worker == Busy(uid, GetNamespace(ns))
    ensures CleansTo(w, n, uid, Swept(w, uid, ns))
  {
    if ns !in w.namespaces {
      var v := Goto(w, uid, DropFinalizer(ns));
      DropEnds(v, n - 1, uid, ns);
      CallCleans(w, v, n, uid, w);
    } else if w.namespaces[ns].temporary {
      var v := Goto(w, uid, DeleteTemporary(ns));
      TemporaryCleans(v, n - 1, uid, ns);
      CallCleans(w, v, n, uid, Remove(v, ns));
      CleansAlike(w, n, uid, Remove(v, ns), Swept(w, uid, ns));
    } else {
      var v := Goto(w, uid, ListOthers(ns));
      ListingEnds(v, n - 1, uid, ns);
      SweptAlike(w, v, uid, ns);
      CallCleans(w, v, n, uid, Swept(v, uid, ns));
      CleansAlike(w, n, uid, Swept(v, uid, ns), Swept(w, uid, ns));
    }
  }

  /**
   * An undisturbed cleanup removes the restore. A temporary namespace goes with it; a user namespace stays, without
   * its managed access objects if nobody else uses it and exactly as it was if somebody does.
   */
  lemma UndisturbedCleanupSweeps(w: World, uid: Uid, n: nat)
    requires w.worker.Idle? && Leaving(w, uid) && n >= 7
    ensures Execute(w, Undisturbed(uid, n)) ==
      if w.restores[uid].recorded == "" then w.(restores := w.restores - {uid})
      else var v := Swept(w, uid, w.restores[uid].recorded); v.(restores := v.restores - {uid})
  {
    var ns := w.restores[uid].recorded;
    var v := Goto(w, uid, if ns == "" then DropFinalizer("") else GetNamespace(ns));
    BeginFirst(w, uid, n);
    assert v == Apply(w, Begin(uid));
    if ns == "" {
      DropEnds(v, n, uid, "");
    } else {
      CleanupEnds(v, n, uid, ns);
      SweptAlike(w, v, uid, ns);
    }
  }

  lemma SweptAlike(w: World, v: World, uid: Uid, ns: string)
    requires v == w.(worker := v.worker)
    ensures Swept(v, uid, ns) == Swept(w, uid, ns).(worker := v.worker)
  {
    SameUsers(w, v, uid, ns);
  }

  /** The first reconcile of a deleted restore removes the finalizer that guards its Velero Restores, and no more. */
  lemma VeleroFinalizerGoesFirst(w: World, uid: Uid, n: nat)
    requires w.worker.Idle? && uid in w.restores && n >= 1
    requires w.restores[uid].deleting && w.restores[uid].veleroFinalizer && w.restores[uid].mainFinalizer
    ensures Execute(w, Undisturbed(uid, n)) ==
            w.(restores := w.restores[uid := w.restores[uid].(veleroFinalizer := false)])
  {
    var v := Apply(w, Begin(uid));
    BeginFirst(w, uid, n);
    CallFirst(v, n);
    IdleStays(Apply(v, Perform(Success)), n - 1);
  }

  // ----- Errors

  /** An error while the namespace is prepared fails the restore; any other error only ends the reconcile. */
  lemma ErrorEnds(w: World, n: nat)
    requires w.worker.Busy? && w.worker.uid in w.restores && n >= 1
    ensures var c, uid := w.worker.call, w.worker.uid;
      var preparing :=
        c.CheckNamespace? || c.CreateTemporary? || c.RecordNamespace? || c.GetAccount? || c.CreateAccount?
        || c.RegetAccount? || c.GetBinding? || c.CreateBinding? || c.RegetBinding?;
      Execute(w, [Perform(Error)] + Calls(n)) ==
        if preparing then Stop(w.(restores := w.restores[uid := w.restores[uid].(stage := FailedEarly)])) else Stop(w)
  {
    var v := Apply(w, Perform(Error));
    ExecuteAppend(w, [Perform(Error)], Calls(n));
    ExecuteOne(w, Perform(Error));
    if v.worker.Busy? {
      PatchFails(v, n, w.worker.uid);
    } else {
      IdleStays(v, n);
    }
  }

  lemma PatchFails(w: World, n: nat, uid: Uid)
    requires uid in w.restores && n >= 1 && w.worker == Busy(uid, PatchFailed)
    ensures Execute(w, Calls(n)) == Stop(w.(restores := w.restores[uid := w.restores[uid].(stage := FailedEarly)]))
  {
    var v := Stop(w.(restores := w.restores[uid := w.restores[uid].(stage := FailedEarly)]));
    PatchFailedStep(w, uid);
    IdleStays(v, n - 1);
    CallFirst(w, n);
  }

  lemma PatchFailedStep(w: World, uid: Uid)
    requires uid in w.restores && w.worker == Busy(uid, PatchFailed)
    ensures Apply(w, Perform(Success)) ==
            Stop(w.(restores := w.restores[uid := w.restores[uid].(stage := FailedEarly)]))
  {
  }
}
