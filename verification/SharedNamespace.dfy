/**
 * Several file restores sharing one restore namespace with a single ServiceAccount and RoleBinding.
 *
 * The machine takes one API call of the (single) reconcile worker at a time. Between any two calls
 * users may create and delete restores, namespaces and unmanaged objects, any call may fail, and
 * the worker may die and start over. Reads are up to date.
 */
module SharedNamespace {
  import opened Collections

  type Uid = nat

  /** A ServiceAccount or RoleBinding under the shared name. */
  datatype Object = Object(managed: bool, byController: bool, correct: bool)

  datatype Namespace = Namespace(temporary: bool, account: Option<Object>, binding: Option<Object>)

  /**
   * How far a restore has come: Validated stands for the reason ValidationCompleted, Beyond for every
   * reason and terminal phase after NamespaceReady, FailedEarly for a terminal phase before it.
   */
  datatype Stage = Created | Validating | Validated | NamespaceReady | Beyond | FailedEarly

  datatype Restore = Restore(
    target: string,             // spec.restoreNamespace, "" if none is given
    temporaryName: string,      // the name generated for it otherwise
    deleting: bool,
    veleroFinalizer: bool,
    mainFinalizer: bool,
    stage: Stage,
    recorded: string)           // status.createdNamespace

  /** The next API call of the worker. */
  datatype Call =
    | PatchFinalizers | PatchPhaseNew | RunValidation
    | CheckNamespace | CreateTemporary | RecordNamespace(ns: string)
    | GetAccount(ns: string) | CreateAccount(ns: string) | RegetAccount(ns: string)
    | GetBinding(ns: string) | CreateBinding(ns: string) | RegetBinding(ns: string)
    | PatchReady(ns: string) | PatchFailed | PatchBeyond
    | RemoveVeleroFinalizer | GetNamespace(ns: string) | DeleteTemporary(ns: string) | ListOthers(ns: string)
    | ProbeBinding(ns: string) | DeleteBinding(ns: string) | ProbeAccount(ns: string) | DeleteAccount(ns: string)
    | DropFinalizer(ns: string)

  datatype Worker = Idle | Busy(uid: Uid, call: Call)

  datatype World = World(
    namespaces: map<string, Namespace>,
    restores: map<Uid, Restore>,
    openshift: bool,
    deleted: set<string>,       // namespaces that were deleted at some time, by whomever
    worker: Worker)

  /**
   * Rejected: the call succeeded and its answer is the negative one (validation only).
   * Lost: the call took effect and the worker is told that it failed.
   */
  datatype Answer = Success | Rejected | Error | Lost

  datatype Step =
    | Begin(uid: Uid)
    | Perform(answer: Answer)
    | Crash
    | UserCreates(uid: Uid, target: string, temporaryName: string)
    | UserDeletes(uid: Uid)
    | NamespaceAppears(ns: string, temporary: bool)
    | NamespaceVanishes(ns: string)
    | AccountAppears(ns: string, made: Object)
    | BindingAppears(ns: string, made: Object)
    | AccountRemoved(ns: string)
    | BindingRemoved(ns: string)

  function Home(x: Restore): string { if x.target != "" then x.target else x.temporaryName }

  function AccountIn(w: World, ns: string): Option<Object> {
    if ns in w.namespaces then w.namespaces[ns].account else None
  }

  function BindingIn(w: World, ns: string): Option<Object> {
    if ns in w.namespaces then w.namespaces[ns].binding else None
  }

  const OURS := Object(true, true, true)

  // ----- Writes

  function SetAccount(w: World, ns: string, o: Option<Object>): World {
    if ns in w.namespaces then w.(namespaces := w.namespaces[ns := w.namespaces[ns].(account := o)]) else w
  }

  function SetBinding(w: World, ns: string, o: Option<Object>): World {
    if ns in w.namespaces then w.(namespaces := w.namespaces[ns := w.namespaces[ns].(binding := o)]) else w
  }

  function SetStage(w: World, uid: Uid, stage: Stage): World {
    if uid in w.restores then w.(restores := w.restores[uid := w.restores[uid].(stage := stage)]) else w
  }

  function Remove(w: World, ns: string): World {
    if ns in w.namespaces then w.(namespaces := w.namespaces - {ns}, deleted := w.deleted + {ns}) else w
  }

  /** The API server removes a deleting object once its last finalizer is gone. */
  function Put(w: World, uid: Uid, x: Restore): World {
    if x.deleting && !x.veleroFinalizer && !x.mainFinalizer then w.(restores := w.restores - {uid})
    else w.(restores := w.restores[uid := x])
  }

  function Goto(w: World, uid: Uid, call: Call): World { w.(worker := Busy(uid, call)) }

  function Stop(w: World): World { w.(worker := Idle) }

  // ----- The worker

  /** The dispatch at the start of a reconcile. */
  function FirstCall(x: Restore): Option<Call> {
    if x.deleting then
      if x.veleroFinalizer then Some(RemoveVeleroFinalizer)
      else if !x.mainFinalizer then None
      else if x.recorded == "" then Some(DropFinalizer(""))
      else Some(GetNamespace(x.recorded))
    else
      match x.stage
      case Created => Some(if x.veleroFinalizer && x.mainFinalizer then PatchPhaseNew else PatchFinalizers)
      case Validating => Some(RunValidation)
      case Validated => Some(if x.target != "" then CheckNamespace else CreateTemporary)
      case NamespaceReady => Some(PatchBeyond)
      case Beyond => None
      case FailedEarly => None
  }

  /** Another restore, not being deleted, has the namespace recorded. */
  ghost predicate InUseByOther(w: World, uid: Uid, ns: string) {
    exists other :: other in w.restores && other != uid
                    && !w.restores[other].deleting && w.restores[other].recorded == ns
  }

  /** Calls of the creation path whose error leads to the Failed phase. */
  predicate FailsRestore(c: Call) {
    match c
    case CheckNamespace | CreateTemporary | RecordNamespace(_) | GetAccount(_) | CreateAccount(_) | RegetAccount(_)
       | GetBinding(_) | CreateBinding(_) | RegetBinding(_) => true
    case _ => false
  }

  function AfterError(uid: Uid, c: Call): Worker { if FailsRestore(c) then Busy(uid, PatchFailed) else Idle }

  /** The effect of a call that succeeds, and the call the worker makes next. */
  ghost function PerformSuccess(w: World, uid: Uid, c: Call): World {
    if uid !in w.restores then Stop(w)
    else
      var x := w.restores[uid];
      match c
      case PatchFinalizers =>
        Stop(if x.deleting then w else Put(w, uid, x.(veleroFinalizer := true, mainFinalizer := true)))
      case PatchPhaseNew => Stop(SetStage(w, uid, Validating))
      case RunValidation => Stop(SetStage(w, uid, Validated))
      case CheckNamespace =>
        Goto(w, uid, if x.target in w.namespaces then RecordNamespace(x.target) else PatchFailed)
      case CreateTemporary =>
        if x.temporaryName in w.namespaces then Goto(w, uid, RecordNamespace(x.temporaryName))
        else Goto(w.(namespaces := w.namespaces[x.temporaryName := Namespace(true, None, None)]),
                  uid, RecordNamespace(x.temporaryName))
      case RecordNamespace(ns) => Goto(w.(restores := w.restores[uid := x.(recorded := ns)]), uid, GetAccount(ns))
      case GetAccount(ns) =>
        var o := AccountIn(w, ns);
        Goto(w, uid, if o.None? then CreateAccount(ns) else if o.value.managed then GetBinding(ns) else PatchFailed)
      case CreateAccount(ns) =>
        if ns !in w.namespaces then Goto(w, uid, PatchFailed)
        else if AccountIn(w, ns).Some? then Goto(w, uid, RegetAccount(ns))
        else Goto(SetAccount(w, ns, Some(OURS)), uid, RegetAccount(ns))
      case RegetAccount(ns) =>
        var o := AccountIn(w, ns);
        Goto(w, uid, if o.Some? && o.value.managed then GetBinding(ns) else PatchFailed)
      case GetBinding(ns) =>
        var o := BindingIn(w, ns);
        Goto(w, uid, if o.None? then CreateBinding(ns)
                     else if o.value.managed && o.value.correct then PatchReady(ns) else PatchFailed)
      case CreateBinding(ns) =>
        // A missing ClusterRole and a missing namespace are both reported as not found.
        if !w.openshift || ns !in w.namespaces then Goto(w, uid, PatchReady(ns))
        else if BindingIn(w, ns).Some? then Goto(w, uid, RegetBinding(ns))
        else Goto(SetBinding(w, ns, Some(OURS)), uid, RegetBinding(ns))
      case RegetBinding(ns) =>
        var o := BindingIn(w, ns);
        Goto(w, uid, if o.Some? && o.value.managed && o.value.correct then PatchReady(ns) else PatchFailed)
      case PatchReady(ns) => Stop(SetStage(w, uid, NamespaceReady))
      case PatchFailed => Stop(SetStage(w, uid, FailedEarly))
      case PatchBeyond => Stop(SetStage(w, uid, Beyond))
      case RemoveVeleroFinalizer => Stop(Put(w, uid, x.(veleroFinalizer := false)))
      case GetNamespace(ns) =>
        Goto(w, uid, if ns !in w.namespaces then DropFinalizer(ns)
                     else if w.namespaces[ns].temporary then DeleteTemporary(ns) else ListOthers(ns))
      case DeleteTemporary(ns) => Goto(Remove(w, ns), uid, DropFinalizer(ns))
      case ListOthers(ns) => Goto(w, uid, if InUseByOther(w, uid, ns) then DropFinalizer(ns) else ProbeBinding(ns))
      case ProbeBinding(ns) =>
        var o := BindingIn(w, ns);
        Goto(w, uid, if o.Some? && o.value.managed then DeleteBinding(ns) else ProbeAccount(ns))
      case DeleteBinding(ns) => Goto(SetBinding(w, ns, None), uid, ProbeAccount(ns))
      case ProbeAccount(ns) =>
        var o := AccountIn(w, ns);
        Goto(w, uid, if o.Some? && o.value.managed then DeleteAccount(ns) else DropFinalizer(ns))
      case DeleteAccount(ns) => Goto(SetAccount(w, ns, None), uid, DropFinalizer(ns))
      case DropFinalizer(ns) => Stop(Put(w, uid, x.(mainFinalizer := false)))
  }

  ghost function Apply(w: World, s: Step): World {
    match s
    case Begin(uid) =>
      if w.worker.Idle? && uid in w.restores && FirstCall(w.restores[uid]).Some?
      then Goto(w, uid, FirstCall(w.restores[uid]).value) else w
    case Perform(answer) =>
      if w.worker.Idle? then w
      else if answer.Success? then PerformSuccess(w, w.worker.uid, w.worker.call)
      else if answer.Rejected? && w.worker.call.RunValidation? then Stop(SetStage(w, w.worker.uid, FailedEarly))
      else
        (if answer.Lost? then PerformSuccess(w, w.worker.uid, w.worker.call) else w)
        .(worker := AfterError(w.worker.uid, w.worker.call))
    case Crash => Stop(w)
    case UserCreates(uid, target, temporaryName) =>
      if uid in w.restores || temporaryName == "" then w
      else w.(restores := w.restores[uid := Restore(target, temporaryName, false, false, false, Created, "")])
    case UserDeletes(uid) =>
      if uid in w.restores then Put(w, uid, w.restores[uid].(deleting := true)) else w
    case NamespaceAppears(ns, temporary) =>
      if ns == "" || ns in w.namespaces then w
      else w.(namespaces := w.namespaces[ns := Namespace(temporary, None, None)])
    case NamespaceVanishes(ns) => Remove(w, ns)
    case AccountAppears(ns, made) =>
      if AccountIn(w, ns).None? && !made.byController then SetAccount(w, ns, Some(made)) else w
    case BindingAppears(ns, made) =>
      if BindingIn(w, ns).None? && !made.byController then SetBinding(w, ns, Some(made)) else w
    case AccountRemoved(ns) =>
      if AccountIn(w, ns).Some? && !AccountIn(w, ns).value.managed then SetAccount(w, ns, None) else w
    case BindingRemoved(ns) =>
      if BindingIn(w, ns).Some? && !BindingIn(w, ns).value.managed then SetBinding(w, ns, None) else w
  }

  ghost function Execute(w: World, steps: seq<Step>): World {
    if steps == [] then w else Apply(Execute(w, steps[..|steps| - 1]), steps[|steps| - 1])
  }

  /** A cluster before the controller has created anything: no restores, no access objects of ours. */
  ghost predicate Initial(w: World) {
    && w.restores == map[] && w.worker.Idle? && w.deleted == {}
    && "" !in w.namespaces
    && (forall ns :: !(AccountIn(w, ns).Some? && AccountIn(w, ns).value.byController))
    && (forall ns :: !(BindingIn(w, ns).Some? && BindingIn(w, ns).value.byController))
  }
}
