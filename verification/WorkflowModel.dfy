/**
 * The file-restore workflow: the persisted status, the Velero Restores of the file restore, and what one
 * reconcile makes of them.
 *
 * Everything outside the controller is an input of the reconcile, and so is which of its status writes land.
 * A reconcile cut short is one whose later writes do not land, so every status that is ever persisted is the
 * result of some reconcile. Between reconciles Velero moves the Restores from phase to phase, and somebody else
 * may remove one.
 */
module WorkflowModel {
  import opened Collections
  import opened RestoreModel
  import opened VeleroRestores
  import opened Monitoring
  import opened RestoreProgress
  import opened Pipeline

  datatype Phase = Unset | New | InProgress | Completed | PartiallyFailed | Failed

  /** Reasons of the Progressing condition, in workflow order; the last five end the workflow. */
  datatype Reason =
    | Initialized | Validating | WaitingForDiscovery | DiscoveringPVCs | ValidationCompleted | NamespaceReady
    | WaitingForRestores | RestoresCompleted | CredentialsReady | WaitingForRoute
    | FileServerCreated | ValidationFailed | PartialValidationFailed | RestoresCompletedWithFailures | RestoresFailed

  datatype Progress = Progress(active: bool, reason: Reason)

  datatype Status = Status(
    phase: Phase,
    progressing: Option<Progress>,
    available: Option<bool>,
    degraded: Option<bool>,
    ready: Option<bool>,
    createdNamespace: string,
    pvcRestores: seq<PVCRestore>,
    publicAccess: string)

  const NOTHING := Status(Unset, None, None, None, None, "", [], "")

  datatype Spec = Spec(
    home: string,             // spec.restoreNamespace, or the generated name
    uid: string,              // labels the Restores of this file restore
    external: bool,           // a FileBrowser route is requested
    oadpNamespace: string)

  /** The status writes of a reconcile; each is attempted at most once. */
  datatype Site =
    | FinalizerWrite | StartWrite | WaitWrite | DiscoveringWrite | StoreWrite | RecordWrite
    | NamesWrite | FollowWrite | AdvanceWrite | FailWrite

  datatype DiscoveryAnswer = DiscoveryError | DiscoveryRunning | DiscoveryDone

  datatype PvcCheck = PvcLost | PvcsMissing | PvcsReady

  datatype Inputs = Inputs(
    deleting: bool,
    finalizersPresent: bool,                // false: this reconcile only adds them
    discovery: DiscoveryAnswer,
    backupsSelected: bool,                  // the discovery has valid backups and the selection is among them
    discovered: seq<PVCRestore>,            // what processing the discovery results yields
    namespaceOk: bool,
    accessOk: bool,
    discoveryFound: bool,                   // the discovery object is read again before Restores are created
    order: seq<string>,                     // order of the create calls
    outcomes: seq<CreateOutcome>,           // the server's answers to them
    listFails: bool,                        // listing the Restores fails
    pvcs: PvcCheck,
    credentialsOk: bool,
    fileServerOk: bool,
    serviceFound: bool,
    routeHost: string,                      // "" while none is assigned
    lands: Site -> bool)

  // ----- Writes

  function Set(s: Status, phase: Phase, active: bool, reason: Reason, available: bool, degraded: bool,
               ready: bool): Status {
    s.(phase := phase, progressing := Some(Progress(active, reason)),
       available := Some(available), degraded := Some(degraded), ready := Some(ready))
  }

  function Working(s: Status, reason: Reason): Status { Set(s, InProgress, true, reason, false, false, false) }

  function Fail(s: Status, i: Inputs): Status {
    if i.lands(FailWrite) then Set(s, Failed, false, ValidationFailed, false, true, false) else s
  }

  function FailPartially(s: Status, i: Inputs): Status {
    if i.lands(FailWrite) then Set(s, PartiallyFailed, false, PartialValidationFailed, true, true, false) else s
  }

  function Advance(s: Status, i: Inputs, next: Status): Status { if i.lands(AdvanceWrite) then next else s }

  // ----- Availability

  predicate HasAvailable(e: PVCRestore) { exists j :: 0 <= j < |e.restores| && IsAvailable(e.restores[j]) }

  predicate FullyAvailable(e: PVCRestore) {
    e.restores != [] && forall j :: 0 <= j < |e.restores| ==> IsAvailable(e.restores[j])
  }

  /** A real PVC can be restored from some backup. */
  predicate SomethingAvailable(stored: seq<PVCRestore>) {
    exists k :: 0 <= k < |stored| && !IsSynthetic(stored[k]) && HasAvailable(stored[k])
  }

  /** Every real PVC can be restored from every backup that has it. */
  predicate EverythingAvailable(stored: seq<PVCRestore>) {
    forall k :: 0 <= k < |stored| && !IsSynthetic(stored[k]) ==> FullyAvailable(stored[k])
  }

  predicate InfosNamed(e: PVCRestore) {
    forall j :: 0 <= j < |e.restores| && IsAvailable(e.restores[j]) ==> e.restores[j].restoreName != ""
  }

  /** Every available restore of a real PVC is named after its Velero Restore. */
  predicate AllRestoresNamed(stored: seq<PVCRestore>) {
    forall k :: 0 <= k < |stored| && !IsSynthetic(stored[k]) ==> InfosNamed(stored[k])
  }

  // ----- Validation

  function Judge(s: Status, i: Inputs): Status {
    if !SomethingAvailable(s.pvcRestores) then Fail(s, i)
    else if !EverythingAvailable(s.pvcRestores) then FailPartially(s, i)
    else Advance(s, i, Working(s, ValidationCompleted))
  }

  function DiscoverPVCs(s: Status, i: Inputs): Status {
    if !i.lands(DiscoveringWrite) then s
    else
      var t := s.(phase := InProgress, progressing := Some(Progress(true, DiscoveringPVCs)));
      if t.pvcRestores == i.discovered then Judge(t, i)
      else if !i.lands(StoreWrite) then Fail(t, i)
      else Judge(t.(pvcRestores := i.discovered), i)
  }

  function Validate(s: Status, i: Inputs): Status {
    if s.phase.New? && !i.lands(StartWrite) then s
    else
      var t := if s.phase.New? then Working(s, Validating) else s;
      match i.discovery
      case DiscoveryError => Fail(t, i)
      case DiscoveryRunning => if i.lands(WaitWrite) then Working(t, WaitingForDiscovery) else t
      case DiscoveryDone => if !i.backupsSelected then Fail(t, i) else DiscoverPVCs(t, i)
  }

  // ----- The workflow steps

  function PrepareNamespace(spec: Spec, s: Status, i: Inputs): Status {
    if !i.namespaceOk || !i.lands(RecordWrite) then Fail(s, i)
    else
      var t := s.(createdNamespace := spec.home);
      if !i.accessOk then Fail(t, i) else Advance(t, i, Working(t, NamespaceReady))
  }

  /** What a reconcile sees of the Restores: the names given by the creation, and the listing. */
  datatype Seen = Seen(created: Option<map<string, string>>, owned: Option<seq<VeleroRestore>>)

  function CreateRestores(spec: Spec, s: Status, i: Inputs, seen: Seen): Status {
    if AllRestoresNamed(s.pvcRestores) then Advance(s, i, Working(s, WaitingForRestores))
    else if seen.created.None? || !i.lands(NamesWrite) then Fail(s, i)
    else
      var t := s.(pvcRestores := Named(s.pvcRestores, seen.created.value, spec.oadpNamespace));
      Advance(t, i, Working(t, WaitingForRestores))
  }

  function Conclude(s: Status, completed: nat, failed: nat): Status {
    if failed == 0 && completed > 0 then Working(s, RestoresCompleted)
    else if completed > 0 then Set(s, PartiallyFailed, false, RestoresCompletedWithFailures, true, true, true)
    else Set(s, Failed, false, RestoresFailed, false, true, false)
  }

  /** Checking the restored PVCs is an error when none is complete. */
  function PvcAnswer(s: Status, i: Inputs): PvcCheck {
    if s.createdNamespace == "" || Mounts(s.pvcRestores) == [] then PvcLost else i.pvcs
  }

  ghost function MonitorRestores(spec: Spec, s: Status, i: Inputs, seen: Seen): Status {
    if seen.owned.None? || seen.owned.value == [] then s
    else
      var owned := seen.owned.value;
      var followed := FollowStored(s.pvcRestores, owned, spec.oadpNamespace);
      if Updates(s.pvcRestores, owned, spec.oadpNamespace) && !i.lands(FollowWrite) then s
      else
        var t := s.(pvcRestores := followed);
        var completed, failed := CompletedCount(owned), FailedCount(owned);
        if completed + failed < |owned| then t
        else if completed > 0 && PvcAnswer(t, i).PvcLost? then Fail(t, i)
        else if completed > 0 && PvcAnswer(t, i).PvcsMissing? then t
        else Advance(t, i, Conclude(t, completed, failed))
  }

  function PrepareCredentials(s: Status, i: Inputs): Status {
    if s.createdNamespace == "" || !i.credentialsOk then Fail(s, i) else Advance(s, i, Working(s, CredentialsReady))
  }

  /** The public URL as far as it is known. */
  function PublicAccess(spec: Spec, s: Status, host: string): string {
    if s.createdNamespace != "" && spec.external && host != "" then "https://" + host else ""
  }

  function Finished(s: Status): Status { Set(s, Completed, false, FileServerCreated, true, false, true) }

  /** The file server needs a namespace and something to mount. */
  predicate Servable(s: Status, i: Inputs) {
    s.createdNamespace != "" && Mounts(s.pvcRestores) != [] && i.fileServerOk
  }

  function StartFileServer(spec: Spec, s: Status, i: Inputs): Status {
    if !Servable(s, i) then Fail(s, i)
    else
      var t := s.(publicAccess := PublicAccess(spec, s, i.routeHost));
      Advance(s, i, if spec.external && t.publicAccess == ""
                    then Set(t, InProgress, true, WaitingForRoute, true, false, false) else Finished(t))
  }

  function AwaitRoute(spec: Spec, s: Status, i: Inputs): Status {
    var url := PublicAccess(spec, s, i.routeHost);
    if s.createdNamespace == "" || !i.serviceFound || url == "" then s
    else Advance(s, i, Finished(s.(publicAccess := url)))
  }

  ghost function Execute(spec: Spec, s: Status, i: Inputs, seen: Seen, reason: Reason): Status {
    match reason
    case ValidationCompleted => PrepareNamespace(spec, s, i)
    case NamespaceReady => CreateRestores(spec, s, i, seen)
    case WaitingForRestores => MonitorRestores(spec, s, i, seen)
    case RestoresCompleted => PrepareCredentials(s, i)
    case CredentialsReady => StartFileServer(spec, s, i)
    case WaitingForRoute => AwaitRoute(spec, s, i)
    case _ => s
  }

  /** The reasons that send a reconcile to the workflow instead of to validation. */
  predicate InWorkflow(r: Reason) {
    r.DiscoveringPVCs? || r.ValidationCompleted? || r.NamespaceReady? || r.WaitingForRestores?
    || r.RestoresCompleted? || r.CredentialsReady? || r.WaitingForRoute?
  }

  ghost function ReconcileStatus(spec: Spec, s: Status, i: Inputs, seen: Seen): Status {
    if i.deleting || Terminal(s.phase) then s
    else if s.phase.Unset? then
      if i.finalizersPresent then Advance(s, i, Set(s, New, false, Initialized, false, false, false)) else s
    else if AtWork(s) then Execute(spec, s, i, seen, s.progressing.value.reason)
    else Validate(s, i)
  }

  predicate Terminal(p: Phase) { p.Completed? || p.PartiallyFailed? || p.Failed? }

  /** The dispatch goes to the workflow. */
  predicate AtWork(s: Status) {
    (s.phase.New? || s.phase.InProgress?) && s.progressing.Some? && InWorkflow(s.progressing.value.reason)
  }

  // ----- What a reconcile asks for

  /** Requeue at once, done until something changes, or an error that is retried. */
  datatype Answer = Requeue | Done | Retry

  function AfterWrite(i: Inputs, site: Site, answer: Answer): Answer { if i.lands(site) then answer else Retry }

  function JudgeAnswer(stored: seq<PVCRestore>, i: Inputs): Answer {
    if !SomethingAvailable(stored) || !EverythingAvailable(stored) then Retry else AfterWrite(i, AdvanceWrite, Requeue)
  }

  function ValidateAnswer(s: Status, i: Inputs): Answer {
    if s.phase.New? && !i.lands(StartWrite) then Retry
    else
      match i.discovery
      case DiscoveryError => Retry
      case DiscoveryRunning => AfterWrite(i, WaitWrite, Requeue)
      case DiscoveryDone =>
        if !i.backupsSelected || !i.lands(DiscoveringWrite) then Retry
        else if s.pvcRestores != i.discovered && !i.lands(StoreWrite) then Retry
        else JudgeAnswer(i.discovered, i)
  }

  ghost function MonitorAnswer(spec: Spec, s: Status, i: Inputs, seen: Seen): Answer {
    if seen.owned.None? || seen.owned.value == [] then Retry
    else
      var owned := seen.owned.value;
      var t := s.(pvcRestores := FollowStored(s.pvcRestores, owned, spec.oadpNamespace));
      var completed, failed := CompletedCount(owned), FailedCount(owned);
      if Updates(s.pvcRestores, owned, spec.oadpNamespace) && !i.lands(FollowWrite) then Retry
      else if completed + failed < |owned| then Requeue
      else if completed > 0 && PvcAnswer(t, i).PvcLost? then Retry
      else if completed > 0 && PvcAnswer(t, i).PvcsMissing? then Requeue
      else AfterWrite(i, AdvanceWrite, if failed == 0 && completed > 0 then Requeue else Done)
  }

  ghost function ExecuteAnswer(spec: Spec, s: Status, i: Inputs, seen: Seen, reason: Reason): Answer {
    match reason
    case ValidationCompleted =>
      if i.namespaceOk && i.lands(RecordWrite) && i.accessOk then AfterWrite(i, AdvanceWrite, Requeue) else Retry
    case NamespaceReady =>
      if AllRestoresNamed(s.pvcRestores) || (seen.created.Some? && i.lands(NamesWrite))
      then AfterWrite(i, AdvanceWrite, Requeue) else Retry
    case WaitingForRestores => MonitorAnswer(spec, s, i, seen)
    case RestoresCompleted =>
      if s.createdNamespace == "" || !i.credentialsOk then Retry else AfterWrite(i, AdvanceWrite, Requeue)
    case CredentialsReady =>
      if !Servable(s, i) then Retry
      else AfterWrite(i, AdvanceWrite,
                      if spec.external && PublicAccess(spec, s, i.routeHost) == "" then Requeue else Done)
    case WaitingForRoute =>
      if s.createdNamespace == "" || !i.serviceFound then Retry
      else if PublicAccess(spec, s, i.routeHost) == "" then Requeue
      else AfterWrite(i, AdvanceWrite, Done)
    case _ => Done
  }

  /** The answer of a reconcile of an object that is not being deleted. */
  ghost function AnswerTo(spec: Spec, s: Status, i: Inputs, seen: Seen): Answer {
    if Terminal(s.phase) then Done
    else if s.phase.Unset? then
      if i.finalizersPresent then AfterWrite(i, AdvanceWrite, Requeue) else AfterWrite(i, FinalizerWrite, Requeue)
    else if AtWork(s) then ExecuteAnswer(spec, s, i, seen, s.progressing.value.reason)
    else ValidateAnswer(s, i)
  }

  // ----- The Restores

  /** A file restore with its Restores; removed: the names of those that somebody else removed. */
  datatype Cluster = Cluster(status: Status, restores: seq<VeleroRestore>, removed: set<string>)

  /** The reconcile gets as far as creating Restores. */
  ghost predicate Creates(c: Cluster, i: Inputs) {
    && !i.deleting && AtWork(c.status) && c.status.progressing.value.reason.NamespaceReady?
    && !AllRestoresNamed(c.status.pvcRestores) && c.status.createdNamespace != ""
    && i.discoveryFound && GroupsOf(c.status.pvcRestores) != map[]
  }

  ghost function CreationOf(spec: Spec, c: Cluster, i: Inputs): Creation {
    if Creates(c, i) && Callable(GroupsOf(c.status.pvcRestores), i.order, i.outcomes)
    then Create(c.restores, spec.uid, GroupsOf(c.status.pvcRestores), i.order, i.outcomes)
    else Creation(None, c.restores)
  }

  ghost function SeenBy(spec: Spec, c: Cluster, i: Inputs): Seen {
    Seen(CreationOf(spec, c, i).names, if i.listFails then None else Some(c.restores))
  }

  ghost function Reconcile(spec: Spec, c: Cluster, i: Inputs): Cluster {
    Cluster(ReconcileStatus(spec, c.status, i, SeenBy(spec, c, i)), CreationOf(spec, c, i).restores, c.removed)
  }

  datatype Event =
    | Reconciled(i: Inputs)
    | VeleroMoves(k: nat, phase: RestorePhase)
    | RestoreRemoved(k: nat)

  ghost function Happen(spec: Spec, c: Cluster, e: Event): Cluster {
    match e
    case Reconciled(i) => Reconcile(spec, c, i)
    case VeleroMoves(k, phase) =>
      if k < |c.restores| then c.(restores := c.restores[k := c.restores[k].(phase := phase)]) else c
    case RestoreRemoved(k) =>
      if k < |c.restores|
      then c.(restores := c.restores[..k] + c.restores[k + 1..], removed := c.removed + {c.restores[k].name})
      else c
  }

  ghost function Run(spec: Spec, events: seq<Event>): Cluster {
    if events == [] then Cluster(NOTHING, [], {})
    else Happen(spec, Run(spec, events[..|events| - 1]), events[|events| - 1])
  }

  // ----- What the environment promises

  ghost predicate Unnamed(stored: seq<PVCRestore>) {
    forall k, j :: 0 <= k < |stored| && 0 <= j < |stored[k].restores| ==> stored[k].restores[j].restoreName == ""
  }

  /**
   * Newly discovered restores carry no Restore name; there is one create call per group, with one answer each; the
   * server generates names that are not taken.
   */
  ghost predicate ValidInputs(c: Cluster, i: Inputs) {
    && Unnamed(i.discovered)
    && (Creates(c, i) ==>
          && Distinct(i.order) && (forall b :: b in i.order <==> b in GroupsOf(c.status.pvcRestores))
          && |i.outcomes| == |i.order| && NamesNew(c.restores, i.outcomes))
  }

  ghost predicate ValidRun(spec: Spec, events: seq<Event>) {
    && spec.home != ""
    && (forall n :: 0 <= n < |events| && events[n].Reconciled? ==> ValidInputs(Run(spec, events[..n]), events[n].i))
  }
}
