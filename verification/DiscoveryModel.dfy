/**
 * Backup discovery as a persisted state machine. Each reconcile is a function of the persisted
 * status and of everything the controller does not decide itself: what the API server lists, in
 * which order Go ranges over a map or finishes its workers, what a backup contains, and how many
 * of the reconcile's status writes land before it is cut short.
 */
module DiscoveryModel {
  import opened Collections
  import Itoa

  const BATCH_SIZE: nat := 3
  const NOT_FOUND := "Backup not found in cluster"
  const NOT_IN_NAMESPACE := "Backup doesn't include target VM namespace"
  const ANALYZING := "Analyzing backup contents"
  const RETRYING := "Retrying stuck backup analysis"

  datatype Phase = Unset | PhaseNew | PhaseInProgress | PhaseCompleted | PhaseFailed

  /** Blank is the zero value of the Go string type; the controller never means to store it. */
  datatype EntryStatus = New | InProgress | Completed | Skipped | Failed | Blank

  datatype BackupInfo = BackupInfo(name: string, namespace: string, createdAt: Option<int>)

  datatype Entry = Entry(info: BackupInfo, status: EntryStatus, message: string)

  datatype InvalidBackup = InvalidBackup(info: BackupInfo, reason: string)

  datatype Stats = Stats(total: int, pending: int, inProgress: int, completed: int, skipped: int, failed: int)

  datatype Status = Status(
    phase: Phase,
    observedGeneration: int,
    stats: Option<Stats>,
    progress: seq<Entry>,
    validBackups: seq<BackupInfo>,
    invalidBackups: seq<InvalidBackup>,
    ready: Option<bool>)

  datatype Backup = Backup(
    name: string,
    created: int,
    completion: Option<int>,
    completedPhase: bool,
    attempted: int,
    completed: int,
    failed: int,
    included: seq<string>,
    excluded: seq<string>)

  datatype Spec = Spec(vmNamespace: string, hasTimeRange: bool, requested: seq<string>)

  /** The discovery object as the run sees it: its spec and generation do not change. */
  datatype Resource = Resource(spec: Spec, generation: int, namespace: string)

  /** What one worker learns about one backup. */
  datatype Lookup =
    | ReaderMissing
    | BackupGone
    | FetchFailed(error: string)
    | ContentsFailed(error: string)
    | VMFound
    | VMAbsent

  datatype Inputs = Inputs(
    listing: Option<seq<Backup>>,       // None: the list call fails
    range: Option<(int, int)>,          // None: a time in the spec does not parse
    sorted: seq<Backup>,                // outcome of sorting the candidates
    order: seq<string>,                 // iteration order of the requested-name map
    finish: seq<nat> -> seq<nat>,       // order in which the workers of a batch finish
    lookup: string -> Lookup,           // what the workers learn, by backup name
    writes: nat)                        // status writes that land before the reconcile stops

  // ----- Candidate selection and classification

  predicate AsyncIncomplete(b: Backup) {
    b.attempted != 0 && b.completed != b.attempted
  }

  function AsyncReason(b: Backup): string {
    if !AsyncIncomplete(b) then ""
    else
      "backup has incomplete async operations (data mover upload may not have finished); " +
      "BackupItemOperationsAttempted=" + Itoa.Decimal(b.attempted) +
      ", BackupItemOperationsCompleted=" + Itoa.Decimal(b.completed) +
      ", BackupItemOperationsFailed=" + Itoa.Decimal(b.failed)
  }

  /** The VM's namespace is backed up: not excluded, and included by name, by wildcard or by default. */
  predicate CoversNamespace(b: Backup, namespace: string) {
    && namespace !in b.excluded
    && (b.included == [] || "*" in b.included || namespace in b.included)
  }

  predicate Selected(spec: Spec, range: (int, int), b: Backup) {
    var byTime := range.0 <= b.created <= range.1;
    var byName := b.name in spec.requested;
    if spec.requested != [] && spec.hasTimeRange then byName || byTime
    else if spec.requested != [] then byName
    else byTime
  }

  predicate IsCandidate(spec: Spec, range: (int, int), b: Backup) {
    b.completedPhase && !AsyncIncomplete(b) && Selected(spec, range, b) && CoversNamespace(b, spec.vmNamespace)
  }

  function Candidates(spec: Spec, range: (int, int), listing: seq<Backup>): seq<Backup> {
    Filter(listing, b => IsCandidate(spec, range, b))
  }

  datatype RequestClass = Missing | FilteredOut | Candidate | Incomplete

  function Classify(spec: Spec, b: Backup): RequestClass {
    if AsyncIncomplete(b) then Incomplete
    else if CoversNamespace(b, spec.vmNamespace) then Candidate
    else FilteredOut
  }

  /** The last listed backup of the given name; names are unique in a namespace, so the only one. */
  function Named(listing: seq<Backup>, name: string): Option<Backup> {
    if listing == [] then None
    else if listing[|listing| - 1].name == name then Some(listing[|listing| - 1])
    else Named(listing[..|listing| - 1], name)
  }

  function ClassOf(spec: Spec, listing: seq<Backup>, name: string): RequestClass {
    match Named(listing, name)
    case None => Missing
    case Some(b) => Classify(spec, b)
  }

  function Timestamp(b: Backup): Option<int> {
    Some(if b.completion.Some? then b.completion.value else b.created)
  }

  /** The invalid-list entries of one requested name: none, or exactly one. */
  function InvalidOf(r: Resource, listing: seq<Backup>, name: string): seq<InvalidBackup> {
    match Named(listing, name)
    case None => [InvalidBackup(BackupInfo(name, r.namespace, None), NOT_FOUND)]
    case Some(b) =>
      if AsyncIncomplete(b) then
        var reason := AsyncReason(b);
        [InvalidBackup(BackupInfo(name, r.namespace, Timestamp(b)),
                       if reason == "" then "Backup has incomplete async operations" else reason)]
      else []
  }

  function InitialInvalid(r: Resource, listing: seq<Backup>, order: seq<string>): seq<InvalidBackup> {
    if order == [] then []
    else InitialInvalid(r, listing, order[..|order| - 1]) + InvalidOf(r, listing, order[|order| - 1])
  }

  function NamesOfClass(spec: Spec, listing: seq<Backup>, order: seq<string>, class_: RequestClass): seq<string> {
    Filter(order, name => ClassOf(spec, listing, name) == class_)
  }

  function FilteredEntry(r: Resource, name: string): Entry {
    Entry(BackupInfo(name, r.namespace, None), Skipped, NOT_IN_NAMESPACE)
  }

  function CandidateEntry(r: Resource, b: Backup): Entry {
    Entry(BackupInfo(b.name, r.namespace, Timestamp(b)), New, "")
  }

  function CandidateEntries(r: Resource, candidates: seq<Backup>): seq<Entry> {
    Map(candidates, b => CandidateEntry(r, b))
  }

  function FilteredEntries(r: Resource, listing: seq<Backup>, order: seq<string>): seq<Entry> {
    Map(NamesOfClass(r.spec, listing, order, FilteredOut), name => FilteredEntry(r, name))
  }

  function InitialProgress(r: Resource, i: Inputs, listing: seq<Backup>): seq<Entry> {
    CandidateEntries(r, i.sorted) + FilteredEntries(r, listing, i.order)
  }

  function MissingCount(spec: Spec, listing: seq<Backup>, order: seq<string>): nat {
    |NamesOfClass(spec, listing, order, Missing)|
  }

  function InitialStats(r: Resource, i: Inputs, listing: seq<Backup>): Stats {
    var missing := MissingCount(r.spec, listing, i.order);
    var filtered := |NamesOfClass(r.spec, listing, i.order, FilteredOut)|;
    Stats(|i.sorted| + missing + filtered, |i.sorted|, 0, 0, filtered, missing)
  }

  function Cleared(s: Status): Status {
    s.(phase := PhaseInProgress, stats := None, progress := [], validBackups := [], invalidBackups := [], ready := None)
  }

  function Initialized(r: Resource, s: Status, i: Inputs, listing: seq<Backup>): Status {
    Cleared(s).(stats := Some(InitialStats(r, i, listing)),
                progress := InitialProgress(r, i, listing),
                invalidBackups := InitialInvalid(r, listing, i.order))
  }

  function InitializeDiscovery(r: Resource, s: Status, i: Inputs): Status {
    if i.writes == 0 then s
    else if i.listing.None? then
      if i.writes == 1 then Cleared(s)
      else Cleared(s).(phase := PhaseFailed, observedGeneration := r.generation)
    else if i.range.None? || i.writes == 1 then Cleared(s)
    else Initialized(r, s, i, i.listing.value)
  }

  // ----- Batches

  /** Indices of the entries with the given status, in order. */
  function IndicesWith(progress: seq<Entry>, status: EntryStatus): seq<nat> {
    if progress == [] then []
    else
      var k := |progress| - 1;
      var before := IndicesWith(progress[..k], status);
      if progress[k].status == status then before + [k] else before
  }

  function Batch(progress: seq<Entry>): seq<nat> {
    var pending := IndicesWith(progress, New);
    pending[..Min(BATCH_SIZE, |pending|)]
  }

  function SetEntry(progress: seq<Entry>, k: nat, status: EntryStatus, message: string): seq<Entry> {
    if k < |progress| then progress[k := progress[k].(status := status, message := message)] else progress
  }

  function MarkEntries(progress: seq<Entry>, batch: seq<nat>): seq<Entry> {
    if batch == [] then progress
    else SetEntry(MarkEntries(progress, batch[..|batch| - 1]), batch[|batch| - 1], InProgress, ANALYZING)
  }

  function Marked(s: Status, st: Stats): Status {
    var batch := Batch(s.progress);
    s.(progress := MarkEntries(s.progress, batch),
       stats := Some(st.(pending := st.pending - |batch|, inProgress := st.inProgress + |batch|)))
  }

  /** One element of the workers' result array. */
  datatype Slot = Slot(idx: nat, status: EntryStatus, message: string)

  const BLANK_SLOT := Slot(0, Blank, "")

  function Verdict(l: Lookup): (EntryStatus, string) {
    match l
    case ReaderMissing => (Failed, "Backup contents reader not configured")
    case BackupGone => (Failed, NOT_FOUND)
    case FetchFailed(error) => (Failed, "Failed to fetch backup: " + error)
    case ContentsFailed(error) => (Failed, "Failed to check backup contents: " + error)
    case VMFound => (Completed, "VM found in backup")
    case VMAbsent => (Skipped, "VM not found in backup")
  }

  function WorkerSlot(progress: seq<Entry>, lookup: string -> Lookup, idx: nat): Slot {
    if idx < |progress| then
      var v := Verdict(lookup(progress[idx].info.name));
      Slot(idx, v.0, v.1)
    else BLANK_SLOT
  }

  /** The result array after the given workers have finished, each writing slot idx % size. */
  function FillSlots(size: nat, progress: seq<Entry>, lookup: string -> Lookup, finished: seq<nat>): (slots: seq<Slot>)
    requires size > 0
    ensures |slots| == size
  {
    if finished == [] then seq(size, _ => BLANK_SLOT)
    else
      var idx := finished[|finished| - 1];
      FillSlots(size, progress, lookup, finished[..|finished| - 1])[idx % size := WorkerSlot(progress, lookup, idx)]
  }

  function ApplySlots(progress: seq<Entry>, slots: seq<Slot>): seq<Entry> {
    if slots == [] then progress
    else
      var last := slots[|slots| - 1];
      SetEntry(ApplySlots(progress, slots[..|slots| - 1]), last.idx, last.status, last.message)
  }

  function FoundBackups(progress: seq<Entry>, slots: seq<Slot>): seq<BackupInfo> {
    if slots == [] then []
    else
      var last := slots[|slots| - 1];
      var before := FoundBackups(progress, slots[..|slots| - 1]);
      if last.status == Completed && last.idx < |progress| then before + [progress[last.idx].info] else before
  }

  function CountSlots(slots: seq<Slot>, status: EntryStatus): nat {
    |Filter(slots, (x: Slot) => x.status == status)|
  }

  function Recorded(s: Status, st: Stats, slots: seq<Slot>): Status {
    s.(progress := ApplySlots(s.progress, slots),
       validBackups := s.validBackups + FoundBackups(s.progress, slots),
       stats := Some(st.(inProgress := st.inProgress - |slots|,
                         completed := st.completed + CountSlots(slots, Completed),
                         skipped := st.skipped + CountSlots(slots, Skipped),
                         failed := st.failed + CountSlots(slots, Failed))))
  }

  function ResetStuck(s: Status, st: Stats, k: nat): Status {
    s.(progress := SetEntry(s.progress, k, New, RETRYING),
       stats := Some(st.(pending := st.pending + 1, inProgress := st.inProgress - 1)))
  }

  function ProcessBatch(s: Status, st: Stats, i: Inputs): Status {
    var batch := Batch(s.progress);
    if batch == [] then
      var stuck := IndicesWith(s.progress, InProgress);
      if stuck == [] || i.writes == 0 then s else ResetStuck(s, st, stuck[0])
    else if i.writes == 0 then s
    else
      var marked := Marked(s, st);
      if i.writes == 1 then marked
      else Recorded(marked, marked.stats.value, FillSlots(|batch|, marked.progress, i.lookup, i.finish(batch)))
  }

  // ----- Finalization

  predicate IsCompleted(e: Entry) { e.status == Completed }

  function CompletedInfos(progress: seq<Entry>): seq<BackupInfo> {
    Map(Filter(progress, IsCompleted), (e: Entry) => e.info)
  }

  function RejectedOf(e: Entry): InvalidBackup { InvalidBackup(e.info, e.message) }

  function RejectedEntries(progress: seq<Entry>): seq<InvalidBackup> {
    Map(Filter(progress, (e: Entry) => !IsCompleted(e)), RejectedOf)
  }

  function EntryName(e: Entry): string { e.info.name }
  function InvalidName(v: InvalidBackup): string { v.info.name }
  function InfoName(b: BackupInfo): string { b.name }

  function ProgressNames(progress: seq<Entry>): seq<string> { Map(progress, EntryName) }
  function InvalidNames(invalid: seq<InvalidBackup>): seq<string> { Map(invalid, InvalidName) }
  function ValidNames(valid: seq<BackupInfo>): seq<string> { Map(valid, InfoName) }

  function StillRequested(spec: Spec, invalid: seq<InvalidBackup>): seq<InvalidBackup> {
    Filter(invalid, (v: InvalidBackup) => v.info.name in spec.requested)
  }

  function NotFoundEntry(r: Resource, name: string): InvalidBackup {
    InvalidBackup(BackupInfo(name, r.namespace, None), NOT_FOUND)
  }

  function Unaccounted(r: Resource, s: Status): seq<InvalidBackup> {
    var processed := ProgressNames(s.progress);
    var kept := InvalidNames(StillRequested(r.spec, s.invalidBackups));
    Map(Filter(r.spec.requested, name => name !in processed && name !in kept), name => NotFoundEntry(r, name))
  }

  function NewlyRejected(r: Resource, s: Status): seq<InvalidBackup> {
    var kept := InvalidNames(StillRequested(r.spec, s.invalidBackups));
    Filter(RejectedEntries(s.progress), (v: InvalidBackup) => v.info.name !in kept)
  }

  function FinalInvalid(r: Resource, s: Status): seq<InvalidBackup> {
    StillRequested(r.spec, s.invalidBackups) + NewlyRejected(r, s) + Unaccounted(r, s)
  }

  function Finalized(r: Resource, s: Status): Status {
    s.(phase := PhaseCompleted,
       observedGeneration := r.generation,
       validBackups := CompletedInfos(s.progress),
       invalidBackups := FinalInvalid(r, s),
       ready := Some(CompletedInfos(s.progress) != []))
  }

  // ----- One reconcile, and runs

  predicate Complete(s: Status) {
    s.stats.Some? && s.stats.value.pending == 0 && s.stats.value.inProgress == 0 && s.phase == PhaseCompleted
  }

  predicate Discovering(r: Resource, s: Status) {
    && s.phase != Unset && s.stats.Some? && !Complete(s)
    && (s.stats.value.pending > 0 || s.stats.value.inProgress > 0)
  }

  function Reconcile(r: Resource, s: Status, i: Inputs): Status {
    if s.phase == Unset then (if i.writes == 0 then s else s.(phase := PhaseNew))
    else if s.stats.None? then InitializeDiscovery(r, s, i)
    else if Complete(s) && s.observedGeneration == r.generation then s
    else if Complete(s) then InitializeDiscovery(r, s, i)
    else if Discovering(r, s) then ProcessBatch(s, s.stats.value, i)
    else if i.writes == 0 then s
    else Finalized(r, s)
  }

  /** What a reconcile asks for: another one at once, none until something changes, or a retry after an error. */
  datatype Answer = Requeue | Done | Retry

  /** The answer of a step whose last write is the n-th of the reconcile. */
  function AfterWrites(i: Inputs, n: nat, answer: Answer): Answer { if i.writes >= n then answer else Retry }

  function InitializeAnswer(i: Inputs): Answer {
    if i.listing.None? || i.range.None? then Retry else AfterWrites(i, 2, Requeue)
  }

  function BatchAnswer(s: Status, i: Inputs): Answer {
    if Batch(s.progress) != [] then AfterWrites(i, 2, Requeue)
    else if IndicesWith(s.progress, InProgress) != [] then AfterWrites(i, 1, Requeue)
    else Done
  }

  function AnswerTo(r: Resource, s: Status, i: Inputs): Answer {
    if s.phase == Unset then AfterWrites(i, 1, Requeue)
    else if s.stats.None? then InitializeAnswer(i)
    else if Complete(s) && s.observedGeneration == r.generation then Done
    else if Complete(s) then InitializeAnswer(i)
    else if Discovering(r, s) then BatchAnswer(s, i)
    else AfterWrites(i, 1, Done)
  }

  /** What the environment guarantees about the inputs of one reconcile. */
  ghost predicate ValidInputs(r: Resource, i: Inputs) {
    && Enumerates(i.order, r.spec.requested)
    && (forall batch: seq<nat> {:trigger i.finish(batch)} :: multiset(i.finish(batch)) == multiset(batch))
    && (i.listing.Some? && i.range.Some? ==>
          && Distinct(Map(i.listing.value, (b: Backup) => b.name))
          && multiset(i.sorted) == multiset(Candidates(r.spec, i.range.value, i.listing.value))
          && (forall j, k :: 0 <= j < k < |i.sorted| ==> i.sorted[j].created >= i.sorted[k].created))
  }

  ghost predicate AllValid(r: Resource, steps: seq<Inputs>) {
    forall k :: 0 <= k < |steps| ==> ValidInputs(r, steps[k])
  }

  function Run(r: Resource, s: Status, steps: seq<Inputs>): Status {
    if steps == [] then s else Reconcile(r, Run(r, s, steps[..|steps| - 1]), steps[|steps| - 1])
  }
}
