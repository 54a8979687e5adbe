/**
 * The discovery controller in the form it is written in: loops over slices and maps, a status
 * updated in place, a result array filled by workers, and status writes that may be the last thing
 * a reconcile does. Every method is proved against the state machine of DiscoveryModel.
 */
module DiscoveryController {
  import opened Collections
  import opened DiscoveryModel

  // ----- Candidate selection

  method ValidateVMInBackupSpec(b: Backup, namespace: string) returns (covered: bool)
    ensures covered <==> CoversNamespace(b, namespace)
    ensures covered <==> namespace !in b.excluded && (b.included == [] || "*" in b.included || namespace in b.included)
  {
    for k := 0 to |b.excluded|
      invariant namespace !in b.excluded[..k]
    {
      if b.excluded[k] == namespace {
        return false;
      }
    }
    assert b.excluded[..|b.excluded|] == b.excluded;
    if |b.included| == 0 {
      return true;
    }
    for k := 0 to |b.included|
      invariant "*" !in b.included[..k] && namespace !in b.included[..k]
    {
      if b.included[k] == "*" || b.included[k] == namespace {
        return true;
      }
    }
    assert b.included[..|b.included|] == b.included;
    return false;
  }

  method InExplicitList(name: string, requested: seq<string>) returns (found: bool)
    ensures found <==> name in requested
  {
    found := false;
    for k := 0 to |requested|
      invariant name !in requested[..k]
    {
      if name == requested[k] {
        return true;
      }
    }
    assert requested[..|requested|] == requested;
  }

  method SelectCandidates(spec: Spec, range: (int, int), listing: seq<Backup>) returns (candidates: seq<Backup>)
    ensures candidates == Candidates(spec, range, listing)
  {
    candidates := [];
    for k := 0 to |listing|
      invariant candidates == Candidates(spec, range, listing[..k])
    {
      var backup := listing[k];
      assert listing[..k + 1][..k] == listing[..k];
      if !backup.completedPhase || AsyncIncomplete(backup) {
        continue;
      }
      var byTime := range.0 <= backup.created && backup.created <= range.1;
      var byName := false;
      if |spec.requested| > 0 {
        byName := InExplicitList(backup.name, spec.requested);
      }
      var shouldInclude;
      if |spec.requested| > 0 && spec.hasTimeRange {
        shouldInclude := byName || byTime;
      } else if |spec.requested| > 0 {
        shouldInclude := byName;
      } else {
        shouldInclude := byTime;
      }
      if !shouldInclude {
        continue;
      }
      var covered := ValidateVMInBackupSpec(backup, spec.vmNamespace);
      if covered {
        candidates := candidates + [backup];
      }
    }
    assert listing[..|listing|] == listing;
  }

  /** Selection, then the library's sort; sorted is the order it leaves the candidates in. */
  method CollectCandidates(spec: Spec, range: (int, int), listing: seq<Backup>,
                           sorted: seq<Backup>) returns (candidates: seq<Backup>)
    requires multiset(sorted) == multiset(Candidates(spec, range, listing))
    ensures candidates == sorted
  {
    var selected := SelectCandidates(spec, range, listing);
    assert multiset(selected) == multiset(sorted);
    candidates := sorted;
  }

  // ----- Classification of the requested names

  /** classes and refs describe every requested name after a scan of the listing. */
  ghost predicate Scanned(spec: Spec, listing: seq<Backup>, classes: map<string, RequestClass>,
                          refs: map<string, Backup>) {
    && (forall name :: name in classes <==> name in spec.requested)
    && (forall name :: name in classes ==>
          && classes[name] == ClassOf(spec, listing, name)
          && (Named(listing, name).Some? ==> name in refs && refs[name] == Named(listing, name).value))
  }

  /** Scanning one more backup changes at most the class of its own name. */
  lemma ScanStep(spec: Spec, listing: seq<Backup>, k: nat, classes: map<string, RequestClass>,
                 refs: map<string, Backup>)
    requires k < |listing| && Scanned(spec, listing[..k], classes, refs)
    ensures listing[k].name !in classes ==> Scanned(spec, listing[..k + 1], classes, refs)
    ensures listing[k].name in classes ==>
              Scanned(spec, listing[..k + 1], classes[listing[k].name := Classify(spec, listing[k])],
                      refs[listing[k].name := listing[k]])
  {
    assert listing[..k + 1][..k] == listing[..k];
  }

  method ClassifyListing(spec: Spec, listing: seq<Backup>) returns (classes: map<string, RequestClass>,
                         refs: map<string, Backup>)
    ensures Scanned(spec, listing, classes, refs)
  {
    classes := map[];
    for k := 0 to |spec.requested|
      invariant forall name :: name in classes <==> name in spec.requested[..k]
      invariant forall name :: name in classes ==> classes[name] == Missing
    {
      classes := classes[spec.requested[k] := Missing];
    }
    assert spec.requested[..|spec.requested|] == spec.requested;
    refs := map[];
    for k := 0 to |listing|
      invariant Scanned(spec, listing[..k], classes, refs)
    {
      var backup := listing[k];
      ScanStep(spec, listing, k, classes, refs);
      if backup.name in classes {
        refs := refs[backup.name := backup];
        if AsyncIncomplete(backup) {
          classes := classes[backup.name := Incomplete];
          continue;
        }
        var covered := ValidateVMInBackupSpec(backup, spec.vmNamespace);
        if covered {
          classes := classes[backup.name := Candidate];
        } else {
          classes := classes[backup.name := FilteredOut];
        }
      }
    }
    assert listing[..|listing|] == listing;
  }

  /** What one more name of the map iteration adds to the three results. */
  lemma ClassifiedStep(r: Resource, listing: seq<Backup>, order: seq<string>, k: nat)
    requires k < |order|
    ensures InitialInvalid(r, listing, order[..k + 1]) ==
            InitialInvalid(r, listing, order[..k]) + InvalidOf(r, listing, order[k])
    ensures MissingCount(r.spec, listing, order[..k + 1]) ==
            MissingCount(r.spec, listing, order[..k]) + (if ClassOf(r.spec, listing, order[k]) == Missing then 1 else 0)
    ensures FilteredEntries(r, listing, order[..k + 1]) ==
            FilteredEntries(r, listing, order[..k]) +
            (if ClassOf(r.spec, listing, order[k]) == FilteredOut then [FilteredEntry(r, order[k])] else [])
  {
    assert order[..k + 1][..k] == order[..k];
  }

  lemma NothingToEnumerate(order: seq<string>, names: seq<string>)
    requires Enumerates(order, names)
    ensures names == [] ==> order == []
  {
    if order != [] {
      assert order[0] in names;
    }
  }

  method ClassifyRequestedBackups(r: Resource, listing: seq<Backup>, order: seq<string>)
    returns (invalid: seq<InvalidBackup>, missing: nat, filtered: seq<Entry>)
    requires Enumerates(order, r.spec.requested)
    ensures invalid == InitialInvalid(r, listing, order)
    ensures missing == MissingCount(r.spec, listing, order)
    ensures filtered == FilteredEntries(r, listing, order)
  {
    invalid, missing, filtered := [], 0, [];
    NothingToEnumerate(order, r.spec.requested);
    if |r.spec.requested| == 0 {
      return;
    }
    var classes, refs := ClassifyListing(r.spec, listing);
    for k := 0 to |order|
      invariant invalid == InitialInvalid(r, listing, order[..k])
      invariant missing == MissingCount(r.spec, listing, order[..k])
      invariant filtered == FilteredEntries(r, listing, order[..k])
    {
      var name := order[k];
      ClassifiedStep(r, listing, order, k);
      assert name in order;
      match classes[name] {
        case Missing =>
          invalid := invalid + [InvalidBackup(BackupInfo(name, r.namespace, None), NOT_FOUND)];
          missing := missing + 1;
        case FilteredOut =>
          filtered := filtered + [FilteredEntry(r, name)];
        case Incomplete =>
          var reason := AsyncReason(refs[name]);
          if reason == "" {
            reason := "Backup has incomplete async operations";
          }
          invalid := invalid + [InvalidBackup(BackupInfo(name, r.namespace, Timestamp(refs[name])), reason)];
        case Candidate =>
      }
    }
    assert order[..|order|] == order;
  }

  lemma InitialParts(r: Resource, i: Inputs, listing: seq<Backup>)
    ensures InitialProgress(r, i, listing) == CandidateEntries(r, i.sorted) + FilteredEntries(r, listing, i.order)
    ensures var missing := MissingCount(r.spec, listing, i.order);
            var filtered := |FilteredEntries(r, listing, i.order)|;
            InitialStats(r, i, listing) == Stats(|i.sorted| + missing + filtered, |i.sorted|, 0, 0, filtered, missing)
  {
  }

  method TrackCandidates(r: Resource, candidates: seq<Backup>) returns (progress: seq<Entry>)
    ensures progress == CandidateEntries(r, candidates)
  {
    progress := [];
    for k := 0 to |candidates|
      invariant progress == CandidateEntries(r, candidates[..k])
    {
      progress := progress + [CandidateEntry(r, candidates[k])];
    }
    assert candidates[..|candidates|] == candidates;
  }

  method PrepareDiscovery(r: Resource, i: Inputs, listing: seq<Backup>, candidates: seq<Backup>)
    returns (stats: Stats, progress: seq<Entry>, invalid: seq<InvalidBackup>)
    requires Enumerates(i.order, r.spec.requested) && candidates == i.sorted
    ensures stats == InitialStats(r, i, listing)
    ensures progress == InitialProgress(r, i, listing)
    ensures invalid == InitialInvalid(r, listing, i.order)
    ensures r.spec.requested == [] ==> invalid == []
  {
    var missing, filtered;
    invalid, missing, filtered := ClassifyRequestedBackups(r, listing, i.order);
    var tracked := TrackCandidates(r, candidates);
    InitialParts(r, i, listing);
    if r.spec.requested == [] { NothingToEnumerate(i.order, r.spec.requested); }
    stats := Stats(|candidates| + missing + |filtered|, |candidates|, 0, 0, |filtered|, missing);
    progress := tracked + filtered;
  }

  // ----- Pieces of a batch

  method FindPending(progress: seq<Entry>) returns (pending: seq<nat>)
    ensures pending == IndicesWith(progress, New)
  {
    pending := [];
    for k := 0 to |progress|
      invariant pending == IndicesWith(progress[..k], New)
    {
      assert progress[..k + 1][..k] == progress[..k];
      if progress[k].status == New {
        pending := pending + [k];
      }
    }
    assert progress[..|progress|] == progress;
  }

  method FindStuck(progress: seq<Entry>) returns (stuck: Option<nat>)
    ensures stuck == if IndicesWith(progress, InProgress) == [] then None
                     else Some(IndicesWith(progress, InProgress)[0])
    ensures stuck.Some? ==> stuck.value < |progress|
  {
    for k := 0 to |progress|
      invariant IndicesWith(progress[..k], InProgress) == []
    {
      assert progress[..k + 1][..k] == progress[..k];
      if progress[k].status == InProgress {
        IndicesPrefix(progress, k + 1);
        return Some(k);
      }
    }
    assert progress[..|progress|] == progress;
    return None;
  }

  /** Looking at more entries only appends indices. */
  lemma {:induction false} IndicesPrefix(progress: seq<Entry>, k: nat)
    requires k <= |progress|
    ensures IndicesWith(progress[..k], InProgress) <= IndicesWith(progress, InProgress)
  {
    if k < |progress| {
      var n := |progress| - 1;
      IndicesPrefix(progress[..n], k);
      assert progress[..n][..k] == progress[..k];
    } else {
      assert progress[..k] == progress;
    }
  }

  method MarkBatch(before: seq<Entry>, pending: seq<nat>, size: nat) returns (progress: seq<Entry>)
    requires size <= |pending|
    ensures progress == MarkEntries(before, pending[..size])
  {
    progress := before;
    for j := 0 to size
      invariant progress == MarkEntries(before, pending[..j])
    {
      assert pending[..j + 1][..j] == pending[..j];
      progress := SetEntry(progress, pending[j], InProgress, ANALYZING);
    }
  }

  /** The workers of a batch, in the order in which they finish, each writing its own slot. */
  method RunWorkers(progress: seq<Entry>, size: nat, lookup: string -> Lookup,
                    finished: seq<nat>) returns (results: array<Slot>)
    requires size > 0
    ensures results.Length == size
    ensures results[..] == FillSlots(size, progress, lookup, finished)
  {
    results := new Slot[size](_ => BLANK_SLOT);
    assert results[..] == FillSlots(size, progress, lookup, []);
    for j := 0 to |finished|
      invariant results[..] == FillSlots(size, progress, lookup, finished[..j])
    {
      assert finished[..j + 1][..j] == finished[..j];
      var idx := finished[j];
      results[idx % size] := WorkerSlot(progress, lookup, idx);
    }
    assert finished[..|finished|] == finished;
  }

  /** Every slot names an entry, if there are any entries. */
  lemma {:induction false} SlotsInRange(size: nat, progress: seq<Entry>, lookup: string -> Lookup, finished: seq<nat>)
    requires size > 0 && progress != []
    ensures forall j :: 0 <= j < size ==> FillSlots(size, progress, lookup, finished)[j].idx < |progress|
  {
    if finished != [] {
      SlotsInRange(size, progress, lookup, finished[..|finished| - 1]);
    }
  }

  lemma {:induction false} MarkKeepsLength(progress: seq<Entry>, batch: seq<nat>)
    ensures |MarkEntries(progress, batch)| == |progress|
  {
    if batch != [] {
      MarkKeepsLength(progress, batch[..|batch| - 1]);
    }
  }

  lemma {:induction false} ApplyKeepsInfo(progress: seq<Entry>, slots: seq<Slot>)
    ensures |ApplySlots(progress, slots)| == |progress|
    ensures forall k :: 0 <= k < |progress| ==> ApplySlots(progress, slots)[k].info == progress[k].info
  {
    if slots != [] {
      ApplyKeepsInfo(progress, slots[..|slots| - 1]);
    }
  }

  method RecordResults(before: seq<Entry>, slots: seq<Slot>) returns (progress: seq<Entry>, found: seq<BackupInfo>)
    requires forall j :: 0 <= j < |slots| ==> slots[j].idx < |before|
    ensures progress == ApplySlots(before, slots)
    ensures found == FoundBackups(before, slots)
  {
    progress, found := before, [];
    for j := 0 to |slots|
      invariant progress == ApplySlots(before, slots[..j])
      invariant found == FoundBackups(before, slots[..j])
      invariant |progress| == |before|
      invariant forall k :: 0 <= k < |before| ==> progress[k].info == before[k].info
    {
      assert slots[..j + 1][..j] == slots[..j];
      var result := slots[j];
      progress := SetEntry(progress, result.idx, result.status, result.message);
      if result.status == Completed {
        found := found + [progress[result.idx].info];
      }
      ApplyKeepsInfo(before, slots[..j + 1]);
    }
    assert slots[..|slots|] == slots;
  }

  method CountResults(st: Stats, slots: seq<Slot>) returns (after: Stats)
    ensures after == st.(completed := st.completed + CountSlots(slots, Completed),
                         skipped := st.skipped + CountSlots(slots, Skipped),
                         failed := st.failed + CountSlots(slots, Failed))
  {
    after := st;
    for j := 0 to |slots|
      invariant after == st.(completed := st.completed + CountSlots(slots[..j], Completed),
                             skipped := st.skipped + CountSlots(slots[..j], Skipped),
                             failed := st.failed + CountSlots(slots[..j], Failed))
    {
      assert slots[..j + 1][..j] == slots[..j];
      match slots[j].status {
        case Completed => after := after.(completed := after.completed + 1);
        case Skipped => after := after.(skipped := after.skipped + 1);
        case Failed => after := after.(failed := after.failed + 1);
        case _ =>
      }
    }
    assert slots[..|slots|] == slots;
  }

  // ----- Pieces of finalization

  method SeparateEntries(progress: seq<Entry>) returns (valid: seq<BackupInfo>, invalid: seq<InvalidBackup>)
    ensures valid == CompletedInfos(progress)
    ensures invalid == RejectedEntries(progress)
  {
    valid, invalid := [], [];
    for k := 0 to |progress|
      invariant valid == CompletedInfos(progress[..k])
      invariant invalid == RejectedEntries(progress[..k])
    {
      assert progress[..k + 1][..k] == progress[..k];
      if progress[k].status == Completed {
        valid := valid + [progress[k].info];
      } else {
        invalid := invalid + [InvalidBackup(progress[k].info, progress[k].message)];
      }
    }
    assert progress[..|progress|] == progress;
  }

  method NameSet(names: seq<string>) returns (members: set<string>)
    ensures forall name :: name in members <==> name in names
  {
    members := {};
    for k := 0 to |names|
      invariant forall name :: name in members <==> name in names[..k]
    {
      members := members + {names[k]};
    }
    assert names[..|names|] == names;
  }

  method KeepRequested(spec: Spec, existing: seq<InvalidBackup>) returns (kept: seq<InvalidBackup>)
    ensures kept == StillRequested(spec, existing)
  {
    kept := [];
    if |spec.requested| == 0 {
      FilterNone(existing, (v: InvalidBackup) => v.info.name in spec.requested);
      return;
    }
    var requested := NameSet(spec.requested);
    for k := 0 to |existing|
      invariant kept == StillRequested(spec, existing[..k])
    {
      assert existing[..k + 1][..k] == existing[..k];
      if existing[k].info.name in requested {
        kept := kept + [existing[k]];
      }
    }
    assert existing[..|existing|] == existing;
  }

  method AddMissing(r: Resource, s: Status, kept: seq<InvalidBackup>) returns (missing: seq<InvalidBackup>)
    requires kept == StillRequested(r.spec, s.invalidBackups)
    ensures missing == Unaccounted(r, s)
  {
    missing := [];
    var processed := NameSet(ProgressNames(s.progress));
    var existing := NameSet(InvalidNames(kept));
    ghost var isMissing := name => name !in ProgressNames(s.progress) && name !in InvalidNames(kept);
    for k := 0 to |r.spec.requested|
      invariant missing == Map(Filter(r.spec.requested[..k], isMissing), name => NotFoundEntry(r, name))
    {
      assert r.spec.requested[..k + 1][..k] == r.spec.requested[..k];
      var name := r.spec.requested[k];
      if name !in processed && name !in existing {
        missing := missing + [InvalidBackup(BackupInfo(name, r.namespace, None), NOT_FOUND)];
      }
    }
    assert r.spec.requested[..|r.spec.requested|] == r.spec.requested;
    FilterCong(r.spec.requested, isMissing,
               name => name !in ProgressNames(s.progress) &&
                       name !in InvalidNames(StillRequested(r.spec, s.invalidBackups)));
  }

  method DropDuplicates(invalid: seq<InvalidBackup>, kept: seq<InvalidBackup>) returns (deduped: seq<InvalidBackup>)
    ensures deduped == Filter(invalid, (v: InvalidBackup) => v.info.name !in InvalidNames(kept))
  {
    deduped := [];
    var existing := NameSet(InvalidNames(kept));
    for k := 0 to |invalid|
      invariant deduped == Filter(invalid[..k], (v: InvalidBackup) => v.info.name !in InvalidNames(kept))
    {
      assert invalid[..k + 1][..k] == invalid[..k];
      if invalid[k].info.name !in existing {
        deduped := deduped + [invalid[k]];
      }
    }
    assert invalid[..|invalid|] == invalid;
  }

  // ----- The reconciler

  class DiscoveryReconciler {
    const resource: Resource
    var persisted: Status               // the status the API server holds
    var remaining: nat                  // status writes that still land before this reconcile is cut short

    // The in-memory copy the steps work on.
    var phase: Phase
    var observedGeneration: int
    var stats: Option<Stats>
    var progress: seq<Entry>
    var validBackups: seq<BackupInfo>
    var invalidBackups: seq<InvalidBackup>
    var ready: Option<bool>

    ghost function Working(): Status
      reads this
    {
      Status(phase, observedGeneration, stats, progress, validBackups, invalidBackups, ready)
    }

    constructor (r: Resource)
      ensures resource == r
      ensures persisted == Status(Unset, 0, None, [], [], [], None)
    {
      resource := r;
      persisted := Status(Unset, 0, None, [], [], [], None);
      remaining := 0;
      phase, observedGeneration, stats, progress := Unset, 0, None, [];
      validBackups, invalidBackups, ready := [], [], None;
    }

    /** Reads the object afresh. */
    method Fetch()
      modifies this
      ensures Working() == persisted == old(persisted) && remaining == old(remaining)
    {
      phase, observedGeneration, stats, progress :=
        persisted.phase, persisted.observedGeneration, persisted.stats, persisted.progress;
      validBackups, invalidBackups, ready := persisted.validBackups, persisted.invalidBackups, persisted.ready;
    }

    /** Writes the whole status; the write lands or the reconcile is over. */
    method UpdateStatus() returns (ok: bool)
      modifies this
      ensures ok <==> old(remaining) > 0
      ensures remaining == if ok then old(remaining) - 1 else 0
      ensures Working() == old(Working())
      ensures persisted == if ok then old(Working()) else old(persisted)
    {
      ok := remaining > 0;
      if ok {
        persisted := Status(phase, observedGeneration, stats, progress, validBackups, invalidBackups, ready);
        remaining := remaining - 1;
      }
    }

    method InitializePhase() returns (answer: Answer)
      requires Working() == persisted
      modifies this
      ensures persisted == if old(remaining) == 0 then old(persisted) else old(persisted).(phase := PhaseNew)
      ensures answer == if old(remaining) == 0 then Retry else Requeue
    {
      phase := PhaseNew;
      var ok := UpdateStatus();
      return if ok then Requeue else Retry;
    }

    method InitializeDiscoveryProcess(i: Inputs) returns (answer: Answer)
      requires Working() == persisted && remaining == i.writes
      requires ValidInputs(resource, i)
      modifies this
      ensures persisted == InitializeDiscovery(resource, old(persisted), i)
      ensures answer == InitializeAnswer(i)
    {
      phase, stats, progress, validBackups, invalidBackups, ready := PhaseInProgress, None, [], [], [], None;
      var ok := UpdateStatus();
      if !ok {
        return Retry;
      }
      if i.listing.None? {
        phase, observedGeneration := PhaseFailed, resource.generation;
        ok := UpdateStatus();
        return Retry;
      }
      if i.range.None? {
        return Retry;
      }
      var candidates := CollectCandidates(resource.spec, i.range.value, i.listing.value, i.sorted);
      answer := InitializeFrom(i, i.listing.value, candidates);
    }

    method InitializeFrom(i: Inputs, listing: seq<Backup>, candidates: seq<Backup>) returns (answer: Answer)
      requires Enumerates(i.order, resource.spec.requested)
      requires candidates == i.sorted
      modifies this
      ensures persisted ==
              if old(remaining) == 0 then old(persisted)
              else old(Working()).(stats := Some(InitialStats(resource, i, listing)),
                                   progress := InitialProgress(resource, i, listing),
                                   validBackups := [],
                                   invalidBackups := InitialInvalid(resource, listing, i.order))
      ensures answer == if old(remaining) == 0 then Retry else Requeue
    {
      var initial, all, invalid := PrepareDiscovery(resource, i, listing, candidates);
      answer := StartTracking(initial, all, invalid);
    }

    method StartTracking(initial: Stats, all: seq<Entry>, invalid: seq<InvalidBackup>) returns (answer: Answer)
      requires resource.spec.requested == [] ==> invalid == []
      modifies this
      ensures persisted ==
              if old(remaining) == 0 then old(persisted)
              else old(Working()).(stats := Some(initial), progress := all,
                                   validBackups := [], invalidBackups := invalid)
      ensures answer == if old(remaining) == 0 then Retry else Requeue
    {
      if |resource.spec.requested| > 0 {
        invalidBackups := invalid;
      }
      stats := Some(initial);
      progress := all;
      validBackups := [];
      if |resource.spec.requested| == 0 {
        invalidBackups := [];
      }
      var ok := UpdateStatus();
      return if ok then Requeue else Retry;
    }

    method ProcessDiscoveryBatch(i: Inputs) returns (answer: Answer)
      requires Working() == persisted && remaining == i.writes && stats.Some?
      requires forall batch: seq<nat> {:trigger i.finish(batch)} :: multiset(i.finish(batch)) == multiset(batch)
      modifies this
      ensures persisted == ProcessBatch(old(persisted), old(persisted).stats.value, i)
      ensures answer == BatchAnswer(old(persisted), i)
    {
      var pending := FindPending(progress);
      if |pending| == 0 {
        answer := RetryStuck();
        return;
      }
      var batchSize := Min(BATCH_SIZE, |pending|);
      var ok := MarkInProgress(pending, batchSize);
      if !ok {
        return Retry;
      }
      MarkKeepsLength(old(progress), pending[..batchSize]);
      SlotsInRange(batchSize, progress, i.lookup, i.finish(pending[..batchSize]));
      var results := RunWorkers(progress, batchSize, i.lookup, i.finish(pending[..batchSize]));
      answer := RecordBatch(results[..]);
    }

    method MarkInProgress(pending: seq<nat>, batchSize: nat) returns (ok: bool)
      requires Working() == persisted && stats.Some? && pending == IndicesWith(progress, New)
      requires batchSize == Min(BATCH_SIZE, |pending|)
      modifies this
      ensures ok <==> old(remaining) > 0
      ensures ok ==> remaining == old(remaining) - 1
      ensures Working() == Marked(old(persisted), old(persisted).stats.value)
      ensures persisted == if ok then Working() else old(persisted)
    {
      progress := MarkBatch(progress, pending, batchSize);
      stats := Some(stats.value.(pending := stats.value.pending - batchSize,
                                 inProgress := stats.value.inProgress + batchSize));
      ok := UpdateStatus();
    }

    method RetryStuck() returns (answer: Answer)
      requires Working() == persisted && stats.Some?
      modifies this
      ensures var s := old(persisted);
              var stuck := IndicesWith(s.progress, InProgress);
              persisted == if stuck == [] || old(remaining) == 0 then s else ResetStuck(s, s.stats.value, stuck[0])
      ensures answer == if IndicesWith(old(persisted).progress, InProgress) == [] then Done
                        else if old(remaining) == 0 then Retry else Requeue
    {
      var stuck := FindStuck(progress);
      if stuck.None? {
        return Done;
      }
      progress := SetEntry(progress, stuck.value, New, RETRYING);
      stats := Some(stats.value.(inProgress := stats.value.inProgress - 1, pending := stats.value.pending + 1));
      var ok := UpdateStatus();
      return if ok then Requeue else Retry;
    }

    method RecordBatch(slots: seq<Slot>) returns (answer: Answer)
      requires stats.Some? && Working() == persisted
      requires forall j :: 0 <= j < |slots| ==> slots[j].idx < |progress|
      modifies this
      ensures persisted ==
              if old(remaining) == 0 then old(persisted)
              else Recorded(old(persisted), old(persisted).stats.value, slots)
      ensures answer == if old(remaining) == 0 then Retry else Requeue
    {
      var found;
      progress, found := RecordResults(progress, slots);
      validBackups := validBackups + found;
      var counted := CountResults(stats.value.(inProgress := stats.value.inProgress - |slots|), slots);
      stats := Some(counted);
      var ok := UpdateStatus();
      return if ok then Requeue else Retry;
    }

    method FinalizeDiscoveryProcess() returns (answer: Answer)
      requires Working() == persisted
      modifies this
      ensures persisted == if old(remaining) == 0 then old(persisted) else Finalized(resource, old(persisted))
      ensures answer == if old(remaining) == 0 then Retry else Done
    {
      var valid, invalid := SeparateEntries(progress);
      var kept := KeepRequested(resource.spec, invalidBackups);
      var missing := AddMissing(resource, persisted, kept);
      var deduped := DropDuplicates(invalid, kept);
      validBackups := valid;
      invalidBackups := kept + deduped + missing;
      phase, observedGeneration := PhaseCompleted, resource.generation;
      ready := Some(|valid| > 0);
      var ok := UpdateStatus();
      return if ok then Done else Retry;
    }

    /** One reconcile of the object: the dispatch and the step it selects. */
    method Reconcile(i: Inputs) returns (answer: Answer)
      requires ValidInputs(resource, i)
      modifies this
      ensures persisted == DiscoveryModel.Reconcile(resource, old(persisted), i)
      ensures answer == AnswerTo(resource, old(persisted), i)
    {
      remaining := i.writes;
      Fetch();
      if phase == Unset {
        answer := InitializePhase();
      } else if stats.None? {
        answer := InitializeDiscoveryProcess(i);
      } else if Complete(persisted) && observedGeneration == resource.generation {
        return Done;
      } else if Complete(persisted) {
        answer := InitializeDiscoveryProcess(i);
      } else if stats.value.pending > 0 || stats.value.inProgress > 0 {
        answer := ProcessDiscoveryBatch(i);
      } else {
        answer := FinalizeDiscoveryProcess();
      }
    }
  }
}
