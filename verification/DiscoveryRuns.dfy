/** Theorems over whole discovery runs, and about repeating finalization. */
module DiscoveryRuns {
  import opened Collections
  import opened DiscoveryModel
  import opened DiscoveryInvariants
  import opened DiscoveryOutcome

  // ----- Safety of every run

  /** A status from which a discovery for the current generation starts afresh. */
  ghost predicate Unstarted(r: Resource, s: Status) {
    s.stats.None? || (Complete(s) && s.observedGeneration != r.generation)
  }

  /** A finished discovery for the current generation. */
  ghost predicate Settled(r: Resource, s: Status) {
    && Complete(s)
    && s.observedGeneration == r.generation
    && CountersAgree(s.stats.value, s.progress)
    && s.validBackups == CompletedInfos(s.progress)
    && Partitioned(r, s)
    && s.ready == Some(s.validBackups != [])
  }

  ghost predicate RunInvariant(r: Resource, s: Status) {
    Unstarted(r, s) || Active(r, s) || Settled(r, s)
  }

  lemma InitializationKeeps(r: Resource, s: Status, i: Inputs)
    requires Unstarted(r, s) && ValidInputs(r, i)
    ensures RunInvariant(r, InitializeDiscovery(r, s, i))
  {
    if i.writes >= 2 && i.listing.Some? && i.range.Some? {
      InitializationEstablishes(r, s, i, i.listing.value);
    }
  }

  lemma FinalizationSettles(r: Resource, s: Status)
    requires Active(r, s) && !Discovering(r, s)
    ensures Settled(r, Finalized(r, s))
  {
    FinalizedPartitions(r, s);
  }

  lemma ReconcileKeeps(r: Resource, s: Status, i: Inputs)
    requires RunInvariant(r, s) && ValidInputs(r, i)
    ensures RunInvariant(r, Reconcile(r, s, i))
  {
    if Unstarted(r, s) {
      InitializationKeeps(r, s, i);
    } else if Active(r, s) {
      if Discovering(r, s) {
        ProcessBatchKeeps(r, s, i);
      } else {
        FinalizationSettles(r, s);
      }
    }
  }

  /**
   * Every run, whatever its inputs and however its reconciles are cut short, keeps the discovery
   * status consistent; a finished one has every requested or tracked name in exactly one list.
   */
  lemma {:induction false} EveryRunIsConsistent(r: Resource, s: Status, steps: seq<Inputs>)
    requires Unstarted(r, s) && AllValid(r, steps)
    ensures RunInvariant(r, Run(r, s, steps))
  {
    if steps != [] {
      var n := |steps| - 1;
      EveryRunIsConsistent(r, s, steps[..n]);
      ReconcileKeeps(r, Run(r, s, steps[..n]), steps[n]);
    }
  }

  lemma TallyStep(progress: seq<Entry>, x: EntryStatus)
    requires progress != []
    ensures Tally(progress, x) ==
            Tally(progress[..|progress| - 1], x) + (if progress[|progress| - 1].status == x then 1 else 0)
  {
    var n := |progress| - 1;
    assert Map(progress, StatusOf) == Map(progress[..n], StatusOf) + [progress[n].status];
  }

  lemma {:induction false} TallySum(progress: seq<Entry>)
    ensures Tally(progress, New) + Tally(progress, InProgress) + Tally(progress, Completed) +
            Tally(progress, Skipped) + Tally(progress, Failed) + Tally(progress, Blank) == |progress|
  {
    if progress != [] {
      var n := |progress| - 1;
      TallySum(progress[..n]);
      TallyStep(progress, New);
      TallyStep(progress, InProgress);
      TallyStep(progress, Completed);
      TallyStep(progress, Skipped);
      TallyStep(progress, Failed);
      TallyStep(progress, Blank);
    }
  }

  /** In every persisted status after initialization no counter is negative and the five sum to the total. */
  lemma CountersSumToTotal(r: Resource, s: Status, steps: seq<Inputs>)
    requires Unstarted(r, s) && AllValid(r, steps)
    ensures var t := Run(r, s, steps);
            Unstarted(r, t) ||
            (var c := t.stats.value;
             && c.pending >= 0 && c.inProgress >= 0 && c.completed >= 0 && c.skipped >= 0 && c.failed >= 0
             && c.pending + c.inProgress + c.completed + c.skipped + c.failed == c.total)
  {
    EveryRunIsConsistent(r, s, steps);
    TallySum(Run(r, s, steps).progress);
  }

  // ----- The outcome when the backups do not change

  ghost predicate Consults(steps: seq<Inputs>, oracle: string -> Lookup) {
    forall k, name :: 0 <= k < |steps| ==> steps[k].lookup(name) == oracle(name)
  }

  /** Decided entries carry the oracle's verdict; entries past the candidates never change. */
  ghost predicate Decided(init: seq<Entry>, n: nat, progress: seq<Entry>, oracle: string -> Lookup) {
    && SameInfos(progress, init)
    && (forall k :: n <= k < |progress| ==> progress[k] == init[k])
    && (forall k :: 0 <= k < |progress| && k < n && progress[k].status !in {New, InProgress} ==>
          (progress[k].status, progress[k].message) == Verdict(oracle(progress[k].info.name)))
  }

  lemma DecidedByMark(init: seq<Entry>, n: nat, s: Status, oracle: string -> Lookup, lo: nat, m: nat)
    requires Decided(init, n, s.progress, oracle) && lo + m <= n && lo + m <= |s.progress|
    ensures Decided(init, n, MarkEntries(s.progress, Range(lo, m)), oracle)
  {
    MarkShape(s.progress, lo, m);
  }

  lemma DecidedBySlots(init: seq<Entry>, n: nat, progress: seq<Entry>, slots: seq<Slot>, oracle: string -> Lookup)
    requires Decided(init, n, progress, oracle) && Recordable(progress, slots)
    requires forall k :: n <= k < |init| ==> init[k].status == Skipped
    requires forall j :: 0 <= j < |slots| ==> slots[j] == WorkerSlot(progress, oracle, slots[j].idx)
    ensures Decided(init, n, ApplySlots(progress, slots), oracle)
  {
    ApplyInfos(progress, slots);
    var after := ApplySlots(progress, slots);
    forall k | 0 <= k < |after| && k < n && after[k].status !in {New, InProgress}
      ensures (after[k].status, after[k].message) == Verdict(oracle(after[k].info.name))
    {
      if j :| 0 <= j < |slots| && slots[j].idx == k {
        ApplyOwn(progress, slots, j);
      } else {
        ApplyOther(progress, slots, k);
      }
    }
  }

  lemma FilledByOracle(size: nat, progress: seq<Entry>, lookup: string -> Lookup, oracle: string -> Lookup, lo: nat,
                       finished: seq<nat>, j: nat)
    requires 0 < size <= BATCH_SIZE && lo + size <= |progress| && j < size
    requires multiset(finished) == multiset(Range(lo, size))
    requires forall name :: lookup(name) == oracle(name)
    ensures FillSlots(size, progress, lookup, finished)[j] ==
            WorkerSlot(progress, oracle, FillSlots(size, progress, lookup, finished)[j].idx)
  {
    SlotsAreVerdicts(size, progress, lookup, lo, finished);
    SlotOwnerFits(lo, size, j);
    assert FillSlots(size, progress, lookup, finished)[j] == WorkerSlot(progress, lookup, SlotOwner(lo, size, j));
  }

  /** Pending entries lie among the candidates. */
  lemma PendingAreCandidates(init: seq<Entry>, n: nat, progress: seq<Entry>, oracle: string -> Lookup, lo: nat, hi: nat)
    requires Decided(init, n, progress, oracle) && NewRun(progress, lo, hi)
    requires forall k :: n <= k < |init| ==> init[k].status == Skipped
    ensures lo < hi ==> hi <= n
  {
    if lo < hi {
      assert progress[hi - 1].status == New;
    }
  }

  /** The second write of a batch records the oracle's verdicts. */
  lemma FilledDecides(init: seq<Entry>, n: nat, progress: seq<Entry>, oracle: string -> Lookup,
                      lookup: string -> Lookup,
                      lo: nat, size: nat, finished: seq<nat>)
    requires Decided(init, n, progress, oracle)
    requires forall k :: n <= k < |init| ==> init[k].status == Skipped
    requires forall name :: lookup(name) == oracle(name)
    requires 0 < size <= BATCH_SIZE && lo + size <= |progress|
    requires multiset(finished) == multiset(Range(lo, size))
    requires forall k :: lo <= k < lo + size ==> progress[k].status == InProgress
    ensures Decided(init, n, ApplySlots(progress, FillSlots(size, progress, lookup, finished)), oracle)
  {
    SlotsRecordable(size, progress, lookup, lo, finished);
    var slots := FillSlots(size, progress, lookup, finished);
    forall j | 0 <= j < |slots| ensures slots[j] == WorkerSlot(progress, oracle, slots[j].idx) {
      FilledByOracle(size, progress, lookup, oracle, lo, finished, j);
    }
    DecidedBySlots(init, n, progress, slots, oracle);
  }

  lemma BatchDecides(s: Status, st: Stats, i: Inputs, init: seq<Entry>, n: nat, oracle: string -> Lookup, lo: nat,
                     hi: nat)
    requires NewRun(s.progress, lo, hi) && lo < hi
    requires Decided(init, n, s.progress, oracle)
    requires forall k :: n <= k < |init| ==> init[k].status == Skipped
    requires forall name :: i.lookup(name) == oracle(name)
    requires multiset(i.finish(Batch(s.progress))) == multiset(Batch(s.progress))
    ensures Decided(init, n, ProcessBatch(s, st, i).progress, oracle)
  {
    if i.writes > 0 {
      BatchOfRun(s.progress, lo, hi);
      PendingAreCandidates(init, n, s.progress, oracle, lo, hi);
      var batch := Batch(s.progress);
      var marked := MarkEntries(s.progress, batch);
      MarkShape(s.progress, lo, |batch|);
      DecidedByMark(init, n, s, oracle, lo, |batch|);
      if i.writes == 1 {
        assert ProcessBatch(s, st, i).progress == marked;
      } else {
        FilledDecides(init, n, marked, oracle, i.lookup, lo, |batch|, i.finish(batch));
        assert ProcessBatch(s, st, i).progress ==
               ApplySlots(marked, FillSlots(|batch|, marked, i.lookup, i.finish(batch)));
      }
    }
  }

  lemma StepDecides(r: Resource, s: Status, i: Inputs, init: seq<Entry>, n: nat, oracle: string -> Lookup)
    requires Active(r, s) && ValidInputs(r, i)
    requires Decided(init, n, s.progress, oracle)
    requires forall k :: n <= k < |init| ==> init[k].status == Skipped
    requires forall name :: i.lookup(name) == oracle(name)
    ensures Decided(init, n, ProcessBatch(s, s.stats.value, i).progress, oracle)
  {
    var lo: nat, hi: nat :| NewRun(s.progress, lo, hi);
    BatchOfRun(s.progress, lo, hi);
    if lo == hi {
      assert Batch(s.progress) == [];
      IndicesWithMembers(s.progress, InProgress);
      var stuck := IndicesWith(s.progress, InProgress);
      if stuck != [] {
        assert stuck[0] in stuck;
      }
    } else {
      assert multiset(i.finish(Batch(s.progress))) == multiset(Batch(s.progress));
      BatchDecides(s, s.stats.value, i, init, n, oracle, lo, hi);
    }
  }

  /** The valid backups of a listing that holds still: the candidates that contain the VM, newest first. */
  ghost function ExpectedValid(r: Resource, i: Inputs, oracle: string -> Lookup): seq<BackupInfo> {
    Map(Filter(i.sorted, (b: Backup) => oracle(b.name) == VMFound), (b: Backup) => CandidateEntry(r, b).info)
  }

  lemma {:induction false} DecidedCandidates(r: Resource, i: Inputs, progress: seq<Entry>, oracle: string -> Lookup,
                                             m: nat)
    requires m <= |i.sorted| <= |progress|
    requires forall k :: 0 <= k < |i.sorted| ==>
      && progress[k].info == CandidateEntry(r, i.sorted[k]).info
      && (progress[k].status == Completed <==> oracle(i.sorted[k].name) == VMFound)
    ensures CompletedInfos(progress[..m]) ==
            Map(Filter(i.sorted[..m], (b: Backup) => oracle(b.name) == VMFound),
                (b: Backup) => CandidateEntry(r, b).info)
  {
    if m > 0 {
      DecidedCandidates(r, i, progress, oracle, m - 1);
      assert progress[..m] == progress[..m - 1] + [progress[m - 1]];
      CompletedInfosAppend(progress[..m - 1], [progress[m - 1]]);
      CompletedInfosOne(progress[m - 1]);
      assert i.sorted[..m][..m - 1] == i.sorted[..m - 1];
    }
  }

  lemma NoneWith(progress: seq<Entry>, x: EntryStatus)
    requires Tally(progress, x) == 0
    ensures forall k :: 0 <= k < |progress| ==> progress[k].status != x
  {
    IndicesWithMembers(progress, x);
    assert forall k: nat :: k < |progress| && progress[k].status == x ==> k in IndicesWith(progress, x);
  }

  /** A candidate's final status is the oracle's answer. */
  lemma DecidedEntry(r: Resource, i: Inputs, listing: seq<Backup>, progress: seq<Entry>, oracle: string -> Lookup,
                     k: nat)
    requires Decided(InitialProgress(r, i, listing), |i.sorted|, progress, oracle)
    requires k < |i.sorted| && k < |progress| && progress[k].status !in {New, InProgress}
    ensures progress[k].info == CandidateEntry(r, i.sorted[k]).info
    ensures progress[k].status == Completed <==> oracle(i.sorted[k].name) == VMFound
  {
    assert InitialProgress(r, i, listing)[k] == CandidateEntry(r, i.sorted[k]);
  }

  lemma RestNotCompleted(r: Resource, i: Inputs, listing: seq<Backup>, progress: seq<Entry>, oracle: string -> Lookup)
    requires Decided(InitialProgress(r, i, listing), |i.sorted|, progress, oracle)
    ensures |i.sorted| <= |progress|
    ensures CompletedInfos(progress[|i.sorted|..]) == []
  {
    FilterNone(progress[|i.sorted|..], IsCompleted);
  }

  lemma DecidedEntries(r: Resource, i: Inputs, listing: seq<Backup>, progress: seq<Entry>, oracle: string -> Lookup)
    requires Decided(InitialProgress(r, i, listing), |i.sorted|, progress, oracle)
    requires Tally(progress, New) == 0 && Tally(progress, InProgress) == 0
    ensures |i.sorted| <= |progress|
    ensures forall k :: 0 <= k < |i.sorted| ==>
      && progress[k].info == CandidateEntry(r, i.sorted[k]).info
      && (progress[k].status == Completed <==> oracle(i.sorted[k].name) == VMFound)
  {
    NoneWith(progress, New);
    NoneWith(progress, InProgress);
    RestNotCompleted(r, i, listing, progress, oracle);
    forall k | 0 <= k < |i.sorted|
      ensures progress[k].info == CandidateEntry(r, i.sorted[k]).info
      ensures progress[k].status == Completed <==> oracle(i.sorted[k].name) == VMFound
    {
      DecidedEntry(r, i, listing, progress, oracle, k);
    }
  }

  lemma DecidedOutcome(r: Resource, i: Inputs, listing: seq<Backup>, progress: seq<Entry>, oracle: string -> Lookup)
    requires Decided(InitialProgress(r, i, listing), |i.sorted|, progress, oracle)
    requires Tally(progress, New) == 0 && Tally(progress, InProgress) == 0
    ensures CompletedInfos(progress) == ExpectedValid(r, i, oracle)
  {
    DecidedEntries(r, i, listing, progress, oracle);
    RestNotCompleted(r, i, listing, progress, oracle);
    DecidedCandidates(r, i, progress, oracle, |i.sorted|);
    assert i.sorted[..|i.sorted|] == i.sorted;
    CompletedInfosPrefix(progress, |i.sorted|);
  }

  lemma CompletedInfosPrefix(progress: seq<Entry>, n: nat)
    requires n <= |progress| && CompletedInfos(progress[n..]) == []
    ensures CompletedInfos(progress) == CompletedInfos(progress[..n])
  {
    assert progress == progress[..n] + progress[n..];
    CompletedInfosAppend(progress[..n], progress[n..]);
  }

  /** A run's status between an initialization and the matching finalization, or after it. */
  ghost predicate Tracking(r: Resource, i: Inputs, listing: seq<Backup>, s: Status, oracle: string -> Lookup) {
    && Decided(InitialProgress(r, i, listing), |i.sorted|, s.progress, oracle)
    && ((Active(r, s) && s.invalidBackups == InitialInvalid(r, listing, i.order)) ||
        (Settled(r, s) && s.validBackups == ExpectedValid(r, i, oracle)))
  }

  lemma TrackingStarts(r: Resource, s: Status, i: Inputs, listing: seq<Backup>, oracle: string -> Lookup)
    requires ValidInputs(r, i) && i.listing == Some(listing) && i.range.Some?
    ensures Tracking(r, i, listing, Initialized(r, s, i, listing), oracle)
  {
    InitializationEstablishes(r, s, i, listing);
  }

  lemma TrackingStep(r: Resource, i0: Inputs, listing: seq<Backup>, s: Status, i: Inputs, oracle: string -> Lookup)
    requires Tracking(r, i0, listing, s, oracle) && ValidInputs(r, i)
    requires forall name :: i.lookup(name) == oracle(name)
    ensures Tracking(r, i0, listing, Reconcile(r, s, i), oracle)
  {
    if Active(r, s) && Discovering(r, s) {
      TrackingBatch(r, i0, listing, s, i, oracle);
    } else if Active(r, s) {
      FinalizationSettles(r, s);
      DecidedOutcome(r, i0, listing, s.progress, oracle);
    }
  }

  lemma TrackingBatch(r: Resource, i0: Inputs, listing: seq<Backup>, s: Status, i: Inputs, oracle: string -> Lookup)
    requires Tracking(r, i0, listing, s, oracle) && ValidInputs(r, i) && Active(r, s) && Discovering(r, s)
    requires forall name :: i.lookup(name) == oracle(name)
    ensures Tracking(r, i0, listing, Reconcile(r, s, i), oracle)
  {
    StepDecides(r, s, i, InitialProgress(r, i0, listing), |i0.sorted|, oracle);
    ProcessBatchKeeps(r, s, i);
  }

  /**
   * While the backups do not change, a discovery initialized from a listing can only finish with the
   * newest-first list of exactly those candidates that contain the VM, whatever is cut short on the way.
   */
  lemma {:induction false} DiscoveryFindsTheBackups(r: Resource, s: Status, i: Inputs, listing: seq<Backup>,
                                                    steps: seq<Inputs>, oracle: string -> Lookup)
    requires ValidInputs(r, i) && i.listing == Some(listing) && i.range.Some?
    requires AllValid(r, steps) && Consults(steps, oracle)
    ensures Tracking(r, i, listing, Run(r, Initialized(r, s, i, listing), steps), oracle)
  {
    if steps == [] {
      TrackingStarts(r, s, i, listing, oracle);
    } else {
      var n := |steps| - 1;
      var before := Run(r, Initialized(r, s, i, listing), steps[..n]);
      DiscoveryFindsTheBackups(r, s, i, listing, steps[..n], oracle);
      assert Tracking(r, i, listing, before, oracle);
      TrackingStep(r, i, listing, before, steps[n], oracle);
      assert Run(r, Initialized(r, s, i, listing), steps) == Reconcile(r, before, steps[n]);
    }
  }

  // ----- Repeating finalization

  lemma KeptAreRequested(spec: Spec, invalid: seq<InvalidBackup>, name: string)
    ensures name in InvalidNames(StillRequested(spec, invalid)) ==> name in spec.requested
  {
    KeptNameMeans(spec, invalid, name);
  }

  lemma UnaccountedAreRequested(r: Resource, s: Status)
    ensures forall v :: v in Unaccounted(r, s) ==> v.info.name in r.spec.requested
  {
    UnaccountedMeans(r, s);
    FilterMembers(r.spec.requested,
                  n => n !in ProgressNames(s.progress) &&
                       n !in InvalidNames(StillRequested(r.spec, s.invalidBackups)));
    forall v | v in Unaccounted(r, s) ensures v.info.name in r.spec.requested {
      NameOfMember(Unaccounted(r, s), v.info.name);
    }
  }

  /** What a second finalization keeps of the first one's list. */
  lemma KeptAfterFinalize(r: Resource, s: Status)
    ensures StillRequested(r.spec, FinalInvalid(r, s)) ==
            StillRequested(r.spec, s.invalidBackups) + StillRequested(r.spec, NewlyRejected(r, s)) + Unaccounted(r, s)
  {
    var p := (v: InvalidBackup) => v.info.name in r.spec.requested;
    var kept := StillRequested(r.spec, s.invalidBackups);
    FilterAppend(kept + NewlyRejected(r, s), Unaccounted(r, s), p);
    FilterAppend(kept, NewlyRejected(r, s), p);
    FilterMembers(s.invalidBackups, p);
    FilterAll(kept, p);
    UnaccountedAreRequested(r, s);
    FilterAll(Unaccounted(r, s), p);
  }

  lemma KeptNamesAfterFinalize(r: Resource, s: Status, name: string)
    ensures name in InvalidNames(StillRequested(r.spec, FinalInvalid(r, s))) <==>
            && name in r.spec.requested
            && (name in InvalidNames(s.invalidBackups) || HasEntry(s.progress, name, false) ||
                name !in ProgressNames(s.progress))
  {
    KeptNameMeans(r.spec, FinalInvalid(r, s), name);
    FinalInvalidMeans(r, s, name);
  }

  function Unrequested(spec: Spec, invalid: seq<InvalidBackup>): seq<InvalidBackup> {
    Filter(invalid, (v: InvalidBackup) => v.info.name !in spec.requested)
  }

  lemma KeptAgain(r: Resource, s: Status, name: string)
    requires HasEntry(s.progress, name, false)
    ensures name !in InvalidNames(StillRequested(r.spec, FinalInvalid(r, s))) <==> name !in r.spec.requested
    ensures name !in r.spec.requested ==> name !in InvalidNames(StillRequested(r.spec, s.invalidBackups))
  {
    KeptNamesAfterFinalize(r, s, name);
    KeptAreRequested(r.spec, s.invalidBackups, name);
  }

  /** The second finalization rejects anew exactly the first one's rejections nobody asked for. */
  lemma RejectedAgain(r: Resource, s: Status)
    ensures NewlyRejected(r, Finalized(r, s)) == Unrequested(r.spec, NewlyRejected(r, s))
  {
    var all := RejectedEntries(s.progress);
    var kept := InvalidNames(StillRequested(r.spec, s.invalidBackups));
    var kept' := InvalidNames(StillRequested(r.spec, FinalInvalid(r, s)));
    forall v | v in all
      ensures v.info.name !in kept' <==> v.info.name !in r.spec.requested
      ensures v.info.name !in r.spec.requested ==> v.info.name !in kept
    {
      NameOfMember(all, v.info.name);
      RejectedNameMeans(s.progress, v.info.name);
      KeptAgain(r, s, v.info.name);
    }
    FilterFilter(all,
                 (v: InvalidBackup) => v.info.name !in kept,
                 (v: InvalidBackup) => v.info.name !in r.spec.requested,
                 (v: InvalidBackup) => v.info.name !in kept');
  }

  lemma NothingUnaccountedTwice(r: Resource, s: Status)
    ensures Unaccounted(r, Finalized(r, s)) == []
  {
    var t := Finalized(r, s);
    UnaccountedMeans(r, t);
    forall name | name in r.spec.requested
      ensures name in ProgressNames(t.progress) || name in InvalidNames(StillRequested(r.spec, t.invalidBackups))
    {
      KeptNamesAfterFinalize(r, s, name);
    }
    FilterNone(r.spec.requested,
               n => n !in ProgressNames(t.progress) &&
                    n !in InvalidNames(StillRequested(r.spec, t.invalidBackups)));
    assert |Unaccounted(r, t)| == |InvalidNames(Unaccounted(r, t))| == 0;
  }

  lemma Regrouped<T>(kept: seq<T>, wanted: seq<T>, missing: seq<T>, unwanted: seq<T>, rejected: seq<T>)
    requires multiset(rejected) == multiset(wanted) + multiset(unwanted)
    ensures multiset(kept + wanted + missing + unwanted + []) == multiset(kept + rejected + missing)
  {
    assert kept + wanted + missing + unwanted + [] == kept + wanted + missing + unwanted;
  }

  /** Finalizing a second time changes neither list, up to the order of the invalid one. */
  lemma FinalizationIsIdempotent(r: Resource, s: Status)
    ensures Finalized(r, Finalized(r, s)).validBackups == Finalized(r, s).validBackups
    ensures multiset(Finalized(r, Finalized(r, s)).invalidBackups) == multiset(Finalized(r, s).invalidBackups)
  {
    KeptAfterFinalize(r, s);
    RejectedAgain(r, s);
    NothingUnaccountedTwice(r, s);
    var rejected := NewlyRejected(r, s);
    var wanted := StillRequested(r.spec, rejected);
    var unwanted := Unrequested(r.spec, rejected);
    FilterSplit(rejected,
                (v: InvalidBackup) => v.info.name in r.spec.requested,
                (v: InvalidBackup) => v.info.name !in r.spec.requested);
    Regrouped(StillRequested(r.spec, s.invalidBackups), wanted, Unaccounted(r, s), unwanted, rejected);
  }
}
