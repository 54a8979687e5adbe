/** The reports of the final invalid list, for every run of a discovery. */
module DiscoveryReportRuns {
  import opened Collections
  import opened DiscoveryModel
  import opened DiscoveryInvariants
  import opened DiscoveryOutcome
  import opened DiscoveryRuns
  import opened DiscoveryReports

  // ----- Decided entries stay

  lemma MarkedBatchStays(s: Status, i: Inputs, lo: nat, n: nat, k: nat)
    requires 0 < n <= BATCH_SIZE && lo + n <= |s.progress| && k < |s.progress| && !(lo <= k < lo + n)
    requires multiset(i.finish(Range(lo, n))) == multiset(Range(lo, n))
    ensures var marked := MarkEntries(s.progress, Range(lo, n));
      && |marked| == |s.progress| && marked[k] == s.progress[k]
      && var after := ApplySlots(marked, FillSlots(n, marked, i.lookup, i.finish(Range(lo, n))));
      |after| == |s.progress| && after[k] == s.progress[k]
  {
    var marked := MarkEntries(s.progress, Range(lo, n));
    MarkShape(s.progress, lo, n);
    SlotsAreVerdicts(n, marked, i.lookup, lo, i.finish(Range(lo, n)));
    SlotOwners(lo, n);
    ApplyOther(marked, FillSlots(n, marked, i.lookup, i.finish(Range(lo, n))), k);
  }

  /** A discovery step changes no entry that has its verdict. */
  lemma VerdictStays(r: Resource, s: Status, i: Inputs, k: nat)
    requires Active(r, s) && ValidInputs(r, i)
    requires k < |s.progress| && s.progress[k].status !in {New, InProgress}
    ensures var after := ProcessBatch(s, s.stats.value, i).progress; k < |after| && after[k] == s.progress[k]
  {
    var lo: nat, hi: nat :| NewRun(s.progress, lo, hi);
    BatchOfRun(s.progress, lo, hi);
    if lo == hi {
      assert Batch(s.progress) == [];
      IndicesWithMembers(s.progress, InProgress);
      var stuck := IndicesWith(s.progress, InProgress);
      assert stuck != [] ==> stuck[0] in stuck;
    } else {
      MarkedBatchStays(s, i, lo, Min(BATCH_SIZE, hi - lo), k);
    }
  }

  // ----- Runs

  /** The status tracks the listing, and the entries of filtered-out backups are as they were made. */
  ghost predicate Reporting(r: Resource, s: Status, i: Inputs, listing: seq<Backup>) {
    && TracksListing(r, s, i, listing)
    && (forall k :: |i.sorted| <= k < |s.progress| ==> s.progress[k] == InitialProgress(r, i, listing)[k])
    && s.stats.Some? && s.stats.value.total == InitialStats(r, i, listing).total
  }

  /** In progress, or finalized from a status that was. */
  ghost predicate Reported(r: Resource, s: Status, i: Inputs, listing: seq<Backup>) {
    || (Active(r, s) && Reporting(r, s, i, listing))
    || (Settled(r, s) && exists u :: Active(r, u) && Reporting(r, u, i, listing) && s == Finalized(r, u))
  }

  lemma ReportingStarts(r: Resource, s: Status, i: Inputs, listing: seq<Backup>)
    requires ValidInputs(r, i) && i.listing == Some(listing) && i.range.Some?
    ensures Reported(r, Initialized(r, s, i, listing), i, listing)
  {
    InitializationEstablishes(r, s, i, listing);
  }

  lemma BatchReports(r: Resource, s: Status, i0: Inputs, listing: seq<Backup>, i: Inputs)
    requires Active(r, s) && Reporting(r, s, i0, listing) && ValidInputs(r, i)
    ensures Reporting(r, ProcessBatch(s, s.stats.value, i), i0, listing)
  {
    ProcessBatchKeeps(r, s, i);
    var after := ProcessBatch(s, s.stats.value, i);
    forall k | |i0.sorted| <= k < |after.progress| ensures after.progress[k] == InitialProgress(r, i0, listing)[k] {
      assert s.progress[k].status == Skipped;
      VerdictStays(r, s, i, k);
    }
  }

  lemma ReportingStep(r: Resource, s: Status, i0: Inputs, listing: seq<Backup>, i: Inputs)
    requires Reported(r, s, i0, listing) && ValidInputs(r, i)
    ensures Reported(r, Reconcile(r, s, i), i0, listing)
  {
    if Active(r, s) && Reporting(r, s, i0, listing) {
      if Discovering(r, s) {
        ProcessBatchKeeps(r, s, i);
        BatchReports(r, s, i0, listing, i);
      } else {
        FinalizationSettles(r, s);
      }
    }
  }

  lemma {:induction false} EveryRunReports(r: Resource, s: Status, i: Inputs, listing: seq<Backup>, steps: seq<Inputs>)
    requires ValidInputs(r, i) && i.listing == Some(listing) && i.range.Some? && AllValid(r, steps)
    ensures Reported(r, Run(r, Initialized(r, s, i, listing), steps), i, listing)
  {
    if steps == [] {
      ReportingStarts(r, s, i, listing);
    } else {
      var n := |steps| - 1;
      EveryRunReports(r, s, i, listing, steps[..n]);
      ReportingStep(r, Run(r, Initialized(r, s, i, listing), steps[..n]), i, listing, steps[n]);
    }
  }

  // ----- Which entries say that a backup was not found

  lemma MissingEntry(r: Resource, listing: seq<Backup>, other: string, name: string)
    ensures NotFoundEntry(r, name) in InvalidOf(r, listing, other) <==> other == name && Named(listing, name).None?
  {
  }

  lemma {:induction false} MissingEntries(r: Resource, listing: seq<Backup>, order: seq<string>, name: string)
    ensures NotFoundEntry(r, name) in InitialInvalid(r, listing, order) <==> name in order && Named(listing, name).None?
  {
    if order != [] {
      var n := |order| - 1;
      MissingEntries(r, listing, order[..n], name);
      MissingEntry(r, listing, order[n], name);
      var before, last := InitialInvalid(r, listing, order[..n]), InvalidOf(r, listing, order[n]);
      assert NotFoundEntry(r, name) in before + last <==>
        NotFoundEntry(r, name) in before || NotFoundEntry(r, name) in last;
      assert name in order <==> name in order[..n] || name == order[n];
    }
  }

  lemma RejectedComesFrom(progress: seq<Entry>, v: InvalidBackup)
    requires v in RejectedEntries(progress)
    ensures exists k :: 0 <= k < |progress| && v == RejectedOf(progress[k])
  {
    var rejected := Filter(progress, (e: Entry) => !IsCompleted(e));
    FilterMembers(progress, (e: Entry) => !IsCompleted(e));
    var j :| 0 <= j < |rejected| && v == RejectedOf(rejected[j]);
    assert rejected[j] in progress;
  }

  /** A candidate's entry has a timestamp and a filtered-out one another message. */
  lemma EntryIsNotMissing(r: Resource, s: Status, i: Inputs, listing: seq<Backup>, name: string, k: nat)
    requires Reporting(r, s, i, listing) && k < |s.progress|
    ensures RejectedOf(s.progress[k]) != NotFoundEntry(r, name)
  {
    assert s.progress[k].info == InitialProgress(r, i, listing)[k].info;
    if k >= |i.sorted| { assert s.progress[k].message == NOT_IN_NAMESPACE; }
  }

  lemma RejectedIsNotMissing(r: Resource, s: Status, i: Inputs, listing: seq<Backup>, name: string)
    requires Reporting(r, s, i, listing)
    ensures NotFoundEntry(r, name) !in NewlyRejected(r, s)
  {
    var kept := InvalidNames(StillRequested(r.spec, s.invalidBackups));
    FilterMembers(RejectedEntries(s.progress), (v: InvalidBackup) => v.info.name !in kept);
    if NotFoundEntry(r, name) in RejectedEntries(s.progress) {
      RejectedComesFrom(s.progress, NotFoundEntry(r, name));
      var k :| 0 <= k < |s.progress| && NotFoundEntry(r, name) == RejectedOf(s.progress[k]);
      EntryIsNotMissing(r, s, i, listing, name, k);
    }
  }

  lemma FinalReports(r: Resource, s: Status, i: Inputs, listing: seq<Backup>, name: string)
    requires Reporting(r, s, i, listing) && name in r.spec.requested
    ensures NotFoundEntry(r, name) in FinalInvalid(r, s) <==>
      Named(listing, name).None? || Unfinished(r.spec, listing, name)
  {
    var entry := NotFoundEntry(r, name);
    FilterMembers(s.invalidBackups, (v: InvalidBackup) => v.info.name in r.spec.requested);
    MissingEntries(r, listing, i.order, name);
    assert entry in StillRequested(r.spec, s.invalidBackups) <==> Named(listing, name).None?;
    RejectedIsNotMissing(r, s, i, listing, name);
    ReportedMissingExactlyWhenUnfinished(r, s, i, listing);
    UnaccountedReports(r, s, listing, name);
  }

  lemma UnaccountedReports(r: Resource, s: Status, listing: seq<Backup>, name: string)
    requires UnaccountedNames(r, s) == Filter(r.spec.requested, name => Unfinished(r.spec, listing, name))
    requires name in r.spec.requested
    ensures NotFoundEntry(r, name) in Unaccounted(r, s) <==> Unfinished(r.spec, listing, name)
  {
    FilterMembers(r.spec.requested, name => Unfinished(r.spec, listing, name));
    if Unfinished(r.spec, listing, name) { UnaccountedEntry(r, s, name); }
    UnaccountedMeans(r, s);
    NameOfMember(Unaccounted(r, s), name);
  }

  /**
   * A finished discovery, however it was interrupted, says that a requested backup was not found exactly when the
   * listing it started from does not have the backup or has it unfinished; and its invalid list names a backup twice
   * exactly when an unfinished one is requested twice.
   */
  lemma FinishedRunsReport(r: Resource, s: Status, i: Inputs, listing: seq<Backup>, steps: seq<Inputs>, name: string)
    requires ValidInputs(r, i) && i.listing == Some(listing) && i.range.Some? && AllValid(r, steps)
    requires name in r.spec.requested
    ensures var v := Run(r, Initialized(r, s, i, listing), steps);
      Complete(v) ==>
        && (NotFoundEntry(r, name) in v.invalidBackups <==>
              Named(listing, name).None? || Unfinished(r.spec, listing, name))
        && (Distinct(InvalidNames(v.invalidBackups)) <==>
              Distinct(Filter(r.spec.requested, name => Unfinished(r.spec, listing, name))))
  {
    EveryRunReports(r, s, i, listing, steps);
    var v := Run(r, Initialized(r, s, i, listing), steps);
    if Complete(v) {
      var u :| Active(r, u) && Reporting(r, u, i, listing) && v == Finalized(r, u);
      FinalReports(r, u, i, listing, name);
      DuplicatesExactlyWhenRequestedTwice(r, u, i, listing);
    }
  }
}
