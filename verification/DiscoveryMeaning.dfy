/** What a finished discovery lists, in terms of the backups themselves. */
module DiscoveryMeaning {
  import opened Collections
  import opened DiscoveryModel
  import opened DiscoveryInvariants
  import opened DiscoveryOutcome
  import opened DiscoveryRuns
  import opened DiscoveryReports
  import opened DiscoveryReportRuns
  import Itoa

  /** The backup is complete, has no operation outstanding and contains the namespace. */
  predicate Usable(b: Backup, namespace: string) {
    && b.completedPhase && (b.attempted == 0 || b.completed == b.attempted)
    && (forall k :: 0 <= k < |b.excluded| ==> b.excluded[k] != namespace)
    && (|b.included| == 0 || exists k :: 0 <= k < |b.included| && (b.included[k] == "*" || b.included[k] == namespace))
  }

  /** The spec asks for the backup: by name, by time, or by either. */
  predicate Wanted(spec: Spec, range: (int, int), b: Backup) {
    if |spec.requested| == 0 then range.0 <= b.created <= range.1
    else if !spec.hasTimeRange then b.name in spec.requested
    else b.name in spec.requested || range.0 <= b.created <= range.1
  }

  /** The candidates are the listed backups that are usable and asked for. */
  lemma CandidatesAreUsableAndWanted(spec: Spec, range: (int, int), listing: seq<Backup>, b: Backup)
    ensures b in Candidates(spec, range, listing) <==>
            b in listing && Usable(b, spec.vmNamespace) && Wanted(spec, range, b)
  {
    FilterMembers(listing, x => IsCandidate(spec, range, x));
    assert Usable(b, spec.vmNamespace) <==>
      b.completedPhase && !AsyncIncomplete(b) && CoversNamespace(b, spec.vmNamespace);
  }

  /** How a listed backup is reported: with its completion time, or else its creation time. */
  function Listed(r: Resource, b: Backup): BackupInfo {
    BackupInfo(b.name, r.namespace, Some(if b.completion.Some? then b.completion.value else b.created))
  }

  lemma FinishedTracks(r: Resource, s: Status, i: Inputs, listing: seq<Backup>, steps: seq<Inputs>,
                       oracle: string -> Lookup)
    requires ValidInputs(r, i) && i.listing == Some(listing) && i.range.Some?
    requires AllValid(r, steps) && Consults(steps, oracle)
    ensures var v := Run(r, Initialized(r, s, i, listing), steps);
      Complete(v) ==>
        && v.validBackups == ExpectedValid(r, i, oracle) && Settled(r, v)
        && Decided(InitialProgress(r, i, listing), |i.sorted|, v.progress, oracle)
  {
    DiscoveryFindsTheBackups(r, s, i, listing, steps, oracle);
  }

  lemma ExpectedMembers(r: Resource, i: Inputs, listing: seq<Backup>, oracle: string -> Lookup, b: Backup)
    requires ValidInputs(r, i) && i.listing == Some(listing) && i.range.Some? && b in listing
    ensures b.name in ValidNames(ExpectedValid(r, i, oracle)) <==>
            b in i.sorted && oracle(b.name) == VMFound
    ensures b in i.sorted && oracle(b.name) == VMFound ==> Listed(r, b) in ExpectedValid(r, i, oracle)
  {
    var kept := Filter(i.sorted, (x: Backup) => oracle(x.name) == VMFound);
    var valid := ExpectedValid(r, i, oracle);
    FilterMembers(i.sorted, (x: Backup) => oracle(x.name) == VMFound);
    if b in kept {
      var k :| 0 <= k < |kept| && kept[k] == b;
      assert valid[k] == Listed(r, b) && ValidNames(valid)[k] == b.name;
    }
    if b.name in ValidNames(valid) {
      var k :| 0 <= k < |ValidNames(valid)| && ValidNames(valid)[k] == b.name;
      assert kept[k] in kept && kept[k].name == b.name;
      CandidateFacts(r, i, listing, i.range.value, kept[k]);
      NamedFoundTwice(listing, kept[k], b);
    }
  }

  /**
   * A finished discovery, however it was interrupted, lists a backup as valid exactly when the backup is usable, the
   * spec asks for it and its contents hold the VM; and then with its own time.
   */
  lemma FinishedRunsListExactly(r: Resource, s: Status, i: Inputs, listing: seq<Backup>, steps: seq<Inputs>,
                                oracle: string -> Lookup, b: Backup)
    requires ValidInputs(r, i) && i.listing == Some(listing) && i.range.Some?
    requires AllValid(r, steps) && Consults(steps, oracle) && b in listing
    ensures var v := Run(r, Initialized(r, s, i, listing), steps);
      Complete(v) ==>
        && (b.name in ValidNames(v.validBackups) <==>
              Usable(b, r.spec.vmNamespace) && Wanted(r.spec, i.range.value, b) && oracle(b.name) == VMFound)
        && (b.name in ValidNames(v.validBackups) ==> Listed(r, b) in v.validBackups)
  {
    FinishedTracks(r, s, i, listing, steps, oracle);
    ExpectedMembers(r, i, listing, oracle, b);
    CandidatesAreUsableAndWanted(r.spec, i.range.value, listing, b);
    MemberOfMultiset(i.sorted, Candidates(r.spec, i.range.value, listing), b);
  }

  /** What an entry says about a lookup, outcome by outcome. */
  predicate Judged(e: Entry, l: Lookup) {
    && (e.status == Completed <==> l.VMFound?)
    && (e.status == Skipped <==> l.VMAbsent?)
    && (e.status == Failed <==> l.ReaderMissing? || l.BackupGone? || l.FetchFailed? || l.ContentsFailed?)
    && (l.BackupGone? ==> e.message == "Backup not found in cluster")
  }

  lemma JudgedEntry(r: Resource, i: Inputs, listing: seq<Backup>, progress: seq<Entry>, oracle: string -> Lookup,
                    k: nat)
    requires Decided(InitialProgress(r, i, listing), |i.sorted|, progress, oracle) && k < |i.sorted|
    requires Tally(progress, New) == 0 && Tally(progress, InProgress) == 0
    ensures k < |progress| && progress[k].info == Listed(r, i.sorted[k])
    ensures Judged(progress[k], oracle(i.sorted[k].name))
  {
    RestNotCompleted(r, i, listing, progress, oracle);
    NoneWith(progress, New);
    NoneWith(progress, InProgress);
    DecidedEntry(r, i, listing, progress, oracle, k);
  }

  /** The verdict on every analysed backup follows from what was learned about it, outcome by outcome. */
  lemma FinishedRunsJudgeExactly(r: Resource, s: Status, i: Inputs, listing: seq<Backup>, steps: seq<Inputs>,
                                 oracle: string -> Lookup, k: nat)
    requires ValidInputs(r, i) && i.listing == Some(listing) && i.range.Some? && k < |i.sorted|
    requires AllValid(r, steps) && Consults(steps, oracle)
    ensures var v := Run(r, Initialized(r, s, i, listing), steps);
      Complete(v) ==>
        && k < |v.progress| && v.progress[k].info == Listed(r, i.sorted[k])
        && Judged(v.progress[k], oracle(i.sorted[k].name))
  {
    FinishedTracks(r, s, i, listing, steps, oracle);
    var v := Run(r, Initialized(r, s, i, listing), steps);
    if Complete(v) { JudgedEntry(r, i, listing, v.progress, oracle, k); }
  }

  ghost predicate NewestFirst(s: seq<Backup>) { forall j, k :: 0 <= j < k < |s| ==> s[j].created >= s[k].created }

  lemma {:induction false} FilterKeepsOrder(s: seq<Backup>, p: Backup -> bool)
    requires NewestFirst(s)
    ensures NewestFirst(Filter(s, p))
  {
    if s != [] {
      var n := |s| - 1;
      var kept := Filter(s[..n], p);
      FilterKeepsOrder(s[..n], p);
      FilterMembers(s[..n], p);
      forall j | 0 <= j < |kept| ensures kept[j].created >= s[n].created {
        assert kept[j] in kept && kept[j] in s[..n];
        var m :| 0 <= m < n && s[..n][m] == kept[j];
        assert s[m] == kept[j];
      }
    }
  }

  lemma ExpectedNewestFirst(r: Resource, i: Inputs, listing: seq<Backup>, oracle: string -> Lookup,
                            a: Backup, b: Backup, j: nat, k: nat)
    requires ValidInputs(r, i) && i.listing == Some(listing) && i.range.Some? && a in listing && b in listing
    requires j < k < |ExpectedValid(r, i, oracle)|
    requires ExpectedValid(r, i, oracle)[j].name == a.name && ExpectedValid(r, i, oracle)[k].name == b.name
    ensures a.created >= b.created
  {
    var kept := Filter(i.sorted, (x: Backup) => oracle(x.name) == VMFound);
    FilterKeepsOrder(i.sorted, (x: Backup) => oracle(x.name) == VMFound);
    FilterMembers(i.sorted, (x: Backup) => oracle(x.name) == VMFound);
    assert kept[j] in kept && kept[k] in kept;
    CandidateFacts(r, i, listing, i.range.value, kept[j]);
    CandidateFacts(r, i, listing, i.range.value, kept[k]);
    NamedFoundTwice(listing, kept[j], a);
    NamedFoundTwice(listing, kept[k], b);
  }

  /** The valid list of a finished discovery is ordered by creation, newest first. */
  lemma FinishedRunsListNewestFirst(r: Resource, s: Status, i: Inputs, listing: seq<Backup>, steps: seq<Inputs>,
                                    oracle: string -> Lookup, a: Backup, b: Backup, j: nat, k: nat)
    requires ValidInputs(r, i) && i.listing == Some(listing) && i.range.Some?
    requires AllValid(r, steps) && Consults(steps, oracle) && a in listing && b in listing && j < k
    ensures var v := Run(r, Initialized(r, s, i, listing), steps);
      Complete(v) && k < |v.validBackups| && v.validBackups[j].name == a.name && v.validBackups[k].name == b.name ==>
        a.created >= b.created
  {
    FinishedTracks(r, s, i, listing, steps, oracle);
    var v := Run(r, Initialized(r, s, i, listing), steps);
    if Complete(v) && k < |v.validBackups| && v.validBackups[j].name == a.name && v.validBackups[k].name == b.name {
      ExpectedNewestFirst(r, i, listing, oracle, a, b, j, k);
    }
  }

  // ----- Why a requested backup is invalid

  function Outstanding(b: Backup): string {
    "backup has incomplete async operations (data mover upload may not have finished); " +
    "BackupItemOperationsAttempted=" + Itoa.Decimal(b.attempted) +
    ", BackupItemOperationsCompleted=" + Itoa.Decimal(b.completed) +
    ", BackupItemOperationsFailed=" + Itoa.Decimal(b.failed)
  }

  lemma OutstandingReason(b: Backup)
    ensures Outstanding(b) != ""
    ensures b.attempted != 0 && b.completed != b.attempted <==> AsyncIncomplete(b)
    ensures AsyncIncomplete(b) ==> AsyncReason(b) == Outstanding(b)
  {
    assert |Outstanding(b)| > 0;
  }

  lemma ReasonOf(r: Resource, listing: seq<Backup>, b: Backup, reason: string)
    requires Named(listing, b.name) == Some(b) && AsyncIncomplete(b) && AsyncReason(b) == reason != ""
    ensures InvalidOf(r, listing, b.name) == [InvalidBackup(Listed(r, b), reason)]
  {
  }

  lemma {:induction false} InvalidIsListed(r: Resource, listing: seq<Backup>, order: seq<string>, name: string,
                                           v: InvalidBackup)
    requires name in order && InvalidOf(r, listing, name) == [v]
    ensures v in InitialInvalid(r, listing, order)
  {
    var n := |order| - 1;
    if order[n] == name {
      assert v in InvalidOf(r, listing, order[n]);
    } else {
      assert name in order[..n];
      InvalidIsListed(r, listing, order[..n], name, v);
    }
  }

  /** The entry made for a filtered-out backup is still there. */
  lemma FilteredIsTracked(r: Resource, s: Status, i: Inputs, listing: seq<Backup>, name: string)
    requires Reporting(r, s, i, listing) && name in i.order && ClassOf(r.spec, listing, name) == FilteredOut
    ensures FilteredEntry(r, name) in s.progress
  {
    var names := NamesOfClass(r.spec, listing, i.order, FilteredOut);
    ClassMembers(r.spec, listing, i.order, FilteredOut);
    var m :| 0 <= m < |names| && names[m] == name;
    assert FilteredEntries(r, listing, i.order)[m] == FilteredEntry(r, name);
    assert InitialProgress(r, i, listing)[|i.sorted| + m] == FilteredEntry(r, name);
    assert s.progress[|i.sorted| + m] == FilteredEntry(r, name);
  }

  lemma RejectedIsListed(progress: seq<Entry>, e: Entry)
    requires e in progress && !IsCompleted(e)
    ensures RejectedOf(e) in RejectedEntries(progress)
  {
    var rejected := Filter(progress, (x: Entry) => !IsCompleted(x));
    FilterMembers(progress, (x: Entry) => !IsCompleted(x));
    var j :| 0 <= j < |rejected| && rejected[j] == e;
    assert RejectedEntries(progress)[j] == RejectedOf(e);
  }

  lemma FilteredIsRejected(r: Resource, s: Status, i: Inputs, listing: seq<Backup>, name: string)
    requires Reporting(r, s, i, listing) && name in r.spec.requested && ClassOf(r.spec, listing, name) == FilteredOut
    ensures RejectedOf(FilteredEntry(r, name)) in NewlyRejected(r, s)
  {
    FilteredIsTracked(r, s, i, listing, name);
    RejectedIsListed(s.progress, FilteredEntry(r, name));
    RejectedIsKept(r, s, i, listing, name);
    var kept := InvalidNames(StillRequested(r.spec, s.invalidBackups));
    FilterMembers(RejectedEntries(s.progress), (v: InvalidBackup) => v.info.name !in kept);
  }

  /** A requested backup with operations outstanding, or without the VM's namespace, is listed as such. */
  lemma FinishedRunsExplain(r: Resource, s: Status, i: Inputs, listing: seq<Backup>, steps: seq<Inputs>, b: Backup)
    requires ValidInputs(r, i) && i.listing == Some(listing) && i.range.Some? && AllValid(r, steps)
    requires b in listing && b.name in r.spec.requested
    ensures var v := Run(r, Initialized(r, s, i, listing), steps);
      var outstanding := b.attempted != 0 && b.completed != b.attempted;
      Complete(v) ==>
        && (outstanding ==> InvalidBackup(Listed(r, b), Outstanding(b)) in v.invalidBackups)
        && (!outstanding && (r.spec.vmNamespace in b.excluded || (b.included != [] && "*" !in b.included
                                                                 && r.spec.vmNamespace !in b.included)) ==>
              InvalidBackup(BackupInfo(b.name, r.namespace, None), "Backup doesn't include target VM namespace")
              in v.invalidBackups)
  {
    EveryRunReports(r, s, i, listing, steps);
    var v := Run(r, Initialized(r, s, i, listing), steps);
    if Complete(v) {
      var u :| Active(r, u) && Reporting(r, u, i, listing) && v == Finalized(r, u);
      NamedByListing(listing, b);
      ExplainedBy(r, u, i, listing, b);
    }
  }

  lemma NamedByListing(listing: seq<Backup>, b: Backup)
    requires Distinct(Map(listing, (x: Backup) => x.name)) && b in listing
    ensures Named(listing, b.name) == Some(b)
  {
    var k :| 0 <= k < |listing| && listing[k] == b;
    NamedUnique(listing, k);
  }

  lemma ExplainedBy(r: Resource, s: Status, i: Inputs, listing: seq<Backup>, b: Backup)
    requires Active(r, s) && Reporting(r, s, i, listing)
    requires b.name in r.spec.requested && Named(listing, b.name) == Some(b)
    ensures AsyncIncomplete(b) ==> InvalidBackup(Listed(r, b), Outstanding(b)) in FinalInvalid(r, s)
    ensures !AsyncIncomplete(b) && !CoversNamespace(b, r.spec.vmNamespace) ==>
      RejectedOf(FilteredEntry(r, b.name)) in FinalInvalid(r, s)
  {
    if AsyncIncomplete(b) {
      OutstandingReason(b);
      ReasonOf(r, listing, b, Outstanding(b));
      InvalidIsListed(r, listing, i.order, b.name, InvalidBackup(Listed(r, b), Outstanding(b)));
      FilterMembers(s.invalidBackups, (v: InvalidBackup) => v.info.name in r.spec.requested);
    } else if !CoversNamespace(b, r.spec.vmNamespace) {
      FilteredIsRejected(r, s, i, listing, b.name);
    }
  }

  // ----- Counts

  lemma ClassByListing(spec: Spec, listing: seq<Backup>, order: seq<string>)
    ensures NamesOfClass(spec, listing, order, Missing) == Filter(order, name => Named(listing, name).None?)
  {
    FilterCong(order, name => ClassOf(spec, listing, name) == Missing, name => Named(listing, name).None?);
  }

  /**
   * The counters of a finished discovery: as many completed as valid, and as many failed as analyses that failed and
   * requested names (each counted once) that were not listed.
   */
  lemma FinishedRunsCount(r: Resource, s: Status, i: Inputs, listing: seq<Backup>, steps: seq<Inputs>)
    requires ValidInputs(r, i) && i.listing == Some(listing) && i.range.Some? && AllValid(r, steps)
    ensures var v := Run(r, Initialized(r, s, i, listing), steps);
      Complete(v) ==>
        && v.stats.value.completed == |v.validBackups|
        && v.stats.value.failed == Tally(v.progress, Failed) + |Filter(i.order, name => Named(listing, name).None?)|
        && v.stats.value.total == |v.progress| + |Filter(i.order, name => Named(listing, name).None?)|
  {
    EveryRunReports(r, s, i, listing, steps);
    var v := Run(r, Initialized(r, s, i, listing), steps);
    if Complete(v) {
      var u :| Active(r, u) && Reporting(r, u, i, listing) && v == Finalized(r, u);
      ClassByListing(r.spec, listing, i.order);
      CompletedCount(v.progress);
    }
  }

  lemma {:induction false} CompletedCount(progress: seq<Entry>)
    ensures |CompletedInfos(progress)| == Tally(progress, Completed)
  {
    if progress != [] {
      var n := |progress| - 1;
      CompletedCount(progress[..n]);
      TallyStep(progress, Completed);
      CompletedInfosAppend(progress[..n], [progress[n]]);
      CompletedInfosOne(progress[n]);
      assert progress == progress[..n] + [progress[n]];
    }
  }

  // ----- Initialization

  /**
   * A listing that fails marks the discovery as failed and leaves it to be started again; a bad time range does
   * not.
   */
  lemma InitializationGoes(r: Resource, s: Status, i: Inputs)
    requires s.phase != Unset && s.stats.None? && i.writes >= 2
    ensures var t := Reconcile(r, s, i);
      && (i.listing.None? ==> t.phase == PhaseFailed && t.observedGeneration == r.generation)
      && (i.listing.Some? && i.range.None? ==>
            t.phase == PhaseInProgress && t.observedGeneration == s.observedGeneration)
      && (i.listing.None? || i.range.None? ==>
            t.stats.None? && t.progress == [] && t.validBackups == [] && t.invalidBackups == [])
      && (i.listing.Some? && i.range.Some? ==> t.phase == PhaseInProgress && t.stats.Some?)
  {
  }
}
