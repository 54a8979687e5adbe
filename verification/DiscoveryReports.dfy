/**
 * Two ways in which the final list of invalid backups differs from what its readers expect, each
 * with the exact condition under which it happens.
 */
module DiscoveryReports {
  import opened Collections
  import opened DiscoveryModel
  import opened DiscoveryInvariants
  import opened DiscoveryOutcome

  /** The backup is listed and covers the VM's namespace, but its own phase is not Completed yet. */
  predicate Unfinished(spec: Spec, listing: seq<Backup>, name: string) {
    && ClassOf(spec, listing, name) == Candidate
    && Named(listing, name).Some? && !Named(listing, name).value.completedPhase
  }

  /** The status still tracks what an initialization from this listing set up. */
  ghost predicate TracksListing(r: Resource, s: Status, i: Inputs, listing: seq<Backup>) {
    && ValidInputs(r, i) && i.listing == Some(listing) && i.range.Some?
    && SameInfos(s.progress, InitialProgress(r, i, listing))
    && s.invalidBackups == InitialInvalid(r, listing, i.order)
  }

  lemma RejectedIsKept(r: Resource, s: Status, i: Inputs, listing: seq<Backup>, name: string)
    requires TracksListing(r, s, i, listing) && name in r.spec.requested
    ensures name in InvalidNames(StillRequested(r.spec, s.invalidBackups)) <==>
            RejectedClass(ClassOf(r.spec, listing, name))
  {
    KeptNameMeans(r.spec, s.invalidBackups, name);
    InitialInvalidNames(r, listing, i.order);
    FilterMembers(i.order, n => RejectedClass(ClassOf(r.spec, listing, n)));
  }

  lemma CandidateTracked(r: Resource, i: Inputs, listing: seq<Backup>, range: (int, int), name: string)
    requires Distinct(Map(listing, (x: Backup) => x.name))
    requires multiset(i.sorted) == multiset(Candidates(r.spec, range, listing))
    requires name in r.spec.requested && ClassOf(r.spec, listing, name) == Candidate
    ensures name in Map(i.sorted, (b: Backup) => b.name) <==> !Unfinished(r.spec, listing, name)
  {
    var names := Map(i.sorted, (b: Backup) => b.name);
    NamedFound(listing, name);
    var b := Named(listing, name).value;
    FilterMembers(listing, x => IsCandidate(r.spec, range, x));
    if b.completedPhase {
      assert b in Candidates(r.spec, range, listing);
      MemberOfMultiset(i.sorted, Candidates(r.spec, range, listing), b);
      var k :| 0 <= k < |i.sorted| && i.sorted[k] == b;
      assert names[k] == name;
    }
    if name in names {
      var k :| 0 <= k < |names| && names[k] == name;
      CandidateFacts(r, i, listing, range, i.sorted[k]);
      NamedFoundTwice(listing, i.sorted[k], b);
    }
  }

  lemma TrackedNames(r: Resource, s: Status, i: Inputs, listing: seq<Backup>, name: string)
    requires TracksListing(r, s, i, listing) && name in r.spec.requested
    ensures name in ProgressNames(s.progress) <==>
            || ClassOf(r.spec, listing, name) == FilteredOut
            || (ClassOf(r.spec, listing, name) == Candidate && !Unfinished(r.spec, listing, name))
  {
    SameInfosSameNames(s.progress, InitialProgress(r, i, listing));
    InitialNames(r, i, listing);
    ClassMembers(r.spec, listing, i.order, FilteredOut);
    if ClassOf(r.spec, listing, name) == Candidate {
      CandidateTracked(r, i, listing, i.range.value, name);
    } else if name in Map(i.sorted, (b: Backup) => b.name) {
      CandidateClass(r, i, listing, i.range.value, name);
    }
  }

  /**
   * Finalization reports a requested backup as not found in the cluster although it was listed
   * exactly when the backup is unfinished.
   */
  lemma ReportedMissingExactlyWhenUnfinished(r: Resource, s: Status, i: Inputs, listing: seq<Backup>)
    requires TracksListing(r, s, i, listing)
    ensures UnaccountedNames(r, s) == Filter(r.spec.requested, name => Unfinished(r.spec, listing, name))
    ensures forall name :: name in r.spec.requested && Unfinished(r.spec, listing, name) ==>
              NotFoundEntry(r, name) in FinalInvalid(r, s)
  {
    forall name | name in r.spec.requested
      ensures name !in ProgressNames(s.progress) && name !in InvalidNames(StillRequested(r.spec, s.invalidBackups)) <==>
              Unfinished(r.spec, listing, name)
    {
      RejectedIsKept(r, s, i, listing, name);
      TrackedNames(r, s, i, listing, name);
    }
    FilterCong(r.spec.requested,
               name => name !in ProgressNames(s.progress) &&
                       name !in InvalidNames(StillRequested(r.spec, s.invalidBackups)),
               name => Unfinished(r.spec, listing, name));
    UnaccountedMeans(r, s);
    FilterMembers(r.spec.requested, name => Unfinished(r.spec, listing, name));
    forall name | name in r.spec.requested && Unfinished(r.spec, listing, name)
      ensures NotFoundEntry(r, name) in FinalInvalid(r, s)
    {
      UnaccountedEntry(r, s, name);
    }
  }

  lemma UnaccountedEntry(r: Resource, s: Status, name: string)
    requires name in UnaccountedNames(r, s)
    ensures NotFoundEntry(r, name) in Unaccounted(r, s)
  {
    UnaccountedMeans(r, s);
    var names := InvalidNames(Unaccounted(r, s));
    var k :| 0 <= k < |names| && names[k] == name;
    assert Unaccounted(r, s)[k] == NotFoundEntry(r, name);
  }

  lemma FirstTwoPartsDistinct(r: Resource, s: Status)
    requires NamesAccounted(r, s)
    ensures Distinct(InvalidNames(StillRequested(r.spec, s.invalidBackups)))
    ensures Distinct(InvalidNames(NewlyRejected(r, s)))
  {
    FilterDistinctBy(s.invalidBackups, (v: InvalidBackup) => v.info.name in r.spec.requested, InvalidName);
    FilterDistinctBy(s.progress, (e: Entry) => !IsCompleted(e), EntryName);
    assert InvalidNames(RejectedEntries(s.progress)) ==
           Map(Filter(s.progress, (e: Entry) => !IsCompleted(e)), EntryName);
    var kept := InvalidNames(StillRequested(r.spec, s.invalidBackups));
    FilterDistinctBy(RejectedEntries(s.progress), (v: InvalidBackup) => v.info.name !in kept, InvalidName);
  }

  lemma PartsDisjoint(r: Resource, s: Status)
    requires NamesAccounted(r, s)
    ensures var kept := InvalidNames(StillRequested(r.spec, s.invalidBackups));
            var rejected := InvalidNames(NewlyRejected(r, s));
            && (forall name :: name in kept ==> name !in rejected)
            && (forall name :: name in kept + rejected ==> name !in UnaccountedNames(r, s))
  {
    FilterMembers(r.spec.requested,
                  n => n !in ProgressNames(s.progress) &&
                       n !in InvalidNames(StillRequested(r.spec, s.invalidBackups)));
    forall name
      ensures name in InvalidNames(NewlyRejected(r, s)) ==>
              name !in InvalidNames(StillRequested(r.spec, s.invalidBackups)) && name in ProgressNames(s.progress)
    {
      NewlyRejectedMeans(r, s, name);
      TrackedOnce(s.progress, name);
    }
  }

  /** The final invalid list names a backup twice exactly when an unfinished backup is requested twice. */
  lemma DuplicatesExactlyWhenRequestedTwice(r: Resource, s: Status, i: Inputs, listing: seq<Backup>)
    requires NamesAccounted(r, s) && TracksListing(r, s, i, listing)
    ensures Distinct(InvalidNames(FinalInvalid(r, s))) <==>
            Distinct(Filter(r.spec.requested, name => Unfinished(r.spec, listing, name)))
  {
    var kept := StillRequested(r.spec, s.invalidBackups);
    var rejected := NewlyRejected(r, s);
    ReportedMissingExactlyWhenUnfinished(r, s, i, listing);
    UnaccountedMeans(r, s);
    FirstTwoPartsDistinct(r, s);
    PartsDisjoint(r, s);
    MapAppend(kept + rejected, Unaccounted(r, s), InvalidName);
    MapAppend(kept, rejected, InvalidName);
    DistinctAppend(InvalidNames(kept), InvalidNames(rejected));
    DistinctAppend(InvalidNames(kept) + InvalidNames(rejected), UnaccountedNames(r, s));
  }

  const RUNNING := Backup("b", 5, None, false, 0, 0, 0, [], [])
  const TWICE := Resource(Spec("vms", false, ["b", "b"]), 1, "oadp")

  function RunningInputs(): Inputs {
    Inputs(Some([RUNNING]), Some((0, 10)), [], ["b"], batch => batch, _ => VMFound, 2)
  }

  function RunningStatus(): Status {
    Initialized(TWICE, Status(PhaseNew, 0, None, [], [], [], None), RunningInputs(), [RUNNING])
  }

  lemma RunningInputsValid()
    ensures ValidInputs(TWICE, RunningInputs())
  {
    FilterNone([RUNNING], b => IsCandidate(TWICE.spec, (0, 10), b));
  }

  lemma RunningStatusIsBare()
    ensures RunningStatus().progress == [] && RunningStatus().invalidBackups == []
  {
    var i := RunningInputs();
    assert Named([RUNNING], "b") == Some(RUNNING);
    FilterNone(i.order, name => ClassOf(TWICE.spec, [RUNNING], name) == FilteredOut);
    assert i.order[..0] == [];
    assert InvalidOf(TWICE, [RUNNING], "b") == [];
    assert InitialInvalid(TWICE, [RUNNING], i.order) ==
           InitialInvalid(TWICE, [RUNNING], i.order[..0]) + InvalidOf(TWICE, [RUNNING], i.order[0]);
  }

  /** A backup still running when it is requested twice ends up listed twice as not found. */
  lemma RunningBackupListedTwice()
    ensures TracksListing(TWICE, RunningStatus(), RunningInputs(), [RUNNING])
    ensures !Distinct(InvalidNames(FinalInvalid(TWICE, RunningStatus())))
  {
    var s := RunningStatus();
    RunningInputsValid();
    RunningStatusIsBare();
    assert NamesAccounted(TWICE, s);
    DuplicatesExactlyWhenRequestedTwice(TWICE, s, RunningInputs(), [RUNNING]);
    assert Named([RUNNING], "b") == Some(RUNNING);
    FilterAll(TWICE.spec.requested, name => Unfinished(TWICE.spec, [RUNNING], name));
    assert TWICE.spec.requested[0] == TWICE.spec.requested[1];
  }
}
