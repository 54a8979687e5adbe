/**
 * What a discovery run ends with: every requested or tracked name in exactly one of the two lists,
 * the valid list equal to the newest-first list of candidates that contain the VM, and a
 * finalization that may be repeated.
 */
module DiscoveryOutcome {
  import opened Collections
  import opened DiscoveryModel
  import opened DiscoveryInvariants

  // ----- Initialization establishes the invariant

  lemma {:induction false} NamedUnique(listing: seq<Backup>, k: nat)
    requires Distinct(Map(listing, (b: Backup) => b.name)) && k < |listing|
    ensures Named(listing, listing[k].name) == Some(listing[k])
  {
    var n := |listing| - 1;
    var names := Map(listing, (b: Backup) => b.name);
    if k < n {
      assert names[k] != names[n];
      assert Map(listing[..n], (b: Backup) => b.name) == names[..n];
      NamedUnique(listing[..n], k);
      assert listing[..n][k] == listing[k];
    }
  }

  lemma {:induction false} NamedFound(listing: seq<Backup>, name: string)
    ensures Named(listing, name).Some? ==>
      Named(listing, name).value in listing && Named(listing, name).value.name == name
    ensures Named(listing, name).None? ==> forall b :: b in listing ==> b.name != name
  {
    if listing != [] {
      NamedFound(listing[..|listing| - 1], name);
      assert listing == listing[..|listing| - 1] + [listing[|listing| - 1]];
    }
  }

  lemma {:induction false} UniformTally(progress: seq<Entry>, status: EntryStatus, x: EntryStatus)
    requires forall k :: 0 <= k < |progress| ==> progress[k].status == status
    ensures Tally(progress, x) == if x == status then |progress| else 0
  {
    if progress != [] {
      var n := |progress| - 1;
      UniformTally(progress[..n], status, x);
      assert Map(progress, StatusOf) == Map(progress[..n], StatusOf) + [progress[n].status];
    }
  }

  lemma TallyAppend(a: seq<Entry>, b: seq<Entry>, x: EntryStatus)
    ensures Tally(a + b, x) == Tally(a, x) + Tally(b, x)
  {
    MapAppend(a, b, StatusOf);
  }

  lemma InitialTally(r: Resource, i: Inputs, listing: seq<Backup>, x: EntryStatus)
    ensures Tally(InitialProgress(r, i, listing), x) ==
            (if x == New then |i.sorted| else 0) +
            (if x == Skipped then |NamesOfClass(r.spec, listing, i.order, FilteredOut)| else 0)
  {
    UniformTally(CandidateEntries(r, i.sorted), New, x);
    UniformTally(FilteredEntries(r, listing, i.order), Skipped, x);
    TallyAppend(CandidateEntries(r, i.sorted), FilteredEntries(r, listing, i.order), x);
  }

  lemma InitialCounters(r: Resource, i: Inputs, listing: seq<Backup>)
    ensures CountersAgree(InitialStats(r, i, listing), InitialProgress(r, i, listing))
    ensures NewRun(InitialProgress(r, i, listing), 0, |i.sorted|)
    ensures CompletedInfos(InitialProgress(r, i, listing)) == []
  {
    InitialTally(r, i, listing, New);
    InitialTally(r, i, listing, InProgress);
    InitialTally(r, i, listing, Completed);
    InitialTally(r, i, listing, Skipped);
    InitialTally(r, i, listing, Failed);
    InitialTally(r, i, listing, Blank);
    FilterNone(InitialProgress(r, i, listing), IsCompleted);
  }

  predicate RejectedClass(c: RequestClass) { c == Missing || c == Incomplete }

  /** The names in the initial invalid list are those classified missing or incomplete. */
  lemma {:induction false} InitialInvalidNames(r: Resource, listing: seq<Backup>, order: seq<string>)
    ensures InvalidNames(InitialInvalid(r, listing, order)) ==
            Filter(order, name => RejectedClass(ClassOf(r.spec, listing, name)))
  {
    if order != [] {
      var n := |order| - 1;
      InitialInvalidNames(r, listing, order[..n]);
      MapAppend(InitialInvalid(r, listing, order[..n]), InvalidOf(r, listing, order[n]), InvalidName);
      InvalidOfName(r, listing, order[n]);
    }
  }

  lemma InvalidOfName(r: Resource, listing: seq<Backup>, name: string)
    ensures InvalidNames(InvalidOf(r, listing, name)) ==
            if RejectedClass(ClassOf(r.spec, listing, name)) then [name] else []
  {
  }

  lemma CandidateFacts(r: Resource, i: Inputs, listing: seq<Backup>, range: (int, int), b: Backup)
    requires Distinct(Map(listing, (x: Backup) => x.name))
    requires multiset(i.sorted) == multiset(Candidates(r.spec, range, listing))
    requires b in i.sorted
    ensures b in listing && IsCandidate(r.spec, range, b) && ClassOf(r.spec, listing, b.name) == Candidate
  {
    MemberOfMultiset(i.sorted, Candidates(r.spec, range, listing), b);
    FilterMembers(listing, x => IsCandidate(r.spec, range, x));
    var k :| 0 <= k < |listing| && listing[k] == b;
    NamedUnique(listing, k);
  }

  lemma CandidateNamesDistinct(r: Resource, i: Inputs, listing: seq<Backup>, range: (int, int))
    requires Distinct(Map(listing, (x: Backup) => x.name))
    requires multiset(i.sorted) == multiset(Candidates(r.spec, range, listing))
    ensures Distinct(Map(i.sorted, (x: Backup) => x.name))
  {
    forall j, k | 0 <= j < k < |listing| ensures listing[j] != listing[k] {
      assert Map(listing, (x: Backup) => x.name)[j] != Map(listing, (x: Backup) => x.name)[k];
    }
    FilterDistinct(listing, x => IsCandidate(r.spec, range, x));
    DistinctPermutation(Candidates(r.spec, range, listing), i.sorted);
    forall j, k | 0 <= j < k < |i.sorted| ensures i.sorted[j].name != i.sorted[k].name {
      CandidateFacts(r, i, listing, range, i.sorted[j]);
      CandidateFacts(r, i, listing, range, i.sorted[k]);
      NamedFoundTwice(listing, i.sorted[j], i.sorted[k]);
    }
  }

  lemma NamedFoundTwice(listing: seq<Backup>, a: Backup, b: Backup)
    requires Distinct(Map(listing, (x: Backup) => x.name)) && a in listing && b in listing
    ensures a.name == b.name ==> a == b
  {
    var j :| 0 <= j < |listing| && listing[j] == a;
    var k :| 0 <= k < |listing| && listing[k] == b;
    NamedUnique(listing, j);
    NamedUnique(listing, k);
  }

  lemma InitialNames(r: Resource, i: Inputs, listing: seq<Backup>)
    ensures ProgressNames(InitialProgress(r, i, listing)) ==
            Map(i.sorted, (b: Backup) => b.name) + NamesOfClass(r.spec, listing, i.order, FilteredOut)
  {
  }

  lemma CandidateClass(r: Resource, i: Inputs, listing: seq<Backup>, range: (int, int), name: string)
    requires Distinct(Map(listing, (x: Backup) => x.name))
    requires multiset(i.sorted) == multiset(Candidates(r.spec, range, listing))
    requires name in Map(i.sorted, (b: Backup) => b.name)
    ensures ClassOf(r.spec, listing, name) == Candidate
  {
    var names := Map(i.sorted, (b: Backup) => b.name);
    var k :| 0 <= k < |names| && names[k] == name;
    CandidateFacts(r, i, listing, range, i.sorted[k]);
  }

  lemma ClassMembers(spec: Spec, listing: seq<Backup>, order: seq<string>, c: RequestClass)
    requires Distinct(order)
    ensures Distinct(NamesOfClass(spec, listing, order, c))
    ensures forall name :: name in NamesOfClass(spec, listing, order, c) <==>
      name in order && ClassOf(spec, listing, name) == c
  {
    FilterDistinct(order, name => ClassOf(spec, listing, name) == c);
    FilterMembers(order, name => ClassOf(spec, listing, name) == c);
  }

  /** The tracked names are the candidates and the requested backups that were filtered out, each once. */
  lemma InitialProgressNames(r: Resource, i: Inputs, listing: seq<Backup>, range: (int, int))
    requires Distinct(i.order) && Distinct(Map(listing, (x: Backup) => x.name))
    requires multiset(i.sorted) == multiset(Candidates(r.spec, range, listing))
    ensures Distinct(ProgressNames(InitialProgress(r, i, listing)))
    ensures forall name :: name in ProgressNames(InitialProgress(r, i, listing)) ==>
              !RejectedClass(ClassOf(r.spec, listing, name))
    ensures forall name :: name in ProgressNames(InitialProgress(r, i, listing)) <==>
              name in Map(i.sorted, (b: Backup) => b.name)
              || (name in i.order && ClassOf(r.spec, listing, name) == FilteredOut)
  {
    var candidates := Map(i.sorted, (b: Backup) => b.name);
    var filtered := NamesOfClass(r.spec, listing, i.order, FilteredOut);
    InitialNames(r, i, listing);
    CandidateNamesDistinct(r, i, listing, range);
    ClassMembers(r.spec, listing, i.order, FilteredOut);
    forall name | name in candidates ensures ClassOf(r.spec, listing, name) == Candidate {
      CandidateClass(r, i, listing, range, name);
    }
    DistinctAppend(candidates, filtered);
  }

  lemma InitialAccounting(r: Resource, s: Status, i: Inputs, listing: seq<Backup>)
    requires ValidInputs(r, i) && i.listing == Some(listing) && i.range.Some?
    ensures NamesAccounted(r, Initialized(r, s, i, listing))
  {
    InitialProgressNames(r, i, listing, i.range.value);
    InitialInvalidNames(r, listing, i.order);
    FilterDistinct(i.order, name => RejectedClass(ClassOf(r.spec, listing, name)));
    FilterMembers(i.order, name => RejectedClass(ClassOf(r.spec, listing, name)));
  }

  /** A completed initialization leaves a status that satisfies the invariant. */
  lemma InitializationEstablishes(r: Resource, s: Status, i: Inputs, listing: seq<Backup>)
    requires ValidInputs(r, i) && i.listing == Some(listing) && i.range.Some?
    ensures Active(r, Initialized(r, s, i, listing))
  {
    InitialCounters(r, i, listing);
    InitialAccounting(r, s, i, listing);
  }

  // ----- Which names finalization lists

  /** Some tracked entry of that name is completed (or, respectively, is not). */
  ghost predicate HasEntry(progress: seq<Entry>, name: string, completed: bool) {
    exists k :: 0 <= k < |progress| && progress[k].info.name == name && IsCompleted(progress[k]) == completed
  }

  lemma ValidNameMeans(progress: seq<Entry>, name: string)
    ensures name in ValidNames(CompletedInfos(progress)) <==> HasEntry(progress, name, true)
  {
    var kept := Filter(progress, IsCompleted);
    FilterMembers(progress, IsCompleted);
    var names := ValidNames(CompletedInfos(progress));
    if name in names {
      var k :| 0 <= k < |names| && names[k] == name;
      assert kept[k] in progress;
    }
    if k :| 0 <= k < |progress| && progress[k].info.name == name && IsCompleted(progress[k]) {
      assert progress[k] in kept;
      var j :| 0 <= j < |kept| && kept[j] == progress[k];
      assert names[j] == name;
    }
  }

  lemma RejectedNameMeans(progress: seq<Entry>, name: string)
    ensures name in InvalidNames(RejectedEntries(progress)) <==> HasEntry(progress, name, false)
  {
    var kept := Filter(progress, (e: Entry) => !IsCompleted(e));
    FilterMembers(progress, (e: Entry) => !IsCompleted(e));
    var names := InvalidNames(RejectedEntries(progress));
    if name in names {
      var k :| 0 <= k < |names| && names[k] == name;
      assert kept[k] in progress;
    }
    if k :| 0 <= k < |progress| && progress[k].info.name == name && !IsCompleted(progress[k]) {
      assert progress[k] in kept;
      var j :| 0 <= j < |kept| && kept[j] == progress[k];
      assert names[j] == name;
    }
  }

  lemma NameOfMember(invalid: seq<InvalidBackup>, name: string)
    ensures name in InvalidNames(invalid) <==> exists v :: v in invalid && v.info.name == name
  {
    var names := InvalidNames(invalid);
    if name in names {
      var k :| 0 <= k < |names| && names[k] == name;
      assert invalid[k] in invalid;
    }
    if v :| v in invalid && v.info.name == name {
      var k :| 0 <= k < |invalid| && invalid[k] == v;
      assert names[k] == name;
    }
  }

  lemma KeptNameMeans(spec: Spec, invalid: seq<InvalidBackup>, name: string)
    ensures name in InvalidNames(StillRequested(spec, invalid)) <==>
            name in spec.requested && name in InvalidNames(invalid)
  {
    FilterMembers(invalid, (v: InvalidBackup) => v.info.name in spec.requested);
    NameOfMember(StillRequested(spec, invalid), name);
    NameOfMember(invalid, name);
  }

  lemma NewlyRejectedMeans(r: Resource, s: Status, name: string)
    ensures name in InvalidNames(NewlyRejected(r, s)) <==>
            HasEntry(s.progress, name, false) && name !in InvalidNames(StillRequested(r.spec, s.invalidBackups))
  {
    var kept := InvalidNames(StillRequested(r.spec, s.invalidBackups));
    FilterMembers(RejectedEntries(s.progress), (v: InvalidBackup) => v.info.name !in kept);
    NameOfMember(NewlyRejected(r, s), name);
    NameOfMember(RejectedEntries(s.progress), name);
    RejectedNameMeans(s.progress, name);
  }

  /** The requested names that reach finalization without having been tracked or rejected. */
  ghost function UnaccountedNames(r: Resource, s: Status): seq<string> {
    Filter(r.spec.requested,
           name => name !in ProgressNames(s.progress) &&
                   name !in InvalidNames(StillRequested(r.spec, s.invalidBackups)))
  }

  lemma UnaccountedMeans(r: Resource, s: Status)
    ensures InvalidNames(Unaccounted(r, s)) == UnaccountedNames(r, s)
  {
    var processed := ProgressNames(s.progress);
    var kept := InvalidNames(StillRequested(r.spec, s.invalidBackups));
    FilterCong(r.spec.requested,
               name => name !in processed && name !in kept,
               name => name !in ProgressNames(s.progress) &&
                       name !in InvalidNames(StillRequested(r.spec, s.invalidBackups)));
  }

  lemma FinalInvalidMeans(r: Resource, s: Status, name: string)
    ensures name in InvalidNames(FinalInvalid(r, s)) <==>
            || (name in r.spec.requested && name in InvalidNames(s.invalidBackups))
            || HasEntry(s.progress, name, false)
            || (name in r.spec.requested && name !in ProgressNames(s.progress))
  {
    KeptNameMeans(r.spec, s.invalidBackups, name);
    NewlyRejectedMeans(r, s, name);
    UnaccountedMeans(r, s);
    FilterMembers(r.spec.requested,
                  n => n !in ProgressNames(s.progress) &&
                       n !in InvalidNames(StillRequested(r.spec, s.invalidBackups)));
    MapAppend(StillRequested(r.spec, s.invalidBackups) + NewlyRejected(r, s), Unaccounted(r, s), InvalidName);
    MapAppend(StillRequested(r.spec, s.invalidBackups), NewlyRejected(r, s), InvalidName);
  }

  // ----- The partition

  /** Every requested or tracked name is in exactly one list, and no other name is in either. */
  ghost predicate Partitioned(r: Resource, s: Status) {
    var valid, invalid := ValidNames(s.validBackups), InvalidNames(s.invalidBackups);
    && (forall name :: name in r.spec.requested || name in ProgressNames(s.progress) ==>
          (name in valid <==> name !in invalid))
    && (forall name :: name in valid ==> name in ProgressNames(s.progress))
    && (forall name :: name in invalid ==> name in r.spec.requested || name in ProgressNames(s.progress))
    && Distinct(valid)
  }

  lemma TrackedOnce(progress: seq<Entry>, name: string)
    requires Distinct(ProgressNames(progress))
    ensures name in ProgressNames(progress) <==> HasEntry(progress, name, true) || HasEntry(progress, name, false)
    ensures !(HasEntry(progress, name, true) && HasEntry(progress, name, false))
  {
    var names := ProgressNames(progress);
    if name in names {
      var k :| 0 <= k < |names| && names[k] == name;
      assert HasEntry(progress, name, IsCompleted(progress[k]));
    }
    forall j, k | 0 <= j < |progress| && 0 <= k < |progress| && progress[j].info.name == name == progress[k].info.name
      ensures j == k
    {
      assert names[j] == names[k];
    }
    if k :| 0 <= k < |progress| && progress[k].info.name == name {
      assert names[k] == name;
    }
  }

  lemma CompletedNamesDistinct(progress: seq<Entry>)
    requires Distinct(ProgressNames(progress))
    ensures Distinct(ValidNames(CompletedInfos(progress)))
  {
    FilterDistinctBy(progress, IsCompleted, EntryName);
    assert ValidNames(CompletedInfos(progress)) == Map(Filter(progress, IsCompleted), EntryName);
  }

  lemma FinalizedPartitions(r: Resource, s: Status)
    requires NamesAccounted(r, s)
    ensures Partitioned(r, Finalized(r, s))
  {
    forall name
      ensures name in ValidNames(CompletedInfos(s.progress)) <==> HasEntry(s.progress, name, true)
      ensures name in InvalidNames(FinalInvalid(r, s)) <==>
              || (name in r.spec.requested && name in InvalidNames(s.invalidBackups))
              || HasEntry(s.progress, name, false)
              || (name in r.spec.requested && name !in ProgressNames(s.progress))
      ensures name in ProgressNames(s.progress) <==>
        HasEntry(s.progress, name, true) || HasEntry(s.progress, name, false)
      ensures !(HasEntry(s.progress, name, true) && HasEntry(s.progress, name, false))
    {
      ValidNameMeans(s.progress, name);
      FinalInvalidMeans(r, s, name);
      TrackedOnce(s.progress, name);
    }
    CompletedNamesDistinct(s.progress);
  }
}
