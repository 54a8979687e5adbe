/**
 * Creating the Velero Restores, watching them, and turning the completed ones into mounts: every
 * recorded restore follows the Restore it names, and a fully completed run mounts every available
 * (PVC, backup) pair once.
 */
module Monitoring {
  import opened Collections
  import opened RestoreModel
  import opened VeleroRestores

  datatype VeleroRestore =
    VeleroRestore(name: string, owner: string, backup: string, selector: seq<string>, phase: RestorePhase)

  predicate IsOwned(v: VeleroRestore, owner: string, backup: string) { v.owner == owner && v.backup == backup }

  // ----- Creation

  /** The API server's answer to one create call with a generated name. */
  datatype CreateOutcome = Created(name: string) | AlreadyExists | CreateFailed

  /** The first Restore of this owner annotated with the backup. */
  function FirstOwned(restores: seq<VeleroRestore>, owner: string, backup: string): (found: Option<string>)
    ensures found.None? <==> forall k :: 0 <= k < |restores| ==> !IsOwned(restores[k], owner, backup)
    ensures found.Some? ==>
      exists k :: 0 <= k < |restores| && FirstAt(restores, owner, backup, k) && restores[k].name == found.value
  {
    if restores == [] then None
    else
      var n := |restores| - 1;
      var earlier := FirstOwned(restores[..n], owner, backup);
      if earlier.Some? then
        assert exists k :: 0 <= k < n && FirstAt(restores[..n], owner, backup, k) && FirstAt(restores, owner, backup, k)
                           && restores[k].name == earlier.value;
        earlier
      else if IsOwned(restores[n], owner, backup) then
        assert FirstAt(restores, owner, backup, n);
        Some(restores[n].name)
      else None
  }

  predicate FirstAt(restores: seq<VeleroRestore>, owner: string, backup: string, k: nat)
    requires k < |restores|
  {
    IsOwned(restores[k], owner, backup) && forall j :: 0 <= j < k ==> !IsOwned(restores[j], owner, backup)
  }

  /** What a run of create calls leaves: the names by backup, None if a call failed, and the Restores. */
  datatype Creation = Creation(names: Option<map<string, string>>, restores: seq<VeleroRestore>)

  /** The Restore a call adds, if it is accepted. */
  function Added(owner: string, backup: string, selector: seq<string>, outcome: CreateOutcome): seq<VeleroRestore> {
    if outcome.Created? then [VeleroRestore(outcome.name, owner, backup, selector, NoPhase)] else []
  }

  /** The name a call yields: the new one, that of an existing Restore of the backup, or none. */
  function NameAfter(restores: seq<VeleroRestore>, owner: string, backup: string,
                     outcome: CreateOutcome): Option<string> {
    match outcome
    case Created(given) => Some(given)
    case AlreadyExists => FirstOwned(restores, owner, backup)
    case CreateFailed => None
  }

  function CreateOne(before: Creation, owner: string, backup: string, selector: seq<string>,
                     outcome: CreateOutcome): Creation
    requires before.names.Some?
  {
    var name := NameAfter(before.restores, owner, backup, outcome);
    Creation(if name.None? then None else Some(before.names.value[backup := name.value]),
             before.restores + Added(owner, backup, selector, outcome))
  }

  predicate Callable(groups: map<string, seq<string>>, order: seq<string>, outcomes: seq<CreateOutcome>) {
    |outcomes| == |order| && forall k :: 0 <= k < |order| ==> order[k] in groups
  }

  /** One call per group, in the given order, up to the first that fails. */
  function Create(before: seq<VeleroRestore>, owner: string, groups: map<string, seq<string>>, order: seq<string>,
                  outcomes: seq<CreateOutcome>): Creation
    requires Callable(groups, order, outcomes)
  {
    if order == [] then Creation(Some(map[]), before)
    else
      var n := |order| - 1;
      var c := Create(before, owner, groups, order[..n], outcomes[..n]);
      if c.names.None? then c else CreateOne(c, owner, order[n], groups[order[n]], outcomes[n])
  }

  lemma {:induction false} CreateStops(before: seq<VeleroRestore>, owner: string, groups: map<string, seq<string>>,
                                       order: seq<string>, outcomes: seq<CreateOutcome>, j: nat)
    requires Callable(groups, order, outcomes) && j <= |order|
    requires Create(before, owner, groups, order[..j], outcomes[..j]).names.None?
    ensures Create(before, owner, groups, order, outcomes) == Create(before, owner, groups, order[..j], outcomes[..j])
  {
    var n := |order| - 1;
    if j == |order| {
      assert order[..j] == order && outcomes[..j] == outcomes;
    } else {
      assert order[..n][..j] == order[..j] && outcomes[..n][..j] == outcomes[..j];
      CreateStops(before, owner, groups, order[..n], outcomes[..n], j);
    }
  }

  class RestoreApi {
    var restores: seq<VeleroRestore>

    constructor (initial: seq<VeleroRestore>)
      ensures restores == initial
    {
      restores := initial;
    }

    method FindExisting(owner: string, backup: string) returns (found: Option<string>)
      ensures found == FirstOwned(restores, owner, backup)
    {
      assert restores[..0] == [];
      for k := 0 to |restores|
        invariant FirstOwned(restores[..k], owner, backup).None?
      {
        assert restores[..k + 1][..k] == restores[..k];
        if restores[k].owner == owner && restores[k].backup == backup {
          FirstOwnedStays(restores, owner, backup, k + 1);
          return Some(restores[k].name);
        }
      }
      assert restores[..|restores|] == restores;
      return None;
    }

    /** Some(name): the call succeeded or its Restore was there already. */
    method CreateRestore(owner: string, backup: string, selector: seq<string>,
                         outcome: CreateOutcome) returns (name: Option<string>)
      modifies this
      ensures restores == old(restores) + Added(owner, backup, selector, outcome)
      ensures name == NameAfter(old(restores), owner, backup, outcome)
    {
      match outcome {
        case Created(given) =>
          restores := restores + [VeleroRestore(given, owner, backup, selector, NoPhase)];
          name := Some(given);
        case AlreadyExists =>
          name := FindExisting(owner, backup);
        case CreateFailed =>
          name := None;
      }
    }

    method CreateVeleroRestores(owner: string, groups: map<string, seq<string>>, order: seq<string>,
                                outcomes: seq<CreateOutcome>)
      returns (names: Option<map<string, string>>)
      requires Callable(groups, order, outcomes)
      modifies this
      ensures Creation(names, restores) == Create(old(restores), owner, groups, order, outcomes)
    {
      var given: map<string, string> := map[];
      for j := 0 to |order|
        invariant Creation(Some(given), restores) == Create(old(restores), owner, groups, order[..j], outcomes[..j])
      {
        assert order[..j + 1][..j] == order[..j] && outcomes[..j + 1][..j] == outcomes[..j];
        var name := CreateRestore(owner, order[j], groups[order[j]], outcomes[j]);
        if name.None? {
          CreateStops(old(restores), owner, groups, order, outcomes, j + 1);
          return None;
        }
        given := given[order[j] := name.value];
      }
      assert order[..|order|] == order && outcomes[..|outcomes|] == outcomes;
      return Some(given);
    }
  }

  lemma {:induction false} FirstOwnedStays(restores: seq<VeleroRestore>, owner: string, backup: string, j: nat)
    requires j <= |restores| && FirstOwned(restores[..j], owner, backup).Some?
    ensures FirstOwned(restores, owner, backup) == FirstOwned(restores[..j], owner, backup)
  {
    var n := |restores| - 1;
    if j == |restores| {
      assert restores[..j] == restores;
    } else {
      assert restores[..n][..j] == restores[..j];
      FirstOwnedStays(restores[..n], owner, backup, j);
    }
  }

  ghost predicate NamesRestore(restores: seq<VeleroRestore>, owner: string, backup: string, name: string) {
    exists k :: 0 <= k < |restores| && IsOwned(restores[k], owner, backup) && restores[k].name == name
  }

  /** Every backup is recorded under the name of a Restore of this owner for it. */
  ghost predicate AllNamed(restores: seq<VeleroRestore>, owner: string, names: map<string, string>) {
    forall b :: b in names ==> NamesRestore(restores, owner, b, names[b])
  }

  lemma AllNamedGrows(before: seq<VeleroRestore>, after: seq<VeleroRestore>, owner: string, names: map<string, string>)
    requires before <= after && AllNamed(before, owner, names)
    ensures AllNamed(after, owner, names)
  {
    forall b | b in names ensures NamesRestore(after, owner, b, names[b]) {
      var k :| 0 <= k < |before| && IsOwned(before[k], owner, b) && before[k].name == names[b];
      assert after[k] == before[k];
    }
  }

  /** The existing Restores stay, and what is added is this owner's, for a group and with the group's UIDs. */
  lemma {:induction false} CreateGrows(before: seq<VeleroRestore>, owner: string, groups: map<string, seq<string>>,
                                       order: seq<string>, outcomes: seq<CreateOutcome>)
    requires Callable(groups, order, outcomes)
    ensures var after := Create(before, owner, groups, order, outcomes).restores;
      && before <= after
      && (forall k :: |before| <= k < |after| ==>
            && after[k].owner == owner && after[k].backup in groups && after[k].selector == groups[after[k].backup]
            && after[k].phase == NoPhase)
  {
    if order != [] {
      CreateGrows(before, owner, groups, order[..|order| - 1], outcomes[..|order| - 1]);
    }
  }

  /** A successful run names exactly the groups, each after a Restore of this owner for it. */
  lemma {:induction false} CreateNames(before: seq<VeleroRestore>, owner: string, groups: map<string, seq<string>>,
                                       order: seq<string>, outcomes: seq<CreateOutcome>)
    requires Callable(groups, order, outcomes)
    ensures var c := Create(before, owner, groups, order, outcomes);
      c.names.Some? ==> (forall b :: b in c.names.value <==> b in order) && AllNamed(c.restores, owner, c.names.value)
  {
    if order != [] {
      var n := |order| - 1;
      CreateNames(before, owner, groups, order[..n], outcomes[..n]);
      var c := Create(before, owner, groups, order[..n], outcomes[..n]);
      var d := Create(before, owner, groups, order, outcomes);
      if d.names.Some? {
        AllNamedGrows(c.restores, d.restores, owner, c.names.value);
        assert order == order[..n] + [order[n]];
        NamedByCall(c.restores, owner, order[n], groups[order[n]], outcomes[n]);
      }
    }
  }

  lemma NamedByCall(restores: seq<VeleroRestore>, owner: string, backup: string, selector: seq<string>,
                    outcome: CreateOutcome)
    requires NameAfter(restores, owner, backup, outcome).Some?
    ensures NamesRestore(restores + Added(owner, backup, selector, outcome), owner, backup,
                         NameAfter(restores, owner, backup, outcome).value)
  {
    var after := restores + Added(owner, backup, selector, outcome);
    if outcome.Created? {
      assert after[|restores|].name == outcome.name;
    } else {
      var k :| 0 <= k < |restores| && FirstAt(restores, owner, backup, k)
               && restores[k].name == NameAfter(restores, owner, backup, outcome).value;
      assert after[k] == restores[k];
    }
  }

  function CountOwned(restores: seq<VeleroRestore>, owner: string, backup: string): nat {
    |Filter(restores, (v: VeleroRestore) => IsOwned(v, owner, backup))|
  }

  lemma CountAdded(restores: seq<VeleroRestore>, owner: string, b: string, selector: seq<string>,
                   outcome: CreateOutcome, backup: string)
    ensures CountOwned(restores + Added(owner, b, selector, outcome), owner, backup) ==
            CountOwned(restores, owner, backup) + (if outcome.Created? && b == backup then 1 else 0)
  {
    var added := Added(owner, b, selector, outcome);
    FilterAppend(restores, added, (v: VeleroRestore) => IsOwned(v, owner, backup));
    assert outcome.Created? ==> added[..0] == [];
  }

  lemma OwnedCount(restores: seq<VeleroRestore>, owner: string, backup: string)
    ensures CountOwned(restores, owner, backup) == 0 <==> FirstOwned(restores, owner, backup).None?
  {
    FilterMembers(restores, (v: VeleroRestore) => IsOwned(v, owner, backup));
    var kept := Filter(restores, (v: VeleroRestore) => IsOwned(v, owner, backup));
    assert kept != [] ==> kept[0] in kept;
    assert forall k :: 0 <= k < |restores| && IsOwned(restores[k], owner, backup) ==> restores[k] in kept;
  }

  /** Calls for other backups do not change how many Restores a backup has. */
  lemma {:induction false} OtherBackupsStay(before: seq<VeleroRestore>, owner: string, groups: map<string, seq<string>>,
                                            order: seq<string>, outcomes: seq<CreateOutcome>, backup: string)
    requires Callable(groups, order, outcomes) && backup !in order
    ensures CountOwned(Create(before, owner, groups, order, outcomes).restores, owner, backup) ==
            CountOwned(before, owner, backup)
  {
    if order != [] {
      var n := |order| - 1;
      OtherBackupsStay(before, owner, groups, order[..n], outcomes[..n], backup);
      CountAdded(Create(before, owner, groups, order[..n], outcomes[..n]).restores, owner, order[n], groups[order[n]],
                 outcomes[n], backup);
    }
  }

  /** A call succeeds when the server accepts it, or refuses it and a Restore of the backup is there. */
  predicate CallSucceeds(before: seq<VeleroRestore>, owner: string, backup: string, outcome: CreateOutcome) {
    outcome.Created? || (outcome.AlreadyExists? && FirstOwned(before, owner, backup).Some?)
  }

  /** The run succeeds exactly when each of its calls does, judged by the Restores there were before it. */
  lemma {:induction false} CreateSucceedsExactly(before: seq<VeleroRestore>, owner: string,
                                                 groups: map<string, seq<string>>,
                                                 order: seq<string>, outcomes: seq<CreateOutcome>)
    requires Callable(groups, order, outcomes) && Distinct(order)
    ensures Create(before, owner, groups, order, outcomes).names.Some? <==>
      forall j :: 0 <= j < |order| ==> CallSucceeds(before, owner, order[j], outcomes[j])
  {
    if order != [] {
      var n := |order| - 1;
      CreateSucceedsExactly(before, owner, groups, order[..n], outcomes[..n]);
      var c := Create(before, owner, groups, order[..n], outcomes[..n]);
      OtherBackupsStay(before, owner, groups, order[..n], outcomes[..n], order[n]);
      OwnedCount(before, owner, order[n]);
      OwnedCount(c.restores, owner, order[n]);
      assert forall j :: 0 <= j < n ==> order[..n][j] == order[j] && outcomes[..n][j] == outcomes[j];
    }
  }

  /**
   * After a successful run a backup has one Restore more if its call was accepted anew, and as many as before if
   * not.
   */
  lemma {:induction false} SuccessCounts(before: seq<VeleroRestore>, owner: string, groups: map<string, seq<string>>,
                                         order: seq<string>, outcomes: seq<CreateOutcome>, j: nat)
    requires Callable(groups, order, outcomes) && Distinct(order) && j < |order|
    requires Create(before, owner, groups, order, outcomes).names.Some?
    ensures CountOwned(Create(before, owner, groups, order, outcomes).restores, owner, order[j]) ==
            CountOwned(before, owner, order[j]) + (if outcomes[j].Created? then 1 else 0)
  {
    var n := |order| - 1;
    var c := Create(before, owner, groups, order[..n], outcomes[..n]);
    CountAdded(c.restores, owner, order[n], groups[order[n]], outcomes[n], order[j]);
    if j < n {
      SuccessCounts(before, owner, groups, order[..n], outcomes[..n], j);
    } else {
      OtherBackupsStay(before, owner, groups, order[..n], outcomes[..n], order[n]);
    }
  }

  /**
   * A successful run leaves a backup with exactly one Restore if and only if it had none and one was accepted, or had
   * one and that was adopted: an earlier, interrupted attempt that left one behind makes it two.
   */
  lemma OneRestorePerBackup(before: seq<VeleroRestore>, owner: string, groups: map<string, seq<string>>,
                            order: seq<string>,
                            outcomes: seq<CreateOutcome>, j: nat)
    requires Callable(groups, order, outcomes) && Distinct(order) && j < |order|
    requires forall k :: 0 <= k < |order| ==> CallSucceeds(before, owner, order[k], outcomes[k])
    ensures CountOwned(Create(before, owner, groups, order, outcomes).restores, owner, order[j]) == 1 <==>
            CountOwned(before, owner, order[j]) == if outcomes[j].Created? then 0 else 1
  {
    CreateSucceedsExactly(before, owner, groups, order, outcomes);
    SuccessCounts(before, owner, groups, order, outcomes, j);
  }

  /** A creation that was accepted but not recorded, repeated, leaves two Restores for one backup. */
  lemma RestartedCreationDuplicates(owner: string, backup: string, uids: seq<string>)
    ensures var groups := map[backup := uids];
            var attempt := Create([], owner, groups, [backup], [Created("first")]).restores;
            CountOwned(Create(attempt, owner, groups, [backup], [Created("second")]).restores, owner, backup) == 2
  {
    var groups := map[backup := uids];
    var attempt := Create([], owner, groups, [backup], [Created("first")]).restores;
    OneRestorePerBackup([], owner, groups, [backup], [Created("first")], 0);
    CreateSucceedsExactly(attempt, owner, groups, [backup], [Created("second")]);
    SuccessCounts(attempt, owner, groups, [backup], [Created("second")], 0);
  }

  // ----- Names of Restores

  function RestoreNameOf(v: VeleroRestore): string { v.name }

  /** Names are given out once. */
  ghost predicate NamesApart(restores: seq<VeleroRestore>) {
    Distinct(Map(restores, RestoreNameOf)) && forall k :: 0 <= k < |restores| ==> restores[k].name != ""
  }

  /** The server gives names that are not taken. */
  ghost predicate NamesNew(before: seq<VeleroRestore>, outcomes: seq<CreateOutcome>) {
    && (forall j :: 0 <= j < |outcomes| && outcomes[j].Created? ==>
          outcomes[j].name != "" && outcomes[j].name !in Map(before, RestoreNameOf))
    && (forall j, k :: 0 <= j < k < |outcomes| && outcomes[j].Created? && outcomes[k].Created? ==>
          outcomes[j].name != outcomes[k].name)
  }

  lemma {:induction false} CreateKeepsNamesApart(before: seq<VeleroRestore>, owner: string,
                                                 groups: map<string, seq<string>>,
                                                 order: seq<string>, outcomes: seq<CreateOutcome>)
    requires Callable(groups, order, outcomes) && NamesApart(before) && NamesNew(before, outcomes)
    ensures var after := Create(before, owner, groups, order, outcomes).restores;
      && NamesApart(after)
      && (forall v :: v in after ==> v in before || exists j :: 0 <= j < |outcomes| && outcomes[j] == Created(v.name))
  {
    if order != [] {
      var n := |order| - 1;
      CreateKeepsNamesApart(before, owner, groups, order[..n], outcomes[..n]);
      var c := Create(before, owner, groups, order[..n], outcomes[..n]);
      if c.names.Some? && outcomes[n].Created? {
        var added := Added(owner, order[n], groups[order[n]], outcomes[n]);
        forall k | 0 <= k < |c.restores| ensures c.restores[k].name != outcomes[n].name {
          NotTakenYet(before, c.restores[k], outcomes, n);
        }
        assert Map(c.restores + added, RestoreNameOf) == Map(c.restores, RestoreNameOf) + [outcomes[n].name];
      }
    }
  }

  lemma NotTakenYet(before: seq<VeleroRestore>, v: VeleroRestore, outcomes: seq<CreateOutcome>, n: nat)
    requires NamesNew(before, outcomes) && n < |outcomes| && outcomes[n].Created?
    requires v in before || exists j :: 0 <= j < n && outcomes[..n][j] == Created(v.name)
    ensures v.name != outcomes[n].name
  {
    if v in before {
      var k :| 0 <= k < |before| && before[k] == v;
      assert Map(before, RestoreNameOf)[k] == v.name;
    }
  }

  // ----- Recording the names

  function NameInfo(names: map<string, string>, namespace: string, x: RestoreInfo): RestoreInfo {
    if IsAvailable(x) && x.backup in names
    then x.(restoreName := names[x.backup], restoreNamespace := namespace, phase := RPNew)
    else x
  }

  function NameEntry(names: map<string, string>, namespace: string, e: PVCRestore): PVCRestore {
    if IsSynthetic(e) then e else e.(restores := Map(e.restores, x => NameInfo(names, namespace, x)))
  }

  method RecordEntryNames(entry: PVCRestore, names: map<string, string>, namespace: string) returns (after: PVCRestore)
    requires !IsSynthetic(entry)
    ensures after == NameEntry(names, namespace, entry)
  {
    after := entry;
    for j := 0 to |entry.restores|
      invariant after.pvc == entry.pvc && |after.restores| == |entry.restores|
      invariant forall k :: 0 <= k < |entry.restores| ==>
                  after.restores[k] == if k < j then NameInfo(names, namespace, entry.restores[k])
                                       else entry.restores[k]
    {
      var x := after.restores[j];
      if x.state == Available && x.backup in names {
        x := x.(restoreName := names[x.backup], restoreNamespace := namespace, phase := RPNew);
        after := after.(restores := after.restores[j := x]);
      }
    }
    assert after.restores == NameEntry(names, namespace, entry).restores;
  }

  method RecordNames(stored: seq<PVCRestore>, names: map<string, string>,
                     namespace: string) returns (after: seq<PVCRestore>)
    ensures after == Map(stored, e => NameEntry(names, namespace, e))
  {
    after := stored;
    for k := 0 to |stored|
      invariant |after| == |stored|
      invariant forall j :: 0 <= j < |stored| ==>
                  after[j] == if j < k then NameEntry(names, namespace, stored[j]) else stored[j]
    {
      if stored[k].pvc.name != RESERVED_NAME {
        var e := RecordEntryNames(stored[k], names, namespace);
        after := after[k := e];
      }
    }
    assert after == Map(stored, e => NameEntry(names, namespace, e));
  }
}
