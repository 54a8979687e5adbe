/** The Secrets of the cluster, changed by the credential step call by call. */
module CredentialStore {
  import opened Collections
  import opened Credentials

  // ----- One access method

  /** The Secret with this namespace and name. */
  function Lookup(secrets: seq<Secret>, id: Id): Option<Secret> {
    if secrets == [] then None
    else
      var earlier, last := Lookup(secrets[..|secrets| - 1], id), secrets[|secrets| - 1];
      if earlier.Some? then earlier else if IdOf(last) == id then Some(last) else None
  }

  predicate IsCopyOf(o: Owner, kind: string, source: Id, s: Secret) {
    HasLabels(o, kind, s) && s.managedCopy && s.copiedFrom == Some(source)
  }

  /** The first copy of the source that an earlier run made for the kind. */
  function EarlierCopy(o: Owner, kind: string, source: Id, secrets: seq<Secret>): Option<Secret> {
    var copies := Filter(secrets, s => IsCopyOf(o, kind, source, s));
    if copies == [] then None else Some(copies[0])
  }

  function SourceId(o: Owner, origin: Origin): Id
    requires origin.Reference?
  {
    (SourceNamespace(o, origin), origin.name)
  }

  /** The source exists and is valid; it is used in place, or a valid copy is there, or one can be made. */
  predicate CanUse(o: Owner, kind: string, origin: Origin, i: Inputs, secrets: seq<Secret>)
    requires origin.Reference?
  {
    var source := Lookup(secrets, SourceId(o, origin));
    && source.Some? && i.valid(kind, source.value)
    && (InPlace(o, origin)
        || (!i.copyListFails(kind)
            && var copy := EarlierCopy(o, kind, SourceId(o, origin), secrets);
            if copy.Some? then i.valid(kind, copy.value) else !i.createFails(kind)))
  }

  /** The name the file server would use, and the Secrets afterwards. */
  datatype Preparation = Preparation(name: string, secrets: seq<Secret>)

  function UseReference(o: Owner, kind: string, origin: Origin, i: Inputs, secrets: seq<Secret>): Preparation
    requires origin.Reference? && CanUse(o, kind, origin, i, secrets)
  {
    var source, copy := SourceId(o, origin), EarlierCopy(o, kind, SourceId(o, origin), secrets);
    if InPlace(o, origin) then Preparation(origin.name, secrets)
    else if copy.Some? then Preparation(copy.value.name, secrets)
    else
      Preparation(i.newName(kind),
                  secrets + [Secret(o.restoreNamespace, i.newName(kind), o.uid, kind, true, Some(source),
                                    Lookup(secrets, source).value.data)])
  }

  /** When preparing an access method succeeds; None: it is not enabled. */
  predicate CanPrepare(o: Owner, kind: string, origin: Option<Origin>, i: Inputs, secrets: seq<Secret>) {
    origin.None?
    || (if origin.value.Reference? then CanUse(o, kind, origin.value, i, secrets)
        else i.content(kind).Some? && !i.createFails(kind))
  }

  function Prepare(o: Owner, kind: string, origin: Option<Origin>, i: Inputs, secrets: seq<Secret>): seq<Secret>
    requires CanPrepare(o, kind, origin, i, secrets)
  {
    if origin.None? then secrets
    else if origin.value.Reference? then UseReference(o, kind, origin.value, i, secrets).secrets
    else secrets + [Secret(o.restoreNamespace, i.newName(kind), o.uid, kind, false, None, i.content(kind).value)]
  }

  lemma {:induction false} LookupStays(secrets: seq<Secret>, id: Id, k: nat)
    requires k <= |secrets| && Lookup(secrets[..k], id).Some?
    ensures Lookup(secrets, id) == Lookup(secrets[..k], id)
  {
    if k == |secrets| {
      assert secrets[..k] == secrets;
    } else {
      assert secrets[..|secrets| - 1][..k] == secrets[..k];
      LookupStays(secrets[..|secrets| - 1], id, k);
    }
  }

  lemma NoCopyUnlabelled(o: Owner, kind: string, source: Id, secrets: seq<Secret>)
    requires Labelled(o, kind, secrets) == []
    ensures EarlierCopy(o, kind, source, secrets).None?
  {
    FilterMembers(secrets, s => HasLabels(o, kind, s));
    FilterNone(secrets, s => IsCopyOf(o, kind, source, s));
  }

  // ----- The whole step

  /** The listing works and none of this restore's credential Secrets refuses to be deleted. */
  ghost predicate CanClear(o: Owner, i: Inputs, secrets: seq<Secret>) {
    !i.listFails && forall s :: s in secrets && Ours(o, s) ==> !i.deleteFails(IdOf(s))
  }

  /** When the step succeeds: SSH is prepared on top of the other Secrets, FileBrowser on top of that. */
  ghost predicate Succeeds(o: Owner, ssh: Option<Origin>, fileBrowser: Option<Origin>, i: Inputs,
                           secrets: seq<Secret>) {
    && o.restoreNamespace != "" && (ssh.Some? || fileBrowser.Some?)
    && CanClear(o, i, secrets)
    && CanPrepare(o, SSH, ssh, i, Others(o, secrets))
    && CanPrepare(o, FILE_BROWSER, fileBrowser, i, Prepare(o, SSH, ssh, i, Others(o, secrets)))
  }

  ghost function Outcome(o: Owner, ssh: Option<Origin>, fileBrowser: Option<Origin>, i: Inputs,
                         secrets: seq<Secret>): seq<Secret>
    requires Succeeds(o, ssh, fileBrowser, i, secrets)
  {
    Prepare(o, FILE_BROWSER, fileBrowser, i, Prepare(o, SSH, ssh, i, Others(o, secrets)))
  }

  class SecretStore {
    var secrets: seq<Secret>

    constructor (initial: seq<Secret>)
      ensures secrets == initial
    {
      secrets := initial;
    }

    method Get(id: Id) returns (found: Option<Secret>)
      ensures found == Lookup(secrets, id)
    {
      for k := 0 to |secrets|
        invariant Lookup(secrets[..k], id).None?
      {
        assert secrets[..k + 1][..k] == secrets[..k];
        if (secrets[k].namespace, secrets[k].name) == id {
          LookupStays(secrets, id, k + 1);
          return Some(secrets[k]);
        }
      }
      assert secrets[..|secrets|] == secrets;
      return None;
    }

    /** Deletes by name; a Secret that is already gone is no error. */
    method Delete(id: Id, fails: bool) returns (ok: bool)
      modifies this
      ensures ok == !fails
      ensures secrets == if fails then old(secrets) else Without(old(secrets), id)
    {
      if fails { return false; }
      secrets := Without(secrets, id);
      return true;
    }

    method Create(s: Secret, fails: bool) returns (ok: bool)
      modifies this
      ensures ok == !fails
      ensures secrets == if fails then old(secrets) else old(secrets) + [s]
    {
      if fails { return false; }
      secrets := secrets + [s];
      return true;
    }

    /**
     * Succeeds exactly when every credential Secret of the restore can be deleted, and then leaves the others only;
     * whatever deletion fails, the others stay as they are.
     */
    method CleanupAllCredentialSecrets(o: Owner, i: Inputs) returns (ok: bool)
      requires UniqueIds(secrets)
      modifies this
      ensures UniqueIds(secrets) && Others(o, secrets) == Others(o, old(secrets))
      ensures forall s :: s in secrets ==> s in old(secrets)
      ensures ok <==> CanClear(o, i, old(secrets))
      ensures ok ==> secrets == Others(o, old(secrets))
    {
      if i.listFails { return false; }
      var listed := Filter(secrets, (s: Secret) => s.namespace == o.restoreNamespace && s.uid == o.uid);
      FilterMembers(secrets, (s: Secret) => s.namespace == o.restoreNamespace && s.uid == o.uid);
      for k := 0 to |listed|
        invariant UniqueIds(secrets) && Others(o, secrets) == Others(o, old(secrets))
        invariant forall s :: s in secrets ==> s in old(secrets)
        invariant forall j :: 0 <= j < k && listed[j].kind != "" ==>
          listed[j] !in secrets && !i.deleteFails(IdOf(listed[j]))
      {
        var s := listed[k];
        assert s in listed;
        if s.kind == "" { continue; }
        RemovalStep(o, old(secrets), secrets, s);
        var deleted := Delete((s.namespace, s.name), i.deleteFails(IdOf(s)));
        if !deleted { return false; }
      }
      forall s | s in secrets ensures !Ours(o, s) {
        assert Ours(o, s) ==> s in listed;
      }
      OnlyOthersLeft(o, secrets);
      forall s | s in old(secrets) && Ours(o, s) ensures !i.deleteFails(IdOf(s)) {
        assert s in listed;
      }
      return true;
    }

    /** Uses the referenced Secret where it is, finds an earlier copy of it, or makes one. */
    method EnsureSecretInRestoreNamespace(o: Owner, kind: string, origin: Origin,
                                          i: Inputs) returns (name: Option<string>)
      requires origin.Reference?
      modifies this
      ensures name.Some? <==> CanUse(o, kind, origin, i, old(secrets))
      ensures name.Some? ==> Preparation(name.value, secrets) == UseReference(o, kind, origin, i, old(secrets))
      ensures name.None? ==> secrets == old(secrets)
    {
      var from := if origin.namespace == "" then o.oadpNamespace else origin.namespace;
      var source := Get((from, origin.name));
      if source.None? || !i.valid(kind, source.value) { return None; }
      if from == o.restoreNamespace { return Some(origin.name); }
      if i.copyListFails(kind) { return None; }
      var copy := FindCopy(o, kind, (from, origin.name));
      if copy.Some? { return if i.valid(kind, copy.value) then Some(copy.value.name) else None; }
      var data := source.value.data;
      var made := Secret(o.restoreNamespace, i.newName(kind), o.uid, kind, true, Some((from, origin.name)), data);
      var ok := Create(made, i.createFails(kind));
      return if ok then Some(i.newName(kind)) else None;
    }

    /** The loop over the copies made for the kind. */
    method FindCopy(o: Owner, kind: string, source: Id) returns (found: Option<Secret>)
      ensures found == EarlierCopy(o, kind, source, secrets)
    {
      var p, q := (s: Secret) => HasLabels(o, kind, s) && s.managedCopy, (s: Secret) => s.copiedFrom == Some(source);
      var copies := Filter(secrets, p);
      FilterFilter(secrets, p, q, s => IsCopyOf(o, kind, source, s));
      for k := 0 to |copies|
        invariant Filter(copies[..k], q) == []
      {
        assert copies[..k + 1][..k] == copies[..k];
        if copies[k].copiedFrom == Some(source) {
          FilterAppend(copies[..k + 1], copies[k + 1..], q);
          assert copies[..k + 1] + copies[k + 1..] == copies;
          return Some(copies[k]);
        }
      }
      assert copies[..|copies|] == copies;
      return None;
    }

    /** Prepares the Secret of one access method. */
    method EnsureMethod(o: Owner, kind: string, origin: Origin, i: Inputs) returns (ok: bool)
      modifies this
      ensures ok <==> CanPrepare(o, kind, Some(origin), i, old(secrets))
      ensures secrets == if ok then Prepare(o, kind, Some(origin), i, old(secrets)) else old(secrets)
    {
      if origin.Reference? {
        var name := EnsureSecretInRestoreNamespace(o, kind, origin, i);
        return name.Some?;
      }
      if i.content(kind).None? { return false; }
      var s := Secret(o.restoreNamespace, i.newName(kind), o.uid, kind, false, None, i.content(kind).value);
      ok := Create(s, i.createFails(kind));
    }

    /** From any store: exactly when the step succeeds, what it leaves, and that the other Secrets stay in any case. */
    method EnsureCredentials(o: Owner, ssh: Option<Origin>, fileBrowser: Option<Origin>, i: Inputs) returns (ok: bool)
      requires UniqueIds(secrets) && NamesUnused(o, i, secrets)
      modifies this
      ensures UniqueIds(secrets) && Others(o, secrets) == Others(o, old(secrets))
      ensures ok <==> Succeeds(o, ssh, fileBrowser, i, old(secrets))
      ensures ok ==> secrets == Outcome(o, ssh, fileBrowser, i, old(secrets))
    {
      if o.restoreNamespace == "" || (ssh.None? && fileBrowser.None?) { return false; }
      ok := CleanupAllCredentialSecrets(o, i);
      if !ok { return; }
      ghost var cleared := secrets;
      OthersOfOthers(o, old(secrets));
      OthersAreUnlabelled(o, old(secrets), SSH);
      OthersAreUnlabelled(o, old(secrets), FILE_BROWSER);
      if ssh.Some? {
        ok := EnsureMethod(o, SSH, ssh.value, i);
        if !ok { return; }
      }
      ghost var halfway := secrets;
      MethodEffect(o, SSH, ssh, i, cleared, FILE_BROWSER);
      MethodKeepsIds(o, SSH, ssh, i, cleared);
      if fileBrowser.Some? {
        ok := EnsureMethod(o, FILE_BROWSER, fileBrowser.value, i);
        if !ok { return; }
      }
      MethodEffect(o, FILE_BROWSER, fileBrowser, i, halfway, SSH);
      MethodKeepsIds(o, FILE_BROWSER, fileBrowser, i, halfway);
    }

    /** The first Secret labelled for the kind. */
    method FindSecretByLabels(o: Owner, kind: string) returns (found: Option<string>)
      ensures found.None? <==> Labelled(o, kind, secrets) == []
      ensures found.Some? ==> found.value == Labelled(o, kind, secrets)[0].name
    {
      var listed := Filter(secrets, s => HasLabels(o, kind, s));
      return if |listed| == 0 then None else Some(listed[0].name);
    }
  }

  /** The API server generates names that are not taken. */
  ghost predicate NamesUnused(o: Owner, i: Inputs, secrets: seq<Secret>) {
    && i.newName(SSH) != i.newName(FILE_BROWSER)
    && (forall s :: s in secrets ==> IdOf(s) != (o.restoreNamespace, i.newName(SSH)))
    && (forall s :: s in secrets ==> IdOf(s) != (o.restoreNamespace, i.newName(FILE_BROWSER)))
  }

  predicate NeedsSecret(o: Owner, origin: Option<Origin>) { origin.Some? && !InPlace(o, origin.value) }

  /** On a store without Secrets for the kind, a method that needs one gets one, labelled for it. */
  lemma MethodAdds(o: Owner, kind: string, origin: Option<Origin>, i: Inputs, before: seq<Secret>)
    requires CanPrepare(o, kind, origin, i, before) && Labelled(o, kind, before) == []
    ensures var after := Prepare(o, kind, origin, i, before);
      if NeedsSecret(o, origin)
      then |after| == |before| + 1 && after == before + [after[|before|]]
           && HasLabels(o, kind, after[|before|]) && after[|before|].name == i.newName(kind)
      else after == before
  {
    if origin.Some? && origin.value.Reference? { NoCopyUnlabelled(o, kind, SourceId(o, origin.value), before); }
  }

  lemma MethodKeepsIds(o: Owner, kind: string, origin: Option<Origin>, i: Inputs, before: seq<Secret>)
    requires CanPrepare(o, kind, origin, i, before) && Labelled(o, kind, before) == [] && UniqueIds(before)
    requires forall s :: s in before ==> IdOf(s) != (o.restoreNamespace, i.newName(kind))
    ensures var after := Prepare(o, kind, origin, i, before);
      UniqueIds(after) && forall s :: s in after ==> s in before || IdOf(s) == (o.restoreNamespace, i.newName(kind))
  {
    MethodAdds(o, kind, origin, i, before);
    if NeedsSecret(o, origin) { UniqueAppend(before, Prepare(o, kind, origin, i, before)[|before|]); }
  }

  lemma MethodEffect(o: Owner, kind: string, origin: Option<Origin>, i: Inputs, before: seq<Secret>, other: string)
    requires CanPrepare(o, kind, origin, i, before) && Labelled(o, kind, before) == [] && kind != "" && other != kind
    ensures var after := Prepare(o, kind, origin, i, before);
      && |Labelled(o, kind, after)| == (if NeedsSecret(o, origin) then 1 else 0)
      && Labelled(o, other, after) == Labelled(o, other, before)
      && Others(o, after) == Others(o, before)
  {
    MethodAdds(o, kind, origin, i, before);
    if NeedsSecret(o, origin) {
      var s := Prepare(o, kind, origin, i, before)[|before|];
      LabelledAppend(o, kind, before, s);
      LabelledAppend(o, other, before, s);
      OthersAppend(o, before, s);
    }
  }

  /**
   * After a successful step the lookup by labels finds exactly one Secret for a method, except when the method's
   * credentials are a reference into the restore namespace: then it finds none.
   */
  lemma LookupIsUnambiguous(o: Owner, ssh: Option<Origin>, fileBrowser: Option<Origin>, i: Inputs, start: seq<Secret>)
    requires Succeeds(o, ssh, fileBrowser, i, start)
    ensures var after := Outcome(o, ssh, fileBrowser, i, start);
      && |Labelled(o, SSH, after)| == (if NeedsSecret(o, ssh) then 1 else 0)
      && |Labelled(o, FILE_BROWSER, after)| == (if NeedsSecret(o, fileBrowser) then 1 else 0)
      && Others(o, after) == Others(o, start)
  {
    var others := Others(o, start);
    OthersAreUnlabelled(o, start, SSH);
    OthersAreUnlabelled(o, start, FILE_BROWSER);
    OthersOfOthers(o, start);
    MethodEffect(o, SSH, ssh, i, others, FILE_BROWSER);
    MethodEffect(o, FILE_BROWSER, fileBrowser, i, Prepare(o, SSH, ssh, i, others), SSH);
  }

  /** The Secret a reference means, in the OADP namespace unless it says otherwise, and valid for the kind. */
  predicate IsSource(o: Owner, kind: string, origin: Origin, i: Inputs, s: Secret) {
    && origin.Reference? && s.name == origin.name
    && s.namespace == (if origin.namespace == "" then o.oadpNamespace else origin.namespace) && i.valid(kind, s)
  }

  /** The content a method's credentials have: the source's, or what was given or generated. */
  ghost predicate Carries(o: Owner, kind: string, origin: Origin, i: Inputs, start: seq<Secret>, s: Secret) {
    && s.namespace == o.restoreNamespace && s.uid == o.uid && s.kind == kind && s.name == i.newName(kind)
    && if origin.Reference? then
         exists k :: 0 <= k < |start| && s.data == start[k].data && IsSource(o, kind, origin, i, start[k])
       else i.content(kind) == Some(s.data)
  }

  lemma {:induction false} LookupFinds(secrets: seq<Secret>, id: Id)
    requires Lookup(secrets, id).Some?
    ensures exists k :: 0 <= k < |secrets| && secrets[k] == Lookup(secrets, id).value && IdOf(secrets[k]) == id
  {
    var n := |secrets| - 1;
    if Lookup(secrets[..n], id).Some? {
      LookupFinds(secrets[..n], id);
      var k :| 0 <= k < n && secrets[..n][k] == Lookup(secrets[..n], id).value && IdOf(secrets[..n][k]) == id;
      assert secrets[k] == secrets[..n][k];
    } else {
      assert secrets[n] == Lookup(secrets, id).value;
    }
  }

  lemma MethodCarries(o: Owner, kind: string, origin: Origin, i: Inputs, before: seq<Secret>)
    requires CanPrepare(o, kind, Some(origin), i, before) && Labelled(o, kind, before) == [] && !InPlace(o, origin)
    ensures var after := Prepare(o, kind, Some(origin), i, before);
      |Labelled(o, kind, after)| == 1 && Carries(o, kind, origin, i, before, Labelled(o, kind, after)[0])
  {
    MethodAdds(o, kind, Some(origin), i, before);
    var s := Prepare(o, kind, Some(origin), i, before)[|before|];
    LabelledAppend(o, kind, before, s);
    if origin.Reference? {
      NoCopyUnlabelled(o, kind, SourceId(o, origin), before);
      LookupFinds(before, SourceId(o, origin));
    }
  }

  lemma CarriesFromStart(o: Owner, kind: string, origin: Origin, i: Inputs, others: seq<Secret>, start: seq<Secret>,
                         s: Secret)
    requires Carries(o, kind, origin, i, others, s) && forall t :: t in others ==> t in start
    ensures Carries(o, kind, origin, i, start, s)
  {
    if origin.Reference? {
      var k :| 0 <= k < |others| && s.data == others[k].data && IsSource(o, kind, origin, i, others[k]);
      assert others[k] in start;
      var m :| 0 <= m < |start| && start[m] == others[k];
    }
  }

  lemma {:induction false} LookupById(secrets: seq<Secret>, k: nat)
    requires UniqueIds(secrets) && k < |secrets|
    ensures Lookup(secrets, IdOf(secrets[k])) == Some(secrets[k])
  {
    var n := |secrets| - 1;
    var id := IdOf(secrets[k]);
    assert Map(secrets[..n], IdOf) == Map(secrets, IdOf)[..n];
    if k < n {
      LookupById(secrets[..n], k);
    } else {
      forall j | 0 <= j < n ensures IdOf(secrets[..n][j]) != id {
        assert Map(secrets, IdOf)[j] != Map(secrets, IdOf)[n];
      }
      LookupMisses(secrets[..n], id);
    }
  }

  lemma {:induction false} LookupMisses(secrets: seq<Secret>, id: Id)
    requires forall j :: 0 <= j < |secrets| ==> IdOf(secrets[j]) != id
    ensures Lookup(secrets, id).None?
  {
    if secrets != [] { LookupMisses(secrets[..|secrets| - 1], id); }
  }

  /**
   * Credentials by reference can be prepared on a store without any exactly when a valid source is there and is in
   * the restore namespace already or can be copied.
   */
  lemma ReferenceWorksExactly(o: Owner, kind: string, origin: Origin, i: Inputs, before: seq<Secret>)
    requires origin.Reference? && UniqueIds(before) && Labelled(o, kind, before) == []
    ensures CanPrepare(o, kind, Some(origin), i, before) <==>
      && (exists k :: 0 <= k < |before| && IsSource(o, kind, origin, i, before[k]))
      && (InPlace(o, origin) || (!i.copyListFails(kind) && !i.createFails(kind)))
  {
    NoCopyUnlabelled(o, kind, SourceId(o, origin), before);
    if Lookup(before, SourceId(o, origin)).Some? { LookupFinds(before, SourceId(o, origin)); }
    if k :| 0 <= k < |before| && IsSource(o, kind, origin, i, before[k]) { LookupById(before, k); }
  }

  /**
   * For either method alone, the Secret a lookup finds after a successful step has the content that was referenced,
   * given or generated.
   */
  lemma LookupFindsTheContent(o: Owner, origin: Origin, i: Inputs, start: seq<Secret>)
    requires !InPlace(o, origin)
    ensures Succeeds(o, Some(origin), None, i, start) ==>
      var found := Labelled(o, SSH, Outcome(o, Some(origin), None, i, start));
      |found| == 1 && Carries(o, SSH, origin, i, start, found[0])
    ensures Succeeds(o, None, Some(origin), i, start) ==>
      var found := Labelled(o, FILE_BROWSER, Outcome(o, None, Some(origin), i, start));
      |found| == 1 && Carries(o, FILE_BROWSER, origin, i, start, found[0])
  {
    var others := Others(o, start);
    FilterMembers(start, s => !Ours(o, s));
    OthersAreUnlabelled(o, start, SSH);
    OthersAreUnlabelled(o, start, FILE_BROWSER);
    if Succeeds(o, Some(origin), None, i, start) {
      MethodCarries(o, SSH, origin, i, others);
      CarriesFromStart(o, SSH, origin, i, others, start, Labelled(o, SSH, Prepare(o, SSH, Some(origin), i, others))[0]);
    }
    if Succeeds(o, None, Some(origin), i, start) {
      var after := Prepare(o, FILE_BROWSER, Some(origin), i, others);
      MethodCarries(o, FILE_BROWSER, origin, i, others);
      CarriesFromStart(o, FILE_BROWSER, origin, i, others, start, Labelled(o, FILE_BROWSER, after)[0]);
    }
  }

  /**
   * A user's Secret in the restore namespace, referenced for SSH: the step succeeds and the lookup that follows
   * fails.
   */
  method InPlaceReferenceIsNotFound() returns (ok: bool, found: Option<string>)
    ensures ok && found.None?
  {
    var o := Owner("uid", "team", "oadp");
    var start := [Secret("team", "mine", "", "", false, None, "key")];
    var i := Inputs(false, _ => false, _ => false, _ => false, kind => kind, _ => None, (_, _) => true);
    var store := new SecretStore(start);
    var ssh := Some(Reference("team", "mine"));
    assert start[..0] == [];
    assert Others(o, start) == start && Lookup(start, ("team", "mine")) == Some(start[0]);
    LookupIsUnambiguous(o, ssh, None, i, start);
    ok := store.EnsureCredentials(o, ssh, None, i);
    found := store.FindSecretByLabels(o, SSH);
  }

  lemma RemovalStep(o: Owner, start: seq<Secret>, secrets: seq<Secret>, gone: Secret)
    requires UniqueIds(start) && UniqueIds(secrets) && Ours(o, gone) && gone in start
    requires Others(o, secrets) == Others(o, start) && (forall s :: s in secrets ==> s in start)
    ensures Others(o, Without(secrets, IdOf(gone))) == Others(o, start)
    ensures UniqueIds(Without(secrets, IdOf(gone)))
    ensures gone !in Without(secrets, IdOf(gone))
    ensures forall s :: s in Without(secrets, IdOf(gone)) ==> s in secrets
  {
    if gone in secrets {
      DeletingOursKeepsOthers(o, secrets, gone);
    } else {
      forall s | s in secrets ensures IdOf(s) != IdOf(gone) {
        if IdOf(s) == IdOf(gone) { SameId(start, s, gone); }
      }
      DeletingNothing(secrets, IdOf(gone));
    }
  }
}
