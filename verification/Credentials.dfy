/** The credential Secrets of a file restore: clearing earlier ones, then preparing one per access method. */
module Credentials {
  import opened Collections

  /** A Secret; uid, kind and the copy label are "", "" and false when the labels are missing. */
  datatype Secret = Secret(
    namespace: string, name: string,
    uid: string, kind: string, managedCopy: bool,
    copiedFrom: Option<(string, string)>,
    data: string)

  type Id = (string, string)

  function IdOf(s: Secret): Id { (s.namespace, s.name) }

  const SSH := "ssh"
  const FILE_BROWSER := "filebrowser"

  /** Where the credentials of one access method come from. */
  datatype Origin = Reference(namespace: string, name: string) | Inline(key: string) | Generated

  datatype Owner = Owner(uid: string, restoreNamespace: string, oadpNamespace: string)

  /** The API server's part in one step, and the arbitrary outcome of key parsing and generation. */
  datatype Inputs = Inputs(
    listFails: bool,
    deleteFails: Id -> bool,
    copyListFails: string -> bool,
    createFails: string -> bool,
    newName: string -> string,        // the generated name per kind
    content: string -> Option<string>, // inline or generated content per kind; None if it is refused
    valid: (string, Secret) -> bool)   // the validator per kind

  /** A credential Secret of this restore. */
  predicate Ours(o: Owner, s: Secret) { s.namespace == o.restoreNamespace && s.uid == o.uid && s.kind != "" }

  function Others(o: Owner, secrets: seq<Secret>): seq<Secret> { Filter(secrets, s => !Ours(o, s)) }

  predicate HasLabels(o: Owner, kind: string, s: Secret) {
    s.namespace == o.restoreNamespace && s.uid == o.uid && s.kind == kind
  }

  /** What a lookup by this restore's UID and a kind lists. */
  function Labelled(o: Owner, kind: string, secrets: seq<Secret>): seq<Secret> { Filter(secrets,
                    s => HasLabels(o, kind, s)) }

  function SourceNamespace(o: Owner, origin: Origin): string
    requires origin.Reference?
  {
    if origin.namespace == "" then o.oadpNamespace else origin.namespace
  }

  /** A reference to a Secret that is already in the restore namespace. */
  predicate InPlace(o: Owner, origin: Origin) { origin.Reference? && SourceNamespace(o, origin) == o.restoreNamespace }

  ghost predicate UniqueIds(secrets: seq<Secret>) { Distinct(Map(secrets, IdOf)) }

  // ----- About stores

  lemma SameId(secrets: seq<Secret>, s: Secret, t: Secret)
    requires UniqueIds(secrets) && s in secrets && t in secrets && IdOf(s) == IdOf(t)
    ensures s == t
  {
    var i :| 0 <= i < |secrets| && secrets[i] == s;
    var j :| 0 <= j < |secrets| && secrets[j] == t;
    assert Map(secrets, IdOf)[i] == Map(secrets, IdOf)[j];
  }

  function Without(secrets: seq<Secret>, id: Id): seq<Secret> { Filter(secrets, s => IdOf(s) != id) }

  lemma DeletingOursKeepsOthers(o: Owner, secrets: seq<Secret>, gone: Secret)
    requires UniqueIds(secrets) && Ours(o, gone) && gone in secrets
    ensures Others(o, Without(secrets, IdOf(gone))) == Others(o, secrets)
    ensures UniqueIds(Without(secrets, IdOf(gone)))
    ensures gone !in Without(secrets, IdOf(gone))
    ensures forall s :: s in Without(secrets, IdOf(gone)) ==> s in secrets
  {
    var id := IdOf(gone);
    forall s | s in secrets && IdOf(s) == id ensures Ours(o, s) {
      SameId(secrets, s, gone);
    }
    FilterFilter(secrets, s => IdOf(s) != id, s => !Ours(o, s), s => !Ours(o, s));
    FilterDistinctBy(secrets, s => IdOf(s) != id, IdOf);
    FilterMembers(secrets, s => IdOf(s) != id);
  }

  lemma DeletingNothing(secrets: seq<Secret>, id: Id)
    requires forall s :: s in secrets ==> IdOf(s) != id
    ensures Without(secrets, id) == secrets
  {
    FilterAll(secrets, s => IdOf(s) != id);
  }

  /** After clearing, nothing is labelled for any kind. */
  lemma OthersAreUnlabelled(o: Owner, secrets: seq<Secret>, kind: string)
    requires kind != ""
    ensures Labelled(o, kind, Others(o, secrets)) == []
  {
    FilterMembers(secrets, s => !Ours(o, s));
    FilterNone(Others(o, secrets), s => HasLabels(o, kind, s));
  }

  lemma LabelledAppend(o: Owner, kind: string, secrets: seq<Secret>, s: Secret)
    ensures Labelled(o, kind, secrets + [s]) == Labelled(o, kind, secrets) + (if HasLabels(o, kind, s) then [s] else [])
  {
    assert (secrets + [s])[..|secrets|] == secrets;
  }

  lemma OthersAppend(o: Owner, secrets: seq<Secret>, s: Secret)
    requires Ours(o, s)
    ensures Others(o, secrets + [s]) == Others(o, secrets)
  {
    assert (secrets + [s])[..|secrets|] == secrets;
  }

  lemma OthersOfOthers(o: Owner, secrets: seq<Secret>)
    ensures Others(o, Others(o, secrets)) == Others(o, secrets)
  {
    FilterFilter(secrets, s => !Ours(o, s), s => !Ours(o, s), s => !Ours(o, s));
  }

  lemma UniqueAppend(secrets: seq<Secret>, s: Secret)
    requires UniqueIds(secrets) && forall t :: t in secrets ==> IdOf(t) != IdOf(s)
    ensures UniqueIds(secrets + [s])
  {
    forall i | 0 <= i < |secrets| ensures Map(secrets, IdOf)[i] != IdOf(s) {
      assert secrets[i] in secrets;
    }
    assert Map(secrets + [s], IdOf) == Map(secrets, IdOf) + [IdOf(s)];
  }

  /** If nothing but others is left, the store is what it was without this restore's credentials. */
  lemma OnlyOthersLeft(o: Owner, secrets: seq<Secret>)
    requires forall s :: s in secrets ==> !Ours(o, s)
    ensures Others(o, secrets) == secrets
  {
    FilterAll(secrets, s => !Ours(o, s));
  }
}
