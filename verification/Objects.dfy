/** The object store and the typed entities read from it. */
module Objects {
  import opened Graph

  /** Bytes, each read as the character of the same code. */
  type Bytes = string

  datatype Option<+T> = None | Some(value: T) {
    predicate IsFailure() {
      None?
    }

    function PropagateFailure<U>(): Option<U> {
      None
    }

    function Extract(): T
      requires Some?
    {
      value
    }
  }

  datatype Result<+T, +E> = Ok(value: T) | Err(error: E)

  datatype Status = Pass | Fail | Error

  datatype Provenance = AdminRegistered | SelfAttested

  datatype MemberState = Active | Revoked

  datatype Member = Member(id: string, key: string, state: MemberState, provenance: Provenance)

  datatype Config = Config(epoch: Option<nat>)

  datatype ResultRecord = ResultRecord(effect: string, target: Oid, status: Status)

  datatype EntryKind = TreeEntry | BlobEntry | ExecutableEntry | LinkEntry | CommitEntry

  datatype Entry = Entry(name: string, kind: EntryKind, oid: Oid)

  /** What decoding a tree as each entity type yields.  Decoding depends on the tree alone, so the outcome is kept
      beside the entries; `fields` holds the blob behind every top-level entry. */
  datatype Typed = Typed(
    fields: map<string, Bytes>,
    member: Option<Member>,
    config: Option<Config>,
    result: Option<ResultRecord>,
    claim: bool)

  datatype Object =
    | Commit(tree: Oid, parents: seq<Oid>, raw: Bytes)
    | Tree(entries: seq<Entry>, typed: Typed)
    | Blob(data: Bytes)
    | Tag
    | Corrupt(isCommit: bool)   // bytes that do not parse as the commit or tree they claim to be

  /** Refnames and their tips. */
  type Refs = map<string, Oid>

  function Tip(refs: Refs, name: string): Option<Oid> {
    if name in refs then Some(refs[name]) else None
  }

  /** Immutable and content-addressed: a store only ever gains objects. */
  type Store = map<Oid, Object>

  ghost predicate StoreGrows(s: Store, s': Store) {
    forall o :: o in s ==> o in s' && s'[o] == s[o]
  }

  /** The commits of a store, by parent edges. */
  function CommitGraph(s: Store): (g: Commits)
    ensures forall o :: o in g <==> o in s && s[o].Commit?
    ensures forall o :: o in g ==> g[o] == s[o].parents
  {
    map o | o in s && s[o].Commit? :: s[o].parents
  }

  lemma GraphGrows(s: Store, s': Store)
    requires StoreGrows(s, s')
    ensures Grows(CommitGraph(s), CommitGraph(s'))
  {
    var g, g' := CommitGraph(s), CommitGraph(s');
    forall x | x in g
      ensures x in g' && g'[x] == g[x]
    {
      assert x in s && x in s';
    }
  }
}
