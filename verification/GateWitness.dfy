/** One small repository, with one admin enrolled and sealed configs with and without an epoch, on which runs of the
    gate can be played through. */
module GateWitness {
  import opened Graph
  import opened Objects
  import opened Text
  import opened Namespace
  import opened GateObjects
  import opened Gate
  import opened GateLaws
  import opened GateRuns
  import opened GateSafety
  import Signature

  /** Every signature checks out, and every text and refname is valid. */
  const ENV := Env((key: string, payload: Bytes, sig: string) => true, (raw: Bytes) => true, (name: string) => true)

  function Id(digit: char): (o: Oid)
    ensures |o.hex| == 40 && o.hex[0] == digit && forall c :: c in o.hex ==> c == digit
  {
    Oid(seq(40, _ => digit))
  }

  // Trees: a member entity, a config without an epoch, a config with one.
  const MEMBER_TREE := Id('1')
  const PLAIN_TREE := Id('2')
  const EPOCH_TREE := Id('3')
  // Commits: the member's, two unrelated plain configs, and an epoch on top of the second.
  const MEMBER_TIP := Id('4')
  const PLAIN_A := Id('5')
  const PLAIN_B := Id('6')
  const EPOCH_ON_B := Id('7')
  // Commits: an epoch, and two more on top of it, side by side.
  const EPOCH := Id('8')
  const EPOCH_LEFT := Id('9')
  const EPOCH_RIGHT := Id('a')

  const ADMIN := Member("jo", "key", Active, AdminRegistered)

  const ADMIN_REF := MEMBERS + "jo"

  function HeadersOf(tree: Oid, parents: seq<Oid>): seq<string> {
    ["tree " + tree.hex] + ParentHeaders(parents) + ["author jo", "committer jo"]
  }

  function ParentHeaders(parents: seq<Oid>): seq<string> {
    if parents == [] then [] else ["parent " + parents[0].hex] + ParentHeaders(parents[1..])
  }

  /** A commit sealed as the source seals one. */
  function Sealed(tree: Oid, parents: seq<Oid>, message: string): Object {
    Commit(tree, parents, Signature.Signed(HeadersOf(tree, parents), message, (payload: Bytes) => "signed by jo"))
  }

  const STORE: Store := map[
    MEMBER_TREE := Tree([], Typed(map["id" := "jo"], Some(ADMIN), None, None, false)),
    PLAIN_TREE := Tree([], Typed(map[], None, Some(Config(None)), None, false)),
    EPOCH_TREE := Tree([], Typed(map[], None, Some(Config(Some(200))), None, false)),
    MEMBER_TIP := Sealed(MEMBER_TREE, [], "Enroll jo"),
    PLAIN_A := Sealed(PLAIN_TREE, [], "Configure"),
    PLAIN_B := Sealed(PLAIN_TREE, [], "Configure afresh"),
    EPOCH_ON_B := Sealed(EPOCH_TREE, [PLAIN_B], "Record the epoch"),
    EPOCH := Sealed(EPOCH_TREE, [], "Record the epoch"),
    EPOCH_LEFT := Sealed(EPOCH_TREE, [EPOCH], "One change"),
    EPOCH_RIGHT := Sealed(EPOCH_TREE, [EPOCH], "Another change")]

  /** The admin is enrolled, and the config is `tip`. */
  function Under(tip: Oid): Refs {
    map[ADMIN_REF := MEMBER_TIP, CONFIG_REF := tip]
  }

  lemma PutConfig(under: Oid, tip: Oid)
    ensures Put(Under(under), CONFIG_REF, Some(tip)) == Under(tip)
    ensures Tip(Under(under), CONFIG_REF) == Some(under)
  {
  }

  predicate IsConfig(tip: Oid) {
    tip in {PLAIN_A, PLAIN_B, EPOCH_ON_B, EPOCH, EPOCH_LEFT, EPOCH_RIGHT}
  }

  predicate HasEpoch(tip: Oid) {
    tip in {EPOCH_ON_B, EPOCH, EPOCH_LEFT, EPOCH_RIGHT}
  }

  function ParentOf(tip: Oid): Option<Oid> {
    if tip == EPOCH_ON_B then Some(PLAIN_B)
    else if tip in {EPOCH_LEFT, EPOCH_RIGHT} then Some(EPOCH)
    else None
  }

  lemma Stored(tip: Oid)
    requires IsConfig(tip)
    ensures tip in STORE && STORE[tip].Commit?
    ensures STORE[tip].parents == if ParentOf(tip).Some? then [ParentOf(tip).value] else []
    ensures STORE[tip].tree == if HasEpoch(tip) then EPOCH_TREE else PLAIN_TREE
    ensures exists message :: STORE[tip] == Sealed(STORE[tip].tree, STORE[tip].parents, message)
    ensures ParentOf(tip).Some? ==> IsConfig(ParentOf(tip).value)
  {
    hide Signature.Signed, HeadersOf;
    ghost var tree := STORE[tip].tree;
  }

  lemma TreesStored()
    ensures MEMBER_TREE in STORE && STORE[MEMBER_TREE] ==
              Tree([], Typed(map["id" := "jo"], Some(ADMIN), None, None, false))
    ensures PLAIN_TREE in STORE && STORE[PLAIN_TREE] == Tree([], Typed(map[], None, Some(Config(None)), None, false))
    ensures EPOCH_TREE in STORE && STORE[EPOCH_TREE] ==
              Tree([], Typed(map[], None, Some(Config(Some(200))), None, false))
    ensures MEMBER_TIP in STORE && STORE[MEMBER_TIP] == Sealed(MEMBER_TREE, [], "Enroll jo")
  {
    hide Sealed;
  }

  // -- what the gate says ---------------------------------------------------------------------

  lemma Configured(tip: Oid)
    requires IsConfig(tip)
    ensures ConfigAt(STORE, tip) == Ok(Config(if HasEpoch(tip) then Some(200) else None))
  {
    hide Sealed, STORE;
    Stored(tip);
    TreesStored();
  }

  lemma EpochUnder(tip: Oid)
    requires IsConfig(tip)
    ensures CurrentEpoch(Under(tip), STORE) == Ok(if HasEpoch(tip) then Some(200) else None)
    ensures InForce(Under(tip), STORE) <==> HasEpoch(tip)
  {
    hide STORE, ConfigAt;
    Configured(tip);
  }

  lemma HeadersArePlain(tree: Oid, parents: seq<Oid>)
    requires '\n' !in tree.hex && forall p :: p in parents ==> '\n' !in p.hex
    ensures forall h :: h in HeadersOf(tree, parents) ==> Signature.PlainHeader(h)
  {
    var lead := "tree " + tree.hex;
    assert lead[0] == 't';
    ParentsArePlain(parents);
    assert "author jo"[0] == 'a' && "committer jo"[0] == 'c';
  }

  lemma {:induction false} ParentsArePlain(parents: seq<Oid>)
    requires forall p :: p in parents ==> '\n' !in p.hex
    ensures forall h :: h in ParentHeaders(parents) ==> Signature.PlainHeader(h)
  {
    if parents != [] {
      assert parents[0] in parents && forall p :: p in parents[1..] ==> p in parents;
      var line := "parent " + parents[0].hex;
      assert line[0] == 'p';
      ParentsArePlain(parents[1..]);
    }
  }

  /** A sealed commit splits. */
  lemma SealedSplits(tree: Oid, parents: seq<Oid>, message: string)
    requires '\n' !in tree.hex && forall p :: p in parents ==> '\n' !in p.hex
    ensures Signature.Split(ENV.utf8, Sealed(tree, parents, message).raw).Some?
  {
    hide Signature.Split, Signature.Signed, Signature.PlainHeader, HeadersOf;
    HeadersArePlain(tree, parents);
    Signature.SplitUndoesSeal(ENV.utf8, HeadersOf(tree, parents), message, (payload: Bytes) => "signed by jo");
  }

  lemma ConfigSplits(tip: Oid)
    requires IsConfig(tip)
    ensures tip in STORE && STORE[tip].Commit? && Signature.Split(ENV.utf8, STORE[tip].raw).Some?
  {
    hide STORE, Signature.Split, Sealed;
    Stored(tip);
    var message :| STORE[tip] == Sealed(STORE[tip].tree, STORE[tip].parents, message);
    SealedSplits(STORE[tip].tree, STORE[tip].parents, message);
  }

  lemma AdminIsCurrent()
    ensures MemberCurrent(STORE, MEMBER_TIP) == Ok(ADMIN)
  {
    hide STORE, Signature.Signed, HeadersOf;
    TreesStored();
  }

  /** The one member is the admin. */
  lemma OnlyAdmin(tip: Oid)
    ensures Members(Under(tip)) != []
    ensures forall m :: m in Members(Under(tip)) ==> m == Enrolled("jo", MEMBER_TIP)
  {
    var refs := Under(tip);
    assert ADMIN_REF in MemberNames(refs);
    forall m | m in Members(refs)
      ensures m == Enrolled("jo", MEMBER_TIP)
    {
      assert MEMBERS + m.id in refs;
      assert MEMBERS <= MEMBERS + m.id && !(MEMBERS <= CONFIG_REF);
      assert (MEMBERS + m.id)[|MEMBERS|..] == m.id && ADMIN_REF[|MEMBERS|..] == "jo";
    }
  }

  lemma SignedByAdmin(under: Oid, tip: Oid)
    requires IsConfig(tip)
    ensures Signer(ENV, Under(under), STORE, tip) == Ok(Some(("jo", ADMIN)))
  {
    hide STORE, Signature.Split, MemberCurrent, Members, Under;
    ConfigSplits(tip);
    OnlyAdmin(under);
    AdminIsCurrent();
    var members := Members(Under(under));
    assert members[0] in members;
  }

  /** A config with an epoch, on top of the current one, is admitted as the admin's. */
  lemma EpochAdmitted(under: Oid, tip: Oid)
    requires IsConfig(under) && HasEpoch(tip) && ParentOf(tip) == Some(under)
    ensures Verify(ENV, Under(under), STORE, Update(CONFIG_REF, Some(tip))) ==
              Ok(Admit(TipInvariant, CONFIG_REF, Some(under)))
  {
    hide STORE, Signature.Split, Members, Verify, Signer, CurrentEpoch, Reaches, Sealed, Classify, ConfigAt;
    var update, refs := Update(CONFIG_REF, Some(tip)), Under(under);
    PolicyIsMeta(CONFIG_REF);
    Configured(tip);
    EpochUnder(under);
    Stored(tip);
    OnlyAdmin(under);
    SignedByAdmin(under, tip);
    ConfigIsAdmins(tip);
    ReachesSelf(CommitGraph(STORE), under);
    ReachesViaParent(CommitGraph(STORE), tip, under, under);
    assert Vouched(ENV, refs, STORE, update, "jo", ADMIN);
    AdmitsIff(ENV, refs, STORE, update);
  }

  lemma ConfigIsAdmins(tip: Oid)
    requires IsConfig(tip)
    ensures Authorized(CONFIG_REF, "jo", ADMIN)
    ensures tip in STORE && STORE[tip].Commit? && Bound(ENV, STORE, CONFIG_REF, tip, "jo") == Ok(true)
  {
    hide STORE, Classify, CanonicalOfInbox, InboxOwner, SelfRunOwner, BindHashIdentified, BoundReview, BoundResult,
      BoundClaim, FieldIs, FinalSegment, Sealed;
    Stored(tip);
    ClassifyTable(CONFIG_REF);
  }

  /** Without an epoch, a config without one is waved through, whatever it is on top of. */
  lemma PlainWavedThrough(under: Oid, tip: Oid)
    requires IsConfig(under) && !HasEpoch(under) && IsConfig(tip) && !HasEpoch(tip)
    ensures Verify(ENV, Under(under), STORE, Update(CONFIG_REF, Some(tip))) ==
              Ok(Admit(PreEpoch, CONFIG_REF, Some(under)))
  {
    hide STORE, CurrentEpoch, ConfigAt;
    PolicyIsMeta(CONFIG_REF);
    Configured(tip);
    EpochUnder(under);
  }

  /** Only what a config stands on is below it. */
  lemma NotBelow(tip: Oid, other: Oid)
    requires IsConfig(tip) && other != tip && ParentOf(tip) != Some(other)
    requires ParentOf(tip).Some? ==> ParentOf(ParentOf(tip).value).None?
    ensures !Reaches(CommitGraph(STORE), tip, other)
  {
    hide STORE, Reaches, ParentOf, Sealed, IsConfig, HasEpoch;
    Stored(tip);
    var g, below := CommitGraph(STORE), {tip};
    assert tip in g && g[tip] == STORE[tip].parents;
    if ParentOf(tip).Some? {
      var parent := ParentOf(tip).value;
      Stored(parent);
      assert parent in g && g[parent] == [];
      below := {tip, parent};
    }
    if Reaches(g, tip, other) {
      ClosedReach(g, below, tip, other);
    }
  }
}
