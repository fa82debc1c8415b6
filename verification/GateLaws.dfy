/** What one verdict of the gate means. */
module GateLaws {
  import opened Graph
  import opened Objects
  import opened Text
  import opened Namespace
  import opened GateObjects
  import opened Gate
  import opened GateBinding
  import Signature

  /** Who the gate takes the author of `tip` to be, under the members enrolled in `refs`. */
  ghost function Signer(env: Env, refs: Refs, s: Store, tip: Oid): GateResult<Option<(string, Member)>> {
    if tip !in s || !s[tip].Commit? then Ok(None)
    else
      match Signature.Split(env.utf8, s[tip].raw)
      case None => Ok(None)
      case Some((payload, sig)) => FindSigner(env, s, Members(refs), payload, sig)
  }

  /** The epoch is in force, or the update is the one that records it. */
  ghost predicate Gated(refs: Refs, s: Store, update: Update) {
    CurrentEpoch(refs, s).Ok? && (CurrentEpoch(refs, s).value.Some? || RecordsEpoch(s, update))
  }

  ghost predicate InForce(refs: Refs, s: Store) {
    CurrentEpoch(refs, s).Ok? && CurrentEpoch(refs, s).value.Some?
  }

  /** The new tip is a commit that descends from the current one. */
  ghost predicate Advances(refs: Refs, s: Store, update: Update) {
    && update.after.Some? && update.after.value in s && s[update.after.value].Commit?
    && (update.name in refs ==> Reaches(CommitGraph(s), update.after.value, refs[update.name]))
  }

  /** Some active member signed the new tip, may write the ref, and signed content that names it. */
  ghost predicate Vouched(env: Env, refs: Refs, s: Store, update: Update, id: string, member: Member)
    requires update.after.Some? && update.after.value in s && s[update.after.value].Commit?
  {
    && Signer(env, refs, s, update.after.value) == Ok(Some((id, member)))
    && member.state == Active
    && Authorized(update.name, id, member)
    && Bound(env, s, update.name, update.after.value, id) == Ok(true)
  }

  /** Ownership never decides: whoever may write an issue or comment ref is an admin, and a bound review is
      signed by the member it names. */
  lemma OwnershipNeverDecides(
    env: Env, s: Store, name: string, before: Option<Oid>, tip: Oid, members: seq<Enrolled>, id: string, member: Member)
    requires tip in s && s[tip].Commit?
    requires Authorized(name, id, member) && Bound(env, s, name, tip, id) == Ok(true)
    ensures OwnerMayMutate(env, s, name, before, tip, members, id, member) == Ok(true)
  {
  }

  /** The whole ordered judgment on a gated meta-ref with members enrolled, as one condition. */
  lemma AdmitsIff(env: Env, refs: Refs, s: Store, update: Update)
    requires IsMeta(update.name) && Gated(refs, s, update) && Members(refs) != []
    ensures Verify(env, refs, s, update) == Ok(Admit(TipInvariant, update.name, Tip(refs, update.name))) <==>
              Advances(refs, s, update) && exists id, member :: Vouched(env, refs, s, update, id, member)
    ensures Verify(env, refs, s, update).Ok? && Verify(env, refs, s, update).value.Admit? ==>
              Verify(env, refs, s, update).value == Admit(TipInvariant, update.name, Tip(refs, update.name))
  {
    hide Bound, Reaches, OwnerMayMutate, Members, CommitGraph, CurrentEpoch, RecordsEpoch, Authorized,
      Signature.Split, FindSigner, IsMeta;
    if update.after.Some? && update.after.value in s && s[update.after.value].Commit? {
      var tip := update.after.value;
      match Signer(env, refs, s, tip)
      case Ok(Some((id, member))) =>
        var members, before := Members(refs), Tip(refs, update.name);
        if Authorized(update.name, id, member) && Bound(env, s, update.name, tip, id) == Ok(true) {
          OwnershipNeverDecides(env, s, update.name, before, tip, members, id, member);
        }
        if Vouched(env, refs, s, update, id, member) && Advances(refs, s, update) {
          assert exists i, m :: Vouched(env, refs, s, update, i, m);
        }
      case _ =>
    }
  }

  // -- who signed, by the member refs -------------------------------------------------

  /** The key in force at the member's ref verifies the tip's signature. */
  ghost predicate SignedBy(env: Env, refs: Refs, s: Store, tip: Oid, id: string, member: Member) {
    && tip in s && s[tip].Commit? && Signature.Split(env.utf8, s[tip].raw).Some?
    && MEMBERS + id in refs && MemberCurrent(s, refs[MEMBERS + id]) == Ok(member)
    && var (payload, sig) := Signature.Split(env.utf8, s[tip].raw).value;
       env.verifies(member.key, payload, sig)
  }

  /** Every member ref is readable, and no two members' keys verify the tip's signature. */
  ghost predicate KeysApart(env: Env, refs: Refs, s: Store, tip: Oid) {
    && (forall id :: MEMBERS + id in refs ==> MemberCurrent(s, refs[MEMBERS + id]).Ok?)
    && (forall i, j, m, n :: SignedBy(env, refs, s, tip, i, m) && SignedBy(env, refs, s, tip, j, n) ==> i == j)
  }

  lemma MatchIsSigned(env: Env, refs: Refs, s: Store, tip: Oid, payload: Bytes, sig: string, m: Enrolled)
    requires tip in s && s[tip].Commit? && Signature.Split(env.utf8, s[tip].raw) == Some((payload, sig))
    requires m in Members(refs)
    ensures Matches(env, s, m, payload, sig) <==>
              MemberCurrent(s, m.tip).Ok? && SignedBy(env, refs, s, tip, m.id, MemberCurrent(s, m.tip).value)
  {
    hide MemberCurrent, Signature.Split, Members;
  }

  /** Where no key is shared, the gate's signer is the one member whose key signed. */
  lemma SignerIff(env: Env, refs: Refs, s: Store, tip: Oid, id: string, member: Member)
    requires tip in s && s[tip].Commit? && KeysApart(env, refs, s, tip)
    ensures Signer(env, refs, s, tip) == Ok(Some((id, member))) <==> SignedBy(env, refs, s, tip, id, member)
  {
    hide MemberCurrent, Signature.Split, Members, FindSigner, Matches, SignedBy;
    match Signature.Split(env.utf8, s[tip].raw)
    case None => NotSigned(env, refs, s, tip, id, member);
    case Some((payload, sig)) =>
      var members := Members(refs);
      var found := FindSigner(env, s, members, payload, sig);
      forall m | m in members
        ensures MemberCurrent(s, m.tip).Ok?
        ensures Matches(env, s, m, payload, sig) <==> SignedBy(env, refs, s, tip, m.id, MemberCurrent(s, m.tip).value)
      {
        MatchIsSigned(env, refs, s, tip, payload, sig, m);
      }
      if SignedBy(env, refs, s, tip, id, member) {
        SignedIsEnrolled(env, refs, s, tip, id, member);
        var i :| 0 <= i < |members| && members[i] == Enrolled(id, refs[MEMBERS + id]);
        assert Matches(env, s, members[i], payload, sig);
      }
  }

  lemma NotSigned(env: Env, refs: Refs, s: Store, tip: Oid, id: string, member: Member)
    requires tip in s && s[tip].Commit? && Signature.Split(env.utf8, s[tip].raw).None?
    ensures !SignedBy(env, refs, s, tip, id, member)
  {
  }

  lemma SignedIsEnrolled(env: Env, refs: Refs, s: Store, tip: Oid, id: string, member: Member)
    requires SignedBy(env, refs, s, tip, id, member)
    ensures MEMBERS + id in refs && Enrolled(id, refs[MEMBERS + id]) in Members(refs)
    ensures MemberCurrent(s, refs[MEMBERS + id]) == Ok(member)
  {
    hide MemberCurrent, Signature.Split, Members;
  }

  /** `id` is an active member whose key signed the new tip, who may write the ref, and whose content names it. */
  ghost predicate Entitled(env: Env, refs: Refs, s: Store, update: Update, id: string, member: Member)
    requires update.after.Some? && update.after.value in s && s[update.after.value].Commit?
  {
    && SignedBy(env, refs, s, update.after.value, id, member)
    && member.state == Active && Authorized(update.name, id, member)
    && Bound(env, s, update.name, update.after.value, id) == Ok(true)
  }

  /** By the member refs alone: where no key is shared, a gated update is admitted exactly when it advances the ref and
      some active member whose key signed it is entitled to it. */
  lemma AdmitsEntitledIff(env: Env, refs: Refs, s: Store, update: Update)
    requires IsMeta(update.name) && Gated(refs, s, update) && Members(refs) != []
    requires update.after.Some? ==> KeysApart(env, refs, s, update.after.value)
    ensures Verify(env, refs, s, update) == Ok(Admit(TipInvariant, update.name, Tip(refs, update.name))) <==>
              Advances(refs, s, update) && exists id, member :: Entitled(env, refs, s, update, id, member)
  {
    hide Verify, Bound, Reaches, Members, CommitGraph, Gated, Authorized, Signer, SignedBy, KeysApart;
    AdmitsIff(env, refs, s, update);
    if Advances(refs, s, update) {
      forall id, member
        ensures Vouched(env, refs, s, update, id, member) <==> Entitled(env, refs, s, update, id, member)
      {
        SignerIff(env, refs, s, update.after.value, id, member);
      }
    }
  }

  /** A shared key counts for the first listed member that has it: if that one is revoked, the tip is refused, whoever
      else holds the key. */
  lemma SharedKeyOfRevoked(env: Env, refs: Refs, s: Store, update: Update, i: nat, payload: Bytes, sig: string)
    requires IsMeta(update.name) && Gated(refs, s, update) && i < |Members(refs)|
    requires update.after.Some? && update.after.value in s && s[update.after.value].Commit?
    requires Signature.Split(env.utf8, s[update.after.value].raw) == Some((payload, sig))
    requires PassedOver(env, s, Members(refs), i, payload, sig) && Matches(env, s, Members(refs)[i], payload, sig)
    requires MemberCurrent(s, Members(refs)[i].tip).value.state == Revoked
    ensures Verify(env, refs, s, update) == Ok(Refuse(TipSigned, update.name))
  {
    hide Bound, Reaches, OwnerMayMutate, Members, CommitGraph, CurrentEpoch, RecordsEpoch, Authorized,
      Signature.Split, FindSigner, IsMeta, MemberCurrent, Classify, JudgeBootstrap, Matches;
    FirstIsUnique(env, s, Members(refs), i, payload, sig, FindSigner(env, s, Members(refs), payload, sig));
  }

  lemma FirstIsUnique(
    env: Env, s: Store, members: seq<Enrolled>, i: nat, payload: Bytes, sig: string,
    r: GateResult<Option<(string, Member)>>)
    requires i < |members| && PassedOver(env, s, members, i, payload, sig) && Matches(env, s, members[i], payload, sig)
    requires FirstMatch(env, s, members, payload, sig, r)
    ensures r == Ok(Some((members[i].id, MemberCurrent(s, members[i].tip).value)))
  {
    hide MemberCurrent, Matches;
    MatchesReadable(env, s, members[i], payload, sig);
  }

  lemma MatchesReadable(env: Env, s: Store, m: Enrolled, payload: Bytes, sig: string)
    requires Matches(env, s, m, payload, sig)
    ensures MemberCurrent(s, m.tip).Ok?
  {
  }

  /** With no member enrolled the only gated write is a first enrollment: a commit signed by the key in the member
      entity it carries, which names the ref. */
  lemma BootstrapIff(env: Env, refs: Refs, s: Store, update: Update)
    requires IsMeta(update.name) && Gated(refs, s, update) && Members(refs) == []
    ensures Verify(env, refs, s, update) == Ok(Admit(Bootstrap, update.name, Tip(refs, update.name))) <==>
              Advances(refs, s, update) && FirstEnrollment(env, s, update)
    ensures Verify(env, refs, s, update).Ok? && Verify(env, refs, s, update).value.Admit? ==>
              Verify(env, refs, s, update).value == Admit(Bootstrap, update.name, Tip(refs, update.name))
  {
    hide Reaches, Members, CommitGraph, CurrentEpoch, RecordsEpoch, Signature.Split, IsMeta, Classify;
    if FirstEnrollment(env, s, update) {
      MemberRefIsMember(update.name);
    }
  }

  ghost predicate FirstEnrollment(env: Env, s: Store, update: Update) {
    update.after.Some? && update.after.value in s && s[update.after.value].Commit? &&
    var commit := s[update.after.value];
    commit.tree in s && s[commit.tree].Tree? && s[commit.tree].typed.member.Some? &&
    var pushed := s[commit.tree].typed.member.value;
    update.name == MEMBERS + pushed.id && env.validName(update.name) &&
    Signature.Split(env.utf8, commit.raw).Some? &&
    var (payload, sig) := Signature.Split(env.utf8, commit.raw).value;
    env.verifies(pushed.key, payload, sig)
  }

  lemma MemberRefIsMember(name: string)
    requires MEMBERS <= name
    ensures Classify(name) == Some(MemberSpace) && IsMeta(name)
  {
    ClassifyTable(name);
  }

  /** An update the gate admits is a code ref, precedes the epoch, or advances the ref. */
  lemma AdmittedAdvances(env: Env, refs: Refs, s: Store, update: Update)
    requires IsMeta(update.name) && Gated(refs, s, update)
    requires Verify(env, refs, s, update).Ok? && Verify(env, refs, s, update).value.Admit?
    ensures Advances(refs, s, update)
  {
    hide Verify, Bound, Reaches, Members, CurrentEpoch, FirstEnrollment, Vouched;
    if Members(refs) == [] {
      BootstrapIff(env, refs, s, update);
    } else {
      AdmitsIff(env, refs, s, update);
    }
  }

  // -- entities named by their first commit ---------------------------------------

  predicate HashIdentified(name: string) {
    InSpace(name, "refs/meta/issues") || InSpace(name, "refs/meta/comments")
  }

  /** An issue or comment, or an inbox ref that stands for one. */
  ghost predicate IsEntity(env: Env, name: string) {
    HashIdentified(Stands(env, name))
  }

  /** The tip's whole history has one root, the commit the refname names. */
  ghost predicate Rooted(s: Store, name: string, tip: Oid) {
    var expected := ParseOid(FinalSegment(name));
    expected.Some? && Walkable(s, tip) && RootSet(s, tip) == {expected.value}
  }

  /** Whatever tip the gate admits for an issue or comment, in an inbox or not, has one root: the commit the refname's
      final segment names. */
  lemma AdmittedIsRooted(env: Env, refs: Refs, s: Store, update: Update)
    requires IsEntity(env, update.name) && Gated(refs, s, update)
    requires Verify(env, refs, s, update).Ok? && Verify(env, refs, s, update).value.Admit?
    ensures update.after.Some? && Rooted(s, update.name, update.after.value)
  {
    hide Verify, Bound, Members, CurrentEpoch, Rooted, Signer, Authorized, Advances, FirstEnrollment, Classify, IsMeta;
    EntityIsMeta(env, update.name);
    AdmittedAdvances(env, refs, s, update);
    AdvancesToCommit(refs, s, update);
    if Members(refs) == [] {
      BootstrapIff(env, refs, s, update);
      EnrolledName(env, s, update);
      MemberRefIsMember(update.name);
      MemberIsNoEntity(env, update.name);
      assert false;
    } else {
      AdmitsIff(env, refs, s, update);
      var id, member :| Vouched(env, refs, s, update, id, member);
      BoundIsRooted(env, s, update.name, update.after.value, id);
    }
  }

  lemma AdvancesToCommit(refs: Refs, s: Store, update: Update)
    requires Advances(refs, s, update)
    ensures update.after.Some? && update.after.value in s && s[update.after.value].Commit?
  {
  }

  lemma EnrolledName(env: Env, s: Store, update: Update)
    requires FirstEnrollment(env, s, update)
    ensures MEMBERS <= update.name
  {
  }

  lemma MemberIsNoEntity(env: Env, name: string)
    requires Classify(name) == Some(MemberSpace)
    ensures !IsEntity(env, name)
  {
    hide Classify, CanonicalOfInbox;
    ClassifyTable(name);
  }

  lemma EntityIsMeta(env: Env, name: string)
    requires IsEntity(env, name)
    ensures IsMeta(name)
  {
    hide CanonicalOfInbox;
    ClassifyTable(Stands(env, name));
  }

  lemma BoundIsRooted(env: Env, s: Store, name: string, tip: Oid, signer: string)
    requires IsEntity(env, name) && tip in s && s[tip].Commit? && Bound(env, s, name, tip, signer) == Ok(true)
    ensures Rooted(s, name, tip)
  {
    hide Classify, FinalSegment, ParseOid, Walkable, RootSet, OwnLayers, Stands;
    BoundIffStands(env, s, name, tip, signer);
    StandsKeepsFinalSegment(env, name);
    ClassifyTable(Stands(env, name));
    assert BindHashIdentified(s, Stands(env, name), tip) == Ok(true);
  }

  lemma RootedGrows(s: Store, s': Store, name: string, tip: Oid)
    requires StoreGrows(s, s') && Rooted(s, name, tip)
    ensures Rooted(s', name, tip)
  {
    hide FinalSegment, ParseOid, Walkable, IsRoot;
    WalkableGrows(s, s', tip);
    assert RootSet(s', tip) == RootSet(s, tip) by {
      forall r
        ensures r in RootSet(s', tip) <==> r in RootSet(s, tip)
      {
        RootInStore(s, tip, r);
        RootInStore(s', tip, r);
      }
    }
  }

  lemma RootInStore(s: Store, tip: Oid, r: Oid)
    ensures r in RootSet(s, tip) <==> IsRoot(CommitGraph(s), tip, r)
  {
  }

  /** Distinct entities never share history: where the histories of two admitted tips meet in a commit all of whose
      ancestry is commits, the two refnames name the same genesis. */
  lemma SharedHistoryIsOneEntity(s: Store, m: string, n: string, a: Oid, b: Oid, common: Oid)
    requires Acyclic(CommitGraph(s)) && Complete(CommitGraph(s), common)
    requires Rooted(s, m, a) && Rooted(s, n, b)
    requires Reaches(CommitGraph(s), a, common) && Reaches(CommitGraph(s), b, common)
    ensures ParseOid(FinalSegment(m)) == ParseOid(FinalSegment(n))
  {
    hide FinalSegment, ParseOid, Walkable, Reaches, Acyclic, Complete;
    var g := CommitGraph(s);
    ReachesARoot(g, common);
    var r :| IsRoot(g, common, r);
    ReachesTrans(g, a, common, r);
    ReachesTrans(g, b, common, r);
    assert IsRoot(CommitGraph(s), a, r) && IsRoot(CommitGraph(s), b, r);
    assert r in RootSet(s, a) && r in RootSet(s, b);
  }

  // -- what a self-attested signer may move ------------------------------------------

  /** `name` lies in the member's own inbox or self-run segment. */
  predicate OwnSegment(name: string, id: string) {
    INBOX + id + "/" <= name || SELF + id + "/" <= name
  }

  lemma SelfAttestedStaysHome(name: string, id: string, member: Member)
    requires IsMeta(name) && member.provenance == SelfAttested
    ensures Authorized(name, id, member) ==> OwnSegment(name, id)
  {
  }

  lemma OwnSegmentsAreApart(name: string, id: string)
    requires OwnSegment(name, id)
    ensures name != CONFIG_REF && !(MEMBERS <= name) && !HashIdentified(name)
    ensures !("refs/meta/effects/" <= name)
  {
    hide Classify;
    assert name[10] == 'i' || name[10] == 's';
    assert name[11] == 'n' || name[11] == 'e';
    FirstSegmentOf(name, id);
  }

  lemma FirstSegmentOf(name: string, id: string)
    requires OwnSegment(name, id)
    ensures Classify(name) == Some(Inbox) || Classify(name) == Some(SelfRun)
  {
    hide Classify;
    ClassifyTable(name);
    if INBOX + id + "/" <= name {
      LongerPrefix(INBOX, id + "/", name);
    } else {
      LongerPrefix(SELF, id + "/", name);
    }
  }

  // -- what growth of the object store leaves of a reading --------------------------------

  lemma ConfigGrows(s: Store, s': Store, tip: Oid)
    requires StoreGrows(s, s') && ConfigAt(s, tip).Ok?
    ensures ConfigAt(s', tip) == ConfigAt(s, tip)
  {
    var tree := CommitTree(s, tip).value;
    assert s'[tip] == s[tip] && s'[tree] == s[tree];
  }

  lemma MemberGrows(s: Store, s': Store, tip: Oid)
    requires StoreGrows(s, s') && MemberCurrent(s, tip).Ok?
    ensures MemberCurrent(s', tip) == MemberCurrent(s, tip)
  {
    var tree := CommitTree(s, tip).value;
    assert s'[tip] == s[tip] && s'[tree] == s[tree];
  }

  lemma EpochGrows(refs: Refs, refs': Refs, s: Store, s': Store)
    requires StoreGrows(s, s') && Tip(refs', CONFIG_REF) == Tip(refs, CONFIG_REF) && CurrentEpoch(refs, s).Ok?
    ensures CurrentEpoch(refs', s') == CurrentEpoch(refs, s)
  {
    hide ConfigAt;
    if CONFIG_REF in refs {
      ConfigGrows(s, s', refs[CONFIG_REF]);
    }
  }
}
