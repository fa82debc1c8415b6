/** The gate's decisions namespace by namespace, said of the refnames themselves and of what stands in the tip's tree.
    */
module GateTables {
  import opened Graph
  import opened Objects
  import opened Text
  import opened Namespace
  import opened GateObjects
  import opened Gate
  import opened GateLaws
  import Signature

  // -- who may write where -----------------------------------------------------------

  /** A self-run or inbox ref is its owner's alone, admins included; every other meta-ref is for admins. */
  lemma AuthorizedIff(name: string, id: string, member: Member)
    requires "refs/meta/" <= name
    ensures Authorized(name, id, member) <==>
              if InSpace(name, "refs/meta/self") then '/' !in id && "refs/meta/self/" + id + "/" <= name
              else if InSpace(name, "refs/meta/inbox") then '/' !in id && "refs/meta/inbox/" + id + "/" <= name
              else member.provenance == AdminRegistered
  {
    hide Classify, InSpace, OwnerUnder;
    ClassifyTable(name);
    SpacesApart(name);
  }

  lemma SpacesApart(name: string)
    ensures !(InSpace(name, "refs/meta/self") && InSpace(name, "refs/meta/inbox"))
  {
    if InSpace(name, "refs/meta/self") {
      assert name[10] == 's';
    }
    if InSpace(name, "refs/meta/inbox") {
      assert name[10] == 'i';
    }
  }

  // -- what the content must say --------------------------------------------------------

  /** The tree's blob of that name holds the text. */
  predicate Says(env: Env, s: Store, tree: Oid, field: string, text: string) {
    && tree in s && s[tree].Tree? && field in s[tree].typed.fields && s[tree].typed.fields[field] == text
    && env.utf8(text)
  }

  /** The tree's blob of that name holds twenty bytes, and `hex` is their hex form. */
  predicate SaysHex(s: Store, tree: Oid, field: string, hex: string) {
    && tree in s && s[tree].Tree? && field in s[tree].typed.fields && |s[tree].typed.fields[field]| == 20
    && IsHexOf(hex, s[tree].typed.fields[field])
  }

  /** Two digits a byte, the high one first. */
  predicate IsHexOf(hex: string, bytes: Bytes) {
    |hex| == 2 * |bytes| && forall i :: 0 <= i < |bytes| ==> DigitsAt(hex, bytes, i)
  }

  predicate DigitsAt(hex: string, bytes: Bytes, i: nat)
    requires i < |bytes| && |hex| == 2 * |bytes|
  {
    var code := bytes[i] as int % 256;
    hex[2 * i] == "0123456789abcdef"[code / 16] && hex[2 * i + 1] == "0123456789abcdef"[code % 16]
  }

  lemma {:induction false} HexIs(bytes: Bytes)
    ensures IsHexOf(HexOf(bytes), bytes)
  {
    if bytes != "" {
      HexIs(bytes[1..]);
      var hex, rest := HexOf(bytes), HexOf(bytes[1..]);
      assert hex[2..] == rest;
      forall i | 0 <= i < |bytes|
        ensures DigitsAt(hex, bytes, i)
      {
        if i > 0 {
          assert bytes[i] == bytes[1..][i - 1] && DigitsAt(rest, bytes[1..], i - 1);
          assert hex[2 * i] == rest[2 * (i - 1)] && hex[2 * i + 1] == rest[2 * (i - 1) + 1];
        }
      }
    }
  }

  lemma HexIsOne(hex: string, other: string, bytes: Bytes)
    requires IsHexOf(hex, bytes) && IsHexOf(other, bytes)
    ensures hex == other
  {
    forall k | 0 <= k < |hex|
      ensures hex[k] == other[k]
    {
      assert DigitsAt(hex, bytes, k / 2) && DigitsAt(other, bytes, k / 2);
      assert k == 2 * (k / 2) || k == 2 * (k / 2) + 1;
    }
  }

  /** The tree is missing or corrupt, so that no field of it can be looked for. */
  predicate Unreadable(s: Store, tree: Oid) {
    tree !in s || s[tree] == Corrupt(false)
  }

  lemma FieldSays(env: Env, s: Store, tree: Oid, field: string, text: string)
    ensures FieldIs(env, s, tree, field, text) == Ok(true) <==> Says(env, s, tree, field, text)
    ensures FieldIs(env, s, tree, field, text).Err? <==> Unreadable(s, tree)
  {
  }

  lemma FieldSaysHex(s: Store, tree: Oid, field: string, hex: string)
    ensures FieldHex(s, tree, field) == Ok(Some(hex)) <==> SaysHex(s, tree, field, hex)
    ensures FieldHex(s, tree, field).Err? <==> Unreadable(s, tree)
  {
    hide HexOf, IsHexOf;
    if tree in s && s[tree].Tree? && field in s[tree].typed.fields {
      var bytes := s[tree].typed.fields[field];
      HexIs(bytes);
      if IsHexOf(hex, bytes) {
        HexIsOne(hex, HexOf(bytes), bytes);
      }
    }
  }

  /** A member, effect or toolchain ref is bound by the blob that names it: `id` for a member, `name` for the others. */
  lemma NamedIsBoundIff(env: Env, s: Store, name: string, tip: Oid, signer: string)
    requires tip in s && s[tip].Commit?
    ensures InSpace(name, "refs/meta/member") ==>
              (Bound(env, s, name, tip, signer) == Ok(true) <==> Says(env, s, s[tip].tree, "id", FinalSegment(name)))
    ensures InSpace(name, "refs/meta/effects") || InSpace(name, "refs/meta/toolchains") ==>
              (Bound(env, s, name, tip, signer) == Ok(true) <==> Says(env, s, s[tip].tree, "name", FinalSegment(name)))
    ensures InSpace(name, "refs/meta/member") || InSpace(name, "refs/meta/effects")
            || InSpace(name, "refs/meta/toolchains") ==>
              (Bound(env, s, name, tip, signer).Err? <==> Unreadable(s, s[tip].tree))
  {
    hide Classify, InSpace, FieldIs, Says, Unreadable, FinalSegment, BindHashIdentified, BoundReview, BoundResult,
      BoundClaim, CanonicalOfInbox;
    ClassifyTable(name);
    FieldSays(env, s, s[tip].tree, "id", FinalSegment(name));
    FieldSays(env, s, s[tip].tree, "name", FinalSegment(name));
  }

  /** Config, account, pins, redactions and whatever has no namespace of its own are bound by nothing. */
  lemma OthersAreBound(env: Env, s: Store, name: string, tip: Oid, signer: string)
    requires tip in s && s[tip].Commit?
    requires name == "refs/meta/config" || name == "refs/meta/account" || InSpace(name, "refs/meta/pins")
             || InSpace(name, "refs/meta/redactions") || Classify(name) == Some(Unknown)
    ensures Bound(env, s, name, tip, signer) == Ok(true)
  {
    hide Classify, InSpace, FieldIs, FinalSegment, BindHashIdentified, BoundReview, BoundResult, BoundClaim,
      CanonicalOfInbox;
    ClassifyTable(name);
  }

  predicate OneSegment(text: string) {
    text != "" && '/' !in text
  }

  /** The text of a review ref, or of the pin beside it, read back. */
  lemma ReviewRefReads(target: string, member: string)
    requires OneSegment(target) && OneSegment(member)
    ensures ParseReviewRef("refs/meta/reviews/" + target + "/" + member) == Some((target, member))
    ensures ParseReviewRef("refs/meta/pins/reviews/" + target + "/" + member) == Some((target, member))
  {
    hide SplitOnce;
    var rest := target + ['/'] + member;
    SplitOnceAt(target, '/', member);
    assert "refs/meta/reviews/" + target + "/" + member == "refs/meta/reviews/" + rest;
    Stripped("refs/meta/reviews/", rest);
    var pin := "refs/meta/pins/reviews/" + target + "/" + member;
    assert pin == "refs/meta/pins/reviews/" + rest;
    assert pin[10] == 'p' && "refs/meta/reviews/"[10] == 'r';
    Stripped("refs/meta/pins/reviews/", rest);
  }

  lemma ReviewBinds(env: Env, s: Store, name: string, tip: Oid, signer: string)
    requires tip in s && s[tip].Commit? && Classify(name) == Some(Review)
    ensures Bound(env, s, name, tip, signer) == BoundReview(s, name, s[tip].tree, signer)
  {
    hide Classify, BindHashIdentified, BoundReview, BoundResult, BoundClaim, CanonicalOfInbox, FieldIs, FinalSegment;
  }

  /** A review is bound when its `target` is the commit its refname names and its signer the member. */
  lemma ReviewIsBoundIff(env: Env, s: Store, target: string, member: string, tip: Oid, signer: string)
    requires tip in s && s[tip].Commit? && OneSegment(target) && OneSegment(member)
    ensures Bound(env, s, "refs/meta/reviews/" + target + "/" + member, tip, signer) == Ok(true) <==>
              SaysHex(s, s[tip].tree, "target", target) && signer == member
    ensures Bound(env, s, "refs/meta/reviews/" + target + "/" + member, tip, signer).Err? <==>
              Unreadable(s, s[tip].tree)
  {
    hide Classify, Unreadable, SaysHex, FieldHex, Bound, ParseReviewRef, InSpace, OneSegment;
    var name := "refs/meta/reviews/" + target + "/" + member;
    ClassifyTable(name);
    assert name == "refs/meta/reviews" + "/" + (target + "/" + member);
    BelowSpace("refs/meta/reviews", target + "/" + member, name);
    ReviewRefReads(target, member);
    ReviewBinds(env, s, name, tip, signer);
    FieldSaysHex(s, s[tip].tree, "target", target);
  }

  lemma BelowSpace(space: string, rest: string, name: string)
    requires name == space + "/" + rest
    ensures InSpace(name, space)
  {
    assert name[..|space| + 1] == space + "/";
  }

  /** The text of a canonical result ref, read back. */
  lemma ResultRefReads(effect: string, short: string)
    requires OneSegment(effect) && OneSegment(short)
    ensures ParseResultRef("refs/meta/results/" + effect + "/" + short) == Some((effect, short))
  {
    hide SplitOnce, StripPrefix;
    var tail := effect + ['/'] + short;
    var name, rest := "refs/meta/results/" + effect + "/" + short, "results/" + tail;
    SplitOnceAt(effect, '/', short);
    assert name == META + rest;
    Stripped(META, rest);
    Stripped("results/", tail);
    TailReads(name, tail, effect, short);
  }

  lemma TailReads(name: string, tail: string, effect: string, short: string)
    requires StripPrefix(name, META).Some? && StripPrefix(StripPrefix(name, META).value, "results/") == Some(tail)
    requires SplitOnce(tail, '/') == Some((effect, short)) && OneSegment(effect) && OneSegment(short)
    ensures ParseResultRef(name) == Some((effect, short))
  {
    hide SplitOnce, StripPrefix;
  }

  /** And of a mirror, with the member in whose segment it stands. */
  lemma MirrorRefReads(member: string, effect: string, short: string)
    requires OneSegment(effect) && OneSegment(short) && '/' !in member
    ensures ParseResultRef("refs/meta/self/" + member + "/" + effect + "/" + short) == Some((effect, short))
    ensures SelfRunOwner("refs/meta/self/" + member + "/" + effect + "/" + short) == Some(member)
  {
    hide SplitOnce, StripPrefix;
    var tail := effect + ['/'] + short;
    var own := member + ['/'] + tail;
    var name, rest := "refs/meta/self/" + member + "/" + effect + "/" + short, "self/" + own;
    SplitOnceAt(effect, '/', short);
    SplitOnceAt(member, '/', tail);
    assert name == META + rest;
    SelfIsNoResults(own);
    Stripped(META, rest);
    Stripped("self/", own);
    assert name == (SELF + member + "/") + tail;
    OwnerIs(name, member);
  }

  lemma Stripped(p: string, rest: string)
    ensures StripPrefix(p + rest, p) == Some(rest)
  {
    assert (p + rest)[|p|..] == rest;
  }

  lemma SelfIsNoResults(own: string)
    ensures StripPrefix("self/" + own, "results/") == None
  {
    assert ("self/" + own)[0] == 's';
  }

  lemma OwnerIs(name: string, member: string)
    requires '/' !in member && SELF + member + "/" <= name
    ensures SelfRunOwner(name) == Some(member)
  {
    hide OwnerUnder;
  }

  /** What binds a result: its `effect`, a `target` the refname's short oid begins, and a first record of nothing else.
      */
  ghost predicate ResultSays(env: Env, s: Store, tip: Oid, effect: string, short: string)
    requires tip in s && s[tip].Commit?
  {
    && Says(env, s, s[tip].tree, "effect", effect)
    && (exists hex :: SaysHex(s, s[tip].tree, "target", hex) && short <= hex)
    && (s[tip].parents == [] ==> StrictlyHolds(s, s[tip].tree, {"effect", "target", "status"}))
  }

  /** The tree decodes as a result record and has no entry besides the fields. */
  predicate StrictlyHolds(s: Store, tree: Oid, fields: set<string>) {
    && tree in s && s[tree].Tree? && s[tree].typed.result.Some?
    && forall e :: e in s[tree].entries ==> e.name in fields
  }

  lemma ResultSpaceBinds(env: Env, s: Store, name: string, tip: Oid, signer: string)
    requires tip in s && s[tip].Commit?
    ensures Classify(name) == Some(ResultSpace) ==>
              Bound(env, s, name, tip, signer) == BoundResult(env, s, name, s[tip].tree, s[tip].parents, signer, false)
    ensures Classify(name) == Some(SelfRun) ==>
              Bound(env, s, name, tip, signer) == BoundResult(env, s, name, s[tip].tree, s[tip].parents, signer, true)
  {
    hide Classify, BindHashIdentified, BoundReview, BoundResult, BoundClaim, CanonicalOfInbox, FieldIs, FinalSegment;
  }

  lemma ResultIsBoundIff(env: Env, s: Store, effect: string, short: string, tip: Oid, signer: string)
    requires tip in s && s[tip].Commit? && OneSegment(effect) && OneSegment(short)
    ensures Bound(env, s, "refs/meta/results/" + effect + "/" + short, tip, signer) == Ok(true) <==>
              ResultSays(env, s, tip, effect, short)
    ensures Bound(env, s, "refs/meta/results/" + effect + "/" + short, tip, signer).Err? <==>
              Unreadable(s, s[tip].tree)
  {
    hide Unreadable, Classify, ParseResultRef, Bound, BoundResult, ResultSays, InSpace;
    var name := "refs/meta/results/" + effect + "/" + short;
    ClassifyTable(name);
    assert name == "refs/meta/results" + "/" + (effect + "/" + short);
    BelowSpace("refs/meta/results", effect + "/" + short, name);
    ResultRefReads(effect, short);
    ResultSpaceBinds(env, s, name, tip, signer);
    ResultFields(env, s, name, tip, signer, effect, short, false);
  }

  /** A mirror is bound the same way, for the member in whose segment it stands. */
  lemma MirrorIsBoundIff(
    env: Env, s: Store, member: string, effect: string, short: string, tip: Oid, signer: string)
    requires tip in s && s[tip].Commit? && OneSegment(effect) && OneSegment(short) && '/' !in member
    ensures Bound(env, s, "refs/meta/self/" + member + "/" + effect + "/" + short, tip, signer) == Ok(true) <==>
              ResultSays(env, s, tip, effect, short) && signer == member
    ensures Bound(env, s, "refs/meta/self/" + member + "/" + effect + "/" + short, tip, signer).Err? <==>
              Unreadable(s, s[tip].tree)
  {
    hide Unreadable, Classify, ParseResultRef, SelfRunOwner, Bound, BoundResult, ResultSays, InSpace;
    var name := "refs/meta/self/" + member + "/" + effect + "/" + short;
    ClassifyTable(name);
    assert name == "refs/meta/self" + "/" + (member + "/" + effect + "/" + short);
    BelowSpace("refs/meta/self", member + "/" + effect + "/" + short, name);
    MirrorRefReads(member, effect, short);
    ResultSpaceBinds(env, s, name, tip, signer);
    ResultFields(env, s, name, tip, signer, effect, short, true);
  }

  lemma ResultFields(
    env: Env, s: Store, name: string, tip: Oid, signer: string, effect: string, short: string, own: bool)
    requires tip in s && s[tip].Commit? && ParseResultRef(name) == Some((effect, short))
    ensures BoundResult(env, s, name, s[tip].tree, s[tip].parents, signer, own) == Ok(true) <==>
              ResultSays(env, s, tip, effect, short) && (own ==> SelfRunOwner(name) == Some(signer))
    ensures BoundResult(env, s, name, s[tip].tree, s[tip].parents, signer, own).Err? <==> Unreadable(s, s[tip].tree)
  {
    hide Unreadable, ParseResultRef, FieldIs, FieldHex, Says, SaysHex, SelfRunOwner;
    var tree := s[tip].tree;
    FieldSays(env, s, tree, "effect", effect);
    FieldSaysHex(s, tree, "target", "");
    forall hex
      ensures FieldHex(s, tree, "target") == Ok(Some(hex)) <==> SaysHex(s, tree, "target", hex)
    {
      FieldSaysHex(s, tree, "target", hex);
    }
    StrictIff(s, tree, {"effect", "target", "status"});
  }

  lemma StrictIff(s: Store, tree: Oid, fields: set<string>)
    ensures StrictDecode(s, tree, fields, true) == Ok(true) <==> StrictlyHolds(s, tree, fields)
    ensures StrictDecode(s, tree, fields, true).Err? <==> Unreadable(s, tree)
  {
    if tree in s && s[tree].Tree? {
      var entries := s[tree].entries;
      assert forall i :: 0 <= i < |entries| ==> entries[i] in entries;
    }
  }

  /** A claim is bound when it is the very commit its refname names, with a parent, its `signer` the member who signed,
      and nothing in its tree besides a claim. */
  lemma ClaimIsBoundIff(env: Env, s: Store, genesis: string, tip: Oid, signer: string)
    requires tip in s && s[tip].Commit? && OneSegment(genesis)
    ensures Bound(env, s, "refs/meta/claims/" + genesis, tip, signer) == Ok(true) <==>
              && ParseOid(genesis) == Some(tip) && s[tip].parents != []
              && Says(env, s, s[tip].tree, "signer", signer) && s[s[tip].tree].typed.claim
              && forall e :: e in s[s[tip].tree].entries ==> e.name in {"signer", "binding", "verdict", "kind"}
    ensures Bound(env, s, "refs/meta/claims/" + genesis, tip, signer).Err? <==>
              ParseOid(genesis) == Some(tip) && s[tip].parents != [] && Unreadable(s, s[tip].tree)
  {
    hide Classify, BindHashIdentified, BoundReview, BoundResult, CanonicalOfInbox, FieldIs, ParseOid, FinalSegment;
    var name, tree := "refs/meta/claims/" + genesis, s[tip].tree;
    ClassifyTable(name);
    assert name == "refs/meta/claims" + "/" + genesis;
    BelowSpace("refs/meta/claims", genesis, name);
    FinalSegmentAfter("refs/meta/claims", genesis);
    OneSegmentIsFinal(genesis);
    FieldSays(env, s, tree, "signer", signer);
    if tree in s && s[tree].Tree? {
      var entries := s[tree].entries;
      assert forall i :: 0 <= i < |entries| ==> entries[i] in entries;
    }
  }

  lemma OneSegmentIsFinal(text: string)
    requires OneSegment(text)
    ensures FinalSegment(text) == text
  {
  }

  /** Which commit a segment names: forty hex digits, whatever their case, and nothing else. */
  lemma GenesisIs(segment: string, o: Oid)
    ensures ParseOid(segment) == Some(o) <==>
              && FortyHex(segment) && |o.hex| == 40
              && forall i :: 0 <= i < 40 ==> Lowered(segment[i], o.hex[i])
  {
    hide Lower;
    FortyHexIff(segment);
    if FortyHex(segment) {
      LowerDigits(segment);
    }
  }

  /** An issue or comment is bound when the commit its last segment names is the one root of the tip's whole history. */
  lemma EntityIsBoundIff(env: Env, s: Store, name: string, tip: Oid, signer: string)
    requires tip in s && s[tip].Commit?
    requires InSpace(name, "refs/meta/issues") || InSpace(name, "refs/meta/comments")
    ensures Bound(env, s, name, tip, signer) == Ok(true) <==> Rooted(s, name, tip)
    ensures Bound(env, s, name, tip, signer).Err? <==> ParseOid(FinalSegment(name)).Some? && !Walkable(s, tip)
  {
    hide Classify, InSpace, FieldIs, FinalSegment, ParseOid, RootSet, Walkable, BoundReview, BoundResult, BoundClaim,
      CanonicalOfInbox;
    ClassifyTable(name);
  }

  /** An inbox ref read back: its owner, and the ref it stands for. */
  lemma InboxRefReads(owner: string, suffix: string)
    requires '/' !in owner
    ensures InboxOwner("refs/meta/inbox/" + owner + "/" + suffix) == Some(owner)
    ensures CanonicalOfInbox("refs/meta/inbox/" + owner + "/" + suffix) == Some("refs/meta/" + suffix)
  {
    hide SplitOnce, StripPrefix, OwnerUnder;
    var name, rest := "refs/meta/inbox/" + owner + "/" + suffix, owner + ['/'] + suffix;
    SplitOnceAt(owner, '/', suffix);
    assert name == INBOX + rest && name == (INBOX + owner + "/") + suffix;
    Stripped(INBOX, rest);
  }

  // -- when the gate judges at all --------------------------------------------------------

  /** Refs outside `refs/meta/` pass, and before an epoch every update does that records none. */
  lemma PassesUnjudged(env: Env, refs: Refs, s: Store, update: Update)
    ensures !("refs/meta/" <= update.name) ==>
              Verify(env, refs, s, update) == Ok(Admit(CodeRef, update.name, Tip(refs, update.name)))
    ensures "refs/meta/" <= update.name && CurrentEpoch(refs, s) == Ok(None) && !RecordsEpoch(s, update) ==>
              Verify(env, refs, s, update) == Ok(Admit(PreEpoch, update.name, Tip(refs, update.name)))
  {
    hide CurrentEpoch, RecordsEpoch;
  }

  /** A commit whose tree reads as a config with this epoch. */
  predicate ReadsAsConfig(s: Store, tip: Oid, epoch: Option<nat>) {
    && tip in s && s[tip].Commit? && s[tip].tree in s && s[s[tip].tree].Tree?
    && s[s[tip].tree].typed.config == Some(Config(epoch))
  }

  /** The epoch in force is the one the tip of `refs/meta/config` records; without that ref there is none. */
  lemma EpochIs(refs: Refs, s: Store, epoch: Option<nat>)
    ensures CurrentEpoch(refs, s) == Ok(epoch) <==>
              if "refs/meta/config" in refs then ReadsAsConfig(s, refs["refs/meta/config"], epoch) else epoch == None
    ensures forall tip :: RecordsEpoch(s, Update("refs/meta/config", Some(tip))) <==>
              exists n :: ReadsAsConfig(s, tip, Some(n))
    ensures forall update :: RecordsEpoch(s, update) ==> update.name == "refs/meta/config" && update.after.Some?
  {
    forall tip
      ensures RecordsEpoch(s, Update("refs/meta/config", Some(tip))) <==> exists n :: ReadsAsConfig(s, tip, Some(n))
    {
      if RecordsEpoch(s, Update("refs/meta/config", Some(tip))) {
        assert ReadsAsConfig(s, tip, Some(ConfigAt(s, tip).value.epoch.value));
      }
    }
  }

  // -- which requirement a refusal names --------------------------------------------------

  ghost predicate SignerIs(env: Env, refs: Refs, s: Store, tip: Oid, id: string, member: Member) {
    tip in s && s[tip].Commit? && Signer(env, refs, s, tip) == Ok(Some((id, member)))
  }

  /** A refusal is for binding when an active, authorized signer's content names another ref; for descent when nothing
      else is wrong, or on deletion; and for the signature when there is no commit, no signer, or one revoked or out of
      bounds. */
  lemma RefusesIff(env: Env, refs: Refs, s: Store, update: Update)
    requires IsMeta(update.name) && Gated(refs, s, update) && Members(refs) != []
    ensures update.after.None? ==> Verify(env, refs, s, update) == Ok(Refuse(FastForward, update.name))
    ensures update.after.Some? ==>
              (Verify(env, refs, s, update) == Ok(Refuse(IdentityBinding, update.name)) <==>
                 exists id, member :: SignerIs(env, refs, s, update.after.value, id, member)
                   && member.state == Active && Authorized(update.name, id, member)
                   && Bound(env, s, update.name, update.after.value, id) == Ok(false))
    ensures update.after.Some? ==>
              (Verify(env, refs, s, update) == Ok(Refuse(FastForward, update.name)) <==>
                 && update.after.value in s && s[update.after.value].Commit?
                 && (exists id, member :: Vouched(env, refs, s, update, id, member))
                 && update.name in refs && !Reaches(CommitGraph(s), update.after.value, refs[update.name]))
    ensures update.after.Some? ==>
              (Verify(env, refs, s, update) == Ok(Refuse(TipSigned, update.name)) <==>
                 && !Broken(s, update.after.value)
                 && (Signer(env, refs, s, update.after.value) == Ok(None)
                     || exists id, member :: SignerIs(env, refs, s, update.after.value, id, member)
                          && (member.state == Revoked || !Authorized(update.name, id, member))))
  {
    hide Bound, Reaches, OwnerMayMutate, Members, CommitGraph, CurrentEpoch, RecordsEpoch, Authorized,
      Signature.Split, FindSigner, IsMeta, FirstMatch;
    if update.after.Some? && update.after.value in s && s[update.after.value].Commit? {
      var tip := update.after.value;
      match Signer(env, refs, s, tip)
      case Ok(Some((id, member))) =>
        var members, before := Members(refs), Tip(refs, update.name);
        assert SignerIs(env, refs, s, tip, id, member);
        if Authorized(update.name, id, member) && Bound(env, s, update.name, tip, id) == Ok(true) {
          OwnershipNeverDecides(env, s, update.name, before, tip, members, id, member);
        }
        if member.state == Active && Authorized(update.name, id, member)
           && Bound(env, s, update.name, tip, id) == Ok(true) {
          assert Vouched(env, refs, s, update, id, member);
        }
      case _ =>
    }
  }

  /** A tip that is missing or a corrupt commit cannot be judged; any other object that is no commit is refused. */
  lemma TipReads(env: Env, refs: Refs, s: Store, update: Update)
    requires IsMeta(update.name) && Gated(refs, s, update) && update.after.Some?
    ensures var tip, v := update.after.value, Verify(env, refs, s, update);
            && (tip !in s ==> v == Err(MissingObject(tip)))
            && (tip in s && s[tip] == Corrupt(true) ==> v == Err(UndecodableObject(tip)))
            && (tip in s && !s[tip].Commit? && s[tip] != Corrupt(true) ==> v == Ok(Refuse(TipSigned, update.name)))
  {
    hide JudgeSigned, JudgeBootstrap, Members, CurrentEpoch, RecordsEpoch, Signature.Split, FindSigner, IsMeta;
  }

  /** The tip enrolls a member under whose own key it is signed. */
  ghost predicate EnrollsItself(env: Env, s: Store, tip: Oid, pushed: Member) {
    && tip in s && s[tip].Commit? && s[tip].tree in s && s[s[tip].tree].Tree?
    && s[s[tip].tree].typed.member == Some(pushed)
    && Signature.Split(env.utf8, s[tip].raw).Some?
    && env.verifies(pushed.key, Signature.Split(env.utf8, s[tip].raw).value.0,
                    Signature.Split(env.utf8, s[tip].raw).value.1)
  }

  /** With no member enrolled: a member that enrolls itself under another's name is refused for binding, whatever else
      is readable for the signature; and descent alone is never at fault, since the ref cannot exist yet. */
  lemma BootstrapRefusesIff(env: Env, refs: Refs, s: Store, update: Update)
    requires IsMeta(update.name) && Gated(refs, s, update) && Members(refs) == [] && update.after.Some?
    ensures Verify(env, refs, s, update) != Ok(Refuse(FastForward, update.name))
    ensures Verify(env, refs, s, update) == Ok(Refuse(IdentityBinding, update.name)) <==>
              && InSpace(update.name, "refs/meta/member")
              && exists pushed :: EnrollsItself(env, s, update.after.value, pushed)
                   && (update.name != "refs/meta/member/" + pushed.id || !env.validName(update.name))
    ensures Verify(env, refs, s, update) == Ok(Refuse(TipSigned, update.name)) <==>
              && !Broken(s, update.after.value)
              && !(InSpace(update.name, "refs/meta/member")
                   && exists pushed :: EnrollsItself(env, s, update.after.value, pushed))
  {
    hide Reaches, Members, CommitGraph, CurrentEpoch, RecordsEpoch, Signature.Split, IsMeta, Classify;
    ClassifyTable(update.name);
    NoMemberRefs(refs, update.name);
    var tip := update.after.value;
    if tip in s && s[tip].Commit? && s[tip].tree in s && s[s[tip].tree].Tree? && s[s[tip].tree].typed.member.Some? {
      var pushed := s[s[tip].tree].typed.member.value;
      assert EnrollsItself(env, s, tip, pushed) <==> exists p :: EnrollsItself(env, s, tip, p);
    }
  }

  lemma NoMemberRefs(refs: Refs, name: string)
    requires Members(refs) == []
    ensures MEMBERS <= name ==> name !in refs
  {
    assert MemberNames(refs) == {};
  }

  // -- when the gate cannot judge ---------------------------------------------------------

  /** An error says what is wrong: an object that is missing, one that is no commit, or a commit whose tree reads as
      neither the member nor the config it should hold. */
  predicate ErrorIs(s: Store, e: GateError) {
    match e
    case MissingObject(o) => o !in s
    case UndecodableObject(o) => o in s && !s[o].Commit?
    case UnreadableEntity(o) =>
      && o in s && s[o].Commit?
      && !(s[o].tree in s && s[s[o].tree].Tree? && s[s[o].tree].typed.member.Some? && s[s[o].tree].typed.config.Some?)
  }

  lemma FieldErrorIs(env: Env, s: Store, tree: Oid)
    ensures forall field, text :: FieldIs(env, s, tree, field, text).Err? ==>
              ErrorIs(s, FieldIs(env, s, tree, field, text).error)
    ensures forall field :: FieldHex(s, tree, field).Err? ==> ErrorIs(s, FieldHex(s, tree, field).error)
    ensures forall fields, asResult :: StrictDecode(s, tree, fields, asResult).Err? ==>
              ErrorIs(s, StrictDecode(s, tree, fields, asResult).error)
  {
    hide HexOf;
  }

  lemma EntityErrorIs(s: Store, tip: Oid)
    ensures MemberCurrent(s, tip).Err? ==> ErrorIs(s, MemberCurrent(s, tip).error)
    ensures ConfigAt(s, tip).Err? ==> ErrorIs(s, ConfigAt(s, tip).error)
    ensures Roots(s, tip).Err? ==> ErrorIs(s, Roots(s, tip).error)
  {
    hide RootSet, Walkable;
  }

  lemma BoundErrorIs(env: Env, s: Store, name: string, tip: Oid, signer: string)
    requires tip in s && s[tip].Commit?
    ensures Bound(env, s, name, tip, signer).Err? ==> ErrorIs(s, Bound(env, s, name, tip, signer).error)
    decreases |name|
  {
    hide FieldIs, FieldHex, StrictDecode, Classify, ParseReviewRef, ParseResultRef, ParseOid, Roots, CanonicalOfInbox,
      InboxOwner, SelfRunOwner, FinalSegment, ErrorIs;
    FieldErrorIs(env, s, s[tip].tree);
    EntityErrorIs(s, tip);
    if Classify(name) == Some(Inbox) && CanonicalOfInbox(name).Some? && env.validName(CanonicalOfInbox(name).value) {
      BoundErrorIs(env, s, CanonicalOfInbox(name).value, tip, signer);
    }
  }

  /** Whatever the gate reports instead of a verdict is so. */
  lemma VerifyErrorIs(env: Env, refs: Refs, s: Store, update: Update)
    ensures Verify(env, refs, s, update).Err? ==> ErrorIs(s, Verify(env, refs, s, update).error)
  {
    hide Bound, Reaches, OwnerMayMutate, CommitGraph, ConfigAt, RecordsEpoch, Authorized, Signature.Split, FindSigner,
      IsMeta, ErrorIs, JudgeBootstrap, MemberCurrent, Matches;
    if CONFIG_REF in refs {
      EntityErrorIs(s, refs[CONFIG_REF]);
    }
    if update.after.Some? {
      var tip := update.after.value;
      BrokenErrorIs(s, tip);
      if tip in s && s[tip].Commit? && Signature.Split(env.utf8, s[tip].raw).Some? {
        var (payload, sig) := Signature.Split(env.utf8, s[tip].raw).value;
        SignerErrorIs(env, s, Members(refs), payload, sig);
        match FindSigner(env, s, Members(refs), payload, sig)
        case Ok(Some((id, member))) =>
          BoundErrorIs(env, s, update.name, tip, id);
          if Bound(env, s, update.name, tip, id) == Ok(true) && Authorized(update.name, id, member) {
            OwnershipNeverDecides(env, s, update.name, Tip(refs, update.name), tip, Members(refs), id, member);
          }
        case _ =>
      }
    }
  }

  lemma BrokenErrorIs(s: Store, o: Oid)
    ensures Broken(s, o) ==> ErrorIs(s, ReadError(s, o))
  {
  }

  lemma SignerErrorIs(env: Env, s: Store, members: seq<Enrolled>, payload: Bytes, sig: string)
    ensures FindSigner(env, s, members, payload, sig).Err? ==>
              ErrorIs(s, FindSigner(env, s, members, payload, sig).error)
  {
    hide ErrorIs, FindSigner, MemberCurrent, Matches, PassedOver;
    match FindSigner(env, s, members, payload, sig)
    case Err(e) =>
      var i :| 0 <= i < |members| && MemberCurrent(s, members[i].tip) == Err(e);
      EntityErrorIs(s, members[i].tip);
    case _ =>
  }
}
