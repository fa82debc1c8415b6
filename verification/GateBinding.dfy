/** A signed commit names its own ref: to how many refnames one tip can be bound. */
module GateBinding {
  import opened Graph
  import opened Objects
  import opened Text
  import opened Namespace
  import opened GateObjects
  import opened Gate

  // -- inbox refs ---------------------------------------------------------------------

  /** The refname an inbox ref stands for, owner by owner, as long as the name that leaves is valid. */
  ghost function Stands(env: Env, name: string): (n: string)
    decreases |name|
  {
    match CanonicalOfInbox(name)
    case Some(canonical) =>
      if Classify(name) == Some(Inbox) && env.validName(canonical) then Stands(env, canonical) else name
    case None => name
  }

  /** Every inbox layer of the name is the signer's own. */
  ghost predicate OwnLayers(env: Env, name: string, signer: string)
    decreases |name|
  {
    Classify(name) == Some(Inbox) ==>
      && InboxOwner(name) == Some(signer)
      && (CanonicalOfInbox(name).Some? && env.validName(CanonicalOfInbox(name).value) ==>
            OwnLayers(env, CanonicalOfInbox(name).value, signer))
  }

  /** A tip is bound to a refname exactly when every inbox layer is the signer's and the tip is bound to what the name
      stands for. */
  lemma {:induction false} BoundIffStands(env: Env, s: Store, name: string, tip: Oid, signer: string)
    requires tip in s && s[tip].Commit?
    ensures Bound(env, s, name, tip, signer) == Ok(true) <==>
              && OwnLayers(env, name, signer)
              && (Classify(Stands(env, name)) != Some(Inbox) ==>
                  Bound(env, s, Stands(env, name), tip, signer) == Ok(true))
    decreases |name|
  {
    hide Classify, InboxOwner, CanonicalOfInbox, BindHashIdentified, BoundReview, BoundResult, BoundClaim, FieldIs,
      FinalSegment;
    if Classify(name) == Some(Inbox) && CanonicalOfInbox(name).Some? && env.validName(CanonicalOfInbox(name).value) {
      BoundIffStands(env, s, CanonicalOfInbox(name).value, tip, signer);
    }
  }

  /** What an inbox ref stands for keeps its final segment. */
  lemma {:induction false} StandsKeepsFinalSegment(env: Env, name: string)
    ensures FinalSegment(Stands(env, name)) == FinalSegment(name)
    decreases |name|
  {
    hide FinalSegment, Classify, CanonicalOfInbox;
    if CanonicalOfInbox(name).Some? {
      CanonicalKeepsFinalSegment(name);
      StandsKeepsFinalSegment(env, CanonicalOfInbox(name).value);
    }
  }

  // -- replaying a tip ------------------------------------------------------------------

  /** Two refnames of one namespace that a signer's tip cannot tell apart. */
  ghost predicate SameIdentity(m: string, n: string) {
    match Classify(m)
    case Some(MemberSpace) => FinalSegment(m) == FinalSegment(n)
    case Some(Effect) => FinalSegment(m) == FinalSegment(n)
    case Some(Toolchain) => FinalSegment(m) == FinalSegment(n)
    case Some(Issue) => ParseOid(FinalSegment(m)) == ParseOid(FinalSegment(n))
    case Some(Comment) => ParseOid(FinalSegment(m)) == ParseOid(FinalSegment(n))
    case Some(ClaimSpace) => ParseOid(FinalSegment(m)) == ParseOid(FinalSegment(n))
    case Some(Review) => ParseReviewRef(m) == ParseReviewRef(n)
    case _ => true
  }

  /** A tip whose content names one ref is bound to another, in an inbox or not, exactly when every inbox layer of that
      one is the signer's and the two stand for names that share the key their namespace is identified by: the final
      segment, the genesis id, or the review's target and author. */
  lemma ReplayBindsIff(env: Env, s: Store, m: string, n: string, tip: Oid, signer: string)
    requires tip in s && s[tip].Commit?
    requires Classify(Stands(env, m)) == Classify(Stands(env, n)) && Classify(Stands(env, m)).Some?
    requires Classify(Stands(env, m)).value in {MemberSpace, Effect, Toolchain, Issue, Comment, ClaimSpace, Review}
    requires Bound(env, s, m, tip, signer) == Ok(true)
    ensures Bound(env, s, n, tip, signer) == Ok(true) <==>
              OwnLayers(env, n, signer) && SameIdentity(Stands(env, m), Stands(env, n))
  {
    hide Bound, Classify, OwnLayers, Stands, SameIdentity;
    BoundIffStands(env, s, m, tip, signer);
    BoundIffStands(env, s, n, tip, signer);
    CanonicalReplayBindsIff(env, s, Stands(env, m), Stands(env, n), tip, signer);
  }

  lemma CanonicalReplayBindsIff(env: Env, s: Store, m: string, n: string, tip: Oid, signer: string)
    requires tip in s && s[tip].Commit?
    requires Classify(m) == Classify(n) && Classify(m).Some?
    requires Classify(m).value in {MemberSpace, Effect, Toolchain, Issue, Comment, ClaimSpace, Review}
    requires Bound(env, s, m, tip, signer) == Ok(true)
    ensures Bound(env, s, n, tip, signer) == Ok(true) <==> SameIdentity(m, n)
  {
    hide Classify, FinalSegment, ParseOid, ParseReviewRef, RootSet, Walkable, StrictDecode, FieldHex;
    if Classify(m) == Some(Issue) || Classify(m) == Some(Comment) {
      var expected := ParseOid(FinalSegment(m)).value;
      assert RootSet(s, tip) == {expected};
      SingletonIs(RootSet(s, tip), expected);
    }
  }

  lemma SingletonIs(roots: set<Oid>, expected: Oid)
    requires roots == {expected}
    ensures forall other :: roots == {other} <==> other == expected
  {
    forall other | roots == {other}
      ensures other == expected
    {
      assert other in roots;
    }
  }

  lemma BoundReviewIs(env: Env, s: Store, n: string, tip: Oid, signer: string)
    requires tip in s && s[tip].Commit? && Classify(n) == Some(Review) && Bound(env, s, n, tip, signer) == Ok(true)
    ensures ParseReviewRef(n).Some? && ParseReviewRef(n).value.1 == signer
    ensures FieldHex(s, s[tip].tree, "target") == Ok(Some(ParseReviewRef(n).value.0))
  {
    hide FieldHex, FinalSegment, Classify, ParseReviewRef;
  }

  /** A review tip is bound to one refname only. */
  lemma ReviewNamesOneRef(env: Env, s: Store, m: string, n: string, tip: Oid, signer: string)
    requires tip in s && s[tip].Commit?
    requires Classify(m) == Some(Review) && Classify(n) == Some(Review)
    requires Bound(env, s, m, tip, signer) == Ok(true) && Bound(env, s, n, tip, signer) == Ok(true)
    ensures m == n
  {
    hide FieldHex, FinalSegment, Bound, Classify, ParseReviewRef;
    BoundReviewIs(env, s, m, tip, signer);
    BoundReviewIs(env, s, n, tip, signer);
    ReviewRefPrefix(m);
    ReviewRefPrefix(n);
    ReviewRefText(m);
    ReviewRefText(n);
  }

  lemma ReviewRefPrefix(n: string)
    requires Classify(n) == Some(Review) && ParseReviewRef(n).Some?
    ensures "refs/meta/reviews/" <= n
  {
    hide Classify, ParseReviewRef;
    ClassifyTable(n);
    if n == META + "reviews" {
      TooShortForReview(n);
    }
  }

  lemma TooShortForReview(n: string)
    requires |n| == 17
    ensures ParseReviewRef(n) == None
  {
    assert |"refs/meta/reviews/"| == 18 && |"refs/meta/pins/reviews/"| == 23;
  }

  lemma ReviewRefText(n: string)
    requires "refs/meta/reviews/" <= n && ParseReviewRef(n).Some?
    ensures n == "refs/meta/reviews/" + ParseReviewRef(n).value.0 + "/" + ParseReviewRef(n).value.1
  {
    var rest := n[|"refs/meta/reviews/"|..];
    assert StripPrefix(n, "refs/meta/reviews/") == Some(rest);
  }

  /** Result refs one tip can be bound to name the same effect, and a prefix of the same target. */
  lemma ResultNamesOneTarget(env: Env, s: Store, m: string, n: string, tip: Oid, signer: string)
    requires tip in s && s[tip].Commit?
    requires Classify(m) in {Some(ResultSpace), Some(SelfRun)} && Classify(n) in {Some(ResultSpace), Some(SelfRun)}
    requires Bound(env, s, m, tip, signer) == Ok(true) && Bound(env, s, n, tip, signer) == Ok(true)
    ensures ParseResultRef(m).Some? && ParseResultRef(n).Some?
    ensures ParseResultRef(m).value.0 == ParseResultRef(n).value.0
    ensures ParseResultRef(m).value.1 <= ParseResultRef(n).value.1
            || ParseResultRef(n).value.1 <= ParseResultRef(m).value.1
    ensures Classify(m) == Some(SelfRun) ==> SelfRunOwner(m) == Some(signer)
  {
    hide Classify, ParseResultRef, StrictDecode, FieldHex, SelfRunOwner;
  }
}
