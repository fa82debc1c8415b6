/** Refname namespaces under `refs/meta/`. */
module Namespace {
  import opened Objects
  import opened Text

  const META := "refs/meta/"
  const CONFIG_REF := "refs/meta/config"
  const MEMBERS := "refs/meta/member/"
  const INBOX := "refs/meta/inbox/"
  const SELF := "refs/meta/self/"

  datatype Space =
    | MemberSpace | Issue | Comment | Review | Pin | Effect | ResultSpace | SelfRun | Toolchain | Redaction
    | Inbox | Account | ConfigSpace | ClaimSpace | Unknown

  predicate IsMeta(name: string) {
    META <= name
  }

  /** The part before the first `/`, or all of it. */
  function FirstSegment(s: string): string {
    match SplitOnce(s, '/')
    case None => s
    case Some((a, _)) => a
  }

  function Classify(name: string): (r: Option<Space>)
    ensures r.Some? <==> IsMeta(name)
  {
    match StripPrefix(name, META)
    case None => None
    case Some(rest) =>
      if rest == "account" then Some(Account)
      else if rest == "config" then Some(ConfigSpace)
      else
        var segment := FirstSegment(rest);
        if segment == "member" then Some(MemberSpace)
        else if segment == "issues" then Some(Issue)
        else if segment == "comments" then Some(Comment)
        else if segment == "reviews" then Some(Review)
        else if segment == "pins" then Some(Pin)
        else if segment == "effects" then Some(Effect)
        else if segment == "results" then Some(ResultSpace)
        else if segment == "self" then Some(SelfRun)
        else if segment == "toolchains" then Some(Toolchain)
        else if segment == "redactions" then Some(Redaction)
        else if segment == "inbox" then Some(Inbox)
        else if segment == "claims" then Some(ClaimSpace)
        else Some(Unknown)
  }

  /** The segment a space's refnames lie under; the two singletons are a whole name. */
  function SegmentOf(space: Space): (segment: string)
    ensures '/' !in segment
  {
    match space
    case MemberSpace => "member"
    case Issue => "issues"
    case Comment => "comments"
    case Review => "reviews"
    case Pin => "pins"
    case Effect => "effects"
    case ResultSpace => "results"
    case SelfRun => "self"
    case Toolchain => "toolchains"
    case Redaction => "redactions"
    case Inbox => "inbox"
    case ClaimSpace => "claims"
    case Account => "account"
    case ConfigSpace => "config"
    case Unknown => ""
  }

  /** A singleton space holds one refname; a segmented one its bare name and every name below it; what is left is
      unknown. */
  lemma ClassifyBySegment(name: string, space: Space)
    requires space != Unknown
    ensures Classify(name) == Some(space) <==>
              name == META + SegmentOf(space)
              || (!space.Account? && !space.ConfigSpace? && META + SegmentOf(space) + "/" <= name)
  {
    hide Classify, FirstSegment, SegmentOf;
    if META <= name {
      var rest, segment := name[|META|..], SegmentOf(space);
      assert name == META + rest;
      BySegment(name, space);
      FirstSegmentIff(rest, segment);
      PrefixUnder(META, segment, rest);
      assert name == META + segment <==> rest == segment by {
        assert (META + segment)[|META|..] == segment;
      }
      assert META + segment + "/" == META + (segment + "/");
      PrefixUnder(META, segment + "/", rest);
      if !space.Account? && !space.ConfigSpace? && (rest == segment || segment + "/" <= rest) {
        NoTail(rest, segment, space);
      }
    } else {
      NoMetaPrefix(name, SegmentOf(space));
      NotMeta(name);
    }
  }

  /** `name` is the refname itself, or lies below it. */
  predicate InSpace(name: string, space: string) {
    name == space || space + "/" <= name
  }

  /** The namespaces, each by its own refnames. */
  lemma ClassifyTable(name: string)
    ensures Classify(name) == None <==> !("refs/meta/" <= name)
    ensures Classify(name) == Some(Account) <==> name == "refs/meta/account"
    ensures Classify(name) == Some(ConfigSpace) <==> name == "refs/meta/config"
    ensures Classify(name) == Some(MemberSpace) <==> InSpace(name, "refs/meta/member")
    ensures Classify(name) == Some(Issue) <==> InSpace(name, "refs/meta/issues")
    ensures Classify(name) == Some(Comment) <==> InSpace(name, "refs/meta/comments")
    ensures Classify(name) == Some(Review) <==> InSpace(name, "refs/meta/reviews")
    ensures Classify(name) == Some(Pin) <==> InSpace(name, "refs/meta/pins")
    ensures Classify(name) == Some(Effect) <==> InSpace(name, "refs/meta/effects")
    ensures Classify(name) == Some(ResultSpace) <==> InSpace(name, "refs/meta/results")
    ensures Classify(name) == Some(SelfRun) <==> InSpace(name, "refs/meta/self")
    ensures Classify(name) == Some(Toolchain) <==> InSpace(name, "refs/meta/toolchains")
    ensures Classify(name) == Some(Redaction) <==> InSpace(name, "refs/meta/redactions")
    ensures Classify(name) == Some(Inbox) <==> InSpace(name, "refs/meta/inbox")
    ensures Classify(name) == Some(ClaimSpace) <==> InSpace(name, "refs/meta/claims")
  {
    hide Classify, InSpace, SegmentOf;
    NoSpace(name);
    SegmentTexts();
    OneSpace(name, Account);
    OneSpace(name, ConfigSpace);
    OneSpace(name, MemberSpace);
    OneSpace(name, Issue);
    OneSpace(name, Comment);
    OneSpace(name, Review);
    OneSpace(name, Pin);
    OneSpace(name, Effect);
    OneSpace(name, ResultSpace);
    OneSpace(name, SelfRun);
    OneSpace(name, Toolchain);
    OneSpace(name, Redaction);
    OneSpace(name, Inbox);
    OneSpace(name, ClaimSpace);
  }

  lemma NoSpace(name: string)
    ensures Classify(name) == None <==> !("refs/meta/" <= name)
  {
  }

  /** How the namespaces are written. */
  lemma SegmentTexts()
    ensures META + SegmentOf(Account) == "refs/meta/account"
    ensures META + SegmentOf(ConfigSpace) == "refs/meta/config"
    ensures META + SegmentOf(MemberSpace) == "refs/meta/member"
    ensures META + SegmentOf(Issue) == "refs/meta/issues"
    ensures META + SegmentOf(Comment) == "refs/meta/comments"
    ensures META + SegmentOf(Review) == "refs/meta/reviews"
    ensures META + SegmentOf(Pin) == "refs/meta/pins"
    ensures META + SegmentOf(Effect) == "refs/meta/effects"
    ensures META + SegmentOf(ResultSpace) == "refs/meta/results"
    ensures META + SegmentOf(SelfRun) == "refs/meta/self"
    ensures META + SegmentOf(Toolchain) == "refs/meta/toolchains"
    ensures META + SegmentOf(Redaction) == "refs/meta/redactions"
    ensures META + SegmentOf(Inbox) == "refs/meta/inbox"
    ensures META + SegmentOf(ClaimSpace) == "refs/meta/claims"
  {
  }

  lemma OneSpace(name: string, space: Space)
    requires space != Unknown
    ensures Classify(name) == Some(space) <==>
              var text := META + SegmentOf(space);
              if space.Account? || space.ConfigSpace? then name == text else InSpace(name, text)
  {
    hide Classify, SegmentOf;
    ClassifyBySegment(name, space);
  }

  /** The two singletons are compared whole, the rest by their first segment. */
  lemma BySegment(name: string, space: Space)
    requires META <= name && space != Unknown
    ensures var rest := name[|META|..];
            Classify(name) == Some(space) <==>
              if space.Account? || space.ConfigSpace? then rest == SegmentOf(space)
              else rest != "account" && rest != "config" && FirstSegment(rest) == SegmentOf(space)
  {
    hide FirstSegment;
  }

  lemma NoTail(rest: string, segment: string, space: Space)
    requires segment == SegmentOf(space) && !space.Account? && !space.ConfigSpace? && space != Unknown
    requires rest == segment || segment + "/" <= rest
    ensures rest != "account" && rest != "config"
  {
    assert '/' !in "account" && '/' !in "config";
    if segment + "/" <= rest {
      SlashInside(rest, segment);
    }
  }

  lemma SlashInside(rest: string, segment: string)
    requires segment + "/" <= rest
    ensures '/' in rest
  {
    assert rest[|segment|] == (segment + "/")[|segment|];
  }

  lemma NotMeta(name: string)
    requires !(META <= name)
    ensures Classify(name) == None
  {
  }

  lemma PrefixUnder(p: string, a: string, b: string)
    ensures p + a <= p + b <==> a <= b
  {
    if a <= b {
      assert p + b == p + a + b[|a|..];
    }
    if p + a <= p + b {
      assert a == (p + a)[|p|..] == (p + b)[|p|..][..|a|] == b[..|a|];
    }
  }

  lemma NoMetaPrefix(name: string, segment: string)
    requires !(META <= name)
    ensures name != META + segment && !(META + segment + "/" <= name)
  {
    if META + segment + "/" <= name {
      LongerPrefix(META, segment + "/", name);
    }
  }

  lemma LongerPrefix(p: string, q: string, name: string)
    requires p + q <= name
    ensures p <= name
  {
    assert p == (p + q)[..|p|] == name[..|p|];
  }

  lemma FirstSegmentIff(s: string, segment: string)
    requires '/' !in segment
    ensures FirstSegment(s) == segment <==> s == segment || segment + "/" <= s
  {
    if segment + "/" <= s {
      assert s == segment + ['/'] + s[|segment| + 1..];
      SplitOnceAt(segment, '/', s[|segment| + 1..]);
    }
    if SplitOnce(s, '/').Some? {
      var (a, b) := SplitOnce(s, '/').value;
      assert s == a + "/" + b;
      assert a + "/" <= s;
    }
  }

  /** The segment after `prefix`, when another one follows it. */
  function OwnerUnder(prefix: string, name: string): (r: Option<string>)
    ensures forall owner :: r == Some(owner) <==> '/' !in owner && prefix + owner + "/" <= name
  {
    match StripPrefix(name, prefix)
    case None =>
      assert forall owner: string :: prefix <= prefix + owner + "/";
      None
    case Some(rest) =>
      OwnerUnique(prefix, rest);
      match SplitOnce(rest, '/')
      case None => None
      case Some((owner, _)) => Some(owner)
  }

  lemma OwnerUnique(prefix: string, rest: string)
    ensures forall owner :: ('/' !in owner && prefix + owner + "/" <= prefix + rest) <==>
              SplitOnce(rest, '/').Some? && SplitOnce(rest, '/').value.0 == owner
  {
    hide SplitOnce;
    forall owner
      ensures ('/' !in owner && prefix + owner + "/" <= prefix + rest) <==>
                SplitOnce(rest, '/').Some? && SplitOnce(rest, '/').value.0 == owner
    {
      assert prefix + owner + "/" == prefix + (owner + "/");
      PrefixUnder(prefix, owner + "/", rest);
      OwnerSplits(rest, owner);
    }
  }

  lemma OwnerSplits(rest: string, owner: string)
    ensures '/' !in owner && owner + "/" <= rest <==>
              SplitOnce(rest, '/').Some? && SplitOnce(rest, '/').value.0 == owner
  {
    hide SplitOnce;
    if '/' !in owner && owner + "/" <= rest {
      assert rest == owner + ['/'] + rest[|owner| + 1..];
      SplitOnceAt(owner, '/', rest[|owner| + 1..]);
    }
    if SplitOnce(rest, '/').Some? && SplitOnce(rest, '/').value.0 == owner {
      assert rest == owner + "/" + SplitOnce(rest, '/').value.1;
    }
  }

  function SelfRunOwner(name: string): Option<string> {
    OwnerUnder(SELF, name)
  }

  function InboxOwner(name: string): Option<string> {
    OwnerUnder(INBOX, name)
  }

  /** The target and member a review or review-pin refname names. */
  function ParseReviewRef(name: string): Option<(string, string)> {
    var rest := match StripPrefix(name, "refs/meta/reviews/")
      case Some(r) => Some(r)
      case None => StripPrefix(name, "refs/meta/pins/reviews/");
    match rest
    case None => None
    case Some(rest) =>
      match SplitOnce(rest, '/')
      case None => None
      case Some((target, member)) =>
        if target == "" || member == "" || '/' in member then None else Some((target, member))
  }

  /** The effect and short oid a canonical or self-run result refname names. */
  function ParseResultRef(name: string): Option<(string, string)> {
    match StripPrefix(name, META)
    case None => None
    case Some(rest) =>
      var tail := match StripPrefix(rest, "results/")
        case Some(canonical) => Some(canonical)
        case None =>
          match StripPrefix(rest, "self/")
          case None => None
          case Some(own) =>
            match SplitOnce(own, '/')
            case None => None
            case Some((_, effectAndOid)) => Some(effectAndOid);
      match tail
      case None => None
      case Some(tail) =>
        match SplitOnce(tail, '/')
        case None => None
        case Some((effect, short)) =>
          if effect == "" || short == "" || '/' in short then None else Some((effect, short))
  }

  lemma FinalTail(a: string, rest: string, s: string)
    requires s == rest || (|s| < |rest| && rest[|rest| - |s| - 1..] == "/" + s)
    ensures (a + "/" + rest)[|a| + |rest| - |s|..] == "/" + s
  {
    var name := a + "/" + rest;
    if s == rest {
      assert name[|a|..] == "/" + rest;
    } else {
      assert name[|a| + 1..] == rest;
      assert name[|a| + |rest| - |s|..] == name[|a| + 1..][|rest| - |s| - 1..];
    }
  }

  /** The part after the last `/`, or all of it. */
  function FinalSegment(name: string): (s: string)
    ensures '/' !in s
    ensures s == name || (|s| < |name| && name[|name| - |s| - 1..] == "/" + s)
    decreases |name|
  {
    match SplitOnce(name, '/')
    case None => name
    case Some((a, rest)) =>
      var s := FinalSegment(rest);
      FinalTail(a, rest, s);
      s
  }

  /** The canonical name an inbox ref stands for: its suffix under the owner, moved up to `refs/meta/`. */
  function CanonicalOfInbox(name: string): (r: Option<string>)
    ensures r.Some? ==> |r.value| < |name|
  {
    match StripPrefix(name, INBOX)
    case None => None
    case Some(rest) =>
      match SplitOnce(rest, '/')
      case None => None
      case Some((_, suffix)) => Some(META + suffix)
  }

  /** The final segment is what follows the last slash, whatever stands before it. */
  lemma {:induction false} FinalSegmentAfter(a: string, rest: string)
    ensures FinalSegment(a + "/" + rest) == FinalSegment(rest)
    decreases |a|
  {
    var s := a + "/" + rest;
    match SplitOnce(a, '/')
    case None =>
      assert s == a + ['/'] + rest;
      SplitOnceAt(a, '/', rest);
    case Some((head, tail)) =>
      assert s == head + ['/'] + (tail + "/" + rest);
      SplitOnceAt(head, '/', tail + "/" + rest);
      FinalSegmentAfter(tail, rest);
  }

  /** Moving an inbox ref up keeps its final segment. */
  lemma CanonicalKeepsFinalSegment(name: string)
    requires CanonicalOfInbox(name).Some?
    ensures FinalSegment(CanonicalOfInbox(name).value) == FinalSegment(name)
  {
    hide FinalSegment, SplitOnce;
    var rest := name[|INBOX|..];
    assert StripPrefix(name, INBOX) == Some(rest) && name == INBOX + rest;
    var (owner, suffix) := SplitOnce(rest, '/').value;
    assert name == (INBOX + owner) + "/" + suffix;
    FinalSegmentAfter(INBOX + owner, suffix);
    assert META + suffix == "refs/meta" + "/" + suffix;
    FinalSegmentAfter("refs/meta", suffix);
  }
}
