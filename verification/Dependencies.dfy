/** Which effects a trigger is downstream of, by its text alone. */
module Dependencies {
  import opened Graph
  import opened Objects
  import opened Text
  import opened Query
  import opened Denotation
  import opened Parse
  import opened RoundTrip
  import opened Writeback
  import Pattern

  /** The tree has a `results` atom of the effect. */
  predicate DependsOn(q: Query, effect: string) {
    match q
    case Results(e, _) => e == effect
    case Op(_, l, r) => DependsOn(l, effect) || DependsOn(r, effect)
    case _ => false
  }

  /** The effect names of the tree's `results` atoms, left to right. */
  function Atoms(q: Query): seq<string> {
    match q
    case Results(e, _) => [e]
    case Op(_, l, r) => Atoms(l) + Atoms(r)
    case _ => []
  }

  /** The position of the first `e`. */
  function FirstAt(names: seq<string>, e: string): (i: nat)
    requires e in names
    ensures i < |names| && names[i] == e && e !in names[..i]
  {
    if names[0] == e then 0 else 1 + FirstAt(names[1..], e)
  }

  /** `list` holds each of `names` once, in the order of first appearance. */
  ghost predicate ByFirstAppearance(list: seq<string>, names: seq<string>) {
    && Distinct(list) && (forall e :: e in list <==> e in names)
    && (forall i, j :: 0 <= i < j < |list| && list[i] in names && list[j] in names ==>
         FirstAt(names, list[i]) < FirstAt(names, list[j]))
  }

  lemma {:induction false} FirstAtAppended(names: seq<string>, more: seq<string>, e: string)
    requires e in names + more
    ensures e in names ==> FirstAt(names + more, e) == FirstAt(names, e)
    ensures e !in names ==> e in more && FirstAt(names + more, e) >= |names|
  {
    if names == [] {
      assert names + more == more;
    } else {
      assert (names + more)[1..] == names[1..] + more;
      if names[0] != e {
        FirstAtAppended(names[1..], more, e);
      }
    }
  }

  /** Append the effects of `q` to the list of those of what stands before it. */
  method CollectDependencies(q: Query, out: seq<string>, ghost seen: seq<string>) returns (more: seq<string>)
    requires ByFirstAppearance(out, seen)
    ensures ByFirstAppearance(more, seen + Atoms(q)) && out <= more
    decreases q
  {
    hide ByFirstAppearance;
    match q {
      case Results(effect, _) =>
        AppendOne(out, seen, effect);
        more := if effect in out then out else out + [effect];
      case Op(_, lhs, rhs) =>
        more := CollectDependencies(lhs, out, seen);
        more := CollectDependencies(rhs, more, seen + Atoms(lhs));
        assert seen + Atoms(lhs) + Atoms(rhs) == seen + (Atoms(lhs) + Atoms(rhs));
      case _ =>
        assert seen + [] == seen;
        more := out;
    }
  }

  lemma AppendOne(out: seq<string>, seen: seq<string>, effect: string)
    requires ByFirstAppearance(out, seen)
    ensures ByFirstAppearance(if effect in out then out else out + [effect], seen + [effect])
  {
    var list := if effect in out then out else out + [effect];
    forall e
      ensures e in list <==> e in seen + [effect]
    {
    }
    forall i, j | 0 <= i < j < |list| && list[i] in seen + [effect] && list[j] in seen + [effect]
      ensures FirstAt(seen + [effect], list[i]) < FirstAt(seen + [effect], list[j])
    {
      assert list[i] == out[i];
      FirstAtAppended(seen, [effect], list[i]);
      FirstAtAppended(seen, [effect], list[j]);
    }
  }

  /** The effects the query reacts to, each once, in the order of their first atoms. */
  method ResultsDependencies(q: Query) returns (effects: seq<string>)
    ensures ByFirstAppearance(effects, Atoms(q))
    ensures forall e :: e in effects <==> DependsOn(q, e)
  {
    assert [] + Atoms(q) == Atoms(q);
    effects := CollectDependencies(q, [], []);
    forall e
      ensures e in Atoms(q) <==> DependsOn(q, e)
    {
      AtomsNameDependencies(q, e);
    }
  }

  lemma {:induction false} AtomsNameDependencies(q: Query, e: string)
    ensures e in Atoms(q) <==> DependsOn(q, e)
  {
    if q.Op? {
      AtomsNameDependencies(q.lhs, e);
      AtomsNameDependencies(q.rhs, e);
    }
  }

  /** A parsed `meta` glob selects no results ref. */
  lemma ParsedGlobMissesResults(glob: string, effect: string, o: Oid)
    requires ParseMeta(glob) == Ok(Meta(Trim(glob))) && Trim(glob) == glob
    ensures !MetaSelects(glob, ResultName(effect, o))
  {
    hide Trim, Pattern.Matches, Pattern.MayMatch, ShortOid, NewPattern;
    var name := ResultName(effect, o);
    assert name == RESULTS_NAMESPACE + (effect + "/" + ShortOid(o));
    if MetaSelects(glob, name) {
      MatchedMayMatch(glob, RESULTS_NAMESPACE, name);
    }
  }

  lemma MatchedMayMatch(glob: string, prefix: string, name: string)
    requires prefix <= name && Pattern.Matches(glob, name)
    ensures Pattern.MayMatch(glob, prefix)
  {
    hide Pattern.MayMatch;
    Pattern.MayMatchExact(glob, prefix);
    assert exists text :: prefix <= text && Pattern.Matches(glob, text);
  }

  lemma ParsedTermIsOutsideMeta(t: RevTerm)
    requires PlainTerm(t)
    ensures TermOutsideMeta(t)
  {
    hide NewPattern;
    assert "refs/meta/"[..9] == "refs/meta";
  }

  /** A query the parser returns looks at results refs through `results` atoms only. */
  lemma {:induction false} ParsedReadsAsResult(rule: SegmentRule, q: Query, effect: string, o: Oid)
    requires Canonical(rule, q)
    ensures ReadsAsResult(q, ResultName(effect, o))
  {
    hide MetaSelects, TermOutsideMeta, ResultName, ParseMeta, ParseRevTokens, PlainTerm;
    match q
    case Rev(e) =>
      forall t | t in e.positive + e.negative
        ensures TermOutsideMeta(t)
      {
        ParsedTermIsOutsideMeta(t);
      }
    case Results(_, _) =>
    case Meta(glob) =>
      ParsedGlobIsTrimmed(glob);
      ParsedGlobMissesResults(glob, effect, o);
    case Op(_, l, r) =>
      ParsedReadsAsResult(rule, l, effect, o);
      ParsedReadsAsResult(rule, r, effect, o);
  }

  /** Whether a query the parser returns looks at an effect's results refs is exactly what its dependency list says. */
  lemma {:induction false} ParsedOverlooksIff(rule: SegmentRule, q: Query, effect: string, o: Oid)
    requires Canonical(rule, q) && IsOid(o)
    ensures Overlooks(q, ResultName(effect, o)) <==> !DependsOn(q, effect)
  {
    hide ShortOf, MetaSelects, TermOutsideMeta, IsOid, ResultName, ParseMeta, ParseRevTokens, PlainTerm;
    match q
    case Rev(e) =>
      forall t | t in e.positive + e.negative
        ensures TermOutsideMeta(t)
      {
        ParsedTermIsOutsideMeta(t);
      }
    case Results(e, _) => OtherEffectsRef(e, effect, o);
    case Meta(glob) =>
      ParsedGlobIsTrimmed(glob);
      ParsedGlobMissesResults(glob, effect, o);
    case Op(_, l, r) =>
      ParsedOverlooksIff(rule, l, effect, o);
      ParsedOverlooksIff(rule, r, effect, o);
  }

  lemma ParsedGlobIsTrimmed(glob: string)
    requires ParseMeta(glob) == Ok(Meta(glob))
    ensures Trim(glob) == glob
  {
    hide Trim, Pattern.MayMatch, NewPattern;
  }

  /** A result of an effect a parsed query does not depend on changes no membership. */
  lemma OnlyDownstreamReacts(
    rule: SegmentRule, s: Store, refs: Refs, effect: string, target: Oid, tip: Oid, s': Store, refs': Refs,
    q: Query, c: Oid)
    requires Wrote(s, refs, ResultName(effect, target), tip, s', refs') && Evaluable(s, refs, q)
    requires Canonical(rule, q) && IsOid(target) && !DependsOn(q, effect)
    ensures Holds(s', refs', q, c) <==> Holds(s, refs, q, c)
  {
    hide Wrote, Evaluable, Holds, ResultName, IsOid, Canonical;
    ParsedOverlooksIff(rule, q, effect, target);
    MembershipKept(s, refs, ResultName(effect, target), tip, s', refs', q, c);
  }
}
