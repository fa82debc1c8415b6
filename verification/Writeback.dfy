/** What writing one result ref leaves of an effect's obligations. */
module Writeback {
  import opened Graph
  import opened Objects
  import opened Text
  import opened Query
  import opened Denotation
  import opened Incremental

  predicate IsOid(o: Oid) {
    |o.hex| == 40 && forall c :: c in o.hex ==> '0' <= c <= '9' || 'a' <= c <= 'f'
  }

  function ShortOid(o: Oid): string {
    if |o.hex| >= 12 then o.hex[..12] else o.hex
  }

  /** The canonical results ref of a commit. */
  function ResultName(effect: string, o: Oid): string {
    ResultsPrefix(effect) + ShortOid(o)
  }

  lemma ResultNameRecords(effect: string, o: Oid)
    requires IsOid(o)
    ensures ShortOf(effect, ResultName(effect, o)) && Short(effect, ResultName(effect, o)) == ShortOid(o)
    ensures ShortOid(o) <= o.hex
  {
    var short := ShortOid(o);
    assert forall i :: 0 <= i < |short| ==> short[i] in o.hex;
    assert forall c :: c in short ==> c in o.hex;
    assert ResultName(effect, o)[|ResultsPrefix(effect)|..] == short;
  }

  /** A results ref belongs to one effect. */
  lemma OtherEffectsRef(other: string, effect: string, o: Oid)
    requires IsOid(o)
    ensures ShortOf(other, ResultName(effect, o)) <==> other == effect
  {
    var name, short, root := ResultName(effect, o), ShortOid(o), "refs/meta/results/";
    ResultNameRecords(effect, o);
    AfterLastAt(root + effect, '/', short);
    assert forall i :: 0 <= i < |short| ==> short[i] in o.hex;
    assert name == root + effect + ['/'] + short;
    if ShortOf(other, name) {
      var rest := name[|ResultsPrefix(other)|..];
      assert name == root + other + ['/'] + rest;
      AfterLastAt(root + other, '/', rest);
      assert (root + other)[|root|..] == other && (root + effect)[|root|..] == effect;
      assert root + other == name[..|name| - |short| - 1] == root + effect;
    }
  }

  predicate TermOutsideMeta(term: RevTerm) {
    term.Name? ==> forall n :: n in DwimCandidates(term.name) ==> !("refs/meta/" <= n)
  }

  /** No atom of the query looks at the ref `name` below `refs/meta/`. */
  predicate Overlooks(q: Query, name: string) {
    match q
    case Rev(e) => forall t :: t in e.positive + e.negative ==> TermOutsideMeta(t)
    case Results(effect, _) => !ShortOf(effect, name)
    case Meta(glob) => !MetaSelects(glob, name)
    case Op(_, l, r) => Overlooks(l, name) && Overlooks(r, name)
  }

  /** No atom of the query but a `results` one looks at the ref `name`. */
  predicate ReadsAsResult(q: Query, name: string) {
    match q
    case Rev(e) => forall t :: t in e.positive + e.negative ==> TermOutsideMeta(t)
    case Results(_, _) => true
    case Meta(glob) => !MetaSelects(glob, name)
    case Op(_, l, r) => ReadsAsResult(l, name) && ReadsAsResult(r, name)
  }

  lemma {:induction false} OverlooksUnlessResult(q: Query, name: string)
    requires ReadsAsResult(q, name) && forall effect :: !ShortOf(effect, name)
    ensures Overlooks(q, name)
  {
    if q.Op? {
      OverlooksUnlessResult(q.lhs, name);
      OverlooksUnlessResult(q.rhs, name);
    }
  }

  /** The store grew, and one ref below `refs/meta/` moved to a commit whose whole ancestry is there and which keeps the
      tip it replaces. */
  ghost predicate Wrote(s: Store, refs: Refs, name: string, tip: Oid, s': Store, refs': Refs) {
    && StoreGrows(s, s') && refs' == refs[name := tip] && "refs/meta/" <= name
    && Complete(CommitGraph(s'), tip)
    && (name in refs ==> Reaches(CommitGraph(s'), tip, refs[name]))
  }

  lemma {:induction false} NamedElsewhere(refs: Refs, name: string, tip: Oid, names: seq<string>)
    requires name !in names
    ensures FirstNamed(refs[name := tip], names) == FirstNamed(refs, names)
  {
    if names != [] {
      assert names[0] in names;
      NamedElsewhere(refs, name, tip, names[1..]);
    }
  }

  lemma TermTipsKept(refs: Refs, name: string, tip: Oid, term: RevTerm)
    requires TermOutsideMeta(term) && "refs/meta/" <= name
    ensures TermTips(refs[name := tip], term) == TermTips(refs, term)
  {
    if term.Name? {
      NamedElsewhere(refs, name, tip, DwimCandidates(term.name));
    }
  }

  lemma ReachAnyKept(s: Store, s': Store, tips: set<Oid>, c: Oid)
    requires StoreGrows(s, s') && forall x :: x in tips ==> Complete(CommitGraph(s), x)
    ensures ReachesAny(CommitGraph(s'), tips, c) <==> ReachesAny(CommitGraph(s), tips, c)
    ensures forall x :: x in tips ==> Complete(CommitGraph(s'), x)
  {
    hide Complete, Reaches;
    var g, g' := CommitGraph(s), CommitGraph(s');
    GraphGrows(s, s');
    forall x | x in tips
      ensures Reaches(g', x, c) <==> Reaches(g, x, c)
      ensures Complete(g', x)
    {
      CompleteGrows(g, g', x);
      if Reaches(g, x, c) {
        ReachesGrows(g, g', x, c);
      }
      if Reaches(g', x, c) {
        CompleteReachStable(g, g', x, c);
      }
    }
  }

  lemma TermsReachKept(
    s: Store, refs: Refs, name: string, tip: Oid, s': Store, refs': Refs, terms: seq<RevTerm>, c: Oid)
    requires Wrote(s, refs, name, tip, s', refs') && TermsComplete(CommitGraph(s), refs, terms)
    requires forall t :: t in terms ==> TermOutsideMeta(t)
    ensures TermsReach(CommitGraph(s'), refs', terms, c) <==> TermsReach(CommitGraph(s), refs, terms, c)
    ensures TermsComplete(CommitGraph(s'), refs', terms)
  {
    hide TermTips, TermOutsideMeta, Complete, Reaches, ReachesAny, StoreGrows;
    forall t | t in terms
      ensures TermReaches(CommitGraph(s'), refs', t, c) <==> TermReaches(CommitGraph(s), refs, t, c)
      ensures TermTips(refs', t) == TermTips(refs, t)
      ensures forall x :: x in TermTips(refs, t) ==> Complete(CommitGraph(s'), x)
    {
      TermTipsKept(refs, name, tip, t);
      ReachAnyKept(s, s', TermTips(refs, t), c);
    }
  }

  lemma StatusKept(s: Store, s': Store, tip: Oid)
    requires StoreGrows(s, s') && StatusOf(s, tip).Some?
    ensures StatusOf(s', tip) == StatusOf(s, tip)
  {
    assert s'[tip] == s[tip] && s'[s[tip].tree] == s[s[tip].tree];
  }

  lemma ResultsKeptElsewhere(
    s: Store, refs: Refs, name: string, tip: Oid, s': Store, refs': Refs, effect: string, filter: StatusFilter, c: Oid)
    requires Wrote(s, refs, name, tip, s', refs') && StatusesReadable(s, refs, effect, filter) && !ShortOf(effect, name)
    ensures HasResult(s', refs', effect, filter, c) <==> HasResult(s, refs, effect, filter, c)
    ensures StatusesReadable(s', refs', effect, filter)
  {
    hide StatusOf, ShortOf, Short, Complete;
    forall n | n in refs && ShortOf(effect, n)
      ensures Records(s', refs', effect, filter, n, c) <==> Records(s, refs, effect, filter, n, c)
      ensures filter.Any? || StatusOf(s', refs'[n]).Some?
    {
      if !filter.Any? {
        StatusKept(s, s', refs[n]);
      }
    }
    if HasResult(s', refs', effect, filter, c) {
      var n :| Records(s', refs', effect, filter, n, c);
      assert Records(s, refs, effect, filter, n, c);
    }
    if HasResult(s, refs, effect, filter, c) {
      var n :| Records(s, refs, effect, filter, n, c);
      assert Records(s', refs', effect, filter, n, c);
    }
  }

  lemma UniverseKept(s: Store, refs: Refs, name: string, tip: Oid, s': Store, refs': Refs, c: Oid)
    requires Wrote(s, refs, name, tip, s', refs') && InUniverse(s, refs, c)
    ensures InUniverse(s', refs', c)
  {
    hide Reaches, Complete;
    var g, g' := CommitGraph(s), CommitGraph(s');
    var x :| x in RefTips(refs) && Reaches(g, x, c);
    GraphGrows(s, s');
    ReachesGrows(g, g', x, c);
    var n :| n in refs && "refs/" <= n && refs[n] == x;
    if n == name {
      ReachesTrans(g', tip, x, c);
    }
    assert refs'[n] in RefTips(refs');
  }

  lemma RefsCompleteKept(s: Store, refs: Refs, name: string, tip: Oid, s': Store, refs': Refs)
    requires Wrote(s, refs, name, tip, s', refs') && RefsComplete(s, refs)
    ensures RefsComplete(s', refs')
  {
    hide Complete, Reaches;
    GraphGrows(s, s');
    forall x | x in RefTips(refs')
      ensures Complete(CommitGraph(s'), x)
    {
      if x in RefTips(refs) {
        CompleteGrows(CommitGraph(s), CommitGraph(s'), x);
      }
    }
  }

  /** A write the query overlooks changes no membership, and leaves it readable. */
  lemma {:induction false} MembershipKept(
    s: Store, refs: Refs, name: string, tip: Oid, s': Store, refs': Refs, q: Query, c: Oid)
    requires Wrote(s, refs, name, tip, s', refs') && Overlooks(q, name) && Evaluable(s, refs, q)
    ensures Holds(s', refs', q, c) <==> Holds(s, refs, q, c)
    ensures Evaluable(s', refs', q)
  {
    hide Wrote, TermsReach, TermsComplete, HasResult, StatusesReadable, RefsComplete, IsMetaTip, ShortOf, MetaSelects,
      TermOutsideMeta;
    match q
    case Rev(e) =>
      TermsReachKept(s, refs, name, tip, s', refs', e.positive, c);
      TermsReachKept(s, refs, name, tip, s', refs', e.negative, c);
    case Results(effect, filter) =>
      ResultsKeptElsewhere(s, refs, name, tip, s', refs', effect, filter, c);
      RefsCompleteKept(s, refs, name, tip, s', refs');
    case Meta(glob) =>
      MetaTipKept(s, refs, name, tip, s', refs', glob, c);
    case Op(_, l, r) =>
      MembershipKept(s, refs, name, tip, s', refs', l, c);
      MembershipKept(s, refs, name, tip, s', refs', r, c);
  }

  lemma MetaTipKept(s: Store, refs: Refs, name: string, tip: Oid, s': Store, refs': Refs, glob: string, c: Oid)
    requires Wrote(s, refs, name, tip, s', refs') && !MetaSelects(glob, name)
    ensures IsMetaTip(refs', glob, c) <==> IsMetaTip(refs, glob, c)
  {
    hide MetaSelects, Complete, Reaches;
    if IsMetaTip(refs', glob, c) {
      var n :| n in refs' && MetaSelects(glob, n) && refs'[n] == c;
      assert n in refs && refs[n] == c;
    }
    if IsMetaTip(refs, glob, c) {
      var n :| n in refs && MetaSelects(glob, n) && refs[n] == c;
      assert n in refs' && refs'[n] == c;
    }
  }

  /** Outside the commits reachable from refs, no results ref the query looks at matches `c`. */
  ghost predicate NoClash(s: Store, refs: Refs, q: Query, c: Oid) {
    match q
    case Results(effect, filter) => !HasResult(s, refs, effect, filter, c)
    case Op(_, l, r) => NoClash(s, refs, l, c) && NoClash(s, refs, r, c)
    case _ => true
  }

  ghost predicate Steady(s: Store, refs: Refs, q: Query, c: Oid) {
    InUniverse(s, refs, c) || NoClash(s, refs, q, c)
  }

  lemma {:induction false} NoClashDenotes(s: Store, refs: Refs, q: Query, c: Oid)
    requires NoClash(s, refs, q, c)
    ensures Denotes(s, refs, q, c) <==> Holds(s, refs, q, c)
  {
    hide HasResult, InUniverse;
    if q.Op? {
      NoClashDenotes(s, refs, q.lhs, c);
      NoClashDenotes(s, refs, q.rhs, c);
    }
  }

  lemma SteadyDenotes(s: Store, refs: Refs, q: Query, c: Oid)
    requires Steady(s, refs, q, c)
    ensures Denotes(s, refs, q, c) <==> Holds(s, refs, q, c)
  {
    if InUniverse(s, refs, c) {
      MemberIsDenoted(s, refs, q, c);
    } else {
      NoClashDenotes(s, refs, q, c);
    }
  }

  lemma {:induction false} NoClashKept(
    s: Store, refs: Refs, name: string, tip: Oid, s': Store, refs': Refs, q: Query, c: Oid)
    requires Wrote(s, refs, name, tip, s', refs') && Overlooks(q, name) && Evaluable(s, refs, q)
    requires NoClash(s, refs, q, c)
    ensures NoClash(s', refs', q, c)
  {
    hide Wrote, TermsComplete, HasResult, StatusesReadable, RefsComplete, ShortOf, MetaSelects, TermOutsideMeta;
    match q
    case Results(effect, filter) =>
      ResultsKeptElsewhere(s, refs, name, tip, s', refs', effect, filter, c);
    case Op(_, l, r) =>
      NoClashKept(s, refs, name, tip, s', refs', l, c);
      NoClashKept(s, refs, name, tip, s', refs', r, c);
    case _ =>
  }

  // -- a result written where the query may read it ------------------------------------------

  /** A results ref whose short oid does not begin the id of `c` says nothing about `c`, and a readable record leaves
      every results atom readable. */
  lemma ResultsKeptOutside(
    s: Store, refs: Refs, effect: string, target: Oid, tip: Oid, s': Store, refs': Refs, other: string,
    filter: StatusFilter, c: Oid)
    requires Wrote(s, refs, ResultName(effect, target), tip, s', refs') && IsOid(target) && StatusOf(s', tip).Some?
    requires StatusesReadable(s, refs, other, filter) && !(ShortOid(target) <= c.hex)
    ensures HasResult(s', refs', other, filter, c) <==> HasResult(s, refs, other, filter, c)
    ensures StatusesReadable(s', refs', other, filter)
  {
    hide StatusOf, ShortOf, Short, Complete, IsOid, ShortOid, ResultName, Reaches;
    var name := ResultName(effect, target);
    OtherEffectsRef(other, effect, target);
    ResultNameRecords(effect, target);
    forall n | n in refs' && ShortOf(other, n)
      ensures Records(s', refs', other, filter, n, c) <==> Records(s, refs, other, filter, n, c)
      ensures filter.Any? || StatusOf(s', refs'[n]).Some?
    {
      if n != name && !filter.Any? {
        StatusKept(s, s', refs[n]);
      }
    }
    if HasResult(s', refs', other, filter, c) {
      var n :| Records(s', refs', other, filter, n, c);
      assert Records(s, refs, other, filter, n, c);
    }
    if HasResult(s, refs, other, filter, c) {
      var n :| Records(s, refs, other, filter, n, c);
      assert n in refs' && Records(s', refs', other, filter, n, c);
    }
  }

  /** A result written anywhere the query reads only as a result changes no membership of a commit whose id does not
      begin with the target's short oid. */
  lemma {:induction false} MembershipKeptOutside(
    s: Store, refs: Refs, effect: string, target: Oid, tip: Oid, s': Store, refs': Refs, q: Query, c: Oid)
    requires Wrote(s, refs, ResultName(effect, target), tip, s', refs') && IsOid(target) && StatusOf(s', tip).Some?
    requires ReadsAsResult(q, ResultName(effect, target)) && Evaluable(s, refs, q) && !(ShortOid(target) <= c.hex)
    ensures Holds(s', refs', q, c) <==> Holds(s, refs, q, c)
    ensures Evaluable(s', refs', q) && (NoClash(s, refs, q, c) ==> NoClash(s', refs', q, c))
  {
    hide Wrote, TermsReach, TermsComplete, HasResult, StatusesReadable, RefsComplete, IsMetaTip, ShortOf, MetaSelects,
      TermOutsideMeta, IsOid, ShortOid, StatusOf, ResultName;
    var name := ResultName(effect, target);
    match q
    case Rev(e) =>
      TermsReachKept(s, refs, name, tip, s', refs', e.positive, c);
      TermsReachKept(s, refs, name, tip, s', refs', e.negative, c);
    case Results(other, filter) =>
      ResultsKeptOutside(s, refs, effect, target, tip, s', refs', other, filter, c);
      RefsCompleteKept(s, refs, name, tip, s', refs');
    case Meta(glob) =>
      MetaTipKept(s, refs, name, tip, s', refs', glob, c);
    case Op(_, l, r) =>
      MembershipKeptOutside(s, refs, effect, target, tip, s', refs', l, c);
      MembershipKeptOutside(s, refs, effect, target, tip, s', refs', r, c);
  }

  lemma StillEvaluable(s: Store, refs: Refs, effect: string, target: Oid, tip: Oid, s': Store, refs': Refs, q: Query)
    requires Wrote(s, refs, ResultName(effect, target), tip, s', refs') && IsOid(target) && StatusOf(s', tip).Some?
    requires ReadsAsResult(q, ResultName(effect, target)) && Evaluable(s, refs, q)
    ensures Evaluable(s', refs', q)
  {
    hide Wrote, Evaluable, ReadsAsResult, StatusOf, ResultName;
    MembershipKeptOutside(s, refs, effect, target, tip, s', refs', q, Oid(""));
  }

  /** One applied result changes what no effect owes on a commit whose id does not begin with its short oid, whatever
      results the trigger reads. */
  lemma WriteKeepsOthers(
    s: Store, refs: Refs, effect: string, target: Oid, tip: Oid, s': Store, refs': Refs, owing: string, q: Query,
    c: Oid)
    requires Wrote(s, refs, ResultName(effect, target), tip, s', refs') && IsOid(target) && StatusOf(s', tip).Some?
    requires ReadsAsResult(q, ResultName(effect, target)) && Evaluable(s, refs, q) && Steady(s, refs, q, c)
    requires !(ShortOid(target) <= c.hex)
    ensures Outstanding(s', refs', owing, q, c) <==> Outstanding(s, refs, owing, q, c)
    ensures Steady(s', refs', q, c)
  {
    hide Wrote, Evaluable, ReadsAsResult, InUniverse, Denotes, Holds, NoClash, HasResult, IsOid, ShortOid, StatusOf,
      ResultName, StatusesReadable;
    MembershipKeptOutside(s, refs, effect, target, tip, s', refs', q, c);
    if InUniverse(s, refs, c) {
      UniverseKept(s, refs, ResultName(effect, target), tip, s', refs', c);
    }
    SteadyDenotes(s, refs, q, c);
    SteadyDenotes(s', refs', q, c);
    AnyIsReadable(s, refs, owing);
    ResultsKeptOutside(s, refs, effect, target, tip, s', refs', owing, Any, c);
  }

  lemma AnyIsReadable(s: Store, refs: Refs, effect: string)
    ensures StatusesReadable(s, refs, effect, Any)
  {
  }

  /** One applied result discharges the obligation on its target and no other, for every commit whose own short oid the
      target does not share; the trigger may read the effect's own results. */
  lemma WriteDischarges(
    s: Store, refs: Refs, effect: string, target: Oid, tip: Oid, s': Store, refs': Refs, q: Query, c: Oid)
    requires Wrote(s, refs, ResultName(effect, target), tip, s', refs') && IsOid(target) && StatusOf(s', tip).Some?
    requires ReadsAsResult(q, ResultName(effect, target)) && Evaluable(s, refs, q)
    requires ShortOid(target) <= c.hex ==> c == target
    requires c == target || Steady(s, refs, q, c)
    ensures Outstanding(s', refs', effect, q, c) <==> Outstanding(s, refs, effect, q, c) && c != target
    ensures Evaluable(s', refs', q)
    ensures if c == target then HasResult(s', refs', effect, Any, c) else Steady(s', refs', q, c)
  {
    hide Wrote, Evaluable, ReadsAsResult, InUniverse, Denotes, Holds, NoClash, HasResult, IsOid, ShortOid, StatusOf,
      ResultName, Steady;
    StillEvaluable(s, refs, effect, target, tip, s', refs', q);
    if c == target {
      WroteMoves(s, refs, ResultName(effect, target), tip, s', refs');
      ResultRecorded(effect, target, tip, s', refs, refs');
    } else {
      WriteKeepsOthers(s, refs, effect, target, tip, s', refs', effect, q, c);
    }
  }

  lemma WroteMoves(s: Store, refs: Refs, name: string, tip: Oid, s': Store, refs': Refs)
    requires Wrote(s, refs, name, tip, s', refs')
    ensures refs' == refs[name := tip]
  {
  }

  lemma ResultRecorded(effect: string, target: Oid, tip: Oid, s': Store, refs: Refs, refs': Refs)
    requires refs' == refs[ResultName(effect, target) := tip] && IsOid(target)
    ensures HasResult(s', refs', effect, Any, target)
  {
    hide ShortOf, Short, IsOid, ShortOid, ResultName;
    ResultNameRecords(effect, target);
    assert Records(s', refs', effect, Any, ResultName(effect, target), target);
  }

  /** Writing objects without moving a ref leaves every obligation. */
  lemma {:induction false} GrowthKeepsMembership(s: Store, s': Store, refs: Refs, q: Query, c: Oid)
    requires StoreGrows(s, s') && Evaluable(s, refs, q)
    ensures Holds(s', refs, q, c) <==> Holds(s, refs, q, c)
    ensures Evaluable(s', refs, q)
    ensures NoClash(s, refs, q, c) ==> NoClash(s', refs, q, c)
  {
    hide TermsReach, TermsComplete, HasResult, StatusesReadable, RefsComplete, IsMetaTip, StoreGrows;
    match q
    case Rev(e) =>
      GrowthKeepsTerms(s, s', refs, e.positive, c);
      GrowthKeepsTerms(s, s', refs, e.negative, c);
    case Results(effect, filter) =>
      GrowthKeepsResults(s, s', refs, effect, filter, c);
      GrowthKeepsRefs(s, s', refs);
    case Meta(_) =>
    case Op(_, l, r) =>
      GrowthKeepsMembership(s, s', refs, l, c);
      GrowthKeepsMembership(s, s', refs, r, c);
  }

  lemma GrowthKeepsTerms(s: Store, s': Store, refs: Refs, terms: seq<RevTerm>, c: Oid)
    requires StoreGrows(s, s') && TermsComplete(CommitGraph(s), refs, terms)
    ensures TermsReach(CommitGraph(s'), refs, terms, c) <==> TermsReach(CommitGraph(s), refs, terms, c)
    ensures TermsComplete(CommitGraph(s'), refs, terms)
  {
    hide TermTips, Complete, ReachesAny, StoreGrows;
    forall t | t in terms
      ensures TermReaches(CommitGraph(s'), refs, t, c) <==> TermReaches(CommitGraph(s), refs, t, c)
      ensures forall x :: x in TermTips(refs, t) ==> Complete(CommitGraph(s'), x)
    {
      ReachAnyKept(s, s', TermTips(refs, t), c);
    }
  }

  lemma GrowthKeepsResults(s: Store, s': Store, refs: Refs, effect: string, filter: StatusFilter, c: Oid)
    requires StoreGrows(s, s') && StatusesReadable(s, refs, effect, filter)
    ensures HasResult(s', refs, effect, filter, c) <==> HasResult(s, refs, effect, filter, c)
    ensures StatusesReadable(s', refs, effect, filter)
  {
    hide StatusOf, ShortOf, Short, StoreGrows;
    forall n | n in refs && ShortOf(effect, n)
      ensures Records(s', refs, effect, filter, n, c) <==> Records(s, refs, effect, filter, n, c)
      ensures filter.Any? || StatusOf(s', refs[n]).Some?
    {
      if !filter.Any? {
        StatusKept(s, s', refs[n]);
      }
    }
  }

  lemma GrowthKeepsRefs(s: Store, s': Store, refs: Refs)
    requires StoreGrows(s, s') && RefsComplete(s, refs)
    ensures RefsComplete(s', refs)
  {
    hide Complete, StoreGrows;
    GraphGrows(s, s');
    forall x | x in RefTips(refs)
      ensures Complete(CommitGraph(s'), x)
    {
      CompleteGrows(CommitGraph(s), CommitGraph(s'), x);
    }
  }

  lemma GrowthKeepsObligation(s: Store, s': Store, refs: Refs, effect: string, q: Query, c: Oid)
    requires StoreGrows(s, s') && Evaluable(s, refs, q) && Steady(s, refs, q, c)
    ensures Outstanding(s', refs, effect, q, c) <==> Outstanding(s, refs, effect, q, c)
    ensures Evaluable(s', refs, q) && Steady(s', refs, q, c)
  {
    hide Evaluable, Denotes, Holds, NoClash, HasResult, StoreGrows, Reaches;
    GrowthKeepsMembership(s, s', refs, q, c);
    if InUniverse(s, refs, c) {
      GraphGrows(s, s');
      var x :| x in RefTips(refs) && Reaches(CommitGraph(s), x, c);
      ReachesGrows(CommitGraph(s), CommitGraph(s'), x, c);
    }
    SteadyDenotes(s, refs, q, c);
    SteadyDenotes(s', refs, q, c);
    GrowthKeepsResults(s, s', refs, effect, Any, c);
  }
}
