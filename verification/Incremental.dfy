/** Incremental evaluation is exact: off the frontier of a transition no commit changes membership. */
module Incremental {
  import opened Graph
  import opened Objects
  import opened Text
  import opened Query
  import opened Denotation
  import Pattern

  // -- patterns follow names -------------------------------------------------

  lemma {:induction false} PrefixStarMatches(p: string, w: string)
    ensures Pattern.Matches(p + "*", p + w)
  {
    if p == "" {
      assert p + "*" == "*" && p + w == w;
      assert "*"[1..] == "" && w[|w|..] == "";
      assert Pattern.Matches("*"[1..], w[|w|..]);
    } else {
      assert (p + "*")[1..] == p[1..] + "*" && (p + w)[1..] == p[1..] + w;
      PrefixStarMatches(p[1..], w);
      assert Pattern.Matches((p + "*")[1..], (p + w)[1..]);
    }
  }

  /** A tracked short name's patterns include the moved ref whenever the lookup can meet it. */
  lemma NamePatternMatches(term: RevTerm, moved: string)
    requires term.Name? && TermTracked(term) && moved in DwimCandidates(term.name)
    ensures Affects(TermPatterns(term), moved)
  {
    Pattern.LiteralMatchesItself(moved, moved);
    assert moved in ValidPatterns(DwimCandidates(term.name));
  }

  lemma TermAffectsRev(e: RevExpr, term: RevTerm, moved: string)
    requires term in e.positive + e.negative && Affects(TermPatterns(term), moved)
    ensures Affects(RevPatterns(e), moved)
  {
    var p :| p in TermPatterns(term) && Pattern.Matches(p, moved);
    assert p in RevPatterns(e);
  }

  // -- each term ---------------------------------------------------------------

  lemma {:induction false} FirstNamedStays(refs: Refs, t: Transition, side: Side, other: Side, names: seq<string>)
    requires FirstNamed(View(refs, Some(t), side), names) == Some(t.name) && t.name in View(refs, Some(t), other)
    ensures FirstNamed(View(refs, Some(t), other), names) == Some(t.name)
  {
    if names[0] != t.name {
      ViewOff(refs, t, names[0]);
      FirstNamedStays(refs, t, side, other, names[1..]);
    }
  }

  /** A switch has the moved ref on one side only. */
  lemma SwitchIsOneSided(refs: Refs, t: Transition, side: Side, other: Side, names: seq<string>)
    requires FirstNamed(View(refs, Some(t), side), names) == Some(t.name)
    requires FirstNamed(View(refs, Some(t), other), names) != Some(t.name)
    ensures TipAt(t, other) == None
  {
    ViewAt(refs, t, other);
    if TipAt(t, other).Some? {
      FirstNamedStays(refs, t, side, other, names);
    }
  }

  /** Whatever held before still does, or whatever holds now did before. */
  predicate OneWay(entering: bool, was: bool, now: bool) {
    if entering then now ==> was else was ==> now
  }

  lemma NameTermStable(s: Store, refs: Refs, t: Transition, term: RevTerm, entering: bool, c: Oid)
    requires term.Name? && TermTracked(term)
    requires TermKeeps(View(refs, Some(t), Old), View(refs, Some(t), New), t.name, term, entering)
    requires !(Affects(TermPatterns(term), t.name) && TipsDisagree(s, t, c))
    ensures OneWay(entering, TermReaches(CommitGraph(s), View(refs, Some(t), Old), term, c),
              TermReaches(CommitGraph(s), View(refs, Some(t), New), term, c))
  {
    hide ReachesAny, Pattern.Matches, DwimCandidates, View;
    var was, now := View(refs, Some(t), Old), View(refs, Some(t), New);
    var names := DwimCandidates(term.name);
    ViewAt(refs, t, Old);
    ViewAt(refs, t, New);
    NoTipReaches(CommitGraph(s), c);
    if t.name !in names {
      FirstNamedOff(refs, t, names);
      SameTip(refs, t, ResolvedRef(was, term.name));
    } else if ResolvedRef(was, term.name) != Some(t.name) && ResolvedRef(now, term.name) != Some(t.name) {
      FirstNamedElsewhere(refs, t, names);
      SameTip(refs, t, ResolvedRef(was, term.name));
    } else {
      NamePatternMatches(term, t.name);
      if ResolvedRef(was, term.name) == Some(t.name) {
        assert TermTips(was, term) == AsSet(t.before);
        if ResolvedRef(now, term.name) != Some(t.name) {
          SwitchIsOneSided(refs, t, Old, New, names);
        }
      }
      if ResolvedRef(now, term.name) == Some(t.name) {
        assert TermTips(now, term) == AsSet(t.after);
        if ResolvedRef(was, term.name) != Some(t.name) {
          SwitchIsOneSided(refs, t, New, Old, names);
        }
      }
    }
  }

  lemma NoTipReaches(g: Commits, c: Oid)
    ensures !ReachesAny(g, AsSet(None), c) && !ReachesAny(g, {}, c)
  {
  }

  lemma SameTip(refs: Refs, t: Transition, n: Option<string>)
    requires n.Some? && n != Some(t.name) ==> n.value in View(refs, Some(t), Old)
    ensures n.Some? && n != Some(t.name) ==>
              && n.value in View(refs, Some(t), New)
              && View(refs, Some(t), Old)[n.value] == View(refs, Some(t), New)[n.value]
  {
    if n.Some? && n != Some(t.name) {
      ViewOff(refs, t, n.value);
    }
  }

  /** Split by the moved ref: what a glob selects reaches `c` through it or through the rest. */
  lemma GlobSplits(g: Commits, refs: Refs, t: Transition, side: Side, pattern: string, c: Oid)
    ensures TermReaches(g, View(refs, Some(t), side), Glob(pattern), c)
        <==> ReachesAny(g, set n | n in refs && n != t.name && GlobSelects(pattern, n) :: refs[n], c)
             || (GlobSelects(pattern, t.name) && ReachesAny(g, AsSet(TipAt(t, side)), c))
  {
    hide GlobSelects, Reaches;
    var view := View(refs, Some(t), side);
    var rest := set n | n in refs && n != t.name && GlobSelects(pattern, n) :: refs[n];
    var moved := if GlobSelects(pattern, t.name) then AsSet(TipAt(t, side)) else {};
    forall x
      ensures x in TermTips(view, Glob(pattern)) <==> x in rest + moved
    {
      if x in rest {
        var n :| n in refs && n != t.name && GlobSelects(pattern, n) && refs[n] == x;
        assert n in view && view[n] == x;
      }
      if x in moved {
        assert t.name in view && view[t.name] == x;
      }
    }
    assert TermTips(view, Glob(pattern)) == rest + moved;
  }

  lemma TermStable(s: Store, refs: Refs, t: Transition, term: RevTerm, entering: bool, c: Oid)
    requires TermTracked(term)
    requires TermKeeps(View(refs, Some(t), Old), View(refs, Some(t), New), t.name, term, entering)
    requires !(Affects(TermPatterns(term), t.name) && TipsDisagree(s, t, c))
    ensures OneWay(entering, TermReaches(CommitGraph(s), View(refs, Some(t), Old), term, c),
              TermReaches(CommitGraph(s), View(refs, Some(t), New), term, c))
  {
    match term
    case Raw(_) =>
    case Name(_) => NameTermStable(s, refs, t, term, entering, c);
    case Glob(pattern) =>
      hide ReachesAny, View;
      GlobSplits(CommitGraph(s), refs, t, Old, pattern, c);
      GlobSplits(CommitGraph(s), refs, t, New, pattern, c);
      if GlobSelects(pattern, t.name) {
        assert pattern in TermPatterns(term);
        assert Affects(TermPatterns(term), t.name);
      }
  }

  lemma RevStable(s: Store, refs: Refs, t: Transition, e: RevExpr, entering: bool, c: Oid)
    requires Tracked(Rev(e)) && NoSwitch(View(refs, Some(t), Old), View(refs, Some(t), New), t.name, Rev(e), entering)
    requires !Frontier(s, View(refs, Some(t), New), Rev(e), t, c)
    ensures OneWay(entering, Holds(s, View(refs, Some(t), Old), Rev(e), c),
              Holds(s, View(refs, Some(t), New), Rev(e), c))
  {
    hide View, TermReaches, TermKeeps, TermTracked, Affects, TipsDisagree, RevPatterns, TermPatterns;
    var g, was, now := CommitGraph(s), View(refs, Some(t), Old), View(refs, Some(t), New);
    forall term, up | (term in e.positive && up == entering) || (term in e.negative && up == !entering)
      ensures OneWay(up, TermReaches(g, was, term, c), TermReaches(g, now, term, c))
    {
      assert term in e.positive + e.negative;
      if Affects(TermPatterns(term), t.name) {
        TermAffectsRev(e, term, t.name);
      }
      TermStable(s, refs, t, term, up, c);
    }
    assert forall term :: term in e.positive ==>
      OneWay(entering, TermReaches(g, was, term, c), TermReaches(g, now, term, c));
    assert forall term :: term in e.negative ==>
      OneWay(!entering, TermReaches(g, was, term, c), TermReaches(g, now, term, c));
  }

  lemma ResultsStable(s: Store, refs: Refs, t: Transition, effect: string, filter: StatusFilter, c: Oid)
    requires !MovesShort(effect, t, c)
    ensures HasResult(s, View(refs, Some(t), Old), effect, filter, c)
        <==> HasResult(s, View(refs, Some(t), New), effect, filter, c)
  {
    hide View, StatusAdmitted, ShortOf, Short;
    var was, now := View(refs, Some(t), Old), View(refs, Some(t), New);
    forall n
      ensures Records(s, was, effect, filter, n, c) <==> Records(s, now, effect, filter, n, c)
    {
      if n != t.name {
        ViewOff(refs, t, n);
      }
    }
  }

  lemma MetaStable(refs: Refs, t: Transition, glob: string, c: Oid)
    requires !(Pattern.Matches(glob, t.name) && (t.before == Some(c) || t.after == Some(c)))
    ensures IsMetaTip(View(refs, Some(t), Old), glob, c) <==> IsMetaTip(View(refs, Some(t), New), glob, c)
  {
    hide View, Pattern.Matches;
    var was, now := View(refs, Some(t), Old), View(refs, Some(t), New);
    ViewAt(refs, t, Old);
    ViewAt(refs, t, New);
    forall n
      ensures n in was && MetaSelects(glob, n) && was[n] == c <==> n in now && MetaSelects(glob, n) && now[n] == c
    {
      if n != t.name {
        ViewOff(refs, t, n);
      }
    }
    if IsMetaTip(was, glob, c) {
      var n :| n in was && MetaSelects(glob, n) && was[n] == c;
      assert n in now && MetaSelects(glob, n) && now[n] == c;
    }
    if IsMetaTip(now, glob, c) {
      var n :| n in now && MetaSelects(glob, n) && now[n] == c;
      assert n in was && MetaSelects(glob, n) && was[n] == c;
    }
  }

  // -- whole queries -------------------------------------------------------------

  /** A commit reachable after the step and off the frontier does not enter where no term uncovers a lookup candidate
      that could bring it in, and does not leave where none hides one that kept it; so it keeps its membership where
      the step does neither. */
  lemma {:induction false} OffFrontierStable(s: Store, refs: Refs, q: Query, t: Transition, entering: bool, c: Oid)
    requires Tracked(q) && NoSwitch(View(refs, Some(t), Old), View(refs, Some(t), New), t.name, q, entering)
    requires InUniverse(s, View(refs, Some(t), New), c) && !Frontier(s, View(refs, Some(t), New), q, t, c)
    ensures OneWay(entering, Holds(s, View(refs, Some(t), Old), q, c), Holds(s, View(refs, Some(t), New), q, c))
  {
    hide View, InUniverse, MovesShort, IsMetaTip, HasResult;
    match q
    case Rev(e) => RevStable(s, refs, t, e, entering, c);
    case Results(effect, filter) => ResultsStable(s, refs, t, effect, filter, c);
    case Meta(glob) => MetaStable(refs, t, glob, c);
    case Op(op, l, r) =>
      OffFrontierStable(s, refs, l, t, entering, c);
      OffFrontierStable(s, refs, r, t, if op.Difference? then !entering else entering, c);
  }

  /** The static footprint covers the frontier: a ref outside it leaves no candidate. */
  lemma {:induction false} FrontierInFootprint(s: Store, view: Refs, q: Query, t: Transition, c: Oid)
    requires Tracked(q) && Frontier(s, view, q, t, c)
    ensures FootprintMatches(q, t.name)
  {
    match q
    case Rev(e) =>
    case Results(effect, _) =>
      var p := ResultsPrefix(effect);
      PrefixStarMatches(p, t.name[|p|..]);
      assert t.name == p + t.name[|p|..];
      assert p + "*" in [p + "*"];
      assert p + "*" in Footprint(q);
    case Meta(glob) =>
      assert glob in Footprint(q);
    case Op(_, l, r) =>
      if Frontier(s, view, l, t, c) {
        FrontierInFootprint(s, view, l, t, c);
        var p :| p in Footprint(l) && Pattern.Matches(p, t.name);
        assert p in Footprint(q);
      } else {
        FrontierInFootprint(s, view, r, t, c);
        var p :| p in Footprint(r) && Pattern.Matches(p, t.name);
        assert p in Footprint(q);
      }
  }

  /** Nothing that enters is missed by testing the frontier alone. */
  lemma EntrantsAreCandidates(s: Store, refs: Refs, q: Query, t: Transition, c: Oid)
    requires Tracked(q) && NoSwitch(View(refs, Some(t), Old), View(refs, Some(t), New), t.name, q, true)
    requires InUniverse(s, View(refs, Some(t), New), c)
    requires Holds(s, View(refs, Some(t), New), q, c) && !Holds(s, View(refs, Some(t), Old), q, c)
    ensures Frontier(s, View(refs, Some(t), New), q, t, c) && FootprintMatches(q, t.name)
  {
    hide View, InUniverse, Holds, Frontier, NoSwitch;
    if !Frontier(s, View(refs, Some(t), New), q, t, c) {
      OffFrontierStable(s, refs, q, t, true, c);
      assert false;
    }
    FrontierInFootprint(s, View(refs, Some(t), New), q, t, c);
  }

  // -- one step ------------------------------------------------------------------

  /** A refname ends in a nonempty segment. */
  predicate RefName(name: string) {
    name != "" && name[|name| - 1] != '/'
  }

  /** In the set after the step and not before. */
  ghost predicate Enters(s: Store, refs: Refs, q: Query, t: Transition, c: Oid) {
    Holds(s, View(refs, Some(t), New), q, c) && !Holds(s, View(refs, Some(t), Old), q, c)
  }

  /** When the frontier test sees every reachable entrant: the footprint tracks all atoms, no short name changes over
      in a way that lets a commit in, and the moved short oid names one commit. */
  ghost predicate ExactStep(s: Store, refs: Refs, q: Query, t: Transition) {
    && Tracked(q)
    && NoSwitch(View(refs, Some(t), Old), View(refs, Some(t), New), t.name, q, true)
    && Unambiguous(s, View(refs, Some(t), New), q, t)
  }

  ghost predicate TransitionReadable(s: Store, refs: Refs, t: Transition) {
    && (forall x :: x in AsSet(t.before) + AsSet(t.after) ==> Complete(CommitGraph(s), x))
    && RefsComplete(s, View(refs, Some(t), New))
  }

  ghost predicate StepReadable(s: Store, refs: Refs, q: Query, t: Transition) {
    && TransitionReadable(s, refs, t)
    && Evaluable(s, View(refs, Some(t), Old), q) && Evaluable(s, View(refs, Some(t), New), q)
  }

  /** The trigger denotes `c` and no result of the effect is recorded for it. */
  ghost predicate Outstanding(s: Store, refs: Refs, effect: string, trigger: Query, c: Oid) {
    Denotes(s, refs, trigger, c) && !HasResult(s, refs, effect, Any, c)
  }

  /** What collecting candidates yields.  A `results` atom contributes one reachable commit its moved short oid names,
      if there is any; which of several is left open. */
  ghost predicate IsCandidates(s: Store, view: Refs, q: Query, t: Transition, cands: set<Oid>)
    decreases q
  {
    match q
    case Results(_, _) => IsChoice(s, view, q, t, cands)
    case Op(_, l, r) =>
      exists a, b :: IsCandidates(s, view, l, t, a) && IsCandidates(s, view, r, t, b) && cands == a + b
    case _ => forall c :: c in cands <==> Frontier(s, view, q, t, c)
  }

  ghost predicate IsChoice(s: Store, view: Refs, q: Query, t: Transition, cands: set<Oid>) {
    || (cands == {} && forall c :: !Frontier(s, view, q, t, c))
    || (exists c :: cands == {c} && Frontier(s, view, q, t, c))
  }

  /** The candidates that enter. */
  ghost predicate AreEntrants(s: Store, refs: Refs, q: Query, t: Transition, cands: set<Oid>, entered: set<Oid>) {
    forall c :: c in entered <==> c in cands && Enters(s, refs, q, t, c)
  }

  /** What the incremental form returns: nothing on a ref outside the footprint, else the candidates that enter. */
  ghost predicate IsEntrySet(s: Store, refs: Refs, q: Query, t: Transition, entered: set<Oid>) {
    if FootprintMatches(q, t.name) then
      exists cands :: IsCandidates(s, View(refs, Some(t), New), q, t, cands)
                      && AreEntrants(s, refs, q, t, cands, entered)
    else entered == {}
  }

  /** The commits no result is recorded for after the step. */
  ghost predicate AreUnrecorded(
    s: Store, refs: Refs, effect: string, t: Transition, entered: set<Oid>, work: set<Oid>)
  {
    forall c :: c in work <==> c in entered && !HasResult(s, View(refs, Some(t), New), effect, Any, c)
  }

  /** What a step schedules for an effect: its entry set without the commits already recorded. */
  ghost predicate IsWorkSet(s: Store, refs: Refs, effect: string, q: Query, t: Transition, work: set<Oid>) {
    exists entered :: IsEntrySet(s, refs, q, t, entered) && AreUnrecorded(s, refs, effect, t, entered, work)
  }

  /** Candidates lie on the frontier, and are all of it when the moved short oid names one commit. */
  lemma {:induction false} CandidatesAreFrontier(s: Store, view: Refs, q: Query, t: Transition, cands: set<Oid>)
    requires IsCandidates(s, view, q, t, cands)
    ensures forall c :: c in cands ==> Frontier(s, view, q, t, c)
    ensures Unambiguous(s, view, q, t) ==> forall c :: c in cands <==> Frontier(s, view, q, t, c)
  {
    hide Affects, TipsDisagree, MovesShort, InUniverse;
    if q.Op? {
      var a, b :| IsCandidates(s, view, q.lhs, t, a) && IsCandidates(s, view, q.rhs, t, b) && cands == a + b;
      CandidatesAreFrontier(s, view, q.lhs, t, a);
      CandidatesAreFrontier(s, view, q.rhs, t, b);
    }
  }

  /** In an exact step the reachable part of an entry set is the whole difference. */
  lemma EntrySetIsExact(s: Store, refs: Refs, q: Query, t: Transition, entered: set<Oid>)
    requires IsEntrySet(s, refs, q, t, entered)
    ensures forall c :: c in entered ==> Enters(s, refs, q, t, c)
    ensures ExactStep(s, refs, q, t) ==>
              forall c :: InUniverse(s, View(refs, Some(t), New), c) ==> (c in entered <==> Enters(s, refs, q, t, c))
  {
    hide View, InUniverse, Frontier, Tracked, NoSwitch, Unambiguous, IsCandidates;
    if FootprintMatches(q, t.name) {
      var cands :| IsCandidates(s, View(refs, Some(t), New), q, t, cands) && AreEntrants(s, refs, q, t, cands, entered);
      CandidatesAreFrontier(s, View(refs, Some(t), New), q, t, cands);
    }
    if ExactStep(s, refs, q, t) {
      forall c | InUniverse(s, View(refs, Some(t), New), c) && Enters(s, refs, q, t, c)
        ensures c in entered
      {
        EntrantsAreCandidates(s, refs, q, t, c);
      }
    }
  }

  lemma EntrySetOnFrontier(s: Store, refs: Refs, q: Query, t: Transition, entered: set<Oid>)
    requires IsEntrySet(s, refs, q, t, entered)
    ensures forall c :: c in entered ==> Frontier(s, View(refs, Some(t), New), q, t, c)
  {
    hide View, Frontier, Enters, FootprintMatches;
    if FootprintMatches(q, t.name) {
      var cands :| IsCandidates(s, View(refs, Some(t), New), q, t, cands) && AreEntrants(s, refs, q, t, cands, entered);
      CandidatesAreFrontier(s, View(refs, Some(t), New), q, t, cands);
    }
  }

  /** Nothing is scheduled that does not enter. */
  lemma WorkEnters(s: Store, refs: Refs, effect: string, q: Query, t: Transition, work: set<Oid>, c: Oid)
    requires IsWorkSet(s, refs, effect, q, t, work) && c in work
    ensures Enters(s, refs, q, t, c)
  {
    hide View, Enters, IsEntrySet, HasResult;
    var entered :| IsEntrySet(s, refs, q, t, entered) && AreUnrecorded(s, refs, effect, t, entered, work);
    EntrySetIsExact(s, refs, q, t, entered);
  }

  /** A results atom's entry set has at most one member. */
  lemma OneChoice(s: Store, refs: Refs, q: Query, t: Transition, w: set<Oid>, a: Oid, b: Oid)
    requires q.Results? && IsEntrySet(s, refs, q, t, w) && a in w && b in w
    ensures a == b
  {
    hide View, FootprintMatches, Enters, Frontier;
    if FootprintMatches(q, t.name) {
      var cands :| IsCandidates(s, View(refs, Some(t), New), q, t, cands) && AreEntrants(s, refs, q, t, cands, w);
      ChoiceIsSmall(s, View(refs, Some(t), New), q, t, cands, a, b);
    }
  }

  lemma ChoiceIsSmall(s: Store, view: Refs, q: Query, t: Transition, cands: set<Oid>, a: Oid, b: Oid)
    requires q.Results? && IsCandidates(s, view, q, t, cands) && a in cands && b in cands
    ensures a == b
  {
  }

  lemma {:induction false} SomeCandidates(s: Store, view: Refs, q: Query, t: Transition) returns (cands: set<Oid>)
    requires t.before.Some? ==> Complete(CommitGraph(s), t.before.value)
    requires t.after.Some? ==> Complete(CommitGraph(s), t.after.value)
    ensures IsCandidates(s, view, q, t, cands)
    decreases q
  {
    hide View, Complete, Affects, MovesShort, ReachesAny, InUniverse;
    var g := CommitGraph(s);
    match q
    case Op(_, l, r) =>
      var a := SomeCandidates(s, view, l, t);
      var b := SomeCandidates(s, view, r, t);
      cands := a + b;
    case Results(_, _) =>
      if c :| Frontier(s, view, q, t, c) {
        cands := {c};
      } else {
        cands := {};
      }
    case Rev(_) =>
      forall c | Frontier(s, view, q, t, c)
        ensures c in g
      {
        if ReachesAny(g, AsSet(t.before), c) {
          ReachedIsComplete(g, AsSet(t.before), c);
        } else {
          ReachedIsComplete(g, AsSet(t.after), c);
        }
        CompleteSelf(g, c);
      }
      cands := set c | c in g.Keys && Frontier(s, view, q, t, c);
    case Meta(_) =>
      cands := set c | c in AsSet(t.before) + AsSet(t.after) && Frontier(s, view, q, t, c);
  }

  /** Where the moved ref's two tips are all there, the step has an entry set and a work set to return. */
  lemma SomeWorkSet(s: Store, refs: Refs, effect: string, q: Query, t: Transition)
    returns (entered: set<Oid>, work: set<Oid>)
    requires TransitionReadable(s, refs, t)
    ensures IsEntrySet(s, refs, q, t, entered) && IsWorkSet(s, refs, effect, q, t, work)
  {
    hide View, Enters, HasResult, FootprintMatches, IsCandidates, Complete;
    var cands := SomeCandidates(s, View(refs, Some(t), New), q, t);
    entered := if FootprintMatches(q, t.name) then set c | c in cands && Enters(s, refs, q, t, c) else {};
    assert AreEntrants(s, refs, q, t, cands, set c | c in cands && Enters(s, refs, q, t, c));
    work := set c | c in entered && !HasResult(s, View(refs, Some(t), New), effect, Any, c);
    assert AreUnrecorded(s, refs, effect, t, entered, work);
  }

  lemma CompleteSelf(g: Commits, c: Oid)
    requires Complete(g, c)
    ensures c in g
  {
    ReachesSelf(g, c);
  }

  lemma ReachedIsComplete(g: Commits, tips: set<Oid>, c: Oid)
    requires ReachesAny(g, tips, c) && forall x :: x in tips ==> Complete(g, x)
    ensures Complete(g, c)
  {
    var x :| x in tips && Reaches(g, x, c);
    forall y | Reaches(g, c, y)
      ensures y in g
    {
      ReachesTrans(g, x, c, y);
    }
  }

  /** In a readable step every frontier commit can be tested. */
  lemma {:induction false} FrontierReadable(s: Store, refs: Refs, q: Query, t: Transition, c: Oid)
    requires Frontier(s, View(refs, Some(t), New), q, t, c) && TransitionReadable(s, refs, t)
    ensures Complete(CommitGraph(s), c)
  {
    hide View, Complete, Affects, MovesShort, ReachesAny;
    var g := CommitGraph(s);
    match q
    case Rev(_) =>
      if ReachesAny(g, AsSet(t.before), c) {
        ReachedIsComplete(g, AsSet(t.before), c);
      } else {
        ReachedIsComplete(g, AsSet(t.after), c);
      }
    case Results(_, _) => ReachedIsComplete(g, RefTips(View(refs, Some(t), New)), c);
    case Meta(_) =>
    case Op(_, l, r) =>
      if Frontier(s, View(refs, Some(t), New), l, t, c) {
        FrontierReadable(s, refs, l, t, c);
      } else {
        FrontierReadable(s, refs, r, t, c);
      }
  }
}
