/** Where incremental evaluation falls short of the full difference, exactly. */
module Limits {
  import opened Graph
  import opened Objects
  import opened Text
  import opened Query
  import opened Denotation
  import opened Incremental
  import opened Obligations
  import opened Writeback
  import opened Parse
  import opened RoundTrip
  import Pattern

  function NameQuery(name: string): Query {
    Rev(RevExpr([Name(name)], [], name))
  }

  // -- a short name that changes over --------------------------------------------

  /** The step deletes the ref the name resolved to and so uncovers a later candidate. */
  ghost predicate Uncovers(refs: Refs, t: Transition, name: string) {
    && ResolvedRef(View(refs, Some(t), Old), name) == Some(t.name)
    && ResolvedRef(View(refs, Some(t), New), name).Some?
    && ResolvedRef(View(refs, Some(t), New), name) != Some(t.name)
  }

  lemma NameHolds(s: Store, view: Refs, name: string, c: Oid)
    ensures Holds(s, view, NameQuery(name), c)
       <==> ResolvedRef(view, name).Some? && Reaches(CommitGraph(s), view[ResolvedRef(view, name).value], c)
  {
    hide Reaches, ResolvedRef;
    var g := CommitGraph(s);
    assert TermsReach(g, view, [Name(name)], c) <==> TermReaches(g, view, Name(name), c) by {
      assert Name(name) in [Name(name)];
    }
    assert !TermsReach(g, view, [], c);
    ResolvedIsNamed(view, name);
    match ResolvedRef(view, name)
    case None =>
    case Some(n) => assert TermTips(view, Name(name)) == {view[n]};
  }

  lemma ResolvedIsNamed(view: Refs, name: string)
    ensures ResolvedRef(view, name).Some? ==> ResolvedRef(view, name).value in view
  {
  }

  lemma TipIsSingle(g: Commits, o: Oid, c: Oid)
    ensures ReachesAny(g, AsSet(Some(o)), c) <==> Reaches(g, o, c)
    ensures !ReachesAny(g, AsSet(None), c)
  {
  }

  /** For the query naming one short ref, every entrant is a candidate precisely when the step uncovers no other
      candidate, or uncovers one whose tip the deleted tip already reached. */
  lemma {:induction false} NameExactIff(s: Store, refs: Refs, t: Transition, name: string)
    requires TermTracked(Name(name))
    ensures (forall c :: Enters(s, refs, NameQuery(name), t, c)
                     ==> Frontier(s, View(refs, Some(t), New), NameQuery(name), t, c))
       <==> (Uncovers(refs, t, name) ==>
               Reaches(CommitGraph(s), t.before.value,
                 View(refs, Some(t), New)[ResolvedRef(View(refs, Some(t), New), name).value]))
  {
    hide Reaches, View, ResolvedRef, Frontier, Enters;
    var q, was, now := NameQuery(name), View(refs, Some(t), Old), View(refs, Some(t), New);
    ViewAt(refs, t, Old);
    ViewAt(refs, t, New);
    ResolvedIsNamed(was, name);
    if Uncovers(refs, t, name) {
      UncoveredEntrants(s, refs, t, name);
    } else {
      forall c | Enters(s, refs, q, t, c)
        ensures Frontier(s, now, q, t, c)
      {
        CoveredEntrant(s, refs, t, name, c);
      }
    }
  }

  /** A deletion that uncovers another ref lets in what that ref reaches and the deleted tip did not; none of it is on
      the frontier. */
  lemma {:induction false} UncoveredEntrants(s: Store, refs: Refs, t: Transition, name: string)
    requires TermTracked(Name(name)) && Uncovers(refs, t, name) && t.before.Some?
    ensures (forall c :: Enters(s, refs, NameQuery(name), t, c)
                     ==> Frontier(s, View(refs, Some(t), New), NameQuery(name), t, c))
       <==> Reaches(CommitGraph(s), t.before.value,
              View(refs, Some(t), New)[ResolvedRef(View(refs, Some(t), New), name).value])
  {
    hide Reaches, View;
    var g, q, was, now := CommitGraph(s), NameQuery(name), View(refs, Some(t), Old), View(refs, Some(t), New);
    ViewAt(refs, t, Old);
    SwitchIsOneSided(refs, t, Old, New, DwimCandidates(name));
    var gone, tip := t.before.value, now[ResolvedRef(now, name).value];
    assert was[ResolvedRef(was, name).value] == gone;
    forall c
      ensures Enters(s, refs, q, t, c) <==> Reaches(g, tip, c) && !Reaches(g, gone, c)
      ensures Frontier(s, now, q, t, c) ==> Reaches(g, gone, c)
    {
      NameHolds(s, was, name, c);
      NameHolds(s, now, name, c);
      TipIsSingle(g, gone, c);
    }
    if Reaches(g, gone, tip) {
      forall c | Reaches(g, tip, c)
        ensures Reaches(g, gone, c)
      {
        ReachesTrans(g, gone, tip, c);
      }
    } else {
      ReachesSelf(g, tip);
      assert Enters(s, refs, q, t, tip) && !Frontier(s, now, q, t, tip);
    }
  }

  lemma {:induction false} CoveredEntrant(s: Store, refs: Refs, t: Transition, name: string, c: Oid)
    requires TermTracked(Name(name)) && !Uncovers(refs, t, name) && Enters(s, refs, NameQuery(name), t, c)
    ensures Frontier(s, View(refs, Some(t), New), NameQuery(name), t, c)
  {
    hide Reaches, View;
    var g, q, was, now := CommitGraph(s), NameQuery(name), View(refs, Some(t), Old), View(refs, Some(t), New);
    var names := DwimCandidates(name);
    ViewAt(refs, t, Old);
    ViewAt(refs, t, New);
    NameHolds(s, was, name, c);
    NameHolds(s, now, name, c);
    var n := ResolvedRef(now, name).value;
    if n == t.name {
      if ResolvedRef(was, name) != Some(t.name) {
        SwitchIsOneSided(refs, t, New, Old, names);
      }
      assert t.name in names;
    } else {
      // neither side resolves to the moved ref, or only the old side does: both contradict entering
      if ResolvedRef(was, name) != Some(t.name) {
        FirstNamedElsewhere(refs, t, names);
        SameTip(refs, t, ResolvedRef(was, name));
      }
      assert false;
    }
    if t.before.Some? {
      TipIsSingle(g, t.before.value, c);
    } else {
      TipIsSingle(g, c, c);
    }
    TipIsSingle(g, t.after.value, c);
    assert TipsDisagree(s, t, c);
    NamePatternMatches(Name(name), t.name);
    TermAffectsRev(q.expr, Name(name), t.name);
  }

  lemma NoDoubled(s: string, a: char)
    requires forall i :: 0 < i < |s| ==> s[i - 1] != a || s[i] != a
    ensures !HasSubstring(s, [a, a])
  {
    if s != "" {
      NoDoubled(s[1..], a);
      assert |s| >= 2 ==> s[..2] == [s[0], s[1]];
    }
  }

  lemma XCandidates()
    ensures DwimCandidates("x") == ["refs/x", "refs/tags/x", "refs/heads/x", "refs/remotes/x"]
    ensures |"refs/x"| == 6 && |"refs/tags/x"| == 11 && |"refs/heads/x"| == 12 && |"refs/remotes/x"| == 14
  {
    assert "refs/" + "x" == "refs/x" && "refs/tags/" + "x" == "refs/tags/x";
    assert "refs/heads/" + "x" == "refs/heads/x" && "refs/remotes/" + "x" == "refs/remotes/x";
  }

  predicate PlainChar(c: char) {
    c in "refs/taghdmox"
  }

  lemma PlainNameIsPattern(n: string)
    requires n != "" && n[0] != '/' && n[|n| - 1] != '/'
    requires forall i :: 0 <= i < |n| ==> PlainChar(n[i])
    requires forall i :: 0 < i < |n| ==> n[i - 1] != '/' || n[i] != '/'
    ensures NewPattern(n).Ok? && '*' !in n
  {
    hide HasSubstring, PlainChar;
    forall c: char | PlainChar(c)
      ensures c !in NO_REFNAME_BYTE && !IsAsciiWhitespace(c) && !IsAsciiControl(c) && c != '*' && c != '.'
    {
      PlainCharIsPlain(c);
    }
    NoDoubled(n, '.');
    NoDoubled(n, '/');
  }

  lemma PlainCharIsPlain(c: char)
    requires PlainChar(c)
    ensures c !in NO_REFNAME_BYTE && !IsAsciiWhitespace(c) && !IsAsciiControl(c) && c != '*' && c != '.'
  {
  }

  lemma XIsTracked()
    ensures TermTracked(Name("x"))
  {
    hide NewPattern, DwimCandidates;
    XCandidates();
    PlainNameIsPattern("refs/x");
    PlainNameIsPattern("refs/tags/x");
    PlainNameIsPattern("refs/heads/x");
    PlainNameIsPattern("refs/remotes/x");
  }

  /** With tag and branch `x`, the short name is the tag; without the tag, the branch. */
  lemma XResolves(a: Oid, b: Oid)
    ensures var t, refs := Transition("refs/tags/x", Some(b), None), map["refs/heads/x" := a];
            && View(refs, Some(t), Old) == refs["refs/tags/x" := b] && View(refs, Some(t), New) == refs
            && ResolvedRef(View(refs, Some(t), Old), "x") == Some("refs/tags/x")
            && ResolvedRef(View(refs, Some(t), New), "x") == Some("refs/heads/x")
  {
    hide DwimCandidates;
    var t, refs := Transition("refs/tags/x", Some(b), None), map["refs/heads/x" := a];
    var was, now := View(refs, Some(t), Old), View(refs, Some(t), New);
    XCandidates();
    var c := DwimCandidates("x");
    assert FirstNamed(was, c) == FirstNamed(was, c[1..]) == Some("refs/tags/x");
    assert FirstNamed(now, c) == FirstNamed(now, c[1..]) == FirstNamed(now, c[1..][1..]) == Some("refs/heads/x");
  }

  lemma RootsApart(a: Oid, b: Oid, tree: Oid)
    requires a != b
    ensures var g := CommitGraph(map[a := Commit(tree, [], ""), b := Commit(tree, [], "")]);
            Reaches(g, a, a) && !Reaches(g, b, a)
  {
    hide Reaches;
    var g := CommitGraph(map[a := Commit(tree, [], ""), b := Commit(tree, [], "")]);
    assert g[b] == [];
    ReachesSelf(g, a);
    if Reaches(g, b, a) {
      ReachesUnfold(g, b, a);
      assert false;
    }
  }

  /** Two unrelated roots: deleting tag `x` uncovers branch `x`, whose commit enters `rev(x)` off the frontier. */
  lemma DeletedTagUncoversBranch(a: Oid, b: Oid, tree: Oid)
    requires a != b
    ensures var s := map[a := Commit(tree, [], ""), b := Commit(tree, [], "")];
            var t := Transition("refs/tags/x", Some(b), None);
            var refs := map["refs/heads/x" := a];
            && ReachableEntrant(s, refs, NameQuery("x"), t, a)
            && !Frontier(s, View(refs, Some(t), New), NameQuery("x"), t, a)
            && forall w :: IsEntrySet(s, refs, NameQuery("x"), t, w) ==> a !in w
  {
    hide Reaches, ResolvedRef, CommitGraph, View, DwimCandidates;
    var s := map[a := Commit(tree, [], ""), b := Commit(tree, [], "")];
    var t := Transition("refs/tags/x", Some(b), None);
    var refs := map["refs/heads/x" := a];
    var was, now := View(refs, Some(t), Old), View(refs, Some(t), New);
    XIsTracked();
    XResolves(a, b);
    RootsApart(a, b, tree);
    NameHolds(s, was, "x", a);
    NameHolds(s, now, "x", a);
    TipIsSingle(CommitGraph(s), b, a);
    assert now["refs/heads/x"] in RefTips(now);
    forall w | IsEntrySet(s, refs, NameQuery("x"), t, w)
      ensures a !in w
    {
      EntrySetOnFrontier(s, refs, NameQuery("x"), t, w);
    }
  }

  // -- an effect name the footprint cannot carry -----------------------------------

  /** A commit reachable after the step that enters the set. */
  ghost predicate ReachableEntrant(s: Store, refs: Refs, q: Query, t: Transition, c: Oid) {
    RefName(t.name) && InUniverse(s, View(refs, Some(t), New), c) && Enters(s, refs, q, t, c)
  }

  /** The footprint lets every reachable entrant of a results atom through precisely when the effect name can stand in a
      ref pattern: with a parenthesis, `|`, `&`, `,`, `?`, `[` or `\\` in it the footprint is empty and nothing ever
      enters. */
  lemma {:induction false} ResultsFootprintIff(effect: string)
    ensures (forall s: Store, refs: Refs, t: Transition, c: Oid ::
               ReachableEntrant(s, refs, Results(effect, Any), t, c) ==> FootprintMatches(Results(effect, Any), t.name))
       <==> NewPattern(ResultsPrefix(effect) + "*").Ok?
  {
    hide NewPattern, View, HasResult, InUniverse;
    var q := Results(effect, Any);
    if NewPattern(ResultsPrefix(effect) + "*").Ok? {
      forall s: Store, refs: Refs, t: Transition, c: Oid | ReachableEntrant(s, refs, q, t, c)
        ensures FootprintMatches(q, t.name)
      {
        if !MovesShort(effect, t, c) {
          ResultsStable(s, refs, t, effect, Any, c);
          assert false;
        }
        var p := ResultsPrefix(effect);
        PrefixStarMatches(p, t.name[|p|..]);
        assert t.name == p + t.name[|p|..];
        assert p + "*" in [p + "*"];
        assert p + "*" in Footprint(q);
      }
    } else {
      var s, refs, t, c := FirstResultEnters(effect);
      assert ReachableEntrant(s, refs, q, t, c) && !FootprintMatches(q, t.name);
    }
  }

  /** A commit on a branch, and the first result recorded for it. */
  lemma FirstResultEnters(effect: string) returns (s: Store, refs: Refs, t: Transition, c: Oid)
    ensures IsOid(c) && c in s && s[c].Commit?
    ensures ReachableEntrant(s, refs, Results(effect, Any), t, c)
  {
    hide Reaches, ShortOf, Short;
    c := Oid(seq(40, _ => 'a'));
    var name := ResultName(effect, c);
    s, refs, t := map[c := Commit(c, [], "")], map["refs/heads/main" := c], Transition(name, None, Some(c));
    var was, now := View(refs, Some(t), Old), View(refs, Some(t), New);
    ResultNameRecords(effect, c);
    BranchIsNoResult(effect, "main");
    assert "refs/heads/" + "main" == "refs/heads/main";
    assert name[|name| - 1] == 'a';
    assert Records(s, now, effect, Any, name, c);
    assert name != "refs/heads/main";
    assert was == refs;
    ReachesSelf(CommitGraph(s), c);
    assert now["refs/heads/main"] in RefTips(now);
  }

  lemma BranchIsNoResult(effect: string, branch: string)
    ensures forall o :: ResultName(effect, o) != "refs/heads/" + branch
    ensures !ShortOf(effect, "refs/heads/" + branch)
  {
    assert ("refs/heads/" + branch)[5] == 'h' && ResultsPrefix(effect)[5] == 'm';
    forall o
      ensures ResultName(effect, o) != "refs/heads/" + branch
    {
      assert ResultName(effect, o)[5] == 'm';
    }
  }

  /** Such names do parse, where the refname rules accept them. */
  lemma UnfollowedEffectParses(rule: SegmentRule)
    requires rule("a|b")
    ensures ParseText(rule, "results(a|b, any)") == Ok(Results("a|b", Any))
    ensures NewPattern(ResultsPrefix("a|b") + "*").Err?
  {
    hide ParseText, NewPattern;
    var effect, q := "a|b", Results("a|b", Any);
    assert Depth(effect, 1) == Some(1) by {
      assert effect[1..] == "|b" && effect[1..][1..] == "b" && effect[1..][1..][1..] == "";
    }
    assert Canonical(rule, q);
    CanonicalTextParses(rule, q);
    assert Show(q) == "results(a|b, any)";
    BarIsNoPattern(ResultsPrefix(effect) + "*", 19);
  }

  lemma BarIsNoPattern(p: string, i: nat)
    requires i < |p| && p[i] == '|'
    ensures NewPattern(p).Err?
  {
    assert p[i] in NO_REFNAME_BYTE;
  }

  // -- a short oid that names several commits ---------------------------------------

  /** Every set the incremental form may return for a results atom holds all reachable entrants if and only if the moved
      short oid names at most one reachable commit, or nothing reachable enters at all. */
  lemma {:induction false} AmbiguousShortIff(s: Store, refs: Refs, effect: string, filter: StatusFilter, t: Transition)
    requires NewPattern(ResultsPrefix(effect) + "*").Ok?
    requires RefName(t.name)
    ensures (forall w :: IsEntrySet(s, refs, Results(effect, filter), t, w) ==>
               forall c :: ReachableEntrant(s, refs, Results(effect, filter), t, c) ==> c in w)
       <==> (|| Unambiguous(s, View(refs, Some(t), New), Results(effect, filter), t)
             || forall c :: !ReachableEntrant(s, refs, Results(effect, filter), t, c))
  {
    hide NewPattern, View, HasResult, InUniverse, MovesShort, FootprintMatches, Holds;
    var q, now := Results(effect, filter), View(refs, Some(t), New);
    if Unambiguous(s, now, q, t) {
      forall w | IsEntrySet(s, refs, q, t, w)
        ensures forall c :: ReachableEntrant(s, refs, q, t, c) ==> c in w
      {
        assert ExactStep(s, refs, q, t);
        EntrySetIsExact(s, refs, q, t, w);
      }
    } else if c :| ReachableEntrant(s, refs, q, t, c) {
      EntrantsAreCandidates(s, refs, q, t, c);
      var a, b :| InUniverse(s, now, a) && InUniverse(s, now, b) && MovesShort(effect, t, a) && MovesShort(effect, t, b)
                  && a != b;
      var d := if a == c then b else a;
      var picked := {d};
      var w := if Enters(s, refs, q, t, d) then picked else {};
      assert IsChoice(s, now, q, t, picked) && IsCandidates(s, now, q, t, picked);
      assert AreEntrants(s, refs, q, t, picked, w);
      assert IsEntrySet(s, refs, q, t, w);
    }
  }

  /** Two commits that share their first twelve digits, on two branches: the result of one enters both, and at most one
      is returned. */
  lemma AmbiguousShortDropsOne(a: Oid, b: Oid, tree: Oid)
    requires IsOid(a) && IsOid(b) && a != b && ShortOid(a) == ShortOid(b)
    ensures var s := map[a := Commit(tree, [], ""), b := Commit(tree, [], "")];
            var refs, q := map["refs/heads/x" := a, "refs/heads/y" := b], Results("unit", Any);
            var t := Transition(ResultName("unit", a), None, Some(a));
            && InUniverse(s, View(refs, Some(t), New), a) && InUniverse(s, View(refs, Some(t), New), b)
            && Enters(s, refs, q, t, a) && Enters(s, refs, q, t, b)
            && forall w :: IsEntrySet(s, refs, q, t, w) ==> !(a in w && b in w)
  {
    hide Reaches, ShortOf, Short, ResultName, ShortOid, IsOid, FootprintMatches, Frontier;
    var s := map[a := Commit(tree, [], ""), b := Commit(tree, [], "")];
    var refs, q := map["refs/heads/x" := a, "refs/heads/y" := b], Results("unit", Any);
    var name := ResultName("unit", a);
    var t := Transition(name, None, Some(a));
    var was, now := View(refs, Some(t), Old), View(refs, Some(t), New);
    ResultNameRecords("unit", a);
    ResultNameRecords("unit", b);
    BranchIsNoResult("unit", "x");
    assert "refs/heads/" + "x" == "refs/heads/x";
    BranchIsNoResult("unit", "y");
    assert "refs/heads/" + "y" == "refs/heads/y";
    assert name != "refs/heads/x" && name != "refs/heads/y";
    ReachesSelf(CommitGraph(s), a);
    ReachesSelf(CommitGraph(s), b);
    assert now["refs/heads/x"] in RefTips(now) && now["refs/heads/y"] in RefTips(now);
    assert Records(s, now, "unit", Any, name, a) && Records(s, now, "unit", Any, name, b);
    assert was == refs;
    forall w | IsEntrySet(s, refs, q, t, w)
      ensures !(a in w && b in w)
    {
      if a in w && b in w {
        OneChoice(s, refs, q, t, w, a, b);
        assert false;
      }
    }
  }

  // -- triggers that never hold an unreachable commit --------------------------------

  /** No commit can be in the set without being reachable from a ref. */
  predicate Grounded(q: Query) {
    match q
    case Rev(e) => forall t :: t in e.positive ==> !t.Raw?
    case Results(_, _) => false
    case Meta(_) => true
    case Op(Union, l, r) => Grounded(l) && Grounded(r)
    case Op(Intersect, l, r) => Grounded(l) || Grounded(r)
    case Op(Difference, l, _) => Grounded(l)
  }

  lemma TermTipsAreRefTips(view: Refs, term: RevTerm)
    requires !term.Raw?
    ensures TermTips(view, term) <= RefTips(view)
  {
    match term
    case Name(name) =>
      var names := DwimCandidates(name);
      assert forall n :: n in names ==> "refs/" <= n;
    case Glob(_) =>
  }

  lemma {:induction false} GroundedIsAnchored(s: Store, view: Refs, q: Query, c: Oid)
    requires Grounded(q)
    ensures Anchored(s, view, q, c)
  {
    hide Reaches, TermTips;
    if Holds(s, view, q, c) {
      match q
      case Rev(e) =>
        var t :| t in e.positive && TermReaches(CommitGraph(s), view, t, c);
        TermTipsAreRefTips(view, t);
      case Meta(glob) =>
        var n :| n in view && MetaSelects(glob, n) && view[n] == c;
        ReachesSelf(CommitGraph(s), c);
        assert "refs/" <= n;
        assert c in RefTips(view);
      case Op(op, l, r) =>
        if Grounded(l) {
          GroundedIsAnchored(s, view, l, c);
        }
        if Grounded(r) {
          GroundedIsAnchored(s, view, r, c);
        }
    }
  }

  /** For a grounded trigger no run of exact, readable steps loses an obligation, short of dropping results. */
  lemma GroundedObligations(r: Run, effect: string, q: Query, c: Oid)
    requires IsRun(r, effect, q) && ResultsNeverRemoved(r, effect)
    requires ReadableThroughout(r, q) && ExactThroughout(r, q) && Grounded(q)
    requires InUniverse(r.store, r.refs, c) && Outstanding(r.store, r.refs, effect, q, c)
    ensures Outstanding(First(r).store, First(r).refs, effect, q, c) || ScheduledSomewhere(r, c)
  {
    hide Grounded, Anchored, InUniverse, Outstanding;
    GroundedThroughout(r, q, c);
    NoObligationLost(r, effect, q, c);
  }

  lemma {:induction false} GroundedThroughout(r: Run, q: Query, c: Oid)
    requires Grounded(q)
    ensures AnchoredThroughout(r, q, c)
  {
    hide Grounded, Anchored;
    GroundedIsAnchored(r.store, r.refs, q, c);
    if r.Then? {
      GroundedThroughout(r.before, q, c);
    }
  }

  /** A result recorded before its commit is reachable: once the branch arrives the trigger denotes the commit, yet no
      set the evaluator may return schedules it. */
  lemma EarlyResultIsMissed(c: Oid, tip: Oid, tree: Oid)
    requires IsOid(c) && IsOid(tip) && c != tip
    ensures var s := map[c := Commit(tree, [], ""), tip := Commit(tree, [], "")];
            var was, t := map[ResultName("unit", c) := tip], Transition("refs/heads/main", None, Some(c));
            var now, q := View(was, Some(t), New), Results("unit", Any);
            && !Outstanding(s, was, "integ", q, c)
            && Outstanding(s, now, "integ", q, c)
            && forall work :: IsWorkSet(s, now, "integ", q, t, work) ==> c !in work
  {
    hide Reaches, ShortOf, Short, ResultName, IsOid, IsEntrySet;
    var s := map[c := Commit(tree, [], ""), tip := Commit(tree, [], "")];
    var name := ResultName("unit", c);
    var was, t := map[name := tip], Transition("refs/heads/main", None, Some(c));
    var now, q, g := View(was, Some(t), New), Results("unit", Any), CommitGraph(s);
    ResultNameRecords("unit", c);
    OtherEffectsRef("integ", "unit", c);
    BranchIsNoResult("integ", "main");
    BranchIsNoResult("unit", "main");
    assert "refs/heads/" + "main" == "refs/heads/main";
    assert name != "refs/heads/main";
    assert Records(s, was, "unit", Any, name, c) && Records(s, now, "unit", Any, name, c);
    assert View(now, Some(t), Old) == was && View(now, Some(t), New) == now;
    assert !HasResult(s, now, "integ", Any, c) && !HasResult(s, was, "integ", Any, c);
    assert RefTips(was) <= {tip} && g[tip] == [];
    if InUniverse(s, was, c) {
      ReachesUnfold(g, tip, c);
      assert false;
    }
    ReachesSelf(g, c);
    assert now["refs/heads/main"] == c && c in RefTips(now);
    assert Holds(s, was, q, c) && !Enters(s, now, q, t, c);
    forall work | IsWorkSet(s, now, "integ", q, t, work)
      ensures c !in work
    {
      if c in work {
        WorkEnters(s, now, "integ", q, t, work, c);
      }
    }
  }

  // -- what parsing guarantees -----------------------------------------------------

  lemma {:induction false} DoubledIsSubstring(s: string, a: char, i: nat)
    requires 0 < i < |s| && s[i - 1] == a && s[i] == a
    ensures HasSubstring(s, [a, a])
  {
    if i == 1 {
      assert s[..2] == [a, a];
    } else {
      DoubledIsSubstring(s[1..], a, i - 1);
    }
  }

  /** A valid name stays valid under each lookup prefix. */
  lemma PrefixedIsPattern(p: string, n: string)
    requires NewPattern(n).Ok? && p != "" && p[|p| - 1] == '/' && p[0] != '/'
    requires forall i :: 0 <= i < |p| ==> PlainChar(p[i])
    requires forall i :: 0 < i < |p| ==> p[i - 1] != '/' || p[i] != '/'
    ensures NewPattern(p + n).Ok?
  {
    hide HasSubstring, PlainChar, IsAsciiWhitespace, IsAsciiControl;
    var s := p + n;
    forall i | 0 <= i < |p|
      ensures s[i] !in NO_REFNAME_BYTE && !IsAsciiWhitespace(s[i]) && !IsAsciiControl(s[i]) && s[i] != '.'
    {
      PlainCharIsPlain(p[i]);
    }
    forall i | 0 < i < |s|
      ensures (s[i - 1] != '/' || s[i] != '/') && (s[i - 1] != '.' || s[i] != '.')
    {
      if i > |p| {
        var j := i - |p|;
        if n[j - 1] == '/' && n[j] == '/' {
          DoubledIsSubstring(n, '/', j);
        }
        if n[j - 1] == '.' && n[j] == '.' {
          DoubledIsSubstring(n, '.', j);
        }
      }
    }
    NoDoubled(s, '.');
    NoDoubled(s, '/');
  }

  lemma PlainTermIsTracked(t: RevTerm)
    requires PlainTerm(t)
    ensures TermTracked(t)
  {
    hide NewPattern;
    if t.Name? {
      forall n | n in DwimCandidates(t.name)
        ensures NewPattern(n).Ok? && '*' !in n
      {
        CandidateIsPattern(t.name, n);
      }
    }
  }

  lemma CandidateIsPattern(name: string, n: string)
    requires NewPattern(name).Ok? && '*' !in name && n in DwimCandidates(name)
    ensures NewPattern(n).Ok? && '*' !in n
  {
    hide NewPattern, PlainChar;
    if n == "refs/" + name {
      PrefixIsPlain("refs/");
      PrefixedIsPattern("refs/", name);
    } else if n == "refs/tags/" + name {
      PrefixIsPlain("refs/tags/");
      PrefixedIsPattern("refs/tags/", name);
    } else if n == "refs/heads/" + name {
      PrefixIsPlain("refs/heads/");
      PrefixedIsPattern("refs/heads/", name);
    } else if n == "refs/remotes/" + name {
      PrefixIsPlain("refs/remotes/");
      PrefixedIsPattern("refs/remotes/", name);
    }
  }

  lemma PrefixIsPlain(p: string)
    requires p in {"refs/", "refs/tags/", "refs/heads/", "refs/remotes/"}
    ensures p != "" && p[|p| - 1] == '/' && p[0] != '/' && '*' !in p
    ensures forall i :: 0 <= i < |p| ==> PlainChar(p[i])
    ensures forall i :: 0 < i < |p| ==> p[i - 1] != '/' || p[i] != '/'
  {
  }

  predicate PatternSafeEffects(q: Query) {
    match q
    case Results(effect, _) => NewPattern(ResultsPrefix(effect) + "*").Ok?
    case Op(_, l, r) => PatternSafeEffects(l) && PatternSafeEffects(r)
    case _ => true
  }

  /** The footprint tracks every atom of a parsed query, except results atoms whose effect name no pattern can hold. */
  lemma {:induction false} ParsedIsTracked(rule: SegmentRule, q: Query)
    requires Canonical(rule, q)
    ensures Tracked(q) <==> PatternSafeEffects(q)
  {
    hide NewPattern, CanonicalEffect, ParseMeta, TermTracked, ParseRevTokens;
    match q
    case Rev(e) =>
      forall t | t in e.positive + e.negative
        ensures TermTracked(t)
      {
        PlainTermIsTracked(t);
      }
    case Op(_, l, r) =>
      ParsedIsTracked(rule, l);
      ParsedIsTracked(rule, r);
    case _ =>
  }
}
