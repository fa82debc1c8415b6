/** Whole runs under the denial rules: judging only what each transaction introduces keeps what the gate's walk over the
    whole history would check. */
module RuleLedger {
  import opened Graph
  import opened Objects
  import opened GateObjects
  import opened GateRules

  /** Transactions applied in turn; each saw the commit graph `g`. */
  datatype Ledger = Empty | Then(before: Ledger, facts: Facts, g: Commits)

  function GraphOf(l: Ledger): Commits {
    match l
    case Empty => map[]
    case Then(_, _, g) => g
  }

  function Update(refs: Refs, updates: seq<RefUpdate>): Refs {
    if updates == [] then refs else Update(refs, updates[1..])[updates[0].name := updates[0].after]
  }

  function RefsOf(l: Ledger): Refs {
    match l
    case Empty => map[]
    case Then(before, facts, _) => Update(RefsOf(before), facts.refUpdate)
  }

  /** The commit a ref was created at. */
  function Birth(l: Ledger, name: string): Oid
    requires name in RefsOf(l)
  {
    match l
    case Empty => assert false; Oid("")
    case Then(before, _, _) => if name in RefsOf(before) then Birth(before, name) else RefsOf(l)[name]
  }

  /** One update a ref, from its current tip to a tip whose whole ancestry is there; every parent fact is an edge, and
      every edge of a commit the update brings is a fact.  Edges below the old tips may be among the facts or not. */
  ghost predicate Faithful(f: Facts, g: Commits, refs: Refs) {
    && Acyclic(g)
    && (forall i, j :: 0 <= i < j < |f.refUpdate| ==> f.refUpdate[i].name != f.refUpdate[j].name)
    && FactsReal(f, g)
    && (forall u :: u in f.refUpdate ==> FaithfulUpdate(f, g, refs, u))
  }

  ghost predicate FactsReal(f: Facts, g: Commits) {
    forall e :: e in f.parent ==> e.0 in g && e.1 in g[e.0]
  }

  ghost predicate FaithfulUpdate(f: Facts, g: Commits, refs: Refs, u: RefUpdate) {
    && u.before == (if u.name in refs then Some(refs[u.name]) else None)
    && Complete(g, u.after) && NewEdges(f, g, u)
    && (u.before.Some? ==> Complete(g, u.before.value))
  }

  /** The old tip reached the commit already. */
  ghost predicate IsOld(g: Commits, u: RefUpdate, c: Oid) {
    u.before.Some? && Reaches(g, u.before.value, c)
  }

  /** The update brings the commit to the ref. */
  ghost predicate IsNew(g: Commits, u: RefUpdate, c: Oid) {
    Reaches(g, u.after, c) && !IsOld(g, u, c)
  }

  ghost predicate NewEdges(f: Facts, g: Commits, u: RefUpdate) {
    forall c, p :: IsNew(g, u, c) && c in g && p in g[c] ==> (c, p) in f.parent
  }

  /** The facts also hold every edge below the old tip. */
  ghost predicate WholeFacts(f: Facts, g: Commits, u: RefUpdate) {
    forall c, p :: IsOld(g, u, c) && c in g && p in g[c] ==> (c, p) in f.parent
  }

  /** The facts stop at the old tip, as the extractor is documented to: they hold the edges of the commits one update
      brings, and no others. */
  ghost predicate BoundedFacts(f: Facts, g: Commits, u: RefUpdate) {
    f.refUpdate == [u] && forall e :: e in f.parent ==> IsNew(g, u, e.0)
  }

  ghost predicate Clean(f: Facts) {
    forall v :: !Denies(f, v)
  }

  ghost predicate IsLedger(l: Ledger) {
    match l
    case Empty => true
    case Then(before, facts, g) =>
      IsLedger(before) && Grows(GraphOf(before), g) && Faithful(facts, g, RefsOf(before)) && Clean(facts)
  }

  // -- facts and graph ------------------------------------------------------------------

  lemma FactsAreEdges(f: Facts, g: Commits, c: Oid, p: Oid)
    requires FactsReal(f, g)
    requires c in FactGraph(f.parent) && p in FactGraph(f.parent)[c]
    ensures c in g && p in g[c]
  {
    assert (c, p) in f.parent;
  }

  lemma {:induction false} FactPathsAreReal(f: Facts, g: Commits, p: seq<Oid>)
    requires FactsReal(f, g) && IsPath(FactGraph(f.parent), p)
    ensures IsPath(g, p)
  {
    hide FactGraph;
    if |p| > 1 {
      FactsAreEdges(f, g, p[0], p[1]);
      FactPathsAreReal(f, g, p[1..]);
    }
  }

  /** A path of the graph all of whose edges start at new commits is a path of the facts. */
  lemma {:induction false} NewPathsAreFacts(f: Facts, g: Commits, u: RefUpdate, p: seq<Oid>)
    requires NewEdges(f, g, u) && IsPath(g, p) && Reaches(g, u.after, p[0])
    requires forall i :: 0 <= i < |p| - 1 ==> !IsOld(g, u, p[i])
    ensures IsPath(FactGraph(f.parent), p)
  {
    hide FactGraph, Reaches, IsOld;
    if |p| > 1 {
      assert IsNew(g, u, p[0]);
      FactEdge(f, p[0], p[1]);
      ReachesParent(g, u.after, p[0], p[1]);
      NewPathsAreFacts(f, g, u, p[1..]);
    }
  }

  lemma FactEdge(f: Facts, c: Oid, p: Oid)
    requires (c, p) in f.parent
    ensures c in FactGraph(f.parent) && p in FactGraph(f.parent)[c]
  {
  }

  lemma AncestorIsReal(f: Facts, g: Commits, tip: Oid, a: Oid)
    requires FactsReal(f, g) && Acyclic(g) && Ancestor(FactGraph(f.parent), tip, a)
    ensures Reaches(g, tip, a) && a != tip
  {
    hide FactGraph;
    var fg := FactGraph(f.parent);
    var q :| q in fg[tip] && Reaches(fg, q, a);
    var p :| IsPath(fg, p) && p[0] == q && p[|p| - 1] == a;
    FactPathsAreReal(f, g, p);
    FactsAreEdges(f, g, tip, q);
    assert Reaches(g, q, a);
    ReachesViaParent(g, tip, q, a);
  }

  lemma PathIsAncestry(g: Commits, p: seq<Oid>)
    requires IsPath(g, p) && |p| > 1
    ensures Ancestor(g, p[0], p[|p| - 1])
  {
    assert IsPath(g, p[1..]) && p[1..][|p| - 2] == p[|p| - 1];
    assert Reaches(g, p[1], p[|p| - 1]);
  }

  lemma {:induction false} PathNodesReach(g: Commits, p: seq<Oid>, i: nat)
    requires IsPath(g, p) && i < |p|
    ensures Reaches(g, p[i], p[|p| - 1])
    ensures i < |p| - 1 ==> p[i] in g && p[i + 1] in g[p[i]] && Reaches(g, p[i + 1], p[|p| - 1])
    decreases i
  {
    if i == 0 {
      assert |p| > 1 ==> IsPath(g, p[1..]) && p[1..][|p| - 2] == p[|p| - 1];
    } else {
      PathNodesReach(g, p[1..], i - 1);
    }
  }

  /** On the way to a new commit, or to the old tip itself, no commit before the end is old. */
  lemma FreshUntilTheEnd(g: Commits, u: RefUpdate, p: seq<Oid>, i: nat)
    requires Acyclic(g) && IsPath(g, p) && i < |p| - 1
    requires IsNew(g, u, p[|p| - 1]) || u.before == Some(p[|p| - 1])
    ensures !IsOld(g, u, p[i])
  {
    hide Reaches, IsPath;
    PathNodesReach(g, p, i);
    var c := p[|p| - 1];
    if IsOld(g, u, p[i]) {
      ReachesTrans(g, u.before.value, p[i], c);
      if u.before == Some(c) {
        ReachesTrans(g, p[i + 1], c, p[i]);
      }
    }
  }

  /** The facts derive every new commit from the new tip, and the old tip where the new one descends from it. */
  lemma NewIsDerived(f: Facts, g: Commits, u: RefUpdate, c: Oid)
    requires Acyclic(g) && NewEdges(f, g, u) && Reaches(g, u.after, c)
    requires IsNew(g, u, c) || u.before == Some(c)
    ensures c == u.after || Ancestor(FactGraph(f.parent), u.after, c)
  {
    hide FactGraph, NewEdges, IsNew, IsOld;
    var fg := FactGraph(f.parent);
    if c != u.after {
      var p :| IsPath(g, p) && p[0] == u.after && p[|p| - 1] == c;
      forall i | 0 <= i < |p| - 1
        ensures !IsOld(g, u, p[i])
      {
        FreshUntilTheEnd(g, u, p, i);
      }
      ReachesSelf(g, u.after);
      NewPathsAreFacts(f, g, u, p);
      PathIsAncestry(fg, p);
    }
  }

  /** Below an old tip all of whose edges are facts, derived ancestry is reachability. */
  lemma {:induction false} WholePathsAreFacts(f: Facts, g: Commits, u: RefUpdate, p: seq<Oid>)
    requires WholeFacts(f, g, u) && IsPath(g, p) && IsOld(g, u, p[0])
    ensures IsPath(FactGraph(f.parent), p)
  {
    hide FactGraph, Reaches;
    if |p| > 1 {
      assert (p[0], p[1]) in f.parent;
      FactEdge(f, p[0], p[1]);
      ReachesParent(g, u.before.value, p[0], p[1]);
      WholePathsAreFacts(f, g, u, p[1..]);
    }
  }

  lemma OldIsDerived(f: Facts, g: Commits, u: RefUpdate, c: Oid)
    requires WholeFacts(f, g, u) && IsOld(g, u, c) && c != u.before.value
    ensures Ancestor(FactGraph(f.parent), u.before.value, c)
  {
    hide FactGraph;
    var fg, tip := FactGraph(f.parent), u.before.value;
    var p :| IsPath(g, p) && p[0] == tip && p[|p| - 1] == c;
    ReachesSelf(g, tip);
    WholePathsAreFacts(f, g, u, p);
    PathIsAncestry(fg, p);
  }

  lemma ParentRecorded(f: Facts, g: Commits, u: RefUpdate, c: Oid)
    requires FactsReal(f, g) && NewEdges(f, g, u) && IsNew(g, u, c) && c in g
    ensures c in FactGraph(f.parent) <==> g[c] != []
  {
    hide Reaches, IsNew;
    if g[c] != [] {
      assert g[c][0] in g[c] && (c, g[c][0]) in f.parent;
    }
    if c in FactGraph(f.parent) {
      var p := FactGraph(f.parent)[c][0];
      FactsAreEdges(f, g, c, p);
    }
  }

  lemma {:induction false} OneUpdate(refs: Refs, updates: seq<RefUpdate>, name: string)
    requires forall i, j :: 0 <= i < j < |updates| ==> updates[i].name != updates[j].name
    ensures forall u :: u in updates && u.name == name ==>
              name in Update(refs, updates) && Update(refs, updates)[name] == u.after
    ensures (forall u :: u in updates ==> u.name != name) ==>
              (name in Update(refs, updates) <==> name in refs)
              && (name in refs ==> Update(refs, updates)[name] == refs[name])
  {
    if updates != [] {
      OneUpdate(refs, updates[1..], name);
      assert updates == [updates[0]] + updates[1..];
    }
  }

  lemma SameUpdate(f: Facts, g: Commits, refs: Refs, u: RefUpdate, v: RefUpdate)
    requires Faithful(f, g, refs) && u in f.refUpdate && v in f.refUpdate && u.name == v.name
    ensures u == v
  {
  }

  /** Everything an update brings is introduced, and nothing the new tip does not reach. */
  lemma NewIsIntroduced(f: Facts, g: Commits, refs: Refs, u: RefUpdate, c: Oid)
    requires Faithful(f, g, refs) && u in f.refUpdate
    ensures IsNew(g, u, c) ==> Introduced(f, u.name, c)
    ensures Introduced(f, u.name, c) ==> Reaches(g, u.after, c)
  {
    hide FactGraph, Reaches, Ancestor, NewEdges, Acyclic, Complete;
    assert FaithfulUpdate(f, g, refs, u);
    OnlyUpdate(f, g, refs, u);
    ReachesSelf(g, u.after);
    if IsNew(g, u, c) {
      NewIsDerived(f, g, u, c);
      if Covered(f, u.name, c) && c != u.before.value {
        AncestorIsReal(f, g, u.before.value, c);
      }
      if u.before.Some? {
        ReachesSelf(g, u.before.value);
      }
    }
    if Introduced(f, u.name, c) && c != u.after {
      AncestorIsReal(f, g, u.after, c);
    }
  }

  lemma OnlyUpdate(f: Facts, g: Commits, refs: Refs, u: RefUpdate)
    requires Faithful(f, g, refs) && u in f.refUpdate
    ensures forall v :: v in f.refUpdate && v.name == u.name ==> v == u
  {
    forall v | v in f.refUpdate && v.name == u.name
      ensures v == u
    {
      SameUpdate(f, g, refs, u, v);
    }
  }

  /** Facts that also hold the edges below the old tip introduce exactly what the update brings. */
  lemma IntroducedIsDifference(f: Facts, g: Commits, refs: Refs, u: RefUpdate, c: Oid)
    requires Faithful(f, g, refs) && u in f.refUpdate && WholeFacts(f, g, u)
    ensures Introduced(f, u.name, c) <==> IsNew(g, u, c)
  {
    hide FactGraph, Reaches, Ancestor, NewEdges, Acyclic, Complete, Faithful, WholeFacts;
    NewIsIntroduced(f, g, refs, u, c);
    if Introduced(f, u.name, c) && IsOld(g, u, c) && c != u.before.value {
      OldIsDerived(f, g, u, c);
    }
  }

  /** The new tip descends from the old one. */
  ghost predicate Descends(g: Commits, u: RefUpdate) {
    u.before.Some? ==> Reaches(g, u.after, u.before.value)
  }

  /** Some commit the update brings has a parent that is old, but not the old tip itself. */
  ghost predicate ReachesBelow(g: Commits, u: RefUpdate, p: Oid) {
    IsOld(g, u, p) && u.before != Some(p) && exists c :: IsNew(g, u, c) && c in g && p in g[c]
  }

  /** Facts that stop at the old tip introduce what the update brings, and besides that the parents it has below the old
      tip. */
  lemma BoundedIntroducesIff(f: Facts, g: Commits, refs: Refs, u: RefUpdate, c: Oid)
    requires Faithful(f, g, refs) && BoundedFacts(f, g, u) && Descends(g, u)
    ensures Introduced(f, u.name, c) <==> IsNew(g, u, c) || ReachesBelow(g, u, c)
  {
    hide FactGraph, Reaches, NewEdges, Acyclic, Complete, Faithful, IsNew, IsOld;
    NewIsIntroduced(f, g, refs, u, c);
    NewOrOld(g, u, c);
    if IsOld(g, u, c) {
      BoundedOld(f, g, refs, u, c);
    } else {
      NotBelow(g, u, c);
    }
  }

  lemma NewOrOld(g: Commits, u: RefUpdate, c: Oid)
    ensures Reaches(g, u.after, c) ==> IsNew(g, u, c) || IsOld(g, u, c)
    ensures IsNew(g, u, c) ==> Reaches(g, u.after, c) && !IsOld(g, u, c)
  {
    hide Reaches;
  }

  lemma NotBelow(g: Commits, u: RefUpdate, c: Oid)
    requires !IsOld(g, u, c)
    ensures !ReachesBelow(g, u, c)
  {
  }

  lemma TwoWaysIsOne(g: Commits, a: Oid, b: Oid)
    requires Acyclic(g) && Reaches(g, a, b) && Reaches(g, b, a)
    ensures a == b
  {
    hide Reaches;
    if a != b {
      ReachesUnfold(g, a, b);
      var p :| p in g[a] && Reaches(g, p, b);
      ReachesTrans(g, p, b, a);
    }
  }

  lemma LastEdge(g: Commits, c: Oid, a: Oid) returns (x: Oid)
    requires Ancestor(g, c, a)
    ensures x in g && a in g[x]
  {
    var q :| q in g[c] && Reaches(g, q, a);
    var p :| IsPath(g, p) && p[0] == q && p[|p| - 1] == a;
    if |p| == 1 {
      x := c;
    } else {
      PathNodesReach(g, p, |p| - 2);
      x := p[|p| - 2];
    }
  }

  lemma FactChildIsNew(f: Facts, g: Commits, u: RefUpdate, c: Oid)
    requires BoundedFacts(f, g, u) && c in FactGraph(f.parent)
    ensures IsNew(g, u, c)
  {
    hide Reaches;
    var p := FactGraph(f.parent)[c][0];
    assert (c, p) in f.parent;
  }

  lemma OldHasNoFacts(f: Facts, g: Commits, u: RefUpdate, c: Oid)
    requires BoundedFacts(f, g, u) && IsOld(g, u, c)
    ensures c !in FactGraph(f.parent)
  {
    hide Reaches, FactGraph;
    if c in FactGraph(f.parent) {
      FactChildIsNew(f, g, u, c);
    }
  }

  /** Nothing is derived from the old tip, so an old commit is introduced exactly where a new one has it as parent. */
  lemma BoundedOld(f: Facts, g: Commits, refs: Refs, u: RefUpdate, c: Oid)
    requires Faithful(f, g, refs) && BoundedFacts(f, g, u) && Descends(g, u) && IsOld(g, u, c)
    ensures Introduced(f, u.name, c) <==> ReachesBelow(g, u, c)
  {
    hide FactGraph, Reaches, Acyclic, Complete, IsNew;
    var fg, tip := FactGraph(f.parent), u.before.value;
    assert u in f.refUpdate && FaithfulUpdate(f, g, refs, u);
    ReachesSelf(g, tip);
    OldHasNoFacts(f, g, u, tip);
    assert Covered(f, u.name, c) <==> c == tip;
    if c == u.after {
      TwoWaysIsOne(g, c, tip);
    }
    if Introduced(f, u.name, c) {
      var x := LastEdge(fg, u.after, c);
      FactsAreEdges(f, g, x, c);
      FactOf(f, x, c);
      assert IsNew(g, u, x);
    }
    if ReachesBelow(g, u, c) {
      var x :| IsNew(g, u, x) && x in g && c in g[x];
      NewOrOld(g, u, x);
      NewIsDerived(f, g, u, x);
      FactEdge(f, x, c);
      OneStepFurther(fg, u.after, x, c);
    }
  }

  lemma FactOf(f: Facts, x: Oid, c: Oid)
    requires x in FactGraph(f.parent) && c in FactGraph(f.parent)[x]
    ensures (x, c) in f.parent
  {
  }

  lemma OneStepFurther(g: Commits, a: Oid, x: Oid, c: Oid)
    requires (x == a || Ancestor(g, a, x)) && x in g && c in g[x]
    ensures Ancestor(g, a, c)
  {
    hide Reaches;
    ReachesSelf(g, c);
    if x != a {
      var q :| q in g[a] && Reaches(g, q, x);
      ReachesParent(g, q, x, c);
    }
  }

  // -- one transaction ---------------------------------------------------------------------

  /** The whole-history rule: `x` is the one parentless commit below `tip`. */
  ghost predicate OnlyRoot(g: Commits, tip: Oid, root: Oid) {
    forall x :: IsRoot(g, tip, x) <==> x == root
  }

  lemma FastForwardIff(f: Facts, g: Commits, refs: Refs, u: RefUpdate)
    requires Faithful(f, g, refs) && u in f.refUpdate && u.before.Some?
    ensures Denies(f, NotFastForward(u.name)) <==> !Reaches(g, u.after, u.before.value)
  {
    hide FactGraph, Reaches, Ancestor, NewEdges, Acyclic, Complete, IsNew;
    assert FaithfulUpdate(f, g, refs, u);
    OnlyUpdate(f, g, refs, u);
    ReachesSelf(g, u.after);
    if Reaches(g, u.after, u.before.value) {
      NewIsDerived(f, g, u, u.before.value);
    }
    if Ancestor(FactGraph(f.parent), u.after, u.before.value) {
      AncestorIsReal(f, g, u.after, u.before.value);
    }
  }

  /** Which introduced commits the second-root rule fires on, on a fast-forward from a tip with one root: the other
      roots of the new tip, and every old commit introduced without a parent fact. */
  lemma SecondRootAt(f: Facts, g: Commits, refs: Refs, u: RefUpdate, root: Oid, c: Oid)
    requires Faithful(f, g, refs) && u in f.refUpdate && u.before.Some?
    requires OnlyRoot(g, u.before.value, root) && Reaches(g, u.after, u.before.value)
    ensures Denies(f, SecondRoot(u.name, c)) <==>
              || (IsRoot(g, u.after, c) && c != root)
              || (IsOld(g, u, c) && Introduced(f, u.name, c) && c !in FactGraph(f.parent))
  {
    hide FactGraph, Reaches, Introduced, NewEdges, Acyclic, IsNew;
    assert FaithfulUpdate(f, g, refs, u);
    NewIsIntroduced(f, g, refs, u, c);
    NewOrOld(g, u, c);
    if IsNew(g, u, c) {
      ParentRecorded(f, g, u, c);
    }
    assert IsRoot(g, u.before.value, c) <==> c == root;
    if IsOld(g, u, c) {
      ReachesTrans(g, u.after, u.before.value, c);
    }
  }

  /** The rule as a whole: it is silent exactly when the new tip has the old tip's one root, and no old commit is
      introduced without a parent fact. */
  lemma SecondRootRule(f: Facts, g: Commits, refs: Refs, u: RefUpdate, root: Oid)
    requires Faithful(f, g, refs) && u in f.refUpdate && u.before.Some?
    requires OnlyRoot(g, u.before.value, root) && Reaches(g, u.after, u.before.value)
    ensures (forall c :: !Denies(f, SecondRoot(u.name, c))) <==>
              && OnlyRoot(g, u.after, root)
              && forall c :: IsOld(g, u, c) && Introduced(f, u.name, c) ==> c in FactGraph(f.parent)
  {
    hide FactGraph, Reaches, Introduced, Faithful, IsOld, Denies;
    forall c
      ensures Denies(f, SecondRoot(u.name, c)) <==>
                || (IsRoot(g, u.after, c) && c != root)
                || (IsOld(g, u, c) && Introduced(f, u.name, c) && c !in FactGraph(f.parent))
    {
      SecondRootAt(f, g, refs, u, root, c);
    }
    assert IsRoot(g, u.before.value, root);
    ReachesTrans(g, u.after, u.before.value, root);
  }

  /** With the facts below the old tip at hand, on a fast-forward from a tip with one root, refusing the introduced
      parentless commits is the same as demanding that the whole history has that one root. */
  lemma SecondRootIff(f: Facts, g: Commits, refs: Refs, u: RefUpdate, root: Oid)
    requires Faithful(f, g, refs) && u in f.refUpdate && u.before.Some? && WholeFacts(f, g, u)
    requires OnlyRoot(g, u.before.value, root) && Reaches(g, u.after, u.before.value)
    ensures (forall c :: !Denies(f, SecondRoot(u.name, c))) <==> OnlyRoot(g, u.after, root)
  {
    hide FactGraph, Reaches, Introduced, Faithful, WholeFacts, OnlyRoot, Denies, IsOld;
    SecondRootRule(f, g, refs, u, root);
    forall c | IsOld(g, u, c)
      ensures !Introduced(f, u.name, c)
    {
      IntroducedIsDifference(f, g, refs, u, c);
      NewOrOld(g, u, c);
    }
  }

  /** With facts that stop at the old tip, the rule also refuses every update that brings a commit with a parent below
      the old tip, such as the merge of a branch off an older commit, though the history keeps its one root. */
  lemma SecondRootBoundedIff(f: Facts, g: Commits, refs: Refs, u: RefUpdate, root: Oid)
    requires Faithful(f, g, refs) && u.before.Some? && BoundedFacts(f, g, u)
    requires OnlyRoot(g, u.before.value, root) && Reaches(g, u.after, u.before.value)
    ensures (forall c :: !Denies(f, SecondRoot(u.name, c))) <==>
              OnlyRoot(g, u.after, root) && forall p :: !ReachesBelow(g, u, p)
  {
    hide FactGraph, Reaches, Introduced, Faithful, OnlyRoot, Denies, IsOld;
    assert u in f.refUpdate;
    SecondRootRule(f, g, refs, u, root);
    forall c
      ensures IsOld(g, u, c) ==> (Introduced(f, u.name, c) <==> ReachesBelow(g, u, c)) && c !in FactGraph(f.parent)
      ensures ReachesBelow(g, u, c) ==> IsOld(g, u, c)
    {
      if IsOld(g, u, c) {
        BoundedOld(f, g, refs, u, c);
        OldHasNoFacts(f, g, u, c);
      }
    }
  }

  function Fork(root: Oid, tip: Oid, side: Oid, merge: Oid): Commits {
    map[root := [], tip := [root], side := [root], merge := [tip, side]]
  }

  predicate Apart(root: Oid, tip: Oid, side: Oid, merge: Oid) {
    root != tip && root != side && root != merge && tip != side && tip != merge && side != merge
  }

  lemma ForkReaches(root: Oid, tip: Oid, side: Oid, merge: Oid)
    requires Apart(root, tip, side, merge)
    ensures forall x :: Reaches(Fork(root, tip, side, merge), root, x) <==> x == root
    ensures forall x :: Reaches(Fork(root, tip, side, merge), tip, x) <==> x == tip || x == root
    ensures forall x :: Reaches(Fork(root, tip, side, merge), side, x) <==> x == side || x == root
    ensures forall x :: Reaches(Fork(root, tip, side, merge), merge, x) <==> x in {root, tip, side, merge}
  {
    hide Reaches;
    var g := Fork(root, tip, side, merge);
    ReachesBelowOnly(g, root, {root});
    ReachesBelowOnly(g, tip, {tip, root});
    ReachesBelowOnly(g, side, {side, root});
    ReachesBelowOnly(g, merge, {root, tip, side, merge});
    ReachesSelf(g, root);
    ReachesSelf(g, tip);
    ReachesSelf(g, side);
    ReachesSelf(g, merge);
    ReachesViaParent(g, tip, root, root);
    ReachesViaParent(g, side, root, root);
    ReachesViaParent(g, merge, tip, root);
    ReachesViaParent(g, merge, tip, tip);
    ReachesViaParent(g, merge, side, side);
  }

  lemma ReachesBelowOnly(g: Commits, a: Oid, below: set<Oid>)
    requires a in below && Closed(g, below)
    ensures forall x :: Reaches(g, a, x) ==> x in below
  {
    hide Reaches;
    forall x | Reaches(g, a, x)
      ensures x in below
    {
      ClosedReach(g, below, a, x);
    }
  }

  lemma ForkIsAcyclic(root: Oid, tip: Oid, side: Oid, merge: Oid)
    requires Apart(root, tip, side, merge)
    ensures Acyclic(Fork(root, tip, side, merge))
  {
    hide Reaches;
    ForkReaches(root, tip, side, merge);
  }

  lemma ForkRoots(root: Oid, tip: Oid, side: Oid, merge: Oid)
    requires Apart(root, tip, side, merge)
    ensures var g := Fork(root, tip, side, merge);
            && OnlyRoot(g, tip, root) && OnlyRoot(g, merge, root) && Complete(g, tip) && Complete(g, merge)
  {
    hide Reaches;
    ForkReaches(root, tip, side, merge);
  }

  /** What the extractor hands over when the ref moves from `tip` to `merge`. */
  function ForkFacts(root: Oid, tip: Oid, side: Oid, merge: Oid, name: string): Facts {
    Facts([RefUpdate(name, Some(tip), merge)], [(merge, tip), (merge, side), (side, root)], [], [], [], [], [])
  }

  lemma ForkFaithful(root: Oid, tip: Oid, side: Oid, merge: Oid, name: string)
    requires Apart(root, tip, side, merge)
    ensures var g, f := Fork(root, tip, side, merge), ForkFacts(root, tip, side, merge, name);
            var u := f.refUpdate[0];
            && Faithful(f, g, map[name := tip]) && BoundedFacts(f, g, u) && ReachesBelow(g, u, root)
  {
    hide Reaches, Acyclic, Complete;
    var g, f := Fork(root, tip, side, merge), ForkFacts(root, tip, side, merge, name);
    var u := f.refUpdate[0];
    ForkReaches(root, tip, side, merge);
    ForkIsAcyclic(root, tip, side, merge);
    ForkRoots(root, tip, side, merge);
    assert IsNew(g, u, side);
    forall c, p | IsNew(g, u, c) && c in g && p in g[c]
      ensures (c, p) in f.parent
    {
      assert c == merge || c == side;
    }
  }

  /** The merge of a branch that left the history below the old tip: one root before and after, and refused by facts
      that stop at the old tip. */
  lemma MergeBelowIsRefused() returns (f: Facts, g: Commits, refs: Refs, u: RefUpdate, root: Oid)
    ensures Faithful(f, g, refs) && u.before.Some? && BoundedFacts(f, g, u) && Reaches(g, u.after, u.before.value)
    ensures OnlyRoot(g, u.before.value, root) && OnlyRoot(g, u.after, root)
    ensures exists c :: Denies(f, SecondRoot(u.name, c))
  {
    hide Reaches, FactGraph, Introduced, Acyclic, Faithful, BoundedFacts, ReachesBelow, OnlyRoot, Fork, Denies, Closed;
    root := Oid("0000000000000000000000000000000000000000");
    var tip, side, merge := Oid("1111111111111111111111111111111111111111"),
      Oid("2222222222222222222222222222222222222222"), Oid("3333333333333333333333333333333333333333");
    assert root.hex[0] == '0' && tip.hex[0] == '1' && side.hex[0] == '2' && merge.hex[0] == '3';
    var name := "refs/meta/issues/0000000000000000000000000000000000000000";
    g, f, refs := Fork(root, tip, side, merge), ForkFacts(root, tip, side, merge, name), map[name := tip];
    u := f.refUpdate[0];
    ForkReaches(root, tip, side, merge);
    ForkRoots(root, tip, side, merge);
    ForkFaithful(root, tip, side, merge, name);
    SecondRootBoundedIff(f, g, refs, u, root);
  }

  /** A creation passes the genesis rule exactly when its tip is its own one root. */
  lemma GenesisIff(f: Facts, g: Commits, refs: Refs, u: RefUpdate)
    requires Faithful(f, g, refs) && u in f.refUpdate && u.before.None?
    ensures !Denies(f, ParentedGenesis(u.name)) <==> OnlyRoot(g, u.after, u.after)
  {
    hide FactGraph, Reaches, NewEdges, Acyclic;
    assert FaithfulUpdate(f, g, refs, u);
    OnlyUpdate(f, g, refs, u);
    ReachesSelf(g, u.after);
    ParentRecorded(f, g, u, u.after);
    assert IsRoot(g, u.after, u.after) <==> g[u.after] == [];
    if g[u.after] == [] {
      forall x | Reaches(g, u.after, x)
        ensures x == u.after
      {
        if x != u.after {
          ReachesUnfold(g, u.after, x);
          assert false;
        }
      }
    }
  }

  // -- runs ------------------------------------------------------------------------------------

  lemma OnlyRootGrows(g: Commits, g': Commits, tip: Oid, root: Oid)
    requires Grows(g, g') && Complete(g, tip) && OnlyRoot(g, tip, root)
    ensures OnlyRoot(g', tip, root)
  {
    hide Reaches, Complete;
    forall x
      ensures IsRoot(g', tip, x) <==> IsRoot(g, tip, x)
    {
      SameReach(g, g', tip, x);
    }
  }

  lemma SameReach(g: Commits, g': Commits, tip: Oid, x: Oid)
    requires Grows(g, g') && Complete(g, tip)
    ensures Reaches(g', tip, x) <==> Reaches(g, tip, x)
    ensures Reaches(g, tip, x) ==> x in g
  {
    if Reaches(g, tip, x) {
      ReachesGrows(g, g', tip, x);
    }
    if Reaches(g', tip, x) {
      CompleteReachStable(g, g', tip, x);
    }
  }

  /** Along any run of clean transactions, each ref's history has one root: the commit the ref was created at. */
  lemma {:induction false} RefsKeepTheirRoot(l: Ledger, name: string)
    requires IsLedger(l) && name in RefsOf(l)
    ensures Complete(GraphOf(l), RefsOf(l)[name]) && OnlyRoot(GraphOf(l), RefsOf(l)[name], Birth(l, name))
    decreases l
  {
    hide Reaches, FactGraph, Introduced, NewEdges, Acyclic, OnlyRoot, Complete, Denies;
    var was, f, g := RefsOf(l.before), l.facts, l.g;
    OneUpdate(was, f.refUpdate, name);
    if name in was {
      RefsKeepTheirRoot(l.before, name);
      var root := Birth(l.before, name);
      CompleteGrows(GraphOf(l.before), g, was[name]);
      OnlyRootGrows(GraphOf(l.before), g, was[name], root);
      if u :| u in f.refUpdate && u.name == name {
        assert FaithfulUpdate(f, g, was, u);
        FastForwardIff(f, g, was, u);
        SecondRootRule(f, g, was, u, root);
      }
    } else {
      var u :| u in f.refUpdate && u.name == name;
      assert FaithfulUpdate(f, g, was, u);
      GenesisIff(f, g, was, u);
    }
  }

  // -- the rules as a whole ----------------------------------------------------------------------

  ghost predicate SignedIn(f: Facts, c: Oid) {
    exists key, role :: (c, key) in f.signedBy && (key, role) in f.member
  }

  ghost predicate AdminSignedIn(f: Facts, c: Oid) {
    exists key :: (c, key) in f.signedBy && (key, AdminRole) in f.member
  }

  /** Every object the commit anchors, and every context it captured, will be there. */
  ghost predicate AnchorsThere(f: Facts, c: Oid) {
    forall t :: (c, t) in f.anchor || (c, t) in f.context ==> t in f.objectExists
  }

  lemma SignedIff(f: Facts, c: Oid)
    ensures MemberSigned(f, c) <==> SignedIn(f, c)
    ensures AdminSigned(f, c) <==> AdminSignedIn(f, c)
  {
    hide MemberSigned, AdminSigned;
    SignedByMember(f, c);
    SignedByAdmin(f, c);
  }

  lemma SignedByMember(f: Facts, c: Oid)
    ensures MemberSigned(f, c) <==> SignedIn(f, c)
  {
    if s, m :| s in f.signedBy && m in f.member && s.0 == c && s.1 == m.0 {
      assert (c, s.1) in f.signedBy && (s.1, m.1) in f.member;
    }
    if key, role :| (c, key) in f.signedBy && (key, role) in f.member {
      var s, m := (c, key), (key, role);
      assert s in f.signedBy && m in f.member;
    }
  }

  lemma SignedByAdmin(f: Facts, c: Oid)
    ensures AdminSigned(f, c) <==> AdminSignedIn(f, c)
  {
    if s, m :| s in f.signedBy && m in f.member && s.0 == c && s.1 == m.0 && m.1 == AdminRole {
      assert (c, s.1) in f.signedBy && (s.1, AdminRole) in f.member;
    }
    if key :| (c, key) in f.signedBy && (key, AdminRole) in f.member {
      var s, m := (c, key), (key, AdminRole);
      assert s in f.signedBy && m in f.member;
    }
  }

  /** What the update has to be: a creation at its own one root, or a descent that brings no other; with every commit it
      brings signed by a member, under `refs/meta/effects/` by an admin, and its anchors and contexts there. */
  ghost predicate Proper(f: Facts, g: Commits, u: RefUpdate) {
    && (u.before.None? ==> OnlyRoot(g, u.after, u.after))
    && (u.before.Some? ==> Reaches(g, u.after, u.before.value))
    && (u.before.Some? ==> forall c :: IsNew(g, u, c) && c in g ==> g[c] != [])
    && (forall c :: IsNew(g, u, c) ==> Vetted(f, u.name, c))
  }

  ghost predicate Vetted(f: Facts, name: string, c: Oid) {
    && SignedIn(f, c) && AnchorsThere(f, c)
    && ("refs/meta/effects/" <= name ==> AdminSignedIn(f, c))
  }

  ghost predicate AllWhole(f: Facts, g: Commits) {
    forall u :: u in f.refUpdate ==> WholeFacts(f, g, u)
  }

  /** The seven rules together: with the facts below the old tips at hand, a transaction is clean exactly when each of
      its updates is proper. */
  lemma CleanIff(f: Facts, g: Commits, refs: Refs)
    requires Faithful(f, g, refs) && AllWhole(f, g)
    ensures Clean(f) <==> forall u :: u in f.refUpdate ==> Proper(f, g, u)
  {
    hide Faithful, Denies, Proper, WholeFacts;
    if Clean(f) {
      forall u | u in f.refUpdate
        ensures Proper(f, g, u)
      {
        CleanIsProper(f, g, refs, u);
      }
    }
    if forall u :: u in f.refUpdate ==> Proper(f, g, u) {
      forall v
        ensures !Denies(f, v)
      {
        ProperIsClean(f, g, refs, v);
      }
    }
  }

  lemma NewIsThere(f: Facts, g: Commits, refs: Refs, u: RefUpdate, c: Oid)
    requires Faithful(f, g, refs) && u in f.refUpdate && IsNew(g, u, c)
    ensures c in g && (c in FactGraph(f.parent) <==> g[c] != [])
  {
    hide Reaches, Acyclic, FactGraph, NewEdges;
    assert FaithfulUpdate(f, g, refs, u);
    ParentRecorded(f, g, u, c);
  }

  lemma CleanIsProper(f: Facts, g: Commits, refs: Refs, u: RefUpdate)
    requires Faithful(f, g, refs) && AllWhole(f, g) && Clean(f) && u in f.refUpdate
    ensures Proper(f, g, u)
  {
    hide Faithful, FactGraph, Introduced, IsNew, Reaches, OnlyRoot, SignedIn, AdminSignedIn, MemberSigned, AdminSigned;
    if u.before.None? {
      GenesisIff(f, g, refs, u);
    } else {
      FastForwardIff(f, g, refs, u);
    }
    forall c | IsNew(g, u, c)
      ensures Vetted(f, u.name, c)
      ensures u.before.Some? && c in g ==> g[c] != []
    {
      IntroducedIsDifference(f, g, refs, u, c);
      NewIsThere(f, g, refs, u, c);
      SignedIff(f, c);
      assert !Denies(f, Unsigned(u.name, c)) && !Denies(f, NotAdmin(u.name, c)) && !Denies(f, SecondRoot(u.name, c));
      forall t | (c, t) in f.anchor || (c, t) in f.context
        ensures t in f.objectExists
      {
        assert !Denies(f, DanglingAnchor(u.name, t)) && !Denies(f, DanglingContext(u.name, t));
      }
    }
  }

  lemma IntroducedBy(f: Facts, name: string, c: Oid) returns (u: RefUpdate)
    requires Introduced(f, name, c)
    ensures u in f.refUpdate && u.name == name
  {
    hide FactGraph, Ancestor;
    u :| u in f.refUpdate && u.name == name && (c == u.after || Ancestor(FactGraph(f.parent), u.after, c));
  }

  lemma ProperIsClean(f: Facts, g: Commits, refs: Refs, v: Violation)
    requires Faithful(f, g, refs) && AllWhole(f, g) && forall u :: u in f.refUpdate ==> Proper(f, g, u)
    ensures !Denies(f, v)
  {
    hide Faithful, FactGraph, Introduced, IsNew, Reaches, OnlyRoot, SignedIn, AdminSignedIn, MemberSigned, AdminSigned,
      Ancestor;
    match v
    case NotFastForward(r) =>
      if u :| u in f.refUpdate && u.name == r && u.before.Some? {
        OnlyUpdate(f, g, refs, u);
        FastForwardIff(f, g, refs, u);
      }
    case ParentedGenesis(r) =>
      if u :| u in f.refUpdate && u.name == r && u.before.None? {
        OnlyUpdate(f, g, refs, u);
        GenesisIff(f, g, refs, u);
      }
    case SecondRoot(r, c) => IntroducedIsVetted(f, g, refs, r, c);
    case Unsigned(r, c) => IntroducedIsVetted(f, g, refs, r, c);
    case NotAdmin(r, c) => IntroducedIsVetted(f, g, refs, r, c);
    case DanglingAnchor(r, t) =>
      forall c | (c, t) in f.anchor
        ensures Introduced(f, r, c) ==> t in f.objectExists
      {
        IntroducedIsVetted(f, g, refs, r, c);
      }
    case DanglingContext(r, t) =>
      forall c | (c, t) in f.context
        ensures Introduced(f, r, c) ==> t in f.objectExists
      {
        IntroducedIsVetted(f, g, refs, r, c);
      }
  }

  lemma IntroducedIsVetted(f: Facts, g: Commits, refs: Refs, name: string, c: Oid)
    requires Faithful(f, g, refs) && AllWhole(f, g) && forall u :: u in f.refUpdate ==> Proper(f, g, u)
    ensures Introduced(f, name, c) ==>
              && MemberSigned(f, c) && AnchorsThere(f, c)
              && ("refs/meta/effects/" <= name ==> AdminSigned(f, c))
              && ((exists u :: u in f.refUpdate && u.name == name && u.before.Some?) ==> c in FactGraph(f.parent))
  {
    hide Faithful, FactGraph, Introduced, IsNew, Reaches, OnlyRoot, SignedIn, AdminSignedIn, MemberSigned, AdminSigned;
    if Introduced(f, name, c) {
      var u := IntroducedBy(f, name, c);
      OnlyUpdate(f, g, refs, u);
      IntroducedIsDifference(f, g, refs, u, c);
      NewIsThere(f, g, refs, u, c);
      SignedIff(f, c);
      assert Proper(f, g, u);
    }
  }

  /** Some transaction of the run introduced `c` to the ref, with a signature of a member enrolled then, and under
      `refs/meta/effects/` of an admin, and with its anchors and contexts there. */
  ghost predicate SignedWhenIntroduced(l: Ledger, name: string, c: Oid) {
    l.Then? &&
    ( || (Introduced(l.facts, name, c) && Vetted(l.facts, name, c))
      || SignedWhenIntroduced(l.before, name, c))
  }

  lemma AnchorsIntroduced(f: Facts, name: string, c: Oid)
    requires Clean(f) && Introduced(f, name, c)
    ensures AnchorsThere(f, c)
  {
    hide Introduced, FactGraph;
    forall t | (c, t) in f.anchor || (c, t) in f.context
      ensures t in f.objectExists
    {
      assert !Denies(f, DanglingAnchor(name, t)) && !Denies(f, DanglingContext(name, t));
    }
  }

  /** Along any run of clean transactions, every commit in a ref's whole history was signed by a member enrolled when
      it was introduced, and what it anchors was there. */
  lemma {:induction false} HistoryIsSigned(l: Ledger, name: string, c: Oid)
    requires IsLedger(l) && name in RefsOf(l) && Reaches(GraphOf(l), RefsOf(l)[name], c)
    ensures SignedWhenIntroduced(l, name, c)
    decreases l
  {
    hide Reaches, FactGraph, Introduced, NewEdges, Acyclic, OnlyRoot, Complete, MemberSigned, AdminSigned;
    var was, f, g := RefsOf(l.before), l.facts, l.g;
    OneUpdate(was, f.refUpdate, name);
    if name in was {
      RefsKeepTheirRoot(l.before, name);
      SameReach(GraphOf(l.before), g, was[name], c);
      if Reaches(g, was[name], c) {
        HistoryIsSigned(l.before, name, c);
        return;
      }
    }
    var u :| u in f.refUpdate && u.name == name;
    assert FaithfulUpdate(f, g, was, u);
    NewIsIntroduced(f, g, was, u, c);
    assert !Denies(f, Unsigned(name, c)) && !Denies(f, NotAdmin(name, c));
    SignedIff(f, c);
    AnchorsIntroduced(f, name, c);
  }

  /** The gate's all-roots walk over a store with this commit graph finds exactly the commit the ref was created at. */
  lemma AllRootsAgrees(l: Ledger, s: Store, name: string)
    requires IsLedger(l) && name in RefsOf(l) && CommitGraph(s) == GraphOf(l)
    ensures Walkable(s, RefsOf(l)[name])
    ensures forall r :: IsRoot(CommitGraph(s), RefsOf(l)[name], r) <==> r == Birth(l, name)
  {
    hide Reaches, FactGraph;
    RefsKeepTheirRoot(l, name);
    var tip := RefsOf(l)[name];
    forall r
      ensures IsRoot(CommitGraph(s), tip, r) <==> IsRoot(GraphOf(l), tip, r)
    {
    }
    forall x | Reaches(CommitGraph(s), tip, x)
      ensures !Broken(s, x)
    {
      assert x in CommitGraph(s);
    }
  }
}
