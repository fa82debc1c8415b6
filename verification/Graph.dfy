/** The commit graph every component works over: object ids, parent edges, reachability.

    Reachability is inclusive (a commit reaches itself) and is stated by explicit parent paths.  An id that is no
    key of the graph is an object that is missing or no commit; a path may end there but never continue. */
module Graph {

  /** An object id, by its lower-case hex text. */
  datatype Oid = Oid(hex: string)

  /** Commits and their parents, in order. */
  type Commits = map<Oid, seq<Oid>>

  predicate Distinct<T(==)>(s: seq<T>) {
    forall i, j :: 0 <= i < j < |s| ==> s[i] != s[j]
  }

  ghost predicate IsPath(g: Commits, p: seq<Oid>) {
    |p| > 0 && (|p| > 1 ==> p[0] in g && p[1] in g[p[0]] && IsPath(g, p[1..]))
  }

  ghost predicate Reaches(g: Commits, a: Oid, b: Oid) {
    exists p :: IsPath(g, p) && p[0] == a && p[|p| - 1] == b
  }

  ghost predicate ReachesAny(g: Commits, tips: set<Oid>, b: Oid) {
    exists t :: t in tips && Reaches(g, t, b)
  }

  /** `s` contains every parent of its members. */
  ghost predicate Closed(g: Commits, s: set<Oid>) {
    forall x, y :: x in s && x in g && y in g[x] ==> y in s
  }

  /** Everything reachable from `o` is a commit of the graph. */
  ghost predicate Complete(g: Commits, o: Oid) {
    forall x :: Reaches(g, o, x) ==> x in g
  }

  ghost predicate Acyclic(g: Commits) {
    forall x, y :: x in g && y in g[x] ==> !Reaches(g, y, x)
  }

  /** `g'` has every commit of `g`, unchanged: object stores only grow. */
  ghost predicate Grows(g: Commits, g': Commits) {
    forall x :: x in g ==> x in g' && g'[x] == g[x]
  }

  lemma ReachesSelf(g: Commits, a: Oid)
    ensures Reaches(g, a, a)
  {
    assert IsPath(g, [a]);
  }

  /** Paths that share an end join. */
  lemma {:induction false} JoinPaths(g: Commits, p: seq<Oid>, q: seq<Oid>)
    requires IsPath(g, p) && IsPath(g, q) && p[|p| - 1] == q[0]
    ensures IsPath(g, p + q[1..]) && (p + q[1..])[|p + q[1..]| - 1] == q[|q| - 1]
  {
    if |p| == 1 {
      assert p + q[1..] == q;
    } else {
      JoinPaths(g, p[1..], q);
      assert (p + q[1..])[1..] == p[1..] + q[1..];
    }
  }

  lemma ReachesTrans(g: Commits, a: Oid, b: Oid, c: Oid)
    requires Reaches(g, a, b) && Reaches(g, b, c)
    ensures Reaches(g, a, c)
  {
    var p :| IsPath(g, p) && p[0] == a && p[|p| - 1] == b;
    var q :| IsPath(g, q) && q[0] == b && q[|q| - 1] == c;
    JoinPaths(g, p, q);
  }

  lemma ReachesParent(g: Commits, a: Oid, b: Oid, c: Oid)
    requires Reaches(g, a, b) && b in g && c in g[b]
    ensures Reaches(g, a, c)
  {
    assert [b, c][1..] == [c] && IsPath(g, [b, c]);
    assert Reaches(g, b, c);
    ReachesTrans(g, a, b, c);
  }

  /** A parent's reach is part of its child's. */
  lemma ReachesViaParent(g: Commits, a: Oid, p: Oid, b: Oid)
    requires a in g && p in g[a] && Reaches(g, p, b)
    ensures Reaches(g, a, b)
  {
    ReachesSelf(g, a);
    ReachesParent(g, a, a, p);
    ReachesTrans(g, a, p, b);
  }

  /** A commit's reach is itself and its parents' reach. */
  lemma ReachesUnfold(g: Commits, a: Oid, b: Oid)
    requires Reaches(g, a, b) && a != b
    ensures a in g && exists p :: p in g[a] && Reaches(g, p, b)
  {
    var p :| IsPath(g, p) && p[0] == a && p[|p| - 1] == b;
    assert IsPath(g, p[1..]);
    assert p[1..][|p| - 2] == b;
    assert Reaches(g, p[1], b);
  }

  /** A path that leaves the graph leaves it from a commit of the graph: the step before the end. */
  lemma {:induction false} ClosedHolds(g: Commits, s: set<Oid>, p: seq<Oid>)
    requires Closed(g, s) && IsPath(g, p) && p[0] in s
    ensures p[|p| - 1] in s
  {
    if |p| > 1 {
      assert IsPath(g, p[1..]);
      ClosedHolds(g, s, p[1..]);
    }
  }

  /** A parent-closed set that holds the start of a walk holds all of it. */
  lemma ClosedReach(g: Commits, s: set<Oid>, a: Oid, b: Oid)
    requires Closed(g, s) && a in s && Reaches(g, a, b)
    ensures b in s
  {
    var p :| IsPath(g, p) && p[0] == a && p[|p| - 1] == b;
    ClosedHolds(g, s, p);
  }

  lemma {:induction false} PathGrows(g: Commits, g': Commits, p: seq<Oid>)
    requires Grows(g, g') && IsPath(g, p)
    ensures IsPath(g', p)
  {
    if |p| > 1 {
      PathGrows(g, g', p[1..]);
    }
  }

  lemma ReachesGrows(g: Commits, g': Commits, a: Oid, b: Oid)
    requires Grows(g, g') && Reaches(g, a, b)
    ensures Reaches(g', a, b)
  {
    var p :| IsPath(g, p) && p[0] == a && p[|p| - 1] == b;
    PathGrows(g, g', p);
  }

  /** All ids a graph mentions. */
  ghost function Nodes(g: Commits): set<Oid> {
    g.Keys + set x, y | x in g && y in g[x] :: y
  }

  ghost function Below(g: Commits, o: Oid): set<Oid> {
    set x | x in Nodes(g) && Reaches(g, o, x)
  }

  /** How much of the graph lies below `o`; strictly decreasing along parent edges when there is no cycle. */
  ghost function Rank(g: Commits, o: Oid): nat {
    |Below(g, o)|
  }

  lemma SubsetCardinality<T>(a: set<T>, b: set<T>)
    requires a <= b
    ensures |a| <= |b|
    ensures a != b ==> |a| < |b|
  {
    var rest := b - a;
    assert b == a + rest && a !! rest;
  }

  lemma RankDecreases(g: Commits, o: Oid, p: Oid)
    requires Acyclic(g) && o in g && p in g[o]
    ensures Rank(g, p) < Rank(g, o)
  {
    forall x | x in Below(g, p)
      ensures x in Below(g, o)
    {
      ReachesViaParent(g, o, p, x);
    }
    ReachesSelf(g, o);
    assert o in Below(g, o) && o !in Below(g, p);
    SubsetCardinality(Below(g, p), Below(g, o));
  }

  /** Ancestry that stays inside the old graph is all there is: growth adds nothing below a complete commit. */
  lemma CompleteReachStable(g: Commits, g': Commits, a: Oid, b: Oid)
    requires Grows(g, g') && Complete(g, a) && Reaches(g', a, b)
    ensures Reaches(g, a, b)
  {
    var s := set x | x in g && Reaches(g, a, x);
    ReachesSelf(g, a);
    forall x, y | x in s && x in g' && y in g'[x]
      ensures y in s
    {
      ReachesParent(g, a, x, y);
    }
    ClosedReach(g', s, a, b);
  }

  lemma CompleteGrows(g: Commits, g': Commits, a: Oid)
    requires Grows(g, g') && Complete(g, a)
    ensures Complete(g', a)
  {
    forall x | Reaches(g', a, x)
      ensures x in g'
    {
      CompleteReachStable(g, g', a, x);
    }
  }

  /** A parentless commit reachable from `tip`. */
  ghost predicate IsRoot(g: Commits, tip: Oid, r: Oid) {
    r in g && g[r] == [] && Reaches(g, tip, r)
  }

  /** Every commit whose ancestry is complete reaches a parentless commit. */
  lemma {:induction false} ReachesARoot(g: Commits, a: Oid)
    requires Acyclic(g) && Complete(g, a)
    ensures exists r :: IsRoot(g, a, r)
    decreases Rank(g, a)
  {
    ReachesSelf(g, a);
    if g[a] != [] {
      var p := g[a][0];
      RankDecreases(g, a, p);
      forall x | Reaches(g, p, x)
        ensures x in g
      {
        ReachesViaParent(g, a, p, x);
      }
      ReachesARoot(g, p);
      var r :| IsRoot(g, p, r);
      ReachesViaParent(g, a, p, r);
      assert IsRoot(g, a, r);
    } else {
      assert IsRoot(g, a, a);
    }
  }

  function Tips(tips: seq<Oid>): (s: set<Oid>)
    ensures forall t :: t in s <==> t in tips
  {
    set t | t in tips
  }

  lemma ReachedParents(g: Commits, tips: set<Oid>, o: Oid)
    requires ReachesAny(g, tips, o) && o in g
    ensures forall p :: p in g[o] ==> ReachesAny(g, tips, p)
  {
    var t :| t in tips && Reaches(g, t, o);
    forall p | p in g[o]
      ensures ReachesAny(g, tips, p)
    {
      ReachesParent(g, t, o, p);
    }
  }

  /** A commit with an unreadable ancestor condemns every tip that reaches it. */
  lemma TipIncomplete(g: Commits, tips: set<Oid>, o: Oid, bad: Oid)
    requires ReachesAny(g, tips, o) && Reaches(g, o, bad) && bad !in g
    ensures exists t :: t in tips && !Complete(g, t)
  {
    var t :| t in tips && Reaches(g, t, o);
    ReachesTrans(g, t, o, bad);
  }

  /** A reached, parent-closed set that holds the tips is their whole reach. */
  lemma SeenIsReach(g: Commits, tips: set<Oid>, seen: set<Oid>)
    requires tips <= seen && Closed(g, seen)
    requires AllReached(g, tips, seen)
    ensures forall x :: x in seen <==> ReachesAny(g, tips, x)
  {
    forall x | ReachesAny(g, tips, x)
      ensures x in seen
    {
      var t :| t in tips && Reaches(g, t, x);
      ClosedReach(g, seen, t, x);
    }
  }

  function ParentsOf(g: Commits, o: Oid): (ps: seq<Oid>)
    ensures forall p :: p in ps <==> o in g && p in g[o]
  {
    if o in g then g[o] else []
  }

  ghost predicate AllReached(g: Commits, tips: set<Oid>, s: set<Oid>) {
    forall x :: x in s ==> ReachesAny(g, tips, x)
  }

  /** What every worklist walk over the history of `tips` keeps: queue and seen set hold nothing unreached, and a tip
      or a seen commit's parent is seen or still queued. */
  ghost predicate FloodOk(g: Commits, tips: set<Oid>, queue: seq<Oid>, seen: set<Oid>) {
    && AllReached(g, tips, Tips(queue) + seen)
    && tips <= Tips(queue) + seen
    && (forall x, p :: x in seen && p in ParentsOf(g, x) ==> p in Tips(queue) + seen)
  }

  lemma FloodStart(g: Commits, tips: seq<Oid>)
    ensures FloodOk(g, Tips(tips), tips, {})
  {
    forall t | t in tips
      ensures ReachesAny(g, Tips(tips), t)
    {
      ReachesSelf(g, t);
    }
  }

  lemma TipsSnoc(queue: seq<Oid>)
    requires queue != []
    ensures Tips(queue) == Tips(queue[..|queue| - 1]) + {queue[|queue| - 1]}
  {
    assert queue == queue[..|queue| - 1] + [queue[|queue| - 1]];
  }

  lemma FloodSkip(g: Commits, tips: set<Oid>, queue: seq<Oid>, seen: set<Oid>)
    requires FloodOk(g, tips, queue, seen) && queue != [] && queue[|queue| - 1] in seen
    ensures FloodOk(g, tips, queue[..|queue| - 1], seen)
  {
    TipsSnoc(queue);
    assert Tips(queue[..|queue| - 1]) + seen == Tips(queue) + seen;
  }

  lemma FloodVisit(g: Commits, tips: set<Oid>, queue: seq<Oid>, seen: set<Oid>, o: Oid)
    requires FloodOk(g, tips, queue, seen) && queue != [] && queue[|queue| - 1] == o
    ensures FloodOk(g, tips, queue[..|queue| - 1] + ParentsOf(g, o), seen + {o})
    ensures ReachesAny(g, tips, o)
  {
    hide ReachesAny;
    TipsSnoc(queue);
    var queue', seen' := queue[..|queue| - 1] + ParentsOf(g, o), seen + {o};
    assert Tips(queue') == Tips(queue[..|queue| - 1]) + Tips(ParentsOf(g, o));
    assert Tips(queue') + seen' == Tips(queue) + seen + Tips(ParentsOf(g, o));
    assert o in Tips(queue) + seen;
    if o in g {
      ReachedParents(g, tips, o);
    }
  }

  /** An exhausted worklist has seen exactly the reach of the tips. */
  lemma FloodDone(g: Commits, tips: set<Oid>, seen: set<Oid>)
    requires FloodOk(g, tips, [], seen)
    ensures tips <= seen
    ensures forall x :: x in seen <==> ReachesAny(g, tips, x)
  {
    assert Tips([]) + seen == seen;
    forall x, y | x in seen && x in g && y in g[x]
      ensures y in seen
    {
      assert y in ParentsOf(g, x);
    }
    SeenIsReach(g, tips, seen);
  }

  lemma TipReached(g: Commits, tips: seq<Oid>, t: Oid)
    requires t in tips
    ensures ReachesAny(g, Tips(tips), t)
  {
    ReachesSelf(g, t);
  }

  lemma NoTips(g: Commits, x: Oid)
    ensures Tips([]) == {} && !ReachesAny(g, {}, x)
  {
  }
}
