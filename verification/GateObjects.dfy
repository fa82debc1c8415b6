/** The gate's walks over the commit graph. */
module GateObjects {
  import opened Graph
  import opened Objects

  datatype GateError = MissingObject(oid: Oid) | UndecodableObject(oid: Oid) | UnreadableEntity(oid: Oid)

  type GateResult<+T> = Result<T, GateError>

  /** The walk cannot get past `o`: it is absent, or a commit that does not parse. */
  predicate Broken(s: Store, o: Oid) {
    o !in s || s[o] == Corrupt(true)
  }

  function ReadError(s: Store, o: Oid): GateError {
    if o !in s then MissingObject(o) else UndecodableObject(o)
  }

  /** Nothing reachable from `o` is broken. */
  ghost predicate Walkable(s: Store, o: Oid) {
    forall x :: Reaches(CommitGraph(s), o, x) ==> x in s && s[x] != Corrupt(true)
  }

  /** Every parentless commit reachable from `tip`, each once. */
  method AllRoots(s: Store, tip: Oid) returns (r: GateResult<seq<Oid>>)
    ensures r.Ok? <==> Walkable(s, tip)
    ensures r.Ok? ==> forall x :: x in r.value <==> IsRoot(CommitGraph(s), tip, x)
    ensures r.Ok? ==> Distinct(r.value)
  {
    hide Reaches, ReachesAny, FloodOk, Walkable;
    ghost var g := CommitGraph(s);
    var queue := [tip];
    var seen: set<Oid> := {};
    var roots: seq<Oid> := [];
    FloodStart(g, [tip]);
    ghost var span := s.Keys;
    while queue != []
      invariant FloodOk(g, Tips([tip]), queue, seen) && seen <= span
      invariant forall x :: x in seen ==> !Broken(s, x)
      invariant forall x :: x in roots <==> x in seen && x in g && g[x] == []
      invariant Distinct(roots)
      decreases span - seen, |queue|
    {
      var oid := queue[|queue| - 1];
      if oid in seen {
        FloodSkip(g, Tips([tip]), queue, seen);
        queue := queue[..|queue| - 1];
        continue;
      }
      FloodVisit(g, Tips([tip]), queue, seen, oid);
      if Broken(s, oid) {
        WalkStops(s, tip, oid);
        return Err(ReadError(s, oid));
      }
      assert oid in span - seen;
      seen := seen + {oid};
      var rest := queue[..|queue| - 1];
      if s[oid].Commit? && s[oid].parents == [] {
        roots := roots + [oid];
        assert queue[..|queue| - 1] + ParentsOf(g, oid) == rest;
        queue := rest;
      } else if s[oid].Commit? {
        queue := rest + s[oid].parents;
      } else {
        assert queue[..|queue| - 1] + ParentsOf(g, oid) == rest;
        queue := rest;
      }
    }
    FloodDone(g, Tips([tip]), seen);
    SingleTip(g, tip);
    WalkGoesThrough(s, tip, seen);
    return Ok(roots);
  }

  lemma SingleTip(g: Commits, tip: Oid)
    ensures forall x :: ReachesAny(g, Tips([tip]), x) <==> Reaches(g, tip, x)
  {
    assert Tips([tip]) == {tip};
  }

  lemma WalkStops(s: Store, tip: Oid, o: Oid)
    requires ReachesAny(CommitGraph(s), Tips([tip]), o) && Broken(s, o)
    ensures !Walkable(s, tip)
  {
    SingleTip(CommitGraph(s), tip);
  }

  lemma WalkGoesThrough(s: Store, tip: Oid, seen: set<Oid>)
    requires forall x :: x in seen <==> ReachesAny(CommitGraph(s), Tips([tip]), x)
    requires forall x :: x in seen ==> !Broken(s, x)
    ensures Walkable(s, tip)
  {
    SingleTip(CommitGraph(s), tip);
  }

  /** Whether `ancestor` is reachable from `descendant`; an unreadable object only ends its path. */
  method DescendsFrom(s: Store, descendant: Oid, ancestor: Oid) returns (r: bool)
    ensures r <==> Reaches(CommitGraph(s), descendant, ancestor)
  {
    hide Reaches, ReachesAny, FloodOk, Nodes;
    ghost var g := CommitGraph(s);
    var queue := [descendant];
    var seen: set<Oid> := {};
    FloodStart(g, [descendant]);
    SingleTip(g, descendant);
    ghost var span := Nodes(g) + {descendant};
    while queue != []
      invariant FloodOk(g, Tips([descendant]), queue, seen) && seen <= span && Tips(queue) <= span
      invariant ancestor !in seen
      decreases span - seen, |queue|
    {
      var oid := queue[|queue| - 1];
      if oid == ancestor {
        FloodVisit(g, Tips([descendant]), queue, seen, oid);
        return true;
      }
      TipsSnoc(queue);
      if oid in seen {
        FloodSkip(g, Tips([descendant]), queue, seen);
        queue := queue[..|queue| - 1];
        continue;
      }
      FloodVisit(g, Tips([descendant]), queue, seen, oid);
      ParentsAreNodes(g, oid);
      assert oid in span - seen;
      seen := seen + {oid};
      var rest := queue[..|queue| - 1];
      if oid in s && s[oid].Commit? {
        queue := rest + s[oid].parents;
      } else {
        assert rest + ParentsOf(g, oid) == rest;
        queue := rest;
      }
    }
    FloodDone(g, Tips([descendant]), seen);
    return false;
  }

  lemma ParentsAreNodes(g: Commits, o: Oid)
    ensures Tips(ParentsOf(g, o)) <= Nodes(g)
  {
  }

  // -- what growth of the object store leaves alone ---------------------------------

  /** What a walk got through it gets through again, and meets nothing new. */
  lemma WalkableReachStable(s: Store, s': Store, a: Oid, b: Oid)
    requires StoreGrows(s, s') && Walkable(s, a) && Reaches(CommitGraph(s'), a, b)
    ensures Reaches(CommitGraph(s), a, b)
  {
    var g, g' := CommitGraph(s), CommitGraph(s');
    var reached := set x | x in s && Reaches(g, a, x);
    ReachesSelf(g, a);
    forall x, y | x in reached && x in g' && y in g'[x]
      ensures y in reached
    {
      assert s'[x] == s[x];
      ReachesParent(g, a, x, y);
    }
    ClosedReach(g', reached, a, b);
  }

  lemma WalkableGrows(s: Store, s': Store, a: Oid)
    requires StoreGrows(s, s') && Walkable(s, a)
    ensures Walkable(s', a)
    ensures forall r :: IsRoot(CommitGraph(s'), a, r) <==> IsRoot(CommitGraph(s), a, r)
  {
    GraphGrows(s, s');
    forall x | Reaches(CommitGraph(s'), a, x)
      ensures !Broken(s', x)
    {
      WalkableReachStable(s, s', a, x);
    }
    forall r
      ensures IsRoot(CommitGraph(s'), a, r) <==> IsRoot(CommitGraph(s), a, r)
    {
      if IsRoot(CommitGraph(s'), a, r) {
        WalkableReachStable(s, s', a, r);
      }
      if IsRoot(CommitGraph(s), a, r) {
        ReachesGrows(CommitGraph(s), CommitGraph(s'), a, r);
      }
    }
  }
}
