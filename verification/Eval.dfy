module Eval {
  import opened Graph
  import opened Objects
  import opened CommitCache
  import opened PaintDown
  import opened Text
  import opened Query
  import opened Denotation
  import opened Incremental
  import Pattern

  datatype EvalError = Missing(oid: Oid) | Decode(oid: Oid) | UnreadableStatus(name: string)

  type EvalResult<+T> = Result<T, EvalError>

  /** An error says what is wrong: an object that is missing or no commit, or a commit that records no status. */
  ghost predicate Real(s: Store, e: EvalError) {
    match e
    case Missing(oid) => oid !in s
    case Decode(oid) => oid in s && !s[oid].Commit?
    case UnreadableStatus(_) => exists tip :: tip in s && s[tip].Commit? && StatusOf(s, tip).None?
  }

  class Evaluator {
    const refs: Refs
    const objects: Store
    ghost const graph: Commits := CommitGraph(objects)

    var info: Cache
    var status: map<Oid, Status>

    ghost predicate Valid()
      reads this
    {
      && Acyclic(graph) && |Nodes(graph)| <= U64_MAX
      && CacheOk(graph, info)
      && StatusCacheOk()
    }

    ghost predicate StatusCacheOk()
      reads this
    {
      forall tip :: tip in status ==> StatusOf(objects, tip) == Some(status[tip])
    }

    constructor (refs: Refs, objects: Store)
      requires Acyclic(CommitGraph(objects)) && |Nodes(CommitGraph(objects))| <= U64_MAX
      ensures Valid() && this.refs == refs && this.objects == objects
    {
      this.refs, this.objects, info, status := refs, objects, map[], map[];
    }

    function ReadParents(oid: Oid): (r: EvalResult<seq<Oid>>)
      ensures r.Ok? <==> oid in graph
      ensures r.Ok? ==> r.value == graph[oid]
      ensures r.Err? ==> !r.error.UnreadableStatus? && r.error.oid == oid && Real(objects, r.error)
    {
      if oid !in objects then Err(Missing(oid))
      else if !objects[oid].Commit? then Err(Decode(oid))
      else Ok(objects[oid].parents)
    }

    method CommitInfoOf(oid: Oid) returns (r: EvalResult<CommitInfo>)
      requires Valid()
      modifies this`info
      ensures Valid() && Extends(old(info), info)
      ensures r.Ok? <==> Complete(graph, oid)
      ensures r.Ok? ==> oid in info && r.value == info[oid]
      ensures r.Err? ==> !r.error.UnreadableStatus? && Reaches(graph, oid, r.error.oid) && r.error.oid !in graph
      ensures r.Err? ==> Real(objects, r.error)
    {
      hide Acyclic, CacheOk, Reaches, Nodes, Rank, RanksBelow, Covers;
      if oid in info {
        CachedIsComplete(graph, info, oid);
        return Ok(info[oid]);
      }
      var pending: map<Oid, seq<Oid>> := map[];
      var stack := [oid];
      ghost var at: map<Oid, nat> := map[];
      ReachesSelf(graph, oid);
      while stack != []
        invariant Valid() && Extends(old(info), info)
        invariant WalkOk(graph, info, oid, pending, stack, at)
        decreases graph.Keys - info.Keys, graph.Keys - pending.Keys, |stack|
      {
        var top := stack[|stack| - 1];
        if top in info {
          PopKeepsWalk(graph, info, oid, pending, stack, at);
          stack := stack[..|stack| - 1];
          continue;
        }
        var parents: seq<Oid>;
        if top in pending {
          ExpandedOnce(graph, info, stack, top, at[top]);
          parents := pending[top];
        } else {
          var read := ReadParents(top);
          if read.Err? {
            assert top in stack;
            return Err(read.error);
          }
          parents := read.value;
          ExpandKeepsWalk(graph, info, oid, pending, stack, at, top);
          pending, at := pending[top := parents], at[top := |stack| - 1];
        }
        var unresolved := Unresolved(info, parents);
        if unresolved == [] {
          var line := CommitInfo(parents, SaturatingSucc(MaxGeneration(info, parents)));
          assert stack + unresolved == stack;
          ResolveKeepsWalk(graph, info, oid, pending, stack, at, top, line);
          info := info[top := line];
          stack := stack[..|stack| - 1];
        } else {
          stack := stack + unresolved;
        }
      }
      CachedIsComplete(graph, info, oid);
      return Ok(info[oid]);
    }

    /** Everything reachable from `tips`, by a full walk. */
    method Reachable(tips: seq<Oid>) returns (r: EvalResult<set<Oid>>)
      requires Valid()
      modifies this`info
      ensures Valid() && Extends(old(info), info)
      ensures r.Ok? <==> forall t :: t in tips ==> Complete(graph, t)
      ensures r.Ok? ==> forall x :: x in r.value <==> ReachesAny(graph, Tips(tips), x)
      ensures r.Err? ==> Real(objects, r.error)
    {
      hide Acyclic, CacheOk, Reaches, ReachesAny, FloodOk, Complete, Nodes;
      var seen: set<Oid> := {};
      var queue := tips;
      FloodStart(graph, tips);
      while queue != []
        invariant Valid() && Extends(old(info), info)
        invariant FloodOk(graph, Tips(tips), queue, seen)
        invariant seen <= info.Keys && seen <= graph.Keys
        decreases graph.Keys - seen, |queue|
      {
        var oid := queue[|queue| - 1];
        if oid in seen {
          FloodSkip(graph, Tips(tips), queue, seen);
          queue := queue[..|queue| - 1];
          continue;
        }
        FloodVisit(graph, Tips(tips), queue, seen, oid);
        var line := CommitInfoOf(oid);
        if line.Err? {
          TipIncomplete(graph, Tips(tips), oid, line.error.oid);
          return Err(line.error);
        }
        CachedLine(graph, info, oid);
        seen := seen + {oid};
        queue := queue[..|queue| - 1] + line.value.parents;
      }
      FloodDone(graph, Tips(tips), seen);
      SeenComplete(graph, info, Tips(tips));
      return Ok(seen);
    }

    /** Whether any tip reaches `target`, never descending below the target's generation. */
    method ReachesTarget(tips: seq<Oid>, target: Oid) returns (r: EvalResult<bool>)
      requires Valid()
      modifies this`info
      ensures Valid() && Extends(old(info), info)
      ensures r.Ok? <==>
              target in tips || tips == [] || (Complete(graph, target) && forall t :: t in tips ==> Complete(graph, t))
      ensures r.Ok? ==> (r.value <==> ReachesAny(graph, Tips(tips), target))
      ensures r.Err? ==> Real(objects, r.error)
    {
      hide Acyclic, CacheOk, Reaches, ReachesAny, Complete, Nodes, SearchOk, Covered, FrontOk, IsTop;
      if target in tips {
        TipReached(graph, tips, target);
        return Ok(true);
      }
      if tips == [] {
        NoTips(graph, target);
        return Ok(false);
      }
      var goal := CommitInfoOf(target);
      if goal.Err? {
        return Err(goal.error);
      }
      var floor := goal.value.generation;
      var heap: Heap := multiset{};
      var seen: set<Oid> := {};
      ghost var queued: set<Oid>, done: set<Oid> := {}, {};
      SearchStart(graph, info, floor, Tips(tips));
      r, heap, seen, queued := SeedSearch(tips, floor);
      if r.Err? {
        return;
      }
      SeedDone(graph, info, floor, Tips(tips), queued);
      while heap != multiset{}
        invariant Valid() && Extends(old(info), info) && target in info && info[target].generation == floor
        invariant SearchOk(graph, info, floor, Tips(tips), heap, seen, queued, done)
        invariant FrontOk(graph, info, floor, Tips(tips), queued, done)
        invariant target !in done && done <= graph.Keys
        decreases graph.Keys - done
      {
        var top: (nat, Oid);
        ghost var heap0 := heap;
        top, heap := PopMax(heap);
        var oid := top.1;
        SearchPop(graph, info, floor, Tips(tips), heap0, seen, queued, done, top);
        if oid == target {
          return Ok(true);
        }
        ghost var info0, queued0, done0 := info, queued, done;
        queued, done := queued - {oid}, done + {oid};
        r, heap, seen, queued := ExpandSearch(oid, floor, heap, seen, Tips(tips), queued, done);
        FrontStep(graph, info0, info, floor, Tips(tips), queued0, queued, done0, oid);
      }
      SearchOver(graph, info, floor, Tips(tips), heap, seen, queued, done, target);
      return Ok(false);
    }

    /** See to the parents of an expanded commit: queue those not yet seen that are not below the floor. */
    method ExpandSearch(
      oid: Oid, floor: nat, heap0: Heap, seen0: set<Oid>,
      ghost tips: set<Oid>, ghost queued0: set<Oid>, ghost done: set<Oid>)
      returns (r: EvalResult<bool>, heap: Heap, seen: set<Oid>, ghost queued: set<Oid>)
      requires Valid() && oid in info && ReachesAny(graph, tips, oid)
      requires SearchOk(graph, info, floor, tips, heap0, seen0, queued0, done)
      modifies this`info
      ensures Valid() && Extends(old(info), info) && r.Ok?
      ensures SearchOk(graph, info, floor, tips, heap, seen, queued, done) && queued0 <= queued
      ensures Covered(info, floor, queued + done, Tips(ParentsOf(graph, oid)))
      ensures r.Err? ==> Real(objects, r.error)
    {
      hide Acyclic, CacheOk, Reaches, ReachesAny, Complete, Nodes, SearchOk, Covered, AllExpanded;
      heap, seen, queued := heap0, seen0, queued0;
      CachedIsComplete(graph, info, oid);
      ghost var before := info;
      var line := CommitInfoOf(oid);
      SearchGrows(graph, before, info, floor, tips, heap, seen, queued, done);
      CachedLine(graph, info, oid);
      ReachedParents(graph, tips, oid);
      var parents := line.value.parents;
      CoveredEmpty(info, floor, queued + done);
      assert parents[..0] == [];
      for i := 0 to |parents|
        invariant Valid() && Extends(old(info), info)
        invariant SearchOk(graph, info, floor, tips, heap, seen, queued, done) && queued0 <= queued
        invariant Covered(info, floor, queued + done, Tips(parents[..i]))
        invariant forall p :: p in parents ==> p in info
      {
        var parent := parents[i];
        ghost var info0, queued1 := info, queued;
        if parent !in seen {
          assert parent in info;
          CachedIsComplete(graph, info, parent);
          var above := CommitInfoOf(parent);
          SearchGrows(graph, info0, info, floor, tips, heap, seen, queued, done);
          SearchVisit(graph, info, floor, tips, heap, seen, queued, done, parent);
          seen := seen + {parent};
          if above.value.generation >= floor {
            heap, queued := heap + multiset{(above.value.generation, parent)}, queued + {parent};
          }
        }
        assert parents[..i + 1] == parents[..i] + [parent];
        assert Tips(parents[..i + 1]) == Tips(parents[..i]) + {parent};
        assert queued1 + done <= queued + done;
        SeedCovers(graph, info0, info, floor, tips, heap, seen, queued1 + done, queued, done,
          Tips(parents[..i]), parent);
      }
      assert parents[..|parents|] == parents;
      return Ok(true), heap, seen, queued;
    }

    method SeedSearch(tips: seq<Oid>, floor: nat)
      returns (r: EvalResult<bool>, heap: Heap, seen: set<Oid>, ghost queued: set<Oid>)
      requires Valid()
      modifies this`info
      ensures Valid() && Extends(old(info), info)
      ensures r.Ok? <==> forall t :: t in tips ==> Complete(graph, t)
      ensures r.Ok? ==> SearchOk(graph, info, floor, Tips(tips), heap, seen, queued, {})
      ensures r.Ok? ==> Covered(info, floor, queued, Tips(tips))
      ensures r.Err? ==> Real(objects, r.error)
    {
      hide Acyclic, CacheOk, Reaches, ReachesAny, Complete, Nodes, SearchOk, Covered, AllExpanded;
      heap, seen, queued := multiset{}, {}, {};
      SearchStart(graph, info, floor, Tips(tips));
      CoveredEmpty(info, floor, queued);
      FloodStart(graph, tips);
      assert tips[..0] == [];
      for i := 0 to |tips|
        invariant Valid() && Extends(old(info), info)
        invariant SearchOk(graph, info, floor, Tips(tips), heap, seen, queued, {})
        invariant Covered(info, floor, queued, Tips(tips[..i]))
        invariant forall t :: t in tips[..i] ==> Complete(graph, t)
      {
        var tip := tips[i];
        ghost var info0, queued0 := info, queued;
        var line := CommitInfoOf(tip);
        if line.Err? {
          return Err(line.error), heap, seen, queued;
        }
        SearchGrows(graph, info0, info, floor, Tips(tips), heap, seen, queued, {});
        assert tips[..i + 1] == tips[..i] + [tip];
        if line.value.generation >= floor && tip !in seen {
          SearchVisit(graph, info, floor, Tips(tips), heap, seen, queued, {}, tip);
          seen, heap, queued := seen + {tip}, heap + multiset{(line.value.generation, tip)}, queued + {tip};
        }
        SeedCovers(graph, info0, info, floor, Tips(tips), heap, seen, queued0, queued, {}, Tips(tips[..i]), tip);
        assert queued + {} == queued;
        assert Tips(tips[..i + 1]) == Tips(tips[..i]) + {tip};
      }
      assert tips[..|tips|] == tips;
      return Ok(true), heap, seen, queued;
    }

    /** Paint `oid` and queue it unless it is queued already, keeping count of the queued NEW-only commits. */
    method Push(
      oid: Oid, flag: Paint, flags0: Flags, heap0: Heap, queued0: set<Oid>, newOnly0: nat,
      ghost newTips: set<Oid>, ghost oldTips: set<Oid>, ghost ahead: seq<Oid>, ghost done: set<Oid>,
      ghost expanded: set<Oid>)
      returns (r: EvalResult<()>, flags: Flags, heap: Heap, queued: set<Oid>, newOnly: nat)
      requires Valid() && flag != NEITHER && PaintSound(graph, newTips, oldTips, oid, flag)
      requires PaintOk(graph, info, newTips, oldTips, flags0, heap0, queued0, newOnly0, ahead, done, expanded)
      requires done != {} ==> LowerThanAll(info, done, oid)
      modifies this`info
      ensures Valid() && Extends(old(info), info)
      ensures Complete(graph, oid) ==> r.Ok?
      ensures r.Ok? ==> Complete(graph, oid) && oid in info
      ensures r.Ok? ==> oid !in done && flags == flags0[oid := Mix(PaintOf(flags0, oid), flag)]
      ensures r.Ok? ==> PaintOk(graph, info, newTips, oldTips, flags, heap, queued, newOnly, ahead, done, expanded)
      ensures r.Err? ==> Real(objects, r.error)
    {
      hide Acyclic, CacheOk, Reaches, ReachesAny, Complete, Nodes, PaintSound, FlagsOk, PassedOn, AheadIs, NewOnly,
        Ordered, HeapHolds, EntryOk;
      flags, heap, queued, newOnly := flags0, heap0, queued0, newOnly0;
      var before, after := PaintOf(flags0, oid), Mix(PaintOf(flags0, oid), flag);
      if oid !in queued {
        var line := CommitInfoOf(oid);
        if line.Err? {
          return Err(line.error), flags, heap, queued, newOnly;
        }
        PaintGrows(graph, old(info), info, newTips, oldTips, flags0, heap0, queued0, newOnly0, ahead, done, expanded);
        LowerGrows(old(info), info, done, oid);
        PushKeeps(graph, info, newTips, oldTips, flags0, heap0, queued0, newOnly0, ahead, done, expanded, oid, flag);
        flags := flags[oid := after];
        queued := queued + {oid};
        heap := heap + multiset{(line.value.generation, oid)};
        if after == NEW {
          newOnly := newOnly + 1;
        }
      } else {
        QueuedCached(info, heap0, queued0, done, oid);
        CachedIsComplete(graph, info, oid);
        PushKeeps(graph, info, newTips, oldTips, flags0, heap0, queued0, newOnly0, ahead, done, expanded, oid, flag);
        flags := flags[oid := after];
        assert queued + {oid} == queued;
        if before == NEW && after != NEW {
          newOnly := SaturatingPred(newOnly);
        }
      }
      return Ok(()), flags, heap, queued, newOnly;
    }

    /** Push every one of `oids` with the same paint. */
    method PushAll(
      oids: seq<Oid>, flag: Paint, flags0: Flags, heap0: Heap, queued0: set<Oid>, newOnly0: nat,
      ghost newTips: set<Oid>, ghost oldTips: set<Oid>, ghost ahead: seq<Oid>, ghost done: set<Oid>,
      ghost expanded: set<Oid>)
      returns (r: EvalResult<()>, flags: Flags, heap: Heap, queued: set<Oid>, newOnly: nat)
      requires Valid() && flag != NEITHER && forall o :: o in oids ==> PaintSound(graph, newTips, oldTips, o, flag)
      requires PaintOk(graph, info, newTips, oldTips, flags0, heap0, queued0, newOnly0, ahead, done, expanded)
      requires done != {} ==> forall o :: o in oids ==> LowerThanAll(info, done, o)
      modifies this`info
      ensures Valid() && Extends(old(info), info)
      ensures r.Ok? <==> forall o :: o in oids ==> Complete(graph, o)
      ensures r.Ok? ==> TipsPainted(flags, Tips(oids), flag) && Darker(flags0, flags, done)
      ensures r.Ok? ==> PaintOk(graph, info, newTips, oldTips, flags, heap, queued, newOnly, ahead, done, expanded)
      ensures r.Err? ==> Real(objects, r.error)
    {
      hide Acyclic, CacheOk, Reaches, ReachesAny, Complete, Nodes, PaintSound, PaintOk, TipsPainted, LowerThanAll,
        Darker, EntryOk;
      flags, heap, queued, newOnly := flags0, heap0, queued0, newOnly0;
      NothingPainted(flags, done, flag);
      assert oids[..0] == [];
      for i := 0 to |oids|
        invariant Valid() && Extends(old(info), info)
        invariant PaintOk(graph, info, newTips, oldTips, flags, heap, queued, newOnly, ahead, done, expanded)
        invariant done != {} ==> forall o :: o in oids ==> LowerThanAll(info, done, o)
        invariant TipsPainted(flags, Tips(oids[..i]), flag) && Darker(flags0, flags, done)
        invariant forall o :: o in oids[..i] ==> Complete(graph, o)
      {
        var oid := oids[i];
        ghost var info0, flags1 := info, flags;
        r, flags, heap, queued, newOnly :=
          Push(oid, flag, flags, heap, queued, newOnly, newTips, oldTips, ahead, done, expanded);
        if r.Err? {
          return;
        }
        PaintedMore(flags0, flags1, done, Tips(oids[..i]), flag, oid);
        AllLowerGrows(info0, info, done, oids);
        assert oids[..i + 1] == oids[..i] + [oid];
        assert Tips(oids[..i + 1]) == Tips(oids[..i]) + {oid};
      }
      assert oids[..|oids|] == oids;
      r := Ok(());
    }

    /** What `newTips` reach and `oldTips` do not: a paint-down walk in descending generation order that stops as soon
        as no NEW-only commit waits. */
    method AheadOf(newTips: seq<Oid>, oldTips: seq<Oid>) returns (r: EvalResult<seq<Oid>>)
      requires Valid()
      modifies this`info
      ensures Valid() && Extends(old(info), info)
      ensures r.Ok? <==> newTips == [] || forall t :: t in oldTips || t in newTips ==> Complete(graph, t)
      ensures r.Ok? ==> Distinct(r.value)
      ensures r.Ok? ==>
                forall x :: x in r.value <==>
                  ReachesAny(graph, Tips(newTips), x) && !ReachesAny(graph, Tips(oldTips), x)
      ensures r.Err? ==> Real(objects, r.error)
    {
      hide Acyclic, CacheOk, Reaches, ReachesAny, Complete, Nodes, PaintSound, PaintOk, TipsPainted, LowerThanAll,
        Darker, EntryOk, IsTop, PassedOn, NewOnly;
      if newTips == [] {
        forall x
          ensures !ReachesAny(graph, Tips(newTips), x)
        {
          NoTips(graph, x);
        }
        return Ok([]);
      }
      ghost var fresh0, stale0 := Tips(newTips), Tips(oldTips);
      var flags: Flags, heap: Heap, queued: set<Oid>, newOnly: nat := map[], multiset{}, {}, 0;
      var ahead: seq<Oid> := [];
      ghost var done: set<Oid> := {};
      PaintStart(graph, info, fresh0, stale0);
      TipsSound(graph, newTips, oldTips);
      var pushed: EvalResult<()>;
      pushed, flags, heap, queued, newOnly := PushAll(oldTips, OLD, flags, heap, queued, newOnly, fresh0,
        stale0, ahead, done, done);
      if pushed.Err? {
        return Err(pushed.error);
      }
      ghost var flags1 := flags;
      pushed, flags, heap, queued, newOnly := PushAll(newTips, NEW, flags, heap, queued, newOnly, fresh0,
        stale0, ahead, done, done);
      if pushed.Err? {
        return Err(pushed.error);
      }
      StillPainted(flags1, flags, done, stale0, OLD);
      while heap != multiset{}
        invariant Valid() && Extends(old(info), info)
        invariant PaintOk(graph, info, fresh0, stale0, flags, heap, queued, newOnly, ahead, done, done)
        invariant TipsPainted(flags, fresh0, NEW) && TipsPainted(flags, stale0, OLD)
        invariant done <= graph.Keys
        decreases graph.Keys - done
      {
        var top: (nat, Oid);
        ghost var heap0, done0, info0, flags0 := heap, done, info, flags;
        top, heap := PopMax(heap);
        var oid := top.1;
        PopKeeps(graph, info, fresh0, stale0, flags, heap0, queued, newOnly, ahead, done, top);
        var flag := flags[oid];
        queued := queued - {oid};
        if flag == NEW {
          newOnly := SaturatingPred(newOnly);
          ahead := ahead + [oid];
        }
        done := done + {oid};
        CachedIsComplete(graph, info, oid);
        var line := CommitInfoOf(oid);
        ParentsAreLower(graph, info0, info, fresh0, stale0, flags, heap, queued, newOnly, ahead, done0, oid);
        ParentsComplete(graph, info, oid);
        pushed, flags, heap, queued, newOnly :=
          PushAll(line.value.parents, flag, flags, heap, queued, newOnly, fresh0, stale0, ahead, done, done0);
        ExpandKeeps(graph, info, fresh0, stale0, flags0, flags, heap, queued, newOnly, ahead, done0, oid);
        StillPainted(flags0, flags, done, stale0, OLD);
        StillPainted(flags0, flags, done, fresh0, NEW);
        if newOnly == 0 {
          break;
        }
      }
      AheadDistinct(graph, info, fresh0, stale0, flags, heap, queued, newOnly, ahead, done);
      forall x
        ensures x in ahead <==> ReachesAny(graph, fresh0, x) && !ReachesAny(graph, stale0, x)
      {
        NothingNewWaits(graph, info, fresh0, stale0, flags, heap, queued, newOnly, ahead, done, x);
      }
      return Ok(ahead);
    }

    // -- state views -------------------------------------------------------------

    /** All refs under `prefix` as seen from one side of the transition. */
    method IterRefs(prefix: string, t: Option<Transition>, side: Side) returns (out: seq<(string, Oid)>)
      ensures forall n, o :: (n, o) in out <==> n in View(refs, t, side) && prefix <= n && View(refs, t, side)[n] == o
    {
      out := [];
      var names := refs.Keys;
      while names != {}
        invariant names <= refs.Keys
        invariant forall n, o :: (n, o) in out <==> n in refs && n !in names && prefix <= n && refs[n] == o
        decreases names
      {
        var n :| n in names;
        names := names - {n};
        if prefix <= n {
          out := out + [(n, refs[n])];
        }
      }
      if t.Some? && prefix <= t.value.name {
        out := Without(out, t.value.name);
        var tip := TipAt(t.value, side);
        if tip.Some? {
          out := out + [(t.value.name, tip.value)];
        }
      }
    }

    method ResolveTerms(terms: seq<RevTerm>, t: Option<Transition>, side: Side) returns (tips: seq<Oid>)
      ensures TipsOfTerms(View(refs, t, side), terms, tips)
    {
      hide View, GlobSelects, ResolvedRef;
      tips := [];
      ghost var view := View(refs, t, side);
      for i := 0 to |terms|
        invariant TipsOfTerms(view, terms[..i], tips)
      {
        var more := TipsOfTerm(terms[i], t, side);
        assert terms[..i + 1] == terms[..i] + [terms[i]];
        MoreTips(view, terms[..i], terms[i], tips, more);
        tips := tips + more;
      }
      assert terms[..|terms|] == terms;
    }

    method TipsOfTerm(term: RevTerm, t: Option<Transition>, side: Side) returns (tips: seq<Oid>)
      ensures forall x :: x in tips <==> x in TermTips(View(refs, t, side), term)
    {
      hide View;
      ghost var view := View(refs, t, side);
      match term
      case Raw(oid) => tips := [oid];
      case Name(name) =>
        tips := [];
        var candidates := DwimCandidates(name);
        for i := 0 to |candidates|
          invariant tips == []
          invariant FirstNamed(view, candidates) == FirstNamed(view, candidates[i..])
        {
          var tip := Resolve(candidates[i], t, side);
          if tip.Some? {
            tips := [tip.value];
            break;
          }
        }
      case Glob(pattern) =>
        tips := [];
        var all := IterRefs("refs/", t, side);
        for i := 0 to |all|
          invariant forall x :: x in tips <==> exists k :: 0 <= k < i && GlobSelects(pattern, all[k].0) && all[k].1 == x
        {
          var (name, oid) := all[i];
          var matched := Pattern.GlobMatch(pattern, name);
          assert (name, oid) in all;
          if !("refs/meta/" <= name) && matched {
            tips := tips + [oid];
          }
        }
        GlobTips(view, pattern, all, tips);
    }

    method Resolve(name: string, t: Option<Transition>, side: Side) returns (r: Option<Oid>)
      ensures r.Some? <==> name in View(refs, t, side)
      ensures r.Some? ==> r.value == View(refs, t, side)[name]
    {
      if t.Some? && t.value.name == name {
        return TipAt(t.value, side);
      }
      return if name in refs then Some(refs[name]) else None;
    }

    // -- atoms -------------------------------------------------------------------

    method CommitTree(oid: Oid) returns (r: EvalResult<Oid>)
      ensures r.Ok? <==> oid in objects && objects[oid].Commit?
      ensures r.Ok? ==> r.value == objects[oid].tree
      ensures r.Err? ==> Real(objects, r.error)
    {
      if oid !in objects {
        return Err(Missing(oid));
      }
      match objects[oid]
      case Commit(tree, _, _) => return Ok(tree);
      case _ => return Err(Decode(oid));
    }

    /** The recorded status behind a results tip, cached. */
    method ResultStatus(name: string, tip: Oid) returns (r: EvalResult<Status>)
      requires Valid()
      modifies this`status
      ensures Valid()
      ensures r.Ok? <==> StatusOf(objects, tip).Some?
      ensures r.Ok? ==> Some(r.value) == StatusOf(objects, tip)
      ensures r.Err? ==> Real(objects, r.error)
    {
      if tip in status {
        return Ok(status[tip]);
      }
      var tree := CommitTree(tip);
      if tree.Err? {
        return Err(tree.error);
      }
      if tree.value !in objects || !objects[tree.value].Tree? || objects[tree.value].typed.result.None? {
        return Err(UnreadableStatus(name));
      }
      status := status[tip := objects[tree.value].typed.result.value.status];
      return Ok(status[tip]);
    }

    /** The short oids under the effect's results namespace whose recorded status passes the filter. */
    method ResultsIndex(effect: string, filter: StatusFilter, t: Option<Transition>, side: Side)
      returns (r: EvalResult<seq<string>>)
      requires Valid()
      modifies this`status
      ensures Valid()
      ensures r.Ok? <==> StatusesReadable(objects, View(refs, t, side), effect, filter)
      ensures r.Ok? ==> IndexOf(objects, View(refs, t, side), effect, filter, r.value)
      ensures r.Err? ==> Real(objects, r.error)
    {
      hide View, StatusOf, Acyclic, CacheOk, Nodes;
      ghost var view := View(refs, t, side);
      var prefix := ResultsPrefix(effect);
      var shorts: seq<string> := [];
      var all := IterRefs(prefix, t, side);
      for i := 0 to |all|
        invariant Valid()
        invariant forall k :: 0 <= k < i && ShortOf(effect, all[k].0) && !filter.Any? ==>
                    StatusOf(objects, all[k].1).Some?
        invariant IndexUpTo(objects, effect, filter, all[..i], shorts)
      {
        var (name, tip) := all[i];
        assert (name, tip) in all;
        assert all[..i + 1] == all[..i] + [all[i]];
        var short := name[|prefix|..];
        if '/' in short || short == "" {
          IndexSkip(objects, effect, filter, all[..i], shorts, all[i]);
          continue;
        }
        var counts := filter.Any?;
        if !counts {
          var recorded := ResultStatus(name, tip);
          if recorded.Err? {
            return Err(recorded.error);
          }
          counts := Admits(filter, recorded.value);
        }
        if counts {
          IndexAdd(objects, effect, filter, all[..i], shorts, all[i]);
          shorts := shorts + [Lower(short)];
        } else {
          IndexSkip(objects, effect, filter, all[..i], shorts, all[i]);
        }
      }
      assert all[..|all|] == all;
      IndexDone(objects, view, effect, filter, all, shorts);
      return Ok(shorts);
    }

    /** The tips of the author-written meta-refs the glob selects. */
    method MetaTips(glob: string, t: Option<Transition>, side: Side) returns (tips: seq<Oid>)
      ensures forall x :: x in tips <==> IsMetaTip(View(refs, t, side), glob, x)
    {
      hide View;
      tips := [];
      var all := IterRefs("refs/meta/", t, side);
      for i := 0 to |all|
        invariant forall x :: x in tips <==> exists k :: 0 <= k < i && MetaSelects(glob, all[k].0) && all[k].1 == x
      {
        var (name, oid) := all[i];
        assert (name, oid) in all;
        var matched := Pattern.GlobMatch(glob, name);
        if matched {
          tips := tips + [oid];
        }
      }
      SelectedMetaTips(View(refs, t, side), glob, all, tips);
    }

    // -- full evaluation ---------------------------------------------------------

    /** Everything reachable from any ref. */
    method Universe(t: Option<Transition>, side: Side) returns (r: EvalResult<set<Oid>>)
      requires Valid()
      modifies this`info
      ensures Valid() && Extends(old(info), info)
      ensures r.Ok? <==> RefsComplete(objects, View(refs, t, side))
      ensures r.Ok? ==> forall c :: c in r.value <==> InUniverse(objects, View(refs, t, side), c)
      ensures r.Err? ==> Real(objects, r.error)
    {
      hide View, Complete, ReachesAny, Acyclic, CacheOk, Nodes;
      var all := IterRefs("refs/", t, side);
      var tips: seq<Oid> := [];
      for i := 0 to |all|
        invariant forall x :: x in tips <==> exists k :: 0 <= k < i && all[k].1 == x
      {
        tips := tips + [all[i].1];
      }
      AllRefTips(View(refs, t, side), all, tips);
      assert Tips(tips) == RefTips(View(refs, t, side));
      r := Reachable(tips);
    }

    /** The full set `q` denotes in one state. */
    method EvalSide(q: Query, t: Option<Transition>, side: Side) returns (r: EvalResult<set<Oid>>)
      requires Valid()
      modifies this`info, this`status
      ensures Valid() && Extends(old(info), info)
      ensures r.Ok? <==> Evaluable(objects, View(refs, t, side), q)
      ensures r.Ok? ==> forall c :: c in r.value <==> Denotes(objects, View(refs, t, side), q, c)
      decreases q
      ensures r.Err? ==> Real(objects, r.error)
    {
      hide View, Complete, ReachesAny, Acyclic, CacheOk, Nodes, TermsReach, TermsComplete, TipsOfTerms, IndexOf,
        StatusesReadable, RefsComplete, InUniverse, HasResult, IsMetaTip, PrefixMatches, StatusOf;
      ghost var view := View(refs, t, side);
      match q
      case Rev(e) => r := EvalRev(e, t, side);
      case Results(effect, filter) => r := EvalResults(effect, filter, t, side);
      case Meta(glob) =>
        var tips := MetaTips(glob, t, side);
        r := Ok(Tips(tips));
      case Op(op, lhs, rhs) =>
        var l := EvalSide(lhs, t, side);
        if l.Err? {
          return Err(l.error);
        }
        var rr := EvalSide(rhs, t, side);
        if rr.Err? {
          return Err(rr.error);
        }
        match op
        case Union => r := Ok(l.value + rr.value);
        case Intersect => r := Ok(l.value * rr.value);
        case Difference => r := Ok(l.value - rr.value);
    }

    method EvalRev(e: RevExpr, t: Option<Transition>, side: Side) returns (r: EvalResult<set<Oid>>)
      requires Valid()
      modifies this`info
      ensures Valid() && Extends(old(info), info)
      ensures r.Ok? <==> Evaluable(objects, View(refs, t, side), Rev(e))
      ensures r.Ok? ==> forall c :: c in r.value <==> Denotes(objects, View(refs, t, side), Rev(e), c)
      ensures r.Err? ==> Real(objects, r.error)
    {
      hide View, Complete, ReachesAny, Acyclic, CacheOk, Nodes, TermsReach, TermsComplete, TipsOfTerms;
      ghost var view := View(refs, t, side);
      var positive := ResolveTerms(e.positive, t, side);
      var negative := ResolveTerms(e.negative, t, side);
      TipsCompleteTerms(graph, view, e.positive, positive);
      TipsCompleteTerms(graph, view, e.negative, negative);
      var reached := Reachable(positive);
      if reached.Err? {
        return Err(reached.error);
      }
      var excluded := Reachable(negative);
      if excluded.Err? {
        return Err(excluded.error);
      }
      forall c
        ensures c in reached.value - excluded.value <==> Denotes(objects, view, Rev(e), c)
      {
        TipsReachTerms(graph, view, e.positive, positive, c);
        TipsReachTerms(graph, view, e.negative, negative, c);
      }
      return Ok(reached.value - excluded.value);
    }

    method EvalResults(effect: string, filter: StatusFilter, t: Option<Transition>, side: Side)
      returns (r: EvalResult<set<Oid>>)
      requires Valid()
      modifies this`info, this`status
      ensures Valid() && Extends(old(info), info)
      ensures r.Ok? <==> Evaluable(objects, View(refs, t, side), Results(effect, filter))
      ensures r.Ok? ==> forall c :: c in r.value <==> Denotes(objects, View(refs, t, side), Results(effect, filter), c)
      ensures r.Err? ==> Real(objects, r.error)
    {
      hide View, Acyclic, CacheOk, Nodes, IndexOf, StatusesReadable, RefsComplete, InUniverse, HasResult,
        PrefixMatches, StatusOf;
      ghost var view := View(refs, t, side);
      var shorts := ResultsIndex(effect, filter, t, side);
      if shorts.Err? {
        return Err(shorts.error);
      }
      var universe := Universe(t, side);
      if universe.Err? {
        return Err(universe.error);
      }
      forall c
        ensures PrefixMatches(shorts.value, c) <==> HasResult(objects, view, effect, filter, c)
      {
        IndexDecidesResults(objects, view, effect, filter, shorts.value, c);
      }
      return Ok(set c | c in universe.value && PrefixMatches(shorts.value, c));
    }

    /** The set `q` denotes against current ref state. */
    method Eval(q: Query) returns (r: EvalResult<set<Oid>>)
      requires Valid()
      modifies this`info, this`status
      ensures Valid() && Extends(old(info), info)
      ensures r.Ok? <==> Evaluable(objects, refs, q)
      ensures r.Ok? ==> forall c :: c in r.value <==> Denotes(objects, refs, q, c)
      ensures r.Err? ==> Real(objects, r.error)
    {
      r := EvalSide(q, None, New);
    }

    // -- membership --------------------------------------------------------------

    /** Whether `oid` is in the set, tested without enumerating it. */
    method ContainsSide(q: Query, oid: Oid, t: Option<Transition>, side: Side) returns (r: EvalResult<bool>)
      requires Valid()
      modifies this`info, this`status
      ensures Valid() && Extends(old(info), info)
      ensures r.Ok? ==> (r.value <==> Holds(objects, View(refs, t, side), q, oid))
      ensures Evaluable(objects, View(refs, t, side), q) && Complete(graph, oid) ==> r.Ok?
      decreases q
      ensures r.Err? ==> Real(objects, r.error)
    {
      hide View, Complete, ReachesAny, Acyclic, CacheOk, Nodes, TermsReach, TermsComplete, IndexOf,
        StatusesReadable, RefsComplete, HasResult, IsMetaTip, PrefixMatches, StatusOf;
      ghost var view := View(refs, t, side);
      match q
      case Rev(e) => r := ContainsRev(e, oid, t, side);
      case Results(effect, filter) =>
        var shorts := ResultsIndex(effect, filter, t, side);
        if shorts.Err? {
          return Err(shorts.error);
        }
        IndexDecidesResults(objects, view, effect, filter, shorts.value, oid);
        r := Ok(PrefixMatches(shorts.value, oid));
      case Meta(glob) =>
        var tips := MetaTips(glob, t, side);
        r := Ok(oid in tips);
      case Op(op, lhs, rhs) =>
        var l := ContainsSide(lhs, oid, t, side);
        if l.Err? {
          return Err(l.error);
        }
        var rr := ContainsSide(rhs, oid, t, side);
        if rr.Err? {
          return Err(rr.error);
        }
        r := Ok(Apply(op, l.value, rr.value));
    }

    method ContainsRev(e: RevExpr, oid: Oid, t: Option<Transition>, side: Side) returns (r: EvalResult<bool>)
      requires Valid()
      modifies this`info
      ensures Valid() && Extends(old(info), info)
      ensures r.Ok? ==> (r.value <==> Holds(objects, View(refs, t, side), Rev(e), oid))
      ensures Evaluable(objects, View(refs, t, side), Rev(e)) && Complete(graph, oid) ==> r.Ok?
      ensures r.Err? ==> Real(objects, r.error)
    {
      hide View, Complete, ReachesAny, Acyclic, CacheOk, Nodes, TermsReach, TermsComplete, TipsOfTerms;
      ghost var view := View(refs, t, side);
      var positive := ResolveTerms(e.positive, t, side);
      var negative := ResolveTerms(e.negative, t, side);
      TipsCompleteTerms(graph, view, e.positive, positive);
      TipsCompleteTerms(graph, view, e.negative, negative);
      TipsReachTerms(graph, view, e.positive, positive, oid);
      TipsReachTerms(graph, view, e.negative, negative, oid);
      var included := ReachesTarget(positive, oid);
      if included.Err? {
        return Err(included.error);
      }
      if !included.value {
        return Ok(false);
      }
      var excluded := ReachesTarget(negative, oid);
      if excluded.Err? {
        return Err(excluded.error);
      }
      return Ok(!excluded.value);
    }

    // -- candidates --------------------------------------------------------------

    method AnyMatches(patterns: seq<string>, name: string) returns (r: bool)
      ensures r <==> Affects(patterns, name)
    {
      for i := 0 to |patterns|
        invariant forall k :: 0 <= k < i ==> !Pattern.Matches(patterns[k], name)
      {
        r := Pattern.GlobMatch(patterns[i], name);
        if r {
          assert patterns[i] in patterns;
          return;
        }
      }
      r := false;
    }

    /** Some reachable commit whose hex begins with the short oid; which of several is left open. */
    method ResolveShort(short: string, t: Transition) returns (r: EvalResult<Option<Oid>>)
      requires Valid()
      modifies this`info
      ensures Valid() && Extends(old(info), info)
      ensures r.Ok? <==> RefsComplete(objects, View(refs, Some(t), New))
      ensures r.Ok? && r.value.Some? ==>
                InUniverse(objects, View(refs, Some(t), New), r.value.value) && Lower(short) <= r.value.value.hex
      ensures r.Ok? && r.value.None? ==>
                forall c :: InUniverse(objects, View(refs, Some(t), New), c) ==> !(Lower(short) <= c.hex)
      ensures r.Err? ==> Real(objects, r.error)
    {
      hide View, RefsComplete, InUniverse, Acyclic, CacheOk, Nodes, Lower;
      var wanted := Lower(short);
      var universe := Universe(Some(t), New);
      if universe.Err? {
        return Err(universe.error);
      }
      var hits := set c | c in universe.value && wanted <= c.hex;
      if hits == {} {
        assert forall c :: c in universe.value && wanted <= c.hex ==> c in hits;
        return Ok(None);
      }
      var hit :| hit in hits;
      return Ok(Some(hit));
    }

    /** The commits whose membership in some atom of `q` can have changed under `t`. */
    method CollectCandidates(q: Query, t: Transition) returns (r: EvalResult<set<Oid>>)
      requires Valid() && RefName(t.name)
      modifies this`info
      ensures Valid() && Extends(old(info), info)
      ensures TransitionReadable(objects, refs, t) ==> r.Ok?
      ensures r.Ok? ==> IsCandidates(objects, View(refs, Some(t), New), q, t, r.value)
      decreases q
      ensures r.Err? ==> Real(objects, r.error)
    {
      hide View, RefsComplete, InUniverse, Acyclic, CacheOk, Nodes, MovesShort, TipsDisagree, Affects,
        TransitionReadable, IsChoice;
      match q
      case Rev(e) =>
        var affected := AnyMatches(RevPatterns(e), t.name);
        if affected {
          r := SymmetricDifference(t);
        } else {
          r := Ok({});
        }
      case Results(effect, _) => r := TestedCommit(effect, t, q);
      case Meta(glob) =>
        var selected := Pattern.GlobMatch(glob, t.name);
        r := Ok(if selected then AsSet(t.before) + AsSet(t.after) else {});
      case Op(_, lhs, rhs) =>
        var l := CollectCandidates(lhs, t);
        if l.Err? {
          return Err(l.error);
        }
        var rr := CollectCandidates(rhs, t);
        if rr.Err? {
          return Err(rr.error);
        }
        r := Ok(l.value + rr.value);
    }

    method SymmetricDifference(t: Transition) returns (r: EvalResult<set<Oid>>)
      requires Valid()
      modifies this`info
      ensures Valid() && Extends(old(info), info)
      ensures TransitionReadable(objects, refs, t) ==> r.Ok?
      ensures r.Ok? ==> forall c :: c in r.value <==> TipsDisagree(objects, t, c)
      ensures r.Err? ==> Real(objects, r.error)
    {
      hide Acyclic, CacheOk, Nodes, ReachesAny, Complete, Distinct;
      var before := match t.before case None => [] case Some(o) => [o];
      var after := match t.after case None => [] case Some(o) => [o];
      assert Tips(before) == AsSet(t.before) && Tips(after) == AsSet(t.after);
      var gained := AheadOf(after, before);
      if gained.Err? {
        return Err(gained.error);
      }
      var lost := AheadOf(before, after);
      if lost.Err? {
        return Err(lost.error);
      }
      return Ok(Tips(gained.value) + Tips(lost.value));
    }

    method TestedCommit(effect: string, t: Transition, ghost q: Query) returns (r: EvalResult<set<Oid>>)
      requires Valid() && RefName(t.name) && q.Results? && q.effect == effect
      modifies this`info
      ensures Valid() && Extends(old(info), info)
      ensures TransitionReadable(objects, refs, t) ==> r.Ok?
      ensures r.Ok? ==> IsChoice(objects, View(refs, Some(t), New), q, t, r.value)
      ensures r.Err? ==> Real(objects, r.error)
    {
      hide View, InUniverse, Acyclic, CacheOk, Nodes, RefsComplete;
      var short := StripPrefix(t.name, ResultsPrefix(effect));
      if short.None? || '/' in short.value {
        return Ok({});
      }
      assert t.name == ResultsPrefix(effect) + short.value;
      var tested := ResolveShort(short.value, t);
      if tested.Err? {
        return Err(tested.error);
      }
      return Ok(AsSet(tested.value));
    }

    // -- entry and work sets -------------------------------------------------------

    method FootprintTouches(q: Query, name: string) returns (r: bool)
      ensures r <==> FootprintMatches(q, name)
    {
      r := AnyMatches(Footprint(q), name);
    }

    /** The commits that enter the set under `t`, tested on the frontier alone. */
    method EntrySet(q: Query, t: Transition) returns (r: EvalResult<set<Oid>>)
      requires Valid() && RefName(t.name)
      modifies this`info, this`status
      ensures Valid() && Extends(old(info), info)
      ensures r.Ok? ==> IsEntrySet(objects, refs, q, t, r.value)
      ensures r.Ok? ==> forall c :: c in r.value ==> Enters(objects, refs, q, t, c)
      ensures r.Ok? && ExactStep(objects, refs, q, t) ==>
                forall c :: InUniverse(objects, View(refs, Some(t), New), c) ==>
                  (c in r.value <==> Enters(objects, refs, q, t, c))
      ensures StepReadable(objects, refs, q, t) ==> r.Ok?
      ensures r.Err? ==> Real(objects, r.error)
    {
      hide View, InUniverse, Acyclic, CacheOk, Nodes, Holds, Frontier, Complete, Evaluable, Tracked, NoSwitch,
        Unambiguous, ExactStep, IsCandidates;
      var touched := FootprintTouches(q, t.name);
      if !touched {
        EntrySetIsExact(objects, refs, q, t, {});
        return Ok({});
      }
      var candidates := CollectCandidates(q, t);
      if candidates.Err? {
        return Err(candidates.error);
      }
      CandidatesAreFrontier(objects, View(refs, Some(t), New), q, t, candidates.value);
      var entered: set<Oid> := {};
      var todo := candidates.value;
      while todo != {}
        invariant Valid() && Extends(old(info), info) && todo + entered <= candidates.value
        invariant forall c :: c in candidates.value && c !in todo ==> (c in entered <==> Enters(objects, refs, q, t, c))
        invariant entered !! todo
        decreases todo
      {
        var oid :| oid in todo;
        todo := todo - {oid};
        var now := ContainsSide(q, oid, Some(t), New);
        if now.Err? {
          if StepReadable(objects, refs, q, t) {
            FrontierReadable(objects, refs, q, t, oid);
          }
          return Err(now.error);
        }
        if !now.value {
          continue;
        }
        var was := ContainsSide(q, oid, Some(t), Old);
        if was.Err? {
          if StepReadable(objects, refs, q, t) {
            FrontierReadable(objects, refs, q, t, oid);
          }
          return Err(was.error);
        }
        if !was.value {
          entered := entered + {oid};
        }
      }
      assert IsEntrySet(objects, refs, q, t, entered);
      EntrySetIsExact(objects, refs, q, t, entered);
      return Ok(entered);
    }

    /** Drop every commit that already carries a recorded result of `effect`. */
    method SubtractResults(effect: string, s: set<Oid>, t: Option<Transition>) returns (r: EvalResult<set<Oid>>)
      requires Valid()
      modifies this`status
      ensures Valid() && r.Ok?
      ensures forall c :: c in r.value <==> c in s && !HasResult(objects, View(refs, t, New), effect, Any, c)
      ensures r.Err? ==> Real(objects, r.error)
    {
      hide View, Acyclic, CacheOk, Nodes, IndexOf, HasResult, PrefixMatches, StatusOf;
      var recorded := ResultsIndex(effect, Any, t, New);
      forall c
        ensures PrefixMatches(recorded.value, c) <==> HasResult(objects, View(refs, t, New), effect, Any, c)
      {
        IndexDecidesResults(objects, View(refs, t, New), effect, Any, recorded.value, c);
      }
      return Ok(set c | c in s && !PrefixMatches(recorded.value, c));
    }

    /** The entry set of the trigger minus every commit with a recorded result: what the step newly owes. */
    method WorkSet(effect: string, trigger: Query, t: Transition) returns (r: EvalResult<set<Oid>>)
      requires Valid() && RefName(t.name)
      modifies this`info, this`status
      ensures Valid() && Extends(old(info), info)
      ensures r.Ok? ==> IsWorkSet(objects, refs, effect, trigger, t, r.value)
      ensures StepReadable(objects, refs, trigger, t) ==> r.Ok?
      ensures r.Err? ==> Real(objects, r.error)
    {
      hide View, InUniverse, Acyclic, CacheOk, Nodes, HasResult, Enters, Frontier, ExactStep, IsEntrySet, StepReadable;
      var entered := EntrySet(trigger, t);
      if entered.Err? {
        return Err(entered.error);
      }
      r := SubtractResults(effect, entered.value, Some(t));
    }

    /** Everything the trigger denotes now that has no recorded result. */
    method OutstandingSet(effect: string, trigger: Query) returns (r: EvalResult<set<Oid>>)
      requires Valid()
      modifies this`info, this`status
      ensures Valid() && Extends(old(info), info)
      ensures r.Ok? <==> Evaluable(objects, refs, trigger)
      ensures r.Ok? ==> forall c :: c in r.value <==> Outstanding(objects, refs, effect, trigger, c)
      ensures r.Err? ==> Real(objects, r.error)
    {
      hide Acyclic, CacheOk, Nodes, HasResult, Denotes, Evaluable;
      var full := Eval(trigger);
      if full.Err? {
        return Err(full.error);
      }
      r := SubtractResults(effect, full.value, None);
    }
  }

  function Without(s: seq<(string, Oid)>, name: string): (r: seq<(string, Oid)>)
    ensures forall e :: e in r <==> e in s && e.0 != name
  {
    if s == [] then []
    else
      assert forall e :: e in s <==> e == s[0] || e in s[1..];
      (if s[0].0 == name then [] else [s[0]]) + Without(s[1..], name)
  }

  lemma MoreTips(view: Refs, terms: seq<RevTerm>, term: RevTerm, tips: seq<Oid>, more: seq<Oid>)
    requires TipsOfTerms(view, terms, tips)
    requires forall x :: x in more <==> x in TermTips(view, term)
    ensures TipsOfTerms(view, terms + [term], tips + more)
  {
    hide TermTips;
    forall x
      ensures x in tips + more <==> exists t :: t in terms + [term] && x in TermTips(view, t)
    {
      if x in more {
        assert term in terms + [term];
      }
      if x in tips {
        var t :| t in terms && x in TermTips(view, t);
        assert t in terms + [term];
      }
    }
  }

  lemma GlobTips(view: Refs, pattern: string, all: seq<(string, Oid)>, tips: seq<Oid>)
    requires forall n, o :: (n, o) in all <==> n in view && "refs/" <= n && view[n] == o
    requires forall x :: x in tips <==> exists k :: 0 <= k < |all| && GlobSelects(pattern, all[k].0) && all[k].1 == x
    ensures forall x :: x in tips <==> x in TermTips(view, Glob(pattern))
  {
    forall x
      ensures x in tips <==> x in TermTips(view, Glob(pattern))
    {
      if x in tips {
        var k :| 0 <= k < |all| && GlobSelects(pattern, all[k].0) && all[k].1 == x;
        assert (all[k].0, all[k].1) in all;
      }
      if x in TermTips(view, Glob(pattern)) {
        var n :| n in view && GlobSelects(pattern, n) && view[n] == x;
        assert (n, x) in all;
      }
    }
  }

  ghost predicate IndexUpTo(
    s: Store, effect: string, filter: StatusFilter, all: seq<(string, Oid)>, shorts: seq<string>)
  {
    forall w :: w in shorts <==>
      exists e :: e in all && ShortOf(effect, e.0) && StatusAdmitted(s, filter, e.1) && Short(effect, e.0) == w
  }

  lemma IndexSkip(
    s: Store, effect: string, filter: StatusFilter, all: seq<(string, Oid)>, shorts: seq<string>, e: (string, Oid))
    requires IndexUpTo(s, effect, filter, all, shorts)
    requires !(ShortOf(effect, e.0) && StatusAdmitted(s, filter, e.1))
    ensures IndexUpTo(s, effect, filter, all + [e], shorts)
  {
    hide ShortOf, StatusAdmitted, Short;
    assert forall f :: f in all + [e] <==> f in all || f == e;
  }

  lemma IndexAdd(
    s: Store, effect: string, filter: StatusFilter, all: seq<(string, Oid)>, shorts: seq<string>, e: (string, Oid))
    requires IndexUpTo(s, effect, filter, all, shorts)
    requires ShortOf(effect, e.0) && StatusAdmitted(s, filter, e.1)
    ensures IndexUpTo(s, effect, filter, all + [e], shorts + [Short(effect, e.0)])
  {
    hide ShortOf, StatusAdmitted, Short;
    assert e in all + [e];
    assert forall f :: f in all + [e] <==> f in all || f == e;
  }

  lemma IndexDone(
    s: Store, view: Refs, effect: string, filter: StatusFilter, all: seq<(string, Oid)>, shorts: seq<string>)
    requires forall n, o :: (n, o) in all <==> n in view && ResultsPrefix(effect) <= n && view[n] == o
    requires forall k :: 0 <= k < |all| && ShortOf(effect, all[k].0) && !filter.Any? ==> StatusOf(s, all[k].1).Some?
    requires IndexUpTo(s, effect, filter, all, shorts)
    ensures IndexOf(s, view, effect, filter, shorts) && StatusesReadable(s, view, effect, filter)
  {
    hide StatusOf, StatusAdmitted, Short;
    forall n | n in view && ShortOf(effect, n)
      ensures (n, view[n]) in all
    {
    }
    forall w
      ensures w in shorts <==>
              exists n :: n in view && ShortOf(effect, n) && StatusAdmitted(s, filter, view[n]) && Short(effect, n) == w
    {
      if w in shorts {
        var e :| e in all && ShortOf(effect, e.0) && StatusAdmitted(s, filter, e.1) && Short(effect, e.0) == w;
        assert (e.0, e.1) in all;
      }
      if n :| n in view && ShortOf(effect, n) && StatusAdmitted(s, filter, view[n]) && Short(effect, n) == w {
        assert (n, view[n]) in all;
      }
    }
  }

  lemma SelectedMetaTips(view: Refs, glob: string, all: seq<(string, Oid)>, tips: seq<Oid>)
    requires forall n, o :: (n, o) in all <==> n in view && "refs/meta/" <= n && view[n] == o
    requires forall x :: x in tips <==> exists k :: 0 <= k < |all| && MetaSelects(glob, all[k].0) && all[k].1 == x
    ensures forall x :: x in tips <==> IsMetaTip(view, glob, x)
  {
    forall x
      ensures x in tips <==> IsMetaTip(view, glob, x)
    {
      if x in tips {
        var k :| 0 <= k < |all| && MetaSelects(glob, all[k].0) && all[k].1 == x;
        assert (all[k].0, all[k].1) in all;
      }
      if IsMetaTip(view, glob, x) {
        var n :| n in view && MetaSelects(glob, n) && view[n] == x;
        assert (n, x) in all;
      }
    }
  }

  lemma AllRefTips(view: Refs, all: seq<(string, Oid)>, tips: seq<Oid>)
    requires forall n, o :: (n, o) in all <==> n in view && "refs/" <= n && view[n] == o
    requires forall x :: x in tips <==> exists k :: 0 <= k < |all| && all[k].1 == x
    ensures forall x :: x in tips <==> x in RefTips(view)
  {
    forall x
      ensures x in tips <==> x in RefTips(view)
    {
      if x in tips {
        var k :| 0 <= k < |all| && all[k].1 == x;
        assert (all[k].0, all[k].1) in all;
      }
      if x in RefTips(view) {
        var n :| n in view && "refs/" <= n && view[n] == x;
        assert (n, x) in all;
      }
    }
  }
}
