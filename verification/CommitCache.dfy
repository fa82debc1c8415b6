/** Lemmas about the evaluator's commit cache and its best-first walks, kept apart from the walks themselves. */
module CommitCache {
  import opened Graph

  const U64_MAX: nat := 0xFFFF_FFFF_FFFF_FFFF

  /** Parents and generation number: 1 more than the greatest parent generation. */
  datatype CommitInfo = CommitInfo(parents: seq<Oid>, generation: nat)

  type Cache = map<Oid, CommitInfo>

  function SaturatingSucc(n: nat): (r: nat)
    ensures r <= n + 1
  {
    if n < U64_MAX then n + 1 else n
  }

  function SaturatingPred(n: nat): nat {
    if n > 0 then n - 1 else 0
  }

  /** The greatest generation among the cached commits of `ps`; 0 when there is none. */
  function MaxGeneration(info: Cache, ps: seq<Oid>): (m: nat)
    ensures forall p :: p in ps && p in info ==> info[p].generation <= m
  {
    if ps == [] then 0
    else
      var rest := MaxGeneration(info, ps[1..]);
      assert forall p :: p in ps ==> p == ps[0] || p in ps[1..];
      assert forall p :: p in ps[1..] ==> p in ps;
      if ps[0] in info && info[ps[0]].generation > rest then info[ps[0]].generation else rest
  }

  lemma MaxGenerationWitness(info: Cache, ps: seq<Oid>) returns (p: Oid)
    requires MaxGeneration(info, ps) > 0
    ensures p in ps && p in info && info[p].generation == MaxGeneration(info, ps)
  {
    if ps[0] in info && info[ps[0]].generation == MaxGeneration(info, ps) {
      p := ps[0];
    } else {
      p := MaxGenerationWitness(info, ps[1..]);
    }
  }

  /** One cache line is right: real parents, all cached, and the generation one above their greatest. */
  ghost predicate EntryOk(g: Commits, info: Cache, o: Oid)
    requires o in info
  {
    && o in g && info[o].parents == g[o]
    && (forall p :: p in g[o] ==> p in info)
    && info[o].generation == 1 + MaxGeneration(info, g[o])
    && info[o].generation <= Rank(g, o)
  }

  ghost predicate CacheOk(g: Commits, info: Cache) {
    forall o :: o in info ==> EntryOk(g, info, o)
  }

  /** Generations fall strictly along parent edges. */
  lemma GenerationFalls(g: Commits, info: Cache, o: Oid, p: Oid)
    requires CacheOk(g, info) && o in info && p in g[o]
    ensures p in info && info[p].generation < info[o].generation
  {
    assert EntryOk(g, info, o);
  }

  /** A cached commit has all its ancestry cached, hence readable. */
  lemma CachedIsComplete(g: Commits, info: Cache, o: Oid)
    requires CacheOk(g, info) && o in info
    ensures Complete(g, o)
    ensures forall x :: Reaches(g, o, x) ==> x in info
  {
    forall x, y | x in info.Keys && x in g && y in g[x]
      ensures y in info.Keys
    {
      assert EntryOk(g, info, x);
    }
    forall x | Reaches(g, o, x)
      ensures x in info && x in g
    {
      ClosedReach(g, info.Keys, o, x);
      assert EntryOk(g, info, x);
    }
  }

  /** The greatest parent generation stays below the commit's rank, so incrementing it never saturates. */
  lemma ParentsBelowRank(g: Commits, info: Cache, o: Oid)
    requires CacheOk(g, info) && o in g && Acyclic(g)
    requires |Nodes(g)| <= U64_MAX
    ensures MaxGeneration(info, g[o]) < Rank(g, o) <= U64_MAX
  {
    var m := MaxGeneration(info, g[o]);
    assert Below(g, o) <= Nodes(g);
    SubsetCardinality(Below(g, o), Nodes(g));
    ReachesSelf(g, o);
    assert o in Below(g, o);
    if m > 0 {
      var p := MaxGenerationWitness(info, g[o]);
      assert EntryOk(g, info, p);
      RankDecreases(g, o, p);
    }
  }

  ghost predicate Extends(info: Cache, info': Cache) {
    forall p :: p in info ==> p in info' && info'[p] == info[p]
  }

  lemma MaxGenerationStable(info: Cache, info': Cache, ps: seq<Oid>)
    requires Extends(info, info')
    requires forall p :: p in ps ==> p in info
    ensures MaxGeneration(info', ps) == MaxGeneration(info, ps)
  {
    if ps != [] {
      assert ps[0] in ps && forall p :: p in ps[1..] ==> p in ps;
      MaxGenerationStable(info, info', ps[1..]);
    }
  }

  lemma EntryStable(g: Commits, info: Cache, info': Cache, o: Oid)
    requires Extends(info, info') && o in info && EntryOk(g, info, o)
    ensures EntryOk(g, info', o)
  {
    MaxGenerationStable(info, info', g[o]);
  }

  /** Adding the line of a commit whose parents are all cached keeps every line right. */
  lemma CacheExtends(g: Commits, info: Cache, o: Oid, line: CommitInfo)
    requires CacheOk(g, info) && o !in info && o in g && Acyclic(g)
    requires |Nodes(g)| <= U64_MAX
    requires forall p :: p in g[o] ==> p in info
    requires line == CommitInfo(g[o], SaturatingSucc(MaxGeneration(info, g[o])))
    ensures CacheOk(g, info[o := line])
  {
    var info' := info[o := line];
    assert EntryOk(g, info', o) by {
      ParentsBelowRank(g, info, o);
      MaxGenerationStable(info, info', g[o]);
    }
    forall x | x in info
      ensures EntryOk(g, info', x)
    {
      EntryStable(g, info, info', x);
    }
  }

  /** The commits of `ps` that are not cached, in order. */
  function Unresolved(info: Cache, ps: seq<Oid>): (r: seq<Oid>)
    ensures forall p :: p in r <==> p in ps && p !in info
  {
    if ps == [] then []
    else
      assert forall p :: p in ps <==> p == ps[0] || p in ps[1..];
      (if ps[0] in info then [] else [ps[0]]) + Unresolved(info, ps[1..])
  }

  /** An expanded commit at `i` waits below its ancestors: everything above it ranks lower, and its uncached parents
      are all there. */
  ghost predicate Waits(g: Commits, info: Cache, stack: seq<Oid>, x: Oid, i: nat)
    requires x in g
  {
    && i < |stack| && stack[i] == x
    && RanksBelow(g, stack[i + 1..], Rank(g, x))
    && Covers(info, stack[i + 1..], g[x])
  }

  ghost predicate RanksBelow(g: Commits, s: seq<Oid>, r: nat) {
    forall y :: y in s ==> Rank(g, y) < r
  }

  ghost predicate Covers(info: Cache, s: seq<Oid>, parents: seq<Oid>) {
    forall p :: p in parents ==> p in info || p in s
  }

  ghost predicate StackReached(g: Commits, oid: Oid, s: seq<Oid>) {
    forall y :: y in s ==> Reaches(g, oid, y)
  }

  /** Every expanded, uncached commit waits below its own uncached parents. */
  ghost predicate AllWait(g: Commits, info: Cache, pending: map<Oid, seq<Oid>>, stack: seq<Oid>, at: map<Oid, nat>) {
    forall x :: x in pending ==>
      x in g && pending[x] == g[x] && (x !in info ==> x in at && Waits(g, info, stack, x, at[x]))
  }

  /** A commit met again on top has had all its parents cached meanwhile. */
  lemma ExpandedOnce(g: Commits, info: Cache, stack: seq<Oid>, x: Oid, i: nat)
    requires x in g && Waits(g, info, stack, x, i) && stack[|stack| - 1] == x
    ensures Unresolved(info, g[x]) == []
  {
    LastInSuffix(stack, i);
    HeadOrEmpty(Unresolved(info, g[x]));
  }

  lemma HeadOrEmpty<T>(s: seq<T>)
    ensures s == [] || s[0] in s
  {
  }

  lemma LastInSuffix<T>(s: seq<T>, i: nat)
    requires i < |s|
    ensures if i == |s| - 1 then s[i + 1..] == [] else s[|s| - 1] in s[i + 1..]
  {
    if i < |s| - 1 {
      assert s[i + 1..][|s| - i - 2] == s[|s| - 1];
    }
  }

  lemma WaitsAfterPop(g: Commits, info: Cache, info': Cache, stack: seq<Oid>, x: Oid, i: nat)
    requires x in g && Waits(g, info, stack, x, i) && x !in info'
    requires Extends(info, info') && stack[|stack| - 1] in info'
    ensures Waits(g, info', stack[..|stack| - 1], x, i)
  {
    var n := |stack| - 1;
    assert i < n;
    var above, above' := stack[i + 1..], stack[..n][i + 1..];
    assert above == above' + [stack[n]];
    assert forall p :: p in above ==> p in above' || p == stack[n];
    assert forall p :: p in above' ==> p in above;
  }

  lemma PopKeepsStack(
    g: Commits, info: Cache, info': Cache, pending: map<Oid, seq<Oid>>, stack: seq<Oid>, at: map<Oid, nat>)
    requires AllWait(g, info, pending, stack, at) && stack != []
    requires Extends(info, info') && stack[|stack| - 1] in info'
    ensures AllWait(g, info', pending, stack[..|stack| - 1], at)
  {
    forall x | x in pending && x !in info'
      ensures Waits(g, info', stack[..|stack| - 1], x, at[x])
    {
      WaitsAfterPop(g, info, info', stack, x, at[x]);
    }
  }

  lemma WaitsAfterPush(g: Commits, info: Cache, stack: seq<Oid>, u: seq<Oid>, x: Oid, i: nat)
    requires x in g && Waits(g, info, stack, x, i)
    requires RanksBelow(g, u, Rank(g, stack[|stack| - 1]))
    ensures Waits(g, info, stack + u, x, i)
  {
    var n := |stack| - 1;
    var above := stack[i + 1..];
    assert (stack + u)[i + 1..] == above + u;
    assert i < n ==> above[n - i - 1] == stack[n] && stack[n] in above;
    assert Rank(g, stack[n]) <= Rank(g, x);
  }

  /** Expanding the top: its uncached parents, pushed, rank below it and are reached through it. */
  lemma PushKeepsStack(
    g: Commits, info: Cache, oid: Oid, pending: map<Oid, seq<Oid>>, stack: seq<Oid>, at: map<Oid, nat>, top: Oid)
    requires Acyclic(g) && AllWait(g, info, pending, stack, at) && StackReached(g, oid, stack)
    requires stack != [] && stack[|stack| - 1] == top && top in g && top !in pending
    ensures AllWait(g, info, pending[top := g[top]], stack + Unresolved(info, g[top]), at[top := |stack| - 1])
    ensures StackReached(g, oid, stack + Unresolved(info, g[top]))
  {
    var u := Unresolved(info, g[top]);
    forall y | y in u
      ensures Rank(g, y) < Rank(g, top) && Reaches(g, oid, y)
    {
      assert top in stack;
      RankDecreases(g, top, y);
      ReachesParent(g, oid, top, y);
    }
    assert (stack + u)[|stack|..] == u;
    assert Waits(g, info, stack + u, top, |stack| - 1);
    forall x | x in pending && x !in info
      ensures Waits(g, info, stack + u, x, at[x])
    {
      WaitsAfterPush(g, info, stack, u, x, at[x]);
    }
  }

  /** What the generation walk from `oid` keeps. */
  ghost predicate WalkOk(
    g: Commits, info: Cache, oid: Oid, pending: map<Oid, seq<Oid>>, stack: seq<Oid>, at: map<Oid, nat>)
  {
    && CacheOk(g, info)
    && StackReached(g, oid, stack)
    && AllWait(g, info, pending, stack, at)
    && (if stack == [] then oid in info else stack[0] == oid)
  }

  lemma PopKeepsWalk(
    g: Commits, info: Cache, oid: Oid, pending: map<Oid, seq<Oid>>, stack: seq<Oid>, at: map<Oid, nat>)
    requires WalkOk(g, info, oid, pending, stack, at) && stack != [] && stack[|stack| - 1] in info
    ensures WalkOk(g, info, oid, pending, stack[..|stack| - 1], at)
  {
    PopKeepsStack(g, info, info, pending, stack, at);
  }

  lemma ResolveKeepsWalk(
    g: Commits, info: Cache, oid: Oid, pending: map<Oid, seq<Oid>>, stack: seq<Oid>, at: map<Oid, nat>,
    top: Oid, line: CommitInfo)
    requires Acyclic(g) && |Nodes(g)| <= U64_MAX
    requires WalkOk(g, info, oid, pending, stack, at) && stack != [] && stack[|stack| - 1] == top
    requires top in g && top !in info && Unresolved(info, g[top]) == []
    requires line == CommitInfo(g[top], SaturatingSucc(MaxGeneration(info, g[top])))
    ensures WalkOk(g, info[top := line], oid, pending, stack[..|stack| - 1], at)
    ensures g.Keys - info[top := line].Keys < g.Keys - info.Keys
  {
    var info' := info[top := line];
    assert forall p :: p in g[top] ==> p in Unresolved(info, g[top]) || p in info;
    CacheExtends(g, info, top, line);
    PopKeepsStack(g, info, info', pending, stack, at);
    assert top in g.Keys - info.Keys && top !in g.Keys - info'.Keys;
  }

  lemma ExpandKeepsWalk(
    g: Commits, info: Cache, oid: Oid, pending: map<Oid, seq<Oid>>, stack: seq<Oid>, at: map<Oid, nat>, top: Oid)
    requires Acyclic(g)
    requires WalkOk(g, info, oid, pending, stack, at) && stack != [] && stack[|stack| - 1] == top
    requires top in g && top !in pending
    ensures WalkOk(g, info, oid, pending[top := g[top]], stack + Unresolved(info, g[top]), at[top := |stack| - 1])
    ensures g.Keys - pending[top := g[top]].Keys < g.Keys - pending.Keys
  {
    PushKeepsStack(g, info, oid, pending, stack, at, top);
    assert top in g.Keys - pending.Keys && top !in g.Keys - pending[top := g[top]].Keys;
  }

  lemma SeenComplete(g: Commits, info: Cache, tips: set<Oid>)
    requires CacheOk(g, info) && tips <= info.Keys
    ensures forall t :: t in tips ==> Complete(g, t)
  {
    forall t | t in tips
      ensures Complete(g, t)
    {
      CachedIsComplete(g, info, t);
    }
  }

  lemma CachedLine(g: Commits, info: Cache, o: Oid)
    requires CacheOk(g, info) && o in info
    ensures o in g && info[o].parents == g[o] == ParentsOf(g, o)
    ensures forall p :: p in g[o] ==> p in info && info[p].generation < info[o].generation
  {
    assert EntryOk(g, info, o);
  }

  lemma CachedAreCommits(g: Commits, info: Cache)
    requires CacheOk(g, info)
    ensures info.Keys <= g.Keys
  {
    forall o | o in info
      ensures o in g
    {
      assert EntryOk(g, info, o);
    }
  }

  // -- best-first walks --------------------------------------------------

  /** A max-heap of (generation, commit) pairs. */
  type Heap = multiset<(nat, Oid)>

  ghost predicate IsTop(heap: Heap, top: (nat, Oid)) {
    top in heap && forall e :: e in heap ==> e.0 <= top.0
  }

  lemma {:induction false} HeapHasTop(heap: Heap) returns (top: (nat, Oid))
    requires heap != multiset{}
    ensures IsTop(heap, top)
    decreases |heap|
  {
    var e :| e in heap;
    var rest := heap - multiset{e};
    assert forall f :: f in heap ==> f == e || f in rest;
    if rest == multiset{} {
      top := e;
    } else {
      top := HeapHasTop(rest);
      if top.0 <= e.0 {
        top := e;
      }
    }
  }

  /** Remove a pair of greatest generation; which of several is left open. */
  method PopMax(heap: Heap) returns (top: (nat, Oid), rest: Heap)
    requires heap != multiset{}
    ensures IsTop(heap, top) && rest == heap - multiset{top}
  {
    ghost var witnessTop := HeapHasTop(heap);
    top :| top in heap && forall e :: e in heap ==> e.0 <= top.0;
    rest := heap - multiset{top};
  }

  /** The heap holds each commit of `queued` once, under its cached generation, and nothing else. */
  ghost predicate HeapHolds(info: Cache, heap: Heap, queued: set<Oid>) {
    && queued <= info.Keys
    && (forall x :: x in queued ==> heap[(info[x].generation, x)] == 1)
    && (forall e :: e in heap ==> e.1 in queued && e.0 == info[e.1].generation)
  }

  lemma HeapPop(info: Cache, heap: Heap, queued: set<Oid>, top: (nat, Oid))
    requires HeapHolds(info, heap, queued) && IsTop(heap, top)
    ensures top.1 in queued && top.0 == info[top.1].generation
    ensures HeapHolds(info, heap - multiset{top}, queued - {top.1})
    ensures forall x :: x in queued ==> info[x].generation <= top.0
  {
    forall x | x in queued
      ensures info[x].generation <= top.0
    {
      assert (info[x].generation, x) in heap;
    }
  }

  lemma HeapPush(info: Cache, heap: Heap, queued: set<Oid>, x: Oid)
    requires HeapHolds(info, heap, queued) && x in info && x !in queued
    ensures HeapHolds(info, heap + multiset{(info[x].generation, x)}, queued + {x})
  {
    assert (info[x].generation, x) !in heap;
  }

  lemma HeapEmpty(info: Cache, heap: Heap, queued: set<Oid>)
    requires HeapHolds(info, heap, queued) && heap == multiset{}
    ensures queued == {}
  {
  }

  lemma HeapStable(info: Cache, info': Cache, heap: Heap, queued: set<Oid>)
    requires HeapHolds(info, heap, queued) && Extends(info, info')
    ensures HeapHolds(info', heap, queued)
  {
  }

  // -- reachability pruned by a generation floor ------------------------

  /** Every commit of `ps` is cached, and those at or above the floor lie in `cover`. */
  ghost predicate Covered(info: Cache, floor: nat, cover: set<Oid>, ps: set<Oid>) {
    forall p :: p in ps ==> p in info && (info[p].generation >= floor ==> p in cover)
  }

  /** What the floor-pruned search keeps: the heap holds the queued commits, every seen commit is reached and, unless
      below the floor, queued or done. */
  ghost predicate SearchOk(
    g: Commits, info: Cache, floor: nat, tips: set<Oid>, heap: Heap, seen: set<Oid>, queued: set<Oid>, done: set<Oid>)
  {
    && queued + done <= seen <= info.Keys && queued !! done
    && AllReached(g, tips, seen)
    && Covered(info, floor, queued + done, seen)
    && HeapHolds(info, heap, queued)
  }

  /** The parents of every expanded commit are covered. */
  ghost predicate AllExpanded(g: Commits, info: Cache, floor: nat, cover: set<Oid>, done: set<Oid>) {
    forall x :: x in done ==> Covered(info, floor, cover, Tips(ParentsOf(g, x)))
  }

  lemma CoveredGrows(info: Cache, info': Cache, floor: nat, cover: set<Oid>, cover': set<Oid>, ps: set<Oid>)
    requires Covered(info, floor, cover, ps) && Extends(info, info') && cover <= cover'
    ensures Covered(info', floor, cover', ps)
  {
  }

  lemma AllExpandedGrows(
    g: Commits, info: Cache, info': Cache, floor: nat, cover: set<Oid>, cover': set<Oid>, done: set<Oid>)
    requires AllExpanded(g, info, floor, cover, done) && Extends(info, info') && cover <= cover'
    ensures AllExpanded(g, info', floor, cover', done)
  {
    forall x | x in done
      ensures Covered(info', floor, cover', Tips(ParentsOf(g, x)))
    {
      CoveredGrows(info, info', floor, cover, cover', Tips(ParentsOf(g, x)));
    }
  }

  lemma SearchStart(g: Commits, info: Cache, floor: nat, tips: set<Oid>)
    ensures SearchOk(g, info, floor, tips, multiset{}, {}, {}, {})
  {
  }

  lemma SearchGrows(
    g: Commits, info: Cache, info': Cache, floor: nat, tips: set<Oid>, heap: Heap, seen: set<Oid>,
    queued: set<Oid>, done: set<Oid>)
    requires SearchOk(g, info, floor, tips, heap, seen, queued, done) && Extends(info, info')
    ensures SearchOk(g, info', floor, tips, heap, seen, queued, done)
  {
    HeapStable(info, info', heap, queued);
  }

  /** A newly seen commit is queued, or lies below the floor. */
  lemma SearchVisit(
    g: Commits, info: Cache, floor: nat, tips: set<Oid>, heap: Heap, seen: set<Oid>, queued: set<Oid>, done: set<Oid>,
    x: Oid)
    requires SearchOk(g, info, floor, tips, heap, seen, queued, done)
    requires x in info && x !in seen && ReachesAny(g, tips, x)
    ensures info[x].generation < floor ==> SearchOk(g, info, floor, tips, heap, seen + {x}, queued, done)
    ensures SearchOk(g, info, floor, tips, heap + multiset{(info[x].generation, x)}, seen + {x}, queued + {x}, done)
  {
    HeapPush(info, heap, queued, x);
  }

  lemma SearchPop(
    g: Commits, info: Cache, floor: nat, tips: set<Oid>, heap: Heap, seen: set<Oid>, queued: set<Oid>, done: set<Oid>,
    top: (nat, Oid))
    requires SearchOk(g, info, floor, tips, heap, seen, queued, done) && IsTop(heap, top)
    ensures SearchOk(g, info, floor, tips, heap - multiset{top}, seen, queued - {top.1}, done + {top.1})
    ensures top.1 in info && top.1 in queued && top.1 !in done && ReachesAny(g, tips, top.1)
    ensures queued + done == (queued - {top.1}) + (done + {top.1})
  {
    HeapPop(info, heap, queued, top);
    assert queued + done == (queued - {top.1}) + (done + {top.1});
  }

  /** Commits below the floor cannot lead back up to it: a finished search that did not meet the target proves it
      unreachable. */
  lemma SearchMisses(g: Commits, info: Cache, floor: nat, tips: set<Oid>, done: set<Oid>, target: Oid)
    requires CacheOk(g, info) && target in info && info[target].generation == floor && target !in done
    requires Covered(info, floor, done, tips) && AllExpanded(g, info, floor, done, done)
    ensures !ReachesAny(g, tips, target)
  {
    var s := done + set z | z in info && info[z].generation < floor;
    forall x, y | x in s && x in g && y in g[x]
      ensures y in s
    {
      assert y in Tips(ParentsOf(g, x));
      if x in done {
        assert Covered(info, floor, done, Tips(ParentsOf(g, x)));
      } else {
        GenerationFalls(g, info, x, y);
      }
    }
    if ReachesAny(g, tips, target) {
      var t :| t in tips && Reaches(g, t, target);
      ClosedReach(g, s, t, target);
      assert false;
    }
  }

  lemma CoveredEmpty(info: Cache, floor: nat, cover: set<Oid>)
    ensures Covered(info, floor, cover, {}) && Tips([]) == {}
  {
  }

  /** Handling one more commit of a list extends what the list covers. */
  lemma SeedCovers(
    g: Commits, info: Cache, info': Cache, floor: nat, tips: set<Oid>, heap: Heap, seen: set<Oid>,
    cover: set<Oid>, queued: set<Oid>, done: set<Oid>, ps: set<Oid>, x: Oid)
    requires Covered(info, floor, cover, ps) && Extends(info, info') && cover <= queued + done
    requires SearchOk(g, info', floor, tips, heap, seen, queued, done)
    requires x in info' && (x in seen || info'[x].generation < floor)
    ensures Covered(info', floor, queued + done, ps + {x})
  {
  }

  /** The tips and the parents of every expanded commit are queued, done or below the floor. */
  ghost predicate FrontOk(g: Commits, info: Cache, floor: nat, tips: set<Oid>, queued: set<Oid>, done: set<Oid>) {
    Covered(info, floor, queued + done, tips) && AllExpanded(g, info, floor, queued + done, done)
  }

  lemma SeedDone(g: Commits, info: Cache, floor: nat, tips: set<Oid>, queued: set<Oid>)
    requires Covered(info, floor, queued, tips)
    ensures FrontOk(g, info, floor, tips, queued, {})
  {
    assert queued + {} == queued;
  }

  /** Expanding `x`, popped from the queue, keeps the front and uses up one more commit. */
  lemma FrontStep(
    g: Commits, info: Cache, info': Cache, floor: nat, tips: set<Oid>, queued: set<Oid>, queued': set<Oid>,
    done: set<Oid>, x: Oid)
    requires FrontOk(g, info, floor, tips, queued, done) && Extends(info, info') && CacheOk(g, info)
    requires x in queued && x in info && x !in done && done <= g.Keys
    requires queued - {x} <= queued'
    requires Covered(info', floor, queued' + (done + {x}), Tips(ParentsOf(g, x)))
    ensures FrontOk(g, info', floor, tips, queued', done + {x})
    ensures done + {x} <= g.Keys && g.Keys - (done + {x}) < g.Keys - done
  {
    var cover, cover' := queued + done, queued' + (done + {x});
    assert cover <= cover';
    CoveredGrows(info, info', floor, cover, cover', tips);
    AllExpandedGrows(g, info, info', floor, cover, cover', done);
    CachedAreCommits(g, info);
    assert x in g.Keys - done && x !in g.Keys - (done + {x});
  }

  lemma SearchOver(
    g: Commits, info: Cache, floor: nat, tips: set<Oid>, heap: Heap, seen: set<Oid>, queued: set<Oid>, done: set<Oid>,
    target: Oid)
    requires CacheOk(g, info) && SearchOk(g, info, floor, tips, heap, seen, queued, done) && heap == multiset{}
    requires FrontOk(g, info, floor, tips, queued, done)
    requires target in info && info[target].generation == floor && target !in done
    ensures !ReachesAny(g, tips, target)
  {
    HeapEmpty(info, heap, queued);
    assert queued + done == done;
    SearchMisses(g, info, floor, tips, done, target);
  }
}
