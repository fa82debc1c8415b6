/** The two-colour paint-down walk between two tip sets: its state, and what each step keeps. */
module PaintDown {
  import opened Graph
  import opened CommitCache

  /** Which sides reach a commit, as far as the walk knows. */
  datatype Paint = Paint(ofNew: bool, ofOld: bool)

  const NEW := Paint(true, false)
  const OLD := Paint(false, true)
  const NEITHER := Paint(false, false)

  type Flags = map<Oid, Paint>

  function Mix(a: Paint, b: Paint): Paint {
    Paint(a.ofNew || b.ofNew, a.ofOld || b.ofOld)
  }

  function PaintOf(flags: Flags, x: Oid): Paint {
    if x in flags then flags[x] else NEITHER
  }

  ghost predicate Within(a: Paint, b: Paint) {
    (a.ofNew ==> b.ofNew) && (a.ofOld ==> b.ofOld)
  }

  ghost function NewOnly(flags: Flags, queued: set<Oid>): set<Oid> {
    set x | x in queued && PaintOf(flags, x) == NEW
  }

  /** No paint is put on a commit its side does not reach. */
  ghost predicate PaintSound(g: Commits, newTips: set<Oid>, oldTips: set<Oid>, x: Oid, p: Paint) {
    (p.ofNew ==> ReachesAny(g, newTips, x)) && (p.ofOld ==> ReachesAny(g, oldTips, x))
  }

  /** Every parent of `x` carries at least the paint of `x`. */
  ghost predicate PassedOn(g: Commits, flags: Flags, x: Oid) {
    forall p :: p in ParentsOf(g, x) ==> p in flags && Within(PaintOf(flags, x), flags[p])
  }

  ghost predicate LowerThanAll(info: Cache, done: set<Oid>, x: Oid) {
    x in info && forall d :: d in done ==> d in info && info[x].generation < info[d].generation
  }

  ghost predicate Ordered(info: Cache, queued: set<Oid>, done: set<Oid>) {
    queued + done <= info.Keys && forall q, d :: q in queued && d in done ==> info[q].generation <= info[d].generation
  }

  ghost predicate AheadIs(flags: Flags, done: set<Oid>, ahead: seq<Oid>) {
    Distinct(ahead) && forall x :: x in ahead <==> x in done && PaintOf(flags, x) == NEW
  }

  ghost predicate FlagsOk(g: Commits, newTips: set<Oid>, oldTips: set<Oid>, flags: Flags, done: set<Oid>) {
    && (forall x :: x in flags ==> flags[x] != NEITHER && PaintSound(g, newTips, oldTips, x, flags[x]))
    && (forall d :: d in done && ReachesAny(g, oldTips, d) ==> PaintOf(flags, d).ofOld)
  }

  /** The state of the walk.  `done` holds the popped commits, `expanded` those whose parents were all pushed. */
  ghost predicate PaintOk(
    g: Commits, info: Cache, newTips: set<Oid>, oldTips: set<Oid>,
    flags: Flags, heap: Heap, queued: set<Oid>, newOnly: nat, ahead: seq<Oid>, done: set<Oid>, expanded: set<Oid>)
  {
    && queued !! done && flags.Keys == queued + done && expanded <= done
    && HeapHolds(info, heap, queued)
    && Ordered(info, queued, done)
    && FlagsOk(g, newTips, oldTips, flags, done)
    && (forall x :: x in expanded ==> PassedOn(g, flags, x))
    && newOnly == |NewOnly(flags, queued)|
    && AheadIs(flags, done, ahead)
  }

  ghost predicate TipsPainted(flags: Flags, tips: set<Oid>, p: Paint) {
    forall t :: t in tips ==> t in flags && Within(p, flags[t])
  }

  /** The count of queued NEW-only commits after painting `x`. */
  function CountAfter(flags: Flags, queued: set<Oid>, newOnly: nat, x: Oid, p: Paint): nat {
    var before, after := PaintOf(flags, x), Mix(PaintOf(flags, x), p);
    if x !in queued then (if after == NEW then newOnly + 1 else newOnly)
    else if before == NEW && after != NEW && newOnly > 0 then newOnly - 1
    else newOnly
  }

  lemma CountStays(flags: Flags, queued: set<Oid>, done: set<Oid>, x: Oid, p: Paint)
    requires flags.Keys == queued + done && x !in done && p != NEITHER
    requires forall y :: y in flags ==> flags[y] != NEITHER
    ensures CountAfter(flags, queued, |NewOnly(flags, queued)|, x, p)
         == |NewOnly(flags[x := Mix(PaintOf(flags, x), p)], queued + {x})|
  {
    hide NewOnly;
    var after := Mix(PaintOf(flags, x), p);
    Repainted(flags, queued, x, after);
    AddOne(NewOnly(flags, queued), x);
    assert x in queued <==> x in flags;
  }

  lemma AddOne(s: set<Oid>, x: Oid)
    ensures x in s ==> s + {x} == s && |s - {x}| == |s| - 1
    ensures x !in s ==> s - {x} == s && |s + {x}| == |s| + 1
  {
  }

  /** Only the repainted commit can join or leave the NEW-only ones. */
  lemma Repainted(flags: Flags, queued: set<Oid>, x: Oid, after: Paint)
    ensures NewOnly(flags[x := after], queued + {x}) ==
            if after == NEW then NewOnly(flags, queued) + {x} else NewOnly(flags, queued) - {x}
    ensures x in NewOnly(flags, queued) <==> x in queued && PaintOf(flags, x) == NEW
  {
  }

  lemma PassedOnMore(g: Commits, flags: Flags, x: Oid, p: Paint, y: Oid)
    requires PassedOn(g, flags, y) && x != y
    ensures PassedOn(g, flags[x := Mix(PaintOf(flags, x), p)], y)
  {
  }

  /** Painting a commit that every popped commit outranks keeps the state; no popped commit is ever repainted. */
  lemma PushKeeps(
    g: Commits, info: Cache, newTips: set<Oid>, oldTips: set<Oid>,
    flags: Flags, heap: Heap, queued: set<Oid>, newOnly: nat, ahead: seq<Oid>, done: set<Oid>, expanded: set<Oid>,
    x: Oid, p: Paint)
    requires PaintOk(g, info, newTips, oldTips, flags, heap, queued, newOnly, ahead, done, expanded)
    requires LowerThanAll(info, done, x) && PaintSound(g, newTips, oldTips, x, p) && p != NEITHER
    ensures x !in done
    ensures PaintOk(
              g, info, newTips, oldTips, flags[x := Mix(PaintOf(flags, x), p)],
              if x in queued then heap else heap + multiset{(info[x].generation, x)}, queued + {x},
              CountAfter(flags, queued, newOnly, x, p), ahead, done, expanded)
  {
    hide ReachesAny, PassedOn, FlagsOk, AheadIs, Ordered, HeapHolds, NewOnly, CountAfter, LowerThanAll, PaintSound;
    var flags' := flags[x := Mix(PaintOf(flags, x), p)];
    LowerIsNew(info, queued, done, x);
    MorePaint(g, newTips, oldTips, flags, done, ahead, x, p);
    CountStays(flags, queued, done, x, p);
    if x !in queued {
      HeapPush(info, heap, queued, x);
    } else {
      assert queued + {x} == queued;
    }
    forall y | y in expanded
      ensures PassedOn(g, flags', y)
    {
      PassedOnMore(g, flags, x, p, y);
    }
  }

  lemma LowerIsNew(info: Cache, queued: set<Oid>, done: set<Oid>, x: Oid)
    requires Ordered(info, queued, done) && LowerThanAll(info, done, x)
    ensures x !in done && x in info && Ordered(info, queued + {x}, done)
  {
  }

  lemma MorePaint(
    g: Commits, newTips: set<Oid>, oldTips: set<Oid>, flags: Flags, done: set<Oid>, ahead: seq<Oid>, x: Oid, p: Paint)
    requires FlagsOk(g, newTips, oldTips, flags, done) && AheadIs(flags, done, ahead)
    requires x !in done && PaintSound(g, newTips, oldTips, x, p) && p != NEITHER
    ensures forall y :: y in flags ==> flags[y] != NEITHER
    ensures var flags' := flags[x := Mix(PaintOf(flags, x), p)];
            FlagsOk(g, newTips, oldTips, flags', done) && AheadIs(flags', done, ahead)
  {
    hide ReachesAny;
  }

  /** The old side's reach that can still be painted from above `x`: old-painted commits and everything at or below
      the generation of `x`, except `x`. */
  lemma OldSideClosed(g: Commits, info: Cache, flags: Flags, queued: set<Oid>, done: set<Oid>, x: Oid, s: set<Oid>)
    requires CacheOk(g, info) && x in info && flags.Keys == queued + done <= info.Keys && !PaintOf(flags, x).ofOld
    requires forall z :: z in queued ==> info[z].generation <= info[x].generation
    requires forall z :: z in done ==> PassedOn(g, flags, z)
    requires s == (set z | z in info
                      && (PaintOf(flags, z).ofOld || (z != x && info[z].generation <= info[x].generation)))
    ensures Closed(g, s)
  {
    forall z, y | z in s && z in g && y in g[z]
      ensures y in s
    {
      assert y in ParentsOf(g, z);
      GenerationFalls(g, info, z, y);
      if z in done && PaintOf(flags, z).ofOld {
        assert PassedOn(g, flags, z);
      }
    }
  }

  /** The commit of greatest generation has its final paint: anything that could still reach it lies higher. */
  lemma TopIsFinal(
    g: Commits, info: Cache, oldTips: set<Oid>, flags: Flags, queued: set<Oid>, done: set<Oid>, x: Oid)
    requires CacheOk(g, info) && TipsPainted(flags, oldTips, OLD)
    requires x in info && flags.Keys == queued + done <= info.Keys
    requires forall z :: z in queued ==> info[z].generation <= info[x].generation
    requires forall z :: z in done ==> PassedOn(g, flags, z)
    requires ReachesAny(g, oldTips, x)
    ensures PaintOf(flags, x).ofOld
  {
    hide CacheOk, PassedOn, Closed;
    if !PaintOf(flags, x).ofOld {
      var t :| t in oldTips && Reaches(g, t, x);
      var s := set z | z in info && (PaintOf(flags, z).ofOld || (z != x && info[z].generation <= info[x].generation));
      OldSideClosed(g, info, flags, queued, done, x, s);
      assert t in s;
      ClosedReach(g, s, t, x);
      assert false;
    }
  }

  lemma AheadGrows(flags: Flags, done: set<Oid>, ahead: seq<Oid>, x: Oid)
    requires AheadIs(flags, done, ahead) && x !in done
    ensures AheadIs(flags, done + {x}, if PaintOf(flags, x) == NEW then ahead + [x] else ahead)
  {
    assert forall y :: y in ahead + [x] <==> y in ahead || y == x;
  }

  lemma CountFalls(flags: Flags, queued: set<Oid>, x: Oid)
    requires x in queued
    ensures |NewOnly(flags, queued)| == |NewOnly(flags, queued - {x})| + if PaintOf(flags, x) == NEW then 1 else 0
  {
    var was, now := NewOnly(flags, queued), NewOnly(flags, queued - {x});
    if PaintOf(flags, x) == NEW {
      assert x in was && now == was - {x};
    } else {
      assert now == was;
    }
  }

  lemma PopKeeps(
    g: Commits, info: Cache, newTips: set<Oid>, oldTips: set<Oid>,
    flags: Flags, heap: Heap, queued: set<Oid>, newOnly: nat, ahead: seq<Oid>, done: set<Oid>, top: (nat, Oid))
    requires CacheOk(g, info) && TipsPainted(flags, oldTips, OLD)
    requires PaintOk(g, info, newTips, oldTips, flags, heap, queued, newOnly, ahead, done, done) && IsTop(heap, top)
    ensures top.1 in flags && top.1 in queued && top.1 !in done && top.1 in info
    ensures PaintOf(flags, top.1) == NEW ==> newOnly > 0
    ensures forall d :: d in done ==> d in info && info[top.1].generation <= info[d].generation
    ensures var x, isNew := top.1, PaintOf(flags, top.1) == NEW;
            PaintOk(
              g, info, newTips, oldTips, flags, heap - multiset{top}, queued - {x},
              if isNew then newOnly - 1 else newOnly, if isNew then ahead + [x] else ahead, done + {x}, done)
  {
    hide ReachesAny, PassedOn, IsTop, CacheOk, HeapHolds, NewOnly, AheadIs, PaintSound, TipsPainted;
    var x := top.1;
    HeapPop(info, heap, queued, top);
    if ReachesAny(g, oldTips, x) {
      TopIsFinal(g, info, oldTips, flags, queued, done, x);
    }
    CountFalls(flags, queued, x);
    AheadGrows(flags, done, ahead, x);
  }

  /** Once no NEW-only commit waits, the walk has found exactly what the new tips reach and the old tips do not. */
  lemma AheadIsDifference(
    g: Commits, info: Cache, newTips: set<Oid>, oldTips: set<Oid>,
    flags: Flags, heap: Heap, queued: set<Oid>, newOnly: nat, ahead: seq<Oid>, done: set<Oid>, x: Oid)
    requires TipsPainted(flags, newTips, NEW)
    requires PaintOk(g, info, newTips, oldTips, flags, heap, queued, newOnly, ahead, done, done)
    requires NewOnly(flags, queued) == {}
    ensures x in ahead <==> ReachesAny(g, newTips, x) && !ReachesAny(g, oldTips, x)
  {
    hide HeapHolds, CacheOk, Reaches, Ordered;
    if x in ahead {
      assert PaintSound(g, newTips, oldTips, x, flags[x]);
    } else if ReachesAny(g, newTips, x) && !ReachesAny(g, oldTips, x) {
      var t :| t in newTips && Reaches(g, t, x);
      NewSideMeetsOld(g, newTips, oldTips, flags, queued, done, t, x);
    }
  }

  /** Following the new side, a walk meets only popped NEW-only commits until it enters the old side's reach. */
  lemma NewSideMeetsOld(
    g: Commits, newTips: set<Oid>, oldTips: set<Oid>, flags: Flags, queued: set<Oid>, done: set<Oid>, t: Oid, x: Oid)
    requires FlagsOk(g, newTips, oldTips, flags, done) && flags.Keys == queued + done
    requires forall z :: z in done ==> PassedOn(g, flags, z)
    requires NewOnly(flags, queued) == {} && t in flags && flags[t].ofNew && Reaches(g, t, x)
    ensures (x in done && PaintOf(flags, x) == NEW) || ReachesAny(g, oldTips, x)
  {
    var mine := set z | z in done && flags[z] == NEW;
    forall z | z in flags && flags[z].ofNew && z !in mine
      ensures ReachesAny(g, oldTips, z)
    {
      assert z in queued ==> z !in NewOnly(flags, queued);
      assert PaintSound(g, newTips, oldTips, z, flags[z]);
    }
    var p :| IsPath(g, p) && p[0] == t && p[|p| - 1] == x;
    FollowNewSide(g, oldTips, flags, mine, p);
  }

  lemma {:induction false} FollowNewSide(g: Commits, oldTips: set<Oid>, flags: Flags, mine: set<Oid>, p: seq<Oid>)
    requires IsPath(g, p)
    requires forall z :: z in mine ==> z in flags && flags[z].ofNew && PassedOn(g, flags, z)
    requires forall z :: z in flags && flags[z].ofNew && z !in mine ==> ReachesAny(g, oldTips, z)
    requires p[0] in flags && flags[p[0]].ofNew
    ensures p[|p| - 1] in mine || ReachesAny(g, oldTips, p[|p| - 1])
  {
    if |p| > 1 && p[0] in mine {
      assert p[1] in ParentsOf(g, p[0]);
      FollowNewSide(g, oldTips, flags, mine, p[1..]);
    } else if |p| > 1 {
      var t :| t in oldTips && Reaches(g, t, p[0]);
      assert Reaches(g, p[0], p[|p| - 1]);
      ReachesTrans(g, t, p[0], p[|p| - 1]);
    }
  }

  lemma PaintGrows(
    g: Commits, info: Cache, info': Cache, newTips: set<Oid>, oldTips: set<Oid>,
    flags: Flags, heap: Heap, queued: set<Oid>, newOnly: nat, ahead: seq<Oid>, done: set<Oid>, expanded: set<Oid>)
    requires PaintOk(g, info, newTips, oldTips, flags, heap, queued, newOnly, ahead, done, expanded)
    requires Extends(info, info')
    ensures PaintOk(g, info', newTips, oldTips, flags, heap, queued, newOnly, ahead, done, expanded)
  {
    hide FlagsOk, PassedOn, AheadIs, NewOnly;
    HeapStable(info, info', heap, queued);
  }

  lemma LowerGrows(info: Cache, info': Cache, done: set<Oid>, x: Oid)
    requires Extends(info, info') && x in info'
    requires done != {} ==> LowerThanAll(info, done, x)
    ensures LowerThanAll(info', done, x)
  {
  }

  lemma QueuedCached(info: Cache, heap: Heap, queued: set<Oid>, done: set<Oid>, x: Oid)
    requires HeapHolds(info, heap, queued) && x in queued
    requires done != {} ==> LowerThanAll(info, done, x)
    ensures LowerThanAll(info, done, x)
  {
  }

  /** Paint only accumulates, and popped commits keep theirs. */
  ghost predicate Darker(flags: Flags, flags': Flags, done: set<Oid>) {
    && (forall x :: x in flags ==> x in flags' && Within(flags[x], flags'[x]))
    && (forall d :: d in done ==> PaintOf(flags', d) == PaintOf(flags, d))
  }

  lemma NothingPainted(flags: Flags, done: set<Oid>, p: Paint)
    ensures TipsPainted(flags, Tips([]), p) && Darker(flags, flags, done)
  {
  }

  lemma PaintedMore(flags0: Flags, flags: Flags, done: set<Oid>, ps: set<Oid>, p: Paint, x: Oid)
    requires TipsPainted(flags, ps, p) && Darker(flags0, flags, done) && x !in done
    ensures var flags' := flags[x := Mix(PaintOf(flags, x), p)];
            TipsPainted(flags', ps + {x}, p) && Darker(flags0, flags', done)
  {
  }

  lemma StillPainted(flags: Flags, flags': Flags, done: set<Oid>, tips: set<Oid>, p: Paint)
    requires Darker(flags, flags', done) && TipsPainted(flags, tips, p)
    ensures TipsPainted(flags', tips, p)
  {
  }

  lemma AllLowerGrows(info: Cache, info': Cache, done: set<Oid>, oids: seq<Oid>)
    requires Extends(info, info')
    requires done != {} ==> forall o :: o in oids ==> LowerThanAll(info, done, o)
    ensures done != {} ==> forall o :: o in oids ==> LowerThanAll(info', done, o)
  {
    if done != {} {
      forall o | o in oids
        ensures LowerThanAll(info', done, o)
      {
        LowerGrows(info, info', done, o);
      }
    }
  }

  lemma PaintStart(g: Commits, info: Cache, newTips: set<Oid>, oldTips: set<Oid>)
    ensures PaintOk(g, info, newTips, oldTips, map[], multiset{}, {}, 0, [], {}, {})
  {
  }

  lemma TipsSound(g: Commits, newTips: seq<Oid>, oldTips: seq<Oid>)
    ensures forall t :: t in oldTips ==> PaintSound(g, Tips(newTips), Tips(oldTips), t, OLD)
    ensures forall t :: t in newTips ==> PaintSound(g, Tips(newTips), Tips(oldTips), t, NEW)
  {
    forall t | t in oldTips
      ensures ReachesAny(g, Tips(oldTips), t)
    {
      TipReached(g, oldTips, t);
    }
    forall t | t in newTips
      ensures ReachesAny(g, Tips(newTips), t)
    {
      TipReached(g, newTips, t);
    }
  }

  lemma PaintInherited(g: Commits, newTips: set<Oid>, oldTips: set<Oid>, x: Oid, p: Paint)
    requires PaintSound(g, newTips, oldTips, x, p) && x in g
    ensures forall y :: y in ParentsOf(g, x) ==> PaintSound(g, newTips, oldTips, y, p)
  {
    hide ReachesAny;
    if p.ofNew {
      ReachedParents(g, newTips, x);
    }
    if p.ofOld {
      ReachedParents(g, oldTips, x);
    }
  }

  /** A popped commit's parents rank below every popped commit, and its paint is sound for them too. */
  lemma ParentsAreLower(
    g: Commits, info: Cache, info': Cache, newTips: set<Oid>, oldTips: set<Oid>,
    flags: Flags, heap: Heap, queued: set<Oid>, newOnly: nat, ahead: seq<Oid>, done: set<Oid>, x: Oid)
    requires CacheOk(g, info) && Extends(info, info') && x in info && x !in done && x in flags
    requires PaintOk(g, info, newTips, oldTips, flags, heap, queued, newOnly, ahead, done + {x}, done)
    requires forall d :: d in done ==> d in info && info[x].generation <= info[d].generation
    ensures x in info' && info'[x].parents == ParentsOf(g, x) == g[x]
    ensures forall p :: p in ParentsOf(g, x) ==> LowerThanAll(info', done + {x}, p)
    ensures flags[x] != NEITHER
    ensures forall p :: p in ParentsOf(g, x) ==> PaintSound(g, newTips, oldTips, p, flags[x])
    ensures PaintOk(g, info', newTips, oldTips, flags, heap, queued, newOnly, ahead, done + {x}, done)
  {
    hide PaintSound, HeapHolds, AheadIs, NewOnly, CacheOk, PassedOn;
    CachedLine(g, info, x);
    PaintGrows(g, info, info', newTips, oldTips, flags, heap, queued, newOnly, ahead, done + {x}, done);
    PaintInherited(g, newTips, oldTips, x, flags[x]);
  }

  lemma ParentsComplete(g: Commits, info: Cache, x: Oid)
    requires CacheOk(g, info) && x in info
    ensures forall p :: p in ParentsOf(g, x) ==> Complete(g, p)
  {
    CachedLine(g, info, x);
    forall p | p in ParentsOf(g, x)
      ensures Complete(g, p)
    {
      CachedIsComplete(g, info, p);
    }
  }

  /** With its parents pushed, a popped commit is expanded. */
  lemma ExpandKeeps(
    g: Commits, info: Cache, newTips: set<Oid>, oldTips: set<Oid>,
    flags0: Flags, flags: Flags, heap: Heap, queued: set<Oid>, newOnly: nat, ahead: seq<Oid>, done: set<Oid>, x: Oid)
    requires PaintOk(g, info, newTips, oldTips, flags, heap, queued, newOnly, ahead, done + {x}, done)
    requires x in flags0 && x !in done && Darker(flags0, flags, done + {x}) && CacheOk(g, info) && x in info
    requires TipsPainted(flags, Tips(ParentsOf(g, x)), flags0[x])
    ensures PaintOk(g, info, newTips, oldTips, flags, heap, queued, newOnly, ahead, done + {x}, done + {x})
    ensures x in g && g.Keys - (done + {x}) < g.Keys - done
  {
    hide ReachesAny, HeapHolds, AheadIs, NewOnly, FlagsOk, Ordered;
    CachedLine(g, info, x);
    assert PassedOn(g, flags, x);
    assert x in g.Keys - done && x !in g.Keys - (done + {x});
  }

  lemma NothingNewWaits(
    g: Commits, info: Cache, newTips: set<Oid>, oldTips: set<Oid>,
    flags: Flags, heap: Heap, queued: set<Oid>, newOnly: nat, ahead: seq<Oid>, done: set<Oid>, x: Oid)
    requires TipsPainted(flags, newTips, NEW)
    requires PaintOk(g, info, newTips, oldTips, flags, heap, queued, newOnly, ahead, done, done)
    requires newOnly == 0 || heap == multiset{}
    ensures x in ahead <==> ReachesAny(g, newTips, x) && !ReachesAny(g, oldTips, x)
  {
    hide ReachesAny, Ordered, FlagsOk, PassedOn;
    if heap == multiset{} {
      HeapEmpty(info, heap, queued);
    }
    assert NewOnly(flags, queued) == {};
    AheadIsDifference(g, info, newTips, oldTips, flags, heap, queued, newOnly, ahead, done, x);
  }

  lemma AheadDistinct(
    g: Commits, info: Cache, newTips: set<Oid>, oldTips: set<Oid>,
    flags: Flags, heap: Heap, queued: set<Oid>, newOnly: nat, ahead: seq<Oid>, done: set<Oid>)
    requires PaintOk(g, info, newTips, oldTips, flags, heap, queued, newOnly, ahead, done, done)
    ensures Distinct(ahead)
  {
  }
}
