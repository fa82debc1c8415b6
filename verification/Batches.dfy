/** Transactions that move several refs: each movement is judged by itself, with all the others already made. */
module Batches {
  import opened Graph
  import opened Objects
  import opened Query
  import opened Denotation
  import opened Incremental
  import opened Obligations
  import opened Writeback
  import Pattern

  /** `ts` is what happened to the refs of one transaction between the two states. */
  ghost predicate IsBatch(was: Refs, ts: seq<Transition>, now: Refs) {
    && (forall t :: t in ts ==> t.before == Tip(was, t.name) && t.after == Tip(now, t.name))
    && (forall n :: (forall t :: t in ts ==> t.name != n) ==> Tip(now, n) == Tip(was, n))
  }

  /** The work sets the transaction's movements yield, each computed on the refs as they are after all of them. */
  ghost predicate AreBatchWork(
    s: Store, now: Refs, effect: string, q: Query, ts: seq<Transition>, works: seq<set<Oid>>)
  {
    |works| == |ts| && forall i :: 0 <= i < |ts| ==> IsWorkSet(s, now, effect, q, ts[i], works[i])
  }

  /** Some movement alone is what brings `c` in: with it undone and the rest kept, `c` is out. */
  ghost predicate HingesOnOne(s: Store, now: Refs, q: Query, ts: seq<Transition>, c: Oid) {
    exists i :: 0 <= i < |ts| && !Holds(s, View(now, Some(ts[i]), Old), q, c)
  }

  lemma AfterIsNow(was: Refs, ts: seq<Transition>, now: Refs, t: Transition)
    requires IsBatch(was, ts, now) && t in ts
    ensures View(now, Some(t), New) == now
  {
    assert t.after == Tip(now, t.name);
  }

  /** A transaction of exact movements schedules a reachable commit it leaves owed if and only if some one movement,
      undone by itself, would take the commit out again. */
  lemma BatchSchedulesIff(
    s: Store, was: Refs, ts: seq<Transition>, now: Refs, effect: string, q: Query, works: seq<set<Oid>>, c: Oid)
    requires IsBatch(was, ts, now) && AreBatchWork(s, now, effect, q, ts, works)
    requires forall i :: 0 <= i < |ts| ==> ExactStep(s, now, q, ts[i])
    requires InUniverse(s, now, c) && Outstanding(s, now, effect, q, c)
    ensures (exists i :: 0 <= i < |works| && c in works[i]) <==> HingesOnOne(s, now, q, ts, c)
  {
    hide View, InUniverse, HasResult, Holds, Denotes, ExactStep, IsWorkSet;
    MemberIsDenoted(s, now, q, c);
    forall i | 0 <= i < |ts|
      ensures c in works[i] <==> !Holds(s, View(now, Some(ts[i]), Old), q, c)
    {
      AfterIsNow(was, ts, now, ts[i]);
      ExactWorkSet(s, now, effect, q, ts[i], works[i], c);
    }
  }

  /** Two branches created at one commit in a single transaction: the glob trigger owes the commit afterwards and not
      before, each movement is exact, and neither schedules it. */
  lemma JointMoveIsMissed(c: Oid, tree: Oid, works: seq<set<Oid>>)
    requires var s := map[c := Commit(tree, [], "")];
             var now, q := map["refs/heads/a" := c, "refs/heads/b" := c], BranchesQuery();
             var ts := [Transition("refs/heads/a", None, Some(c)), Transition("refs/heads/b", None, Some(c))];
             AreBatchWork(s, now, "unit", q, ts, works)
    ensures var s := map[c := Commit(tree, [], "")];
            var was: Refs, now, q := map[], map["refs/heads/a" := c, "refs/heads/b" := c], BranchesQuery();
            var ts := [Transition("refs/heads/a", None, Some(c)), Transition("refs/heads/b", None, Some(c))];
            && IsBatch(was, ts, now)
            && !Outstanding(s, was, "unit", q, c) && Outstanding(s, now, "unit", q, c) && InUniverse(s, now, c)
            && (forall i :: 0 <= i < |ts| ==> ExactStep(s, now, q, ts[i]))
            && forall i :: 0 <= i < |works| ==> c !in works[i]
  {
    hide Reaches, ShortOf, Short, IsWorkSet, HasResult, Holds, View, ExactStep, InUniverse, BranchesQuery, TermTips;
    var s := map[c := Commit(tree, [], "")];
    var was: Refs, now, q := map[], map["refs/heads/a" := c, "refs/heads/b" := c], BranchesQuery();
    var a, b := Transition("refs/heads/a", None, Some(c)), Transition("refs/heads/b", None, Some(c));
    var ts := [a, b];
    assert ts[0] == a && ts[1] == b && IsBatch(was, ts, now);
    BranchHolds(s, now, "refs/heads/a", c);
    OneUndone(s, now, a, "refs/heads/b", c);
    OneUndone(s, now, b, "refs/heads/a", c);
    NothingHolds(s, c);
    NoBranchResult(now, "unit");
    BranchesAreExact(s, now, a);
    BranchesAreExact(s, now, b);
    BranchesDenote(s, now, c);
    BranchesDenote(s, was, c);
    forall i | 0 <= i < |works|
      ensures c !in works[i]
    {
      AfterIsNow(was, ts, now, ts[i]);
      ExactWorkSet(s, now, "unit", q, ts[i], works[i], c);
    }
  }

  /** The other branch keeps the commit in. */
  lemma OneUndone(s: Store, now: Refs, t: Transition, other: string, c: Oid)
    requires t.before == None && other != t.name && other in now && now[other] == c && "refs/heads/" <= other
    ensures Holds(s, View(now, Some(t), Old), BranchesQuery(), c)
  {
    hide Holds, BranchesQuery;
    BranchHolds(s, View(now, Some(t), Old), other, c);
  }

  lemma BranchesAreExact(s: Store, refs: Refs, t: Transition)
    ensures ExactStep(s, refs, BranchesQuery(), t)
  {
    hide View;
  }

  lemma BranchesDenote(s: Store, view: Refs, c: Oid)
    ensures Denotes(s, view, BranchesQuery(), c) <==> Holds(s, view, BranchesQuery(), c)
  {
    hide TermsReach;
  }

  // rev over every branch
  function BranchesQuery(): Query {
    Rev(RevExpr([Glob("refs/heads/*")], [], "refs/heads/*"))
  }

  lemma BranchHolds(s: Store, view: Refs, name: string, c: Oid)
    requires name in view && view[name] == c && "refs/heads/" <= name
    ensures Holds(s, view, BranchesQuery(), c) && InUniverse(s, view, c)
  {
    hide Reaches, Pattern.Matches;
    var term, head := Glob("refs/heads/*"), "refs/heads/";
    assert name == head + name[|head|..] && head + "*" == "refs/heads/*";
    PrefixStarMatches(head, name[|head|..]);
    BranchIsNoMeta(name);
    assert GlobSelects("refs/heads/*", name);
    assert view[name] in TermTips(view, term) && view[name] in RefTips(view);
    ReachesSelf(CommitGraph(s), c);
    assert TermReaches(CommitGraph(s), view, term, c);
    assert term in [term];
    assert !TermsReach(CommitGraph(s), view, [], c);
  }

  lemma BranchIsNoMeta(name: string)
    requires "refs/heads/" <= name
    ensures "refs/" <= name && !("refs/meta/" <= name)
  {
    assert "refs/heads/"[..5] == "refs/" && name[5] == 'h' && "refs/meta/"[5] == 'm';
  }

  lemma NothingHolds(s: Store, c: Oid)
    ensures !Holds(s, map[], BranchesQuery(), c)
  {
    assert TermTips(map[], Glob("refs/heads/*")) == {};
  }

  lemma NoBranchResult(now: Refs, effect: string)
    requires forall n :: n in now ==> "refs/heads/" <= n
    ensures forall s, c :: !HasResult(s, now, effect, Any, c)
  {
    forall n | n in now
      ensures !ShortOf(effect, n)
    {
      assert n[5] == 'h' && ResultsPrefix(effect)[5] == 'm';
    }
  }
}
