/** Runs of one-ref transitions: what was owed and is not yet recorded is never lost. */
module Obligations {
  import opened Graph
  import opened Objects
  import opened Query
  import opened Denotation
  import opened Incremental
  import opened Writeback

  /** `t` is what happened to one ref between the two states. */
  ghost predicate IsStep(was: Refs, t: Transition, now: Refs) {
    && t.before == Tip(was, t.name) && t.after == Tip(now, t.name)
    && forall n :: n != t.name ==> Tip(was, n) == Tip(now, n)
  }

  /** Both views of a step are the two states, whichever of them the ref store holds by then. */
  lemma StepViews(was: Refs, t: Transition, now: Refs, held: Refs)
    requires IsStep(was, t, now) && (held == was || held == now)
    ensures View(held, Some(t), Old) == was && View(held, Some(t), New) == now
  {
    assert forall n :: n in View(held, Some(t), Old) <==> n in was by {
      assert forall n :: n in was <==> Tip(was, n).Some?;
      assert forall n :: n in now <==> Tip(now, n).Some?;
    }
    assert forall n :: n in View(held, Some(t), New) <==> n in now by {
      assert forall n :: n in was <==> Tip(was, n).Some?;
      assert forall n :: n in now <==> Tip(now, n).Some?;
    }
    forall n | n in was
      ensures View(held, Some(t), Old)[n] == was[n]
    {
      assert n != t.name ==> Tip(was, n) == Tip(now, n);
    }
    forall n | n in now
      ensures View(held, Some(t), New)[n] == now[n]
    {
      assert n != t.name ==> Tip(was, n) == Tip(now, n);
    }
  }

  /** A run: the refs and objects it starts from, then each step with what the evaluator returned for it and what it
      leads to.  A step is judged with the objects there after it; `None` is an evaluation that failed. */
  datatype Run =
    | Start(refs: Refs, store: Store)
    | Then(before: Run, step: Transition, work: Option<set<Oid>>, refs: Refs, store: Store)

  /** What evaluating one step's work set may return. */
  ghost predicate IsStepWork(s: Store, refs: Refs, effect: string, q: Query, t: Transition, work: Option<set<Oid>>) {
    && (work.Some? ==> IsWorkSet(s, refs, effect, q, t, work.value))
    && (StepReadable(s, refs, q, t) ==> work.Some?)
  }

  ghost predicate IsRun(r: Run, effect: string, q: Query) {
    r.Then? ==>
      && IsRun(r.before, effect, q) && IsStep(r.before.refs, r.step, r.refs) && StoreGrows(r.before.store, r.store)
      && IsStepWork(r.store, r.refs, effect, q, r.step, r.work)
  }

  function First(r: Run): Run {
    match r
    case Start(_, _) => r
    case Then(before, _, _, _, _) => First(before)
  }

  ghost predicate ResultsKept(was: Refs, now: Refs, effect: string) {
    forall n :: n in was && ShortOf(effect, n) ==> n in now
  }

  ghost predicate ResultsNeverRemoved(r: Run, effect: string) {
    r.Then? ==> ResultsNeverRemoved(r.before, effect) && ResultsKept(r.before.refs, r.refs, effect)
  }

  /** Every state can be evaluated, and so can every step. */
  ghost predicate ReadableThroughout(r: Run, q: Query) {
    && Evaluable(r.store, r.refs, q)
    && (r.Then? ==> ReadableThroughout(r.before, q) && StepReadable(r.store, r.refs, q, r.step))
  }

  /** The frontier test sees every reachable entrant of every step. */
  ghost predicate ExactThroughout(r: Run, q: Query) {
    r.Then? ==> ExactThroughout(r.before, q) && ExactStep(r.store, r.refs, q, r.step)
  }

  /** A commit in the set is also reachable from some ref. */
  ghost predicate Anchored(s: Store, refs: Refs, q: Query, c: Oid) {
    Holds(s, refs, q, c) ==> InUniverse(s, refs, c)
  }

  ghost predicate AnchoredThroughout(r: Run, q: Query, c: Oid) {
    Anchored(r.store, r.refs, q, c) && (r.Then? ==> AnchoredThroughout(r.before, q, c))
  }

  /** Some step's work set lists `c`. */
  ghost predicate ScheduledSomewhere(r: Run, c: Oid) {
    r.Then? && ((r.work.Some? && c in r.work.value) || ScheduledSomewhere(r.before, c))
  }

  lemma RecordsKept(s: Store, was: Refs, now: Refs, effect: string, c: Oid)
    requires ResultsKept(was, now, effect) && HasResult(s, was, effect, Any, c)
    ensures HasResult(s, now, effect, Any, c)
  {
    var n :| Records(s, was, effect, Any, n, c);
    assert Records(s, now, effect, Any, n, c);
  }

  /** An exact step's work set lists every reachable entrant without a result. */
  lemma ExactWorkSet(s: Store, refs: Refs, effect: string, q: Query, t: Transition, work: set<Oid>, c: Oid)
    requires IsWorkSet(s, refs, effect, q, t, work) && ExactStep(s, refs, q, t)
    requires InUniverse(s, View(refs, Some(t), New), c)
    ensures c in work <==> Enters(s, refs, q, t, c) && !HasResult(s, View(refs, Some(t), New), effect, Any, c)
  {
    hide View, InUniverse, HasResult, Enters, ExactStep, IsEntrySet;
    var entered :| IsEntrySet(s, refs, q, t, entered) && AreUnrecorded(s, refs, effect, t, entered, work);
    EntrySetIsExact(s, refs, q, t, entered);
  }

  /** Over a whole run of exact, readable steps, a reachable commit owed at the end was owed at the start or is in the
      work set the evaluator returned for some step. */
  lemma {:induction false} NoObligationLost(r: Run, effect: string, q: Query, c: Oid)
    requires IsRun(r, effect, q) && ResultsNeverRemoved(r, effect)
    requires ReadableThroughout(r, q) && ExactThroughout(r, q) && AnchoredThroughout(r, q, c)
    requires InUniverse(r.store, r.refs, c) && Outstanding(r.store, r.refs, effect, q, c)
    ensures Outstanding(First(r).store, First(r).refs, effect, q, c) || ScheduledSomewhere(r, c)
    decreases r
  {
    hide InUniverse, HasResult, Holds, Denotes, View, Evaluable, StoreGrows, IsWorkSet, StepReadable, ExactStep;
    if r.Then? && c !in r.work.value {
      var was, s, s', t := r.before.refs, r.before.store, r.store, r.step;
      StepViews(was, t, r.refs, r.refs);
      MemberIsDenoted(s', r.refs, q, c);
      ExactWorkSet(s', r.refs, effect, q, t, r.work.value, c);
      GrowthKeepsMembership(s, s', was, q, c);
      GrowthKeepsResults(s, s', was, effect, Any, c);
      if HasResult(s', was, effect, Any, c) {
        RecordsKept(s', was, r.refs, effect, c);
      }
      assert Anchored(s, was, q, c);
      MemberIsDenoted(s, was, q, c);
      NoObligationLost(r.before, effect, q, c);
    }
  }

  /** What a single step does with an obligation it leaves owed: it was owed before, or the step's work set lists it,
      exactly when it was denoted before, or is new to the set, on the frontier and in the footprint.  So it is lost in
      two ways only: held before while unreachable, or entering where the incremental form does not look. */
  lemma StepKeepsObligationIff(
    s: Store, was: Refs, t: Transition, now: Refs, effect: string, q: Query, work: set<Oid>, c: Oid)
    requires IsStep(was, t, now) && ResultsKept(was, now, effect) && IsWorkSet(s, now, effect, q, t, work)
    requires Unambiguous(s, now, q, t) && InUniverse(s, now, c) && Outstanding(s, now, effect, q, c)
    ensures (Outstanding(s, was, effect, q, c) || c in work) <==>
              Denotes(s, was, q, c)
              || (!Holds(s, was, q, c) && Frontier(s, now, q, t, c) && FootprintMatches(q, t.name))
  {
    hide InUniverse, HasResult, Holds, Denotes, View, Frontier, FootprintMatches, Unambiguous, IsCandidates;
    StepViews(was, t, now, now);
    MemberIsDenoted(s, now, q, c);
    if HasResult(s, was, effect, Any, c) {
      RecordsKept(s, was, now, effect, c);
    }
    var entered :| IsEntrySet(s, now, q, t, entered) && AreUnrecorded(s, now, effect, t, entered, work);
    if FootprintMatches(q, t.name) {
      var cands :| IsCandidates(s, View(now, Some(t), New), q, t, cands) && AreEntrants(s, now, q, t, cands, entered);
      CandidatesAreFrontier(s, now, q, t, cands);
    }
  }
}
