/** Running an effect over everything it owes, and the hosted drain. */
module RunLoop {
  import opened Graph
  import opened Objects
  import opened Query
  import opened Denotation
  import opened Incremental
  import opened Writeback
  import opened Parse
  import opened RoundTrip
  import opened Dependencies
  import CommitCache
  import Gate
  import GateTables
  import Eval

  /** How writing one result back ends: applied or declined by `receive`; or with an error, before the commit was
      stored, before the ref moved, or after it moved, while effects were matched against the step. */
  datatype Delivery = Applied | Declined | Unstored | FailedBefore | FailedAfter

  /** What the loop cannot see into, by attempt number: `execute` is checkout and sandbox together, `None` an
      infrastructure failure.  `age` orders ids by the hashing that made them. */
  datatype World = World(
    execute: (nat, Oid) -> Option<Status>,
    deliver: (nat, string) -> Delivery,
    hash: Object -> Oid,
    encode: ResultRecord -> Object,
    seal: (Oid, seq<Oid>, Status) -> Bytes,
    validName: string -> bool,
    age: Oid -> nat)

  /** Object ids are collision-free, a commit's id hashes its parents' ids, and a serialized record decodes to itself.
      */
  ghost predicate Sound(world: World) {
    && (forall x: Object, y: Object :: world.hash(x) == world.hash(y) ==> x == y)
    && (forall x: Object, p: Oid :: x.Commit? && p in x.parents ==> world.age(p) < world.age(world.hash(x)))
    && (forall r: ResultRecord :: world.encode(r).Tree? && world.encode(r).typed.result == Some(r))
  }

  ghost predicate Addressed(world: World, s: Store) {
    forall o :: o in s ==> world.hash(s[o]) == o
  }

  datatype RunError =
    | Unevaluable
    | MissingCommit(oid: Oid)
    | NotACommit(oid: Oid)
    | BadRefname(oid: Oid)
    | Infrastructure(oid: Oid)
    | WriteBack(oid: Oid)

  /** The objects and refs of a repository at one moment. */
  datatype Repo = Repo(store: Store, refs: Refs)

  /** An effect run: for the canonical results, or for the mirror of the member running on its own account. */
  datatype Job = Job(owner: Option<string>, effect: string, trigger: Query)

  function TargetName(owner: Option<string>, effect: string, o: Oid): string {
    match owner
    case None => ResultName(effect, o)
    case Some(member) => "refs/meta/self/" + member + "/" + effect + "/" + ShortOid(o)
  }

  lemma MirrorIsNoResult(member: string, effect: string, other: string, o: Oid)
    ensures !ShortOf(other, TargetName(Some(member), effect, o))
  {
    var name := TargetName(Some(member), effect, o);
    assert name[10] == 's' && ResultsPrefix(other)[10] == 'r';
  }

  lemma TargetIsMeta(owner: Option<string>, effect: string, o: Oid)
    ensures "refs/meta/" <= TargetName(owner, effect, o) && "refs/" <= TargetName(owner, effect, o)
  {
    assert "refs/meta/"[..5] == "refs/";
  }

  /** The ref a result goes to is the one the gate binds its record to: under the effect and the commit's first twelve
      digits, canonical or in the member's own segment. */
  lemma TargetIsBoundIff(
    env: Gate.Env, s: Store, owner: Option<string>, effect: string, o: Oid, tip: Oid, signer: string)
    requires IsOid(o) && GateTables.OneSegment(effect) && (owner.Some? ==> '/' !in owner.value)
    requires tip in s && s[tip].Commit? && GateTables.SaysHex(s, s[tip].tree, "target", o.hex)
    requires GateTables.Says(env, s, s[tip].tree, "effect", effect)
    requires s[tip].parents == [] ==> GateTables.StrictlyHolds(s, s[tip].tree, {"effect", "target", "status"})
    ensures Gate.Bound(env, s, TargetName(owner, effect, o), tip, signer) == Ok(true) <==>
              owner.None? || signer == owner.value
  {
    hide Gate.Bound, GateTables.Says, GateTables.SaysHex, GateTables.StrictlyHolds;
    var short := o.hex[..12];
    assert ShortOid(o) == short && forall c :: c in short ==> c in o.hex;
    assert GateTables.ResultSays(env, s, tip, effect, short);
    match owner
    case None => GateTables.ResultIsBoundIff(env, s, effect, short, tip, signer);
    case Some(member) => GateTables.MirrorIsBoundIff(env, s, member, effect, short, tip, signer);
  }

  // -- conservation ---------------------------------------------------------------------------

  /** An effect and the commit it is to run on. */
  type Obligation = (string, Oid)

  /** The trigger can be evaluated, every ref's history is there, and the trigger looks at the result refs of the
      obligations through `results` atoms only, if at all. */
  ghost predicate Calm(a: Repo, job: Job, due: set<Obligation>) {
    && Evaluable(a.store, a.refs, job.trigger) && RefsComplete(a.store, a.refs)
    && forall p :: p in due ==> IsOid(p.1) && ReadsAsResult(job.trigger, TargetName(job.owner, p.0, p.1))
  }

  /** The effect's own canonical result ref for `c` moved. */
  predicate Discharged(job: Job, moved: set<Obligation>, c: Oid) {
    job.owner.None? && (job.effect, c) in moved
  }

  /** No result that moved speaks of `c`, other than the effect's own on it and those the trigger does not read.  A
      mirror speaks of no commit. */
  predicate Untouched(job: Job, moved: set<Obligation>, c: Oid) {
    job.owner.None? ==> forall p :: p in moved ==> OneUntouched(job, p, c)
  }

  predicate OneUntouched(job: Job, p: Obligation, c: Oid) {
    ShortOid(p.1) <= c.hex ==> if p.0 == job.effect then c == p.1 else Overlooks(job.trigger, ResultName(p.0, p.1))
  }

  /** What the effect owes on `c` at the end: what it owed before, unless its canonical result ref for `c` moved. */
  ghost predicate Conserved(a: Repo, b: Repo, job: Job, moved: set<Obligation>, c: Oid) {
    && (Outstanding(b.store, b.refs, job.effect, job.trigger, c) <==>
          Outstanding(a.store, a.refs, job.effect, job.trigger, c) && !Discharged(job, moved, c))
    && if Discharged(job, moved, c) then HasResult(b.store, b.refs, job.effect, Any, c)
       else Steady(b.store, b.refs, job.trigger, c)
  }

  ghost predicate ConservedAll(a: Repo, b: Repo, job: Job, moved: set<Obligation>) {
    && Evaluable(b.store, b.refs, job.trigger) && RefsComplete(b.store, b.refs)
    && forall c :: Steady(a.store, a.refs, job.trigger, c) && Untouched(job, moved, c) ==>
         Conserved(a, b, job, moved, c)
  }

  /** Calm runs conserve the obligations of the job's effect. */
  ghost predicate Kept(a: Repo, b: Repo, job: Job, due: set<Obligation>, moved: set<Obligation>) {
    Calm(a, job, due) ==> ConservedAll(a, b, job, moved)
  }

  /** Calm runs conserve the obligations of every effect, whichever effects they run. */
  ghost predicate AllKept(a: Repo, b: Repo, owner: Option<string>, due: set<Obligation>, moved: set<Obligation>) {
    forall job: Job :: job.owner == owner ==> Kept(a, b, job, due, moved)
  }

  lemma KeptAtStart(a: Repo, owner: Option<string>, due: set<Obligation>)
    ensures AllKept(a, a, owner, due, {})
  {
  }

  /** Every parsed trigger is calm, whatever results it reads, wherever it can be evaluated. */
  lemma ParsedIsCalm(rule: SegmentRule, a: Repo, effect: string, trigger: Query, due: set<Obligation>)
    requires Canonical(rule, trigger) && Evaluable(a.store, a.refs, trigger) && RefsComplete(a.store, a.refs)
    requires forall p :: p in due ==> IsOid(p.1)
    ensures Calm(a, Job(None, effect, trigger), due)
  {
    hide Canonical, Evaluable, RefsComplete, IsOid, ReadsAsResult;
    forall p | p in due
      ensures ReadsAsResult(trigger, TargetName(None, p.0, p.1))
    {
      ParsedReadsAsResult(rule, trigger, p.0, p.1);
    }
  }

  /** Where a parsed trigger names none of the effects that ran but its own, only shared short oids can touch a commit.
      */
  lemma ParsedUntouched(rule: SegmentRule, job: Job, moved: set<Obligation>, c: Oid)
    requires Canonical(rule, job.trigger) && forall p :: p in moved ==> IsOid(p.1)
    requires forall p :: p in moved && ShortOid(p.1) <= c.hex ==>
               if p.0 == job.effect then c == p.1 else !DependsOn(job.trigger, p.0)
    ensures Untouched(job, moved, c)
  {
    hide Canonical, IsOid, Overlooks, DependsOn, ResultName, ShortOid;
    forall p | p in moved
      ensures OneUntouched(job, p, c)
    {
      ParsedOverlooksIff(rule, job.trigger, p.0, p.1);
    }
  }

  lemma KeptByGrowth(a: Repo, b: Repo, c: Repo, job: Job, due: set<Obligation>, moved: set<Obligation>)
    requires Kept(a, b, job, due, moved) && StoreGrows(b.store, c.store) && c.refs == b.refs
    ensures Kept(a, c, job, due, moved)
  {
    hide Evaluable, Outstanding, Steady, RefsComplete, StoreGrows, Untouched, Calm;
    if Calm(a, job, due) {
      GrowthKeepsRefs(b.store, c.store, b.refs);
      GrowthKeepsMembership(b.store, c.store, b.refs, job.trigger, Oid(""));
      forall x | Steady(a.store, a.refs, job.trigger, x) && Untouched(job, moved, x)
        ensures Conserved(a, c, job, moved, x)
      {
        assert Conserved(a, b, job, moved, x);
        if Discharged(job, moved, x) {
          ResultStays(b, c, job.effect, x);
          NotOwed(c, job, x);
        } else {
          GrowthKeepsObligation(b.store, c.store, b.refs, job.effect, job.trigger, x);
        }
      }
    }
  }

  lemma NotOwed(b: Repo, job: Job, x: Oid)
    requires HasResult(b.store, b.refs, job.effect, Any, x)
    ensures !Outstanding(b.store, b.refs, job.effect, job.trigger, x)
  {
  }

  /** A recorded result stays recorded as long as refs only move. */
  lemma ResultStays(b: Repo, c: Repo, effect: string, x: Oid)
    requires HasResult(b.store, b.refs, effect, Any, x) && forall n :: n in b.refs ==> n in c.refs
    ensures HasResult(c.store, c.refs, effect, Any, x)
  {
    hide ShortOf, Short;
    var n :| Records(b.store, b.refs, effect, Any, n, x);
    assert Records(c.store, c.refs, effect, Any, n, x);
  }

  /** The result ref moved to a sealed commit of the record, on top of the tip it had. */
  ghost predicate Recorded(b: Repo, c: Repo, name: string, tip: Oid, record: ResultRecord) {
    && StoreGrows(b.store, c.store) && c.refs == b.refs[name := tip] && RecordOf(c.store, tip) == Some(record)
    && c.store[tip].parents == (if name in b.refs then [b.refs[name]] else [])
  }

  lemma RecordedMoves(b: Repo, c: Repo, name: string, tip: Oid, record: ResultRecord)
    requires Recorded(b, c, name, tip, record)
    ensures StatusOf(c.store, tip).Some? && c.refs == b.refs[name := tip] && RecordOf(c.store, tip) == Some(record)
  {
  }

  lemma KeptByWrite(
    a: Repo, b: Repo, c: Repo, job: Job, due: set<Obligation>, moved: set<Obligation>, item: Obligation, tip: Oid,
    record: ResultRecord)
    requires Kept(a, b, job, due, moved) && item in due
    requires Recorded(b, c, TargetName(job.owner, item.0, item.1), tip, record)
    ensures Kept(a, c, job, due, moved + {item})
  {
    hide Evaluable, Outstanding, Steady, RefsComplete, Wrote, ReadsAsResult, IsOid, TargetName, Recorded, Untouched,
      StatusOf, Overlooks;
    if Calm(a, job, due) {
      var name := TargetName(job.owner, item.0, item.1);
      RecordedIsWrite(b, c, job.owner, item, tip, record);
      RecordedMoves(b, c, name, tip, record);
      RefsCompleteKept(b.store, b.refs, name, tip, c.store, c.refs);
      WriteEvaluable(b, c, job, item, tip);
      forall x | Steady(a.store, a.refs, job.trigger, x) && Untouched(job, moved + {item}, x)
        ensures Conserved(a, c, job, moved + {item}, x)
      {
        UntouchedSplits(job, moved, item, x);
        assert Conserved(a, b, job, moved, x);
        if Discharged(job, moved, x) {
          ResultStays(b, c, job.effect, x);
          NotOwed(c, job, x);
        } else {
          WriteConserves(b, c, job, item, tip, x);
        }
      }
    }
  }

  lemma UntouchedSplits(job: Job, moved: set<Obligation>, item: Obligation, x: Oid)
    requires Untouched(job, moved + {item}, x)
    ensures Untouched(job, moved, x) && (job.owner.None? ==> OneUntouched(job, item, x))
  {
    hide OneUntouched;
  }

  /** No atom of a query but a meta one can see a mirror. */
  lemma MirrorIsOverlooked(job: Job, item: Obligation)
    requires job.owner.Some? && ReadsAsResult(job.trigger, TargetName(job.owner, item.0, item.1))
    ensures Overlooks(job.trigger, TargetName(job.owner, item.0, item.1))
    ensures !ShortOf(job.effect, TargetName(job.owner, item.0, item.1))
  {
    hide ReadsAsResult, Overlooks, ShortOf, TargetName;
    var name := TargetName(job.owner, item.0, item.1);
    forall other
      ensures !ShortOf(other, name)
    {
      MirrorIsNoResult(job.owner.value, item.0, other, item.1);
    }
    OverlooksUnlessResult(job.trigger, name);
  }

  lemma WriteEvaluable(b: Repo, c: Repo, job: Job, item: Obligation, tip: Oid)
    requires Wrote(b.store, b.refs, TargetName(job.owner, item.0, item.1), tip, c.store, c.refs) && IsOid(item.1)
    requires ReadsAsResult(job.trigger, TargetName(job.owner, item.0, item.1)) && StatusOf(c.store, tip).Some?
    requires Evaluable(b.store, b.refs, job.trigger)
    ensures Evaluable(c.store, c.refs, job.trigger)
  {
    hide Evaluable, Wrote, ReadsAsResult, Overlooks, IsOid, TargetName, ShortOf, StatusOf;
    if job.owner.None? {
      CanonicalTarget(item.0, item.1);
      StillEvaluable(b.store, b.refs, item.0, item.1, tip, c.store, c.refs, job.trigger);
    } else {
      MirrorIsOverlooked(job, item);
      MembershipKept(
        b.store, b.refs, TargetName(job.owner, item.0, item.1), tip, c.store, c.refs, job.trigger, item.1);
    }
  }

  /** One write discharges its own effect's canonical obligation on its target, and none of any effect on a commit it
      does not touch; a mirror discharges none. */
  lemma WriteConserves(b: Repo, c: Repo, job: Job, item: Obligation, tip: Oid, x: Oid)
    requires Wrote(b.store, b.refs, TargetName(job.owner, item.0, item.1), tip, c.store, c.refs) && IsOid(item.1)
    requires ReadsAsResult(job.trigger, TargetName(job.owner, item.0, item.1)) && StatusOf(c.store, tip).Some?
    requires Evaluable(b.store, b.refs, job.trigger) && Steady(b.store, b.refs, job.trigger, x)
    requires job.owner.None? ==> OneUntouched(job, item, x)
    ensures Conserved(b, c, job, {item}, x)
  {
    hide Evaluable, Outstanding, Steady, Wrote, ReadsAsResult, Overlooks, IsOid, TargetName, ShortOf, ShortOid,
      StatusOf, HasResult;
    var name := TargetName(job.owner, item.0, item.1);
    if job.owner.Some? {
      MirrorIsOverlooked(job, item);
      MirrorKeepsObligation(b, c, job, name, tip, x);
    } else {
      CanonicalTarget(item.0, item.1);
      if item.0 == job.effect {
        WriteDischarges(b.store, b.refs, job.effect, item.1, tip, c.store, c.refs, job.trigger, x);
      } else if ShortOid(item.1) <= x.hex {
        OtherEffectsRef(job.effect, item.0, item.1);
        MirrorKeepsObligation(b, c, job, name, tip, x);
      } else {
        WriteKeepsOthers(b.store, b.refs, item.0, item.1, tip, c.store, c.refs, job.effect, job.trigger, x);
      }
    }
  }

  lemma CanonicalTarget(effect: string, o: Oid)
    ensures TargetName(None, effect, o) == ResultName(effect, o)
  {
  }

  /** A write to a ref that is no canonical result of the effect, such as a self-run mirror, discharges none of its
      obligations. */
  lemma MirrorKeepsObligation(b: Repo, c: Repo, job: Job, name: string, tip: Oid, x: Oid)
    requires Wrote(b.store, b.refs, name, tip, c.store, c.refs) && !ShortOf(job.effect, name)
    requires Overlooks(job.trigger, name)
    requires Evaluable(b.store, b.refs, job.trigger) && Steady(b.store, b.refs, job.trigger, x)
    ensures Outstanding(c.store, c.refs, job.effect, job.trigger, x) <==>
              Outstanding(b.store, b.refs, job.effect, job.trigger, x)
    ensures Steady(c.store, c.refs, job.trigger, x)
  {
    hide Wrote, Evaluable, Overlooks, InUniverse, Denotes, Holds, NoClash, HasResult, ShortOf;
    MembershipKept(b.store, b.refs, name, tip, c.store, c.refs, job.trigger, x);
    if InUniverse(b.store, b.refs, x) {
      UniverseKept(b.store, b.refs, name, tip, c.store, c.refs, x);
    } else {
      NoClashKept(b.store, b.refs, name, tip, c.store, c.refs, job.trigger, x);
    }
    SteadyDenotes(b.store, b.refs, job.trigger, x);
    SteadyDenotes(c.store, c.refs, job.trigger, x);
    ResultsKeptElsewhere(b.store, b.refs, name, tip, c.store, c.refs, job.effect, Any, x);
  }

  lemma SealedIsComplete(s: Store, tip: Oid, parents: seq<Oid>)
    requires tip in s && s[tip].Commit? && s[tip].parents == parents
    requires forall p :: p in parents ==> Complete(CommitGraph(s), p)
    ensures Complete(CommitGraph(s), tip)
  {
    var g := CommitGraph(s);
    forall x | Reaches(g, tip, x)
      ensures x in g
    {
      if x != tip {
        ReachesUnfold(g, tip, x);
      }
    }
  }

  /** A sealed result on a ref whose history is all there keeps the tip it replaces, with all its history. */
  lemma RecordedIsWrite(b: Repo, c: Repo, owner: Option<string>, item: Obligation, tip: Oid, record: ResultRecord)
    requires Recorded(b, c, TargetName(owner, item.0, item.1), tip, record) && RefsComplete(b.store, b.refs)
    ensures Wrote(b.store, b.refs, TargetName(owner, item.0, item.1), tip, c.store, c.refs)
  {
    hide Complete, Reaches, StoreGrows, TargetName;
    var name, g := TargetName(owner, item.0, item.1), CommitGraph(c.store);
    TargetIsMeta(owner, item.0, item.1);
    GraphGrows(b.store, c.store);
    if name in b.refs {
      var was := b.refs[name];
      assert was in RefTips(b.refs);
      CompleteGrows(CommitGraph(b.store), g, was);
      ReachesSelf(g, was);
      assert was in g[tip];
      ReachesViaParent(g, tip, was, was);
    }
    SealedIsComplete(c.store, tip, c.store[tip].parents);
  }

  // -- what hashing gives -----------------------------------------------------------------------

  lemma {:induction false} PathsGetYounger(world: World, s: Store, p: seq<Oid>)
    requires Sound(world) && Addressed(world, s) && IsPath(CommitGraph(s), p)
    ensures |p| == 1 || world.age(p[|p| - 1]) < world.age(p[0])
  {
    if |p| > 1 {
      PathsGetYounger(world, s, p[1..]);
      assert world.hash(s[p[0]]) == p[0];
    }
  }

  /** Ids that hash their parents' ids admit no cycle. */
  lemma AddressedIsAcyclic(world: World, s: Store)
    requires Sound(world) && Addressed(world, s)
    ensures Acyclic(CommitGraph(s))
  {
    hide Sound;
    var g := CommitGraph(s);
    forall x, y | x in g && y in g[x]
      ensures !Reaches(g, y, x)
    {
      if Reaches(g, y, x) {
        var p :| IsPath(g, p) && p[0] == y && p[|p| - 1] == x;
        var q := [x] + p;
        assert q[1..] == p && IsPath(g, q);
        PathsGetYounger(world, s, q);
        assert false;
      }
    }
  }

  /** One more commit adds its own id and its parents' to those the graph mentions. */
  lemma NodesOfOneMore(world: World, s: Store, o: Object)
    requires Sound(world) && Addressed(world, s)
    ensures var s' := s[world.hash(o) := o];
            && StoreGrows(s, s') && Addressed(world, s')
            && Nodes(CommitGraph(s')) <=
                 Nodes(CommitGraph(s)) + (if o.Commit? then {world.hash(o)} + Tips(o.parents) else {})
  {
    var s' := s[world.hash(o) := o];
    var g, g' := CommitGraph(s), CommitGraph(s');
    assert world.hash(o) in s ==> s[world.hash(o)] == o;
    forall x | x in Nodes(g')
      ensures x in Nodes(g) + (if o.Commit? then {world.hash(o)} + Tips(o.parents) else {})
    {
      if x in g' {
        assert x == world.hash(o) || x in g;
      } else {
        var y :| y in g' && x in g'[y];
        assert y == world.hash(o) || (y in g && x in g[y]);
      }
    }
  }

  // -- attempts ------------------------------------------------------------------------------------

  /** One try at one commit: what it returned, the refs before and after, and the objects it read the commit from. */
  datatype Attempt = Attempt(
    effect: string, oid: Oid, name: string, outcome: Result<bool, RunError>, before: Refs, after: Refs, seen: Store)

  /** The run got as far as writing its result back. */
  predicate Executed(world: World, k: nat, a: Attempt) {
    world.validName(a.name) && a.oid in a.seen && a.seen[a.oid].Commit? && world.execute(k, a.oid).Some?
  }

  /** The result ref moved, whether or not the try returned an error afterwards. */
  predicate Moved(world: World, k: nat, a: Attempt) {
    Executed(world, k, a) && world.deliver(k, a.name) in {Applied, FailedAfter}
  }

  /** What a try that ran to a status has to record: its effect, its commit, and the status that execution returned. */
  function RecordBy(world: World, k: nat, a: Attempt): (record: Option<ResultRecord>)
    ensures Moved(world, k, a) ==> record.Some?
  {
    match world.execute(k, a.oid)
    case None => None
    case Some(status) => Some(ResultRecord(a.effect, a.oid, status))
  }

  function OutcomeOf(world: World, k: nat, a: Attempt): Result<bool, RunError> {
    if !world.validName(a.name) then Err(BadRefname(a.oid))
    else if a.oid !in a.seen then Err(MissingCommit(a.oid))
    else if !a.seen[a.oid].Commit? then Err(NotACommit(a.oid))
    else if world.execute(k, a.oid).None? then Err(Infrastructure(a.oid))
    else
      match world.deliver(k, a.name)
      case Applied => Ok(true)
      case Declined => Ok(false)
      case _ => Err(WriteBack(a.oid))
  }

  /** The `k`-th try went as the world has it, and moved no ref but its own. */
  ghost predicate IsAttempt(world: World, k: nat, owner: Option<string>, a: Attempt) {
    && a.name == TargetName(owner, a.effect, a.oid) && a.outcome == OutcomeOf(world, k, a)
    && (Moved(world, k, a) ==> a.name in a.after && a.after == a.before[a.name := a.after[a.name]])
    && (!Moved(world, k, a) ==> a.after == a.before)
  }

  /** The tries of one call, in order and without gaps, from the first refs to the last; only the last may fail. */
  ghost predicate Traced(world: World, k: nat, owner: Option<string>, trace: seq<Attempt>, was: Refs, now: Refs)
    decreases |trace|
  {
    if trace == [] then now == was
    else
      var init, last := trace[..|trace| - 1], trace[|trace| - 1];
      && Traced(world, k, owner, init, was, last.before) && AllSucceeded(init)
      && IsAttempt(world, k + |init|, owner, last) && last.after == now
  }

  predicate AllSucceeded(trace: seq<Attempt>) {
    forall a :: a in trace ==> a.outcome.Ok?
  }

  /** The obligations whose result refs moved. */
  ghost function MovedOf(world: World, k: nat, trace: seq<Attempt>): set<Obligation>
    decreases |trace|
  {
    if trace == [] then {}
    else
      var init, last := trace[..|trace| - 1], trace[|trace| - 1];
      MovedOf(world, k, init) + (if Moved(world, k + |init|, last) then {(last.effect, last.oid)} else {})
  }

  ghost function Due(effect: string, batch: seq<Oid>): set<Obligation> {
    set o | o in batch :: (effect, o)
  }

  function Tried(trace: seq<Attempt>): (oids: seq<Oid>)
    ensures |oids| == |trace|
    ensures forall i :: 0 <= i < |trace| ==> oids[i] == trace[i].oid
  {
    seq(|trace|, i requires 0 <= i < |trace| => trace[i].oid)
  }

  lemma TracedMore(world: World, k: nat, owner: Option<string>, trace: seq<Attempt>, was: Refs, a: Attempt)
    requires Traced(world, k, owner, trace, was, a.before) && AllSucceeded(trace)
    requires IsAttempt(world, k + |trace|, owner, a)
    ensures Traced(world, k, owner, trace + [a], was, a.after)
    ensures MovedOf(world, k, trace + [a]) ==
            MovedOf(world, k, trace) + (if Moved(world, k + |trace|, a) then {(a.effect, a.oid)} else {})
    ensures Tried(trace + [a]) == Tried(trace) + [a.oid]
    ensures AllSucceeded(trace + [a]) <==> a.outcome.Ok?
  {
    hide IsAttempt, Moved;
    assert (trace + [a])[..|trace|] == trace && a in trace + [a];
  }

  /** In a trace whose tries all found their ref absent, no ref moves twice, and none that was there moves at all. */
  lemma {:induction false} AbsentRefsMoveOnce(
    world: World, k: nat, owner: Option<string>, trace: seq<Attempt>, was: Refs, now: Refs, i: nat)
    requires Traced(world, k, owner, trace, was, now) && forall a :: a in trace ==> a.name !in a.before
    ensures forall n :: n in was ==> n in now && now[n] == was[n]
    ensures i < |trace| && Moved(world, k + i, trace[i]) ==>
              trace[i].name in now && forall j :: i < j < |trace| ==> trace[j].name != trace[i].name
    decreases |trace|
  {
    hide OutcomeOf, Executed, AllSucceeded, TargetName;
    if trace != [] {
      var init, last := trace[..|trace| - 1], trace[|trace| - 1];
      assert last in trace && last.name !in last.before;
      assert forall a :: a in init ==> a in trace;
      AbsentRefsMoveOnce(world, k, owner, init, was, last.before, i);
      if i < |init| {
        assert init[i] == trace[i] && forall j :: i < j < |init| ==> init[j] == trace[j];
      }
    }
  }

  // -- the loop ----------------------------------------------------------------------------------

  /** The members of a set, each once. */
  method Listed(s: set<Oid>) returns (list: seq<Oid>)
    ensures forall c :: c in list <==> c in s
    ensures Distinct(list)
  {
    var left := s;
    list := [];
    while left != {}
      invariant left <= s && forall c :: c in list <==> c in s - left
      invariant Distinct(list)
      decreases left
    {
      var c :| c in left;
      assert c !in list;
      list, left := list + [c], left - {c};
    }
  }

  class Worker {
    const world: World
    var refs: Refs
    var objects: Store
    var attempts: nat

    ghost predicate Valid()
      reads this
    {
      Sound(world) && Addressed(world, objects)
    }

    ghost function Now(): Repo
      reads this
    {
      Repo(objects, refs)
    }

    constructor (world: World, refs: Refs, objects: Store)
      requires Sound(world) && Addressed(world, objects)
      ensures Valid() && this.world == world && this.refs == refs && this.objects == objects
    {
      this.world, this.refs, this.objects, attempts := world, refs, objects, 0;
    }

    /** Put an object into the store under its own id. */
    method WriteObject(o: Object) returns (oid: Oid)
      requires Valid()
      modifies this`objects
      ensures Valid() && oid == world.hash(o) && objects == old(objects)[oid := o] && StoreGrows(old(objects), objects)
      ensures Nodes(CommitGraph(objects)) <=
                Nodes(CommitGraph(old(objects))) + (if o.Commit? then {oid} + Tips(o.parents) else {})
    {
      hide Sound, Nodes, StoreGrows;
      NodesOfOneMore(world, objects, o);
      oid := world.hash(o);
      objects := objects[oid := o];
    }

    /** Record a status as a commit on the tip the ref has now, and propose the ref's move to it. An error may come
        back with objects written, and with the ref already moved. */
    method WriteResult(k: nat, name: string, effect: string, target: Oid, status: Status)
      returns (r: Result<bool, RunError>, ghost tip: Oid)
      requires Valid()
      modifies this`refs, this`objects
      ensures Valid() && StoreGrows(old(objects), objects)
      ensures world.deliver(k, name) != Unstored ==>
                && tip in objects && objects[tip].Commit?
                && objects[tip].parents == (if name in old(refs) then [old(refs)[name]] else [])
                && objects[tip].tree in objects && objects[objects[tip].tree].Tree?
                && objects[objects[tip].tree].typed.result == Some(ResultRecord(effect, target, status))
                && objects[tip].raw == world.seal(objects[tip].tree, objects[tip].parents, status)
      ensures r.Err? <==> world.deliver(k, name) in {Unstored, FailedBefore, FailedAfter}
      ensures r == if r.Err? then Err(WriteBack(target)) else Ok(world.deliver(k, name) == Applied)
      ensures refs == if world.deliver(k, name) in {Applied, FailedAfter} then old(refs)[name := tip] else old(refs)
      ensures FewMoreNodes(old(objects), objects)
    {
      hide Sound, Nodes, CommitGraph, FewMoreNodes;
      tip := target;
      ghost var was := objects;
      var record := world.encode(ResultRecord(effect, target, status));
      RecordIsTree(world, ResultRecord(effect, target, status));
      var tree := WriteObject(record);
      FewMore(was, objects, tree, []);
      if world.deliver(k, name) == Unstored {
        return Err(WriteBack(target)), tip;
      }
      var parents := if name in refs then [refs[name]] else [];
      var commit := Commit(tree, parents, world.seal(tree, parents, status));
      var sealed := WriteObject(commit);
      tip := sealed;
      assert commit != record;
      FewMore(was, objects, sealed, parents);
      match world.deliver(k, name) {
        case Applied =>
          refs := refs[name := sealed];
          return Ok(true), tip;
        case Declined =>
          return Ok(false), tip;
        case FailedBefore =>
          return Err(WriteBack(target)), tip;
        case FailedAfter =>
          refs := refs[name := sealed];
          return Err(WriteBack(target)), tip;
      }
    }

    /** Run the effect on one commit and write the outcome back; only a run that produced a status writes. */
    method RunOne(k: nat, effect: string, oid: Oid, name: string) returns (r: Result<bool, RunError>, ghost tip: Oid)
      requires Valid() && world.validName(name)
      modifies this`refs, this`objects
      ensures Valid() && StoreGrows(old(objects), objects) && FewMoreNodes(old(objects), objects)
      ensures var a := Attempt(effect, oid, name, r, old(refs), refs, old(objects));
              && r == OutcomeOf(world, k, a)
              && (!Executed(world, k, a) ==> objects == old(objects))
              && (if Moved(world, k, a) then Recorded(old(Now()), Now(), name, tip, RecordBy(world, k, a).value)
                  else refs == old(refs))
    {
      hide Sound, FewMoreNodes;
      tip := oid;
      NoMoreNodes(objects);
      if oid !in objects {
        return Err(MissingCommit(oid)), tip;
      }
      if !objects[oid].Commit? {
        return Err(NotACommit(oid)), tip;
      }
      var status := world.execute(k, oid);
      if status.None? {
        return Err(Infrastructure(oid)), tip;
      }
      r, tip := WriteResult(k, name, effect, oid, status.value);
    }

    /** The next try: name the result ref, then run. */
    method Try(effect: string, oid: Oid, owner: Option<string>)
      returns (r: Result<bool, RunError>, ghost a: Attempt, ghost tip: Oid)
      requires Valid()
      modifies this
      ensures Valid() && StoreGrows(old(objects), objects) && FewMoreNodes(old(objects), objects)
      ensures attempts == old(attempts) + 1
      ensures a == Attempt(effect, oid, TargetName(owner, effect, oid), r, old(refs), refs, old(objects))
      ensures IsAttempt(world, old(attempts), owner, a)
      ensures Moved(world, old(attempts), a) ==>
                Recorded(old(Now()), Now(), a.name, tip, RecordBy(world, old(attempts), a).value)
    {
      hide Sound, FewMoreNodes, TargetName, StoreGrows;
      var k, name := attempts, TargetName(owner, effect, oid);
      ghost var before, seen := refs, objects;
      attempts := attempts + 1;
      if !world.validName(name) {
        NoMoreNodes(objects);
        GrowsReflexive(objects);
        r, tip := Err(BadRefname(oid)), oid;
        a := Attempt(effect, oid, name, r, before, refs, seen);
        return;
      }
      r, tip := RunOne(k, effect, oid, name);
      a := Attempt(effect, oid, name, r, before, refs, seen);
    }

    /** The commits to run: the one asked for, or everything outstanding. */
    method Batch(effect: string, trigger: Query, at: Option<Oid>) returns (r: Result<seq<Oid>, RunError>)
      requires Valid() && |Nodes(CommitGraph(objects))| <= CommitCache.U64_MAX
      ensures r.Err? <==> at.None? && !Evaluable(objects, refs, trigger)
      ensures r.Err? ==> r.error == Unevaluable
      ensures at.Some? ==> r == Ok([at.value])
      ensures r.Ok? && at.None? ==> forall c :: c in r.value <==> Outstanding(objects, refs, effect, trigger, c)
      ensures r.Ok? ==> Distinct(r.value)
    {
      hide Outstanding, Evaluable, Acyclic, Nodes;
      if at.Some? {
        return Ok([at.value]);
      }
      AddressedIsAcyclic(world, objects);
      var evaluator := new Eval.Evaluator(refs, objects);
      var owed := evaluator.OutstandingSet(effect, trigger);
      if owed.Err? {
        return Err(Unevaluable);
      }
      var batch := Listed(owed.value);
      return Ok(batch);
    }

    /** Run everything owed, stopping at the first failure.  The trace says what was tried and what came of it: exactly
        the first commits of the batch, all of them on success, and on failure up to the commit whose error is returned.
        Either way, what this effect and every other owe afterwards is what they owed before minus exactly those
        whose canonical result refs moved, the one reported as failed among them if its ref moved before the error. */
    method RunEffect(job: Job, at: Option<Oid>)
      returns (r: Result<seq<(Oid, bool)>, RunError>, ghost batch: seq<Oid>, ghost trace: seq<Attempt>)
      requires Valid() && |Nodes(CommitGraph(objects))| <= CommitCache.U64_MAX
      modifies this
      ensures Valid() && StoreGrows(old(objects), objects)
      ensures r == Err(Unevaluable) <==> at.None? && !Evaluable(old(objects), old(refs), job.trigger)
      ensures r == Err(Unevaluable) ==> batch == []
      ensures at.Some? ==> batch == [at.value]
      ensures at.None? && r != Err(Unevaluable) ==>
                Distinct(batch)
                && forall c :: c in batch <==> Outstanding(old(objects), old(refs), job.effect, job.trigger, c)
      ensures Traced(world, old(attempts), job.owner, trace, old(refs), refs) && Tried(trace) <= batch
      ensures forall a :: a in trace ==> a.effect == job.effect
      ensures attempts == old(attempts) + |trace|
      ensures r.Ok? ==> |r.value| == |trace| == |batch| && forall i :: 0 <= i < |batch| ==>
                r.value[i].0 == batch[i] && trace[i].outcome == Ok(r.value[i].1)
      ensures r.Err? && r.error != Unevaluable ==> trace != [] && trace[|trace| - 1].outcome == Err(r.error)
      ensures AllKept(old(Now()), Now(), job.owner, Due(job.effect, batch), MovedOf(world, old(attempts), trace))
      ensures TipsRecord(world, old(attempts), trace, Now())
      ensures |Nodes(CommitGraph(objects))| <= |Nodes(CommitGraph(old(objects)))| + 2 * |trace|
    {
      hide Outstanding, Evaluable, Kept, Sound, Addressed, TargetName, StoreGrows, Nodes, CommitGraph, Traced,
        IsAttempt, MovedOf, Moved, Recorded, OutcomeOf, AllSucceeded, FewMoreNodes, TipsRecord, RecordBy;
      ghost var start, k0, s0 := Now(), attempts, objects;
      batch, trace := [], [];
      NothingTried(world, k0, job.owner, Now());
      GrowsReflexive(objects);
      KeptAtStart(start, job.owner, Due(job.effect, []));
      var oids := Batch(job.effect, job.trigger, at);
      if oids.Err? {
        return Err(oids.error), batch, trace;
      }
      batch := oids.value;
      ghost var due := Due(job.effect, batch);
      KeptAtStart(start, job.owner, due);
      var outcomes: seq<(Oid, bool)> := [];
      for i := 0 to |oids.value|
        invariant Valid() && StoreGrows(s0, objects)
        invariant Traced(world, k0, job.owner, trace, start.refs, refs) && AllSucceeded(trace)
        invariant Tried(trace) == batch[..i] && attempts == k0 + i
        invariant forall a :: a in trace ==> a.effect == job.effect
        invariant |outcomes| == i
        invariant forall k :: 0 <= k < i ==> outcomes[k].0 == batch[k] && trace[k].outcome == Ok(outcomes[k].1)
        invariant AllKept(start, Now(), job.owner, due, MovedOf(world, k0, trace))
        invariant TipsRecord(world, k0, trace, Now())
        invariant |Nodes(CommitGraph(objects))| <= |Nodes(CommitGraph(s0))| + 2 * i
      {
        ghost var here, done := Now(), trace;
        var one, a, tip := Try(job.effect, oids.value[i], job.owner);
        TriedNext(world, k0, start, here, Now(), job.owner, due, trace, a, tip);
        NodesAfter(here.store, objects);
        GrowsTrans(s0, here.store, objects);
        trace := trace + [a];
        assert batch[..i + 1] == batch[..i] + [oids.value[i]];
        if one.Err? {
          NotUnevaluable(world, k0 + i, job.owner, a);
          return Err(one.error), batch, trace;
        }
        outcomes := outcomes + [(oids.value[i], one.value)];
      }
      assert batch[..|batch|] == batch;
      return Ok(outcomes), batch, trace;
    }

    /** A batch, and then a retry of it: a commit is run again exactly when it was owed and its canonical result ref did
        not move, whether the first batch finished or stopped.  The commit an error was reported for is not run again
        if its ref had moved before the error. */
    method RunAndRetry(effect: string, trigger: Query)
      returns (first: Result<seq<(Oid, bool)>, RunError>, second: Result<seq<(Oid, bool)>, RunError>,
        ghost batch: seq<Oid>, ghost trace: seq<Attempt>, ghost between: Refs, ghost retried: seq<Oid>,
        ghost again: seq<Attempt>)
      requires Valid() && Room(Now(), effect, trigger)
      modifies this
      ensures Valid() && Tried(trace) <= batch && (first.Ok? ==> Tried(trace) == batch)
      ensures Tried(again) <= retried && (second.Ok? ==> Tried(again) == retried)
      ensures Traced(world, old(attempts), None, trace, old(refs), between)
      ensures Traced(world, old(attempts) + |trace|, None, again, between, refs)
      ensures first.Err? && first.error != Unevaluable ==> trace != [] && trace[|trace| - 1].outcome == Err(first.error)
      ensures second.Err? && second.error != Unevaluable ==>
                again != [] && again[|again| - 1].outcome == Err(second.error)
      ensures first != Err(Unevaluable) ==>
                forall c :: c in batch <==> Outstanding(old(objects), old(refs), effect, trigger, c)
      ensures Calm(old(Now()), Job(None, effect, trigger), Due(effect, batch)) ==>
                && first != Err(Unevaluable) && second != Err(Unevaluable)
                && forall c |
                     Steady(old(objects), old(refs), trigger, c)
                     && Untouched(Job(None, effect, trigger), MovedOf(world, old(attempts), trace), c) ::
                     (c in retried <==> c in batch && (effect, c) !in MovedOf(world, old(attempts), trace))
    {
      hide Kept, Sound, Addressed, Nodes, CommitGraph, Traced, MovedOf, Outstanding, Evaluable, Steady, Room, Untouched,
        StoreGrows, AllSucceeded, IsAttempt, Moved, RefsComplete;
      ghost var start, k0, job := Now(), attempts, Job(None, effect, trigger);
      RoomNow(start, effect, trigger);
      first, batch, trace := RunEffect(Job(None, effect, trigger), None);
      between := refs;
      ghost var middle, moved := Now(), MovedOf(world, k0, trace);
      TriedAll(trace, batch);
      RoomLeft(start, middle, effect, trigger, batch, trace);
      second, retried, again := RunEffect(Job(None, effect, trigger), None);
      TriedAll(again, retried);
      if Calm(start, job, Due(effect, batch)) {
        CalmRetry(start, middle, job, batch, moved, retried);
      }
    }

    /** Run every pending obligation whose result ref is absent at that moment, each write conserving what every effect
        owes elsewhere. */
    method PostReceive(pending: seq<Obligation>, defined: string -> bool)
      returns (r: Result<nat, RunError>, ghost trace: seq<Attempt>)
      requires Valid()
      modifies this
      ensures Valid() && StoreGrows(old(objects), objects)
      ensures Traced(world, old(attempts), None, trace, old(refs), refs) && attempts == old(attempts) + |trace|
      ensures forall a :: a in trace ==> (a.effect, a.oid) in pending && defined(a.effect) && a.name !in a.before
      ensures r.Ok? ==> r.value == |trace| && AllSucceeded(trace)
      ensures r.Ok? ==> forall p :: p in pending ==>
                ResultName(p.0, p.1) in refs || !defined(p.0) ||
                  exists a :: a in trace && a.effect == p.0 && a.oid == p.1
      ensures r.Err? ==>
                || (AllSucceeded(trace) && Unnameable(world, pending, r.error))
                || (trace != [] && trace[|trace| - 1].outcome == Err(r.error))
      ensures AllKept(old(Now()), Now(), None, (set p | p in pending), MovedOf(world, old(attempts), trace))
      ensures TipsRecord(world, old(attempts), trace, Now())
    {
      hide Sound, Addressed, StoreGrows, Traced, IsAttempt, Moved, OutcomeOf, FewMoreNodes, AllKept, Recorded,
        TipsRecord, RecordBy, MovedOf;
      ghost var s0, k0, refs0, start := objects, attempts, refs, Now();
      ghost var due := set p | p in pending;
      KeptAtStart(start, None, due);
      trace := [];
      NothingTried(world, k0, None, Now());
      var count := 0;
      GrowsReflexive(objects);
      for i := 0 to |pending|
        invariant Valid() && StoreGrows(s0, objects) && count == |trace| && attempts == k0 + |trace|
        invariant Traced(world, k0, None, trace, refs0, refs) && AllSucceeded(trace)
        invariant forall a :: a in trace ==> (a.effect, a.oid) in pending && defined(a.effect) && a.name !in a.before
        invariant forall p :: p in pending[..i] ==> Settled(refs, defined, trace, p)
        invariant AllKept(start, Now(), None, due, MovedOf(world, k0, trace))
        invariant TipsRecord(world, k0, trace, Now())
      {
        var (effect, oid) := pending[i];
        var name := ResultName(effect, oid);
        assert pending[..i + 1] == pending[..i] + [pending[i]];
        CanonicalTarget(effect, oid);
        if !world.validName(name) {
          assert pending[i] in pending;
          return Err(BadRefname(oid)), trace;
        }
        if name in refs {
          continue;
        }
        if !defined(effect) {
          continue;
        }
        ghost var s1, before, done, here := objects, refs, trace, Now();
        var one, a, tip := Try(effect, oid, None);
        TriedNext(world, k0, start, here, Now(), None, due, trace, a, tip);
        GrowsTrans(s0, s1, objects);
        trace := trace + [a];
        count := count + 1;
        SettledStays(world, k0 + |done|, before, refs, defined, done, a, pending[..i]);
        if one.Err? {
          return Err(one.error), trace;
        }
      }
      assert pending[..|pending|] == pending;
      return Ok(count), trace;
    }
  }

  /** The error names a pending obligation whose result ref has no valid name. */
  ghost predicate Unnameable(world: World, pending: seq<Obligation>, error: RunError) {
    exists p :: p in pending && error == BadRefname(p.1) && !world.validName(ResultName(p.0, p.1))
  }

  /** The obligation needs nothing more from this drain. */
  ghost predicate Settled(refs: Refs, defined: string -> bool, trace: seq<Attempt>, p: Obligation) {
    ResultName(p.0, p.1) in refs || !defined(p.0) || exists a :: a in trace && a.effect == p.0 && a.oid == p.1
  }

  lemma SettledStays(
    world: World, k: nat, before: Refs, after: Refs, defined: string -> bool, trace: seq<Attempt>, a: Attempt,
    ps: seq<Obligation>)
    requires IsAttempt(world, k, None, a) && a.before == before && a.after == after
    requires forall p :: p in ps ==> Settled(before, defined, trace, p)
    ensures forall p :: p in ps ==> Settled(after, defined, trace + [a], p)
    ensures Settled(after, defined, trace + [a], (a.effect, a.oid))
  {
    assert a in trace + [a];
    forall p | p in ps
      ensures Settled(after, defined, trace + [a], p)
    {
      assert Settled(before, defined, trace, p);
      if x :| x in trace && x.effect == p.0 && x.oid == p.1 {
        assert x in trace + [a];
      }
    }
  }

  lemma NothingTried(world: World, k: nat, owner: Option<string>, repo: Repo)
    ensures Traced(world, k, owner, [], repo.refs, repo.refs) && AllSucceeded([]) && MovedOf(world, k, []) == {}
    ensures TipsRecord(world, k, [], repo)
  {
  }

  lemma NotUnevaluable(world: World, k: nat, owner: Option<string>, a: Attempt)
    requires IsAttempt(world, k, owner, a)
    ensures a.outcome != Err(Unevaluable)
  {
  }

  /** One more try keeps the trace whole and the obligations conserved. */
  lemma TriedNext(
    world: World, k0: nat, start: Repo, here: Repo, there: Repo, owner: Option<string>, due: set<Obligation>,
    trace: seq<Attempt>, a: Attempt, tip: Oid)
    requires Traced(world, k0, owner, trace, start.refs, here.refs) && AllSucceeded(trace)
    requires AllKept(start, here, owner, due, MovedOf(world, k0, trace)) && (a.effect, a.oid) in due
    requires TipsRecord(world, k0, trace, here)
    requires IsAttempt(world, k0 + |trace|, owner, a) && a.before == here.refs && a.after == there.refs
    requires Moved(world, k0 + |trace|, a) ==>
               Recorded(here, there, a.name, tip, RecordBy(world, k0 + |trace|, a).value)
    requires StoreGrows(here.store, there.store)
    ensures Traced(world, k0, owner, trace + [a], start.refs, there.refs)
    ensures AllKept(start, there, owner, due, MovedOf(world, k0, trace + [a]))
    ensures TipsRecord(world, k0, trace + [a], there)
    ensures Tried(trace + [a]) == Tried(trace) + [a.oid]
    ensures AllSucceeded(trace + [a]) <==> a.outcome.Ok?
  {
    hide Kept, MovedOf, Traced, Recorded, StoreGrows, TargetName, AllSucceeded, Moved, TipsRecord, RecordBy, OutcomeOf;
    var moved, k := MovedOf(world, k0, trace), k0 + |trace|;
    TracedMore(world, k0, owner, trace, start.refs, a);
    TipsRecordMore(world, k0, trace, a, here, there, tip);
    forall job: Job | job.owner == owner
      ensures Kept(start, there, job, due, MovedOf(world, k0, trace + [a]))
    {
      assert Kept(start, here, job, due, moved);
      if Moved(world, k, a) {
        KeptByWrite(start, here, there, job, due, moved, (a.effect, a.oid), tip, RecordBy(world, k, a).value);
      } else {
        KeptByGrowth(start, here, there, job, due, moved);
        assert moved + {} == moved;
      }
    }
  }

  // -- what the moved refs record ---------------------------------------------------------------------

  /** The `i`-th try moved its ref, and no later one moved it again. */
  predicate LastMove(world: World, k0: nat, trace: seq<Attempt>, i: nat) {
    && i < |trace| && Moved(world, k0 + i, trace[i])
    && forall j :: i < j < |trace| && trace[j].name == trace[i].name ==> !Moved(world, k0 + j, trace[j])
  }

  /** The ref's tip records what the try had to. */
  predicate KeepsRecord(world: World, k: nat, a: Attempt, repo: Repo) {
    a.name in repo.refs && RecordOf(repo.store, repo.refs[a.name]) == RecordBy(world, k, a) != None
  }

  /** Every result ref the tries moved records the effect, the commit and the status of the last run that moved it. */
  ghost predicate TipsRecord(world: World, k0: nat, trace: seq<Attempt>, repo: Repo) {
    forall i :: 0 <= i < |trace| && LastMove(world, k0, trace, i) ==> KeepsRecord(world, k0 + i, trace[i], repo)
  }

  lemma RecordStays(s: Store, s': Store, tip: Oid)
    requires StoreGrows(s, s') && RecordOf(s, tip).Some?
    ensures RecordOf(s', tip) == RecordOf(s, tip)
  {
    assert s'[tip] == s[tip] && s'[s[tip].tree] == s[s[tip].tree];
  }

  lemma TipsRecordMore(
    world: World, k0: nat, trace: seq<Attempt>, a: Attempt, here: Repo, there: Repo, tip: Oid)
    requires TipsRecord(world, k0, trace, here) && StoreGrows(here.store, there.store)
    requires if Moved(world, k0 + |trace|, a)
             then Recorded(here, there, a.name, tip, RecordBy(world, k0 + |trace|, a).value)
             else there.refs == here.refs
    ensures TipsRecord(world, k0, trace + [a], there)
  {
    hide Moved, Recorded, RecordBy, RecordOf, StoreGrows;
    var k, longer := k0 + |trace|, trace + [a];
    if Moved(world, k, a) {
      RecordedMoves(here, there, a.name, tip, RecordBy(world, k, a).value);
    }
    forall i | 0 <= i < |longer| && LastMove(world, k0, longer, i)
      ensures KeepsRecord(world, k0 + i, longer[i], there)
    {
      if i < |trace| {
        assert longer[i] == trace[i] && longer[|trace|] == a;
        assert forall j :: i < j < |trace| ==> longer[j] == trace[j];
        assert LastMove(world, k0, trace, i);
        RecordStays(here.store, there.store, here.refs[trace[i].name]);
      }
    }
  }

  /** After the tries, a commit whose short oid no other results ref of the effect shares has a result of a given status
      exactly when the last run that moved its canonical ref returned that status. */
  lemma ResultIsLastRun(
    world: World, k0: nat, trace: seq<Attempt>, repo: Repo, i: nat, effect: string, c: Oid, status: Status)
    requires TipsRecord(world, k0, trace, repo) && LastMove(world, k0, trace, i)
    requires IsOid(c) && trace[i].effect == effect && trace[i].oid == c && trace[i].name == ResultName(effect, c)
    requires forall n :: n in repo.refs && ShortOf(effect, n) && Short(effect, n) <= c.hex ==>
               n == ResultName(effect, c)
    ensures Holds(repo.store, repo.refs, Results(effect, Only(status)), c) <==> world.execute(k0 + i, c) == Some(status)
  {
    hide ShortOf, Short, IsOid, ResultName, TipsRecord;
    var a, name := trace[i], ResultName(effect, c);
    RecordKept(world, k0, trace, repo, i);
    ResultNameRecords(effect, c);
    if HasResult(repo.store, repo.refs, effect, Only(status), c) {
      var n :| Records(repo.store, repo.refs, effect, Only(status), n, c);
    }
    if world.execute(k0 + i, c) == Some(status) {
      assert Records(repo.store, repo.refs, effect, Only(status), name, c);
    }
  }

  lemma RecordKept(world: World, k0: nat, trace: seq<Attempt>, repo: Repo, i: nat)
    requires TipsRecord(world, k0, trace, repo) && LastMove(world, k0, trace, i)
    ensures KeepsRecord(world, k0 + i, trace[i], repo)
  {
  }

  lemma {:induction false} TracedAt(
    world: World, k: nat, owner: Option<string>, trace: seq<Attempt>, was: Refs, now: Refs, i: nat)
    requires Traced(world, k, owner, trace, was, now) && i < |trace|
    ensures IsAttempt(world, k + i, owner, trace[i])
    decreases |trace|
  {
    hide IsAttempt, AllSucceeded;
    if i < |trace| - 1 {
      var init := trace[..|trace| - 1];
      TracedAt(world, k, owner, init, was, trace[|trace| - 1].before, i);
      assert init[i] == trace[i];
    }
  }

  lemma NamesApart(effect: string, o: Oid, c: Oid)
    requires !(ShortOid(o) <= c.hex)
    ensures ResultName(effect, o) != ResultName(effect, c)
  {
    var p := ResultsPrefix(effect);
    assert ResultName(effect, o)[|p|..] == ShortOid(o) && ResultName(effect, c)[|p|..] == ShortOid(c) <= c.hex;
  }

  /** After one batch, a commit it tried whose short oid nothing shares, and whose ref moved, is among the effect's
      results of a status exactly when its own run returned that status. */
  lemma BatchResultIsRun(
    world: World, k0: nat, trace: seq<Attempt>, was: Refs, repo: Repo, i: nat, effect: string, c: Oid, status: Status)
    requires Traced(world, k0, None, trace, was, repo.refs) && TipsRecord(world, k0, trace, repo)
    requires Distinct(Tried(trace)) && forall a :: a in trace ==> a.effect == effect
    requires i < |trace| && trace[i].oid == c && Moved(world, k0 + i, trace[i]) && IsOid(c)
    requires forall j :: 0 <= j < |trace| && ShortOid(trace[j].oid) <= c.hex ==> trace[j].oid == c
    requires forall n :: n in repo.refs && ShortOf(effect, n) && Short(effect, n) <= c.hex ==>
               n == ResultName(effect, c)
    ensures Holds(repo.store, repo.refs, Results(effect, Only(status)), c) <==> world.execute(k0 + i, c) == Some(status)
  {
    hide Moved, Traced, TipsRecord, ShortOf, Short, IsOid, Holds, ShortOid, OutcomeOf;
    TracedAt(world, k0, None, trace, was, repo.refs, i);
    ResultNameRecords(effect, c);
    assert Tried(trace)[i] == c;
    forall j | i < j < |trace|
      ensures trace[j].name != trace[i].name
    {
      TracedAt(world, k0, None, trace, was, repo.refs, j);
      assert Tried(trace)[j] == trace[j].oid;
      NamesApart(effect, trace[j].oid, c);
    }
    ResultIsLastRun(world, k0, trace, repo, i, effect, c, status);
  }

  // -- how much one try adds ------------------------------------------------------------------------

  /** A try adds at most the sealed commit and the tip it was put on to the ids the graph mentions. */
  ghost predicate FewMoreNodes(s: Store, s': Store) {
    exists a: Oid, b: Oid :: Nodes(CommitGraph(s')) <= Nodes(CommitGraph(s)) + {a, b}
  }

  lemma NoMoreNodes(s: Store)
    ensures FewMoreNodes(s, s)
  {
    var a := Oid("");
    assert Nodes(CommitGraph(s)) <= Nodes(CommitGraph(s)) + {a, a};
  }

  lemma FewMore(s: Store, s': Store, tip: Oid, parents: seq<Oid>)
    requires |parents| <= 1 && Nodes(CommitGraph(s')) <= Nodes(CommitGraph(s)) + {tip} + Tips(parents)
    ensures FewMoreNodes(s, s')
  {
    var p := if parents == [] then tip else parents[0];
    assert Tips(parents) <= {tip, p};
    assert Nodes(CommitGraph(s')) <= Nodes(CommitGraph(s)) + {tip, p};
  }

  lemma NodesAfter(s: Store, s': Store)
    requires FewMoreNodes(s, s')
    ensures |Nodes(CommitGraph(s'))| <= |Nodes(CommitGraph(s))| + 2
  {
    hide Nodes;
    var a: Oid, b: Oid :| Nodes(CommitGraph(s')) <= Nodes(CommitGraph(s)) + {a, b};
    SubsetCardinality(Nodes(CommitGraph(s')), Nodes(CommitGraph(s)) + {a, b});
    UnionCardinality(Nodes(CommitGraph(s)), {a, b});
    SubsetCardinality({a, b}, {a} + {b});
    UnionCardinality({a}, {b});
  }

  lemma UnionCardinality<T>(a: set<T>, b: set<T>)
    ensures |a + b| <= |a| + |b|
  {
    assert a + b == a + (b - a);
    SubsetCardinality(b - a, b);
  }

  lemma RecordIsTree(world: World, record: ResultRecord)
    requires Sound(world)
    ensures world.encode(record).Tree? && world.encode(record).typed.result == Some(record)
  {
  }

  lemma GrowsReflexive(s: Store)
    ensures StoreGrows(s, s)
  {
  }

  lemma GrowsTrans(a: Store, b: Store, c: Store)
    requires StoreGrows(a, b) && StoreGrows(b, c)
    ensures StoreGrows(a, c)
  {
  }

  // -- room for a retry -------------------------------------------------------------------------------

  /** The graph and two more ids for every commit owed stay within the generation bound. */
  ghost predicate Room(a: Repo, effect: string, trigger: Query) {
    && |Nodes(CommitGraph(a.store))| <= CommitCache.U64_MAX
    && forall owed: seq<Oid> :: Distinct(owed) &&
         (forall c :: c in owed ==> Outstanding(a.store, a.refs, effect, trigger, c))
         ==> |Nodes(CommitGraph(a.store))| + 2 * |owed| <= CommitCache.U64_MAX
  }

  lemma RoomNow(a: Repo, effect: string, trigger: Query)
    requires Room(a, effect, trigger)
    ensures |Nodes(CommitGraph(a.store))| <= CommitCache.U64_MAX
  {
  }

  lemma TriedAll(trace: seq<Attempt>, batch: seq<Oid>)
    requires Tried(trace) <= batch
    ensures |trace| <= |batch| && (|trace| == |batch| ==> Tried(trace) == batch)
  {
    if |trace| == |batch| {
      assert batch[..|trace|] == batch;
    }
  }

  /** A batch of the commits owed leaves room for another. */
  lemma RoomLeft(a: Repo, b: Repo, effect: string, trigger: Query, batch: seq<Oid>, trace: seq<Attempt>)
    requires Room(a, effect, trigger) && Distinct(batch) && |trace| <= |batch|
    requires forall c :: c in batch ==> Outstanding(a.store, a.refs, effect, trigger, c)
    requires |Nodes(CommitGraph(b.store))| <= |Nodes(CommitGraph(a.store))| + 2 * |trace|
    ensures |Nodes(CommitGraph(b.store))| <= CommitCache.U64_MAX
  {
    hide Nodes, Outstanding, CommitGraph;
  }

  /** After a conserved batch, what is outstanding is what was and did not move. */
  lemma CalmRetry(a: Repo, b: Repo, job: Job, batch: seq<Oid>, moved: set<Obligation>, retried: seq<Oid>)
    requires Calm(a, job, Due(job.effect, batch)) && AllKept(a, b, None, Due(job.effect, batch), moved)
    requires job.owner.None?
    requires forall c :: c in batch <==> Outstanding(a.store, a.refs, job.effect, job.trigger, c)
    requires Evaluable(b.store, b.refs, job.trigger) ==>
               forall c :: c in retried <==> Outstanding(b.store, b.refs, job.effect, job.trigger, c)
    ensures Evaluable(a.store, a.refs, job.trigger) && Evaluable(b.store, b.refs, job.trigger)
    ensures forall c :: Steady(a.store, a.refs, job.trigger, c) && Untouched(job, moved, c) ==>
              (c in retried <==> c in batch && (job.effect, c) !in moved)
  {
    hide Evaluable, Outstanding, Steady, Untouched, RefsComplete;
    var due := Due(job.effect, batch);
    assert Kept(a, b, job, due, moved);
    forall c | Steady(a.store, a.refs, job.trigger, c) && Untouched(job, moved, c)
      ensures c in retried <==> c in batch && (job.effect, c) !in moved
    {
      assert Conserved(a, b, job, moved, c);
    }
  }
}
