/** Whole runs of the gate: any number of writers, each reading a ref, asking for a verdict, and writing by
    compare-and-swap, in every interleaving, over an object store that grows meanwhile. */
module GateRuns {
  import opened Graph
  import opened Objects
  import opened Namespace
  import opened GateObjects
  import opened Gate
  import opened GateLaws

  /** One write of a transaction.  `expected` is the writer's own read of the ref, made before it asked for the
      verdict; `kind`, `cas` and `signer` record the verdict, the tip the verdict was about, and the signer found. */
  datatype Edit = Edit(
    name: string, expected: Option<Oid>, after: Option<Oid>,
    kind: AdmissionKind, cas: Option<Oid>, signer: Option<(string, Member)>)

  /** A `receive` in progress: updates still to judge, the tip read for the next of them, and the edits judged. */
  datatype Writer = Writer(todo: seq<Update>, held: Option<Option<Oid>>, edits: seq<Edit>)

  datatype State = State(refs: Refs, store: Store, writers: seq<Writer>)

  datatype Step =
    | Grow
    | Arrive(todo: seq<Update>)
    | Read(w: nat)
    | Judge(w: nat)
    | Apply(w: nat)

  const IDLE := Writer([], None, [])

  predicate Met(refs: Refs, edits: seq<Edit>) {
    forall e :: e in edits ==> Tip(refs, e.name) == e.expected
  }

  function Put(refs: Refs, name: string, after: Option<Oid>): Refs {
    match after
    case Some(tip) => refs[name := tip]
    case None => refs - {name}
  }

  function Applied(refs: Refs, edits: seq<Edit>): Refs
    decreases |edits|
  {
    if edits == [] then refs
    else Put(Applied(refs, edits[..|edits| - 1]), edits[|edits| - 1].name, edits[|edits| - 1].after)
  }

  ghost function SignerIfAny(env: Env, refs: Refs, s: Store, after: Option<Oid>): Option<(string, Member)> {
    if after.None? then None
    else
      match Signer(env, refs, s, after.value)
      case Ok(found) => found
      case Err(_) => None
  }

  /** The writer after its next update was judged: one more edit, or nothing left to write. */
  ghost function Judged(env: Env, refs: Refs, s: Store, w: Writer): Writer
    requires w.todo != [] && w.held.Some?
  {
    var update := w.todo[0];
    match Verify(env, refs, s, update)
    case Ok(Admit(kind, _, cas)) =>
      var edit := Edit(
        update.name, w.held.value, update.after, kind, cas, SignerIfAny(env, refs, s, update.after));
      Writer(w.todo[1..], None, w.edits + [edit])
    case _ => IDLE
  }

  ghost predicate Next(env: Env, st: State, step: Step, st': State) {
    match step
    case Grow => st'.refs == st.refs && st'.writers == st.writers && StoreGrows(st.store, st'.store)
    case Arrive(todo) => st' == st.(writers := st.writers + [Writer(todo, None, [])])
    case Read(w) =>
      && w < |st.writers| && st.writers[w].todo != [] && st.writers[w].held.None?
      && var seen := Tip(st.refs, st.writers[w].todo[0].name);
         st' == st.(writers := st.writers[w := st.writers[w].(held := Some(seen))])
    case Judge(w) =>
      && w < |st.writers| && st.writers[w].todo != [] && st.writers[w].held.Some?
      && st' == st.(writers := st.writers[w := Judged(env, st.refs, st.store, st.writers[w])])
    case Apply(w) =>
      && w < |st.writers| && st.writers[w].todo == []
      && var edits := st.writers[w].edits;
         st' == State(if Met(st.refs, edits) then Applied(st.refs, edits) else st.refs,
                      st.store, st.writers[w := IDLE])
  }

  /** A run: its first state, then each step with the state it leads to. */
  datatype Run = Start(st: State) | Then(before: Run, step: Step, st: State)

  ghost predicate IsRun(env: Env, r: Run) {
    match r
    case Start(_) => true
    case Then(before, step, st) => IsRun(env, before) && Next(env, before.st, step, st)
  }

  function First(r: Run): State {
    match r
    case Start(st) => st
    case Then(before, _, _) => First(before)
  }

  predicate Visits(r: Run, st: State) {
    r.st == st || (r.Then? && Visits(r.before, st))
  }

  /** `st` is passed no later than `st'`. */
  predicate InOrder(r: Run, st: State, st': State) {
    (r.st == st' && Visits(r, st)) || (r.Then? && InOrder(r.before, st, st'))
  }

  ghost predicate InForceThroughout(r: Run) {
    InForce(r.st.refs, r.st.store) && (r.Then? ==> InForceThroughout(r.before))
  }

  lemma RunStarts(env: Env, st: State)
    ensures IsRun(env, Start(st)) && First(Start(st)) == st
  {
  }

  lemma {:induction false} RunGrows(env: Env, r: Run)
    requires IsRun(env, r)
    ensures StoreGrows(First(r).store, r.st.store)
    decreases r
  {
    hide Judged, Applied, Met;
    if r.Then? {
      RunGrows(env, r.before);
    }
  }

  /** One more writer, from its arrival to its write, with no one else moving meanwhile. */
  ghost function WithWriter(env: Env, r: Run, update: Update): Run {
    var st, w := r.st, Writer([update], Some(Tip(r.st.refs, update.name)), []);
    var arrived := st.(writers := st.writers + [Writer([update], None, [])]);
    var read := st.(writers := st.writers + [w]);
    var judged := st.(writers := st.writers + [Judged(env, st.refs, st.store, w)]);
    var applied := State(Put(st.refs, update.name, update.after), st.store, st.writers + [IDLE]);
    var k := |st.writers|;
    Then(Then(Then(Then(r, Arrive([update]), arrived), Read(k), read), Judge(k), judged), Apply(k), applied)
  }

  lemma ReadStep(env: Env, st: State, update: Update)
    ensures Next(env, st.(writers := st.writers + [Writer([update], None, [])]), Read(|st.writers|),
              st.(writers := st.writers + [Writer([update], Some(Tip(st.refs, update.name)), [])]))
  {
    var ws, w := st.writers, Writer([update], Some(Tip(st.refs, update.name)), []);
    assert (ws + [Writer([update], None, [])])[|ws| := w] == ws + [w];
  }

  lemma JudgeStep(env: Env, st: State, w: Writer)
    requires w.todo != [] && w.held.Some?
    ensures Next(env, st.(writers := st.writers + [w]), Judge(|st.writers|),
              st.(writers := st.writers + [Judged(env, st.refs, st.store, w)]))
  {
    hide Judged;
    var ws, done := st.writers, Judged(env, st.refs, st.store, w);
    assert (ws + [w])[|ws| := done] == ws + [done];
  }

  lemma ApplyStep(env: Env, st: State, e: Edit)
    requires Tip(st.refs, e.name) == e.expected
    ensures Next(env, st.(writers := st.writers + [Writer([], None, [e])]), Apply(|st.writers|),
              State(Put(st.refs, e.name, e.after), st.store, st.writers + [IDLE]))
  {
    hide Applied, Met;
    OneEdit(st.refs, e);
    var ws := st.writers;
    assert (ws + [Writer([], None, [e])])[|ws| := IDLE] == ws + [IDLE];
  }

  lemma WriterLands(env: Env, r: Run, update: Update)
    requires IsRun(env, r)
    requires Verify(env, r.st.refs, r.st.store, update).Ok? && Verify(env, r.st.refs, r.st.store, update).value.Admit?
    ensures IsRun(env, WithWriter(env, r, update)) && First(WithWriter(env, r, update)) == First(r)
  {
    hide Verify, SignerIfAny, IsRun, Next, Judged, First;
    var st, k := r.st, |r.st.writers|;
    var r4 := WithWriter(env, r, update);
    var r3, r2, r1 := r4.before, r4.before.before, r4.before.before.before;
    var w := Writer([update], Some(Tip(st.refs, update.name)), []);
    Arrives(env, st, [update]);
    ReadStep(env, st, update);
    JudgeStep(env, st, w);
    JudgedOnly(env, st, w);
    ApplyStep(env, st, Judged(env, st.refs, st.store, w).edits[0]);
    RunGoesOn(env, r, Arrive([update]), r1.st);
    RunGoesOn(env, r1, Read(k), r2.st);
    RunGoesOn(env, r2, Judge(k), r3.st);
    RunGoesOn(env, r3, Apply(k), r4.st);
  }

  lemma Arrives(env: Env, st: State, todo: seq<Update>)
    ensures Next(env, st, Arrive(todo), st.(writers := st.writers + [Writer(todo, None, [])]))
  {
  }

  lemma RunGoesOn(env: Env, r: Run, step: Step, st: State)
    requires IsRun(env, r) && Next(env, r.st, step, st)
    ensures IsRun(env, Then(r, step, st)) && First(Then(r, step, st)) == First(r)
  {
    hide Next;
  }

  lemma JudgedOnly(env: Env, st: State, w: Writer)
    requires |w.todo| == 1 && w.held.Some? && w.edits == []
    requires Verify(env, st.refs, st.store, w.todo[0]).Ok? && Verify(env, st.refs, st.store, w.todo[0]).value.Admit?
    ensures var v := Verify(env, st.refs, st.store, w.todo[0]).value;
            Judged(env, st.refs, st.store, w) == Writer([], None, [Edit(
              w.todo[0].name, w.held.value, w.todo[0].after, v.kind, v.cas,
              SignerIfAny(env, st.refs, st.store, w.todo[0].after))])
  {
    hide Verify, SignerIfAny;
    assert w.todo[1..] == [];
  }

  lemma OneEdit(refs: Refs, e: Edit)
    ensures Applied(refs, [e]) == Put(refs, e.name, e.after)
    ensures Met(refs, [e]) <==> Tip(refs, e.name) == e.expected
  {
    assert [e][..0] == [];
  }

  // -- meta-refs only advance ------------------------------------------------------------

  /** Every meta-ref of `was` is still there, at a tip that descends from its old one. */
  ghost predicate Advanced(was: Refs, g: Graph.Commits, now: Refs) {
    forall n :: n in was && IsMeta(n) ==> n in now && Reaches(g, now[n], was[n])
  }

  /** A meta-ref edit never deletes, and its new tip descends from the tip it expects to replace. */
  ghost predicate EditOk(g: Graph.Commits, e: Edit) {
    IsMeta(e.name) ==> e.after.Some? && (e.expected.Some? ==> Reaches(g, e.after.value, e.expected.value))
  }

  /** A tip read earlier is still an ancestor of the ref's tip. */
  ghost predicate HeldOk(g: Graph.Commits, refs: Refs, w: Writer) {
    w.held.Some? && w.todo != [] && w.held.value.Some? && IsMeta(w.todo[0].name) ==>
      w.todo[0].name in refs && Reaches(g, refs[w.todo[0].name], w.held.value.value)
  }

  ghost predicate WriterOk(g: Graph.Commits, refs: Refs, w: Writer) {
    HeldOk(g, refs, w) && forall e :: e in w.edits ==> EditOk(g, e)
  }

  /** What every reachable state keeps about the writers in it. */
  ghost predicate WritersOk(st: State) {
    forall w :: w in st.writers ==> WriterOk(CommitGraph(st.store), st.refs, w)
  }

  lemma AdvancedReflexive(refs: Refs, g: Graph.Commits)
    ensures Advanced(refs, g, refs)
  {
    forall n | n in refs && IsMeta(n)
      ensures Reaches(g, refs[n], refs[n])
    {
      ReachesSelf(g, refs[n]);
    }
  }

  lemma AdvancedTransitive(a: Refs, g: Graph.Commits, b: Refs, g': Graph.Commits, c: Refs)
    requires Grows(g, g') && Advanced(a, g, b) && Advanced(b, g', c)
    ensures Advanced(a, g', c)
  {
    hide Reaches, IsMeta;
    forall n | n in a && IsMeta(n)
      ensures n in c && Reaches(g', c[n], a[n])
    {
      ReachesGrows(g, g', b[n], a[n]);
      ReachesTrans(g', c[n], b[n], a[n]);
    }
  }

  lemma WriterSurvives(g: Graph.Commits, refs: Refs, g': Graph.Commits, refs': Refs, w: Writer)
    requires Grows(g, g') && Advanced(refs, g', refs') && WriterOk(g, refs, w)
    ensures WriterOk(g', refs', w)
  {
    hide Reaches, IsMeta;
    if w.held.Some? && w.todo != [] && w.held.value.Some? && IsMeta(w.todo[0].name) {
      var n, x := w.todo[0].name, w.held.value.value;
      ReachesGrows(g, g', refs[n], x);
      ReachesTrans(g', refs'[n], refs[n], x);
    }
    forall e | e in w.edits
      ensures EditOk(g', e)
    {
      if IsMeta(e.name) && e.expected.Some? {
        ReachesGrows(g, g', e.after.value, e.expected.value);
      }
    }
  }

  /** Edits whose expectations are met leave every meta-ref advanced. */
  lemma {:induction false} AppliedAdvances(g: Graph.Commits, refs: Refs, edits: seq<Edit>)
    requires Met(refs, edits) && forall e :: e in edits ==> EditOk(g, e)
    ensures Advanced(refs, g, Applied(refs, edits))
  {
    hide Reaches, IsMeta;
    if edits == [] {
      AdvancedReflexive(refs, g);
    } else {
      var init, e := edits[..|edits| - 1], edits[|edits| - 1];
      assert e in edits && edits == init + [e];
      AppliedAdvances(g, refs, init);
      var now := Applied(refs, edits);
      forall n | n in refs && IsMeta(n)
        ensures n in now && Reaches(g, now[n], refs[n])
      {
        if n == e.name {
          assert EditOk(g, e) && Tip(refs, n) == e.expected;
        }
      }
    }
  }

  /** The verdict on the next update leaves the writer's edits sound: descent from the tip read before the verdict
      follows from descent from the tip the verdict saw. */
  lemma JudgedOk(env: Env, st: State, w: Writer)
    requires w in st.writers && WritersOk(st) && w.todo != [] && w.held.Some?
    requires InForce(st.refs, st.store)
    ensures WriterOk(CommitGraph(st.store), st.refs, Judged(env, st.refs, st.store, w))
  {
    hide Reaches, IsMeta, Verify, InForce, CommitGraph, SignerIfAny, RecordsEpoch;
    var g, update := CommitGraph(st.store), w.todo[0];
    match Verify(env, st.refs, st.store, update)
    case Ok(Admit(kind, _, _)) =>
      if IsMeta(update.name) {
        GatedInForce(st.refs, st.store, update);
        AdmittedAdvances(env, st.refs, st.store, update);
        assert WriterOk(g, st.refs, w);
        if w.held.value.Some? {
          ReachesTrans(g, update.after.value, st.refs[update.name], w.held.value.value);
        }
      }
    case _ =>
  }

  lemma GatedInForce(refs: Refs, s: Store, update: Update)
    requires InForce(refs, s)
    ensures Gated(refs, s, update)
  {
  }

  lemma StepAdvances(env: Env, st: State, step: Step, st': State)
    requires Next(env, st, step, st') && WritersOk(st) && InForce(st.refs, st.store)
    ensures StoreGrows(st.store, st'.store) && Advanced(st.refs, CommitGraph(st'.store), st'.refs) && WritersOk(st')
  {
    hide Reaches, IsMeta, Judged, InForce, CommitGraph, WriterOk, Advanced, Applied, Met;
    var g, g' := CommitGraph(st.store), CommitGraph(st'.store);
    GraphGrows(st.store, st'.store);
    if step.Apply? && Met(st.refs, st.writers[step.w].edits) {
      var w := st.writers[step.w];
      assert WriterOk(g, st.refs, w) && g == g';
      EditsOk(g, st.refs, w);
      AppliedAdvances(g, st.refs, w.edits);
    } else {
      AdvancedReflexive(st.refs, g');
    }
    forall w' | w' in st'.writers
      ensures WriterOk(g', st'.refs, w')
    {
      StepKeepsWriter(env, st, step, st', w');
    }
  }

  lemma EditsOk(g: Graph.Commits, refs: Refs, w: Writer)
    requires WriterOk(g, refs, w)
    ensures forall e :: e in w.edits ==> EditOk(g, e)
  {
  }

  lemma StepKeepsWriter(env: Env, st: State, step: Step, st': State, w': Writer)
    requires Next(env, st, step, st') && WritersOk(st) && InForce(st.refs, st.store)
    requires StoreGrows(st.store, st'.store) && Advanced(st.refs, CommitGraph(st'.store), st'.refs)
    requires w' in st'.writers
    ensures WriterOk(CommitGraph(st'.store), st'.refs, w')
  {
    hide Reaches, IsMeta, Judged, InForce, CommitGraph, Advanced, Applied, Met, EditOk;
    var g, g' := CommitGraph(st.store), CommitGraph(st'.store);
    GraphGrows(st.store, st'.store);
    if w' in st.writers {
      WriterSurvives(g, st.refs, g', st'.refs, w');
    } else if step.Read? {
      var w := st.writers[step.w];
      assert w in st.writers && WriterOk(g, st.refs, w);
      ReadOk(g, st.refs, w);
    } else if step.Judge? {
      var w := st.writers[step.w];
      assert w in st.writers;
      JudgedOk(env, st, w);
    }
  }

  lemma ReadOk(g: Graph.Commits, refs: Refs, w: Writer)
    requires WriterOk(g, refs, w) && w.todo != []
    ensures WriterOk(g, refs, w.(held := Some(Tip(refs, w.todo[0].name))))
  {
    if w.todo[0].name in refs {
      ReachesSelf(g, refs[w.todo[0].name]);
    }
  }

  /** Along any interleaving with the epoch in force, no meta-ref disappears and every later tip descends from every
      earlier one. */
  lemma {:induction false} RunAdvances(env: Env, r: Run, st: State, st': State)
    requires IsRun(env, r) && InForceThroughout(r) && WritersOk(First(r))
    requires InOrder(r, st, st')
    ensures StoreGrows(st.store, st'.store) && Advanced(st.refs, CommitGraph(st'.store), st'.refs)
    ensures WritersOk(r.st)
    decreases r
  {
    hide Reaches, Next, InForce, CommitGraph, WriterOk, Advanced, WritersOk;
    if r.Start? {
      AdvancedReflexive(st.refs, CommitGraph(st.store));
    } else {
      var last := r.before.st;
      RunVisits(env, r.before);
      RunAdvances(env, r.before, last, last);
      StepAdvances(env, last, r.step, r.st);
      if InOrder(r.before, st, st') {
        RunAdvances(env, r.before, st, st');
      } else if st == st' {
        AdvancedReflexive(st.refs, CommitGraph(st.store));
      } else {
        LastInOrder(r.before, st);
        RunAdvances(env, r.before, st, last);
        GraphGrows(last.store, r.st.store);
        AdvancedTransitive(st.refs, CommitGraph(last.store), last.refs, CommitGraph(r.st.store), r.st.refs);
      }
    }
  }

  lemma RunVisits(env: Env, r: Run)
    ensures Visits(r, r.st) && InOrder(r, r.st, r.st)
  {
  }

  lemma LastInOrder(r: Run, st: State)
    requires Visits(r, st)
    ensures InOrder(r, st, r.st)
  {
  }
}
