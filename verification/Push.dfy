/** A hosted push: the hook judges every proposed transition, and git then moves the refs itself. */
module Push {
  import opened Graph
  import opened Objects
  import opened Namespace
  import opened GateObjects
  import opened Gate
  import opened GateLaws
  import opened GateRuns
  import opened GateSafety
  import opened GateWitness

  /** One transition of a push; `claimed` is the old tip the pusher names, which git checks and the hook does not read.
      */
  datatype Line = Line(claimed: Option<Oid>, update: Update)

  datatype PushError = Uncertified | Refused(refusals: seq<Verdict>) | Unjudged(error: GateError)

  /** The refusals among the verdicts, in order. */
  function Refusals(verdicts: seq<GateResult<Verdict>>): seq<Verdict> {
    if verdicts == [] then []
    else
      var last := verdicts[|verdicts| - 1];
      Refusals(verdicts[..|verdicts| - 1]) + (if last.Ok? && last.value.Refuse? then [last.value] else [])
  }

  lemma {:induction false} NoRefusals(verdicts: seq<GateResult<Verdict>>)
    requires forall v :: v in verdicts ==> v.Ok?
    ensures Refusals(verdicts) == [] <==> forall v :: v in verdicts ==> v.value.Admit?
  {
    if verdicts != [] {
      var init, last := verdicts[..|verdicts| - 1], verdicts[|verdicts| - 1];
      assert verdicts == init + [last] && last in verdicts;
      NoRefusals(init);
    }
  }

  /** The whole push passes or nothing does; a refusal reports every refused transition. */
  method PreReceive(certified: bool, verdicts: seq<GateResult<Verdict>>) returns (r: Result<(), PushError>)
    ensures r.Ok? <==> certified && forall v :: v in verdicts ==> v.Ok? && v.value.Admit?
    ensures certified && (forall v :: v in verdicts ==> v.Ok?) && r.Err? ==> r.error == Refused(Refusals(verdicts))
    ensures r.Err? && r.error.Unjudged? ==> Err(r.error.error) in verdicts
  {
    if !certified {
      return Err(Uncertified);
    }
    var failures: seq<Verdict> := [];
    for i := 0 to |verdicts|
      invariant failures == Refusals(verdicts[..i])
      invariant forall k :: 0 <= k < i ==> verdicts[k].Ok?
    {
      assert verdicts[..i + 1][..i] == verdicts[..i] && verdicts[..i + 1][i] == verdicts[i];
      if verdicts[i].Err? {
        assert verdicts[i] in verdicts;
        return Err(Unjudged(verdicts[i].error));
      }
      if verdicts[i].value.Refuse? {
        failures := failures + [verdicts[i].value];
      }
    }
    assert verdicts[..|verdicts|] == verdicts;
    NoRefusals(verdicts);
    if failures == [] {
      return Ok(());
    }
    return Err(Refused(failures));
  }

  ghost predicate Passed(env: Env, refs: Refs, s: Store, lines: seq<Line>) {
    forall l :: l in lines ==> Verify(env, refs, s, l.update).Ok? && Verify(env, refs, s, l.update).value.Admit?
  }

  /** What git applies: each ref from the tip the pusher claimed. */
  function EditsOf(lines: seq<Line>): (edits: seq<Edit>)
    ensures |edits| == |lines|
    ensures forall e :: e in edits ==> exists l :: l in lines && e.name == l.update.name
                                         && e.after == l.update.after && e.expected == l.claimed
  {
    if lines == [] then []
    else
      var l := lines[0];
      var edit := Edit(l.update.name, l.claimed, l.update.after, TipInvariant, l.claimed, None);
      var rest := EditsOf(lines[1..]);
      assert forall m :: m in lines[1..] ==> m in lines;
      assert l in lines;
      [edit] + rest
  }

  /** Whatever other writers did between the hook and git's own update, a passed push whose claims are the tips the hook
      judged only advances meta-refs. */
  lemma PushAdvances(env: Env, refs: Refs, s: Store, lines: seq<Line>, refs': Refs, s': Store)
    requires InForce(refs, s) && Passed(env, refs, s, lines) && StoreGrows(s, s')
    requires forall l :: l in lines && IsMeta(l.update.name) ==> l.claimed == Tip(refs, l.update.name)
    requires Met(refs', EditsOf(lines))
    ensures Advanced(refs', CommitGraph(s'), Applied(refs', EditsOf(lines)))
  {
    hide Verify, InForce, Reaches, IsMeta, Applied, Met;
    var g, g' := CommitGraph(s), CommitGraph(s');
    GraphGrows(s, s');
    forall e | e in EditsOf(lines)
      ensures EditOk(g', e)
    {
      var l :| l in lines && e.name == l.update.name && e.after == l.update.after && e.expected == l.claimed;
      if IsMeta(e.name) {
        GatedInForce(refs, s, l.update);
        AdmittedAdvances(env, refs, s, l.update);
        if e.expected.Some? {
          ReachesGrows(g, g', e.after.value, e.expected.value);
        }
      }
    }
    AppliedAdvances(g', refs', EditsOf(lines));
  }

  /** Whenever git gets to apply the push, whatever was written since the hook judged it, meta-refs only advance. */
  ghost predicate KeepsHistory(env: Env, hook: State, lines: seq<Line>) {
    forall r :: IsRun(env, r) && First(r) == hook && Met(r.st.refs, EditsOf(lines)) ==>
      Advanced(r.st.refs, CommitGraph(r.st.store), Applied(r.st.refs, EditsOf(lines)))
  }

  /** The claimed tip is the current one, or one the gate admits there. */
  ghost predicate Attainable(env: Env, hook: State, name: string, claimed: Oid) {
    || Tip(hook.refs, name) == Some(claimed)
    || (var v := Verify(env, hook.refs, hook.store, Update(name, Some(claimed))); v.Ok? && v.value.Admit?)
  }

  lemma OneLine(line: Line)
    ensures |EditsOf([line])| == 1
    ensures var e := EditsOf([line])[0];
            e.name == line.update.name && e.expected == line.claimed && e.after == line.update.after
  {
  }

  /** What applying a one-line push whose claim is met does to history. */
  lemma LineAdvancesIff(refs: Refs, s: Store, line: Line)
    requires Met(refs, EditsOf([line])) && IsMeta(line.update.name) && line.update.after.Some?
    ensures Advanced(refs, CommitGraph(s), Applied(refs, EditsOf([line]))) <==>
              line.claimed.None? || Reaches(CommitGraph(s), line.update.after.value, line.claimed.value)
  {
    hide Reaches, IsMeta, Applied, Met, CommitGraph, EditsOf;
    OneLine(line);
    var e, g := EditsOf([line])[0], CommitGraph(s);
    assert EditsOf([line]) == [e];
    OneEdit(refs, e);
    forall n | n in refs
      ensures Reaches(g, refs[n], refs[n])
    {
      ReachesSelf(g, refs[n]);
    }
    if line.claimed.Some? {
      assert e.name in refs && refs[e.name] == line.claimed.value;
    }
  }

  /** The hook passes a push without looking at the tip it claims to replace, so the claim decides: a passed one-line
      push keeps history, whatever is written in between, if and only if its new tip descends from the claimed one, or
      it claims there is none.  The claim is the current tip or one that another writer may put there first. */
  lemma ClaimDecides(env: Env, hook: State, line: Line)
    requires InForce(hook.refs, hook.store) && IsMeta(line.update.name)
    requires Passed(env, hook.refs, hook.store, [line])
    requires line.claimed.Some? ==> Attainable(env, hook, line.update.name, line.claimed.value)
    ensures line.update.after.Some?
    ensures KeepsHistory(env, hook, [line]) <==>
              line.claimed.None? || Reaches(CommitGraph(hook.store), line.update.after.value, line.claimed.value)
  {
    hide Verify, InForce, Reaches, IsMeta, CommitGraph, Applied, Met, EditsOf, Advanced, WithWriter, IsRun, First;
    var name, g := line.update.name, CommitGraph(hook.store);
    assert line in [line];
    GatedInForce(hook.refs, hook.store, line.update);
    AdmittedAdvances(env, hook.refs, hook.store, line.update);
    if line.claimed.None? || Reaches(g, line.update.after.value, line.claimed.value) {
      forall r | IsRun(env, r) && First(r) == hook && Met(r.st.refs, EditsOf([line]))
        ensures Advanced(r.st.refs, CommitGraph(r.st.store), Applied(r.st.refs, EditsOf([line])))
      {
        RunGrows(env, r);
        GraphGrows(hook.store, r.st.store);
        if line.claimed.Some? {
          ReachesGrows(g, CommitGraph(r.st.store), line.update.after.value, line.claimed.value);
        }
        LineAdvancesIff(r.st.refs, r.st.store, line);
      }
    } else {
      var r := ClaimMet(env, hook, line);
      LineAdvancesIff(r.st.refs, r.st.store, line);
    }
  }

  /** A run that makes an attainable claim true. */
  lemma ClaimMet(env: Env, hook: State, line: Line) returns (r: Run)
    requires line.claimed.Some? && Attainable(env, hook, line.update.name, line.claimed.value)
    ensures IsRun(env, r) && First(r) == hook && Met(r.st.refs, EditsOf([line])) && r.st.store == hook.store
  {
    hide Verify, Met, EditsOf, IsRun, First;
    OneLine(line);
    var e := EditsOf([line])[0];
    assert EditsOf([line]) == [e];
    RunStarts(env, hook);
    if Tip(hook.refs, line.update.name) == line.claimed {
      r := Start(hook);
    } else {
      var update := Update(line.update.name, line.claimed);
      WriterLands(env, Start(hook), update);
      r := WithWriter(env, Start(hook), update);
    }
    OneEdit(r.st.refs, e);
  }

  /** Such a push exists, with the epoch in force throughout: the hook judges against one config, another writer puts a
      second on top of it, and git then replaces the second by a third that stands beside it. */
  lemma StaleClaimLosesHistory() returns (hook: State, line: Line, r: Run)
    ensures Idle(hook) && InForceThroughout(r) && Passed(ENV, hook.refs, hook.store, [line])
    ensures IsRun(ENV, r) && First(r) == hook && Met(r.st.refs, EditsOf([line]))
    ensures !Advanced(r.st.refs, CommitGraph(r.st.store), Applied(r.st.refs, EditsOf([line])))
  {
    hide Verify, InForce, Reaches, IsMeta, CommitGraph, Applied, Met, EditsOf, Advanced, IsRun, First, STORE, Under;
    hook := State(Under(EPOCH), STORE, []);
    line := Line(Some(EPOCH_LEFT), Update(CONFIG_REF, Some(EPOCH_RIGHT)));
    var other := Update(CONFIG_REF, Some(EPOCH_LEFT));
    EpochAdmitted(EPOCH, EPOCH_LEFT);
    EpochAdmitted(EPOCH, EPOCH_RIGHT);
    RunStarts(ENV, hook);
    WriterLands(ENV, Start(hook), other);
    r := WithWriter(ENV, Start(hook), other);
    PutConfig(EPOCH, EPOCH_LEFT);
    PutConfig(EPOCH_LEFT, EPOCH_LEFT);
    EpochUnder(EPOCH);
    EpochUnder(EPOCH_LEFT);
    assert InForceThroughout(r.before.before.before.before);
    assert InForceThroughout(r.before.before.before) && InForceThroughout(r.before.before);
    assert InForceThroughout(r.before);
    OneLine(line);
    var e := EditsOf([line])[0];
    assert EditsOf([line]) == [e];
    OneEdit(r.st.refs, e);
    PolicyIsMeta(CONFIG_REF);
    NotBelow(EPOCH_RIGHT, EPOCH_LEFT);
    LineAdvancesIff(r.st.refs, r.st.store, line);
  }
}
