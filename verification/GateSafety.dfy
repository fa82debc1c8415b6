/** What no run of the gate can do, whoever takes part. */
module GateSafety {
  import opened Graph
  import opened Objects
  import opened Namespace
  import opened GateObjects
  import opened Gate
  import opened GateLaws
  import opened GateRuns
  import Signature

  /** The ref an edit list leaves alone, and where a moved one ends up. */
  lemma {:induction false} AppliedTip(refs: Refs, edits: seq<Edit>, n: string)
    ensures Tip(Applied(refs, edits), n) == Tip(refs, n) ||
            exists e :: e in edits && e.name == n && Tip(Applied(refs, edits), n) == e.after
  {
    if edits != [] {
      var init, e := edits[..|edits| - 1], edits[|edits| - 1];
      assert e in edits && edits == init + [e];
      AppliedTip(refs, init, n);
      if e.name == n {
        assert Tip(Applied(refs, edits), n) == e.after;
      } else {
        assert Tip(Applied(refs, edits), n) == Tip(Applied(refs, init), n);
      }
    }
  }

  /** How a ref can move in one step: by an edit of the writer that applies. */
  lemma MovedByEdit(env: Env, st: State, step: Step, st': State, n: string) returns (e: Edit)
    requires Next(env, st, step, st') && Tip(st'.refs, n) != Tip(st.refs, n)
    ensures step.Apply? && step.w < |st.writers| && e in st.writers[step.w].edits
    ensures e.name == n && Tip(st'.refs, n) == e.after && Tip(st.refs, n) == e.expected
  {
    hide Applied;
    AppliedTip(st.refs, st.writers[step.w].edits, n);
    e :| e in st.writers[step.w].edits && e.name == n && Tip(st'.refs, n) == e.after;
  }

  /** `e` waits in some writer of the state. */
  ghost predicate InFlight(st: State, e: Edit) {
    exists w :: w in st.writers && e in w.edits
  }

  /** How an edit can come to be in flight: it was before, or its update was just judged. */
  lemma NewInFlight(env: Env, st: State, step: Step, st': State, e: Edit)
    requires Next(env, st, step, st') && InFlight(st', e)
    ensures InFlight(st, e) || JudgedNow(env, st, step, e)
  {
    hide Verify, Applied, Met, SignerIfAny;
    var w' :| w' in st'.writers && e in w'.edits;
    if w' in st.writers {
    } else if step.Read? || step.Judge? {
      var w := st.writers[step.w];
      assert w in st.writers;
      if step.Judge? && e !in w.edits {
        VerdictNamesItsRef(env, st.refs, st.store, w.todo[0]);
      }
    }
  }

  lemma VerdictNamesItsRef(env: Env, refs: Refs, s: Store, update: Update)
    requires Verify(env, refs, s, update).Ok? && Verify(env, refs, s, update).value.Admit?
    ensures Verify(env, refs, s, update).value.refname == update.name
    ensures Verify(env, refs, s, update).value.cas == Tip(refs, update.name)
  {
    hide Bound, OwnerMayMutate, FindSigner, FirstMatch, Signature.Split, Members, CurrentEpoch, RecordsEpoch,
      Authorized, Classify, Reaches;
  }

  lemma IdleCarriesNothing(st: State)
    requires Idle(st)
    ensures forall e :: !InFlight(st, e)
  {
  }

  ghost predicate JudgedNow(env: Env, st: State, step: Step, e: Edit) {
    && step.Judge? && step.w < |st.writers| && st.writers[step.w].todo != [] && st.writers[step.w].held.Some?
    && var update := st.writers[step.w].todo[0];
       && Verify(env, st.refs, st.store, update) == Ok(Admit(e.kind, e.name, e.cas))
       && e.name == update.name && e.after == update.after && e.expected == st.writers[step.w].held.value
       && e.signer == SignerIfAny(env, st.refs, st.store, update.after)
  }

  ghost predicate Idle(st: State) {
    forall w :: w in st.writers ==> w == IDLE
  }

  // -- issues and comments keep their named root -------------------------------------------

  ghost predicate EditRooted(env: Env, s: Store, e: Edit) {
    IsEntity(env, e.name) ==> e.after.Some? && Rooted(s, e.name, e.after.value)
  }

  /** Every issue or comment tip that is not the one found at the start has the one root its refname names. */
  ghost predicate EntitiesRooted(env: Env, was: Refs, st: State) {
    && (forall n :: n in st.refs && IsEntity(env, n) && Tip(was, n) != Some(st.refs[n]) ==>
         Rooted(st.store, n, st.refs[n]))
    && (forall e :: InFlight(st, e) ==> EditRooted(env, st.store, e))
  }

  lemma StepKeepsRoots(env: Env, was: Refs, st: State, step: Step, st': State)
    requires Next(env, st, step, st') && EntitiesRooted(env, was, st) && InForce(st.refs, st.store)
    ensures EntitiesRooted(env, was, st')
  {
    hide Rooted, IsEntity, InForce, Verify, Applied, Met, Judged, InFlight, SignerIfAny, Gated;
    assert StoreGrows(st.store, st'.store);
    forall n | n in st'.refs && IsEntity(env, n) && Tip(was, n) != Some(st'.refs[n])
      ensures Rooted(st'.store, n, st'.refs[n])
    {
      if Tip(st'.refs, n) == Tip(st.refs, n) {
        RootedGrows(st.store, st'.store, n, st.refs[n]);
      } else {
        var e := MovedByEdit(env, st, step, st', n);
        WaitsIn(st, step.w, e);
      }
    }
    forall e | InFlight(st', e)
      ensures EditRooted(env, st'.store, e)
    {
      NewInFlight(env, st, step, st', e);
      if InFlight(st, e) {
        if IsEntity(env, e.name) {
          RootedGrows(st.store, st'.store, e.name, e.after.value);
        }
      } else if IsEntity(env, e.name) {
        GatedInForce(st.refs, st.store, st.writers[step.w].todo[0]);
        AdmittedIsRooted(env, st.refs, st.store, st.writers[step.w].todo[0]);
      }
    }
  }

  lemma WaitsIn(st: State, w: nat, e: Edit)
    requires w < |st.writers| && e in st.writers[w].edits
    ensures InFlight(st, e)
  {
    assert st.writers[w] in st.writers;
  }

  /** Along any run with the epoch in force, each issue or comment tip placed since the start, in an inbox or not, keeps
      its named root. */
  lemma {:induction false} RunKeepsRoots(env: Env, r: Run)
    requires IsRun(env, r) && InForceThroughout(r) && Idle(First(r))
    ensures EntitiesRooted(env, First(r).refs, r.st)
    decreases r
  {
    hide Next, Rooted, IsEntity, InForce;
    if r.Then? {
      RunKeepsRoots(env, r.before);
      StepKeepsRoots(env, First(r).refs, r.before.st, r.step, r.st);
    }
  }

  /** Two issues or comments placed by a run whose histories meet name the same genesis, in inboxes or not. */
  lemma EntitiesNeverShareHistory(env: Env, r: Run, m: string, n: string, common: Oid)
    requires IsRun(env, r) && InForceThroughout(r) && Idle(First(r))
    requires m in r.st.refs && IsEntity(env, m) && Tip(First(r).refs, m) != Some(r.st.refs[m])
    requires n in r.st.refs && IsEntity(env, n) && Tip(First(r).refs, n) != Some(r.st.refs[n])
    requires Acyclic(CommitGraph(r.st.store)) && Complete(CommitGraph(r.st.store), common)
    requires Reaches(CommitGraph(r.st.store), r.st.refs[m], common)
    requires Reaches(CommitGraph(r.st.store), r.st.refs[n], common)
    ensures ParseOid(FinalSegment(m)) == ParseOid(FinalSegment(n))
  {
    hide Rooted, IsEntity, InForce, Reaches, Acyclic, Complete, InFlight, FinalSegment, ParseOid;
    RunKeepsRoots(env, r);
    SharedHistoryIsOneEntity(r.st.store, m, n, r.st.refs[m], r.st.refs[n], common);
  }

  // -- self-attested members stay in their own segments --------------------------------------

  /** `n` lies in the own segment of an enrolled self-attested member. */
  ghost predicate Owned(refs: Refs, s: Store, n: string) {
    exists id :: OwnSegment(n, id) && EnrolledSelfAttested(refs, s, id)
  }

  ghost predicate EnrolledSelfAttested(refs: Refs, s: Store, id: string) {
    && MEMBERS + id in refs && MemberCurrent(s, refs[MEMBERS + id]).Ok?
    && MemberCurrent(s, refs[MEMBERS + id]).value.provenance == SelfAttested
  }

  /** Every meta-ref in flight whose signer was found, was signed by a self-attested member. */
  ghost predicate SelfSigned(st: State) {
    forall e :: InFlight(st, e) && IsMeta(e.name) && e.signer.Some? ==> e.signer.value.1.provenance == SelfAttested
  }

  ghost predicate SelfSignedThroughout(r: Run) {
    SelfSigned(r.st) && (r.Then? ==> SelfSignedThroughout(r.before))
  }

  /** The edit lies in the own segment of the member found to have signed it, an enrolled self-attested one. */
  ghost predicate AtHome(refs: Refs, s: Store, e: Edit) {
    && e.signer.Some? && OwnSegment(e.name, e.signer.value.0)
    && EnrolledSelfAttested(refs, s, e.signer.value.0)
  }

  /** The run's writes to meta-refs were self-attested members'; what others had judged and never wrote does not count.
      */
  ghost predicate SelfSignedWrites(r: Run) {
    r.Then? ==> SelfSignedWrites(r.before) && forall e :: AppliedBy(r.before.st, r.step, e) ==> NotOthers(e)
  }

  /** If the edit is to a meta-ref and its signer was found, the signer is self-attested. */
  predicate NotOthers(e: Edit) {
    IsMeta(e.name) && e.signer.Some? ==> e.signer.value.1.provenance == SelfAttested
  }

  /** Since `was`, only the own segments of self-attested members moved, and what such members wait to move lies in the
      signer's own. */
  ghost predicate Confined(was: State, st: State) {
    && StoreGrows(was.store, st.store)
    && (forall n :: IsMeta(n) && Tip(st.refs, n) != Tip(was.refs, n) ==> Owned(was.refs, st.store, n))
    && (forall e :: InFlight(st, e) && IsMeta(e.name) && NotOthers(e) ==> AtHome(was.refs, st.store, e))
  }

  /** Every write of the run to a meta-ref lay in its own signer's segment. */
  ghost predicate MovesAtHome(was: State, r: Run) {
    r.Then? ==>
      && MovesAtHome(was, r.before)
      && (forall e :: AppliedBy(r.before.st, r.step, e) && IsMeta(e.name) ==> AtHome(was.refs, r.before.st.store, e))
  }

  /** The step writes the edit. */
  predicate AppliedBy(st: State, step: Step, e: Edit) {
    && step.Apply? && step.w < |st.writers| && Met(st.refs, st.writers[step.w].edits)
    && e in st.writers[step.w].edits
  }

  /** Member refs and the config ref are where they were. */
  predicate PolicyKept(was: Refs, now: Refs) {
    && Tip(now, CONFIG_REF) == Tip(was, CONFIG_REF)
    && MemberRefsKept(was, now)
  }

  predicate MemberRefsKept(was: Refs, now: Refs) {
    && (forall n :: n in was && MEMBERS <= n ==> n in now && now[n] == was[n])
    && (forall n :: n in now && MEMBERS <= n ==> n in was)
  }

  lemma ConfinedKeepsPolicy(was: State, st: State)
    requires Confined(was, st)
    ensures PolicyKept(was.refs, st.refs)
  {
    hide InFlight, IsMeta, OwnSegment, EnrolledSelfAttested;
    forall n | MEMBERS <= n || n == CONFIG_REF
      ensures Tip(st.refs, n) == Tip(was.refs, n)
    {
      PolicyIsMeta(n);
      if Tip(st.refs, n) != Tip(was.refs, n) {
        var id :| OwnSegment(n, id) && EnrolledSelfAttested(was.refs, st.store, id);
        OwnSegmentsAreApart(n, id);
        assert false;
      }
    }
    PolicyFromTips(was.refs, st.refs);
  }

  lemma PolicyFromTips(was: Refs, now: Refs)
    requires forall n :: MEMBERS <= n || n == CONFIG_REF ==> Tip(now, n) == Tip(was, n)
    ensures PolicyKept(was, now)
  {
    forall n | (n in was || n in now) && MEMBERS <= n
      ensures n in was && n in now && now[n] == was[n]
    {
      assert Tip(now, n) == Tip(was, n);
    }
  }

  lemma PolicyIsMeta(n: string)
    requires MEMBERS <= n || n == CONFIG_REF
    ensures IsMeta(n)
  {
  }

  lemma OwnedGrows(refs: Refs, s: Store, s': Store, n: string)
    requires StoreGrows(s, s') && Owned(refs, s, n)
    ensures Owned(refs, s', n)
  {
    var id :| OwnSegment(n, id) && EnrolledSelfAttested(refs, s, id);
    MemberGrows(s, s', refs[MEMBERS + id]);
    assert EnrolledSelfAttested(refs, s', id);
  }

  /** The member refs decide the member list. */
  lemma SameMembers(was: Refs, now: Refs)
    requires MemberRefsKept(was, now)
    ensures Members(now) == Members(was)
  {
    assert MemberNames(now) == MemberNames(was);
    var names := InStoreOrder(MemberNames(was));
    SameEnrolled(was, now, names);
  }

  lemma {:induction false} SameEnrolled(was: Refs, now: Refs, names: seq<string>)
    requires MemberRefsKept(was, now)
    requires forall n :: n in names ==> n in now && n in was && MEMBERS <= n
    ensures EnrolledAt(now, names) == EnrolledAt(was, names)
  {
    if names != [] {
      assert names[0] in names;
      assert forall m :: m in names[1..] ==> m in names;
      SameEnrolled(was, now, names[1..]);
    }
  }

  /** The signer a verdict rests on is enrolled, under the key and standing in force. */
  lemma VouchedIsEnrolled(env: Env, refs: Refs, s: Store, update: Update, id: string, member: Member)
    requires update.after.Some? && update.after.value in s && s[update.after.value].Commit?
    requires Signer(env, refs, s, update.after.value) == Ok(Some((id, member)))
    ensures MEMBERS + id in refs && MemberCurrent(s, refs[MEMBERS + id]) == Ok(member)
  {
    hide Signature.Split, MemberCurrent, Members;
  }

  /** What an admitted update rests on, with members enrolled. */
  lemma AdmittedBy(env: Env, refs: Refs, s: Store, update: Update) returns (id: string, member: Member)
    requires IsMeta(update.name) && Gated(refs, s, update) && Members(refs) != []
    requires Verify(env, refs, s, update).Ok? && Verify(env, refs, s, update).value.Admit?
    ensures Verify(env, refs, s, update).value.kind == TipInvariant
    ensures SignerIfAny(env, refs, s, update.after) == Some((id, member))
    ensures member.state == Active && Authorized(update.name, id, member)
    ensures MEMBERS + id in refs && MemberCurrent(s, refs[MEMBERS + id]) == Ok(member)
  {
    hide Verify, Bound, Reaches, Members, Gated, Signer, Authorized, MemberCurrent, IsMeta;
    AdmitsIff(env, refs, s, update);
    id, member :| Vouched(env, refs, s, update, id, member);
    VouchedIsEnrolled(env, refs, s, update, id, member);
  }

  lemma StepConfines(env: Env, was: State, st: State, step: Step, st': State)
    requires Next(env, st, step, st') && Confined(was, st)
    requires forall e :: AppliedBy(st, step, e) ==> NotOthers(e)
    requires InForce(was.refs, was.store) && Members(was.refs) != []
    ensures Confined(was, st')
  {
    hide InForce, Verify, Applied, Met, Judged, InFlight, SignerIfAny, Owned, Gated, IsMeta, Members, JudgedNow,
      Authorized, MemberCurrent, PolicyKept, AtHome;
    assert StoreGrows(st.store, st'.store);
    forall n | IsMeta(n) && Tip(st'.refs, n) != Tip(was.refs, n)
      ensures Owned(was.refs, st'.store, n)
    {
      if Tip(st'.refs, n) != Tip(st.refs, n) {
        var e := MovedByEdit(env, st, step, st', n);
        WaitsIn(st, step.w, e);
        AppliedWhenMoved(env, st, step, st', n, e);
        AtHomeGrows(was.refs, st.store, st'.store, e);
      } else {
        OwnedGrows(was.refs, st.store, st'.store, n);
      }
    }
    forall e | InFlight(st', e) && IsMeta(e.name) && NotOthers(e)
      ensures AtHome(was.refs, st'.store, e)
    {
      NewInFlight(env, st, step, st', e);
      if !InFlight(st, e) {
        JudgedIsAtHome(env, was, st, step, e);
      }
      AtHomeGrows(was.refs, st.store, st'.store, e);
    }
  }

  lemma AppliedWhenMoved(env: Env, st: State, step: Step, st': State, n: string, e: Edit)
    requires Next(env, st, step, st') && Tip(st'.refs, n) != Tip(st.refs, n)
    requires step.Apply? && step.w < |st.writers| && e in st.writers[step.w].edits
    ensures AppliedBy(st, step, e)
  {
    hide Applied, Met;
  }

  lemma AtHomeGrows(refs: Refs, s: Store, s': Store, e: Edit)
    requires StoreGrows(s, s') && AtHome(refs, s, e)
    ensures AtHome(refs, s', e) && Owned(refs, s', e.name)
  {
    MemberGrows(s, s', refs[MEMBERS + e.signer.value.0]);
    assert EnrolledSelfAttested(refs, s', e.signer.value.0);
  }

  lemma JudgedIsAtHome(env: Env, was: State, st: State, step: Step, e: Edit)
    requires Confined(was, st) && StoreGrows(was.store, st.store) && JudgedNow(env, st, step, e) && IsMeta(e.name)
    requires NotOthers(e)
    requires InForce(was.refs, was.store) && Members(was.refs) != []
    ensures AtHome(was.refs, st.store, e)
  {
    hide Verify, Applied, Met, Judged, InFlight, SignerIfAny, Gated, IsMeta, Members, Authorized, MemberCurrent,
      Confined, CurrentEpoch, MemberRefsKept, OwnSegment;
    var update := st.writers[step.w].todo[0];
    ConfinedKeepsPolicy(was, st);
    SameMembers(was.refs, st.refs);
    ConfinedInForce(was, st);
    GatedInForce(st.refs, st.store, update);
    var id, member := AdmittedBy(env, st.refs, st.store, update);
    SelfAttestedStaysHome(e.name, id, member);
    MemberRefKept(was.refs, st.refs, id);
    assert EnrolledSelfAttested(was.refs, st.store, id);
  }

  lemma MemberRefKept(was: Refs, now: Refs, id: string)
    requires MemberRefsKept(was, now) && MEMBERS + id in now
    ensures MEMBERS + id in was && was[MEMBERS + id] == now[MEMBERS + id]
  {
    assert MEMBERS <= MEMBERS + id;
  }

  lemma ConfinedInForce(was: State, st: State)
    requires StoreGrows(was.store, st.store) && PolicyKept(was.refs, st.refs) && InForce(was.refs, was.store)
    ensures InForce(st.refs, st.store)
  {
    EpochGrows(was.refs, st.refs, was.store, st.store);
  }

  /** A run all of whose meta-ref writes self-attested members signed, whatever others had judged and left unwritten,
      moves only refs in the segment of the member who signed the move: config, members, effects, issues and comments
      stay where they were, so the confinement sustains itself. */
  lemma {:induction false} SelfAttestedRunsAreConfined(env: Env, r: Run)
    requires IsRun(env, r) && SelfSignedWrites(r) && Idle(First(r))
    requires InForce(First(r).refs, First(r).store) && Members(First(r).refs) != []
    ensures Confined(First(r), r.st) && MovesAtHome(First(r), r)
    ensures PolicyKept(First(r).refs, r.st.refs) && InForce(r.st.refs, r.st.store)
    ensures forall n :: HashIdentified(n) || "refs/meta/effects/" <= n ==> Tip(r.st.refs, n) == Tip(First(r).refs, n)
    decreases r
  {
    hide Next, InForce, Members, Owned, HashIdentified, PolicyKept, AtHome, IsMeta, InFlight, Met;
    IdleCarriesNothing(First(r));
    if r.Then? {
      SelfAttestedRunsAreConfined(env, r.before);
      forall e | AppliedBy(r.before.st, r.step, e) && IsMeta(e.name)
        ensures AtHome(First(r).refs, r.before.st.store, e)
      {
        WaitsIn(r.before.st, r.step.w, e);
      }
      StepConfines(env, First(r), r.before.st, r.step, r.st);
    }
    ConfinedKeepsPolicy(First(r), r.st);
    ConfinedInForce(First(r), r.st);
    forall n | HashIdentified(n) || "refs/meta/effects/" <= n
      ensures Tip(r.st.refs, n) == Tip(First(r).refs, n)
    {
      ConfinedKeepsCanonical(First(r), r.st, n);
    }
  }

  lemma ConfinedKeepsCanonical(was: State, st: State, n: string)
    requires Confined(was, st) && (HashIdentified(n) || "refs/meta/effects/" <= n)
    ensures Tip(st.refs, n) == Tip(was.refs, n)
  {
    hide InFlight, OwnSegment, EnrolledSelfAttested;
    assert IsMeta(n);
    if Tip(st.refs, n) != Tip(was.refs, n) {
      var id :| OwnSegment(n, id) && EnrolledSelfAttested(was.refs, st.store, id);
      OwnSegmentsAreApart(n, id);
      assert false;
    }
  }

  ghost predicate AllSelfAttested(refs: Refs, s: Store) {
    forall id :: MEMBERS + id in refs ==> EnrolledSelfAttested(refs, s, id)
  }

  lemma {:induction false} SelfSignedThroughoutWrites(r: Run)
    requires SelfSignedThroughout(r)
    ensures SelfSignedWrites(r)
    decreases r
  {
    hide InFlight, Met, IsMeta;
    if r.Then? {
      SelfSignedThroughoutWrites(r.before);
      forall e | AppliedBy(r.before.st, r.step, e)
        ensures NotOthers(e)
      {
        WaitsIn(r.before.st, r.step.w, e);
        assert SelfSigned(r.before.st);
      }
    }
  }

  /** Where everyone enrolled is self-attested, nobody ever gains more: every run is confined, with no assumption on
      its writes. */
  lemma {:induction false} NobodyEscalates(env: Env, r: Run)
    requires IsRun(env, r) && Idle(First(r)) && AllSelfAttested(First(r).refs, First(r).store)
    requires InForce(First(r).refs, First(r).store) && Members(First(r).refs) != []
    ensures SelfSignedThroughout(r) && Confined(First(r), r.st) && MovesAtHome(First(r), r)
    decreases r
  {
    hide Next, InForce, Members, Owned, AllSelfAttested, PolicyKept, HashIdentified, InFlight;
    IdleCarriesNothing(First(r));
    if r.Then? {
      NobodyEscalates(env, r.before);
      SelfSignedThroughoutWrites(r.before);
      SelfAttestedRunsAreConfined(env, r.before);
      forall e | InFlight(r.st, e) && IsMeta(e.name) && e.signer.Some?
        ensures e.signer.value.1.provenance == SelfAttested
      {
        NewInFlight(env, r.before.st, r.step, r.st, e);
        if InFlight(r.before.st, e) {
        } else {
          SignersStaySelfAttested(env, First(r), r.before.st, r.step, e);
        }
      }
    }
    SelfSignedThroughoutWrites(r);
    SelfAttestedRunsAreConfined(env, r);
  }

  lemma SignersStaySelfAttested(env: Env, was: State, st: State, step: Step, e: Edit)
    requires JudgedNow(env, st, step, e) && e.signer.Some?
    requires StoreGrows(was.store, st.store) && PolicyKept(was.refs, st.refs)
    requires AllSelfAttested(was.refs, was.store)
    ensures e.signer.value.1.provenance == SelfAttested
  {
    hide Verify, MemberCurrent, Members, CommitTree, Signature.Split, FindSigner;
    var update := st.writers[step.w].todo[0];
    var (id, member) := e.signer.value;
    VouchedIsEnrolled(env, st.refs, st.store, update, id, member);
    MemberRefKept(was.refs, st.refs, id);
    assert EnrolledSelfAttested(was.refs, was.store, id);
    MemberGrows(was.store, st.store, was.refs[MEMBERS + id]);
  }

  // -- everyone revoked ------------------------------------------------------------------------

  ghost predicate EnrolledRevoked(refs: Refs, s: Store, id: string) {
    && MEMBERS + id in refs && MemberCurrent(s, refs[MEMBERS + id]).Ok?
    && MemberCurrent(s, refs[MEMBERS + id]).value.state == Revoked
  }

  ghost predicate AllRevoked(refs: Refs, s: Store) {
    forall id :: MEMBERS + id in refs ==> EnrolledRevoked(refs, s, id)
  }

  /** No meta-ref has moved since `was`, and none waits to. */
  ghost predicate Frozen(was: State, st: State) {
    && StoreGrows(was.store, st.store)
    && (forall n :: IsMeta(n) ==> Tip(st.refs, n) == Tip(was.refs, n))
    && (forall e :: InFlight(st, e) ==> !IsMeta(e.name))
  }

  lemma FrozenKeepsPolicy(was: State, st: State)
    requires Frozen(was, st)
    ensures PolicyKept(was.refs, st.refs)
  {
    hide InFlight, IsMeta;
    forall n | MEMBERS <= n || n == CONFIG_REF
      ensures Tip(st.refs, n) == Tip(was.refs, n)
    {
      PolicyIsMeta(n);
    }
    PolicyFromTips(was.refs, st.refs);
  }

  lemma RevokedAdmitsNothing(env: Env, was: State, st: State, step: Step, e: Edit)
    requires Frozen(was, st) && JudgedNow(env, st, step, e)
    requires InForce(was.refs, was.store) && Members(was.refs) != [] && AllRevoked(was.refs, was.store)
    ensures !IsMeta(e.name)
  {
    hide Verify, Applied, Met, Judged, InFlight, SignerIfAny, Gated, IsMeta, Members, Authorized, MemberCurrent, Frozen,
      CurrentEpoch, MemberRefsKept;
    if IsMeta(e.name) {
      var update := st.writers[step.w].todo[0];
      assert StoreGrows(was.store, st.store) by { FrozenGrows(was, st); }
      FrozenKeepsPolicy(was, st);
      SameMembers(was.refs, st.refs);
      ConfinedInForce(was, st);
      GatedInForce(st.refs, st.store, update);
      var id, member := AdmittedBy(env, st.refs, st.store, update);
      MemberRefKept(was.refs, st.refs, id);
      assert EnrolledRevoked(was.refs, was.store, id);
      MemberGrows(was.store, st.store, was.refs[MEMBERS + id]);
      assert false;
    }
  }

  lemma FrozenGrows(was: State, st: State)
    requires Frozen(was, st)
    ensures StoreGrows(was.store, st.store)
  {
  }

  /** With the epoch in force, members enrolled and every one of them revoked, no run ever moves a meta-ref again: the
      bootstrap window stays shut. */
  lemma {:induction false} AllRevokedIsFinal(env: Env, r: Run)
    requires IsRun(env, r) && Idle(First(r)) && AllRevoked(First(r).refs, First(r).store)
    requires InForce(First(r).refs, First(r).store) && Members(First(r).refs) != []
    ensures Frozen(First(r), r.st)
    ensures Members(r.st.refs) == Members(First(r).refs) && InForce(r.st.refs, r.st.store)
    decreases r
  {
    hide InForce, Members, AllRevoked, PolicyKept, InFlight, IsMeta, Verify, Applied, Met, Judged, JudgedNow;
    IdleCarriesNothing(First(r));
    if r.Then? {
      AllRevokedIsFinal(env, r.before);
      var was, st := First(r), r.before.st;
      forall e | InFlight(r.st, e)
        ensures !IsMeta(e.name)
      {
        NewInFlight(env, st, r.step, r.st, e);
        if !InFlight(st, e) {
          RevokedAdmitsNothing(env, was, st, r.step, e);
        }
      }
      forall n | IsMeta(n)
        ensures Tip(r.st.refs, n) == Tip(was.refs, n)
      {
        if Tip(r.st.refs, n) != Tip(st.refs, n) {
          var e := MovedByEdit(env, st, r.step, r.st, n);
          WaitsIn(st, r.step.w, e);
        }
      }
    }
    FrozenKeepsPolicy(First(r), r.st);
    ConfinedInForce(First(r), r.st);
    PolicyKeepsMembers(First(r).refs, r.st.refs);
  }

  lemma PolicyKeepsMembers(was: Refs, now: Refs)
    requires PolicyKept(was, now)
    ensures Members(now) == Members(was)
  {
    SameMembers(was, now);
  }
}
