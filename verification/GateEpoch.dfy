/** How a repository comes under the gate: the first epoch. */
module GateEpoch {
  import opened Graph
  import opened Objects
  import opened Namespace
  import opened GateObjects
  import opened Gate
  import opened GateLaws
  import opened GateRuns
  import opened GateSafety
  import opened GateWitness
  import opened Writeback
  import Signature

  /** What `tip` records as a config is decided: its commit and that commit's tree are present. */
  predicate Settled(s: Store, tip: Oid) {
    tip in s && (s[tip].Commit? ==> s[tip].tree in s)
  }

  ghost predicate HoldsEpoch(s: Store, after: Option<Oid>) {
    after.Some? && ConfigAt(s, after.value).Ok? && ConfigAt(s, after.value).value.epoch.Some?
  }

  lemma SettledIsFinal(s: Store, s': Store, tip: Oid)
    requires StoreGrows(s, s') && Settled(s, tip)
    ensures ConfigAt(s', tip) == ConfigAt(s, tip) && Settled(s', tip)
  {
    assert s'[tip] == s[tip];
    if s[tip].Commit? {
      assert s'[s[tip].tree] == s[s[tip].tree];
    }
  }

  // -- an id to spare -----------------------------------------------------------------------

  function Pow16(n: nat): nat {
    if n == 0 then 1 else 16 * Pow16(n - 1)
  }

  /** The number in hex, with as many digits as asked for. */
  function Numeral(k: nat, width: nat): (hex: string)
    ensures |hex| == width && forall c :: c in hex ==> '0' <= c <= '9' || 'a' <= c <= 'f'
  {
    if width == 0 then "" else Numeral(k / 16, width - 1) + [HexDigit(k % 16)]
  }

  lemma {:induction false} NumeralsApart(k: nat, j: nat, width: nat)
    requires k < Pow16(width) && j < Pow16(width) && k != j
    ensures Numeral(k, width) != Numeral(j, width)
  {
    var m := width - 1;
    assert Numeral(k, width)[..m] == Numeral(k / 16, m) && Numeral(j, width)[..m] == Numeral(j / 16, m);
    assert Numeral(k, width)[m] == HexDigit(k % 16) && Numeral(j, width)[m] == HexDigit(j % 16);
    if k / 16 != j / 16 {
      NumeralsApart(k / 16, j / 16, m);
    } else {
      DigitsApart(k % 16, j % 16);
    }
  }

  lemma DigitsApart(a: nat, b: nat)
    requires a < 16 && b < 16 && a != b
    ensures HexDigit(a) != HexDigit(b)
  {
  }

  /** Among more ids than are used, one is not. */
  lemma {:induction false} SomeUnusedNumeral(used: set<Oid>, n: nat) returns (k: nat)
    requires |used| < n <= Pow16(40)
    ensures k < n && Oid(Numeral(k, 40)) !in used
    decreases n
  {
    hide Pow16, Numeral;
    k := n - 1;
    var last := Oid(Numeral(k, 40));
    if last in used {
      k := SomeUnusedNumeral(used - {last}, n - 1);
      NumeralsApart(k, n - 1, 40);
    }
  }

  lemma {:induction false} SomeLongerOid(used: set<Oid>) returns (o: Oid)
    ensures o !in used && forall u :: u in used ==> |u.hex| < |o.hex|
    decreases |used|
  {
    if used == {} {
      o := Oid("");
    } else {
      var u :| u in used;
      var rest := SomeLongerOid(used - {u});
      o := Oid(seq(|u.hex| + |rest.hex| + 1, _ => '0'));
    }
  }

  /** An unused id, one of forty hex digits as long as there is one. */
  lemma SomeUnusedOid(used: set<Oid>) returns (o: Oid)
    ensures o !in used && (|used| < Pow16(40) ==> IsOid(o))
  {
    hide Pow16, Numeral;
    if |used| < Pow16(40) {
      var k := SomeUnusedNumeral(used, Pow16(40));
      o := Oid(Numeral(k, 40));
    } else {
      o := SomeLongerOid(used);
    }
  }

  /** Besides the config commit and the tree it names, the objects that arrive have proper ids. */
  predicate ProperArrivals(s: Store, s': Store, tip: Oid) {
    forall o :: o in s' && o !in s ==> o == tip || IsOid(o) || (tip in s && s[tip].Commit? && o == s[tip].tree)
  }

  /** A store in which a config that was undecided records an epoch. */
  lemma EpochCanArrive(s: Store, tip: Oid) returns (s': Store)
    requires !Settled(s, tip)
    ensures StoreGrows(s, s') && HoldsEpoch(s', Some(tip))
    ensures |s.Keys + {tip}| < Pow16(40) ==> ProperArrivals(s, s', tip)
  {
    hide Pow16, IsOid;
    var config := Tree([], Typed(map[], None, Some(Config(Some(0))), None, false));
    if tip in s {
      s' := s[s[tip].tree := config];
    } else {
      var tree := SomeUnusedOid(s.Keys + {tip});
      s' := s[tip := Commit(tree, [], "")][tree := config];
    }
  }

  lemma WavedThroughIff(env: Env, refs: Refs, s: Store, update: Update)
    requires CurrentEpoch(refs, s) == Ok(None) && IsMeta(update.name)
    ensures Verify(env, refs, s, update) == Ok(Admit(PreEpoch, update.name, Tip(refs, update.name))) <==>
              !RecordsEpoch(s, update)
  {
    hide Bound, Members, JudgeSigned, JudgeBootstrap, FindSigner, CurrentEpoch, Signature.Split, RecordsEpoch;
    if RecordsEpoch(s, update) {
      assert Gated(refs, s, update);
      GatedIsNotPreEpoch(env, refs, s, update);
    }
  }

  lemma GatedIsNotPreEpoch(env: Env, refs: Refs, s: Store, update: Update)
    requires IsMeta(update.name) && Gated(refs, s, update)
    ensures Verify(env, refs, s, update).Ok? && Verify(env, refs, s, update).value.Admit? ==>
              Verify(env, refs, s, update).value.kind in {TipInvariant, Bootstrap}
  {
    hide Verify, Members, Gated, Vouched, FirstEnrollment, Advances, IsMeta;
    if Members(refs) == [] {
      BootstrapIff(env, refs, s, update);
    } else {
      AdmitsIff(env, refs, s, update);
    }
  }

  /** Before any epoch, the gate waves a config through that later turns out to record one exactly when that config was
      not all there at the time of the verdict. */
  lemma UndecidedConfigSlipsThroughIff(env: Env, refs: Refs, s: Store, tip: Oid)
    requires CurrentEpoch(refs, s) == Ok(None)
    ensures !Settled(s, tip) <==>
              (Verify(env, refs, s, Update(CONFIG_REF, Some(tip))) ==
                 Ok(Admit(PreEpoch, CONFIG_REF, Tip(refs, CONFIG_REF)))
               && exists s' :: StoreGrows(s, s') && HoldsEpoch(s', Some(tip)))
    ensures !Settled(s, tip) && |s.Keys + {tip}| < Pow16(40) ==>
              exists s' :: StoreGrows(s, s') && HoldsEpoch(s', Some(tip)) && ProperArrivals(s, s', tip)
  {
    hide Bound, Members, JudgeSigned, JudgeBootstrap, FindSigner, CurrentEpoch, StoreGrows, Signature.Split;
    PolicyIsMeta(CONFIG_REF);
    var update := Update(CONFIG_REF, Some(tip));
    WavedThroughIff(env, refs, s, update);
    if Settled(s, tip) {
      forall s' | StoreGrows(s, s')
        ensures HoldsEpoch(s', Some(tip)) == RecordsEpoch(s, update)
      {
        SettledIsFinal(s, s', tip);
      }
    } else {
      var s' := EpochCanArrive(s, tip);
      assert StoreGrows(s, s') && HoldsEpoch(s', Some(tip));
    }
  }

  // -- whole runs ------------------------------------------------------------------------

  /** Every config is all there when it is judged. */
  ghost predicate ConfigsSettled(r: Run) {
    r.Then? ==> ConfigsSettled(r.before) && (r.step.Judge? ==> JudgesSettled(r.before.st, r.step.w))
  }

  ghost predicate JudgesSettled(st: State, w: nat) {
    w < |st.writers| && st.writers[w].todo != [] ==>
      var update := st.writers[w].todo[0];
      update.name == CONFIG_REF && update.after.Some? ==> Settled(st.store, update.after.value)
  }

  ghost predicate NeverInForce(r: Run) {
    !InForce(r.st.refs, r.st.store) && (r.Then? ==> NeverInForce(r.before))
  }

  /** An active admin-registered member signed the edit, and its tip descends from the one the verdict was about. */
  ghost predicate AdminAdvance(s: Store, e: Edit) {
    && e.kind == TipInvariant && e.signer.Some? && e.signer.value.1.state == Active
    && e.signer.value.1.provenance == AdminRegistered && e.after.Some?
    && (e.cas.Some? ==> Reaches(CommitGraph(s), e.after.value, e.cas.value))
  }

  ghost predicate EpochEdit(s: Store, e: Edit) {
    e.name == CONFIG_REF && e.after.Some? ==>
      Settled(s, e.after.value) && (HoldsEpoch(s, e.after) ==> AdminAdvance(s, e))
  }

  /** Every config in flight is all there, and one that records an epoch is an admin's. */
  ghost predicate EpochsAreAdmins(st: State) {
    && (forall e :: InFlight(st, e) ==> EpochEdit(st.store, e))
    && (CONFIG_REF in st.refs ==> Settled(st.store, st.refs[CONFIG_REF]))
  }

  lemma EpochEditGrows(s: Store, s': Store, e: Edit)
    requires StoreGrows(s, s') && EpochEdit(s, e)
    ensures EpochEdit(s', e)
  {
    hide ConfigAt, Reaches, Settled, CommitGraph;
    if e.name == CONFIG_REF && e.after.Some? {
      SettledIsFinal(s, s', e.after.value);
      GraphGrows(s, s');
      if HoldsEpoch(s, e.after) && e.cas.Some? {
        ReachesGrows(CommitGraph(s), CommitGraph(s'), e.after.value, e.cas.value);
      }
    }
  }

  /** A config judged while none is in force waits for no epoch unless an active admin signed it. */
  lemma JudgedEpochIsAdmins(env: Env, st: State, step: Step, e: Edit)
    requires JudgedNow(env, st, step, e) && JudgesSettled(st, step.w) && !InForce(st.refs, st.store)
    ensures EpochEdit(st.store, e)
  {
    hide Bound, Members, JudgeSigned, JudgeBootstrap, FindSigner, CurrentEpoch, Signature.Split, Reaches, CommitGraph,
      ConfigAt, SignerIfAny, Authorized;
    var update := st.writers[step.w].todo[0];
    if e.name == CONFIG_REF && HoldsEpoch(st.store, e.after) {
      PolicyIsMeta(CONFIG_REF);
      VerdictNamesItsRef(env, st.refs, st.store, update);
      assert RecordsEpoch(st.store, update);
      assert Gated(st.refs, st.store, update);
      AdmittedAdvances(env, st.refs, st.store, update);
      ConfigIsNoEnrollment(env, st.refs, st.store, update);
      var id, member := AdmittedBy(env, st.refs, st.store, update);
      ConfigIsCanonical(id, member);
    }
  }

  lemma ConfigIsNoEnrollment(env: Env, refs: Refs, s: Store, update: Update)
    requires update.name == CONFIG_REF && Gated(refs, s, update)
    requires Verify(env, refs, s, update).Ok? && Verify(env, refs, s, update).value.Admit?
    ensures Members(refs) != []
  {
    hide Verify, Members, Gated, Advances, Classify;
    PolicyIsMeta(CONFIG_REF);
    if Members(refs) == [] {
      BootstrapIff(env, refs, s, update);
      assert false;
    }
  }

  lemma ConfigIsCanonical(id: string, member: Member)
    requires Authorized(CONFIG_REF, id, member)
    ensures member.provenance == AdminRegistered
  {
    if member.provenance == SelfAttested {
      PolicyIsMeta(CONFIG_REF);
      SelfAttestedStaysHome(CONFIG_REF, id, member);
      OwnSegmentsAreApart(CONFIG_REF, id);
    }
  }

  lemma StepKeepsEpochs(env: Env, st: State, step: Step, st': State)
    requires Next(env, st, step, st') && EpochsAreAdmins(st) && !InForce(st.refs, st.store)
    requires step.Judge? ==> JudgesSettled(st, step.w)
    ensures EpochsAreAdmins(st')
  {
    hide Verify, Applied, Met, Judged, InFlight, InForce, SignerIfAny, Settled, JudgedNow, EpochEdit, JudgesSettled;
    assert StoreGrows(st.store, st'.store);
    forall e | InFlight(st', e)
      ensures EpochEdit(st'.store, e)
    {
      NewInFlight(env, st, step, st', e);
      if !InFlight(st, e) {
        JudgedAtJudge(env, st, step, e);
        JudgedEpochIsAdmins(env, st, step, e);
      }
      EpochEditGrows(st.store, st'.store, e);
    }
    if CONFIG_REF in st'.refs {
      if Tip(st'.refs, CONFIG_REF) == Tip(st.refs, CONFIG_REF) {
        SettledIsFinal(st.store, st'.store, st.refs[CONFIG_REF]);
      } else {
        var e := MovedByEdit(env, st, step, st', CONFIG_REF);
        WaitsIn(st, step.w, e);
        EpochEditSettled(st.store, e);
      }
    }
  }

  lemma JudgedAtJudge(env: Env, st: State, step: Step, e: Edit)
    requires JudgedNow(env, st, step, e)
    ensures step.Judge?
  {
  }

  lemma EpochEditSettled(s: Store, e: Edit)
    requires EpochEdit(s, e) && e.name == CONFIG_REF && e.after.Some?
    ensures Settled(s, e.after.value)
  {
  }

  lemma {:induction false} RunKeepsEpochs(env: Env, r: Run)
    requires IsRun(env, r) && Idle(First(r)) && ConfigsSettled(r)
    requires CONFIG_REF in First(r).refs ==> Settled(First(r).store, First(r).refs[CONFIG_REF])
    requires r.Then? ==> NeverInForce(r.before)
    ensures EpochsAreAdmins(r.st)
    decreases r
  {
    hide Next, InForce, EpochEdit, Settled, InFlight;
    if r.Then? {
      RunKeepsEpochs(env, r.before);
      StepKeepsEpochs(env, r.before.st, r.step, r.st);
    } else {
      IdleCarriesNothing(r.st);
    }
  }

  /** However writers interleave, the first state under an epoch is reached by one write to the config ref: signed by
      an active admin-registered member, descending from the tip its verdict was about, and so from the tip it replaces,
      the writer's own read, when the tip the verdict was about descends from that. */
  lemma EpochOpensUnderAdmin(env: Env, r: Run) returns (e: Edit)
    requires IsRun(env, r) && Idle(First(r)) && ConfigsSettled(r)
    requires CONFIG_REF in First(r).refs ==> Settled(First(r).store, First(r).refs[CONFIG_REF])
    requires r.Then? && NeverInForce(r.before) && InForce(r.st.refs, r.st.store)
    ensures r.step.Apply? && InFlight(r.before.st, e)
    ensures e.name == CONFIG_REF && Tip(r.st.refs, CONFIG_REF) == e.after && AdminAdvance(r.st.store, e)
    ensures e.expected == Tip(r.before.st.refs, CONFIG_REF)
    ensures var g := CommitGraph(r.st.store);
            e.expected.Some? && e.cas.Some? && Reaches(g, e.cas.value, e.expected.value) ==>
              Reaches(g, e.after.value, e.expected.value)
  {
    hide Verify, Applied, Met, Judged, InFlight, SignerIfAny, Settled, JudgedNow, ConfigAt, Reaches,
      CommitGraph;
    var st, st' := r.before.st, r.st;
    RunKeepsEpochs(env, r.before);
    if Tip(st'.refs, CONFIG_REF) == Tip(st.refs, CONFIG_REF) {
      SettledIsFinal(st.store, st'.store, st.refs[CONFIG_REF]);
      assert false;
    }
    e := MovedByEdit(env, st, r.step, st', CONFIG_REF);
    WaitsIn(st, r.step.w, e);
    assert EpochEdit(st.store, e) && st'.store == st.store;
    var g := CommitGraph(st'.store);
    if e.expected.Some? && e.cas.Some? && Reaches(g, e.cas.value, e.expected.value) {
      ReachesTrans(g, e.after.value, e.cas.value, e.expected.value);
    }
  }

  // -- the two reads ------------------------------------------------------------------------

  /** Whenever the edit is written while no epoch is in force, whatever was written before that, it descends from the
      config it replaces. */
  ghost predicate OpensOnHistory(env: Env, st: State, e: Edit)
    requires e.after.Some?
  {
    forall r :: IsRun(env, r) && First(r) == st && NeverInForce(r) && Met(r.st.refs, [e]) && CONFIG_REF in r.st.refs ==>
      Reaches(CommitGraph(r.st.store), e.after.value, r.st.refs[CONFIG_REF])
  }

  /** Before the epoch the writer's own read decides, not the verdict's: a config edit descends from what it replaces in
      every run from here if and only if it descends from the tip its writer read, or was to be the first config. */
  lemma ReadDecidesHistoryIff(env: Env, st: State, e: Edit)
    requires e.name == CONFIG_REF && e.after.Some? && CurrentEpoch(st.refs, st.store) == Ok(None)
    requires !HoldsEpoch(st.store, e.expected)
    ensures OpensOnHistory(env, st, e) <==>
              e.expected.None? || Reaches(CommitGraph(st.store), e.after.value, e.expected.value)
  {
    hide Reaches, CommitGraph, Met, IsRun, First, NeverInForce, CurrentEpoch, ConfigAt;
    if e.expected.None? || Reaches(CommitGraph(st.store), e.after.value, e.expected.value) {
      forall r | IsRun(env, r) && First(r) == st && NeverInForce(r) && Met(r.st.refs, [e]) && CONFIG_REF in r.st.refs
        ensures Reaches(CommitGraph(r.st.store), e.after.value, r.st.refs[CONFIG_REF])
      {
        OneEdit(r.st.refs, e);
        RunGrows(env, r);
        GraphGrows(st.store, r.st.store);
        ReachesGrows(CommitGraph(st.store), CommitGraph(r.st.store), e.after.value, e.expected.value);
      }
    } else {
      var r := ReadRestored(env, st, e);
    }
  }

  /** A run, out of force throughout, that puts the config back to the tip the writer read. */
  lemma ReadRestored(env: Env, st: State, e: Edit) returns (r: Run)
    requires e.name == CONFIG_REF && e.expected.Some? && CurrentEpoch(st.refs, st.store) == Ok(None)
    requires !HoldsEpoch(st.store, e.expected)
    ensures IsRun(env, r) && First(r) == st && NeverInForce(r) && Met(r.st.refs, [e])
    ensures r.st.store == st.store && Tip(r.st.refs, CONFIG_REF) == e.expected
  {
    hide Verify, Met, IsRun, First, ConfigAt, Judged;
    RunStarts(env, st);
    PolicyIsMeta(CONFIG_REF);
    r := Start(st);
    assert NeverInForce(r);
    if Tip(st.refs, CONFIG_REF) != e.expected {
      var update := Update(CONFIG_REF, e.expected);
      WavedThroughIff(env, st.refs, st.store, update);
      WriterLands(env, Start(st), update);
      r := WithWriter(env, Start(st), update);
      assert NeverInForce(r.before.before.before) && NeverInForce(r.before.before) && NeverInForce(r.before);
    }
    OneEdit(r.st.refs, e);
  }

  lemma ConfigSettled(tip: Oid)
    requires IsConfig(tip)
    ensures Settled(STORE, tip)
  {
    hide STORE;
    Stored(tip);
    TreesStored();
  }

  /** A run so far out of force, whose configs were all there when judged. */
  ghost predicate OutOfForce(r: Run) {
    IsRun(ENV, r) && NeverInForce(r) && ConfigsSettled(r)
  }

  lemma GoesOn(r: Run, step: Step, st: State)
    requires OutOfForce(r) && Next(ENV, r.st, step, st) && !InForce(st.refs, st.store)
    requires step.Judge? ==> JudgesSettled(r.st, step.w)
    ensures OutOfForce(Then(r, step, st)) && First(Then(r, step, st)) == First(r)
  {
    hide Next, InForce, JudgesSettled;
  }

  /** A plain config written over another, undisturbed, keeps the run out of force. */
  lemma PlainWritten(r: Run, under: Oid, tip: Oid) returns (r': Run)
    requires OutOfForce(r) && r.st.refs == Under(under) && r.st.store == STORE
    requires IsConfig(under) && !HasEpoch(under) && IsConfig(tip) && !HasEpoch(tip)
    ensures OutOfForce(r') && First(r') == First(r)
    ensures r'.st == State(Under(tip), STORE, r.st.writers + [IDLE])
  {
    hide STORE, Verify, InForce, OutOfForce, Judged, Settled, Under, Next, SignerIfAny, First;
    var update, st, k := Update(CONFIG_REF, Some(tip)), r.st, |r.st.writers|;
    PlainWavedThrough(under, tip);
    PutConfig(under, tip);
    EpochUnder(under);
    EpochUnder(tip);
    ConfigSettled(tip);
    r' := WithWriter(ENV, r, update);
    var r3, r2, r1 := r'.before, r'.before.before, r'.before.before.before;
    var w := Writer([update], Some(Tip(st.refs, update.name)), []);
    Arrives(ENV, st, [update]);
    ReadStep(ENV, st, update);
    JudgeStep(ENV, st, w);
    JudgedOnly(ENV, st, w);
    ApplyStep(ENV, st, Judged(ENV, st.refs, st.store, w).edits[0]);
    GoesOn(r, Arrive([update]), r1.st);
    GoesOn(r1, Read(k), r2.st);
    GoesOn(r2, Judge(k), r3.st);
    GoesOn(r3, Apply(k), r'.st);
  }

  /** A writer has read the first config, and not yet asked for a verdict on the epoch. */
  lemma ReaderWaits() returns (r: Run)
    ensures OutOfForce(r) && First(r) == State(Under(PLAIN_A), STORE, [])
    ensures r.st == State(Under(PLAIN_A), STORE, [
                      Writer([Update(CONFIG_REF, Some(EPOCH_ON_B))], Some(Some(PLAIN_A)), [])])
  {
    hide STORE, InForce, Under, Next;
    var st, update := State(Under(PLAIN_A), STORE, []), Update(CONFIG_REF, Some(EPOCH_ON_B));
    EpochUnder(PLAIN_A);
    PutConfig(PLAIN_A, PLAIN_A);
    Arrives(ENV, st, [update]);
    ReadStep(ENV, st, update);
    var arrived := st.(writers := [] + [Writer([update], None, [])]);
    var read := st.(writers := [] + [Writer([update], Some(Some(PLAIN_A)), [])]);
    assert OutOfForce(Start(st));
    GoesOn(Start(st), Arrive([update]), arrived);
    GoesOn(Then(Start(st), Arrive([update]), arrived), Read(0), read);
    r := Then(Then(Start(st), Arrive([update]), arrived), Read(0), read);
  }

  /** The verdict on the epoch, about a config the waiting writer never read. */
  lemma VerdictOnOther(st: State) returns (st': State)
    requires st.refs == Under(PLAIN_B) && st.store == STORE && |st.writers| > 0
    requires st.writers[0] == Writer([Update(CONFIG_REF, Some(EPOCH_ON_B))], Some(Some(PLAIN_A)), [])
    ensures Next(ENV, st, Judge(0), st') && JudgesSettled(st, 0) && |st'.writers| == |st.writers|
    ensures st'.refs == st.refs && st'.store == st.store
    ensures exists e :: st'.writers[0] == Writer([], None, [e]) && e.name == CONFIG_REF
                        && e.expected == Some(PLAIN_A) && e.after == Some(EPOCH_ON_B)
  {
    hide STORE, Verify, Under, Judged, Settled, SignerIfAny, ParentOf;
    assert ParentOf(EPOCH_ON_B) == Some(PLAIN_B) by {
      ParentOfEpoch();
    }
    EpochAdmitted(PLAIN_B, EPOCH_ON_B);
    ConfigSettled(EPOCH_ON_B);
    var w := st.writers[0];
    JudgedOnly(ENV, st, w);
    var done := Judged(ENV, st.refs, st.store, w);
    st' := st.(writers := st.writers[0 := done]);
    assert done == Writer([], None, [done.edits[0]]);
  }

  lemma ParentOfEpoch()
    ensures ParentOf(EPOCH_ON_B) == Some(PLAIN_B) && ParentOf(PLAIN_B) == None && PLAIN_A != PLAIN_B
  {
  }

  /** The writer's own read and the verdict's read are separate, and before the epoch a ref may move back in between:
      here a writer reads the config at one commit, another moves it, the verdict on the first epoch is about the
      second commit, the config moves back, and the epoch replaces a commit it does not descend from. */
  lemma StaleReadLosesHistory() returns (r: Run)
    ensures IsRun(ENV, r) && Idle(First(r)) && ConfigsSettled(r)
    ensures CONFIG_REF in First(r).refs ==> Settled(First(r).store, First(r).refs[CONFIG_REF])
    ensures r.Then? && NeverInForce(r.before) && InForce(r.st.refs, r.st.store)
    ensures CONFIG_REF in r.before.st.refs && CONFIG_REF in r.st.refs
    ensures !Reaches(CommitGraph(r.st.store), r.st.refs[CONFIG_REF], r.before.st.refs[CONFIG_REF])
  {
    hide STORE, Verify, InForce, OutOfForce, Settled, Under, Reaches, CommitGraph, First, ParentOf, JudgesSettled, Next;
    var r0 := ReaderWaits();
    var r1 := PlainWritten(r0, PLAIN_A, PLAIN_B);
    assert r1.st.writers[0] == r0.st.writers[0];
    var judged := VerdictOnOther(r1.st);
    EpochUnder(PLAIN_B);
    GoesOn(r1, Judge(0), judged);
    var r2 := PlainWritten(Then(r1, Judge(0), judged), PLAIN_B, PLAIN_A);
    assert r2.st.writers[0] == judged.writers[0];
    var e :| judged.writers[0] == Writer([], None, [e]) && e.name == CONFIG_REF
      && e.expected == Some(PLAIN_A) && e.after == Some(EPOCH_ON_B);
    r := LastWrite(r2, e);
    PutConfig(PLAIN_A, EPOCH_ON_B);
    PutConfig(EPOCH_ON_B, EPOCH_ON_B);
    ConfigSettled(PLAIN_A);
    ParentOfEpoch();
    NotBelow(EPOCH_ON_B, PLAIN_A);
  }

  /** The waiting writer's own read is met again, and it writes. */
  lemma LastWrite(before: Run, e: Edit) returns (r: Run)
    requires OutOfForce(before) && before.st.refs == Under(PLAIN_A) && before.st.store == STORE
    requires |before.st.writers| > 0 && before.st.writers[0] == Writer([], None, [e])
    requires e.name == CONFIG_REF && e.expected == Some(PLAIN_A) && e.after == Some(EPOCH_ON_B)
    ensures IsRun(ENV, r) && First(r) == First(before) && ConfigsSettled(r) && NeverInForce(before)
    ensures r.Then? && r.before == before && r.st.refs == Under(EPOCH_ON_B) && r.st.store == STORE
    ensures InForce(r.st.refs, r.st.store)
  {
    hide STORE, InForce, Under, Applied, Met;
    PutConfig(PLAIN_A, EPOCH_ON_B);
    OneEdit(before.st.refs, e);
    EpochUnder(EPOCH_ON_B);
    var st := State(Under(EPOCH_ON_B), STORE, before.st.writers[0 := IDLE]);
    assert Next(ENV, before.st, Apply(0), st);
    r := Then(before, Apply(0), st);
  }
}
