/** What a commit query denotes against a ref state, and what one ref's movement can change about it. */
module Denotation {
  import opened Graph
  import opened Objects
  import opened Text
  import opened Query
  import Pattern

  /** One ref's movement; `None` is a ref that does not exist on that side. */
  datatype Transition = Transition(name: string, before: Option<Oid>, after: Option<Oid>)

  datatype Side = Old | New

  function TipAt(t: Transition, side: Side): Option<Oid> {
    if side == Old then t.before else t.after
  }

  /** The ref state seen from one side of a transition: the moved ref overridden, everything else as stored. */
  function View(refs: Refs, t: Option<Transition>, side: Side): Refs {
    match t
    case None => refs
    case Some(t) =>
      match TipAt(t, side)
      case Some(oid) => refs[t.name := oid]
      case None => refs - {t.name}
  }

  function AsSet(o: Option<Oid>): set<Oid> {
    match o
    case None => {}
    case Some(x) => {x}
  }

  // -- atoms ---------------------------------------------------------------

  /** The first candidate that names a ref. */
  function FirstNamed(view: Refs, names: seq<string>): (r: Option<string>)
    ensures r.Some? ==> r.value in names && r.value in view
    ensures r.None? ==> forall n :: n in names ==> n !in view
  {
    if names == [] then None
    else if names[0] in view then Some(names[0])
    else FirstNamed(view, names[1..])
  }

  function ResolvedRef(view: Refs, name: string): Option<string> {
    FirstNamed(view, DwimCandidates(name))
  }

  predicate GlobSelects(pattern: string, name: string) {
    "refs/" <= name && !("refs/meta/" <= name) && Pattern.Matches(pattern, name)
  }

  ghost function TermTips(view: Refs, term: RevTerm): set<Oid> {
    match term
    case Raw(oid) => {oid}
    case Name(name) => (match ResolvedRef(view, name) case None => {} case Some(n) => {view[n]})
    case Glob(pattern) => set n | n in view && GlobSelects(pattern, n) :: view[n]
  }

  ghost predicate TermReaches(g: Commits, view: Refs, term: RevTerm, c: Oid) {
    ReachesAny(g, TermTips(view, term), c)
  }

  ghost predicate TermsReach(g: Commits, view: Refs, terms: seq<RevTerm>, c: Oid) {
    exists t :: t in terms && TermReaches(g, view, t, c)
  }

  /** What a results tip records, when its commit and tree are readable. */
  function RecordOf(s: Store, tip: Oid): Option<ResultRecord> {
    if tip in s && s[tip].Commit? && s[tip].tree in s && s[s[tip].tree].Tree? then s[s[tip].tree].typed.result else None
  }

  function StatusOf(s: Store, tip: Oid): Option<Status> {
    match RecordOf(s, tip)
    case None => None
    case Some(record) => Some(record.status)
  }

  predicate ShortOf(effect: string, name: string) {
    ResultsPrefix(effect) <= name && name[|ResultsPrefix(effect)|..] != "" && '/' !in name[|ResultsPrefix(effect)|..]
  }

  /** The short-oid segment of a results refname, in lower case. */
  function Short(effect: string, name: string): string
    requires ShortOf(effect, name)
  {
    Lower(name[|ResultsPrefix(effect)|..])
  }

  predicate StatusAdmitted(s: Store, filter: StatusFilter, tip: Oid) {
    filter.Any? || (StatusOf(s, tip).Some? && Admits(filter, StatusOf(s, tip).value))
  }

  /** Ref `name` records a result of `effect` that counts for `c`. */
  predicate Records(s: Store, view: Refs, effect: string, filter: StatusFilter, name: string, c: Oid) {
    name in view && ShortOf(effect, name) && StatusAdmitted(s, filter, view[name]) && Short(effect, name) <= c.hex
  }

  ghost predicate HasResult(s: Store, view: Refs, effect: string, filter: StatusFilter, c: Oid) {
    exists name :: Records(s, view, effect, filter, name, c)
  }

  predicate MetaSelects(glob: string, name: string) {
    "refs/meta/" <= name && Pattern.Matches(glob, name)
  }

  ghost predicate IsMetaTip(view: Refs, glob: string, c: Oid) {
    exists name :: name in view && MetaSelects(glob, name) && view[name] == c
  }

  ghost function RefTips(view: Refs): set<Oid> {
    set n | n in view && "refs/" <= n :: view[n]
  }

  /** Reachable from some ref. */
  ghost predicate InUniverse(s: Store, view: Refs, c: Oid) {
    ReachesAny(CommitGraph(s), RefTips(view), c)
  }

  // -- queries -------------------------------------------------------------

  predicate Apply(op: SetOp, l: bool, r: bool) {
    match op
    case Union => l || r
    case Intersect => l && r
    case Difference => l && !r
  }

  /** Membership, as a single commit is tested. */
  ghost predicate Holds(s: Store, view: Refs, q: Query, c: Oid) {
    match q
    case Rev(e) =>
      TermsReach(CommitGraph(s), view, e.positive, c) && !TermsReach(CommitGraph(s), view, e.negative, c)
    case Results(effect, filter) => HasResult(s, view, effect, filter, c)
    case Meta(glob) => IsMetaTip(view, glob, c)
    case Op(op, l, r) => Apply(op, Holds(s, view, l, c), Holds(s, view, r, c))
  }

  /** The denoted set, as full evaluation enumerates it: `results` ranges over the commits reachable from refs. */
  ghost predicate Denotes(s: Store, view: Refs, q: Query, c: Oid) {
    match q
    case Results(effect, filter) => InUniverse(s, view, c) && HasResult(s, view, effect, filter, c)
    case Op(op, l, r) => Apply(op, Denotes(s, view, l, c), Denotes(s, view, r, c))
    case _ => Holds(s, view, q, c)
  }

  /** On commits reachable from refs, testing and enumerating agree, for every query tree. */
  lemma {:induction false} MemberIsDenoted(s: Store, view: Refs, q: Query, c: Oid)
    requires InUniverse(s, view, c)
    ensures Holds(s, view, q, c) <==> Denotes(s, view, q, c)
  {
    hide InUniverse;
    if q.Op? {
      MemberIsDenoted(s, view, q.lhs, c);
      MemberIsDenoted(s, view, q.rhs, c);
    }
  }

  // -- what a results atom selects --------------------------------------------

  /** `name` is the results ref of the effect with this short oid. */
  predicate NamesResult(name: string, effect: string, short: string) {
    name == "refs/meta/results/" + effect + "/" + short && short != "" && '/' !in short
  }

  /** A results ref of the effect, under a short oid that begins the id of `c`, records a status. */
  ghost predicate RecordedAs(s: Store, view: Refs, effect: string, status: Status, c: Oid) {
    exists name, short :: IsRecordedAs(s, view, effect, status, c, name, short)
  }

  predicate IsRecordedAs(
    s: Store, view: Refs, effect: string, status: Status, c: Oid, name: string, short: string)
  {
    && name in view && NamesResult(name, effect, short) && Lower(short) <= c.hex
    && RecordOf(s, view[name]).Some? && RecordOf(s, view[name]).value.status == status
  }

  lemma NamesResultIff(name: string, effect: string)
    ensures ShortOf(effect, name) <==> exists short :: NamesResult(name, effect, short)
    ensures forall short :: NamesResult(name, effect, short) ==>
              ShortOf(effect, name) && Short(effect, name) == Lower(short)
  {
    var p := "refs/meta/results/" + effect + "/";
    forall short | NamesResult(name, effect, short)
      ensures ShortOf(effect, name) && Short(effect, name) == Lower(short)
    {
      assert name[|p|..] == short;
    }
    if ShortOf(effect, name) {
      assert NamesResult(name, effect, name[|p|..]);
    }
  }

  /** A status atom selects the reachable commits some results ref of the effect records with exactly that status. */
  lemma StatusSelects(s: Store, view: Refs, effect: string, status: Status, c: Oid)
    ensures Holds(s, view, Results(effect, Only(status)), c) <==> RecordedAs(s, view, effect, status, c)
    ensures Denotes(s, view, Results(effect, Only(status)), c) <==>
              InUniverse(s, view, c) && RecordedAs(s, view, effect, status, c)
  {
    hide ShortOf, Short, RecordOf, NamesResult, Lower, InUniverse;
    if HasResult(s, view, effect, Only(status), c) {
      var n :| Records(s, view, effect, Only(status), n, c);
      NamesResultIff(n, effect);
      var short :| NamesResult(n, effect, short);
      assert IsRecordedAs(s, view, effect, status, c, n, short);
    }
    if RecordedAs(s, view, effect, status, c) {
      var n, short :| IsRecordedAs(s, view, effect, status, c, n, short);
      NamesResultIff(n, effect);
      assert Records(s, view, effect, Only(status), n, c);
    }
  }

  /** Where every results ref of the effect is readable, `any` selects what one of the three statuses does. */
  lemma AnyIsUnion(s: Store, view: Refs, effect: string, c: Oid)
    requires forall name, short :: name in view && NamesResult(name, effect, short) ==> RecordOf(s, view[name]).Some?
    ensures Holds(s, view, Results(effect, Any), c) <==>
              || RecordedAs(s, view, effect, Pass, c)
              || RecordedAs(s, view, effect, Fail, c)
              || RecordedAs(s, view, effect, Error, c)
  {
    hide ShortOf, Short, RecordOf, NamesResult, Lower;
    if HasResult(s, view, effect, Any, c) {
      var n :| Records(s, view, effect, Any, n, c);
      NamesResultIff(n, effect);
      var short :| NamesResult(n, effect, short);
      assert IsRecordedAs(s, view, effect, RecordOf(s, view[n]).value.status, c, n, short);
    }
    forall status | RecordedAs(s, view, effect, status, c)
      ensures HasResult(s, view, effect, Any, c)
    {
      var n, short :| IsRecordedAs(s, view, effect, status, c, n, short);
      NamesResultIff(n, effect);
      assert Records(s, view, effect, Any, n, c);
    }
  }

  // -- the transition frontier ---------------------------------------------

  /** The moved ref's short oid, when it is a result of `effect`. */
  predicate MovesShort(effect: string, t: Transition, c: Oid) {
    ShortOf(effect, t.name) && Short(effect, t.name) <= c.hex
  }

  ghost predicate Affects(patterns: seq<string>, name: string) {
    exists p :: p in patterns && Pattern.Matches(p, name)
  }

  /** Reached on exactly one side of the moved ref. */
  ghost predicate TipsDisagree(s: Store, t: Transition, c: Oid) {
    ReachesAny(CommitGraph(s), AsSet(t.before), c) != ReachesAny(CommitGraph(s), AsSet(t.after), c)
  }

  /** Commits whose membership in some atom of `q` can change under `t`: the symmetric difference of the moved ref's
      reach for `rev`, the tested commits for `results`, the two tips for `meta`. */
  ghost predicate Frontier(s: Store, view: Refs, q: Query, t: Transition, c: Oid) {
    match q
    case Rev(e) => Affects(RevPatterns(e), t.name) && TipsDisagree(s, t, c)
    case Results(effect, _) => MovesShort(effect, t, c) && InUniverse(s, view, c)
    case Meta(glob) => Pattern.Matches(glob, t.name) && (t.before == Some(c) || t.after == Some(c))
    case Op(_, l, r) => Frontier(s, view, l, t, c) || Frontier(s, view, r, t, c)
  }

  // -- when the frontier is exact -------------------------------------------

  /** The static patterns follow every name a term can resolve to. */
  predicate TermTracked(term: RevTerm) {
    term.Name? ==>
      '*' !in term.name && forall n :: n in DwimCandidates(term.name) ==> NewPattern(n).Ok? && '*' !in n
  }

  /** Every atom's refs show in the footprint. */
  predicate Tracked(q: Query) {
    match q
    case Rev(e) => forall t :: t in e.positive + e.negative ==> TermTracked(t)
    case Results(effect, _) => NewPattern(ResultsPrefix(effect) + "*").Ok?
    case Meta(_) => true
    case Op(_, l, r) => Tracked(l) && Tracked(r)
  }

  /** The step makes no short name change over between the moved ref and another lookup candidate, in the direction that
      matters: what enters minds only that no other candidate is uncovered, what leaves only that none is hidden. */
  ghost predicate TermKeeps(was: Refs, now: Refs, moved: string, term: RevTerm, entering: bool) {
    term.Name? ==>
      var a, b := ResolvedRef(was, term.name), ResolvedRef(now, term.name);
      a == b || a == None || b == None || (if entering then a != Some(moved) else b != Some(moved))
  }

  /** No term switches in a direction that lets a commit into the set, or, for `!entering`, out of it. */
  ghost predicate NoSwitch(was: Refs, now: Refs, moved: string, q: Query, entering: bool) {
    match q
    case Rev(e) =>
      && (forall t :: t in e.positive ==> TermKeeps(was, now, moved, t, entering))
      && (forall t :: t in e.negative ==> TermKeeps(was, now, moved, t, !entering))
    case Op(op, l, r) =>
      && NoSwitch(was, now, moved, l, entering)
      && NoSwitch(was, now, moved, r, if op.Difference? then !entering else entering)
    case _ => true
  }

  /** The moved results ref's short oid names at most one commit reachable after the step. */
  ghost predicate Unambiguous(s: Store, view: Refs, q: Query, t: Transition) {
    match q
    case Results(effect, _) =>
      forall a, b :: InUniverse(s, view, a) && InUniverse(s, view, b)
              && MovesShort(effect, t, a) && MovesShort(effect, t, b)
        ==> a == b
    case Op(_, l, r) => Unambiguous(s, view, l, t) && Unambiguous(s, view, r, t)
    case _ => true
  }

  // -- off the frontier nothing changes -------------------------------------

  lemma ViewOff(refs: Refs, t: Transition, n: string)
    requires n != t.name
    ensures n in View(refs, Some(t), Old) <==> n in View(refs, Some(t), New)
    ensures n in View(refs, Some(t), Old) ==> View(refs, Some(t), Old)[n] == View(refs, Some(t), New)[n]
  {
  }

  lemma ViewAt(refs: Refs, t: Transition, side: Side)
    ensures t.name in View(refs, Some(t), side) <==> TipAt(t, side).Some?
    ensures t.name in View(refs, Some(t), side) ==> View(refs, Some(t), side)[t.name] == TipAt(t, side).value
  {
  }

  /** Where the lookup never meets the moved ref, both sides find the same ref. */
  lemma {:induction false} FirstNamedOff(refs: Refs, t: Transition, names: seq<string>)
    requires t.name !in names
    ensures FirstNamed(View(refs, Some(t), Old), names) == FirstNamed(View(refs, Some(t), New), names)
  {
    if names != [] {
      assert names[0] in names;
      ViewOff(refs, t, names[0]);
      FirstNamedOff(refs, t, names[1..]);
    }
  }

  /** If neither side resolves to the moved ref, both resolve alike. */
  lemma {:induction false} FirstNamedElsewhere(refs: Refs, t: Transition, names: seq<string>)
    requires FirstNamed(View(refs, Some(t), Old), names) != Some(t.name)
    requires FirstNamed(View(refs, Some(t), New), names) != Some(t.name)
    ensures FirstNamed(View(refs, Some(t), Old), names) == FirstNamed(View(refs, Some(t), New), names)
  {
    if names != [] {
      if names[0] != t.name {
        ViewOff(refs, t, names[0]);
      }
      if names[0] !in View(refs, Some(t), Old) {
        FirstNamedElsewhere(refs, t, names[1..]);
      }
    }
  }

  // -- what evaluation can read -----------------------------------------------

  ghost predicate TermsComplete(g: Commits, view: Refs, terms: seq<RevTerm>) {
    forall t, x :: t in terms && x in TermTips(view, t) ==> Complete(g, x)
  }

  ghost predicate StatusesReadable(s: Store, view: Refs, effect: string, filter: StatusFilter) {
    filter.Any? || forall n :: n in view && ShortOf(effect, n) ==> StatusOf(s, view[n]).Some?
  }

  ghost predicate RefsComplete(s: Store, view: Refs) {
    forall x :: x in RefTips(view) ==> Complete(CommitGraph(s), x)
  }

  /** Every object full evaluation of `q` must read is there and decodes. */
  ghost predicate Evaluable(s: Store, view: Refs, q: Query) {
    match q
    case Rev(e) =>
      TermsComplete(CommitGraph(s), view, e.positive) && TermsComplete(CommitGraph(s), view, e.negative)
    case Results(effect, filter) => StatusesReadable(s, view, effect, filter) && RefsComplete(s, view)
    case Meta(_) => true
    case Op(_, l, r) => Evaluable(s, view, l) && Evaluable(s, view, r)
  }

  ghost predicate TipsOfTerms(view: Refs, terms: seq<RevTerm>, tips: seq<Oid>) {
    forall x :: x in tips <==> exists t :: t in terms && x in TermTips(view, t)
  }

  lemma TipsReachTerms(g: Commits, view: Refs, terms: seq<RevTerm>, tips: seq<Oid>, c: Oid)
    requires TipsOfTerms(view, terms, tips)
    ensures ReachesAny(g, Tips(tips), c) <==> TermsReach(g, view, terms, c)
  {
    hide Reaches, TermTips;
    if ReachesAny(g, Tips(tips), c) {
      var x :| x in Tips(tips) && Reaches(g, x, c);
      assert x in tips;
      var t :| t in terms && x in TermTips(view, t);
      assert TermReaches(g, view, t, c);
    }
    if TermsReach(g, view, terms, c) {
      var t :| t in terms && TermReaches(g, view, t, c);
      var x :| x in TermTips(view, t) && Reaches(g, x, c);
      assert x in tips;
    }
  }

  lemma TipsCompleteTerms(g: Commits, view: Refs, terms: seq<RevTerm>, tips: seq<Oid>)
    requires TipsOfTerms(view, terms, tips)
    ensures (forall x :: x in tips ==> Complete(g, x)) <==> TermsComplete(g, view, terms)
  {
    hide Complete, TermTips;
  }

  predicate PrefixMatches(shorts: seq<string>, c: Oid) {
    exists w :: w in shorts && w <= c.hex
  }

  /** The index lists the short oids of the counting results refs. */
  ghost predicate IndexOf(s: Store, view: Refs, effect: string, filter: StatusFilter, shorts: seq<string>) {
    forall w :: w in shorts <==>
      exists n :: n in view && ShortOf(effect, n) && StatusAdmitted(s, filter, view[n]) && Short(effect, n) == w
  }

  lemma IndexDecidesResults(s: Store, view: Refs, effect: string, filter: StatusFilter, shorts: seq<string>, c: Oid)
    requires IndexOf(s, view, effect, filter, shorts)
    ensures PrefixMatches(shorts, c) <==> HasResult(s, view, effect, filter, c)
  {
    hide ShortOf, StatusAdmitted, Short;
    if PrefixMatches(shorts, c) {
      var w :| w in shorts && w <= c.hex;
      var n :| n in view && ShortOf(effect, n) && StatusAdmitted(s, filter, view[n]) && Short(effect, n) == w;
      assert Records(s, view, effect, filter, n, c);
    }
    if HasResult(s, view, effect, filter, c) {
      var n :| Records(s, view, effect, filter, n, c);
      assert Short(effect, n) in shorts;
    }
  }
}
