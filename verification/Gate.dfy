/** The admission judgment on one proposed ref update. */
module Gate {
  import opened Graph
  import opened Objects
  import opened Text
  import opened Namespace
  import opened GateObjects
  import Signature

  /** What the gate takes on trust: signature checking, UTF-8 and refname validity. */
  datatype Env = Env(
    verifies: (string, Bytes, string) -> bool,
    utf8: Bytes -> bool,
    validName: string -> bool)

  datatype Requirement = TipSigned | IdentityBinding | FastForward

  datatype AdmissionKind = TipInvariant | PreEpoch | Bootstrap | CodeRef

  /** `cas` is the tip the write must still find; `None` that the ref must not exist. */
  datatype Verdict =
    | Admit(kind: AdmissionKind, refname: string, cas: Option<Oid>)
    | Refuse(requirement: Requirement, refname: string)

  /** `after == None` proposes deletion. */
  datatype Update = Update(name: string, after: Option<Oid>)

  datatype Enrolled = Enrolled(id: string, tip: Oid)

  // -- policy ------------------------------------------------------------------

  /** The order in which a ref store lists names: any fixed one. */
  ghost function InStoreOrder(names: set<string>): (s: seq<string>)
    ensures forall n :: n in s <==> n in names
  {
    if names == {} then []
    else
      var n :| n in names;
      [n] + InStoreOrder(names - {n})
  }

  ghost function MemberNames(refs: Refs): set<string> {
    set n | n in refs && MEMBERS <= n
  }

  /** Exactly the refs under `refs/meta/member/`. */
  ghost function Members(refs: Refs): (ms: seq<Enrolled>)
    ensures ms == [] <==> MemberNames(refs) == {}
    ensures forall m :: m in ms <==> MEMBERS + m.id in refs && refs[MEMBERS + m.id] == m.tip
  {
    var names := InStoreOrder(MemberNames(refs));
    assert forall m: Enrolled :: MEMBERS + m.id in refs ==> MEMBERS + m.id in names by {
      assert forall m: Enrolled :: MEMBERS <= MEMBERS + m.id;
    }
    assert forall m: Enrolled :: (MEMBERS + m.id)[|MEMBERS|..] == m.id;
    EnrolledAt(refs, names)
  }

  function EnrolledAt(refs: Refs, names: seq<string>): (ms: seq<Enrolled>)
    requires forall n :: n in names ==> n in refs && MEMBERS <= n
    ensures |ms| == |names|
    ensures forall m :: m in ms ==> MEMBERS + m.id in refs && refs[MEMBERS + m.id] == m.tip
    ensures forall n :: n in names ==> Enrolled(n[|MEMBERS|..], refs[n]) in ms
  {
    if names == [] then []
    else
      var n := names[0];
      assert n in names && n == MEMBERS + n[|MEMBERS|..];
      assert forall m :: m in names[1..] ==> m in names;
      [Enrolled(n[|MEMBERS|..], refs[n])] + EnrolledAt(refs, names[1..])
  }

  /** The entity in force at a member ref's tip. */
  function MemberCurrent(s: Store, tip: Oid): GateResult<Member> {
    match CommitTree(s, tip)
    case Err(e) => Err(e)
    case Ok(tree) =>
      if tree in s && s[tree].Tree? && s[tree].typed.member.Some? then Ok(s[tree].typed.member.value)
      else Err(UnreadableEntity(tip))
  }

  function CommitTree(s: Store, oid: Oid): (r: GateResult<Oid>)
    ensures r.Ok? ==> oid in s && s[oid].Commit? && s[oid].tree == r.value
  {
    if Broken(s, oid) || !s[oid].Commit? then Err(ReadError(s, oid)) else Ok(s[oid].tree)
  }

  function ConfigAt(s: Store, oid: Oid): GateResult<Config> {
    match CommitTree(s, oid)
    case Err(e) => Err(e)
    case Ok(tree) =>
      if tree in s && s[tree].Tree? && s[tree].typed.config.Some? then Ok(s[tree].typed.config.value)
      else Err(UnreadableEntity(oid))
  }

  function CurrentEpoch(refs: Refs, s: Store): GateResult<Option<nat>> {
    match Tip(refs, CONFIG_REF)
    case None => Ok(None)
    case Some(tip) =>
      match ConfigAt(s, tip)
      case Err(e) => Err(e)
      case Ok(config) => Ok(config.epoch)
  }

  /** The update writes a config that records an epoch. */
  predicate RecordsEpoch(s: Store, update: Update) {
    && update.name == CONFIG_REF && update.after.Some?
    && ConfigAt(s, update.after.value).Ok? && ConfigAt(s, update.after.value).value.epoch.Some?
  }

  // -- who may write where -------------------------------------------------------

  /** Refname-keyed authorization of an identified, active signer. */
  predicate Authorized(name: string, id: string, member: Member) {
    match Classify(name)
    case None => true
    case Some(SelfRun) => SelfRunOwner(name) == Some(id)
    case Some(Inbox) => InboxOwner(name) == Some(id)
    case Some(_) => member.provenance == AdminRegistered
  }

  /** The member's entity is readable and its key in force verifies the signature. */
  predicate Matches(env: Env, s: Store, m: Enrolled, payload: Bytes, sig: string) {
    MemberCurrent(s, m.tip).Ok? && env.verifies(MemberCurrent(s, m.tip).value.key, payload, sig)
  }

  /** The first `i` members are readable, and none of their keys verifies the signature. */
  predicate PassedOver(env: Env, s: Store, members: seq<Enrolled>, i: nat, payload: Bytes, sig: string) {
    forall j :: 0 <= j < i && j < |members| ==>
      MemberCurrent(s, members[j].tip).Ok? && !Matches(env, s, members[j], payload, sig)
  }

  /** Who a scan of the member list finds: the first match, no one, or the unreadable entity it stops at. */
  predicate FirstMatch(
    env: Env, s: Store, members: seq<Enrolled>, payload: Bytes, sig: string, r: GateResult<Option<(string, Member)>>)
  {
    match r
    case Ok(None) => PassedOver(env, s, members, |members|, payload, sig)
    case Ok(Some((id, member))) =>
      exists i :: 0 <= i < |members| && PassedOver(env, s, members, i, payload, sig) && members[i].id == id
                  && Matches(env, s, members[i], payload, sig) && MemberCurrent(s, members[i].tip).value == member
    case Err(e) =>
      exists i :: 0 <= i < |members| && PassedOver(env, s, members, i, payload, sig)
                  && MemberCurrent(s, members[i].tip) == Err(e)
  }

  /** One member that does not match before the rest. */
  lemma MatchAfter(
    env: Env, s: Store, members: seq<Enrolled>, payload: Bytes, sig: string, r: GateResult<Option<(string, Member)>>)
    requires members != [] && PassedOver(env, s, members, 1, payload, sig)
    requires FirstMatch(env, s, members[1..], payload, sig, r)
    ensures FirstMatch(env, s, members, payload, sig, r)
  {
    hide MemberCurrent;
    if r != Ok(None) {
      var i :| 0 <= i < |members[1..]| && PassedOver(env, s, members[1..], i, payload, sig)
        && match r
           case Ok(None) => true
           case Ok(Some((id, member))) =>
             && members[1..][i].id == id && Matches(env, s, members[1..][i], payload, sig)
             && MemberCurrent(s, members[1..][i].tip).value == member
           case Err(e) => MemberCurrent(s, members[1..][i].tip) == Err(e);
      assert PassedOver(env, s, members, i + 1, payload, sig) by {
        assert forall j :: 1 <= j < |members| ==> members[j] == members[1..][j - 1];
      }
    } else {
      assert forall j :: 1 <= j < |members| ==> members[j] == members[1..][j - 1];
    }
  }

  /** The first listed member whose key in force verifies the signature; an unreadable entity on the way stops it. */
  function FindSigner(env: Env, s: Store, members: seq<Enrolled>, payload: Bytes, sig: string)
    : (r: GateResult<Option<(string, Member)>>)
    ensures FirstMatch(env, s, members, payload, sig, r)
  {
    if members == [] then Ok(None)
    else
      match MemberCurrent(s, members[0].tip)
      case Err(e) =>
        assert PassedOver(env, s, members, 0, payload, sig);
        Err(e)
      case Ok(member) =>
        if env.verifies(member.key, payload, sig) then
          assert PassedOver(env, s, members, 0, payload, sig);
          Ok(Some((members[0].id, member)))
        else
          var r := FindSigner(env, s, members[1..], payload, sig);
          MatchAfter(env, s, members, payload, sig, r);
          r
  }

  // -- identity binding ------------------------------------------------------------

  /** The blob behind a top-level tree entry. */
  function Field(s: Store, tree: Oid, field: string): GateResult<Option<Bytes>> {
    if tree !in s then Err(MissingObject(tree))
    else
      match s[tree]
      case Tree(_, typed) => Ok(if field in typed.fields then Some(typed.fields[field]) else None)
      case Corrupt(isCommit) => if isCommit then Ok(None) else Err(UndecodableObject(tree))
      case _ => Ok(None)
  }

  /** A text field equals `expected`. */
  function FieldIs(env: Env, s: Store, tree: Oid, field: string, expected: string): GateResult<bool> {
    match Field(s, tree, field)
    case Err(e) => Err(e)
    case Ok(value) => Ok(value == Some(expected) && env.utf8(expected))
  }

  function HexDigit(n: nat): char
    requires n < 16
  {
    "0123456789abcdef"[n]
  }

  function HexOf(bytes: Bytes): string {
    if bytes == "" then ""
    else
      var code := bytes[0] as int % 256;
      [HexDigit(code / 16), HexDigit(code % 16)] + HexOf(bytes[1..])
  }

  /** The hex form of a raw 20-byte id field. */
  function FieldHex(s: Store, tree: Oid, field: string): GateResult<Option<string>> {
    match Field(s, tree, field)
    case Err(e) => Err(e)
    case Ok(None) => Ok(None)
    case Ok(Some(bytes)) => Ok(if |bytes| == 20 then Some(HexOf(bytes)) else None)
  }

  function ParseOid(hex: string): Option<Oid> {
    if |hex| == 40 && forall c :: c in hex ==> IsHexDigit(c) then Some(Oid(Lower(hex))) else None
  }

  ghost function RootSet(s: Store, tip: Oid): set<Oid> {
    set r | r in s && IsRoot(CommitGraph(s), tip, r)
  }

  ghost function SomeBroken(s: Store, tip: Oid): (o: Oid)
    requires !Walkable(s, tip)
    ensures Reaches(CommitGraph(s), tip, o) && Broken(s, o)
  {
    var o :| Reaches(CommitGraph(s), tip, o) && Broken(s, o);
    o
  }

  ghost function Roots(s: Store, tip: Oid): GateResult<set<Oid>> {
    if Walkable(s, tip) then Ok(RootSet(s, tip)) else Err(ReadError(s, SomeBroken(s, tip)))
  }

  /** The refname's final segment is a commit id, and that commit is the one root of the tip's whole history. */
  ghost function BindHashIdentified(s: Store, name: string, tip: Oid): GateResult<bool> {
    match ParseOid(FinalSegment(name))
    case None => Ok(false)
    case Some(expected) =>
      match Roots(s, tip)
      case Err(e) => Err(e)
      case Ok(roots) => Ok(roots == {expected})
  }

  const RESULT_FIELDS := {"effect", "target", "status"}
  const CLAIM_FIELDS := {"signer", "binding", "verdict", "kind"}

  /** A genesis tree has only its entity's fields and decodes as it. */
  function StrictDecode(s: Store, tree: Oid, fields: set<string>, asResult: bool): GateResult<bool> {
    if tree !in s then Err(MissingObject(tree))
    else
      match s[tree]
      case Tree(entries, typed) =>
        Ok((forall i :: 0 <= i < |entries| ==> entries[i].name in fields)
           && (if asResult then typed.result.Some? else typed.claim))
      case Corrupt(isCommit) => if isCommit then Ok(false) else Err(UndecodableObject(tree))
      case _ => Ok(false)
  }

  function AndThen(a: GateResult<bool>, b: GateResult<bool>): GateResult<bool> {
    if a.Ok? && a.value then b else a
  }

  /** Whether the refname is the one the tip's signed content names, per namespace. */
  ghost function Bound(env: Env, s: Store, name: string, tip: Oid, signer: string): GateResult<bool>
    requires tip in s && s[tip].Commit?
    decreases |name|
  {
    var tree, parents := s[tip].tree, s[tip].parents;
    match Classify(name)
    case None => Ok(true)
    case Some(MemberSpace) => FieldIs(env, s, tree, "id", FinalSegment(name))
    case Some(Effect) => FieldIs(env, s, tree, "name", FinalSegment(name))
    case Some(Toolchain) => FieldIs(env, s, tree, "name", FinalSegment(name))
    case Some(Comment) => BindHashIdentified(s, name, tip)
    case Some(Issue) => BindHashIdentified(s, name, tip)
    case Some(Review) => BoundReview(s, name, tree, signer)
    case Some(ResultSpace) => BoundResult(env, s, name, tree, parents, signer, false)
    case Some(SelfRun) => BoundResult(env, s, name, tree, parents, signer, true)
    case Some(ClaimSpace) => BoundClaim(env, s, name, tip, tree, parents, signer)
    case Some(Inbox) =>
      if InboxOwner(name) != Some(signer) then Ok(false)
      else
        (match CanonicalOfInbox(name)
         case None => Ok(true)
         case Some(canonical) => if env.validName(canonical) then Bound(env, s, canonical, tip, signer) else Ok(true))
    case Some(_) => Ok(true)
  }

  function BoundReview(s: Store, name: string, tree: Oid, signer: string): GateResult<bool> {
    match ParseReviewRef(name)
    case None => Ok(false)
    case Some((target, member)) =>
      match FieldHex(s, tree, "target")
      case Err(e) => Err(e)
      case Ok(hex) => Ok(hex == Some(target) && signer == member)
  }

  function BoundResult(
    env: Env, s: Store, name: string, tree: Oid, parents: seq<Oid>, signer: string, own: bool): GateResult<bool>
  {
    match ParseResultRef(name)
    case None => Ok(false)
    case Some((effect, short)) =>
      var target := match FieldHex(s, tree, "target")
        case Err(e) => Err(e)
        case Ok(hex) => Ok(hex.Some? && short <= hex.value && (own ==> SelfRunOwner(name) == Some(signer)));
      AndThen(
        FieldIs(env, s, tree, "effect", effect),
        AndThen(target, if parents == [] then StrictDecode(s, tree, RESULT_FIELDS, true) else Ok(true)))
  }

  function BoundClaim(
    env: Env, s: Store, name: string, tip: Oid, tree: Oid, parents: seq<Oid>, signer: string): GateResult<bool>
  {
    match ParseOid(FinalSegment(name))
    case None => Ok(false)
    case Some(expected) =>
      if tip != expected || parents == [] then Ok(false)
      else AndThen(StrictDecode(s, tree, CLAIM_FIELDS, false), FieldIs(env, s, tree, "signer", signer))
  }

  // -- ownership ----------------------------------------------------------------------

  /** The member whose key in force signed `oid`. */
  function CommitSigner(env: Env, s: Store, members: seq<Enrolled>, oid: Oid): GateResult<Option<string>> {
    if Broken(s, oid) then Err(ReadError(s, oid))
    else if !s[oid].Commit? then Ok(None)
    else
      match Signature.Split(env.utf8, s[oid].raw)
      case None => Ok(None)
      case Some((payload, sig)) =>
        match FindSigner(env, s, members, payload, sig)
        case Err(e) => Err(e)
        case Ok(None) => Ok(None)
        case Ok(Some((id, _))) => Ok(Some(id))
  }

  /** Whether the member `id` signed the first root of the walk; a walk without roots names no one. */
  ghost function GenesisSignedBy(env: Env, s: Store, roots: set<Oid>, members: seq<Enrolled>, id: string)
    : GateResult<bool>
  {
    if roots == {} then Ok(false)
    else
      var root :| root in roots;
      match CommitSigner(env, s, members, root)
      case Err(e) => Err(e)
      case Ok(genesisSigner) => Ok(genesisSigner == Some(id))
  }

  /** An issue or comment advances only under its genesis signer or an admin, a review only under the member it names.
      */
  ghost function OwnerMayMutate(
    env: Env, s: Store, name: string, before: Option<Oid>, tip: Oid, members: seq<Enrolled>, id: string, signer: Member)
    : GateResult<bool>
  {
    match Classify(name)
    case Some(Review) =>
      (match ParseReviewRef(name)
       case None => Ok(true)
       case Some((_, member)) => Ok(id == member))
    case Some(space) =>
      if (space != Comment && space != Issue) || before.None? || signer.provenance == AdminRegistered then Ok(true)
      else
        (match Roots(s, tip)
         case Err(e) => Err(e)
         case Ok(roots) => GenesisSignedBy(env, s, roots, members, id))
    case None => Ok(true)
  }

  // -- the judgment -------------------------------------------------------------------

  /** With no member enrolled, only a first enrollment signed by the key it enrolls. */
  ghost function JudgeBootstrap(
    env: Env, s: Store, update: Update, tip: Oid, payload: Bytes, sig: string, before: Option<Oid>): Verdict
    requires tip in s && s[tip].Commit?
  {
    var name, tree := update.name, s[tip].tree;
    if Classify(name) != Some(MemberSpace) then Refuse(TipSigned, name)
    else if !(tree in s && s[tree].Tree? && s[tree].typed.member.Some?) then Refuse(TipSigned, name)
    else
      var pushed := s[tree].typed.member.value;
      if !env.verifies(pushed.key, payload, sig) then Refuse(TipSigned, name)
      else if !env.validName(MEMBERS + pushed.id) || MEMBERS + pushed.id != name then Refuse(IdentityBinding, name)
      else if before.Some? && !Reaches(CommitGraph(s), tip, before.value) then Refuse(FastForward, name)
      else Admit(Bootstrap, name, before)
  }

  /** The checks on a meta-ref update of an identified signer, in order. */
  ghost function JudgeSigned(
    env: Env, s: Store, name: string, before: Option<Oid>, tip: Oid, members: seq<Enrolled>, id: string, member: Member)
    : GateResult<Verdict>
    requires tip in s && s[tip].Commit?
  {
    if member.state == Revoked then Ok(Refuse(TipSigned, name))
    else if !Authorized(name, id, member) then Ok(Refuse(TipSigned, name))
    else
      match Bound(env, s, name, tip, id)
      case Err(e) => Err(e)
      case Ok(false) => Ok(Refuse(IdentityBinding, name))
      case Ok(true) =>
        match OwnerMayMutate(env, s, name, before, tip, members, id, member)
        case Err(e) => Err(e)
        case Ok(false) => Ok(Refuse(TipSigned, name))
        case Ok(true) =>
          if before.Some? && !Reaches(CommitGraph(s), tip, before.value) then Ok(Refuse(FastForward, name))
          else Ok(Admit(TipInvariant, name, before))
  }

  /** Verify one proposed update against the current refs and objects. */
  ghost function Verify(env: Env, refs: Refs, s: Store, update: Update): GateResult<Verdict> {
    var name, before := update.name, Tip(refs, update.name);
    if !IsMeta(name) then Ok(Admit(CodeRef, name, before))
    else
      match CurrentEpoch(refs, s)
      case Err(e) => Err(e)
      case Ok(epoch) =>
        if epoch.None? && !RecordsEpoch(s, update) then Ok(Admit(PreEpoch, name, before))
        else
          match update.after
          case None => Ok(Refuse(FastForward, name))
          case Some(tip) =>
            if Broken(s, tip) then Err(ReadError(s, tip))
            else if !s[tip].Commit? then Ok(Refuse(TipSigned, name))
            else
              match Signature.Split(env.utf8, s[tip].raw)
              case None => Ok(Refuse(TipSigned, name))
              case Some((payload, sig)) =>
                var members := Members(refs);
                if members == [] then Ok(JudgeBootstrap(env, s, update, tip, payload, sig, before))
                else
                  match FindSigner(env, s, members, payload, sig)
                  case Err(e) => Err(e)
                  case Ok(None) => Ok(Refuse(TipSigned, name))
                  case Ok(Some((id, member))) => JudgeSigned(env, s, name, before, tip, members, id, member)
  }
}
