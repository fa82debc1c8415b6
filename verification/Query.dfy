/** The commit-query language: ref patterns, revision expressions, the syntax tree and its canonical text. */
module Query {
  import opened Graph
  import opened Objects
  import opened Text
  import Pattern

  datatype ParseError =
    | UnexpectedEnd
    | UnknownAtom(name: string)
    | Expected(expected: string, at: nat)
    | Unbalanced(at: nat)
    | Trailing(rest: string)
    | BadStatus(got: string)
    | BadEffectName(got: string)
    | SelfKeyword
    | MetaInRev(pattern: string)
    | MetaGlobOutside(glob: string)
    | MetaGlobEffectWritten(glob: string, namespace: string)
    | EmptyRev
    | NoPositiveRev
    | UnsupportedRev(token: string)
    | BadPattern(pattern: string, why: string)

  type ParseResult<+T> = Result<T, ParseError>

  // -- ref patterns ------------------------------------------------------

  const NO_REFNAME_BYTE := "\\()|&,?["

  function NewPattern(pattern: string): (r: ParseResult<string>)
    ensures r.Ok? ==> r.value == pattern && PlainPattern(pattern)
    ensures r.Err? ==> r.error.BadPattern?
  {
    if pattern == "" then Err(BadPattern(pattern, "empty pattern"))
    else if exists i :: 0 <= i < |pattern| && (IsAsciiWhitespace(pattern[i]) || IsAsciiControl(pattern[i])) then
      Err(BadPattern(pattern, "whitespace or control byte"))
    else if exists i :: 0 <= i < |pattern| && pattern[i] in NO_REFNAME_BYTE then
      Err(BadPattern(pattern, "byte a refname cannot carry"))
    else if HasSubstring(pattern, "..") || HasSubstring(pattern, "//") then
      Err(BadPattern(pattern, "empty or dot-dot path segment"))
    else if pattern[0] == '/' || pattern[|pattern| - 1] == '/' then
      Err(BadPattern(pattern, "leading or trailing slash"))
    else Ok(pattern)
  }

  /** No grammar punctuation: an accepted pattern can stand between parentheses as it is. */
  predicate PlainPattern(pattern: string) {
    && pattern != ""
    && forall i :: 0 <= i < |pattern| ==>
         pattern[i] !in NO_REFNAME_BYTE && !IsAsciiWhitespace(pattern[i]) && !IsAsciiControl(pattern[i])
  }

  function LiteralPrefix(pattern: string): string {
    if pattern == "" || pattern[0] == '*' then "" else [pattern[0]] + LiteralPrefix(pattern[1..])
  }

  // -- revision expressions ----------------------------------------------

  datatype RevTerm = Name(name: string) | Glob(pattern: string) | Raw(oid: Oid)

  datatype RevExpr = RevExpr(positive: seq<RevTerm>, negative: seq<RevTerm>, raw: string)

  /** The lookup order of a short refname; a full `refs/` name is its own single candidate. */
  function DwimCandidates(name: string): seq<string> {
    if "refs/" <= name then [name]
    else ["refs/" + name, "refs/tags/" + name, "refs/heads/" + name, "refs/remotes/" + name]
  }

  predicate PlainTerm(t: RevTerm) {
    t.Name? ==>
      NewPattern(t.name).Ok? && '*' !in t.name && forall c :: c in DwimCandidates(t.name) ==> !("refs/meta" <= c)
  }

  function ParseRevTerm(term: string, token: string): (r: ParseResult<RevTerm>)
    ensures r.Ok? ==> '(' !in term && ')' !in term && PlainTerm(r.value)
  {
    if term == "" || exists c :: c in term && c in "~:@{}^" then Err(UnsupportedRev(token))
    else if |term| == 40 && forall c :: c in term ==> IsHexDigit(c) then Ok(Raw(Oid(Lower(term))))
    else if '*' in term then
      if !("refs/" <= term) || NewPattern(term).Err? then Err(UnsupportedRev(token))
      else if "refs/meta" <= LiteralPrefix(term) then Err(MetaInRev(term))
      else Ok(Glob(term))
    else if NewPattern(term).Err? then Err(UnsupportedRev(token))
    else if exists c :: c in DwimCandidates(term) && "refs/meta" <= c then Err(MetaInRev(term))
    else Ok(Name(term))
  }

  /** The included and excluded terms of one token: `^t`, `a..b` or a term. */
  function ParseToken(token: string): (r: ParseResult<(seq<RevTerm>, seq<RevTerm>)>)
    ensures r.Ok? ==> '(' !in token && ')' !in token
    ensures r.Ok? ==> forall t :: t in r.value.0 || t in r.value.1 ==> PlainTerm(t)
  {
    if "^" <= token then
      match ParseRevTerm(token[1..], token)
      case Err(e) => Err(e)
      case Ok(t) => Ok(([], [t]))
    else if HasSubstring(token, "...") then Err(UnsupportedRev(token))
    else
      match SplitOnDots(token)
      case Some((base, tip)) =>
        if base == "" || tip == "" then Err(UnsupportedRev(token))
        else
          (match ParseRevTerm(base, token)
           case Err(e) => Err(e)
           case Ok(b) =>
             match ParseRevTerm(tip, token)
             case Err(e) => Err(e)
             case Ok(t) => Ok(([t], [b])))
      case None =>
        match ParseRevTerm(token, token)
        case Err(e) => Err(e)
        case Ok(t) => Ok(([t], []))
  }

  /** The included and excluded terms of a token list, left to right. */
  function ParseRevTokens(tokens: seq<string>): (r: ParseResult<(seq<RevTerm>, seq<RevTerm>)>)
    ensures r.Ok? ==> forall t :: t in tokens ==> '(' !in t && ')' !in t
    ensures r.Ok? ==> forall t :: t in r.value.0 || t in r.value.1 ==> PlainTerm(t)
  {
    if tokens == [] then Ok(([], []))
    else
      match ParseToken(tokens[0])
      case Err(e) => Err(e)
      case Ok((inc, exc)) =>
        match ParseRevTokens(tokens[1..])
        case Err(e) => Err(e)
        case Ok((inc', exc')) => Ok((inc + inc', exc + exc'))
  }

  /** The text between `rev(` and `)`. */
  function ParseRev(text: string): (r: ParseResult<RevExpr>)
    ensures r.Ok? ==> r.value.raw == Trim(text)
  {
    var raw := Trim(text);
    if raw == "" then Err(EmptyRev)
    else
      match ParseRevTokens(Tokens(raw))
      case Err(e) => Err(e)
      case Ok((inc, exc)) => if inc == [] then Err(NoPositiveRev) else Ok(RevExpr(inc, exc, raw))
  }

  /** Every refname pattern a term can be affected by. */
  function TermPatterns(t: RevTerm): seq<string> {
    match t
    case Name(name) => ValidPatterns(DwimCandidates(name))
    case Glob(pattern) => [pattern]
    case Raw(_) => []
  }

  function ValidPatterns(names: seq<string>): (ps: seq<string>)
    ensures forall p :: p in ps <==> p in names && NewPattern(p).Ok?
  {
    if names == [] then []
    else
      assert forall n :: n in names <==> n == names[0] || n in names[1..];
      (if NewPattern(names[0]).Ok? then [names[0]] else []) + ValidPatterns(names[1..])
  }

  function TermsPatterns(ts: seq<RevTerm>): (ps: seq<string>)
    ensures forall t, p :: t in ts && p in TermPatterns(t) ==> p in ps
  {
    if ts == [] then []
    else
      assert forall t :: t in ts ==> t == ts[0] || t in ts[1..];
      TermPatterns(ts[0]) + TermsPatterns(ts[1..])
  }

  function RevPatterns(e: RevExpr): seq<string> {
    TermsPatterns(e.positive + e.negative)
  }

  // -- the syntax tree ---------------------------------------------------

  datatype StatusFilter = Only(status: Status) | Any

  predicate Admits(f: StatusFilter, s: Status) {
    f.Any? || f.status == s
  }

  function ShowStatus(f: StatusFilter): string {
    match f
    case Only(Pass) => "pass"
    case Only(Fail) => "fail"
    case Only(Error) => "error"
    case Any => "any"
  }

  function ParseStatus(text: string): (r: Option<StatusFilter>)
    ensures forall f :: r == Some(f) <==> ShowStatus(f) == text
  {
    if text == "pass" then Some(Only(Pass))
    else if text == "fail" then Some(Only(Fail))
    else if text == "error" then Some(Only(Error))
    else if text == "any" then Some(Any)
    else None
  }

  datatype SetOp = Union | Intersect | Difference

  function OpChar(op: SetOp): char {
    match op
    case Union => '|'
    case Intersect => '&'
    case Difference => '-'
  }

  datatype Query =
    | Rev(expr: RevExpr)
    | Results(effect: string, status: StatusFilter)
    | Meta(glob: string)
    | Op(op: SetOp, lhs: Query, rhs: Query)

  /** Canonical text: atoms as written, operators between spaces, a right operand that is itself an operation
      parenthesised. */
  function Show(q: Query): string
    decreases q, 0
  {
    match q
    case Rev(expr) => "rev(" + expr.raw + ")"
    case Results(effect, status) => "results(" + effect + ", " + ShowStatus(status) + ")"
    case Meta(glob) => "meta(" + glob + ")"
    case Op(op, lhs, rhs) => Show(lhs) + " " + [OpChar(op)] + " " + ShowRight(rhs)
  }

  function ShowRight(q: Query): string
    decreases q, 1
  {
    if q.Op? then "(" + Show(q) + ")" else Show(q)
  }

  function ResultsPrefix(effect: string): string {
    "refs/meta/results/" + effect + "/"
  }

  /** The static footprint: every pattern whose refs the query depends on. */
  function Footprint(q: Query): seq<string> {
    match q
    case Rev(expr) => RevPatterns(expr)
    case Results(effect, _) => ValidPatterns([ResultsPrefix(effect) + "*"])
    case Meta(glob) => [glob]
    case Op(_, lhs, rhs) => Footprint(lhs) + Footprint(rhs)
  }

  ghost predicate FootprintMatches(q: Query, name: string) {
    exists p :: p in Footprint(q) && Pattern.Matches(p, name)
  }
}
