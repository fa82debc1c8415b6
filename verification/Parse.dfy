/** The recursive-descent parser of commit queries, and the round trip through their canonical text. */
module Parse {
  import opened Objects
  import opened Text
  import opened Query
  import Pattern

  /** Whether gitoxide accepts a segment inside a full refname; its rules are not part of this model. */
  type SegmentRule = string -> bool

  // -- the grammar as functions of position --------------------------------

  datatype Parsed<+T> = Done(value: T, pos: nat) | Failed(error: ParseError)

  function SkipBlanks(s: string, pos: nat): (p: nat)
    requires pos <= |s|
    ensures pos <= p <= |s|
    ensures p < |s| ==> !IsAsciiWhitespace(s[p])
    decreases |s| - pos
  {
    if pos < |s| && IsAsciiWhitespace(s[pos]) then SkipBlanks(s, pos + 1) else pos
  }

  predicate IsNameChar(c: char) {
    IsAsciiAlphanumeric(c) || c == '_'
  }

  function SkipName(s: string, pos: nat): (p: nat)
    requires pos <= |s|
    ensures pos <= p <= |s|
    decreases |s| - pos
  {
    if pos < |s| && IsNameChar(s[pos]) then SkipName(s, pos + 1) else pos
  }

  /** The position of the `)` that brings the depth to zero. */
  function ClosingParen(s: string, pos: nat, depth: nat): (p: Option<nat>)
    requires pos <= |s| && depth > 0
    ensures p.Some? ==> pos <= p.value < |s| && s[p.value] == ')'
    decreases |s| - pos
  {
    if pos == |s| then None
    else if s[pos] == '(' then ClosingParen(s, pos + 1, depth + 1)
    else if s[pos] == ')' then if depth == 1 then Some(pos) else ClosingParen(s, pos + 1, depth - 1)
    else ClosingParen(s, pos + 1, depth)
  }

  function ParseResults(rule: SegmentRule, args: string, at: nat): ParseResult<Query> {
    match SplitOnce(args, ',')
    case None => Err(Expected("results(effect, status)", at))
    case Some((first, second)) =>
      var effect, status := Trim(first), Trim(second);
      if effect == "self" then Err(SelfKeyword)
      else if effect == "" || '/' in effect || !rule(effect) then Err(BadEffectName(effect))
      else
        match ParseStatus(status)
        case None => Err(BadStatus(status))
        case Some(f) => Ok(Results(effect, f))
  }

  const RESULTS_NAMESPACE := "refs/meta/results/"
  const INDEX_NAMESPACE := "refs/meta/index/"

  function ParseMeta(args: string): ParseResult<Query> {
    var glob := Trim(args);
    match NewPattern(glob)
    case Err(e) => Err(e)
    case Ok(_) =>
      if !("refs/meta/" <= glob) then Err(MetaGlobOutside(glob))
      else if Pattern.MayMatch(glob, RESULTS_NAMESPACE) then Err(MetaGlobEffectWritten(glob, RESULTS_NAMESPACE))
      else if Pattern.MayMatch(glob, INDEX_NAMESPACE) then Err(MetaGlobEffectWritten(glob, INDEX_NAMESPACE))
      else Ok(Meta(glob))
  }

  function ParseAtomArgs(rule: SegmentRule, name: string, args: string, at: nat): ParseResult<Query> {
    if name == "rev" then
      match ParseRev(args)
      case Err(e) => Err(e)
      case Ok(expr) => Ok(Rev(expr))
    else if name == "results" then ParseResults(rule, args, at)
    else if name == "meta" then ParseMeta(args)
    else Err(UnknownAtom(name))
  }

  function AtomAt(rule: SegmentRule, s: string, pos: nat): (r: Parsed<Query>)
    requires pos <= |s|
    ensures r.Done? ==> pos < r.pos <= |s|
  {
    var nameEnd := SkipName(s, pos);
    var name := s[pos..nameEnd];
    if name == "" then Failed(Expected("an atom (rev, results, or meta)", nameEnd))
    else
      var open := SkipBlanks(s, nameEnd);
      if open == |s| || s[open] != '(' then Failed(Expected("'(' after the atom name", open))
      else
        match ClosingParen(s, open + 1, 1)
        case None => Failed(Unbalanced(open))
        case Some(close) =>
          match ParseAtomArgs(rule, name, s[open + 1..close], close + 1)
          case Err(e) => Failed(e)
          case Ok(q) => Done(q, close + 1)
  }

  function TermAt(rule: SegmentRule, s: string, pos: nat): (r: Parsed<Query>)
    requires pos <= |s|
    ensures r.Done? ==> pos < r.pos <= |s|
    decreases |s| - pos, 0
  {
    var start := SkipBlanks(s, pos);
    if start == |s| then Failed(UnexpectedEnd)
    else if s[start] == '(' then
      match QueryAt(rule, s, start + 1)
      case Failed(e) => Failed(e)
      case Done(inner, p) =>
        var close := SkipBlanks(s, p);
        if close < |s| && s[close] == ')' then Done(inner, close + 1) else Failed(Unbalanced(start))
    else AtomAt(rule, s, start)
  }

  function OpAt(s: string, pos: nat): (op: Option<SetOp>)
    ensures op.Some? ==> pos < |s| && s[pos] == OpChar(op.value)
  {
    if pos >= |s| then None
    else if s[pos] == '|' then Some(Union)
    else if s[pos] == '&' then Some(Intersect)
    else if s[pos] == '-' then Some(Difference)
    else None
  }

  /** `lhs` and every further `op term`, grouped to the left. */
  function RestAt(rule: SegmentRule, s: string, lhs: Query, pos: nat): (r: Parsed<Query>)
    requires pos <= |s|
    ensures r.Done? ==> pos <= r.pos <= |s|
    decreases |s| - pos, 1
  {
    var p := SkipBlanks(s, pos);
    match OpAt(s, p)
    case None => Done(lhs, p)
    case Some(op) =>
      match TermAt(rule, s, p + 1)
      case Failed(e) => Failed(e)
      case Done(rhs, p') => RestAt(rule, s, Op(op, lhs, rhs), p')
  }

  function QueryAt(rule: SegmentRule, s: string, pos: nat): (r: Parsed<Query>)
    requires pos <= |s|
    ensures r.Done? ==> pos < r.pos <= |s|
    decreases |s| - pos, 2
  {
    match TermAt(rule, s, pos)
    case Failed(e) => Failed(e)
    case Done(lhs, p) => RestAt(rule, s, lhs, p)
  }

  function CompleteQuery(rule: SegmentRule, s: string): ParseResult<Query> {
    match QueryAt(rule, s, 0)
    case Failed(e) => Err(e)
    case Done(q, p) =>
      var p' := SkipBlanks(s, p);
      if p' < |s| then Err(Trailing(s[p'..])) else Ok(q)
  }

  predicate IsGrammarChar(c: char) {
    IsAsciiWhitespace(c) || c in "()|&,"
  }

  /** A whole query; failing that, one bare glob or refname stands for `rev(...)` of itself. */
  function ParseText(rule: SegmentRule, input: string): ParseResult<Query> {
    match CompleteQuery(rule, input)
    case Ok(q) => Ok(q)
    case Err(e) =>
      var token := Trim(input);
      if token == "" || exists c :: c in token && IsGrammarChar(c) then Err(e)
      else
        match ParseRev(token)
        case Err(e') => Err(e')
        case Ok(expr) => Ok(Rev(expr))
  }

  // -- the parser ----------------------------------------------------------

  /** A method's result and the position it left agree with what the grammar says. */
  ghost predicate Agrees(r: ParseResult<Query>, p: nat, spec: Parsed<Query>) {
    match spec
    case Done(q, p') => r == Ok(q) && p == p'
    case Failed(e) => r == Err(e)
  }

  class Parser {
    const rule: SegmentRule
    const input: string
    var pos: nat

    constructor (rule: SegmentRule, input: string)
      ensures this.rule == rule && this.input == input && pos == 0
    {
      this.rule, this.input, pos := rule, input, 0;
    }

    ghost predicate Valid()
      reads this
    {
      pos <= |input|
    }

    method SkipWs()
      requires Valid()
      modifies this`pos
      ensures Valid() && pos == SkipBlanks(input, old(pos))
    {
      while pos < |input| && IsAsciiWhitespace(input[pos])
        invariant Valid() && SkipBlanks(input, pos) == SkipBlanks(input, old(pos))
      {
        pos := pos + 1;
      }
    }

    method TakeName() returns (name: string)
      requires Valid()
      modifies this`pos
      ensures Valid() && pos == SkipName(input, old(pos)) && name == input[old(pos)..pos]
    {
      var start := pos;
      while pos < |input| && IsNameChar(input[pos])
        invariant Valid() && start <= pos && SkipName(input, pos) == SkipName(input, start)
      {
        pos := pos + 1;
      }
      name := input[start..pos];
    }

    /** The text up to the `)` that closes the one opened at `openedAt`, stepping past it. */
    method TakeBalanced(openedAt: nat) returns (r: ParseResult<string>)
      requires Valid()
      modifies this`pos
      ensures Valid()
      ensures match ClosingParen(input, old(pos), 1)
              case None => r == Err(Unbalanced(openedAt))
              case Some(close) => r == Ok(input[old(pos)..close]) && pos == close + 1
    {
      var start, depth := pos, 1;
      while pos < |input|
        invariant Valid() && start <= pos && depth > 0
        invariant ClosingParen(input, pos, depth) == ClosingParen(input, start, 1)
      {
        if input[pos] == '(' {
          depth := depth + 1;
        } else if input[pos] == ')' {
          depth := depth - 1;
          if depth == 0 {
            var inner := input[start..pos];
            pos := pos + 1;
            return Ok(inner);
          }
        }
        pos := pos + 1;
      }
      return Err(Unbalanced(openedAt));
    }

    method ParseAtom() returns (r: ParseResult<Query>)
      requires Valid()
      modifies this`pos
      ensures Valid() && Agrees(r, pos, AtomAt(rule, input, old(pos)))
    {
      hide ParseAtomArgs, SkipBlanks, SkipName, ClosingParen;
      var name := TakeName();
      if name == "" {
        return Err(Expected("an atom (rev, results, or meta)", pos));
      }
      SkipWs();
      if pos == |input| || input[pos] != '(' {
        return Err(Expected("'(' after the atom name", pos));
      }
      var openedAt := pos;
      pos := pos + 1;
      var args := TakeBalanced(openedAt);
      if args.Err? {
        return Err(args.error);
      }
      r := ParseAtomArgs(rule, name, args.value, pos);
    }

    method ParseTerm() returns (r: ParseResult<Query>)
      requires Valid()
      modifies this`pos
      ensures Valid() && Agrees(r, pos, TermAt(rule, input, old(pos)))
      decreases |input| - pos, 0
    {
      hide SkipBlanks, AtomAt, QueryAt;
      SkipWs();
      if pos == |input| {
        return Err(UnexpectedEnd);
      }
      if input[pos] != '(' {
        r := ParseAtom();
        return;
      }
      var openedAt := pos;
      pos := pos + 1;
      r := ParseQuery();
      if r.Err? {
        return;
      }
      SkipWs();
      if pos < |input| && input[pos] == ')' {
        pos := pos + 1;
      } else {
        r := Err(Unbalanced(openedAt));
      }
    }

    method ParseQuery() returns (r: ParseResult<Query>)
      requires Valid()
      modifies this`pos
      ensures Valid() && Agrees(r, pos, QueryAt(rule, input, old(pos)))
      decreases |input| - pos, 2
    {
      hide TermAt, SkipBlanks, OpAt;
      r := ParseTerm();
      if r.Err? {
        return;
      }
      var lhs := r.value;
      while true
        invariant Valid() && old(pos) < pos
        invariant QueryAt(rule, input, old(pos)) == RestAt(rule, input, lhs, pos)
        decreases |input| - pos
      {
        SkipWs();
        var op := OpAt(input, pos);
        if op.None? {
          return Ok(lhs);
        }
        pos := pos + 1;
        r := ParseTerm();
        if r.Err? {
          return;
        }
        lhs := Op(op.value, lhs, r.value);
      }
    }

    method ParseQueryComplete() returns (r: ParseResult<Query>)
      requires Valid() && pos == 0
      modifies this`pos
      ensures r == CompleteQuery(rule, input)
    {
      hide QueryAt, SkipBlanks;
      r := ParseQuery();
      if r.Err? {
        return;
      }
      SkipWs();
      if pos < |input| {
        r := Err(Trailing(input[pos..]));
      }
    }
  }

  method ParseInput(rule: SegmentRule, input: string) returns (r: ParseResult<Query>)
    ensures r == ParseText(rule, input)
  {
    hide CompleteQuery, ParseRev, Trim;
    var parser := new Parser(rule, input);
    r := parser.ParseQueryComplete();
    if r.Ok? {
      return;
    }
    var token := Trim(input);
    if token == "" || exists c :: c in token && IsGrammarChar(c) {
      return;
    }
    var expr := ParseRev(token);
    r := if expr.Ok? then Ok(Rev(expr.value)) else Err(expr.error);
  }
}
