/** Printing and parsing undo each other: the canonical text of every query the parser returns parses back to it. */
module RoundTrip {
  import opened Objects
  import opened Text
  import opened Query
  import opened Parse

  // -- balanced text -------------------------------------------------------

  /** The depth after scanning `s` from depth `d`, unless it falls to zero on the way. */
  function Depth(s: string, d: nat): (r: Option<nat>)
    requires d > 0
    ensures r.Some? ==> r.value > 0
  {
    if s == "" then Some(d)
    else if s[0] == '(' then Depth(s[1..], d + 1)
    else if s[0] == ')' then if d == 1 then None else Depth(s[1..], d - 1)
    else Depth(s[1..], d)
  }

  predicate Balanced(s: string) {
    Depth(s, 1) == Some(1)
  }

  predicate NoParens(s: string) {
    '(' !in s && ')' !in s
  }

  lemma {:induction false} DepthNoParens(s: string, d: nat)
    requires NoParens(s) && d > 0
    ensures Depth(s, d) == Some(d)
  {
    if s != "" {
      assert s[0] in s;
      assert forall c :: c in s[1..] ==> c in s;
      DepthNoParens(s[1..], d);
    }
  }

  lemma {:induction false} DepthAppend(s: string, t: string, d: nat)
    requires d > 0
    ensures Depth(s + t, d) == match Depth(s, d) case None => None case Some(d') => Depth(t, d')
  {
    if s == "" {
      assert s + t == t;
    } else {
      assert (s + t)[1..] == s[1..] + t;
      if s[0] == '(' {
        DepthAppend(s[1..], t, d + 1);
      } else if s[0] == ')' {
        if d > 1 {
          DepthAppend(s[1..], t, d - 1);
        }
      } else {
        DepthAppend(s[1..], t, d);
      }
    }
  }

  /** The closing parenthesis found is the one right after balanced text, and what it encloses is balanced. */
  lemma {:induction false} ClosingIsFirstZero(s: string, pos: nat, depth: nat, close: nat)
    requires pos <= close < |s| && depth > 0
    ensures ClosingParen(s, pos, depth) == Some(close)
        <==> Depth(s[pos..close], depth) == Some(1) && s[close] == ')'
    decreases close - pos
  {
    if pos < close {
      assert s[pos..close][1..] == s[pos + 1..close];
      if s[pos] == '(' {
        ClosingIsFirstZero(s, pos + 1, depth + 1, close);
      } else if s[pos] == ')' {
        if depth > 1 {
          ClosingIsFirstZero(s, pos + 1, depth - 1, close);
        }
      } else {
        ClosingIsFirstZero(s, pos + 1, depth, close);
      }
    }
  }

  // -- what the parser can return -------------------------------------------

  predicate CanonicalEffect(rule: SegmentRule, effect: string) {
    && effect != "" && effect != "self" && Trimmed(effect) && Balanced(effect)
    && ',' !in effect && '/' !in effect && rule(effect)
  }

  /** The trees the parser can return: every atom reparses from its own text. */
  predicate Canonical(rule: SegmentRule, q: Query) {
    match q
    case Rev(expr) => NoParens(expr.raw) && ParseRev(expr.raw) == Ok(expr)
    case Results(effect, _) => CanonicalEffect(rule, effect)
    case Meta(glob) => NoParens(glob) && ParseMeta(glob) == Ok(q)
    case Op(_, lhs, rhs) => Canonical(rule, lhs) && Canonical(rule, rhs)
  }

  lemma TrimTwice(s: string)
    ensures Trim(Trim(s)) == Trim(s)
  {
    hide Trim;
    var before, after := TrimSplits(s);
    TrimmedIsFixed(Trim(s));
  }

  lemma ParsedRevIsCanonical(args: string)
    requires ParseRev(args).Ok?
    ensures NoParens(ParseRev(args).value.raw)
    ensures ParseRev(ParseRev(args).value.raw) == ParseRev(args)
  {
    hide Trim, Tokens, ParseRevTokens, IsWhitespace;
    var raw := Trim(args);
    TrimTwice(args);
    ParenIsNoWhitespace();
    if '(' in raw {
      TokensCover(raw, '(');
    }
    if ')' in raw {
      TokensCover(raw, ')');
    }
  }

  lemma ParenIsNoWhitespace()
    ensures !IsWhitespace('(') && !IsWhitespace(')')
  {
  }

  lemma ParsedMetaIsCanonical(rule: SegmentRule, args: string)
    requires ParseMeta(args).Ok?
    ensures Canonical(rule, ParseMeta(args).value)
  {
    hide Trim, NewPattern, Pattern.MayMatch, PlainPattern;
    TrimTwice(args);
    PlainHasNoParens(Trim(args));
  }

  lemma PlainHasNoParens(pattern: string)
    requires PlainPattern(pattern)
    ensures NoParens(pattern)
  {
    assert NO_REFNAME_BYTE[1] == '(' && NO_REFNAME_BYTE[2] == ')';
    assert '(' in NO_REFNAME_BYTE && ')' in NO_REFNAME_BYTE;
  }

  lemma BlankHasNoParens(s: string)
    requires Blank(s)
    ensures NoParens(s)
  {
  }

  lemma StatusHasNoParens(f: StatusFilter)
    ensures NoParens(ShowStatus(f)) && Trimmed(ShowStatus(f)) && ShowStatus(f) != ""
  {
  }

  lemma StatusPartHasNoParens(second: string, f: StatusFilter)
    requires Trim(second) == ShowStatus(f)
    ensures NoParens(second)
  {
    hide Trim, ShowStatus;
    var before, after := TrimSplits(second);
    StatusHasNoParens(f);
    BlankHasNoParens(before);
    BlankHasNoParens(after);
  }

  /** Text without parentheses can be cut off both ends of balanced text. */
  lemma BalancedCore(before: string, core: string, after: string)
    requires Balanced(before + core + after) && NoParens(before) && NoParens(after)
    ensures Balanced(core)
  {
    hide Depth, NoParens;
    assert before + core + after == before + (core + after);
    DepthAppend(before, core + after, 1);
    DepthNoParens(before, 1);
    DepthAppend(core, after, 1);
    match Depth(core, 1)
    case None =>
    case Some(d) => DepthNoParens(after, d);
  }

  /** Around the effect name lie only blanks, a comma and a status, so the name is as balanced as the whole. */
  lemma EffectIsBalanced(first: string, second: string, f: StatusFilter)
    requires Balanced(first + "," + second) && Trim(second) == ShowStatus(f)
    ensures Balanced(Trim(first))
  {
    hide Trim, ShowStatus, Balanced;
    var before, after := TrimSplits(first);
    StatusPartHasNoParens(second, f);
    BlankHasNoParens(before);
    BlankHasNoParens(after);
    assert first + "," + second == before + Trim(first) + (after + "," + second);
    BalancedCore(before, Trim(first), after + "," + second);
  }

  lemma ParsedResultsIsCanonical(rule: SegmentRule, args: string, at: nat)
    requires Balanced(args) && ParseResults(rule, args, at).Ok?
    ensures Canonical(rule, ParseResults(rule, args, at).value)
  {
    hide Trim, Balanced, ShowStatus, SplitOnce;
    var (first, second) := SplitOnce(args, ',').value;
    var f := ParseStatus(Trim(second)).value;
    assert args == first + "," + second;
    EffectIsBalanced(first, second, f);
    var before, after := TrimSplits(first);
    assert forall c :: c in Trim(first) ==> c in first;
  }

  lemma AtomIsCanonical(rule: SegmentRule, s: string, pos: nat)
    requires pos <= |s| && AtomAt(rule, s, pos).Done?
    ensures Canonical(rule, AtomAt(rule, s, pos).value)
  {
    hide ParseRev, ParseMeta, ParseResults, ClosingParen, SkipName, SkipBlanks, Depth;
    var nameEnd := SkipName(s, pos);
    var name := s[pos..nameEnd];
    var open := SkipBlanks(s, nameEnd);
    var close := ClosingParen(s, open + 1, 1).value;
    var args := s[open + 1..close];
    ClosingIsFirstZero(s, open + 1, 1, close);
    if name == "rev" {
      ParsedRevIsCanonical(args);
    } else if name == "results" {
      ParsedResultsIsCanonical(rule, args, close + 1);
    } else {
      ParsedMetaIsCanonical(rule, args);
    }
  }

  lemma {:induction false} TermIsCanonical(rule: SegmentRule, s: string, pos: nat)
    requires pos <= |s| && TermAt(rule, s, pos).Done?
    ensures Canonical(rule, TermAt(rule, s, pos).value)
    decreases |s| - pos, 0
  {
    hide AtomAt, Canonical;
    var start := SkipBlanks(s, pos);
    if s[start] == '(' {
      QueryIsCanonical(rule, s, start + 1);
    } else {
      AtomIsCanonical(rule, s, start);
    }
  }

  lemma OpIsCanonical(rule: SegmentRule, op: SetOp, lhs: Query, rhs: Query)
    requires Canonical(rule, lhs) && Canonical(rule, rhs)
    ensures Canonical(rule, Op(op, lhs, rhs))
  {
  }

  lemma {:induction false} RestIsCanonical(rule: SegmentRule, s: string, lhs: Query, pos: nat)
    requires pos <= |s| && Canonical(rule, lhs) && RestAt(rule, s, lhs, pos).Done?
    ensures Canonical(rule, RestAt(rule, s, lhs, pos).value)
    decreases |s| - pos, 1
  {
    hide TermAt, SkipBlanks, OpAt, Canonical, QueryAt;
    var p := SkipBlanks(s, pos);
    match OpAt(s, p)
    case None =>
    case Some(op) =>
      TermIsCanonical(rule, s, p + 1);
      var Done(rhs, p') := TermAt(rule, s, p + 1);
      OpIsCanonical(rule, op, lhs, rhs);
      RestIsCanonical(rule, s, Op(op, lhs, rhs), p');
  }

  lemma {:induction false} QueryIsCanonical(rule: SegmentRule, s: string, pos: nat)
    requires pos <= |s| && QueryAt(rule, s, pos).Done?
    ensures Canonical(rule, QueryAt(rule, s, pos).value)
    decreases |s| - pos, 2
  {
    hide TermAt, RestAt;
    TermIsCanonical(rule, s, pos);
    var Done(lhs, p) := TermAt(rule, s, pos);
    RestIsCanonical(rule, s, lhs, p);
  }

  /** Whatever the text, a query the parser returns is canonical. */
  lemma ParserIsCanonical(rule: SegmentRule, input: string)
    requires ParseText(rule, input).Ok?
    ensures Canonical(rule, ParseText(rule, input).value)
  {
    hide ParseRev, QueryAt;
    if CompleteQuery(rule, input).Ok? {
      QueryIsCanonical(rule, input, 0);
    } else {
      ParsedRevIsCanonical(Trim(input));
    }
  }

  // -- canonical text parses back -------------------------------------------

  /** `t` stands at `pos` in `s`. */
  predicate At(s: string, pos: nat, t: string) {
    pos + |t| <= |s| && s[pos..pos + |t|] == t
  }

  lemma AtSplit(s: string, pos: nat, t: string, u: string)
    requires At(s, pos, t + u)
    ensures At(s, pos, t) && At(s, pos + |t|, u)
  {
    assert s[pos..pos + |t + u|][..|t|] == t;
    assert s[pos..pos + |t + u|][|t|..] == u;
  }

  lemma {:induction false} SkipNameTo(s: string, pos: nat, end: nat)
    requires pos <= end < |s| && !IsNameChar(s[end])
    requires forall i :: pos <= i < end ==> IsNameChar(s[i])
    ensures SkipName(s, pos) == end
    decreases end - pos
  {
    if pos < end {
      SkipNameTo(s, pos + 1, end);
    }
  }

  lemma TrimLeadingSpace(w: string)
    requires w != "" && Trimmed(w)
    ensures Trim(" " + w) == w
  {
    assert (" " + w)[1..] == w;
  }

  predicate AtomName(name: string) {
    name == "rev" || name == "results" || name == "meta"
  }

  lemma AtomNameChars(name: string)
    requires AtomName(name)
    ensures name != "" && forall i :: 0 <= i < |name| ==> IsNameChar(name[i])
  {
  }

  /** An atom name and balanced arguments in parentheses are read as exactly that atom, whatever follows. */
  lemma AtomTextParses(rule: SegmentRule, s: string, pos: nat, name: string, args: string, q: Query)
    requires AtomName(name) && Balanced(args) && At(s, pos, name + "(" + args + ")")
    requires forall at: nat :: ParseAtomArgs(rule, name, args, at) == Ok(q)
    ensures TermAt(rule, s, pos) == Done(q, pos + |name| + |args| + 2)
  {
    hide ParseAtomArgs, Depth, SkipName, ClosingParen, AtomName;
    var open := pos + |name|;
    var close := open + 1 + |args|;
    AtomNameChars(name);
    AtSplit(s, pos, name + "(" + args, ")");
    AtSplit(s, pos, name + "(", args);
    AtSplit(s, pos, name, "(");
    assert s[open] == '(' && s[close] == ')' && s[open + 1..close] == args;
    assert forall i :: pos <= i < open ==> s[i] == name[i - pos];
    assert s[pos] == name[0];
    SkipNameTo(s, pos, open);
    ClosingIsFirstZero(s, open + 1, 1, close);
  }

  lemma ResultsArgsParse(rule: SegmentRule, effect: string, f: StatusFilter, at: nat)
    requires CanonicalEffect(rule, effect)
    ensures ParseResults(rule, effect + ", " + ShowStatus(f), at) == Ok(Results(effect, f))
    ensures Balanced(effect + ", " + ShowStatus(f))
  {
    hide Trim, SplitOnce, ShowStatus, Depth;
    var word := ShowStatus(f);
    StatusHasNoParens(f);
    assert effect + ", " + word == effect + [','] + (" " + word);
    SplitOnceAt(effect, ',', " " + word);
    TrimLeadingSpace(word);
    TrimmedIsFixed(effect);
    assert effect + ", " + word == effect + (", " + word);
    DepthAppend(effect, ", " + word, 1);
    DepthNoParens(", " + word, 1);
  }

  /** What an atom prints between its parentheses. */
  function Args(q: Query): string
    requires !q.Op?
  {
    match q
    case Rev(expr) => expr.raw
    case Results(effect, f) => effect + ", " + ShowStatus(f)
    case Meta(glob) => glob
  }

  function NameOf(q: Query): (name: string)
    requires !q.Op?
    ensures AtomName(name)
  {
    match q
    case Rev(_) => "rev"
    case Results(_, _) => "results"
    case Meta(_) => "meta"
  }

  lemma ShowIsNameAndArgs(q: Query)
    requires !q.Op?
    ensures Show(q) == NameOf(q) + "(" + Args(q) + ")"
  {
    hide ShowStatus;
    match q
    case Rev(expr) => assert "rev" + "(" == "rev(";
    case Results(effect, f) =>
      assert "results" + "(" == "results(";
      assert "results(" + effect + ", " + ShowStatus(f) + ")" == "results(" + (effect + ", " + ShowStatus(f)) + ")";
    case Meta(glob) => assert "meta" + "(" == "meta(";
  }

  lemma ArgsParse(rule: SegmentRule, q: Query, at: nat)
    requires !q.Op? && Canonical(rule, q)
    ensures ParseAtomArgs(rule, NameOf(q), Args(q), at) == Ok(q) && Balanced(Args(q))
  {
    hide ParseRev, ParseMeta, ParseResults, Depth, CanonicalEffect, ShowStatus;
    match q
    case Rev(expr) => DepthNoParens(expr.raw, 1);
    case Results(effect, f) => ResultsArgsParse(rule, effect, f, at);
    case Meta(glob) => DepthNoParens(glob, 1);
  }

  lemma AtomShowParses(rule: SegmentRule, s: string, pos: nat, q: Query)
    requires !q.Op? && Canonical(rule, q) && At(s, pos, Show(q))
    ensures TermAt(rule, s, pos) == Done(q, pos + |Show(q)|)
  {
    hide TermAt, ParseAtomArgs, Canonical, Show, NameOf, Args, Balanced;
    ShowIsNameAndArgs(q);
    forall at: nat
      ensures ParseAtomArgs(rule, NameOf(q), Args(q), at) == Ok(q)
    {
      ArgsParse(rule, q, at);
    }
    ArgsParse(rule, q, 0);
    AtomTextParses(rule, s, pos, NameOf(q), Args(q), q);
  }

  function Spaced(op: SetOp): string {
    " " + [OpChar(op)] + " "
  }

  lemma OpText(op: SetOp, lhs: Query, rhs: Query)
    ensures Show(Op(op, lhs, rhs)) == Show(lhs) + Spaced(op) + ShowRight(rhs)
    ensures ShowRight(Op(op, lhs, rhs)) == "(" + Show(Op(op, lhs, rhs)) + ")"
  {
    hide OpChar;
    var left, right := Show(lhs), ShowRight(rhs);
    assert Show(Op(op, lhs, rhs)) == left + " " + [OpChar(op)] + " " + right;
    assert left + " " + [OpChar(op)] + " " + right == left + Spaced(op) + right;
  }

  lemma OpParts(rule: SegmentRule, op: SetOp, lhs: Query, rhs: Query)
    requires Canonical(rule, Op(op, lhs, rhs))
    ensures Canonical(rule, lhs) && Canonical(rule, rhs)
  {
  }

  lemma AtomText(q: Query)
    requires !q.Op?
    ensures ShowRight(q) == Show(q) != "" && !IsAsciiWhitespace(Show(q)[0])
  {
  }

  /** Past canonical text of `q`, the parser is where it would be having just read `q`. */
  lemma {:induction false} ShowParses(rule: SegmentRule, s: string, pos: nat, q: Query)
    requires Canonical(rule, q) && At(s, pos, Show(q))
    ensures QueryAt(rule, s, pos) == RestAt(rule, s, q, pos + |Show(q)|)
    decreases q, 0
  {
    hide TermAt, RestAt, At, Canonical, Show, ShowRight, Spaced;
    if q.Op? {
      var Op(op, lhs, rhs) := q;
      var left, right := Show(lhs), ShowRight(rhs);
      OpParts(rule, op, lhs, rhs);
      OpText(op, lhs, rhs);
      AtSplit(s, pos, left + Spaced(op), right);
      AtSplit(s, pos, left, Spaced(op));
      SpacedLength(op);
      ShowParses(rule, s, pos, lhs);
      ShowRightParses(rule, s, pos + |left| + 3, rhs);
      OpStep(rule, s, op, lhs, rhs, pos + |left|, pos + |left| + 3 + |right|);
    } else {
      AtomShowParses(rule, s, pos, q);
    }
  }

  lemma {:induction false} ShowRightParses(rule: SegmentRule, s: string, pos: nat, q: Query)
    requires Canonical(rule, q) && At(s, pos, ShowRight(q))
    ensures TermAt(rule, s, pos) == Done(q, pos + |ShowRight(q)|)
    ensures pos < |s| && !IsAsciiWhitespace(s[pos])
    decreases q, 1
  {
    hide TermAt, QueryAt, RestAt, Canonical, Show, ShowRight;
    if q.Op? {
      OpText(q.op, q.lhs, q.rhs);
      AtSplit(s, pos, "(" + Show(q), ")");
      AtSplit(s, pos, "(", Show(q));
      ShowParses(rule, s, pos + 1, q);
      ParenthesisedTerm(rule, s, pos, q, pos + 1 + |Show(q)|);
    } else {
      AtomText(q);
      AtomShowParses(rule, s, pos, q);
      assert s[pos] == s[pos..pos + |Show(q)|][0];
    }
  }

  lemma ParenthesisedTerm(rule: SegmentRule, s: string, pos: nat, q: Query, close: nat)
    requires At(s, pos, "(") && At(s, close, ")") && pos < close
    requires QueryAt(rule, s, pos + 1) == RestAt(rule, s, q, close)
    ensures TermAt(rule, s, pos) == Done(q, close + 1) && s[pos] == '('
  {
    hide QueryAt;
    assert s[pos..pos + 1] == "(" && s[close..close + 1] == ")";
    assert s[pos] == s[pos..pos + 1][0] == '(' && s[close] == s[close..close + 1][0] == ')';
    assert SkipBlanks(s, close) == close && OpAt(s, close) == None;
  }

  lemma SpacedLength(op: SetOp)
    ensures |Spaced(op)| == 3
  {
  }

  /** Reading an operator between blanks, then a right operand. */
  lemma OpStep(rule: SegmentRule, s: string, op: SetOp, lhs: Query, rhs: Query, pos: nat, end: nat)
    requires At(s, pos, Spaced(op)) && pos + 3 < |s| && end <= |s| && !IsAsciiWhitespace(s[pos + 3])
    requires TermAt(rule, s, pos + 3) == Done(rhs, end)
    ensures RestAt(rule, s, lhs, pos) == RestAt(rule, s, Op(op, lhs, rhs), end)
  {
    hide TermAt;
    var mid := s[pos..pos + 3];
    assert mid == Spaced(op);
    assert s[pos] == mid[0] == ' ' && s[pos + 1] == mid[1] == OpChar(op) && s[pos + 2] == mid[2] == ' ';
    assert SkipBlanks(s, pos) == pos + 1 && OpAt(s, pos + 1) == Some(op);
    TermSkipsBlank(rule, s, pos + 2);
  }

  lemma TermSkipsBlank(rule: SegmentRule, s: string, pos: nat)
    requires pos + 1 < |s| && s[pos] == ' ' && !IsAsciiWhitespace(s[pos + 1])
    ensures TermAt(rule, s, pos) == TermAt(rule, s, pos + 1)
  {
    assert SkipBlanks(s, pos) == pos + 1 == SkipBlanks(s, pos + 1);
  }

  lemma CanonicalTextParses(rule: SegmentRule, q: Query)
    requires Canonical(rule, q)
    ensures ParseText(rule, Show(q)) == Ok(q)
  {
    hide Canonical, Show, TermAt, Trim, ParseRev;
    var s := Show(q);
    assert s[0..|s|] == s;
    ShowParses(rule, s, 0, q);
  }

  /** Parse, print, parse again: the same tree, for every text the parser accepts. */
  lemma PrintParseRoundTrip(rule: SegmentRule, input: string)
    requires ParseText(rule, input).Ok?
    ensures ParseText(rule, Show(ParseText(rule, input).value)) == ParseText(rule, input)
  {
    hide ParseText, Canonical, Show;
    ParserIsCanonical(rule, input);
    CanonicalTextParses(rule, ParseText(rule, input).value);
  }

  /** Two different trees never print alike. */
  lemma CanonicalTextIsInjective(rule: SegmentRule, q: Query, q': Query)
    requires Canonical(rule, q) && Canonical(rule, q') && Show(q) == Show(q')
    ensures q == q'
  {
    hide ParseText, Canonical, Show;
    CanonicalTextParses(rule, q);
    CanonicalTextParses(rule, q');
  }
}
