/** What atoms and operators of the query language mean, from their characters to the commits they select. */
module Meaning {
  import opened Graph
  import opened Objects
  import opened Text
  import opened Query
  import opened Denotation
  import opened Parse
  import opened RoundTrip
  import opened RevText
  import Pattern

  // -- patterns and terms, by their characters ------------------------------------

  /** No character no refname can carry, no empty or dot-dot segment, no slash at either end. */
  predicate PatternText(p: string) {
    && p != "" && p[0] != '/' && p[|p| - 1] != '/'
    && (forall c :: c in p ==> ' ' < c && c != '\U{007F}' && c !in "\\()|&,?[")
    && forall i :: 0 < i < |p| && p[i - 1] == p[i] ==> p[i] != '.' && p[i] != '/'
  }

  lemma {:induction false} DoubledIff(s: string, a: char)
    ensures HasSubstring(s, [a, a]) <==> exists i :: 0 < i < |s| && s[i - 1] == a && s[i] == a
  {
    if s != "" {
      DoubledIff(s[1..], a);
      if [a, a] <= s {
        assert s[0] == a && s[1] == a;
      }
      if i :| 0 < i < |s| && s[i - 1] == a && s[i] == a {
        if i == 1 {
          assert s[..2] == [a, a];
        } else {
          assert s[1..][i - 2] == a && s[1..][i - 1] == a;
        }
      }
      if j :| 0 < j < |s[1..]| && s[1..][j - 1] == a && s[1..][j] == a {
        assert s[j] == a && s[j + 1] == a;
      }
    }
  }

  lemma VisibleIff(p: string)
    ensures (forall c :: c in p ==> ' ' < c && c != '\U{007F}') <==>
              !exists i :: 0 <= i < |p| && (IsAsciiWhitespace(p[i]) || IsAsciiControl(p[i]))
  {
    assert forall i :: 0 <= i < |p| ==> p[i] in p;
    assert forall c :: c in p ==> exists i :: 0 <= i < |p| && p[i] == c;
  }

  lemma AsciiBlankIff(c: char)
    ensures c in " \t\n\U{000C}\r" <==> IsAsciiWhitespace(c)
  {
  }

  lemma PatternIff(p: string)
    ensures NewPattern(p).Ok? <==> PatternText(p)
  {
    hide HasSubstring, IsAsciiWhitespace, IsAsciiControl;
    DoubledIff(p, '.');
    DoubledIff(p, '/');
    VisibleIff(p);
    assert forall i :: 0 <= i < |p| ==> p[i] in p;
    assert forall c :: c in p ==> exists i :: 0 <= i < |p| && p[i] == c;
  }

  /** Neither a name nor a glob may hold an operator of the larger revision language. */
  predicate NoOperators(t: string) {
    forall c :: c in t ==> c !in "~:@{}^"
  }

  /** Some lookup candidate of the name lies below `refs/meta`. */
  predicate InMeta(name: string) {
    if "refs/" <= name then "refs/meta" <= name else "meta" <= name
  }

  lemma InMetaIff(name: string)
    ensures InMeta(name) <==> exists c :: c in DwimCandidates(name) && "refs/meta" <= c
  {
    var r := "refs/" + name;
    assert "refs/meta" == "refs/" + "meta";
    assert r[5..] == name && "refs/meta"[5..] == "meta";
    assert "refs/meta" <= r <==> "meta" <= name by {
      if "meta" <= name {
        assert r == "refs/" + "meta" + name[4..];
      }
      if "refs/meta" <= r {
        assert r[..9][5..] == name[..4];
      }
    }
    assert ("refs/tags/" + name)[5] == 't' && ("refs/heads/" + name)[5] == 'h' && ("refs/remotes/" + name)[5] == 'r';
    assert r in DwimCandidates(name) || "refs/" <= name;
    if "refs/" <= name {
      assert name in DwimCandidates(name);
    }
  }

  lemma {:induction false} LiteralHead(p: string, lit: string)
    requires '*' !in lit
    ensures lit <= LiteralPrefix(p) <==> lit <= p
  {
    if lit != "" && p != "" {
      assert lit[0] in lit;
      if p[0] == lit[0] {
        LiteralHead(p[1..], lit[1..]);
        assert lit == [lit[0]] + lit[1..] && p == [p[0]] + p[1..];
        assert LiteralPrefix(p)[1..] == LiteralPrefix(p[1..]);
      }
    }
  }

  /** Which term a text is: an object id, a glob below `refs/`, a name, or none; and nothing below `refs/meta`. */
  lemma TermIff(t: string)
    ensures (exists o :: ParseRevTerm(t, t) == Ok(Raw(o))) <==> FortyHex(t)
    ensures ParseRevTerm(t, t) == Ok(Glob(t)) <==>
              PatternText(t) && NoOperators(t) && !FortyHex(t) && '*' in t && "refs/" <= t && !("refs/meta" <= t)
    ensures ParseRevTerm(t, t) == Ok(Name(t)) <==>
              PatternText(t) && NoOperators(t) && !FortyHex(t) && '*' !in t && !InMeta(t)
    ensures ParseRevTerm(t, t).Ok? ==> ParseRevTerm(t, t).value in {Glob(t), Name(t)} || FortyHex(t)
  {
    hide NewPattern, PatternText, DwimCandidates, InMeta, LiteralPrefix, Lower, FortyHex;
    PatternIff(t);
    FortyHexIff(t);
    InMetaIff(t);
    assert '*' !in "refs/meta";
    LiteralHead(t, "refs/meta");
    NotEmpty(t);
    if FortyHex(t) {
      HexIsPlain(t);
      assert ParseRevTerm(t, t) == Ok(Raw(Oid(Lower(t))));
    }
  }

  lemma NotEmpty(t: string)
    ensures PatternText(t) || FortyHex(t) ==> t != ""
  {
  }

  lemma HexIsPlain(t: string)
    requires FortyHex(t)
    ensures NoOperators(t)
  {
    FortyHexIff(t);
    assert forall c :: IsHexDigit(c) ==> c != '~' && c != ':' && c != '@' && c != '{' && c != '}' && c != '^';
  }

  /** An object id is read in lower case, digit by digit. */
  lemma RawDigits(t: string)
    requires FortyHex(t)
    ensures ParseRevTerm(t, t).Ok? && ParseRevTerm(t, t).value.Raw?
    ensures var hex := ParseRevTerm(t, t).value.oid.hex;
            |hex| == 40 && forall i :: 0 <= i < 40 ==> Lowered(t[i], hex[i])
  {
    hide NewPattern;
    FortyHexIff(t);
    HexIsPlain(t);
    LowerDigits(t);
  }

  // -- what a term reaches ------------------------------------------------------------

  ghost predicate RefReaches(s: Store, view: Refs, name: string, c: Oid) {
    name in view && Reaches(CommitGraph(s), view[name], c)
  }

  /** A full name is that ref; a short one the first that exists of the ref itself, a tag, a branch and a remote. */
  lemma NameReaches(s: Store, view: Refs, name: string, c: Oid)
    ensures TermReaches(CommitGraph(s), view, Name(name), c) <==>
              if "refs/" <= name then RefReaches(s, view, name, c)
              else if "refs/" + name in view then RefReaches(s, view, "refs/" + name, c)
              else if "refs/tags/" + name in view then RefReaches(s, view, "refs/tags/" + name, c)
              else if "refs/heads/" + name in view then RefReaches(s, view, "refs/heads/" + name, c)
              else RefReaches(s, view, "refs/remotes/" + name, c)
  {
    hide Reaches;
    var names := DwimCandidates(name);
    FourNames(view, names);
    var found := ResolvedRef(view, name);
    if found.Some? {
      assert TermTips(view, Name(name)) == {view[found.value]};
    } else {
      assert TermTips(view, Name(name)) == {};
    }
  }

  lemma FourNames(view: Refs, names: seq<string>)
    ensures |names| == 1 ==> FirstNamed(view, names) == if names[0] in view then Some(names[0]) else None
    ensures |names| == 4 ==>
              FirstNamed(view, names) == if names[0] in view then Some(names[0])
                                         else if names[1] in view then Some(names[1])
                                         else if names[2] in view then Some(names[2])
                                         else if names[3] in view then Some(names[3]) else None
  {
    if |names| == 1 {
      assert names[1..] == [];
    } else if |names| == 4 {
      assert names[1..][1..] == names[2..] && names[2..][1..] == names[3..] && names[3..][1..] == [];
      assert FirstNamed(view, names[3..]) == if names[3] in view then Some(names[3]) else None;
      assert FirstNamed(view, names[2..]) == if names[2] in view then Some(names[2]) else FirstNamed(view, names[3..]);
      assert FirstNamed(view, names[1..]) == if names[1] in view then Some(names[1]) else FirstNamed(view, names[2..]);
    }
  }

  /** A glob reaches through every ref it matches outside `refs/meta/`. */
  lemma GlobReaches(s: Store, view: Refs, glob: string, c: Oid)
    ensures TermReaches(CommitGraph(s), view, Glob(glob), c) <==>
              exists n :: OutsideMeta(glob, n) && RefReaches(s, view, n, c)
    ensures forall o :: TermReaches(CommitGraph(s), view, Raw(o), c) <==> Reaches(CommitGraph(s), o, c)
  {
    hide Reaches, Pattern.Matches;
    if TermReaches(CommitGraph(s), view, Glob(glob), c) {
      var x :| x in TermTips(view, Glob(glob)) && Reaches(CommitGraph(s), x, c);
      var n :| n in view && GlobSelects(glob, n) && view[n] == x;
      assert OutsideMeta(glob, n) && RefReaches(s, view, n, c);
    }
    if n :| OutsideMeta(glob, n) && RefReaches(s, view, n, c) {
      assert GlobSelects(glob, n) && view[n] in TermTips(view, Glob(glob));
    }
  }

  predicate OutsideMeta(glob: string, n: string) {
    Pattern.Matches(glob, n) && "refs/" <= n && !("refs/meta/" <= n)
  }

  // -- atoms, by their text ---------------------------------------------------------------

  /** What stands between `rev(` and `)` is the revision text; the whole of a text without grammar characters is one. */
  lemma RevAtom(rule: SegmentRule, text: string)
    requires ParseRev(text).Ok? && Trimmed(text)
    ensures ParseText(rule, "rev(" + text + ")") == Ok(Rev(ParseRev(text).value))
  {
    hide ParseText, Trim, Trimmed, ParseRevTokens;
    ParsedRevIsCanonical(text);
    TrimmedIsFixed(text);
    CanonicalTextParses(rule, Rev(ParseRev(text).value));
  }

  /** The words `pass`, `fail` and `error` stand for the statuses, `any` for all. */
  lemma ResultsAtom(rule: SegmentRule, effect: string)
    requires CanonicalEffect(rule, effect)
    ensures ParseText(rule, "results(" + effect + ", pass)") == Ok(Results(effect, Only(Pass)))
    ensures ParseText(rule, "results(" + effect + ", fail)") == Ok(Results(effect, Only(Fail)))
    ensures ParseText(rule, "results(" + effect + ", error)") == Ok(Results(effect, Only(Error)))
    ensures ParseText(rule, "results(" + effect + ", any)") == Ok(Results(effect, Any))
  {
    hide ParseText, CanonicalEffect;
    OneResultsAtom(rule, effect, Only(Pass), ", pass)");
    OneResultsAtom(rule, effect, Only(Fail), ", fail)");
    OneResultsAtom(rule, effect, Only(Error), ", error)");
    OneResultsAtom(rule, effect, Any, ", any)");
  }

  lemma OneResultsAtom(rule: SegmentRule, effect: string, filter: StatusFilter, rest: string)
    requires CanonicalEffect(rule, effect) && ", " + ShowStatus(filter) + ")" == rest
    ensures ParseText(rule, "results(" + effect + rest) == Ok(Results(effect, filter))
  {
    hide ParseText, CanonicalEffect, ShowStatus;
    CanonicalTextParses(rule, Results(effect, filter));
    assert "results(" + effect + ", " + ShowStatus(filter) + ")"
        == "results(" + effect + (", " + ShowStatus(filter) + ")");
  }

  /** A meta glob is accepted exactly when it lies below `refs/meta/` and matches nothing effects write. */
  lemma MetaAtomIff(glob: string)
    requires Trimmed(glob)
    ensures ParseMeta(glob) == Ok(Meta(glob)) <==>
              && PatternText(glob) && "refs/meta/" <= glob
              && forall n :: Pattern.Matches(glob, n) ==> !("refs/meta/results/" <= n) && !("refs/meta/index/" <= n)
  {
    hide Trim, Trimmed, PatternText, NewPattern, Pattern.Matches, Pattern.MayMatch;
    TrimmedIsFixed(glob);
    PatternIff(glob);
    Pattern.MayMatchExact(glob, "refs/meta/results/");
    Pattern.MayMatchExact(glob, "refs/meta/index/");
  }

  lemma MetaAtom(rule: SegmentRule, glob: string)
    requires ParseMeta(glob) == Ok(Meta(glob))
    ensures ParseText(rule, "meta(" + glob + ")") == Ok(Meta(glob))
  {
    hide ParseText, ParseMeta, NewPattern;
    MetaIsPlain(glob);
    PlainHasNoParens(glob);
    CanonicalTextParses(rule, Meta(glob));
  }

  lemma MetaIsPlain(glob: string)
    requires ParseMeta(glob) == Ok(Meta(glob))
    ensures PlainPattern(glob)
  {
    hide Trim, Pattern.MayMatch;
  }

  /** A meta atom selects the tips of the refs below `refs/meta/` its glob matches. */
  lemma MetaSelectsTips(s: Store, view: Refs, glob: string, c: Oid)
    ensures Holds(s, view, Meta(glob), c) <==>
              exists n :: n in view && "refs/meta/" <= n && Pattern.Matches(glob, n) && view[n] == c
  {
    hide Pattern.Matches;
    if n :| n in view && "refs/meta/" <= n && Pattern.Matches(glob, n) && view[n] == c {
      assert MetaSelects(glob, n);
    }
  }

  // -- operators, by their text --------------------------------------------------------------

  /** `|` is union, `&` intersection, `-` difference. */
  lemma OperatorTexts(rule: SegmentRule, l: Query, r: Query)
    requires Canonical(rule, l) && Canonical(rule, r)
    ensures ParseText(rule, Show(l) + " | " + ShowRight(r)).Ok?
    ensures ParseText(rule, Show(l) + " & " + ShowRight(r)).Ok?
    ensures ParseText(rule, Show(l) + " - " + ShowRight(r)).Ok?
    ensures forall s, view, c ::
              Holds(s, view, ParseText(rule, Show(l) + " | " + ShowRight(r)).value, c) <==>
                Holds(s, view, l, c) || Holds(s, view, r, c)
    ensures forall s, view, c ::
              Holds(s, view, ParseText(rule, Show(l) + " & " + ShowRight(r)).value, c) <==>
                Holds(s, view, l, c) && Holds(s, view, r, c)
    ensures forall s, view, c ::
              Holds(s, view, ParseText(rule, Show(l) + " - " + ShowRight(r)).value, c) <==>
                Holds(s, view, l, c) && !Holds(s, view, r, c)
  {
    hide ParseText, Show, ShowRight, Canonical;
    OneOperator(rule, Union, l, r);
    OneOperator(rule, Intersect, l, r);
    OneOperator(rule, Difference, l, r);
    assert Spaced(Union) == " | " && Spaced(Intersect) == " & " && Spaced(Difference) == " - ";
  }

  lemma OneOperator(rule: SegmentRule, op: SetOp, l: Query, r: Query)
    requires Canonical(rule, l) && Canonical(rule, r)
    ensures ParseText(rule, Show(l) + Spaced(op) + ShowRight(r)) == Ok(Op(op, l, r))
  {
    hide ParseText, Show, ShowRight;
    OpIsCanonical(rule, op, l, r);
    CanonicalTextParses(rule, Op(op, l, r));
    OpText(op, l, r);
  }

  /** Operators in a row group to the left, whichever they are; parentheses group otherwise. */
  lemma GroupsLeft(rule: SegmentRule, a: Query, b: Query, d: Query, op: SetOp, next: SetOp)
    requires Canonical(rule, a) && Canonical(rule, b) && Canonical(rule, d) && !b.Op? && !d.Op?
    ensures ParseText(rule, Show(a) + Spaced(op) + Show(b) + Spaced(next) + Show(d)) == Ok(Op(next, Op(op, a, b), d))
    ensures ParseText(rule, Show(a) + Spaced(op) + "(" + Show(b) + Spaced(next) + Show(d) + ")") ==
            Ok(Op(op, a, Op(next, b, d)))
  {
    hide ParseText, Show, Canonical;
    OpIsCanonical(rule, op, a, b);
    OpIsCanonical(rule, next, b, d);
    OpText(op, a, b);
    OpText(next, b, d);
    OneOperator(rule, next, Op(op, a, b), d);
    OneOperator(rule, op, a, Op(next, b, d));
    assert Show(a) + Spaced(op) + "(" + Show(b) + Spaced(next) + Show(d) + ")"
        == Show(a) + Spaced(op) + ("(" + (Show(b) + Spaced(next) + Show(d)) + ")");
  }

  // -- the bare form ---------------------------------------------------------------------

  /** Without a parenthesis nothing is a query of atoms. */
  lemma NoParenNoQuery(rule: SegmentRule, s: string)
    requires '(' !in s
    ensures CompleteQuery(rule, s).Err?
  {
    hide ParseAtomArgs, ClosingParen, SkipName, SkipBlanks;
    assert forall i :: 0 <= i < |s| ==> s[i] != '(';
    var start := SkipBlanks(s, 0);
    if start < |s| {
      assert TermAt(rule, s, 0) == AtomAt(rule, s, start) && AtomAt(rule, s, start).Failed?;
    }
    assert TermAt(rule, s, 0).Failed?;
  }

  /** A text without blanks, parentheses, `|`, `&` and `,` stands for `rev(...)` of itself. */
  lemma BareText(rule: SegmentRule, t: string)
    requires t != "" && Trimmed(t) && forall c :: c in t ==> c !in " \t\n\U{000C}\r" && c !in "()|&,"
    ensures ParseText(rule, t).Ok? <==> ParseRev(t).Ok?
    ensures ParseText(rule, t).Ok? ==> ParseText(rule, t) == Ok(Rev(ParseRev(t).value))
  {
    hide CompleteQuery, ParseRev, IsAsciiWhitespace, Trimmed;
    assert '(' in "()|&,";
    forall c: char
      ensures c in " \t\n\U{000C}\r" <==> IsAsciiWhitespace(c)
    {
      AsciiBlankIff(c);
    }
    NoParenNoQuery(rule, t);
    TrimmedIsFixed(t);
  }

  /** A text with one of these is a query or nothing. */
  lemma GrammarText(rule: SegmentRule, t: string, c: char)
    requires c in Trim(t) && (c in " \t\n\U{000C}\r" || c in "()|&,")
    ensures ParseText(rule, t) == CompleteQuery(rule, t)
  {
    hide CompleteQuery, ParseRev, IsAsciiWhitespace, Trim;
    AsciiBlankIff(c);
    assert IsGrammarChar(c);
  }

  // -- what is refused, and why --------------------------------------------------------------

  /** A term below `refs/meta` is refused as such; any other that is none, for the token it stands in. */
  lemma TermErrs(t: string, token: string)
    ensures ParseRevTerm(t, token) == Err(MetaInRev(t)) <==>
              PatternText(t) && NoOperators(t) && !FortyHex(t) && if '*' in t then "refs/meta" <= t else InMeta(t)
    ensures ParseRevTerm(t, token).Err? ==> ParseRevTerm(t, token).error in {MetaInRev(t), UnsupportedRev(token)}
  {
    hide NewPattern, PatternText, DwimCandidates, InMeta, LiteralPrefix, Lower, FortyHex;
    PatternIff(t);
    FortyHexIff(t);
    InMetaIff(t);
    assert '*' !in "refs/meta";
    LiteralHead(t, "refs/meta");
    NotEmpty(t);
    MetaIsBelowRefs(t);
  }

  lemma MetaIsBelowRefs(t: string)
    ensures "refs/meta" <= t ==> "refs/" <= t
  {
    if "refs/meta" <= t {
      assert t[..5] == t[..9][..5] == "refs/";
    }
  }

  /** A revision text is refused when it is blank, for its first bad token, or when no token brings anything in. */
  lemma RevErrs(text: string)
    ensures ParseRev(text) == Err(EmptyRev) <==> Blank(text)
    ensures ParseRev(text) == Err(NoPositiveRev) ==>
              forall t :: t in Tokens(Trim(text)) ==> ParseToken(t).Ok? && "^" <= t
    ensures ParseRev(text).Err? && !ParseRev(text).error.EmptyRev? && !ParseRev(text).error.NoPositiveRev? ==>
              exists i: nat :: FirstBad(Tokens(Trim(text)), i, ParseRev(text).error)
  {
    hide ParseToken, Tokens, Trim, ParseRevTokens, FirstBad, Blank;
    BlankTrims(text);
    FirstBadToken(Tokens(Trim(text)));
    if ParseRevTokens(Tokens(Trim(text))).Err? {
      var i: nat :| FirstBad(Tokens(Trim(text)), i, ParseRevTokens(Tokens(Trim(text))).error);
      BadTokenErrs(Tokens(Trim(text)), i, ParseRevTokens(Tokens(Trim(text))).error);
    }
  }

  lemma BadTokenErrs(tokens: seq<string>, i: nat, e: ParseError)
    requires FirstBad(tokens, i, e)
    ensures e == UnsupportedRev(tokens[i]) || e.MetaInRev?
  {
    TokenErrs(tokens[i]);
  }

  lemma TokenErrs(token: string)
    ensures ParseToken(token).Err? ==>
              ParseToken(token).error == UnsupportedRev(token) || ParseToken(token).error.MetaInRev?
  {
    hide ParseRevTerm;
    forall t
      ensures ParseRevTerm(t, token).Err? ==> ParseRevTerm(t, token).error in {MetaInRev(t), UnsupportedRev(token)}
    {
      TermErrs(t, token);
    }
  }

  lemma BlankTrims(text: string)
    ensures Trim(text) == "" <==> Blank(text)
  {
    hide IsWhitespace, Trim;
    var before, after := TrimSplits(text);
    if Trim(text) != "" {
      assert Trim(text)[0] == text[|before|];
    }
  }

  ghost predicate FirstBad(tokens: seq<string>, i: nat, e: ParseError) {
    i < |tokens| && (forall j :: 0 <= j < i ==> ParseToken(tokens[j]).Ok?) && ParseToken(tokens[i]) == Err(e)
  }

  lemma {:induction false} FirstBadToken(tokens: seq<string>)
    ensures ParseRevTokens(tokens).Err? ==> exists i: nat :: FirstBad(tokens, i, ParseRevTokens(tokens).error)
    ensures ParseRevTokens(tokens).Ok? ==> forall t :: t in tokens ==> ParseToken(t).Ok?
    ensures ParseRevTokens(tokens).Ok? && ParseRevTokens(tokens).value.0 == [] ==> forall t :: t in tokens ==> "^" <= t
  {
    hide ParseToken;
    if tokens != [] {
      FirstBadToken(tokens[1..]);
      TokenIncludes(tokens[0]);
      assert forall t :: t in tokens ==> t == tokens[0] || t in tokens[1..];
      if ParseToken(tokens[0]).Err? {
        assert FirstBad(tokens, 0, ParseRevTokens(tokens).error);
      } else if ParseRevTokens(tokens[1..]).Err? {
        var i: nat :| FirstBad(tokens[1..], i, ParseRevTokens(tokens[1..]).error);
        assert forall j :: 0 < j <= i + 1 ==> tokens[j] == tokens[1..][j - 1];
        assert FirstBad(tokens, i + 1, ParseRevTokens(tokens).error);
      }
    }
  }

  lemma TokenIncludes(token: string)
    ensures ParseToken(token).Ok? && ParseToken(token).value.0 == [] ==> "^" <= token
  {
    hide ParseRevTerm;
  }

  /** The arguments of `results` are refused for the missing comma, the reserved `self`, an effect that is no segment,
      or a status that is none, in this order. */
  lemma ResultsErrs(rule: SegmentRule, effect: string, status: string, at: nat)
    requires ',' !in effect
    ensures ParseResults(rule, effect, at) == Err(Expected("results(effect, status)", at))
    ensures var e, r := Trim(effect), ParseResults(rule, effect + "," + status, at);
            && (r == Err(SelfKeyword) <==> e == "self")
            && (r == Err(BadEffectName(e)) <==> e != "self" && (e == "" || '/' in e || !rule(e)))
            && (r == Err(BadStatus(Trim(status))) <==>
                  e != "self" && e != "" && '/' !in e && rule(e) && Trim(status) !in {"pass", "fail", "error", "any"})
            && (r.Err? ==> r.error in {SelfKeyword, BadEffectName(e), BadStatus(Trim(status))})
  {
    hide Trim, SplitOnce;
    SplitOnceAt(effect, ',', status);
  }

  /** A meta glob is refused as no pattern, as outside `refs/meta/`, or for a refname effects write that it matches. */
  lemma MetaErrs(glob: string)
    requires Trimmed(glob)
    ensures ParseMeta(glob).Err? && ParseMeta(glob).error.BadPattern? <==> !PatternText(glob)
    ensures ParseMeta(glob) == Err(MetaGlobOutside(glob)) <==> PatternText(glob) && !("refs/meta/" <= glob)
    ensures ParseMeta(glob) == Err(MetaGlobEffectWritten(glob, "refs/meta/results/")) <==>
              PatternText(glob) && "refs/meta/" <= glob && Meets(glob, "refs/meta/results/")
    ensures ParseMeta(glob) == Err(MetaGlobEffectWritten(glob, "refs/meta/index/")) <==>
              && PatternText(glob) && "refs/meta/" <= glob
              && !Meets(glob, "refs/meta/results/") && Meets(glob, "refs/meta/index/")
  {
    hide Trim, Trimmed, PatternText, NewPattern, Pattern.Matches, Pattern.MayMatch;
    TrimmedIsFixed(glob);
    PatternIff(glob);
    MeetsIff(glob, "refs/meta/results/");
    MeetsIff(glob, "refs/meta/index/");
    assert |"refs/meta/results/"| != |"refs/meta/index/"|;
  }

  ghost predicate Meets(glob: string, prefix: string) {
    exists n :: Pattern.Matches(glob, n) && prefix <= n
  }

  lemma MeetsIff(glob: string, prefix: string)
    ensures Meets(glob, prefix) <==> Pattern.MayMatch(glob, prefix)
  {
    Pattern.MayMatchExact(glob, prefix);
    if Pattern.MayMatch(glob, prefix) {
      var n :| prefix <= n && Pattern.Matches(glob, n);
      assert Meets(glob, prefix);
    }
    if Meets(glob, prefix) {
      var n :| Pattern.Matches(glob, n) && prefix <= n;
      assert exists text :: prefix <= text && Pattern.Matches(glob, text);
    }
  }

  /** Text after a whole query is skipped if blank, and reported as it stands if it is no operator. */
  lemma TrailingIs(rule: SegmentRule, q: Query, rest: string)
    requires Canonical(rule, q) && rest != ""
    ensures |rest| == 1 && rest[0] in " \t\n\U{000C}\r" ==> CompleteQuery(rule, Show(q) + rest) == Ok(q)
    ensures rest[0] !in " \t\n\U{000C}\r" && rest[0] !in "|&-" ==>
              CompleteQuery(rule, Show(q) + rest) == Err(Trailing(rest))
  {
    hide Canonical, Show, CompleteQuery, IsAsciiWhitespace;
    var s, end := Show(q) + rest, |Show(q)|;
    assert s[0..end] == Show(q) && s[end] == rest[0] && s[end..] == rest;
    ShowParses(rule, s, 0, q);
    AsciiBlankIff(rest[0]);
    if rest[0] in " \t\n\U{000C}\r" {
      if |rest| == 1 {
        BlankEnds(rule, s, end, q);
      }
    } else if rest[0] !in "|&-" {
      OtherEnds(rule, s, end, q);
    }
  }

  lemma BlankEnds(rule: SegmentRule, s: string, end: nat, q: Query)
    requires end + 1 == |s| && IsAsciiWhitespace(s[end]) && QueryAt(rule, s, 0) == RestAt(rule, s, q, end)
    ensures CompleteQuery(rule, s) == Ok(q)
  {
    hide TermAt, QueryAt;
    assert SkipBlanks(s, end) == |s| && OpAt(s, |s|) == None;
    assert RestAt(rule, s, q, end) == Done(q, |s|);
  }

  lemma OtherEnds(rule: SegmentRule, s: string, end: nat, q: Query)
    requires end < |s| && !IsAsciiWhitespace(s[end]) && s[end] !in "|&-"
    requires QueryAt(rule, s, 0) == RestAt(rule, s, q, end)
    ensures CompleteQuery(rule, s) == Err(Trailing(s[end..]))
  {
    hide TermAt, QueryAt;
    assert SkipBlanks(s, end) == end && OpAt(s, end) == None;
    assert RestAt(rule, s, q, end) == Done(q, end);
  }

  /** Atom names are made of letters, digits and underscores. */
  predicate NameText(name: string) {
    forall c :: c in name ==> 'a' <= c <= 'z' || 'A' <= c <= 'Z' || '0' <= c <= '9' || c == '_'
  }

  /** A name that is none of the three atoms is reported as such, one without its closing parenthesis by the place of
      the opening one, and one followed by anything else by the place the parenthesis was expected at. */
  lemma AtomErrs(rule: SegmentRule, name: string, args: string)
    requires name != "" && NameText(name)
    ensures name !in {"rev", "results", "meta"} && Balanced(args) ==>
              CompleteQuery(rule, name + "(" + args + ")") == Err(UnknownAtom(name))
    ensures ')' !in args ==> CompleteQuery(rule, name + "(" + args) == Err(Unbalanced(|name|))
    ensures args == "" || (!NameText([args[0]]) && args[0] !in "( \t\n\U{000C}\r") ==>
              CompleteQuery(rule, name + args) == Err(Expected("'(' after the atom name", |name|))
  {
    hide Balanced, CompleteQuery, SkipName;
    NameTextIff(name);
    if name !in {"rev", "results", "meta"} && Balanced(args) {
      UnknownAtomIs(rule, name, args);
    }
    if ')' !in args {
      UnclosedAtomIs(rule, name, args);
    }
    if args == "" {
      BareNameIs(rule, name);
      assert name + args == name;
    } else if !NameText([args[0]]) && args[0] !in "( \t\n\U{000C}\r" {
      NameTextIff([args[0]]);
      AsciiBlankIff(args[0]);
      assert ' ' in "( \t\n\U{000C}\r";
      OtherAfterName(rule, name, args);
    }
  }

  lemma NameTextIff(name: string)
    ensures NameText(name) <==> forall i :: 0 <= i < |name| ==> IsNameChar(name[i])
  {
    if NameText(name) {
      assert forall i :: 0 <= i < |name| ==> name[i] in name;
    }
  }

  lemma OtherAfterName(rule: SegmentRule, name: string, rest: string)
    requires name != "" && (forall i :: 0 <= i < |name| ==> IsNameChar(name[i])) && rest != ""
    requires !IsNameChar(rest[0]) && !IsAsciiWhitespace(rest[0]) && rest[0] != '('
    ensures CompleteQuery(rule, name + rest) == Err(Expected("'(' after the atom name", |name|))
  {
    hide SkipName, ParseAtomArgs;
    var s, open := name + rest, |name|;
    assert s[..open] == name == s[0..open] && s[open] == rest[0];
    SkipNameTo(s, 0, open);
    assert SkipBlanks(s, open) == open;
    assert AtomAt(rule, s, 0) == Failed(Expected("'(' after the atom name", open));
    FirstTermFails(rule, s, Expected("'(' after the atom name", open));
  }

  lemma UnknownAtomIs(rule: SegmentRule, name: string, args: string)
    requires name != "" && (forall i :: 0 <= i < |name| ==> IsNameChar(name[i])) && !AtomName(name) && Balanced(args)
    ensures CompleteQuery(rule, name + "(" + args + ")") == Err(UnknownAtom(name))
  {
    hide Depth, SkipName, ClosingParen, ParseRev, ParseResults, ParseMeta;
    var s := name + "(" + args + ")";
    var open, close := |name|, |name| + 1 + |args|;
    assert s[..open] == name && s[open] == '(' && s[close] == ')' && s[open + 1..close] == args;
    NameStands(s, name);
    ClosingIsFirstZero(s, open + 1, 1, close);
    assert AtomAt(rule, s, 0) == Failed(UnknownAtom(name));
    FirstTermFails(rule, s, UnknownAtom(name));
  }

  lemma UnclosedAtomIs(rule: SegmentRule, name: string, args: string)
    requires name != "" && (forall i :: 0 <= i < |name| ==> IsNameChar(name[i])) && ')' !in args
    ensures CompleteQuery(rule, name + "(" + args) == Err(Unbalanced(|name|))
  {
    hide SkipName, ParseAtomArgs;
    var s, open := name + "(" + args, |name|;
    assert s[..open] == name && s[open] == '(';
    NameStands(s, name);
    assert forall i :: open < i < |s| ==> s[i] in args;
    assert ClosingParen(s, open + 1, 1) == None;
    assert AtomAt(rule, s, 0) == Failed(Unbalanced(open));
    FirstTermFails(rule, s, Unbalanced(open));
  }

  lemma BareNameIs(rule: SegmentRule, name: string)
    requires name != "" && forall i :: 0 <= i < |name| ==> IsNameChar(name[i])
    ensures CompleteQuery(rule, name) == Err(Expected("'(' after the atom name", |name|))
  {
    hide SkipName, ParseAtomArgs;
    NameEnds(name, 0);
    assert name[0..|name|] == name;
    assert AtomAt(rule, name, 0) == Failed(Expected("'(' after the atom name", |name|));
    assert IsNameChar(name[0]);
    FirstTermFails(rule, name, Expected("'(' after the atom name", |name|));
  }

  lemma {:induction false} NameEnds(name: string, pos: nat)
    requires pos <= |name| && forall i :: 0 <= i < |name| ==> IsNameChar(name[i])
    ensures SkipName(name, pos) == |name|
    decreases |name| - pos
  {
    if pos < |name| {
      NameEnds(name, pos + 1);
    }
  }

  lemma NameStands(s: string, name: string)
    requires |name| < |s| && s[..|name|] == name && s[|name|] == '(' && name != ""
    requires forall i :: 0 <= i < |name| ==> IsNameChar(name[i])
    ensures SkipName(s, 0) == |name| && IsNameChar(s[0])
  {
    hide SkipName;
    assert forall i :: 0 <= i < |name| ==> s[i] == s[..|name|][i];
    SkipNameTo(s, 0, |name|);
  }

  lemma FirstTermFails(rule: SegmentRule, s: string, e: ParseError)
    requires s != "" && IsNameChar(s[0]) && AtomAt(rule, s, 0) == Failed(e)
    ensures CompleteQuery(rule, s) == Err(e)
  {
    hide AtomAt;
    assert SkipBlanks(s, 0) == 0 && s[0] != '(';
    assert TermAt(rule, s, 0) == Failed(e);
  }
}
