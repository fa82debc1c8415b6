/** What a revision text means, said of the text itself. */
module RevText {
  import opened Graph
  import opened Objects
  import opened Text
  import opened Query
  import opened Denotation

  // -- the tokens of a revision text ----------------------------------------------

  datatype Token = Plus(term: string) | Minus(term: string) | Range(base: string, tip: string)

  function TextOf(t: Token): string {
    match t
    case Plus(term) => term
    case Minus(term) => "^" + term
    case Range(base, tip) => base + ".." + tip
  }

  predicate Word(s: string) {
    s != "" && forall c :: c in s ==> !IsWhitespace(c)
  }

  predicate IsTerm(term: string) {
    Word(term) && ParseRevTerm(term, term).Ok?
  }

  function TermOf(term: string): RevTerm
    requires IsTerm(term)
  {
    ParseRevTerm(term, term).value
  }

  /** A token of the subset: its terms are, and no dot stands next to the two of a range. */
  predicate WellFormed(t: Token) {
    match t
    case Plus(term) => IsTerm(term)
    case Minus(term) => IsTerm(term)
    case Range(base, tip) => IsTerm(base) && IsTerm(tip) && base[|base| - 1] != '.' && tip[0] != '.'
  }

  predicate AllWellFormed(ts: seq<Token>) {
    forall t :: t in ts ==> WellFormed(t)
  }

  /** What a token adds to the included terms: a plain term itself, a range its tip. */
  function Includes(t: Token): seq<RevTerm>
    requires WellFormed(t)
  {
    match t
    case Plus(term) => [TermOf(term)]
    case Minus(_) => []
    case Range(_, tip) => [TermOf(tip)]
  }

  /** And to the excluded ones: a negated term itself, a range its base. */
  function Excludes(t: Token): seq<RevTerm>
    requires WellFormed(t)
  {
    match t
    case Plus(_) => []
    case Minus(term) => [TermOf(term)]
    case Range(base, _) => [TermOf(base)]
  }

  function AllIncluded(ts: seq<Token>): seq<RevTerm>
    requires AllWellFormed(ts)
  {
    if ts == [] then [] else Includes(ts[0]) + AllIncluded(ts[1..])
  }

  function AllExcluded(ts: seq<Token>): seq<RevTerm>
    requires AllWellFormed(ts)
  {
    if ts == [] then [] else Excludes(ts[0]) + AllExcluded(ts[1..])
  }

  function Texts(ts: seq<Token>): (texts: seq<string>)
    ensures |texts| == |ts|
  {
    if ts == [] then [] else [TextOf(ts[0])] + Texts(ts[1..])
  }

  // -- one token ----------------------------------------------------------------------

  /** The token a term stands in shows in its error only. */
  lemma TokenIsForErrors(term: string, token: string)
    ensures ParseRevTerm(term, token).Ok? <==> ParseRevTerm(term, term).Ok?
    ensures ParseRevTerm(term, token).Ok? ==> ParseRevTerm(term, token) == ParseRevTerm(term, term)
  {
    hide NewPattern, LiteralPrefix, DwimCandidates, Lower;
  }

  /** No accepted term holds two dots in a row or a caret. */
  lemma TermHasNoDots(term: string)
    requires ParseRevTerm(term, term).Ok?
    ensures term != "" && !HasSubstring(term, "..") && '^' !in term
  {
    hide LiteralPrefix, DwimCandidates, Lower, HasSubstring;
    assert '^' in "~:@{}^";
    if |term| == 40 && forall c :: c in term ==> IsHexDigit(c) {
      HexHasNoDots(term);
    }
  }

  lemma PrefixHead(p: string, s: string)
    ensures p != "" && p <= s ==> s != "" && s[0] == p[0] && p[0] in s
  {
    if p != "" && p <= s {
      assert s[0] == p[0];
    }
  }

  lemma {:induction false} HexHasNoDots(s: string)
    requires forall c :: c in s ==> IsHexDigit(c)
    ensures !HasSubstring(s, "..")
  {
    if s != "" {
      assert s[0] in s;
      PrefixHead("..", s);
      HexHasNoDots(s[1..]);
    }
  }

  lemma {:induction false} SubstringWithin(s: string, t: string, u: string)
    requires HasSubstring(s, t + u)
    ensures HasSubstring(s, t)
  {
    if !(t + u <= s) {
      SubstringWithin(s[1..], t, u);
    } else {
      assert t == (t + u)[..|t|] == s[..|t|];
    }
  }

  lemma {:induction false} NoDotsNoSplit(s: string)
    requires !HasSubstring(s, "..")
    ensures SplitOnDots(s) == None
  {
    if |s| >= 2 {
      NoDotsNoSplit(s[1..]);
    }
  }

  /** The first two dots in a row are the ones between the terms. */
  lemma {:induction false} SplitAtDots(base: string, tip: string)
    requires !HasSubstring(base, "..") && base != "" && base[|base| - 1] != '.'
    ensures SplitOnDots(base + ".." + tip) == Some((base, tip))
  {
    var s := base + ".." + tip;
    if |base| == 1 {
      assert s[1..] == ".." + tip && s[1..][2..] == tip;
      assert SplitOnDots(s[1..]) == Some(("", tip));
      assert [base[0]] + "" == base;
    } else {
      assert s[1..] == base[1..] + ".." + tip;
      assert s[..2] == base[..2] && base[..2] <= base;
      SplitAtDots(base[1..], tip);
      assert [base[0]] + base[1..] == base;
    }
  }

  lemma ThreeDotsAtHead(base: string, tip: string)
    ensures base != "" && "..." <= base + ".." + tip ==> base == "." || ".." <= base
  {
    var s := base + ".." + tip;
    if base != "" && "..." <= s {
      assert s[0] == base[0] == '.' && s[1] == '.';
      if |base| > 1 {
        assert base[..2] == "..";
      }
    }
  }

  /** Nor are there three in a row. */
  lemma {:induction false} NoThreeDots(base: string, tip: string)
    requires !HasSubstring(base, "..") && !HasSubstring(tip, "..")
    requires base == "" || base[|base| - 1] != '.'
    requires tip != "" && tip[0] != '.'
    ensures !HasSubstring(base + ".." + tip, "...")
  {
    var s := base + ".." + tip;
    if base == "" {
      assert s[1..] == "." + tip && s[1..][1..] == tip;
      assert !("..." <= s) by {
        assert s[2] == tip[0];
      }
      assert !("..." <= s[1..]) by {
        assert s[1..][1] == tip[0];
      }
      if HasSubstring(tip, "...") {
        assert ".." + "." == "...";
        SubstringWithin(tip, "..", ".");
      }
    } else {
      assert s[1..] == base[1..] + ".." + tip;
      NoThreeDots(base[1..], tip);
      ThreeDotsAtHead(base, tip);
    }
  }

  /** A well-formed token brings in and keeps out exactly its own terms. */
  lemma TokenParses(t: Token)
    requires WellFormed(t)
    ensures ParseToken(TextOf(t)) == Ok((Includes(t), Excludes(t)))
  {
    hide ParseRevTerm, HasSubstring, SplitOnDots, IsWhitespace;
    var token := TextOf(t);
    match t
    case Plus(term) =>
      TermHasNoDots(term);
      NoDotsNoSplit(term);
      if HasSubstring(term, "...") {
        assert ".." + "." == "...";
        SubstringWithin(term, "..", ".");
      }
      PrefixHead("^", term);
    case Minus(term) =>
      assert token[1..] == term;
      TokenIsForErrors(term, token);
    case Range(base, tip) =>
      TermHasNoDots(base);
      TermHasNoDots(tip);
      SplitAtDots(base, tip);
      NoThreeDots(base, tip);
      TokenIsForErrors(base, token);
      TokenIsForErrors(tip, token);
      assert token[0] == base[0] && base[0] in base;
  }

  /** And every accepted token is one. */
  lemma TokenShape(token: string) returns (t: Token)
    requires Word(token) && ParseToken(token).Ok?
    ensures TextOf(t) == token && WellFormed(t)
  {
    hide ParseRevTerm, HasSubstring, SplitOnDots, IsWhitespace;
    if "^" <= token {
      t := Minus(token[1..]);
      assert token == "^" + token[1..];
      TokenIsForErrors(token[1..], token);
      TermHasNoDots(token[1..]);
    } else if SplitOnDots(token).Some? {
      var (base, tip) := SplitOnDots(token).value;
      t := Range(base, tip);
      TokenIsForErrors(base, token);
      TokenIsForErrors(tip, token);
      OutsideDots(base, tip);
      assert forall c :: c in base || c in tip ==> c in token;
    } else {
      t := Plus(token);
    }
  }

  /** A dot beside the two makes three. */
  lemma OutsideDots(base: string, tip: string)
    requires base != "" && tip != "" && !HasSubstring(base + ".." + tip, "...")
    ensures base[|base| - 1] != '.' && tip[0] != '.'
  {
    hide HasSubstring;
    if tip[0] == '.' {
      DotAfter(base, tip);
    }
    if base[|base| - 1] == '.' {
      DotBefore(base, tip);
    }
  }

  lemma DotAfter(base: string, tip: string)
    requires tip != "" && tip[0] == '.'
    ensures HasSubstring(base + ".." + tip, "...")
  {
    hide HasSubstring;
    var s := base + ".." + tip;
    assert s[|base|..][..3] == "...";
    SubstringAt(s, |base|, "...");
  }

  lemma DotBefore(base: string, tip: string)
    requires base != "" && base[|base| - 1] == '.'
    ensures HasSubstring(base + ".." + tip, "...")
  {
    hide HasSubstring;
    var s := base + ".." + tip;
    assert s[|base| - 1..][..3] == "...";
    SubstringAt(s, |base| - 1, "...");
  }

  lemma {:induction false} SubstringAt(s: string, i: nat, t: string)
    requires i <= |s| && t <= s[i..]
    ensures HasSubstring(s, t)
    decreases i
  {
    if i == 0 {
      assert s[0..] == s;
    } else {
      assert s[1..][i - 1..] == s[i..];
      SubstringAt(s[1..], i - 1, t);
    }
  }

  // -- whole texts --------------------------------------------------------------------

  function Joined(words: seq<string>): string {
    if words == [] then ""
    else if |words| == 1 then words[0]
    else words[0] + " " + Joined(words[1..])
  }

  lemma {:induction false} TokenHeadIs(w: string, rest: string)
    requires (forall c :: c in w ==> !IsWhitespace(c)) && (rest == "" || IsWhitespace(rest[0]))
    ensures TokenHead(w + rest) == w
  {
    hide IsWhitespace;
    if w == "" {
      assert w + rest == rest;
    } else {
      assert (w + rest)[1..] == w[1..] + rest && w[0] in w;
      TokenHeadIs(w[1..], rest);
      assert [w[0]] + w[1..] == w;
    }
  }

  /** The first word of a text that starts with one. */
  lemma FirstToken(w: string, rest: string)
    requires Word(w) && (rest == "" || IsWhitespace(rest[0]))
    ensures Tokens(w + rest) == [w] + Tokens(rest)
  {
    hide IsWhitespace;
    var s := w + rest;
    assert w[0] in w && TrimStart(s) == s;
    TokenHeadIs(w, rest);
    assert s[|w|..] == rest;
  }

  /** The white space of Unicode, by code point. */
  predicate PartsWords(c: char) {
    var n := c as int;
    9 <= n <= 13 || 8192 <= n <= 8202 || n in {32, 133, 160, 5760, 8232, 8233, 8239, 8287, 12288}
  }

  lemma PartsWordsIff(c: char)
    ensures PartsWords(c) <==> IsWhitespace(c)
  {
  }

  /** Any one white space parts two words; any other character joins them to one. */
  lemma WordsPart(a: string, c: char, b: string)
    requires Word(a) && Word(b)
    ensures Tokens(a + [c] + b) == if PartsWords(c) then [a, b] else [a + [c] + b]
  {
    hide IsWhitespace, PartsWords, Tokens;
    PartsWordsIff(c);
    if PartsWords(c) {
      assert a + [c] + b == a + ([c] + b);
      FirstToken(a, [c] + b);
      OneBlank(c, b);
      OneWord([b]);
    } else {
      OneWord([a + [c] + b]);
    }
  }

  lemma OneBlank(c: char, s: string)
    requires IsWhitespace(c)
    ensures Tokens([c] + s) == Tokens(s)
  {
    hide IsWhitespace, TokenHead, TrimStart;
    TrimBlank(c, s);
  }

  lemma TrimBlank(c: char, s: string)
    requires IsWhitespace(c)
    ensures TrimStart([c] + s) == TrimStart(s)
  {
    hide IsWhitespace;
    assert ([c] + s)[1..] == s;
  }

  lemma JoinedFirst(words: seq<string>)
    requires |words| > 1
    ensures Joined(words) == words[0] + (" " + Joined(words[1..]))
  {
  }

  /** Words between single blanks are the tokens of the text. */
  lemma {:induction false} JoinedTokens(words: seq<string>)
    requires forall w :: w in words ==> Word(w)
    ensures Tokens(Joined(words)) == words
  {
    hide IsWhitespace, Word, Joined, Tokens;
    if words == [] {
      NoTokens();
    } else {
      assert words[0] in words && forall v :: v in words[1..] ==> v in words;
      if |words| == 1 {
        OneWord(words);
      } else {
        JoinedFirst(words);
        BlankIsWhitespace();
        FirstToken(words[0], " " + Joined(words[1..]));
        OneBlank(' ', Joined(words[1..]));
        JoinedTokens(words[1..]);
        assert words == [words[0]] + words[1..];
      }
    }
  }

  lemma BlankIsWhitespace()
    ensures IsWhitespace(' ')
  {
  }

  lemma NoTokens()
    ensures Joined([]) == "" && Tokens("") == []
  {
  }

  lemma OneWord(words: seq<string>)
    requires |words| == 1 && Word(words[0])
    ensures Joined(words) == words[0] && Tokens(words[0]) == words
  {
    hide IsWhitespace, Tokens;
    FirstToken(words[0], "");
    assert words[0] + "" == words[0] && words == [words[0]];
    NoTokens();
  }

  /** And the text is trimmed. */
  lemma {:induction false} JoinedTrimmed(words: seq<string>)
    requires words != [] && forall w :: w in words ==> Word(w)
    ensures Joined(words) != "" && Trimmed(Joined(words))
  {
    hide IsWhitespace;
    var w := words[0];
    assert w in words && w[0] in w && w[|w| - 1] in w;
    if |words| > 1 {
      assert forall v :: v in words[1..] ==> v in words;
      JoinedTrimmed(words[1..]);
      var more := Joined(words[1..]);
      assert Joined(words)[|Joined(words)| - 1] == more[|more| - 1];
    }
  }

  lemma {:induction false} TokensParse(ts: seq<Token>)
    requires AllWellFormed(ts)
    ensures ParseRevTokens(Texts(ts)) == Ok((AllIncluded(ts), AllExcluded(ts)))
    ensures forall w :: w in Texts(ts) ==> Word(w)
  {
    hide ParseToken, WellFormed, IsWhitespace, TextOf;
    if ts != [] {
      assert ts[0] in ts && AllWellFormed(ts[1..]);
      TokenParses(ts[0]);
      TokensParse(ts[1..]);
      assert Texts(ts)[1..] == Texts(ts[1..]);
      TokenIsWord(ts[0]);
    }
  }

  lemma TokenIsWord(t: Token)
    requires WellFormed(t)
    ensures Word(TextOf(t))
  {
    hide ParseRevTerm;
    assert !IsWhitespace('^') && !IsWhitespace('.');
  }

  /** A text of well-formed tokens means exactly them, term by term. */
  lemma RevTextMeans(ts: seq<Token>)
    requires AllWellFormed(ts) && ts != []
    ensures var text := Joined(Texts(ts));
            ParseRev(text) == if AllIncluded(ts) == [] then Err(NoPositiveRev)
                              else Ok(RevExpr(AllIncluded(ts), AllExcluded(ts), text))
  {
    hide WellFormed, IsWhitespace, Tokens, Joined, ParseRevTokens, AllIncluded, AllExcluded, Trimmed;
    TokensParse(ts);
    JoinedTokens(Texts(ts));
    JoinedTrimmed(Texts(ts));
    TrimmedIsFixed(Joined(Texts(ts)));
  }

  lemma {:induction false} TokensShape(tokens: seq<string>) returns (ts: seq<Token>)
    requires (forall w :: w in tokens ==> Word(w)) && ParseRevTokens(tokens).Ok?
    ensures AllWellFormed(ts) && Texts(ts) == tokens
  {
    hide ParseToken, WellFormed, IsWhitespace, TextOf;
    if tokens == [] {
      ts := [];
    } else {
      assert tokens[0] in tokens && forall w :: w in tokens[1..] ==> w in tokens;
      var t := TokenShape(tokens[0]);
      var rest := TokensShape(tokens[1..]);
      ts := [t] + rest;
      assert ts[1..] == rest;
    }
  }

  lemma {:induction false} TokensAreWords(s: string)
    ensures forall w :: w in Tokens(s) ==> Word(w)
    decreases |s|
  {
    hide IsWhitespace;
    var t := TrimStart(s);
    if t != "" {
      TokensAreWords(t[|TokenHead(t)|..]);
    }
  }

  /** Every accepted text is one of well-formed tokens, and includes and excludes their terms. */
  lemma RevTextIs(text: string) returns (ts: seq<Token>)
    requires ParseRev(text).Ok?
    ensures AllWellFormed(ts) && Texts(ts) == Tokens(Trim(text))
    ensures ParseRev(text) == Ok(RevExpr(AllIncluded(ts), AllExcluded(ts), Trim(text)))
  {
    hide WellFormed, Tokens, ParseRevTokens, AllIncluded, AllExcluded, Trim;
    TokensAreWords(Trim(text));
    ts := TokensShape(Tokens(Trim(text)));
    TokensParse(ts);
  }

  // -- what it denotes ------------------------------------------------------------------

  /** The token brings `c` in: a plain term or a range's tip reaches it. */
  ghost predicate BringsIn(g: Commits, view: Refs, t: Token, c: Oid)
    requires WellFormed(t)
  {
    match t
    case Plus(term) => TermReaches(g, view, TermOf(term), c)
    case Minus(_) => false
    case Range(_, tip) => TermReaches(g, view, TermOf(tip), c)
  }

  /** The token keeps `c` out: a negated term or a range's base reaches it. */
  ghost predicate KeepsOut(g: Commits, view: Refs, t: Token, c: Oid)
    requires WellFormed(t)
  {
    match t
    case Plus(_) => false
    case Minus(term) => TermReaches(g, view, TermOf(term), c)
    case Range(base, _) => TermReaches(g, view, TermOf(base), c)
  }

  lemma {:induction false} IncludedReach(g: Commits, view: Refs, ts: seq<Token>, c: Oid)
    requires AllWellFormed(ts)
    ensures TermsReach(g, view, AllIncluded(ts), c) <==> exists t :: t in ts && BringsIn(g, view, t, c)
    ensures TermsReach(g, view, AllExcluded(ts), c) <==> exists t :: t in ts && KeepsOut(g, view, t, c)
  {
    hide TermReaches, IsTerm, IsWhitespace;
    if ts != [] {
      assert ts[0] in ts && AllWellFormed(ts[1..]);
      IncludedReach(g, view, ts[1..], c);
      assert ts == [ts[0]] + ts[1..];
      ReachEither(g, view, Includes(ts[0]), AllIncluded(ts[1..]), c);
      ReachEither(g, view, Excludes(ts[0]), AllExcluded(ts[1..]), c);
      OneReach(g, view, ts[0], c);
    }
  }

  lemma ReachEither(g: Commits, view: Refs, a: seq<RevTerm>, b: seq<RevTerm>, c: Oid)
    ensures TermsReach(g, view, a + b, c) <==> TermsReach(g, view, a, c) || TermsReach(g, view, b, c)
  {
    hide TermReaches;
    assert forall t :: t in a + b <==> t in a || t in b;
  }

  lemma OneReach(g: Commits, view: Refs, t: Token, c: Oid)
    requires WellFormed(t)
    ensures TermsReach(g, view, Includes(t), c) <==> BringsIn(g, view, t, c)
    ensures TermsReach(g, view, Excludes(t), c) <==> KeepsOut(g, view, t, c)
  {
    hide TermReaches, IsTerm;
  }

  /** A revision text holds for the commits some token brings in and none keeps out. */
  lemma RevTextHolds(s: Store, view: Refs, ts: seq<Token>, c: Oid)
    requires AllWellFormed(ts) && ParseRev(Joined(Texts(ts))).Ok?
    ensures var g := CommitGraph(s);
            Holds(s, view, Rev(ParseRev(Joined(Texts(ts))).value), c) <==>
              (exists t :: t in ts && BringsIn(g, view, t, c)) && !exists t :: t in ts && KeepsOut(g, view, t, c)
  {
    hide ParseRevTokens, Tokens, TermsReach, BringsIn, KeepsOut, WellFormed, AllIncluded, AllExcluded, Joined;
    if ts == [] {
      NoText();
    }
    RevTextMeans(ts);
    IncludedReach(CommitGraph(s), view, ts, c);
  }

  lemma NoText()
    ensures ParseRev(Joined(Texts([]))) == Err(EmptyRev)
  {
  }

  lemma OneTokenMeans(t: Token)
    requires WellFormed(t) && Includes(t) != []
    ensures ParseRev(TextOf(t)) == Ok(RevExpr(Includes(t), Excludes(t), TextOf(t)))
  {
    hide WellFormed, ParseRev, TextOf, Includes, Excludes;
    var ts := [t];
    assert ts[1..] == [] && Texts(ts) == [TextOf(t)];
    RevTextMeans(ts);
    assert AllIncluded(ts) == Includes(t) && AllExcluded(ts) == Excludes(t);
  }

  lemma TwoTokensMean(t: Token, u: Token)
    requires WellFormed(t) && WellFormed(u) && Includes(t) != []
    ensures var text := TextOf(t) + " " + TextOf(u);
            ParseRev(text) == Ok(RevExpr(Includes(t) + Includes(u), Excludes(t) + Excludes(u), text))
  {
    hide WellFormed, ParseRev, TextOf, Includes, Excludes;
    var ts, rest := [t, u], [u];
    assert ts[1..] == rest && rest[1..] == [];
    assert Texts(rest) == [TextOf(u)] && Texts(ts) == [TextOf(t), TextOf(u)];
    assert Texts(ts)[1..] == [TextOf(u)];
    JoinedFirst(Texts(ts));
    assert Joined([TextOf(u)]) == TextOf(u);
    assert TextOf(t) + (" " + TextOf(u)) == TextOf(t) + " " + TextOf(u);
    RevTextMeans(ts);
    assert AllIncluded(rest) == Includes(u) && AllExcluded(rest) == Excludes(u);
  }

  /** `a..b` is `b ^a` in all but its text: the tip included, the base excluded. */
  lemma RangeParses(a: string, b: string)
    requires IsTerm(a) && IsTerm(b) && a[|a| - 1] != '.' && b[0] != '.'
    ensures ParseRev(a + ".." + b) == Ok(RevExpr([TermOf(b)], [TermOf(a)], a + ".." + b))
    ensures ParseRev(b + " ^" + a) == Ok(RevExpr([TermOf(b)], [TermOf(a)], b + " ^" + a))
  {
    hide IsTerm, ParseRev, TermOf;
    OneTokenMeans(Range(a, b));
    TwoTokensMean(Plus(b), Minus(a));
    assert Includes(Plus(b)) + Includes(Minus(a)) == [TermOf(b)];
    assert Excludes(Plus(b)) + Excludes(Minus(a)) == [TermOf(a)];
    MinusAfter(a, b);
  }

  lemma MinusAfter(a: string, b: string)
    ensures b + " " + ("^" + a) == b + " ^" + a
  {
  }

  /** It holds for what `b` reaches and `a` does not. */
  lemma RangeHolds(s: Store, view: Refs, a: string, b: string, e: RevExpr, c: Oid)
    requires IsTerm(a) && IsTerm(b) && a[|a| - 1] != '.' && b[0] != '.'
    requires ParseRev(a + ".." + b) == Ok(e)
    ensures Holds(s, view, Rev(e), c) <==>
              TermReaches(CommitGraph(s), view, TermOf(b), c) && !TermReaches(CommitGraph(s), view, TermOf(a), c)
  {
    hide *;
    RangeParses(a, b);
    OneEachHolds(s, view, e, TermOf(b), TermOf(a), c);
  }

  lemma OneEachHolds(s: Store, view: Refs, e: RevExpr, x: RevTerm, y: RevTerm, c: Oid)
    requires e.positive == [x] && e.negative == [y]
    ensures Holds(s, view, Rev(e), c) <==>
              TermReaches(CommitGraph(s), view, x, c) && !TermReaches(CommitGraph(s), view, y, c)
  {
    hide TermReaches, TermsReach;
    OneOfOne(CommitGraph(s), view, x, c);
    OneOfOne(CommitGraph(s), view, y, c);
  }

  lemma OneOfOne(g: Commits, view: Refs, term: RevTerm, c: Oid)
    ensures TermsReach(g, view, [term], c) <==> TermReaches(g, view, term, c)
  {
    hide TermReaches;
    assert term in [term];
  }

  /** Next to another dot the two are refused. */
  lemma DotBesideRangeIsRefused(a: string, b: string)
    requires Word(a) && Word(b) && a[0] != '^' && (a[|a| - 1] == '.' || b[0] == '.')
    ensures ParseRev(a + ".." + b).Err?
  {
    hide IsWhitespace, ParseToken, ParseRevTerm, Tokens, TrimStart, TrimEnd;
    var text, words := a + ".." + b, [a + ".." + b];
    assert text[0] == a[0] && text[|text| - 1] == b[|b| - 1] && a[0] in a && b[|b| - 1] in b;
    DotIsNoBlank();
    TrimmedIsFixed(text);
    OneWord(words);
    assert words[0] == text;
    DotBesideRange(a, b);
  }

  lemma DotIsNoBlank()
    ensures !IsWhitespace('.')
  {
  }

  lemma DotBesideRange(a: string, b: string)
    requires a != "" && b != "" && a[0] != '^' && (a[|a| - 1] == '.' || b[0] == '.')
    ensures ParseToken(a + ".." + b).Err?
  {
    hide ParseRevTerm, HasSubstring, SplitOnDots;
    var text := a + ".." + b;
    PrefixHead("^", text);
    if b[0] == '.' {
      DotAfter(a, b);
    } else {
      DotBefore(a, b);
    }
  }
}
