/** Refname globs: literal characters and `*`, which matches any run of characters including '/'. */
module Pattern {

  /** Whether `text` matches the glob, by trying every run a star could take. */
  predicate Matches(pattern: string, text: string)
    decreases |pattern|
  {
    if pattern == "" then text == ""
    else if pattern[0] == '*' then exists k :: 0 <= k <= |text| && Matches(pattern[1..], text[k..])
    else text != "" && text[0] == pattern[0] && Matches(pattern[1..], text[1..])
  }

  predicate Literal(s: string) {
    '*' !in s
  }

  /** A literal head is matched by itself. */
  lemma {:induction false} LiteralHead(lit: string, rest: string, text: string)
    requires Literal(lit)
    ensures Matches(lit + rest, text) <==> lit <= text && Matches(rest, text[|lit|..])
  {
    if lit == "" {
      assert lit + rest == rest && text[|lit|..] == text;
    } else {
      assert (lit + rest)[1..] == lit[1..] + rest;
      if text != "" && text[0] == lit[0] {
        LiteralHead(lit[1..], rest, text[1..]);
        assert lit <= text ==> text[1..][|lit| - 1..] == text[|lit|..];
      }
    }
  }

  lemma LiteralMatchesItself(lit: string, text: string)
    requires Literal(lit)
    ensures Matches(lit, text) <==> lit == text
  {
    LiteralHead(lit, "", text);
    assert lit + "" == lit;
  }

  /** A leading star may swallow any head of the text. */
  lemma StarSwallows(rest: string, head: string, text: string)
    requires rest != "" && rest[0] == '*' && Matches(rest, text)
    ensures Matches(rest, head + text)
  {
    var k :| 0 <= k <= |text| && Matches(rest[1..], text[k..]);
    assert (head + text)[|head| + k..] == text[k..];
  }

  /** The star ahead of `lit` takes nothing and `lit` matches here, or the star takes at least one more character. */
  lemma StarChoice(s: string, lit: string, rest: string, text: string)
    requires Literal(lit) && s == "*" + lit + rest
    ensures Matches(s, text) <==> (lit <= text && Matches(rest, text[|lit|..])) || (text != "" && Matches(s, text[1..]))
  {
    assert s[1..] == lit + rest;
    LiteralHead(lit, rest, text);
    if Matches(s, text) {
      var k :| 0 <= k <= |text| && Matches(s[1..], text[k..]);
      if k == 0 {
        assert text[0..] == text;
      } else {
        assert text[1..][k - 1..] == text[k..];
      }
    }
    if text != "" && Matches(s, text[1..]) {
      var k :| 0 <= k <= |text[1..]| && Matches(s[1..], text[1..][k..]);
      assert text[1..][k..] == text[k + 1..];
    }
    if lit <= text && Matches(rest, text[|lit|..]) {
      assert text[0..] == text;
      assert Matches(s[1..], text[0..]);
    }
  }

  /** Reaching a second star commits to the first one's match: the second can make up any later choice. */
  lemma SecondStarDecides(s: string, lit: string, rest: string, u: string)
    requires Literal(lit) && s == "*" + lit + rest && rest != "" && rest[0] == '*'
    ensures Matches(s, lit + u) <==> Matches(rest, u)
  {
    assert s[1..] == lit + rest;
    var text := lit + u;
    if Matches(s, text) {
      var k :| 0 <= k <= |text| && Matches(s[1..], text[k..]);
      LiteralHead(lit, rest, text[k..]);
      assert text[k..][|lit|..] == u[k..];
      StarSwallows(rest, u[..k], u[k..]);
      assert u[..k] + u[k..] == u;
    }
    if Matches(rest, u) {
      LiteralHead(lit, rest, text);
      assert text[|lit|..] == u && text[0..] == text;
      assert Matches(s[1..], text[0..]);
    }
  }

  /** A star and a literal that uses up the text leave the rest of the pattern nothing. */
  lemma StarAtEnd(s: string, lit: string, rest: string)
    requires Literal(lit) && s == "*" + lit + rest
    ensures Matches(s, lit) <==> Matches(rest, "")
  {
    assert s[1..] == lit + rest;
    if Matches(s, lit) {
      var k :| 0 <= k <= |lit| && Matches(s[1..], lit[k..]);
      LiteralHead(lit, rest, lit[k..]);
      assert lit[|lit|..] == "";
    }
    if Matches(rest, "") {
      LiteralHead(lit, rest, lit);
      assert lit[0..] == lit && lit[|lit|..] == "";
      assert Matches(s[1..], lit[0..]);
    }
  }

  /** What the scan keeps: up to the last star met, the answer is that of the star's own suffix on the marked text;
      since then it has matched only literals. `star == -1` means no star yet. */
  ghost predicate ScanOk(pattern: string, text: string, p: nat, t: nat, star: int, mark: nat) {
    && p <= |pattern| && mark <= t <= |text| && -1 <= star < p
    && (star == -1 ==> (Matches(pattern, text) <==> Matches(pattern[p..], text[t..])))
    && (star >= 0 ==>
          && pattern[star] == '*' && t - mark == p - (star + 1)
          && Literal(pattern[star + 1..p]) && pattern[star + 1..p] == text[mark..t]
          && (Matches(pattern, text) <==> Matches(pattern[star..], text[mark..])))
  }

  lemma SuffixAtStar(pattern: string, text: string, p: nat, t: nat, star: int, mark: nat)
    requires ScanOk(pattern, text, p, t, star, mark) && star >= 0
    ensures pattern[star..] == "*" + pattern[star + 1..p] + pattern[p..]
    ensures text[mark..] == pattern[star + 1..p] + text[t..]
  {
  }

  lemma MeetStar(pattern: string, text: string, p: nat, t: nat, star: int, mark: nat)
    requires ScanOk(pattern, text, p, t, star, mark) && p < |pattern| && pattern[p] == '*'
    ensures ScanOk(pattern, text, p + 1, t, p, t)
  {
    if star >= 0 {
      SuffixAtStar(pattern, text, p, t, star, mark);
      SecondStarDecides(pattern[star..], pattern[star + 1..p], pattern[p..], text[t..]);
    }
  }

  lemma MeetLiteral(pattern: string, text: string, p: nat, t: nat, star: int, mark: nat)
    requires ScanOk(pattern, text, p, t, star, mark) && p < |pattern| && pattern[p] != '*'
    requires t < |text| && text[t] == pattern[p]
    ensures ScanOk(pattern, text, p + 1, t + 1, star, mark)
  {
    if star == -1 {
      assert pattern[p..][1..] == pattern[p + 1..] && text[t..][1..] == text[t + 1..];
    } else {
      assert pattern[star + 1..p + 1] == pattern[star + 1..p] + [pattern[p]];
      assert text[mark..t + 1] == text[mark..t] + [text[t]];
    }
  }

  lemma MeetMismatch(pattern: string, text: string, p: nat, t: nat, star: int, mark: nat)
    requires ScanOk(pattern, text, p, t, star, mark) && t < |text|
    requires p == |pattern| || (pattern[p] != '*' && pattern[p] != text[t])
    ensures star == -1 ==> !Matches(pattern, text)
    ensures star >= 0 ==> ScanOk(pattern, text, (star + 1) as nat, mark + 1, star, mark + 1)
  {
    if star >= 0 {
      SuffixAtStar(pattern, text, p, t, star, mark);
      var lit := pattern[star + 1..p];
      StarChoice(pattern[star..], lit, pattern[p..], text[mark..]);
      assert text[mark..][|lit|..] == text[t..];
      assert text[mark..][1..] == text[mark + 1..];
    }
  }

  lemma ScanEnds(pattern: string, text: string, p: nat, star: int, mark: nat)
    requires ScanOk(pattern, text, p, |text|, star, mark)
    ensures Matches(pattern, text) <==> Matches(pattern[p..], "")
  {
    assert text[|text|..] == "";
    if star >= 0 {
      SuffixAtStar(pattern, text, p, |text|, star, mark);
      assert text[mark..] == pattern[star + 1..p];
      StarAtEnd(pattern[star..], pattern[star + 1..p], pattern[p..]);
    }
  }

  lemma EmptyTextStep(pattern: string, p: nat)
    requires p < |pattern|
    ensures Matches(pattern[p..], "") <==> pattern[p] == '*' && Matches(pattern[p + 1..], "")
  {
    assert pattern[p..][1..] == pattern[p + 1..];
    assert ""[0..] == "";
  }

  /** The two-pointer scan that backtracks only to the last star decides exactly `Matches`. */
  method GlobMatch(pattern: string, text: string) returns (r: bool)
    ensures r <==> Matches(pattern, text)
  {
    var p, t, star, mark := 0, 0, -1, 0;
    while t < |text|
      invariant ScanOk(pattern, text, p, t, star, mark)
      decreases |text| - mark, |pattern| - star, |text| - t
    {
      if p < |pattern| && pattern[p] == '*' {
        MeetStar(pattern, text, p, t, star, mark);
        star, mark, p := p, t, p + 1;
      } else if p < |pattern| && pattern[p] == text[t] {
        MeetLiteral(pattern, text, p, t, star, mark);
        p, t := p + 1, t + 1;
      } else {
        MeetMismatch(pattern, text, p, t, star, mark);
        if star == -1 {
          return false;
        }
        p, mark := star + 1, mark + 1;
        t := mark;
      }
    }
    ScanEnds(pattern, text, p, star, mark);
    while p < |pattern| && pattern[p] == '*'
      invariant p <= |pattern| && (Matches(pattern, text) <==> Matches(pattern[p..], ""))
    {
      EmptyTextStep(pattern, p);
      p := p + 1;
    }
    if p < |pattern| {
      EmptyTextStep(pattern, p);
    }
    r := p == |pattern|;
  }

  /** Whether the pattern could match some text that starts with `prefix`. */
  predicate MayMatch(pattern: string, prefix: string)
    decreases |pattern|
  {
    if prefix == "" then true
    else if pattern == "" then false
    else if pattern[0] == '*' then exists k :: 0 <= k <= |prefix| && MayMatch(pattern[1..], prefix[k..])
    else pattern[0] == prefix[0] && MayMatch(pattern[1..], prefix[1..])
  }

  /** A pattern with its stars taken as empty runs matches what is left. */
  function Stripped(pattern: string): (text: string)
    ensures Matches(pattern, text)
  {
    if pattern == "" then ""
    else
      var rest := Stripped(pattern[1..]);
      if pattern[0] == '*' then
        assert rest[0..] == rest;
        rest
      else
        assert ([pattern[0]] + rest)[1..] == rest;
        [pattern[0]] + rest
  }

  /** The overlap test is exact: it answers true precisely when some text with that prefix matches. */
  lemma {:induction false} MayMatchExact(pattern: string, prefix: string)
    ensures MayMatch(pattern, prefix) <==> exists text :: prefix <= text && Matches(pattern, text)
    decreases |pattern|
  {
    if prefix == "" {
      assert prefix <= Stripped(pattern) && Matches(pattern, Stripped(pattern));
    } else if pattern != "" && pattern[0] == '*' {
      if MayMatch(pattern, prefix) {
        var k :| 0 <= k <= |prefix| && MayMatch(pattern[1..], prefix[k..]);
        MayMatchExact(pattern[1..], prefix[k..]);
        var text :| prefix[k..] <= text && Matches(pattern[1..], text);
        var whole := prefix[..k] + text;
        assert whole[k..] == text && prefix == prefix[..k] + prefix[k..];
        assert Matches(pattern, whole) && prefix <= whole;
      }
      forall text | prefix <= text && Matches(pattern, text)
        ensures MayMatch(pattern, prefix)
      {
        var k :| 0 <= k <= |text| && Matches(pattern[1..], text[k..]);
        var j := if k <= |prefix| then k else |prefix|;
        if k <= |prefix| {
          assert prefix[k..] <= text[k..] && Matches(pattern[1..], text[k..]);
        } else {
          assert prefix[j..] <= Stripped(pattern[1..]) && Matches(pattern[1..], Stripped(pattern[1..]));
        }
        MayMatchExact(pattern[1..], prefix[j..]);
        assert MayMatch(pattern[1..], prefix[j..]);
      }
    } else if pattern != "" && pattern[0] == prefix[0] {
      MayMatchExact(pattern[1..], prefix[1..]);
      if MayMatch(pattern, prefix) {
        var text :| prefix[1..] <= text && Matches(pattern[1..], text);
        var whole := [prefix[0]] + text;
        assert whole[1..] == text;
        assert Matches(pattern, whole) && prefix <= whole;
      }
      forall text | prefix <= text && Matches(pattern, text)
        ensures MayMatch(pattern, prefix)
      {
        assert prefix[1..] <= text[1..] && Matches(pattern[1..], text[1..]);
      }
    }
  }
}
