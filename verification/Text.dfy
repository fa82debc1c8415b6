/** The string operations the parsers and namespace rules are written in. */
module Text {
  import opened Objects

  predicate IsAsciiWhitespace(c: char) {
    c == ' ' || c == '\t' || c == '\n' || c == '\U{000C}' || c == '\r'
  }

  /** Unicode White_Space. */
  predicate IsWhitespace(c: char) {
    || '\U{0009}' <= c <= '\U{000D}' || c == ' ' || c == '\U{0085}' || c == '\U{00A0}' || c == '\U{1680}'
    || '\U{2000}' <= c <= '\U{200A}' || c == '\U{2028}' || c == '\U{2029}' || c == '\U{202F}' || c == '\U{205F}'
    || c == '\U{3000}'
  }

  predicate IsAsciiControl(c: char) {
    c < ' ' || c == '\U{007F}'
  }

  predicate IsHexDigit(c: char) {
    '0' <= c <= '9' || 'a' <= c <= 'f' || 'A' <= c <= 'F'
  }

  predicate IsAsciiAlphanumeric(c: char) {
    '0' <= c <= '9' || 'a' <= c <= 'z' || 'A' <= c <= 'Z'
  }

  function LowerChar(c: char): char {
    if 'A' <= c <= 'Z' then c - 'A' + 'a' else c
  }

  function Lower(s: string): (r: string)
    ensures |r| == |s|
  {
    seq(|s|, i requires 0 <= i < |s| => LowerChar(s[i]))
  }

  // -- object ids in hex ---------------------------------------------------------------

  predicate FortyHex(t: string) {
    |t| == 40 && forall c :: c in t ==> c in "0123456789abcdefABCDEF"
  }

  lemma FortyHexIff(t: string)
    ensures FortyHex(t) <==> |t| == 40 && forall c :: c in t ==> IsHexDigit(c)
  {
    forall c
      ensures c in "0123456789abcdefABCDEF" <==> IsHexDigit(c)
    {
    }
  }

  /** `d` is the digit `c` in lower case. */
  predicate Lowered(c: char, d: char) {
    (c in "0123456789abcdef" && d == c) || exists k :: 0 <= k < 6 && c == "ABCDEF"[k] && d == "abcdef"[k]
  }

  lemma DigitLowered(c: char, d: char)
    requires c in "0123456789abcdefABCDEF"
    ensures Lowered(c, d) <==> d == LowerChar(c)
  {
    if 'A' <= c <= 'F' {
      var k := c as int - 'A' as int;
      assert c == "ABCDEF"[k] && LowerChar(c) == "abcdef"[k];
    }
  }

  lemma LowerDigits(t: string)
    requires FortyHex(t)
    ensures forall u: string :: |u| == 40 && (forall i :: 0 <= i < 40 ==> Lowered(t[i], u[i])) <==> u == Lower(t)
  {
    forall u: string
      ensures |u| == 40 && (forall i :: 0 <= i < 40 ==> Lowered(t[i], u[i])) <==> u == Lower(t)
    {
      forall i | 0 <= i < 40 && i < |u|
        ensures Lowered(t[i], u[i]) <==> u[i] == Lower(t)[i]
      {
        assert t[i] in t;
        DigitLowered(t[i], u[i]);
      }
    }
  }

  function StripPrefix(s: string, p: string): (r: Option<string>)
    ensures r.Some? <==> p <= s
    ensures r.Some? ==> s == p + r.value
  {
    if p <= s then Some(s[|p|..]) else None
  }

  /** The parts before and after the first `c`. */
  function SplitOnce(s: string, c: char): (r: Option<(string, string)>)
    ensures r.Some? <==> c in s
    ensures r.Some? ==> s == r.value.0 + [c] + r.value.1 && c !in r.value.0
  {
    if s == "" then None
    else if s[0] == c then Some(("", s[1..]))
    else
      match SplitOnce(s[1..], c)
      case None => None
      case Some((a, b)) => Some(([s[0]] + a, b))
  }

  lemma {:induction false} SplitOnceAt(a: string, c: char, b: string)
    requires c !in a
    ensures SplitOnce(a + [c] + b, c) == Some((a, b))
  {
    var s := a + [c] + b;
    if a == "" {
      assert s[1..] == b;
    } else {
      assert s[1..] == a[1..] + [c] + b;
      SplitOnceAt(a[1..], c, b);
      assert [a[0]] + a[1..] == a;
    }
  }

  /** What follows the last `c`, or everything. */
  function AfterLast(s: string, c: char): string {
    if s == "" || s[|s| - 1] == c then "" else AfterLast(s[..|s| - 1], c) + [s[|s| - 1]]
  }

  lemma {:induction false} AfterLastAt(a: string, c: char, b: string)
    requires c !in b
    ensures AfterLast(a + [c] + b, c) == b
  {
    if b != "" {
      var init := b[..|b| - 1];
      assert a + [c] + b == a + [c] + init + [b[|b| - 1]] && b[|b| - 1] in b;
      assert (a + [c] + b)[..|a| + |b|] == a + [c] + init;
      assert b == init + [b[|b| - 1]];
      AfterLastAt(a, c, init);
    }
  }

  predicate HasSubstring(s: string, t: string) {
    t <= s || (s != "" && HasSubstring(s[1..], t))
  }

  /** The parts before and after the first `..`. */
  function SplitOnDots(s: string): (r: Option<(string, string)>)
    ensures r.Some? ==> s == r.value.0 + ".." + r.value.1
  {
    if |s| < 2 then None
    else if s[..2] == ".." then Some(("", s[2..]))
    else
      match SplitOnDots(s[1..])
      case None => None
      case Some((a, b)) => Some(([s[0]] + a, b))
  }

  function TrimStart(s: string): (r: string)
    ensures r == "" || !IsWhitespace(r[0])
    ensures |r| <= |s| && r == s[|s| - |r|..]
    ensures forall i :: 0 <= i < |s| - |r| ==> IsWhitespace(s[i])
  {
    if s != "" && IsWhitespace(s[0]) then TrimStart(s[1..]) else s
  }

  function TrimEnd(s: string): (r: string)
    ensures r == "" || !IsWhitespace(r[|r| - 1])
    ensures r <= s
    ensures forall i :: |r| <= i < |s| ==> IsWhitespace(s[i])
  {
    if s != "" && IsWhitespace(s[|s| - 1]) then TrimEnd(s[..|s| - 1]) else s
  }

  function Trim(s: string): string {
    TrimEnd(TrimStart(s))
  }

  predicate Trimmed(s: string) {
    s == "" || (!IsWhitespace(s[0]) && !IsWhitespace(s[|s| - 1]))
  }

  predicate Blank(s: string) {
    forall c :: c in s ==> IsWhitespace(c)
  }

  /** Trimming takes whitespace off both ends and nothing else, and leaves a trimmed string alone. */
  lemma TrimSplits(s: string) returns (before: string, after: string)
    ensures s == before + Trim(s) + after && Blank(before) && Blank(after) && Trimmed(Trim(s))
  {
    hide IsWhitespace, TrimStart, TrimEnd;
    var t := TrimStart(s);
    before, after := s[..|s| - |t|], t[|Trim(s)|..];
    assert forall i :: 0 <= i < |after| ==> after[i] == t[|Trim(s)| + i];
  }

  lemma TrimmedIsFixed(s: string)
    requires Trimmed(s)
    ensures Trim(s) == s
  {
  }

  /** Whitespace-separated tokens. */
  function Tokens(s: string): (ts: seq<string>)
    decreases |s|
  {
    var t := TrimStart(s);
    if t == "" then []
    else
      var token := TokenHead(t);
      [token] + Tokens(t[|token|..])
  }

  function TokenHead(s: string): (t: string)
    ensures t <= s
    ensures s != "" && !IsWhitespace(s[0]) ==> t != ""
    ensures forall c :: c in t ==> !IsWhitespace(c)
  {
    if s == "" || IsWhitespace(s[0]) then "" else [s[0]] + TokenHead(s[1..])
  }

  /** No character is lost: each is whitespace or part of a token. */
  lemma {:induction false} TokensCover(s: string, c: char)
    requires c in s && !IsWhitespace(c)
    ensures exists t :: t in Tokens(s) && c in t
    decreases |s|
  {
    hide IsWhitespace, TrimStart, TokenHead;
    var t := TrimStart(s);
    var i :| 0 <= i < |s| && s[i] == c;
    assert t[i - (|s| - |t|)] == c;
    var token := TokenHead(t);
    if c in token {
      assert token in Tokens(s);
    } else {
      var rest := t[|token|..];
      assert t == token + rest;
      TokensCover(rest, c);
      var u :| u in Tokens(rest) && c in u;
      assert u in Tokens(s);
    }
  }
}
