/** Splitting a commit into signed payload and signature, and building the commit it was signed from. */
module Signature {
  import opened Objects
  import opened Text

  const SIG := "gpgsig "

  // -- what the scan computes ----------------------------------------------------

  /** Just past the newline that ends the header section: the first of two in a row, or the end. */
  function HeaderEnd(raw: Bytes, i: nat): (end: nat)
    requires i <= |raw|
    ensures i <= end <= |raw|
    decreases |raw| - i
  {
    if i + 1 >= |raw| then |raw|
    else if raw[i] == '\n' && raw[i + 1] == '\n' then i + 1
    else HeaderEnd(raw, i + 1)
  }

  /** Just past the newline that ends the line at `pos`, or `end`. */
  function LineEnd(raw: Bytes, pos: nat, end: nat): (e: nat)
    requires pos <= end <= |raw|
    ensures pos <= e <= end && (pos < end ==> pos < e)
    decreases end - pos
  {
    if pos == end then end
    else if raw[pos] == '\n' then pos + 1
    else LineEnd(raw, pos + 1, end)
  }

  predicate StartsAt(raw: Bytes, pos: nat, end: nat, p: string)
    requires pos <= end <= |raw|
  {
    pos + |p| <= end && raw[pos..pos + |p|] == p
  }

  /** The bounds of the first signature header and its continuation lines. */
  function Scan(raw: Bytes, pos: nat, end: nat, found: Option<(nat, nat)>): (r: Option<(nat, nat)>)
    requires pos <= end <= |raw|
    requires found.Some? ==> found.value.0 <= found.value.1 <= pos
    ensures r.Some? ==> r.value.0 <= r.value.1 <= end
    decreases end - pos
  {
    if pos == end then found
    else
      var next := LineEnd(raw, pos, end);
      var found' :=
        if found.None? then (if StartsAt(raw, pos, next, SIG) then Some((pos, next)) else None)
        else if found.value.1 == pos && StartsAt(raw, pos, next, " ") then Some((found.value.0, next))
        else found;
      Scan(raw, next, end, found')
  }

  /** Lines without their newline and one carriage return before it. */
  function Lines(s: string): seq<string>
    decreases |s|
  {
    if s == "" then []
    else
      var e := LineEnd(s, 0, |s|);
      [StripEol(s[..e])] + Lines(s[e..])
  }

  function StripEol(line: string): string {
    if line == "" || line[|line| - 1] != '\n' then line
    else
      var body := line[..|line| - 1];
      if body != "" && body[|body| - 1] == '\r' then body[..|body| - 1] else body
  }

  /** The signature text: every line stripped of its header name or continuation blank. */
  function Values(lines: seq<string>, first: bool): Option<string> {
    if lines == [] then Some("")
    else
      match StripPrefix(lines[0], if first then SIG else " ")
      case None => None
      case Some(v) =>
        match Values(lines[1..], false)
        case None => None
        case Some(rest) => Some(v + "\n" + rest)
  }

  function Split(utf8: Bytes -> bool, raw: Bytes): Option<(Bytes, string)> {
    match Scan(raw, 0, HeaderEnd(raw, 0), None)
    case None => None
    case Some((start, end)) =>
      var header := raw[start..end];
      if !utf8(header) then None
      else
        match Values(Lines(header), true)
        case None => None
        case Some(sig) => Some((raw[..start] + raw[end..], sig))
  }

  /** One pass over the header lines, remembering where the signature starts and how far its continuation runs. */
  method SplitSigned(utf8: Bytes -> bool, raw: Bytes) returns (r: Option<(Bytes, string)>)
    ensures r == Split(utf8, raw)
  {
    var headerEnd := FindHeaderEnd(raw);
    var found: Option<(nat, nat)> := None;
    var lineStart := 0;
    while lineStart < headerEnd
      invariant lineStart <= headerEnd
      invariant found.Some? ==> found.value.0 <= found.value.1 <= lineStart
      invariant Scan(raw, lineStart, headerEnd, found) == Scan(raw, 0, headerEnd, None)
    {
      var next := FindLineEnd(raw, lineStart, headerEnd);
      if found.None? {
        if StartsAt(raw, lineStart, next, SIG) {
          found := Some((lineStart, next));
        }
      } else if found.value.1 == lineStart && StartsAt(raw, lineStart, next, " ") {
        found := Some((found.value.0, next));
      }
      lineStart := next;
    }
    if found.None? {
      return None;
    }
    var (start, end) := found.value;
    var header := raw[start..end];
    if !utf8(header) {
      return None;
    }
    var sig := ReadValues(Lines(header));
    if sig.None? {
      return None;
    }
    return Some((raw[..start] + raw[end..], sig.value));
  }

  lemma NoValues()
    ensures forall first :: Values([], first) == Some("")
  {
  }

  lemma ValuesFrom(lines: seq<string>, i: nat)
    requires i < |lines|
    ensures Values(lines[i..], i == 0) ==
            match StripPrefix(lines[i], if i == 0 then SIG else " ")
            case None => None
            case Some(v) =>
              match Values(lines[i + 1..], false)
              case None => None
              case Some(rest) => Some(v + "\n" + rest)
  {
    hide StripPrefix;
    assert lines[i..][1..] == lines[i + 1..];
  }

  method ReadValues(lines: seq<string>) returns (r: Option<string>)
    ensures r == Values(lines, true)
  {
    hide StripPrefix, Values;
    NoValues();
    var sig := "";
    assert lines[0..] == lines;
    match Values(lines, true) {
      case None =>
      case Some(rest) => assert "" + rest == rest;
    }
    for i := 0 to |lines|
      invariant Values(lines, true)
             == match Values(lines[i..], i == 0) case None => None case Some(rest) => Some(sig + rest)
    {
      ValuesFrom(lines, i);
      var value := StripPrefix(lines[i], if i == 0 then SIG else " ");
      if value.None? {
        return None;
      }
      match Values(lines[i + 1..], false) {
        case None =>
        case Some(rest) => assert sig + (value.value + "\n" + rest) == sig + value.value + "\n" + rest;
      }
      sig := sig + value.value + "\n";
    }
    assert lines[|lines|..] == [] && sig + "" == sig;
    return Some(sig);
  }

  method FindHeaderEnd(raw: Bytes) returns (end: nat)
    ensures end == HeaderEnd(raw, 0)
  {
    var i := 0;
    while i + 1 < |raw|
      invariant i <= |raw| && HeaderEnd(raw, i) == HeaderEnd(raw, 0)
    {
      if raw[i] == '\n' && raw[i + 1] == '\n' {
        return i + 1;
      }
      i := i + 1;
    }
    return |raw|;
  }

  method FindLineEnd(raw: Bytes, pos: nat, end: nat) returns (e: nat)
    requires pos <= end <= |raw|
    ensures e == LineEnd(raw, pos, end)
  {
    e := pos;
    while e < end
      invariant pos <= e <= end && LineEnd(raw, e, end) == LineEnd(raw, pos, end)
    {
      if raw[e] == '\n' {
        return e + 1;
      }
      e := e + 1;
    }
  }

  // -- building a signed commit ----------------------------------------------------

  function JoinLines(lines: seq<string>): string {
    if lines == [] then "" else lines[0] + "\n" + JoinLines(lines[1..])
  }

  /** The pieces of `s` between newlines; one more than there are newlines. */
  function Pieces(s: string): (ps: seq<string>)
    ensures ps != []
    ensures forall p :: p in ps ==> '\n' !in p
    decreases |s|
  {
    match SplitOnce(s, '\n')
    case None => [s]
    case Some((a, b)) => [a] + Pieces(b)
  }

  function Blanked(ps: seq<string>): seq<string> {
    if ps == [] then [] else [" " + ps[0]] + Blanked(ps[1..])
  }

  /** The header lines that carry a signature: its first line after the name, each further one after a blank. */
  function SigLines(sig: string): seq<string> {
    [SIG + Pieces(sig)[0]] + Blanked(Pieces(sig)[1..])
  }

  function CommitBytes(headers: seq<string>, message: string): Bytes {
    JoinLines(headers) + "\n" + message
  }

  /** Sign the commit's bytes, then append the signature as its last header. */
  function Signed(headers: seq<string>, message: string, sign: Bytes -> string): Bytes {
    var pem := sign(CommitBytes(headers, message));
    CommitBytes(headers + SigLines(TrimEnd(pem)), message)
  }

  /** A header line: nonempty, one line, no signature of its own. */
  predicate PlainHeader(line: string) {
    line != "" && '\n' !in line && !(SIG <= line)
  }

  // -- splitting what was built ------------------------------------------------------

  predicate HeaderLine(line: string) {
    line != "" && '\n' !in line
  }

  lemma {:induction false} JoinAppend(a: seq<string>, b: seq<string>)
    ensures JoinLines(a + b) == JoinLines(a) + JoinLines(b)
  {
    if a == [] {
      assert a + b == b;
    } else {
      assert (a + b)[1..] == a[1..] + b;
      JoinAppend(a[1..], b);
    }
  }

  lemma {:induction false} LineEndAt(raw: Bytes, pos: nat, end: nat, line: string)
    requires pos + |line| + 1 <= end <= |raw| && '\n' !in line
    requires raw[pos..pos + |line| + 1] == line + "\n"
    ensures LineEnd(raw, pos, end) == pos + |line| + 1
    decreases |line|
  {
    assert raw[pos] == (line + "\n")[0];
    if line != "" {
      assert line[0] in line;
      assert raw[pos + 1..pos + |line| + 1] == raw[pos..pos + |line| + 1][1..] == line[1..] + "\n";
      LineEndAt(raw, pos + 1, end, line[1..]);
    }
  }

  /** Nonempty lines never put two newlines in a row, so the header section ends right after the last of them. */
  lemma {:induction false} HeaderEndAt(raw: Bytes, pos: nat, lines: seq<string>, message: string)
    requires pos <= |raw| && raw[pos..] == JoinLines(lines) + "\n" + message
    requires forall l :: l in lines ==> HeaderLine(l)
    requires lines != []
    ensures HeaderEnd(raw, pos) == pos + |JoinLines(lines)|
    decreases |lines|
  {
    hide HeaderEnd, JoinLines;
    var line, rest := lines[0], JoinLines(lines[1..]) + "\n" + message;
    assert line in lines;
    JoinedHead(lines, message);
    SkipLine(raw, pos, line, rest);
    var p := pos + |line|;
    AfterLine(raw, pos, line, rest);
    if |lines| == 1 {
      assert lines[1..] == [];
      HeaderEndHere(raw, p);
    } else {
      assert lines[1..][0] == lines[1] && lines[1] in lines && lines[1][0] in lines[1];
      JoinedHead(lines[1..], message);
      assert rest[0] == lines[1][0];
      HeaderGoesOn(raw, p);
      HeaderEndAt(raw, p + 1, lines[1..], message);
    }
  }

  lemma JoinedHead(lines: seq<string>, message: string)
    requires lines != []
    ensures |JoinLines(lines)| == |lines[0]| + 1 + |JoinLines(lines[1..])|
    ensures JoinLines(lines) + "\n" + message == lines[0] + "\n" + (JoinLines(lines[1..]) + "\n" + message)
    ensures |lines| == 1 ==> JoinLines(lines[1..]) == ""
  {
  }

  lemma AfterLine(raw: Bytes, pos: nat, line: string, rest: string)
    requires pos <= |raw| && raw[pos..] == line + "\n" + rest && rest != ""
    ensures pos + |line| + 1 < |raw| && raw[pos + |line|] == '\n'
    ensures raw[pos + |line| + 1..] == rest && raw[pos + |line| + 1] == rest[0]
  {
    var p := pos + |line|;
    assert raw[p] == raw[pos..][|line|];
    assert raw[p + 1] == raw[pos..][|line| + 1];
    assert raw[p + 1..] == raw[pos..][|line| + 1..];
  }

  lemma HeaderEndHere(raw: Bytes, p: nat)
    requires p + 1 < |raw| && raw[p] == '\n' == raw[p + 1]
    ensures HeaderEnd(raw, p) == p + 1
  {
  }

  lemma HeaderGoesOn(raw: Bytes, p: nat)
    requires p + 1 < |raw| && raw[p] == '\n' != raw[p + 1]
    ensures HeaderEnd(raw, p) == HeaderEnd(raw, p + 1)
  {
  }

  /** No header end inside a line. */
  lemma {:induction false} SkipLine(raw: Bytes, pos: nat, line: string, rest: string)
    requires pos <= |raw| && raw[pos..] == line + "\n" + rest && '\n' !in line && rest != ""
    ensures HeaderEnd(raw, pos) == HeaderEnd(raw, pos + |line|)
    decreases |line|
  {
    if line != "" {
      assert raw[pos] == raw[pos..][0] == line[0] && line[0] in line;
      assert raw[pos + 1..] == raw[pos..][1..] == line[1..] + "\n" + rest;
      SkipLine(raw, pos + 1, line[1..], rest);
    }
  }

  lemma ScanPlainLine(raw: Bytes, pos: nat, end: nat, line: string)
    requires pos + |line| + 1 <= end <= |raw| && raw[pos..pos + |line| + 1] == line + "\n" && PlainHeader(line)
    ensures Scan(raw, pos, end, None) == Scan(raw, pos + |line| + 1, end, None)
  {
    LineEndAt(raw, pos, end, line);
    NoPrefixInLine(raw, pos, pos + |line| + 1, line, SIG);
  }

  /** Plain headers leave the scan looking. */
  lemma {:induction false} ScanPlain(raw: Bytes, pos: nat, end: nat, lines: seq<string>)
    requires pos + |JoinLines(lines)| <= end <= |raw| && raw[pos..pos + |JoinLines(lines)|] == JoinLines(lines)
    requires forall l :: l in lines ==> PlainHeader(l)
    ensures Scan(raw, pos, end, None) == Scan(raw, pos + |JoinLines(lines)|, end, None)
    decreases |lines|
  {
    hide Scan, PlainHeader;
    if lines != [] {
      var all, line, rest := JoinLines(lines), lines[0], JoinLines(lines[1..]);
      assert line in lines && all == line + "\n" + rest;
      assert raw[pos..pos + |line| + 1] == raw[pos..pos + |all|][..|line| + 1] == line + "\n";
      ScanPlainLine(raw, pos, end, line);
      var next := pos + |line| + 1;
      assert raw[next..next + |rest|] == raw[pos..pos + |all|][|line| + 1..] == rest;
      ScanPlain(raw, next, end, lines[1..]);
    }
  }

  lemma PrefixOfLine(p: string, line: string)
    requires p <= line + "\n" && '\n' !in p
    ensures p <= line
  {
    assert (line + "\n")[|line|] == '\n';
    assert forall i :: 0 <= i < |p| ==> p[i] in p && p[i] == (line + "\n")[i];
  }

  lemma NoPrefixInLine(raw: Bytes, pos: nat, next: nat, line: string, p: string)
    requires next == pos + |line| + 1 <= |raw| && raw[pos..next] == line + "\n" && '\n' !in p
    ensures StartsAt(raw, pos, next, p) <==> p <= line
  {
    if StartsAt(raw, pos, next, p) {
      assert raw[pos..pos + |p|] == raw[pos..next][..|p|] == (line + "\n")[..|p|];
      PrefixOfLine(p, line);
    }
    if p <= line {
      assert raw[pos..pos + |p|] == (line + "\n")[..|p|] == line[..|p|];
    }
  }

  /** Continuation lines extend the signature to their end. */
  lemma {:induction false} ScanBlanked(raw: Bytes, pos: nat, end: nat, start: nat, ps: seq<string>)
    requires start <= pos && pos + |JoinLines(Blanked(ps))| <= end <= |raw|
    requires raw[pos..pos + |JoinLines(Blanked(ps))|] == JoinLines(Blanked(ps))
    requires forall p :: p in ps ==> '\n' !in p
    ensures var last := pos + |JoinLines(Blanked(ps))|;
            Scan(raw, pos, end, Some((start, pos))) == Scan(raw, last, end, Some((start, last)))
    decreases |ps|
  {
    hide JoinLines, Blanked, LineEnd, StartsAt;
    if ps == [] {
      NoneBlanked();
    } else {
      var line, rest := " " + ps[0], JoinLines(Blanked(ps[1..]));
      var last := pos + |JoinLines(Blanked(ps))|;
      BlankedHead(ps[0], ps[1..]);
      assert [ps[0]] + ps[1..] == ps && " " + (ps[0] + "\n" + rest) == line + "\n" + rest;
      SliceSplits(raw, pos, last, line + "\n", rest);
      LineEndAt(raw, pos, end, line);
      var next := pos + |line| + 1;
      NoPrefixInLine(raw, pos, next, line, " ");
      ScanBlanked(raw, next, end, start, ps[1..]);
    }
  }

  /** What follows the signature leaves it as it is, if it does not begin with a blank. */
  lemma {:induction false} ScanRest(raw: Bytes, pos: nat, end: nat, start: nat, last: nat, lines: seq<string>)
    requires start <= last <= pos && pos + |JoinLines(lines)| == end <= |raw| && raw[pos..end] == JoinLines(lines)
    requires forall l :: l in lines ==> HeaderLine(l)
    requires last == pos && lines != [] ==> !(" " <= lines[0])
    ensures Scan(raw, pos, end, Some((start, last))) == Some((start, last))
    decreases |lines|
  {
    if lines != [] {
      var line, rest := lines[0], JoinLines(lines[1..]);
      assert line in lines && JoinLines(lines) == line + "\n" + rest;
      SliceSplits(raw, pos, end, line + "\n", rest);
      LineEndAt(raw, pos, end, line);
      var next := pos + |line| + 1;
      NoPrefixInLine(raw, pos, next, line, " ");
      ScanRest(raw, next, end, start, last, lines[1..]);
    }
  }

  lemma {:induction false} BlankedAreHeaderLines(ps: seq<string>)
    requires forall p :: p in ps ==> '\n' !in p
    ensures forall l :: l in Blanked(ps) ==> HeaderLine(l)
  {
    if ps != [] {
      assert forall l :: l in Blanked(ps) ==> l == " " + ps[0] || l in Blanked(ps[1..]);
      BlankedAreHeaderLines(ps[1..]);
    }
  }

  lemma SigLinesAreHeaderLines(sig: string)
    ensures SigLines(sig) != [] && forall l :: l in SigLines(sig) ==> HeaderLine(l)
  {
    hide Pieces, Blanked;
    var ps := Pieces(sig);
    assert ps[0] in ps && forall p :: p in ps[1..] ==> p in ps;
    BlankedAreHeaderLines(ps[1..]);
  }

  /** Header lines that may stand after a signature: any that do not continue it. */
  predicate MayFollow(after: seq<string>) {
    (forall l :: l in after ==> HeaderLine(l)) && (after != [] ==> !(" " <= after[0]))
  }

  lemma JoinThree(a: seq<string>, b: seq<string>, c: seq<string>, message: string)
    ensures JoinLines(a + b + c) == JoinLines(a) + JoinLines(b) + JoinLines(c)
    ensures CommitBytes(a + b + c, message) == JoinLines(a) + JoinLines(b) + (JoinLines(c) + "\n" + message)
    ensures CommitBytes(a + b + c, message) == JoinLines(a) + JoinLines(b) + JoinLines(c) + ("\n" + message)
    ensures CommitBytes(a + c, message) == JoinLines(a) + (JoinLines(c) + "\n" + message)
  {
    hide JoinLines;
    JoinAppend(a, b);
    JoinAppend(a + b, c);
    JoinAppend(a, c);
  }

  lemma CutThree(raw: Bytes, a: Bytes, b: Bytes, c: Bytes, d: Bytes)
    requires raw == a + b + c + d
    ensures raw[0..|a|] == a && raw[|a|..|a| + |b|] == b && raw[|a| + |b|..|a| + |b| + |c|] == c
  {
  }

  /** The scan of a signed commit finds exactly the folded signature. */
  lemma ScanFindsSignature(headers: seq<string>, sig: string, after: seq<string>, message: string)
    requires (forall h :: h in headers ==> PlainHeader(h)) && MayFollow(after)
    ensures var raw := CommitBytes(headers + SigLines(sig) + after, message);
            var start, len := |JoinLines(headers)|, |JoinLines(SigLines(sig))|;
            Scan(raw, 0, HeaderEnd(raw, 0), None) == Some((start, start + len))
  {
    hide Scan, HeaderEnd, Pieces, PlainHeader, JoinLines, SigLines, HeaderLine, CommitBytes;
    var lines := headers + SigLines(sig) + after;
    var raw := CommitBytes(lines, message);
    var head, folded, rest := JoinLines(headers), JoinLines(SigLines(sig)), JoinLines(after);
    JoinThree(headers, SigLines(sig), after, message);
    SigLinesAreHeaderLines(sig);
    forall l | l in lines
      ensures HeaderLine(l)
    {
      if l in headers {
        PlainIsHeaderLine(l);
      }
    }
    assert raw[0..] == raw;
    HeaderEndAt(raw, 0, lines, message);
    var end := |head| + |folded| + |rest|;
    CutThree(raw, head, folded, rest, "\n" + message);
    ScanPlain(raw, 0, end, headers);
    ScanFolded(raw, |head|, |head| + |folded|, end, sig);
    ScanRest(raw, |head| + |folded|, end, |head|, |head| + |folded|, after);
  }

  lemma PlainIsHeaderLine(line: string)
    requires PlainHeader(line)
    ensures HeaderLine(line)
  {
  }

  lemma ScanFolded(raw: Bytes, pos: nat, last: nat, end: nat, sig: string)
    requires pos <= last <= end <= |raw| && raw[pos..last] == JoinLines(SigLines(sig))
    ensures Scan(raw, pos, end, None) == Scan(raw, last, end, Some((pos, last)))
  {
    hide Pieces, Blanked, Scan, JoinLines;
    var ps := Pieces(sig);
    var line, rest := SIG + ps[0], JoinLines(Blanked(ps[1..]));
    FoldedSplits(sig);
    SliceSplits(raw, pos, last, line + "\n", rest);
    assert ps[0] in ps;
    LineEndAt(raw, pos, end, line);
    var next := pos + |line| + 1;
    NoPrefixInLine(raw, pos, next, line, SIG);
    assert forall p :: p in ps[1..] ==> p in ps;
    ScanBlanked(raw, next, end, pos, ps[1..]);
    ScanFindsSig(raw, pos, end, next);
  }

  lemma SliceSplits(raw: Bytes, pos: nat, end: nat, a: Bytes, b: Bytes)
    requires pos <= end <= |raw| && raw[pos..end] == a + b
    ensures end == pos + |a| + |b|
    ensures raw[pos..pos + |a|] == a && raw[pos + |a|..end] == b
  {
    assert raw[pos..pos + |a|] == raw[pos..end][..|a|];
    assert raw[pos + |a|..end] == raw[pos..end][|a|..];
  }

  lemma ScanFindsSig(raw: Bytes, pos: nat, end: nat, next: nat)
    requires pos < end <= |raw| && LineEnd(raw, pos, end) == next && StartsAt(raw, pos, next, SIG)
    ensures Scan(raw, pos, end, None) == Scan(raw, next, end, Some((pos, next)))
  {
  }

  lemma FoldedSplits(sig: string)
    ensures var ps := Pieces(sig);
            JoinLines(SigLines(sig)) == SIG + ps[0] + "\n" + JoinLines(Blanked(ps[1..]))
  {
    hide Pieces, Blanked;
    var ps := Pieces(sig);
    assert SigLines(sig)[0] == SIG + ps[0] && SigLines(sig)[1..] == Blanked(ps[1..]);
  }

  // -- reading the signature back ------------------------------------------------------

  function StripCr(line: string): string {
    if line != "" && line[|line| - 1] == '\r' then line[..|line| - 1] else line
  }

  function StripCrs(lines: seq<string>): seq<string> {
    if lines == [] then [] else [StripCr(lines[0])] + StripCrs(lines[1..])
  }

  lemma {:induction false} LinesOfJoined(lines: seq<string>)
    requires forall l :: l in lines ==> '\n' !in l
    ensures Lines(JoinLines(lines)) == StripCrs(lines)
  {
    if lines != [] {
      var line, rest := lines[0], JoinLines(lines[1..]);
      var s := JoinLines(lines);
      assert line in lines && forall l :: l in lines[1..] ==> l in lines;
      assert s[0..|line| + 1] == line + "\n";
      LineEndAt(s, 0, |s|, line);
      assert s[..|line| + 1] == line + "\n" && s[|line| + 1..] == rest;
      assert StripEol(line + "\n") == StripCr(line) by {
        assert (line + "\n")[..|line|] == line;
      }
      LinesOfJoined(lines[1..]);
    }
  }

  lemma {:induction false} ValuesOfBlanked(ps: seq<string>)
    ensures Values(StripCrs(Blanked(ps)), false) == Some(JoinLines(StripCrs(ps)))
  {
    if ps != [] {
      var line := " " + ps[0];
      assert Blanked(ps)[1..] == Blanked(ps[1..]);
      assert StripCr(line) == " " + StripCr(ps[0]);
      ValuesOfBlanked(ps[1..]);
      assert StripCrs(Blanked(ps))[1..] == StripCrs(Blanked(ps[1..]));
    }
  }

  lemma {:induction false} JoinPieces(s: string)
    ensures JoinLines(Pieces(s)) == s + "\n"
    decreases |s|
  {
    match SplitOnce(s, '\n')
    case None =>
      assert JoinLines([s]) == s + "\n" + JoinLines([]);
    case Some((a, b)) =>
      JoinPieces(b);
      assert Pieces(s)[1..] == Pieces(b);
      assert s == a + ['\n'] + b;
  }

  /** The text read back is the signature, line by line without trailing carriage returns. */
  lemma ValuesOfFolded(sig: string)
    ensures Values(Lines(JoinLines(SigLines(sig))), true) == Some(JoinLines(StripCrs(Pieces(sig))))
  {
    hide Pieces, Lines;
    var ps := Pieces(sig);
    SigLinesAreHeaderLines(sig);
    LinesOfJoined(SigLines(sig));
    var line := SIG + ps[0];
    assert SigLines(sig)[1..] == Blanked(ps[1..]);
    assert StripCr(line) == SIG + StripCr(ps[0]);
    ValuesOfBlanked(ps[1..]);
    assert StripCrs(SigLines(sig))[1..] == StripCrs(Blanked(ps[1..]));
  }

  predicate NoLineEndsInCr(sig: string) {
    forall p :: p in Pieces(sig) ==> p == "" || p[|p| - 1] != '\r'
  }

  lemma {:induction false} StripCrsFixed(ps: seq<string>)
    ensures StripCrs(ps) == ps <==> forall p :: p in ps ==> p == "" || p[|p| - 1] != '\r'
  {
    if ps != [] {
      StripCrsFixed(ps[1..]);
      assert forall p :: p in ps <==> p == ps[0] || p in ps[1..];
      assert StripCrs(ps)[1..] == StripCrs(ps[1..]) && StripCrs(ps)[0] == StripCr(ps[0]);
      assert ps == [ps[0]] + ps[1..];
    }
  }

  lemma {:induction false} StripCrsShorter(ps: seq<string>)
    ensures |JoinLines(StripCrs(ps))| <= |JoinLines(ps)|
    ensures |JoinLines(StripCrs(ps))| == |JoinLines(ps)| ==> StripCrs(ps) == ps
  {
    if ps != [] {
      StripCrsShorter(ps[1..]);
      assert StripCrs(ps)[1..] == StripCrs(ps[1..]);
      assert ps == [ps[0]] + ps[1..];
    }
  }

  // -- the bytes of a seal ------------------------------------------------------------

  /** The text with every further line pushed in by a blank. */
  function Indented(s: string): string {
    if s == "" then ""
    else if s[0] == '\n' then "\n " + Indented(s[1..])
    else [s[0]] + Indented(s[1..])
  }

  lemma {:induction false} IndentedLine(a: string, rest: string)
    requires '\n' !in a
    ensures Indented(a + rest) == a + Indented(rest)
  {
    if a == "" {
      assert a + rest == rest;
    } else {
      assert (a + rest)[1..] == a[1..] + rest && a[0] in a;
      IndentedLine(a[1..], rest);
    }
  }

  lemma BlankedHead(p: string, ps: seq<string>)
    ensures JoinLines(Blanked([p] + ps)) == " " + (p + "\n" + JoinLines(Blanked(ps)))
  {
    assert ([p] + ps)[1..] == ps;
    assert Blanked([p] + ps)[1..] == Blanked(ps);
  }

  lemma NoneBlanked()
    ensures JoinLines(Blanked([])) == "" && Indented("") == ""
  {
  }

  lemma IndentedBreak(b: string)
    ensures Indented("\n" + b) == "\n " + Indented(b)
  {
    assert ("\n" + b)[1..] == b;
  }

  lemma JoinBroken(a: string, b: string)
    ensures " " + (a + "\n" + (" " + (b + "\n"))) == " " + (a + ("\n " + b) + "\n")
  {
  }

  /** Blanked lines one after another are the text behind one blank, every further line pushed in. */
  lemma {:induction false} BlankedText(s: string)
    ensures JoinLines(Blanked(Pieces(s))) == " " + (Indented(s) + "\n")
    decreases |s|
  {
    hide JoinLines, Blanked, Indented;
    match SplitOnce(s, '\n')
    case None =>
      NoneBlanked();
      BlankedHead(s, []);
      IndentedLine(s, "");
      assert [s] + [] == [s] && s + "" == s && s + "\n" + "" == s + "\n";
    case Some((a, b)) =>
      BlankedText(b);
      BlankedHead(a, Pieces(b));
      IndentedLine(a, "\n" + b);
      IndentedBreak(b);
      assert s == a + ("\n" + b);
      JoinBroken(a, Indented(b));
  }

  lemma SameTail(a: string, b: string)
    requires " " + a == " " + b
    ensures a == b
  {
    assert (" " + a)[1..] == a && (" " + b)[1..] == b;
  }

  lemma SigText(sig: string)
    ensures JoinLines(SigLines(sig)) == "gpgsig " + (Indented(sig) + "\n")
  {
    hide Pieces, Blanked, Indented, JoinLines, SigLines;
    var ps := Pieces(sig);
    var rest := JoinLines(Blanked(ps[1..]));
    FoldedSplits(sig);
    BlankedText(sig);
    BlankedHead(ps[0], ps[1..]);
    assert [ps[0]] + ps[1..] == ps;
    SameTail(ps[0] + "\n" + rest, Indented(sig) + "\n");
    assert SIG + ps[0] + "\n" + rest == SIG + (ps[0] + "\n" + rest);
  }

  /** A sealed commit is its headers, a `gpgsig` line whose further lines are pushed in by a blank, and the message. */
  lemma SealText(headers: seq<string>, message: string, sign: Bytes -> string)
    ensures var sig := TrimEnd(sign(JoinLines(headers) + "\n" + message));
            Signed(headers, message, sign) ==
              JoinLines(headers) + "gpgsig " + Indented(sig) + "\n" + "\n" + message
  {
    hide Pieces, Blanked, TrimEnd, Indented, JoinLines, SigLines;
    var sig := TrimEnd(sign(JoinLines(headers) + "\n" + message));
    JoinAppend(headers, SigLines(sig));
    SigText(sig);
    assert JoinLines(headers) + ("gpgsig " + (Indented(sig) + "\n")) ==
           JoinLines(headers) + "gpgsig " + Indented(sig) + "\n";
  }

  // -- the round trip ----------------------------------------------------------------

  /** Wherever the signature stands among the headers, splitting leaves the commit without it, byte by byte, and the
      signature line by line. */
  lemma SplitUndoesSign(
    utf8: Bytes -> bool, headers: seq<string>, sig: string, after: seq<string>, message: string)
    requires (forall h :: h in headers ==> PlainHeader(h)) && MayFollow(after)
    requires utf8(JoinLines(SigLines(sig)))
    ensures Split(utf8, CommitBytes(headers + SigLines(sig) + after, message)) ==
            Some((CommitBytes(headers + after, message), JoinLines(StripCrs(Pieces(sig)))))
  {
    hide Scan, HeaderEnd, Pieces, PlainHeader, Values, Lines, StripCrs, SigLines, MayFollow, CommitBytes, JoinLines;
    var raw := CommitBytes(headers + SigLines(sig) + after, message);
    var head, folded, rest := JoinLines(headers), JoinLines(SigLines(sig)), JoinLines(after);
    ScanFindsSignature(headers, sig, after, message);
    ValuesOfFolded(sig);
    JoinThree(headers, SigLines(sig), after, message);
    CutOut(raw, head, folded, rest + "\n" + message);
  }

  /** Splitting the sealed commit gives back the very bytes handed to the signer, and the signature line by line. */
  lemma SplitUndoesSeal(utf8: Bytes -> bool, headers: seq<string>, message: string, sign: Bytes -> string)
    requires forall h :: h in headers ==> PlainHeader(h)
    requires utf8(JoinLines(SigLines(TrimEnd(sign(CommitBytes(headers, message))))))
    ensures var payload := CommitBytes(headers, message);
            var sig := TrimEnd(sign(payload));
            Split(utf8, Signed(headers, message, sign)) == Some((payload, JoinLines(StripCrs(Pieces(sig)))))
  {
    hide Split, Pieces, PlainHeader, TrimEnd, StripCrs, SigLines, JoinLines;
    var sig := TrimEnd(sign(CommitBytes(headers, message)));
    SplitUndoesSign(utf8, headers, sig, [], message);
    assert headers + SigLines(sig) + [] == headers + SigLines(sig) && headers + [] == headers;
  }

  /** Under every reading of UTF-8 that accepts the folded signature, splitting gives the payload and the signature. */
  ghost predicate Recovered(headers: seq<string>, message: string, sig: string, raw: Bytes) {
    (forall h :: h in headers ==> PlainHeader(h)) ==>
      forall utf8: Bytes -> bool :: utf8(JoinLines(SigLines(sig))) ==>
        Split(utf8, raw) == Some((CommitBytes(headers, message), JoinLines(StripCrs(Pieces(sig)))))
  }

  /** Seal a commit.  Whoever splits it gets back the very bytes that were signed, and the signature line by line. */
  method SealCommit(headers: seq<string>, message: string, sign: Bytes -> string) returns (raw: Bytes)
    ensures raw == Signed(headers, message, sign)
    ensures Recovered(headers, message, TrimEnd(sign(CommitBytes(headers, message))), raw)
  {
    hide Split, Pieces, PlainHeader, TrimEnd, StripCrs, JoinLines, SigLines;
    var payload := CommitBytes(headers, message);
    var pem := sign(payload);
    var lines := headers + SigLines(TrimEnd(pem));
    raw := CommitBytes(lines, message);
    if forall h :: h in headers ==> PlainHeader(h) {
      forall utf8: Bytes -> bool | utf8(JoinLines(SigLines(TrimEnd(pem))))
        ensures Split(utf8, raw) == Some((payload, JoinLines(StripCrs(Pieces(TrimEnd(pem))))))
      {
        SplitUndoesSeal(utf8, headers, message, sign);
      }
    }
  }

  lemma CutOut(raw: Bytes, head: Bytes, middle: Bytes, tail: Bytes)
    requires raw == head + middle + tail
    ensures raw[|head|..|head| + |middle|] == middle
    ensures raw[..|head|] + raw[|head| + |middle|..] == head + tail
  {
  }

  /** The signature comes back with one newline after it, exactly when none of its lines ends in a carriage return. */
  lemma SignatureRecoveredIff(utf8: Bytes -> bool, headers: seq<string>, message: string, sign: Bytes -> string)
    requires forall h :: h in headers ==> PlainHeader(h)
    requires utf8(JoinLines(SigLines(TrimEnd(sign(CommitBytes(headers, message))))))
    ensures var payload := CommitBytes(headers, message);
            var sig := TrimEnd(sign(payload));
            Split(utf8, Signed(headers, message, sign)) == Some((payload, sig + "\n")) <==> NoLineEndsInCr(sig)
  {
    hide Split, Signed, Pieces, PlainHeader, TrimEnd, StripCrs, JoinLines, SigLines;
    var sig := TrimEnd(sign(CommitBytes(headers, message)));
    SplitUndoesSeal(utf8, headers, message, sign);
    JoinPieces(sig);
    StripCrsShorter(Pieces(sig));
    StripCrsFixed(Pieces(sig));
  }

  /** A signature-looking line in the message is never taken for a header: an unsigned commit stays unsigned. */
  lemma UnsignedSplitsToNone(utf8: Bytes -> bool, headers: seq<string>, message: string)
    requires headers != [] && forall h :: h in headers ==> PlainHeader(h)
    ensures Split(utf8, CommitBytes(headers, message)) == None
  {
    hide Scan, HeaderEnd, PlainHeader;
    var raw, head := CommitBytes(headers, message), JoinLines(headers);
    forall h | h in headers
      ensures HeaderLine(h)
    {
      PlainIsHeaderLine(h);
    }
    assert raw[0..] == raw == head + "\n" + message;
    HeaderEndAt(raw, 0, headers, message);
    assert raw[0..|head|] == head;
    ScanPlain(raw, 0, |head|, headers);
    ScanAtEnd(raw, |head|);
  }

  lemma ScanAtEnd(raw: Bytes, end: nat)
    requires end <= |raw|
    ensures Scan(raw, end, end, None) == None
  {
  }
}
