/** The fallback once an anchor's commit is gone: finding its captured surroundings in another version of the file. */
module Context {
  import opened Objects
  import opened Lines
  import opened Anchor

  datatype Projection =
    | Relocated(path: string, lines: Option<LineRange>)
    | Outdated(path: string)
    | Deleted

  /** The ranges capture accepts: within the file, and no further inverted than empty. */
  predicate Captured(content: Bytes, range: LineRange) {
    1 <= range.start <= range.end + 1 && range.end <= |LinesOf(content)|
  }

  /** The anchored lines and up to three on either side, or the whole file. */
  function CaptureContext(content: Bytes, lines: Option<LineRange>): (context: Bytes)
    ensures lines.None? ==> context == content
  {
    match lines
    case None => content
    case Some(range) =>
      var all := LinesOf(content);
      var start0 := SaturatingSub(range.start, 1);
      var from := SaturatingSub(start0, Min(CONTEXT_MARGIN, start0));
      var marginAfter := Min(CONTEXT_MARGIN, SaturatingSub(|all|, range.end));
      var to := Min(SaturatingAdd(range.end, marginAfter), |all|);
      if from <= to then Concat(all[from..to]) else ""
  }

  function MarginBefore(range: LineRange): nat {
    Min(CONTEXT_MARGIN, SaturatingSub(range.start, 1))
  }

  /** The window of the anchored file the context is, as a range of its own. */
  function Window(content: Bytes, range: LineRange): (w: LineRange)
    requires Captured(content, range)
    ensures 1 <= w.start && w.start + MarginBefore(range) == range.start
    ensures range.end <= w.end <= |LinesOf(content)|
    ensures w.start == if range.start > 3 then range.start - 3 else 1
    ensures w.end == if range.end + 3 <= |LinesOf(content)| then range.end + 3 else |LinesOf(content)|
  {
    LineRange(range.start - MarginBefore(range), range.end + Min(CONTEXT_MARGIN, |LinesOf(content)| - range.end))
  }

  lemma {:induction false} LinesAreFew(data: Bytes)
    ensures |LinesOf(data)| <= |data|
    decreases |data|
  {
    if data != "" {
      LinesAreFew(data[|FirstLine(data)|..]);
    }
  }

  /** The context splits back into exactly the lines of its window. */
  lemma ContextIsWindow(content: Bytes, range: LineRange)
    requires Captured(content, range) && |content| <= MAX_LEN
    ensures LinesOf(CaptureContext(content, Some(range)))
            == LinesOf(content)[Window(content, range).start - 1..Window(content, range).end]
  {
    hide LinesOf, Concat, WellSplit, CaptureContext;
    var all, w := LinesOf(content), Window(content, range);
    CaptureIsSlice(content, range);
    ConcatUndoesSplit(content);
    SliceIsWellSplit(all, w.start - 1, w.end);
    SplitUndoesConcat(all[w.start - 1..w.end]);
  }

  lemma CaptureIsSlice(content: Bytes, range: LineRange)
    requires Captured(content, range) && |content| <= MAX_LEN
    ensures CaptureContext(content, Some(range))
            == Concat(LinesOf(content)[Window(content, range).start - 1..Window(content, range).end])
  {
    hide LinesOf, Concat;
    LinesAreFew(content);
  }

  // -- scoring ---------------------------------------------------------------------------------

  /** The positions at which the lines agree. */
  function Agreeing(have: seq<Line>, want: seq<Line>): (ks: set<nat>)
    requires |have| == |want|
  {
    set k: nat | k < |want| && have[k] == want[k]
  }

  /** How many lines agree, position by position. */
  function Score(have: seq<Line>, want: seq<Line>): (n: nat)
    requires |have| == |want|
    ensures n == |Agreeing(have, want)|
    ensures n <= |want|
    ensures n == |want| <==> have == want
    decreases |want|
  {
    if want == [] then
      assert Agreeing(have, want) == {};
      0
    else
      var m: nat := |want| - 1;
      assert have == have[..m] + [have[m]] && want == want[..m] + [want[m]];
      var rest, now := Agreeing(have[..m], want[..m]), Agreeing(have, want);
      assert now == (if have[m] == want[m] then rest + {m} else rest);
      (if have[m] == want[m] then 1 else 0) + Score(have[..m], want[..m])
  }

  function ScoreAt(target: seq<Line>, context: seq<Line>, at: nat): (n: nat)
    requires at + |context| <= |target|
    ensures n <= |context|
    ensures n == |context| <==> target[at..at + |context|] == context
  {
    Score(target[at..at + |context|], context)
  }

  predicate Occurs(target: seq<Line>, context: seq<Line>, at: nat) {
    at + |context| <= |target| && target[at..at + |context|] == context
  }

  /** No window of `target` agrees better than the one at `at`, and none before it as well. */
  ghost predicate FirstBest(target: seq<Line>, context: seq<Line>, at: nat) {
    at + |context| <= |target| &&
    forall t: nat :: t + |context| <= |target| ==>
      ScoreAt(target, context, t) <= ScoreAt(target, context, at)
      && (t < at ==> ScoreAt(target, context, t) < ScoreAt(target, context, at))
  }

  lemma FirstBestIsOne(target: seq<Line>, context: seq<Line>, a: nat, b: nat)
    requires FirstBest(target, context, a) && FirstBest(target, context, b)
    ensures a == b
  {
    assert ScoreAt(target, context, a) == ScoreAt(target, context, b);
  }

  /** At least half the lines of the first best window agree. */
  ghost predicate Accepted(target: seq<Line>, context: seq<Line>, at: nat) {
    context != [] && FirstBest(target, context, at) && 2 * ScoreAt(target, context, at) >= |context|
  }

  function Disagreeing(have: seq<Line>, want: seq<Line>): (ks: set<nat>)
    requires |have| == |want|
  {
    set k: nat | k < |want| && have[k] != want[k]
  }

  /** The first best window is accepted exactly when no more of its lines disagree than agree. */
  lemma AcceptedIff(target: seq<Line>, context: seq<Line>, at: nat)
    requires context != [] && FirstBest(target, context, at)
    ensures var have := target[at..at + |context|];
            Accepted(target, context, at) <==> |Disagreeing(have, context)| <= |Agreeing(have, context)|
  {
    var have := target[at..at + |context|];
    EachAgreesOrNot(have, context);
  }

  lemma EachAgreesOrNot(have: seq<Line>, want: seq<Line>)
    requires |have| == |want|
    ensures |Agreeing(have, want)| + |Disagreeing(have, want)| == |want|
  {
    hide Score;
    assert Score(want, want) == |want|;
    assert Agreeing(have, want) !! Disagreeing(have, want);
    assert Agreeing(have, want) + Disagreeing(have, want) == Agreeing(want, want);
  }

  /** The anchored lines inside a context found at `at`. */
  function Placed(range: LineRange, at: nat): LineRange {
    var length := SaturatingAdd(SaturatingSub(range.end, range.start), 1);
    var start := SaturatingAdd(SaturatingAdd(at, MarginBefore(range)), 1);
    LineRange(start, SaturatingSub(SaturatingAdd(start, length), 1))
  }

  method FindBest(target: seq<Line>, context: seq<Line>) returns (at: nat, score: nat)
    requires |context| <= |target|
    ensures FirstBest(target, context, at) && score == ScoreAt(target, context, at)
  {
    hide ScoreAt;
    var best: Option<(nat, nat)> := None;
    for start: nat := 0 to |target| - |context| + 1
      invariant best.None? <==> start == 0
      invariant best.Some? ==> best.value.0 < start && best.value.0 + |context| <= |target|
      invariant best.Some? ==> best.value.1 == ScoreAt(target, context, best.value.0)
      invariant best.Some? ==> forall t: nat :: t < start && t + |context| <= |target| ==>
        ScoreAt(target, context, t) <= best.value.1 && (t < best.value.0 ==> ScoreAt(target, context, t) < best.value.1)
    {
      var here := ScoreAt(target, context, start);
      if best.None? || here > best.value.1 {
        best := Some((start, here));
      }
    }
    return best.value.0, best.value.1;
  }

  /** Match the captured context against the file now at the anchor's path; `entry` says whether that is a regular file
      and what it holds. */
  method ProjectFromContext(entry: Option<(bool, Bytes)>, path: string, lines: Option<LineRange>, captured: Bytes)
    returns (r: Projection)
    ensures entry.None? ==> r == Deleted
    ensures entry.Some? && !entry.value.0 ==> r == Outdated(path)
    ensures entry.Some? && entry.value.0 && lines.None? ==> r == Relocated(path, None)
    ensures entry.Some? && entry.value.0 && lines.Some? ==>
              var target, context := LinesOf(entry.value.1), LinesOf(captured);
              && (r == Outdated(path) <==> forall at: nat :: !Accepted(target, context, at))
              && (forall at: nat :: Accepted(target, context, at) ==>
                  r == Relocated(path, Some(Placed(lines.value, at))))
  {
    hide ScoreAt, FirstBest, Placed;
    if entry.None? {
      return Deleted;
    }
    if !entry.value.0 {
      return Outdated(path);
    }
    if lines.None? {
      return Relocated(path, None);
    }
    var target, context := LinesOf(entry.value.1), LinesOf(captured);
    var window := |context|;
    if window == 0 || window > |target| {
      NoWindow(target, context);
      return Outdated(path);
    }
    var at, score := FindBest(target, context);
    forall other | FirstBest(target, context, other)
      ensures other == at
    {
      FirstBestIsOne(target, context, at, other);
    }
    if score * 2 < window {
      return Outdated(path);
    }
    assert Accepted(LinesOf(entry.value.1), LinesOf(captured), at);
    return Relocated(path, Some(Placed(lines.value, at)));
  }

  lemma NoWindow(target: seq<Line>, context: seq<Line>)
    requires context == [] || |context| > |target|
    ensures forall at: nat :: !Accepted(target, context, at)
  {
  }

  // -- what an accepted answer is ------------------------------------------------------------------

  /** An accepted answer covers as many lines as were anchored exactly when any were, and then lies inside the target
      file.  Capture also accepts an empty range, whose answer then covers a line. */
  lemma AcceptedLengthIff(content: Bytes, range: LineRange, target: seq<Line>, at: nat)
    requires Captured(content, range) && |content| <= MAX_LEN && |target| <= MAX_LEN
    requires Accepted(target, LinesOf(CaptureContext(content, Some(range))), at)
    ensures var r := Placed(range, at);
            && (r.end + 1 - r.start == range.end + 1 - range.start <==> range.start <= range.end)
            && (range.start <= range.end ==> InFile(r, |target|))
  {
    hide LinesOf, CaptureContext, ScoreAt;
    ContextIsWindow(content, range);
    LinesAreFew(content);
  }

  lemma EmptyAnchorPointsOutside()
    ensures var content, range := "a\nb\n", LineRange(3, 2);
            && Captured(content, range)
            && Accepted(LinesOf(content), LinesOf(CaptureContext(content, Some(range))), 0)
            && !InFile(Placed(range, 0), |LinesOf(content)|)
  {
    var content, range := "a\nb\n", LineRange(3, 2);
    FirstLineSplits("a\n", "b\n");
    FirstLineSplits("b\n", "");
    assert content == "a\n" + "b\n" && content[2..] == "b\n" && "b\n" + "" == "b\n";
    assert "b\n"[2..] == "";
    assert LinesOf("b\n") == ["b\n"];
    assert LinesOf(content) == ["a\n", "b\n"];
    ContextIsWindow(content, range);
    assert Window(content, range) == LineRange(1, 2);
    var all := LinesOf(content);
    assert all[0..2] == all;
    assert ScoreAt(all, all, 0) == 2;
  }

  // -- agreement with the exact mapping ------------------------------------------------------------

  /** A range no hunk touches has a followed answer. */
  lemma UntouchedFollows(before: seq<Line>, after: seq<Line>, hunks: seq<Hunk>, range: LineRange) returns (r: LineRange)
    requires IsDiff(before, after, hunks, 0, 0) && InFile(range, |before|)
    requires !Touched(hunks, range.start - 1, range.end)
    ensures Follows(before, after, hunks, range, r)
  {
    hide IsDiff, Touches, Follows;
    var start, i := range.start - 1, 0;
    assert hunks[0..] == hunks;
    while i < |hunks| && hunks[i].beforeEnd <= start
      invariant i <= |hunks| && EndOf(hunks, i).0 <= start
      invariant IsDiff(before, after, hunks[i..], EndOf(hunks, i).0, EndOf(hunks, i).1)
    {
      ScanStep(before, after, hunks, i);
      i := i + 1;
    }
    if i < |hunks| && hunks[i].beforeStart < range.end {
      ScanStep(before, after, hunks, i);
      NeitherSideTouches(hunks[i], start, range.end);
      assert false;
    }
    var shifted := start - EndOf(hunks, i).0 + EndOf(hunks, i).1;
    ShiftFollows(before, after, hunks, range, i, shifted);
    r := LineRange(shifted + 1, shifted + 1 + range.end - range.start);
  }

  lemma NarrowerIsUntouched(hunks: seq<Hunk>, outer: LineRange, inner: LineRange)
    requires 1 <= outer.start <= inner.start <= inner.end <= outer.end
    requires !Touched(hunks, outer.start - 1, outer.end)
    ensures !Touched(hunks, inner.start - 1, inner.end)
  {
  }

  /** When no hunk touches the captured window and the context occurs once in the target, the fallback finds the exact
      mapping's answer. */
  lemma FuzzyAgreesWithExact(content: Bytes, target: seq<Line>, hunks: seq<Hunk>, range: LineRange, r: LineRange)
    returns (at: nat)
    requires |content| <= MAX_LEN && |target| <= MAX_LEN && Captured(content, range) && range.start <= range.end
    requires IsDiff(LinesOf(content), target, hunks, 0, 0)
    requires !Touched(hunks, Window(content, range).start - 1, Window(content, range).end)
    requires var context := LinesOf(CaptureContext(content, Some(range)));
             forall s: nat, t: nat :: Occurs(target, context, s) && Occurs(target, context, t) ==> s == t
    requires Follows(LinesOf(content), target, hunks, range, r)
    ensures !Touched(hunks, range.start - 1, range.end)
    ensures Accepted(target, LinesOf(CaptureContext(content, Some(range))), at) && Placed(range, at) == r
  {
    hide LinesOf, CaptureContext, IsDiff, Carries, Touched, Score;
    var before, w := LinesOf(content), Window(content, range);
    var context := LinesOf(CaptureContext(content, Some(range)));
    ContextIsWindow(content, range);
    NarrowerIsUntouched(hunks, w, range);
    var found := UntouchedFollows(before, target, hunks, w);
    FollowedLinesAreEqual(before, target, hunks, w, found);
    at := found.start - 1;
    assert Occurs(target, context, at);
    forall t: nat | t + |context| <= |target| && t != at
      ensures ScoreAt(target, context, t) < ScoreAt(target, context, at)
    {
      assert !Occurs(target, context, t);
    }
    SameFirstLine(before, target, hunks, w, found, range, r);
  }

  lemma SameFirstLine(
    before: seq<Line>, target: seq<Line>, hunks: seq<Hunk>, w: LineRange, found: LineRange,
    range: LineRange, r: LineRange)
    requires IsDiff(before, target, hunks, 0, 0) && w.start <= range.start <= range.end <= w.end
    requires Follows(before, target, hunks, w, found) && Follows(before, target, hunks, range, r)
    ensures r.start - found.start == range.start - w.start
  {
    hide IsDiff, Carries;
    var k: nat := range.start - w.start;
    assert CarriesNth(hunks, w, found, k) && CarriesNth(hunks, range, r, 0);
    CarriesToOneLine(before, target, hunks, 0, 0, range.start - 1, found.start - 1 + k, r.start - 1);
  }
}
